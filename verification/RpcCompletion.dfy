/**
 Which calls can still return: in every reachable state exactly those whose request is unanswered on its way,
 whose reply is on its way to the client, or whose `done` is closed. All others can only be aborted.
 */
module RpcCompletion {
  import opened Wrappers
  import opened Rpc
  import opened RpcProtocol

  // ----- Out of reach -----

  ghost predicate NoRequest(reqs: seq<Request>, id: CorrId) {
    forall i :: 0 <= i < |reqs| ==> reqs[i].corrId != id
  }

  ghost predicate NoMail(mail: seq<Reply>, id: CorrId) {
    forall i :: 0 <= i < |mail| ==> mail[i].corrId != id
  }

  /** Neither the request nor the reply is on its way, and the reply has not been delivered to the call. */
  ghost predicate OutOfReach(s: State, id: CorrId) {
    && id in s.calls && s.calls[id].closes == 0 && s.calls[id].client < |s.clients|
    && NoRequest(Pending(s), id)
    && NoMail(Mail(s.clients[s.calls[id].client]), id)
  }

  predicate Aborts(pc: CallPc) {
    (pc.Leaving? || pc.Returned?) && pc.r.Aborted?
  }

  predicate OnlyAborts(pc: CallPc) {
    pc.Sent? || pc.Waiting? || Aborts(pc)
  }

  // ----- What a step does to requests and replies on their way -----

  /** The requests on their way after the step. */
  ghost function PendingAfter(s: State, a: Action): seq<Request>
    requires Enabled(s, a)
  {
    match a
    case Publish(id, client, handler, body) => Pending(s) + [Request(id, handler, body, s.clients[client].exchange)]
    case Answer(_) => Pending(s)[1..]
    case ServerReconnects => Pending(s)[..|Pending(s)| - |s.queue|]
    case _ => Pending(s)
  }

  lemma PendingSame(e: Env, s: State, a: Action)
    requires Inv(e, s) && Enabled(s, a) && !a.Publish? && !a.Answer? && !a.ServerReconnects?
    ensures Pending(Next(e, s, a)) == Pending(s)
  {
    if IsCallerStep(a) { CallerStepMoves(e, s, a); }
  }

  lemma PendingStep(e: Env, s: State, a: Action)
    requires Inv(e, s) && Enabled(s, a)
    ensures Pending(Next(e, s, a)) == PendingAfter(s, a)
  {
    if !a.Publish? && !a.Answer? && !a.ServerReconnects? { PendingSame(e, s, a); }
  }

  /** How many replies at the front of client c's mail the step takes away. */
  ghost function Taken(s: State, a: Action, c: nat): nat
    requires Enabled(s, a) && c < |s.clients|
  {
    match a
    case Lookup(k) => if k == c && s.clients[c].loop.r.corrId !in s.clients[c].registered then 1 else 0
    case Close(k) => if k == c then 1 else 0
    case _ => 0
  }

  /** The replies on their way to client c after the step. */
  ghost function MailAfter(e: Env, s: State, a: Action, c: nat): seq<Reply>
    requires Enabled(s, a) && c < |s.clients|
  {
    var mail := Mail(s.clients[c]);
    match a
    case Answer(sent) =>
      if sent && s.clients[c].exchange == s.serving.value.replyTo then mail + [ReplyFor(e, s.serving.value)] else mail
    case ClientReconnects(k) => if k == c then mail[..|mail| - |s.clients[c].inbox|] else mail
    case Lookup(_) => mail[Taken(s, a, c)..]
    case Close(_) => mail[Taken(s, a, c)..]
    case _ => mail
  }

  ghost predicate MailIs(s: State, s': State, c: nat, mail: seq<Reply>) {
    c < |s.clients| == |s'.clients| && Mail(s'.clients[c]) == mail
  }

  lemma AnswerMail(e: Env, s: State, a: Action, c: nat)
    requires Enabled(s, a) && (a.Answer? || a.Publish? || a.Take? || a.ServerReconnects?) && c < |s.clients|
    ensures MailIs(s, Next(e, s, a), c, MailAfter(e, s, a, c))
  {
  }

  lemma InboxMail(e: Env, s: State, a: Action, c: nat)
    requires Enabled(s, a) && (a.Receive? || a.Lookup? || a.ClientReconnects?) && c < |s.clients|
    ensures MailIs(s, Next(e, s, a), c, MailAfter(e, s, a, c))
  {
  }

  lemma CallerMail(e: Env, s: State, a: Action, c: nat)
    requires Inv(e, s) && Enabled(s, a) && IsCallerStep(a) && c < |s.clients|
    ensures MailIs(s, Next(e, s, a), c, MailAfter(e, s, a, c))
  {
    CallerStepMoves(e, s, a);
  }

  lemma ServedMail(e: Env, s: State, a: Action, c: nat)
    requires Enabled(s, a) && IsServeStep(a) && c < |s.clients|
    ensures MailIs(s, Next(e, s, a), c, MailAfter(e, s, a, c))
  {
    ServeShape(e, s, a, c);
  }

  lemma MailStep(e: Env, s: State, a: Action, c: nat)
    requires Inv(e, s) && Enabled(s, a) && c < |s.clients|
    ensures MailIs(s, Next(e, s, a), c, MailAfter(e, s, a, c))
  {
    if IsCallerStep(a) {
      CallerMail(e, s, a, c);
    } else if IsServeStep(a) {
      ServedMail(e, s, a, c);
    } else if a.Receive? || a.Lookup? || a.ClientReconnects? {
      InboxMail(e, s, a, c);
    } else {
      AnswerMail(e, s, a, c);
    }
  }

  // ----- Out of reach for good -----

  /** A request that is gone does not come back. */
  lemma NoNewRequest(s: State, a: Action, id: CorrId)
    requires Enabled(s, a) && id in s.calls && NoRequest(Pending(s), id)
    ensures NoRequest(PendingAfter(s, a), id)
  {
    var reqs, reqs' := Pending(s), PendingAfter(s, a);
    if a.Publish? { assert forall i :: 0 <= i < |reqs| ==> reqs'[i] == reqs[i]; }
  }

  /** Without a request on its way, no step brings the call a reply. */
  lemma NoNewMail(e: Env, s: State, a: Action, c: nat, id: CorrId)
    requires Enabled(s, a) && c < |s.clients| && NoRequest(Pending(s), id) && NoMail(Mail(s.clients[c]), id)
    ensures NoMail(MailAfter(e, s, a, c), id)
  {
    if a.Answer? { assert Pending(s)[0] == s.serving.value; }
  }

  lemma LostServed(e: Env, s: State, a: Action, id: CorrId)
    requires Inv(e, s) && Enabled(s, a) && IsServeStep(a) && OutOfReach(s, id)
    ensures id in Next(e, s, a).calls && Next(e, s, a).calls[id] == s.calls[id]
  {
    HeldReply(e, s, a.c);
    if s.calls[id].client == a.c { assert Mail(s.clients[a.c])[0] == s.clients[a.c].loop.r; }
  }

  lemma LostCall(e: Env, s: State, a: Action, id: CorrId)
    requires Inv(e, s) && Enabled(s, a) && OutOfReach(s, id) && OnlyAborts(s.calls[id].pc)
    ensures
      var s' := Next(e, s, a);
      && id in s'.calls && s'.calls[id].closes == 0 && s'.calls[id].client == s.calls[id].client
      && OnlyAborts(s'.calls[id].pc)
  {
    if IsServeStep(a) { LostServed(e, s, a, id); }
  }

  lemma LostStaysLost(e: Env, s: State, a: Action, id: CorrId)
    requires Inv(e, s) && Enabled(s, a) && OutOfReach(s, id) && OnlyAborts(s.calls[id].pc)
    ensures OutOfReach(Next(e, s, a), id) && OnlyAborts(Next(e, s, a).calls[id].pc)
  {
    PendingStep(e, s, a);
    MailStep(e, s, a, s.calls[id].client);
    NoNewRequest(s, a, id);
    NoNewMail(e, s, a, s.calls[id].client, id);
    LostCall(e, s, a, id);
  }

  /** A call out of reach never completes: however the run goes on, it can only be aborted. */
  lemma {:induction false} LostReplyOnlyAborts(e: Env, s: State, run: seq<Action>, id: CorrId)
    requires Inv(e, s) && IsRun(e, s, run) && OutOfReach(s, id) && OnlyAborts(s.calls[id].pc)
    ensures var t := After(e, s, run);
            id in t.calls && t.calls[id].closes == 0 && (t.calls[id].pc.Returned? ==> t.calls[id].pc.r.Aborted?)
    decreases |run|
  {
    if run != [] {
      StepInv(e, s, run[0]);
      LostStaysLost(e, s, run[0], id);
      LostReplyOnlyAborts(e, Next(e, s, run[0]), run[1..], id);
    }
  }

  // ----- How calls get out of reach -----

  /** A client drops its own call's reply only before the call is registered, which then is lost for good, or
      after the call was aborted; either way no call and no other part of the state changes. */
  lemma DroppedReply(e: Env, exchanges: seq<string>, s: State, c: nat)
    requires Reachable(e, exchanges, s) && Enabled(s, Lookup(c))
    requires s.clients[c].loop.r.corrId !in s.clients[c].registered
    ensures Next(e, s, Lookup(c)) == s.(clients := s.clients[c := s.clients[c].(loop := Idle)])
    ensures
      var id := s.clients[c].loop.r.corrId;
      id in s.calls && (s.calls[id].client == c ==>
        || (s.calls[id].pc.Sent? && OutOfReach(Next(e, s, Lookup(c)), id))
        || (s.calls[id].pc.Returned? && s.calls[id].pc.r.Aborted?))
  {
    ReachableInv(e, exchanges, s);
    HeldReply(e, s, c);
    assert GoodClient(e, s, c);
    var mail := Mail(s.clients[c]);
    assert Mail(Next(e, s, Lookup(c)).clients[c]) == mail[1..];
    AnsweredNotPending(e, s, s.clients[c].loop.r.corrId);
  }

  lemma AnsweredNotPending(e: Env, s: State, id: CorrId)
    requires Inv(e, s) && id in s.answered
    ensures NoRequest(Pending(s), id)
  {
  }

  /** A reconnecting server loses every request it has not begun to serve. */
  lemma ReconnectLosesCalls(e: Env, exchanges: seq<string>, s: State, i: nat)
    requires Reachable(e, exchanges, s) && i < |s.queue|
    ensures OutOfReach(Next(e, s, ServerReconnects), s.queue[i].corrId)
  {
    ReachableInv(e, exchanges, s);
    var k := |Pending(s)| - |s.queue|;
    var r := s.queue[i];
    assert Pending(s)[k + i] == r;
    assert s.serving.Some? ==> Pending(s)[0] == s.serving.value;
    assert GoodCall(e, s, r.corrId);
    var c := s.calls[r.corrId].client;
    assert GoodClient(e, s, c);
    forall m | 0 <= m < |Mail(s.clients[c])| ensures Mail(s.clients[c])[m].corrId != r.corrId {
      assert GoodReply(e, s, c, Mail(s.clients[c])[m]);
    }
  }

  // ----- In reach: a reply on its way can be delivered -----

  /** From s to s', the call has not moved and is still the same. */
  ghost predicate SameCall(s: State, s': State, id: CorrId) {
    && id in s.calls && id in s'.calls
    && s'.calls[id].pc == s.calls[id].pc && s'.calls[id].client == s.calls[id].client
    && s'.calls[id].request == s.calls[id].request
  }

  ghost predicate MailAt(s: State, id: CorrId, k: nat) {
    && id in s.calls && s.calls[id].client < |s.clients|
    && k < |Mail(s.clients[s.calls[id].client])| && Mail(s.clients[s.calls[id].client])[k].corrId == id
  }

  ghost predicate RequestAt(s: State, id: CorrId, k: nat) {
    k < |Pending(s)| && Pending(s)[k].corrId == id
  }

  function Stage(l: Loop): nat {
    match l
    case Idle => 5
    case Holding(_) => 4
    case Found(_) => 3
    case StatusSet(_) => 2
    case BodySet(_) => 1
  }

  function MailWork(s: State, id: CorrId, k: nat): nat
    requires id in s.calls && s.calls[id].client < |s.clients|
  {
    6 * k + Stage(s.clients[s.calls[id].client].loop)
  }

  /** The step took the call's reply nearer, or delivered it. */
  ghost predicate Nearer(s: State, k: nat, s': State, k': nat, id: CorrId)
    requires id in s.calls && s.calls[id].client < |s.clients|
  {
    && SameCall(s, s', id)
    && (s'.calls[id].closes > 0 || (MailAt(s', id, k') && MailWork(s', id, k') < MailWork(s, id, k)))
  }

  lemma ReceiveNearer(e: Env, s: State, id: CorrId, k: nat)
    requires Inv(e, s) && CallAt(s, id, Waiting) && MailAt(s, id, k) && s.clients[s.calls[id].client].loop.Idle?
    ensures var a := Receive(s.calls[id].client); Enabled(s, a) && Nearer(s, k, Next(e, s, a), k, id)
  {
    var c := s.calls[id].client;
    assert Mail(Next(e, s, Receive(c)).clients[c]) == Mail(s.clients[c]);
  }

  lemma LookupShape(e: Env, s: State, c: nat)
    requires Enabled(s, Lookup(c))
    ensures
      var s' := Next(e, s, Lookup(c));
      && s'.calls == s.calls && |s'.clients| == |s.clients|
      && if s.clients[c].loop.r.corrId in s.clients[c].registered
         then s'.clients[c].loop.Found? && Mail(s'.clients[c]) == Mail(s.clients[c])
         else s'.clients[c].loop.Idle? && Mail(s'.clients[c]) == Mail(s.clients[c])[1..]
  {
  }

  lemma LookupNearer(e: Env, s: State, id: CorrId, k: nat) returns (k': nat)
    requires Inv(e, s) && CallAt(s, id, Waiting) && MailAt(s, id, k) && s.clients[s.calls[id].client].loop.Holding?
    ensures var a := Lookup(s.calls[id].client); Enabled(s, a) && Nearer(s, k, Next(e, s, a), k', id)
  {
    var c := s.calls[id].client;
    LookupShape(e, s, c);
    if s.clients[c].loop.r.corrId in s.clients[c].registered {
      k' := k;
    } else {
      assert GoodClient(e, s, c);
      assert Mail(s.clients[c])[0] == s.clients[c].loop.r;
      k' := k - 1;
    }
  }

  lemma WriteShape(e: Env, s: State, a: Action)
    requires Enabled(s, a) && (a.SetStatus? || a.SetBody?)
    ensures
      var s' := Next(e, s, a);
      && |s'.clients| == |s.clients| && Mail(s'.clients[a.c]) == Mail(s.clients[a.c])
      && Stage(s'.clients[a.c].loop) < Stage(s.clients[a.c].loop)
  {
  }

  lemma NearerBy(s: State, s': State, id: CorrId, k: nat)
    requires MailAt(s, id, k) && SameCall(s, s', id) && |s'.clients| == |s.clients|
    requires
      var c := s.calls[id].client;
      Mail(s'.clients[c]) == Mail(s.clients[c]) && Stage(s'.clients[c].loop) < Stage(s.clients[c].loop)
    ensures Nearer(s, k, s', k, id)
  {
  }

  lemma WriteNearer(e: Env, s: State, id: CorrId, k: nat, a: Action)
    requires Inv(e, s) && CallAt(s, id, Waiting) && MailAt(s, id, k) && Enabled(s, a)
    requires (a.SetStatus? || a.SetBody?) && a.c == s.calls[id].client
    ensures Nearer(s, k, Next(e, s, a), k, id)
  {
    WriteShape(e, s, a);
    ServedCall(e, s, a, id);
    NearerBy(s, Next(e, s, a), id, k);
  }

  lemma CloseNearer(e: Env, s: State, id: CorrId, k: nat, a: Action) returns (k': nat)
    requires Inv(e, s) && CallAt(s, id, Waiting) && MailAt(s, id, k) && Enabled(s, a)
    requires a.Close? && a.c == s.calls[id].client
    ensures Nearer(s, k, Next(e, s, a), k', id)
  {
    ServeShape(e, s, a, a.c);
    ServedCall(e, s, a, id);
    k' := if k > 0 then k - 1 else 0;
    if k == 0 { assert Mail(s.clients[a.c])[0] == s.clients[a.c].loop.r; }
  }

  lemma ServeEnabled(e: Env, s: State, c: nat) returns (a: Action)
    requires Inv(e, s) && c < |s.clients| && !s.clients[c].loop.Idle? && !s.clients[c].loop.Holding?
    ensures Enabled(s, a) && IsServeStep(a) && a.c == c
  {
    HeldReply(e, s, c);
    var l := s.clients[c].loop;
    a := if l.Found? then SetStatus(c) else if l.StatusSet? then SetBody(c) else Close(c);
  }

  lemma NextDelivery(e: Env, s: State, id: CorrId, k: nat) returns (a: Action, k': nat)
    requires Inv(e, s) && CallAt(s, id, Waiting) && MailAt(s, id, k)
    ensures Enabled(s, a) && Nearer(s, k, Next(e, s, a), k', id)
  {
    var c := s.calls[id].client;
    var l := s.clients[c].loop;
    if l.Idle? {
      a, k' := Receive(c), k;
      ReceiveNearer(e, s, id, k);
    } else if l.Holding? {
      a := Lookup(c);
      k' := LookupNearer(e, s, id, k);
    } else {
      a := ServeEnabled(e, s, c);
      if a.Close? {
        k' := CloseNearer(e, s, id, k, a);
      } else {
        k' := k;
        WriteNearer(e, s, id, k, a);
      }
    }
  }

  lemma ServedCall(e: Env, s: State, a: Action, id: CorrId)
    requires Inv(e, s) && Enabled(s, a) && IsServeStep(a) && id in s.calls
    ensures SameCall(s, Next(e, s, a), id)
    ensures a.Close? && s.clients[a.c].loop.r.corrId == id ==> Next(e, s, a).calls[id].closes > 0
  {
  }

  lemma {:induction false} DeliverMail(e: Env, s: State, id: CorrId, k: nat) returns (run: seq<Action>)
    requires Inv(e, s) && CallAt(s, id, Waiting) && MailAt(s, id, k)
    ensures IsRun(e, s, run)
    ensures var t := After(e, s, run); Inv(e, t) && SameCall(s, t, id) && t.calls[id].closes > 0
    decreases MailWork(s, id, k)
  {
    var a, k' := NextDelivery(e, s, id, k);
    var s' := Next(e, s, a);
    StepInv(e, s, a);
    var rest := [];
    if s'.calls[id].closes == 0 {
      rest := DeliverMail(e, s', id, k');
    }
    run := [a] + rest;
    assert run[1..] == rest;
  }

  // ----- In reach: a pending request can be answered -----

  function RequestWork(s: State, k: nat): nat {
    2 * k + (if s.serving.None? then 1 else 0)
  }

  lemma AnswerFirst(e: Env, s: State, id: CorrId)
    requires Inv(e, s) && s.serving.Some? && s.serving.value.corrId == id
    ensures id in s.calls && SameCall(s, Next(e, s, Answer(true)), id)
    ensures exists k :: MailAt(Next(e, s, Answer(true)), id, k)
  {
    var r := s.serving.value;
    assert Pending(s)[0] == r;
    assert GoodCall(e, s, id);
    var c := s.calls[id].client;
    var k := |Mail(s.clients[c])|;
    assert Mail(Next(e, s, Answer(true)).clients[c]) == Mail(s.clients[c]) + [ReplyFor(e, r)];
    assert ReplyFor(e, r).corrId == id;
    assert MailAt(Next(e, s, Answer(true)), id, k);
  }

  lemma QueueMoves(e: Env, s: State, id: CorrId, k: nat)
    requires Inv(e, s) && id in s.calls && RequestAt(s, id, k) && (s.serving.Some? ==> k > 0)
    ensures
      var a := if s.serving.None? then Take else Answer(true);
      var k' := if s.serving.None? then k else k - 1;
      && Enabled(s, a) && SameCall(s, Next(e, s, a), id)
      && RequestAt(Next(e, s, a), id, k') && RequestWork(Next(e, s, a), k') < RequestWork(s, k)
  {
    if s.serving.None? {
      assert Pending(Next(e, s, Take)) == Pending(s);
    } else {
      assert Pending(Next(e, s, Answer(true))) == Pending(s)[1..];
    }
  }

  lemma {:induction false} AnswerRequest(e: Env, s: State, id: CorrId, k: nat) returns (run: seq<Action>, k': nat)
    requires Inv(e, s) && id in s.calls && RequestAt(s, id, k)
    ensures IsRun(e, s, run)
    ensures var t := After(e, s, run); Inv(e, t) && SameCall(s, t, id) && MailAt(t, id, k')
    decreases RequestWork(s, k)
  {
    var a := if s.serving.None? then Take else Answer(true);
    if s.serving.Some? && k == 0 {
      StepInv(e, s, a);
      AnswerFirst(e, s, id);
      k' :| MailAt(Next(e, s, a), id, k');
      run := [a];
      assert run[1..] == [];
    } else {
      QueueMoves(e, s, id, k);
      StepInv(e, s, a);
      var rest;
      rest, k' := AnswerRequest(e, Next(e, s, a), id, if s.serving.None? then k else k - 1);
      run := [a] + rest;
      assert run[1..] == rest;
    }
  }

  // ----- A closed call can return -----

  predicate Open(pc: CallPc) {
    !pc.Returned? && !Aborts(pc)
  }

  function CallerWork(pc: CallPc): nat {
    match pc
    case Sent => 4
    case Waiting => 3
    case Observed => 2
    case Leaving(_) => 1
    case Returned(_) => 0
  }

  lemma {:induction false} FinishClosed(e: Env, s: State, id: CorrId) returns (run: seq<Action>)
    requires Inv(e, s) && id in s.calls && s.calls[id].closes > 0 && Open(s.calls[id].pc)
    ensures IsRun(e, s, run)
    ensures
      var t := After(e, s, run);
      && id in t.calls
      && t.calls[id].pc == Returned(OutcomeOf(e.codec, ReplyFor(e, s.calls[id].request).status,
          ReplyFor(e, s.calls[id].request).body))
    decreases CallerWork(s.calls[id].pc)
  {
    var pc := s.calls[id].pc;
    var a := if pc.Sent? then Register(id) else if pc.Waiting? then Observe(id) else if pc.Observed? then Read(id)
        else Delete(id);
    var s' := Next(e, s, a);
    assert GoodCall(e, s, id);
    StepInv(e, s, a);
    assert s'.calls[id] == s.calls[id].(pc := s'.calls[id].pc);
    var rest := [];
    if pc.Leaving? {
      assert GoodCall(e, s, id);
    } else {
      rest := FinishClosed(e, s', id);
    }
    run := [a] + rest;
    assert run[1..] == rest;
  }

  // ----- The condition -----

  ghost predicate CanReturn(e: Env, s: State, id: CorrId)
    requires id in s.calls
  {
    exists run :: IsRun(e, s, run) && id in After(e, s, run).calls
                  && After(e, s, run).calls[id].pc == Returned(Direct(e, s.calls[id].request))
  }

  lemma {:induction false} RunConcat(e: Env, s: State, r1: seq<Action>, r2: seq<Action>)
    requires IsRun(e, s, r1) && IsRun(e, After(e, s, r1), r2)
    ensures IsRun(e, s, r1 + r2) && After(e, s, r1 + r2) == After(e, After(e, s, r1), r2)
    decreases |r1|
  {
    if r1 == [] {
      assert r1 + r2 == r2;
    } else {
      ConcatHead(r1, r2);
      RunConcat(e, Next(e, s, r1[0]), r1[1..], r2);
    }
  }

  lemma ClosedReturns(e: Env, s: State, id: CorrId)
    requires GoodCodec(e.codec) && Inv(e, s) && id in s.calls && s.calls[id].closes > 0 && Open(s.calls[id].pc)
    ensures CanReturn(e, s, id)
  {
    var run := FinishClosed(e, s, id);
    ReplyMeansDirect(e, s.calls[id].request);
  }

  lemma ReturnsLater(e: Env, s: State, run: seq<Action>, id: CorrId)
    requires id in s.calls && IsRun(e, s, run) && id in After(e, s, run).calls
    requires After(e, s, run).calls[id].request == s.calls[id].request && CanReturn(e, After(e, s, run), id)
    ensures CanReturn(e, s, id)
  {
    var t := After(e, s, run);
    var rest :| IsRun(e, t, rest) && id in After(e, t, rest).calls
                && After(e, t, rest).calls[id].pc == Returned(Direct(e, t.calls[id].request));
    RunConcat(e, s, run, rest);
    assert IsRun(e, s, run + rest);
  }

  lemma MailReturns(e: Env, s: State, id: CorrId, k: nat)
    requires GoodCodec(e.codec) && Inv(e, s) && CallAt(s, id, Waiting) && MailAt(s, id, k)
    ensures CanReturn(e, s, id)
  {
    var run := DeliverMail(e, s, id, k);
    ClosedReturns(e, After(e, s, run), id);
    ReturnsLater(e, s, run, id);
  }

  lemma RequestReturns(e: Env, s: State, id: CorrId, k: nat)
    requires GoodCodec(e.codec) && Inv(e, s) && CallAt(s, id, Waiting) && RequestAt(s, id, k)
    ensures CanReturn(e, s, id)
  {
    var run, k' := AnswerRequest(e, s, id, k);
    MailReturns(e, After(e, s, run), id, k');
    ReturnsLater(e, s, run, id);
  }

  lemma WaitingReturns(e: Env, s: State, id: CorrId)
    requires GoodCodec(e.codec) && Inv(e, s) && CallAt(s, id, Waiting) && !OutOfReach(s, id)
    ensures CanReturn(e, s, id)
  {
    assert GoodCall(e, s, id);
    if s.calls[id].closes > 0 {
      ClosedReturns(e, s, id);
    } else if !NoRequest(Pending(s), id) {
      var k :| 0 <= k < |Pending(s)| && Pending(s)[k].corrId == id;
      RequestReturns(e, s, id, k);
    } else {
      var mail := Mail(s.clients[s.calls[id].client]);
      var k :| 0 <= k < |mail| && mail[k].corrId == id;
      MailReturns(e, s, id, k);
    }
  }

  lemma RegisterKeepsReach(e: Env, s: State, id: CorrId)
    requires Inv(e, s) && CallAt(s, id, Sent) && !OutOfReach(s, id)
    ensures
      var t := Next(e, s, Register(id));
      CallAt(t, id, Waiting) && t.calls[id].request == s.calls[id].request && !OutOfReach(t, id)
  {
    assert GoodCall(e, s, id);
    CallerStepMoves(e, s, Register(id));
    var t := Next(e, s, Register(id));
    var c := s.calls[id].client;
    assert Pending(t) == Pending(s) && Mail(t.clients[c]) == Mail(s.clients[c]);
  }

  lemma InReachReturns(e: Env, s: State, id: CorrId)
    requires GoodCodec(e.codec) && Inv(e, s) && id in s.calls && Open(s.calls[id].pc) && !OutOfReach(s, id)
    ensures CanReturn(e, s, id)
  {
    assert GoodCall(e, s, id);
    if s.calls[id].pc.Sent? {
      var a := Register(id);
      StepInv(e, s, a);
      RegisterKeepsReach(e, s, id);
      WaitingReturns(e, Next(e, s, a), id);
      assert [a][1..] == [];
      ReturnsLater(e, s, [a], id);
    } else if s.calls[id].pc.Waiting? {
      WaitingReturns(e, s, id);
    } else {
      ClosedReturns(e, s, id);
    }
  }

  lemma OutOfReachNeverReturns(e: Env, s: State, id: CorrId)
    requires GoodCodec(e.codec) && Inv(e, s) && OutOfReach(s, id)
    ensures Open(s.calls[id].pc) ==> !CanReturn(e, s, id)
  {
    assert GoodCall(e, s, id);
    if Open(s.calls[id].pc) && CanReturn(e, s, id) {
      var run :| IsRun(e, s, run) && id in After(e, s, run).calls
                 && After(e, s, run).calls[id].pc == Returned(Direct(e, s.calls[id].request));
      LostReplyOnlyAborts(e, s, run, id);
      ReplyMeansDirect(e, s.calls[id].request);
      assert false;
    }
  }

  /** In every reachable state, a call not yet aborted or returned can still return what a direct dispatch
      gives exactly when its done is closed, its request is pending, or its reply is on its way to its client. */
  lemma ReturnsExactly(e: Env, exchanges: seq<string>, s: State, id: CorrId)
    requires GoodCodec(e.codec) && Reachable(e, exchanges, s)
    requires id in s.calls && Open(s.calls[id].pc)
    ensures s.calls[id].client < |s.clients|
    ensures
      var mail := Mail(s.clients[s.calls[id].client]);
      CanReturn(e, s, id) <==>
        || s.calls[id].closes == 1
        || (exists k :: 0 <= k < |Pending(s)| && Pending(s)[k].corrId == id)
        || (exists k :: 0 <= k < |mail| && mail[k].corrId == id)
  {
    ReachableInv(e, exchanges, s);
    assert GoodCall(e, s, id);
    if OutOfReach(s, id) { OutOfReachNeverReturns(e, s, id); } else { InReachReturns(e, s, id); }
  }

  /** So a call can return from the moment its request is published, in any state. */
  lemma PublishedCanReturn(e: Env, exchanges: seq<string>, s: State, a: Action)
    requires GoodCodec(e.codec) && Reachable(e, exchanges, s) && Enabled(s, a) && a.Publish?
    ensures a.id in Next(e, s, a).calls && CanReturn(e, Next(e, s, a), a.id)
  {
    var s' := Next(e, s, a);
    ReachableInv(e, exchanges, s);
    StepInv(e, s, a);
    assert Pending(s')[|Pending(s)|].corrId == a.id;
    assert !OutOfReach(s', a.id);
    InReachReturns(e, s', a.id);
  }

  // ----- The steps that lose a call -----

  /** The four ways to lose an open call: its reply is looked up before it is registered, its reply is not sent, its
      request is dropped by a reconnecting server, or its reply by its reconnecting client. */
  ghost predicate Loses(s: State, a: Action, id: CorrId)
    requires Enabled(s, a) && id in s.calls
  {
    match a
    case Lookup(c) => c == s.calls[id].client && s.clients[c].loop.r.corrId == id && s.calls[id].pc.Sent?
    case Answer(sent) => !sent && s.serving.value.corrId == id
    case ServerReconnects => !NoRequest(s.queue, id)
    case ClientReconnects(c) => c == s.calls[id].client && !NoMail(s.clients[c].inbox, id)
    case _ => false
  }

  /** The step leaves the call where it is, but for a close of its done channel. */
  ghost predicate CallKept(e: Env, s: State, a: Action, id: CorrId)
    requires Enabled(s, a) && id in s.calls
  {
    var s' := Next(e, s, a);
    && id in s'.calls && s'.calls[id].client == s.calls[id].client
    && s'.calls[id].closes == s.calls[id].closes +
       (if a.Close? && s.clients[a.c].loop.r.corrId == id then 1 else 0)
  }

  lemma CallStep(e: Env, s: State, a: Action, id: CorrId)
    requires Inv(e, s) && Enabled(s, a) && id in s.calls
    ensures CallKept(e, s, a, id)
  {
    if IsCallerStep(a) { CallerStepMoves(e, s, a); }
  }

  /** Where the call stands after the step, by what is on its way then. */
  lemma ReachAfter(e: Env, s: State, a: Action, id: CorrId)
    requires Inv(e, s) && Enabled(s, a) && id in s.calls && s.calls[id].client < |s.clients|
    ensures OutOfReach(Next(e, s, a), id) <==>
            && s.calls[id].closes == 0 && !(a.Close? && s.clients[a.c].loop.r.corrId == id)
            && NoRequest(PendingAfter(s, a), id)
            && NoMail(MailAfter(e, s, a, s.calls[id].client), id)
  {
    CallStep(e, s, a, id);
    PendingStep(e, s, a);
    MailStep(e, s, a, s.calls[id].client);
  }

  /** The call's request and reply are not on their way together, and neither is once it is closed. */
  lemma OnePlace(e: Env, s: State, id: CorrId)
    requires Inv(e, s) && id in s.calls
    ensures s.calls[id].client < |s.clients|
    ensures NoRequest(Pending(s), id) || NoMail(Mail(s.clients[s.calls[id].client]), id)
    ensures s.calls[id].closes > 0 ==> NoRequest(Pending(s), id) && NoMail(Mail(s.clients[s.calls[id].client]), id)
  {
    assert GoodCall(e, s, id);
    var c := s.calls[id].client;
    assert GoodClient(e, s, c);
    if id in s.answered { AnsweredNotPending(e, s, id); }
    forall i | 0 <= i < |Mail(s.clients[c])| && Mail(s.clients[c])[i].corrId == id
      ensures id in s.answered && s.calls[id].closes == 0
    {
      assert GoodReply(e, s, c, Mail(s.clients[c])[i]);
    }
  }

  lemma RequestSplit(held: seq<Request>, queue: seq<Request>, id: CorrId, k: nat)
    requires k < |held + queue| && (held + queue)[k].corrId == id
    requires forall i :: 0 <= i < |held + queue| && i != k ==> (held + queue)[i].corrId != id
    ensures !NoRequest(queue, id) <==> k >= |held|
  {
    var all := held + queue;
    assert forall i :: 0 <= i < |queue| ==> queue[i] == all[|held| + i];
    if k >= |held| { assert queue[k - |held|] == all[k]; }
  }

  lemma PendingIndex(s: State, id: CorrId, k: nat)
    requires GoodRequests(s) && RequestAt(s, id, k)
    ensures forall i :: 0 <= i < |Pending(s)| && i != k ==> Pending(s)[i].corrId != id
    ensures s.serving.Some? ==> (s.serving.value.corrId == id <==> k == 0)
  {
    assert s.serving.Some? ==> Pending(s)[0] == s.serving.value;
  }

  lemma RequestKept(s: State, a: Action, id: CorrId, k: nat)
    requires Enabled(s, a) && RequestAt(s, id, k) && !a.Answer? && !a.ServerReconnects?
    ensures !NoRequest(PendingAfter(s, a), id)
  {
    assert PendingAfter(s, a)[k].corrId == id;
  }

  lemma RequestDropped(s: State, id: CorrId, k: nat)
    requires GoodRequests(s) && RequestAt(s, id, k)
    ensures NoRequest(PendingAfter(s, ServerReconnects), id) <==> !NoRequest(s.queue, id)
  {
    PendingIndex(s, id, k);
    RequestSplit(if s.serving.Some? then [s.serving.value] else [], s.queue, id, k);
    var rest := PendingAfter(s, ServerReconnects);
    if k < |rest| { assert rest[k].corrId == id; }
  }

  lemma RequestAnswered(e: Env, s: State, a: Action, id: CorrId, k: nat)
    requires Inv(e, s) && Enabled(s, a) && a.Answer? && id in s.calls && RequestAt(s, id, k)
    requires s.calls[id].client < |s.clients| && NoMail(Mail(s.clients[s.calls[id].client]), id)
    ensures
      NoRequest(PendingAfter(s, a), id) && NoMail(MailAfter(e, s, a, s.calls[id].client), id) <==>
      !a.sent && s.serving.value.corrId == id
  {
    PendingIndex(s, id, k);
    var c := s.calls[id].client;
    var mail, mail' := Mail(s.clients[c]), MailAfter(e, s, a, c);
    if k == 0 {
      assert Pending(s)[0] == s.serving.value && GoodCall(e, s, id);
      assert a.sent ==> mail'[|mail|].corrId == id;
    } else {
      assert PendingAfter(s, a)[k - 1].corrId == id;
    }
  }

  lemma NoMailNoLoss(s: State, a: Action, id: CorrId)
    requires Enabled(s, a) && id in s.calls && s.calls[id].client < |s.clients|
    requires NoMail(Mail(s.clients[s.calls[id].client]), id) && !a.Answer? && !a.ServerReconnects?
    ensures !Loses(s, a, id)
  {
    var k := s.clients[s.calls[id].client];
    var held := |Mail(k)| - |k.inbox|;
    assert forall i :: 0 <= i < |k.inbox| ==> k.inbox[i] == Mail(k)[held + i];
    assert !k.loop.Idle? ==> Mail(k)[0] == k.loop.r;
  }

  /** A call whose request is on its way. */
  lemma RequestLoses(e: Env, s: State, a: Action, id: CorrId, k: nat)
    requires Inv(e, s) && Enabled(s, a) && id in s.calls && RequestAt(s, id, k)
    ensures OutOfReach(Next(e, s, a), id) <==> Loses(s, a, id)
  {
    OnePlace(e, s, id);
    ReachAfter(e, s, a, id);
    if a.Answer? {
      RequestAnswered(e, s, a, id, k);
    } else if a.ServerReconnects? {
      RequestDropped(s, id, k);
    } else {
      RequestKept(s, a, id, k);
      NoMailNoLoss(s, a, id);
    }
  }

  lemma MailSplit(held: seq<Reply>, inbox: seq<Reply>, id: CorrId, k: nat)
    requires k < |held + inbox| && (held + inbox)[k].corrId == id
    requires forall i :: 0 <= i < |held + inbox| && i != k ==> (held + inbox)[i].corrId != id
    ensures !NoMail(inbox, id) <==> k >= |held|
    ensures NoMail(held, id) <==> k >= |held|
  {
    var all := held + inbox;
    assert forall i :: 0 <= i < |inbox| ==> inbox[i] == all[|held| + i];
    assert forall i :: 0 <= i < |held| ==> held[i] == all[i];
    if k >= |held| { assert inbox[k - |held|] == all[k]; } else { assert held[k] == all[k]; }
  }

  lemma MailIndex(e: Env, s: State, id: CorrId, k: nat)
    requires Inv(e, s) && MailAt(s, id, k)
    ensures
      var c := s.clients[s.calls[id].client];
      && (forall i :: 0 <= i < |Mail(c)| && i != k ==> Mail(c)[i].corrId != id)
      && (!c.loop.Idle? ==> (c.loop.r.corrId == id <==> k == 0))
  {
    var c := s.clients[s.calls[id].client];
    assert GoodClient(e, s, s.calls[id].client);
    assert !c.loop.Idle? ==> Mail(c)[0] == c.loop.r;
  }

  lemma MailSliced(mail: seq<Reply>, n: nat, id: CorrId, k: nat)
    requires n <= |mail| && k < |mail| && mail[k].corrId == id
    requires forall i :: 0 <= i < |mail| && i != k ==> mail[i].corrId != id
    ensures NoMail(mail[n..], id) <==> k < n
  {
    assert mail[..n] + mail[n..] == mail;
    MailSplit(mail[..n], mail[n..], id, k);
  }

  lemma InboxGone(s: State, c: nat, id: CorrId, k: nat)
    requires c < |s.clients|
    requires var mail := Mail(s.clients[c]); k < |mail| && mail[k].corrId == id
    requires var mail := Mail(s.clients[c]); forall i :: 0 <= i < |mail| && i != k ==> mail[i].corrId != id
    ensures
      var mail, inbox := Mail(s.clients[c]), s.clients[c].inbox;
      NoMail(mail[..|mail| - |inbox|], id) <==> !NoMail(inbox, id)
  {
    var held := if s.clients[c].loop.Idle? then [] else [s.clients[c].loop.r];
    var mail, inbox := Mail(s.clients[c]), s.clients[c].inbox;
    MailSplit(held, inbox, id, k);
    assert mail[..|mail| - |inbox|] == held;
  }

  lemma MailStays(e: Env, s: State, a: Action, c: nat, id: CorrId, k: nat)
    requires Enabled(s, a) && c < |s.clients| && !a.Lookup? && !a.Close? && a != ClientReconnects(c)
    requires k < |Mail(s.clients[c])| && Mail(s.clients[c])[k].corrId == id
    ensures !NoMail(MailAfter(e, s, a, c), id)
  {
    assert MailAfter(e, s, a, c)[k].corrId == id;
  }

  /** Whether the step takes the reply away from the call's own client. */
  lemma MailGone(e: Env, s: State, a: Action, id: CorrId, k: nat)
    requires Inv(e, s) && Enabled(s, a) && MailAt(s, id, k)
    ensures
      var c := s.calls[id].client;
      NoMail(MailAfter(e, s, a, c), id) <==>
        || ((a.Lookup? || a.Close?) && k < Taken(s, a, c))
        || (a == ClientReconnects(c) && !NoMail(s.clients[c].inbox, id))
  {
    MailIndex(e, s, id, k);
    var c := s.calls[id].client;
    if a.Lookup? || a.Close? {
      MailSliced(Mail(s.clients[c]), Taken(s, a, c), id, k);
    } else if a == ClientReconnects(c) {
      InboxGone(s, c, id, k);
    } else {
      MailStays(e, s, a, c, id, k);
    }
  }

  lemma LookupLoses(e: Env, s: State, id: CorrId, k: nat)
    requires Inv(e, s) && MailAt(s, id, k) && Open(s.calls[id].pc) && Enabled(s, Lookup(s.calls[id].client))
    ensures k < Taken(s, Lookup(s.calls[id].client), s.calls[id].client) <==> Loses(s, Lookup(s.calls[id].client), id)
  {
    MailIndex(e, s, id, k);
    assert GoodClient(e, s, s.calls[id].client);
  }

  lemma OwnClose(e: Env, s: State, a: Action, id: CorrId, k: nat)
    requires Inv(e, s) && Enabled(s, a) && a.Close? && MailAt(s, id, k)
    ensures s.clients[a.c].loop.r.corrId == id <==> a.c == s.calls[id].client && k == 0
  {
    HeldReply(e, s, a.c);
    MailIndex(e, s, id, k);
  }

  lemma AskedElsewhere(s: State, a: Action, id: CorrId)
    requires Enabled(s, a) && id in s.calls && NoRequest(Pending(s), id) && (a.Answer? || a.ServerReconnects?)
    ensures !Loses(s, a, id)
  {
    var held := |Pending(s)| - |s.queue|;
    assert forall i :: 0 <= i < |s.queue| ==> s.queue[i] == Pending(s)[held + i];
    assert a.Answer? ==> Pending(s)[0] == s.serving.value;
  }

  /** A call whose reply is on its way. */
  lemma MailLoses(e: Env, s: State, a: Action, id: CorrId, k: nat)
    requires Inv(e, s) && Enabled(s, a) && MailAt(s, id, k) && Open(s.calls[id].pc)
    ensures OutOfReach(Next(e, s, a), id) <==> Loses(s, a, id)
  {
    OnePlace(e, s, id);
    ReachAfter(e, s, a, id);
    NoNewRequest(s, a, id);
    MailGone(e, s, a, id, k);
    if a.Close? {
      OwnClose(e, s, a, id, k);
    } else if a.Answer? || a.ServerReconnects? {
      AskedElsewhere(s, a, id);
    } else if a == Lookup(s.calls[id].client) {
      LookupLoses(e, s, id, k);
    }
  }

  lemma ClosedNotLost(e: Env, s: State, a: Action, id: CorrId)
    requires Inv(e, s) && Enabled(s, a) && id in s.calls && s.calls[id].closes > 0
    ensures !OutOfReach(Next(e, s, a), id) && !Loses(s, a, id)
  {
    OnePlace(e, s, id);
    ReachAfter(e, s, a, id);
    if a.Answer? || a.ServerReconnects? { AskedElsewhere(s, a, id); } else { NoMailNoLoss(s, a, id); }
  }

  /** A step puts an open call out of reach, so that it can only be aborted, exactly if it is one of the four. */
  lemma LosesExactly(e: Env, exchanges: seq<string>, s: State, a: Action, id: CorrId)
    requires Reachable(e, exchanges, s) && Enabled(s, a)
    requires id in s.calls && Open(s.calls[id].pc) && !OutOfReach(s, id)
    ensures OutOfReach(Next(e, s, a), id) <==> Loses(s, a, id)
  {
    ReachableInv(e, exchanges, s);
    OnePlace(e, s, id);
    if s.calls[id].closes > 0 {
      ClosedNotLost(e, s, a, id);
    } else if !NoRequest(Pending(s), id) {
      var k :| 0 <= k < |Pending(s)| && Pending(s)[k].corrId == id;
      RequestLoses(e, s, a, id, k);
    } else {
      var mail := Mail(s.clients[s.calls[id].client]);
      var k :| 0 <= k < |mail| && mail[k].corrId == id;
      MailLoses(e, s, a, id, k);
    }
  }

  /** A reply that the server cannot send loses its call. */
  lemma UnsentReplyLosesCall(e: Env, exchanges: seq<string>, s: State)
    requires Reachable(e, exchanges, s) && s.serving.Some?
    ensures Enabled(s, Answer(false)) && OutOfReach(Next(e, s, Answer(false)), s.serving.value.corrId)
  {
    ReachableInv(e, exchanges, s);
    assert Pending(s)[0] == s.serving.value;
    RequestLoses(e, s, Answer(false), s.serving.value.corrId, 0);
  }

  /** A reconnecting client loses every reply to its own calls that it has not taken from its queue. */
  lemma ClientReconnectLosesCall(e: Env, exchanges: seq<string>, s: State, id: CorrId)
    requires Reachable(e, exchanges, s) && id in s.calls && s.calls[id].client < |s.clients|
    requires !NoMail(s.clients[s.calls[id].client].inbox, id)
    ensures
      var a := ClientReconnects(s.calls[id].client);
      Enabled(s, a) && OutOfReach(Next(e, s, a), id)
  {
    ReachableInv(e, exchanges, s);
    var c := s.calls[id].client;
    var inbox, mail := s.clients[c].inbox, Mail(s.clients[c]);
    var i :| 0 <= i < |inbox| && inbox[i].corrId == id;
    var k := |mail| - |inbox| + i;
    assert mail[k] == inbox[i];
    OnePlace(e, s, id);
    ReachAfter(e, s, ClientReconnects(c), id);
    MailGone(e, s, ClientReconnects(c), id, k);
  }

  // ----- A call's own arguments, and its own reason -----

  lemma RequestStep(e: Env, s: State, a: Action, id: CorrId)
    requires Inv(e, s) && Enabled(s, a) && id in s.calls
    ensures id in Next(e, s, a).calls && Next(e, s, a).calls[id].request == s.calls[id].request
  {
    if IsCallerStep(a) { CallerStepMoves(e, s, a); }
  }

  lemma {:induction false} RequestStays(e: Env, s: State, run: seq<Action>, id: CorrId)
    requires Inv(e, s) && IsRun(e, s, run) && id in s.calls
    ensures Inv(e, After(e, s, run))
    ensures id in After(e, s, run).calls && After(e, s, run).calls[id].request == s.calls[id].request
    decreases |run|
  {
    if run != [] {
      StepInv(e, s, run[0]);
      RequestStep(e, s, run[0], id);
      RequestStays(e, Next(e, s, run[0]), run[1..], id);
    }
  }

  ghost predicate SameExchanges(s: State, exchanges: seq<string>) {
    |s.clients| == |exchanges| && forall c :: 0 <= c < |exchanges| ==> s.clients[c].exchange == exchanges[c]
  }

  lemma ExchangeStep(e: Env, s: State, a: Action, exchanges: seq<string>)
    requires Inv(e, s) && Enabled(s, a) && SameExchanges(s, exchanges)
    ensures SameExchanges(Next(e, s, a), exchanges)
  {
    if IsCallerStep(a) { CallerStepMoves(e, s, a); }
  }

  lemma {:induction false} ExchangeRun(e: Env, s: State, run: seq<Action>, exchanges: seq<string>)
    requires Inv(e, s) && IsRun(e, s, run) && SameExchanges(s, exchanges)
    ensures SameExchanges(After(e, s, run), exchanges)
    decreases |run|
  {
    if run != [] {
      StepInv(e, s, run[0]);
      ExchangeStep(e, s, run[0], exchanges);
      ExchangeRun(e, Next(e, s, run[0]), run[1..], exchanges);
    }
  }

  /** From its publication on, whatever happens in between, a call that is not aborted returns what its handler
      gives for its own arguments and its own client's exchange. */
  lemma ReturnsItsOwn(e: Env, exchanges: seq<string>, s: State, a: Action, run: seq<Action>)
    requires GoodCodec(e.codec) && Reachable(e, exchanges, s) && Enabled(s, a) && a.Publish?
    requires IsRun(e, Next(e, s, a), run)
    ensures |s.clients| == |exchanges| && a.id in After(e, Next(e, s, a), run).calls
    ensures
      var pc := After(e, Next(e, s, a), run).calls[a.id].pc;
      pc.Returned? && !pc.r.Aborted? ==> pc.r == Direct(e, Request(a.id, a.handler, a.body, exchanges[a.client]))
  {
    ReachableInv(e, exchanges, s);
    var r :| IsRun(e, Init(exchanges), r) && s == After(e, Init(exchanges), r);
    ExchangeRun(e, Init(exchanges), r, exchanges);
    StepInv(e, s, a);
    RequestStays(e, Next(e, s, a), run, a.id);
    assert GoodCall(e, After(e, Next(e, s, a), run), a.id);
    ReplyMeansDirect(e, Request(a.id, a.handler, a.body, exchanges[a.client]));
  }

  ghost predicate AbortedFor(s: State, id: CorrId, reason: string) {
    id in s.calls && (s.calls[id].pc.Leaving? || s.calls[id].pc.Returned?) && s.calls[id].pc.r == Aborted(reason)
  }

  lemma AbortStep(e: Env, s: State, a: Action, id: CorrId, reason: string)
    requires Inv(e, s) && Enabled(s, a) && AbortedFor(s, id, reason)
    ensures AbortedFor(Next(e, s, a), id, reason)
  {
    if IsServeStep(a) { ServedCall(e, s, a, id); }
  }

  lemma {:induction false} AbortStays(e: Env, s: State, run: seq<Action>, id: CorrId, reason: string)
    requires Inv(e, s) && IsRun(e, s, run) && AbortedFor(s, id, reason)
    ensures AbortedFor(After(e, s, run), id, reason)
    decreases |run|
  {
    if run != [] {
      StepInv(e, s, run[0]);
      AbortStep(e, s, run[0], id, reason);
      AbortStays(e, Next(e, s, run[0]), run[1..], id, reason);
    }
  }

  /** A call that gives up returns the reason for which it gave up, even if its reply comes later. */
  lemma AbortKeepsReason(e: Env, exchanges: seq<string>, s: State, id: CorrId, reason: string, run: seq<Action>)
    requires Reachable(e, exchanges, s) && Enabled(s, Abort(id, reason)) && IsRun(e, Next(e, s, Abort(id, reason)), run)
    ensures AbortedFor(After(e, Next(e, s, Abort(id, reason)), run), id, reason)
  {
    ReachableInv(e, exchanges, s);
    StepInv(e, s, Abort(id, reason));
    AbortStays(e, Next(e, s, Abort(id, reason)), run, id, reason);
  }

  /** A call whose client gives up waiting, at whatever point it waits, does return. */
  lemma AbortReturns(e: Env, exchanges: seq<string>, s: State, id: CorrId, reason: string)
    requires Reachable(e, exchanges, s) && CallAt(s, id, Waiting)
    ensures
      var run := [Abort(id, reason)] + [Delete(id)];
      IsRun(e, s, run) && CallAt(After(e, s, run), id, Returned(Aborted(reason)))
  {
    ReachableInv(e, exchanges, s);
    assert GoodCall(e, s, id);
    RunAppend(e, s, [], Abort(id, reason));
    assert [] + [Abort(id, reason)] == [Abort(id, reason)];
    RunAppend(e, s, [Abort(id, reason)], Delete(id));
  }

  // ----- Complete runs -----

  lemma {:induction false} RunAppend(e: Env, s: State, run: seq<Action>, a: Action)
    requires IsRun(e, s, run) && Enabled(After(e, s, run), a)
    ensures IsRun(e, s, run + [a]) && After(e, s, run + [a]) == Next(e, After(e, s, run), a)
    decreases |run|
  {
    if run == [] {
      assert run + [a] == [a] && [a][1..] == [];
    } else {
      assert (run + [a])[1..] == run[1..] + [a];
      RunAppend(e, Next(e, s, run[0]), run[1..], a);
    }
  }

  lemma Goes(e: Env, exchanges: seq<string>, s: State, a: Action, s': State)
    requires Reachable(e, exchanges, s) && Enabled(s, a) && Next(e, s, a) == s'
    ensures Reachable(e, exchanges, s')
  {
    var run :| IsRun(e, Init(exchanges), run) && s == After(e, Init(exchanges), run);
    RunAppend(e, Init(exchanges), run, a);
    assert IsRun(e, Init(exchanges), run + [a]);
  }

  function ServeActions(s: State, c: nat): seq<Action>
    requires c < |s.clients| && s.clients[c].loop.Holding?
  {
    if s.clients[c].loop.r.corrId in s.clients[c].registered then [Lookup(c), SetStatus(c), SetBody(c), Close(c)]
    else [Lookup(c)]
  }

  /** Uninterrupted, the delivery goroutine does to the held reply's call what Client.ServeCall does,
      and nothing to any other call or client. */
  lemma ServeIsRun(e: Env, s: State, c: nat)
    requires c < |s.clients| && s.clients[c].loop.Holding?
    requires s.clients[c].loop.r.corrId in s.clients[c].registered ==> s.clients[c].loop.r.corrId in s.calls
    ensures
      var r := s.clients[c].loop.r;
      && IsRun(e, s, ServeActions(s, c))
      && After(e, s, ServeActions(s, c)) ==
         s.(clients := s.clients[c := s.clients[c].(loop := Idle)],
            calls := if r.corrId !in s.clients[c].registered then s.calls
                     else s.calls[r.corrId := s.calls[r.corrId].(status := r.status, body := r.body,
                         closes := s.calls[r.corrId].closes + 1)])
  {
    var r := s.clients[c].loop.r;
    RunAppend(e, s, [], Lookup(c));
    assert [] + [Lookup(c)] == [Lookup(c)];
    if r.corrId in s.clients[c].registered {
      RunAppend(e, s, [Lookup(c)], SetStatus(c));
      assert [Lookup(c)] + [SetStatus(c)] == [Lookup(c), SetStatus(c)];
      RunAppend(e, s, [Lookup(c), SetStatus(c)], SetBody(c));
      assert [Lookup(c), SetStatus(c)] + [SetBody(c)] == [Lookup(c), SetStatus(c), SetBody(c)];
      RunAppend(e, s, [Lookup(c), SetStatus(c), SetBody(c)], Close(c));
      assert [Lookup(c), SetStatus(c), SetBody(c)] + [Close(c)] == [Lookup(c), SetStatus(c), SetBody(c), Close(c)];
    }
  }

  function CallId(n: nat): CorrId {
    seq(n, _ => 'x')
  }

  /** Calls overlap freely: any number of calls of one client can be published and still unanswered. */
  lemma {:induction false} CallsOverlap(e: Env, x: string, handler: string, body: Body, n: nat) returns (s: State)
    ensures Reachable(e, [x], s) && |s.clients| == 1 && |s.queue| == n
    ensures forall k :: 0 <= k < n ==> CallAt(s, CallId(k), Sent) && s.queue[k].corrId == CallId(k)
    ensures forall id :: id in s.calls ==> |id| < n
  {
    if n == 0 {
      s := Init([x]);
      assert IsRun(e, s, []) && After(e, s, []) == s;
    } else {
      var t := CallsOverlap(e, x, handler, body, n - 1);
      var a := Publish(CallId(n - 1), 0, handler, body);
      s := Next(e, t, a);
      Goes(e, [x], t, a, s);
      forall k: nat | k < n ensures CallAt(s, CallId(k), Sent) && s.queue[k].corrId == CallId(k) {
        if k < n - 1 { assert |CallId(k)| == k && CallAt(t, CallId(k), Sent); }
      }
    }
  }

  /** One client on one exchange; the only call's reply has reached its inbox before the call was registered. */
  lemma AnsweredCall(e: Env, x: string, id: CorrId, handler: string, body: Body) returns (s: State)
    ensures Reachable(e, [x], s)
    ensures
      var r := Request(id, handler, body, x);
      s == State(map[id := Call(0, r, Sent, 0, "", NO_BODY)], [], None, {id}, [Client(x, {}, [ReplyFor(e, r)], Idle)])
  {
    var r := Request(id, handler, body, x);
    var s0 := State(map[], [], None, {}, [Client(x, {}, [], Idle)]);
    assert Init([x]) == s0 && IsRun(e, s0, []) && After(e, s0, []) == s0;
    var s1 := State(map[id := Call(0, r, Sent, 0, "", NO_BODY)], [r], None, {}, [Client(x, {}, [], Idle)]);
    Goes(e, [x], s0, Publish(id, 0, handler, body), s1);
    var s2 := s1.(queue := [], serving := Some(r));
    Goes(e, [x], s1, Take, s2);
    s := s2.(serving := None, answered := {id}, clients := [s2.clients[0].(inbox := [ReplyFor(e, r)])]);
    assert [] + [ReplyFor(e, r)] == [ReplyFor(e, r)];
    assert Next(e, s2, Answer(true)).clients == s.clients;
    Goes(e, [x], s2, Answer(true), s);
  }

  /** The reply was looked up and dropped before the call was registered. */
  lemma DroppedCall(e: Env, x: string, id: CorrId, handler: string, body: Body) returns (s: State)
    ensures Reachable(e, [x], s)
    ensures
      var r := Request(id, handler, body, x);
      s == State(map[id := Call(0, r, Sent, 0, "", NO_BODY)], [], None, {id}, [Client(x, {}, [], Idle)])
  {
    var r := Request(id, handler, body, x);
    var s4 := AnsweredCall(e, x, id, handler, body);
    var s5 := s4.(clients := [Client(x, {}, [], Holding(ReplyFor(e, r)))]);
    assert [ReplyFor(e, r)][1..] == [];
    assert Next(e, s4, Receive(0)).clients == s5.clients;
    Goes(e, [x], s4, Receive(0), s5);
    s := s5.(clients := [Client(x, {}, [], Idle)]);
    Goes(e, [x], s5, Lookup(0), s);
  }

  /** RemoteCall publishes before it registers: without any failure, a fast reply can be dropped for good. */
  lemma EarlyReplyIsLost(e: Env, x: string, id: CorrId, handler: string, body: Body) returns (s: State)
    ensures Reachable(e, [x], s) && OutOfReach(s, id) && s.calls[id].pc.Waiting?
  {
    var s6 := DroppedCall(e, x, id, handler, body);
    s := s6.(calls := map[id := s6.calls[id].(pc := Waiting)], clients := [Client(x, {id}, [], Idle)]);
    assert s6.clients[0].registered + {id} == {id};
    assert Next(e, s6, Register(id)).clients == s.clients;
    assert Next(e, s6, Register(id)).calls == s.calls;
    Goes(e, [x], s6, Register(id), s);
  }
}
