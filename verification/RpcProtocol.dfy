/**
 Callers, clients sharing reply exchanges, and one server, interleaved step by step. A reply is fanned out to
 every client on the exchange it names; it may arrive before its call is registered or after the call timed out,
 and reconnecting drops whatever an exclusive queue held.
 */
module RpcProtocol {
  import opened Wrappers
  import opened Rpc

  /** Sent: published, not yet in the client's map. Observed: has seen `done`. Leaving: about to leave the map. */
  datatype CallPc = Sent | Waiting | Observed | Leaving(r: Outcome) | Returned(r: Outcome)

  /** closes counts how often the call's done channel was closed. */
  datatype Call = Call(client: nat, request: Request, pc: CallPc, closes: nat, status: string, body: Body)

  /** Where a client's delivery goroutine stands with the reply it holds. */
  datatype Loop = Idle | Holding(r: Reply) | Found(r: Reply) | StatusSet(r: Reply) | BodySet(r: Reply)

  datatype Client = Client(exchange: string, registered: set<CorrId>, inbox: seq<Reply>, loop: Loop)

  datatype State = State(
    calls: map<CorrId, Call>,
    queue: seq<Request>,
    serving: Option<Request>,
    answered: set<CorrId>,
    clients: seq<Client>)

  datatype Action =
    | Publish(id: CorrId, client: nat, handler: string, body: Body)
    | Register(id: CorrId)
    | Abort(id: CorrId, reason: string)
    | Observe(id: CorrId)
    | Read(id: CorrId)
    | Delete(id: CorrId)
    | Take
    | Answer(sent: bool)
    | Receive(c: nat)
    | Lookup(c: nat)
    | SetStatus(c: nat)
    | SetBody(c: nat)
    | Close(c: nat)
    | ServerReconnects
    | ClientReconnects(c: nat)

  ghost predicate CallAt(s: State, id: CorrId, pc: CallPc) {
    id in s.calls && s.calls[id].pc == pc
  }

  ghost predicate Enabled(s: State, a: Action) {
    match a
    case Publish(id, client, _, _) => id !in s.calls && client < |s.clients|
    case Register(id) => CallAt(s, id, Sent)
    case Abort(id, _) => CallAt(s, id, Waiting)
    case Observe(id) => CallAt(s, id, Waiting) && s.calls[id].closes > 0
    case Read(id) => CallAt(s, id, Observed)
    case Delete(id) => id in s.calls && s.calls[id].pc.Leaving?
    case Take => s.serving.None? && s.queue != []
    case Answer(_) => s.serving.Some?
    case Receive(c) => c < |s.clients| && s.clients[c].loop.Idle? && s.clients[c].inbox != []
    case Lookup(c) => c < |s.clients| && s.clients[c].loop.Holding?
    case SetStatus(c) => c < |s.clients| && s.clients[c].loop.Found? && s.clients[c].loop.r.corrId in s.calls
    case SetBody(c) => c < |s.clients| && s.clients[c].loop.StatusSet? && s.clients[c].loop.r.corrId in s.calls
    case Close(c) => c < |s.clients| && s.clients[c].loop.BodySet? && s.clients[c].loop.r.corrId in s.calls
    case ServerReconnects => true
    case ClientReconnects(c) => c < |s.clients|
  }

  function SetPc(s: State, id: CorrId, pc: CallPc): State
    requires id in s.calls
  {
    s.(calls := s.calls[id := s.calls[id].(pc := pc)])
  }

  function SetRegistered(s: State, c: nat, ids: set<CorrId>): State
    requires c < |s.clients|
  {
    s.(clients := s.clients[c := s.clients[c].(registered := ids)])
  }

  function SetLoop(s: State, c: nat, l: Loop): State
    requires c < |s.clients|
  {
    s.(clients := s.clients[c := s.clients[c].(loop := l)])
  }

  function FanOut(clients: seq<Client>, exchange: string, r: Reply): (cs: seq<Client>)
    ensures |cs| == |clients|
    ensures forall i :: 0 <= i < |cs| ==>
      cs[i] == if clients[i].exchange == exchange then clients[i].(inbox := clients[i].inbox + [r]) else clients[i]
  {
    seq(|clients|, i requires 0 <= i < |clients| =>
      if clients[i].exchange == exchange then clients[i].(inbox := clients[i].inbox + [r]) else clients[i])
  }

  ghost function Next(e: Env, s: State, a: Action): State
    requires Enabled(s, a)
  {
    match a
    case Publish(id, client, handler, body) =>
      var r := Request(id, handler, body, s.clients[client].exchange);
      s.(calls := s.calls[id := Call(client, r, Sent, 0, "", NO_BODY)], queue := s.queue + [r])
    case Register(id) =>
      var c := s.calls[id].client;
      var t := SetPc(s, id, Waiting);
      if c < |s.clients| then SetRegistered(t, c, s.clients[c].registered + {id}) else t
    case Abort(id, reason) => SetPc(s, id, Leaving(Aborted(reason)))
    case Observe(id) => SetPc(s, id, Observed)
    case Read(id) => SetPc(s, id, Leaving(OutcomeOf(e.codec, s.calls[id].status, s.calls[id].body)))
    case Delete(id) =>
      var c := s.calls[id].client;
      var t := SetPc(s, id, Returned(s.calls[id].pc.r));
      if c < |s.clients| then SetRegistered(t, c, s.clients[c].registered - {id}) else t
    case Take => s.(queue := s.queue[1..], serving := Some(s.queue[0]))
    case Answer(sent) =>
      var r := s.serving.value;
      s.(serving := None, answered := s.answered + {r.corrId},
         clients := if sent then FanOut(s.clients, r.replyTo, ReplyFor(e, r)) else s.clients)
    case Receive(c) =>
      var k := s.clients[c];
      s.(clients := s.clients[c := k.(inbox := k.inbox[1..], loop := Holding(k.inbox[0]))])
    case Lookup(c) =>
      var r := s.clients[c].loop.r;
      SetLoop(s, c, if r.corrId in s.clients[c].registered then Found(r) else Idle)
    case SetStatus(c) =>
      var r := s.clients[c].loop.r;
      SetLoop(s, c, StatusSet(r)).(calls := s.calls[r.corrId := s.calls[r.corrId].(status := r.status)])
    case SetBody(c) =>
      var r := s.clients[c].loop.r;
      SetLoop(s, c, BodySet(r)).(calls := s.calls[r.corrId := s.calls[r.corrId].(body := r.body)])
    case Close(c) =>
      var r := s.clients[c].loop.r;
      SetLoop(s, c, Idle).(calls := s.calls[r.corrId := s.calls[r.corrId].(closes := s.calls[r.corrId].closes + 1)])
    case ServerReconnects => s.(queue := [])
    case ClientReconnects(c) => s.(clients := s.clients[c := s.clients[c].(inbox := [])])
  }

  ghost predicate IsRun(e: Env, s: State, run: seq<Action>)
    decreases |run|
  {
    run == [] || (Enabled(s, run[0]) && IsRun(e, Next(e, s, run[0]), run[1..]))
  }

  ghost function After(e: Env, s: State, run: seq<Action>): State
    requires IsRun(e, s, run)
    decreases |run|
  {
    if run == [] then s else After(e, Next(e, s, run[0]), run[1..])
  }

  ghost function Init(exchanges: seq<string>): State {
    State(map[], [], None, {}, seq(|exchanges|, i requires 0 <= i < |exchanges| => Client(exchanges[i], {}, [], Idle)))
  }

  ghost predicate Reachable(e: Env, exchanges: seq<string>, s: State) {
    exists run :: IsRun(e, Init(exchanges), run) && s == After(e, Init(exchanges), run)
  }

  // ----- Invariant -----

  function Mail(k: Client): seq<Reply> {
    (if k.loop.Idle? then [] else [k.loop.r]) + k.inbox
  }

  predicate InMap(pc: CallPc) {
    pc.Waiting? || pc.Observed? || pc.Leaving?
  }

  /** Unanswered requests, the one being served first. */
  function Pending(s: State): seq<Request> {
    (if s.serving.Some? then [s.serving.value] else []) + s.queue
  }

  ghost predicate GoodRequests(s: State) {
    && (forall i :: 0 <= i < |Pending(s)| ==>
          var r := Pending(s)[i];
          r.corrId in s.calls && s.calls[r.corrId].request == r && r.corrId !in s.answered)
    && (forall i, j :: 0 <= i < j < |Pending(s)| ==> Pending(s)[i].corrId != Pending(s)[j].corrId)
    && s.answered <= s.calls.Keys
  }

  ghost predicate GoodCall(e: Env, s: State, id: CorrId) {
    id in s.calls ==>
      var k := s.calls[id];
      && k.request.corrId == id
      && k.client < |s.clients| && k.request.replyTo == s.clients[k.client].exchange
      && (k.closes > 0 ==>
            k.closes == 1 && id in s.answered && k.status == ReplyFor(e, k.request).status &&
                k.body == ReplyFor(e, k.request).body)
      && (k.pc.Observed? ==> k.closes == 1)
      && (k.pc.Leaving? || k.pc.Returned? ==>
            k.pc.r.Aborted? ||
            (k.closes == 1 && k.pc.r == OutcomeOf(e.codec, ReplyFor(e, k.request).status, ReplyFor(e, k.request).body)))
  }

  ghost predicate GoodReply(e: Env, s: State, c: nat, r: Reply) {
    && r.corrId in s.answered && r.corrId in s.calls
    && r == ReplyFor(e, s.calls[r.corrId].request)
    && (s.calls[r.corrId].client == c ==> s.calls[r.corrId].closes == 0)
  }

  ghost predicate GoodLoop(s: State, c: nat, l: Loop) {
    l.Found? || l.StatusSet? || l.BodySet? ==>
      && l.r.corrId in s.calls && s.calls[l.r.corrId].client == c
      && (l.StatusSet? || l.BodySet? ==> s.calls[l.r.corrId].status == l.r.status)
      && (l.BodySet? ==> s.calls[l.r.corrId].body == l.r.body)
  }

  ghost predicate GoodClient(e: Env, s: State, c: nat)
    requires c < |s.clients|
  {
    var k := s.clients[c];
    && (forall id :: id in k.registered <==> id in s.calls && s.calls[id].client == c && InMap(s.calls[id].pc))
    && GoodMail(e, s, c, Mail(k))
    && GoodLoop(s, c, k.loop)
  }

  ghost predicate GoodMail(e: Env, s: State, c: nat, mail: seq<Reply>) {
    && (forall i :: 0 <= i < |mail| ==> GoodReply(e, s, c, mail[i]))
    && (forall i, j :: 0 <= i < j < |mail| ==> mail[i].corrId != mail[j].corrId)
  }

  ghost predicate Inv(e: Env, s: State) {
    && GoodRequests(s)
    && (forall id :: GoodCall(e, s, id))
    && (forall c :: 0 <= c < |s.clients| ==> GoodClient(e, s, c))
  }

  // ----- Steps of callers -----

  predicate IsCallerStep(a: Action) {
    a.Register? || a.Abort? || a.Observe? || a.Read? || a.Delete?
  }

  /** s' differs from s at most in where calls stand and in which are registered. */
  ghost predicate SameButPc(s: State, s': State) {
    && s'.queue == s.queue && s'.serving == s.serving && s'.answered == s.answered
    && s'.calls.Keys == s.calls.Keys
    && (forall id :: id in s.calls ==> s'.calls[id] == s.calls[id].(pc := s'.calls[id].pc))
    && |s'.clients| == |s.clients|
    && (forall c :: 0 <= c < |s.clients| ==> s'.clients[c] == s.clients[c].(registered := s'.clients[c].registered))
  }

  lemma CallerStepMoves(e: Env, s: State, a: Action)
    requires Inv(e, s) && Enabled(s, a) && IsCallerStep(a)
    ensures SameButPc(s, Next(e, s, a))
  {
  }

  lemma CallerStepCalls(e: Env, s: State, a: Action, id: CorrId)
    requires Inv(e, s) && Enabled(s, a) && IsCallerStep(a)
    ensures GoodCall(e, Next(e, s, a), id)
  {
    assert GoodCall(e, s, id) && GoodCall(e, s, a.id);
  }

  lemma CallerStepRegistry(e: Env, s: State, a: Action, c: nat)
    requires Inv(e, s) && Enabled(s, a) && IsCallerStep(a) && c < |s.clients|
    ensures var s' := Next(e, s, a);
            forall id :: id in s'.clients[c].registered <==>
                id in s'.calls && s'.calls[id].client == c && InMap(s'.calls[id].pc)
  {
    assert GoodCall(e, s, a.id) && GoodClient(e, s, c);
  }

  lemma CallerStepClient(e: Env, s: State, s': State, c: nat)
    requires SameButPc(s, s') && c < |s.clients| && GoodClient(e, s, c)
    requires forall id :: id in s'.clients[c].registered <==>
        id in s'.calls && s'.calls[id].client == c && InMap(s'.calls[id].pc)
    ensures GoodClient(e, s', c)
  {
    var k, k' := s.clients[c], s'.clients[c];
    assert Mail(k') == Mail(k);
    forall i | 0 <= i < |Mail(k')| ensures GoodReply(e, s', c, Mail(k')[i]) {
      assert GoodReply(e, s, c, Mail(k)[i]);
    }
  }

  lemma CallerStepInv(e: Env, s: State, a: Action)
    requires Inv(e, s) && Enabled(s, a) && IsCallerStep(a)
    ensures Inv(e, Next(e, s, a))
  {
    var s' := Next(e, s, a);
    CallerStepMoves(e, s, a);
    assert Pending(s') == Pending(s);
    assert GoodRequests(s');
    forall id ensures GoodCall(e, s', id) { CallerStepCalls(e, s, a, id); }
    forall c | 0 <= c < |s'.clients| ensures GoodClient(e, s', c) {
      CallerStepRegistry(e, s, a, c);
      CallerStepClient(e, s, s', c);
    }
  }

  // ----- Requests -----

  lemma PublishInv(e: Env, s: State, a: Action)
    requires Inv(e, s) && Enabled(s, a) && a.Publish?
    ensures Inv(e, Next(e, s, a))
  {
    var s' := Next(e, s, a);
    assert Pending(s') == Pending(s) + [s'.calls[a.id].request];
    forall id ensures GoodCall(e, s', id) { assert GoodCall(e, s, id); }
    forall c | 0 <= c < |s'.clients| ensures GoodClient(e, s', c) {
      assert GoodClient(e, s, c);
      forall i | 0 <= i < |Mail(s.clients[c])| ensures GoodReply(e, s', c, Mail(s.clients[c])[i]) {
        assert GoodReply(e, s, c, Mail(s.clients[c])[i]);
      }
    }
  }

  lemma TakeInv(e: Env, s: State, a: Action)
    requires Inv(e, s) && Enabled(s, a) && (a.Take? || a.ServerReconnects?)
    ensures Inv(e, Next(e, s, a))
  {
    var s' := Next(e, s, a);
    if a.Take? {
      assert Pending(s') == Pending(s);
    } else {
      assert Pending(s') == Pending(s)[..|Pending(s')|];
    }
    assert GoodRequests(s');
    forall id ensures GoodCall(e, s', id) { assert GoodCall(e, s, id); }
    forall c | 0 <= c < |s'.clients| ensures GoodClient(e, s', c) {
      assert GoodClient(e, s, c);
      forall i | 0 <= i < |Mail(s.clients[c])| ensures GoodReply(e, s', c, Mail(s.clients[c])[i]) {
        assert GoodReply(e, s, c, Mail(s.clients[c])[i]);
      }
    }
  }

  lemma AnswerClient(e: Env, s: State, a: Action, c: nat)
    requires Inv(e, s) && Enabled(s, a) && a.Answer? && c < |s.clients|
    ensures GoodClient(e, Next(e, s, a), c)
  {
    var s' := Next(e, s, a);
    var r := s.serving.value;
    assert Pending(s)[0] == r;
    assert GoodCall(e, s, r.corrId) && GoodClient(e, s, c);
    var mail, mail' := Mail(s.clients[c]), Mail(s'.clients[c]);
    assert mail' == mail || mail' == mail + [ReplyFor(e, r)];
    forall i | 0 <= i < |mail| ensures GoodReply(e, s', c, mail[i]) && mail[i].corrId != r.corrId {
      assert GoodReply(e, s, c, mail[i]);
    }
    assert GoodReply(e, s', c, ReplyFor(e, r));
  }

  lemma AnswerInv(e: Env, s: State, a: Action)
    requires Inv(e, s) && Enabled(s, a) && a.Answer?
    ensures Inv(e, Next(e, s, a))
  {
    var s' := Next(e, s, a);
    assert Pending(s)[0] == s.serving.value;
    assert Pending(s') == Pending(s)[1..];
    assert GoodRequests(s');
    forall id ensures GoodCall(e, s', id) { assert GoodCall(e, s, id); }
    forall c | 0 <= c < |s'.clients| ensures GoodClient(e, s', c) { AnswerClient(e, s, a, c); }
  }

  // ----- Deliveries -----

  lemma MailSlice(e: Env, s: State, s': State, c: nat, mail: seq<Reply>, lo: nat, hi: nat)
    requires GoodMail(e, s, c, mail) && lo <= hi <= |mail|
    requires s'.calls == s.calls && s'.answered == s.answered
    ensures GoodMail(e, s', c, mail[lo..hi])
  {
    forall i | 0 <= i < hi - lo ensures GoodReply(e, s', c, mail[lo..hi][i]) {
      assert GoodReply(e, s, c, mail[lo + i]);
    }
  }

  lemma InboxClient(e: Env, s: State, a: Action, c: nat)
    requires Inv(e, s) && Enabled(s, a) && (a.Receive? || a.Lookup? || a.ClientReconnects?) && c < |s.clients|
    ensures GoodClient(e, Next(e, s, a), c)
  {
    var s' := Next(e, s, a);
    assert GoodClient(e, s, c);
    var mail, mail' := Mail(s.clients[c]), Mail(s'.clients[c]);
    var lo := if a.Lookup? && c == a.c && s'.clients[c].loop.Idle? then 1 else 0;
    assert mail' == mail[lo..lo + |mail'|];
    MailSlice(e, s, s', c, mail, lo, lo + |mail'|);
  }

  lemma InboxInv(e: Env, s: State, a: Action)
    requires Inv(e, s) && Enabled(s, a) && (a.Receive? || a.Lookup? || a.ClientReconnects?)
    ensures Inv(e, Next(e, s, a))
  {
    var s' := Next(e, s, a);
    assert Pending(s') == Pending(s);
    assert GoodRequests(s');
    forall id ensures GoodCall(e, s', id) { assert GoodCall(e, s, id); }
    forall c | 0 <= c < |s'.clients| ensures GoodClient(e, s', c) { InboxClient(e, s, a, c); }
  }

  lemma HeldReply(e: Env, s: State, c: nat)
    requires Inv(e, s) && c < |s.clients| && !s.clients[c].loop.Idle?
    ensures GoodReply(e, s, c, s.clients[c].loop.r) && GoodCall(e, s, s.clients[c].loop.r.corrId)
    ensures GoodLoop(s, c, s.clients[c].loop)
    ensures forall i :: 1 <= i < |Mail(s.clients[c])| ==> Mail(s.clients[c])[i].corrId != s.clients[c].loop.r.corrId
  {
    assert GoodClient(e, s, c);
    assert Mail(s.clients[c])[0] == s.clients[c].loop.r;
  }

  predicate IsServeStep(a: Action) {
    a.SetStatus? || a.SetBody? || a.Close?
  }

  lemma ServeMail(e: Env, s: State, a: Action, c: nat, mail: seq<Reply>)
    requires Enabled(s, a) && IsServeStep(a) && GoodMail(e, s, c, mail)
    requires s.calls[s.clients[a.c].loop.r.corrId].client == a.c
    requires a.Close? && c == a.c ==> forall i :: 0 <= i < |mail| ==> mail[i].corrId != s.clients[c].loop.r.corrId
    ensures GoodMail(e, Next(e, s, a), c, mail)
  {
    forall i | 0 <= i < |mail| ensures GoodReply(e, Next(e, s, a), c, mail[i]) {
      assert GoodReply(e, s, c, mail[i]);
    }
  }

  lemma ServeShape(e: Env, s: State, a: Action, c: nat)
    requires Enabled(s, a) && IsServeStep(a) && c < |s.clients|
    ensures var s' := Next(e, s, a);
            && |s'.clients| == |s.clients| && s'.clients[c].registered == s.clients[c].registered
            && Mail(s'.clients[c]) == Mail(s.clients[c])[if a.Close? && c == a.c then 1 else 0..]
            && s'.calls.Keys == s.calls.Keys
            && forall id :: id in s.calls ==>
                 s'.calls[id].client == s.calls[id].client && s'.calls[id].pc == s.calls[id].pc
  {
  }

  lemma ServeClient(e: Env, s: State, a: Action, c: nat)
    requires Inv(e, s) && Enabled(s, a) && IsServeStep(a) && c < |s.clients|
    ensures |Next(e, s, a).clients| == |s.clients| && GoodClient(e, Next(e, s, a), c)
  {
    var mail := Mail(s.clients[c]);
    var lo := if a.Close? && c == a.c then 1 else 0;
    HeldReply(e, s, a.c);
    assert GoodClient(e, s, c);
    ServeShape(e, s, a, c);
    MailSlice(e, s, s, c, mail, lo, |mail|);
    var rest := mail[lo..|mail|];
    assert rest == mail[lo..];
    if a.Close? && c == a.c {
      forall i | 0 <= i < |rest| ensures rest[i].corrId != s.clients[c].loop.r.corrId { assert rest[i] == mail[i + 1]; }
    }
    ServeMail(e, s, a, c, rest);
    ServeLoop(e, s, a, c);
  }

  lemma ServeLoop(e: Env, s: State, a: Action, c: nat)
    requires Inv(e, s) && Enabled(s, a) && IsServeStep(a) && c < |s.clients|
    ensures GoodLoop(Next(e, s, a), c, Next(e, s, a).clients[c].loop)
  {
    HeldReply(e, s, a.c);
    if !s.clients[c].loop.Idle? { HeldReply(e, s, c); }
  }

  lemma ServeInv(e: Env, s: State, a: Action)
    requires Inv(e, s) && Enabled(s, a) && IsServeStep(a)
    ensures Inv(e, Next(e, s, a))
  {
    var s' := Next(e, s, a);
    HeldReply(e, s, a.c);
    assert Pending(s') == Pending(s);
    assert GoodRequests(s');
    forall id ensures GoodCall(e, s', id) { assert GoodCall(e, s, id); }
    forall c | 0 <= c < |s'.clients| ensures GoodClient(e, s', c) { ServeClient(e, s, a, c); }
  }

  lemma StepInv(e: Env, s: State, a: Action)
    requires Inv(e, s) && Enabled(s, a)
    ensures Inv(e, Next(e, s, a))
  {
    match a
    case Publish(_, _, _, _) => PublishInv(e, s, a);
    case Take => TakeInv(e, s, a);
    case ServerReconnects => TakeInv(e, s, a);
    case Answer(_) => AnswerInv(e, s, a);
    case Receive(_) => InboxInv(e, s, a);
    case Lookup(_) => InboxInv(e, s, a);
    case ClientReconnects(_) => InboxInv(e, s, a);
    case SetStatus(_) => ServeInv(e, s, a);
    case SetBody(_) => ServeInv(e, s, a);
    case Close(_) => ServeInv(e, s, a);
    case _ => CallerStepInv(e, s, a);
  }

  lemma {:induction false} RunInv(e: Env, s: State, run: seq<Action>)
    requires Inv(e, s) && IsRun(e, s, run)
    ensures Inv(e, After(e, s, run))
    decreases |run|
  {
    if run != [] {
      StepInv(e, s, run[0]);
      RunInv(e, Next(e, s, run[0]), run[1..]);
    }
  }

  lemma ReachableInv(e: Env, exchanges: seq<string>, s: State)
    requires Reachable(e, exchanges, s)
    ensures Inv(e, s)
  {
    var run :| IsRun(e, Init(exchanges), run) && s == After(e, Init(exchanges), run);
    RunInv(e, Init(exchanges), run);
  }

  // ----- Main results -----

  /** A call that was not aborted returns what calling its handler directly gives; `return nil` is never reached. */
  lemma CompletedCallIsDirect(e: Env, exchanges: seq<string>, s: State, id: CorrId)
    requires GoodCodec(e.codec) && Reachable(e, exchanges, s)
    requires id in s.calls && s.calls[id].pc.Returned? && !s.calls[id].pc.r.Aborted?
    ensures s.calls[id].pc.r == Direct(e, s.calls[id].request)
    ensures !s.calls[id].pc.r.NoResponse?
  {
    ReachableInv(e, exchanges, s);
    assert GoodCall(e, s, id);
    ReplyMeansDirect(e, s.calls[id].request);
  }

  /** `done` is closed at most once, and never for a call whose reply is still on its way. */
  lemma DoneClosedOnce(e: Env, exchanges: seq<string>, s: State, id: CorrId)
    requires Reachable(e, exchanges, s) && id in s.calls
    ensures s.calls[id].closes <= 1
    ensures s.calls[id].client < |s.clients|
    ensures s.calls[id].closes == 1 ==>
      forall i :: 0 <= i < |Mail(s.clients[s.calls[id].client])| ==> Mail(s.clients[s.calls[id].client])[i].corrId != id
  {
    ReachableInv(e, exchanges, s);
    assert GoodCall(e, s, id);
    var c := s.calls[id].client;
    assert GoodClient(e, s, c);
    forall i | 0 <= i < |Mail(s.clients[c])| && s.calls[id].closes == 1 ensures Mail(s.clients[c])[i].corrId != id {
      assert GoodReply(e, s, c, Mail(s.clients[c])[i]);
    }
  }

  /** A client's map holds exactly its calls between addCall and deleteCall. */
  lemma MapHoldsPendingCalls(e: Env, exchanges: seq<string>, s: State, c: nat, id: CorrId)
    requires Reachable(e, exchanges, s) && c < |s.clients|
    ensures id in s.clients[c].registered <==> id in s.calls && s.calls[id].client == c && InMap(s.calls[id].pc)
  {
    ReachableInv(e, exchanges, s);
    assert GoodClient(e, s, c);
  }

  lemma ClosedStays(e: Env, s: State, a: Action, id: CorrId)
    requires Inv(e, s) && Enabled(s, a) && id in s.calls && s.calls[id].closes > 0
    ensures Next(e, s, a).calls[id] == s.calls[id].(pc := Next(e, s, a).calls[id].pc)
  {
    if a.SetStatus? || a.SetBody? || a.Close? { HeldReply(e, s, a.c); }
  }

  /** After `done` is closed, nothing writes the status or the body again. */
  lemma {:induction false} WrittenOnlyBeforeClose(e: Env, s: State, run: seq<Action>, id: CorrId)
    requires Inv(e, s) && IsRun(e, s, run) && id in s.calls && s.calls[id].closes > 0
    ensures id in After(e, s, run).calls
    ensures After(e, s, run).calls[id].status == s.calls[id].status &&
        After(e, s, run).calls[id].body == s.calls[id].body
    decreases |run|
  {
    if run != [] {
      StepInv(e, s, run[0]);
      ClosedStays(e, s, run[0], id);
      WrittenOnlyBeforeClose(e, Next(e, s, run[0]), run[1..], id);
    }
  }

  /** Status and body are read only from a call whose `done` is closed. */
  lemma ReadOnlyAfterClose(e: Env, exchanges: seq<string>, s: State, id: CorrId)
    requires Reachable(e, exchanges, s) && Enabled(s, Read(id))
    ensures s.calls[id].closes == 1
    ensures s.calls[id].status == ReplyFor(e, s.calls[id].request).status &&
        s.calls[id].body == ReplyFor(e, s.calls[id].request).body
  {
    ReachableInv(e, exchanges, s);
    assert GoodCall(e, s, id);
  }
}
