/**
 Every call of the concurrent sampler is counted and answered once, whether it wins the compare-and-swap,
 loses it or does not try it.
 */
module SamplerCalls {
  import opened Wrappers
  import Seq = Sampler
  import opened SamplerRace

  // ----- Calls begun and calls answered -----

  /** Calls begun: clock reads in the trace. */
  function Reads(tr: seq<Label>): nat {
    if tr == [] then 0 else var n := |tr| - 1; Reads(tr[..n]) + (if tr[n].ReadClock? then 1 else 0)
  }

  /** Threads in the middle of a call. */
  function Busy(pcs: seq<Pc>): nat {
    if pcs == [] then 0 else var n := |pcs| - 1; Busy(pcs[..n]) + (if pcs[n].Idle? then 0 else 1)
  }

  lemma ReadsAppend(tr: seq<Label>, x: Label)
    ensures Reads(tr + [x]) == Reads(tr) + (if x.ReadClock? then 1 else 0)
  {
    assert (tr + [x])[..|tr|] == tr;
  }

  lemma {:induction false} BusyUpdate(pcs: seq<Pc>, t: nat, pc: Pc)
    requires t < |pcs|
    ensures Busy(pcs[t := pc]) + (if pcs[t].Idle? then 0 else 1) == Busy(pcs) + (if pc.Idle? then 0 else 1)
  {
    var n := |pcs| - 1;
    if t == n {
      assert pcs[t := pc][..n] == pcs[..n];
    } else {
      assert pcs[t := pc][..n] == pcs[..n][t := pc];
      BusyUpdate(pcs[..n], t, pc);
    }
  }

  lemma {:induction false} BusyIdle(threads: nat)
    ensures Busy(seq(threads, _ => Idle)) == 0
  {
    if threads > 0 {
      assert seq(threads, _ => Idle)[..threads - 1] == seq(threads - 1, _ => Idle);
      BusyIdle(threads - 1);
    }
  }

  ghost predicate Answered(s: State) {
    Reads(s.trace) == Adds(s.trace) + Busy(s.pcs)
  }

  /** What the step appends to the trace. */
  ghost predicate Extends(s: State, s': State, x: Label) {
    s'.trace == s.trace + [x]
  }

  lemma LabelledStep(s: State, s': State, t: nat, x: Label)
    requires Answered(s) && t < |s.pcs| == |s'.pcs| && s'.pcs == s.pcs[t := s'.pcs[t]] && Extends(s, s', x)
    requires x.ReadClock? <==> s.pcs[t].Idle? && !s'.pcs[t].Idle?
    requires x.Add? <==> !s.pcs[t].Idle? && s'.pcs[t].Idle?
    ensures Answered(s')
  {
    BusyUpdate(s.pcs, t, s'.pcs[t]);
    ReadsAppend(s.trace, x);
    AppendCounts(s.trace, x);
  }

  lemma SilentStep(s: State, s': State, t: nat)
    requires Answered(s) && t < |s.pcs| == |s'.pcs| && s'.pcs == s.pcs[t := s'.pcs[t]] && s'.trace == s.trace
    requires s.pcs[t].Idle? <==> s'.pcs[t].Idle?
    ensures Answered(s')
  {
    BusyUpdate(s.pcs, t, s'.pcs[t]);
  }

  lemma AnsweredDecide(l: Seq.Limits, s: State, t: nat)
    requires Answered(s) && Enabled(s, Decide(t))
    ensures Answered(Next(l, s, Decide(t)))
  {
    var s' := Next(l, s, Decide(t));
    if s'.trace == s.trace { SilentStep(s, s', t); } else { LabelledStep(s, s', t, Win); }
  }

  lemma AnsweredStep(l: Seq.Limits, s: State, a: Action)
    requires Answered(s) && Enabled(s, a)
    ensures Answered(Next(l, s, a))
  {
    var s' := Next(l, s, a);
    match a
    case Clock(t, now) => LabelledStep(s, s', t, ReadClock(now));
    case Load(t) => SilentStep(s, s', t);
    case Decide(t) => AnsweredDecide(l, s, t);
    case Store(t) => LabelledStep(s, s', t, Reset);
    case Count(t) => LabelledStep(s, s', t, Add(s.counter + 1 <= l.rate));
  }

  lemma {:induction false} AnsweredRun(l: Seq.Limits, s: State, run: seq<Action>)
    requires Answered(s) && IsRun(l, s, run)
    ensures Answered(After(l, s, run))
    decreases |run|
  {
    if run != [] {
      AnsweredStep(l, s, run[0]);
      AnsweredRun(l, Next(l, s, run[0]), run[1..]);
    }
  }

  /** In every reachable state, calls begun are calls counted plus calls still running. */
  lemma EveryCallCounts(l: Seq.Limits, t0: int, threads: nat, s: State)
    requires Reachable(l, t0, threads, s)
    ensures Reads(s.trace) == Adds(s.trace) + Busy(s.pcs)
  {
    var run :| IsRun(l, Init(t0, threads), run) && s == After(l, Init(t0, threads), run);
    BusyIdle(threads);
    AnsweredRun(l, Init(t0, threads), run);
  }

  // ----- The same for each thread -----

  function Begun(run: seq<Action>, t: nat): nat {
    if run == [] then 0 else (if run[0].Clock? && run[0].t == t then 1 else 0) + Begun(run[1..], t)
  }

  function Counted(run: seq<Action>, t: nat): nat {
    if run == [] then 0 else (if run[0].Count? && run[0].t == t then 1 else 0) + Counted(run[1..], t)
  }

  function InCall(s: State, t: nat): nat {
    if t < |s.pcs| && !s.pcs[t].Idle? then 1 else 0
  }

  lemma {:induction false} ThreadRun(l: Seq.Limits, s: State, run: seq<Action>, t: nat)
    requires IsRun(l, s, run)
    ensures InCall(s, t) + Begun(run, t) == Counted(run, t) + InCall(After(l, s, run), t)
    decreases |run|
  {
    if run != [] { ThreadRun(l, Next(l, s, run[0]), run[1..], t); }
  }

  /** Over any run each thread has counted every call it began, but for the one it may be in. */
  lemma EveryThreadCounts(l: Seq.Limits, t0: int, threads: nat, run: seq<Action>, t: nat)
    requires IsRun(l, Init(t0, threads), run)
    ensures Begun(run, t) == Counted(run, t) + InCall(After(l, Init(t0, threads), run), t)
  {
    ThreadRun(l, Init(t0, threads), run, t);
  }

  /** A thread counts by appending one answer to the trace, and by no other step. */
  lemma CountAnswers(l: Seq.Limits, s: State, a: Action)
    requires Enabled(s, a)
    ensures a.Count? <==> Adds(Next(l, s, a).trace) == Adds(s.trace) + 1
    ensures !a.Count? ==> Adds(Next(l, s, a).trace) == Adds(s.trace)
    ensures a.Count? ==> Extends(s, Next(l, s, a), Add(s.counter + 1 <= l.rate))
  {
    var s' := Next(l, s, a);
    if s'.trace != s.trace { AppendCounts(s.trace, s'.trace[|s.trace|]); }
  }

  // ----- A call alone comes to its answer -----

  /** Whether a thread past its clock read will win, if nobody else moves. */
  predicate WillWin(l: Seq.Limits, s: State, t: nat)
    requires t < |s.pcs|
  {
    match s.pcs[t]
    case Clocked(now) => now - s.lastReset > l.interval
    case Loaded(now, last) => now - last > l.interval && s.lastReset == last
    case _ => false
  }

  predicate Zeroes(l: Seq.Limits, s: State, t: nat)
    requires t < |s.pcs|
  {
    s.pcs[t].Resetting? || WillWin(l, s, t)
  }

  /** The thread's own remaining steps. */
  function Remaining(l: Seq.Limits, s: State, t: nat): seq<Action>
    requires t < |s.pcs|
  {
    (if s.pcs[t].Clocked? then [Load(t)] else []) +
    (if s.pcs[t].Clocked? || s.pcs[t].Loaded? then [Decide(t)] else []) +
    (if Zeroes(l, s, t) then [Store(t)] else []) +
    (if s.pcs[t].Idle? then [] else [Count(t)])
  }

  /** s' is s after thread t has finished its call alone: it has won or not, has zeroed the counter or not, and has
      counted once. */
  ghost predicate Finished(l: Seq.Limits, s: State, t: nat, s': State)
    requires t < |s.pcs|
  {
    var won, zeroed := WillWin(l, s, t), Zeroes(l, s, t);
    var counter := (if zeroed then 0 else s.counter) + 1;
    && s'.pcs == s.pcs[t := Idle] && s'.counter == counter
    && s'.lastReset == (if won then s.pcs[t].now else s.lastReset)
    && s'.trace == s.trace + (if won then [Win] else []) + (if zeroed then [Reset] else []) + [Add(counter <= l.rate)]
  }

  lemma FromAdding(l: Seq.Limits, s: State, t: nat)
    requires t < |s.pcs| && s.pcs[t].Adding?
    ensures IsRun(l, s, [Count(t)]) && Finished(l, s, t, After(l, s, [Count(t)]))
  {
    RunAppend(l, s, [], Count(t));
    assert [] + [Count(t)] == [Count(t)];
  }

  lemma Prepend(l: Seq.Limits, s: State, a: Action, rest: seq<Action>)
    requires Enabled(s, a) && IsRun(l, Next(l, s, a), rest)
    ensures IsRun(l, s, [a] + rest) && After(l, s, [a] + rest) == After(l, Next(l, s, a), rest)
  {
    assert ([a] + rest)[1..] == rest;
  }

  lemma FromResetting(l: Seq.Limits, s: State, t: nat)
    requires t < |s.pcs| && s.pcs[t].Resetting?
    ensures var run := [Store(t)] + [Count(t)]; IsRun(l, s, run) && Finished(l, s, t, After(l, s, run))
  {
    var s1 := Next(l, s, Store(t));
    FromAdding(l, s1, t);
    Prepend(l, s, Store(t), [Count(t)]);
    assert s1.pcs[t := Idle] == s.pcs[t := Idle];
  }

  function AfterDecide(l: Seq.Limits, s: State, t: nat): seq<Action>
    requires t < |s.pcs|
  {
    if WillWin(l, s, t) then [Store(t)] + [Count(t)] else [Count(t)]
  }

  lemma FromLoaded(l: Seq.Limits, s: State, t: nat)
    requires t < |s.pcs| && s.pcs[t].Loaded?
    ensures
      var run := [Decide(t)] + AfterDecide(l, s, t);
      IsRun(l, s, run) && Finished(l, s, t, After(l, s, run))
  {
    var s1 := Next(l, s, Decide(t));
    if WillWin(l, s, t) { FromResetting(l, s1, t); } else { FromAdding(l, s1, t); }
    Prepend(l, s, Decide(t), AfterDecide(l, s, t));
    assert s1.pcs[t := Idle] == s.pcs[t := Idle];
  }

  lemma FromClocked(l: Seq.Limits, s: State, t: nat)
    requires t < |s.pcs| && s.pcs[t].Clocked?
    ensures
      var run := [Load(t)] + ([Decide(t)] + AfterDecide(l, s, t));
      IsRun(l, s, run) && Finished(l, s, t, After(l, s, run))
  {
    var s1 := Next(l, s, Load(t));
    FromLoaded(l, s1, t);
    assert AfterDecide(l, s1, t) == AfterDecide(l, s, t);
    Prepend(l, s, Load(t), [Decide(t)] + AfterDecide(l, s, t));
    assert s1.pcs[t := Idle] == s.pcs[t := Idle];
  }

  /** From any state, a thread past its clock read comes to exactly one answer by its own remaining steps alone: also
      if the compare-and-swap is lost or was not worth trying. */
  lemma CallFinishes(l: Seq.Limits, s: State, t: nat)
    requires t < |s.pcs| && !s.pcs[t].Idle?
    ensures IsRun(l, s, Remaining(l, s, t)) && Finished(l, s, t, After(l, s, Remaining(l, s, t)))
  {
    match s.pcs[t]
    case Clocked(_) =>
      FromClocked(l, s, t);
      assert Remaining(l, s, t) == [Load(t)] + ([Decide(t)] + AfterDecide(l, s, t));
    case Loaded(_, _) =>
      FromLoaded(l, s, t);
      assert Remaining(l, s, t) == [Decide(t)] + AfterDecide(l, s, t);
    case Resetting =>
      FromResetting(l, s, t);
      assert Remaining(l, s, t) == [Store(t)] + [Count(t)];
    case Adding =>
      FromAdding(l, s, t);
      assert Remaining(l, s, t) == [Count(t)];
  }

  /** A thread in a call has no choice: its next own step is the first of the remaining ones. */
  lemma NoChoice(l: Seq.Limits, s: State, a: Action)
    requires Enabled(s, a) && !a.Clock?
    ensures !s.pcs[a.t].Idle? && Remaining(l, s, a.t) != [] && a == Remaining(l, s, a.t)[0]
  {
  }
}
