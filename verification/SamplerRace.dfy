/**
 The same sampler called from any number of goroutines. Each atomic operation of ShouldLog is one step;
 any interleaving is allowed, in particular other calls may run between a winning compare-and-swap and
 the store that resets the counter. The clock may go backwards.
 */
module SamplerRace {
  import opened Wrappers
  import Seq = Sampler

  /** Resetting: won the compare-and-swap, counter.Store(0) still to come. */
  datatype Pc = Idle | Clocked(now: int) | Loaded(now: int, last: int) | Resetting | Adding

  datatype Label = ReadClock(now: int) | Win | Reset | Add(ok: bool)

  datatype State = State(counter: nat, lastReset: int, pcs: seq<Pc>, trace: seq<Label>)

  datatype Action = Clock(t: nat, now: int) | Load(t: nat) | Decide(t: nat) | Store(t: nat) | Count(t: nat)

  ghost predicate Enabled(s: State, a: Action) {
    && a.t < |s.pcs|
    && match a
       case Clock(t, _) => s.pcs[t].Idle?
       case Load(t) => s.pcs[t].Clocked?
       case Decide(t) => s.pcs[t].Loaded?
       case Store(t) => s.pcs[t].Resetting?
       case Count(t) => s.pcs[t].Adding?
  }

  ghost function Next(l: Seq.Limits, s: State, a: Action): State
    requires Enabled(s, a)
  {
    match a
    case Clock(t, now) => s.(pcs := s.pcs[t := Clocked(now)], trace := s.trace + [ReadClock(now)])
    case Load(t) => s.(pcs := s.pcs[t := Loaded(s.pcs[t].now, s.lastReset)])
    case Decide(t) =>
      var pc := s.pcs[t];
      if pc.now - pc.last > l.interval && s.lastReset == pc.last
      then s.(lastReset := pc.now, pcs := s.pcs[t := Resetting], trace := s.trace + [Win])
      else s.(pcs := s.pcs[t := Adding])
    case Store(t) => s.(counter := 0, pcs := s.pcs[t := Adding], trace := s.trace + [Reset])
    case Count(t) =>
      s.(counter := s.counter + 1, pcs := s.pcs[t := Idle], trace := s.trace + [Add(s.counter + 1 <= l.rate)])
  }

  ghost predicate IsRun(l: Seq.Limits, s: State, run: seq<Action>)
    decreases |run|
  {
    run == [] || (Enabled(s, run[0]) && IsRun(l, Next(l, s, run[0]), run[1..]))
  }

  ghost function After(l: Seq.Limits, s: State, run: seq<Action>): State
    requires IsRun(l, s, run)
    decreases |run|
  {
    if run == [] then s else After(l, Next(l, s, run[0]), run[1..])
  }

  ghost function Init(t0: int, threads: nat): State {
    State(0, t0, seq(threads, _ => Idle), [])
  }

  ghost predicate Reachable(l: Seq.Limits, t0: int, threads: nat, s: State) {
    exists run :: IsRun(l, Init(t0, threads), run) && s == After(l, Init(t0, threads), run)
  }

  // ----- Reading a trace -----

  function Tally(tr: seq<Label>, l: Label): nat {
    if tr == [] then 0
    else var n := |tr| - 1; Tally(tr[..n], l) + (if tr[n] == l then 1 else 0)
  }

  function Accepted(tr: seq<Label>): nat { Tally(tr, Add(true)) }

  function Adds(tr: seq<Label>): nat { Tally(tr, Add(true)) + Tally(tr, Add(false)) }

  function Resets(tr: seq<Label>): nat { Tally(tr, Reset) }

  function Wins(tr: seq<Label>): nat { Tally(tr, Win) }

  function MaxClock(t0: int, tr: seq<Label>): int {
    if tr == [] then t0
    else
      var n := |tr| - 1;
      if tr[n].ReadClock? then Max(MaxClock(t0, tr[..n]), tr[n].now) else MaxClock(t0, tr[..n])
  }

  /** The trace cut at its resets. */
  function Segments(tr: seq<Label>): (ss: seq<seq<Label>>)
    ensures |ss| > 0
  {
    if tr == [] then [[]]
    else
      var n := |tr| - 1;
      var ss := Segments(tr[..n]);
      if tr[n].Reset? then ss + [[]] else ss[|ss| - 1 := ss[|ss| - 1] + [tr[n]]]
  }

  function Last(ss: seq<seq<Label>>): seq<Label>
    requires |ss| > 0
  {
    ss[|ss| - 1]
  }

  lemma AppendCounts(tr: seq<Label>, x: Label)
    ensures Accepted(tr + [x]) == Accepted(tr) + (if x == Add(true) then 1 else 0)
    ensures Adds(tr + [x]) == Adds(tr) + (if x.Add? then 1 else 0)
    ensures Resets(tr + [x]) == Resets(tr) + (if x.Reset? then 1 else 0)
    ensures Wins(tr + [x]) == Wins(tr) + (if x.Win? then 1 else 0)
  {
    assert (tr + [x])[..|tr|] == tr;
  }

  lemma {:induction false} ConcatTally(a: seq<Label>, b: seq<Label>, l: Label)
    ensures Tally(a + b, l) == Tally(a, l) + Tally(b, l)
    decreases |b|
  {
    if b == [] {
      assert a + b == a;
    } else {
      var n := |b| - 1;
      assert (a + b)[..|a| + n] == a + b[..n];
      ConcatTally(a, b[..n], l);
    }
  }

  /** What the counter holds after the trace. */
  function AddsSince(tr: seq<Label>): nat {
    if tr == [] then 0
    else
      var n := |tr| - 1;
      if tr[n].Reset? then 0 else AddsSince(tr[..n]) + (if tr[n].Add? then 1 else 0)
  }

  /** Every call was answered from the number of calls since the last reset. */
  ghost predicate Consistent(rate: nat, tr: seq<Label>) {
    tr == [] ||
    var n := |tr| - 1;
    Consistent(rate, tr[..n]) && (tr[n].Add? ==> (tr[n].ok <==> AddsSince(tr[..n]) + 1 <= rate))
  }

  /** At every moment the wins exceed the resets by at most one per thread. */
  ghost predicate Balanced(threads: nat, tr: seq<Label>) {
    tr == [] ||
    (Balanced(threads, tr[..|tr| - 1]) && Resets(tr) <= Wins(tr) <= Resets(tr) + threads)
  }

  lemma {:induction false} PrefixKeeps(rate: nat, threads: nat, tr: seq<Label>, i: nat)
    requires i <= |tr| && Consistent(rate, tr) && Balanced(threads, tr)
    ensures Consistent(rate, tr[..i]) && Balanced(threads, tr[..i])
    ensures Resets(tr[..i]) <= Wins(tr[..i]) <= Resets(tr[..i]) + threads
    decreases |tr|
  {
    if i == |tr| {
      assert tr[..i] == tr;
    } else {
      assert tr[..|tr| - 1][..i] == tr[..i];
      PrefixKeeps(rate, threads, tr[..|tr| - 1], i);
    }
  }

  // ----- Exact conservation per segment -----

  ghost predicate Exact(rate: nat, seg: seq<Label>) {
    Accepted(seg) == Min(rate, Adds(seg))
  }

  ghost predicate AllExact(rate: nat, ss: seq<seq<Label>>) {
    forall k :: 0 <= k < |ss| ==> Exact(rate, ss[k])
  }

  lemma ExactReplaced(rate: nat, ss: seq<seq<Label>>, x: Label)
    requires |ss| > 0 && AllExact(rate, ss)
    requires !x.Reset? && (x.Add? ==> (x.ok <==> Adds(Last(ss)) + 1 <= rate))
    ensures AllExact(rate, ss[|ss| - 1 := Last(ss) + [x]]) &&
        Adds(Last(ss) + [x]) == Adds(Last(ss)) + (if x.Add? then 1 else 0)
  {
    assert Exact(rate, Last(ss));
    AppendCounts(Last(ss), x);
  }

  lemma SegmentsNext(rate: nat, tr: seq<Label>, x: Label)
    requires AllExact(rate, Segments(tr)) && |Segments(tr)| == Resets(tr) + 1 &&
        Adds(Last(Segments(tr))) == AddsSince(tr)
    requires x.Add? ==> (x.ok <==> AddsSince(tr) + 1 <= rate)
    ensures AllExact(rate, Segments(tr + [x])) && |Segments(tr + [x])| == Resets(tr + [x]) + 1
    ensures Adds(Last(Segments(tr + [x]))) == AddsSince(tr + [x])
  {
    assert (tr + [x])[..|tr|] == tr;
    if !x.Reset? { ExactReplaced(rate, Segments(tr), x); }
  }

  lemma {:induction false} SegmentsOf(rate: nat, tr: seq<Label>)
    requires Consistent(rate, tr)
    ensures AllExact(rate, Segments(tr))
    ensures |Segments(tr)| == Resets(tr) + 1
    ensures Adds(Last(Segments(tr))) == AddsSince(tr)
    decreases |tr|
  {
    if tr != [] {
      var n := |tr| - 1;
      assert tr[..n] + [tr[n]] == tr;
      SegmentsOf(rate, tr[..n]);
      SegmentsNext(rate, tr[..n], tr[n]);
    }
  }

  // ----- Any stretch of a trace -----

  lemma {:induction false} SuffixBound(rate: nat, tr: seq<Label>, i: nat)
    requires i <= |tr| && Consistent(rate, tr)
    ensures Accepted(tr[i..]) <= rate * Resets(tr[i..]) + Min(rate, AddsSince(tr))
    decreases |tr|
  {
    if i < |tr| {
      var n := |tr| - 1;
      var x := tr[n];
      SuffixBound(rate, tr[..n], i);
      assert tr[i..] == tr[..n][i..] + [x];
      AppendCounts(tr[..n][i..], x);
      ResetStep(rate, Resets(tr[..n][i..]));
    }
  }

  lemma ResetStep(rate: nat, n: nat)
    ensures rate * (n + 1) == rate * n + rate
  {
  }

  lemma Monotone(rate: nat, a: nat, b: nat)
    requires a <= b
    ensures rate * a <= rate * b
  {
  }

  // ----- The invariant -----

  ghost function Pending(pcs: seq<Pc>): nat {
    if pcs == [] then 0 else (if pcs[0].Resetting? then 1 else 0) + Pending(pcs[1..])
  }

  lemma {:induction false} PendingUpdate(pcs: seq<Pc>, t: nat, pc: Pc)
    requires t < |pcs|
    ensures Pending(pcs[t := pc]) + (if pcs[t].Resetting? then 1 else 0) ==
        Pending(pcs) + (if pc.Resetting? then 1 else 0)
  {
    if t == 0 {
      assert pcs[t := pc][1..] == pcs[1..];
    } else {
      assert pcs[t := pc][1..] == pcs[1..][t - 1 := pc];
      PendingUpdate(pcs[1..], t - 1, pc);
    }
  }

  lemma {:induction false} PendingBound(pcs: seq<Pc>)
    ensures Pending(pcs) <= |pcs|
    ensures (forall t :: 0 <= t < |pcs| ==> !pcs[t].Resetting?) ==> Pending(pcs) == 0
  {
    if pcs != [] {
      PendingBound(pcs[1..]);
      assert forall t :: 0 <= t < |pcs[1..]| ==> pcs[1..][t] == pcs[t + 1];
    }
  }

  predicate NotLater(pc: Pc, m: int) {
    pc.Clocked? || pc.Loaded? ==> pc.now <= m
  }

  ghost predicate NoneLater(pcs: seq<Pc>, m: int) {
    forall t :: 0 <= t < |pcs| ==> NotLater(pcs[t], m)
  }

  lemma NoneLaterUpdate(pcs: seq<Pc>, t: nat, pc: Pc, m: int, m': int)
    requires t < |pcs| && NoneLater(pcs, m) && m <= m' && NotLater(pc, m')
    ensures NoneLater(pcs[t := pc], m')
  {
  }

  ghost predicate ClockInv(l: Seq.Limits, t0: int, s: State) {
    && s.lastReset <= MaxClock(t0, s.trace)
    && NoneLater(s.pcs, MaxClock(t0, s.trace))
    && s.lastReset >= t0 + Elapsed(l, Wins(s.trace))
  }

  /** Each win moves lastReset on by more than the interval. */
  function Elapsed(l: Seq.Limits, wins: nat): nat {
    if wins == 0 then 0 else Elapsed(l, wins - 1) + l.interval + 1
  }

  lemma {:induction false} ElapsedIs(l: Seq.Limits, wins: nat)
    ensures Elapsed(l, wins) == wins * (l.interval + 1)
  {
    if wins > 0 { ElapsedIs(l, wins - 1); }
  }

  ghost predicate CountInv(l: Seq.Limits, s: State) {
    && Wins(s.trace) == Resets(s.trace) + Pending(s.pcs)
    && s.counter == AddsSince(s.trace)
    && Consistent(l.rate, s.trace)
    && Balanced(|s.pcs|, s.trace)
  }

  lemma MaxClockAppend(t0: int, tr: seq<Label>, x: Label)
    ensures MaxClock(t0, tr + [x]) == if x.ReadClock? then Max(MaxClock(t0, tr), x.now) else MaxClock(t0, tr)
  {
    assert (tr + [x])[..|tr|] == tr;
  }

  /** Steps other than a clock read and a win move neither lastReset nor what the clock has shown. */
  lemma ClockFrame(l: Seq.Limits, t0: int, s: State, s': State, t: nat)
    requires ClockInv(l, t0, s) && t < |s.pcs| == |s'.pcs| && s'.lastReset == s.lastReset
    requires MaxClock(t0, s'.trace) == MaxClock(t0, s.trace) && Wins(s'.trace) == Wins(s.trace)
    requires s'.pcs == s.pcs[t := s'.pcs[t]] && NotLater(s'.pcs[t], MaxClock(t0, s.trace))
    ensures ClockInv(l, t0, s')
  {
    NoneLaterUpdate(s.pcs, t, s'.pcs[t], MaxClock(t0, s.trace), MaxClock(t0, s'.trace));
  }

  lemma ReadStep(l: Seq.Limits, t0: int, s: State, t: nat, now: int)
    requires ClockInv(l, t0, s) && Enabled(s, Clock(t, now))
    ensures ClockInv(l, t0, Next(l, s, Clock(t, now)))
  {
    Append(t0, s.trace, ReadClock(now));
    NoneLaterUpdate(s.pcs, t, Clocked(now), MaxClock(t0, s.trace), MaxClock(t0, s.trace + [ReadClock(now)]));
  }

  lemma WinStep(l: Seq.Limits, t0: int, s: State, t: nat)
    requires ClockInv(l, t0, s) && Enabled(s, Decide(t))
    requires s.pcs[t].now - s.pcs[t].last > l.interval && s.lastReset == s.pcs[t].last
    ensures ClockInv(l, t0, Next(l, s, Decide(t)))
  {
    Append(t0, s.trace, Win);
    assert NotLater(s.pcs[t], MaxClock(t0, s.trace));
    NoneLaterUpdate(s.pcs, t, Resetting, MaxClock(t0, s.trace), MaxClock(t0, s.trace));
  }

  lemma ClockStep(l: Seq.Limits, t0: int, s: State, a: Action)
    requires ClockInv(l, t0, s) && Enabled(s, a)
    ensures ClockInv(l, t0, Next(l, s, a))
  {
    assert NotLater(s.pcs[a.t], MaxClock(t0, s.trace));
    match a
    case Clock(t, now) => ReadStep(l, t0, s, t, now);
    case Load(t) => ClockFrame(l, t0, s, Next(l, s, a), t);
    case Decide(t) =>
      if s.pcs[t].now - s.pcs[t].last > l.interval && s.lastReset == s.pcs[t].last {
        WinStep(l, t0, s, t);
      } else {
        ClockFrame(l, t0, s, Next(l, s, a), t);
      }
    case Store(t) =>
      Append(t0, s.trace, Reset);
      ClockFrame(l, t0, s, Next(l, s, a), t);
    case Count(t) =>
      Append(t0, s.trace, Add(s.counter + 1 <= l.rate));
      ClockFrame(l, t0, s, Next(l, s, a), t);
  }

  lemma Append(t0: int, tr: seq<Label>, x: Label)
    ensures MaxClock(t0, tr + [x]) == if x.ReadClock? then Max(MaxClock(t0, tr), x.now) else MaxClock(t0, tr)
    ensures Resets(tr + [x]) == Resets(tr) + (if x.Reset? then 1 else 0)
    ensures Wins(tr + [x]) == Wins(tr) + (if x.Win? then 1 else 0)
  {
    MaxClockAppend(t0, tr, x);
    AppendCounts(tr, x);
  }

  lemma CountAppend(rate: nat, threads: nat, tr: seq<Label>, x: Label)
    requires Consistent(rate, tr) && Balanced(threads, tr)
    requires x.Add? ==> (x.ok <==> AddsSince(tr) + 1 <= rate)
    requires Resets(tr + [x]) <= Wins(tr + [x]) <= Resets(tr + [x]) + threads
    ensures Consistent(rate, tr + [x]) && Balanced(threads, tr + [x])
    ensures AddsSince(tr + [x]) == if x.Reset? then 0 else AddsSince(tr) + (if x.Add? then 1 else 0)
  {
    assert (tr + [x])[..|tr|] == tr;
  }

  lemma CountLabelStep(l: Seq.Limits, s: State, s': State, t: nat, x: Label)
    requires CountInv(l, s) && t < |s.pcs| == |s'.pcs| && s'.pcs == s.pcs[t := s'.pcs[t]] && s'.trace == s.trace + [x]
    requires x.Add? ==> (x.ok <==> s.counter + 1 <= l.rate)
    requires s'.counter == if x.Reset? then 0 else s.counter + (if x.Add? then 1 else 0)
    requires x.Win? <==> !s.pcs[t].Resetting? && s'.pcs[t].Resetting?
    requires x.Reset? <==> s.pcs[t].Resetting? && !s'.pcs[t].Resetting?
    ensures CountInv(l, s')
  {
    PendingUpdate(s.pcs, t, s'.pcs[t]);
    PendingBound(s'.pcs);
    AppendCounts(s.trace, x);
    CountAppend(l.rate, |s.pcs|, s.trace, x);
  }

  lemma CountStep(l: Seq.Limits, s: State, a: Action)
    requires CountInv(l, s) && Enabled(s, a)
    ensures CountInv(l, Next(l, s, a))
  {
    var s' := Next(l, s, a);
    match a
    case Clock(t, now) => CountLabelStep(l, s, s', t, ReadClock(now));
    case Load(t) => PendingUpdate(s.pcs, t, s'.pcs[t]);
    case Decide(t) =>
      if s'.pcs[t].Resetting? {
        CountLabelStep(l, s, s', t, Win);
      } else {
        PendingUpdate(s.pcs, t, s'.pcs[t]);
      }
    case Store(t) => CountLabelStep(l, s, s', t, Reset);
    case Count(t) => CountLabelStep(l, s, s', t, Add(s.counter + 1 <= l.rate));
  }

  lemma {:induction false} RunInv(l: Seq.Limits, t0: int, s: State, run: seq<Action>)
    requires ClockInv(l, t0, s) && CountInv(l, s) && IsRun(l, s, run)
    ensures var t := After(l, s, run); ClockInv(l, t0, t) && CountInv(l, t) && |t.pcs| == |s.pcs|
    decreases |run|
  {
    if run != [] {
      ClockStep(l, t0, s, run[0]);
      CountStep(l, s, run[0]);
      RunInv(l, t0, Next(l, s, run[0]), run[1..]);
    }
  }

  lemma ReachableInv(l: Seq.Limits, t0: int, threads: nat, s: State)
    requires Reachable(l, t0, threads, s)
    ensures ClockInv(l, t0, s) && CountInv(l, s) && |s.pcs| == threads
  {
    var run :| IsRun(l, Init(t0, threads), run) && s == After(l, Init(t0, threads), run);
    PendingBound(Init(t0, threads).pcs);
    RunInv(l, t0, Init(t0, threads), run);
  }

  /** Between two resets exactly min(rate, calls) are accepted, whatever the interleaving. */
  lemma SegmentsExact(l: Seq.Limits, t0: int, threads: nat, s: State, k: nat)
    requires Reachable(l, t0, threads, s) && k < |Segments(s.trace)|
    ensures Accepted(Segments(s.trace)[k]) == Min(l.rate, Adds(Segments(s.trace)[k]))
    ensures |Segments(s.trace)| == Resets(s.trace) + 1
  {
    ReachableInv(l, t0, threads, s);
    SegmentsOf(l.rate, s.trace);
    assert Exact(l.rate, Segments(s.trace)[k]);
  }

  /** Every winner resets the counter once: wins are the resets done plus the threads paused before theirs. */
  lemma WinsAreResets(l: Seq.Limits, t0: int, threads: nat, s: State)
    requires Reachable(l, t0, threads, s)
    ensures Wins(s.trace) == Resets(s.trace) + Pending(s.pcs)
  {
    ReachableInv(l, t0, threads, s);
  }

  lemma StretchResets(rate: nat, tr: seq<Label>, i: nat, j: nat)
    requires i <= j <= |tr| && Consistent(rate, tr[..j])
    ensures Accepted(tr[i..j]) <= rate * (Resets(tr[i..j]) + 1)
  {
    SuffixBound(rate, tr[..j], i);
    assert tr[..j][i..] == tr[i..j];
    ResetStep(rate, Resets(tr[i..j]));
  }

  lemma StretchWins(rate: nat, threads: nat, tr: seq<Label>, i: nat, j: nat)
    requires i <= j <= |tr| && Consistent(rate, tr) && Balanced(threads, tr)
    ensures Resets(tr[i..j]) <= Wins(tr[i..j]) + threads
  {
    PrefixKeeps(rate, threads, tr, i);
    PrefixKeeps(rate, threads, tr, j);
    assert tr[..j] == tr[..i] + tr[i..j];
    ConcatTally(tr[..i], tr[i..j], Reset);
    ConcatTally(tr[..i], tr[i..j], Win);
  }

  /** Any stretch of any run accepts at most rate calls per reset in it, and one rate more. */
  lemma StretchBound(l: Seq.Limits, t0: int, threads: nat, s: State, i: nat, j: nat)
    requires Reachable(l, t0, threads, s) && i <= j <= |s.trace|
    ensures Accepted(s.trace[i..j]) <= l.rate * (Resets(s.trace[i..j]) + 1)
    ensures Accepted(s.trace[i..j]) <= l.rate * (Wins(s.trace[i..j]) + threads + 1)
  {
    ReachableInv(l, t0, threads, s);
    PrefixKeeps(l.rate, threads, s.trace, j);
    StretchResets(l.rate, s.trace, i, j);
    StretchWins(l.rate, threads, s.trace, i, j);
    Monotone(l.rate, Resets(s.trace[i..j]) + 1, Wins(s.trace[i..j]) + threads + 1);
  }

  lemma DivBound(wins: nat, gap: nat, span: int)
    requires gap > 0 && wins * gap <= span
    ensures wins <= span / gap
  {
    var q := span / gap;
    assert span == q * gap + span % gap;
    assert span < (q + 1) * gap;
    if wins > q { Monotone(gap, q + 1, wins); }
  }

  /** For any threads, interleaving and clock: accepted calls are limited by the time the clock has shown. */
  lemma AcceptedBounded(l: Seq.Limits, t0: int, threads: nat, s: State)
    requires Reachable(l, t0, threads, s)
    ensures Accepted(s.trace) <= l.rate * (1 + (MaxClock(t0, s.trace) - t0) / (l.interval + 1))
  {
    ReachableInv(l, t0, threads, s);
    StretchBound(l, t0, threads, s, 0, |s.trace|);
    assert s.trace[0..|s.trace|] == s.trace;
    ElapsedIs(l, Wins(s.trace));
    DivBound(Wins(s.trace), l.interval + 1, MaxClock(t0, s.trace) - t0);
    Monotone(l.rate, Resets(s.trace) + 1, 1 + (MaxClock(t0, s.trace) - t0) / (l.interval + 1));
  }

  // ----- "At most rate per window" is false under the race -----

  lemma StepReachable(l: Seq.Limits, t0: int, threads: nat, s: State, a: Action)
    requires Reachable(l, t0, threads, s) && Enabled(s, a)
    ensures Reachable(l, t0, threads, Next(l, s, a))
  {
    var run :| IsRun(l, Init(t0, threads), run) && s == After(l, Init(t0, threads), run);
    RunAppend(l, Init(t0, threads), run, a);
    assert IsRun(l, Init(t0, threads), run + [a]);
  }

  lemma {:induction false} RunAppend(l: Seq.Limits, s: State, run: seq<Action>, a: Action)
    requires IsRun(l, s, run) && Enabled(After(l, s, run), a)
    ensures IsRun(l, s, run + [a]) && After(l, s, run + [a]) == Next(l, After(l, s, run), a)
    decreases |run|
  {
    if run == [] {
      assert run + [a] == [a] && [a][1..] == [];
    } else {
      assert (run + [a])[1..] == run[1..] + [a];
      RunAppend(l, Next(l, s, run[0]), run[1..], a);
    }
  }

  lemma WindowWon() returns (s: State)
    ensures Reachable(Seq.Limits(1, 1), 0, 2, s)
    ensures s == State(0, 2, [Resetting, Idle], [ReadClock(2), Win])
  {
    var l := Seq.Limits(1, 1);
    var s0 := State(0, 0, [Idle, Idle], []);
    assert Init(0, 2) == s0 && IsRun(l, s0, []) && After(l, s0, []) == s0;
    var s1 := State(0, 0, [Clocked(2), Idle], [ReadClock(2)]);
    Goes(l, 0, 2, s0, Clock(0, 2), s1);
    var s2 := s1.(pcs := [Loaded(2, 0), Idle]);
    Goes(l, 0, 2, s1, Load(0), s2);
    s := State(0, 2, [Resetting, Idle], [ReadClock(2), Win]);
    Goes(l, 0, 2, s2, Decide(0), s);
  }

  lemma WinnerPaused() returns (s: State)
    ensures Reachable(Seq.Limits(1, 1), 0, 2, s)
    ensures s == State(0, 2, [Resetting, Clocked(2)], [ReadClock(2), Win, ReadClock(2)])
  {
    var s3 := WindowWon();
    s := State(0, 2, [Resetting, Clocked(2)], [ReadClock(2), Win, ReadClock(2)]);
    Goes(Seq.Limits(1, 1), 0, 2, s3, Clock(1, 2), s);
  }

  lemma OtherAccepted() returns (s: State)
    ensures Reachable(Seq.Limits(1, 1), 0, 2, s)
    ensures s == State(1, 2, [Resetting, Idle], [ReadClock(2), Win, ReadClock(2)] + [Add(true)])
  {
    var l := Seq.Limits(1, 1);
    var s4 := WinnerPaused();
    var s5 := s4.(pcs := [Resetting, Loaded(2, 2)]);
    Goes(l, 0, 2, s4, Load(1), s5);
    var s6 := s5.(pcs := [Resetting, Adding]);
    Goes(l, 0, 2, s5, Decide(1), s6);
    s := State(1, 2, [Resetting, Idle], s4.trace + [Add(true)]);
    Goes(l, 0, 2, s6, Count(1), s);
  }

  lemma BothAccepted() returns (s: State)
    ensures Reachable(Seq.Limits(1, 1), 0, 2, s)
    ensures s == State(1, 2, [Idle, Idle], [ReadClock(2), Win, ReadClock(2)] + [Add(true)] + [Reset] + [Add(true)])
  {
    var l := Seq.Limits(1, 1);
    var s7 := OtherAccepted();
    var s8 := State(0, 2, [Adding, Idle], s7.trace + [Reset]);
    Goes(l, 0, 2, s7, Store(0), s8);
    s := State(1, 2, [Idle, Idle], s8.trace + [Add(true)]);
    Goes(l, 0, 2, s8, Count(0), s);
  }

  /** Rate 1, interval 1: thread 0 wins the new window and pauses, thread 1 is accepted in it, then thread 0
      resets the counter and is accepted in it too. */
  lemma WindowCanAcceptMoreThanRate() returns (s: State)
    ensures Reachable(Seq.Limits(1, 1), 0, 2, s)
    ensures |s.trace| == 6 && Wins(s.trace[..2]) == 1 && Wins(s.trace[2..]) == 0 && Accepted(s.trace[2..]) == 2
  {
    s := BothAccepted();
    assert s.trace[..2] == [] + [ReadClock(2)] + [Win];
    AppendCounts([], ReadClock(2));
    AppendCounts([] + [ReadClock(2)], Win);
    var tail := [] + [ReadClock(2)] + [Add(true)] + [Reset] + [Add(true)];
    assert s.trace[2..] == tail;
    AppendCounts([] + [ReadClock(2)], Add(true));
    AppendCounts([] + [ReadClock(2)] + [Add(true)], Reset);
    AppendCounts([] + [ReadClock(2)] + [Add(true)] + [Reset], Add(true));
  }

  lemma Goes(l: Seq.Limits, t0: int, threads: nat, s: State, a: Action, s': State)
    requires Reachable(l, t0, threads, s) && Enabled(s, a) && Next(l, s, a) == s'
    ensures Reachable(l, t0, threads, s')
  {
    StepReachable(l, t0, threads, s, a);
  }

  // ----- Without interleaving -----

  function CallActions(l: Seq.Limits, w: Seq.Window, t: nat, now: int): seq<Action> {
    if now - w.lastReset > l.interval then [Clock(t, now), Load(t), Decide(t), Store(t), Count(t)]
    else [Clock(t, now), Load(t), Decide(t), Count(t)]
  }

  /** A call that nobody interrupts does what the sequential sampler does. */
  lemma UninterruptedCall(l: Seq.Limits, s: State, t: nat, now: int)
    requires t < |s.pcs| && s.pcs[t].Idle?
    ensures
      var w := Seq.Window(s.counter, s.lastReset);
      var run := CallActions(l, w, t, now);
      && IsRun(l, s, run)
      && var s' := After(l, s, run);
         && Seq.Window(s'.counter, s'.lastReset) == Seq.AfterCall(l, w, now)
         && s'.pcs == s.pcs
         && s'.trace != [] && s'.trace[|s'.trace| - 1] == Add(Seq.Accepts(l, w, now))
  {
    var s1 := Next(l, s, Clock(t, now));
    var s2 := Next(l, s1, Load(t));
    var s3 := Next(l, s2, Decide(t));
    RunAppend(l, s, [], Clock(t, now));
    RunAppend(l, s, [Clock(t, now)], Load(t));
    assert [Clock(t, now)] + [Load(t)] == [Clock(t, now), Load(t)];
    RunAppend(l, s, [Clock(t, now), Load(t)], Decide(t));
    assert [Clock(t, now), Load(t)] + [Decide(t)] == [Clock(t, now), Load(t), Decide(t)];
    if now - s.lastReset > l.interval {
      RunAppend(l, s, [Clock(t, now), Load(t), Decide(t)], Store(t));
      assert [Clock(t, now), Load(t), Decide(t)] + [Store(t)] == [Clock(t, now), Load(t), Decide(t), Store(t)];
      RunAppend(l, s, [Clock(t, now), Load(t), Decide(t), Store(t)], Count(t));
      assert [Clock(t, now), Load(t), Decide(t), Store(t)] + [Count(t)]
             == [Clock(t, now), Load(t), Decide(t), Store(t), Count(t)];
    } else {
      RunAppend(l, s, [Clock(t, now), Load(t), Decide(t)], Count(t));
      assert [Clock(t, now), Load(t), Decide(t)] + [Count(t)] == [Clock(t, now), Load(t), Decide(t), Count(t)];
    }
  }
}
