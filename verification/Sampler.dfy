/**
 The rate-limiting sampler called by one goroutine at a time, and the loggers that share it.
 Times are nanoseconds; neither they nor the counter overflow here.
 */
module Sampler {
  import opened Wrappers

  datatype Window = Window(counter: nat, lastReset: int)

  datatype Limits = Limits(rate: nat, interval: nat)

  function Refresh(l: Limits, w: Window, now: int): Window {
    if now - w.lastReset > l.interval then Window(0, now) else w
  }

  function AfterCall(l: Limits, w: Window, now: int): Window {
    var r := Refresh(l, w, now);
    r.(counter := r.counter + 1)
  }

  predicate Accepts(l: Limits, w: Window, now: int) {
    AfterCall(l, w, now).counter <= l.rate
  }

  class Sampler {
    const rate: nat
    const interval: nat
    var counter: nat
    var lastReset: int

    /** The source panics unless both limits are positive. */
    constructor (rate: int, interval: int, now: int)
      requires rate > 0 && interval > 0
      ensures this.rate == rate && this.interval == interval
      ensures Current() == Window(0, now)
    {
      this.rate := rate;
      this.interval := interval;
      counter := 0;
      lastReset := now;
    }

    function Current(): Window
      reads this
    {
      Window(counter, lastReset)
    }

    method ShouldLog(now: int) returns (ok: bool)
      modifies this
      ensures ok == Accepts(Limits(rate, interval), old(Current()), now)
      ensures Current() == AfterCall(Limits(rate, interval), old(Current()), now)
    {
      if now - lastReset > interval {
        lastReset := now;
        counter := 0;
      }
      counter := counter + 1;
      ok := counter <= rate;
    }
  }

  datatype Level = Debug | Info | Warn | Error | Fatal

  datatype Entry = Entry(level: Level, message: string, fields: map<string, string>)

  class Sink {
    var entries: seq<Entry>

    constructor ()
      ensures entries == []
    {
      entries := [];
    }
  }

  const REQUEST_ID := "request_id"

  class SampledLogger {
    const sampler: Sampler
    const sink: Sink
    const fields: map<string, string>

    constructor (sampler: Sampler, sink: Sink, fields: map<string, string>)
      ensures this.sampler == sampler && this.sink == sink && this.fields == fields
    {
      this.sampler := sampler;
      this.sink := sink;
      this.fields := fields;
    }

    /** Debug and Info are sampled; everything else passes and leaves the sampler alone. */
    method Log(level: Level, message: string, now: int)
      modifies sampler, sink
      ensures
        var l := Limits(sampler.rate, sampler.interval);
        var sampled := level.Debug? || level.Info?;
        && sampler.Current() == (if sampled then AfterCall(l, old(sampler.Current()), now) else old(sampler.Current()))
        && sink.entries == if sampled && !Accepts(l, old(sampler.Current()), now) then old(sink.entries)
                           else old(sink.entries) + [Entry(level, message, fields)]
    {
      if level.Debug? || level.Info? {
        var ok := sampler.ShouldLog(now);
        if !ok {
          return;
        }
      }
      sink.entries := sink.entries + [Entry(level, message, fields)];
    }

    method WithFields(extra: map<string, string>) returns (r: SampledLogger)
      ensures r.sampler == sampler && r.sink == sink && r.fields == fields + extra
    {
      r := new SampledLogger(sampler, sink, fields + extra);
    }

    method WithField(key: string, value: string) returns (r: SampledLogger)
      ensures r.sampler == sampler && r.sink == sink && r.fields == fields[key := value]
    {
      r := new SampledLogger(sampler, sink, fields[key := value]);
    }

    method WithRequestID(id: string) returns (r: SampledLogger)
      ensures r.sampler == sampler && r.sink == sink && r.fields == fields["request_id" := id]
    {
      r := new SampledLogger(sampler, sink, fields[REQUEST_ID := id]);
    }

    method WithContext(id: Option<string>) returns (r: SampledLogger)
      ensures r.sampler == sampler && r.sink == sink
      ensures r.fields == if id.Some? && id.value != "" then fields["request_id" := id.value] else fields
      ensures id.None? || id.value == "" ==> r == this
    {
      if id.Some? && id.value != "" {
        r := WithRequestID(id.value);
      } else {
        r := this;
      }
    }
  }

  // ----- Sequences of calls -----

  ghost predicate NonDecreasing(ts: seq<int>) {
    forall i, j :: 0 <= i < j < |ts| ==> ts[i] <= ts[j]
  }

  function After(l: Limits, w: Window, ts: seq<int>): Window
    decreases |ts|
  {
    if ts == [] then w else After(l, AfterCall(l, w, ts[0]), ts[1..])
  }

  function Decisions(l: Limits, w: Window, ts: seq<int>): (ds: seq<bool>)
    ensures |ds| == |ts|
    decreases |ts|
  {
    if ts == [] then [] else [Accepts(l, w, ts[0])] + Decisions(l, AfterCall(l, w, ts[0]), ts[1..])
  }

  function Accepted(ds: seq<bool>): nat {
    if ds == [] then 0 else (if ds[0] then 1 else 0) + Accepted(ds[1..])
  }

  lemma {:induction false} DecisionsSplit(l: Limits, w: Window, a: seq<int>, b: seq<int>)
    ensures Decisions(l, w, a + b) == Decisions(l, w, a) + Decisions(l, After(l, w, a), b)
    decreases |a|
  {
    if a == [] {
      assert a + b == b;
    } else {
      assert (a + b)[1..] == a[1..] + b;
      DecisionsSplit(l, AfterCall(l, w, a[0]), a[1..], b);
    }
  }

  lemma {:induction false} AcceptedConcat(a: seq<bool>, b: seq<bool>)
    ensures Accepted(a + b) == Accepted(a) + Accepted(b)
  {
    if a == [] {
      assert a + b == b;
    } else {
      assert (a + b)[1..] == a[1..] + b;
      AcceptedConcat(a[1..], b);
    }
  }

  lemma {:induction false} LastResetWithin(l: Limits, w: Window, ts: seq<int>)
    requires NonDecreasing(ts) && (ts != [] ==> w.lastReset <= ts[0])
    ensures After(l, w, ts).lastReset <= (if ts == [] then w.lastReset else ts[|ts| - 1])
    decreases |ts|
  {
    if ts != [] {
      LastResetWithin(l, AfterCall(l, w, ts[0]), ts[1..]);
    }
  }

  /** Until the window expires, exactly the calls that fit into what is left of the rate are accepted. */
  lemma {:induction false} WithinWindow(l: Limits, w: Window, ts: seq<int>)
    requires forall i :: 0 <= i < |ts| ==> ts[i] - w.lastReset <= l.interval
    ensures Accepted(Decisions(l, w, ts)) == Min(|ts|, Max(0, l.rate - w.counter))
    decreases |ts|
  {
    if ts != [] {
      WithinWindow(l, AfterCall(l, w, ts[0]), ts[1..]);
    }
  }

  /** The leading calls that still belong to the window. */
  function Early(l: Limits, w: Window, ts: seq<int>): (k: nat)
    ensures k <= |ts|
  {
    if ts == [] || ts[0] - w.lastReset > l.interval then 0 else 1 + Early(l, w, ts[1..])
  }

  /** Of calls within one interval exactly so many are accepted: those that fit into what the old window has
      left, and then those that fit into one new window. */
  lemma {:induction false} SpanExact(l: Limits, w: Window, ts: seq<int>)
    requires ts != [] ==> NonDecreasing(ts) && ts[|ts| - 1] - ts[0] <= l.interval
    ensures
      var k := Early(l, w, ts);
      Accepted(Decisions(l, w, ts)) == Min(k, Max(0, l.rate - w.counter)) + Min(|ts| - k, l.rate)
    decreases |ts|
  {
    if ts != [] {
      var next := AfterCall(l, w, ts[0]);
      if ts[0] - w.lastReset > l.interval {
        WithinWindow(l, next, ts[1..]);
      } else {
        EarlyNext(l, w, next, ts[1..]);
        SpanExact(l, next, ts[1..]);
      }
    }
  }

  lemma {:induction false} EarlyNext(l: Limits, w: Window, w': Window, ts: seq<int>)
    requires w.lastReset == w'.lastReset
    ensures Early(l, w, ts) == Early(l, w', ts)
  {
    if ts != [] { EarlyNext(l, w, w', ts[1..]); }
  }

  lemma MiddleDecisions(l: Limits, w: Window, a: seq<int>, b: seq<int>, c: seq<int>)
    ensures Decisions(l, w, a + b + c)[|a|..|a| + |b|] == Decisions(l, After(l, w, a), b)
  {
    DecisionsSplit(l, w, a + b, c);
    DecisionsSplit(l, w, a, b);
  }

  /** Whatever happened before and after, calls i to j - 1 of a run are accepted at most 2 * rate times
      if they are made within one interval; at most `rate` times exactly when what the old window had left
      and what the new one takes fit into one rate. */
  lemma SpanAcceptsTwiceRate(l: Limits, w: Window, ts: seq<int>, i: nat, j: nat)
    requires NonDecreasing(ts)
    requires i < j <= |ts| && ts[j - 1] - ts[i] <= l.interval
    ensures Accepted(Decisions(l, w, ts)[i..j]) <= 2 * l.rate
    ensures
      var before := After(l, w, ts[..i]);
      var k := Early(l, before, ts[i..j]);
      Accepted(Decisions(l, w, ts)[i..j]) <= l.rate <==>
        k == 0 || before.counter >= l.rate || j - i - k <= l.rate - Min(k, l.rate - before.counter)
  {
    SpanAcceptsExactly(l, w, ts, i, j);
    var before := After(l, w, ts[..i]);
    WithinRate(Early(l, before, ts[i..j]), j - i, before.counter, l.rate);
  }

  lemma SpanAcceptsExactly(l: Limits, w: Window, ts: seq<int>, i: nat, j: nat)
    requires NonDecreasing(ts)
    requires i < j <= |ts| && ts[j - 1] - ts[i] <= l.interval
    ensures
      var before := After(l, w, ts[..i]);
      var k := Early(l, before, ts[i..j]);
      Accepted(Decisions(l, w, ts)[i..j]) == Min(k, Max(0, l.rate - before.counter)) + Min(j - i - k, l.rate)
  {
    SpanDecisions(l, w, ts, i, j);
    SpanExact(l, After(l, w, ts[..i]), ts[i..j]);
  }

  lemma SpanDecisions(l: Limits, w: Window, ts: seq<int>, i: nat, j: nat)
    requires i <= j <= |ts|
    ensures Decisions(l, w, ts)[i..j] == Decisions(l, After(l, w, ts[..i]), ts[i..j])
  {
    assert ts == ts[..i] + ts[i..j] + ts[j..];
    MiddleDecisions(l, w, ts[..i], ts[i..j], ts[j..]);
  }

  lemma WithinRate(k: nat, n: nat, counter: nat, rate: nat)
    requires k <= n
    ensures Min(k, Max(0, rate - counter)) + Min(n - k, rate) <= rate <==>
            k == 0 || counter >= rate || n - k <= rate - Min(k, rate - counter)
  {
  }

  lemma {:induction false} AllAccepted(l: Limits, w: Window, ts: seq<int>)
    requires w.counter + |ts| <= l.rate
    ensures forall i :: 0 <= i < |ts| ==> Decisions(l, w, ts)[i]
    decreases |ts|
  {
    if ts != [] {
      AllAccepted(l, AfterCall(l, w, ts[0]), ts[1..]);
    }
  }

  /** After an idle gap longer than the interval, the next `rate` calls are all accepted. */
  lemma GapRestoresRate(l: Limits, w: Window, past: seq<int>, ts: seq<int>)
    requires NonDecreasing(past) && past != [] && w.lastReset <= past[0]
    requires ts != [] && |ts| <= l.rate && ts[0] - past[|past| - 1] > l.interval
    ensures forall i :: |past| <= i < |past| + |ts| ==> Decisions(l, w, past + ts)[i]
  {
    DecisionsSplit(l, w, past, ts);
    LastResetWithin(l, w, past);
    AllAccepted(l, AfterCall(l, After(l, w, past), ts[0]), ts[1..]);
  }

  lemma {:induction false} CountersAgree(l: Limits, w: Window, n: nat, now: int)
    requires now - w.lastReset <= l.interval
    ensures After(l, w, seq(n, _ => now)) == w.(counter := w.counter + n)
    decreases n
  {
    if n > 0 {
      assert seq(n, _ => now)[1..] == seq(n - 1, _ => now);
      CountersAgree(l, AfterCall(l, w, now), n - 1, now);
    }
  }

  /** The bound 2 * rate is reached for every rate, by calls one nanosecond apart around the end of a window. */
  lemma SpanBoundReached(l: Limits) returns (ts: seq<int>)
    requires l.rate > 0 && l.interval > 0
    ensures NonDecreasing(ts) && ts != [] && ts[|ts| - 1] - ts[0] <= l.interval
    ensures Accepted(Decisions(l, Window(0, 0), ts)) == 2 * l.rate
  {
    var w := Window(0, 0);
    var a, b := seq(l.rate, _ => l.interval), seq(l.rate, _ => l.interval + 1);
    ts := a + b;
    DecisionsSplit(l, w, a, b);
    AcceptedConcat(Decisions(l, w, a), Decisions(l, After(l, w, a), b));
    WithinWindow(l, w, a);
    CountersAgree(l, w, l.rate, l.interval);
    WithinWindow(l, AfterCall(l, After(l, w, a), b[0]), b[1..]);
  }

  // ----- Loggers derived from one another -----

  /** Within one interval at most 2 * rate of the answers are positive. */
  ghost predicate SpanKept(l: Limits, ts: seq<int>, ds: seq<bool>)
    requires |ds| == |ts|
  {
    forall i, j :: 0 <= i < j <= |ts| && ts[j - 1] - ts[i] <= l.interval ==> Accepted(ds[i..j]) <= 2 * l.rate
  }

  /** The `rate` answers that follow a gap longer than the interval are all positive. */
  ghost predicate GapKept(l: Limits, ts: seq<int>, ds: seq<bool>)
    requires |ds| == |ts|
  {
    forall g, k :: 0 < g <= k < |ts| && k - g < l.rate && ts[g] - ts[g - 1] > l.interval ==> ds[k]
  }

  lemma SpansKept(l: Limits, w: Window, ts: seq<int>)
    requires NonDecreasing(ts)
    ensures SpanKept(l, ts, Decisions(l, w, ts))
  {
    forall i, j | 0 <= i < j <= |ts| && ts[j - 1] - ts[i] <= l.interval
      ensures Accepted(Decisions(l, w, ts)[i..j]) <= 2 * l.rate
    {
      SpanAcceptsTwiceRate(l, w, ts, i, j);
    }
  }

  lemma PrefixDecisions(l: Limits, w: Window, ts: seq<int>, k: nat)
    requires k < |ts|
    ensures Decisions(l, w, ts)[k] == Decisions(l, w, ts[..k + 1])[k]
  {
    assert ts == ts[..k + 1] + ts[k + 1..];
    DecisionsSplit(l, w, ts[..k + 1], ts[k + 1..]);
  }

  lemma GapAnswer(l: Limits, w: Window, ts: seq<int>, g: nat, k: nat)
    requires NonDecreasing(ts) && 0 < g <= k < |ts| && w.lastReset <= ts[0]
    requires k - g < l.rate && ts[g] - ts[g - 1] > l.interval
    ensures Decisions(l, w, ts)[k]
  {
    var past, next := ts[..g], ts[g..k + 1];
    PrefixDecisions(l, w, ts, k);
    assert ts[..k + 1] == past + next && past[|past| - 1] == ts[g - 1] && next[0] == ts[g];
    GapRestoresRate(l, w, past, next);
  }

  lemma GapsKept(l: Limits, w: Window, ts: seq<int>)
    requires NonDecreasing(ts) && (ts != [] ==> w.lastReset <= ts[0])
    ensures GapKept(l, ts, Decisions(l, w, ts))
  {
    forall g, k | 0 < g <= k < |ts| && k - g < l.rate && ts[g] - ts[g - 1] > l.interval
      ensures Decisions(l, w, ts)[k]
    {
      GapAnswer(l, w, ts, g, k);
    }
  }

  lemma {:induction false} AfterSplit(l: Limits, w: Window, a: seq<int>, b: seq<int>)
    ensures After(l, w, a + b) == After(l, After(l, w, a), b)
    decreases |a|
  {
    if a == [] {
      assert a + b == b;
    } else {
      assert (a + b)[1..] == a[1..] + b;
      AfterSplit(l, AfterCall(l, w, a[0]), a[1..], b);
    }
  }

  lemma NextCall(l: Limits, w: Window, ts: seq<int>, now: int)
    ensures After(l, w, ts + [now]) == AfterCall(l, After(l, w, ts), now)
    ensures Decisions(l, w, ts + [now]) == Decisions(l, w, ts) + [Accepts(l, After(l, w, ts), now)]
  {
    AfterSplit(l, w, ts, [now]);
    DecisionsSplit(l, w, ts, [now]);
    assert [now][1..] == [];
  }

  /** What a program may do with a logger and those derived from it, in any order; loggers are numbered in the
      order in which they come into being. */
  datatype Op =
    | WithFields(parent: nat, extra: map<string, string>)
    | WithField(parent: nat, key: string, value: string)
    | WithRequestID(parent: nat, id: string)
    | WithContext(parent: nat, ctxId: Option<string>)
    | Log(logger: nat, level: Level, message: string, now: int)

  /** How many loggers there are after the operations; one to start with. */
  function Loggers(ops: seq<Op>): (n: nat)
    ensures n > 0
  {
    if ops == [] then 1 else var n := |ops| - 1; Loggers(ops[..n]) + (if ops[n].Log? then 0 else 1)
  }

  ghost predicate Possible(ops: seq<Op>) {
    forall i :: 0 <= i < |ops| ==> (if ops[i].Log? then ops[i].logger else ops[i].parent) < Loggers(ops[..i])
  }

  predicate Asks(op: Op) {
    op.Log? && (op.level.Debug? || op.level.Info?)
  }

  /** The times at which the sampler is asked. */
  function Times(ops: seq<Op>): seq<int> {
    if ops == [] then []
    else var n := |ops| - 1; if Asks(ops[n]) then Times(ops[..n]) + [ops[n].now] else Times(ops[..n])
  }

  lemma NextOp(ops: seq<Op>, i: nat)
    requires i < |ops|
    ensures Times(ops[..i + 1]) == if Asks(ops[i]) then Times(ops[..i]) + [ops[i].now] else Times(ops[..i])
    ensures Loggers(ops[..i + 1]) == Loggers(ops[..i]) + (if ops[i].Log? then 0 else 1)
  {
    assert ops[..i + 1][..i] == ops[..i];
  }

  ghost predicate OneFamily(root: SampledLogger, loggers: seq<SampledLogger>) {
    forall k :: 0 <= k < |loggers| ==> loggers[k].sampler == root.sampler && loggers[k].sink == root.sink
  }

  /** The logger that one With method derives. */
  method Derive(parent: SampledLogger, op: Op) returns (r: SampledLogger)
    requires !op.Log?
    ensures r.sampler == parent.sampler && r.sink == parent.sink
  {
    match op
    case WithFields(_, extra) => r := parent.WithFields(extra);
    case WithField(_, key, value) => r := parent.WithField(key, value);
    case WithRequestID(_, id) => r := parent.WithRequestID(id);
    case WithContext(_, ctxId) => r := parent.WithContext(ctxId);
  }

  /** Any use of a logger and of all loggers derived from it: whether an entry appears is decided, for all of
      them together, as one sampler decides; so the span and the gap guarantee hold jointly. */
  method UseFamily(root: SampledLogger, ops: seq<Op>) returns (answers: seq<bool>)
    requires Possible(ops)
    modifies root.sampler, root.sink
    ensures
      var l, w, ts := Limits(root.sampler.rate, root.sampler.interval), old(root.sampler.Current()), Times(ops);
      && answers == Decisions(l, w, ts)
      && root.sampler.Current() == After(l, w, ts)
      && (NonDecreasing(ts) ==> SpanKept(l, ts, answers))
      && (NonDecreasing(ts) && (ts != [] ==> w.lastReset <= ts[0]) ==> GapKept(l, ts, answers))
  {
    ghost var l := Limits(root.sampler.rate, root.sampler.interval);
    ghost var w := root.sampler.Current();
    var loggers := [root];
    answers := [];
    for i := 0 to |ops|
      invariant |loggers| == Loggers(ops[..i]) && OneFamily(root, loggers)
      invariant answers == Decisions(l, w, Times(ops[..i]))
      invariant root.sampler.Current() == After(l, w, Times(ops[..i]))
    {
      NextOp(ops, i);
      var op := ops[i];
      if op.Log? {
        var before := |root.sink.entries|;
        loggers[op.logger].Log(op.level, op.message, op.now);
        if op.level.Debug? || op.level.Info? {
          NextCall(l, w, Times(ops[..i]), op.now);
          answers := answers + [|root.sink.entries| > before];
        }
      } else {
        var derived := Derive(loggers[op.parent], op);
        loggers := loggers + [derived];
      }
    }
    assert ops[..|ops|] == ops;
    if NonDecreasing(Times(ops)) {
      SpansKept(l, w, Times(ops));
      if Times(ops) != [] ==> w.lastReset <= Times(ops)[0] { GapsKept(l, w, Times(ops)); }
    }
  }
}
