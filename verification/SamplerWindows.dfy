/**
 Exactly how many calls any stretch of a concurrent run accepts, and exactly when that is at most `rate`.
 A window is such a stretch: from one successful compare-and-swap up to the next.
 */
module SamplerWindows {
  import opened Wrappers
  import Seq = Sampler
  import opened SamplerRace

  // ----- Exact count -----

  function RoomFor(rate: nat, counter: nat): nat {
    if counter < rate then rate - counter else 0
  }

  /** What each segment of a stretch asks for: the first one only what the counter still leaves room for. */
  function Asked(room: nat, ss: seq<seq<Label>>): (xs: seq<nat>)
    ensures |xs| == |ss|
  {
    seq(|ss|, k requires 0 <= k < |ss| => if k == 0 then Min(room, Adds(ss[0])) else Adds(ss[k]))
  }

  function Sum(xs: seq<nat>): nat {
    if xs == [] then 0 else var n := |xs| - 1; Sum(xs[..n]) + xs[n]
  }

  /** The sum with every summand cut at rate. */
  function Capped(rate: nat, xs: seq<nat>): nat {
    if xs == [] then 0 else var n := |xs| - 1; Capped(rate, xs[..n]) + Min(rate, xs[n])
  }

  function Nonzero(xs: seq<nat>): nat {
    if xs == [] then 0 else var n := |xs| - 1; Nonzero(xs[..n]) + (if xs[n] > 0 then 1 else 0)
  }

  lemma CappedAppend(rate: nat, xs: seq<nat>, x: nat)
    ensures Capped(rate, xs + [x]) == Capped(rate, xs) + Min(rate, x)
  {
    assert (xs + [x])[..|xs|] == xs;
  }

  /** Raising the last entry from x to y. */
  lemma CappedReplaced(rate: nat, xs: seq<nat>, y: nat)
    requires xs != []
    ensures Capped(rate, xs[|xs| - 1 := y]) == Capped(rate, xs) - Min(rate, xs[|xs| - 1]) + Min(rate, y)
  {
    assert xs[|xs| - 1 := y][..|xs| - 1] == xs[..|xs| - 1];
  }

  /** What the counter holds at the end, and how many calls were accepted since position i. */
  ghost predicate Counted(rate: nat, tr: seq<Label>, i: nat)
    requires i <= |tr|
  {
    Tallied(rate, AddsSince(tr[..i]), Segments(tr[i..]), AddsSince(tr), Accepted(tr[i..]))
  }

  ghost predicate Tallied(rate: nat, before: nat, ss: seq<seq<Label>>, counter: nat, accepted: nat)
    requires |ss| > 0
  {
    && counter == (if |ss| == 1 then before else 0) + Adds(Last(ss))
    && accepted == Capped(rate, Asked(RoomFor(rate, before), ss))
  }

  lemma AskedReset(room: nat, ss: seq<seq<Label>>)
    requires |ss| > 0
    ensures Asked(room, ss + [[]]) == Asked(room, ss) + [0]
  {
    assert Adds([]) == 0;
  }

  lemma AskedMore(room: nat, ss: seq<seq<Label>>, seg: seq<Label>)
    requires |ss| > 0
    ensures Asked(room, ss[|ss| - 1 := seg]) ==
            Asked(room, ss)[|ss| - 1 := if |ss| == 1 then Min(room, Adds(seg)) else Adds(seg)]
  {
  }

  lemma SegmentsAppend(tr: seq<Label>, x: Label)
    ensures Segments(tr + [x]) ==
            if x.Reset? then Segments(tr) + [[]] else Segments(tr)[|Segments(tr)| - 1 := Last(Segments(tr)) + [x]]
  {
    assert (tr + [x])[..|tr|] == tr;
  }

  lemma AddsSinceAppend(tr: seq<Label>, x: Label)
    ensures AddsSince(tr + [x]) == if x.Reset? then 0 else AddsSince(tr) + (if x.Add? then 1 else 0)
  {
    assert (tr + [x])[..|tr|] == tr;
  }

  lemma CutAppend(tr: seq<Label>, x: Label, i: nat)
    requires i <= |tr|
    ensures (tr + [x])[i..] == tr[i..] + [x] && (tr + [x])[..i] == tr[..i]
  {
  }

  lemma Extend(tr: seq<Label>, x: Label, i: nat)
    requires i <= |tr|
    ensures (tr + [x])[i..] == tr[i..] + [x] && (tr + [x])[..i] == tr[..i]
    ensures AddsSince(tr + [x]) == if x.Reset? then 0 else AddsSince(tr) + (if x.Add? then 1 else 0)
    ensures Accepted(tr[i..] + [x]) == Accepted(tr[i..]) + (if x == Add(true) then 1 else 0)
  {
    CutAppend(tr, x, i);
    AddsSinceAppend(tr, x);
    AppendCounts(tr[i..], x);
  }

  lemma TalliedReset(rate: nat, before: nat, ss: seq<seq<Label>>, counter: nat, accepted: nat)
    requires |ss| > 0 && Tallied(rate, before, ss, counter, accepted)
    ensures Tallied(rate, before, ss + [[]], 0, accepted)
  {
    AskedReset(RoomFor(rate, before), ss);
    CappedAppend(rate, Asked(RoomFor(rate, before), ss), 0);
    assert Last(ss + [[]]) == [] && Adds([]) == 0;
  }

  lemma CountedReset(rate: nat, tr: seq<Label>, i: nat)
    requires i <= |tr| && Counted(rate, tr, i)
    ensures Counted(rate, tr + [Reset], i)
  {
    Extend(tr, Reset, i);
    SegmentsAppend(tr[i..], Reset);
    TalliedReset(rate, AddsSince(tr[..i]), Segments(tr[i..]), AddsSince(tr), Accepted(tr[i..]));
  }

  function Ask(first: bool, room: nat, adds: nat): nat {
    if first then Min(room, adds) else adds
  }

  lemma OneMore(rate: nat, before: nat, first: bool, adds: nat)
    ensures
      var room := RoomFor(rate, before);
      Min(rate, Ask(first, room, adds + 1)) ==
      Min(rate, Ask(first, room, adds)) + (if (if first then before else 0) + adds + 1 <= rate then 1 else 0)
  {
  }

  lemma CappedMore(rate: nat, before: nat, ss: seq<seq<Label>>, x: Label)
    requires |ss| > 0 && !x.Reset?
    requires x.Add? ==> (x.ok <==> (if |ss| == 1 then before else 0) + Adds(Last(ss)) + 1 <= rate)
    ensures
      var room := RoomFor(rate, before);
      Capped(rate, Asked(room, ss[|ss| - 1 := Last(ss) + [x]])) ==
      Capped(rate, Asked(room, ss)) + (if x == Add(true) then 1 else 0)
  {
    var room := RoomFor(rate, before);
    AppendCounts(Last(ss), x);
    AskedMore(room, ss, Last(ss) + [x]);
    CappedReplaced(rate, Asked(room, ss), Ask(|ss| == 1, room, Adds(Last(ss) + [x])));
    OneMore(rate, before, |ss| == 1, Adds(Last(ss)));
  }

  lemma TalliedOther(rate: nat, before: nat, ss: seq<seq<Label>>, counter: nat, accepted: nat, x: Label)
    requires |ss| > 0 && Tallied(rate, before, ss, counter, accepted) && !x.Reset?
    requires x.Add? ==> (x.ok <==> counter + 1 <= rate)
    ensures Tallied(rate, before, ss[|ss| - 1 := Last(ss) + [x]],
                    counter + (if x.Add? then 1 else 0), accepted + (if x == Add(true) then 1 else 0))
  {
    AppendCounts(Last(ss), x);
    CappedMore(rate, before, ss, x);
    assert Last(ss[|ss| - 1 := Last(ss) + [x]]) == Last(ss) + [x];
  }

  lemma CountedOther(rate: nat, tr: seq<Label>, i: nat, x: Label)
    requires i <= |tr| && Counted(rate, tr, i) && !x.Reset?
    requires x.Add? ==> (x.ok <==> AddsSince(tr) + 1 <= rate)
    ensures Counted(rate, tr + [x], i)
  {
    Extend(tr, x, i);
    SegmentsAppend(tr[i..], x);
    TalliedOther(rate, AddsSince(tr[..i]), Segments(tr[i..]), AddsSince(tr), Accepted(tr[i..]), x);
  }

  lemma {:induction false} StretchCounted(rate: nat, tr: seq<Label>, i: nat)
    requires i <= |tr| && Consistent(rate, tr)
    ensures Counted(rate, tr, i)
    decreases |tr|
  {
    if i == |tr| {
      assert tr[i..] == [] && tr[..i] == tr;
      assert Adds([]) == 0;
      assert Asked(RoomFor(rate, AddsSince(tr)), [[]]) == [0];
    } else {
      var n := |tr| - 1;
      assert tr[..n] + [tr[n]] == tr;
      StretchCounted(rate, tr[..n], i);
      if tr[n].Reset? { CountedReset(rate, tr[..n], i); } else { CountedOther(rate, tr[..n], i, tr[n]); }
    }
  }

  /** Any stretch of any run accepts exactly this many calls, whatever resets fall into it: what fits into the
      counter at its start, and then what fits into `rate` after each reset. */
  lemma StretchExact(l: Seq.Limits, t0: int, threads: nat, s: State, i: nat, j: nat)
    requires Reachable(l, t0, threads, s) && i <= j <= |s.trace|
    ensures Accepted(s.trace[i..j]) ==
            Capped(l.rate, Asked(RoomFor(l.rate, AddsSince(s.trace[..i])), Segments(s.trace[i..j])))
  {
    ReachableInv(l, t0, threads, s);
    PrefixKeeps(l.rate, threads, s.trace, j);
    StretchCounted(l.rate, s.trace[..j], i);
    assert s.trace[..j][i..] == s.trace[i..j] && s.trace[..j][..i] == s.trace[..i];
  }

  // ----- When the rate is kept -----

  lemma {:induction false} CappedFacts(rate: nat, xs: seq<nat>)
    requires rate > 0
    ensures Capped(rate, xs) <= Sum(xs)
    ensures Nonzero(xs) == 0 <==> Capped(rate, xs) == 0
    ensures Nonzero(xs) == 1 ==> Capped(rate, xs) <= rate
    ensures Capped(rate, xs) < Sum(xs) ==> Capped(rate, xs) >= rate
    ensures Capped(rate, xs) < Sum(xs) && Nonzero(xs) > 1 ==> Capped(rate, xs) > rate
  {
    if xs != [] { CappedFacts(rate, xs[..|xs| - 1]); }
  }

  /** A stretch, and so a window, accepts at most `rate` calls exactly when only one of its segments asks for
      any, or all of them together ask for at most `rate`. */
  lemma KeepsRateExactly(l: Seq.Limits, t0: int, threads: nat, s: State, i: nat, j: nat)
    requires Reachable(l, t0, threads, s) && l.rate > 0 && i <= j <= |s.trace|
    ensures
      var asked := Asked(RoomFor(l.rate, AddsSince(s.trace[..i])), Segments(s.trace[i..j]));
      Accepted(s.trace[i..j]) <= l.rate <==> Nonzero(asked) <= 1 || Sum(asked) <= l.rate
  {
    StretchExact(l, t0, threads, s, i, j);
    CappedFacts(l.rate, Asked(RoomFor(l.rate, AddsSince(s.trace[..i])), Segments(s.trace[i..j])));
  }

  lemma {:induction false} NoResetOneSegment(tr: seq<Label>)
    requires Resets(tr) == 0
    ensures Segments(tr) == [tr]
  {
    if tr != [] {
      var n := |tr| - 1;
      NoResetOneSegment(tr[..n]);
      assert tr[..n] + [tr[n]] == tr;
    }
  }

  /** Without a reset in it, a stretch accepts what fits into the counter, never more than `rate`. */
  lemma NoResetExact(l: Seq.Limits, t0: int, threads: nat, s: State, i: nat, j: nat)
    requires Reachable(l, t0, threads, s) && i <= j <= |s.trace| && Resets(s.trace[i..j]) == 0
    ensures Accepted(s.trace[i..j]) == Min(RoomFor(l.rate, AddsSince(s.trace[..i])), Adds(s.trace[i..j]))
  {
    StretchExact(l, t0, threads, s, i, j);
    NoResetOneSegment(s.trace[i..j]);
    var xs := Asked(RoomFor(l.rate, AddsSince(s.trace[..i])), [s.trace[i..j]]);
    assert xs == [] + [xs[0]];
    CappedAppend(l.rate, [], xs[0]);
  }

  lemma CutAt(tr: seq<Label>, i: nat, r: nat, j: nat)
    requires i <= r < j <= |tr| && tr[r].Reset?
    ensures Accepted(tr[i..j]) == Accepted(tr[i..r]) + Accepted(tr[r + 1..j])
    ensures Adds(tr[i..j]) == Adds(tr[i..r]) + Adds(tr[r + 1..j])
    ensures Resets(tr[i..j]) == Resets(tr[i..r]) + 1 + Resets(tr[r + 1..j])
    ensures AddsSince(tr[..r + 1]) == 0
  {
    var a, b := tr[i..r] + [Reset], tr[r + 1..j];
    assert tr[i..j] == a + b;
    AppendCounts(tr[i..r], Reset);
    ConcatTally(a, b, Add(true));
    ConcatTally(a, b, Add(false));
    ConcatTally(a, b, Reset);
    assert tr[..r + 1] == tr[..r] + [Reset];
  }

  /** With one reset, at r: the calls before it share the old counter, those after it the new one. */
  lemma OneResetExact(l: Seq.Limits, t0: int, threads: nat, s: State, i: nat, r: nat, j: nat)
    requires Reachable(l, t0, threads, s) && l.rate > 0 && i <= r < j <= |s.trace|
    requires s.trace[r].Reset? && Resets(s.trace[i..r]) == 0 && Resets(s.trace[r + 1..j]) == 0
    ensures
      var room, a, b := RoomFor(l.rate, AddsSince(s.trace[..i])), Adds(s.trace[i..r]), Adds(s.trace[r + 1..j]);
      && Accepted(s.trace[i..j]) == Min(room, a) + Min(l.rate, b)
      && (Accepted(s.trace[i..j]) <= l.rate <==> a == 0 || room == 0 || b <= l.rate - Min(a, room))
  {
    CutAt(s.trace, i, r, j);
    NoResetExact(l, t0, threads, s, i, r);
    NoResetExact(l, t0, threads, s, r + 1, j);
  }

  lemma {:induction false} FewerAccepted(tr: seq<Label>)
    ensures Accepted(tr) <= Adds(tr)
  {
  }

  /** No window in which every earlier winner has stored its zero, and the winner stores its own before any
      call is counted, accepts more than `rate`. */
  lemma UnovertakenWinner(l: Seq.Limits, t0: int, threads: nat, s: State, w: nat, r: nat, j: nat)
    requires Reachable(l, t0, threads, s) && w < r < j <= |s.trace|
    requires s.trace[w].Win? && Wins(s.trace[..w]) == Resets(s.trace[..w]) && Wins(s.trace[w + 1..j]) == 0
    requires s.trace[r].Reset? && Adds(s.trace[w..r]) == 0
    ensures Resets(s.trace[w..j]) == 1
    ensures Accepted(s.trace[w..j]) == Min(l.rate, Adds(s.trace[w..j]))
  {
    var tr := s.trace;
    CutAt(tr, w, r, j);
    OneResetPerWin(l, t0, threads, s, w, j);
    FewerAccepted(tr[w..r]);
    NoResetExact(l, t0, threads, s, r + 1, j);
  }

  lemma OneResetPerWin(l: Seq.Limits, t0: int, threads: nat, s: State, w: nat, j: nat)
    requires Reachable(l, t0, threads, s) && w < j <= |s.trace|
    requires s.trace[w].Win? && Wins(s.trace[..w]) == Resets(s.trace[..w]) && Wins(s.trace[w + 1..j]) == 0
    ensures Resets(s.trace[w..j]) <= 1
  {
    ReachableInv(l, t0, threads, s);
    PrefixKeeps(l.rate, threads, s.trace, j);
    TallySplit(s.trace, w, j, Win);
    TallySplit(s.trace, w, j, Reset);
    WinFirst(s.trace, w, j);
  }

  lemma TallySplit(tr: seq<Label>, w: nat, j: nat, x: Label)
    requires w <= j <= |tr|
    ensures Tally(tr[..j], x) == Tally(tr[..w], x) + Tally(tr[w..j], x)
  {
    assert tr[..j] == tr[..w] + tr[w..j];
    ConcatTally(tr[..w], tr[w..j], x);
  }

  lemma WinFirst(tr: seq<Label>, w: nat, j: nat)
    requires w < j <= |tr| && tr[w].Win?
    ensures Wins(tr[w..j]) == 1 + Wins(tr[w + 1..j])
  {
    assert tr[w..j] == [Win] + tr[w + 1..j];
    ConcatTally([Win], tr[w + 1..j], Win);
    AppendCounts([], Win);
    assert [] + [Win] == [Win];
  }
}
