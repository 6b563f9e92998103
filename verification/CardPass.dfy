/**
 The credit card pass of the redactor: what \b\d{13,16}\b matches, a scanner that works one run of word
 characters at a time, and what no output can contain any more.
 */
module CardPass {
  import opened Wrappers
  import opened Regex

  const CARD: Pattern := [Boundary, Rep(Digit, 13, Some(16)), Boundary]

  const REDACTED := "[REDACTED]"

  // ----- What the card pattern matches -----

  ghost predicate AllDigits(s: string, i: nat, j: nat)
    requires i <= j <= |s|
  {
    forall k :: i <= k < j ==> IsDigit(s[k])
  }

  /** A maximal run of word characters that consists of 13 to 16 digits. */
  ghost predicate IsCardRun(s: string, i: nat, j: nat) {
    && i <= j <= |s| && 13 <= j - i <= 16
    && AllDigits(s, i, j)
    && !WordAt(s, i - 1) && !WordAt(s, j)
  }

  lemma DigitsTail(s: string, i: nat, k: nat)
    requires i + k <= |s|
    ensures Match([Boundary], s, i + k) == if IsBoundary(s, i + k) then Some(i + k) else None
  {
    assert [Boundary][1..] == [];
  }

  /** Only the whole digit run can be followed by a boundary. */
  lemma {:induction false} DigitsTry(s: string, i: nat, k: nat)
    requires i + k <= |s| && k <= Run(Digit, s, i) && k <= 16
    ensures TryFrom(CARD[1..], s, i, k) ==
            if k == Run(Digit, s, i) && k >= 13 && !WordAt(s, i + k) then Some(i + k) else None
    decreases k
  {
    var re := CARD[1..];
    assert re[1..] == [Boundary];
    if k >= 13 {
      DigitsTail(s, i, k);
      assert WordAt(s, i + k - 1);
      if k < Run(Digit, s, i) { assert WordAt(s, i + k); }
      DigitsTry(s, i, k - 1);
    }
  }

  lemma {:induction false} RunOfDigits(s: string, i: nat, j: nat)
    requires i <= j <= |s| && AllDigits(s, i, j) && (j < |s| ==> !IsDigit(s[j]))
    ensures Run(Digit, s, i) == j - i
    decreases j - i
  {
    if i < j { RunOfDigits(s, i + 1, j); }
  }

  lemma DigitBefore(s: string, i: nat, j: nat, k: nat)
    requires i <= j <= |s| && AllDigits(s, i, j)
    ensures i < k <= j ==> WordAt(s, k - 1)
  {
  }

  /** The pattern matches at i exactly when a card run starts there, and then it takes the whole run. */
  lemma CardMatch(s: string, i: nat, j: nat)
    requires i <= |s|
    ensures Match(CARD, s, i) == Some(j) <==> IsCardRun(s, i, j)
  {
    var n := Run(Digit, s, i);
    var re := CARD[1..];
    assert re[0] == Rep(Digit, 13, Some(16));
    var k := Most(re[0], s, i);
    DigitsTry(s, i, k);
    assert Match(re, s, i) == TryFrom(re, s, i, k);
    if IsCardRun(s, i, j) {
      assert IsDigit(s[i]) && WordAt(s, i) && IsBoundary(s, i);
      RunOfDigits(s, i, j);
    }
    if Match(CARD, s, i) == Some(j) {
      assert k == n && j == i + n && !WordAt(s, j);
      assert IsDigit(s[i]) && WordAt(s, i);
    }
  }

  lemma CardNeverEmpty()
    ensures NeverEmpty(CARD)
  {
    forall s: string, i: nat | i <= |s| && Match(CARD, s, i).Some? ensures Match(CARD, s, i).value > i {
      CardMatch(s, i, Match(CARD, s, i).value);
    }
  }

  /** The card pass rewrites exactly the card runs of the text. */
  lemma CardSpansAreCardRuns(s: string, i: nat, j: nat)
    ensures Span(i, j) in FindAll(CARD, s, 0) <==> IsCardRun(s, i, j)
  {
    CardNeverEmpty();
    FindAllExact(CARD, s, 0);
    if IsCardRun(s, i, j) {
      CardMatch(s, i, j);
      var m :| m in FindAll(CARD, s, 0) && m.start <= i < m.end;
      CardMatch(s, m.start, m.end);
      DigitBefore(s, m.start, m.end, i);
      assert m.start == i;
    }
    if Span(i, j) in FindAll(CARD, s, 0) {
      CardMatch(s, i, j);
    }
  }

  // ----- The card scanner -----

  function Hide(card: string): string { REDACTED }

  function HideCards(s: string): string {
    ReplaceAll(CARD, s, Hide)
  }

  /** i..j is a maximal run of word characters. */
  ghost predicate IsRun(s: string, i: nat, j: nat) {
    && i <= j <= |s| && !WordAt(s, i - 1) && !WordAt(s, j)
    && forall k :: i <= k < j ==> IsWord(s[k])
  }

  lemma CardRunFillsRun(s: string, i: nat, j: nat, k: nat, e: nat)
    requires IsRun(s, i, j) && i <= k < j && IsCardRun(s, k, e)
    ensures k == i && e == j
  {
    assert k > i ==> WordAt(s, k - 1);
    assert e < j ==> WordAt(s, e);
    DigitBefore(s, k, e, j + 1);
  }

  lemma NoCardInside(s: string, i: nat, j: nat)
    requires IsRun(s, i, j) && !IsCardRun(s, i, j)
    ensures forall k :: i <= k < j ==> Match(CARD, s, k).None?
  {
    forall k: nat | i <= k < j ensures Match(CARD, s, k).None? {
      if Match(CARD, s, k).Some? {
        CardMatch(s, k, Match(CARD, s, k).value);
        CardRunFillsRun(s, i, j, k, Match(CARD, s, k).value);
      }
    }
  }

  lemma NoCardAtOther(s: string, i: nat)
    requires i < |s| && !IsWord(s[i])
    ensures Match(CARD, s, i).None?
  {
    if Match(CARD, s, i).Some? {
      CardMatch(s, i, Match(CARD, s, i).value);
    }
  }

  function WordRun(s: string): (n: nat)
    ensures n <= |s| && forall k :: 0 <= k < n ==> IsWord(s[k])
    ensures n < |s| ==> !IsWord(s[n])
  {
    if s == "" || !IsWord(s[0]) then 0 else 1 + WordRun(s[1..])
  }

  predicate IsCard(w: string) {
    13 <= |w| <= 16 && forall k :: 0 <= k < |w| ==> IsDigit(w[k])
  }

  /** The card pass, one run of word characters at a time. */
  function HideRuns(s: string): string
    decreases |s|
  {
    if s == "" then ""
    else if !IsWord(s[0]) then [s[0]] + HideRuns(s[1..])
    else
      var n := WordRun(s);
      (if IsCard(s[..n]) then REDACTED else s[..n]) + HideRuns(s[n..])
  }

  lemma HideOtherUnfold(s: string, i: nat)
    requires i < |s| && !IsWord(s[i])
    ensures HideRuns(s[i..]) == [s[i]] + HideRuns(s[i + 1..])
  {
    assert s[i..][1..] == s[i + 1..];
  }

  method RunEnd(s: string, i: nat) returns (j: nat, digits: bool)
    requires i < |s| && IsWord(s[i])
    ensures i < j <= |s| && (forall k :: i <= k < j ==> IsWord(s[k])) && !WordAt(s, j)
    ensures digits <==> AllDigits(s, i, j)
  {
    j := i + 1;
    digits := IsDigit(s[i]);
    while j < |s| && IsWord(s[j])
      invariant i < j <= |s|
      invariant forall k :: i <= k < j ==> IsWord(s[k])
      invariant digits <==> AllDigits(s, i, j)
    {
      digits := digits && IsDigit(s[j]);
      j := j + 1;
    }
  }

  method ScanCards(s: string) returns (out: string)
    ensures out == HideRuns(s)
  {
    out := "";
    var i := 0;
    ghost var rest := HideRuns(s);
    assert s[0..] == s;
    while i < |s|
      invariant 0 <= i <= |s|
      invariant rest == HideRuns(s[i..])
      invariant out + rest == HideRuns(s)
      decreases |s| - i
    {
      var piece: string;
      var next: nat;
      if !IsWord(s[i]) {
        piece, next := [s[i]], i + 1;
        HideOtherUnfold(s, i);
      } else {
        var j, digits := RunEnd(s, i);
        piece, next := if digits && 13 <= j - i <= 16 then REDACTED else s[i..j], j;
        HideRunUnfold(s, i, j);
      }
      rest := HideRuns(s[next..]);
      Regroup(out, piece, rest);
      out := out + piece;
      i := next;
    }
  }

  lemma HideRunUnfold(s: string, i: nat, j: nat)
    requires i < j <= |s| && (forall k :: i <= k < j ==> IsWord(s[k])) && !WordAt(s, j)
    ensures HideRuns(s[i..]) == (if 13 <= j - i <= 16 && AllDigits(s, i, j) then REDACTED
        else s[i..j]) + HideRuns(s[j..])
  {
    WordRunIs(s[i..], j - i);
    assert s[i..][..j - i] == s[i..j] && s[i..][j - i..] == s[j..];
    CardIs(s, i, j);
  }

  lemma CardIs(s: string, i: nat, j: nat)
    requires i <= j <= |s|
    ensures IsCard(s[i..j]) <==> 13 <= j - i <= 16 && AllDigits(s, i, j)
  {
    if IsCard(s[i..j]) {
      forall k | i <= k < j ensures IsDigit(s[k]) { assert s[k] == s[i..j][k - i]; }
    }
  }

  lemma {:induction false} WordRunIs(s: string, n: nat)
    requires n <= |s| && (forall k :: 0 <= k < n ==> IsWord(s[k])) && (n < |s| ==> !IsWord(s[n]))
    ensures WordRun(s) == n
  {
    if n > 0 { WordRunIs(s[1..], n - 1); }
  }

  /** Running word by word rewrites the same spans as the regular expression. */
  lemma {:induction false} HideRunsIsRegex(s: string, i: nat)
    requires i <= |s| && (WordAt(s, i) ==> !WordAt(s, i - 1))
    ensures HideRuns(s[i..]) == Splice(s, FindAll(CARD, s, i), Hide, i)
    decreases |s| - i
  {
    CardNeverEmpty();
    if i == |s| {
      assert FindAll(CARD, s, i) == [] by { if FindFrom(CARD, s, i).Some? { CardMatch(s, i, i); } }
    } else if !IsWord(s[i]) {
      HideRunsIsRegex(s, i + 1);
      NoCardAtOther(s, i);
      FindAllSkips(CARD, s, i);
      SpliceCopies(s, FindAll(CARD, s, i + 1), Hide, i, i + 1);
      assert s[i..][1..] == s[i + 1..] && s[i..i + 1] == [s[i]];
    } else {
      var j := i + WordRun(s[i..]);
      assert forall k :: i <= k < j ==> s[k] == s[i..][k - i];
      assert j < |s| ==> s[j] == s[i..][j - i];
      HideRunsIsRegex(s, j);
      HideRunIsRegex(s, i, j);
    }
  }

  lemma HideRunIsRegex(s: string, i: nat, j: nat)
    requires i < j && IsRun(s, i, j)
    requires HideRuns(s[j..]) == Splice(s, FindAll(CARD, s, j), Hide, j)
    ensures HideRuns(s[i..]) == Splice(s, FindAll(CARD, s, i), Hide, i)
  {
    CardNeverEmpty();
    HideRunUnfold(s, i, j);
    if IsCardRun(s, i, j) {
      CardMatch(s, i, j);
      FindAllTakes(CARD, s, i);
      SpliceTakes(s, i, j, FindAll(CARD, s, j), Hide);
    } else {
      NoCardInside(s, i, j);
      FindAllSkipsTo(CARD, s, i, j);
      SpliceCopies(s, FindAll(CARD, s, j), Hide, i, j);
    }
  }

  lemma ScannerIsCardRegex(s: string)
    ensures HideRuns(s) == HideCards(s)
  {
    HideRunsIsRegex(s, 0);
    assert s[0..] == s;
  }

  // ----- What the output can no longer contain -----

  ghost predicate Clean(t: string) {
    forall i, j :: !IsCardRun(t, i, j)
  }

  lemma CardRunShift(w: string, t: string, i: nat, j: nat)
    requires |w| <= i && IsCardRun(w + t, i, j)
    requires i == |w| ==> w != "" && IsWord(w[|w| - 1])
    ensures i > |w|
    ensures IsCardRun(t, i - |w|, j - |w|)
  {
    var u := w + t;
    assert i == |w| ==> WordAt(u, i - 1);
    CardRunSuffix(w, t, i, j);
  }

  lemma CardRunSuffix(w: string, t: string, i: nat, j: nat)
    requires |w| <= i && IsCardRun(w + t, i, j)
    ensures IsCardRun(t, i - |w|, j - |w|)
  {
    var u := w + t;
    forall k | i - |w| <= k < j - |w| ensures IsDigit(t[k]) { assert u[k + |w|] == t[k]; }
    assert forall k :: |w| <= k ==> WordAt(u, k) == WordAt(t, k - |w|);
  }

  lemma CleanRun(w: string, t: string)
    requires w != "" && (forall k :: 0 <= k < |w| ==> IsWord(w[k])) && !IsCard(w)
    requires Clean(t) && !WordAt(t, 0)
    ensures Clean(w + t)
  {
    forall i: nat, j: nat ensures !IsCardRun(w + t, i, j) {
      if IsCardRun(w + t, i, j) {
        if i >= |w| { CardRunShift(w, t, i, j); } else { CardRunCovers(w, t, i, j); }
      }
    }
  }

  lemma CleanOther(c: char, t: string)
    requires !IsWord(c) && Clean(t)
    ensures Clean([c] + t)
  {
    var u := [c] + t;
    forall i: nat, j: nat ensures !IsCardRun(u, i, j) {
      if IsCardRun(u, i, j) {
        assert IsDigit(u[i]) && u[0] == c;
        CardRunSuffix([c], t, i, j);
      }
    }
  }

  lemma CardRunCovers(w: string, t: string, i: nat, j: nat)
    requires forall k :: 0 <= k < |w| ==> IsWord(w[k])
    requires !WordAt(t, 0) && i < |w| && IsCardRun(w + t, i, j)
    ensures IsCard(w)
  {
    var u := w + t;
    assert i > 0 ==> WordAt(u, i - 1);
    assert j < |w| ==> WordAt(u, j);
    assert |w| < |u| ==> u[|w|] == t[0];
    DigitBefore(u, i, j, |w| + 1);
    assert forall k :: 0 <= k < |w| ==> w[k] == u[k];
  }

  lemma CleanRedacted(t: string)
    requires Clean(t)
    ensures Clean(REDACTED + t)
  {
    CleanOther(']', t);
    CleanRun("REDACTED", [']'] + t);
    CleanOther('[', "REDACTED" + ([']'] + t));
    assert REDACTED + t == ['['] + ("REDACTED" + ([']'] + t));
  }

  lemma {:induction false} HideRunsClean(s: string)
    ensures Clean(HideRuns(s))
    ensures !WordAt(s, 0) ==> !WordAt(HideRuns(s), 0)
    decreases |s|
  {
    if s == "" {
    } else if !IsWord(s[0]) {
      HideRunsClean(s[1..]);
      CleanOther(s[0], HideRuns(s[1..]));
    } else {
      var n := WordRun(s);
      HideRunsClean(s[n..]);
      if IsCard(s[..n]) {
        CleanRedacted(HideRuns(s[n..]));
      } else {
        CleanRun(s[..n], HideRuns(s[n..]));
      }
    }
  }

  lemma CleanMatchesNothing(t: string)
    requires Clean(t)
    ensures HideCards(t) == t
  {
    CardNeverEmpty();
    FindAllExact(CARD, t, 0);
    if FindAll(CARD, t, 0) != [] {
      var m := FindAll(CARD, t, 0)[0];
      CardMatch(t, m.start, m.end);
    }
    assert t[0..] == t;
  }

  /** No output of the card pass contains a card run, so a second pass changes nothing. */
  lemma CardPassIsFinal(s: string)
    ensures Clean(HideCards(s))
    ensures HideCards(HideCards(s)) == HideCards(s)
  {
    ScannerIsCardRegex(s);
    HideRunsClean(s);
    CleanMatchesNothing(HideCards(s));
  }
}
