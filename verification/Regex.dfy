/**
 A reference semantics for the two patterns of the redactor: leftmost-first matching by backtracking,
 trying the longest repetition first, as regexp does. Words and digits are ASCII.
 */
module Regex {
  import opened Wrappers

  datatype Class = Local | At | Domain | Dot | Letter | Digit

  predicate IsLetter(c: char) { 'a' <= c <= 'z' || 'A' <= c <= 'Z' }

  predicate IsDigit(c: char) { '0' <= c <= '9' }

  predicate IsWord(c: char) { IsLetter(c) || IsDigit(c) || c == '_' }

  predicate In(cls: Class, c: char) {
    match cls
    case Local => IsLetter(c) || IsDigit(c) || c in "._%+-"
    case At => c == '@'
    case Domain => IsLetter(c) || IsDigit(c) || c in ".-"
    case Dot => c == '.'
    case Letter => IsLetter(c)
    case Digit => IsDigit(c)
  }

  /** The classes of the two patterns by character code: letters, digits, and dot, underscore, percent, plus, hyphen. */
  lemma ClassCodes(c: char)
    ensures var n := c as int;
            var letter := 65 <= n <= 90 || 97 <= n <= 122;
            var digit := 48 <= n <= 57;
            && (In(Letter, c) <==> letter) && (In(Digit, c) <==> digit)
            && (In(Local, c) <==> letter || digit || n == 46 || n == 95 || n == 37 || n == 43 || n == 45)
            && (In(Domain, c) <==> letter || digit || n == 46 || n == 45)
            && (In(At, c) <==> n == 64) && (In(Dot, c) <==> n == 46)
            && (IsWord(c) <==> letter || digit || n == 95)
  {
  }

  /** Rep(c, lo, hi) is [c]{lo,hi}; no upper bound when hi is None. Boundary is \b. */
  datatype Atom = Rep(cls: Class, lo: nat, hi: Option<nat>) | Boundary

  type Pattern = seq<Atom>

  function Run(cls: Class, s: string, i: nat): (n: nat)
    requires i <= |s|
    ensures i + n <= |s|
    ensures forall k :: i <= k < i + n ==> In(cls, s[k])
    ensures i + n < |s| ==> !In(cls, s[i + n])
    decreases |s| - i
  {
    if i < |s| && In(cls, s[i]) then 1 + Run(cls, s, i + 1) else 0
  }

  predicate WordAt(s: string, k: int) {
    0 <= k < |s| && IsWord(s[k])
  }

  predicate IsBoundary(s: string, i: nat) {
    WordAt(s, i - 1) != WordAt(s, i)
  }

  function Most(a: Atom, s: string, i: nat): (k: nat)
    requires a.Rep? && i <= |s|
    ensures k <= Run(a.cls, s, i)
  {
    var n := Run(a.cls, s, i);
    match a.hi case Some(h) => Min(n, h) case None => n
  }

  /** The end of the preferred match starting at i. */
  function Match(re: Pattern, s: string, i: nat): (r: Option<nat>)
    requires i <= |s|
    ensures r.Some? ==> i <= r.value <= |s|
    decreases |re|, 0
  {
    if re == [] then Some(i)
    else match re[0]
         case Boundary => if IsBoundary(s, i) then Match(re[1..], s, i) else None
         case Rep(_, _, _) => TryFrom(re, s, i, Most(re[0], s, i))
  }

  /** Repetition counts k, k - 1, ..., lo, the first that lets the rest match. */
  function TryFrom(re: Pattern, s: string, i: nat, k: nat): (r: Option<nat>)
    requires re != [] && re[0].Rep? && i + k <= |s|
    ensures r.Some? ==> i <= r.value <= |s|
    decreases |re| - 1, k + 1
  {
    if k < re[0].lo then None
    else if Match(re[1..], s, i + k).Some? then Match(re[1..], s, i + k)
    else if k == 0 then None
    else TryFrom(re, s, i, k - 1)
  }

  datatype Span = Span(start: nat, end: nat)

  function FindFrom(re: Pattern, s: string, i: nat): (r: Option<Span>)
    requires i <= |s|
    ensures r.Some? ==> i <= r.value.start <= r.value.end <= |s|
    ensures r.Some? ==> Match(re, s, r.value.start) == Some(r.value.end)
    ensures r.Some? ==> forall k :: i <= k < r.value.start ==> Match(re, s, k).None?
    ensures r.None? ==> forall k :: i <= k <= |s| ==> Match(re, s, k).None?
    decreases |s| - i
  {
    if Match(re, s, i).Some? then Some(Span(i, Match(re, s, i).value))
    else if i < |s| then FindFrom(re, s, i + 1)
    else None
  }

  /** All successive matches from i on; the search resumes at the end of the previous match. */
  function FindAll(re: Pattern, s: string, i: nat): (ms: seq<Span>)
    requires i <= |s|
    ensures Ordered(s, ms, i)
    decreases |s| - i
  {
    match FindFrom(re, s, i)
    case None => []
    case Some(m) => if m.end <= i then [] else [m] + FindAll(re, s, m.end)
  }

  predicate Ordered(s: string, ms: seq<Span>, i: nat)
    decreases |ms|
  {
    if ms == [] then i <= |s|
    else i <= ms[0].start <= ms[0].end <= |s| && Ordered(s, ms[1..], ms[0].end)
  }

  /** s from i on, with every listed span rewritten and everything else kept. */
  function Splice(s: string, ms: seq<Span>, f: string -> string, i: nat): string
    requires Ordered(s, ms, i)
    decreases |ms|
  {
    if ms == [] then s[i..]
    else s[i..ms[0].start] + f(s[ms[0].start..ms[0].end]) + Splice(s, ms[1..], f, ms[0].end)
  }

  function ReplaceAll(re: Pattern, s: string, f: string -> string): string {
    Splice(s, FindAll(re, s, 0), f, 0)
  }

  /** Neither pattern of the redactor matches the empty string. */
  ghost predicate NeverEmpty(re: Pattern) {
    forall s: string, i: nat :: i <= |s| && Match(re, s, i).Some? ==> Match(re, s, i).value > i
  }

  lemma FindAllSkips(re: Pattern, s: string, i: nat)
    requires i < |s| && Match(re, s, i).None? && NeverEmpty(re)
    ensures FindAll(re, s, i) == FindAll(re, s, i + 1)
  {
    assert FindFrom(re, s, i) == FindFrom(re, s, i + 1);
    if FindFrom(re, s, i).Some? {
      var m := FindFrom(re, s, i).value;
      assert Match(re, s, m.start).value > m.start;
    }
  }

  lemma {:induction false} FindAllSkipsTo(re: Pattern, s: string, i: nat, j: nat)
    requires i <= j <= |s| && NeverEmpty(re)
    requires forall k :: i <= k < j ==> Match(re, s, k).None?
    ensures FindAll(re, s, i) == FindAll(re, s, j)
    decreases j - i
  {
    if i < j {
      FindAllSkips(re, s, i);
      FindAllSkipsTo(re, s, i + 1, j);
    }
  }

  lemma FindAllTakes(re: Pattern, s: string, i: nat)
    requires i <= |s| && Match(re, s, i).Some? && NeverEmpty(re)
    ensures FindAll(re, s, i) == [Span(i, Match(re, s, i).value)] + FindAll(re, s, Match(re, s, i).value)
  {
  }

  predicate InsideOf(ms: seq<Span>, k: nat) {
    exists m :: m in ms && m.start <= k < m.end
  }

  /** The list is sound and complete: its spans are preferred matches, and no match starts outside them. */
  lemma {:induction false} FindAllExact(re: Pattern, s: string, i: nat)
    requires i <= |s| && NeverEmpty(re)
    ensures forall m :: m in FindAll(re, s, i) ==> i <= m.start < m.end <= |s| && Match(re, s, m.start) == Some(m.end)
    ensures forall k :: i <= k <= |s| && Match(re, s, k).Some? ==> InsideOf(FindAll(re, s, i), k)
    decreases |s| - i
  {
    var ms := FindAll(re, s, i);
    if FindFrom(re, s, i).Some? {
      var m := FindFrom(re, s, i).value;
      assert Match(re, s, m.start).value > m.start;
      FindAllExact(re, s, m.end);
      assert ms[0] == m && ms[1..] == FindAll(re, s, m.end);
      forall k | i <= k <= |s| && Match(re, s, k).Some? ensures InsideOf(ms, k) {
        assert k >= m.start;
        if k < m.end {
          assert m in ms;
        } else {
          assert InsideOf(ms[1..], k);
        }
      }
    }
  }

  /** Splicing up to j is copying up to j, when no span starts before j. */
  lemma SpliceCopies(s: string, ms: seq<Span>, f: string -> string, i: nat, j: nat)
    requires i <= j <= |s| && Ordered(s, ms, j)
    ensures Ordered(s, ms, i) && Splice(s, ms, f, i) == s[i..j] + Splice(s, ms, f, j)
  {
    if ms == [] {
      assert s[i..] == s[i..j] + s[j..];
    } else {
      assert s[i..ms[0].start] == s[i..j] + s[j..ms[0].start];
      Associate(s[i..j], s[j..ms[0].start], f(s[ms[0].start..ms[0].end]), Splice(s, ms[1..], f, ms[0].end));
    }
  }

  lemma SpliceTakes(s: string, i: nat, j: nat, ms: seq<Span>, f: string -> string)
    requires i <= j <= |s| && Ordered(s, ms, j)
    ensures Splice(s, [Span(i, j)] + ms, f, i) == f(s[i..j]) + Splice(s, ms, f, j)
  {
    assert ([Span(i, j)] + ms)[1..] == ms;
    assert s[i..i] + f(s[i..j]) == f(s[i..j]);
  }

  lemma Associate(a: string, b: string, x: string, y: string)
    ensures (a + b) + x + y == a + (b + x + y)
  {
  }

  lemma Regroup(x: string, m: string, r: string)
    ensures x + (m + r) == x + m + r
  {
  }
}
