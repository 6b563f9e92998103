/**
 The email pass of the redactor: a scanner that finds the same matches as the pattern
 [a-zA-Z0-9._%+-]+@[a-zA-Z0-9.-]+\.[a-zA-Z]{2,} and the mask put in their place.
 */
module EmailPass {
  import opened Wrappers
  import opened Regex

  const TLD: Pattern := [Rep(Letter, 2, None)]
  const DOT_TLD: Pattern := [Rep(Dot, 1, Some(1))] + TLD
  const HOST: Pattern := [Rep(Domain, 1, None)] + DOT_TLD
  const AT_HOST: Pattern := [Rep(At, 1, Some(1))] + HOST
  const EMAIL: Pattern := [Rep(Local, 1, None)] + AT_HOST

  // ----- What the pattern matches -----

  function TldEnd(s: string, e: nat): Option<nat>
    requires e <= |s|
  {
    if Run(Letter, s, e) >= 2 then Some(e + Run(Letter, s, e)) else None
  }

  function DotEnd(s: string, e: nat): Option<nat>
    requires e <= |s|
  {
    if e < |s| && s[e] == '.' then TldEnd(s, e + 1) else None
  }

  /** The host's last dot that two letters follow, searched from length k down. */
  function HostDown(s: string, d: nat, k: nat): Option<nat>
    requires d + k <= |s|
  {
    if k == 0 then None
    else if DotEnd(s, d + k).Some? then DotEnd(s, d + k)
    else HostDown(s, d, k - 1)
  }

  function AtEnd(s: string, e: nat): Option<nat>
    requires e <= |s|
  {
    if e < |s| && s[e] == '@' then HostDown(s, e + 1, Run(Domain, s, e + 1)) else None
  }

  function EmailEnd(s: string, i: nat): Option<nat>
    requires i <= |s|
  {
    if Run(Local, s, i) == 0 then None else AtEnd(s, i + Run(Local, s, i))
  }

  lemma TldMatch(s: string, e: nat)
    requires e <= |s|
    ensures Match(TLD, s, e) == TldEnd(s, e)
  {
    assert TLD[1..] == [];
    var n := Run(Letter, s, e);
    assert Match(TLD, s, e) == TryFrom(TLD, s, e, n);
    assert Match([], s, e + n) == Some(e + n);
  }

  lemma DotMatch(s: string, e: nat)
    requires e <= |s|
    ensures Match(DOT_TLD, s, e) == DotEnd(s, e)
  {
    assert DOT_TLD[0] == Rep(Dot, 1, Some(1)) && DOT_TLD[1..] == TLD;
    assert Run(Dot, s, e) > 0 <==> e < |s| && s[e] == '.';
    if Run(Dot, s, e) > 0 {
      assert Match(DOT_TLD, s, e) == TryFrom(DOT_TLD, s, e, 1);
      TldMatch(s, e + 1);
      assert TryFrom(DOT_TLD, s, e, 0).None?;
    } else {
      assert Match(DOT_TLD, s, e) == TryFrom(DOT_TLD, s, e, 0);
    }
  }

  lemma {:induction false} HostTry(s: string, d: nat, k: nat)
    requires d + k <= |s|
    ensures TryFrom(HOST, s, d, k) == HostDown(s, d, k)
  {
    assert HOST[0] == Rep(Domain, 1, None) && HOST[1..] == DOT_TLD;
    if k > 0 {
      DotMatch(s, d + k);
      HostTry(s, d, k - 1);
    }
  }

  lemma AtMatch(s: string, e: nat)
    requires e <= |s|
    ensures Match(AT_HOST, s, e) == AtEnd(s, e)
  {
    assert AT_HOST[0] == Rep(At, 1, Some(1)) && AT_HOST[1..] == HOST;
    assert HOST[0] == Rep(Domain, 1, None);
    assert Run(At, s, e) > 0 <==> e < |s| && s[e] == '@';
    if Run(At, s, e) > 0 {
      assert Match(AT_HOST, s, e) == TryFrom(AT_HOST, s, e, 1);
      assert Match(HOST, s, e + 1) == TryFrom(HOST, s, e + 1, Run(Domain, s, e + 1));
      HostTry(s, e + 1, Run(Domain, s, e + 1));
      assert TryFrom(AT_HOST, s, e, 0).None?;
    } else {
      assert Match(AT_HOST, s, e) == TryFrom(AT_HOST, s, e, 0);
    }
  }

  /** Giving back characters of the local part never helps: the next one is not an at sign. */
  lemma {:induction false} LocalTry(s: string, i: nat, k: nat)
    requires i + k <= |s| && k <= Run(Local, s, i)
    ensures TryFrom(EMAIL, s, i, k) == if k == Run(Local, s, i) && k > 0 then AtEnd(s, i + k) else None
  {
    assert EMAIL[0] == Rep(Local, 1, None) && EMAIL[1..] == AT_HOST;
    if k > 0 {
      AtMatch(s, i + k);
      LocalTry(s, i, k - 1);
    }
  }

  lemma EmailMatch(s: string, i: nat)
    requires i <= |s|
    ensures Match(EMAIL, s, i) == EmailEnd(s, i)
  {
    assert EMAIL[0] == Rep(Local, 1, None);
    LocalTry(s, i, Run(Local, s, i));
    assert Match(EMAIL, s, i) == TryFrom(EMAIL, s, i, Run(Local, s, i));
  }

  // ----- The scanner -----

  method ScanRun(cls: Class, s: string, i: nat) returns (j: nat)
    requires i <= |s|
    ensures j == i + Run(cls, s, i)
  {
    j := i;
    while j < |s| && In(cls, s[j])
      invariant i <= j <= |s|
      invariant i + Run(cls, s, i) == j + Run(cls, s, j)
    {
      j := j + 1;
    }
  }

  lemma EmailEndAt(s: string, i: nat, at: nat)
    requires i <= |s| && at == i + Run(Local, s, i)
    ensures Match(EMAIL, s, i) ==
            if at == i || at == |s| || s[at] != '@' then None else HostDown(s, at + 1, Run(Domain, s, at + 1))
  {
    EmailMatch(s, i);
  }

  method EmailAt(s: string, i: nat) returns (end: Option<nat>)
    requires i <= |s|
    ensures end == Match(EMAIL, s, i)
  {
    var at := ScanRun(Local, s, i);
    EmailEndAt(s, i, at);
    if at == i || at == |s| || s[at] != '@' {
      return None;
    }
    var stop := ScanRun(Domain, s, at + 1);
    end := HostEnd(s, at + 1, stop - (at + 1));
  }

  method HostEnd(s: string, d: nat, n: nat) returns (end: Option<nat>)
    requires d + n <= |s|
    ensures end == HostDown(s, d, n)
  {
    var k := n;
    while k > 0
      invariant 0 <= k && d + k <= |s|
      invariant HostDown(s, d, n) == HostDown(s, d, k)
    {
      if d + k < |s| && s[d + k] == '.' {
        var tld := ScanRun(Letter, s, d + k + 1);
        if tld - (d + k + 1) >= 2 {
          return Some(tld);
        }
      }
      k := k - 1;
    }
    return None;
  }

  lemma {:induction false} HostDownFinds(s: string, d: nat, k: nat) returns (p: nat)
    requires d + k <= |s| && HostDown(s, d, k).Some?
    ensures d < p <= d + k && p < |s| && s[p] == '.' && Run(Letter, s, p + 1) >= 2
    ensures HostDown(s, d, k).value == p + 1 + Run(Letter, s, p + 1)
    ensures forall q :: p < q <= d + k ==> DotEnd(s, q).None?
  {
    if DotEnd(s, d + k).Some? {
      p := d + k;
    } else {
      p := HostDownFinds(s, d, k - 1);
    }
  }

  /** The text i..j around the at sign at `at` and the last usable dot at `dot`. */
  ghost predicate IsEmail(s: string, i: nat, at: nat, dot: nat, j: nat) {
    && i < at && at + 1 < dot && dot + 3 <= j <= |s|
    && (forall k :: i <= k < at ==> In(Local, s[k]))
    && s[at] == '@'
    && (forall k :: at < k < j ==> In(Domain, s[k]))
    && s[dot] == '.'
    && (forall k :: dot < k < j ==> IsLetter(s[k]))
  }

  /** A match is a local part up to the only at sign, a host, its last dot followed by two letters or more,
      and the longest run of letters after that dot. */
  lemma MatchIsEmail(s: string, i: nat, j: nat) returns (at: nat, dot: nat)
    requires i <= |s| && Match(EMAIL, s, i) == Some(j)
    ensures IsEmail(s, i, at, dot, j)
    ensures j < |s| ==> !IsLetter(s[j])
    ensures forall q :: dot < q <= at + 1 + Run(Domain, s, at + 1) ==> DotEnd(s, q).None?
    ensures forall k :: i <= k < j && k != at ==> s[k] != '@'
  {
    EmailMatch(s, i);
    at := i + Run(Local, s, i);
    dot := HostDownFinds(s, at + 1, Run(Domain, s, at + 1));
    forall k | at < k < j ensures In(Domain, s[k]) {
      if k > dot { assert In(Letter, s[k]); }
    }
  }

  lemma EmailNeverEmpty()
    ensures NeverEmpty(EMAIL)
  {
    forall s: string, i: nat | i <= |s| && Match(EMAIL, s, i).Some? ensures Match(EMAIL, s, i).value > i {
      var at, dot := MatchIsEmail(s, i, Match(EMAIL, s, i).value);
    }
  }

  // ----- The mask -----

  /** strings.Split with a one-character separator. */
  function Split(s: string, c: char): (parts: seq<string>)
    ensures |parts| > 0
  {
    if s == "" then [""]
    else
      var rest := Split(s[1..], c);
      if s[0] == c then [""] + rest else [[s[0]] + rest[0]] + rest[1..]
  }

  function MaskEmail(email: string): string {
    var parts := Split(email, '@');
    if |parts| != 2 then email
    else
      var local := parts[0];
      if |local| <= 2 then "**@" + parts[1]
      else local[..1] + "***" + local[|local| - 1..] + "@" + parts[1]
  }

  lemma {:induction false} SplitWhole(s: string, c: char)
    requires forall k :: 0 <= k < |s| ==> s[k] != c
    ensures Split(s, c) == [s]
  {
    if s != "" {
      SplitWhole(s[1..], c);
      assert [s[0]] + s[1..] == s;
    }
  }

  lemma {:induction false} SplitOnce(a: string, b: string, c: char)
    requires (forall k :: 0 <= k < |a| ==> a[k] != c) && (forall k :: 0 <= k < |b| ==> b[k] != c)
    ensures Split(a + [c] + b, c) == [a, b]
  {
    var s := a + [c] + b;
    if a == "" {
      assert s[1..] == b;
      SplitWhole(b, c);
    } else {
      assert s[1..] == a[1..] + [c] + b;
      SplitOnce(a[1..], b, c);
      assert [s[0]] + a[1..] == a;
    }
  }

  function Masked(local: string, host: string): string {
    if |local| <= 2 then "**@" + host else [local[0]] + "***" + [local[|local| - 1]] + "@" + host
  }

  /** On every match the mask splits into two parts: the unmasked early return is never taken. */
  lemma MaskOfMatch(s: string, i: nat, j: nat) returns (at: nat)
    requires i <= |s| && Match(EMAIL, s, i) == Some(j)
    ensures i < at < j && s[at] == '@'
    ensures MaskEmail(s[i..j]) == Masked(s[i..at], s[at + 1..j])
  {
    var dot;
    at, dot := MatchIsEmail(s, i, j);
    var a, b := s[i..at], s[at + 1..j];
    assert s[i..j] == a + ['@'] + b;
    SplitOnce(a, b, '@');
    if |a| > 2 {
      assert a[..1] == [a[0]] && a[|a| - 1..] == [a[|a| - 1]];
    }
  }

  // ----- The pass -----

  function MaskEmails(s: string): string {
    ReplaceAll(EMAIL, s, MaskEmail)
  }

  function Rest(s: string, i: nat): string
    requires i <= |s|
  {
    Splice(s, FindAll(EMAIL, s, i), MaskEmail, i)
  }

  lemma RestTakes(s: string, i: nat, j: nat)
    requires i < |s| && Match(EMAIL, s, i) == Some(j)
    ensures j > i && Rest(s, i) == MaskEmail(s[i..j]) + Rest(s, j)
  {
    EmailNeverEmpty();
    assert Match(EMAIL, s, i).value > i;
    FindAllTakes(EMAIL, s, i);
    SpliceTakes(s, i, j, FindAll(EMAIL, s, j), MaskEmail);
  }

  lemma RestSkips(s: string, i: nat)
    requires i < |s| && Match(EMAIL, s, i).None?
    ensures Rest(s, i) == [s[i]] + Rest(s, i + 1)
  {
    EmailNeverEmpty();
    FindAllSkips(EMAIL, s, i);
    SpliceCopies(s, FindAll(EMAIL, s, i + 1), MaskEmail, i, i + 1);
    assert s[i..i + 1] == [s[i]];
  }

  lemma RestEnds(s: string)
    ensures Rest(s, |s|) == ""
  {
    EmailMatch(s, |s|);
  }

  method ReplaceEmails(s: string) returns (out: string)
    ensures out == MaskEmails(s)
  {
    out := "";
    var i := 0;
    ghost var rest := Rest(s, 0);
    while i < |s|
      invariant 0 <= i <= |s|
      invariant rest == Rest(s, i)
      invariant out + rest == MaskEmails(s)
      decreases |s| - i
    {
      var end := EmailAt(s, i);
      var piece: string;
      var next: nat;
      if end.Some? {
        piece, next := MaskEmail(s[i..end.value]), end.value;
        RestTakes(s, i, next);
      } else {
        piece, next := [s[i]], i + 1;
        RestSkips(s, i);
      }
      rest := Rest(s, next);
      Regroup(out, piece, rest);
      out := out + piece;
      i := next;
    }
    RestEnds(s);
  }

  // ----- What a mask still shows -----

  lemma {:induction false} HostDownSome(s: string, d: nat, k: nat, p: nat)
    requires d + k <= |s| && 0 < p <= k && DotEnd(s, d + p).Some?
    ensures HostDown(s, d, k).Some?
  {
    if p < k { HostDownSome(s, d, k - 1, p); }
  }

  lemma {:induction false} RunToEnd(cls: Class, s: string, i: nat, n: nat)
    requires i + n <= |s| && (forall k :: i <= k < i + n ==> In(cls, s[k])) && (i + n < |s| ==> !In(cls, s[i + n]))
    ensures Run(cls, s, i) == n
    decreases n
  {
    if n > 0 { RunToEnd(cls, s, i + 1, n - 1); }
  }

  ghost predicate IsHost(host: string, dot: nat) {
    && 0 < dot && dot + 3 <= |host| && host[dot] == '.'
    && (forall k :: 0 <= k < |host| ==> In(Domain, host[k]))
    && (forall k :: dot < k < |host| ==> IsLetter(host[k]))
  }

  lemma LongMaskMatches(local: string, host: string, dot: nat)
    requires |local| > 2 && In(Local, local[|local| - 1]) && IsHost(host, dot)
    ensures Match(EMAIL, Masked(local, host), 4).Some?
  {
    var u := Masked(local, host);
    assert |u| == 6 + |host| && u[4] == local[|local| - 1] && u[5] == '@';
    assert forall k :: 6 <= k < |u| ==> u[k] == host[k - 6];
    RunToEnd(Local, u, 4, 1);
    RunToEnd(Domain, u, 6, |host|);
    RunToEnd(Letter, u, 6 + dot + 1, |host| - dot - 1);
    HostDownSome(u, 6, |host|, dot);
    EmailMatch(u, 4);
  }

  lemma ShortMaskMatchesNothing(local: string, host: string, dot: nat, k: nat)
    requires |local| <= 2 && IsHost(host, dot) && k <= |Masked(local, host)|
    ensures Match(EMAIL, Masked(local, host), k).None?
  {
    var u := Masked(local, host);
    assert u[0] == '*' && u[1] == '*' && u[2] == '@';
    assert forall i :: 3 <= i < |u| ==> u[i] == host[i - 3] && u[i] != '@';
    EmailMatch(u, k);
  }

  lemma MaskMatchesOrNot(local: string, host: string, dot: nat)
    requires IsHost(host, dot) && local != "" && In(Local, local[|local| - 1])
    ensures FindAll(EMAIL, Masked(local, host), 0) == [] <==> |local| <= 2
  {
    var u := Masked(local, host);
    if |local| > 2 {
      LongMaskMatches(local, host, dot);
      EmailNeverEmpty();
      FindAllExact(EMAIL, u, 0);
      assert InsideOf(FindAll(EMAIL, u, 0), 4);
    } else {
      forall k: nat | k <= |u| ensures Match(EMAIL, u, k).None? { ShortMaskMatchesNothing(local, host, dot, k); }
      assert FindFrom(EMAIL, u, 0).None?;
    }
  }

  /** The mask of a match is itself free of matches exactly when the local part has at most two characters. */
  lemma MaskHidesExactlyShortLocals(s: string, i: nat, j: nat) returns (at: nat)
    requires i <= |s| && Match(EMAIL, s, i) == Some(j)
    ensures i < at < j && s[at] == '@'
    ensures FindAll(EMAIL, MaskEmail(s[i..j]), 0) == [] <==> at - i <= 2
  {
    at := MaskOfMatch(s, i, j);
    var at', dot := MatchIsEmail(s, i, j);
    assert IsHost(s[at + 1..j], dot - at - 1);
    MaskMatchesOrNot(s[i..at], s[at + 1..j], dot - at - 1);
  }
}
