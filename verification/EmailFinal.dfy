/**
 What the whole e-mail pass leaves behind: exactly when its output is free of addresses, so that a second
 pass changes nothing, and exactly which addresses of it the card pass will break up.
 */
module EmailFinal {
  import opened Wrappers
  import opened Regex
  import opened EmailPass
  import CardPass

  // ----- Hosts -----

  /** An at sign at e that a host follows: one with a dot at p and two letters after it. */
  ghost predicate Hosted(s: string, e: nat, p: nat) {
    && e + 1 < p && p + 2 < |s| && s[e] == '@'
    && (forall k :: e < k < p + 3 ==> In(Domain, s[k]))
    && s[p] == '.' && IsLetter(s[p + 1]) && IsLetter(s[p + 2])
  }

  lemma {:induction false} RunAtLeast(cls: Class, s: string, i: nat, n: nat)
    requires i + n <= |s| && forall k :: i <= k < i + n ==> In(cls, s[k])
    ensures Run(cls, s, i) >= n
    decreases n
  {
    if n > 0 { RunAtLeast(cls, s, i + 1, n - 1); }
  }

  lemma HostedEnds(s: string, e: nat, p: nat)
    requires Hosted(s, e, p)
    ensures AtEnd(s, e).Some?
  {
    RunAtLeast(Domain, s, e + 1, p + 2 - e);
    assert In(Letter, s[p + 1]) && In(Letter, s[p + 2]);
    RunAtLeast(Letter, s, p + 1, 2);
    HostDownSome(s, e + 1, Run(Domain, s, e + 1), p - e - 1);
  }

  lemma EndsHosted(s: string, e: nat) returns (p: nat)
    requires e <= |s| && AtEnd(s, e).Some?
    ensures Hosted(s, e, p)
  {
    var n := Run(Domain, s, e + 1);
    p := HostDownFinds(s, e + 1, n);
    assert In(Letter, s[p + 1]) && In(Letter, s[p + 2]);
    forall k | e < k < p + 3 ensures In(Domain, s[k]) { }
  }

  /** The host's first usable dot. */
  ghost predicate FirstHosted(s: string, e: nat, p: nat) {
    Hosted(s, e, p) && forall q: nat :: q < p ==> !Hosted(s, e, q)
  }

  /** No card run lies between e and p. */
  ghost predicate NoCardIn(s: string, e: nat, p: nat) {
    forall i: nat, j: nat :: e < i && j <= p ==> !CardPass.IsCardRun(s, i, j)
  }

  /** An at sign followed by a host; if cards are going to be hidden, by one with none before its first usable dot. */
  ghost predicate Seen(s: string, e: nat, cards: bool) {
    exists p :: FirstHosted(s, e, p) && (cards ==> NoCardIn(s, e, p))
  }

  lemma {:induction false} FirstOf(s: string, e: nat, p: nat) returns (q: nat)
    requires Hosted(s, e, p)
    ensures q <= p && FirstHosted(s, e, q)
    decreases p
  {
    if r: nat :| r < p && Hosted(s, e, r) {
      q := FirstOf(s, e, r);
    } else {
      q := p;
    }
  }

  lemma SeenAt(s: string, e: nat, p: nat, cards: bool)
    requires FirstHosted(s, e, p)
    ensures Seen(s, e, cards) <==> (cards ==> NoCardIn(s, e, p))
  {
    if Seen(s, e, cards) {
      var q :| FirstHosted(s, e, q) && (cards ==> NoCardIn(s, e, q));
      assert q == p;
    }
  }

  lemma SeenAtEnd(s: string, e: nat)
    ensures Seen(s, e, false) <==> e <= |s| && AtEnd(s, e).Some?
  {
    if Seen(s, e, false) {
      var p: nat :| FirstHosted(s, e, p);
      HostedEnds(s, e, p);
    }
    if e <= |s| && AtEnd(s, e).Some? {
      var p := EndsHosted(s, e);
      var q := FirstOf(s, e, p);
    }
  }

  // ----- Hosts do not depend on where they stand -----

  ghost predicate SameText(s: string, e: nat, t: string, f: nat, n: nat) {
    e + n <= |s| && f + n <= |t| && s[e..e + n] == t[f..f + n]
  }

  lemma SameChar(s: string, e: nat, t: string, f: nat, n: nat, k: nat)
    requires SameText(s, e, t, f, n) && k < n
    ensures s[e + k] == t[f + k]
  {
    assert s[e + k] == s[e..e + n][k];
    assert t[f + k] == t[f..f + n][k];
  }

  lemma HostedMoves(s: string, e: nat, t: string, f: nat, n: nat, k: nat)
    requires SameText(s, e, t, f, n) && k + 3 <= n && Hosted(s, e, e + k)
    ensures Hosted(t, f, f + k)
  {
    SameChar(s, e, t, f, n, 0);
    SameChar(s, e, t, f, n, k);
    SameChar(s, e, t, f, n, k + 1);
    SameChar(s, e, t, f, n, k + 2);
    forall x | f < x < f + k + 3 ensures In(Domain, t[x]) { SameChar(s, e, t, f, n, x - f); }
  }

  lemma FirstMoves(s: string, e: nat, t: string, f: nat, n: nat, k: nat)
    requires SameText(s, e, t, f, n) && k + 3 <= n && FirstHosted(s, e, e + k)
    ensures FirstHosted(t, f, f + k)
  {
    HostedMoves(s, e, t, f, n, k);
    forall q: nat | q < f + k ensures !Hosted(t, f, q) {
      if Hosted(t, f, q) { HostedMoves(t, f, s, e, n, q - f); }
    }
  }

  lemma CardMoves(s: string, e: nat, t: string, f: nat, n: nat, i: nat, j: nat)
    requires SameText(s, e, t, f, n) && 0 < i && j < n && CardPass.IsCardRun(s, e + i, e + j)
    ensures CardPass.IsCardRun(t, f + i, f + j)
  {
    SameChar(s, e, t, f, n, i - 1);
    SameChar(s, e, t, f, n, j);
    forall x | f + i <= x < f + j ensures IsDigit(t[x]) { SameChar(s, e, t, f, n, x - f); }
  }

  lemma NoCardMoves(s: string, e: nat, t: string, f: nat, n: nat, k: nat)
    requires SameText(s, e, t, f, n) && k < n && NoCardIn(s, e, e + k)
    ensures NoCardIn(t, f, f + k)
  {
    forall i: nat, j: nat | f < i && j <= f + k ensures !CardPass.IsCardRun(t, i, j) {
      if CardPass.IsCardRun(t, i, j) {
        CardMoves(t, f, s, e, n, i - f, j - f);
      }
    }
  }

  lemma SeenMoves(s: string, e: nat, t: string, f: nat, n: nat, k: nat, cards: bool)
    requires SameText(s, e, t, f, n) && k + 3 <= n && Hosted(s, e, e + k)
    ensures Seen(s, e, cards) <==> Seen(t, f, cards)
  {
    var q := FirstOf(s, e, e + k);
    var k0 := q - e;
    FirstMoves(s, e, t, f, n, k0);
    SeenAt(s, e, q, cards);
    SeenAt(t, f, f + k0, cards);
    if NoCardIn(s, e, q) { NoCardMoves(s, e, t, f, n, k0); }
    if NoCardIn(t, f, f + k0) { NoCardMoves(t, f, s, e, n, k0); }
  }

  /** Equal texts whose end, if any, no host crosses. */
  lemma SeenSame(s: string, e: nat, t: string, f: nat, n: nat, cards: bool)
    requires SameText(s, e, t, f, n)
    requires forall p: nat :: Hosted(s, e, p) ==> p + 3 <= e + n
    requires forall p: nat :: Hosted(t, f, p) ==> p + 3 <= f + n
    ensures Seen(s, e, cards) <==> Seen(t, f, cards)
  {
    if Seen(s, e, cards) {
      var p: nat :| FirstHosted(s, e, p);
      SeenMoves(s, e, t, f, n, p - e, cards);
    }
    if Seen(t, f, cards) {
      var p: nat :| FirstHosted(t, f, p);
        SeenMoves(t, f, s, e, n, p - f, cards);
    }
  }

  lemma SeenSuffix(w: string, t: string, e: nat, cards: bool)
    requires e <= |t|
    ensures Seen(w + t, |w| + e, cards) <==> Seen(t, e, cards)
  {
    SeenSame(w + t, |w| + e, t, e, |t| - e, cards);
  }

  // ----- Addresses in a text -----

  /** The at sign of an address. */
  ghost predicate SeenHit(s: string, a: nat, cards: bool) {
    0 < a < |s| && In(Local, s[a - 1]) && Seen(s, a, cards)
  }

  ghost predicate NoSeen(t: string, cards: bool) {
    forall a: nat :: !SeenHit(t, a, cards)
  }

  lemma HitMatches(s: string, a: nat)
    requires 0 < a < |s| && In(Local, s[a - 1]) && AtEnd(s, a).Some?
    ensures Match(EMAIL, s, a - 1).Some?
  {
    RunToEnd(Local, s, a - 1, 1);
    EmailMatch(s, a - 1);
  }

  lemma MatchHits(s: string, i: nat)
    requires i <= |s| && Match(EMAIL, s, i).Some?
    ensures SeenHit(s, i + Run(Local, s, i), false)
  {
    EmailMatch(s, i);
    SeenAtEnd(s, i + Run(Local, s, i));
  }

  lemma NoMatchesNoHits(s: string)
    ensures FindAll(EMAIL, s, 0) == [] <==> NoSeen(s, false)
  {
    EmailNeverEmpty();
    FindAllExact(EMAIL, s, 0);
    if FindAll(EMAIL, s, 0) == [] {
      forall a ensures !SeenHit(s, a, false) {
        if SeenHit(s, a, false) {
          SeenAtEnd(s, a);
          HitMatches(s, a);
        }
      }
    } else {
      MatchHits(s, FindAll(EMAIL, s, 0)[0].start);
    }
  }

  lemma SeenHitSuffix(w: string, t: string, a: nat, cards: bool)
    requires 0 < a <= |t|
    ensures SeenHit(w + t, |w| + a, cards) <==> SeenHit(t, a, cards)
  {
    SeenSuffix(w, t, a, cards);
  }

  lemma SeenSeam(w: string, t: string, cards: bool)
    requires w != ""
    ensures SeenHit(w + t, |w|, cards) <==> In(Local, w[|w| - 1]) && Seen(t, 0, cards)
  {
    SeenSuffix(w, t, 0, cards);
  }

  ghost predicate NoSeenBefore(t: string, n: nat, cards: bool) {
    forall a: nat :: 0 < a < n ==> !SeenHit(t, a, cards)
  }

  /** Addresses of a concatenation: those of the second part, one at the seam, or one in the first part. */
  lemma SeenSplit(w: string, t: string, cards: bool)
    requires w != ""
    ensures NoSeen(w + t, cards) <==>
            NoSeen(t, cards) && !(In(Local, w[|w| - 1]) && Seen(t, 0, cards)) && NoSeenBefore(w + t, |w|, cards)
  {
    SeenSeam(w, t, cards);
    forall a: nat | 0 < a <= |t| ensures SeenHit(w + t, |w| + a, cards) <==> SeenHit(t, a, cards) {
      SeenHitSuffix(w, t, a, cards);
    }
    if NoSeen(w + t, cards) {
      forall a: nat ensures !SeenHit(t, a, cards) {
        if 0 < a <= |t| { assert !SeenHit(w + t, |w| + a, cards); }
      }
    } else {
      var a: nat :| SeenHit(w + t, a, cards);
      if a > |w| { SeenHitSuffix(w, t, a - |w|, cards); }
    }
  }

  // ----- Masks -----

  lemma MaskShape(local: string, host: string)
    requires local != "" && local[0] != '@' && host != ""
    ensures
      var mask := Masked(local, host);
      |mask| > 2 && mask[0] != '@' && mask[1] == '*' && mask[|mask| - 1] == host[|host| - 1]
  {
  }

  lemma MatchParts(s: string, i: nat, j: nat) returns (at: nat)
    requires i < |s| && Match(EMAIL, s, i) == Some(j)
    ensures i < at < j - 1 && j <= |s| && at == i + Run(Local, s, i) && s[i] != '@' && In(Letter, s[j - 1])
    ensures MaskEmail(s[i..j]) == Masked(s[i..at], s[at + 1..j])
  {
    at := i + Run(Local, s, i);
    EmailMatch(s, i);
    var at', dot := MatchIsEmail(s, i, j);
    var at'' := MaskOfMatch(s, i, j);
    assert at == at' == at'';
  }

  lemma RestMasked(s: string, i: nat, j: nat, mask: string)
    requires i <= j <= |s| && i < |s| && Match(EMAIL, s, i) == Some(j) && MaskEmail(s[i..j]) == mask
    ensures Rest(s, i) == mask + Rest(s, j)
  {
    RestTakes(s, i, j);
  }

  /** The mask of a match, and the rest after it. */
  lemma TakeShape(s: string, i: nat, j: nat) returns (mask: string, at: nat)
    requires i < |s| && Match(EMAIL, s, i) == Some(j)
    ensures i < at < j - 1 && j <= |s| && at == i + Run(Local, s, i) && mask == Masked(s[i..at], s[at + 1..j])
    ensures Rest(s, i) == mask + Rest(s, j)
    ensures |mask| > 2 && In(Letter, mask[|mask| - 1]) && mask[0] != '@' && mask[1] == '*'
  {
    at := MatchParts(s, i, j);
    var local, host := s[i..at], s[at + 1..j];
    assert local[0] == s[i] && host[|host| - 1] == s[j - 1];
    mask := Masked(local, host);
    MaskShape(local, host);
    RestMasked(s, i, j, mask);
  }

  lemma CopyStep(s: string, i: nat, n: nat, t: string)
    requires 0 < n && i + n <= |s| && n - 1 <= |t| && t[..n - 1] == s[i + 1..i + n]
    ensures ([s[i]] + t)[..n] == s[i..i + n]
  {
    assert ([s[i]] + t)[..n] == [s[i]] + t[..n - 1];
    assert s[i..i + n] == [s[i]] + s[i + 1..i + n];
  }

  /** Text in which no match starts is copied. */
  lemma {:induction false} CopiedTo(s: string, i: nat, n: nat)
    requires i + n <= |s| && forall k :: i <= k < i + n ==> Match(EMAIL, s, k).None?
    ensures n <= |Rest(s, i)| && Rest(s, i)[..n] == s[i..i + n]
    decreases n
  {
    if n > 0 {
      RestSkips(s, i);
      CopiedTo(s, i + 1, n - 1);
      CopyStep(s, i, n, Rest(s, i + 1));
    }
  }

  // ----- An at sign that is not part of a match -----

  lemma AtUnmatched(s: string, i: nat)
    requires i < |s| && s[i] == '@'
    ensures Match(EMAIL, s, i).None?
  {
    EmailMatch(s, i);
  }

  lemma SameAt(s: string, i: nat, k: nat)
    requires i <= |s| && k <= |s| && Run(Local, s, i) > 0 && Run(Local, s, k) > 0
    requires i + Run(Local, s, i) == k + Run(Local, s, k)
    ensures Match(EMAIL, s, i) == Match(EMAIL, s, k)
  {
    EmailMatch(s, k);
    EmailMatch(s, i);
  }

  lemma {:induction false} SameRun(s: string, i: nat, k: nat)
    requires i <= k <= |s| && forall x :: i <= x < k ==> In(Local, s[x])
    ensures i + Run(Local, s, i) == k + Run(Local, s, k)
    decreases k - i
  {
    if i < k { SameRun(s, i + 1, k); }
  }

  /** Where the text after an at sign is no local part, no match starts in it or right behind it. */
  lemma UnmatchedHost(s: string, i: nat, k: nat)
    requires i < |s| && s[i] == '@' && Match(EMAIL, s, i + 1).None? && i <= k <= i + 1 + Run(Domain, s, i + 1)
    ensures Match(EMAIL, s, k).None?
  {
    if k == i {
      AtUnmatched(s, i);
    } else {
      forall x | i < x < k ensures In(Local, s[x]) { assert In(Domain, s[x]); }
      SameRun(s, i + 1, k);
      if Run(Local, s, k) > 0 { SameAt(s, i + 1, k); } else { EmailMatch(s, k); }
    }
  }

  /** The host after an at sign, and the character that ends it. */
  function HostText(s: string, i: nat): (n: nat)
    requires i < |s|
    ensures i + n <= |s|
  {
    var e := i + 1 + Run(Domain, s, i + 1);
    if e < |s| then e + 1 - i else e - i
  }

  lemma UnmatchedCopied(s: string, i: nat)
    requires i < |s| && s[i] == '@' && Match(EMAIL, s, i + 1).None?
    ensures SameText(s, i, Rest(s, i), 0, HostText(s, i))
    ensures i + HostText(s, i) == |s| ==> |Rest(s, i)| == HostText(s, i)
  {
    var n := HostText(s, i);
    forall k: nat | i <= k < i + n ensures Match(EMAIL, s, k).None? { UnmatchedHost(s, i, k); }
    CopiedTo(s, i, n);
    assert Rest(s, i)[0..n] == Rest(s, i)[..n];
    CopiedAll(s, i, n);
  }

  lemma {:induction false} CopiedAll(s: string, i: nat, n: nat)
    requires i + n <= |s| && forall k :: i <= k < i + n ==> Match(EMAIL, s, k).None?
    ensures i + n == |s| ==> |Rest(s, i)| == n
    decreases n
  {
    if n == 0 {
      if i == |s| { RestEnds(s); }
    } else {
      RestSkips(s, i);
      CopiedAll(s, i + 1, n - 1);
    }
  }

  lemma HostStops(s: string, i: nat, t: string, f: nat, p: nat)
    requires i < |s| && SameText(s, i, t, f, HostText(s, i)) && Hosted(t, f, p)
    requires i + HostText(s, i) == |s| ==> |t| == f + HostText(s, i)
    ensures p + 3 <= f + HostText(s, i)
  {
    var n := HostText(s, i);
    var e := i + 1 + Run(Domain, s, i + 1);
    if e < |s| {
      SameChar(s, i, t, f, n, n - 1);
    }
  }

  /** Such an at sign still shows a host in the output exactly when it shows one in the text. */
  lemma UnmatchedSeen(s: string, i: nat, cards: bool)
    requires i < |s| && s[i] == '@' && Match(EMAIL, s, i + 1).None?
    ensures Seen(Rest(s, i), 0, cards) <==> Seen(s, i, cards)
  {
    var t, n := Rest(s, i), HostText(s, i);
    UnmatchedCopied(s, i);
    forall p: nat | Hosted(s, i, p) ensures p + 3 <= i + n { HostStops(s, i, s, i, p); }
    forall p: nat | Hosted(t, 0, p) ensures p + 3 <= 0 + n { HostStops(s, i, t, 0, p); }
    SeenSame(s, i, t, 0, n, cards);
  }

  lemma StarUnseen(t: string, cards: bool)
    requires |t| > 2 && t[2] == '*'
    ensures !Seen(t, 0, cards)
  {
  }

  /** A match right behind the at sign puts a star where the host would be. */
  lemma MatchedUnseen(s: string, i: nat, cards: bool)
    requires i + 1 < |s| && s[i] == '@' && Match(EMAIL, s, i + 1).Some?
    ensures !Seen(Rest(s, i), 0, cards)
  {
    AtUnmatched(s, i);
    RestSkips(s, i);
    var mask, at := TakeShape(s, i + 1, Match(EMAIL, s, i + 1).value);
    assert Rest(s, i)[2] == mask[1];
    StarUnseen(Rest(s, i), cards);
  }

  lemma OutputStartsAt(s: string, i: nat)
    requires i <= |s| && Rest(s, i) != "" && Rest(s, i)[0] == '@'
    ensures i < |s| && s[i] == '@'
  {
    if i == |s| {
      RestEnds(s);
    } else if Match(EMAIL, s, i).Some? {
      var mask, at := TakeShape(s, i, Match(EMAIL, s, i).value);
    } else {
      RestSkips(s, i);
    }
  }

  /** Whether the output shows a host right at the place that corresponds to position i of the text. */
  lemma SeenInRest(s: string, i: nat, cards: bool)
    requires i <= |s|
    ensures Seen(Rest(s, i), 0, cards) <==> Seen(s, i, cards) && Match(EMAIL, s, i + 1).None?
  {
    if i < |s| && s[i] == '@' {
      if Match(EMAIL, s, i + 1).None? {
        UnmatchedSeen(s, i, cards);
      } else {
        MatchNotAtEnd(s);
        MatchedUnseen(s, i, cards);
      }
    } else if Seen(Rest(s, i), 0, cards) {
      OutputStartsAt(s, i);
    }
  }

  lemma MatchNotAtEnd(s: string)
    ensures Match(EMAIL, s, |s|).None?
  {
    EmailMatch(s, |s|);
  }

  // ----- Addresses in masks -----

  lemma ShortMaskUnseen(host: string, t: string, cards: bool)
    requires forall k :: 0 <= k < |host| ==> In(Domain, host[k])
    ensures NoSeenBefore("**@" + host + t, 3 + |host|, cards)
  {
    var u := "**@" + host + t;
    assert u[..3] == "**@" && u[1] == u[..3][1] == '*';
    forall a: nat | 0 < a < 3 + |host| ensures !SeenHit(u, a, cards) {
      assert a < 3 ==> u[a] == u[..3][a];
      assert a >= 3 ==> u[a] == host[a - 3];
    }
  }

  /** u starts like a long mask: an at sign at 5, after a letter of the local part and three stars. */
  ghost predicate LongHead(u: string) {
    |u| > 5 && u[1] == u[2] == u[3] == '*' && In(Local, u[4])
  }

  ghost predicate NoAtIn(s: string, lo: nat, hi: nat) {
    hi <= |s| && forall x :: lo < x < hi ==> s[x] != '@'
  }

  lemma HeadUnseen(s: string, at: nat, u: string, n: nat, a: nat, cards: bool)
    requires LongHead(u) && SameText(s, at, u, 5, n) && NoAtIn(s, at, at + n) && 0 < a < 5 + n && a != 5
    ensures !SeenHit(u, a, cards)
  {
    if a > 5 { SameChar(s, at, u, 5, n, a - 5); }
  }

  /** Of the mask only the at sign can be that of an address, and it is if the host shows in the text. */
  lemma LongMaskIs(s: string, at: nat, u: string, n: nat, k: nat, cards: bool)
    requires LongHead(u) && SameText(s, at, u, 5, n) && NoAtIn(s, at, at + n) && k + 3 <= n && Hosted(s, at, at + k)
    ensures NoSeenBefore(u, 5 + n, cards) <==> !Seen(s, at, cards)
  {
    SeenMoves(s, at, u, 5, n, k, cards);
    forall a: nat | 0 < a < 5 + n && a != 5 ensures !SeenHit(u, a, cards) { HeadUnseen(s, at, u, n, a, cards); }
    assert SeenHit(u, 5, cards) <==> Seen(u, 5, cards);
  }

  lemma LongMaskText(s: string, at: nat, local: string, host: string, mask: string, t: string)
    requires |local| > 2 && In(Local, local[|local| - 1]) && mask == Masked(local, host)
    requires at + 1 + |host| <= |s| && s[at] == '@' && s[at + 1..at + 1 + |host|] == host
    ensures |mask| == 6 + |host| && LongHead(mask + t) && SameText(s, at, mask + t, 5, 1 + |host|)
  {
    var u := mask + t;
    assert u[..6] == [local[0]] + "***" + [local[|local| - 1]] + "@";
    assert u[1] == u[..6][1] && u[2] == u[..6][2] && u[3] == u[..6][3] && u[4] == u[..6][4];
    assert u[5..6 + |host|] == ['@'] + host;
    assert s[at..at + 1 + |host|] == ['@'] + host;
  }

  lemma MatchIsHost(s: string, i: nat, j: nat, at: nat) returns (dot: nat)
    requires i < |s| && Match(EMAIL, s, i) == Some(j) && at == i + Run(Local, s, i)
    ensures i < at < j - 1 && j <= |s| && In(Local, s[at - 1])
    ensures IsHost(s[at + 1..j], dot)
  {
    EmailMatch(s, i);
    var at', d := MatchIsEmail(s, i, j);
    assert at' == at;
    dot := d - at - 1;
    var host := s[at + 1..j];
    assert host[dot] == s[d];
    assert forall k :: 0 <= k < |host| ==> host[k] == s[at + 1 + k];
    forall k | dot < k < |host| ensures IsLetter(host[k]) { assert host[k] == s[at + 1 + k]; }
  }

  lemma LongMask(s: string, at: nat, local: string, host: string, dot: nat, mask: string, t: string, cards: bool)
    requires |local| > 2 && In(Local, local[|local| - 1]) && mask == Masked(local, host) && IsHost(host, dot)
    requires at + 1 + |host| <= |s| && s[at] == '@' && s[at + 1..at + 1 + |host|] == host
    ensures NoSeenBefore(mask + t, |mask|, cards) <==> !Seen(s, at, cards)
  {
    LongMaskText(s, at, local, host, mask, t);
    HostIsHosted(s, at, host, dot);
    LongMaskIs(s, at, mask + t, 1 + |host|, 1 + dot, cards);
  }

  /** A mask shows an address exactly when the local part was long and the host shows. */
  lemma MaskSeen(s: string, i: nat, j: nat, mask: string, at: nat, t: string, cards: bool)
    requires i < |s| && Match(EMAIL, s, i) == Some(j) && i < at < j - 1 && at == i + Run(Local, s, i)
    requires mask == Masked(s[i..at], s[at + 1..j])
    ensures NoSeenBefore(mask + t, |mask|, cards) <==> at - i <= 2 || !Seen(s, at, cards)
  {
    var dot := MatchIsHost(s, i, j, at);
    var local, host := s[i..at], s[at + 1..j];
    AtSignAfter(s, i, j);
    if |local| <= 2 {
      ShortMaskUnseen(host, t, cards);
    } else {
      LongMask(s, at, local, host, dot, mask, t, cards);
    }
  }

  lemma HostIsHosted(s: string, at: nat, host: string, dot: nat)
    requires IsHost(host, dot) && at + 1 + |host| <= |s| && s[at] == '@' && s[at + 1..at + 1 + |host|] == host
    ensures Hosted(s, at, at + (1 + dot)) && NoAtIn(s, at, at + (1 + |host|))
  {
    var text := s[at + 1..at + 1 + |host|];
    assert text[dot] == s[at + 1 + dot] && text[dot + 1] == s[at + 2 + dot] && text[dot + 2] == s[at + 3 + dot];
    forall k | at < k < at + 1 + |host| ensures In(Domain, s[k]) { assert s[k] == text[k - at - 1]; }
  }

  // ----- Addresses in the output -----

  /** The match leaves no address behind: its mask shows none, nor does an at sign right after it that is followed by
      a host and not by another match. */
  ghost predicate Veiled(s: string, m: Span, cards: bool)
    requires m.start <= m.end <= |s|
  {
    && (Run(Local, s, m.start) <= 2 || !Seen(s, m.start + Run(Local, s, m.start), cards))
    && (!Seen(s, m.end, cards) || (m.end < |s| && Match(EMAIL, s, m.end + 1).Some?))
  }

  ghost predicate AllVeiled(s: string, i: nat, cards: bool)
    requires i <= |s|
  {
    forall m :: m in FindAll(EMAIL, s, i) ==> m.start <= m.end <= |s| && Veiled(s, m, cards)
  }

  lemma VeiledTakes(s: string, i: nat, j: nat, cards: bool)
    requires i < |s| && Match(EMAIL, s, i) == Some(j)
    ensures AllVeiled(s, i, cards) <==> Veiled(s, Span(i, j), cards) && AllVeiled(s, j, cards)
  {
    EmailNeverEmpty();
    FindAllTakes(EMAIL, s, i);
    var ms := FindAll(EMAIL, s, j);
    assert forall m :: m in [Span(i, j)] + ms <==> m == Span(i, j) || m in ms;
  }

  ghost predicate ExactFrom(s: string, i: nat, cards: bool)
    requires i <= |s|
  {
    NoSeen(Rest(s, i), cards) <==> AllVeiled(s, i, cards)
  }

  lemma VeiledSkips(s: string, i: nat, cards: bool)
    requires i < |s| && Match(EMAIL, s, i).None?
    ensures AllVeiled(s, i, cards) <==> AllVeiled(s, i + 1, cards)
  {
    EmailNeverEmpty();
    FindAllSkips(EMAIL, s, i);
  }

  lemma SkipSeam(s: string, i: nat, cards: bool)
    requires i < |s| && Match(EMAIL, s, i).None? && In(Local, s[i])
    ensures !Seen(Rest(s, i + 1), 0, cards)
  {
    SeenInRest(s, i + 1, cards);
    if Seen(s, i + 1, cards) {
      var p: nat :| FirstHosted(s, i + 1, p);
      HostedEnds(s, i + 1, p);
      HitMatches(s, i + 1);
    }
  }

  lemma SkipSplit(s: string, i: nat, cards: bool)
    requires i < |s| && Match(EMAIL, s, i).None?
    ensures NoSeen(Rest(s, i), cards) <==> NoSeen(Rest(s, i + 1), cards)
  {
    RestSkips(s, i);
    SeenSplit([s[i]], Rest(s, i + 1), cards);
    if In(Local, s[i]) { SkipSeam(s, i, cards); }
  }

  lemma SkipStep(s: string, i: nat, cards: bool)
    requires i < |s| && Match(EMAIL, s, i).None? && ExactFrom(s, i + 1, cards)
    ensures ExactFrom(s, i, cards)
  {
    VeiledSkips(s, i, cards);
    SkipSplit(s, i, cards);
  }

  lemma LetterSplit(w: string, t: string, cards: bool)
    requires w != "" && In(Letter, w[|w| - 1])
    ensures NoSeen(w + t, cards) <==> NoSeen(t, cards) && !Seen(t, 0, cards) && NoSeenBefore(w + t, |w|, cards)
  {
    SeenSplit(w, t, cards);
  }

  lemma VeiledIs(s: string, i: nat, j: nat, at: nat, cards: bool)
    requires i <= j <= |s| && at == i + Run(Local, s, i)
    ensures Veiled(s, Span(i, j), cards) <==>
            (at - i <= 2 || !Seen(s, at, cards)) && !(Seen(s, j, cards) && Match(EMAIL, s, j + 1).None?)
  {
  }

  lemma TakeSplit(s: string, i: nat, j: nat, cards: bool)
    requires i < |s| && Match(EMAIL, s, i) == Some(j) && j <= |s|
    ensures NoSeen(Rest(s, i), cards) <==> NoSeen(Rest(s, j), cards) && Veiled(s, Span(i, j), cards)
  {
    var mask, at := TakeShape(s, i, j);
    var t := Rest(s, j);
    LetterSplit(mask, t, cards);
    MaskSeen(s, i, j, mask, at, t, cards);
    SeenInRest(s, j, cards);
    VeiledIs(s, i, j, at, cards);
  }

  lemma TakeStep(s: string, i: nat, j: nat, cards: bool)
    requires i < |s| && Match(EMAIL, s, i) == Some(j) && j <= |s| && ExactFrom(s, j, cards)
    ensures ExactFrom(s, i, cards)
  {
    VeiledTakes(s, i, j, cards);
    TakeSplit(s, i, j, cards);
  }

  lemma RestNone(s: string, cards: bool)
    ensures ExactFrom(s, |s|, cards)
  {
    RestEnds(s);
    MatchNotAtEnd(s);
    assert FindAll(EMAIL, s, |s|) == [];
  }

  lemma MatchGrows(s: string, i: nat) returns (j: nat)
    requires i < |s| && Match(EMAIL, s, i).Some?
    ensures i < j <= |s| && Match(EMAIL, s, i) == Some(j)
  {
    j := Match(EMAIL, s, i).value;
    var at, dot := MatchIsEmail(s, i, j);
  }

  lemma {:induction false} RestExact(s: string, i: nat, cards: bool)
    requires i <= |s|
    ensures ExactFrom(s, i, cards)
    decreases |s| - i
  {
    if i == |s| {
      RestNone(s, cards);
    } else if Match(EMAIL, s, i).Some? {
      var j := MatchGrows(s, i);
      RestExact(s, j, cards);
      TakeStep(s, i, j, cards);
    } else {
      RestExact(s, i + 1, cards);
      SkipStep(s, i, cards);
    }
  }

  // ----- The whole pass -----

  ghost predicate Covered(s: string, m: Span)
    requires m.start <= m.end <= |s|
  {
    Run(Local, s, m.start) <= 2 && AtEnd(s, m.end).None?
  }

  ghost predicate AllCovered(s: string, i: nat)
    requires i <= |s|
  {
    forall m :: m in FindAll(EMAIL, s, i) ==> m.start <= m.end <= |s| && Covered(s, m)
  }

  lemma LongAfterAt(s: string, i: nat)
    requires i < |s| && AtEnd(s, i).Some?
    ensures Run(Local, s, i + 1) > 2
  {
    var p := EndsHosted(s, i);
    forall x | i < x < p + 3 ensures In(Local, s[x]) { assert In(Domain, s[x]); }
    RunAtLeast(Local, s, i + 1, p + 2 - i);
  }

  lemma AtSignAfter(t: string, i: nat, j: nat)
    requires i < |t| && Match(EMAIL, t, i) == Some(j)
    ensures i + Run(Local, t, i) < |t| && t[i + Run(Local, t, i)] == '@'
  {
    EmailMatch(t, i);
  }

  lemma SecondNoStar(t: string, i: nat, at: nat)
    requires i < |t| && i < at == i + Run(Local, t, i) && at + 1 < |t| && t[at] == '@'
    ensures t[i + 1] != '*'
  {
    if at > i + 1 { assert In(Local, t[i + 1]); }
  }

  /** The pass changes the second character of the first match into a star. */
  lemma FirstMasked(t: string, i: nat, j: nat)
    requires i < |t| && Match(EMAIL, t, i) == Some(j)
    ensures i + 1 < |t| && t[i + 1] != '*'
    ensures |Rest(t, i)| > 1 && Rest(t, i)[1] == '*'
  {
    var mask, at := TakeShape(t, i, j);
    AtSignAfter(t, i, j);
    SecondNoStar(t, i, at);
  }

  lemma FirstMatch(t: string) returns (m: Span)
    requires FindAll(EMAIL, t, 0) != []
    ensures m.start < |t| && Match(EMAIL, t, m.start) == Some(m.end)
    ensures forall k :: 0 <= k < m.start ==> Match(EMAIL, t, k).None?
    ensures FindAll(EMAIL, t, 0) == FindAll(EMAIL, t, m.start)
  {
    EmailNeverEmpty();
    m := FindFrom(EMAIL, t, 0).value;
    EmailMatch(t, |t|);
    FindAllSkipsTo(EMAIL, t, 0, m.start);
  }

  lemma MaskEmailsCopies(t: string, i: nat)
    requires i <= |t| && FindAll(EMAIL, t, 0) == FindAll(EMAIL, t, i)
    ensures MaskEmails(t) == t[..i] + Rest(t, i)
  {
    SpliceCopies(t, FindAll(EMAIL, t, i), MaskEmail, 0, i);
    assert t[0..i] == t[..i];
  }

  /** A pass leaves a text as it is exactly when it contains no address: every mask differs from its match. */
  lemma UnchangedExactly(t: string)
    ensures MaskEmails(t) == t <==> FindAll(EMAIL, t, 0) == []
  {
    if FindAll(EMAIL, t, 0) == [] {
      assert t[0..] == t;
    } else {
      var m := FirstMatch(t);
      MaskEmailsCopies(t, m.start);
      FirstMasked(t, m.start, m.end);
      assert (t[..m.start] + Rest(t, m.start))[m.start + 1] == Rest(t, m.start)[1];
    }
  }

  ghost predicate VeiledAsCovered(s: string, i: nat)
    requires i <= |s|
  {
    AllVeiled(s, i, false) <==> AllCovered(s, i)
  }

  lemma NextUnmatched(s: string, j: nat)
    requires j < |s| && AllCovered(s, j) && AtEnd(s, j).Some?
    ensures Match(EMAIL, s, j + 1).None?
  {
    LongAfterAt(s, j);
    AtUnmatched(s, j);
    CoveredSkips(s, j);
    if Match(EMAIL, s, j + 1).Some? { CoveredTakes(s, j + 1, Match(EMAIL, s, j + 1).value); }
  }

  lemma CoveredStep(s: string, i: nat, j: nat)
    requires i < |s| && Match(EMAIL, s, i) == Some(j) && j <= |s|
    requires VeiledAsCovered(s, j)
    ensures VeiledAsCovered(s, i)
  {
    VeiledTakes(s, i, j, false);
    CoveredTakes(s, i, j);
    MatchHits(s, i);
    SeenAtEnd(s, j);
    VeiledIs(s, i, j, i + Run(Local, s, i), false);
    if AllCovered(s, j) && AtEnd(s, j).Some? { NextUnmatched(s, j); }
  }

  lemma CoveredSkips(s: string, i: nat)
    requires i < |s| && Match(EMAIL, s, i).None?
    ensures AllCovered(s, i) <==> AllCovered(s, i + 1)
  {
    EmailNeverEmpty();
    FindAllSkips(EMAIL, s, i);
  }

  lemma CoveredTakes(s: string, i: nat, j: nat)
    requires i <= |s| && Match(EMAIL, s, i) == Some(j)
    ensures AllCovered(s, i) <==> Covered(s, Span(i, j)) && AllCovered(s, j)
  {
    EmailNeverEmpty();
    FindAllTakes(EMAIL, s, i);
    var ms := FindAll(EMAIL, s, j);
    assert forall m :: m in [Span(i, j)] + ms <==> m == Span(i, j) || m in ms;
  }

  lemma NoneAtEnd(s: string)
    ensures VeiledAsCovered(s, |s|)
  {
    MatchNotAtEnd(s);
    assert FindAll(EMAIL, s, |s|) == [];
  }

  lemma SkipCovered(s: string, i: nat)
    requires i < |s| && Match(EMAIL, s, i).None?
    requires VeiledAsCovered(s, i + 1)
    ensures VeiledAsCovered(s, i)
  {
    VeiledSkips(s, i, false);
    CoveredSkips(s, i);
  }

  lemma CoveredOnward(s: string, i: nat) returns (j: nat)
    requires i < |s|
    ensures i < j <= |s| && (VeiledAsCovered(s, j) ==> VeiledAsCovered(s, i))
  {
    if Match(EMAIL, s, i).Some? {
      j := MatchGrows(s, i);
      if VeiledAsCovered(s, j) { CoveredStep(s, i, j); }
    } else {
      j := i + 1;
      if VeiledAsCovered(s, j) { SkipCovered(s, i); }
    }
  }

  /** Without a card pass to come, a host after a match always shows: the next match there would be a long one. */
  lemma {:induction false} VeiledIsCovered(s: string, i: nat)
    requires i <= |s|
    ensures VeiledAsCovered(s, i)
    decreases |s| - i
  {
    if i == |s| {
      NoneAtEnd(s);
    } else {
      var j := CoveredOnward(s, i);
      VeiledIsCovered(s, j);
    }
  }

  /** The output of the e-mail pass contains no address exactly when every match has a local part of at most two
      characters and is not itself followed by an at sign and a host. */
  lemma OutputCleanExactly(s: string)
    ensures FindAll(EMAIL, MaskEmails(s), 0) == [] <==>
            forall m :: m in FindAll(EMAIL, s, 0) ==>
              m.start <= m.end <= |s| && Run(Local, s, m.start) <= 2 && AtEnd(s, m.end).None?
  {
    RestExact(s, 0, false);
    VeiledIsCovered(s, 0);
    NoMatchesNoHits(MaskEmails(s));
    assert AllCovered(s, 0) <==> forall m :: m in FindAll(EMAIL, s, 0) ==>
      m.start <= m.end <= |s| && Run(Local, s, m.start) <= 2 && AtEnd(s, m.end).None?;
  }

  /** So the e-mail pass is idempotent on exactly those texts. */
  lemma SecondPassExactly(s: string)
    ensures MaskEmails(MaskEmails(s)) == MaskEmails(s) <==>
            forall m :: m in FindAll(EMAIL, s, 0) ==>
              m.start <= m.end <= |s| && Run(Local, s, m.start) <= 2 && AtEnd(s, m.end).None?
  {
    OutputCleanExactly(s);
    UnchangedExactly(MaskEmails(s));
  }
}
