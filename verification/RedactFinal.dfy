/**
 What a redacted string still shows: exactly when it contains no e-mail address, after both passes, and exactly
 when redacting it once more changes nothing.
 */
module RedactFinal {
  import opened Wrappers
  import opened Regex
  import opened CardPass
  import opened EmailPass
  import opened EmailFinal
  import opened Redact

  // ----- The card pass up to its first card -----

  /** Output and text agree before n, where the output has a bracket and the text a card run, or both end. */
  ghost predicate AgreeTo(v: string, n: nat) {
    var r := HideCards(v);
    && n <= |v| && n <= |r| && r[..n] == v[..n]
    && (n < |r| ==> r[n] == '[')
    && (n < |v| ==> exists j :: IsCardRun(v, n, j))
    && (forall i: nat, j: nat :: IsCardRun(v, i, j) ==> i >= n)
  }

  lemma UpToFirst(v: string) returns (n: nat)
    ensures AgreeTo(v, n)
  {
    CardNeverEmpty();
    FindAllExact(CARD, v, 0);
    if FindAll(CARD, v, 0) == [] {
      n := |v|;
      assert HideCards(v) == v by { assert v[0..] == v; }
      forall i: nat, j: nat ensures !IsCardRun(v, i, j) {
        if i <= |v| { CardMatch(v, i, j); }
      }
    } else {
      var m := FindFrom(CARD, v, 0).value;
      n := m.start;
      CardMatch(v, m.start, m.end);
      forall i: nat, j: nat | IsCardRun(v, i, j) ensures i >= n { CardMatch(v, i, j); }
      HiddenFirst(v, m);
    }
  }

  lemma HiddenFirst(v: string, m: Span)
    requires FindFrom(CARD, v, 0) == Some(m) && m.start < m.end <= |v|
    ensures m.start < |HideCards(v)| && HideCards(v)[..m.start] == v[..m.start] && HideCards(v)[m.start] == '['
  {
    var ms := FindAll(CARD, v, 0);
    assert ms[0] == m && Hide(v[m.start..m.end]) == REDACTED;
    assert HideCards(v) == v[0..m.start] + REDACTED + Splice(v, ms[1..], Hide, m.end);
  }

  // ----- Hosts that the card pass leaves whole -----

  lemma KeptHost(v: string, n: nat, p: nat)
    requires AgreeTo(v, n) && FirstHosted(v, 0, p) && NoCardIn(v, 0, p)
    ensures p + 3 <= n
  {
  }

  lemma ShownHost(v: string, n: nat, q: nat)
    requires AgreeTo(v, n) && Hosted(HideCards(v), 0, q)
    ensures q + 3 <= n
  {
  }

  lemma HostCopied(v: string, r: string, n: nat, p: nat)
    requires n <= |v| && n <= |r| && r[..n] == v[..n] && p + 3 <= n && FirstHosted(v, 0, p)
    ensures Seen(r, 0, false)
  {
    assert SameText(v, 0, r, 0, n);
    FirstMoves(v, 0, r, 0, n, p);
    SeenAt(r, 0, p, false);
  }

  lemma HostSurvives(v: string, n: nat)
    requires AgreeTo(v, n) && Seen(v, 0, true)
    ensures Seen(HideCards(v), 0, false)
  {
    var p: nat :| FirstHosted(v, 0, p) && NoCardIn(v, 0, p);
    KeptHost(v, n, p);
    HostCopied(v, HideCards(v), n, p);
  }

  lemma HostWasThere(v: string, n: nat)
    requires AgreeTo(v, n) && Seen(HideCards(v), 0, false)
    ensures Seen(v, 0, true)
  {
    var q: nat :| FirstHosted(HideCards(v), 0, q);
    ShownHost(v, n, q);
    FirstMoves(HideCards(v), 0, v, 0, n, q);
    assert NoCardIn(v, 0, q);
    SeenAt(v, 0, q, true);
  }

  /** After the card pass an at sign shows a host exactly when no card run was in the way. */
  lemma HostAfterCards(v: string)
    ensures Seen(HideCards(v), 0, false) <==> Seen(v, 0, true)
  {
    var n := UpToFirst(v);
    if Seen(v, 0, true) { HostSurvives(v, n); }
    if Seen(HideCards(v), 0, false) { HostWasThere(v, n); }
  }

  // ----- All of the text -----

  /** No at sign of an address stands behind two digits, so behind a card. */
  ghost predicate NoPairs(t: string) {
    forall a: nat :: 2 <= a < |t| && Seen(t, a, false) ==> !(IsDigit(t[a - 1]) && IsDigit(t[a - 2]))
  }

  lemma PairsSuffix(w: string, t: string)
    requires NoPairs(w + t)
    ensures NoPairs(t)
  {
    forall a: nat | 2 <= a < |t| && Seen(t, a, false) ensures !(IsDigit(t[a - 1]) && IsDigit(t[a - 2])) {
      SeenSuffix(w, t, a, false);
      assert (w + t)[|w| + a - 1] == t[a - 1] && (w + t)[|w| + a - 2] == t[a - 2];
    }
  }

  ghost predicate HidesExactly(u: string) {
    NoSeen(HideRuns(u), false) <==> NoSeen(u, true)
  }

  lemma KeptStep(w: string, v: string)
    requires w != "" && (forall k :: 0 < k < |w| ==> w[k] != '@') && HidesExactly(v)
    ensures NoSeen(w + HideRuns(v), false) <==> NoSeen(w + v, true)
  {
    KeptUnseen(w, HideRuns(v), false);
    KeptUnseen(w, v, true);
    SeenSplit(w, HideRuns(v), false);
    SeenSplit(w, v, true);
    ScannerIsCardRegex(v);
    HostAfterCards(v);
  }

  lemma KeptUnseen(w: string, t: string, cards: bool)
    requires forall k :: 0 < k < |w| ==> w[k] != '@'
    ensures NoSeenBefore(w + t, |w|, cards)
  {
    forall a: nat | 0 < a < |w| ensures !SeenHit(w + t, a, cards) { assert (w + t)[a] == w[a]; }
  }

  lemma HiddenStep(w: string, v: string)
    requires IsCard(w) && NoPairs(w + v) && HidesExactly(v)
    ensures NoSeen(REDACTED + HideRuns(v), false) <==> NoSeen(w + v, true)
  {
    KeptUnseen(REDACTED, HideRuns(v), false);
    KeptUnseen(w, v, true);
    SeenSplit(REDACTED, HideRuns(v), false);
    SeenSplit(w, v, true);
    CardSeam(w, v);
  }

  lemma CardSeam(w: string, v: string)
    requires IsCard(w) && NoPairs(w + v)
    ensures !Seen(v, 0, true)
  {
    SeenSuffix(w, v, 0, false);
    assert (w + v)[|w| - 1] == w[|w| - 1] && (w + v)[|w| - 2] == w[|w| - 2];
    SeenAnyway(v);
  }

  lemma SeenAnyway(v: string)
    ensures Seen(v, 0, true) ==> v != "" && Seen(v, 0, false)
  {
  }

  lemma {:induction false} CardsHideExactly(u: string)
    requires NoPairs(u)
    ensures HidesExactly(u)
    decreases |u|
  {
    if u == "" {
    } else if !IsWord(u[0]) {
      assert u == [u[0]] + u[1..];
      PairsSuffix([u[0]], u[1..]);
      CardsHideExactly(u[1..]);
      KeptStep([u[0]], u[1..]);
    } else {
      var n := WordRun(u);
      var w, v := u[..n], u[n..];
      assert u == w + v;
      PairsSuffix(w, v);
      CardsHideExactly(v);
      if IsCard(w) { HiddenStep(w, v); } else { KeptStep(w, v); }
    }
  }

  // ----- Masks put no digits before an at sign -----

  lemma MaskPairs(local: string, host: string, a: nat)
    requires local != "" && (forall k :: 0 <= k < |host| ==> In(Domain, host[k]))
    requires In(Local, local[|local| - 1])
    requires 2 <= a < |Masked(local, host)| && Masked(local, host)[a] == '@'
    ensures Masked(local, host)[a - 2] == '*'
  {
    var u := Masked(local, host);
    var n := |u| - |host|;
    assert forall k :: n <= k < |u| ==> u[k] == host[k - n];
  }

  lemma PairsJoin(w: string, t: string)
    requires w != "" && In(Letter, w[|w| - 1]) && NoPairs(t)
    requires forall a :: 2 <= a < |w| && w[a] == '@' ==> w[a - 2] == '*'
    ensures NoPairs(w + t)
  {
    var u := w + t;
    assert u[|w| - 1] == w[|w| - 1];
    forall a: nat | 2 <= a < |u| && Seen(u, a, false) ensures !(IsDigit(u[a - 1]) && IsDigit(u[a - 2])) {
      if a < |w| {
        assert u[a] == w[a] && u[a - 2] == w[a - 2];
      } else if a > |w| + 1 {
        SeenSuffix(w, t, a - |w|, false);
      }
    }
  }

  lemma TakePairs(s: string, i: nat, j: nat)
    requires i < |s| && Match(EMAIL, s, i) == Some(j) && j <= |s| && NoPairs(Rest(s, j))
    ensures NoPairs(Rest(s, i))
  {
    var mask, at := TakeShape(s, i, j);
    var dot := MatchIsHost(s, i, j, at);
    forall a | 2 <= a < |mask| && mask[a] == '@' ensures mask[a - 2] == '*' {
      MaskPairs(s[i..at], s[at + 1..j], a);
    }
    PairsJoin(mask, Rest(s, j));
  }

  lemma MaskPair(s: string, i: nat, j: nat)
    requires i < |s| && Match(EMAIL, s, i) == Some(j)
    ensures |Rest(s, i)| > 1 && Rest(s, i)[1] == '*'
  {
    var mask, at := TakeShape(s, i, j);
    assert (mask + Rest(s, j))[1] == mask[1];
  }

  lemma StarNotSeen(t: string)
    requires |t| > 1 && t[1] == '*'
    ensures !Seen(t, 1, false)
  {
  }

  lemma PlainPair(s: string, i: nat)
    requires i < |s| && Match(EMAIL, s, i).None? && In(Local, s[i])
    ensures !Seen(Rest(s, i), 1, false)
  {
    RestSkips(s, i);
    SkipSeam(s, i, false);
    SeenSuffix([s[i]], Rest(s, i + 1), 0, false);
  }

  lemma RestHead(s: string, i: nat)
    requires i < |s| && Match(EMAIL, s, i).None?
    ensures Rest(s, i) != "" && Rest(s, i)[0] == s[i]
  {
    RestSkips(s, i);
  }

  lemma SkipPair(s: string, i: nat)
    requires i <= |s| && |Rest(s, i)| > 1 && IsDigit(Rest(s, i)[0])
    ensures !Seen(Rest(s, i), 1, false)
  {
    if i == |s| {
      RestEnds(s);
    } else if Match(EMAIL, s, i).Some? {
      MaskPair(s, i, Match(EMAIL, s, i).value);
      StarNotSeen(Rest(s, i));
    } else {
      RestHead(s, i);
      PlainPair(s, i);
    }
  }

  lemma PairsCons(c: char, t: string)
    requires NoPairs(t) && (|t| > 1 && IsDigit(t[0]) ==> !Seen(t, 1, false))
    ensures NoPairs([c] + t)
  {
    var u := [c] + t;
    forall a: nat | 2 <= a < |u| && Seen(u, a, false) ensures !(IsDigit(u[a - 1]) && IsDigit(u[a - 2])) {
      SeenSuffix([c], t, a - 1, false);
    }
  }

  lemma SkipPairs(s: string, i: nat)
    requires i < |s| && Match(EMAIL, s, i).None? && NoPairs(Rest(s, i + 1))
    ensures NoPairs(Rest(s, i))
  {
    RestSkips(s, i);
    if |Rest(s, i + 1)| > 1 && IsDigit(Rest(s, i + 1)[0]) { SkipPair(s, i + 1); }
    PairsCons(s[i], Rest(s, i + 1));
  }

  lemma {:induction false} RestPairs(s: string, i: nat)
    requires i <= |s|
    ensures NoPairs(Rest(s, i))
    decreases |s| - i
  {
    if i == |s| {
      RestEnds(s);
    } else if Match(EMAIL, s, i).Some? {
      var j := MatchGrows(s, i);
      RestPairs(s, j);
      TakePairs(s, i, j);
    } else {
      RestPairs(s, i + 1);
      SkipPairs(s, i);
    }
  }

  // ----- Redacted strings -----

  /** A redacted string contains no address exactly when, for every match of the text, the local part has at most two
      characters or a card run breaks its host, and an at sign with an unbroken host after it starts another match. */
  lemma RedactedCleanExactly(s: string)
    ensures FindAll(EMAIL, Redacted(s), 0) == [] <==>
            forall m :: m in FindAll(EMAIL, s, 0) ==> m.start <= m.end <= |s| && Veiled(s, m, true)
  {
    RestExact(s, 0, true);
    RestPairs(s, 0);
    CardsHideExactly(MaskEmails(s));
    ScannerIsCardRegex(MaskEmails(s));
    NoMatchesNoHits(Redacted(s));
    assert AllVeiled(s, 0, true) <==>
           forall m :: m in FindAll(EMAIL, s, 0) ==> m.start <= m.end <= |s| && Veiled(s, m, true);
  }

  /** Whatever the e-mail pass leaves clean, the card pass keeps clean. */
  lemma CleanStaysClean(s: string)
    requires FindAll(EMAIL, MaskEmails(s), 0) == []
    ensures FindAll(EMAIL, Redacted(s), 0) == []
  {
    var u := MaskEmails(s);
    NoMatchesNoHits(u);
    RestPairs(s, 0);
    CardsHideExactly(u);
    ScannerIsCardRegex(u);
    NoMatchesNoHits(Redacted(s));
    forall a: nat ensures !SeenHit(u, a, true) { assert !SeenHit(u, a, false); }
  }

  // ----- Redacting again -----

  /** A card run of the masked text before its first mask would be one of the text. */
  lemma NoCardBeforeMask(t: string, i: nat, r: string, n: nat, j: nat)
    requires i < |t| && Match(EMAIL, t, i).Some? && (forall k :: 0 <= k < i ==> Match(EMAIL, t, k).None?)
    requires |r| > 1 && r[1] == '*' && n <= i + 1 && IsCardRun(t[..i] + r, n, j)
    ensures IsCardRun(t, n, j)
  {
    var u := t[..i] + r;
    assert u[i + 1] == '*';
    assert forall k :: 0 <= k < i ==> u[k] == t[k];
    if j >= i {
      assert n + 13 <= j <= i + 1;
      assert IsDigit(u[i - 1]) && IsDigit(t[i - 1]);
      AtSignAfter(t, i, Match(EMAIL, t, i).value);
      SameAt(t, i - 1, i);
    }
  }

  lemma MaskStays(t: string, i: nat, r: string)
    requires i < |t| && Match(EMAIL, t, i).Some? && (forall k :: 0 <= k < i ==> Match(EMAIL, t, k).None?)
    requires Clean(t) && |r| > 1 && r[1] == '*'
    ensures |HideCards(t[..i] + r)| > i + 1 && HideCards(t[..i] + r)[i + 1] == '*'
  {
    var u := t[..i] + r;
    var n := UpToFirst(u);
    if n <= i + 1 {
      var j: nat :| IsCardRun(u, n, j);
      NoCardBeforeMask(t, i, r, n, j);
      assert false;
    }
    assert HideCards(u)[..n][i + 1] == u[i + 1];
  }

  /** A string without card runs is left as it is exactly when it contains no address. */
  lemma CleanUnchangedExactly(t: string)
    requires Clean(t)
    ensures Redacted(t) == t <==> FindAll(EMAIL, t, 0) == []
  {
    UnchangedExactly(t);
    CleanMatchesNothing(t);
    if FindAll(EMAIL, t, 0) != [] {
      var m := FirstMatch(t);
      MaskEmailsCopies(t, m.start);
      FirstMasked(t, m.start, m.end);
      MaskStays(t, m.start, Rest(t, m.start));
    }
  }

  /** Redacting a redacted string changes nothing exactly under the condition of RedactedCleanExactly. */
  lemma SecondRedactionExactly(s: string)
    ensures Redacted(Redacted(s)) == Redacted(s) <==>
            forall m :: m in FindAll(EMAIL, s, 0) ==> m.start <= m.end <= |s| && Veiled(s, m, true)
  {
    RedactedHasNoCards(s);
    CleanUnchangedExactly(Redacted(s));
    RedactedCleanExactly(s);
  }

  // ----- What a masked address looks like -----

  /** The mask: two stars, or the first and the last character of the local part around three. */
  function Shown(s: string, i: nat, at: nat): string
    requires i < at <= |s|
  {
    if at - i <= 2 then "**" else [s[i]] + "***" + [s[at - 1]]
  }

  lemma RestAfterLast(s: string, j: nat)
    requires j <= |s| && FindAll(EMAIL, s, j) == []
    ensures Rest(s, j) == s[j..]
  {
  }

  /** If a text has one match, the e-mail pass masks its local part and keeps everything else. */
  lemma SingleMatchMasked(s: string, m: Span) returns (at: nat)
    requires FindAll(EMAIL, s, 0) == [m]
    ensures m.start < at < m.end <= |s| && s[at] == '@' && at == m.start + Run(Local, s, m.start)
    ensures MaskEmails(s) == s[..m.start] + Shown(s, m.start, at) + s[at..]
    ensures Match(EMAIL, s, m.start) == Some(m.end)
    ensures forall k :: 0 <= k < m.start ==> Match(EMAIL, s, k).None?
  {
    var f := FirstMatch(s);
    EmailNeverEmpty();
    FindAllTakes(EMAIL, s, f.start);
    assert FindAll(EMAIL, s, f.start)[0] == m;
    assert FindAll(EMAIL, s, m.end) == FindAll(EMAIL, s, f.start)[1..] == [];
    var mask;
    mask, at := TakeShape(s, m.start, m.end);
    AtSignAfter(s, m.start, m.end);
    MaskEmailsCopies(s, m.start);
    RestAfterLast(s, m.end);
    MaskedText(s, m.start, at, m.end, mask);
  }

  lemma Rejoin(a: string, shown: string, address: string, rest: string)
    ensures a + (shown + address + rest) == a + shown + (address + rest)
  {
  }

  lemma MaskedText(s: string, i: nat, at: nat, j: nat, mask: string)
    requires i < at < j <= |s| && s[at] == '@' && mask == Masked(s[i..at], s[at + 1..j])
    ensures s[..i] + (mask + s[j..]) == s[..i] + Shown(s, i, at) + s[at..]
  {
    var address := ['@'] + s[at + 1..j];
    assert s[at..] == address + s[j..];
    assert mask == Shown(s, i, at) + address;
    Rejoin(s[..i], Shown(s, i, at), address, s[j..]);
  }

  lemma CardRunPrefix(w: string, t: string, i: nat, j: nat)
    requires 0 < i && IsCardRun(t, i, j)
    ensures IsCardRun(w + t, |w| + i, |w| + j)
  {
    var u := w + t;
    assert forall k :: 0 <= k < |t| ==> u[|w| + k] == t[k];
    forall k | |w| + i <= k < |w| + j ensures IsDigit(u[k]) { assert u[k] == t[k - |w|]; }
    assert u[|w| + (i - 1)] == t[i - 1];
  }

  lemma NoCardAfterMask(a: string, b: string, x: string, n: nat, e: nat)
    requires x != "" && x[0] == '@' && |a| < n && IsCardRun(a + x, n, e)
    ensures IsCardRun(b + x, |b| + (n - |a|), |b| + (e - |a|))
  {
    CardRunSuffix(a, x, n, e);
    CardRunPrefix(b, x, n - |a|, e - |a|);
  }

  lemma MaskedClean(s: string, i: nat, at: nat)
    requires Clean(s) && i < at < |s| && s[at] == '@'
    requires Match(EMAIL, s, i).Some? && forall k :: 0 <= k < i ==> Match(EMAIL, s, k).None?
    ensures Clean(s[..i] + Shown(s, i, at) + s[at..])
  {
    var a, x := s[..i] + Shown(s, i, at), s[at..];
    var r := Shown(s, i, at) + x;
    var u := a + x;
    assert u == s[..i] + r && r[1] == '*';
    assert s == s[..at] + x && u[|a|] == x[0];
    forall n: nat, e: nat ensures !IsCardRun(u, n, e) {
      if IsCardRun(u, n, e) {
        if n <= i + 1 {
          NoCardBeforeMask(s, i, r, n, e);
        } else if n > |a| {
          NoCardAfterMask(a, s[..at], x, n, e);
        }
      }
    }
  }

  /** Redaction of a text with one address and no card: the mask stands where the local part was. */
  lemma SingleMatchRedacted(s: string, m: Span) returns (at: nat)
    requires FindAll(EMAIL, s, 0) == [m] && Clean(s)
    ensures m.start < at < m.end <= |s| && s[at] == '@'
    ensures Redacted(s) == s[..m.start] + Shown(s, m.start, at) + s[at..]
  {
    at := SingleMatchMasked(s, m);
    MaskedClean(s, m.start, at);
    CleanMatchesNothing(MaskEmails(s));
  }

  ghost predicate IsLocal(local: string) {
    local != "" && forall k :: 0 <= k < |local| ==> In(Local, local[k])
  }

  lemma WholeHost(s: string, d: nat, host: string, dot: nat)
    requires d <= |s| && s[d..] == host && IsHost(host, dot)
    ensures Run(Domain, s, d) == |host| && HostDown(s, d, |host|) == Some(|s|)
  {
    assert forall k :: d <= k < |s| ==> s[k] == host[k - d];
    RunToEnd(Domain, s, d, |host|);
    RunToEnd(Letter, s, d + dot + 1, |host| - dot - 1);
    HostDownSome(s, d, |host|, dot);
    var p := HostDownFinds(s, d, |host|);
    assert DotEnd(s, d + dot).Some?;
    assert forall k :: d + dot < k < |s| ==> s[k] == host[k - d] != '.';
  }

  lemma WholeAddress(local: string, host: string, dot: nat)
    requires IsLocal(local) && IsHost(host, dot)
    ensures var s := local + "@" + host; FindAll(EMAIL, s, 0) == [Span(0, |s|)]
  {
    var s := local + "@" + host;
    var at := |local|;
    assert s[at] == '@' && s[at + 1..] == host;
    assert forall k :: 0 <= k < at ==> s[k] == local[k];
    RunToEnd(Local, s, 0, at);
    WholeHost(s, at + 1, host, dot);
    EmailMatch(s, 0);
    EmailNeverEmpty();
    FindAllTakes(EMAIL, s, 0);
    MatchNotAtEnd(s);
    assert FindAll(EMAIL, s, |s|) == [];
  }

  /** An address alone is redacted to its mask, unless there is a card run in it. */
  lemma AddressRedacted(local: string, host: string, dot: nat)
    requires IsLocal(local) && IsHost(host, dot) && Clean(local + "@" + host)
    ensures
      Redacted(local + "@" + host) ==
      (if |local| <= 2 then "**@" + host else [local[0]] + "***" + [local[|local| - 1]] + "@" + host)
  {
    var s := local + "@" + host;
    WholeAddress(local, host, dot);
    var at := SingleMatchRedacted(s, Span(0, |s|));
    OneAt(local, host, at);
    assert s[at..] == ['@'] + host;
    assert s[at - 1] == local[|local| - 1] && s[0] == local[0];
  }

  lemma OneAt(local: string, host: string, at: nat)
    requires IsLocal(local) && (forall k :: 0 <= k < |host| ==> In(Domain, host[k]))
    requires at < |local + "@" + host| && (local + "@" + host)[at] == '@'
    ensures at == |local|
  {
    var s := local + "@" + host;
    assert forall k :: 0 <= k < |local| ==> s[k] == local[k] != '@';
    assert forall k :: |local| < k < |s| ==> s[k] == host[k - |local| - 1] != '@';
  }

  // ----- Fields -----

  /** Both results hold of every text field whose name is not secret. */
  lemma FieldCleanExactly(lower: string -> string, key: string, s: string)
    requires !IsSecret(lower(key))
    ensures RedactedField(lower, key, Text(s)).Text?
    ensures
      var t := RedactedField(lower, key, Text(s)).s;
      var veiled := forall m :: m in FindAll(EMAIL, s, 0) ==> m.start <= m.end <= |s| && Veiled(s, m, true);
      && (FindAll(EMAIL, t, 0) == [] <==> veiled)
      && (RedactedField(lower, key, Text(t)) == Text(t) <==> veiled)
  {
    FieldRedacted(lower, key, Text(s));
    FieldRedacted(lower, key, Text(Redacted(s)));
    RedactedCleanExactly(s);
    SecondRedactionExactly(s);
  }
}
