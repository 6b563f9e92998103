/** Small value types and counting lemmas shared by the models. */
module Wrappers {
  datatype Option<+T> = None | Some(value: T)

  function Min(a: int, b: int): int { if a <= b then a else b }

  function Max(a: int, b: int): int { if a >= b then a else b }

  // ----- Sums over finite sets of naturals -----

  ghost function SumOver(s: set<nat>, f: nat -> nat): nat {
    if s == {} then 0 else var x :| x in s; f(x) + SumOver(s - {x}, f)
  }

  /** The sum does not depend on the order in which the elements are taken. */
  lemma {:induction false} SumSplit(s: set<nat>, f: nat -> nat, y: nat)
    requires y in s
    ensures SumOver(s, f) == f(y) + SumOver(s - {y}, f)
    decreases |s|
  {
    var x :| x in s && SumOver(s, f) == f(x) + SumOver(s - {x}, f);
    if x != y {
      SumSplit(s - {x}, f, y);
      SumSplit(s - {y}, f, x);
      assert s - {x} - {y} == s - {y} - {x};
    }
  }

  lemma {:induction false} SumCongruent(s: set<nat>, f: nat -> nat, g: nat -> nat)
    requires forall x :: x in s ==> f(x) == g(x)
    ensures SumOver(s, f) == SumOver(s, g)
    decreases |s|
  {
    if s != {} {
      var x :| x in s;
      SumSplit(s, f, x);
      SumSplit(s, g, x);
      SumCongruent(s - {x}, f, g);
    }
  }

  lemma {:induction false} SumBounded(s: set<nat>, f: nat -> nat, k: nat)
    requires forall x :: x in s ==> f(x) <= k
    ensures SumOver(s, f) <= |s| * k
    decreases |s|
  {
    if s != {} {
      var x :| x in s;
      SumSplit(s, f, x);
      SumBounded(s - {x}, f, k);
      assert |s| * k == (|s| - 1) * k + k;
    }
  }

  /** A bag whose elements come from a finite set, each at most k times, has at most |s| * k elements. */
  lemma {:induction false} BagBounded(m: multiset<nat>, s: set<nat>, k: nat)
    requires forall x :: x in m ==> x in s && m[x] <= k
    ensures |m| <= |s| * k
    decreases |s|
  {
    if s == {} {
      assert m == multiset{};
    } else {
      var x :| x in s;
      var rest := m[x := 0];
      BagBounded(rest, s - {x}, k);
      assert m == rest[x := m[x]];
      assert |s| * k == (|s| - 1) * k + k;
    }
  }

  lemma SumDrops(s: set<nat>, f: nat -> nat, g: nat -> nat, y: nat)
    requires y in s && g(y) + 1 <= f(y) && forall x :: x in s && x != y ==> g(x) == f(x)
    ensures SumOver(s, g) + 1 <= SumOver(s, f)
  {
    SumSplit(s, f, y);
    SumSplit(s, g, y);
    SumCongruent(s - {y}, f, g);
  }

  lemma ConcatHead<T>(a: seq<T>, b: seq<T>)
    requires a != []
    ensures a + b != [] && (a + b)[0] == a[0] && (a + b)[1..] == a[1..] + b
  {
  }
}
