/** Small vocabulary shared by the models. */
module Prelude {

  datatype Option<+T> = None | Some(value: T)

  datatype Result<+T> = Ok(value: T) | Rejected

  /** A Unicode code point. A decoded answer may hold any of them, lone surrogates too. */
  type Letter = n: int | 0 <= n < 0x11_0000

  type Text = seq<Letter>

  /** The code points of a string literal. */
  function Spelled(s: string): Text {
    seq(|s|, k requires 0 <= k < |s| => s[k] as int)
  }

  /** The largest clock reading, cursor or call index that is read back from outside. */
  const LIMIT := 1_000_000_000

  function Abs(x: int): nat {
    if x < 0 then -x else x
  }

  function Min(a: int, b: int): int {
    if a <= b then a else b
  }

  /** The length of a shortest walk between two cells of an open grid. */
  function Manhattan(a: (int, int), b: (int, int)): nat {
    Abs(a.0 - b.0) + Abs(a.1 - b.1)
  }

  /** The last `k` elements, or all of them. */
  function LastOf<T>(s: seq<T>, k: nat): seq<T> {
    if |s| > k then s[|s| - k..] else s
  }

  /** The numbers below `n`. */
  function Numbers(n: nat): (numbers: set<nat>)
    ensures |numbers| == n && forall i :: i in numbers <==> 0 <= i < n
  {
    if n == 0 then {} else Numbers(n - 1) + {n - 1}
  }

  lemma {:induction false} SubsetOfSameSize<T>(a: set<T>, b: set<T>)
    requires a <= b && |a| == |b|
    ensures a == b
  {
    assert b == a + (b - a);
  }

  lemma {:induction false} NothingLeftOver<T>(a: set<T>, b: set<T>)
    ensures a - b == {} <==> a <= b
  {
    if a - b == {} {
      assert forall x :: x in a && x !in b ==> x in a - b;
    }
  }

  predicate Distinct<T(==)>(s: seq<T>) {
    forall i, j :: 0 <= i < j < |s| ==> s[i] != s[j]
  }

  function Elements<T>(s: seq<T>): set<T> {
    set x | x in s
  }

  lemma {:induction false} DistinctSize<T>(s: seq<T>)
    requires Distinct(s)
    ensures |Elements(s)| == |s|
  {
    if s != [] {
      var last := |s| - 1;
      DistinctSize(s[..last]);
      assert Elements(s) == Elements(s[..last]) + {s[last]};
    }
  }

  /** A shuffled list of the numbers below `n`. */
  predicate Permutation(order: seq<nat>, n: nat) {
    |order| == n && Distinct(order) && forall i :: 0 <= i < n ==> order[i] < n
  }

  /** As many distinct numbers below a bound as the bound itself leave none out. */
  lemma {:induction false} PermutationHas(order: seq<nat>, n: nat, v: nat)
    requires Permutation(order, n) && v < n
    ensures v in order
  {
    DistinctSize(order);
    SubsetOfSameSize(Elements(order), Numbers(n));
    assert v in Elements(order);
  }

  /** How many elements of `s` satisfy `f`. */
  ghost function CountWhere<T>(s: seq<T>, f: T -> bool): nat {
    if s == [] then 0
    else CountWhere(s[..|s| - 1], f) + if f(s[|s| - 1]) then 1 else 0
  }

  /** Division with remainder has one answer. */
  lemma {:induction false} RemainderIsUnique(x: int, n: int, q: int, r: int)
    requires n > 0 && x == n * q + r && 0 <= r < n
    ensures x / n == q && x % n == r
  {
    var d := q - x / n;
    assert n * d == x % n - r;
    assert d >= 1 ==> n * d >= n;
    assert d <= -1 ==> n * d <= -n;
  }

  lemma {:induction false} QuotientBefore(k: int, n: int, q: int, r: int)
    requires k == n * q + r && 0 <= r < n
    ensures (k - 1) / n == if r == 0 then q - 1 else q
  {
    if r == 0 {
      assert n * (q - 1) == n * q - n;
      RemainderIsUnique(k - 1, n, q - 1, n - 1);
    } else {
      RemainderIsUnique(k - 1, n, q, r - 1);
    }
  }

  lemma {:induction false} ConcatAssociates<T>(a: seq<T>, b: seq<T>, c: seq<T>)
    ensures (a + b) + c == a + (b + c)
  {
    assert (a + b) + c == a + (b + c);
  }
}
