/** What several modules share: optional values, bytes, fixed-size memory pools, rings, and a guard for definitions. */
module Common {

  datatype Option<+T> = None | Some(value: T)

  type Byte = b: nat | b < 256

  /** memb_alloc: the first free block, if any. */
  function FirstFree(used: set<nat>, from: nat, cap: nat): (r: Option<nat>)
    ensures r.Some? ==> r.value < cap && r.value !in used
    ensures r.None? ==> forall i :: from <= i < cap ==> i in used
    decreases cap - from
  {
    if from >= cap then None else if from !in used then Some(from) else FirstFree(used, from + 1, cap)
  }

  /** The loop of memb_alloc. */
  method Alloc(used: set<nat>, cap: nat) returns (r: Option<nat>)
    ensures r == FirstFree(used, 0, cap)
  {
    var i := 0;
    while i < cap
      invariant i <= cap && FirstFree(used, i, cap) == FirstFree(used, 0, cap)
    {
      if i !in used {
        return Some(i);
      }
      i := i + 1;
    }
    return None;
  }

  /** Positions count around a ring of `size`; `i` is less than twice round. */
  function Wrap(i: nat, size: nat): int { if i < size then i else i - size }

  ghost predicate Distinct<T>(s: seq<T>) {
    forall i, j :: 0 <= i < j < |s| ==> s[i] != s[j]
  }

  /** The blocks of a pool of n. */
  ghost function PoolBlocks(n: nat): (r: set<nat>)
    ensures |r| == n && forall i: nat :: i in r <==> i < n
  {
    if n == 0 then {} else PoolBlocks(n - 1) + {n - 1}
  }

  lemma {:induction false} SubsetSize(a: set<nat>, b: set<nat>)
    requires a <= b
    ensures |a| <= |b|
  {
    if a != {} {
      var x :| x in a;
      SubsetSize(a - {x}, b - {x});
    }
  }

  lemma Associate<T>(a: seq<T>, b: seq<T>, c: seq<T>)
    ensures a + b + c == a + (b + c)
  {
  }

  lemma DivisionBounds(x: nat, b: nat, lo: nat, hi: nat)
    requires b > 0 && lo * b <= x < (hi + 1) * b
    ensures lo <= x / b <= hi
  {
    var q := x / b;
    assert q * b <= x < (q + 1) * b;
    NotMore(lo, q + 1, b);
    NotMore(q, hi + 1, b);
  }

  lemma NotMore(a: nat, c: nat, b: nat)
    requires a * b < c * b
    ensures a < c
  {
    assert a * b == c * b + (a - c) * b;
    assert a >= c ==> (a - c) * b >= 0;
  }

  lemma TimesMore(a: nat, x: int, y: int)
    requires x <= y
    ensures a * x <= a * y
  {
    assert a * y == a * x + a * (y - x);
  }

  lemma Regroup(a: int, b: int, c: int)
    ensures a * (b * c) == b * (a * c)
  {
  }

  lemma DivideTwice(n: nat, a: nat, b: nat)
    requires a > 0 && b > 0
    ensures a * b > 0 && n / a / b == n / (a * b)
  {
    var m, d := n / a, a * b;
    TimesMore(a, 1, b);
    var q := m / b;
    assert q * b <= m && m + 1 <= (q + 1) * b;
    TimesMore(a, q * b, m);
    TimesMore(a, m + 1, (q + 1) * b);
    Regroup(a, q, b);
    Regroup(a, q + 1, b);
    assert a * m <= n < a * (m + 1);
    DivisionBounds(n, d, q, q);
  }

  /**
   Always true. A definition stated under this guard is an atom to the verifier until a lemma mentions
   the guard.
   */
  ghost predicate Unfolding(k: int) { true }
}
