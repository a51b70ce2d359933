/** Uniform selection from a raw generator (wsn/common/random-helpers.c). */
module RandomHelpers {

  /** Contiki's RANDOM_RAND_MAX; raw draws are 0..RAND_MAX inclusive. */
  const RAND_MAX := 65535

  datatype Draw = Exhausted | Drawn(value: nat, used: nat)

  /** The raw values that the rejection loop accepts for a range of size n. */
  predicate Accepted(x: nat, n: nat)
    requires n > 0
  {
    x < RAND_MAX - RAND_MAX % n
  }

  /**
   random_in_range_unbiased over a finite supply of raw draws: it uses the first accepted one.
   The range 0..65535 is excluded, where the 16-bit size wraps to zero.
   */
  method InRangeUnbiased(min: nat, max: nat, draws: seq<nat>) returns (r: Draw)
    requires min <= max < 65536 && max - min < 65535
    ensures r.Exhausted? <==> forall k :: 0 <= k < |draws| ==> !Accepted(draws[k], max - min + 1)
    ensures r.Drawn? ==>
              && 0 < r.used <= |draws| && Accepted(draws[r.used - 1], max - min + 1)
              && (forall k :: 0 <= k < r.used - 1 ==> !Accepted(draws[k], max - min + 1))
              && r.value == min + draws[r.used - 1] % (max - min + 1) && min <= r.value <= max
  {
    var n := max - min + 1;
    var remainder := RAND_MAX % n;
    var i := 0;
    while i < |draws|
      invariant i <= |draws| && forall k :: 0 <= k < i ==> !Accepted(draws[k], n)
    {
      var x := draws[i];
      i := i + 1;
      if !(x >= RAND_MAX - remainder) {
        return Drawn(min + x % n, i);
      }
    }
    return Exhausted;
  }

  /** How many x below `bound` have residue `i` modulo n. */
  ghost function Residues(bound: nat, n: nat, i: nat): nat
    requires n > 0
  {
    if bound == 0 then 0 else Residues(bound - 1, n, i) + (if (bound - 1) % n == i then 1 else 0)
  }

  lemma {:induction false} ResiduesWithin(base: nat, k: nat, n: nat, i: nat)
    requires 0 < n && i < n && k <= n && base % n == 0
    ensures Residues(base + k, n, i) == Residues(base, n, i) + (if i < k then 1 else 0)
    decreases k
  {
    if k > 0 {
      ResiduesWithin(base, k - 1, n, i);
      AddSmall(base, k - 1, n);
    }
  }

  lemma AddSmall(base: nat, j: nat, n: nat)
    requires 0 < n && j < n && base % n == 0
    ensures (base + j) % n == j
  {
    var q := base / n;
    assert base + j == q * n + j;
    DivisionUnique(base + j, n, q, j);
  }

  lemma AtLeastOnce(k: int, n: nat)
    requires k >= 1
    ensures k * n >= n
  {
    assert k * n == (k - 1) * n + n;
    assert (k - 1) * n >= 0;
  }

  lemma Difference(a: int, b: int, n: nat)
    ensures a * n - b * n == (a - b) * n
  {
  }

  lemma DivisionUnique(x: nat, n: nat, q: nat, r: nat)
    requires 0 < n && r < n && x == q * n + r
    ensures x % n == r && x / n == q
  {
    var q' := x / n;
    assert x == q' * n + x % n;
    QuotientsEqual(n, q, r, q', x % n);
  }

  lemma QuotientsEqual(n: nat, q: nat, r: nat, q': nat, r': nat)
    requires 0 < n && r < n && r' < n && q * n + r == q' * n + r'
    ensures q == q' && r == r'
  {
    Difference(q, q', n);
    Difference(q', q, n);
    if q' < q {
      AtLeastOnce(q - q', n);
      assert false;
    } else if q < q' {
      AtLeastOnce(q' - q, n);
      assert false;
    }
  }

  lemma {:induction false} ResiduesOfMultiple(q: nat, n: nat, i: nat)
    requires 0 < n && i < n
    ensures q * n >= 0 && Residues(q * n, n, i) == q
    decreases q
  {
    if q > 0 {
      ResiduesOfMultiple(q - 1, n, i);
      Difference(q, 1, n);
      OneMore((q - 1) * n, q - 1, n, i);
    }
  }

  /** One more block of n consecutive numbers contains each residue once. */
  lemma OneMore(base: nat, q: nat, n: nat, i: nat)
    requires 0 < n && i < n && base == q * n
    ensures Residues(base + n, n, i) == Residues(base, n, i) + 1
  {
    DivisionUnique(base, n, q, 0);
    ResiduesWithin(base, n, n, i);
  }

  /** No bias: every value of the range is drawn by the same number, RAND_MAX / n, of accepted raw values. */
  lemma Unbiased(n: nat, i: nat)
    requires 0 < n && i < n
    ensures Residues(RAND_MAX - RAND_MAX % n, n, i) == RAND_MAX / n
  {
    var q := RAND_MAX / n;
    assert RAND_MAX - RAND_MAX % n == q * n;
    ResiduesOfMultiple(q, n, i);
  }
}
