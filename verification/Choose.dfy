/** The edge choice policies (wsn/common/trust/choose): which edge a task is submitted to. */
module Choose {
  import opened Common
  import opened RealSums
  import opened RandomHelpers
  import opened EdgeTable
  import opened Offload

  /** calculate_trust_value for an edge and one of its capabilities. */
  type Trust = (Edge, Cap) -> real

  /** The trust of an edge that offers the capability. */
  function TrustIn(trust: Trust, e: Edge, name: string): real {
    if Offers(e, name) then trust(e, e.caps[FindCap(e.caps, name).value]) else 0.0
  }

  /** The positions below `to`, in list order, of the edges that offer the capability. */
  function EligibleUpTo(edges: seq<Edge>, name: string, to: nat): seq<nat>
    requires to <= |edges|
  {
    if to == 0 then []
    else EligibleUpTo(edges, name, to - 1) + (if Offers(edges[to - 1], name) then [to - 1] else [])
  }

  /** The eligible edges, as positions in list order. */
  function Eligible(edges: seq<Edge>, name: string): seq<nat> {
    EligibleUpTo(edges, name, |edges|)
  }

  ghost predicate Increasing(s: seq<nat>) {
    forall a, b :: 0 <= a < b < |s| ==> s[a] < s[b]
  }

  lemma {:induction false} EligibleExact(edges: seq<Edge>, name: string, to: nat)
    requires to <= |edges|
    ensures |EligibleUpTo(edges, name, to)| <= to
    ensures forall i :: i in EligibleUpTo(edges, name, to) <==> 0 <= i < to && Offers(edges[i], name)
    ensures Increasing(EligibleUpTo(edges, name, to))
  {
    if to > 0 {
      EligibleExact(edges, name, to - 1);
      if Offers(edges[to - 1], name) {
        IncreasingSnoc(EligibleUpTo(edges, name, to - 1), to - 1);
      }
    }
  }

  lemma IncreasingSnoc(s: seq<nat>, x: nat)
    requires Increasing(s) && forall i :: i in s ==> i < x
    ensures Increasing(s + [x])
  {
    forall a | 0 <= a < |s|
      ensures s[a] < x
    {
      assert s[a] in s;
    }
  }

  /** A running application always has an edge to choose. */
  lemma RunningHasEligible(u: Setup, w: World, name: string)
    requires WorldOk(u, w) && name in w.running && w.running[name]
    ensures Eligible(w.table.edges, name) != []
  {
    var i :| 0 <= i < |w.table.edges| && Offers(w.table.edges[i], name);
    EligibleExact(w.table.edges, name, |w.table.edges|);
    assert i in Eligible(w.table.edges, name);
  }

  // ---------------------------------------------------------------------------
  // fcfs and highest.
  // ---------------------------------------------------------------------------

  /** First come, first served: the first eligible edge. */
  method ChooseFirst(edges: seq<Edge>, name: string) returns (r: Option<nat>)
    ensures r.None? <==> Eligible(edges, name) == []
    ensures r.Some? ==>
              && r.value < |edges| && Offers(edges[r.value], name)
              && forall k :: 0 <= k < r.value ==> !Offers(edges[k], name)
  {
    for i := 0 to |edges|
      invariant forall k :: 0 <= k < i ==> !Offers(edges[k], name)
    {
      if Offers(edges[i], name) {
        FoundIffEligible(edges, name, Some(i));
        return Some(i);
      }
    }
    FoundIffEligible(edges, name, None);
    return None;
  }

  ghost predicate TrustNonNegative(edges: seq<Edge>, name: string, trust: Trust) {
    forall i :: 0 <= i < |edges| ==> TrustIn(trust, edges[i], name) >= 0.0
  }

  /** The eligible edge with the highest trust above -1, the first of them on a tie. */
  method ChooseHighest(edges: seq<Edge>, name: string, trust: Trust) returns (r: Option<nat>)
    ensures r.None? <==> forall i :: 0 <= i < |edges| && Offers(edges[i], name) ==> TrustIn(trust, edges[i], name) <= -1.0
    ensures TrustNonNegative(edges, name, trust) ==> (r.None? <==> Eligible(edges, name) == [])
    ensures r.Some? ==> r.value < |edges| && Offers(edges[r.value], name)
    ensures r.Some? ==> forall i :: 0 <= i < |edges| && Offers(edges[i], name) ==>
              && TrustIn(trust, edges[i], name) <= TrustIn(trust, edges[r.value], name)
              && (i < r.value ==> TrustIn(trust, edges[i], name) < TrustIn(trust, edges[r.value], name))
  {
    r := None;
    var best := -1.0;
    for i := 0 to |edges|
      invariant r.None? ==> best == -1.0
      invariant r.None? ==> forall k :: 0 <= k < i && Offers(edges[k], name) ==> TrustIn(trust, edges[k], name) <= -1.0
      invariant r.Some? ==> r.value < i && Offers(edges[r.value], name)
      invariant r.Some? ==> best == TrustIn(trust, edges[r.value], name) && best > -1.0
      invariant r.Some? ==> forall k :: 0 <= k < i && Offers(edges[k], name) ==>
                  && TrustIn(trust, edges[k], name) <= best
                  && (k < r.value ==> TrustIn(trust, edges[k], name) < best)
    {
      if Offers(edges[i], name) {
        var t := TrustIn(trust, edges[i], name);
        if t > best {
          r, best := Some(i), t;
        }
      }
    }
    if TrustNonNegative(edges, name, trust) {
      FoundIffEligible(edges, name, r);
    }
  }

  lemma FoundIffEligible(edges: seq<Edge>, name: string, r: Option<nat>)
    requires r.Some? ==> r.value < |edges| && Offers(edges[r.value], name)
    requires r.None? ==> forall k :: 0 <= k < |edges| ==> !Offers(edges[k], name)
    ensures r.None? <==> Eligible(edges, name) == []
  {
    EligibleExact(edges, name, |edges|);
    var c := Eligible(edges, name);
    if c != [] {
      assert c[0] in c;
    }
    if r.Some? {
      assert r.value in c;
    }
  }

  // ---------------------------------------------------------------------------
  // random: an array without a bounds check.
  // ---------------------------------------------------------------------------

  /** Fills the candidate array; it cannot overflow because the edge list is no longer than its pool. */
  method Collect(cfg: Config, t: Table, name: string, candidates: array<nat>) returns (len: nat)
    requires TableOk(cfg, t) && candidates.Length == cfg.numEdges
    modifies candidates
    ensures len <= candidates.Length && candidates[..len] == Eligible(t.edges, name)
  {
    EdgeListBound(cfg, t);
    len := 0;
    for i := 0 to |t.edges|
      invariant len <= i && candidates[..len] == EligibleUpTo(t.edges, name, i)
    {
      if Offers(t.edges[i], name) {
        candidates[len] := i;
        len := len + 1;
      }
    }
  }

  method ChooseRandom(cfg: Config, t: Table, name: string, draws: seq<nat>) returns (r: Option<nat>, drawn: Draw)
    requires TableOk(cfg, t) && cfg.numEdges < 65536
    ensures Eligible(t.edges, name) == [] ==> r.None?
    ensures Eligible(t.edges, name) != [] && drawn.Drawn? ==> Picked(Eligible(t.edges, name), draws, drawn, r)
    ensures Eligible(t.edges, name) != [] && drawn.Exhausted? ==> NoneAccepted(Eligible(t.edges, name), draws)
  {
    var candidates := new nat[cfg.numEdges];
    var len := Collect(cfg, t, name, candidates);
    r, drawn := PickUniform(candidates, len, draws);
  }

  // ---------------------------------------------------------------------------
  // banded: the edges within a band below the highest trust.
  // ---------------------------------------------------------------------------

  const BAND_SIZE := 0.25

  /** The entries of `idx` whose value is at least `floor`, in order. */
  function AtLeast(idx: seq<nat>, values: seq<real>, floor: real): (r: seq<nat>)
    requires |values| == |idx|
    ensures |r| <= |idx|
  {
    if |idx| == 0 then []
    else
      var k := |idx| - 1;
      AtLeast(idx[..k], values[..k], floor) + (if values[k] >= floor then [idx[k]] else [])
  }

  function MaxFrom(values: seq<real>, start: real): (m: real)
    ensures m >= start && forall k :: 0 <= k < |values| ==> values[k] <= m
    ensures m == start || m in values
  {
    if |values| == 0 then start
    else
      var k := |values| - 1;
      var rest := MaxFrom(values[..k], start);
      if values[k] > rest then values[k] else rest
  }

  /** The compaction loop, in place. */
  method Compact(candidates: array<nat>, values: array<real>, len: nat, floor: real) returns (kept: nat)
    requires len <= candidates.Length == values.Length
    modifies candidates, values
    ensures kept <= len
    ensures candidates[..kept] == AtLeast(old(candidates[..len]), old(values[..len]), floor)
  {
    ghost var c, v := candidates[..len], values[..len];
    kept := 0;
    for i := 0 to len
      invariant kept <= i
      invariant candidates[..kept] == AtLeast(c[..i], v[..i], floor)
      invariant forall k :: i <= k < len ==> candidates[k] == c[k] && values[k] == v[k]
    {
      AtLeastNext(c, v, floor, i);
      if values[i] >= floor {
        MoveDown(candidates, kept, i);
        MoveDown(values, kept, i);
        kept := kept + 1;
      }
    }
    assert c[..len] == c && v[..len] == v;
  }

  /** One element of an array moves to the end of the part that is kept. */
  method MoveDown<T>(a: array<T>, kept: nat, i: nat)
    requires kept <= i < a.Length
    modifies a
    ensures a[..kept + 1] == old(a[..kept]) + [old(a[i])]
    ensures forall k :: i < k < a.Length ==> a[k] == old(a[k])
  {
    a[kept] := a[i];
  }

  lemma AtLeastNext(c: seq<nat>, v: seq<real>, floor: real, i: nat)
    requires |c| == |v| && i < |c|
    ensures AtLeast(c[..i + 1], v[..i + 1], floor) ==
            if v[i] >= floor then AtLeast(c[..i], v[..i], floor) + [c[i]] else AtLeast(c[..i], v[..i], floor)
  {
    assert c[..i + 1][..i] == c[..i] && v[..i + 1][..i] == v[..i];
  }

  /** What the filter keeps, said without the algorithm: exactly the in-band entries, in order. */
  lemma {:induction false} AtLeastExact(idx: seq<nat>, values: seq<real>, floor: real)
    requires |values| == |idx|
    ensures forall x :: x in AtLeast(idx, values, floor) <==> exists k :: 0 <= k < |idx| && idx[k] == x && values[k] >= floor
  {
    if |idx| > 0 {
      var k := |idx| - 1;
      AtLeastExact(idx[..k], values[..k], floor);
      var r := AtLeast(idx[..k], values[..k], floor);
      forall x
        ensures x in AtLeast(idx, values, floor) <==> exists j :: 0 <= j < |idx| && idx[j] == x && values[j] >= floor
      {
        AtLeastMember(idx, values, floor, k, x);
      }
    }
  }

  lemma AtLeastMember(idx: seq<nat>, values: seq<real>, floor: real, k: nat, x: int)
    requires |values| == |idx| == k + 1
    requires x in AtLeast(idx[..k], values[..k], floor) <==>
               exists j :: 0 <= j < k && idx[..k][j] == x && values[..k][j] >= floor
    ensures x in AtLeast(idx, values, floor) <==> exists j :: 0 <= j <= k && idx[j] == x && values[j] >= floor
  {
    if x in AtLeast(idx[..k], values[..k], floor) {
      var j :| 0 <= j < k && idx[..k][j] == x && values[..k][j] >= floor;
      assert idx[j] == x && values[j] >= floor;
    }
    if exists j :: 0 <= j <= k && idx[j] == x && values[j] >= floor {
      var j :| 0 <= j <= k && idx[j] == x && values[j] >= floor;
      if j < k {
        assert idx[..k][j] == x && values[..k][j] >= floor;
      }
    }
  }

  lemma {:induction false} AtLeastIncreasing(idx: seq<nat>, values: seq<real>, floor: real)
    requires |values| == |idx| && Increasing(idx)
    ensures Increasing(AtLeast(idx, values, floor))
  {
    if |idx| > 0 {
      var k := |idx| - 1;
      AtLeastIncreasing(idx[..k], values[..k], floor);
      AtLeastExact(idx[..k], values[..k], floor);
      var r := AtLeast(idx[..k], values[..k], floor);
      forall a | 0 <= a < |r|
        ensures r[a] < idx[k]
      {
        assert r[a] in r;
      }
    }
  }

  /** The trust of each eligible edge below `to`, in list order. */
  function ScoresUpTo(edges: seq<Edge>, name: string, trust: Trust, to: nat): seq<real>
    requires to <= |edges|
  {
    if to == 0 then []
    else
      ScoresUpTo(edges, name, trust, to - 1) +
      (if Offers(edges[to - 1], name) then [TrustIn(trust, edges[to - 1], name)] else [])
  }

  function Scores(edges: seq<Edge>, name: string, trust: Trust): seq<real> {
    ScoresUpTo(edges, name, trust, |edges|)
  }

  lemma {:induction false} ScoresExact(edges: seq<Edge>, name: string, trust: Trust, to: nat)
    requires to <= |edges|
    ensures |ScoresUpTo(edges, name, trust, to)| == |EligibleUpTo(edges, name, to)|
    ensures forall k :: 0 <= k < |ScoresUpTo(edges, name, trust, to)| ==>
              && EligibleUpTo(edges, name, to)[k] < |edges|
              && ScoresUpTo(edges, name, trust, to)[k] == TrustIn(trust, edges[EligibleUpTo(edges, name, to)[k]], name)
  {
    if to > 0 {
      ScoresExact(edges, name, trust, to - 1);
    }
  }

  /** The loop that both the banded and the proportional policy start with. */
  method CollectTrust(
    cfg: Config, t: Table, name: string, trust: Trust, candidates: array<nat>, values: array<real>)
    returns (len: nat, highest: real, sum: real)
    requires TableOk(cfg, t) && candidates.Length == values.Length == cfg.numEdges
    modifies candidates, values
    ensures len <= cfg.numEdges && candidates[..len] == Eligible(t.edges, name)
    ensures values[..len] == Scores(t.edges, name, trust)
    ensures highest == MaxFrom(values[..len], 0.0)
    ensures sum == Sum(values[..len])
  {
    EdgeListBound(cfg, t);
    len, highest, sum := 0, 0.0, 0.0;
    for i := 0 to |t.edges|
      invariant len <= i && candidates[..len] == EligibleUpTo(t.edges, name, i)
      invariant values[..len] == ScoresUpTo(t.edges, name, trust, i)
      invariant highest == MaxFrom(values[..len], 0.0) && sum == Sum(values[..len])
    {
      if Offers(t.edges[i], name) {
        var v := TrustIn(trust, t.edges[i], name);
        MaxSnoc(values[..len], v);
        SumSnoc(values[..len], v);
        Append(candidates, len, i);
        Append(values, len, v);
        highest, sum := if v > highest then v else highest, sum + v;
        len := len + 1;
      }
    }
  }

  method Append<T>(a: array<T>, len: nat, x: T)
    requires len < a.Length
    modifies a
    ensures a[..len + 1] == old(a[..len]) + [x]
  {
    a[len] := x;
  }

  lemma MaxSnoc(values: seq<real>, v: real)
    ensures MaxFrom(values + [v], 0.0) == if v > MaxFrom(values, 0.0) then v else MaxFrom(values, 0.0)
  {
    assert (values + [v])[..|values|] == values;
  }

  /** The candidates whose trust is within BAND_SIZE of the highest. */
  function BandOf(idx: seq<nat>, values: seq<real>): seq<nat>
    requires |values| == |idx|
  {
    AtLeast(idx, values, MaxFrom(values, 0.0) - BAND_SIZE)
  }

  /** The banded selection, as a function of the table. */
  function Band(edges: seq<Edge>, name: string, trust: Trust): seq<nat> {
    ScoresExact(edges, name, trust, |edges|);
    BandOf(Eligible(edges, name), Scores(edges, name, trust))
  }

  method ChooseBanded(cfg: Config, t: Table, name: string, trust: Trust, draws: seq<nat>)
    returns (r: Option<nat>, drawn: Draw)
    requires TableOk(cfg, t) && cfg.numEdges < 256
    ensures Band(t.edges, name, trust) == [] ==> r.None?
    ensures Band(t.edges, name, trust) != [] && drawn.Drawn? ==> Picked(Band(t.edges, name, trust), draws, drawn, r)
    ensures Band(t.edges, name, trust) != [] && drawn.Exhausted? ==> NoneAccepted(Band(t.edges, name, trust), draws)
  {
    var candidates := new nat[cfg.numEdges];
    var values := new real[cfg.numEdges];
    var len, highest, _ := CollectTrust(cfg, t, name, trust, candidates, values);
    var kept := Compact(candidates, values, len, highest - BAND_SIZE);
    r, drawn := PickUniform(candidates, kept, draws);
  }

  /** What choosing from `c` returns for the raw value x; nothing for a rejected one, which is drawn again. */
  function Returned(c: seq<nat>, x: nat): Option<nat>
    requires |c| > 0
  {
    if Accepted(x, |c|) then Some(c[x % |c|]) else None
  }

  /** The result is that of the first accepted draw. */
  ghost predicate Picked(c: seq<nat>, draws: seq<nat>, drawn: Draw, r: Option<nat>) {
    && drawn.Drawn? && |c| > 0 && 0 < drawn.used <= |draws|
    && r.Some? && r == Returned(c, draws[drawn.used - 1])
    && forall k :: 0 <= k < drawn.used - 1 ==> Returned(c, draws[k]).None?
  }

  /** No edge is returned from a non-empty selection only if the supply of draws has no acceptable one. */
  ghost predicate NoneAccepted(c: seq<nat>, draws: seq<nat>) {
    |c| > 0 && forall k :: 0 <= k < |draws| ==> Returned(c, draws[k]).None?
  }

  /** For how many raw values below `bound` the choice from `c` returns e. */
  ghost function RawsFor(c: seq<nat>, e: nat, bound: nat): nat
    requires |c| > 0
  {
    if bound == 0 then 0 else RawsFor(c, e, bound - 1) + (if Returned(c, bound - 1) == Some(e) then 1 else 0)
  }

  /** Distinct entries are returned for exactly the accepted raw values of their own residue. */
  lemma {:induction false} RawsAreResidues(c: seq<nat>, i: nat, limit: nat, bound: nat)
    requires Increasing(c) && i < |c| && limit == RAND_MAX - RAND_MAX % |c|
    ensures RawsFor(c, c[i], bound) == Residues(if bound < limit then bound else limit, |c|, i)
    decreases bound
  {
    if bound > 0 {
      RawsAreResidues(c, i, limit, bound - 1);
      ReturnedIs(c, i, limit, bound - 1);
    }
  }

  lemma ReturnedIs(c: seq<nat>, i: nat, limit: nat, x: nat)
    requires Increasing(c) && i < |c| && limit == RAND_MAX - RAND_MAX % |c|
    ensures Returned(c, x) == Some(c[i]) <==> x < limit && x % |c| == i
  {
    var j := x % |c|;
    assert j < i ==> c[j] < c[i];
    assert i < j ==> c[i] < c[j];
  }

  /** Of the raw values, which are those below `raw`, each entry is returned for exactly RAND_MAX / |c|. */
  lemma UniformChoice(c: seq<nat>, e: nat, raw: nat)
    requires Increasing(c) && e in c && raw == RAND_MAX + 1
    ensures RawsFor(c, e, raw) == RAND_MAX / |c|
  {
    var i :| 0 <= i < |c| && c[i] == e;
    RawsAreResidues(c, i, RAND_MAX - RAND_MAX % |c|, raw);
    Unbiased(|c|, i);
  }

  /** The random policy returns every eligible edge for equally many raw values. */
  lemma RandomIsUniform(edges: seq<Edge>, name: string, e: nat, raw: nat)
    requires e in Eligible(edges, name) && raw == RAND_MAX + 1
    ensures RawsFor(Eligible(edges, name), e, raw) == RAND_MAX / |Eligible(edges, name)|
  {
    EligibleExact(edges, name, |edges|);
    UniformChoice(Eligible(edges, name), e, raw);
  }

  /** The banded policy returns every edge of the band for equally many raw values. */
  lemma BandIsUniform(edges: seq<Edge>, name: string, trust: Trust, e: nat, raw: nat)
    requires e in Band(edges, name, trust) && raw == RAND_MAX + 1
    ensures RawsFor(Band(edges, name, trust), e, raw) == RAND_MAX / |Band(edges, name, trust)|
  {
    BandIncreasing(edges, name, trust);
    UniformChoice(Band(edges, name, trust), e, raw);
  }

  lemma BandIncreasing(edges: seq<Edge>, name: string, trust: Trust)
    ensures Increasing(Band(edges, name, trust))
  {
    var values := Scores(edges, name, trust);
    CandidatesFound(edges, name, trust);
    AtLeastIncreasing(Eligible(edges, name), values, MaxFrom(values, 0.0) - BAND_SIZE);
  }

  method PickUniform(candidates: array<nat>, len: nat, draws: seq<nat>) returns (r: Option<nat>, drawn: Draw)
    requires len <= candidates.Length && len < 65536
    ensures len == 0 ==> r.None?
    ensures len > 0 && drawn.Drawn? ==> Picked(candidates[..len], draws, drawn, r)
    ensures len > 0 && drawn.Exhausted? ==> r.None? && NoneAccepted(candidates[..len], draws)
  {
    r, drawn := None, Exhausted;
    if len > 0 {
      drawn := InRangeUnbiased(0, len - 1, draws);
      if drawn.Drawn? {
        r := Some(candidates[drawn.value]);
      }
    }
  }

  /**
   For non-negative trust the band is exactly the eligible edges within BAND_SIZE of every other
   eligible edge's trust, in list order, and it is empty only if nothing is eligible.
   */
  lemma BandIsTopBand(edges: seq<Edge>, name: string, trust: Trust)
    requires TrustNonNegative(edges, name, trust)
    ensures forall i :: i in Band(edges, name, trust) <==> InTopBand(edges, name, trust, i)
    ensures Increasing(Band(edges, name, trust))
    ensures Band(edges, name, trust) == [] <==> Eligible(edges, name) == []
  {
    CandidatesFound(edges, name, trust);
    BandIncreasing(edges, name, trust);
    TopBandOf(edges, name, trust, Eligible(edges, name), Scores(edges, name, trust));
  }

  lemma TopBandOf(edges: seq<Edge>, name: string, trust: Trust, idx: seq<nat>, values: seq<real>)
    requires Candidates(edges, name, trust, idx, values) && NonNegative(values)
    ensures forall i :: i in BandOf(idx, values) <==> InTopBand(edges, name, trust, i)
    ensures BandOf(idx, values) == [] <==> idx == []
  {
    if idx == [] {
      NothingInBand(edges, name, trust, idx, values);
    } else {
      var m := TopIsReached(values);
      KeepsEntry(idx, values, MaxFrom(values, 0.0) - BAND_SIZE, m);
      forall i
        ensures i in BandOf(idx, values) <==> InTopBand(edges, name, trust, i)
      {
        InBand(edges, name, trust, idx, values, m, i);
      }
    }
  }

  /** What the first loop collects, as one fact: the eligible edges in order, each with its trust. */
  ghost predicate Candidates(edges: seq<Edge>, name: string, trust: Trust, idx: seq<nat>, values: seq<real>) {
    && Increasing(idx)
    && (forall j :: j in idx <==> 0 <= j < |edges| && Offers(edges[j], name))
    && |values| == |idx|
    && (forall k :: 0 <= k < |idx| ==> idx[k] < |edges| && values[k] == TrustIn(trust, edges[idx[k]], name))
  }

  lemma CandidatesFound(edges: seq<Edge>, name: string, trust: Trust)
    ensures Candidates(edges, name, trust, Eligible(edges, name), Scores(edges, name, trust))
    ensures TrustNonNegative(edges, name, trust) ==> NonNegative(Scores(edges, name, trust))
  {
    EligibleExact(edges, name, |edges|);
    ScoresExact(edges, name, trust, |edges|);
  }

  lemma KeepsEntry(idx: seq<nat>, values: seq<real>, floor: real, m: nat)
    requires |values| == |idx| && m < |idx| && values[m] >= floor
    ensures idx[m] in AtLeast(idx, values, floor)
  {
    AtLeastExact(idx, values, floor);
  }

  ghost predicate InTopBand(edges: seq<Edge>, name: string, trust: Trust, i: int) {
    && 0 <= i < |edges| && Offers(edges[i], name)
    && forall j :: 0 <= j < |edges| && Offers(edges[j], name) ==>
         TrustIn(trust, edges[i], name) >= TrustIn(trust, edges[j], name) - BAND_SIZE
  }

  lemma NothingInBand(edges: seq<Edge>, name: string, trust: Trust, idx: seq<nat>, values: seq<real>)
    requires idx == [] && Candidates(edges, name, trust, idx, values)
    ensures forall i :: !InTopBand(edges, name, trust, i)
  {
    forall i
      ensures !InTopBand(edges, name, trust, i)
    {
      assert i !in idx;
    }
  }

  /** No eligible edge exceeds the highest trust collected. */
  lemma BelowTop(edges: seq<Edge>, name: string, trust: Trust, idx: seq<nat>, values: seq<real>, j: nat)
    requires Candidates(edges, name, trust, idx, values) && j < |edges| && Offers(edges[j], name)
    ensures TrustIn(trust, edges[j], name) <= MaxFrom(values, 0.0)
  {
    var k := PositionOf(edges, name, trust, idx, values, j);
    assert values[k] <= MaxFrom(values, 0.0);
  }

  lemma KeptIsTop(edges: seq<Edge>, name: string, trust: Trust, idx: seq<nat>, values: seq<real>, i: nat)
    requires Candidates(edges, name, trust, idx, values) && i in BandOf(idx, values)
    ensures InTopBand(edges, name, trust, i)
  {
    AtLeastExact(idx, values, MaxFrom(values, 0.0) - BAND_SIZE);
    var k :| 0 <= k < |idx| && idx[k] == i && values[k] >= MaxFrom(values, 0.0) - BAND_SIZE;
    assert i in idx;
    forall j | 0 <= j < |edges| && Offers(edges[j], name)
      ensures TrustIn(trust, edges[j], name) <= MaxFrom(values, 0.0)
    {
      BelowTop(edges, name, trust, idx, values, j);
    }
  }

  lemma TopIsKept(edges: seq<Edge>, name: string, trust: Trust, idx: seq<nat>, values: seq<real>, m: nat, i: nat)
    requires Candidates(edges, name, trust, idx, values) && InTopBand(edges, name, trust, i)
    requires m < |values| && values[m] == MaxFrom(values, 0.0)
    ensures i in BandOf(idx, values)
  {
    var k := PositionOf(edges, name, trust, idx, values, i);
    WithinBand(edges, name, trust, idx, values, m, k);
    KeptAt(idx, values, m, k);
  }

  lemma KeptAt(idx: seq<nat>, values: seq<real>, m: nat, k: nat)
    requires |values| == |idx| && m < |idx| && k < |idx|
    requires values[m] == MaxFrom(values, 0.0) && values[k] >= values[m] - BAND_SIZE
    ensures idx[k] in BandOf(idx, values)
  {
    KeepsEntry(idx, values, MaxFrom(values, 0.0) - BAND_SIZE, k);
  }

  lemma PositionOf(edges: seq<Edge>, name: string, trust: Trust, idx: seq<nat>, values: seq<real>, i: nat)
    returns (k: nat)
    requires Candidates(edges, name, trust, idx, values) && i < |edges| && Offers(edges[i], name)
    ensures k < |idx| && idx[k] == i
  {
    assert i in idx;
    k :| 0 <= k < |idx| && idx[k] == i;
  }

  lemma WithinBand(edges: seq<Edge>, name: string, trust: Trust, idx: seq<nat>, values: seq<real>, m: nat, k: nat)
    requires Candidates(edges, name, trust, idx, values) && m < |idx| && k < |idx|
    requires InTopBand(edges, name, trust, idx[k])
    ensures values[k] >= values[m] - BAND_SIZE
  {
    assert idx[m] in idx;
  }

  lemma InBand(edges: seq<Edge>, name: string, trust: Trust, idx: seq<nat>, values: seq<real>, m: nat, i: int)
    requires Candidates(edges, name, trust, idx, values)
    requires m < |values| && values[m] == MaxFrom(values, 0.0)
    ensures i in BandOf(idx, values) <==> InTopBand(edges, name, trust, i)
  {
    if i in BandOf(idx, values) {
      KeptIsTop(edges, name, trust, idx, values, i);
    }
    if InTopBand(edges, name, trust, i) {
      TopIsKept(edges, name, trust, idx, values, m, i);
    }
  }

  /** With non-negative values the maximum that starts from zero is one of the values. */
  lemma TopIsReached(values: seq<real>) returns (m: nat)
    requires |values| > 0 && NonNegative(values)
    ensures m < |values| && values[m] == MaxFrom(values, 0.0)
  {
    var top := MaxFrom(values, 0.0);
    m := 0;
    assert values[0] <= top;
    if top in values {
      m :| 0 <= m < |values| && values[m] == top;
    }
  }
}
