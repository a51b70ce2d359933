/** The basic trust model: Beta counts of outcomes, weighted (wsn/common/trust/models/basic/trust-model.c). */
module BasicTrust {
  import opened Common
  import opened RealSums
  import opened EdgeTable
  import opened Choose

  /** beta_dist_t; both counts start at one. */
  datatype Beta = Beta(alpha: nat, beta: nat)

  const UNIFORM := Beta(1, 1)

  ghost predicate Positive(d: Beta) { d.alpha >= 1 && d.beta >= 1 }

  /** beta_dist_expected. */
  function Expected(d: Beta): real
    requires d.alpha + d.beta > 0
  {
    d.alpha as real / (d.alpha + d.beta) as real
  }

  /** beta_dist_combine: the stereotype's evidence on top, without its initial (1, 1). */
  function Combine(a: Beta, b: Option<Beta>): Beta
    requires Positive(a)
  {
    if b.None? then a else Beta(a.alpha - 1 + b.value.alpha, a.beta - 1 + b.value.beta)
  }

  /** The weights configured for an application. */
  datatype Weights = Weights(submission: real, result: real, quality: real, challenge: real)

  ghost predicate WeightsOk(w: Weights) {
    && w.submission >= 0.0 && w.result >= 0.0 && w.quality >= 0.0 && w.challenge >= 0.0
    && w.submission + w.result + w.quality + w.challenge <= 1.0
  }

  datatype Stereotype = Stereotype(submission: Beta, result: Beta)

  /**
   The challenge-response capability of the edge: none, another capability with its own distribution,
   or the very capability asked for, whose quality then counts for both.
   */
  datatype Challenge = Absent | Other(dist: Beta) | Same

  /** Everything the trust in one edge for one capability is computed from. */
  datatype Record = Record(
    submission: Beta, result: Beta, quality: Beta, challenge: Challenge, stereotype: Option<Stereotype>)

  /** The distribution of challenge responses, if the edge has one. */
  function Responses(r: Record): Option<Beta> {
    match r.challenge
    case Absent => None
    case Other(d) => Some(d)
    case Same => Some(r.quality)
  }

  ghost predicate RecordOk(r: Record) {
    && Positive(r.submission) && Positive(r.result) && Positive(r.quality)
    && (r.challenge.Other? ==> Positive(r.challenge.dist))
    && (r.stereotype.Some? ==> Positive(r.stereotype.value.submission) && Positive(r.stereotype.value.result))
  }

  function Submission(r: Record): Beta
    requires Positive(r.submission)
  {
    Combine(r.submission, if r.stereotype.Some? then Some(r.stereotype.value.submission) else None)
  }

  function Result(r: Record): Beta
    requires Positive(r.result)
  {
    Combine(r.result, if r.stereotype.Some? then Some(r.stereotype.value.result) else None)
  }

  /** The weighted sum, as a specification. */
  ghost function Value(w: Weights, r: Record): real
    requires RecordOk(r)
  {
    Times(w.submission, Expected(Submission(r))) + Times(w.result, Expected(Result(r))) +
    Times(w.quality, Expected(r.quality)) +
    (if Responses(r).Some? then Times(w.challenge, Expected(Responses(r).value)) else 0.0)
  }

  method Weighted(w: real, d: Beta) returns (t: real)
    requires Positive(d)
    ensures t == Times(w, Expected(d))
  {
    var e := Expected(d);
    TimesDef(w, e);
    t := w * e;
  }

  /** calculate_trust_value. */
  method CalculateTrust(w: Weights, r: Record) returns (trust: real)
    requires RecordOk(r)
    ensures trust == Value(w, r)
  {
    trust := 0.0;
    var t := Weighted(w.submission, Submission(r));
    trust := trust + t;
    t := Weighted(w.result, Result(r));
    trust := trust + t;
    t := Weighted(w.quality, r.quality);
    trust := trust + t;
    var cr := Responses(r);
    if cr.Some? {
      t := Weighted(w.challenge, cr.value);
      trust := trust + t;
    }
  }

  // ---------------------------------------------------------------------------
  // Bounds and monotonicity.
  // ---------------------------------------------------------------------------

  lemma ExpectedBounds(d: Beta)
    requires Positive(d)
    ensures 0.0 < Expected(d) < 1.0
  {
    QuotientBounds(d.alpha as real, d.beta as real);
  }

  lemma QuotientBounds(a: real, b: real)
    requires a > 0.0 && b > 0.0
    ensures 0.0 < a / (a + b) < 1.0
  {
  }

  lemma TimesBounds(w: real, e: real)
    requires w >= 0.0 && 0.0 < e < 1.0
    ensures 0.0 <= Times(w, e) <= w
  {
    TimesDef(w, e);
    assert w * e <= w * 1.0;
  }

  /** Trust is a number between zero and one. */
  lemma ValueBounds(w: Weights, r: Record)
    requires WeightsOk(w) && RecordOk(r)
    ensures 0.0 <= Value(w, r) <= 1.0
  {
    ExpectedBounds(Submission(r));
    ExpectedBounds(Result(r));
    ExpectedBounds(r.quality);
    TimesBounds(w.submission, Expected(Submission(r)));
    TimesBounds(w.result, Expected(Result(r)));
    TimesBounds(w.quality, Expected(r.quality));
    if Responses(r).Some? {
      ExpectedBounds(Responses(r).value);
      TimesBounds(w.challenge, Expected(Responses(r).value));
    }
  }

  /** No fewer good outcomes and no more bad ones. */
  predicate AtLeastAsGood(a: Beta, b: Beta) { a.alpha >= b.alpha && a.beta <= b.beta }

  lemma ExpectedMonotone(a: Beta, b: Beta)
    requires Positive(a) && Positive(b) && AtLeastAsGood(a, b)
    ensures Expected(a) >= Expected(b)
    ensures a != b ==> Expected(a) > Expected(b)
  {
    Compare(a.alpha as real, a.beta as real, b.alpha as real, b.beta as real);
  }

  lemma Compare(a: real, b: real, c: real, d: real)
    requires a >= c > 0.0 && 0.0 < b <= d
    ensures a / (a + b) >= c / (c + d)
    ensures a > c || b < d ==> a / (a + b) > c / (c + d)
  {
    var x, y := a / (a + b), c / (c + d);
    assert x * (a + b) == a && y * (c + d) == c;
    CrossMultiply(a, b, c, d);
    FromProducts(x, y, a, a + b, c, c + d);
  }

  lemma CrossMultiply(a: real, b: real, c: real, d: real)
    requires a >= c > 0.0 && 0.0 < b <= d
    ensures a * (c + d) >= c * (a + b)
    ensures a > c || b < d ==> a * (c + d) > c * (a + b)
  {
    assert a * (c + d) - c * (a + b) == a * d - c * b;
    assert a * d >= c * d;
    assert c * d >= c * b;
    if a > c {
      assert a * d > c * d;
    }
    if b < d {
      assert c * d > c * b;
    }
  }

  lemma FromProducts(x: real, y: real, a: real, p: real, c: real, q: real)
    requires p > 0.0 && q > 0.0 && x * p == a && y * q == c
    ensures a * q >= c * p ==> x >= y
    ensures a * q > c * p ==> x > y
  {
    var pq := p * q;
    assert pq > 0.0;
    assert a * q == x * pq && c * p == y * pq;
    if x < y {
      assert x * pq < y * pq;
    }
  }

  lemma TimesMonotone(w: real, x: real, y: real)
    requires w >= 0.0 && x >= y
    ensures Times(w, x) >= Times(w, y)
    ensures w > 0.0 && x > y ==> Times(w, x) > Times(w, y)
  {
    TimesDef(w, x);
    TimesDef(w, y);
  }

  /** The two records rest on the same stereotype and the same kinds of evidence. */
  predicate Comparable(a: Record, b: Record) {
    a.stereotype == b.stereotype && a.challenge.Absent? == b.challenge.Absent? && a.challenge.Same? == b.challenge.Same?
  }

  predicate Dominates(a: Record, b: Record) {
    && AtLeastAsGood(a.submission, b.submission) && AtLeastAsGood(a.result, b.result)
    && AtLeastAsGood(a.quality, b.quality)
    && (a.challenge.Other? && b.challenge.Other? ==> AtLeastAsGood(a.challenge.dist, b.challenge.dist))
  }

  /** Better, in a count that carries weight. */
  predicate StrictlySomewhere(w: Weights, a: Record, b: Record) {
    || (w.submission > 0.0 && a.submission != b.submission)
    || (w.result > 0.0 && a.result != b.result)
    || (w.quality > 0.0 && a.quality != b.quality)
    || (w.challenge > 0.0 && Responses(a).Some? && Responses(b).Some? && Responses(a) != Responses(b))
  }

  /** One metric's contribution grows with its counts. */
  lemma TermMonotone(w: real, a: Beta, b: Beta)
    requires w >= 0.0 && Positive(a) && Positive(b) && AtLeastAsGood(a, b)
    ensures Times(w, Expected(a)) >= Times(w, Expected(b))
    ensures w > 0.0 && a != b ==> Times(w, Expected(a)) > Times(w, Expected(b))
  {
    ExpectedMonotone(a, b);
    TimesMonotone(w, Expected(a), Expected(b));
  }

  /** With equal stereotypes trust is monotone in every count, strictly so where a weight counts it. */
  lemma ValueMonotone(w: Weights, a: Record, b: Record)
    requires WeightsOk(w) && RecordOk(a) && RecordOk(b) && Comparable(a, b) && Dominates(a, b)
    ensures Value(w, a) >= Value(w, b)
    ensures StrictlySomewhere(w, a, b) ==> Value(w, a) > Value(w, b)
  {
    TermMonotone(w.submission, Submission(a), Submission(b));
    TermMonotone(w.result, Result(a), Result(b));
    TermMonotone(w.quality, a.quality, b.quality);
    if Responses(a).Some? {
      TermMonotone(w.challenge, Responses(a).value, Responses(b).value);
    }
  }

  // ---------------------------------------------------------------------------
  // Runs of outcomes.
  // ---------------------------------------------------------------------------

  datatype Metric = OfSubmission | OfResult | OfQuality | OfChallenge

  /** An outcome that reaches the model; `counted` is false for one that is not to be recorded. */
  datatype Outcome = Outcome(metric: Metric, good: bool, counted: bool)

  function Add(d: Beta, good: bool): Beta {
    if good then d.(alpha := d.alpha + 1) else d.(beta := d.beta + 1)
  }

  /** tm_update_*: a challenge response is dropped when the edge lacks that capability. */
  function Update(r: Record, o: Outcome): Record {
    if !o.counted then r
    else
      match o.metric
      case OfSubmission => r.(submission := Add(r.submission, o.good))
      case OfResult => r.(result := Add(r.result, o.good))
      case OfQuality => r.(quality := Add(r.quality, o.good))
      case OfChallenge =>
        match r.challenge
        case Absent => r
        case Other(d) => r.(challenge := Other(Add(d, o.good)))
        case Same => r.(quality := Add(r.quality, o.good))
  }

  function UpdateAll(r: Record, run: seq<Outcome>): Record {
    if |run| == 0 then r else Update(UpdateAll(r, run[..|run| - 1]), run[|run| - 1])
  }

  /** How often a metric had this outcome. */
  function Count(run: seq<Outcome>, metric: Metric, good: bool): nat {
    if |run| == 0 then 0
    else
      Count(run[..|run| - 1], metric, good) +
      (if run[|run| - 1] == Outcome(metric, good, true) then 1 else 0)
  }

  function AddCounts(d: Beta, run: seq<Outcome>, metric: Metric): Beta {
    Beta(d.alpha + Count(run, metric, true), d.beta + Count(run, metric, false))
  }

  /** The quality distribution also takes the challenge outcomes when it is the one challenged. */
  function QualityCounts(r: Record, run: seq<Outcome>): Beta {
    var d := AddCounts(r.quality, run, OfQuality);
    if r.challenge.Same? then AddCounts(d, run, OfChallenge) else d
  }

  /** After any run each distribution is its start plus the counts of its own outcomes: nothing else matters. */
  lemma {:induction false} RunIsCounts(r: Record, run: seq<Outcome>)
    ensures UpdateAll(r, run) == Record(
      AddCounts(r.submission, run, OfSubmission), AddCounts(r.result, run, OfResult),
      QualityCounts(r, run),
      if r.challenge.Other? then Other(AddCounts(r.challenge.dist, run, OfChallenge)) else r.challenge,
      r.stereotype)
  {
    if |run| > 0 {
      RunIsCounts(r, run[..|run| - 1]);
    }
  }

  /** Trust after any run lies in [0, 1]. */
  lemma RunBounds(w: Weights, r: Record, run: seq<Outcome>)
    requires WeightsOk(w) && RecordOk(r)
    ensures RecordOk(UpdateAll(r, run)) && 0.0 <= Value(w, UpdateAll(r, run)) <= 1.0
  {
    RunIsCounts(r, run);
    ValueBounds(w, UpdateAll(r, run));
  }

  /** Runs with the same counts give the same trust, in whatever order things happened. */
  lemma OnlyCountsMatter(w: Weights, r: Record, run: seq<Outcome>, run': seq<Outcome>)
    requires RecordOk(r)
    requires forall m, good :: Count(run, m, good) == Count(run', m, good)
    ensures RecordOk(UpdateAll(r, run)) && RecordOk(UpdateAll(r, run'))
    ensures Value(w, UpdateAll(r, run)) == Value(w, UpdateAll(r, run'))
  {
    RunIsCounts(r, run);
    RunIsCounts(r, run');
  }

  /** A record nothing has been counted in yet, without a stereotype. */
  predicate Fresh(r: Record) {
    && r.submission == UNIFORM && r.result == UNIFORM && r.quality == UNIFORM && r.stereotype.None?
    && (r.challenge.Other? ==> r.challenge.dist == UNIFORM)
  }

  /** How many outcomes of one metric were good, or bad; challenges of the very capability are quality too. */
  function Outcomes(r: Record, run: seq<Outcome>, metric: Metric, good: bool): nat {
    if metric.OfSubmission? || metric.OfResult? then Count(run, metric, good)
    else if r.challenge.Same? then Count(run, OfQuality, good) + Count(run, OfChallenge, good)
    else Count(run, metric, good)
  }

  /** Laplace's rule of succession: the chance that the next outcome is good, after so many good and bad ones. */
  function Succession(good: nat, bad: nat): real { (good + 1) as real / (good + bad + 2) as real }

  ghost function Share(weight: real, r: Record, run: seq<Outcome>, metric: Metric): real {
    Times(weight, Succession(Outcomes(r, run, metric, true), Outcomes(r, run, metric, false)))
  }

  /**
   Without a stereotype, trust after any run of outcomes is the weighted sum of the rules of succession of
   the four metrics, where a challenge counts only if the edge has that capability.
   */
  lemma FreshRunTrust(w: Weights, r: Record, run: seq<Outcome>)
    requires Fresh(r)
    ensures RecordOk(UpdateAll(r, run))
    ensures Value(w, UpdateAll(r, run)) ==
            Share(w.submission, r, run, OfSubmission) + Share(w.result, r, run, OfResult)
            + Share(w.quality, r, run, OfQuality) + (if r.challenge.Absent? then 0.0 else Share(w.challenge, r, run, OfChallenge))
  {
    RunIsCounts(r, run);
    CountsAreSuccession(run, OfSubmission);
    CountsAreSuccession(run, OfResult);
    CountsAreSuccession(run, OfQuality);
    CountsAreSuccession(run, OfChallenge);
  }

  lemma CountsAreSuccession(run: seq<Outcome>, metric: Metric)
    ensures Expected(AddCounts(UNIFORM, run, metric)) == Succession(Count(run, metric, true), Count(run, metric, false))
  {
  }

  /** The odds of a good outcome are alpha to beta. */
  lemma ExpectedOdds(d: Beta)
    requires Positive(d)
    ensures Expected(d) * d.beta as real == (1.0 - Expected(d)) * d.alpha as real
  {
    var a, b := d.alpha as real, d.beta as real;
    var x := Expected(d);
    assert x * (a + b) == a;
    assert x * b == a - x * a;
  }

  /** The run holds only outcomes of submissions and results, the ones a stereotype speaks of. */
  predicate OnlyTasks(run: seq<Outcome>) {
    forall i :: 0 <= i < |run| ==> run[i].metric.OfSubmission? || run[i].metric.OfResult?
  }

  lemma {:induction false} CountNone(run: seq<Outcome>, metric: Metric, good: bool)
    requires OnlyTasks(run) && (metric.OfQuality? || metric.OfChallenge?)
    ensures Count(run, metric, good) == 0
  {
    if |run| > 0 {
      CountNone(run[..|run| - 1], metric, good);
    }
  }

  lemma {:induction false} CountConcat(run: seq<Outcome>, more: seq<Outcome>, metric: Metric, good: bool)
    ensures Count(run + more, metric, good) == Count(run, metric, good) + Count(more, metric, good)
    decreases |more|
  {
    if |more| == 0 {
      assert run + more == run;
    } else {
      var n := |more| - 1;
      CountConcat(run, more[..n], metric, good);
      assert (run + more)[..|run| + n] == run + more[..n];
    }
  }

  /** The stereotype that other nodes' outcomes amount to. */
  function StereotypeOf(run: seq<Outcome>): Stereotype {
    Stereotype(AddCounts(UNIFORM, run, OfSubmission), AddCounts(UNIFORM, run, OfResult))
  }

  /**
   A stereotype counts as evidence: trust in an edge that has one, after any further run of outcomes, is
   what it would be had the edge itself produced the outcomes behind the stereotype first.
   */
  lemma StereotypeIsEvidence(w: Weights, r: Record, run: seq<Outcome>, more: seq<Outcome>)
    requires RecordOk(r) && r.stereotype.None? && OnlyTasks(run)
    ensures var with := UpdateAll(r.(stereotype := Some(StereotypeOf(run))), more);
            RecordOk(with) && RecordOk(UpdateAll(r, run + more)) && Value(w, with) == Value(w, UpdateAll(r, run + more))
  {
    RunIsCounts(r.(stereotype := Some(StereotypeOf(run))), more);
    RunIsCounts(r, run + more);
    forall m, good
      ensures Count(run + more, m, good) == Count(run, m, good) + Count(more, m, good)
      ensures m.OfQuality? || m.OfChallenge? ==> Count(run, m, good) == 0
    {
      CountConcat(run, more, m, good);
      if m.OfQuality? || m.OfChallenge? {
        CountNone(run, m, good);
      }
    }
  }

  /** The mutable distributions of one edge and capability. */
  class Model {
    var submission: Beta
    var result: Beta
    var quality: Beta
    var challenge: Challenge
    const stereotype: Option<Stereotype>

    ghost function State(): Record
      reads this
    {
      Record(submission, result, quality, challenge, stereotype)
    }

    /** edge_resource_tm_init and edge_capability_tm_init: every distribution starts at (1, 1). */
    constructor (challenge: Challenge, stereotype: Option<Stereotype>)
      requires challenge.Other? ==> challenge.dist == UNIFORM
      ensures State() == Record(UNIFORM, UNIFORM, UNIFORM, challenge, stereotype)
    {
      submission, result, quality := UNIFORM, UNIFORM, UNIFORM;
      this.challenge, this.stereotype := challenge, stereotype;
    }

    method UpdateTaskSubmission(good: bool, shouldUpdate: bool)
      modifies this
      ensures State() == Update(old(State()), Outcome(OfSubmission, good, shouldUpdate))
    {
      if shouldUpdate {
        submission := Add(submission, good);
      }
    }

    method UpdateTaskResult(success: bool)
      modifies this
      ensures State() == Update(old(State()), Outcome(OfResult, success, true))
    {
      result := Add(result, success);
    }

    method UpdateResultQuality(good: bool)
      modifies this
      ensures State() == Update(old(State()), Outcome(OfQuality, good, true))
    {
      quality := Add(quality, good);
    }

    method UpdateChallengeResponse(good: bool, shouldUpdate: bool)
      modifies this
      ensures State() == Update(old(State()), Outcome(OfChallenge, good, shouldUpdate))
    {
      if shouldUpdate {
        match challenge
        case Absent =>
        case Other(d) => challenge := Other(Add(d, good));
        case Same => quality := Add(quality, good);
      }
    }
  }

  // ---------------------------------------------------------------------------
  // Choosing the most trusted edge.
  // ---------------------------------------------------------------------------

  /** What is recorded of an edge for the capability it is asked for. */
  type Records = (Edge, Cap) -> Record

  ghost predicate RecordsOk(records: Records, edges: seq<Edge>) {
    forall i, j :: 0 <= i < |edges| && 0 <= j < |edges[i].caps| ==> RecordOk(records(edges[i], edges[i].caps[j]))
  }

  function RecordIn(records: Records, e: Edge, name: string): Record
    requires Offers(e, name)
  {
    records(e, e.caps[FindCap(e.caps, name).value])
  }

  /** Another eligible edge, comparable with edge i, is better in a weighted count and worse in none. */
  ghost predicate Dominated(w: Weights, records: Records, edges: seq<Edge>, name: string, i: nat)
    requires i < |edges| && Offers(edges[i], name)
  {
    exists k :: 0 <= k < |edges| && Offers(edges[k], name) &&
      var a, b := RecordIn(records, edges[k], name), RecordIn(records, edges[i], name);
      Comparable(a, b) && Dominates(a, b) && StrictlySomewhere(w, a, b)
  }

  /** A trust function that computes what calculate_trust_value does. */
  ghost predicate Computes(trust: Trust, w: Weights, records: Records, edges: seq<Edge>, name: string)
    requires RecordsOk(records, edges)
  {
    forall i :: 0 <= i < |edges| && Offers(edges[i], name) ==>
      TrustIn(trust, edges[i], name) == Value(w, RecordIn(records, edges[i], name))
  }

  /** The highest policy never returns an edge that another eligible one strictly dominates. */
  method ChooseUndominated(w: Weights, records: Records, trust: Trust, edges: seq<Edge>, name: string)
    returns (r: Option<nat>)
    requires WeightsOk(w) && RecordsOk(records, edges) && Computes(trust, w, records, edges, name)
    ensures r.None? <==> Eligible(edges, name) == []
    ensures r.Some? ==> r.value < |edges| && Offers(edges[r.value], name)
    ensures r.Some? ==> !Dominated(w, records, edges, name, r.value)
  {
    forall i | 0 <= i < |edges|
      ensures TrustIn(trust, edges[i], name) >= 0.0
    {
      if Offers(edges[i], name) {
        ValueBounds(w, RecordIn(records, edges[i], name));
      }
    }
    r := ChooseHighest(edges, name, trust);
    if r.Some? {
      forall k | 0 <= k < |edges| && Offers(edges[k], name)
        ensures var a, b := RecordIn(records, edges[k], name), RecordIn(records, edges[r.value], name);
                !(Comparable(a, b) && Dominates(a, b) && StrictlySomewhere(w, a, b))
      {
        NotBetter(w, RecordIn(records, edges[k], name), RecordIn(records, edges[r.value], name));
      }
    }
  }

  lemma NotBetter(w: Weights, a: Record, b: Record)
    requires WeightsOk(w) && RecordOk(a) && RecordOk(b) && Value(w, a) <= Value(w, b)
    ensures !(Comparable(a, b) && Dominates(a, b) && StrictlySomewhere(w, a, b))
  {
    if Comparable(a, b) && Dominates(a, b) {
      ValueMonotone(w, a, b);
    }
  }
}
