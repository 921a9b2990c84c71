/** Ranking weights that are learned from feedback, over the real numbers. */
module Weights {
  import opened Prelude

  datatype Feature = LexicalMatch | Bm25 | Fuzzy | Vector | Entities | Confidence | Importance | Temporal | Trust |
                     Usage | ProcedureSuccess | FailureRecurrence

  type Weights = map<Feature, real>

  const FEATURES := [LexicalMatch, Bm25, Fuzzy, Vector, Entities, Confidence, Importance, Temporal, Trust, Usage,
                     ProcedureSuccess, FailureRecurrence]

  function DefaultWeight(f: Feature): real {
    match f
    case LexicalMatch => 0.13
    case Bm25 => 0.17
    case Fuzzy => 0.06
    case Vector => 0.20
    case Entities => 0.08
    case Confidence => 0.08
    case Importance => 0.08
    case Temporal => 0.06
    case Trust => 0.07
    case Usage => 0.04
    case ProcedureSuccess => 0.06
    case FailureRecurrence => 0.05
  }

  function Tabulate(f: Feature -> real): Weights {
    map k: Feature | true :: f(k)
  }

  const DEFAULT := Tabulate(DefaultWeight)

  /** Sum over the first n features. */
  function SumTo(f: Feature -> real, n: nat): real
    requires n <= |FEATURES|
  {
    if n == 0 then 0.0 else SumTo(f, n - 1) + f(FEATURES[n - 1])
  }

  function Sum(f: Feature -> real): real {
    SumTo(f, |FEATURES|)
  }

  function Entry(w: Weights): Feature -> real {
    k => if k in w then w[k] else 0.0
  }

  function Clip(x: real): real {
    if x < 0.0 then 0.0 else if x > 1.0 then 1.0 else x
  }

  function Clipped(w: Weights): Feature -> real {
    k => Clip(if k in w then w[k] else DefaultWeight(k))
  }

  function Source(w: Weights): Feature -> real {
    Clipped(if w == map[] then DEFAULT else w)
  }

  /** `normalize_retrieval_weights`: an empty or missing profile means the defaults, a missing feature its
      default; all clipped to [0, 1] and divided by their sum, unless that is zero. */
  function Normalize(w: Weights): (r: Weights)
    ensures forall k: Feature :: k in r
  {
    var source := Source(w);
    var total := Sum(source);
    if total <= 0.0 then DEFAULT else Divide(source, total)
  }

  function Divide(f: Feature -> real, total: real): Weights
    requires total > 0.0
  {
    Tabulate(k => f(k) / total)
  }

  lemma Listed(k: Feature)
    ensures k in FEATURES
  {
    match k
    case LexicalMatch => assert FEATURES[0] == k;
    case Bm25 => assert FEATURES[1] == k;
    case Fuzzy => assert FEATURES[2] == k;
    case Vector => assert FEATURES[3] == k;
    case Entities => assert FEATURES[4] == k;
    case Confidence => assert FEATURES[5] == k;
    case Importance => assert FEATURES[6] == k;
    case Temporal => assert FEATURES[7] == k;
    case Trust => assert FEATURES[8] == k;
    case Usage => assert FEATURES[9] == k;
    case ProcedureSuccess => assert FEATURES[10] == k;
    case FailureRecurrence => assert FEATURES[11] == k;
  }

  /** Twelve weights in [0, 1] that add up to one. */
  ghost predicate Distribution(w: Weights) {
    (forall k: Feature :: k in w && 0.0 <= w[k] <= 1.0) && Sum(Entry(w)) == 1.0
  }

  /** Every supplied or defaulted weight is zero or less: the sum to divide by is zero. */
  ghost predicate Degenerate(w: Weights) {
    w != map[] && forall k: Feature :: k in w && w[k] <= 0.0
  }

  // ---------------------------------------------------------------- sums

  lemma {:induction false} SumAgrees(f: Feature -> real, g: Feature -> real, n: nat)
    requires n <= |FEATURES| && forall k: Feature :: f(k) == g(k)
    ensures SumTo(f, n) == SumTo(g, n)
  {
    if n > 0 { SumAgrees(f, g, n - 1); }
  }

  ghost predicate ScaledAt(f: Feature -> real, g: Feature -> real, c: real, k: Feature) {
    g(k) == c * f(k)
  }

  lemma Distribute(c: real, x: real, y: real)
    ensures c * (x + y) == c * x + c * y
  {
  }

  lemma {:induction false} SumScales(f: Feature -> real, g: Feature -> real, c: real, n: nat)
    requires n <= |FEATURES| && forall k: Feature :: ScaledAt(f, g, c, k)
    ensures SumTo(g, n) == c * SumTo(f, n)
  {
    if n > 0 {
      SumScales(f, g, c, n - 1);
      assert ScaledAt(f, g, c, FEATURES[n - 1]);
      Distribute(c, SumTo(f, n - 1), f(FEATURES[n - 1]));
    }
  }

  lemma {:induction false} SumMonotone(f: Feature -> real, g: Feature -> real, n: nat)
    requires n <= |FEATURES| && forall k: Feature :: f(k) <= g(k)
    ensures SumTo(f, n) <= SumTo(g, n)
  {
    if n > 0 { SumMonotone(f, g, n - 1); }
  }

  lemma {:induction false} SumAdds(f: Feature -> real, g: Feature -> real, h: Feature -> real, n: nat)
    requires n <= |FEATURES| && forall k: Feature :: h(k) == f(k) + g(k)
    ensures SumTo(h, n) == SumTo(f, n) + SumTo(g, n)
  {
    if n > 0 { SumAdds(f, g, h, n - 1); }
  }

  lemma {:induction false} SumOfNonNegative(f: Feature -> real, n: nat)
    requires n <= |FEATURES| && forall k: Feature :: f(k) >= 0.0
    ensures SumTo(f, n) >= 0.0
    ensures forall i :: 0 <= i < n ==> f(FEATURES[i]) <= SumTo(f, n)
  {
    if n > 0 { SumOfNonNegative(f, n - 1); }
  }

  lemma {:induction false} SumOfZeros(f: Feature -> real, n: nat)
    requires n <= |FEATURES| && forall k: Feature :: f(k) == 0.0
    ensures SumTo(f, n) == 0.0
  {
    if n > 0 { SumOfZeros(f, n - 1); }
  }

  lemma PartOfSum(f: Feature -> real, k: Feature)
    requires forall k: Feature :: f(k) >= 0.0
    ensures 0.0 <= f(k) <= Sum(f)
  {
    SumOfNonNegative(f, |FEATURES|);
    Listed(k);
    var i :| 0 <= i < |FEATURES| && FEATURES[i] == k;
  }

  /** The defaults themselves add up to 1.08: they are not a distribution. */
  lemma DefaultSum()
    ensures Sum(DefaultWeight) == 1.08
    ensures !Distribution(DEFAULT)
  {
    FirstSix();
    var f := DefaultWeight;
    assert SumTo(f, 7) == 0.80 && SumTo(f, 8) == 0.86 && SumTo(f, 9) == 0.93;
    assert SumTo(f, 10) == 0.97 && SumTo(f, 11) == 1.03 && SumTo(f, 12) == 1.08;
    DefaultEntries();
    SumAgrees(Entry(DEFAULT), f, |FEATURES|);
  }

  lemma FirstSix()
    ensures SumTo(DefaultWeight, 6) == 0.72
  {
    var f := DefaultWeight;
    assert SumTo(f, 1) == 0.13 && SumTo(f, 2) == 0.30 && SumTo(f, 3) == 0.36;
    assert SumTo(f, 4) == 0.56 && SumTo(f, 5) == 0.64;
  }

  lemma DefaultEntries()
    ensures forall k: Feature :: k in DEFAULT && DEFAULT[k] == DefaultWeight(k) && Entry(DEFAULT)(k) == DefaultWeight(k)
  {
  }

  // ---------------------------------------------------------------- normalising

  lemma QuotientInUnit(x: real, y: real)
    requires 0.0 <= x <= y && y > 0.0
    ensures 0.0 <= x / y <= 1.0
  {
  }

  lemma TimesQuotient(x: real, y: real)
    requires y > 0.0
    ensures y * (x / y) == x
  {
  }

  lemma CancelFactor(x: real, y: real)
    requires y > 0.0 && y == y * x
    ensures x == 1.0
  {
    assert y * (x - 1.0) == 0.0;
  }

  lemma SourceEntries(w: Weights)
    ensures forall k: Feature :: Source(w)(k) >= 0.0
    ensures Degenerate(w) ==> forall k: Feature :: Source(w)(k) == 0.0
    ensures !Degenerate(w) ==> exists k: Feature :: Source(w)(k) > 0.0
  {
    DefaultEntries();
    if w == map[] {
      assert Source(w)(LexicalMatch) > 0.0;
    } else if !Degenerate(w) {
      var k: Feature :| !(k in w && w[k] <= 0.0);
      assert Source(w)(k) > 0.0;
    }
  }

  lemma SourceSum(w: Weights)
    ensures Sum(Source(w)) >= 0.0 && (Sum(Source(w)) == 0.0 <==> Degenerate(w))
  {
    SourceEntries(w);
    SumOfNonNegative(Source(w), |FEATURES|);
    if Degenerate(w) {
      SumOfZeros(Source(w), |FEATURES|);
    } else {
      var k: Feature :| Source(w)(k) > 0.0;
      PartOfSum(Source(w), k);
    }
  }

  /** Weight k of `r` is the share that `f` has of its total. */
  ghost predicate ShareAt(r: Weights, f: Feature -> real, total: real, k: Feature) {
    k in r && 0.0 <= r[k] <= 1.0 && ScaledAt(Entry(r), f, total, k)
  }

  lemma DivideGivesShares(f: Feature -> real, total: real, k: Feature)
    requires 0.0 <= f(k) <= total && total > 0.0
    ensures ShareAt(Divide(f, total), f, total, k)
  {
    var r := Divide(f, total);
    assert k in r && r[k] == f(k) / total;
    QuotientInUnit(f(k), total);
    TimesQuotient(f(k), total);
  }

  lemma NormalizeGivesShares(w: Weights, k: Feature)
    requires Sum(Source(w)) > 0.0
    ensures ShareAt(Normalize(w), Source(w), Sum(Source(w)), k)
  {
    SourceEntries(w);
    PartOfSum(Source(w), k);
    DivideGivesShares(Source(w), Sum(Source(w)), k);
  }

  /** Normalising gives a distribution exactly when some weight, given or defaulted, is positive. */
  lemma NormalizeIsDistributionIff(w: Weights)
    ensures Distribution(Normalize(w)) <==> !Degenerate(w)
  {
    SourceSum(w);
    if Degenerate(w) {
      DefaultSum();
    } else {
      NormalizeDivides(w);
    }
  }

  lemma NormalizeDivides(w: Weights)
    requires Sum(Source(w)) > 0.0
    ensures Distribution(Normalize(w))
  {
    var r, f, total := Normalize(w), Source(w), Sum(Source(w));
    forall k: Feature ensures ShareAt(r, f, total, k) {
      NormalizeGivesShares(w, k);
    }
    SharesAreDistribution(r, f, total);
  }

  lemma SharesAreDistribution(r: Weights, f: Feature -> real, total: real)
    requires total > 0.0 && Sum(f) == total && forall k: Feature :: ShareAt(r, f, total, k)
    ensures Distribution(r)
  {
    forall k: Feature ensures k in r && 0.0 <= r[k] <= 1.0 && ScaledAt(Entry(r), f, total, k) {
      assert ShareAt(r, f, total, k);
    }
    SumScales(Entry(r), f, total, |FEATURES|);
    CancelFactor(Sum(Entry(r)), total);
  }

  /** Normalising a distribution changes nothing. */
  lemma NormalizeFixesDistributions(w: Weights)
    requires Distribution(w)
    ensures Normalize(w) == w
  {
    assert LexicalMatch in w;
    forall k: Feature ensures Source(w)(k) == Entry(w)(k) { assert k in w; }
    SumAgrees(Source(w), Entry(w), |FEATURES|);
    forall k: Feature ensures Normalize(w)[k] == w[k] {
      NormalizeGivesShares(w, k);
      assert k in w;
    }
    assert Normalize(w).Keys == w.Keys;
  }

  // ---------------------------------------------------------------- learning

  datatype Profile = Profile(weights: Weights, observations: nat)

  const NEW_PROFILE := Profile(DEFAULT, 0)

  function Rate(observations: nat): real {
    var r := 0.18 / (1.0 + observations as real / 20.0);
    if r > 0.025 then r else 0.025
  }

  function Blend(w: real, target: real, rate: real): real {
    w * (1.0 - rate) + target * rate
  }

  /** Features as the caller reports them, clipped. */
  function Target(features: Weights, positive: bool, k: Feature): real
    requires k in features
  {
    if positive then Clip(features[k]) else 1.0 - Clip(features[k])
  }

  function Moved(current: Weights, features: Weights, positive: bool, rate: real): Weights {
    map k | k in current :: if k in features then Blend(current[k], Target(features, positive, k), rate) else current[k]
  }

  function Learn(p: Profile, features: Weights, positive: bool): Profile {
    Profile(Normalize(Moved(Normalize(p.weights), features, positive, Rate(p.observations))), p.observations + 1)
  }

  lemma RateBounds(n: nat)
    ensures 0.025 <= Rate(n) <= 0.18
  {
    var d := 1.0 + n as real / 20.0;
    assert d >= 1.0;
    assert 0.18 / d <= 0.18;
  }

  /** The rate falls hyperbolically, from 0.18 to half of that after twenty observations and so on, until it is
      0.025, which it is from the 124th on. */
  lemma RateSchedule(n: nat)
    ensures n <= 124 ==> Rate(n) * (20.0 + n as real) == 3.6
    ensures n >= 124 ==> Rate(n) == 0.025
  {
    var d := 20.0 + n as real;
    assert 1.0 + n as real / 20.0 == d / 20.0;
    HyperbolicRate(d);
  }

  lemma HyperbolicRate(d: real)
    requires d >= 20.0
    ensures 0.18 / (d / 20.0) * d == 3.6
    ensures d <= 144.0 ==> 0.18 / (d / 20.0) >= 0.025
    ensures d >= 144.0 ==> 0.18 / (d / 20.0) <= 0.025
  {
    var r := 0.18 / (d / 20.0);
    assert r * (d / 20.0) == 0.18;
    assert r * d == 3.6;
  }

  lemma ProductInUnit(x: real, y: real)
    requires 0.0 <= x <= 1.0 && y >= 0.0
    ensures 0.0 <= x * y <= y
  {
    ProductNonNegative(x, y);
    ProductNonNegative(1.0 - x, y);
    assert (1.0 - x) * y == y - x * y;
  }

  lemma ProductNonNegative(x: real, y: real)
    requires x >= 0.0 && y >= 0.0
    ensures x * y >= 0.0
  {
  }

  lemma BlendExpanded(w: real, target: real, rate: real)
    ensures Blend(w, target, rate) == w - rate * w + target * rate
    ensures (1.0 - rate) * w == w - rate * w
  {
  }

  lemma RestInUnit(x: real, y: real)
    requires 0.0 <= x <= 1.0 && 0.0 <= y <= 1.0
    ensures x - x * y <= 1.0 - y
  {
    ProductNonNegative(1.0 - x, 1.0 - y);
    assert (1.0 - x) * (1.0 - y) == 1.0 - x - y + x * y;
  }

  /** With lost = rate * w and added = target * rate, the bounds of a blend are linear. */
  lemma PartsInUnit(w: real, rate: real, lost: real, added: real)
    requires 0.0 <= lost <= w && 0.0 <= added <= rate && rate - lost <= 1.0 - w
    ensures 0.0 <= w - lost <= w - lost + added <= 1.0
  {
  }

  lemma BlendInUnit(w: real, target: real, rate: real)
    requires 0.0 <= w <= 1.0 && 0.0 <= target <= 1.0 && 0.0 <= rate <= 1.0
    ensures 0.0 <= (1.0 - rate) * w <= Blend(w, target, rate) <= 1.0
  {
    ProductInUnit(rate, w);
    ProductInUnit(target, rate);
    RestInUnit(rate, w);
    PartsInUnit(w, rate, rate * w, target * rate);
    BlendExpanded(w, target, rate);
  }

  lemma MovedEntry(w: Weights, features: Weights, positive: bool, rate: real, k: Feature)
    requires k in w && 0.0 <= w[k] <= 1.0 && 0.0 < rate <= 0.18
    ensures var moved := Moved(w, features, positive, rate);
      k in moved && 0.0 <= moved[k] <= 1.0 && moved[k] >= (1.0 - rate) * w[k]
  {
    if k in features {
      BlendInUnit(w[k], Target(features, positive, k), rate);
    } else {
      ProductInUnit(1.0 - rate, w[k]);
    }
  }

  function Scaled(f: Feature -> real, c: real): Feature -> real {
    k => c * f(k)
  }

  /** A step from a distribution never reaches the fallback: part of the old weights survives it. */
  lemma MovedIsNotDegenerate(current: Weights, features: Weights, positive: bool, rate: real)
    requires Distribution(current) && 0.0 < rate <= 0.18
    ensures !Degenerate(Moved(current, features, positive, rate))
  {
    var after := Moved(current, features, positive, rate);
    var kept := Scaled(Entry(current), 1.0 - rate);
    forall k: Feature ensures k in after && kept(k) <= Entry(after)(k) &&
      ScaledAt(Entry(current), kept, 1.0 - rate, k) {
      assert k in current;
      MovedEntry(current, features, positive, rate, k);
    }
    SumScales(Entry(current), kept, 1.0 - rate, |FEATURES|);
    SumMonotone(kept, Entry(after), |FEATURES|);
    if Degenerate(after) {
      SumMonotone(Entry(after), k => 0.0, |FEATURES|);
      SumOfZeros(k => 0.0, |FEATURES|);
    }
  }

  lemma LearnKeepsDistribution(p: Profile, features: Weights, positive: bool)
    requires !Degenerate(p.weights)
    ensures Distribution(Learn(p, features, positive).weights)
    ensures !Degenerate(Moved(Normalize(p.weights), features, positive, Rate(p.observations)))
  {
    NormalizeIsDistributionIff(p.weights);
    RateBounds(p.observations);
    var moved := Moved(Normalize(p.weights), features, positive, Rate(p.observations));
    MovedIsNotDegenerate(Normalize(p.weights), features, positive, Rate(p.observations));
    NormalizeIsDistributionIff(moved);
  }

  lemma DistributionIsNotDegenerate(w: Weights)
    requires Distribution(w)
    ensures !Degenerate(w)
  {
    NormalizeFixesDistributions(w);
    NormalizeIsDistributionIff(w);
  }

  datatype Feedback = Feedback(features: Weights, positive: bool)

  function LearnAll(p: Profile, feedback: seq<Feedback>): Profile {
    if feedback == [] then p
    else
      var last := feedback[|feedback| - 1];
      Learn(LearnAll(p, feedback[..|feedback| - 1]), last.features, last.positive)
  }

  /** Over every run of learning steps from a new profile: the weights are a distribution after the first
      step, and no normalisation on the way ever falls back to the defaults. */
  lemma {:induction false} LearnedWeightsAreADistribution(feedback: seq<Feedback>)
    ensures !Degenerate(LearnAll(NEW_PROFILE, feedback).weights)
    ensures feedback != [] ==> Distribution(LearnAll(NEW_PROFILE, feedback).weights)
    ensures LearnAll(NEW_PROFILE, feedback).observations == |feedback|
  {
    if feedback == [] {
      DefaultEntries();
      assert DEFAULT[LexicalMatch] > 0.0;
    } else {
      var n := |feedback| - 1;
      LearnedWeightsAreADistribution(feedback[..n]);
      LearnKeepsDistribution(LearnAll(NEW_PROFILE, feedback[..n]), feedback[n].features, feedback[n].positive);
      DistributionIsNotDegenerate(LearnAll(NEW_PROFILE, feedback).weights);
    }
  }

  /** Where feedback pulls a weight: to its feature, or away from it to one minus the feature. */
  function Goal(feature: real, positive: bool): real {
    if positive then feature else 1.0 - feature
  }

  /** One step of either kind, before normalising, takes the same share of the way to its goal. */
  lemma StepMovesToGoal(w: Weights, features: Weights, positive: bool, rate: real, k: Feature)
    requires k in w && k in features && 0.0 <= features[k] <= 1.0 && 0.0 <= rate <= 1.0
    ensures var moved := Moved(w, features, positive, rate);
      k in moved && moved[k] - Goal(features[k], positive) == (1.0 - rate) * (w[k] - Goal(features[k], positive))
  {
    BlendDifference(w[k], Goal(features[k], positive), rate);
  }

  function Complement(features: Weights): Weights {
    map k | k in features :: 1.0 - Clip(features[k])
  }

  /** Negative feedback about some features is positive feedback about their complements. */
  lemma NegativeIsComplement(p: Profile, features: Weights)
    ensures Learn(p, features, false) == Learn(p, Complement(features), true)
  {
    var current, rate := Normalize(p.weights), Rate(p.observations);
    var a, b := Moved(current, features, false, rate), Moved(current, Complement(features), true, rate);
    forall k | k in current ensures a[k] == b[k] {
      if k in features { assert Complement(features)[k] == 1.0 - Clip(features[k]); }
    }
    assert a == b;
  }

  // ---------------------------------------------------------------- convergence

  function Distance(x: real, y: real): real {
    if x >= y then x - y else y - x
  }

  lemma BlendIsSum(w: real, target: real, rate: real)
    ensures Blend(w, target, rate) == (1.0 - rate) * w + rate * target
  {
  }

  lemma MovedIsBlend(w: Weights, features: Weights, rate: real, k: Feature)
    requires Distribution(w) && Distribution(features)
    ensures var moved := Moved(w, features, true, rate);
      k in w && k in features && k in moved && moved[k] == Blend(w[k], features[k], rate)
  {
    assert k in w && k in features && Clip(features[k]) == features[k];
  }

  lemma BlendParts(f: Feature -> real, g: Feature -> real, rate: real, k: Feature)
    ensures Blend(f(k), g(k), rate) == Scaled(f, 1.0 - rate)(k) + Scaled(g, rate)(k)
  {
    BlendIsSum(f(k), g(k), rate);
  }

  /** Moving a distribution towards a distribution gives a distribution. */
  lemma MovedIsDistribution(w: Weights, features: Weights, rate: real)
    requires Distribution(w) && Distribution(features) && 0.0 < rate <= 0.18
    ensures Distribution(Moved(w, features, true, rate))
  {
    var moved := Moved(w, features, true, rate);
    var a, b := Scaled(Entry(w), 1.0 - rate), Scaled(Entry(features), rate);
    forall j: Feature ensures j in moved && 0.0 <= moved[j] <= 1.0 && Entry(moved)(j) == a(j) + b(j) {
      MovedIsBlend(w, features, rate, j);
      BlendInUnit(w[j], features[j], rate);
      BlendParts(Entry(w), Entry(features), rate, j);
    }
    ScaledSum(Entry(w), 1.0 - rate);
    ScaledSum(Entry(features), rate);
    SumAdds(a, b, Entry(moved), |FEATURES|);
  }

  lemma ScaledSum(f: Feature -> real, c: real)
    ensures Sum(Scaled(f, c)) == c * Sum(f)
  {
    forall k: Feature ensures ScaledAt(f, Scaled(f, c), c, k) {}
    SumScales(f, Scaled(f, c), c, |FEATURES|);
  }

  /** One positive step towards a distribution of features is a plain blend: normalising has nothing to do. */
  lemma StepIsBlend(p: Profile, features: Weights)
    requires Distribution(p.weights) && Distribution(features)
    ensures Learn(p, features, true).weights == Moved(p.weights, features, true, Rate(p.observations))
    ensures Distribution(Learn(p, features, true).weights)
  {
    RateBounds(p.observations);
    NormalizeFixesDistributions(p.weights);
    MovedIsDistribution(p.weights, features, Rate(p.observations));
    NormalizeFixesDistributions(Moved(p.weights, features, true, Rate(p.observations)));
  }

  lemma BlendShrinks(w: real, target: real, rate: real, bound: real)
    requires 0.025 <= rate <= 0.18 && Distance(w, target) <= bound
    ensures Distance(Blend(w, target, rate), target) <= 0.975 * bound
  {
    BlendDifference(w, target, rate);
    var d := Distance(w, target);
    assert Distance(Blend(w, target, rate), target) == (1.0 - rate) * d;
    assert (1.0 - rate) * d <= 0.975 * d;
  }

  lemma BlendDifference(w: real, target: real, rate: real)
    ensures Blend(w, target, rate) - target == (1.0 - rate) * (w - target)
  {
  }

  lemma StepShrinks(p: Profile, features: Weights, k: Feature, bound: real)
    requires Distribution(p.weights) && Distribution(features) && k in p.weights && k in features
    requires Distance(p.weights[k], features[k]) <= bound
    ensures var after := Learn(p, features, true).weights;
      Distribution(after) && k in after && Distance(after[k], features[k]) <= 0.975 * bound
  {
    StepIsBlend(p, features);
    RateBounds(p.observations);
    MovedIsBlend(p.weights, features, Rate(p.observations), k);
    BlendShrinks(p.weights[k], features[k], Rate(p.observations), bound);
  }

  function Power(x: real, n: nat): real {
    if n == 0 then 1.0 else x * Power(x, n - 1)
  }

  function Iterate<T>(step: T -> T, x: T, n: nat): T {
    if n == 0 then x else step(Iterate(step, x, n - 1))
  }

  /** n identical positive updates. */
  function Repeat(p: Profile, features: Weights, n: nat): Profile {
    Iterate(Positive(features), p, n)
  }

  /** The bound after n steps. */
  function Shrunk(d: real, n: nat): real {
    if n == 0 then d else 0.975 * Shrunk(d, n - 1)
  }

  lemma {:induction false} ShrunkIsPower(d: real, n: nat)
    ensures Shrunk(d, n) == Power(0.975, n) * d
  {
    if n > 0 { ShrunkIsPower(d, n - 1); }
  }

  ghost predicate ShrinksAt<T(!new)>(step: T -> T, near: (T, real) -> bool, x: T, d: real) {
    near(x, d) ==> near(step(x), 0.975 * d)
  }

  lemma {:induction false} IteratesShrink<T(!new)>(step: T -> T, near: (T, real) -> bool, x: T, d: real, n: nat)
    requires forall y: T, e: real :: ShrinksAt(step, near, y, e)
    requires near(x, d)
    ensures near(Iterate(step, x, n), Shrunk(d, n))
  {
    if n > 0 {
      IteratesShrink(step, near, x, d, n - 1);
      assert ShrinksAt(step, near, Iterate(step, x, n - 1), Shrunk(d, n - 1));
    }
  }

  /** A distribution whose weight k is at most d away from the target's. */
  ghost predicate Near(w: Weights, target: Weights, k: Feature, d: real) {
    Distribution(w) && k in w && k in target && Distance(w[k], target[k]) <= d
  }

  lemma LearnShrinks(p: Profile, features: Weights, k: Feature, d: real)
    requires Distribution(features) && Near(p.weights, features, k, d)
    ensures Near(Learn(p, features, true).weights, features, k, 0.975 * d)
  {
    StepShrinks(p, features, k, d);
  }

  function Positive(features: Weights): Profile -> Profile {
    q => Learn(q, features, true)
  }

  ghost function NearTo(features: Weights, k: Feature): (Profile, real) -> bool {
    (q: Profile, d: real) => Near(q.weights, features, k, d)
  }

  lemma PositiveShrinks(features: Weights, k: Feature, q: Profile, d: real)
    requires Distribution(features)
    ensures ShrinksAt(Positive(features), NearTo(features, k), q, d)
  {
    if Near(q.weights, features, k, d) { LearnShrinks(q, features, k, d); }
  }

  lemma DistributionsConverge(p: Profile, features: Weights, n: nat, k: Feature, d: real)
    requires Distribution(features) && Near(p.weights, features, k, d)
    ensures Near(Repeat(p, features, n).weights, features, k, Shrunk(d, n))
  {
    forall q: Profile, e: real ensures ShrinksAt(Positive(features), NearTo(features, k), q, e) {
      PositiveShrinks(features, k, q, e);
    }
    assert NearTo(features, k)(p, d);
    IteratesShrink(Positive(features), NearTo(features, k), p, d, n);
    assert NearTo(features, k)(Repeat(p, features, n), Shrunk(d, n));
  }

  /** The stored profile with the weights that a reader of it gets. */
  function Read(p: Profile): Profile {
    p.(weights := Normalize(p.weights))
  }

  lemma {:induction false} IteratesMeet<T>(step: T -> T, x: T, y: T, n: nat)
    requires step(x) == step(y) && n >= 1
    ensures Iterate(step, x, n) == Iterate(step, y, n)
  {
    if n == 1 {
      assert Iterate(step, x, 0) == x && Iterate(step, y, 0) == y;
    } else {
      IteratesMeet(step, x, y, n - 1);
    }
  }

  lemma NormalizeTwice(w: Weights)
    requires !Degenerate(w)
    ensures Normalize(Normalize(w)) == Normalize(w)
  {
    NormalizeIsDistributionIff(w);
    NormalizeFixesDistributions(Normalize(w));
  }

  /** Learning starts from what a reader gets, so it does not matter whether that was stored. */
  lemma RepeatFromRead(p: Profile, features: Weights, n: nat)
    requires !Degenerate(p.weights) && n >= 1
    ensures Repeat(p, features, n) == Repeat(Read(p), features, n)
  {
    NormalizeTwice(p.weights);
    assert Positive(features)(p) == Positive(features)(Read(p));
    IteratesMeet(Positive(features), p, Read(p), n);
  }

  lemma StoredConverges(p: Profile, features: Weights, n: nat, k: Feature, d: real)
    requires Distribution(features) && Near(Normalize(p.weights), features, k, d) && n >= 1
    ensures Near(Repeat(p, features, n).weights, features, k, Shrunk(d, n))
  {
    NormalizeIsDistributionIff(p.weights);
    DistributionsConverge(Read(p), features, n, k, d);
    RepeatFromRead(p, features, n);
  }

  /** n identical positive updates towards a distribution, from any stored profile: a weight that a reader
      finds within d of its target before is found within 0.975^n of d after. */
  lemma RepeatedFeedbackConverges(p: Profile, features: Weights, n: nat, k: Feature, d: real)
    requires Distribution(features) && Near(Normalize(p.weights), features, k, d)
    ensures Near(Normalize(Repeat(p, features, n).weights), features, k, Power(0.975, n) * d)
    ensures n >= 1 ==> Near(Repeat(p, features, n).weights, features, k, Power(0.975, n) * d)
  {
    ShrunkIsPower(d, n);
    if n >= 1 {
      StoredConverges(p, features, n, k, d);
      NormalizeFixesDistributions(Repeat(p, features, n).weights);
    } else {
      assert Repeat(p, features, 0) == p;
    }
  }

  /** Bernoulli's inequality. */
  lemma {:induction false} PowersVanish(n: nat)
    ensures 0.0 <= Power(0.975, n) && Power(0.975, n) * (39.0 + n as real) <= 39.0
  {
    if n > 0 {
      PowersVanish(n - 1);
      PowerStep(Power(0.975, n - 1), (n - 1) as real);
    }
  }

  lemma PowerStep(x: real, m: real)
    requires 0.0 <= x && 0.0 <= m && x * (39.0 + m) <= 39.0
    ensures 0.0 <= 0.975 * x && 0.975 * x * (40.0 + m) <= 39.0
  {
    ProductNonNegative(x, m);
    assert 0.975 * x * (40.0 + m) == x * (39.0 + m) - 0.025 * (x * m);
  }

  lemma SmallPower(x: real, n: real, eps: real)
    requires 0.0 <= x && x * (39.0 + n) <= 39.0 && eps > 0.0 && n >= 0.0 && n * eps >= 39.0
    ensures x <= eps
  {
    assert x * (39.0 + n) == 39.0 * x + x * n;
    if x > eps { Larger(eps, x, n); }
  }

  lemma Larger(a: real, b: real, c: real)
    requires a <= b && c >= 0.0
    ensures c * a <= b * c
  {
    ProductNonNegative(b - a, c);
  }

  lemma UsableIsNear(w: Weights, features: Weights, k: Feature)
    requires !Degenerate(w) && Distribution(features)
    ensures Near(Normalize(w), features, k, 1.0)
  {
    NormalizeIsDistributionIff(w);
    var r := Normalize(w);
    assert k in r && k in features && 0.0 <= r[k] <= 1.0 && 0.0 <= features[k] <= 1.0;
  }

  lemma EnoughSteps(n: nat, eps: real)
    requires eps > 0.0 && n as real * eps >= 39.0
    ensures n >= 1 && Shrunk(1.0, n) <= eps
  {
    PowersVanish(n);
    SmallPower(Power(0.975, n), n as real, eps);
    ShrunkIsPower(1.0, n);
  }

  lemma NearWidens(w: Weights, features: Weights, k: Feature, d: real, e: real)
    requires Near(w, features, k, d) && d <= e
    ensures Near(w, features, k, e)
  {
  }

  /** With n >= 39 / eps equal positive updates every weight comes within eps of its target. */
  lemma UsableProfilesConverge(p: Profile, features: Weights, n: nat, k: Feature, eps: real)
    requires !Degenerate(p.weights) && Distribution(features) && eps > 0.0 && n as real * eps >= 39.0
    ensures Near(Repeat(p, features, n).weights, features, k, eps)
  {
    UsableIsNear(p.weights, features, k);
    EnoughSteps(n, eps);
    StoredConverges(p, features, n, k, 1.0);
    NearWidens(Repeat(p, features, n).weights, features, k, Shrunk(1.0, n), eps);
  }

  /** A new profile is no exception, although its stored weights add up to 1.08: what counts is how far the
      normalised defaults are from the target. */
  lemma NewProfileConverges(features: Weights, n: nat, k: Feature, d: real)
    requires Distribution(features) && k in features && n >= 1 && Distance(Normalize(DEFAULT)[k], features[k]) <= d
    ensures Near(Repeat(NEW_PROFILE, features, n).weights, features, k, Power(0.975, n) * d)
  {
    LearnedWeightsAreADistribution([]);
    UsableIsNear(NEW_PROFILE.weights, features, k);
    RepeatedFeedbackConverges(NEW_PROFILE, features, n, k, d);
  }

  // ---------------------------------------------------------------- aggregating

  /** Observation-weighted sum of profiles, feature by feature. */
  function Pooled(rows: seq<Profile>, k: Feature): real {
    if rows == [] then 0.0
    else
      var n := |rows| - 1;
      Pooled(rows[..n], k) + Contribution(rows[n], k)
  }

  function Contribution(row: Profile, k: Feature): real {
    Scaled(Entry(row.weights), row.observations as real)(k)
  }

  function Observations(rows: seq<Profile>): nat {
    if rows == [] then 0 else Observations(rows[..|rows| - 1]) + rows[|rows| - 1].observations
  }

  /** The profiles that count: with observations, and normalised. */
  function Trained(rows: seq<Profile>): seq<Profile> {
    if rows == [] then []
    else
      var n := |rows| - 1;
      Trained(rows[..n]) +
      if rows[n].observations > 0 then [Profile(Normalize(rows[n].weights), rows[n].observations)] else []
  }

  function PooledEntries(rows: seq<Profile>): Feature -> real {
    k => Pooled(rows, k)
  }

  lemma {:induction false} PooledSum(rows: seq<Profile>)
    requires forall r :: r in rows ==> Distribution(r.weights)
    ensures forall k: Feature :: Pooled(rows, k) >= 0.0
    ensures Sum(PooledEntries(rows)) == Observations(rows) as real
  {
    if rows == [] {
      SumOfZeros(PooledEntries(rows), |FEATURES|);
    } else {
      var n := |rows| - 1;
      PooledSum(rows[..n]);
      var last := Scaled(Entry(rows[n].weights), rows[n].observations as real);
      forall k: Feature ensures last(k) >= 0.0 { ContributionSign(rows[n], k); }
      SumAdds(PooledEntries(rows[..n]), last, PooledEntries(rows), |FEATURES|);
      ScaledSum(Entry(rows[n].weights), rows[n].observations as real);
    }
  }

  lemma ContributionSign(row: Profile, k: Feature)
    requires Distribution(row.weights)
    ensures Contribution(row, k) >= 0.0
  {
    assert k in row.weights && row.weights[k] >= 0.0;
    ProductNonNegative(row.observations as real, row.weights[k]);
  }

  /** Weight k of `mean` is the observation-weighted mean of the rows' weights k. */
  ghost predicate MeanAt(rows: seq<Profile>, mean: Weights, k: Feature) {
    k in mean && ScaledAt(Entry(mean), PooledEntries(rows), Observations(rows) as real, k)
  }

  lemma ScaledIsShare(r: Weights, f: Feature -> real, total: real, k: Feature)
    requires total > 0.0 && 0.0 <= f(k) <= total && k in r && ScaledAt(Entry(r), f, total, k)
    ensures ShareAt(r, f, total, k)
  {
    assert Entry(r)(k) == r[k];
    UnitFactor(r[k], total);
  }

  lemma UnitFactor(x: real, y: real)
    requires y > 0.0 && 0.0 <= y * x <= y
    ensures 0.0 <= x <= 1.0
  {
    assert x == (y * x) / y;
    QuotientInUnit(y * x, y);
  }

  /** The mean of distributions is a distribution again, so normalising it changes nothing. */
  lemma MeanIsDistribution(rows: seq<Profile>, mean: Weights)
    requires Observations(rows) > 0 && forall r :: r in rows ==> Distribution(r.weights)
    requires forall k: Feature :: MeanAt(rows, mean, k)
    ensures Distribution(mean) && Normalize(mean) == mean
  {
    var sums, total := PooledEntries(rows), Observations(rows) as real;
    PooledSum(rows);
    forall k: Feature ensures ShareAt(mean, sums, total, k) {
      assert MeanAt(rows, mean, k);
      PartOfSum(sums, k);
      ScaledIsShare(mean, sums, total, k);
    }
    SharesAreDistribution(mean, sums, total);
    NormalizeFixesDistributions(mean);
  }

  lemma {:induction false} TrainedAreDistributions(rows: seq<Profile>)
    requires forall r :: r in rows ==> !Degenerate(r.weights)
    ensures forall r :: r in Trained(rows) ==> Distribution(r.weights)
  {
    if rows != [] {
      TrainedAreDistributions(rows[..|rows| - 1]);
      NormalizeIsDistributionIff(rows[|rows| - 1].weights);
    }
  }

  lemma {:induction false} TrainedObservations(rows: seq<Profile>)
    ensures Observations(Trained(rows)) == Observations(rows)
  {
    if rows != [] {
      var n := |rows| - 1;
      TrainedObservations(rows[..n]);
      if rows[n].observations > 0 {
        assert Trained(rows)[..|Trained(rows)| - 1] == Trained(rows[..n]);
      } else {
        assert Trained(rows) == Trained(rows[..n]);
      }
    }
  }

  /** Adds one profile into the running sums. */
  method AddWeighted(sums: Weights, row: Profile, ghost before: seq<Profile>) returns (r: Weights)
    requires forall k: Feature :: k in sums && k in row.weights && sums[k] == Pooled(before, k)
    ensures forall k: Feature :: k in r && r[k] == Pooled(before + [row], k)
  {
    r := map k: Feature | true :: sums[k] + row.weights[k] * row.observations as real;
    assert (before + [row])[..|before|] == before;
  }

  method DivideAll(sums: Weights, total: nat, ghost rows: seq<Profile>) returns (mean: Weights)
    requires total == Observations(rows) > 0
    requires forall k: Feature :: k in sums && sums[k] == Pooled(rows, k)
    ensures forall k: Feature :: MeanAt(rows, mean, k)
  {
    mean := map k: Feature | true :: sums[k] / total as real;
    forall k: Feature ensures MeanAt(rows, mean, k) { TimesQuotient(sums[k], total as real); }
  }

  /** The sums and the observation count over the trained profiles. */
  method PoolProfiles(rows: seq<Profile>) returns (sums: Weights, total: nat)
    ensures total == Observations(rows)
    ensures forall k: Feature :: k in sums && sums[k] == Pooled(Trained(rows), k)
  {
    sums, total := Tabulate(k => 0.0), 0;
    ghost var trained := [];
    for i := 0 to |rows|
      invariant trained == Trained(rows[..i]) && total == Observations(rows[..i])
      invariant forall k: Feature :: k in sums && sums[k] == Pooled(trained, k)
    {
      assert rows[..i + 1][..i] == rows[..i];
      if rows[i].observations > 0 {
        var row := Profile(Normalize(rows[i].weights), rows[i].observations);
        sums := AddWeighted(sums, row, trained);
        trained := trained + [row];
        total := total + rows[i].observations;
      }
    }
    assert rows[..|rows|] == rows;
  }

  /** `get_retrieval_profile` for a whole user: the mean of the trained profiles, or the defaults. */
  method AggregateProfile(rows: seq<Profile>) returns (result: Profile)
    ensures result.observations == Observations(rows)
    ensures result.observations == 0 ==> result.weights == Normalize(DEFAULT)
    ensures result.observations > 0 && (forall r :: r in rows ==> !Degenerate(r.weights)) ==>
      Distribution(result.weights) && forall k: Feature :: MeanAt(Trained(rows), result.weights, k)
  {
    var sums, total := PoolProfiles(rows);
    if total == 0 {
      return Profile(Normalize(DEFAULT), 0);
    }
    TrainedObservations(rows);
    var mean := DivideAll(sums, total, Trained(rows));
    if forall r :: r in rows ==> !Degenerate(r.weights) {
      TrainedAreDistributions(rows);
      MeanIsDistribution(Trained(rows), mean);
    }
    result := Profile(Normalize(mean), total);
  }
}
