/** Stored ranking profiles, and the score that uses them. */
module Ranking {
  import opened Prelude
  import opened Records
  import opened Weights

  // ---------------------------------------------------------------- learning, row by row

  function Restrict(features: Weights, seen: set<Feature>): Weights {
    map k | k in features && k in seen :: features[k]
  }

  lemma MovedOne(base: Weights, features: Weights, positive: bool, rate: real, seen: set<Feature>, k: Feature)
    requires (forall j: Feature :: j in base) && k !in seen
    ensures var before := Moved(base, Restrict(features, seen), positive, rate);
      Moved(base, Restrict(features, seen + {k}), positive, rate) ==
      if k in features then before[k := Blend(before[k], Target(features, positive, k), rate)] else before
  {
    var before := Moved(base, Restrict(features, seen), positive, rate);
    var after := Moved(base, Restrict(features, seen + {k}), positive, rate);
    assert before.Keys == base.Keys == after.Keys;
  }

  /** The `memory_retrieval_profiles` table: one profile per owner and workspace. */
  class MemoryProfiles {
    var rows: map<Key, Profile>

    constructor ()
      ensures rows == map[]
    {
      rows := map[];
    }

    function Stored(key: Key): Profile
      reads this
    {
      if key in rows then rows[key] else NEW_PROFILE
    }

    static method Move(base: Weights, features: Weights, positive: bool, rate: real) returns (current: Weights)
      requires forall k: Feature :: k in base
      ensures current == Moved(base, features, positive, rate)
    {
      current := base;
      ghost var seen: set<Feature> := {};
      assert Moved(base, Restrict(features, seen), positive, rate) == base;
      for i := 0 to |FEATURES|
        invariant seen == Elements(FEATURES[..i])
        invariant current == Moved(base, Restrict(features, seen), positive, rate)
      {
        var key := FEATURES[i];
        MovedOne(base, features, positive, rate, seen, key);
        if key in features {
          current := current[key := Blend(current[key], Target(features, positive, key), rate)];
        }
        assert FEATURES[..i + 1] == FEATURES[..i] + [key];
        ElementsPush(FEATURES[..i], key);
        seen := seen + {key};
      }
      assert FEATURES[..|FEATURES|] == FEATURES;
      forall k: Feature ensures k in seen { Listed(k); }
      assert Restrict(features, seen) == features;
    }

    static method Step(row: Profile, features: Weights, positive: bool) returns (after: Profile)
      ensures after == Learn(row, features, positive)
    {
      var current := Normalize(row.weights);
      var moved := Move(current, features, positive, Rate(row.observations));
      after := Profile(Normalize(moved), row.observations + 1);
    }

    /** `learn_retrieval_profile`: one step for one profile, created on first use; no other row changes. */
    method LearnRetrievalProfile(key: Key, features: Weights, positive: bool)
      modifies this
      ensures rows == old(rows)[key := Learn(old(Stored(key)), features, positive)]
    {
      var row := Stored(key);
      row := Step(row, features, positive);
      rows := rows[key := row];
    }
  }

  // ---------------------------------------------------------------- scoring

  function Times(f: Feature -> real, w: Weights): Feature -> real {
    k => f(k) * Entry(w)(k)
  }

  function Weighted(f: Feature -> real, w: Weights): real {
    Sum(Times(f, w))
  }

  function Discount(status: Status, stale: bool): real {
    (if stale then 0.58 else 1.0) * (if status == Active then 1.0 else if status == Disputed then 0.32 else 0.45)
  }

  /** `score_candidate` from the feature vector on, before rounding. */
  function Score(f: Feature -> real, weights: Weights, status: Status, stale: bool): real {
    Discounted(Weighted(f, Normalize(weights)), Discount(status, stale))
  }

  function Discounted(score: real, factor: real): real {
    Clip(score * factor)
  }

  ghost predicate InUnit(f: Feature -> real) {
    forall k: Feature :: 0.0 <= f(k) <= 1.0
  }

  lemma TimesBounds(f: Feature -> real, w: Weights, k: Feature)
    requires 0.0 <= f(k) <= 1.0 && 0.0 <= Entry(w)(k)
    ensures 0.0 <= Times(f, w)(k) <= Entry(w)(k)
  {
    var x, y := f(k), Entry(w)(k);
    ProductInUnit(x, y);
    assert Times(f, w)(k) == x * y;
  }

  /** A weighted sum of features in [0, 1] lies between 0 and 1: it is a mean. */
  lemma WeightedIsMean(f: Feature -> real, w: Weights)
    requires InUnit(f) && Distribution(w)
    ensures 0.0 <= Weighted(f, w) <= 1.0
  {
    forall k: Feature ensures 0.0 <= Times(f, w)(k) <= Entry(w)(k) {
      assert k in w && 0.0 <= f(k);
      TimesBounds(f, w, k);
    }
    SumOfNonNegative(Times(f, w), |FEATURES|);
    SumMonotone(Times(f, w), Entry(w), |FEATURES|);
  }

  /** A profile's weighted sum stays within [0, 1] for every feature vector, so that the final clamp of an
      active, verified memory never cuts anything, exactly when its weights do not all vanish. */
  lemma ClampIsIdleIff(w: Weights)
    ensures (forall f: Feature -> real :: InUnit(f) ==> 0.0 <= Weighted(f, Normalize(w)) <= 1.0) <==> !Degenerate(w)
  {
    NormalizeIsDistributionIff(w);
    if Degenerate(w) {
      SourceSum(w);
      var full := (k: Feature) => 1.0;
      forall k: Feature ensures Times(full, DEFAULT)(k) == DefaultWeight(k) { DefaultEntries(); }
      SumAgrees(Times(full, DEFAULT), DefaultWeight, |FEATURES|);
      DefaultSum();
      assert InUnit(full) && Weighted(full, Normalize(w)) == 1.08;
    } else {
      forall f: Feature -> real | InUnit(f) ensures 0.0 <= Weighted(f, Normalize(w)) <= 1.0 {
        WeightedIsMean(f, Normalize(w));
      }
    }
  }

  lemma TimesMonotone(f: Feature -> real, g: Feature -> real, w: Weights, k: Feature)
    requires f(k) <= g(k) && 0.0 <= Entry(w)(k)
    ensures Times(f, w)(k) <= Times(g, w)(k)
  {
    ProductMonotone(f(k), g(k), Entry(w)(k));
  }

  lemma ProductMonotone(x: real, y: real, c: real)
    requires x <= y && c >= 0.0
    ensures x * c <= y * c
  {
    ProductNonNegative(y - x, c);
    assert (y - x) * c == y * c - x * c;
  }

  lemma WeightedIsMonotone(f: Feature -> real, g: Feature -> real, w: Weights)
    requires forall k: Feature :: f(k) <= g(k) && Entry(w)(k) >= 0.0
    ensures Weighted(f, w) <= Weighted(g, w)
  {
    forall k: Feature ensures Times(f, w)(k) <= Times(g, w)(k) {
      TimesMonotone(f, g, w, k);
    }
    SumMonotone(Times(f, w), Times(g, w), |FEATURES|);
  }

  lemma NormalizedSign(w: Weights)
    ensures forall k: Feature :: Entry(Normalize(w))(k) >= 0.0
  {
    NormalizeIsDistributionIff(w);
    if Degenerate(w) {
      SourceSum(w);
      DefaultEntries();
    }
  }

  lemma ClipIsMonotone(x: real, y: real)
    requires x <= y
    ensures Clip(x) <= Clip(y)
  {
  }

  lemma DiscountedIsMonotone(x: real, y: real, c: real)
    requires x <= y && c >= 0.0
    ensures Discounted(x, c) <= Discounted(y, c)
  {
    ProductMonotone(x, y, c);
    ClipIsMonotone(x * c, y * c);
  }

  lemma DiscountBounds(status: Status, stale: bool)
    ensures 0.0 < Discount(status, stale) <= 1.0 && Discount(Active, false) == 1.0
    ensures status != Active ==> Discount(status, stale) <= 0.45
  {
  }

  lemma ClipIsIdle(x: real)
    requires 0.0 <= x <= 1.0
    ensures Clip(x) == x
  {
  }

  lemma Capped(x: real, c: real)
    requires 0.0 <= x <= 1.0 && 0.0 <= c <= 1.0
    ensures 0.0 <= Discounted(x, c) <= c && Discounted(x, c) == x * c
  {
    var y := x * c;
    ProductInUnit(x, c);
    assert 0.0 <= y <= c;
    ClipIsIdle(y);
    assert Discounted(x, c) == Clip(y) == y;
  }

  lemma CappedByHistory(x: real, c: real)
    requires 0.0 <= x <= 1.0 && 0.0 <= c <= 0.45
    ensures Discounted(x, c) <= 0.45 * x
  {
    Capped(x, c);
    ProductMonotone(c, 0.45, x);
    assert c * x <= 0.45 * x;
    assert Discounted(x, c) == c * x;
  }

  /** Raising a feature never lowers the score, whatever the weights. */
  lemma ScoreIsMonotone(f: Feature -> real, g: Feature -> real, weights: Weights, status: Status, stale: bool)
    requires forall k: Feature :: f(k) <= g(k)
    ensures Score(f, weights, status, stale) <= Score(g, weights, status, stale)
  {
    NormalizedSign(weights);
    WeightedIsMonotone(f, g, Normalize(weights));
    DiscountBounds(status, stale);
    DiscountedIsMonotone(Weighted(f, Normalize(weights)), Weighted(g, Normalize(weights)), Discount(status, stale));
  }

  /** With a usable profile a memory scores at most its discount, and one that is not active at most 0.45
      of what it would score as an active, verified one. */
  lemma DiscountCapsScore(f: Feature -> real, weights: Weights, status: Status, stale: bool)
    requires InUnit(f) && !Degenerate(weights)
    ensures 0.0 <= Score(f, weights, status, stale) <= Discount(status, stale)
    ensures status != Active ==> Score(f, weights, status, stale) <= 0.45 * Score(f, weights, Active, false)
  {
    NormalizeIsDistributionIff(weights);
    WeightedIsMean(f, Normalize(weights));
    DiscountBounds(status, stale);
    DiscountRelates(Weighted(f, Normalize(weights)), status, stale);
  }

  lemma DiscountRelates(x: real, status: Status, stale: bool)
    requires 0.0 <= x <= 1.0
    ensures 0.0 <= Discounted(x, Discount(status, stale)) <= Discount(status, stale)
    ensures status != Active ==> Discounted(x, Discount(status, stale)) <= 0.45 * Discounted(x, Discount(Active, false))
  {
    DiscountBounds(status, stale);
    Capped(x, Discount(status, stale));
    Capped(x, 1.0);
    if status != Active { CappedByHistory(x, Discount(status, stale)); }
  }

  lemma FallbackIsDefault(weights: Weights)
    requires Degenerate(weights)
    ensures Normalize(weights) == DEFAULT
  {
    SourceSum(weights);
  }

  lemma DefaultsOverflow(f: Feature -> real)
    requires forall k: Feature :: f(k) == 1.0
    ensures Weighted(f, DEFAULT) == 1.08
  {
    forall k: Feature ensures Times(f, DEFAULT)(k) == DefaultWeight(k) { DefaultEntries(); }
    SumAgrees(Times(f, DEFAULT), DefaultWeight, |FEATURES|);
    DefaultSum();
  }

  lemma Overflow(x: real)
    requires x >= 1.0
    ensures Discounted(x, Discount(Active, false)) == 1.0
  {
    assert Discount(Active, false) == 1.0;
  }

  /** Whatever the weights and features, a score is in [0, 1]. */
  lemma ScoreInUnit(f: Feature -> real, weights: Weights, status: Status, stale: bool)
    ensures 0.0 <= Score(f, weights, status, stale) <= 1.0
  {
  }

  /** With weights that all vanish, for which the defaults step in unnormalised, a memory that has every feature in
      full would score 1.08: the clamp makes it 1. */
  lemma FallbackScoresOne(f: Feature -> real, weights: Weights)
    requires Degenerate(weights) && forall k: Feature :: f(k) == 1.0
    ensures Weighted(f, Normalize(weights)) == 1.08 && Score(f, weights, Active, false) == 1.0
  {
    FallbackIsDefault(weights);
    DefaultsOverflow(f);
    Overflow(Weighted(f, DEFAULT));
  }

  /** With a usable profile the score is a plain product: 0.58 for a stale memory, 0.32 for a disputed and 0.45 for
      any other inactive one, of what it scores when active and verified. */
  lemma ScoreIsDiscounted(f: Feature -> real, weights: Weights, status: Status, stale: bool)
    requires InUnit(f) && !Degenerate(weights)
    ensures Score(f, weights, Active, false) == Weighted(f, Normalize(weights))
    ensures Score(f, weights, status, false) ==
            Score(f, weights, Active, false) * match status case Active => 1.0 case Disputed => 0.32 case _ => 0.45
    ensures Score(f, weights, status, true) == Score(f, weights, status, false) * 0.58
  {
    NormalizeIsDistributionIff(weights);
    WeightedIsMean(f, Normalize(weights));
    var x := Weighted(f, Normalize(weights));
    ProductIsKept(x, Active);
    ProductIsKept(x, status);
  }

  lemma ProductIsKept(x: real, status: Status)
    requires 0.0 <= x <= 1.0
    ensures Discounted(x, Discount(status, false)) == x * Discount(status, false)
    ensures Discounted(x, Discount(status, true)) == x * Discount(status, false) * 0.58
  {
    DiscountBounds(status, false);
    DiscountBounds(status, true);
    Capped(x, Discount(status, false));
    Capped(x, Discount(status, true));
    Regroup(x, Discount(status, false));
    assert Discount(status, true) == 0.58 * Discount(status, false);
  }

  lemma Regroup(x: real, y: real)
    ensures x * (0.58 * y) == x * y * 0.58
  {
  }
}
