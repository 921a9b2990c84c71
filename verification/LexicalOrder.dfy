/** What the BM25 score prefers: rare terms, frequent mention, short texts. */
module LexicalOrder {
  import opened Prelude
  import opened Records
  import opened Lexical

  // ---------------------------------------------------------------- the two factors

  lemma Positive(x: real, y: real)
    requires x > 0.0 && y > 0.0
    ensures x * y > 0.0
  {
  }

  lemma NonNegative(x: real, y: real)
    requires x >= 0.0 && y >= 0.0
    ensures x * y >= 0.0
  {
  }

  lemma QuotientOrder(x: real, y: real, u: real, v: real)
    requires u > 0.0 && v > 0.0
    ensures x * v < y * u ==> x / u < y / v
    ensures x * v <= y * u ==> x / u <= y / v
  {
    QuotientDifference(x, y, u, v);
    Positive(u, v);
  }

  lemma QuotientDifference(x: real, y: real, u: real, v: real)
    requires u > 0.0 && v > 0.0
    ensures u * v != 0.0 && x / u - y / v == (x * v - y * u) / (u * v)
  {
    Positive(u, v);
  }

  /** The fewer texts hold a term, the more it is worth. */
  lemma RarerIsWorthMore(m: Bm25, n: nat, few: nat, many: nat)
    requires Proper(m) && few < many <= n
    ensures Idf(m, n, few) > Idf(m, n, many) > 0.0
  {
    var all, f, g := n as real, few as real, many as real;
    OddsFall(all, f, g);
    assert 0.0 < (all - g + 0.5) / (g + 0.5);
  }

  lemma OddsFall(n: real, f: real, g: real)
    requires 0.0 <= f < g <= n
    ensures (n - g + 0.5) / (g + 0.5) < (n - f + 0.5) / (f + 0.5)
  {
    OddsExpanded(n, f, g);
    Positive(n + 1.0, g - f);
    QuotientOrder(n - g + 0.5, n - f + 0.5, g + 0.5, f + 0.5);
  }

  lemma OddsExpanded(n: real, f: real, g: real)
    ensures (n - f + 0.5) * (g + 0.5) - (n - g + 0.5) * (f + 0.5) == (n + 1.0) * (g - f)
  {
  }

  /** What is added to the frequency in the denominator. */
  function Damping(m: Bm25, length: real, average: real): real {
    m.k1 * (1.0 - m.b + m.b * (length / (if average >= 1.0 then average else 1.0)))
  }

  lemma RatioOrder(x: real, y: real, d: real)
    requires d > 0.0 && 0.0 < x <= y
    ensures 0.0 < x / d <= y / d && (x < y ==> x / d < y / d)
  {
  }

  lemma ScaleOrder(k: real, x: real, y: real)
    requires k > 0.0 && x <= y
    ensures k * x <= k * y && (x < y ==> k * x < k * y) && (x > 0.0 ==> k * x > 0.0)
  {
    NonNegative(k, y - x);
    if x < y { Positive(k, y - x); }
    if x > 0.0 { Positive(k, x); }
    assert k * (y - x) == k * y - k * x;
  }

  lemma MixOrder(b: real, x: real, y: real)
    requires 0.0 <= b <= 1.0 && 0.0 < x <= y
    ensures 0.0 < 1.0 - b + b * x <= 1.0 - b + b * y
    ensures b > 0.0 && x < y ==> 1.0 - b + b * x < 1.0 - b + b * y
  {
    if b > 0.0 { ScaleOrder(b, x, y); }
  }

  function Mixed(m: Bm25, length: real, average: real): real {
    1.0 - m.b + m.b * (length / (if average >= 1.0 then average else 1.0))
  }

  lemma DampingIsMixed(m: Bm25, length: real, average: real)
    ensures Damping(m, length, average) == m.k1 * Mixed(m, length, average)
  {
  }

  lemma MixedOrder(m: Bm25, short: real, long: real, average: real)
    requires Proper(m) && 0.0 < short <= long
    ensures 0.0 < Mixed(m, short, average) <= Mixed(m, long, average)
    ensures m.b > 0.0 && short < long ==> Mixed(m, short, average) < Mixed(m, long, average)
  {
    var d := if average >= 1.0 then average else 1.0;
    RatioOrder(short, long, d);
    MixOrder(m.b, short / d, long / d);
    MixedIs(m, short, average, d, short / d);
    MixedIs(m, long, average, d, long / d);
  }

  lemma MixedIs(m: Bm25, length: real, average: real, d: real, x: real)
    requires d == (if average >= 1.0 then average else 1.0) && x == length / d
    ensures Mixed(m, length, average) == 1.0 - m.b + m.b * x
  {
  }

  lemma DampingOrder(m: Bm25, short: real, long: real, average: real)
    requires Proper(m) && 0.0 < short <= long
    ensures 0.0 < Damping(m, short, average) <= Damping(m, long, average)
    ensures m.b > 0.0 && short < long ==> Damping(m, short, average) < Damping(m, long, average)
  {
    MixedOrder(m, short, long, average);
    ScaleOrder(m.k1, Mixed(m, short, average), Mixed(m, long, average));
    DampingIsMixed(m, short, average);
    DampingIsMixed(m, long, average);
  }

  lemma WeightIs(m: Bm25, f: real, length: real, average: real, c: real)
    requires Proper(m) && f > 0.0 && c > 0.0 && c == Damping(m, length, average)
    ensures Weight(m, f, length, average) == Share(f, c, m.k1 + 1.0) > 0.0
  {
    assert Denominator(m, f, length, average) == f + c;
    Positive(f, m.k1 + 1.0);
  }

  function Share(f: real, c: real, k: real): real
    requires f + c > 0.0
  {
    f * k / (f + c)
  }

  /** More mentions in no longer a text weigh more, and so does a shorter text with as many. */
  lemma WeightOrder(m: Bm25, f: real, g: real, short: real, long: real, average: real)
    requires Proper(m) && 0.0 < g <= f && 0.0 < short <= long
    ensures Weight(m, f, short, average) >= Weight(m, g, long, average) > 0.0
    ensures g < f || (m.b > 0.0 && short < long) ==> Weight(m, f, short, average) > Weight(m, g, long, average)
  {
    var c, e := Damping(m, short, average), Damping(m, long, average);
    DampingOrder(m, short, long, average);
    WeightIs(m, f, short, average, c);
    WeightIs(m, g, long, average, e);
    Saturation(f, g, c, e, m.k1 + 1.0);
  }

  lemma Saturation(f: real, g: real, c: real, e: real, k: real)
    requires 0.0 < g <= f && 0.0 < c <= e && k > 0.0
    ensures Share(g, e, k) <= Share(f, c, k)
    ensures g < f || c < e ==> Share(g, e, k) < Share(f, c, k)
  {
    assert f * e >= g * e >= g * c by { CrossOrder(f, g, c, e); }
    if g < f || c < e { StrictCross(f, g, c, e); }
    ScaledCross(f, g, c, e, k);
    QuotientOrder(g * k, f * k, g + e, f + c);
  }

  lemma CrossOrder(f: real, g: real, c: real, e: real)
    requires 0.0 < g <= f && 0.0 < c <= e
    ensures f * e >= g * e >= g * c
  {
  }

  lemma StrictCross(f: real, g: real, c: real, e: real)
    requires 0.0 < g <= f && 0.0 < c <= e && (g < f || c < e)
    ensures f * e > g * c
  {
    if g < f {
      assert (f - g) * e > 0.0;
      assert f * e == g * e + (f - g) * e;
      assert g * e >= g * c by { CrossOrder(f, g, c, e); }
    } else {
      assert g * (e - c) > 0.0;
      assert f * e == g * c + g * (e - c);
    }
  }

  lemma ScaledCross(f: real, g: real, c: real, e: real, k: real)
    requires k > 0.0
    ensures f * k * (g + e) - g * k * (f + c) == k * (f * e - g * c)
    ensures f * e >= g * c ==> g * k * (f + c) <= f * k * (g + e)
    ensures f * e > g * c ==> g * k * (f + c) < f * k * (g + e)
  {
    assert f * k * (g + e) == k * (f * g) + k * (f * e);
    assert g * k * (f + c) == k * (f * g) + k * (g * c);
    if f * e >= g * c { assert k * (f * e - g * c) >= 0.0; }
    if f * e > g * c { assert k * (f * e - g * c) > 0.0; }
  }

  // ---------------------------------------------------------------- texts against texts

  function Frequency(text: Text, t: Term): nat {
    multiset(text.tokens)[t]
  }

  /** Text `a` is no longer than `b` and mentions every term of the query at least as often. */
  ghost predicate AtLeast(texts: map<Id, Text>, query: seq<Term>, a: Id, b: Id)
    requires a in texts && b in texts
  {
    Length(texts[a]) <= Length(texts[b]) &&
    forall t :: t in query ==> Frequency(texts[a], t) >= Frequency(texts[b], t)
  }

  /** It mentions `t` more often, or as often and is shorter, when length counts. */
  predicate Ahead(m: Bm25, texts: map<Id, Text>, t: Term, a: Id, b: Id)
    requires a in texts && b in texts
  {
    Frequency(texts[a], t) > Frequency(texts[b], t) ||
    (m.b > 0.0 && Frequency(texts[a], t) > 0 && Length(texts[a]) < Length(texts[b]))
  }

  lemma HeldTermIsWorth(m: Bm25, texts: map<Id, Text>, scope: set<Id>, id: Id, t: Term)
    requires Proper(m) && id in texts && id in scope && t in texts[id].tokens
    ensures id in Having(texts, scope, t) && 1 <= |Having(texts, scope, t)| <= |scope|
    ensures Idf(m, |scope|, |Having(texts, scope, t)|) > 0.0
  {
    var having := Having(texts, scope, t);
    SubsetSize(having, scope);
    SubsetSize({id}, having);
    OddsPositive(|scope| as real, |having| as real);
  }

  lemma OddsPositive(n: real, f: real)
    requires 0.0 <= f <= n
    ensures (n - f + 0.5) / (f + 0.5) > 0.0
  {
  }

  /** On a term both texts hold, the weights decide. */
  lemma CommonTermOrder(m: Bm25, texts: map<Id, Text>, scope: set<Id>, a: Id, b: Id, t: Term)
    requires Proper(m) && a in texts && b in texts && a in scope && b in scope && t in texts[b].tokens
    requires Length(texts[a]) <= Length(texts[b]) && Frequency(texts[a], t) >= Frequency(texts[b], t)
    ensures TermScore(m, texts, scope, a, t) >= TermScore(m, texts, scope, b, t)
    ensures Ahead(m, texts, t, a, b) ==> TermScore(m, texts, scope, a, t) > TermScore(m, texts, scope, b, t)
  {
    HeldTermIsWorth(m, texts, scope, a, t);
    HeldTermIsWorth(m, texts, scope, b, t);
    var x, y := WeightsInOrder(m, texts, scope, a, b, t);
    var idf := Idf(m, |scope|, |Having(texts, scope, t)|);
    ScaleOrder(idf, y, x);
  }

  lemma WeightsInOrder(m: Bm25, texts: map<Id, Text>, scope: set<Id>, a: Id, b: Id, t: Term)
    returns (x: real, y: real)
    requires Proper(m) && a in Having(texts, scope, t) && b in Having(texts, scope, t)
    requires Length(texts[a]) <= Length(texts[b]) && Frequency(texts[a], t) >= Frequency(texts[b], t)
    ensures TermScore(m, texts, scope, a, t) == Idf(m, |scope|, |Having(texts, scope, t)|) * x
    ensures TermScore(m, texts, scope, b, t) == Idf(m, |scope|, |Having(texts, scope, t)|) * y
    ensures x >= y && (Ahead(m, texts, t, a, b) ==> x > y)
  {
    var idf := Idf(m, |scope|, |Having(texts, scope, t)|);
    x, y := WeightIn(m, texts, scope, a, t), WeightIn(m, texts, scope, b, t);
    TermScoreIs(m, texts, scope, a, t, idf, x);
    TermScoreIs(m, texts, scope, b, t, idf, y);
    WeightOrder(m, Frequency(texts[a], t) as real, Frequency(texts[b], t) as real, Length(texts[a]) as real,
                Length(texts[b]) as real, AverageLength(texts, scope));
  }

  lemma TermScoreOrder(m: Bm25, texts: map<Id, Text>, scope: set<Id>, a: Id, b: Id, t: Term)
    requires Proper(m) && a in texts && b in texts && a in scope && b in scope
    requires Length(texts[a]) <= Length(texts[b]) && Frequency(texts[a], t) >= Frequency(texts[b], t)
    ensures TermScore(m, texts, scope, a, t) >= TermScore(m, texts, scope, b, t)
    ensures Ahead(m, texts, t, a, b) ==> TermScore(m, texts, scope, a, t) > TermScore(m, texts, scope, b, t)
  {
    if t in texts[b].tokens {
      CommonTermOrder(m, texts, scope, a, b, t);
    } else {
      TermScoreSign(m, texts, scope, a, t);
      TermScoreSign(m, texts, scope, b, t);
    }
  }

  ghost function WeightIn(m: Bm25, texts: map<Id, Text>, scope: set<Id>, id: Id, t: Term): real
    requires id in texts
  {
    Weight(m, multiset(texts[id].tokens)[t] as real, Length(texts[id]) as real, AverageLength(texts, scope))
  }

  lemma {:induction false} RawScoreOrder(m: Bm25, texts: map<Id, Text>, scope: set<Id>, a: Id, b: Id,
                                         query: seq<Term>)
    requires Proper(m) && a in texts && b in texts && a in scope && b in scope && AtLeast(texts, query, a, b)
    ensures RawScore(m, texts, scope, a, query) >= RawScore(m, texts, scope, b, query)
    ensures (exists t :: t in query && Ahead(m, texts, t, a, b)) ==>
            RawScore(m, texts, scope, a, query) > RawScore(m, texts, scope, b, query)
  {
    if query != [] {
      var n := |query| - 1;
      assert query == query[..n] + [query[n]];
      RawScoreOrder(m, texts, scope, a, b, query[..n]);
      TermScoreOrder(m, texts, scope, a, b, query[n]);
    }
  }

  /** A text that holds a single term of the query scores that term. */
  lemma {:induction false} LoneTermScore(m: Bm25, texts: map<Id, Text>, scope: set<Id>, id: Id, query: seq<Term>,
                                         t: Term)
    requires Proper(m) && id in texts && id in scope && Distinct(query)
    requires forall u :: u in query && u in texts[id].tokens ==> u == t
    ensures RawScore(m, texts, scope, id, query) == if t in query then TermScore(m, texts, scope, id, t) else 0.0
  {
    if query != [] {
      var n := |query| - 1;
      assert query == query[..n] + [query[n]];
      LoneTermScore(m, texts, scope, id, query[..n], t);
      TermScoreSign(m, texts, scope, id, query[n]);
    }
  }

  lemma RarerTermScore(m: Bm25, texts: map<Id, Text>, scope: set<Id>, a: Id, b: Id, s: Term, t: Term)
    requires Proper(m) && a in texts && b in texts && a in scope && b in scope
    requires Length(texts[a]) == Length(texts[b]) && Frequency(texts[a], s) == Frequency(texts[b], t) > 0
    requires |Having(texts, scope, s)| < |Having(texts, scope, t)|
    ensures TermScore(m, texts, scope, a, s) > TermScore(m, texts, scope, b, t)
  {
    HeldTermIsWorth(m, texts, scope, a, s);
    HeldTermIsWorth(m, texts, scope, b, t);
    var few, many := |Having(texts, scope, s)|, |Having(texts, scope, t)|;
    RarerIsWorthMore(m, |scope|, few, many);
    var w := WeightIn(m, texts, scope, a, s);
    WeightPositive(m, Frequency(texts[a], s) as real, Length(texts[a]) as real, AverageLength(texts, scope));
    TermScoreIs(m, texts, scope, a, s, Idf(m, |scope|, few), w);
    TermScoreIs(m, texts, scope, b, t, Idf(m, |scope|, many), w);
    ScaleOrder(w, Idf(m, |scope|, many), Idf(m, |scope|, few));
  }

  // ---------------------------------------------------------------- in the answer

  lemma AnswerOrder(share: real, raw: real, other: real, less: real)
    requires Proportional(share, raw, other, less) && 0.0 < less < raw && share > 0.0 && other > 0.0
    ensures share > other
  {
    Positive(other, raw - less);
    assert other * (raw - less) == other * raw - other * less;
    assert (share - other) * less == share * less - other * less;
    PositiveFactor(share - other, less);
  }

  lemma PositiveFactor(x: real, y: real)
    requires x * y > 0.0 && y > 0.0
    ensures x > 0.0
  {
  }

  lemma SharesOf(m: Bm25, texts: map<Id, Text>, scope: set<Id>, query: seq<Term>, scores: map<Id, real>, a: Id, b: Id)
    returns (x: real, y: real)
    requires IsScore(m, texts, scope, query, scores) && a in scores && b in scores
    ensures x == RawScore(m, texts, scope, a, query) && y == RawScore(m, texts, scope, b, query)
    ensures Proportional(scores[a], x, scores[b], y) && scores[a] > 0.0 && scores[b] > 0.0
  {
    x, y := RawScore(m, texts, scope, a, query), RawScore(m, texts, scope, b, query);
  }

  lemma WhoScores(m: Bm25, texts: map<Id, Text>, scope: set<Id>, query: seq<Term>, scores: map<Id, real>, id: Id)
    requires Proper(m) && IsScore(m, texts, scope, query, scores) && id in scope
    ensures RawScore(m, texts, scope, id, query) >= 0.0
    ensures id in scores <==> RawScore(m, texts, scope, id, query) > 0.0
  {
    RawScoreSign(m, texts, scope, id, query);
  }

  lemma MoreIsMore(m: Bm25, texts: map<Id, Text>, scope: set<Id>, query: seq<Term>, scores: map<Id, real>, a: Id,
                   b: Id)
    requires Proper(m) && IsScore(m, texts, scope, query, scores) && a in scope && b in scope
    requires RawScore(m, texts, scope, a, query) > RawScore(m, texts, scope, b, query)
    ensures a in scores && (b in scores ==> scores[a] > scores[b])
  {
    WhoScores(m, texts, scope, query, scores, a);
    WhoScores(m, texts, scope, query, scores, b);
    if b in scores {
      var x, y := SharesOf(m, texts, scope, query, scores, a, b);
      AnswerOrder(scores[a], x, scores[b], y);
    }
  }

  lemma SameIsSame(m: Bm25, texts: map<Id, Text>, scope: set<Id>, query: seq<Term>, scores: map<Id, real>, a: Id,
                   b: Id)
    requires Proper(m) && IsScore(m, texts, scope, query, scores) && a in scope && b in scope
    requires RawScore(m, texts, scope, a, query) == RawScore(m, texts, scope, b, query)
    ensures b in scores ==> a in scores && scores[a] == scores[b]
  {
    WhoScores(m, texts, scope, query, scores, a);
    WhoScores(m, texts, scope, query, scores, b);
    if b in scores {
      var x, y := SharesOf(m, texts, scope, query, scores, a, b);
      SameProduct(scores[a], scores[b], x);
    }
  }

  /** Of two texts of equal length that each mention one term of the query, and that equally often, the one whose
      term fewer texts hold is ranked higher. */
  lemma RarerTermRanksHigher(m: Bm25, texts: map<Id, Text>, scope: set<Id>, query: seq<Term>, scores: map<Id, real>,
                             a: Id, b: Id, s: Term, t: Term)
    requires Proper(m) && IsScore(m, texts, scope, query, scores) && Distinct(query)
    requires a in scope && b in scope && s in query && t in query
    requires forall u :: u in query && u in texts[a].tokens ==> u == s
    requires forall u :: u in query && u in texts[b].tokens ==> u == t
    requires Length(texts[a]) == Length(texts[b]) && Frequency(texts[a], s) == Frequency(texts[b], t) > 0
    requires |Having(texts, scope, s)| < |Having(texts, scope, t)|
    ensures a in scores && b in scores && scores[a] > scores[b]
  {
    LoneTermScore(m, texts, scope, a, query, s);
    LoneTermScore(m, texts, scope, b, query, t);
    RarerTermScore(m, texts, scope, a, b, s, t);
    assert Shares(texts[b], query);
    MoreIsMore(m, texts, scope, query, scores, a, b);
  }

  /** A text that is no longer than another and mentions no term of the query less often is not ranked lower; it
      is ranked higher as soon as it mentions one of them more often, or, when length counts, is shorter. */
  lemma DenserTextRanksHigher(m: Bm25, texts: map<Id, Text>, scope: set<Id>, query: seq<Term>, scores: map<Id, real>,
                              a: Id, b: Id)
    requires Proper(m) && IsScore(m, texts, scope, query, scores) && a in scope && b in scope
    requires AtLeast(texts, query, a, b)
    ensures b in scores ==> a in scores && scores[a] >= scores[b]
    ensures (exists t :: t in query && Ahead(m, texts, t, a, b)) ==>
            a in scores && (b in scores ==> scores[a] > scores[b])
  {
    RawScoreOrder(m, texts, scope, a, b, query);
    if RawScore(m, texts, scope, a, query) > RawScore(m, texts, scope, b, query) {
      MoreIsMore(m, texts, scope, query, scores, a, b);
    } else {
      SameIsSame(m, texts, scope, query, scores, a, b);
    }
  }

  lemma SameProduct(x: real, y: real, c: real)
    requires c > 0.0 && x * c == y * c
    ensures x == y
  {
    assert (x - y) * c == 0.0;
  }

  /** The lengths that count are numbers of tokens: without empty texts their mean is the mean number of tokens. */
  lemma AverageIsMeanOfTokens(texts: map<Id, Text>, scope: set<Id>)
    requires scope <= texts.Keys && scope != {} && forall id :: id in scope ==> texts[id].tokens != []
    ensures AverageLength(texts, scope) * |scope| as real ==
            Total(scope, id => if id in texts then |texts[id].tokens| else 0) as real
  {
    var tokens := (id: Id) => if id in texts then |texts[id].tokens| else 0;
    TotalAgrees(scope, LengthIn(texts), tokens);
    var total := Total(scope, tokens) as real;
    assert AverageLength(texts, scope) == total / |scope| as real;
    BackTogether(total, |scope| as real);
  }

  lemma BackTogether(x: real, y: real)
    requires y > 0.0
    ensures x / y * y == x
  {
  }
}
