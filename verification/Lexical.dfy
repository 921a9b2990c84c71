/** The BM25 index: two tables that are replaced in place, and a score read off them. The tables refine a
    plain scan of the indexed texts. Tokenising is left to the caller: a text is its list of tokens. */
module Lexical {
  import opened Prelude
  import opened Records

  type Term = string

  datatype Text = Text(key: Key, tokens: seq<Term>)
  datatype Document = Document(key: Key, tokenCount: nat)
  datatype Posting = Posting(key: Key, frequency: nat)

  // ---------------------------------------------------------------- tables against texts

  /** The tables hold exactly the token multiset of each text. */
  ghost predicate Refines(documents: map<Id, Document>, terms: map<(Id, Term), Posting>, texts: map<Id, Text>) {
    documents.Keys == texts.Keys &&
    (forall id :: id in texts ==> documents[id] == Document(texts[id].key, |texts[id].tokens|)) &&
    (forall id, t :: (id, t) in terms <==> id in texts && t in texts[id].tokens) &&
    (forall id, t :: (id, t) in terms ==> terms[(id, t)] == Posting(texts[id].key, multiset(texts[id].tokens)[t]))
  }

  /** The frequencies of a document add up to its token count. */
  lemma {:induction false} FrequenciesSumUp(tokens: seq<Term>)
    ensures Total(Elements(tokens), t => multiset(tokens)[t]) == |tokens|
  {
    if tokens == [] {
      assert Elements(tokens) == {};
    } else {
      var n := |tokens| - 1;
      var rest, last := tokens[..n], tokens[n];
      assert tokens == rest + [last];
      var f, g := (t: Term) => multiset(tokens)[t], (t: Term) => multiset(rest)[t];
      FrequenciesSumUp(rest);
      TotalSplit(Elements(tokens), f, last);
      var others := Elements(tokens) - {last};
      assert forall t :: t in others ==> f(t) == g(t);
      TotalAgrees(others, f, g);
      if last in rest {
        assert others == Elements(rest) - {last};
        TotalSplit(Elements(rest), g, last);
      } else {
        assert others == Elements(rest);
      }
    }
  }

  /** `rows` is `rest` plus one row per counted term of document `id`. */
  ghost predicate Inserted(rest: map<(Id, Term), Posting>, id: Id, key: Key, counts: map<Term, nat>,
                           rows: map<(Id, Term), Posting>) {
    (forall x, t :: (x, t) in rows <==> (x, t) in rest || (x == id && t in counts)) &&
    (forall x, t :: (x, t) in rows ==>
      if (x, t) in rest then rows[(x, t)] == rest[(x, t)] else t in counts && rows[(x, t)] == Posting(key, counts[t]))
  }

  function RowsOfOthers(terms: map<(Id, Term), Posting>, id: Id): map<(Id, Term), Posting> {
    map row | row in terms && row.0 != id :: terms[row]
  }

  ghost predicate Counts(tokens: seq<Term>, counts: map<Term, nat>) {
    counts.Keys == Elements(tokens) && forall t :: t in counts ==> counts[t] == multiset(tokens)[t]
  }

  /** Replacing the rows of one document by the counts of its new text. */
  lemma IndexedRefines(documents: map<Id, Document>, terms: map<(Id, Term), Posting>, texts: map<Id, Text>,
                       id: Id, text: Text, counts: map<Term, nat>, after: map<(Id, Term), Posting>)
    requires Refines(documents, terms, texts) && Counts(text.tokens, counts)
    requires Inserted(RowsOfOthers(terms, id), id, text.key, counts, after)
    ensures Refines(documents[id := Document(text.key, |text.tokens|)], after, texts[id := text])
  {
  }

  // ---------------------------------------------------------------- histories of the index

  datatype Op = IndexOp(id: Id, key: Key, tokens: seq<Term>) | RemoveOp(id: Id, key: Key) | ClearOp(key: Key)

  function Perform(texts: map<Id, Text>, op: Op): map<Id, Text> {
    match op
    case IndexOp(id, key, tokens) => if id == "" then texts else texts[id := Text(key, tokens)]
    case RemoveOp(id, key) => map x | x in texts && !(x == id && texts[x].key == key) :: texts[x]
    case ClearOp(key) => map x | x in texts && texts[x].key != key :: texts[x]
  }

  function Replay(ops: seq<Op>): map<Id, Text> {
    if ops == [] then map[] else Perform(Replay(ops[..|ops| - 1]), ops[|ops| - 1])
  }

  predicate Erases(op: Op, id: Id, key: Key) {
    op == RemoveOp(id, key) || op == ClearOp(key) || (op.IndexOp? && op.id == id && id != "")
  }

  /** Operation i indexed the document, and no later one indexed it again, removed it or cleared its scope. */
  ghost predicate LastIndexed(ops: seq<Op>, id: Id, i: nat)
    requires i < |ops|
  {
    ops[i].IndexOp? && ops[i].id == id && id != "" && forall j :: i < j < |ops| ==> !Erases(ops[j], id, ops[i].key)
  }

  lemma LastIndexedBefore(ops: seq<Op>, id: Id, i: nat)
    requires i < |ops| - 1
    ensures LastIndexed(ops, id, i) <==>
      LastIndexed(ops[..|ops| - 1], id, i) && !Erases(ops[|ops| - 1], id, ops[i].key)
  {
    var before := ops[..|ops| - 1];
    if LastIndexed(ops, id, i) {
      forall j | i < j < |before| ensures !Erases(before[j], id, ops[i].key) { assert before[j] == ops[j]; }
    }
  }

  /** The operation that put the document there still stands. */
  ghost predicate Standing(ops: seq<Op>, id: Id) {
    exists i: nat :: i < |ops| && LastIndexed(ops, id, i)
  }

  /** After any history, a document is there exactly when its last indexing still stands, with that text. */
  lemma {:induction false} IndexHoldsLastText(ops: seq<Op>, id: Id)
    ensures id in Replay(ops) <==> Standing(ops, id)
    ensures forall i: nat :: i < |ops| && LastIndexed(ops, id, i) ==> Replay(ops)[id] == Text(ops[i].key, ops[i].tokens)
  {
    if ops != [] {
      var n := |ops| - 1;
      IndexHoldsLastText(ops[..n], id);
      forall i: nat | i < n
        ensures LastIndexed(ops, id, i) <==> LastIndexed(ops[..n], id, i) && !Erases(ops[n], id, ops[i].key)
      {
        LastIndexedBefore(ops, id, i);
      }
      if ops[n].IndexOp? && ops[n].id == id && id != "" {
        assert LastIndexed(ops, id, n);
      } else if Standing(ops[..n], id) {
        var i: nat :| i < n && LastIndexed(ops[..n], id, i);
        assert LastIndexed(ops, id, i) <==> !Erases(ops[n], id, ops[i].key);
      }
    }
  }

  function TermsWithout(terms: map<(Id, Term), Posting>, id: Id, key: Key): map<(Id, Term), Posting> {
    map row | row in terms && !(row.0 == id && terms[row].key == key) :: terms[row]
  }

  function DocumentsWithout(documents: map<Id, Document>, id: Id, key: Key): map<Id, Document> {
    map x | x in documents && !(x == id && documents[x].key == key) :: documents[x]
  }

  lemma RemovedRefines(documents: map<Id, Document>, terms: map<(Id, Term), Posting>, texts: map<Id, Text>, id: Id,
                       key: Key)
    requires Refines(documents, terms, texts)
    ensures Refines(DocumentsWithout(documents, id, key), TermsWithout(terms, id, key),
                    Perform(texts, RemoveOp(id, key)))
  {
    var after := Perform(texts, RemoveOp(id, key));
    forall x, t ensures (x, t) in TermsWithout(terms, id, key) <==> x in after && t in after[x].tokens {
      assert (x, t) in terms ==> terms[(x, t)].key == texts[x].key;
    }
  }

  // ---------------------------------------------------------------- BM25 over texts

  datatype Bm25 = Bm25(k1: real, b: real, log1p: real -> real)

  /** Constants in the range the index clamps them to, and a logarithm that is positive and rising on positives. */
  ghost predicate Proper(m: Bm25) {
    0.1 <= m.k1 <= 4.0 && 0.0 <= m.b <= 1.0 &&
    (forall x: real :: x > 0.0 ==> m.log1p(x) > 0.0) &&
    forall x: real, y: real :: 0.0 < x < y ==> m.log1p(x) < m.log1p(y)
  }

  function ScopeOf(texts: map<Id, Text>, key: Key, candidates: set<Id>): set<Id> {
    set id | id in candidates && id in texts && InScope(key, texts[id].key)
  }

  function Length(text: Text): int {
    Max(1, |text.tokens|)
  }

  function LengthIn(texts: map<Id, Text>): Id -> int {
    id => if id in texts then Length(texts[id]) else 0
  }

  ghost function AverageLength(texts: map<Id, Text>, scope: set<Id>): real {
    Total(scope, LengthIn(texts)) as real / Max(1, |scope|) as real
  }

  function Having(texts: map<Id, Text>, scope: set<Id>, t: Term): set<Id> {
    set id | id in scope && id in texts && t in texts[id].tokens
  }

  function Idf(m: Bm25, n: nat, df: nat): real {
    m.log1p((n as real - df as real + 0.5) / (df as real + 0.5))
  }

  function Denominator(m: Bm25, frequency: real, length: real, average: real): real {
    frequency + m.k1 * (1.0 - m.b + m.b * (length / (if average >= 1.0 then average else 1.0)))
  }

  function Weight(m: Bm25, frequency: real, length: real, average: real): real {
    var d := Denominator(m, frequency, length, average);
    if d <= 0.0 then 0.0 else frequency * (m.k1 + 1.0) / d
  }

  /** Contribution of one query term to the score of one text. */
  ghost function TermScore(m: Bm25, texts: map<Id, Text>, scope: set<Id>, id: Id, t: Term): real
    requires id in texts
  {
    if id !in Having(texts, scope, t) then 0.0
    else
      Idf(m, |scope|, |Having(texts, scope, t)|) *
      Weight(m, multiset(texts[id].tokens)[t] as real, Length(texts[id]) as real, AverageLength(texts, scope))
  }

  ghost function RawScore(m: Bm25, texts: map<Id, Text>, scope: set<Id>, id: Id, query: seq<Term>): real
    requires id in texts
  {
    if query == [] then 0.0
    else
      var n := |query| - 1;
      RawScore(m, texts, scope, id, query[..n]) + TermScore(m, texts, scope, id, query[n])
  }

  lemma TermScoreIs(m: Bm25, texts: map<Id, Text>, scope: set<Id>, id: Id, t: Term, idf: real, weight: real)
    requires id in texts && id in Having(texts, scope, t) && idf == Idf(m, |scope|, |Having(texts, scope, t)|)
    requires weight == Weight(m, multiset(texts[id].tokens)[t] as real, Length(texts[id]) as real,
                              AverageLength(texts, scope))
    ensures TermScore(m, texts, scope, id, t) == idf * weight
  {
  }

  predicate Shares(text: Text, query: seq<Term>) {
    exists t :: t in query && t in text.tokens
  }

  lemma WeightPositive(m: Bm25, frequency: real, length: real, average: real)
    requires Proper(m) && frequency > 0.0 && length >= 0.0
    ensures Weight(m, frequency, length, average) > 0.0
  {
    var ratio := length / (if average >= 1.0 then average else 1.0);
    assert ratio >= 0.0;
    var inner := 1.0 - m.b + m.b * ratio;
    assert m.b * ratio >= 0.0;
    assert m.k1 * inner >= 0.0;
    var d := Denominator(m, frequency, length, average);
    assert d > 0.0 && frequency * (m.k1 + 1.0) > 0.0;
  }

  lemma TermScoreSign(m: Bm25, texts: map<Id, Text>, scope: set<Id>, id: Id, t: Term)
    requires Proper(m) && id in texts && id in scope
    ensures if t in texts[id].tokens then TermScore(m, texts, scope, id, t) > 0.0
            else TermScore(m, texts, scope, id, t) == 0.0
  {
    if t in texts[id].tokens {
      var having := Having(texts, scope, t);
      assert id in having;
      SubsetSize(having, scope);
      SubsetSize({id}, having);
      var n, df := |scope| as real, |having| as real;
      assert (n - df + 0.5) / (df + 0.5) > 0.0;
      WeightPositive(m, multiset(texts[id].tokens)[t] as real, Length(texts[id]) as real, AverageLength(texts, scope));
    }
  }

  /** A text scores above zero exactly when it shares a token with the query. */
  lemma {:induction false} RawScoreSign(m: Bm25, texts: map<Id, Text>, scope: set<Id>, id: Id, query: seq<Term>)
    requires Proper(m) && id in texts && id in scope
    ensures RawScore(m, texts, scope, id, query) >= 0.0
    ensures RawScore(m, texts, scope, id, query) > 0.0 <==> Shares(texts[id], query)
  {
    if query != [] {
      var n := |query| - 1;
      RawScoreSign(m, texts, scope, id, query[..n]);
      TermScoreSign(m, texts, scope, id, query[n]);
      assert query == query[..n] + [query[n]];
    }
  }

  predicate Proportional(x: real, ofX: real, y: real, ofY: real) {
    x * ofY == y * ofX
  }

  /** What `score` answers, read off the texts: the sharing texts, each with its share of the best score. */
  ghost predicate IsScore(m: Bm25, texts: map<Id, Text>, scope: set<Id>, query: seq<Term>, scores: map<Id, real>) {
    scope <= texts.Keys &&
    (forall id :: id in scores <==> id in scope && Shares(texts[id], query)) &&
    (forall a, b :: a in scores && b in scores ==>
      Proportional(scores[a], RawScore(m, texts, scope, a, query), scores[b], RawScore(m, texts, scope, b, query))) &&
    (forall id :: id in scores ==> 0.0 < scores[id] <= 1.0) &&
    (scores != map[] ==> exists id :: id in scores && scores[id] == 1.0)
  }

  /** The answer is determined by the texts: no two answers meet the description. */
  lemma ScoreIsUnique(m: Bm25, texts: map<Id, Text>, scope: set<Id>, query: seq<Term>, s: map<Id, real>,
                      t: map<Id, real>)
    requires Proper(m) && IsScore(m, texts, scope, query, s) && IsScore(m, texts, scope, query, t)
    ensures s == t
  {
    if s != map[] {
      var a :| a in s && s[a] == 1.0;
      var b :| b in t && t[b] == 1.0;
      var raw := (id: Id) requires id in texts => RawScore(m, texts, scope, id, query);
      RawScoreSign(m, texts, scope, a, query);
      RawScoreSign(m, texts, scope, b, query);
      BestIsBest(s[b], raw(a), raw(b));
      BestIsBest(t[a], raw(b), raw(a));
      forall id | id in s ensures s[id] == t[id] {
        assert Proportional(s[id], raw(id), 1.0, raw(a)) && Proportional(t[id], raw(id), 1.0, raw(b));
        SameShare(s[id], t[id], raw(id), raw(a));
      }
    }
  }

  lemma BestIsBest(share: real, best: real, other: real)
    requires best > 0.0 && share <= 1.0 && Proportional(share, other, 1.0, best)
    ensures other <= best
  {
  }

  lemma SameShare(x: real, y: real, raw: real, best: real)
    requires best > 0.0 && Proportional(x, raw, 1.0, best) && Proportional(y, raw, 1.0, best)
    ensures x == y
  {
    assert (x - y) * best == 0.0;
  }

  /** What the term adds to the text's score. */
  ghost predicate GainAt(m: Bm25, texts: map<Id, Text>, scope: set<Id>, t: Term, gain: map<Id, real>, id: Id) {
    id in texts && id in gain && gain[id] == TermScore(m, texts, scope, id, t)
  }

  lemma GainsOf(m: Bm25, texts: map<Id, Text>, scope: set<Id>, t: Term) returns (gain: map<Id, real>)
    requires scope <= texts.Keys
    ensures gain.Keys == scope && forall id :: id in scope ==> GainAt(m, texts, scope, t, gain, id)
    ensures forall id :: id in scope && id !in Having(texts, scope, t) ==> gain[id] == 0.0
  {
    gain := map id | id in scope :: TermScore(m, texts, scope, id, t);
    forall id | id in scope ensures GainAt(m, texts, scope, t, gain, id) {}
  }

  lemma NobodyGains(m: Bm25, texts: map<Id, Text>, scope: set<Id>, t: Term)
    requires scope <= texts.Keys && Having(texts, scope, t) == {}
    ensures forall id :: id in scope ==> TermScore(m, texts, scope, id, t) == 0.0
  {
  }

  lemma AllGain(m: Bm25, texts: map<Id, Text>, scope: set<Id>, t: Term, gain: map<Id, real>, raw: map<Id, real>,
                after: map<Id, real>)
    requires scope <= texts.Keys && gain.Keys == raw.Keys == after.Keys == scope
    requires forall id :: id in scope ==> GainAt(m, texts, scope, t, gain, id) && after[id] == raw[id] + gain[id]
    ensures forall id :: id in scope ==> after[id] == raw[id] + TermScore(m, texts, scope, id, t)
  {
    forall id | id in scope ensures after[id] == raw[id] + TermScore(m, texts, scope, id, t) {
      assert GainAt(m, texts, scope, t, gain, id);
    }
  }

  /** The row of the term for the text. */
  ghost predicate PostingAt(texts: map<Id, Text>, scope: set<Id>, t: Term, lengths: map<Id, int>,
                            postings: map<Id, nat>, id: Id) {
    id in Having(texts, scope, t) && id in postings && id in lengths &&
    postings[id] == multiset(texts[id].tokens)[t] && lengths[id] == Length(texts[id])
  }

  // ---------------------------------------------------------------- the index

  class MemoryLexicalIndex {
    var documents: map<Id, Document>
    var terms: map<(Id, Term), Posting>
    ghost var texts: map<Id, Text>

    ghost predicate Valid()
      reads this
    {
      Refines(documents, terms, texts)
    }

    constructor ()
      ensures Valid() && texts == map[]
    {
      documents, terms, texts := map[], map[], map[];
    }

    /** `collections.Counter`. */
    static method Count(tokens: seq<Term>) returns (counts: map<Term, nat>)
      ensures Counts(tokens, counts)
    {
      counts := map[];
      for i := 0 to |tokens|
        invariant counts.Keys == Elements(tokens[..i])
        invariant forall t :: t in counts ==> counts[t] == multiset(tokens[..i])[t]
      {
        assert tokens[..i + 1] == tokens[..i] + [tokens[i]];
        var t := tokens[i];
        counts := counts[t := (if t in counts then counts[t] else 0) + 1];
      }
      assert tokens[..|tokens|] == tokens;
    }

    /** After any history of the index, the tables hold the text last indexed under each identifier. */
    method IndexMemory(id: Id, key: Key, tokens: seq<Term>)
      requires Valid()
      modifies this
      ensures Valid()
      ensures texts == Perform(old(texts), IndexOp(id, key, tokens))
    {
      if id == "" { return; }
      var counts := Count(tokens);
      var rest := RowsOfOthers(terms, id);
      var rows := InsertTerms(rest, id, key, counts);
      IndexedRefines(documents, terms, texts, id, Text(key, tokens), counts, rows);
      documents, terms := documents[id := Document(key, |tokens|)], rows;
      texts := texts[id := Text(key, tokens)];
    }

    /** One row per counted term, in a table that has none for the document. */
    static method InsertTerms(rest: map<(Id, Term), Posting>, id: Id, key: Key, counts: map<Term, nat>)
      returns (rows: map<(Id, Term), Posting>)
      requires forall row :: row in rest ==> row.0 != id
      ensures Inserted(rest, id, key, counts, rows)
    {
      rows := rest;
      var pending := counts.Keys;
      while pending != {}
        invariant pending <= counts.Keys
        invariant forall x, t :: (x, t) in rows <==> (x, t) in rest || (x == id && t in counts && t !in pending)
        invariant forall x, t :: (x, t) in rows ==>
                  rows[(x, t)] == if x == id then Posting(key, counts[t]) else rest[(x, t)]
      {
        var t :| t in pending;
        rows := rows[(id, t) := Posting(key, counts[t])];
        pending := pending - {t};
      }
    }

    method RemoveMemory(id: Id, key: Key)
      requires Valid()
      modifies this
      ensures Valid()
      ensures texts == Perform(old(texts), RemoveOp(id, key))
    {
      RemovedRefines(documents, terms, texts, id, key);
      documents, terms := DocumentsWithout(documents, id, key), TermsWithout(terms, id, key);
      texts := Perform(texts, RemoveOp(id, key));
    }

    method ClearScope(key: Key)
      requires Valid()
      modifies this
      ensures Valid()
      ensures texts == Perform(old(texts), ClearOp(key))
    {
      terms := map row | row in terms && terms[row].key != key :: terms[row];
      documents := map x | x in documents && documents[x].key != key :: documents[x];
      texts := map x | x in texts && texts[x].key != key :: texts[x];
    }

    /** ON DELETE CASCADE of both tables, when the record goes. */
    method Cascade(id: Id)
      requires Valid()
      modifies this
      ensures Valid()
      ensures texts == old(texts) - {id}
    {
      terms, documents, texts := RowsOfOthers(terms, id), documents - {id}, texts - {id};
    }

    /** Lengths of the documents in scope and their average. */
    method Lengths(scope: set<Id>) returns (lengths: map<Id, int>, average: real)
      requires Valid() && scope <= documents.Keys
      ensures lengths.Keys == scope && forall id :: id in scope ==> lengths[id] == Length(texts[id])
      ensures average == AverageLength(texts, scope)
    {
      lengths := map id | id in scope :: Max(1, documents[id].tokenCount);
      ghost var f := LengthIn(texts);
      var sum := 0;
      var pending := scope;
      while pending != {}
        invariant pending <= scope && sum + Total(pending, f) == Total(scope, f)
      {
        var id :| id in pending;
        TotalSplit(pending, f, id);
        assert lengths[id] == f(id);
        sum := sum + lengths[id];
        pending := pending - {id};
      }
      average := sum as real / Max(1, |scope|) as real;
    }

    /** Add the contribution of one query term to every running score. */
    method AddTerm(m: Bm25, scope: set<Id>, lengths: map<Id, int>, average: real, t: Term, raw: map<Id, real>)
      returns (after: map<Id, real>)
      requires Valid() && scope <= documents.Keys && raw.Keys == scope == lengths.Keys
      requires forall id :: id in scope ==> lengths[id] == Length(texts[id])
      requires average == AverageLength(texts, scope)
      ensures after.Keys == scope
      ensures forall id :: id in scope ==> after[id] == raw[id] + TermScore(m, texts, scope, id, t)
    {
      var postings := map id | id in scope && (id, t) in terms :: terms[(id, t)].frequency;
      assert postings.Keys == Having(texts, scope, t);
      if postings == map[] {
        NobodyGains(m, texts, scope, t);
        return raw;
      }
      var idf := Idf(m, |scope|, |postings.Keys|);
      ghost var gain := GainsOf(m, texts, scope, t);
      forall id | id in postings ensures PostingAt(texts, scope, t, lengths, postings, id) {}
      after := AddPostings(m, texts, scope, lengths, average, t, idf, postings, raw, gain);
      AllGain(m, texts, scope, t, gain, raw, after);
    }

    static method AddPostings(m: Bm25, ghost texts: map<Id, Text>, ghost scope: set<Id>, lengths: map<Id, int>,
                              average: real, ghost t: Term, idf: real, postings: map<Id, nat>, raw: map<Id, real>,
                              ghost gain: map<Id, real>)
      returns (after: map<Id, real>)
      requires raw.Keys == gain.Keys == lengths.Keys && postings.Keys <= raw.Keys
      requires average == AverageLength(texts, scope) && idf == Idf(m, |scope|, |Having(texts, scope, t)|)
      requires forall id :: id in raw ==> GainAt(m, texts, scope, t, gain, id)
      requires forall id :: id in raw && id !in postings ==> gain[id] == 0.0
      requires forall id :: id in postings ==> PostingAt(texts, scope, t, lengths, postings, id)
      ensures after.Keys == raw.Keys && forall id :: id in raw ==> after[id] == raw[id] + gain[id]
    {
      after := raw;
      var pending := postings.Keys;
      while pending != {}
        invariant pending <= postings.Keys && after.Keys == raw.Keys
        invariant forall id :: id in raw ==> after[id] == if id in pending then raw[id] else raw[id] + gain[id]
      {
        var id :| id in pending;
        var score := PostingScore(m, texts, scope, id, t, idf, postings, lengths, average, gain);
        after := after[id := after[id] + score];
        pending := pending - {id};
      }
    }

    static method PostingScore(m: Bm25, ghost texts: map<Id, Text>, ghost scope: set<Id>, id: Id, ghost t: Term,
                               idf: real, postings: map<Id, nat>, lengths: map<Id, int>, average: real,
                               ghost gain: map<Id, real>)
      returns (score: real)
      requires id in postings && id in lengths && PostingAt(texts, scope, t, lengths, postings, id)
      requires average == AverageLength(texts, scope) && idf == Idf(m, |scope|, |Having(texts, scope, t)|)
      requires GainAt(m, texts, scope, t, gain, id)
      ensures score == gain[id]
    {
      var weight := Weight(m, postings[id] as real, lengths[id] as real, average);
      TermScoreIs(m, texts, scope, id, t, idf, weight);
      score := idf * weight;
    }

    method RawScores(m: Bm25, scope: set<Id>, query: seq<Term>) returns (raw: map<Id, real>)
      requires Valid() && scope <= documents.Keys
      ensures raw.Keys == scope && forall id :: id in scope ==> raw[id] == RawScore(m, texts, scope, id, query)
    {
      var lengths, average := Lengths(scope);
      raw := map id | id in scope :: 0.0;
      for i := 0 to |query|
        invariant raw.Keys == scope
        invariant forall id :: id in scope ==> raw[id] == RawScore(m, texts, scope, id, query[..i])
      {
        assert query[..i + 1][..i] == query[..i];
        raw := AddTerm(m, scope, lengths, average, query[i], raw);
      }
      assert query[..|query|] == query;
    }

    static method Peak(raw: map<Id, real>) returns (maximum: real)
      ensures forall id :: id in raw ==> raw[id] <= maximum
      ensures if raw == map[] then maximum == 0.0 else exists id :: id in raw && raw[id] == maximum
    {
      maximum := 0.0;
      if raw == map[] { return; }
      var best :| best in raw;
      maximum := raw[best];
      var pending := raw.Keys - {best};
      while pending != {}
        invariant best in raw && raw[best] == maximum && pending <= raw.Keys
        invariant forall id :: id in raw && id !in pending ==> raw[id] <= maximum
      {
        var id :| id in pending;
        if raw[id] > maximum { maximum, best := raw[id], id; }
        pending := pending - {id};
      }
    }

    /** Positive scores as shares of the best one. */
    static method Relative(raw: map<Id, real>) returns (scores: map<Id, real>)
      requires forall id :: id in raw ==> raw[id] >= 0.0
      ensures forall id :: id in scores <==> id in raw && raw[id] > 0.0
      ensures forall a, b :: a in scores && b in scores ==> Proportional(scores[a], raw[a], scores[b], raw[b])
      ensures forall id :: id in scores ==> 0.0 < scores[id] <= 1.0
      ensures scores != map[] ==> exists id :: id in scores && scores[id] == 1.0
    {
      var maximum := Peak(raw);
      if maximum <= 0.0 { return map[]; }
      scores := map id | id in raw && raw[id] > 0.0 :: raw[id] / maximum;
      forall id | id in scores ensures 0.0 < scores[id] <= 1.0 {
        RatioInUnit(raw[id], maximum);
      }
      forall a, b | a in scores && b in scores ensures Proportional(scores[a], raw[a], scores[b], raw[b]) {
        CrossRatio(raw[a], raw[b], maximum);
      }
      var best :| best in raw && raw[best] == maximum;
      SelfRatio(maximum);
      assert best in scores && scores[best] == 1.0;
    }

    /** The score read off the tables is BM25 over the indexed texts, relative to the best match; it lists the
        given texts of the namespace and the owner's global ones that share a token with the query. */
    method Score(m: Bm25, key: Key, queryTokens: seq<Term>, memoryIds: seq<Id>) returns (scores: map<Id, real>)
      requires Valid() && Proper(m)
      ensures IsScore(m, texts, ScopeOf(texts, key, Elements(memoryIds) - {""}), Dedup(queryTokens), scores)
      ensures forall id :: id in scores <==>
        id in memoryIds && id != "" && id in texts && (texts[id].key == key || texts[id].key == Key(key.user, "")) &&
        Shares(texts[id], queryTokens)
    {
      var query := Dedup(queryTokens);
      var candidates := Elements(memoryIds) - {""};
      var scope := set id | id in candidates && id in documents && InScope(key, documents[id].key);
      assert scope == ScopeOf(texts, key, candidates);
      WhoIsScored(texts, key, memoryIds, queryTokens);
      if query == [] || scope == {} { return map[]; }
      var raw := RawScores(m, scope, query);
      forall id | id in scope ensures raw[id] >= 0.0 && (raw[id] > 0.0 <==> Shares(texts[id], query)) {
        RawScoreSign(m, texts, scope, id, query);
      }
      scores := Relative(raw);
      ScoresFromRaw(m, texts, scope, query, raw, scores);
    }
  }

  lemma WhoIsScored(texts: map<Id, Text>, key: Key, memoryIds: seq<Id>, queryTokens: seq<Term>)
    ensures var scope := ScopeOf(texts, key, Elements(memoryIds) - {""});
      forall id :: id in scope && Shares(texts[id], Dedup(queryTokens)) <==>
        id in memoryIds && id != "" && id in texts && (texts[id].key == key || texts[id].key == Key(key.user, "")) &&
        Shares(texts[id], queryTokens)
  {
    assert forall own: Key :: InScope(key, own) <==> own == key || own == Key(key.user, "");
    forall t ensures t in Dedup(queryTokens) <==> t in queryTokens {
      assert t in Elements(queryTokens) <==> t in Elements(Dedup(queryTokens));
    }
  }

  lemma ScoresFromRaw(m: Bm25, texts: map<Id, Text>, scope: set<Id>, query: seq<Term>, raw: map<Id, real>,
                      scores: map<Id, real>)
    requires scope <= texts.Keys && raw.Keys == scope
    requires forall id :: id in scope ==>
             raw[id] == RawScore(m, texts, scope, id, query) && (raw[id] > 0.0 <==> Shares(texts[id], query))
    requires forall id :: id in scores <==> id in raw && raw[id] > 0.0
    requires forall a, b :: a in scores && b in scores ==> Proportional(scores[a], raw[a], scores[b], raw[b])
    requires forall id :: id in scores ==> 0.0 < scores[id] <= 1.0
    requires scores != map[] ==> exists id :: id in scores && scores[id] == 1.0
    ensures IsScore(m, texts, scope, query, scores)
  {
  }

  lemma SelfRatio(x: real)
    requires x > 0.0
    ensures x / x == 1.0
  {
  }

  lemma RatioInUnit(x: real, y: real)
    requires 0.0 < x <= y
    ensures 0.0 < x / y <= 1.0
  {
  }

  lemma CrossRatio(x: real, y: real, d: real)
    requires d > 0.0
    ensures Proportional(x / d, x, y / d, y)
  {
  }
}
