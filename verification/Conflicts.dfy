/** Contradicting facts: which rows contradict which, and the table that records the contradictions. How a
    row's fact is extracted and how a fact key is normalised before it is stored are parameters. */
module Conflicts {
  import opened Prelude
  import opened Records
  import opened Transactions

  datatype Fact = Fact(subject: string, value: string)

  datatype FactReader = FactReader(signature: Record -> Option<Fact>, normalize: string -> string)

  const TRUSTED := {"user_directive", "verified_system_fact", "tool_result", "managed_memory"}

  datatype Classification = TemporalChange | Contradiction

  /** The unique key of the table: scope, stored fact key and the two rows, in the order recorded. */
  datatype Pair = Pair(key: Key, subject: string, left: Id, right: Id)

  type Table = map<Pair, Classification>

  function Classify(left: Record, right: Record): Classification {
    if right.validFrom > left.validFrom && right.content.trust in TRUSTED then TemporalChange else Contradiction
  }

  // ---------------------------------------------------------------- which rows contradict

  /** The analysis of row `id` meets row `other` among its candidates and finds its fact contradicted. */
  predicate Sees(rows: map<Id, Record>, reader: FactReader, id: Id, other: Id) {
    id in rows && other in rows && id != other && rows[id].status.Active? &&
    IsCandidate(Query(rows[id].key, false, rows[id].content.scope, {}, rows[id].branch), rows[other]) &&
    Contradicts(reader, rows[id], rows[other])
  }

  predicate Contradicts(reader: FactReader, a: Record, b: Record) {
    var fa, fb := reader.signature(a), reader.signature(b);
    fa.Some? && fb.Some? && fa.value.subject == fb.value.subject && fa.value.value != fb.value.value
  }

  function Seen(rows: map<Id, Record>, reader: FactReader, id: Id): set<Id> {
    set other | other in rows && Sees(rows, reader, id, other)
  }

  function Subject(reader: FactReader, r: Record): string {
    var f := reader.signature(r);
    if f.Some? then f.value.subject else ""
  }

  predicate NamedScope(r: Record) {
    r.content.scope in {"user", "workspace"}
  }

  /** Where the analysis of row `r` looks: user-scoped rows meet those of the owner's global namespace,
      workspace-scoped ones those of their own, on the main line and on their own branch. */
  predicate Meets(r: Record, other: Record) {
    (other.branch.None? || other.branch == r.branch) &&
    other.key == if r.content.scope == "user" then Key(r.key.user, "") else r.key
  }

  /** One of two rows sees the other exactly when both are active rows of the same scope, one meets the other,
      and their facts disagree. */
  lemma EitherSeesIff(rows: map<Id, Record>, reader: FactReader, a: Id, b: Id)
    requires a in rows && b in rows && a != b && NamedScope(rows[a]) && NamedScope(rows[b])
    ensures Sees(rows, reader, a, b) || Sees(rows, reader, b, a) <==>
      rows[a].status.Active? && rows[b].status.Active? && rows[a].content.scope == rows[b].content.scope &&
      (Meets(rows[a], rows[b]) || Meets(rows[b], rows[a])) && Contradicts(reader, rows[a], rows[b])
  {
  }

  /** Within one namespace that is symmetric: compatible branches suffice, and the only rows that meet nobody
      are user-scoped rows kept in a workspace. */
  lemma MeetsWithinNamespaceIff(a: Record, b: Record)
    requires a.key == b.key && a.content.scope == b.content.scope
    ensures Meets(a, b) || Meets(b, a) <==>
      (a.branch.None? || b.branch.None? || a.branch == b.branch) &&
      (a.content.scope == "user" ==> a.key.workspace == "")
  {
    assert Key(a.key.user, a.key.workspace) == a.key;
  }

  // ---------------------------------------------------------------- recording

  /** The look-up before an insertion: the pair in either order, under the fact key as given. */
  predicate Known(t: Table, key: Key, subject: string, left: Id, right: Id) {
    Pair(key, subject, left, right) in t || Pair(key, subject, right, left) in t
  }

  function PairFor(rows: map<Id, Record>, reader: FactReader, id: Id, other: Id): Pair
    requires id in rows
  {
    Pair(rows[id].key, reader.normalize(Subject(reader, rows[id])), other, id)
  }

  /** Rows the analysis of `id` inserts. */
  function NewPairs(t: Table, rows: map<Id, Record>, reader: FactReader, id: Id): set<Pair>
    requires id in rows
  {
    set other | other in Seen(rows, reader, id) && !Known(t, rows[id].key, Subject(reader, rows[id]), other, id) ::
      PairFor(rows, reader, id, other)
  }

  function Analyze(t: Table, rows: map<Id, Record>, reader: FactReader, id: Id): Table
    requires id in rows
  {
    t + map p | p in NewPairs(t, rows, reader, id) :: ClassifyPair(rows, id, p)
  }

  function ClassifyPair(rows: map<Id, Record>, id: Id, p: Pair): Classification
    requires id in rows
  {
    if p.left in rows then Classify(rows[p.left], rows[id]) else Contradiction
  }

  /** An insertion would repeat a stored row: the table's unique constraint refuses it. */
  predicate Clashes(t: Table, rows: map<Id, Record>, reader: FactReader, id: Id)
    requires id in rows
  {
    NewPairs(t, rows, reader, id) * t.Keys != {}
  }

  class MemoryConflictStore {
    var conflicts: Table

    constructor ()
      ensures conflicts == map[]
    {
      conflicts := map[];
    }

    method ClearScope(key: Key)
      modifies this
      ensures conflicts == map p | p in old(conflicts) && p.key != key :: old(conflicts)[p]
    {
      conflicts := map p | p in conflicts && p.key != key :: conflicts[p];
    }

    /** Record one contradiction unless the pair is known in either order. */
    method Record(normalize: string -> string, key: Key, subject: string, left: Id, right: Id,
                  c: Classification)
      returns (ok: bool)
      requires left != right
      modifies this
      ensures var p := Pair(key, normalize(subject), left, right);
        var skip := Known(old(conflicts), key, subject, left, right);
        ok == (skip || p !in old(conflicts)) &&
        conflicts == if ok && !skip then old(conflicts)[p := c] else old(conflicts)
    {
      if Pair(key, subject, left, right) in conflicts || Pair(key, subject, right, left) in conflicts { return true; }
      var p := Pair(key, normalize(subject), left, right);
      if p in conflicts { return false; }
      conflicts := conflicts[p := c];
      ok := true;
    }

    /** Analyse one row against all its candidates, in any order. It fails exactly when an insertion would
        repeat a stored row. */
    method AnalyzeConflicts(rows: map<Id, Record>, reader: FactReader, id: Id) returns (ok: bool)
      requires id in rows
      modifies this
      ensures ok <==> !Clashes(old(conflicts), rows, reader, id)
      ensures ok ==> conflicts == Analyze(old(conflicts), rows, reader, id)
    {
      ghost var start := conflicts;
      var signature := reader.signature(rows[id]);
      if signature.None? || !rows[id].status.Active? {
        assert NewPairs(start, rows, reader, id) == {};
        return true;
      }
      var subject := signature.value.subject;
      var pending := Seen(rows, reader, id);
      ghost var done := {};
      while pending != {}
        invariant pending + done == Seen(rows, reader, id) && pending !! done
        invariant Recorded(start, conflicts, rows, reader, id, done)
      {
        var other :| other in pending;
        StillUnknown(start, conflicts, rows, reader, id, done, other);
        OneMoreRecorded(start, conflicts, rows, reader, id, done, other);
        var recorded := Record(reader.normalize, rows[id].key, subject, other, id, Classify(rows[other], rows[id]));
        if !recorded {
          assert PairFor(rows, reader, id, other) in NewPairs(start, rows, reader, id) * start.Keys;
          return false;
        }
        pending, done := pending - {other}, done + {other};
      }
      ok := true;
      AllRecorded(start, conflicts, rows, reader, id);
    }
  }

  /** The part of NewPairs that comes from the candidates met so far. */
  ghost function InsertedBy(t: Table, rows: map<Id, Record>, reader: FactReader, id: Id, done: set<Id>): set<Pair>
    requires id in rows
  {
    set other | other in done && !Known(t, rows[id].key, Subject(reader, rows[id]), other, id) ::
      PairFor(rows, reader, id, other)
  }

  /** The table after the candidates `done`, none of which clashed. */
  ghost predicate Recorded(start: Table, t: Table, rows: map<Id, Record>, reader: FactReader, id: Id, done: set<Id>)
    requires id in rows
  {
    done <= Seen(rows, reader, id) && InsertedBy(start, rows, reader, id, done) !! start.Keys &&
    t == start + map p | p in InsertedBy(start, rows, reader, id, done) :: ClassifyPair(rows, id, p)
  }

  /** Recording one pair does not make another one known. */
  lemma StillUnknown(start: Table, t: Table, rows: map<Id, Record>, reader: FactReader, id: Id, done: set<Id>,
                     other: Id)
    requires id in rows && other !in done && other in Seen(rows, reader, id)
    requires Recorded(start, t, rows, reader, id, done)
    ensures Known(t, rows[id].key, Subject(reader, rows[id]), other, id) <==>
            Known(start, rows[id].key, Subject(reader, rows[id]), other, id)
    ensures PairFor(rows, reader, id, other) in t <==> PairFor(rows, reader, id, other) in start
  {
    assert t.Keys == start.Keys + InsertedBy(start, rows, reader, id, done);
  }

  lemma OneMoreRecorded(start: Table, t: Table, rows: map<Id, Record>, reader: FactReader, id: Id, done: set<Id>,
                        other: Id)
    requires id in rows && other !in done && other in Seen(rows, reader, id)
    requires Recorded(start, t, rows, reader, id, done)
    ensures var p := PairFor(rows, reader, id, other);
      if Known(start, rows[id].key, Subject(reader, rows[id]), other, id) then
        Recorded(start, t, rows, reader, id, done + {other})
      else
        p !in start ==> Recorded(start, t[p := Classify(rows[other], rows[id])], rows, reader, id, done + {other})
  {
    var p := PairFor(rows, reader, id, other);
    var was, now := InsertedBy(start, rows, reader, id, done), InsertedBy(start, rows, reader, id, done + {other});
    InsertedByOneMore(start, rows, reader, id, done, other);
    if !Known(start, rows[id].key, Subject(reader, rows[id]), other, id) && p !in start {
      AddedLast(start, rows, id, was, p);
    }
  }

  lemma InsertedByOneMore(t: Table, rows: map<Id, Record>, reader: FactReader, id: Id, done: set<Id>, other: Id)
    requires id in rows
    ensures InsertedBy(t, rows, reader, id, done + {other}) == InsertedBy(t, rows, reader, id, done) +
            if Known(t, rows[id].key, Subject(reader, rows[id]), other, id) then {}
            else {PairFor(rows, reader, id, other)}
  {
  }

  lemma AddedLast(start: Table, rows: map<Id, Record>, id: Id, was: set<Pair>, p: Pair)
    requires id in rows && p !in start
    ensures (start + map q | q in was :: ClassifyPair(rows, id, q))[p := ClassifyPair(rows, id, p)] ==
            start + map q | q in was + {p} :: ClassifyPair(rows, id, q)
  {
  }

  lemma AllRecorded(start: Table, t: Table, rows: map<Id, Record>, reader: FactReader, id: Id)
    requires id in rows && Recorded(start, t, rows, reader, id, Seen(rows, reader, id))
    ensures !Clashes(start, rows, reader, id) && t == Analyze(start, rows, reader, id)
  {
    assert InsertedBy(start, rows, reader, id, Seen(rows, reader, id)) == NewPairs(start, rows, reader, id);
  }
}
