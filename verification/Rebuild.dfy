/** Rebuilding the derived indexes page by page from the records. */
module Rebuild {
  import opened Prelude
  import opened Records
  import opened Transactions
  import opened Conflicts
  import opened GraphStore
  import Graph
  import Lexical

  /** Everything that reads meaning out of a record: tokens of its text, entities, facts. */
  datatype Readers = Readers(tokens: string -> seq<Lexical.Term>, entities: Content -> seq<(string, string)>,
                             facts: FactReader)

  datatype Derived = Derived(texts: map<Id, Lexical.Text>, graph: Graph.Tables, conflicts: Table)

  function EntityNames(rd: Readers, r: Record): seq<Graph.Name> {
    var found := rd.entities(r.content);
    seq(|found|, i requires 0 <= i < |found| => Graph.Name(r.key, found[i].0, found[i].1))
  }

  function TextOf(rd: Readers, r: Record): Lexical.Text {
    Lexical.Text(r.key, rd.tokens(r.content.text))
  }

  predicate Indexable(rows: map<Id, Record>, id: Id) {
    id in rows && id != "" && !rows[id].status.Deleting?
  }

  function Visit(d: Derived, rows: map<Id, Record>, rd: Readers, id: Id): Derived {
    if !Indexable(rows, id) then d
    else
      var r := rows[id];
      Derived(d.texts[id := TextOf(rd, r)],
              Graph.Project(d.graph, r.key, id, EntityNames(rd, r)),
              if r.status.Active? then Analyze(d.conflicts, rows, rd.facts, id) else d.conflicts)
  }

  function VisitAll(d: Derived, rows: map<Id, Record>, rd: Readers, ids: seq<Id>): Derived {
    if ids == [] then d else Visit(VisitAll(d, rows, rd, ids[..|ids| - 1]), rows, rd, ids[|ids| - 1])
  }

  function Cleared(d: Derived, key: Key): Derived {
    Derived(Lexical.Perform(d.texts, Lexical.ClearOp(key)), Graph.ClearScope(d.graph, key),
            map p | p in d.conflicts && p.key != key :: d.conflicts[p])
  }

  /** The rows the paged query selects, in its order: by creation time, ties in a fixed order. */
  ghost predicate IsListing(rows: map<Id, Record>, key: Key, ids: seq<Id>) {
    Distinct(ids) && (forall id :: id in ids <==> id in rows && InScope(key, rows[id].key)) &&
    forall i, j :: 0 <= i < j < |ids| ==> rows[ids[i]].createdAt <= rows[ids[j]].createdAt
  }

  /** `list_records_page` over that order. */
  function Page(ids: seq<Id>, offset: int, limit: int): seq<Id> {
    var from := Min(Max(0, offset), |ids|);
    ids[from..Min(from + Max(1, Min(limit, 1000)), |ids|)]
  }

  // ---------------------------------------------------------------- the paged loop

  class DerivedIndexes {
    const lexical: Lexical.MemoryLexicalIndex
    const graph: MemoryGraphStore
    const conflicts: MemoryConflictStore

    constructor ()
      ensures lexical.Valid() && fresh(lexical) && fresh(graph) && fresh(conflicts)
    {
      lexical := new Lexical.MemoryLexicalIndex();
      graph := new MemoryGraphStore();
      conflicts := new MemoryConflictStore();
    }

    ghost function View(): Derived
      reads lexical, graph, conflicts
    {
      Derived(lexical.texts, graph.View(), conflicts.conflicts)
    }

    /** Index one record. It fails exactly when a contradiction is refused as already stored. */
    method VisitRow(rows: map<Id, Record>, rd: Readers, id: Id) returns (ok: bool)
      requires lexical.Valid() && Indexable(rows, id)
      modifies lexical, graph, conflicts
      ensures lexical.Valid()
      ensures ok <==> !(rows[id].status.Active? && Clashes(old(conflicts.conflicts), rows, rd.facts, id))
      ensures ok ==> View() == Visit(old(View()), rows, rd, id)
    {
      var r := rows[id];
      graph.ProjectMemory(r.key, id, EntityNames(rd, r));
      lexical.IndexMemory(id, r.key, rd.tokens(r.content.text));
      ok := true;
      if r.status.Active? {
        ok := conflicts.AnalyzeConflicts(rows, rd.facts, id);
      }
    }

    method ClearAll(key: Key)
      requires lexical.Valid()
      modifies lexical, graph, conflicts
      ensures lexical.Valid() && View() == Cleared(old(View()), key)
    {
      lexical.ClearScope(key);
      graph.ClearScope(key);
      conflicts.ClearScope(key);
    }

    /** Index the rows of one page in order, stopping at the first refusal. */
    method VisitPage(rows: map<Id, Record>, rd: Readers, page: seq<Id>) returns (ok: bool, kept: seq<Id>)
      requires lexical.Valid()
      modifies lexical, graph, conflicts
      ensures lexical.Valid()
      ensures ok ==> View() == VisitAll(old(View()), rows, rd, page) && kept == Kept(rows, page)
      ensures ok <==> Smooth(old(View()), rows, rd, page)
    {
      ghost var start := View();
      kept := [];
      for i := 0 to |page|
        invariant lexical.Valid() && View() == VisitAll(start, rows, rd, page[..i]) && kept == Kept(rows, page[..i])
        invariant Smooth(start, rows, rd, page[..i])
      {
        assert page[..i + 1][..i] == page[..i];
        var id := page[i];
        if id in rows && id != "" && !rows[id].status.Deleting? {
          ok := VisitRow(rows, rd, id);
          if !ok {
            SmoothAppend(start, rows, rd, page[..i + 1], page[i + 1..]);
            assert page == page[..i + 1] + page[i + 1..];
            return;
          }
          kept := kept + [id];
        }
      }
      assert page[..|page|] == page;
      ok := true;
    }

    /** The loop ends, visits every listed row once, and leaves what one pass over the whole listing leaves,
        whatever the page size. */
    method RebuildDerivedIndexes(rows: map<Id, Record>, rd: Readers, key: Key, listing: seq<Id>, batch: int)
      returns (ok: bool, scanned: nat, indexed: nat, memoryIds: seq<Id>)
      requires lexical.Valid() && IsListing(rows, key, listing)
      modifies lexical, graph, conflicts
      ensures lexical.Valid()
      ensures ok ==> View() == VisitAll(Cleared(old(View()), key), rows, rd, listing)
      ensures ok ==> scanned == |listing| && indexed == |Kept(rows, listing)|
      ensures ok ==> memoryIds == FirstThousand(Kept(rows, listing))
      ensures ok ==> memoryIds <= Kept(rows, listing) && |memoryIds| == Min(1000, indexed)
      ensures ok <==> Smooth(Cleared(old(View()), key), rows, rd, listing)
    {
      var safe := Max(1, Min(batch, 1000));
      ClearAll(key);
      ok, scanned, indexed, memoryIds := VisitPages(rows, rd, listing, safe);
    }

    /** The paged loop: fetch a page, stop when it is empty, index it, stop after a short one. */
    method VisitPages(rows: map<Id, Record>, rd: Readers, listing: seq<Id>, limit: nat)
      returns (ok: bool, scanned: nat, indexed: nat, memoryIds: seq<Id>)
      requires lexical.Valid() && 1 <= limit <= 1000
      modifies lexical, graph, conflicts
      ensures lexical.Valid()
      ensures ok ==> scanned == |listing| && Progress(old(View()), rows, rd, listing, View(), indexed, memoryIds)
      ensures ok <==> Smooth(old(View()), rows, rd, listing)
    {
      ghost var start := View();
      var offset := 0;
      scanned, indexed, memoryIds := 0, 0, [];
      while true
        invariant 0 <= offset <= |listing| && scanned == offset && lexical.Valid()
        invariant Progress(start, rows, rd, listing[..offset], View(), indexed, memoryIds)
        invariant Smooth(start, rows, rd, listing[..offset])
        decreases |listing| - offset
      {
        var page := Page(listing, offset, limit);
        PageBounds(listing, offset, limit);
        if page == [] { break; }
        ok, indexed, memoryIds := IndexPage(rows, rd, start, listing, offset, limit, indexed, memoryIds);
        if !ok { return; }
        scanned := scanned + |page|;
        offset := offset + |page|;
        if |page| < limit { break; }
      }
      assert listing[..offset] == listing;
      ok := true;
    }

    /** One round of the loop: index the page and extend the counts. */
    method IndexPage(rows: map<Id, Record>, rd: Readers, ghost start: Derived, listing: seq<Id>, offset: nat,
                     limit: nat, indexed: nat, memoryIds: seq<Id>)
      returns (ok: bool, count: nat, ids: seq<Id>)
      requires lexical.Valid() && offset <= |listing| && 1 <= limit <= 1000
      requires Progress(start, rows, rd, listing[..offset], View(), indexed, memoryIds)
      requires Smooth(start, rows, rd, listing[..offset])
      modifies lexical, graph, conflicts
      ensures lexical.Valid() && offset + |Page(listing, offset, limit)| <= |listing|
      ensures ok ==> Progress(start, rows, rd, listing[..offset + |Page(listing, offset, limit)|], View(), count, ids)
      ensures ok ==> Smooth(start, rows, rd, listing[..offset + |Page(listing, offset, limit)|])
      ensures !ok ==> !Smooth(start, rows, rd, listing)
    {
      var page := Page(listing, offset, limit);
      SmoothPage(start, rows, rd, listing, offset, limit);
      PageProgress(start, rows, rd, listing, offset, limit, View(), indexed, memoryIds);
      var kept;
      ok, kept := VisitPage(rows, rd, page);
      count, ids := indexed + |kept|, FirstThousand(memoryIds + kept);
    }
  }

  /** After visiting `ids` from `d`: the indexes, the number of rows indexed and the first thousand of them. */
  ghost predicate Progress(d: Derived, rows: map<Id, Record>, rd: Readers, ids: seq<Id>, view: Derived, indexed: nat,
                           memoryIds: seq<Id>) {
    view == VisitAll(d, rows, rd, ids) && indexed == |Kept(rows, ids)| && memoryIds == FirstThousand(Kept(rows, ids))
  }

  function Kept(rows: map<Id, Record>, ids: seq<Id>): seq<Id> {
    if ids == [] then []
    else
      var n := |ids| - 1;
      Kept(rows, ids[..n]) + if Indexable(rows, ids[n]) then [ids[n]] else []
  }

  function FirstThousand(ids: seq<Id>): seq<Id> {
    if |ids| <= 1000 then ids else ids[..1000]
  }

  /** No visit of the listing meets a refusal. */
  predicate Smooth(d: Derived, rows: map<Id, Record>, rd: Readers, ids: seq<Id>) {
    ids == [] ||
    (Smooth(d, rows, rd, ids[..|ids| - 1]) &&
     Accepted(VisitAll(d, rows, rd, ids[..|ids| - 1]), rows, rd, ids[|ids| - 1]))
  }

  predicate Accepted(d: Derived, rows: map<Id, Record>, rd: Readers, id: Id) {
    Indexable(rows, id) && rows[id].status.Active? ==> !Clashes(d.conflicts, rows, rd.facts, id)
  }

  lemma {:induction false} VisitAppend(d: Derived, rows: map<Id, Record>, rd: Readers, a: seq<Id>, b: seq<Id>)
    ensures VisitAll(d, rows, rd, a + b) == VisitAll(VisitAll(d, rows, rd, a), rows, rd, b)
  {
    if b == [] {
      assert a + b == a;
    } else {
      var n := |b| - 1;
      VisitAppend(d, rows, rd, a, b[..n]);
      assert (a + b)[..|a + b| - 1] == a + b[..n];
    }
  }

  lemma {:induction false} KeptAppend(rows: map<Id, Record>, a: seq<Id>, b: seq<Id>)
    ensures Kept(rows, a + b) == Kept(rows, a) + Kept(rows, b)
  {
    if b == [] {
      assert a + b == a;
    } else {
      var n := |b| - 1;
      KeptAppend(rows, a, b[..n]);
      assert (a + b)[..|a + b| - 1] == a + b[..n];
    }
  }

  lemma {:induction false} SmoothAppend(d: Derived, rows: map<Id, Record>, rd: Readers, a: seq<Id>, b: seq<Id>)
    ensures Smooth(d, rows, rd, a + b) <==> Smooth(d, rows, rd, a) && Smooth(VisitAll(d, rows, rd, a), rows, rd, b)
  {
    if b == [] {
      assert a + b == a;
    } else {
      var n := |b| - 1;
      SmoothAppend(d, rows, rd, a, b[..n]);
      VisitAppend(d, rows, rd, a, b[..n]);
      assert (a + b)[..|a + b| - 1] == a + b[..n];
    }
  }

  lemma PageBounds(listing: seq<Id>, offset: nat, limit: nat)
    requires offset <= |listing| && 1 <= limit <= 1000
    ensures var page := Page(listing, offset, limit);
      var next := offset + |page|;
      next <= |listing| && |page| <= limit && (|page| < limit ==> next == |listing|) &&
      listing[..next] == listing[..offset] + page
  {
  }

  /** The page after what is visited so far brings the loop one page further. */
  lemma PageProgress(d: Derived, rows: map<Id, Record>, rd: Readers, listing: seq<Id>, offset: nat, limit: nat,
                     view: Derived, indexed: nat, memoryIds: seq<Id>)
    requires offset <= |listing| && 1 <= limit <= 1000
    requires Progress(d, rows, rd, listing[..offset], view, indexed, memoryIds)
    ensures var page := Page(listing, offset, limit);
      offset + |page| <= |listing| &&
      Progress(d, rows, rd, listing[..offset + |page|], VisitAll(view, rows, rd, page), indexed + |Kept(rows, page)|,
               FirstThousand(memoryIds + Kept(rows, page)))
  {
    var page := Page(listing, offset, limit);
    PageBounds(listing, offset, limit);
    VisitAppend(d, rows, rd, listing[..offset], page);
    KeptAppend(rows, listing[..offset], page);
  }

  lemma SmoothPage(d: Derived, rows: map<Id, Record>, rd: Readers, listing: seq<Id>, offset: nat, limit: nat)
    requires offset <= |listing| && 1 <= limit <= 1000 && Smooth(d, rows, rd, listing[..offset])
    ensures var page := Page(listing, offset, limit);
      offset + |page| <= |listing| &&
      (Smooth(d, rows, rd, listing) ==> Smooth(d, rows, rd, listing[..offset + |page|])) &&
      (Smooth(d, rows, rd, listing[..offset + |page|]) <==>
        Smooth(VisitAll(d, rows, rd, listing[..offset]), rows, rd, page))
  {
    var page := Page(listing, offset, limit);
    PageBounds(listing, offset, limit);
    var next := offset + |page|;
    SmoothAppend(d, rows, rd, listing[..offset], page);
    assert listing == listing[..next] + listing[next..];
    SmoothAppend(d, rows, rd, listing[..next], listing[next..]);
  }

  // ---------------------------------------------------------------- the lexical index after a rebuild

  lemma {:induction false} TextsAfterVisits(d: Derived, rows: map<Id, Record>, rd: Readers, ids: seq<Id>, id: Id)
    ensures var texts := VisitAll(d, rows, rd, ids).texts;
      if id in ids && Indexable(rows, id) then id in texts && texts[id] == TextOf(rd, rows[id])
      else (id in texts <==> id in d.texts) && (id in d.texts ==> texts[id] == d.texts[id])
  {
    if ids != [] {
      var n := |ids| - 1;
      TextsAfterVisits(d, rows, rd, ids[..n], id);
      assert ids == ids[..n] + [ids[n]];
    }
  }

  function OtherTexts(texts: map<Id, Lexical.Text>, key: Key): map<Id, Lexical.Text> {
    map id | id in texts && texts[id].key != key :: texts[id]
  }

  function TextsOfRows(rows: map<Id, Record>, rd: Readers, key: Key): map<Id, Lexical.Text> {
    map id | id in rows && InScope(key, rows[id].key) && !rows[id].status.Deleting? :: TextOf(rd, rows[id])
  }

  /** A rebuild leaves, besides texts of other scopes, exactly the texts of the listed rows that are not
      being deleted. */
  lemma RebuiltTextsAreExact(d: Derived, rows: map<Id, Record>, rd: Readers, key: Key, listing: seq<Id>)
    requires IsListing(rows, key, listing) && "" !in rows
    ensures VisitAll(Cleared(d, key), rows, rd, listing).texts == OtherTexts(d.texts, key) + TextsOfRows(rows, rd, key)
  {
    var texts := VisitAll(Cleared(d, key), rows, rd, listing).texts;
    var others, own := OtherTexts(d.texts, key), TextsOfRows(rows, rd, key);
    assert Cleared(d, key).texts == others;
    forall id
      ensures id in texts <==> id in others || id in own
      ensures id in texts ==> texts[id] == if id in own then own[id] else others[id]
    {
      TextsAfterVisits(Cleared(d, key), rows, rd, listing, id);
      assert id in own <==> id in listing && Indexable(rows, id);
    }
  }
}
