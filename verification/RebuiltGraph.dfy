/** The entity graph after a rebuild, row by row: what the listed memories name and nothing else, each row with the
    first two hundred of its memories in listing order. */
module RebuiltGraph {
  import opened Prelude
  import opened Records
  import opened Graph
  import opened Rebuild

  // ---------------------------------------------------------------- what the memories name

  /** The ids that pass a test, in order. */
  function Selected(ids: seq<Id>, keep: Id -> bool): (r: seq<Id>)
    ensures forall id :: id in r <==> id in ids && keep(id)
  {
    if ids == [] then []
    else
      var n := |ids| - 1;
      assert ids == ids[..n] + [ids[n]];
      Selected(ids[..n], keep) + if keep(ids[n]) then [ids[n]] else []
  }

  lemma SelectedLast(ids: seq<Id>, id: Id, keep: Id -> bool)
    ensures Selected(ids + [id], keep) == Selected(ids, keep) + if keep(id) then [id] else []
  {
    assert (ids + [id])[..|ids|] == ids;
  }

  /** The first two hundred. */
  function Capped(ids: seq<Id>): seq<Id> {
    if |ids| <= 200 then ids else ids[..200]
  }

  lemma CappedLast(ids: seq<Id>, id: Id)
    requires id !in ids
    ensures Capped(ids + [id]) == AddSource(Capped(ids), id)
  {
    if |ids| >= 200 {
      assert (ids + [id])[..200] == ids[..200] == ids[..200][..200];
    }
  }

  /** Memory `id` is indexed and names entity `n` of its own scope among its first fifty names. */
  predicate MentionsEntity(rows: map<Id, Record>, rd: Readers, n: Name, id: Id) {
    Indexable(rows, id) &&
    exists i :: 0 <= i < Min(50, |EntityNames(rd, rows[id])|) && EntityNames(rd, rows[id])[i] == n
  }

  /** Its first name is `a`, and `b` is another one of them. */
  predicate Joins(rows: map<Id, Record>, rd: Readers, a: Name, b: Name, id: Id) {
    a != b && MentionsEntity(rows, rd, b, id) && EntityNames(rd, rows[id])[0] == a
  }

  function Mentioning(rows: map<Id, Record>, rd: Readers, ids: seq<Id>, n: Name): seq<Id> {
    Selected(ids, id => MentionsEntity(rows, rd, n, id))
  }

  function Joining(rows: map<Id, Record>, rd: Readers, ids: seq<Id>, a: Name, b: Name): seq<Id> {
    Selected(ids, id => Joins(rows, rd, a, b, id))
  }

  lemma JoiningMention(rows: map<Id, Record>, rd: Readers, ids: seq<Id>, a: Name, b: Name)
    ensures Joining(rows, rd, ids, a, b) != [] ==>
            Mentioning(rows, rd, ids, a) != [] && Mentioning(rows, rd, ids, b) != []
  {
    var joining := Joining(rows, rd, ids, a, b);
    if joining != [] {
      var id := joining[0];
      assert id in joining;
      assert MentionsEntity(rows, rd, a, id);
      assert id in Mentioning(rows, rd, ids, a) && id in Mentioning(rows, rd, ids, b);
    }
  }

  /** The names of a projected row are those it is said to mention. */
  lemma ProjectedAreMentioned(rows: map<Id, Record>, rd: Readers, id: Id, n: Name)
    requires Indexable(rows, id)
    ensures n in Projected(EntityNames(rd, rows[id])) <==> MentionsEntity(rows, rd, n, id)
    ensures n in Projected(EntityNames(rd, rows[id])) ==> n.key == rows[id].key
  {
    var all := EntityNames(rd, rows[id]);
    if n in Projected(all) {
      var i :| 0 <= i < |Projected(all)| && Projected(all)[i] == n;
      assert all[i] == n;
    }
    if MentionsEntity(rows, rd, n, id) {
      var i :| 0 <= i < Min(50, |all|) && all[i] == n;
      assert Projected(all)[i] == n;
    }
  }

  // ---------------------------------------------------------------- the state of the loop

  ghost predicate EntityExact(g: Tables, rows: map<Id, Record>, rd: Readers, ids: seq<Id>, n: Name) {
    var mentioning := Mentioning(rows, rd, ids, n);
    (n in g.entities <==> mentioning != []) && (n in g.entities ==> g.entities[n].sources == Capped(mentioning))
  }

  function LinkOf(g: Tables, a: Name, b: Name): Link
    requires a in g.entities && b in g.entities
  {
    Link(a.key, g.entities[a].id, g.entities[b].id, RELATED)
  }

  ghost predicate LinkExact(g: Tables, rows: map<Id, Record>, rd: Readers, ids: seq<Id>, a: Name, b: Name)
    requires a in g.entities && b in g.entities
  {
    var joining := Joining(rows, rd, ids, a, b);
    var l := LinkOf(g, a, b);
    (l in g.links <==> joining != []) && (l in g.links ==> g.links[l].sources == Capped(joining))
  }

  /** Links of the scope join identifiers that have been given out. */
  ghost predicate EndsGiven(g: Tables, key: Key) {
    forall l :: l in g.links && l.key == key ==> l.source < g.nextId && l.target < g.nextId
  }

  /** The graph of the scope is what the memories `ids` make it. */
  ghost predicate Exact(g: Tables, rows: map<Id, Record>, rd: Readers, key: Key, ids: seq<Id>) {
    SoundRows(g) && EndsGiven(g, key) &&
    (forall n: Name :: n.key == key ==> EntityExact(g, rows, rd, ids, n)) &&
    forall a: Name, b: Name :: a.key == b.key == key && a != b && a in g.entities && b in g.entities ==>
      LinkExact(g, rows, rd, ids, a, b)
  }

  // ---------------------------------------------------------------- one visit

  lemma EndsGivenAfter(g: Tables, key: Key, m: Id, extracted: seq<Name>, own: Key)
    requires SoundRows(g) && EndsGiven(g, own) && m != ""
    ensures EndsGiven(Project(g, key, m, extracted), own)
  {
    var names := Projected(extracted);
    if names != [] {
      ProjectEffect(g, key, m, extracted);
      var after := Project(g, key, m, extracted);
      var ids := IdsOf(after.entities, names);
      forall l | l in after.links && l.key == own ensures l.source < after.nextId && l.target < after.nextId {
        assert ConnectedAt(g.links, after.links, key, ids[0], ids[1..], m, l);
        if l !in g.links {
          var i :| 0 <= i < |ids[1..]| && ids[1..][i] == l.target;
          assert names[0] in names && names[i + 1] in names && ids[i + 1] == l.target;
        }
      }
    }
  }

  lemma EntityVisited(g: Tables, rows: map<Id, Record>, rd: Readers, ids: seq<Id>, id: Id, n: Name)
    requires SoundRows(g) && Indexable(rows, id) && id !in ids && EntityExact(g, rows, rd, ids, n)
    ensures EntityExact(Project(g, rows[id].key, id, EntityNames(rd, rows[id])), rows, rd, ids + [id], n)
  {
    var extracted := EntityNames(rd, rows[id]);
    SelectedLast(ids, id, x => MentionsEntity(rows, rd, n, x));
    ProjectedAreMentioned(rows, rd, id, n);
    CappedLast(Mentioning(rows, rd, ids, n), id);
    if Projected(extracted) != [] {
      ProjectEffect(g, rows[id].key, id, extracted);
      assert UpsertedAt(g, Project(g, rows[id].key, id, extracted).entities, Projected(extracted), id, n);
    }
  }

  /** The projection writes the link from a to b exactly when a is its first name and b another one. */
  lemma WritesLinkIff(after: Tables, key: Key, names: seq<Name>, a: Name, b: Name)
    requires EntitiesSound(after.entities, after.nextId) && names != []
    requires (forall n :: n in names ==> n in after.entities) && a in after.entities && b in after.entities
    requires a.key == key && a != b
    ensures var ids := IdsOf(after.entities, names);
      IsNewLink(LinkOf(after, a, b), key, ids[0], ids[1..]) <==> a == names[0] && b in names
  {
    var ids := IdsOf(after.entities, names);
    var l := LinkOf(after, a, b);
    assert names[0] in names;
    if IsNewLink(l, key, ids[0], ids[1..]) {
      var i :| 0 <= i < |ids[1..]| && ids[1..][i] == l.target;
      assert names[i + 1] in names && ids[i + 1] == l.target;
    }
    if a == names[0] && b in names {
      var j :| 0 <= j < |names| && names[j] == b;
      assert ids[1..][j - 1] == l.target;
    }
  }

  /** What the projection of memory m does to the link from a to b. */
  ghost predicate LinkWritten(g: Tables, after: Tables, m: Id, a: Name, b: Name, joins: bool)
    requires a in after.entities && b in after.entities
  {
    var l := LinkOf(after, a, b);
    (a in g.entities && b in g.entities ==> l == LinkOf(g, a, b)) &&
    (a !in g.entities || b !in g.entities ==> l !in g.links) &&
    if l in g.links then
      l in after.links &&
      after.links[l].sources == if joins then AddSource(g.links[l].sources, m) else g.links[l].sources
    else (l in after.links <==> joins) && (joins ==> after.links[l].sources == [m])
  }

  lemma ProjectionWritesLink(g: Tables, rows: map<Id, Record>, rd: Readers, id: Id, a: Name, b: Name)
    requires SoundRows(g) && EndsGiven(g, a.key) && Indexable(rows, id) && a.key == b.key && a != b
    ensures var after := Project(g, rows[id].key, id, EntityNames(rd, rows[id]));
      a in after.entities && b in after.entities ==> LinkWritten(g, after, id, a, b, Joins(rows, rd, a, b, id))
  {
    var key, extracted := rows[id].key, EntityNames(rd, rows[id]);
    var names, after := Projected(extracted), Project(g, key, id, extracted);
    ProjectedAreMentioned(rows, rd, id, b);
    if names != [] && a in after.entities && b in after.entities {
      ProjectEffect(g, key, id, extracted);
      assert UpsertedAt(g, after.entities, names, id, a) && UpsertedAt(g, after.entities, names, id, b);
      var ends := IdsOf(after.entities, names);
      assert ConnectedAt(g.links, after.links, key, ends[0], ends[1..], id, LinkOf(after, a, b));
      assert names[0] == extracted[0];
      if a.key == key { WritesLinkIff(after, key, names, a, b); }
    }
  }

  lemma LinkVisited(g: Tables, after: Tables, rows: map<Id, Record>, rd: Readers, ids: seq<Id>, id: Id, a: Name,
                    b: Name)
    requires id !in ids && a in after.entities && b in after.entities
    requires LinkWritten(g, after, id, a, b, Joins(rows, rd, a, b, id))
    requires EntityExact(g, rows, rd, ids, a) && EntityExact(g, rows, rd, ids, b)
    requires a in g.entities && b in g.entities ==> LinkExact(g, rows, rd, ids, a, b)
    ensures LinkExact(after, rows, rd, ids + [id], a, b)
  {
    SelectedLast(ids, id, x => Joins(rows, rd, a, b, x));
    JoiningMention(rows, rd, ids, a, b);
    CappedLast(Joining(rows, rd, ids, a, b), id);
  }

  lemma VisitedStaysExact(g: Tables, rows: map<Id, Record>, rd: Readers, key: Key, ids: seq<Id>, id: Id)
    requires Exact(g, rows, rd, key, ids) && id !in ids && Indexable(rows, id)
    ensures Exact(Project(g, rows[id].key, id, EntityNames(rd, rows[id])), rows, rd, key, ids + [id])
  {
    var after := Project(g, rows[id].key, id, EntityNames(rd, rows[id]));
    ProjectKeepsSound(g, rows[id].key, id, EntityNames(rd, rows[id]));
    EndsGivenAfter(g, rows[id].key, id, EntityNames(rd, rows[id]), key);
    forall n: Name | n.key == key ensures EntityExact(after, rows, rd, ids + [id], n) {
      EntityVisited(g, rows, rd, ids, id, n);
    }
    forall a: Name, b: Name | a.key == b.key == key && a != b && a in after.entities && b in after.entities
      ensures LinkExact(after, rows, rd, ids + [id], a, b)
    {
      ProjectionWritesLink(g, rows, rd, id, a, b);
      LinkVisited(g, after, rows, rd, ids, id, a, b);
    }
  }

  lemma SkippedStaysExact(g: Tables, rows: map<Id, Record>, rd: Readers, key: Key, ids: seq<Id>, id: Id)
    requires Exact(g, rows, rd, key, ids) && !Indexable(rows, id)
    ensures Exact(g, rows, rd, key, ids + [id])
  {
    forall n: Name | n.key == key ensures EntityExact(g, rows, rd, ids + [id], n) {
      SelectedLast(ids, id, x => MentionsEntity(rows, rd, n, x));
      assert EntityExact(g, rows, rd, ids, n);
    }
    forall a: Name, b: Name | a.key == b.key == key && a != b && a in g.entities && b in g.entities
      ensures LinkExact(g, rows, rd, ids + [id], a, b)
    {
      SelectedLast(ids, id, x => Joins(rows, rd, a, b, x));
      assert LinkExact(g, rows, rd, ids, a, b);
    }
  }

  lemma VisitStaysExact(d: Derived, rows: map<Id, Record>, rd: Readers, key: Key, ids: seq<Id>, id: Id)
    requires Exact(d.graph, rows, rd, key, ids) && id !in ids
    ensures Exact(Visit(d, rows, rd, id).graph, rows, rd, key, ids + [id])
  {
    if Indexable(rows, id) {
      VisitedStaysExact(d.graph, rows, rd, key, ids, id);
    } else {
      SkippedStaysExact(d.graph, rows, rd, key, ids, id);
    }
  }

  lemma {:induction false} VisitsStayExact(d: Derived, rows: map<Id, Record>, rd: Readers, key: Key, ids: seq<Id>)
    requires SoundRows(d.graph) && Distinct(ids)
    ensures Exact(VisitAll(Cleared(d, key), rows, rd, ids).graph, rows, rd, key, ids)
  {
    if ids != [] {
      var n := |ids| - 1;
      VisitsStayExact(d, rows, rd, key, ids[..n]);
      assert ids == ids[..n] + [ids[n]];
      VisitStaysExact(VisitAll(Cleared(d, key), rows, rd, ids[..n]), rows, rd, key, ids[..n], ids[n]);
    }
  }

  // ---------------------------------------------------------------- the rebuilt graph

  /** After a rebuild an entity of the scope is there exactly when a listed memory that is not being deleted
      mentions it, and lists the first two hundred of those in listing order. */
  lemma RebuiltEntitiesAreExact(d: Derived, rows: map<Id, Record>, rd: Readers, key: Key, listing: seq<Id>, n: Name)
    requires SoundRows(d.graph) && IsListing(rows, key, listing) && n.key == key
    ensures var g := VisitAll(Cleared(d, key), rows, rd, listing).graph;
      var mentioning := Mentioning(rows, rd, listing, n);
      (n in g.entities <==> mentioning != []) &&
      (n in g.entities ==> g.entities[n].sources == Capped(mentioning)) &&
      (n in g.entities && |mentioning| <= 200 ==>
        forall m :: m in g.entities[n].sources <==> m in listing && MentionsEntity(rows, rd, n, m))
  {
    VisitsStayExact(d, rows, rd, key, listing);
    assert EntityExact(VisitAll(Cleared(d, key), rows, rd, listing).graph, rows, rd, listing, n);
  }

  /** Two of its entities are linked exactly when such a memory names the one first and the other after it, with
      the first two hundred of those as sources. */
  lemma RebuiltLinksAreExact(d: Derived, rows: map<Id, Record>, rd: Readers, key: Key, listing: seq<Id>, a: Name,
                             b: Name)
    requires SoundRows(d.graph) && IsListing(rows, key, listing) && a.key == b.key == key && a != b
    ensures var g := VisitAll(Cleared(d, key), rows, rd, listing).graph;
      var joining := Joining(rows, rd, listing, a, b);
      (joining != [] ==> a in g.entities && b in g.entities) &&
      (a in g.entities && b in g.entities ==>
        (LinkOf(g, a, b) in g.links <==> joining != []) &&
        (joining != [] ==> g.links[LinkOf(g, a, b)].sources == Capped(joining)))
  {
    VisitsStayExact(d, rows, rd, key, listing);
    var g := VisitAll(Cleared(d, key), rows, rd, listing).graph;
    assert EntityExact(g, rows, rd, listing, a) && EntityExact(g, rows, rd, listing, b);
    JoiningMention(rows, rd, listing, a, b);
    if a in g.entities && b in g.entities { assert LinkExact(g, rows, rd, listing, a, b); }
  }

  /** Every link that a rebuild writes has the confidence of a projection. */
  lemma {:induction false} ConnectedConfidence(links: map<Link, LinkRow>, key: Key, root: nat, targets: seq<nat>, m: Id,
                                               l: Link)
    requires l in ConnectAll(links, key, root, targets, m)
    requires l in links ==> links[l].confidence == 850_000
    ensures ConnectAll(links, key, root, targets, m)[l].confidence == 850_000
  {
    if targets != [] {
      var n := |targets| - 1;
      if l in ConnectAll(links, key, root, targets[..n], m) {
        ConnectedConfidence(links, key, root, targets[..n], m, l);
      }
    }
  }

  lemma {:induction false} UpsertsKeepLinks(g: Tables, names: seq<Name>, m: Id)
    ensures UpsertAll(g, names, m).links == g.links
  {
    if names != [] { UpsertsKeepLinks(g, names[..|names| - 1], m); }
  }

  lemma {:induction false} RebuiltLinkConfidence(d: Derived, rows: map<Id, Record>, rd: Readers, key: Key, ids: seq<Id>,
                                                 l: Link)
    requires l.key == key && l in VisitAll(Cleared(d, key), rows, rd, ids).graph.links
    ensures VisitAll(Cleared(d, key), rows, rd, ids).graph.links[l].confidence == 850_000
  {
    if ids != [] {
      var n := |ids| - 1;
      var g := VisitAll(Cleared(d, key), rows, rd, ids[..n]).graph;
      if l in g.links { RebuiltLinkConfidence(d, rows, rd, key, ids[..n], l); }
      if Indexable(rows, ids[n]) {
        var own, names := rows[ids[n]].key, Projected(EntityNames(rd, rows[ids[n]]));
        if names != [] {
          var upserted := UpsertAll(g, names, ids[n]);
          var ends := IdsOf(upserted.entities, names);
          UpsertsKeepLinks(g, names, ids[n]);
          ConnectedConfidence(g.links, own, ends[0], ends[1..], ids[n], l);
        }
      }
    }
  }

  // ---------------------------------------------------------------- the graph elsewhere

  lemma ProjectionStaysHome(g: Tables, key: Key, m: Id, extracted: seq<Name>, n: Name, l: Link)
    requires SoundRows(g) && m != "" && OfScope(extracted, key) && n.key != key && l.key != key
    ensures var after := Project(g, key, m, extracted);
      (n in after.entities <==> n in g.entities) && (l in after.links <==> l in g.links) &&
      (n in g.entities ==> after.entities[n] == g.entities[n]) && (l in g.links ==> after.links[l] == g.links[l])
  {
    if Projected(extracted) != [] {
      var after := Project(g, key, m, extracted);
      ProjectEffect(g, key, m, extracted);
      var ids := IdsOf(after.entities, Projected(extracted));
      assert UpsertedAt(g, after.entities, Projected(extracted), m, n);
      assert ConnectedAt(g.links, after.links, key, ids[0], ids[1..], m, l);
    }
  }

  lemma {:induction false} VisitsStayHome(d: Derived, rows: map<Id, Record>, rd: Readers, key: Key, ids: seq<Id>,
                                          n: Name, l: Link)
    requires SoundRows(d.graph) && forall id :: id in ids ==> id in rows && InScope(key, rows[id].key)
    requires !InScope(key, n.key) && !InScope(key, l.key)
    ensures var after := VisitAll(d, rows, rd, ids).graph;
      SoundRows(after) &&
      (n in after.entities <==> n in d.graph.entities) && (l in after.links <==> l in d.graph.links) &&
      (n in d.graph.entities ==> after.entities[n] == d.graph.entities[n]) &&
      (l in d.graph.links ==> after.links[l] == d.graph.links[l])
  {
    if ids != [] {
      var k := |ids| - 1;
      assert ids == ids[..k] + [ids[k]];
      VisitsStayHome(d, rows, rd, key, ids[..k], n, l);
      var g, id := VisitAll(d, rows, rd, ids[..k]).graph, ids[k];
      if Indexable(rows, id) {
        ProjectKeepsSound(g, rows[id].key, id, EntityNames(rd, rows[id]));
        ProjectionStaysHome(g, rows[id].key, id, EntityNames(rd, rows[id]), n, l);
      }
    }
  }

  /** A rebuild leaves the graph of every scope but its own and the owner's global one as it was. */
  lemma RebuildStaysInScope(d: Derived, rows: map<Id, Record>, rd: Readers, key: Key, listing: seq<Id>, n: Name,
                            l: Link)
    requires SoundRows(d.graph) && IsListing(rows, key, listing)
    requires n.key != key && n.key != Key(key.user, "") && l.key != key && l.key != Key(key.user, "")
    ensures var after := VisitAll(Cleared(d, key), rows, rd, listing).graph;
      (n in after.entities <==> n in d.graph.entities) && (l in after.links <==> l in d.graph.links) &&
      (n in d.graph.entities ==> after.entities[n] == d.graph.entities[n]) &&
      (l in d.graph.links ==> after.links[l] == d.graph.links[l])
  {
    assert forall own: Key :: InScope(key, own) <==> own == key || own == Key(key.user, "");
    VisitsStayHome(Cleared(d, key), rows, rd, key, listing, n, l);
  }
}
