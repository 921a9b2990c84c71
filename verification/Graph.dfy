/** The entity graph projected from memories. Every entity and every link lists the memories it came from;
    a row lives exactly as long as some memory supports it. Timestamps, display names and aliases are not
    modelled; an entity is found by its normalised name and type, and links refer to entity identifiers. */
module Graph {
  import opened Prelude
  import opened Records

  const SOURCE_CAP := 200
  const PROJECTION_CAP := 50
  const RELATED := "related_to"
  const CONFIDENCE := 850_000

  datatype Name = Name(key: Key, normalized: string, kind: string)
  datatype Entity = Entity(id: nat, sources: seq<Id>)
  datatype Link = Link(key: Key, source: nat, target: nat, relation: string)
  datatype LinkRow = LinkRow(sources: seq<Id>, confidence: int)
  datatype Tables = Tables(entities: map<Name, Entity>, links: map<Link, LinkRow>, nextId: nat)

  const EMPTY_GRAPH := Tables(map[], map[], 0)

  // ---------------------------------------------------------------- projecting and removing a memory

  /** Append unless present, then cut off at the cap. */
  function AddSource(sources: seq<Id>, m: Id): seq<Id> {
    if m in sources then sources
    else if |sources| < SOURCE_CAP then sources + [m]
    else sources[..SOURCE_CAP]
  }

  function Upsert(g: Tables, name: Name, m: Id): Tables {
    if name in g.entities then
      var e := g.entities[name];
      if m == "" then g else g.(entities := g.entities[name := e.(sources := AddSource(e.sources, m))])
    else
      g.(entities := g.entities[name := Entity(g.nextId, if m == "" then [] else [m])], nextId := g.nextId + 1)
  }

  function UpsertAll(g: Tables, names: seq<Name>, m: Id): (after: Tables)
    ensures forall name :: name in g.entities || name in names ==> name in after.entities
  {
    if names == [] then g else Upsert(UpsertAll(g, names[..|names| - 1], m), names[|names| - 1], m)
  }

  function Clamp(ppm: int): int {
    Max(0, Min(1_000_000, ppm))
  }

  function Connect(links: map<Link, LinkRow>, l: Link, m: Id, confidence: int): map<Link, LinkRow> {
    if l in links then
      links[l := LinkRow(AddSource(links[l].sources, m), Max(links[l].confidence, Clamp(confidence)))]
    else links[l := LinkRow([m], Clamp(confidence))]
  }

  function ConnectAll(links: map<Link, LinkRow>, key: Key, root: nat, targets: seq<nat>, m: Id): map<Link, LinkRow> {
    if targets == [] then links
    else
      var n := |targets| - 1;
      var before := ConnectAll(links, key, root, targets[..n], m);
      if targets[n] == root then before else Connect(before, Link(key, root, targets[n], RELATED), m, CONFIDENCE)
  }

  function Projected(names: seq<Name>): seq<Name> {
    if |names| <= PROJECTION_CAP then names else names[..PROJECTION_CAP]
  }

  function IdsOf(entities: map<Name, Entity>, names: seq<Name>): seq<nat>
    requires forall name :: name in names ==> name in entities
  {
    seq(|names|, i requires 0 <= i < |names| => entities[names[i]].id)
  }

  function Project(g: Tables, key: Key, m: Id, extracted: seq<Name>): Tables {
    var names := Projected(extracted);
    if names == [] then g
    else
      var upserted := UpsertAll(g, names, m);
      var ids := IdsOf(upserted.entities, names);
      upserted.(links := ConnectAll(upserted.links, key, ids[0], ids[1..], m))
  }

  function Drop(sources: seq<Id>, m: Id): (rest: seq<Id>)
    ensures forall x :: x in rest <==> x in sources && x != m
  {
    if sources == [] then []
    else
      var n := |sources| - 1;
      assert sources == sources[..n] + [sources[n]];
      Drop(sources[..n], m) + if sources[n] == m then [] else [sources[n]]
  }

  function LinksWithout(links: map<Link, LinkRow>, key: Key, m: Id): map<Link, LinkRow> {
    map l | l in links && !(l.key == key && OnlySource(links[l].sources, m)) ::
      if l.key == key then links[l].(sources := Drop(links[l].sources, m)) else links[l]
  }

  function EntitiesWithout(entities: map<Name, Entity>, key: Key, m: Id): map<Name, Entity> {
    map n | n in entities && !(n.key == key && OnlySource(entities[n].sources, m)) ::
      if n.key == key then entities[n].(sources := Drop(entities[n].sources, m)) else entities[n]
  }

  /** Rows of the scope lose the memory; those it alone supported go. */
  function Remove(g: Tables, key: Key, m: Id): Tables {
    g.(links := LinksWithout(g.links, key, m), entities := EntitiesWithout(g.entities, key, m))
  }

  predicate OnlySource(sources: seq<Id>, m: Id) {
    m in sources && Drop(sources, m) == []
  }

  function ClearScope(g: Tables, key: Key): Tables {
    g.(links := map l | l in g.links && l.key != key :: g.links[l],
       entities := map n | n in g.entities && n.key != key :: g.entities[n])
  }

  // ---------------------------------------------------------------- integrity

  ghost predicate SoundSources(sources: seq<Id>) {
    sources != [] && Distinct(sources) && |sources| <= SOURCE_CAP
  }

  ghost predicate Names(entities: map<Name, Entity>, n: Name, key: Key, id: nat) {
    n in entities && n.key == key && entities[n].id == id
  }

  /** The link's end is an entity that every source of the link also supports. */
  ghost predicate Supported(entities: map<Name, Entity>, key: Key, id: nat, sources: seq<Id>) {
    exists n :: Names(entities, n, key, id) && forall m :: m in sources ==> m in entities[n].sources
  }

  ghost predicate LinkSound(entities: map<Name, Entity>, l: Link, row: LinkRow) {
    SoundSources(row.sources) && Supported(entities, l.key, l.source, row.sources) &&
    Supported(entities, l.key, l.target, row.sources)
  }

  ghost predicate EntitiesSound(entities: map<Name, Entity>, nextId: nat) {
    (forall n :: n in entities ==> SoundSources(entities[n].sources) && entities[n].id < nextId) &&
    (forall a, b :: a in entities && b in entities && entities[a].id == entities[b].id ==> a == b)
  }

  ghost predicate Whole(g: Tables) {
    EntitiesSound(g.entities, g.nextId) && forall l :: l in g.links ==> LinkSound(g.entities, l, g.links[l])
  }

  lemma AddSourceSound(sources: seq<Id>, m: Id)
    requires SoundSources(sources)
    ensures SoundSources(AddSource(sources, m))
    ensures forall x :: x in sources ==> x in AddSource(sources, m)
    ensures m in AddSource(sources, m) <==> m in sources || |sources| < SOURCE_CAP
    ensures forall x :: x in AddSource(sources, m) ==> x in sources || x == m
  {
    if m !in sources && |sources| == SOURCE_CAP { assert sources[..SOURCE_CAP] == sources; }
  }

  /** An entity that has no room left for the memory. */
  predicate Full(entities: map<Name, Entity>, name: Name, m: Id) {
    name in entities && m !in entities[name].sources && |entities[name].sources| >= SOURCE_CAP
  }

  lemma AddTwice(sources: seq<Id>, m: Id)
    requires SoundSources(sources)
    ensures AddSource(AddSource(sources, m), m) == AddSource(sources, m)
  {
    if m !in sources && |sources| == SOURCE_CAP { assert sources[..SOURCE_CAP] == sources; }
  }

  // ---------------------------------------------------------------- closed forms of the two loops

  /** Entity `n` after the memory has been recorded under `names`. */
  ghost predicate UpsertedAt(g: Tables, after: map<Name, Entity>, names: seq<Name>, m: Id, n: Name) {
    if n in g.entities then
      n in after && after[n].id == g.entities[n].id &&
      after[n].sources == if n in names then AddSource(g.entities[n].sources, m) else g.entities[n].sources
    else if n in names then n in after && after[n].sources == [m] && after[n].id >= g.nextId
    else n !in after
  }

  lemma UpsertEffect(g: Tables, mid: Tables, names: seq<Name>, name: Name, m: Id)
    requires EntitiesSound(g.entities, g.nextId) && EntitiesSound(mid.entities, mid.nextId) && g.nextId <= mid.nextId &&
             m != ""
    requires forall n :: UpsertedAt(g, mid.entities, names, m, n)
    ensures EntitiesSound(Upsert(mid, name, m).entities, Upsert(mid, name, m).nextId)
    ensures forall n :: UpsertedAt(g, Upsert(mid, name, m).entities, names + [name], m, n)
  {
    assert UpsertedAt(g, mid.entities, names, m, name);
    if name in mid.entities { AddSourceSound(mid.entities[name].sources, m); }
    if name in g.entities { AddTwice(g.entities[name].sources, m); }
    forall n ensures UpsertedAt(g, Upsert(mid, name, m).entities, names + [name], m, n) {
      assert UpsertedAt(g, mid.entities, names, m, n);
    }
  }

  lemma {:induction false} UpsertAllEffect(g: Tables, names: seq<Name>, m: Id)
    requires EntitiesSound(g.entities, g.nextId) && m != ""
    ensures var after := UpsertAll(g, names, m);
      EntitiesSound(after.entities, after.nextId) && after.links == g.links && g.nextId <= after.nextId &&
      forall n :: UpsertedAt(g, after.entities, names, m, n)
  {
    if names != [] {
      var k := |names| - 1;
      UpsertAllEffect(g, names[..k], m);
      UpsertEffect(g, UpsertAll(g, names[..k], m), names[..k], names[k], m);
      assert names == names[..k] + [names[k]];
    }
  }

  predicate IsNewLink(l: Link, key: Key, root: nat, targets: seq<nat>) {
    l.key == key && l.source == root && l.relation == RELATED && l.target != root && l.target in targets
  }

  /** Link `l` after the root has been connected to `targets`. */
  ghost predicate ConnectedAt(links: map<Link, LinkRow>, after: map<Link, LinkRow>, key: Key, root: nat,
                              targets: seq<nat>, m: Id, l: Link) {
    if l in links then
      l in after &&
      if IsNewLink(l, key, root, targets) then after[l].sources == AddSource(links[l].sources, m)
      else after[l] == links[l]
    else if IsNewLink(l, key, root, targets) then l in after && after[l].sources == [m]
    else l !in after
  }

  lemma {:induction false} ConnectAllEffect(links: map<Link, LinkRow>, key: Key, root: nat, targets: seq<nat>, m: Id)
    requires forall l :: l in links ==> SoundSources(links[l].sources)
    ensures forall l :: ConnectedAt(links, ConnectAll(links, key, root, targets, m), key, root, targets, m, l)
  {
    if targets != [] {
      var n := |targets| - 1;
      ConnectAllEffect(links, key, root, targets[..n], m);
      assert targets == targets[..n] + [targets[n]];
      forall l ensures ConnectedAt(links, ConnectAll(links, key, root, targets, m), key, root, targets, m, l) {
        assert ConnectedAt(links, ConnectAll(links, key, root, targets[..n], m), key, root, targets[..n], m, l);
        if l in links { AddTwice(links[l].sources, m); }
      }
    }
  }

  // ---------------------------------------------------------------- projecting keeps the graph whole

  predicate OfScope(names: seq<Name>, key: Key) {
    forall name :: name in names ==> name.key == key
  }

  /** The link from root to target that the projection writes stays within what both ends support: either
      both ends have room for the memory, or the link itself is full. */
  ghost predicate Carries(g: Tables, root: Name, target: Name, m: Id) {
    (!Full(g.entities, root, m) && !Full(g.entities, target, m)) ||
    (root in g.entities && target in g.entities &&
     var l := Link(root.key, g.entities[root].id, g.entities[target].id, RELATED);
     l in g.links && |g.links[l].sources| >= SOURCE_CAP)
  }

  ghost predicate AllCarried(g: Tables, names: seq<Name>, m: Id) {
    forall j :: 0 < j < |names| && names[j] != names[0] ==> Carries(g, names[0], names[j], m)
  }

  /** What every row keeps whatever the caps: sound sources, one entity per identifier. */
  ghost predicate SoundRows(g: Tables) {
    EntitiesSound(g.entities, g.nextId) && forall l :: l in g.links ==> SoundSources(g.links[l].sources)
  }

  /** The projection, seen row by row. */
  lemma ProjectEffect(g: Tables, key: Key, m: Id, extracted: seq<Name>)
    requires SoundRows(g) && m != "" && Projected(extracted) != []
    ensures var names := Projected(extracted);
      var after := Project(g, key, m, extracted);
      EntitiesSound(after.entities, after.nextId) && g.nextId <= after.nextId &&
      (forall n :: UpsertedAt(g, after.entities, names, m, n)) &&
      (forall name :: name in names ==> name in after.entities) &&
      var ids := IdsOf(after.entities, names);
      forall l :: ConnectedAt(g.links, after.links, key, ids[0], ids[1..], m, l)
  {
    var names := Projected(extracted);
    UpsertAllEffect(g, names, m);
    var upserted := UpsertAll(g, names, m);
    var ids := IdsOf(upserted.entities, names);
    ConnectAllEffect(upserted.links, key, ids[0], ids[1..], m);
  }

  lemma WholeIsSound(g: Tables)
    requires Whole(g)
    ensures SoundRows(g)
  {
    forall l | l in g.links ensures SoundSources(g.links[l].sources) { assert LinkSound(g.entities, l, g.links[l]); }
  }

  lemma SupportGrows(g: Tables, after: Tables, names: seq<Name>, m: Id, key: Key, id: nat, sources: seq<Id>)
    requires EntitiesSound(g.entities, g.nextId) && forall n :: UpsertedAt(g, after.entities, names, m, n)
    requires Supported(g.entities, key, id, sources)
    ensures Supported(after.entities, key, id, sources)
  {
    var n :| Names(g.entities, n, key, id) && forall x :: x in sources ==> x in g.entities[n].sources;
    assert UpsertedAt(g, after.entities, names, m, n);
    AddSourceSound(g.entities[n].sources, m);
    assert Names(after.entities, n, key, id);
  }

  /** An entity named by the projection ends up with the memory exactly when it was not full. */
  lemma NamedHasMemory(g: Tables, after: Tables, names: seq<Name>, m: Id, n: Name)
    requires EntitiesSound(g.entities, g.nextId) && UpsertedAt(g, after.entities, names, m, n) && n in names
    ensures n in after.entities && (m in after.entities[n].sources <==> !Full(g.entities, n, m))
    ensures n in g.entities ==> forall x :: x in g.entities[n].sources ==> x in after.entities[n].sources
  {
    if n in g.entities { AddSourceSound(g.entities[n].sources, m); }
  }

  /** A link the projection writes is sound if it carries. */
  lemma WrittenLinkSound(g: Tables, after: Tables, names: seq<Name>, key: Key, m: Id, j: nat, l: Link)
    requires Whole(g) && m != "" && OfScope(names, key) && EntitiesSound(after.entities, after.nextId)
    requires forall n :: UpsertedAt(g, after.entities, names, m, n)
    requires 0 < j < |names| && names[0] in after.entities && names[j] in after.entities && names[j] != names[0]
    requires l == Link(key, after.entities[names[0]].id, after.entities[names[j]].id, RELATED)
    requires l in after.links &&
             if l in g.links then after.links[l].sources == AddSource(g.links[l].sources, m)
             else after.links[l].sources == [m]
    requires Carries(g, names[0], names[j], m)
    ensures LinkSound(after.entities, l, after.links[l])
  {
    var sources := after.links[l].sources;
    assert names[0] in names && names[j] in names;
    assert UpsertedAt(g, after.entities, names, m, names[0]) && UpsertedAt(g, after.entities, names, m, names[j]);
    forall n | n == names[0] || n == names[j] ensures m in sources ==> m in after.entities[n].sources {
      assert UpsertedAt(g, after.entities, names, m, n);
      NamedHasMemory(g, after, names, m, n);
      if l in g.links { LinkOfOldEnds(g, after, names, m, names[0], names[j], l); }
    }
    if l in g.links {
      assert LinkSound(g.entities, l, g.links[l]);
      AddSourceSound(g.links[l].sources, m);
      SupportGrows(g, after, names, m, key, l.source, g.links[l].sources);
      SupportGrows(g, after, names, m, key, l.target, g.links[l].sources);
    }
    assert Names(after.entities, names[0], key, l.source) && Names(after.entities, names[j], key, l.target);
  }

  /** A link that was there before joins entities that were there before; if it takes the memory, and
      carries, both ends take it too. */
  lemma LinkOfOldEnds(g: Tables, after: Tables, names: seq<Name>, m: Id, root: Name, target: Name, l: Link)
    requires Whole(g) && root in names && target in names && EntitiesSound(after.entities, after.nextId)
    requires forall n :: UpsertedAt(g, after.entities, names, m, n)
    requires root in after.entities && target in after.entities && root.key == target.key == l.key
    requires l in g.links && l.source == after.entities[root].id && l.target == after.entities[target].id
    ensures root in g.entities && target in g.entities && g.entities[root].id == l.source &&
            g.entities[target].id == l.target
    ensures m in g.links[l].sources ==> m in g.entities[root].sources && m in g.entities[target].sources
    ensures m !in g.links[l].sources && |g.links[l].sources| >= SOURCE_CAP ==> m !in AddSource(g.links[l].sources, m)
  {
    assert LinkSound(g.entities, l, g.links[l]);
    var a :| Names(g.entities, a, l.key, l.source) &&
      forall x :: x in g.links[l].sources ==> x in g.entities[a].sources;
    var b :| Names(g.entities, b, l.key, l.target) &&
      forall x :: x in g.links[l].sources ==> x in g.entities[b].sources;
    assert UpsertedAt(g, after.entities, names, m, a) && UpsertedAt(g, after.entities, names, m, b);
    assert a == root && b == target;
    AddSourceSound(g.links[l].sources, m);
  }

  lemma CarriedKeepsWhole(g: Tables, key: Key, m: Id, extracted: seq<Name>)
    requires Whole(g) && m != "" && OfScope(extracted, key) && AllCarried(g, Projected(extracted), m)
    ensures Whole(Project(g, key, m, extracted))
  {
    var names := Projected(extracted);
    if names == [] { return; }
    WholeIsSound(g);
    ProjectEffect(g, key, m, extracted);
    var after := Project(g, key, m, extracted);
    var ids := IdsOf(after.entities, names);
    forall l | l in after.links ensures LinkSound(after.entities, l, after.links[l]) {
      assert ConnectedAt(g.links, after.links, key, ids[0], ids[1..], m, l);
      if IsNewLink(l, key, ids[0], ids[1..]) {
        var i :| 0 <= i < |ids[1..]| && ids[1..][i] == l.target;
        var j := i + 1;
        assert ids[j] == l.target && names[j] in names && names[0] in names;
        assert Carries(g, names[0], names[j], m);
        WrittenLinkSound(g, after, names, key, m, j, l);
      } else {
        assert LinkSound(g.entities, l, g.links[l]);
        SupportGrows(g, after, names, m, l.key, l.source, g.links[l].sources);
        SupportGrows(g, after, names, m, l.key, l.target, g.links[l].sources);
      }
    }
  }

  lemma UncarriedBreaks(g: Tables, key: Key, m: Id, extracted: seq<Name>, j: nat)
    requires Whole(g) && m != "" && OfScope(extracted, key)
    requires var names := Projected(extracted);
      0 < j < |names| && names[j] != names[0] && !Carries(g, names[0], names[j], m)
    ensures !Whole(Project(g, key, m, extracted))
  {
    var names := Projected(extracted);
    WholeIsSound(g);
    ProjectEffect(g, key, m, extracted);
    var after := Project(g, key, m, extracted);
    var ids := IdsOf(after.entities, names);
    assert names[0] in names && names[j] in names;
    var root, target := names[0], names[j];
    var l := Link(key, ids[0], ids[j], RELATED);
    assert ids[1..][j - 1] == ids[j];
    assert IsNewLink(l, key, ids[0], ids[1..]);
    assert ConnectedAt(g.links, after.links, key, ids[0], ids[1..], m, l);
    assert UpsertedAt(g, after.entities, names, m, root) && UpsertedAt(g, after.entities, names, m, target);
    NamedHasMemory(g, after, names, m, root);
    NamedHasMemory(g, after, names, m, target);
    if l in g.links {
      LinkOfOldEnds(g, after, names, m, root, target, l);
      assert LinkSound(g.entities, l, g.links[l]);
      AddSourceSound(g.links[l].sources, m);
    }
    assert m in after.links[l].sources;
    var full := if Full(g.entities, root, m) then root else target;
    assert Names(after.entities, full, key, after.entities[full].id);
    if LinkSound(after.entities, l, after.links[l]) {
      EndHasSources(after.entities, after.nextId, full, key, after.entities[full].id, after.links[l].sources);
    }
  }

  lemma EndHasSources(entities: map<Name, Entity>, nextId: nat, n: Name, key: Key, id: nat, sources: seq<Id>)
    requires EntitiesSound(entities, nextId) && Names(entities, n, key, id) && Supported(entities, key, id, sources)
    ensures forall x :: x in sources ==> x in entities[n].sources
  {
    var a :| Names(entities, a, key, id) && forall x :: x in sources ==> x in entities[a].sources;
    assert a == n;
  }

  /** Projecting a memory keeps the graph whole exactly when every link it writes carries: each end of the
      link has room for one more source, unless the link is itself at its cap. */
  lemma ProjectKeepsWholeIff(g: Tables, key: Key, m: Id, extracted: seq<Name>)
    requires Whole(g) && m != "" && OfScope(extracted, key)
    ensures Whole(Project(g, key, m, extracted)) <==> AllCarried(g, Projected(extracted), m)
  {
    if AllCarried(g, Projected(extracted), m) {
      CarriedKeepsWhole(g, key, m, extracted);
    } else {
      var names := Projected(extracted);
      var j :| 0 < j < |names| && names[j] != names[0] && !Carries(g, names[0], names[j], m);
      UncarriedBreaks(g, key, m, extracted, j);
    }
  }

  // ---------------------------------------------------------------- removing

  lemma {:induction false} DropSound(sources: seq<Id>, m: Id)
    requires Distinct(sources)
    ensures Distinct(Drop(sources, m)) && |Drop(sources, m)| <= |sources|
    ensures m !in sources ==> Drop(sources, m) == sources
  {
    if sources != [] {
      var n := |sources| - 1;
      DropSound(sources[..n], m);
      assert sources == sources[..n] + [sources[n]];
      assert sources[n] !in sources[..n];
    }
  }

  lemma SupportSurvives(g: Tables, key: Key, m: Id, end: Key, id: nat, sources: seq<Id>)
    requires Whole(g) && SoundSources(sources) && Supported(g.entities, end, id, sources)
    requires !(end == key && OnlySource(sources, m))
    ensures Supported(Remove(g, key, m).entities, end, id, if end == key then Drop(sources, m) else sources)
  {
    var n :| Names(g.entities, n, end, id) && forall x :: x in sources ==> x in g.entities[n].sources;
    var kept := if end == key then Drop(sources, m) else sources;
    assert sources[0] in sources;
    assert kept != [] && kept[0] in kept;
    assert Names(Remove(g, key, m).entities, n, end, id);
  }

  /** Removing a memory keeps the graph whole, whatever the caps: a link never outlives its ends. */
  lemma RemoveKeepsWhole(g: Tables, key: Key, m: Id)
    requires Whole(g)
    ensures Whole(Remove(g, key, m))
  {
    var after := Remove(g, key, m);
    forall n | n in after.entities ensures SoundSources(after.entities[n].sources) {
      DropSound(g.entities[n].sources, m);
    }
    forall l | l in after.links ensures LinkSound(after.entities, l, after.links[l]) {
      assert LinkSound(g.entities, l, g.links[l]);
      DropSound(g.links[l].sources, m);
      SupportSurvives(g, key, m, l.key, l.source, g.links[l].sources);
      SupportSurvives(g, key, m, l.key, l.target, g.links[l].sources);
    }
  }

  lemma ClearKeepsWhole(g: Tables, key: Key)
    requires Whole(g)
    ensures Whole(ClearScope(g, key))
  {
    var after := ClearScope(g, key);
    forall l | l in after.links ensures LinkSound(after.entities, l, after.links[l]) {
      assert LinkSound(g.entities, l, g.links[l]);
      var a :| Names(g.entities, a, l.key, l.source) &&
        forall x :: x in g.links[l].sources ==> x in g.entities[a].sources;
      var b :| Names(g.entities, b, l.key, l.target) &&
        forall x :: x in g.links[l].sources ==> x in g.entities[b].sources;
      assert Names(after.entities, a, l.key, l.source) && Names(after.entities, b, l.key, l.target);
    }
  }

  // ---------------------------------------------------------------- undo

  ghost predicate Mentions(g: Tables, m: Id) {
    (exists n :: n in g.entities && m in g.entities[n].sources) || (exists l :: l in g.links && m in g.links[l].sources)
  }

  lemma {:induction false} DropAdded(sources: seq<Id>, m: Id)
    requires SoundSources(sources) && m !in sources
    ensures Drop(AddSource(sources, m), m) == sources && !OnlySource(AddSource(sources, m), m)
  {
    DropSound(sources, m);
    if |sources| < SOURCE_CAP {
      assert (sources + [m])[..|sources|] == sources;
    } else {
      assert sources[..SOURCE_CAP] == sources;
    }
  }

  lemma UndoEntities(g: Tables, key: Key, m: Id, extracted: seq<Name>)
    requires Whole(g) && m != "" && OfScope(extracted, key) && !Mentions(g, m) && Projected(extracted) != []
    ensures Remove(Project(g, key, m, extracted), key, m).entities == g.entities
  {
    var back := Remove(Project(g, key, m, extracted), key, m);
    forall n
      ensures n in back.entities <==> n in g.entities
      ensures n in g.entities ==> back.entities[n] == g.entities[n]
    {
      UndoEntity(g, key, m, extracted, n);
    }
  }

  lemma UndoEntity(g: Tables, key: Key, m: Id, extracted: seq<Name>, n: Name)
    requires Whole(g) && m != "" && OfScope(extracted, key) && !Mentions(g, m) && Projected(extracted) != []
    ensures var back := Remove(Project(g, key, m, extracted), key, m);
      (n in back.entities <==> n in g.entities) && (n in g.entities ==> back.entities[n] == g.entities[n])
  {
    WholeIsSound(g);
    ProjectEffect(g, key, m, extracted);
    EntityRestored(g, Project(g, key, m, extracted), Projected(extracted), key, m, n);
  }

  lemma UndoLink(g: Tables, key: Key, m: Id, extracted: seq<Name>, l: Link)
    requires Whole(g) && m != "" && OfScope(extracted, key) && !Mentions(g, m) && Projected(extracted) != []
    ensures var back := Remove(Project(g, key, m, extracted), key, m);
      (l in back.links <==> l in g.links) &&
      (l in g.links ==>
       back.links[l].sources == g.links[l].sources && back.links[l].confidence >= g.links[l].confidence)
  {
    var names := Projected(extracted);
    var after := Project(g, key, m, extracted);
    WholeIsSound(g);
    ProjectEffect(g, key, m, extracted);
    var ids := IdsOf(after.entities, names);
    LinkRestored(g, after, key, ids[0], ids[1..], m, l);
    if l in g.links {
      UpsertAllEffect(g, names, m);
      ConfidenceOnlyRises(g.links, key, ids[0], ids[1..], m, l);
    }
  }

  /** Removing a memory that has just been projected, and was not in the graph before, restores every
      entity and every link: what remains of the projection is a raised confidence. */
  lemma RemoveUndoesProject(g: Tables, key: Key, m: Id, extracted: seq<Name>)
    requires Whole(g) && m != "" && OfScope(extracted, key) && !Mentions(g, m)
    ensures var back := Remove(Project(g, key, m, extracted), key, m);
      back.entities == g.entities && back.links.Keys == g.links.Keys &&
      forall l :: l in g.links ==>
        back.links[l].sources == g.links[l].sources && back.links[l].confidence >= g.links[l].confidence
  {
    if Projected(extracted) == [] {
      RemoveOfAbsent(g, key, m);
    } else {
      UndoEntities(g, key, m, extracted);
      var back := Remove(Project(g, key, m, extracted), key, m);
      forall l
        ensures l in back.links <==> l in g.links
        ensures l in g.links ==>
                back.links[l].sources == g.links[l].sources && back.links[l].confidence >= g.links[l].confidence
      {
        UndoLink(g, key, m, extracted, l);
      }
    }
  }

  lemma EntityRestored(g: Tables, after: Tables, names: seq<Name>, key: Key, m: Id, n: Name)
    requires Whole(g) && m != "" && OfScope(names, key) && !Mentions(g, m) && UpsertedAt(g, after.entities, names, m, n)
    ensures var back := Remove(after, key, m);
      (n in back.entities <==> n in g.entities) && (n in g.entities ==> back.entities[n] == g.entities[n])
  {
    if n in g.entities {
      DropAdded(g.entities[n].sources, m);
      DropSound(g.entities[n].sources, m);
    } else {
      assert Drop([m], m) == [];
    }
  }

  lemma LinkRestored(g: Tables, after: Tables, key: Key, root: nat, targets: seq<nat>, m: Id, l: Link)
    requires Whole(g) && !Mentions(g, m) && ConnectedAt(g.links, after.links, key, root, targets, m, l)
    ensures var back := Remove(after, key, m);
      (l in back.links <==> l in g.links) &&
      (l in g.links ==>
       l in after.links && back.links[l].sources == g.links[l].sources &&
       back.links[l].confidence == after.links[l].confidence)
  {
    if l in g.links {
      assert LinkSound(g.entities, l, g.links[l]);
      DropAdded(g.links[l].sources, m);
      DropSound(g.links[l].sources, m);
    } else {
      assert Drop([m], m) == [];
    }
  }

  lemma RemoveOfAbsent(g: Tables, key: Key, m: Id)
    requires Whole(g) && !Mentions(g, m)
    ensures Remove(g, key, m) == g
  {
    var after := Remove(g, key, m);
    forall n ensures n in after.entities <==> n in g.entities
             ensures n in g.entities ==> after.entities[n] == g.entities[n]
    {
      if n in g.entities { DropSound(g.entities[n].sources, m); }
    }
    forall l ensures l in after.links <==> l in g.links
             ensures l in g.links ==> after.links[l] == g.links[l]
    {
      if l in g.links {
        assert LinkSound(g.entities, l, g.links[l]);
        DropSound(g.links[l].sources, m);
      }
    }
    assert after.entities == g.entities && after.links == g.links;
  }

  lemma {:induction false} ConfidenceOnlyRises(links: map<Link, LinkRow>, key: Key, root: nat, targets: seq<nat>, m: Id,
                                               l: Link)
    requires l in links
    ensures l in ConnectAll(links, key, root, targets, m)
    ensures ConnectAll(links, key, root, targets, m)[l].confidence >= links[l].confidence
  {
    if targets != [] { ConfidenceOnlyRises(links, key, root, targets[..|targets| - 1], m, l); }
  }

  // ---------------------------------------------------------------- runs

  datatype GraphOp = ProjectOp(key: Key, m: Id, extracted: seq<Name>) | RemoveOp(key: Key, m: Id) | ClearOp(key: Key)

  function Perform(g: Tables, op: GraphOp): Tables {
    match op
    case ProjectOp(key, m, extracted) => Project(g, key, m, extracted)
    case RemoveOp(key, m) => Remove(g, key, m)
    case ClearOp(key) => ClearScope(g, key)
  }

  function Replay(ops: seq<GraphOp>): Tables {
    if ops == [] then EMPTY_GRAPH else Perform(Replay(ops[..|ops| - 1]), ops[|ops| - 1])
  }

  /** A projection names a memory and entities of its own scope, all of them with room for the memory. */
  ghost predicate HasRoom(g: Tables, op: GraphOp) {
    op.ProjectOp? ==>
      op.m != "" && OfScope(op.extracted, op.key) &&
      forall n :: n in Projected(op.extracted) ==> !Full(g.entities, n, op.m)
  }

  /** Below the source cap, every run of projections, removals and clearings keeps sources non-empty and
      free of repetitions, and every link between living entities that support all its sources. */
  lemma {:induction false} RunsKeepWhole(ops: seq<GraphOp>)
    requires forall i :: 0 <= i < |ops| ==> HasRoom(Replay(ops[..i]), ops[i])
    ensures Whole(Replay(ops))
  {
    if ops != [] {
      var n := |ops| - 1;
      forall i | 0 <= i < n ensures HasRoom(Replay(ops[..n][..i]), ops[..n][i]) {
        assert ops[..n][..i] == ops[..i];
      }
      RunsKeepWhole(ops[..n]);
      var g, op := Replay(ops[..n]), ops[n];
      assert HasRoom(g, op);
      if op.ProjectOp? {
        var names := Projected(op.extracted);
        assert forall j :: 0 <= j < |names| ==> names[j] in names;
        CarriedKeepsWhole(g, op.key, op.m, op.extracted);
      } else if op.RemoveOp? {
        RemoveKeepsWhole(g, op.key, op.m);
      } else {
        ClearKeepsWhole(g, op.key);
      }
    }
  }

  lemma ProjectKeepsSound(g: Tables, key: Key, m: Id, extracted: seq<Name>)
    requires SoundRows(g) && m != ""
    ensures SoundRows(Project(g, key, m, extracted))
  {
    if Projected(extracted) != [] {
      ProjectEffect(g, key, m, extracted);
      var after := Project(g, key, m, extracted);
      var ids := IdsOf(after.entities, Projected(extracted));
      forall l | l in after.links ensures SoundSources(after.links[l].sources) {
        assert ConnectedAt(g.links, after.links, key, ids[0], ids[1..], m, l);
        if l in g.links { AddSourceSound(g.links[l].sources, m); }
      }
    }
  }

  lemma RemoveKeepsSound(g: Tables, key: Key, m: Id)
    requires SoundRows(g)
    ensures SoundRows(Remove(g, key, m))
  {
    var after := Remove(g, key, m);
    forall n | n in after.entities ensures SoundSources(after.entities[n].sources) {
      DropSound(g.entities[n].sources, m);
    }
    forall l | l in after.links ensures SoundSources(after.links[l].sources) {
      DropSound(g.links[l].sources, m);
    }
  }

  /** Every run keeps every row's sources sound, at the cap too. */
  lemma {:induction false} RunsKeepSound(ops: seq<GraphOp>)
    requires forall op :: op in ops && op.ProjectOp? ==> op.m != ""
    ensures SoundRows(Replay(ops))
  {
    if ops != [] {
      var n := |ops| - 1;
      RunsKeepSound(ops[..n]);
      assert ops[n] in ops;
      var g, op := Replay(ops[..n]), ops[n];
      if op.ProjectOp? {
        ProjectKeepsSound(g, op.key, op.m, op.extracted);
      } else if op.RemoveOp? {
        RemoveKeepsSound(g, op.key, op.m);
      }
    }
  }

  // ---------------------------------------------------------------- at the cap

  function Numbered(n: nat): Id {
    seq(n + 1, _ => 'm')
  }

  /** n memories, each naming the one entity. */
  function OneEach(e: Name, n: nat): seq<GraphOp> {
    seq(n, i requires 0 <= i < n => ProjectOp(e.key, Numbered(i), [e]))
  }

  function FirstIds(n: nat): seq<Id> {
    seq(n, i requires 0 <= i < n => Numbered(i))
  }

  /** One entity with the first n memories. */
  function Filled(e: Name, n: nat): Tables {
    if n == 0 then EMPTY_GRAPH else Tables(map[e := Entity(0, FirstIds(n))], map[], 1)
  }

  lemma LoneProjection(g: Tables, e: Name, m: Id)
    ensures Project(g, e.key, m, [e]) == Upsert(g, e, m)
  {
    assert [e][..0] == [];
    assert UpsertAll(g, [e], m) == Upsert(UpsertAll(g, [], m), e, m);
  }

  lemma FilledGrows(e: Name, n: nat)
    requires n < SOURCE_CAP
    ensures Upsert(Filled(e, n), e, Numbered(n)) == Filled(e, n + 1)
  {
    var ids := FirstIds(n);
    assert FirstIds(n + 1) == ids + [Numbered(n)];
    assert forall i :: 0 <= i < n ==> |ids[i]| == i + 1;
    assert |Numbered(n)| == n + 1 && Numbered(n) != "";
    if n == 0 {
      assert FirstIds(1) == [Numbered(0)] && e !in EMPTY_GRAPH.entities;
      assert Upsert(EMPTY_GRAPH, e, Numbered(0)).entities == map[e := Entity(0, FirstIds(1))];
    } else {
      assert Numbered(n) !in ids;
      assert AddSource(ids, Numbered(n)) == FirstIds(n + 1);
      assert map[e := Entity(0, ids)][e := Entity(0, FirstIds(n + 1))] == map[e := Entity(0, FirstIds(n + 1))];
    }
  }

  lemma {:induction false} OneEachReplayed(e: Name, n: nat)
    requires n <= SOURCE_CAP
    ensures Replay(OneEach(e, n)) == Filled(e, n)
  {
    if n > 0 {
      OneEachReplayed(e, n - 1);
      var op := ProjectOp(e.key, Numbered(n - 1), [e]);
      assert OneEach(e, n) == OneEach(e, n - 1) + [op];
      LoneProjection(Filled(e, n - 1), e, op.m);
      FilledGrows(e, n - 1);
    }
  }

  /** Two hundred memories that name one entity, then one that names it and another: the link that is written
      has a source that its first end does not list. */
  lemma CapBreaksWhole(e: Name, f: Name)
    requires e != f && e.key == f.key
    ensures Whole(Replay(OneEach(e, SOURCE_CAP)))
    ensures !Whole(Replay(OneEach(e, SOURCE_CAP) + [ProjectOp(e.key, Numbered(SOURCE_CAP), [e, f])]))
  {
    var g := Replay(OneEach(e, SOURCE_CAP));
    var op := ProjectOp(e.key, Numbered(SOURCE_CAP), [e, f]);
    OneEachReplayed(e, SOURCE_CAP);
    var ids := g.entities[e].sources;
    assert forall i :: 0 <= i < |ids| ==> |ids[i]| == i + 1;
    assert Full(g.entities, e, op.m) && !Carries(g, e, f, op.m);
    UncarriedBreaks(g, e.key, op.m, [e, f], 1);
    assert (OneEach(e, SOURCE_CAP) + [op])[..SOURCE_CAP] == OneEach(e, SOURCE_CAP);
  }
}
