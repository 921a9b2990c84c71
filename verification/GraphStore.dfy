/** The graph tables and the methods that update them row by row, proved against module Graph. */
module GraphStore {
  import opened Prelude
  import opened Records
  import opened Graph
  import G = Graph

  predicate HasKey(value: string, normalize: string -> string, typeOf: string -> string, k: (string, string)) {
    value != "" && (normalize(value), typeOf(value)) == k
  }

  /** `shown` is the last of the values with this key. */
  ghost predicate LastOfKey(values: seq<string>, normalize: string -> string, typeOf: string -> string,
                            k: (string, string), shown: string) {
    exists i :: 0 <= i < |values| && values[i] == shown && HasKey(values[i], normalize, typeOf, k) &&
      forall j :: i < j < |values| ==> !HasKey(values[j], normalize, typeOf, k)
  }

  /** Every key is non-blank and displayed as its last value. */
  ghost predicate ShownLast(values: seq<string>, normalize: string -> string, typeOf: string -> string,
                            display: map<(string, string), string>) {
    forall k :: k in display ==> k.0 != "" && LastOfKey(values, normalize, typeOf, k, display[k])
  }

  lemma LastOfMore(values: seq<string>, normalize: string -> string, typeOf: string -> string,
                   k: (string, string), shown: string, more: string)
    ensures HasKey(more, normalize, typeOf, k) ==> LastOfKey(values + [more], normalize, typeOf, k, more)
    ensures !HasKey(more, normalize, typeOf, k) && LastOfKey(values, normalize, typeOf, k, shown) ==>
            LastOfKey(values + [more], normalize, typeOf, k, shown)
  {
    var longer := values + [more];
    if HasKey(more, normalize, typeOf, k) {
      assert longer[|values|] == more;
    } else if LastOfKey(values, normalize, typeOf, k, shown) {
      var i :| 0 <= i < |values| && values[i] == shown && HasKey(values[i], normalize, typeOf, k) &&
        forall j :: i < j < |values| ==> !HasKey(values[j], normalize, typeOf, k);
      assert longer[i] == shown;
    }
  }

  lemma ShownLastGrows(values: seq<string>, normalize: string -> string, typeOf: string -> string,
                       display: map<(string, string), string>, more: string)
    requires ShownLast(values, normalize, typeOf, display)
    ensures var key := (normalize(more), typeOf(more));
      ShownLast(values + [more], normalize, typeOf, if more == "" || key.0 == "" then display else display[key := more])
  {
    var key := (normalize(more), typeOf(more));
    LastOfMore(values, normalize, typeOf, key, more, more);
    forall k | k in display
      ensures HasKey(more, normalize, typeOf, k) || LastOfKey(values + [more], normalize, typeOf, k, display[k])
    {
      LastOfMore(values, normalize, typeOf, k, display[k], more);
    }
  }

  lemma KeysGrow(values: seq<string>, normalize: string -> string, typeOf: string -> string, more: string)
    ensures var key := (normalize(more), typeOf(more));
      var keys := Dedup(KeysOf(values, normalize, typeOf));
      Dedup(KeysOf(values + [more], normalize, typeOf)) ==
        if more == "" || key.0 == "" || key in keys then keys else keys + [key]
  {
    var key := (normalize(more), typeOf(more));
    var before := KeysOf(values, normalize, typeOf);
    assert (values + [more])[..|values|] == values && (before + [key])[..|before|] == before;
  }

  /** Entities named in a memory: blank names dropped, one per normalised name and type, in order of
      first appearance, shown as last written. */
  method ExtractEntities(values: seq<string>, normalize: string -> string, typeOf: string -> string)
    returns (keys: seq<(string, string)>, display: map<(string, string), string>)
    ensures keys == Dedup(KeysOf(values, normalize, typeOf)) && display.Keys == Elements(keys)
    ensures forall k :: k in keys ==> k.0 != "" && LastOfKey(values, normalize, typeOf, k, display[k])
  {
    keys, display := [], map[];
    for i := 0 to |values|
      invariant keys == Dedup(KeysOf(values[..i], normalize, typeOf)) && display.Keys == Elements(keys)
      invariant ShownLast(values[..i], normalize, typeOf, display)
    {
      assert values[..i + 1] == values[..i] + [values[i]];
      var safe := values[i];
      ShownLastGrows(values[..i], normalize, typeOf, display, safe);
      KeysGrow(values[..i], normalize, typeOf, safe);
      if safe != "" {
        var key := (normalize(safe), typeOf(safe));
        if key.0 != "" {
          keys, display := KeepKey(keys, display, key, safe);
        }
      }
    }
    assert values[..|values|] == values;
  }

  /** `dedup[key] = safe` on an ordered dictionary. */
  method KeepKey(keys: seq<(string, string)>, display: map<(string, string), string>, key: (string, string),
                 safe: string)
    returns (after: seq<(string, string)>, shown: map<(string, string), string>)
    requires display.Keys == Elements(keys)
    ensures after == (if key in keys then keys else keys + [key]) && shown == display[key := safe]
    ensures shown.Keys == Elements(after)
  {
    after := keys;
    if key !in keys {
      ElementsPush(keys, key);
      after := keys + [key];
    }
    shown := display[key := safe];
  }

  function KeysOf(values: seq<string>, normalize: string -> string, typeOf: string -> string): seq<(string, string)> {
    if values == [] then []
    else
      var n := |values| - 1;
      var before := KeysOf(values[..n], normalize, typeOf);
      var key := (normalize(values[n]), typeOf(values[n]));
      if values[n] == "" || key.0 == "" then before else before + [key]
  }

  class MemoryGraphStore {
    var entities: map<Name, Entity>
    var links: map<Link, LinkRow>
    var nextId: nat

    function View(): Tables
      reads this
    {
      Tables(entities, links, nextId)
    }

    constructor ()
      ensures View() == EMPTY_GRAPH
    {
      entities, links, nextId := map[], map[], 0;
    }

    method UpsertEntity(name: Name, m: Id) returns (id: nat)
      modifies this
      ensures View() == Upsert(old(View()), name, m) && name in entities && id == entities[name].id
      ensures m == "" ==>
        entities[name].sources == if name in old(entities) then old(entities)[name].sources else []
    {
      if name !in entities {
        id := nextId;
        nextId := nextId + 1;
        entities := entities[name := Entity(id, if m == "" then [] else [m])];
      } else {
        var row := entities[name];
        id := row.id;
        if m != "" {
          var sources := Append(row.sources, m);
          entities := entities[name := row.(sources := sources)];
        }
      }
    }

    static method Append(sources: seq<Id>, m: Id) returns (after: seq<Id>)
      ensures after == AddSource(sources, m)
    {
      after := sources;
      if m !in after {
        after := after + [m];
        if |after| > SOURCE_CAP {
          after := after[..SOURCE_CAP];
          assert after == sources[..SOURCE_CAP];
        }
      }
    }

    method Connect(l: Link, m: Id, confidence: int)
      modifies `links
      ensures links == G.Connect(old(links), l, m, confidence)
    {
      if l !in links {
        links := links[l := LinkRow([m], Clamp(confidence))];
      } else {
        var sources := Append(links[l].sources, m);
        links := links[l := LinkRow(sources, Max(links[l].confidence, Clamp(confidence)))];
      }
    }

    method ProjectMemory(key: Key, m: Id, extracted: seq<Name>)
      modifies this
      ensures View() == Project(old(View()), key, m, extracted)
    {
      if extracted == [] { return; }
      var names := Projected(extracted);
      UpsertNames(names, m);
      ConnectNames(key, IdsOf(entities, names), m);
    }

    method UpsertNames(names: seq<Name>, m: Id)
      modifies this
      ensures View() == UpsertAll(old(View()), names, m)
    {
      ghost var start := View();
      for i := 0 to |names|
        invariant View() == UpsertAll(start, names[..i], m)
      {
        assert names[..i + 1][..i] == names[..i];
        var _ := UpsertEntity(names[i], m);
      }
      assert names[..|names|] == names;
    }

    /** Link the first entity to every other one. */
    method ConnectNames(key: Key, ids: seq<nat>, m: Id)
      requires ids != []
      modifies `links
      ensures links == ConnectAll(old(links), key, ids[0], ids[1..], m)
    {
      var root, targets := ids[0], ids[1..];
      for i := 0 to |targets|
        invariant links == ConnectAll(old(links), key, root, targets[..i], m)
      {
        assert targets[..i + 1][..i] == targets[..i];
        if targets[i] != root {
          Connect(Link(key, root, targets[i], RELATED), m, CONFIDENCE);
        }
      }
      assert targets[..|targets|] == targets;
    }

    /** `[item for item in sources if item != memory_id]`. */
    static method Filter(sources: seq<Id>, m: Id) returns (rest: seq<Id>)
      ensures rest == Drop(sources, m)
    {
      rest := [];
      for i := 0 to |sources|
        invariant rest == Drop(sources[..i], m)
      {
        assert sources[..i + 1][..i] == sources[..i];
        if sources[i] != m { rest := rest + [sources[i]]; }
      }
      assert sources[..|sources|] == sources;
    }

    method RemoveMemory(key: Key, m: Id)
      modifies this
      ensures View() == Remove(old(View()), key, m)
    {
      links := RemoveFromLinks(links, key, m);
      entities := RemoveFromEntities(entities, key, m);
    }

    static method RemoveFromLinks(links: map<Link, LinkRow>, key: Key, m: Id) returns (rest: map<Link, LinkRow>)
      ensures rest == LinksWithout(links, key, m)
    {
      ghost var target := LinksWithout(links, key, m);
      rest := links;
      var pending := set l | l in links && l.key == key;
      while pending != {}
        invariant forall l :: l in pending ==> l.key == key && l in links
        invariant forall l :: l in rest <==> if l in pending then l in links else l in target
        invariant forall l :: l in rest ==> rest[l] == if l in pending then links[l] else target[l]
      {
        var l :| l in pending;
        var sources := rest[l].sources;
        Dropped(sources, m);
        if m in sources {
          var remaining := Filter(sources, m);
          if remaining != [] {
            rest := rest[l := rest[l].(sources := remaining)];
          } else {
            rest := rest - {l};
          }
        }
        pending := pending - {l};
      }
    }

    static method RemoveFromEntities(entities: map<Name, Entity>, key: Key, m: Id) returns (rest: map<Name, Entity>)
      ensures rest == EntitiesWithout(entities, key, m)
    {
      ghost var target := EntitiesWithout(entities, key, m);
      rest := entities;
      var pending := set n | n in entities && n.key == key;
      while pending != {}
        invariant forall n :: n in pending ==> n.key == key && n in entities
        invariant forall n :: n in rest <==> if n in pending then n in entities else n in target
        invariant forall n :: n in rest ==> rest[n] == if n in pending then entities[n] else target[n]
      {
        var n :| n in pending;
        var sources := rest[n].sources;
        Dropped(sources, m);
        if m in sources {
          var remaining := Filter(sources, m);
          if remaining != [] {
            rest := rest[n := rest[n].(sources := remaining)];
          } else {
            rest := rest - {n};
          }
        }
        pending := pending - {n};
      }
    }

    method ClearScope(key: Key)
      modifies this
      ensures View() == G.ClearScope(old(View()), key)
    {
      links := map l | l in links && l.key != key :: links[l];
      entities := map n | n in entities && n.key != key :: entities[n];
    }
  }

  lemma {:induction false} Dropped(sources: seq<Id>, m: Id)
    ensures m !in sources ==> Drop(sources, m) == sources
  {
    if sources != [] {
      var n := |sources| - 1;
      Dropped(sources[..n], m);
      assert sources == sources[..n] + [sources[n]];
    }
  }
}
