/** Internal chats hang below other chats. Two traversals of that parent graph: the search that removes what it
    has found, and the cascade delete that does not. */
module Chats {
  import opened Prelude

  type Id = string

  /** A row of the chat table as far as the traversals look at it: an internal chat names its parent in its
      metadata, and nothing checks that the parent exists or that parents do not form a cycle. */
  datatype Chat = Chat(id: Id, internal: bool, parent: Option<Id>)

  /** The primary key. */
  ghost predicate UniqueIds(db: seq<Chat>) {
    forall c, d :: c in db && d in db && c.id == d.id ==> c == d
  }

  predicate Under(c: Chat, parents: set<Id>) {
    c.internal && c.parent.Some? && c.parent.value in parents
  }

  /** Ids of the internal chats whose parent is one of `parents`. */
  function Kids(db: seq<Chat>, parents: set<Id>): set<Id> {
    set c | c in db && Under(c, parents) :: c.id
  }

  /** Chats exactly n parent links below the root. */
  function Level(db: seq<Chat>, root: Id, n: nat): set<Id> {
    if n == 0 then {root} else Kids(db, Level(db, root, n - 1))
  }

  /** Reachable from the root over one or more links through internal chats. */
  ghost predicate Reaches(db: seq<Chat>, root: Id, id: Id) {
    exists n: nat :: n >= 1 && id in Level(db, root, n)
  }

  function Ids(rows: seq<Chat>): set<Id> {
    set c | c in rows :: c.id
  }

  ghost function Descendants(db: seq<Chat>, root: Id): set<Id> {
    set c | c in db && Reaches(db, root, c.id) :: c.id
  }

  /** A child of the root, or of a chat that is reached, is reached. */
  lemma ReachesStep(db: seq<Chat>, root: Id, c: Chat, parents: set<Id>)
    requires c in db && Under(c, parents)
    requires forall p :: p in parents ==> p == root || Reaches(db, root, p)
    ensures Reaches(db, root, c.id)
  {
    var p := c.parent.value;
    if p == root {
      assert p in Level(db, root, 0);
      assert c.id in Level(db, root, 1);
    } else {
      var n: nat :| n >= 1 && p in Level(db, root, n);
      assert c.id in Level(db, root, n + 1);
    }
  }

  /** A set of rows that holds every child of the root and of its own rows holds everything reached. */
  lemma {:induction false} ClosedHoldsLevel(db: seq<Chat>, root: Id, rows: seq<Chat>, n: nat)
    requires n >= 1 && forall c :: c in db && Under(c, {root} + Ids(rows)) ==> c in rows
    ensures Level(db, root, n) <= Ids(rows)
  {
    if n > 1 { ClosedHoldsLevel(db, root, rows, n - 1); }
    forall id | id in Level(db, root, n) ensures id in Ids(rows) {
      var c :| c in db && Under(c, Level(db, root, n - 1)) && c.id == id;
      assert Under(c, {root} + Ids(rows));
    }
  }

  // ---------------------------------------------------------------- the search

  /** Rows of the list that pass a test, in order. */
  function Filter(rows: seq<Chat>, keep: Chat -> bool): (r: seq<Chat>)
    ensures forall c :: c in r <==> c in rows && keep(c)
    ensures |r| <= |rows|
    ensures Distinct(rows) ==> Distinct(r)
  {
    if rows == [] then []
    else
      var rest := Filter(rows[..|rows| - 1], keep);
      var last := rows[|rows| - 1];
      assert rows == rows[..|rows| - 1] + [last];
      assert Distinct(rows) ==> last !in rows[..|rows| - 1];
      if keep(last) then rest + [last] else rest
  }

  lemma FilterSplits(rows: seq<Chat>, found: seq<Chat>)
    requires found != [] && forall c :: c in found ==> c in rows
    ensures |Filter(rows, c => c !in found)| < |rows|
  {
    var keep := (c: Chat) => c !in found;
    var c := found[0];
    FilterDrops(rows, keep, c);
  }

  lemma {:induction false} FilterDrops(rows: seq<Chat>, keep: Chat -> bool, c: Chat)
    requires c in rows && !keep(c)
    ensures |Filter(rows, keep)| < |rows|
  {
    var n := |rows| - 1;
    if rows[n] != c {
      assert rows == rows[..n] + [rows[n]];
      FilterDrops(rows[..n], keep, c);
    }
  }

  lemma {:induction false} FilterKeeps(rows: seq<Chat>, keep: Chat -> bool)
    requires forall c :: c in rows ==> keep(c)
    ensures Filter(rows, keep) == rows
  {
    if rows != [] {
      var n := |rows| - 1;
      assert rows == rows[..n] + [rows[n]];
      FilterKeeps(rows[..n], keep);
    }
  }

  /** `get_internal_descendants`: stops on every parent graph, cycles included, and lists each chat that is
      reachable through internal chats exactly once. */
  method GetInternalDescendants(db: seq<Chat>, root: Id) returns (children: seq<Chat>)
    requires UniqueIds(db) && Distinct(db)
    ensures Distinct(children)
    ensures forall c :: c in children <==> c in db && Reaches(db, root, c.id)
    ensures Ids(children) == Descendants(db, root)
    ensures forall c :: c in children ==> c.internal && c.parent.Some? && c.parent.value in {root} + Ids(children)
    ensures forall c :: c in db && c.internal && c.parent.Some? && c.parent.value in {root} + Ids(children) ==>
            c in children
  {
    var candidates := db;
    var parents := {root};
    children := [];
    while parents != {}
      invariant Distinct(children) && Distinct(candidates)
      invariant forall c :: c in db <==> c in children || c in candidates
      invariant forall c :: c in children ==> c !in candidates && Reaches(db, root, c.id)
      invariant parents <= {root} + Ids(children)
      invariant forall c :: c in db && Under(c, {root} + Ids(children)) ==> c in children || Under(c, parents)
      invariant forall c :: c in children ==> Under(c, {root} + Ids(children))
      decreases |candidates|
    {
      var found := Filter(candidates, c => Under(c, parents));
      if found == [] {
        forall c | c in db && Under(c, {root} + Ids(children)) ensures c in children {
          assert c in candidates && Under(c, parents) ==> c in found;
        }
        break;
      }
      forall c | c in found ensures Reaches(db, root, c.id) {
        forall p | p in parents ensures p == root || Reaches(db, root, p) {}
        ReachesStep(db, root, c, parents);
      }
      FilterSplits(candidates, found);
      ghost var before := children;
      children := children + found;
      parents := Ids(found);
      candidates := Filter(candidates, c => c !in found);
      assert Ids(children) == Ids(before) + Ids(found);
    }
    Exhausted(db, root, children);
  }

  lemma Exhausted(db: seq<Chat>, root: Id, rows: seq<Chat>)
    requires UniqueIds(db)
    requires forall c :: c in rows ==> c in db && Reaches(db, root, c.id)
    requires forall c :: c in db && Under(c, {root} + Ids(rows)) ==> c in rows
    ensures forall c :: c in rows <==> c in db && Reaches(db, root, c.id)
    ensures Ids(rows) == Descendants(db, root)
  {
    forall c | c in db && Reaches(db, root, c.id) ensures c in rows {
      var n: nat :| n >= 1 && c.id in Level(db, root, n);
      ClosedHoldsLevel(db, root, rows, n);
      var d :| d in rows && d.id == c.id;
    }
  }

  // ---------------------------------------------------------------- when the delete loop stops

  lemma {:induction false} EmptyStaysEmpty(db: seq<Chat>, root: Id, n: nat, m: nat)
    requires n <= m && Level(db, root, n) == {}
    ensures Level(db, root, m) == {}
  {
    if n < m { EmptyStaysEmpty(db, root, n, m - 1); }
  }

  /** Levels below a member of a level lie on later levels. */
  lemma {:induction false} LevelsCompose(db: seq<Chat>, root: Id, mid: Id, k: nat, n: nat)
    requires mid in Level(db, root, k)
    ensures Level(db, mid, n) <= Level(db, root, k + n)
  {
    if n > 0 { LevelsCompose(db, root, mid, k, n - 1); }
  }

  lemma {:induction false} CycleRepeats(db: seq<Chat>, root: Id, k: nat, times: nat)
    requires root in Level(db, root, k)
    ensures root in Level(db, root, times * k)
  {
    if times > 0 {
      CycleRepeats(db, root, k, times - 1);
      LevelsCompose(db, root, root, (times - 1) * k, k);
      assert (times - 1) * k + k == times * k;
    }
  }

  /** A chat has one parent: two levels share a chat only when the root lies below itself. */
  lemma {:induction false} SharedLevelsMeanCycle(db: seq<Chat>, root: Id, id: Id, i: nat, j: nat)
    requires UniqueIds(db) && i <= j && id in Level(db, root, i) && id in Level(db, root, j)
    ensures root in Level(db, root, j - i)
    decreases i
  {
    if i > 0 {
      var c :| c in db && Under(c, Level(db, root, i - 1)) && c.id == id;
      var d :| d in db && Under(d, Level(db, root, j - 1)) && d.id == id;
      assert c == d;
      SharedLevelsMeanCycle(db, root, c.parent.value, i - 1, j - 1);
    }
  }

  /** Levels 1 to n together. */
  function Levels(db: seq<Chat>, root: Id, n: nat): set<Id> {
    if n == 0 then {} else Levels(db, root, n - 1) + Level(db, root, n)
  }

  ghost predicate OnLevel(db: seq<Chat>, root: Id, id: Id, m: nat) {
    m >= 1 && id in Level(db, root, m)
  }

  lemma {:induction false} LevelOf(db: seq<Chat>, root: Id, n: nat, id: Id) returns (m: nat)
    requires id in Levels(db, root, n)
    ensures m <= n && OnLevel(db, root, id, m)
  {
    if id in Level(db, root, n) { m := n; } else { m := LevelOf(db, root, n - 1, id); }
  }

  lemma {:induction false} LevelsHold(db: seq<Chat>, root: Id, n: nat, m: nat)
    requires 1 <= m <= n
    ensures Level(db, root, m) <= Levels(db, root, n)
  {
    if m < n { LevelsHold(db, root, n - 1, m); }
  }

  lemma LevelIsNew(db: seq<Chat>, root: Id, n: nat, id: Id)
    requires UniqueIds(db) && !Reaches(db, root, root) && n >= 1 && id in Level(db, root, n)
    ensures id !in Levels(db, root, n - 1)
  {
    if id in Levels(db, root, n - 1) {
      var m := LevelOf(db, root, n - 1, id);
      SharedLevelsMeanCycle(db, root, id, m, n);
    }
  }

  lemma UnionGrows(a: set<Id>, b: set<Id>, id: Id)
    requires id in b && id !in a
    ensures |a + b| >= |a| + 1
  {
    SubsetSize(a + {id}, a + b);
  }

  lemma {:induction false} LevelsGrow(db: seq<Chat>, root: Id, n: nat)
    requires UniqueIds(db) && !Reaches(db, root, root) && Level(db, root, n) != {}
    ensures |Levels(db, root, n)| >= n && Levels(db, root, n) <= Ids(db)
  {
    if n > 0 {
      assert Level(db, root, n - 1) != {};
      LevelsGrow(db, root, n - 1);
      var id :| id in Level(db, root, n);
      LevelIsNew(db, root, n, id);
      UnionGrows(Levels(db, root, n - 1), Level(db, root, n), id);
    }
  }

  lemma {:induction false} IdsFit(db: seq<Chat>)
    ensures |Ids(db)| <= |db|
  {
    if db == [] {
      assert Ids(db) == {};
    } else {
      var n := |db| - 1;
      IdsFit(db[..n]);
      assert db == db[..n] + [db[n]];
      assert Ids(db) == Ids(db[..n]) + {db[n].id};
    }
  }

  /** Without a cycle through the root the level after the last possible one is empty. */
  lemma LevelsRunOut(db: seq<Chat>, root: Id)
    requires UniqueIds(db) && !Reaches(db, root, root)
    ensures Level(db, root, |db| + 1) == {}
  {
    if Level(db, root, |db| + 1) != {} {
      LevelsGrow(db, root, |db| + 1);
      SubsetSize(Levels(db, root, |db| + 1), Ids(db));
      IdsFit(db);
    }
  }

  /** The delete loop, which keeps no record of what it has seen, reaches an empty frontier exactly when the
      chat is not one of its own descendants: cycles elsewhere do no harm, for none is reachable. */
  lemma DeleteStopsIff(db: seq<Chat>, root: Id)
    requires UniqueIds(db)
    ensures (exists n: nat :: Level(db, root, n) == {}) <==> root !in Descendants(db, root)
  {
    if root in Descendants(db, root) {
      var k: nat :| k >= 1 && root in Level(db, root, k);
      forall n: nat ensures Level(db, root, n) != {} {
        if Level(db, root, n) == {} {
          CycleRepeats(db, root, k, n);
          assert n <= n * k;
          EmptyStaysEmpty(db, root, n, n * k);
        }
      }
    } else {
      LevelsRunOut(db, root);
    }
  }

  // ---------------------------------------------------------------- the delete

  datatype Message = Message(id: Id, chat: Id)

  class ChatTable {
    var chats: seq<Chat>
    var messages: seq<Message>

    ghost predicate Valid()
      reads this
    {
      UniqueIds(chats) && Distinct(chats)
    }

    /** `delete`: the chat, everything reachable below it and all their messages go, nothing else
        does, and no chat that stays hangs below one that went. */
    method Delete(root: Id) returns (deleted: bool)
      requires Valid() && root !in Descendants(chats, root)
      modifies this
      ensures Valid()
      ensures forall c :: c in chats <==>
        c in old(chats) && c.id != root && c.id !in Descendants(old(chats), root)
      ensures forall m :: m in messages <==>
        m in old(messages) && m.chat != root && m.chat !in Descendants(old(chats), root)
      ensures forall c :: c in chats ==> !Under(c, {root} + Descendants(old(chats), root))
      ensures deleted <==> root in Ids(old(chats)) || Descendants(old(chats), root) != {}
      ensures forall c :: c in old(chats) && !c.internal && c.id != root ==> c in chats
    {
      var ids := Doomed(chats, root);
      messages := Without(messages, ids);
      var kept := Filter(chats, (c: Chat) => c.id !in ids);
      deleted := |kept| < |chats|;
      DeletedIff(chats, root, ids);
      forall c | c in kept ensures !Under(c, ids) { NoOrphan(chats, root, ids, c); }
      chats := kept;
    }

    static method Without(messages: seq<Message>, ids: set<Id>) returns (r: seq<Message>)
      ensures forall m :: m in r <==> m in messages && m.chat !in ids
    {
      r := [];
      for i := 0 to |messages|
        invariant forall m :: m in r <==> m in messages[..i] && m.chat !in ids
      {
        assert messages[..i + 1] == messages[..i] + [messages[i]];
        if messages[i].chat !in ids { r := r + [messages[i]]; }
      }
      assert messages[..|messages|] == messages;
    }

    static method Doomed(db: seq<Chat>, root: Id) returns (ids: set<Id>)
      requires UniqueIds(db) && root !in Descendants(db, root)
      ensures ids == {root} + Descendants(db, root)
    {
      ids := {root};
      var frontier := {root};
      ghost var n := 0;
      LevelsRunOut(db, root);
      while frontier != {}
        invariant n <= |db| + 1 && frontier == Level(db, root, n)
        invariant ids == {root} + Levels(db, root, n)
        decreases |db| + 1 - n
      {
        frontier := Kids(db, frontier);
        ids := ids + frontier;
        n := n + 1;
      }
      LevelsAreDescendants(db, root, n);
    }
  }

  lemma NoOrphan(db: seq<Chat>, root: Id, ids: set<Id>, c: Chat)
    requires ids == {root} + Descendants(db, root) && c in db && c.id !in ids
    ensures !Under(c, ids)
  {
    if Under(c, ids) { ReachesStep(db, root, c, ids); }
  }

  lemma DeletedIff(db: seq<Chat>, root: Id, ids: set<Id>)
    requires ids == {root} + Descendants(db, root)
    ensures |Filter(db, (c: Chat) => c.id !in ids)| < |db| <==> root in Ids(db) || Descendants(db, root) != {}
  {
    var keep := (c: Chat) => c.id !in ids;
    if c :| c in db && !keep(c) {
      FilterDrops(db, keep, c);
    } else {
      FilterKeeps(db, keep);
    }
  }

  lemma LevelsAreDescendants(db: seq<Chat>, root: Id, n: nat)
    requires Level(db, root, n) == {}
    ensures Levels(db, root, n) == Descendants(db, root)
  {
    forall id | id in Levels(db, root, n) ensures id in Descendants(db, root) {
      var m := LevelOf(db, root, n, id);
    }
    forall id | id in Descendants(db, root) ensures id in Levels(db, root, n) {
      var m: nat :| m >= 1 && id in Level(db, root, m);
      if m > n { EmptyStaysEmpty(db, root, n, m); }
      LevelsHold(db, root, n, m);
    }
  }
}
