/** Forgetting a memory in stages that may be interrupted and retried. */
module Forget {
  import opened Prelude
  import opened Records
  import opened Transactions
  import opened Runs
  import MergeFacts
  import Supersession
  import Graph
  import Lexical
  import Rebuild

  datatype System = System(store: State, texts: map<Id, Lexical.Text>, vectors: map<Id, Key>, graph: Graph.Tables)

  const NEW_SYSTEM := System(EMPTY, map[], map[], Graph.EMPTY_GRAPH)

  /** One call of `forget`: does the memory have a managed source, was a way to delete it supplied, did that
      work; and how many of the six writing stages run before the process stops. */
  datatype Attempt = Attempt(id: Id, key: Key, managed: bool, forgetter: bool, sourceOk: bool, stop: nat, now: int)

  const STAGES := 6

  /** The ownership check of `inspect`: a caller without a workspace may name any memory of the user. */
  predicate Inspectable(s: State, key: Key, id: Id) {
    id in s.records && s.records[id].key.user == key.user &&
    (key.workspace == "" || InScope(key, s.records[id].key))
  }

  /** The check of `project_graph`, which comes first in every job: no such exception. */
  predicate Projectable(s: State, key: Key, id: Id) {
    id in s.records && InScope(key, s.records[id].key)
  }

  predicate Admitted(s: State, a: Attempt) {
    Inspectable(s, a.key, a.id) && !(a.managed && !a.forgetter)
  }

  /** The attempt passes the stage of deleting the managed source. */
  predicate PassesSource(a: Attempt) {
    a.stop >= 2 && (a.managed ==> a.sourceOk)
  }

  predicate Completes(s: State, a: Attempt) {
    Admitted(s, a) && PassesSource(a) && a.stop >= STAGES
  }

  /** Number of writing stages that an admitted attempt gets through. */
  function Reached(a: Attempt): nat {
    if PassesSource(a) then a.stop else Min(a.stop, 1)
  }

  function VectorsWithout(vectors: map<Id, Key>, id: Id, own: Key): map<Id, Key> {
    map m | m in vectors && !(m == id && vectors[m] == own) :: vectors[m]
  }

  /** First the record is hidden; the managed source, vector, text and graph rows of its own workspace go
      next; the record itself goes last, and with it whatever text and vector it still has: their foreign
      keys cascade. */
  function Forgotten(x: System, a: Attempt): System {
    if !Admitted(x.store, a) || a.stop == 0 then x
    else
      var own := x.store.records[a.id].key;
      var reached := Reached(a);
      var hidden := SetStatus(x.store, a.id, own, Deleting, a.now).state;
      var staged := System(hidden,
             if reached >= 4 then Lexical.Perform(x.texts, Lexical.RemoveOp(a.id, own)) else x.texts,
             if reached >= 3 then VectorsWithout(x.vectors, a.id, own) else x.vectors,
             if reached >= 5 then Graph.Remove(x.graph, own, a.id) else x.graph);
      if reached >= STAGES then Deleted(staged, a.id, own) else staged
  }

  function Deleted(x: System, id: Id, own: Key): System {
    System(Transactions.Forget(x.store, id, own).state, x.texts - {id}, x.vectors - {id}, x.graph)
  }

  /** Rows of the indexes about one memory: `extracted` are the entities named in it, under the workspace
      that the job runs in; text and vector go under the memory's own. The job may stop after any stage; one
      that only projects the graph stops after the first. */
  function Indexed(x: System, id: Id, key: Key, tokens: seq<Lexical.Term>, extracted: seq<Graph.Name>,
                   stop: nat): System {
    if !Projectable(x.store, key, id) || stop == 0 then x
    else
      var own := x.store.records[id].key;
      x.(graph := Graph.Project(x.graph, key, id, extracted),
         texts := if stop >= 2 then Lexical.Perform(x.texts, Lexical.IndexOp(id, own, tokens)) else x.texts,
         vectors := if stop >= 3 then x.vectors[id := own] else x.vectors)
  }

  function VectorsOf(rows: map<Id, Record>, ids: seq<Id>): map<Id, Key> {
    map id | id in ids && Rebuild.Indexable(rows, id) :: rows[id].key
  }

  function RebuiltIndexes(x: System, key: Key, rd: Rebuild.Readers, ids: seq<Id>): Rebuild.Derived {
    Rebuild.VisitAll(Rebuild.Cleared(Rebuild.Derived(x.texts, x.graph, map[]), key), x.store.records, rd, ids)
  }

  /** A rebuild of one scope that visits the rows `ids`: the tables are cleared in that scope and refilled from
      the rows that are not being deleted, each under its own workspace. */
  function Rebuilt(x: System, key: Key, rd: Rebuild.Readers, ids: seq<Id>): System {
    var derived := RebuiltIndexes(x, key, rd, ids);
    x.(texts := derived.texts, graph := derived.graph,
       vectors := (map m | m in x.vectors && x.vectors[m] != key :: x.vectors[m]) + VectorsOf(x.store.records, ids))
  }

  datatype Event =
    | Stored(step: Step)
    | IndexJob(id: Id, key: Key, tokens: seq<Lexical.Term>, extracted: seq<Graph.Name>, stop: nat)
    | RebuildJob(key: Key, readers: Rebuild.Readers, ids: seq<Id>)
    | ForgetCall(attempt: Attempt)

  /** Rows are deleted by `forget` alone; a job projects entities of the workspace it runs in; a rebuild visits
      the rows listed for its scope, all of them or, when a conflict row is refused, the first ones. */
  ghost predicate Possible(x: System, e: Event) {
    match e
    case Stored(step) => Enabled(x.store, step) && !step.ForgetStep?
    case IndexJob(id, key, _, extracted, _) => id != "" && Graph.OfScope(extracted, key)
    case RebuildJob(key, _, ids) => exists listing :: Rebuild.IsListing(x.store.records, key, listing) && ids <= listing
    case ForgetCall(_) => true
  }

  ghost function After(x: System, e: Event): System
    requires Possible(x, e)
  {
    match e
    case Stored(step) => x.(store := Apply(x.store, step))
    case IndexJob(id, key, tokens, extracted, stop) => Indexed(x, id, key, tokens, extracted, stop)
    case RebuildJob(key, readers, ids) => Rebuilt(x, key, readers, ids)
    case ForgetCall(attempt) => Forgotten(x, attempt)
  }

  ghost predicate IsHistory(trace: seq<System>, events: seq<Event>) {
    |trace| == |events| + 1 && forall i :: 0 <= i < |events| ==> Happens(trace, events, i)
  }

  ghost predicate Happens(trace: seq<System>, events: seq<Event>, i: nat)
    requires i < |events| && |trace| == |events| + 1
  {
    Possible(trace[i], events[i]) && trace[i + 1] == After(trace[i], events[i])
  }

  // ---------------------------------------------------------------- never found again

  lemma AttemptNeverRevives(x: System, a: Attempt, id: Id)
    requires Issued(x.store) && id in x.store.issued
    ensures Issued(Forgotten(x, a).store) && id in Forgotten(x, a).store.issued
    ensures !Supersession.Recallable(x.store, id) ==> !Supersession.Recallable(Forgotten(x, a).store, id)
    ensures id !in x.store.records ==> id !in Forgotten(x, a).store.records
  {
  }

  lemma EventNeverRevives(x: System, e: Event, id: Id)
    requires Possible(x, e) && Issued(x.store) && id in x.store.issued
    ensures Issued(After(x, e).store) && id in After(x, e).store.issued
    ensures !Supersession.Recallable(x.store, id) ==> !Supersession.Recallable(After(x, e).store, id)
    ensures id !in x.store.records ==> id !in After(x, e).store.records
  {
    if e.Stored? {
      Supersession.StepIssues(x.store, e.step);
      if !Supersession.Recallable(x.store, id) { Supersession.StepNeverRevives(x.store, e.step, id); }
    } else if e.ForgetCall? {
      AttemptNeverRevives(x, e.attempt, id);
    } else {
      assert After(x, e).store == x.store;
    }
  }

  lemma {:induction false} NeverRevived(trace: seq<System>, events: seq<Event>, i: nat, j: nat, id: Id)
    requires IsHistory(trace, events) && i <= j < |trace| && Issued(trace[i].store) && id in trace[i].store.issued
    ensures Issued(trace[j].store) && id in trace[j].store.issued
    ensures !Supersession.Recallable(trace[i].store, id) ==> !Supersession.Recallable(trace[j].store, id)
    ensures id !in trace[i].store.records ==> id !in trace[j].store.records
  {
    if i < j {
      NeverRevived(trace, events, i, j - 1, id);
      assert Happens(trace, events, j - 1);
      EventNeverRevives(trace[j - 1], events[j - 1], id);
    }
  }

  /** Once a forget has begun, however it is interrupted and whatever happens later, no default search
      returns the memory. */
  lemma ForgottenIsNeverFound(trace: seq<System>, events: seq<Event>, i: nat, j: nat, q: Query)
    requires IsHistory(trace, events) && i < j < |trace| && Issued(trace[i].store)
    requires events[i].ForgetCall? && Admitted(trace[i].store, events[i].attempt) && events[i].attempt.stop >= 1
    requires !q.historical
    ensures events[i].attempt.id !in SearchRows(trace[j].store, q)
  {
    var id := events[i].attempt.id;
    assert Happens(trace, events, i);
    EventNeverRevives(trace[i], events[i], id);
    NeverRevived(trace, events, i + 1, j, id);
  }

  // ---------------------------------------------------------------- nothing left

  datatype Where = Anywhere | Outside(own: Key) | Inside(own: Key)

  predicate Within(scope: Where, key: Key) {
    (scope.Outside? ==> key != scope.own) && (scope.Inside? ==> key == scope.own)
  }

  ghost predicate GraphNames(g: Graph.Tables, id: Id, scope: Where) {
    (exists n :: n in g.entities && Within(scope, n.key) && id in g.entities[n].sources) ||
    (exists l :: l in g.links && Within(scope, l.key) && id in g.links[l].sources)
  }

  ghost predicate Named(x: System, id: Id) {
    id in x.store.records || id in x.texts || id in x.vectors || GraphNames(x.graph, id, Anywhere)
  }

  /** A graph row about the memory outside the memory's own workspace. */
  ghost predicate Stray(x: System, id: Id, own: Key) {
    GraphNames(x.graph, id, Outside(own))
  }

  lemma RemovalLeavesOthers(g: Graph.Tables, own: Key, id: Id)
    ensures GraphNames(Graph.Remove(g, own, id), id, Anywhere) <==> GraphNames(g, id, Outside(own))
    ensures GraphNames(Graph.Remove(g, own, id), id, Outside(own)) <==> GraphNames(g, id, Outside(own))
  {
    var after := Graph.Remove(g, own, id);
    forall n ensures n in after.entities && id in after.entities[n].sources <==>
      n in g.entities && n.key != own && id in g.entities[n].sources {}
    forall l ensures l in after.links && id in after.links[l].sources <==>
      l in g.links && l.key != own && id in g.links[l].sources {}
  }

  /** No attempt, complete or not, touches graph rows about the memory in other workspaces. */
  lemma AttemptKeepsStrays(x: System, a: Attempt, own: Key)
    requires a.id in x.store.records ==> x.store.records[a.id].key == own
    ensures Stray(Forgotten(x, a), a.id, own) <==> Stray(x, a.id, own)
    ensures a.id in Forgotten(x, a).store.records ==>
            a.id in x.store.records && Forgotten(x, a).store.records[a.id].key == own
  {
    var after := Forgotten(x, a);
    RemovalLeavesOthers(x.graph, own, a.id);
    assert after.graph == x.graph || after.graph == Graph.Remove(x.graph, own, a.id);
  }

  /** A completed forget leaves nothing that names the memory exactly when no graph row about it was kept
      outside its own workspace. */
  lemma CompletedForgetIsCleanIff(x: System, a: Attempt)
    requires Completes(x.store, a)
    ensures a.id !in Forgotten(x, a).store.records
    ensures !Named(Forgotten(x, a), a.id) <==> !Stray(x, a.id, x.store.records[a.id].key)
  {
    RemovalLeavesOthers(x.graph, x.store.records[a.id].key, a.id);
  }

  function AttemptAll(x: System, attempts: seq<Attempt>): System {
    if attempts == [] then x else Forgotten(AttemptAll(x, attempts[..|attempts| - 1]), attempts[|attempts| - 1])
  }

  lemma {:induction false} AttemptsKeepStrays(x: System, attempts: seq<Attempt>, id: Id, own: Key)
    requires forall a :: a in attempts ==> a.id == id
    requires id in x.store.records ==> x.store.records[id].key == own
    ensures Stray(AttemptAll(x, attempts), id, own) <==> Stray(x, id, own)
    ensures id in AttemptAll(x, attempts).store.records ==>
            id in x.store.records && AttemptAll(x, attempts).store.records[id].key == own
  {
    if attempts != [] {
      var n := |attempts| - 1;
      AttemptsKeepStrays(x, attempts[..n], id, own);
      AttemptKeepsStrays(AttemptAll(x, attempts[..n]), attempts[n], own);
    }
  }

  /** Retrying converges: after any number of interrupted attempts, one that completes leaves nothing that
      names the memory, provided no row was stray to begin with. */
  lemma RetriesConverge(x: System, attempts: seq<Attempt>, last: Attempt)
    requires last.id in x.store.records && forall a :: a in attempts ==> a.id == last.id
    requires Completes(AttemptAll(x, attempts).store, last)
    ensures !Named(Forgotten(AttemptAll(x, attempts), last), last.id) <==>
            !Stray(x, last.id, x.store.records[last.id].key)
  {
    AttemptsKeepStrays(x, attempts, last.id, x.store.records[last.id].key);
    CompletedForgetIsCleanIff(AttemptAll(x, attempts), last);
  }

  /** While its managed source cannot be deleted a memory stays as it is but hidden: its record, its rows in every
      index, and the right of the same caller to try again. */
  lemma SourceGoesFirst(x: System, a: Attempt, retry: Attempt)
    requires Admitted(x.store, a) && a.managed && !a.sourceOk && a.stop >= 1
    requires retry.id == a.id && retry.key == a.key && (retry.managed ==> retry.forgetter)
    ensures var after := Forgotten(x, a);
      after.texts == x.texts && after.vectors == x.vectors && after.graph == x.graph &&
      after.store.records == x.store.records[a.id := x.store.records[a.id].(status := Deleting, updatedAt := a.now)] &&
      Admitted(after.store, retry)
  {
  }

  // ---------------------------------------------------------------- where stray rows come from

  lemma {:induction false} UpsertNames(g: Graph.Tables, names: seq<Graph.Name>, m: Id, n: Graph.Name, x: Id)
    requires n in Graph.UpsertAll(g, names, m).entities && x in Graph.UpsertAll(g, names, m).entities[n].sources
    ensures (n in g.entities && x in g.entities[n].sources) || (x == m && n in names)
  {
    if names != [] {
      var k := |names| - 1;
      var before := Graph.UpsertAll(g, names[..k], m);
      if n in before.entities && x in before.entities[n].sources { UpsertNames(g, names[..k], m, n, x); }
    }
  }

  lemma {:induction false} ConnectNames(links: map<Graph.Link, Graph.LinkRow>, key: Key, root: nat, targets: seq<nat>,
                                        m: Id, l: Graph.Link, x: Id)
    requires l in Graph.ConnectAll(links, key, root, targets, m) &&
             x in Graph.ConnectAll(links, key, root, targets, m)[l].sources
    ensures (l in links && x in links[l].sources) || (x == m && l.key == key)
  {
    if targets != [] {
      var k := |targets| - 1;
      var before := Graph.ConnectAll(links, key, root, targets[..k], m);
      if l in before && x in before[l].sources { ConnectNames(links, key, root, targets[..k], m, l, x); }
    }
  }

  lemma {:induction false} UpsertKeepsLinks(g: Graph.Tables, names: seq<Graph.Name>, m: Id)
    ensures Graph.UpsertAll(g, names, m).links == g.links
  {
    if names != [] { UpsertKeepsLinks(g, names[..|names| - 1], m); }
  }

  /** A projection names only its own memory, and only in its own workspace. */
  lemma ProjectionNames(g: Graph.Tables, key: Key, m: Id, extracted: seq<Graph.Name>, id: Id, scope: Where)
    requires Graph.OfScope(extracted, key) && GraphNames(Graph.Project(g, key, m, extracted), id, scope)
    ensures GraphNames(g, id, scope) || (id == m && Within(scope, key))
  {
    var names := Graph.Projected(extracted);
    if names != [] {
      var after := Graph.Project(g, key, m, extracted);
      var upserted := Graph.UpsertAll(g, names, m);
      var ids := Graph.IdsOf(upserted.entities, names);
      UpsertKeepsLinks(g, names, m);
      if n :| n in after.entities && Within(scope, n.key) && id in after.entities[n].sources {
        UpsertNames(g, names, m, n, id);
      } else {
        var l :| l in after.links && Within(scope, l.key) && id in after.links[l].sources;
        ConnectNames(g.links, key, ids[0], ids[1..], m, l, id);
      }
    }
  }

  lemma {:induction false} VisitsName(d: Rebuild.Derived, rows: map<Id, Record>, rd: Rebuild.Readers, ids: seq<Id>,
                                      id: Id, scope: Where)
    requires GraphNames(Rebuild.VisitAll(d, rows, rd, ids).graph, id, scope)
    ensures GraphNames(d.graph, id, scope) || (id in ids && Rebuild.Indexable(rows, id) && Within(scope, rows[id].key))
  {
    if ids != [] {
      var n := |ids| - 1;
      var before := Rebuild.VisitAll(d, rows, rd, ids[..n]);
      assert ids[n] in ids && forall i :: i in ids[..n] ==> i in ids;
      if Rebuild.Indexable(rows, ids[n]) {
        ProjectionNames(before.graph, rows[ids[n]].key, ids[n], Rebuild.EntityNames(rd, rows[ids[n]]), id, scope);
      }
      if GraphNames(before.graph, id, scope) { VisitsName(d, rows, rd, ids[..n], id, scope); }
    }
  }

  /** A rebuild adds no graph row about a memory outside the memory's own workspace, and none about a memory
      that is gone or being deleted. */
  lemma RebuildNames(x: System, key: Key, rd: Rebuild.Readers, ids: seq<Id>, id: Id, scope: Where)
    requires GraphNames(Rebuilt(x, key, rd, ids).graph, id, scope)
    ensures GraphNames(x.graph, id, scope) ||
            (Rebuild.Indexable(x.store.records, id) && Within(scope, x.store.records[id].key))
  {
    var cleared := Rebuild.Cleared(Rebuild.Derived(x.texts, x.graph, map[]), key);
    VisitsName(cleared, x.store.records, rd, ids, id, scope);
  }

  lemma RebuildHolds(x: System, key: Key, rd: Rebuild.Readers, ids: seq<Id>, id: Id)
    requires !Rebuild.Indexable(x.store.records, id)
    ensures id in Rebuilt(x, key, rd, ids).texts ==> id in x.texts
    ensures id in Rebuilt(x, key, rd, ids).vectors ==> id in x.vectors
  {
    var cleared := Rebuild.Cleared(Rebuild.Derived(x.texts, x.graph, map[]), key);
    Rebuild.TextsAfterVisits(cleared, x.store.records, rd, ids, id);
  }

  lemma HiddenIsSkipped(x: System, a: Attempt)
    requires Admitted(x.store, a) && a.stop >= 1 && !Completes(x.store, a)
    ensures a.id in Forgotten(x, a).store.records && !Rebuild.Indexable(Forgotten(x, a).store.records, a.id)
  {
  }

  lemma UnindexedIsDropped(y: System, id: Id, own: Key, rd: Rebuild.Readers, ids: seq<Id>)
    requires !Rebuild.Indexable(y.store.records, id)
    ensures var after := Rebuilt(y, own, rd, ids);
      (id in after.texts ==> after.texts[id].key != own) && (id in after.vectors ==> after.vectors[id] != own) &&
      !GraphNames(after.graph, id, Inside(own))
  {
    var cleared := Rebuild.Cleared(Rebuild.Derived(y.texts, y.graph, map[]), own);
    Rebuild.TextsAfterVisits(cleared, y.store.records, rd, ids, id);
    if GraphNames(Rebuilt(y, own, rd, ids).graph, id, Inside(own)) {
      VisitsName(cleared, y.store.records, rd, ids, id, Inside(own));
    }
  }

  /** A rebuild of its workspace finishes off the index rows of a memory whose forgetting was interrupted: no text,
      vector or graph row about it is left in that workspace. */
  lemma RebuildDropsHidden(x: System, a: Attempt, rd: Rebuild.Readers, ids: seq<Id>)
    requires Admitted(x.store, a) && a.stop >= 1 && !Completes(x.store, a)
    ensures var own := x.store.records[a.id].key;
      var after := Rebuilt(Forgotten(x, a), own, rd, ids);
      a.id in after.store.records &&
      (a.id in after.texts ==> after.texts[a.id].key != own) &&
      (a.id in after.vectors ==> after.vectors[a.id] != own) &&
      !GraphNames(after.graph, a.id, Inside(own))
  {
    HiddenIsSkipped(x, a);
    UnindexedIsDropped(Forgotten(x, a), a.id, x.store.records[a.id].key, rd, ids);
  }

  /** Every index row is about a memory that is there; graph rows lie in that memory's workspace. */
  ghost predicate Tidy(x: System) {
    forall id :: TidyAt(x, id)
  }

  ghost predicate TidyAt(x: System, id: Id) {
    if id in x.store.records then !Stray(x, id, x.store.records[id].key) else !Named(x, id)
  }

  /** Jobs run in the workspace of the memory they index. */
  ghost predicate OwnWorkspace(x: System, e: Event) {
    e.IndexJob? && e.id in x.store.records ==> x.store.records[e.id].key == e.key
  }

  lemma StepKeepsKeys(s: State, step: Step, id: Id)
    requires Enabled(s, step) && Issued(s) && !step.ForgetStep? && id in s.records
    ensures id in Apply(s, step).records && Apply(s, step).records[id].key == s.records[id].key
  {
    if step.MergeStep? {
      MergeFacts.MergeRowsEvolve(s.records, s.issued, Merging(step.key, step.strategy == "verified_only", step.now),
                                 step.ids, step.choices, id);
    }
  }

  lemma IndexJobStaysTidy(x: System, e: Event)
    requires e.IndexJob? && Possible(x, e) && OwnWorkspace(x, e) && Tidy(x)
    ensures Tidy(After(x, e))
  {
    var after := After(x, e);
    if Projectable(x.store, e.key, e.id) {
      forall id ensures TidyAt(after, id) {
        assert TidyAt(x, id);
        var scope := if id in x.store.records then Outside(x.store.records[id].key) else Anywhere;
        if GraphNames(after.graph, id, scope) { ProjectionNames(x.graph, e.key, e.id, e.extracted, id, scope); }
      }
    }
  }

  lemma RebuildStaysTidy(x: System, e: Event)
    requires e.RebuildJob? && Possible(x, e) && Tidy(x)
    ensures Tidy(After(x, e))
  {
    var after := After(x, e);
    forall id ensures TidyAt(after, id) {
      assert TidyAt(x, id);
      var scope := if id in x.store.records then Outside(x.store.records[id].key) else Anywhere;
      if GraphNames(after.graph, id, scope) { RebuildNames(x, e.key, e.readers, e.ids, id, scope); }
      if id !in x.store.records { RebuildHolds(x, e.key, e.readers, e.ids, id); }
    }
  }

  lemma ForgetCallStaysTidy(x: System, e: Event)
    requires e.ForgetCall? && Tidy(x)
    ensures Tidy(After(x, e))
  {
    forall id ensures TidyAt(After(x, e), id) {
      assert TidyAt(x, id);
      if id == e.attempt.id { ForgottenStaysTidy(x, e.attempt); } else { OthersStayTidy(x, e.attempt, id); }
    }
  }

  lemma ForgottenStaysTidy(x: System, a: Attempt)
    requires TidyAt(x, a.id)
    ensures TidyAt(Forgotten(x, a), a.id)
  {
    if a.id in x.store.records {
      AttemptKeepsStrays(x, a, x.store.records[a.id].key);
      if Completes(x.store, a) { CompletedForgetIsCleanIff(x, a); }
    }
  }

  lemma RemovalAddsNothing(g: Graph.Tables, own: Key, gone: Id, id: Id, scope: Where)
    ensures GraphNames(Graph.Remove(g, own, gone), id, scope) ==> GraphNames(g, id, scope)
  {
    var after := Graph.Remove(g, own, gone);
    forall n | n in after.entities && id in after.entities[n].sources ensures n in g.entities {}
    forall l | l in after.links && id in after.links[l].sources ensures l in g.links {}
  }

  lemma AttemptGraph(x: System, a: Attempt, id: Id, scope: Where)
    ensures GraphNames(Forgotten(x, a).graph, id, scope) ==> GraphNames(x.graph, id, scope)
  {
    if a.id in x.store.records {
      var own := x.store.records[a.id].key;
      assert Forgotten(x, a).graph == x.graph || Forgotten(x, a).graph == Graph.Remove(x.graph, own, a.id);
      RemovalAddsNothing(x.graph, own, a.id, id, scope);
    }
  }

  lemma AttemptRecords(x: System, a: Attempt, id: Id)
    requires id != a.id
    ensures id in Forgotten(x, a).store.records <==> id in x.store.records
    ensures id in x.store.records ==> Forgotten(x, a).store.records[id].key == x.store.records[id].key
  {
  }

  lemma AttemptRows(x: System, a: Attempt)
    ensures Forgotten(x, a).texts.Keys <= x.texts.Keys && Forgotten(x, a).vectors.Keys <= x.vectors.Keys
  {
  }

  lemma OthersStayTidy(x: System, a: Attempt, id: Id)
    requires id != a.id && TidyAt(x, id)
    ensures TidyAt(Forgotten(x, a), id)
  {
    AttemptRecords(x, a, id);
    if id in x.store.records {
      AttemptGraph(x, a, id, Outside(x.store.records[id].key));
    } else {
      AttemptRows(x, a);
      AttemptGraph(x, a, id, Anywhere);
    }
  }

  lemma StoredStaysTidy(x: System, e: Event)
    requires e.Stored? && Possible(x, e) && Issued(x.store) && Tidy(x)
    ensures Tidy(After(x, e))
  {
    var after := After(x, e);
    forall id ensures TidyAt(after, id) {
      assert TidyAt(x, id);
      if id in x.store.records {
        StepKeepsKeys(x.store, e.step, id);
      } else {
        if id in after.store.records { OutsideIsSomewhere(x, id, after.store.records[id].key); }
      }
    }
  }

  lemma OutsideIsSomewhere(x: System, id: Id, own: Key)
    ensures Stray(x, id, own) ==> GraphNames(x.graph, id, Anywhere)
  {
    assert forall key :: Within(Outside(own), key) ==> Within(Anywhere, key);
  }

  lemma {:induction false} HistoryStaysTidy(trace: seq<System>, events: seq<Event>, i: nat)
    requires IsHistory(trace, events) && trace[0] == NEW_SYSTEM && i < |trace|
    requires forall j :: 0 <= j < |events| ==> OwnWorkspace(trace[j], events[j])
    ensures Tidy(trace[i]) && Issued(trace[i].store)
  {
    if i > 0 {
      HistoryStaysTidy(trace, events, i - 1);
      assert Happens(trace, events, i - 1);
      var x, e := trace[i - 1], events[i - 1];
      assert OwnWorkspace(x, e);
      if e.Stored? {
        StoredStaysTidy(x, e);
        Supersession.StepIssues(x.store, e.step);
      } else if e.IndexJob? {
        IndexJobStaysTidy(x, e);
      } else if e.RebuildJob? {
        RebuildStaysTidy(x, e);
      } else {
        ForgetCallStaysTidy(x, e);
      }
    }
  }

  /** When jobs run in the workspace of the memory they index: whatever was interrupted and retried before,
      as soon as one forget of a memory completes nothing names it, and nothing ever names it again. */
  lemma ForgottenLeavesNothing(trace: seq<System>, events: seq<Event>, i: nat, j: nat)
    requires IsHistory(trace, events) && trace[0] == NEW_SYSTEM && i < j < |trace|
    requires forall k :: 0 <= k < |events| ==> OwnWorkspace(trace[k], events[k])
    requires events[i].ForgetCall? && Completes(trace[i].store, events[i].attempt)
    ensures !Named(trace[j], events[i].attempt.id)
  {
    var id := events[i].attempt.id;
    assert Happens(trace, events, i);
    HistoryStaysTidy(trace, events, i);
    HistoryStaysTidy(trace, events, j);
    EventNeverRevives(trace[i], events[i], id);
    CompletedForgetIsCleanIff(trace[i], events[i].attempt);
    assert TidyAt(trace[i], id) && TidyAt(trace[j], id);
    NeverRevived(trace, events, i + 1, j, id);
  }

  /** An index job that gets through leaves the memory's text and vector under the memory's own workspace, and
      touches those of no other memory. */
  lemma FinishedJobIndexes(x: System, id: Id, key: Key, tokens: seq<Lexical.Term>, extracted: seq<Graph.Name>,
                           other: Id)
    requires id != "" && Projectable(x.store, key, id)
    ensures var after, own := Indexed(x, id, key, tokens, extracted, 3), x.store.records[id].key;
      id in after.texts && after.texts[id] == Lexical.Text(own, tokens) && id in after.vectors &&
      after.vectors[id] == own &&
      (other != id ==>
        (other in after.texts <==> other in x.texts) && (other in after.vectors <==> other in x.vectors) &&
        (other in x.texts ==> after.texts[other] == x.texts[other]) &&
        (other in x.vectors ==> after.vectors[other] == x.vectors[other]))
  {
  }

  /** After a rebuild the vectors of the scope are those of the listed memories that are not being deleted, and no
      others have come or gone. */
  lemma RebuiltVectorsAreExact(x: System, key: Key, rd: Rebuild.Readers, listing: seq<Id>, m: Id)
    requires Rebuild.IsListing(x.store.records, key, listing)
    ensures var after := Rebuilt(x, key, rd, listing);
      if m in listing && m != "" && !x.store.records[m].status.Deleting? then
        m in after.vectors && after.vectors[m] == x.store.records[m].key
      else
        (m in after.vectors <==> m in x.vectors && x.vectors[m] != key) &&
        (m in after.vectors ==> after.vectors[m] == x.vectors[m])
  {
  }

  /** A global memory indexed by a job of some workspace leaves a stray entity there, which no forget of the
      memory removes. */
  lemma GlobalMemoryStrays(x: System, id: Id, key: Key, tokens: seq<Lexical.Term>, extracted: seq<Graph.Name>,
                           stop: nat, a: Attempt)
    requires id != "" && Projectable(x.store, key, id) && x.store.records[id].key.workspace == "" != key.workspace
    requires extracted != [] && Graph.OfScope(extracted, key) && stop >= 1
    requires Graph.EntitiesSound(x.graph.entities, x.graph.nextId) && !Graph.Full(x.graph.entities, extracted[0], id)
    requires a.id == id && Completes(Indexed(x, id, key, tokens, extracted, stop).store, a)
    ensures Named(Forgotten(Indexed(x, id, key, tokens, extracted, stop), a), id)
  {
    var after := Indexed(x, id, key, tokens, extracted, stop);
    var names := Graph.Projected(extracted);
    var n := extracted[0];
    assert names[0] == n && n in names;
    Graph.UpsertAllEffect(x.graph, names, id);
    assert Graph.UpsertedAt(x.graph, Graph.UpsertAll(x.graph, names, id).entities, names, id, n);
    Graph.NamedHasMemory(x.graph, after.graph, names, id, n);
    assert Within(Outside(x.store.records[id].key), n.key);
    CompletedForgetIsCleanIff(after, a);
  }
}
