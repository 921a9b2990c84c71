/** Branches, snapshots and restore: work on a branch never touches the main line. */
module Branches {
  import opened Prelude
  import opened Records
  import opened Transactions
  import opened Runs

  function MainLine(rows: map<Id, Record>): map<Id, Record> {
    map id | id in rows && OnMain(rows[id]) :: rows[id]
  }

  // ---------------------------------------------------------------- one call

  /** A creation leaves the main line alone exactly when it lands on a branch. */
  lemma CreateIsolatedIff(s: State, id: Id, key: Key, m: NewMemory, now: int)
    requires id !in s.records && Create(s, id, key, m, now).result.Ok?
    ensures MainLine(Create(s, id, key, m, now).state.records) == MainLine(s.records) <==>
            EffectiveBranch(s, key, m.branch).Some?
  {
    var main := MainLine(Create(s, id, key, m, now).state.records);
    if EffectiveBranch(s, key, m.branch).None? {
      assert id in main && id !in MainLine(s.records);
    }
  }

  /** So does a supersession, whether the row it replaces is on the main line or not. */
  lemma SupersedeIsolatedIff(s: State, id: Id, prior: Id, key: Key, content: Content, from: int, branch: Option<Id>,
                             now: int)
    requires id !in s.records && Supersede(s, id, prior, key, content, from, branch, now).result.Ok?
    ensures MainLine(Supersede(s, id, prior, key, content, from, branch, now).state.records) == MainLine(s.records)
       <==> EffectiveBranch(s, key, branch).Some?
  {
    var main := MainLine(Supersede(s, id, prior, key, content, from, branch, now).state.records);
    if EffectiveBranch(s, key, branch).None? {
      assert id in main && id !in MainLine(s.records);
    }
  }

  // ---------------------------------------------------------------- runs

  predicate WritesTo(step: Step, key: Key) {
    (step.CreateStep? || step.SupersedeStep?) && step.key == key
  }

  /** While the namespace has an active branch, creations and supersessions in it leave every main-line
      row as it was. */
  lemma {:induction false} BranchIsIsolated(trace: seq<State>, steps: seq<Step>, key: Key, i: nat)
    requires IsRun(trace, steps) && i < |trace| && Issued(trace[0])
    requires NamespaceOf(trace[0], key).activeBranch.Some?
    requires forall step :: step in steps ==> WritesTo(step, key)
    ensures MainLine(trace[i].records) == MainLine(trace[0].records) && Issued(trace[i])
    ensures NamespaceOf(trace[i], key).activeBranch == NamespaceOf(trace[0], key).activeBranch
    ensures NamespaceOf(trace[i], key).activeSnapshot == NamespaceOf(trace[0], key).activeSnapshot
    ensures trace[i].snapshots == trace[0].snapshots && trace[0].issued <= trace[i].issued
  {
    if i > 0 {
      BranchIsIsolated(trace, steps, key, i - 1);
      assert Moves(trace, steps, i - 1);
      BranchStepIsolated(trace[i - 1], steps[i - 1], key);
    }
  }

  lemma BranchStepIsolated(s: State, step: Step, key: Key)
    requires Enabled(s, step) && Issued(s) && WritesTo(step, key) && NamespaceOf(s, key).activeBranch.Some?
    ensures var after := Apply(s, step);
      MainLine(after.records) == MainLine(s.records) && Issued(after) && after.snapshots == s.snapshots &&
      s.issued <= after.issued &&
      NamespaceOf(after, key).activeBranch == NamespaceOf(s, key).activeBranch &&
      NamespaceOf(after, key).activeSnapshot == NamespaceOf(s, key).activeSnapshot
  {
    if step.CreateStep? {
      if Create(s, step.id, key, step.memory, step.now).result.Ok? {
        CreateIsolatedIff(s, step.id, key, step.memory, step.now);
      }
    } else {
      if Supersede(s, step.id, step.prior, key, step.content, step.validFrom, step.branch, step.now).result.Ok? {
        SupersedeIsolatedIff(s, step.id, step.prior, key, step.content, step.validFrom, step.branch, step.now);
      }
    }
  }

  lemma ManifestOfMainLine(a: map<Id, Record>, b: map<Id, Record>, key: Key)
    requires MainLine(a) == MainLine(b)
    ensures Manifest(a, key) == Manifest(b, key)
  {
    forall id ensures id in Manifest(a, key) <==> id in Manifest(b, key) {
      assert id in MainLine(a) <==> id in MainLine(b);
      if id in MainLine(a) { assert MainLine(a)[id] == MainLine(b)[id]; }
    }
  }

  /** Snapshots taken before and after any work on a branch compare as equal. */
  lemma SnapshotsAroundBranchAgree(s: State, left: Id, trace: seq<State>, steps: seq<Step>, right: Id, key: Key)
    requires Issued(s) && left !in s.issued && NamespaceOf(s, key).activeBranch.Some?
    requires IsRun(trace, steps) && trace[0] == TakeSnapshot(s, left, key).state
    requires forall step :: step in steps ==> WritesTo(step, key)
    requires right !in trace[|steps|].issued
    ensures var last := TakeSnapshot(trace[|steps|], right, key).state;
      left != right && SnapshotIds(last, left) == SnapshotIds(last, right) == Manifest(s.records, key) &&
      Compare(last, key, left, right) == Ok(Diff({}, {}, {}))
  {
    BranchIsIsolated(trace, steps, key, |steps|);
    assert left in trace[0].issued;
    ManifestOfMainLine(s.records, trace[|steps|].records, key);
    var last := TakeSnapshot(trace[|steps|], right, key).state;
    var manifest := Manifest(s.records, key);
    assert manifest - manifest == {};
    assert Replacements(last.records, {}, {}) == {};
  }

  /** Snapshots around one main-line supersession compare as exactly that replacement. */
  lemma SnapshotsAroundSupersedeDiffer(s: State, left: Id, id: Id, prior: Id, right: Id, key: Key, content: Content,
                                       from: int, now: int)
    requires Issued(s) && left !in s.issued && id !in s.issued + {left} && right !in s.issued + {left, id}
    requires NamespaceOf(s, key).activeBranch.None? && Owns(s, key, prior)
    requires s.records[prior].status.Active? && OnMain(s.records[prior])
    ensures var first := TakeSnapshot(s, left, key).state;
      var mid := Supersede(first, id, prior, key, content, from, None, now).state;
      Compare(TakeSnapshot(mid, right, key).state, key, left, right) == Ok(Diff({id}, {prior}, {(prior, id)}))
  {
    var first := TakeSnapshot(s, left, key).state;
    var mid := Supersede(first, id, prior, key, content, from, None, now).state;
    var last := TakeSnapshot(mid, right, key).state;
    assert Manifest(mid.records, key) == Manifest(s.records, key) - {prior} + {id};
    assert prior in Manifest(s.records, key) && id !in Manifest(s.records, key);
    assert last.snapshots[right].manifest - last.snapshots[left].manifest == {id};
    assert last.snapshots[left].manifest - last.snapshots[right].manifest == {prior};
    assert Replacements(last.records, {id}, {prior}) == {(prior, id)};
  }

  // ---------------------------------------------------------------- restore

  /** After a restore, and after any further writes in the namespace, search finds on the main line exactly
      the snapshot's rows that were still active when it was restored. */
  lemma RestoredViewIsFrozen(s: State, branch: Id, key: Key, snapshot: Id, trace: seq<State>, steps: seq<Step>,
                             kinds: set<string>)
    requires Issued(s) && branch !in s.issued && Restore(s, branch, key, snapshot).result.Ok?
    requires IsRun(trace, steps) && trace[0] == Restore(s, branch, key, snapshot).state
    requires forall step :: step in steps ==> WritesTo(step, key)
    ensures var last := trace[|steps|];
      (set id | id in SearchRows(last, Query(key, false, "both", kinds, None)) && OnMain(last.records[id])) ==
      (set id | id in s.snapshots[snapshot].manifest && id in s.records && InManifest(key, s.records[id]) &&
                (kinds == {} || s.records[id].content.kind in kinds))
  {
    BranchIsIsolated(trace, steps, key, |steps|);
    var last := trace[|steps|];
    forall id
      ensures id in last.records && OnMain(last.records[id]) <==> id in s.records && OnMain(s.records[id])
      ensures id in s.records && OnMain(s.records[id]) ==> last.records[id] == s.records[id]
    {
      assert id in MainLine(s.records) <==> id in MainLine(last.records);
      if id in MainLine(s.records) { assert MainLine(s.records)[id] == MainLine(last.records)[id]; }
    }
  }

  /** The branch name a restore asks for. */
  function RestoreName(snapshot: Id): string {
    "restore-" + LastEight(snapshot)
  }

  /** The step asks for a branch of that name, and gets past the check of its snapshot. */
  predicate AsksFor(s: State, step: Step, key: Key, name: string) {
    (step.RestoreStep? && step.key == key && OwnsSnapshot(s, key, step.snapshot) &&
     RestoreName(step.snapshot) == name) ||
    (step.BranchStep? && step.key == key && step.name == name &&
     (step.from.Some? ==> OwnsSnapshot(s, key, step.from.value)))
  }

  /** Both end with the same character, i from the end. */
  predicate EndAlike(a: string, b: string, i: nat) {
    1 <= i <= |a| && i <= |b| && a[|a| - i] == b[|b| - i]
  }

  /** Two snapshots want the same branch name exactly when their last eight characters agree. */
  lemma SameRestoreNameIff(a: Id, b: Id)
    requires |a| >= 8 && |b| >= 8
    ensures RestoreName(a) == RestoreName(b) <==> forall i: nat :: 1 <= i <= 8 ==> EndAlike(a, b, i)
  {
    var x, y := a[|a| - 8..], b[|b| - 8..];
    assert RestoreName(a)[8..] == x && RestoreName(b)[8..] == y;
    forall i: nat | 1 <= i <= 8 ensures EndAlike(a, b, i) <==> x[8 - i] == y[8 - i] {}
    if forall i: nat :: 1 <= i <= 8 ==> EndAlike(a, b, i) {
      forall k | 0 <= k < 8 ensures x[k] == y[k] { assert EndAlike(a, b, 8 - k); }
    }
  }

  ghost predicate SameNames(a: map<Id, Branch>, b: map<Id, Branch>) {
    a.Keys == b.Keys && forall x :: x in a ==> a[x].key == b[x].key && a[x].name == b[x].name
  }

  lemma OtherStepsKeepNames(s: State, step: Step)
    requires Enabled(s, step) && !step.BranchStep? && !step.RestoreStep?
    ensures SameNames(s.branches, Apply(s, step).branches) && s.issued <= Apply(s, step).issued
  {
    if step.MergeStep? {
      assert Apply(s, step).branches == s.branches ||
             Apply(s, step).branches == s.branches[step.merged := s.branches[step.merged].(merged := true)];
    } else {
      assert Apply(s, step).branches == s.branches;
    }
  }

  lemma SameNamesTaken(s: State, after: State, key: Key, name: string)
    requires SameNames(s.branches, after.branches)
    ensures NameTaken(s, key, name) <==> NameTaken(after, key, name)
  {
    if b :| b in s.branches && s.branches[b].key == key && s.branches[b].name == name { assert b in after.branches; }
  }

  lemma MakingTakesName(s: State, id: Id, own: Key, made: string, from: Option<Id>, activate: bool, key: Key,
                        name: string)
    requires id !in s.branches
    ensures NameTaken(MakeBranch(s, id, own, made, from, activate).state, key, name) <==>
            NameTaken(s, key, name) || (own == key && made == name && (from.Some? ==> OwnsSnapshot(s, key, from.value)))
  {
    var after := MakeBranch(s, id, own, made, from, activate).state;
    if after.branches != s.branches {
      assert after.branches[id].key == own && after.branches[id].name == made;
      assert forall b :: b in s.branches ==> b in after.branches && after.branches[b] == s.branches[b];
    }
  }

  /** Branch rows are never renamed, moved or deleted: one step takes a name exactly by asking for it. */
  lemma StepTakesNames(s: State, step: Step, key: Key, name: string)
    requires Enabled(s, step) && s.branches.Keys <= s.issued
    ensures Apply(s, step).branches.Keys <= Apply(s, step).issued
    ensures NameTaken(Apply(s, step), key, name) <==> NameTaken(s, key, name) || AsksFor(s, step, key, name)
  {
    if step.BranchStep? {
      MakingTakesName(s, step.id, step.key, step.name, step.from, step.activate, key, name);
    } else if step.RestoreStep? {
      MakingTakesName(s, step.id, step.key, RestoreName(step.snapshot), Some(step.snapshot), true, key, name);
    } else {
      OtherStepsKeepNames(s, step);
      SameNamesTaken(s, Apply(s, step), key, name);
    }
  }

  ghost predicate AskedBefore(trace: seq<State>, steps: seq<Step>, j: nat, key: Key, name: string)
    requires j <= |steps| < |trace|
  {
    exists i :: 0 <= i < j && AsksFor(trace[i], steps[i], key, name)
  }

  lemma {:induction false} NamesAreTakenByAsking(trace: seq<State>, steps: seq<Step>, j: nat, key: Key, name: string)
    requires IsRun(trace, steps) && trace[0] == EMPTY && j < |trace|
    ensures trace[j].branches.Keys <= trace[j].issued
    ensures NameTaken(trace[j], key, name) <==> AskedBefore(trace, steps, j, key, name)
  {
    if j > 0 {
      NamesAreTakenByAsking(trace, steps, j - 1, key, name);
      assert Moves(trace, steps, j - 1);
      StepTakesNames(trace[j - 1], steps[j - 1], key, name);
    }
  }

  /** At any point of any run, restoring a snapshot of the namespace succeeds exactly when nobody asked for the
      same branch name before: neither a restore of a snapshot with the same last eight characters, this one
      included, nor a branch creation by that name. Otherwise it is refused and changes nothing. */
  lemma RestoreSucceedsIff(trace: seq<State>, steps: seq<Step>, j: nat, id: Id, key: Key, snapshot: Id)
    requires IsRun(trace, steps) && trace[0] == EMPTY && j < |trace| && OwnsSnapshot(trace[j], key, snapshot)
    ensures Restore(trace[j], id, key, snapshot).result.Ok? <==>
            !AskedBefore(trace, steps, j, key, RestoreName(snapshot))
    ensures AskedBefore(trace, steps, j, key, RestoreName(snapshot)) ==>
            Restore(trace[j], id, key, snapshot) == Tx(trace[j], Err(DuplicateName))
  {
    NamesAreTakenByAsking(trace, steps, j, key, RestoreName(snapshot));
  }

  lemma StepKeepsSnapshots(s: State, step: Step, key: Key)
    requires Enabled(s, step) && s.snapshots.Keys <= s.issued
    ensures Apply(s, step).snapshots.Keys <= Apply(s, step).issued
    ensures forall x :: OwnsSnapshot(s, key, x) ==> OwnsSnapshot(Apply(s, step), key, x)
  {
  }

  lemma {:induction false} SnapshotsStay(trace: seq<State>, steps: seq<Step>, i: nat, j: nat, key: Key, snapshot: Id)
    requires IsRun(trace, steps) && trace[0] == EMPTY && i <= j < |trace|
    ensures trace[j].snapshots.Keys <= trace[j].issued
    ensures OwnsSnapshot(trace[i], key, snapshot) ==> OwnsSnapshot(trace[j], key, snapshot)
    decreases j
  {
    if j > 0 {
      SnapshotsStay(trace, steps, if i < j then i else j - 1, j - 1, key, snapshot);
      assert Moves(trace, steps, j - 1);
      StepKeepsSnapshots(trace[j - 1], steps[j - 1], key);
    }
  }

  /** A snapshot can be restored at most once in any run, and not at all once another snapshot of the namespace
      with the same last eight characters has been restored. */
  lemma SecondRestoreIsRefused(trace: seq<State>, steps: seq<Step>, i: nat, j: nat, second: Id, key: Key, snapshot: Id)
    requires IsRun(trace, steps) && trace[0] == EMPTY && i < j < |trace|
    requires steps[i].RestoreStep? && steps[i].key == key && OwnsSnapshot(trace[i], key, steps[i].snapshot)
    requires LastEight(steps[i].snapshot) == LastEight(snapshot)
    ensures Restore(trace[j], second, key, snapshot) ==
            Tx(trace[j], Err(if OwnsSnapshot(trace[j], key, snapshot) then DuplicateName else NotFound))
    ensures snapshot == steps[i].snapshot ==> OwnsSnapshot(trace[j], key, snapshot)
  {
    assert AsksFor(trace[i], steps[i], key, RestoreName(snapshot));
    SnapshotsStay(trace, steps, i, j, key, steps[i].snapshot);
    if OwnsSnapshot(trace[j], key, snapshot) { RestoreSucceedsIff(trace, steps, j, second, key, snapshot); }
  }

  // ---------------------------------------------------------------- what search finds

  /** A search that names nothing but the namespace. */
  function DefaultQuery(key: Key): Query {
    Query(key, false, "both", {}, None)
  }

  predicate OnMainView(s: State, key: Key) {
    NamespaceOf(s, key).activeBranch.None? && NamespaceOf(s, key).activeSnapshot.None?
  }

  /** On the main view a snapshot lists exactly what the default search finds, global rows included. */
  lemma SnapshotIsDefaultSearch(s: State, id: Id, key: Key)
    requires OnMainView(s, key)
    ensures SnapshotIds(TakeSnapshot(s, id, key).state, id) == SearchRows(s, DefaultQuery(key))
    ensures forall x :: x in SearchRows(s, DefaultQuery(key)) <==>
      x in s.records && s.records[x].status.Active? && s.records[x].branch.None? &&
      (s.records[x].key == key || s.records[x].key == Key(key.user, ""))
  {
    assert forall own: Key :: InScope(key, own) <==> own == key || own == Key(key.user, "");
  }

  /** Restoring a snapshot as soon as it is taken leaves the answer to a search as it was exactly when the
      search names a branch or finds active rows alone: all that default searches find, whatever their scope
      and kinds, and not what historical ones find. */
  lemma RestoreAtOnceIff(s: State, snapshot: Id, id: Id, key: Key, q: Query)
    requires OnMainView(s, key) && q.key == key && forall x :: x in s.records ==> s.records[x].branch != Some(id)
    requires Restore(TakeSnapshot(s, snapshot, key).state, id, key, snapshot).result.Ok?
    ensures SearchRows(Restore(TakeSnapshot(s, snapshot, key).state, id, key, snapshot).state, q) == SearchRows(s, q)
       <==> (q.branch.Some? || forall x :: x in SearchRows(s, q) ==> s.records[x].status.Active?)
    ensures !q.historical ==> forall x :: x in SearchRows(s, q) ==> s.records[x].status.Active?
  {
    var after := Restore(TakeSnapshot(s, snapshot, key).state, id, key, snapshot).state;
    assert after.records == s.records && SnapshotIds(after, snapshot) == Manifest(s.records, key);
    forall x | x in s.records
      ensures x in SearchRows(after, q) <==>
        x in SearchRows(s, q) && (q.branch.Some? || s.records[x].status.Active?) {}
    if q.branch.None? {
      if x :| x in SearchRows(s, q) && !s.records[x].status.Active? {
        assert x !in SearchRows(after, q);
      }
    }
  }

  // ---------------------------------------------------------------- which branch is active

  /** The step makes `branch` the active one of the namespace. */
  predicate Activates(s: State, step: Step, key: Key, branch: Id) {
    (step.BranchStep? && step.key == key && step.id == branch && step.activate &&
     MakeBranch(s, branch, key, step.name, step.from, true).result.Ok?) ||
    (step.RestoreStep? && step.key == key && step.id == branch && Restore(s, branch, key, step.snapshot).result.Ok?)
  }

  /** The step merges `branch` of the namespace. */
  predicate Closes(s: State, step: Step, key: Key, branch: Id) {
    step.MergeStep? && step.key == key && step.merged == branch && OwnsBranch(s, key, branch) &&
    step.strategy in {"verified_only", "all"}
  }

  function StartedFrom(step: Step): Option<Id>
    requires step.BranchStep? || step.RestoreStep?
  {
    if step.BranchStep? then step.from else Some(step.snapshot)
  }

  predicate IsActive(s: State, key: Key, branch: Id) {
    NamespaceOf(s, key).activeBranch == Some(branch)
  }

  lemma OtherStepsKeepView(s: State, step: Step, key: Key)
    requires Enabled(s, step) && !step.BranchStep? && !step.RestoreStep? && !step.MergeStep?
    ensures NamespaceOf(Apply(s, step), key).activeBranch == NamespaceOf(s, key).activeBranch
    ensures NamespaceOf(Apply(s, step), key).activeSnapshot == NamespaceOf(s, key).activeSnapshot
  {
  }

  /** One transaction: activations take over, the merge of the active branch returns to the main view, and
      nothing else moves the namespace. */
  lemma StepMovesView(s: State, step: Step, key: Key)
    requires Enabled(s, step)
    ensures var was, ns := NamespaceOf(s, key), NamespaceOf(Apply(s, step), key);
      if (step.BranchStep? || step.RestoreStep?) && Activates(s, step, key, step.id) then
        ns.activeBranch == Some(step.id) && ns.activeSnapshot == StartedFrom(step)
      else if was.activeBranch.Some? && Closes(s, step, key, was.activeBranch.value) then
        ns.activeBranch.None? && ns.activeSnapshot.None?
      else ns.activeBranch == was.activeBranch && ns.activeSnapshot == was.activeSnapshot
  {
    if !step.BranchStep? && !step.RestoreStep? && !step.MergeStep? { OtherStepsKeepView(s, step, key); }
  }

  /** Step i made the branch active, and until step n no other became active and it was not merged. */
  ghost predicate ActiveSince(trace: seq<State>, steps: seq<Step>, i: nat, n: nat, key: Key, branch: Id)
    requires n <= |steps| < |trace|
  {
    i < n && Activates(trace[i], steps[i], key, branch) &&
    forall j :: i < j < n ==> !Moved(trace[j], steps[j], key, branch)
  }

  predicate Moved(s: State, step: Step, key: Key, branch: Id) {
    Closes(s, step, key, branch) || ((step.BranchStep? || step.RestoreStep?) && Activates(s, step, key, step.id))
  }

  ghost predicate Standing(trace: seq<State>, steps: seq<Step>, n: nat, key: Key, branch: Id)
    requires n <= |steps| < |trace|
  {
    exists i: nat :: ActiveSince(trace, steps, i, n, key, branch)
  }

  lemma StandingStep(trace: seq<State>, steps: seq<Step>, n: nat, next: nat, key: Key, branch: Id)
    requires n + 1 == next <= |steps| < |trace|
    ensures Standing(trace, steps, next, key, branch) <==>
      Activates(trace[n], steps[n], key, branch) ||
      (Standing(trace, steps, n, key, branch) && !Moved(trace[n], steps[n], key, branch))
  {
    if Activates(trace[n], steps[n], key, branch) {
      assert ActiveSince(trace, steps, n, next, key, branch);
    } else if Standing(trace, steps, n, key, branch) && !Moved(trace[n], steps[n], key, branch) {
      var i: nat :| ActiveSince(trace, steps, i, n, key, branch);
      assert ActiveSince(trace, steps, i, next, key, branch);
    } else if i: nat :| ActiveSince(trace, steps, i, next, key, branch) {
      assert ActiveSince(trace, steps, i, n, key, branch);
    }
  }

  lemma IsActiveStep(s: State, step: Step, key: Key, b: Id)
    requires Enabled(s, step)
    ensures IsActive(Apply(s, step), key, b) <==>
            Activates(s, step, key, b) || (IsActive(s, key, b) && !Moved(s, step, key, b))
  {
    StepMovesView(s, step, key);
  }

  /** At every point of every run the active branch is the one last activated, unless it has been merged; the
      namespace is on the main view when there is none. */
  lemma {:induction false} ActiveBranchIsLast(trace: seq<State>, steps: seq<Step>, n: nat, key: Key)
    requires IsRun(trace, steps) && trace[0] == EMPTY && n < |trace|
    ensures forall b :: IsActive(trace[n], key, b) <==> Standing(trace, steps, n, key, b)
    ensures NamespaceOf(trace[n], key).activeBranch.None? ==> OnMainView(trace[n], key)
  {
    if n > 0 {
      ActiveBranchIsLast(trace, steps, n - 1, key);
      assert Moves(trace, steps, n - 1);
      StepMovesView(trace[n - 1], steps[n - 1], key);
      forall b ensures IsActive(trace[n], key, b) <==> Standing(trace, steps, n, key, b) {
        StandingStep(trace, steps, n - 1, n, key, b);
        IsActiveStep(trace[n - 1], steps[n - 1], key, b);
      }
    }
  }

  /** A merge of the active branch leaves it: the next creation that names no branch is on the main line, and
      the default search finds every active main-line row in scope. A merge of any other branch moves nothing. */
  lemma MergeLeavesBranch(s: State, step: Step, id: Id, m: NewMemory, clock: int)
    requires Enabled(s, step) && step.MergeStep? && Closes(s, step, step.key, step.merged)
    ensures var key, after := step.key, Apply(s, step);
      after.branches[step.merged].merged &&
      if NamespaceOf(s, key).activeBranch == Some(step.merged) then
        (Create(after, id, key, m, clock).result.Ok? && m.branch.None? ==>
          OnMain(Create(after, id, key, m, clock).state.records[id])) &&
        forall x :: x in SearchRows(after, DefaultQuery(key)) <==>
          x in after.records && InScope(key, after.records[x].key) && after.records[x].status.Active? &&
          OnMain(after.records[x])
      else NamespaceOf(after, key).activeBranch == NamespaceOf(s, key).activeBranch &&
           NamespaceOf(after, key).activeSnapshot == NamespaceOf(s, key).activeSnapshot
  {
    StepMovesView(s, step, step.key);
  }

  // ---------------------------------------------------------------- what a branch row says

  /** The step makes the branch. */
  predicate Makes(s: State, step: Step, b: Id, row: Branch) {
    (step.BranchStep? && step.id == b && row == Branch(step.key, step.name, step.from, row.merged) &&
     MakeBranch(s, b, step.key, step.name, step.from, step.activate).result.Ok?) ||
    (step.RestoreStep? && step.id == b &&
     row == Branch(step.key, RestoreName(step.snapshot), Some(step.snapshot), row.merged) &&
     Restore(s, b, step.key, step.snapshot).result.Ok?)
  }

  lemma StepKeepsBranchRow(s: State, step: Step, b: Id)
    requires Enabled(s, step) && b in s.branches && s.branches.Keys <= s.issued
    ensures b in Apply(s, step).branches
    ensures Apply(s, step).branches[b] ==
            s.branches[b].(merged := s.branches[b].merged || Closes(s, step, s.branches[b].key, b))
  {
  }

  lemma StepMakesBranchRow(s: State, step: Step, b: Id)
    requires Enabled(s, step) && b !in s.branches && b in Apply(s, step).branches
    ensures Makes(s, step, b, Apply(s, step).branches[b]) && !Apply(s, step).branches[b].merged
  {
  }

  ghost predicate ClosedSince(trace: seq<State>, steps: seq<Step>, i: nat, n: nat, key: Key, b: Id)
    requires n <= |steps| < |trace|
  {
    exists j :: i < j < n && Closes(trace[j], steps[j], key, b)
  }

  /** At every point of every run a branch row says what the step that made it was given, and is marked as merged
      exactly when a step since has merged it. */
  lemma {:induction false} BranchIsAsGiven(trace: seq<State>, steps: seq<Step>, n: nat, b: Id) returns (i: nat)
    requires IsRun(trace, steps) && trace[0] == EMPTY && n < |trace| && b in trace[n].branches
    ensures i < n && Makes(trace[i], steps[i], b, trace[n].branches[b])
    ensures trace[n].branches[b].merged <==> ClosedSince(trace, steps, i, n, trace[n].branches[b].key, b)
  {
    assert Moves(trace, steps, n - 1);
    NamesAreTakenByAsking(trace, steps, n - 1, trace[n].branches[b].key, "");
    if b in trace[n - 1].branches {
      i := BranchIsAsGiven(trace, steps, n - 1, b);
      StepKeepsBranchRow(trace[n - 1], steps[n - 1], b);
      var key := trace[n].branches[b].key;
      if Closes(trace[n - 1], steps[n - 1], key, b) { assert ClosedSince(trace, steps, i, n, key, b); }
      if j :| i < j < n - 1 && Closes(trace[j], steps[j], key, b) { assert ClosedSince(trace, steps, i, n, key, b); }
    } else {
      i := n - 1;
      StepMakesBranchRow(trace[n - 1], steps[n - 1], b);
    }
  }
}
