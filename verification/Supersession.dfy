/** The graph of `superseded_by` links: it never has a cycle, links are written once, and a row that has
    stopped being active never becomes active again. */
module Supersession {
  import opened Prelude
  import opened Records
  import opened Transactions
  import opened Runs
  import opened MergeFacts

  function Next(rows: map<Id, Record>, id: Id): Option<Id> {
    if id in rows then rows[id].supersededBy else None
  }

  /** The row reached from `id` after `n` links. */
  function Follow(rows: map<Id, Record>, id: Id, n: nat): Option<Id> {
    if n == 0 then Some(id)
    else
      var before := Follow(rows, id, n - 1);
      if before.None? then None else Next(rows, before.value)
  }

  ghost predicate Acyclic(rows: map<Id, Record>) {
    forall id, n: nat :: n > 0 ==> Follow(rows, id, n) != Some(id)
  }

  ghost predicate Reaches(rows: map<Id, Record>, from: Id, to: Id) {
    exists n: nat :: Follow(rows, from, n) == Some(to)
  }

  ghost predicate ActiveAreLatest(rows: map<Id, Record>) {
    forall id :: id in rows && rows[id].status.Active? ==> rows[id].supersededBy.None?
  }

  // ---------------------------------------------------------------- paths

  lemma {:induction false} FollowSplit(rows: map<Id, Record>, id: Id, m: nat, n: nat)
    requires Follow(rows, id, m).Some?
    ensures Follow(rows, id, m + n) == Follow(rows, Follow(rows, id, m).value, n)
  {
    if n > 0 { FollowSplit(rows, id, m, n - 1); }
  }

  lemma {:induction false} PathPrefix(rows: map<Id, Record>, id: Id, m: nat, n: nat)
    requires m <= n && Follow(rows, id, n).Some?
    ensures Follow(rows, id, m).Some?
  {
    if m < n { PathPrefix(rows, id, m, n - 1); }
  }

  ghost predicate DiffersOnlyAt(a: map<Id, Record>, b: map<Id, Record>, at: Id) {
    forall x :: x != at ==> Next(a, x) == Next(b, x)
  }

  /** Two graphs that differ only in the link out of `at` agree along a path until it meets `at`. */
  lemma {:induction false} SamePath(a: map<Id, Record>, b: map<Id, Record>, at: Id, id: Id, n: nat)
    requires DiffersOnlyAt(a, b, at)
    requires forall i: nat :: i < n ==> Follow(a, id, i) != Some(at)
    ensures Follow(a, id, n) == Follow(b, id, n)
  {
    if n > 0 { SamePath(a, b, at, id, n - 1); }
  }

  /** If a path arrives at `at`, it does so a first time; up to then both graphs agree. */
  lemma {:induction false} FirstArrival(a: map<Id, Record>, b: map<Id, Record>, at: Id, id: Id, n: nat) returns (m: nat)
    requires DiffersOnlyAt(a, b, at) && Follow(a, id, n) == Some(at)
    ensures m <= n && Follow(a, id, m) == Some(at) == Follow(b, id, m)
  {
    if i: nat :| i < n && Follow(a, id, i) == Some(at) {
      m := FirstArrival(a, b, at, id, i);
    } else {
      SamePath(a, b, at, id, n);
      m := n;
    }
  }

  /** Pointing `at` to `to` keeps the graph acyclic exactly when `to` did not already lead to `at`. */
  lemma RelinkAcyclicIff(a: map<Id, Record>, b: map<Id, Record>, at: Id, to: Id)
    requires Acyclic(a) && DiffersOnlyAt(a, b, at) && Next(b, at) == Some(to)
    ensures Acyclic(b) <==> !Reaches(a, to, at)
  {
    assert Follow(b, at, 0) == Some(at);
    assert Follow(b, at, 1) == Some(to);
    if n: nat :| Follow(a, to, n) == Some(at) {
      var m := FirstArrival(a, b, at, to, n);
      FollowSplit(b, at, 1, m);
      assert Follow(b, at, 1 + m) == Some(at);
    } else {
      forall id, n: nat | n > 0
        ensures Follow(b, id, n) != Some(id)
      {
        if Follow(b, id, n) == Some(id) { CycleUsesRelinked(a, b, at, to, id, n); }
      }
    }
  }

  lemma CycleUsesRelinked(a: map<Id, Record>, b: map<Id, Record>, at: Id, to: Id, id: Id, n: nat)
    requires Acyclic(a) && DiffersOnlyAt(a, b, at) && Next(b, at) == Some(to)
    requires n > 0 && Follow(b, id, n) == Some(id)
    ensures Reaches(a, to, at)
  {
    if i: nat :| i < n && Follow(b, id, i) == Some(at) {
      FollowSplit(b, id, i, n - i);
      FollowSplit(b, at, n - i, i);
      assert Follow(b, at, n) == Some(at);
      assert Follow(b, at, 0) == Some(at);
      assert Follow(b, at, 1) == Some(to);
      FollowSplit(b, at, 1, n - 1);
      var m := FirstArrival(b, a, at, to, n - 1);
    } else {
      SamePath(b, a, at, id, n);
      assert false;
    }
  }

  /** Dropping links cannot create a cycle. */
  lemma FewerLinksAcyclic(a: map<Id, Record>, b: map<Id, Record>)
    requires Acyclic(a) && forall x :: Next(b, x).None? || Next(b, x) == Next(a, x)
    ensures Acyclic(b)
  {
    forall id, n: nat | n > 0 && Follow(b, id, n).Some?
      ensures Follow(b, id, n) == Follow(a, id, n)
    {
      FewerLinksFollow(a, b, id, n);
    }
  }

  lemma {:induction false} FewerLinksFollow(a: map<Id, Record>, b: map<Id, Record>, id: Id, n: nat)
    requires forall x :: Next(b, x).None? || Next(b, x) == Next(a, x)
    requires Follow(b, id, n).Some?
    ensures Follow(b, id, n) == Follow(a, id, n)
  {
    if n > 0 { FewerLinksFollow(a, b, id, n - 1); }
  }

  lemma LatestReachesOnlyItself(rows: map<Id, Record>, id: Id, to: Id)
    requires Next(rows, id).None? && Reaches(rows, id, to)
    ensures to == id
  {
    var n: nat :| Follow(rows, id, n) == Some(to);
    assert Follow(rows, id, 0) == Some(id);
    if n > 0 { PathPrefix(rows, id, 1, n); }
  }

  /** In an acyclic graph a chain of links ends after at most as many links as there are rows. */
  lemma ChainEnds(rows: map<Id, Record>, id: Id)
    requires Acyclic(rows)
    ensures Follow(rows, id, |rows| + 1).None?
  {
    if Follow(rows, id, |rows| + 1).Some? {
      var path := seq(|rows| + 1, i requires 0 <= i <= |rows| => StopAt(rows, id, i, |rows| + 1));
      forall i, j | 0 <= i < j < |path|
        ensures path[i] != path[j]
      {
        assert path[i] == StopAt(rows, id, i, |rows| + 1) && path[j] == StopAt(rows, id, j, |rows| + 1);
        FollowSplit(rows, id, i, j - i);
      }
      DistinctFits(path, rows.Keys);
    }
  }

  function StopAt(rows: map<Id, Record>, id: Id, i: nat, n: nat): (stop: Id)
    requires i < n && Follow(rows, id, n).Some?
    ensures Follow(rows, id, i) == Some(stop) && stop in rows
  {
    PathPrefix(rows, id, i, n);
    PathPrefix(rows, id, i + 1, n);
    Follow(rows, id, i).value
  }

  // ---------------------------------------------------------------- one step

  ghost predicate Clean(rows: map<Id, Record>) {
    Acyclic(rows) && ActiveAreLatest(rows)
  }

  /** Adding a row without a successor changes no link. */
  lemma AddedRowClean(rows: map<Id, Record>, id: Id, row: Record)
    requires Clean(rows) && id !in rows && row.supersededBy.None?
    ensures Clean(rows[id := row])
  {
    FewerLinksAcyclic(rows, rows[id := row]);
  }

  /** Retiring an active row in favour of another active row. */
  lemma RetiredRowClean(rows: map<Id, Record>, id: Id, row: Record, to: Id)
    requires Clean(rows) && id in rows && to in rows && rows[to].status.Active? && to != id
    requires row.supersededBy == Some(to) && !row.status.Active?
    ensures Clean(rows[id := row])
  {
    var after := rows[id := row];
    RelinkAcyclicIff(rows, after, id, to);
    if Reaches(rows, to, id) { LatestReachesOnlyItself(rows, to, id); }
  }

  lemma MergeRowClean(rows: map<Id, Record>, issued: set<Id>, c: Merging, id: Id, row: Record, choice: Id)
    requires Clean(rows) && rows.Keys <= issued && Supplied(rows, issued, c, row, choice)
    ensures Clean(MergeRow(rows, c, id, row, choice))
    ensures MergeRow(rows, c, id, row, choice).Keys <= rows.Keys + {choice}
  {
    if Verdict(rows, c, row, choice).Merged? {
      var after := Promote(rows, c, id, row, choice);
      if Holders(rows, c.key, row.content.hash) == {} {
        AddedRowClean(rows, choice, PromotedRecord(c, id, row));
      }
      PromotedHolds(rows, issued, c, id, row, choice);
      if row.parent.Some? && row.parent.value != choice {
        var p := row.parent.value;
        RetiredRowClean(after, p, Retired(after[p], SuccessorStart(after[choice], c.now), choice, c.now), choice);
      }
    }
  }

  lemma {:induction false} MergeRowsClean(rows: map<Id, Record>, issued: set<Id>, c: Merging, ids: seq<Id>,
                                          choices: seq<Id>)
    requires Clean(rows) && rows.Keys <= issued && Listed(rows, ids, choices) &&
             AllSupplied(rows, issued, c, ids, choices)
    ensures Clean(MergeRows(rows, c, ids, choices))
    ensures MergeRows(rows, c, ids, choices).Keys <= issued + Elements(choices)
  {
    if ids != [] {
      var n := |ids| - 1;
      SuppliedPrefix(rows, issued, c, ids, choices, n);
      MergeRowsClean(rows, issued, c, ids[..n], choices[..n]);
      assert SuppliedAt(rows, issued, c, ids, choices, n);
      MergeRowClean(MergeRows(rows, c, ids[..n], choices[..n]), issued + Elements(choices[..n]), c, ids[n],
                    rows[ids[n]], choices[n]);
      assert choices == choices[..n] + [choices[n]];
    }
  }

  lemma SupersedeClean(s: State, step: Step)
    requires step.SupersedeStep? && Clean(s.records) && Issued(s) && Enabled(s, step)
    ensures Clean(Apply(s, step).records) && Issued(Apply(s, step))
  {
    if Owns(s, step.key, step.prior) && s.records[step.prior].status.Active? {
      var target := EffectiveBranch(s, step.key, step.branch);
      var row := ReplacementRecord(step.key, step.content, step.validFrom, target, step.prior, step.now);
      AddedRowClean(s.records, step.id, row);
      if target.None? {
        RetiredRowClean(s.records[step.id := row], step.prior,
                        Retired(s.records[step.prior], step.validFrom, step.id, step.now), step.id);
      }
    }
  }

  /** The row is there as before, with its successor, and not newly active. */
  ghost predicate LinkKept(rows: map<Id, Record>, after: map<Id, Record>, x: Id) {
    (x in after <==> x in rows) &&
    (x in rows ==>
      after[x].supersededBy == rows[x].supersededBy && (after[x].status.Active? ==> rows[x].status.Active?))
  }

  lemma LinklessStepRow(s: State, step: Step, x: Id)
    requires Enabled(s, step) && !step.ForgetStep?
    requires !step.CreateStep? && !step.SupersedeStep? && !step.MergeStep? && !step.ExistingStep?
    ensures LinkKept(s.records, Apply(s, step).records, x)
  {
  }

  lemma SameLinksClean(rows: map<Id, Record>, after: map<Id, Record>)
    requires Clean(rows) && forall x :: LinkKept(rows, after, x)
    ensures Clean(after)
  {
    forall x ensures Next(after, x) == Next(rows, x) && (x in after ==> x in rows) { assert LinkKept(rows, after, x); }
    FewerLinksAcyclic(rows, after);
    forall x | x in after ensures LinkKept(rows, after, x) {}
  }

  lemma ForgottenRowClean(rows: map<Id, Record>, gone: Id)
    requires Clean(rows)
    ensures Clean(Without(rows, gone))
  {
    FewerLinksAcyclic(rows, Without(rows, gone));
  }

  /** Steps that write no successor. */
  lemma LinklessStepClean(s: State, step: Step)
    requires Clean(s.records) && Issued(s) && Enabled(s, step)
    requires !step.CreateStep? && !step.SupersedeStep? && !step.MergeStep? && !step.ExistingStep?
    ensures Clean(Apply(s, step).records) && Issued(Apply(s, step))
  {
    if step.ForgetStep? {
      ForgottenRowClean(s.records, step.id);
    } else {
      forall x ensures LinkKept(s.records, Apply(s, step).records, x) { LinklessStepRow(s, step, x); }
      SameLinksClean(s.records, Apply(s, step).records);
    }
  }

  lemma StepClean(s: State, step: Step)
    requires Clean(s.records) && Issued(s) && Enabled(s, step) && !step.ExistingStep?
    ensures Clean(Apply(s, step).records) && Issued(Apply(s, step))
  {
    if step.CreateStep? {
      AddedRowClean(s.records, step.id, CreatedRecord(s, step.key, step.memory, step.now));
    } else if step.SupersedeStep? {
      SupersedeClean(s, step);
    } else if step.MergeStep? {
      MergeRowsClean(s.records, s.issued, Merging(step.key, step.strategy == "verified_only", step.now), step.ids,
                     step.choices);
    } else {
      LinklessStepClean(s, step);
    }
  }

  // ---------------------------------------------------------------- runs

  /** Over every run without `supersede_with_existing`, from an empty store: no cycle of links, no
      active row with a successor, and following links ends within one hop per row. */
  lemma {:induction false} SupersessionIsAcyclic(trace: seq<State>, steps: seq<Step>, i: nat, id: Id)
    requires IsRun(trace, steps) && trace[0] == EMPTY && i < |trace|
    requires forall step :: step in steps ==> !step.ExistingStep?
    ensures Clean(trace[i].records) && Issued(trace[i])
    ensures Follow(trace[i].records, id, |trace[i].records| + 1).None?
  {
    if i == 0 {
      forall id, n: nat | n > 0 ensures Follow(EMPTY.records, id, n).None? { EmptyFollow(id, n); }
    } else {
      SupersessionIsAcyclic(trace, steps, i - 1, id);
      assert Moves(trace, steps, i - 1);
      StepClean(trace[i - 1], steps[i - 1]);
    }
    ChainEnds(trace[i].records, id);
  }

  lemma {:induction false} EmptyFollow(id: Id, n: nat)
    requires n > 0
    ensures Follow(EMPTY.records, id, n).None?
  {
    if n > 1 { EmptyFollow(id, n - 1); }
  }

  // ---------------------------------------------------------------- what one step may do to a row

  /** Row `r` became `after` in one step: an inactive row stays inactive and gains no successor, and a
      successor is never exchanged for another one. */
  ghost predicate KeepsHistory(r: Record, after: Record) {
    (!r.status.Active? ==>
     !after.status.Active? && (after.supersededBy.None? || after.supersededBy == r.supersededBy)) &&
    (r.supersededBy.Some? ==> after.supersededBy.None? || after.supersededBy == r.supersededBy)
  }

  lemma StepKeepsHistory(s: State, step: Step, id: Id)
    requires Enabled(s, step) && Issued(s) && ActiveAreLatest(s.records) && !step.ExistingStep?
    requires id in s.records && id in Apply(s, step).records
    ensures KeepsHistory(s.records[id], Apply(s, step).records[id])
  {
    if step.MergeStep? {
      MergeRowsEvolve(s.records, s.issued, Merging(step.key, step.strategy == "verified_only", step.now), step.ids,
                      step.choices, id);
    }
  }

  lemma StepIssues(s: State, step: Step)
    requires Enabled(s, step) && Issued(s)
    ensures Issued(Apply(s, step)) && s.issued <= Apply(s, step).issued
    ensures forall id :: id in Apply(s, step).records && id in s.issued ==> id in s.records
  {
    if step.MergeStep? {
      var c := Merging(step.key, step.strategy == "verified_only", step.now);
      MergeRowsKeys(s.records, s.issued, c, step.ids, step.choices);
    }
  }

  /** A row found late in a run, whose identifier was already issued at `i`, was there all along. */
  lemma {:induction false} RowWasThere(trace: seq<State>, steps: seq<Step>, i: nat, j: nat, id: Id)
    requires IsRun(trace, steps) && i <= j < |trace| && Issued(trace[i])
    requires id in trace[i].issued && id in trace[j].records
    ensures Issued(trace[j]) && id in trace[i].records && trace[i].issued <= trace[j].issued
    ensures i < j ==> id in trace[j - 1].records && Issued(trace[j - 1]) && id in trace[j - 1].issued
  {
    RunIssues(trace, steps, i, j);
    if i < j {
      RunIssues(trace, steps, i, j - 1);
      assert Moves(trace, steps, j - 1);
      StepIssues(trace[j - 1], steps[j - 1]);
      RowWasThere(trace, steps, i, j - 1, id);
    }
  }

  lemma {:induction false} RunIssues(trace: seq<State>, steps: seq<Step>, i: nat, j: nat)
    requires IsRun(trace, steps) && i <= j < |trace| && Issued(trace[i])
    ensures Issued(trace[j]) && trace[i].issued <= trace[j].issued
  {
    if i < j {
      RunIssues(trace, steps, i, j - 1);
      assert Moves(trace, steps, j - 1);
      StepIssues(trace[j - 1], steps[j - 1]);
    }
  }

  // ---------------------------------------------------------------- runs

  /** A successor is written at most once: whatever happens later, the row still names it, or names
      nobody because the successor has been forgotten; and the row is never active again. */
  lemma {:induction false} SuccessorIsWrittenOnce(trace: seq<State>, steps: seq<Step>, i: nat, j: nat, id: Id)
    requires IsRun(trace, steps) && trace[0] == EMPTY && i <= j < |trace|
    requires forall step :: step in steps ==> !step.ExistingStep?
    requires id in trace[i].records && trace[i].records[id].supersededBy.Some? && id in trace[j].records
    ensures !trace[j].records[id].status.Active?
    ensures trace[j].records[id].supersededBy.None? ||
            trace[j].records[id].supersededBy == trace[i].records[id].supersededBy
  {
    SupersessionIsAcyclic(trace, steps, i, id);
    if i < j {
      RowWasThere(trace, steps, i, j, id);
      SuccessorIsWrittenOnce(trace, steps, i, j - 1, id);
      SupersessionIsAcyclic(trace, steps, j - 1, id);
      assert Moves(trace, steps, j - 1);
      StepKeepsHistory(trace[j - 1], steps[j - 1], id);
    }
  }

  ghost predicate Recallable(s: State, id: Id) {
    id in s.records && s.records[id].status.Active?
  }

  lemma StepNeverRevives(s: State, step: Step, id: Id)
    requires Enabled(s, step) && Issued(s) && id in s.issued && !Recallable(s, id)
    ensures !Recallable(Apply(s, step), id)
  {
    StepIssues(s, step);
    if step.MergeStep? && id in s.records {
      MergeRowsEvolve(s.records, s.issued, Merging(step.key, step.strategy == "verified_only", step.now), step.ids,
                      step.choices, id);
    }
  }

  /** Over every run of every transaction: a row that is inactive or gone is never active again. */
  lemma {:induction false} InactiveIsForever(trace: seq<State>, steps: seq<Step>, i: nat, j: nat, id: Id)
    requires IsRun(trace, steps) && i <= j < |trace| && Issued(trace[i])
    requires id in trace[i].issued && !Recallable(trace[i], id)
    ensures !Recallable(trace[j], id)
  {
    if i < j {
      InactiveIsForever(trace, steps, i, j - 1, id);
      RunIssues(trace, steps, i, j - 1);
      assert Moves(trace, steps, j - 1);
      StepNeverRevives(trace[j - 1], steps[j - 1], id);
    }
  }

  // ---------------------------------------------------------------- supersession by an existing row

  /** `supersede_with_existing` keeps the links acyclic exactly when the new row does not already lead,
      through its own successors, to the row it replaces. */
  lemma ExistingAcyclicIff(s: State, prior: Id, next: Id, key: Key, now: int)
    requires Acyclic(s.records) && SupersedeExisting(s, prior, next, key, now).result.Ok?
    ensures Acyclic(SupersedeExisting(s, prior, next, key, now).state.records) <==> !Reaches(s.records, next, prior)
  {
    RelinkAcyclicIff(s.records, SupersedeExisting(s, prior, next, key, now).state.records, prior, next);
  }

  /** Resolving the conflict between two rows first one way and then the other closes a cycle. */
  lemma ResolvingTwiceClosesACycle(s: State, a: Id, b: Id, key: Key, now: int)
    requires Clean(s.records) && Owns(s, key, a) && Owns(s, key, b) && a != b
    requires s.records[a].status.Active? && s.records[b].status.Active?
    ensures var once := SupersedeExisting(s, a, b, key, now).state;
      Acyclic(once.records) && !Acyclic(SupersedeExisting(once, b, a, key, now).state.records)
  {
    var once := SupersedeExisting(s, a, b, key, now).state;
    ExistingAcyclicIff(s, a, b, key, now);
    if Reaches(s.records, b, a) { LatestReachesOnlyItself(s.records, b, a); }
    assert Follow(once.records, a, 0) == Some(a);
    assert Follow(once.records, a, 1) == Some(b);
    assert Reaches(once.records, a, b);
    ExistingAcyclicIff(once, b, a, key, now);
  }
}
