/** Runs: any sequence of transactions, applied one after the other. */
module Runs {
  import opened Prelude
  import opened Records
  import opened Transactions

  datatype Step =
    | CreateStep(id: Id, key: Key, memory: NewMemory, now: int)
    | SupersedeStep(id: Id, prior: Id, key: Key, content: Content, validFrom: int, branch: Option<Id>, now: int)
    | MergeStep(key: Key, merged: Id, strategy: string, ids: seq<Id>, choices: seq<Id>, now: int)
    | SnapshotStep(id: Id, key: Key, now: int)
    | BranchStep(id: Id, key: Key, name: string, from: Option<Id>, activate: bool, now: int)
    | RestoreStep(id: Id, key: Key, snapshot: Id, now: int)
    | VerifyStep(id: Id, key: Key, confidence: int, now: int)
    | DisputeStep(id: Id, key: Key, now: int)
    | BeginForgetStep(id: Id, key: Key, now: int)
    | ForgetStep(id: Id, key: Key, now: int)
    | SourcesStep(id: Id, now: int)
    | ExistingStep(prior: Id, next: Id, key: Key, now: int)

  /** What the environment promises about a step: identifiers it generates are new, rows it lists are
      the rows the query selects. A step whose arguments are wrong in any other way is an error that
      the transaction itself reports. */
  ghost predicate Enabled(s: State, step: Step) {
    match step
    case CreateStep(id, _, _, _) => id !in s.issued
    case SupersedeStep(id, _, _, _, _, _, _) => id !in s.issued
    case SnapshotStep(id, _, _) => id !in s.issued
    case BranchStep(id, _, _, _, _, _) => id !in s.issued
    case RestoreStep(id, _, _, _) => id !in s.issued
    case MergeStep(key, branch, strategy, ids, choices, now) =>
      |ids| == |choices| && BranchRows(s.records, key, branch, ids) &&
      AllSupplied(s.records, s.issued, Merging(key, strategy == "verified_only", now), ids, choices)
    case _ => true
  }

  ghost function Apply(s: State, step: Step): State
    requires Enabled(s, step)
  {
    match step
    case CreateStep(id, key, memory, now) => Create(s, id, key, memory, now).state
    case SupersedeStep(id, prior, key, content, from, branch, now) =>
      Supersede(s, id, prior, key, content, from, branch, now).state
    case MergeStep(key, branch, strategy, ids, choices, now) => Merge(s, key, branch, strategy, ids, choices, now).state
    case SnapshotStep(id, key, _) => TakeSnapshot(s, id, key).state
    case BranchStep(id, key, name, from, activate, _) => MakeBranch(s, id, key, name, from, activate).state
    case RestoreStep(id, key, snapshot, _) => Restore(s, id, key, snapshot).state
    case VerifyStep(id, key, confidence, now) => Verify(s, id, key, now, confidence).state
    case DisputeStep(id, key, now) => SetStatus(s, id, key, Disputed, now).state
    case BeginForgetStep(id, key, now) => SetStatus(s, id, key, Deleting, now).state
    case ForgetStep(id, key, _) => Forget(s, id, key).state
    case SourcesStep(id, now) => MergeSources(s, id, now).state
    case ExistingStep(prior, next, key, now) => SupersedeExisting(s, prior, next, key, now).state
  }

  /** `trace` lists the states met by the run `steps`, from the first to the last. */
  ghost predicate IsRun(trace: seq<State>, steps: seq<Step>) {
    |trace| == |steps| + 1 &&
    forall i :: 0 <= i < |steps| ==> Moves(trace, steps, i)
  }

  ghost predicate Moves(trace: seq<State>, steps: seq<Step>, i: nat)
    requires i < |steps| && |trace| == |steps| + 1
  {
    Enabled(trace[i], steps[i]) && trace[i + 1] == Apply(trace[i], steps[i])
  }

  /** Every row's identifier has been issued. */
  predicate Issued(s: State) {
    s.records.Keys <= s.issued
  }
}
