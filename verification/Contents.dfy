/** What a row says is what it was given: every row of every run leads back to the step that added it. */
module Contents {
  import opened Prelude
  import opened Records
  import opened Transactions
  import opened Runs
  import opened MergeFacts
  import opened History
  import Gate
  import Supersession
  import opened BranchMerge

  // ---------------------------------------------------------------- where a row comes from

  /** Row i of the merge is the first one that the database answers with `x`. */
  ghost predicate FirstChoice(choices: seq<Id>, i: nat, x: Id) {
    i < |choices| && choices[i] == x && forall j :: 0 <= j < i ==> choices[j] != x
  }

  /** The step adds row `x`, and `r` is what the step was given for it. */
  ghost predicate Given(s: State, step: Step, x: Id, r: Record) {
    x !in s.records && r.supersededBy.None? && r.supersededAt.None? &&
    match step
    case CreateStep(id, key, m, now) =>
      x == id && r.key == key && r.content == m.content && r.status == m.status && r.verifiedAt == m.verifiedAt &&
      r.createdAt == r.observedAt == Or(m.createdAt, now) && r.validFrom == Or(m.validFrom, r.createdAt) &&
      r.updatedAt == Or(m.updatedAt, r.createdAt) && r.validUntil == m.validUntil && r.parent == m.parent &&
      (m.branch.Some? ==> r.branch == m.branch)
    case SupersedeStep(id, prior, key, content, from, branch, now) =>
      x == id && r.key == key && r.content == content && r.parent == Some(prior) && r.verifiedAt.None? &&
      FirstSeen(r, now) && r.validFrom == from && (branch.Some? ==> r.branch == branch)
    case MergeStep(key, _, _, ids, choices, now) =>
      |ids| == |choices| && OnMain(r) && r.key == key && FirstSeen(r, now) && r.validFrom == now &&
      exists i: nat :: FirstChoice(choices, i, x) && ids[i] in s.records && SaysWhat(r, s.records[ids[i]], ids[i])
    case _ => false
  }

  /** Active and open-ended, first seen at `now`. */
  predicate FirstSeen(r: Record, now: int) {
    r.status.Active? && r.validUntil.None? && r.createdAt == r.observedAt == now
  }

  /** `r` says what branch row `id` says, as its replacement or as that of its parent. */
  predicate SaysWhat(r: Record, row: Record, id: Id) {
    r.content == row.content && r.verifiedAt == row.verifiedAt && r.parent == Some(Or(row.parent, id))
  }

  /** The row that the merge adds, untouched by its later turns: no branch row has it as its parent yet. */
  lemma {:induction false} MergeAddsGiven(rows: map<Id, Record>, issued: set<Id>, c: Merging, ids: seq<Id>,
                                          choices: seq<Id>, x: Id) returns (i: nat)
    requires rows.Keys <= issued && Listed(rows, ids, choices) && AllSupplied(rows, issued, c, ids, choices)
    requires References(rows) && x in MergeRows(rows, c, ids, choices) && x !in rows
    ensures FirstChoice(choices, i, x) && ids[i] in rows
    ensures MergeRows(rows, c, ids, choices)[x] == PromotedRecord(c, ids[i], rows[ids[i]])
  {
    var n := |ids| - 1;
    SuppliedPrefix(rows, issued, c, ids, choices, n);
    MergeRowsKeys(rows, issued, c, ids[..n], choices[..n]);
    assert SuppliedAt(rows, issued, c, ids, choices, n);
    assert RefersTo(rows[ids[n]], rows.Keys);
    if x in MergeRows(rows, c, ids[..n], choices[..n]) {
      i := MergeAddsGiven(rows, issued, c, ids[..n], choices[..n], x);
    } else {
      i := n;
      forall j | 0 <= j < n ensures choices[j] != x {
        assert choices[..n][j] in Elements(choices[..n]);
      }
    }
  }

  /** A row is added by the step that was given its content, and no other. */
  lemma StepAddsGiven(s: State, step: Step, x: Id)
    requires Enabled(s, step) && Issued(s) && References(s.records) && x !in s.records && x in Apply(s, step).records
    ensures Given(s, step, x, Apply(s, step).records[x])
  {
    if step.MergeStep? {
      var c := Merging(step.key, step.strategy == "verified_only", step.now);
      var i := MergeAddsGiven(s.records, s.issued, c, step.ids, step.choices, x);
      assert SaysWhat(Apply(s, step).records[x], s.records[step.ids[i]], step.ids[i]);
    }
  }

  // ---------------------------------------------------------------- what never changes

  /** Everything a step may not rewrite; a parent may be forgotten. */
  predicate Preserved(r: Record, after: Record) {
    after.key == r.key && after.validFrom == r.validFrom && after.branch == r.branch &&
    after.createdAt == r.createdAt &&
    after.content == r.content.(confidence := after.content.confidence) &&
    (after.parent == r.parent || after.parent.None?)
  }

  predicate Verifies(s: State, step: Step, x: Id) {
    step.VerifyStep? && step.id == x && Owns(s, step.key, x)
  }

  /** What verification last established about a row. */
  datatype Assurance = Assurance(confidence: int, verifiedAt: Option<int>)

  function AssuranceOf(r: Record): Assurance {
    Assurance(r.content.confidence, r.verifiedAt)
  }

  /** A reference is lost with the row that it names, and not otherwise. */
  predicate ReferenceKept(reference: Option<Id>, after: Option<Id>, rows: map<Id, Record>) {
    after == reference || (after.None? && reference.value !in rows)
  }

  lemma PlainStepPreserves(s: State, step: Step, x: Id)
    requires Enabled(s, step) && Issued(s) && !step.MergeStep? && x in s.records && x in Apply(s, step).records
    ensures Preserved(s.records[x], Apply(s, step).records[x])
    ensures ReferenceKept(s.records[x].parent, Apply(s, step).records[x].parent, Apply(s, step).records)
  {
  }

  lemma StepPreserves(s: State, step: Step, x: Id)
    requires Enabled(s, step) && Issued(s) && x in s.records && x in Apply(s, step).records
    ensures Preserved(s.records[x], Apply(s, step).records[x])
    ensures AssuranceOf(Apply(s, step).records[x]) ==
            if Verifies(s, step, x) then Assurance(step.confidence, Some(step.now)) else AssuranceOf(s.records[x])
    ensures Apply(s, step).records[x].observedAt ==
            if step.SourcesStep? && step.id == x then step.now else s.records[x].observedAt
    ensures ReferenceKept(s.records[x].parent, Apply(s, step).records[x].parent, Apply(s, step).records)
  {
    if step.MergeStep? {
      MergeRowsEvolve(s.records, s.issued, Merging(step.key, step.strategy == "verified_only", step.now), step.ids,
                      step.choices, x);
    } else {
      PlainStepPreserves(s, step, x);
    }
  }

  /** The verification at step k is the last one of the row before step i. */
  ghost predicate LastVerified(trace: seq<State>, steps: seq<Step>, k: nat, i: nat, x: Id)
    requires i <= |steps| < |trace|
  {
    k < i && Verifies(trace[k], steps[k], x) && forall m :: k < m < i ==> !Verifies(trace[m], steps[m], x)
  }

  ghost predicate Assured(trace: seq<State>, steps: seq<Step>, j: nat, i: nat, x: Id, first: Assurance, last: Assurance)
    requires i <= |steps| < |trace|
  {
    if forall m :: j < m < i ==> !Verifies(trace[m], steps[m], x) then last == first
    else exists k :: j < k && LastVerified(trace, steps, k, i, x) &&
           last == Assurance(steps[k].confidence, Some(steps[k].now))
  }

  lemma AssuredStep(trace: seq<State>, steps: seq<Step>, j: nat, i: nat, x: Id, first: Assurance, last: Assurance)
    requires j < i < |steps| < |trace| && Assured(trace, steps, j, i, x, first, last)
    ensures Assured(trace, steps, j, i + 1, x, first,
                    if Verifies(trace[i], steps[i], x) then Assurance(steps[i].confidence, Some(steps[i].now))
                    else last)
  {
    if Verifies(trace[i], steps[i], x) {
      assert LastVerified(trace, steps, i, i + 1, x);
    } else if !(forall m :: j < m < i ==> !Verifies(trace[m], steps[m], x)) {
      var k :| j < k && LastVerified(trace, steps, k, i, x) &&
        last == Assurance(steps[k].confidence, Some(steps[k].now));
      assert LastVerified(trace, steps, k, i + 1, x);
    }
  }

  /** What is known at step i of the row that step j added. */
  ghost predicate Traced(trace: seq<State>, steps: seq<Step>, j: nat, i: nat, x: Id, given: Record)
    requires j < i <= |steps| < |trace|
  {
    x in trace[i].records && Given(trace[j], steps[j], x, given) && Preserved(given, trace[i].records[x]) &&
    Assured(trace, steps, j, i, x, AssuranceOf(given), AssuranceOf(trace[i].records[x]))
  }

  lemma TracedStep(trace: seq<State>, steps: seq<Step>, j: nat, i: nat, x: Id, given: Record)
    requires j < i < |steps| && |trace| == |steps| + 1 && Moves(trace, steps, i) && Issued(trace[i])
    requires Traced(trace, steps, j, i, x, given) && x in trace[i + 1].records
    ensures Traced(trace, steps, j, i + 1, x, given)
  {
    StepPreserves(trace[i], steps[i], x);
    AssuredStep(trace, steps, j, i, x, AssuranceOf(given), AssuranceOf(trace[i].records[x]));
  }

  lemma TracedFirst(trace: seq<State>, steps: seq<Step>, j: nat, x: Id)
    requires j < |steps| && |trace| == |steps| + 1 && Moves(trace, steps, j) && Issued(trace[j])
    requires References(trace[j].records)
    requires x !in trace[j].records && x in trace[j + 1].records
    ensures Traced(trace, steps, j, j + 1, x, trace[j + 1].records[x])
  {
    StepAddsGiven(trace[j], steps[j], x);
  }

  /** Over every run of every transaction: a row says what the step that added it was given, confidence and time
      of verification are those of its last verification, or else the given ones. */
  lemma {:induction false} RowIsAsGiven(trace: seq<State>, steps: seq<Step>, i: nat, x: Id)
    returns (j: nat, given: Record)
    requires IsRun(trace, steps) && trace[0] == EMPTY && i < |trace| && x in trace[i].records
    ensures j < i && Traced(trace, steps, j, i, x, given)
  {
    assert i > 0;
    ReferencesNeverDangle(trace, steps, i - 1);
    assert Moves(trace, steps, i - 1);
    if x in trace[i - 1].records {
      j, given := RowIsAsGiven(trace, steps, i - 1, x);
      TracedStep(trace, steps, j, i - 1, x, given);
    } else {
      j, given := i - 1, trace[i].records[x];
      TracedFirst(trace, steps, j, x);
    }
  }

  // ---------------------------------------------------------------- seen through time travel

  /** After a main-line supersession every instant from its start on shows the given content, and not the
      replaced row; every instant before shows what it showed, but the replaced row without its later end. */
  lemma SupersessionIsShown(s: State, id: Id, prior: Id, own: Key, content: Content, from: int, branch: Option<Id>,
                            now: int, at: int)
    requires Supersede(s, id, prior, own, content, from, branch, now).result.Ok? && id !in s.records
    requires EffectiveBranch(s, own, branch).None?
    ensures var told := TimeTravel(Supersede(s, id, prior, own, content, from, branch, now).state.records, own, at);
      (at >= from ==> id in told && told[id].content == content && prior !in told) &&
      (at < from ==> id !in told) &&
      (at < from ==> (prior in told <==> OnMain(s.records[prior]) && s.records[prior].validFrom <= at)) &&
      forall x | x != id && x != prior ::
        (x in told <==> x in TimeTravel(s.records, own, at)) && (x in told ==> told[x] == s.records[x])
  {
  }

  /** After a supersession by an existing row the replaced one is shown up to the start of that row; or, for a row
      that starts at zero, up to its creation; or up to now. The existing row is shown as before. */
  lemma ExistingIsShown(s: State, prior: Id, next: Id, own: Key, now: int, at: int)
    requires SupersedeExisting(s, prior, next, own, now).result.Ok?
    ensures var told := TimeTravel(SupersedeExisting(s, prior, next, own, now).state.records, own, at);
      var r, n := s.records[prior], s.records[next];
      (prior in told <==>
        OnMain(r) && r.validFrom <= at &&
        (n.validFrom != 0 ==> at < n.validFrom) && (n.validFrom == 0 != n.createdAt ==> at < n.createdAt) &&
        (n.validFrom == n.createdAt == 0 ==> at < now)) &&
      forall x | x != prior ::
        (x in told <==> x in TimeTravel(s.records, own, at)) && (x in told ==> told[x] == s.records[x])
  {
  }

  /** The holder of the content from which on a merged row speaks: an existing one, or the one added now. */
  function HolderStart(rows: map<Id, Record>, choice: Id, now: int): int {
    if choice in rows && rows[choice].validFrom != 0 then rows[choice].validFrom else now
  }

  /** When one pass of a merge retires a parent, the parent is shown up to the start of the row that took over, and
      an added row from now on; all other rows as before. */
  lemma MergedRowIsShown(rows: map<Id, Record>, issued: set<Id>, c: Merging, id: Id, row: Record, choice: Id, at: int)
    requires rows.Keys <= issued && Supplied(rows, issued, c, row, choice) && Verdict(rows, c, row, choice).Merged?
    requires row.parent.Some? && row.parent.value != choice
    ensures var told := TimeTravel(MergeRow(rows, c, id, row, choice), c.key, at);
      (row.parent.value in told <==>
        rows[row.parent.value].validFrom <= at && at < HolderStart(rows, choice, c.now)) &&
      (choice !in rows ==> (choice in told <==> c.now <= at) && (choice in told ==>
        told[choice].content == row.content)) &&
      forall x | x != row.parent.value && x in rows ::
        (x in told <==> x in TimeTravel(rows, c.key, at)) && (x in told ==> told[x] == rows[x])
  {
    PromotedHolds(rows, issued, c, id, row, choice);
  }

  // ---------------------------------------------------------------- what a snapshot's version tells

  lemma {:induction false} BranchStays(trace: seq<State>, steps: seq<Step>, i: nat, j: nat, x: Id)
    requires IsRun(trace, steps) && i <= j < |trace| && Issued(trace[i])
    requires x in trace[i].records && x in trace[j].records
    ensures trace[j].records[x].branch == trace[i].records[x].branch
  {
    if i < j {
      Supersession.RowWasThere(trace, steps, i, j, x);
      assert Moves(trace, steps, j - 1);
      BranchStays(trace, steps, i, j - 1, x);
      StepPreserves(trace[j - 1], steps[j - 1], x);
    }
  }

  lemma {:induction false} VersionTells(trace: seq<State>, steps: seq<Step>, i: nat, j: nat, key: Key)
    requires IsRun(trace, steps) && i <= j < |trace| && Issued(trace[i])
    ensures Gate.Version(trace[i], key) <= Gate.Version(trace[j], key)
    ensures Gate.Version(trace[i], key) == Gate.Version(trace[j], key) ==>
            Gate.NamespaceRows(trace[i], key) == Gate.NamespaceRows(trace[j], key)
  {
    if i < j {
      VersionTells(trace, steps, i, j - 1, key);
      Supersession.RunIssues(trace, steps, i, j - 1);
      assert Moves(trace, steps, j - 1);
      Gate.StepVersion(trace[j - 1], steps[j - 1], key);
    }
  }

  /** Row x of the namespace is in the manifest. */
  predicate ListedOwn(s: State, manifest: set<Id>, key: Key, x: Id) {
    x in manifest && x in s.records && s.records[x].key == key
  }

  lemma ListedOwnIff(s: State, key: Key, x: Id)
    ensures ListedOwn(s, Manifest(s.records, key), key, x) <==>
      x in Gate.NamespaceRows(s, key) && Gate.NamespaceRows(s, key)[x].status.Active? && OnMain(s.records[x])
  {
  }

  /** In any run snapshots of one namespace carry versions that never fall, and two with the same version list the
      same rows of the namespace. */
  lemma SnapshotVersionTells(trace: seq<State>, steps: seq<Step>, i: nat, j: nat)
    requires IsRun(trace, steps) && trace[0] == EMPTY && i < j < |steps|
    requires steps[i].SnapshotStep? && steps[j].SnapshotStep? && steps[i].key == steps[j].key
    ensures steps[i].id in trace[i + 1].snapshots && steps[j].id in trace[j + 1].snapshots
    ensures var a, b := trace[i + 1].snapshots[steps[i].id], trace[j + 1].snapshots[steps[j].id];
      a.version <= b.version &&
      (a.version == b.version ==>
        forall x :: ListedOwn(trace[i], a.manifest, steps[i].key, x) <==>
                    ListedOwn(trace[j], b.manifest, steps[i].key, x))
  {
    var key := steps[i].key;
    Supersession.RunIssues(trace, steps, 0, i);
    VersionTells(trace, steps, i, j, key);
    assert Moves(trace, steps, i) && Moves(trace, steps, j);
    var a, b := trace[i + 1].snapshots[steps[i].id], trace[j + 1].snapshots[steps[j].id];
    if a.version == b.version {
      forall x ensures ListedOwn(trace[i], a.manifest, key, x) <==> ListedOwn(trace[j], b.manifest, key, x) {
        ListedOwnIff(trace[i], key, x);
        ListedOwnIff(trace[j], key, x);
        assert x in Gate.NamespaceRows(trace[i], key) <==> x in Gate.NamespaceRows(trace[j], key);
        if x in trace[i].records && x in trace[j].records { BranchStays(trace, steps, i, j, x); }
      }
    }
  }
}
