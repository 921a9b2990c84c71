/** The merge loop: it resolves branch rows one by one against a main line that it is itself changing.
    Its verdicts have a closed form in terms of the main line as it was before the loop. */
module BranchMerge {
  import opened Prelude
  import opened Records
  import opened Transactions
  import opened MergeFacts
  import opened Runs

  // ---------------------------------------------------------------- references never dangle

  ghost predicate References(rows: map<Id, Record>) {
    forall id :: id in rows ==> RefersTo(rows[id], rows.Keys)
  }

  ghost predicate RefersTo(r: Record, ids: set<Id>) {
    (r.parent.Some? ==> r.parent.value in ids) && (r.supersededBy.Some? ==> r.supersededBy.value in ids)
  }

  lemma {:induction false} MergeReferences(rows: map<Id, Record>, issued: set<Id>, c: Merging, ids: seq<Id>,
                                           choices: seq<Id>)
    requires rows.Keys <= issued && Listed(rows, ids, choices) && AllSupplied(rows, issued, c, ids, choices) &&
             References(rows)
    ensures References(MergeRows(rows, c, ids, choices))
  {
    if ids != [] {
      var n := |ids| - 1;
      SuppliedPrefix(rows, issued, c, ids, choices, n);
      MergeReferences(rows, issued, c, ids[..n], choices[..n]);
      MergeRowsKeys(rows, issued, c, ids[..n], choices[..n]);
      assert SuppliedAt(rows, issued, c, ids, choices, n);
    }
  }

  lemma WithoutReferences(rows: map<Id, Record>, gone: Id)
    requires References(rows)
    ensures References(Without(rows, gone))
  {
    var after := Without(rows, gone);
    forall x | x in after ensures RefersTo(after[x], after.Keys) {
      assert RefersTo(rows[x], rows.Keys);
    }
  }

  /** Steps that write successors or parents. */
  predicate Links(step: Step) {
    step.CreateStep? || step.SupersedeStep? || step.ExistingStep?
  }

  /** A row whose references hold, put into the table. */
  lemma AddedReference(rows: map<Id, Record>, id: Id, r: Record)
    requires References(rows) && RefersTo(r, rows.Keys + {id})
    ensures References(rows[id := r])
  {
    var after := rows[id := r];
    forall x | x in after ensures RefersTo(after[x], after.Keys) {
      if x != id { assert RefersTo(rows[x], rows.Keys); }
    }
  }

  lemma CreateReferences(s: State, id: Id, key: Key, m: NewMemory, clock: int)
    requires References(s.records)
    ensures References(Create(s, id, key, m, clock).state.records)
  {
    if Create(s, id, key, m, clock).result.Ok? { AddedReference(s.records, id, CreatedRecord(s, key, m, clock)); }
  }

  lemma SupersedeReferences(s: State, id: Id, prior: Id, key: Key, content: Content, from: int, branch: Option<Id>,
                            now: int)
    requires References(s.records)
    ensures References(Supersede(s, id, prior, key, content, from, branch, now).state.records)
  {
    if Supersede(s, id, prior, key, content, from, branch, now).result.Ok? {
      var target := EffectiveBranch(s, key, branch);
      var row := ReplacementRecord(key, content, from, target, prior, now);
      AddedReference(s.records, id, row);
      if target.None? {
        assert RefersTo(s.records[prior], s.records.Keys);
        AddedReference(s.records[id := row], prior, Retired(s.records[prior], from, id, now));
      }
    }
  }

  lemma ExistingReferences(s: State, prior: Id, next: Id, key: Key, now: int)
    requires References(s.records)
    ensures References(SupersedeExisting(s, prior, next, key, now).state.records)
  {
    if SupersedeExisting(s, prior, next, key, now).result.Ok? {
      assert RefersTo(s.records[prior], s.records.Keys);
      AddedReference(s.records, prior, Replaced(s.records[prior], ReplacementStart(s.records[next], now), next, now));
    }
  }

  lemma PlainStepKeepsReferences(s: State, step: Step, x: Id)
    requires Enabled(s, step) && !Links(step) && !step.MergeStep? && !step.ForgetStep?
    ensures x in Apply(s, step).records <==> x in s.records
    ensures x in s.records ==>
      Apply(s, step).records[x].parent == s.records[x].parent &&
      Apply(s, step).records[x].supersededBy == s.records[x].supersededBy
  {
  }

  lemma PlainStepReferences(s: State, step: Step)
    requires Enabled(s, step) && References(s.records)
    requires !Links(step) && !step.MergeStep? && !step.ForgetStep?
    ensures References(Apply(s, step).records)
  {
    var after := Apply(s, step).records;
    forall x
      ensures x in after <==> x in s.records
      ensures x in s.records ==>
        after[x].parent == s.records[x].parent && after[x].supersededBy == s.records[x].supersededBy
    {
      PlainStepKeepsReferences(s, step, x);
    }
    SameReferences(s.records, after);
  }

  lemma SameReferences(rows: map<Id, Record>, after: map<Id, Record>)
    requires References(rows) && forall x :: x in after <==> x in rows
    requires forall x :: x in rows ==>
      after[x].parent == rows[x].parent && after[x].supersededBy == rows[x].supersededBy
    ensures References(after)
  {
    assert after.Keys == rows.Keys;
    forall x | x in after ensures RefersTo(after[x], after.Keys) { assert RefersTo(rows[x], rows.Keys); }
  }

  lemma StepReferences(s: State, step: Step)
    requires Enabled(s, step) && Issued(s) && References(s.records)
    ensures References(Apply(s, step).records)
  {
    if step.MergeStep? {
      MergeReferences(s.records, s.issued, Merging(step.key, step.strategy == "verified_only", step.now), step.ids,
                      step.choices);
    } else if step.ForgetStep? {
      WithoutReferences(s.records, step.id);
    } else if step.CreateStep? {
      CreateReferences(s, step.id, step.key, step.memory, step.now);
    } else if step.SupersedeStep? {
      SupersedeReferences(s, step.id, step.prior, step.key, step.content, step.validFrom, step.branch, step.now);
    } else if step.ExistingStep? {
      ExistingReferences(s, step.prior, step.next, step.key, step.now);
    } else {
      PlainStepReferences(s, step);
    }
  }

  // ---------------------------------------------------------------- one hash, one row

  predicate Current(r: Record, key: Key) {
    r.key == key && OnMain(r) && r.status.Active?
  }

  predicate SameClaim(a: Record, b: Record, key: Key) {
    Current(a, key) && Current(b, key) && a.content.hash == b.content.hash
  }

  /** No two active main-line rows of the namespace say the same thing. */
  ghost predicate UniqueHashes(rows: map<Id, Record>, key: Key) {
    forall a, b :: a in rows && b in rows && SameClaim(rows[a], rows[b], key) ==> a == b
  }

  lemma MergeRowUnique(rows: map<Id, Record>, issued: set<Id>, c: Merging, id: Id, row: Record, choice: Id)
    requires rows.Keys <= issued && Supplied(rows, issued, c, row, choice) && UniqueHashes(rows, c.key)
    ensures UniqueHashes(MergeRow(rows, c, id, row, choice), c.key)
  {
    var promoted := Promote(rows, c, id, row, choice);
    assert UniqueHashes(promoted, c.key) by {
      if Holders(rows, c.key, row.content.hash) == {} {
        forall x | x in rows && Current(rows[x], c.key) ensures rows[x].content.hash != row.content.hash {
          assert x !in Holders(rows, c.key, row.content.hash);
        }
      }
    }
  }

  // ---------------------------------------------------------------- what the loop may assume

  ghost predicate Ready(rows: map<Id, Record>, issued: set<Id>, c: Merging, ids: seq<Id>, choices: seq<Id>) {
    rows.Keys <= issued && Listed(rows, ids, choices) && AllSupplied(rows, issued, c, ids, choices) &&
    (forall id :: id in ids ==> rows[id].branch.Some?) && References(rows)
  }

  function RowsAt(rows: map<Id, Record>, c: Merging, ids: seq<Id>, choices: seq<Id>, i: nat): map<Id, Record>
    requires Listed(rows, ids, choices) && i <= |ids|
  {
    MergeRows(rows, c, ids[..i], choices[..i])
  }

  /** One turn of the loop. */
  lemma Turn(rows: map<Id, Record>, issued: set<Id>, c: Merging, ids: seq<Id>, choices: seq<Id>, i: nat)
    requires Ready(rows, issued, c, ids, choices) && i < |ids|
    ensures var before := RowsAt(rows, c, ids, choices, i);
      before.Keys <= issued + Elements(choices[..i]) &&
      Supplied(before, issued + Elements(choices[..i]), c, rows[ids[i]], choices[i]) &&
      RowsAt(rows, c, ids, choices, i + 1) == MergeRow(before, c, ids[i], rows[ids[i]], choices[i])
  {
    SuppliedPrefix(rows, issued, c, ids, choices, i);
    MergeRowsKeys(rows, issued, c, ids[..i], choices[..i]);
    assert SuppliedAt(rows, issued, c, ids, choices, i);
    assert ids[..i + 1][..i] == ids[..i] && choices[..i + 1][..i] == choices[..i];
  }

  /** Uniqueness of content hashes among active main-line rows survives the merge. */
  lemma {:induction false} MergeKeepsHashesUnique(rows: map<Id, Record>, issued: set<Id>, c: Merging, ids: seq<Id>,
                                                  choices: seq<Id>, i: nat)
    requires Ready(rows, issued, c, ids, choices) && UniqueHashes(rows, c.key) && i <= |ids|
    ensures UniqueHashes(RowsAt(rows, c, ids, choices, i), c.key)
  {
    if i > 0 {
      MergeKeepsHashesUnique(rows, issued, c, ids, choices, i - 1);
      Turn(rows, issued, c, ids, choices, i - 1);
      MergeRowUnique(RowsAt(rows, c, ids, choices, i - 1), issued + Elements(choices[..i - 1]), c, ids[i - 1],
                     rows[ids[i - 1]], choices[i - 1]);
    }
  }

  /** The row changes from turn i to turn j as MergeFacts.Evolves says. */
  lemma {:induction false} BetweenTurns(rows: map<Id, Record>, issued: set<Id>, c: Merging, ids: seq<Id>,
                                        choices: seq<Id>, i: nat, j: nat, x: Id)
    requires Ready(rows, issued, c, ids, choices) && i <= j <= |ids| && x in RowsAt(rows, c, ids, choices, i)
    ensures x in RowsAt(rows, c, ids, choices, j)
    ensures Evolves(RowsAt(rows, c, ids, choices, i)[x], RowsAt(rows, c, ids, choices, j)[x], c.now)
  {
    if i < j {
      BetweenTurns(rows, issued, c, ids, choices, i, j - 1, x);
      Turn(rows, issued, c, ids, choices, j - 1);
    }
  }

  // ---------------------------------------------------------------- verdicts

  /** Row i, when its turn comes, asks for its parent to be replaced by another row. */
  ghost predicate Replaces(rows: map<Id, Record>, c: Merging, ids: seq<Id>, choices: seq<Id>, i: nat, p: Id)
    requires Listed(rows, ids, choices) && i < |ids|
  {
    OutcomeAt(rows, c, ids, choices, i).Merged? && rows[ids[i]].parent == Some(p) && choices[i] != p
  }

  lemma ReplacingLoses(rows: map<Id, Record>, issued: set<Id>, c: Merging, ids: seq<Id>, choices: seq<Id>, i: nat,
                       p: Id)
    requires Ready(rows, issued, c, ids, choices) && i < |ids| && Replaces(rows, c, ids, choices, i, p)
    ensures var after := RowsAt(rows, c, ids, choices, i + 1);
      p in after && !Replaceable(after, c, p) && after[p].supersededBy == Some(choices[i])
  {
    Turn(rows, issued, c, ids, choices, i);
    var before := RowsAt(rows, c, ids, choices, i);
    PromotedHolds(before, issued + Elements(choices[..i]), c, ids[i], rows[ids[i]], choices[i]);
  }

  /** A main-line parent is replaced by at most one row of the merge. */
  lemma ParentIsReplacedOnce(rows: map<Id, Record>, issued: set<Id>, c: Merging, ids: seq<Id>, choices: seq<Id>, i: nat,
                             j: nat, p: Id)
    requires Ready(rows, issued, c, ids, choices) && i < j < |ids|
    requires Replaces(rows, c, ids, choices, i, p)
    ensures !Replaces(rows, c, ids, choices, j, p)
  {
    ReplacingLoses(rows, issued, c, ids, choices, i, p);
    BetweenTurns(rows, issued, c, ids, choices, i + 1, j, p);
  }

  /** An earlier eligible row with the same parent and something else to say. */
  ghost predicate Overtaken(rows: map<Id, Record>, c: Merging, ids: seq<Id>, i: nat, p: Id)
    requires i <= |ids| && p in rows && forall id :: id in ids ==> id in rows
  {
    exists j :: 0 <= j < i && Contends(rows, c, rows[ids[j]], p)
  }

  predicate Contends(rows: map<Id, Record>, c: Merging, row: Record, p: Id)
    requires p in rows
  {
    Eligible(c, row) && row.parent == Some(p) && row.content.hash != rows[p].content.hash
  }

  lemma OvertakenByLast(rows: map<Id, Record>, c: Merging, ids: seq<Id>, i: nat, p: Id)
    requires 0 < i <= |ids| && p in rows && forall id :: id in ids ==> id in rows
    ensures Overtaken(rows, c, ids, i, p) <==>
            Overtaken(rows, c, ids, i - 1, p) || Contends(rows, c, rows[ids[i - 1]], p)
  {
    assert ids[i - 1] in ids;
  }

  lemma ContendsAlike(rows: map<Id, Record>, before: map<Id, Record>, c: Merging, row: Record, p: Id)
    requires p in rows && p in before && Evolves(rows[p], before[p], c.now)
    ensures Contends(rows, c, row, p) <==> Contends(before, c, row, p)
  {
  }

  /** A parent that was free before the loop is still free at turn i unless an earlier row took it. */
  lemma {:induction false} FreeUnlessOvertaken(rows: map<Id, Record>, issued: set<Id>, c: Merging, ids: seq<Id>,
                                               choices: seq<Id>, i: nat, p: Id)
    requires Ready(rows, issued, c, ids, choices) && UniqueHashes(rows, c.key) && i <= |ids| && Replaceable(rows, c, p)
    ensures Replaceable(RowsAt(rows, c, ids, choices, i), c, p) <==> !Overtaken(rows, c, ids, i, p)
  {
    if i > 0 {
      FreeUnlessOvertaken(rows, issued, c, ids, choices, i - 1, p);
      Turn(rows, issued, c, ids, choices, i - 1);
      MergeKeepsHashesUnique(rows, issued, c, ids, choices, i - 1);
      BetweenTurns(rows, issued, c, ids, choices, 0, i - 1, p);
      ContendsAlike(rows, RowsAt(rows, c, ids, choices, i - 1), c, rows[ids[i - 1]], p);
      OvertakenByLast(rows, c, ids, i, p);
      FreeAfterTurn(RowsAt(rows, c, ids, choices, i - 1), issued + Elements(choices[..i - 1]), c, ids[i - 1],
                    rows[ids[i - 1]], choices[i - 1], p);
    }
  }

  lemma FreeAfterTurn(rows: map<Id, Record>, issued: set<Id>, c: Merging, id: Id, row: Record, choice: Id, p: Id)
    requires rows.Keys <= issued && Supplied(rows, issued, c, row, choice) && UniqueHashes(rows, c.key) && p in rows
    ensures Replaceable(MergeRow(rows, c, id, row, choice), c, p) <==>
            Replaceable(rows, c, p) && !Contends(rows, c, row, p)
  {
    if Replaceable(rows, c, p) && Eligible(c, row) && row.parent == Some(p) {
      PromotedHolds(rows, issued, c, id, row, choice);
      if row.content.hash == rows[p].content.hash {
        assert p in Holders(rows, c.key, row.content.hash);
        assert choice == p;
      } else {
        assert choice != p;
      }
    }
  }

  /** Verdicts in closed form: skipped if the strategy rejects the row; in conflict if it names a parent
      that was not free before the merge, or that an earlier row overtook; merged otherwise. */
  lemma VerdictsInClosedForm(rows: map<Id, Record>, issued: set<Id>, c: Merging, ids: seq<Id>, choices: seq<Id>, i: nat)
    requires Ready(rows, issued, c, ids, choices) && UniqueHashes(rows, c.key) && i < |ids|
    ensures var row := rows[ids[i]];
      OutcomeAt(rows, c, ids, choices, i) ==
        if c.verifiedOnly && row.verifiedAt.None? &&
           row.content.trust !in {"user_directive", "verified_system_fact", "tool_result"} then Skipped
        else if row.parent.Some? &&
                (!Replaceable(rows, c, row.parent.value) || Overtaken(rows, c, ids, i, row.parent.value))
        then Conflicted
        else Merged(choices[i])
  {
    var row := rows[ids[i]];
    assert RefersTo(row, rows.Keys);
    if row.parent.Some? {
      var p := row.parent.value;
      if Replaceable(rows, c, p) {
        FreeUnlessOvertaken(rows, issued, c, ids, choices, i, p);
      } else {
        BetweenTurns(rows, issued, c, ids, choices, 0, i, p);
      }
    }
  }

  lemma {:induction false} OutcomesInOrder(rows: map<Id, Record>, c: Merging, ids: seq<Id>, choices: seq<Id>, i: nat)
    requires Listed(rows, ids, choices) && i < |ids|
    ensures Outcomes(rows, c, ids, choices)[i] == OutcomeAt(rows, c, ids, choices, i)
  {
    var n := |ids| - 1;
    if i < n {
      OutcomesInOrder(rows, c, ids[..n], choices[..n], i);
      assert ids[..n][..i] == ids[..i] && choices[..n][..i] == choices[..i];
    }
  }

  /** The report files the row under its outcome and no other. */
  ghost predicate TalliedAt(t: MergeReport, id: Id, outcome: Outcome) {
    (id in t.skipped <==> outcome.Skipped?) && (id in t.conflicted <==> outcome.Conflicted?) &&
    (outcome.Merged? ==> outcome.target in t.merged)
  }

  lemma {:induction false} TallyAddsUp(ids: seq<Id>, outcomes: seq<Outcome>)
    requires |ids| == |outcomes|
    ensures var t := Tally(ids, outcomes);
      |t.merged| + |t.skipped| + |t.conflicted| == |ids| &&
      forall id :: id in t.skipped || id in t.conflicted ==> id in ids
  {
    if ids != [] {
      var n := |ids| - 1;
      TallyAddsUp(ids[..n], outcomes[..n]);
      assert ids == ids[..n] + [ids[n]];
    }
  }

  /** Conservation: the report lists exactly the skipped and the conflicting rows, each once, and a target
      for every other row. */
  lemma {:induction false} EveryRowIsTallied(ids: seq<Id>, outcomes: seq<Outcome>)
    requires |ids| == |outcomes| && Distinct(ids)
    ensures var t := Tally(ids, outcomes);
      |t.merged| + |t.skipped| + |t.conflicted| == |ids| &&
      Distinct(t.skipped) && Distinct(t.conflicted) &&
      (forall id :: id in t.skipped || id in t.conflicted ==> id in ids) &&
      forall i :: 0 <= i < |ids| ==> TalliedAt(t, ids[i], outcomes[i])
  {
    TallyAddsUp(ids, outcomes);
    if ids != [] {
      var n := |ids| - 1;
      var was, t := Tally(ids[..n], outcomes[..n]), Tally(ids, outcomes);
      EveryRowIsTallied(ids[..n], outcomes[..n]);
      assert ids[n] !in ids[..n];
      TalliedLast(was, ids[n], outcomes[n]);
      forall i | 0 <= i < n ensures TalliedAt(t, ids[i], outcomes[i]) {
        assert TalliedAt(was, ids[..n][i], outcomes[..n][i]);
        TalliedStays(was, ids[i], outcomes[i], ids[n], outcomes[n]);
      }
    }
  }

  lemma TalliedLast(t: MergeReport, id: Id, outcome: Outcome)
    requires id !in t.skipped && id !in t.conflicted && Distinct(t.skipped) && Distinct(t.conflicted)
    ensures TalliedAt(Push(t, id, outcome), id, outcome)
    ensures Distinct(Push(t, id, outcome).skipped) && Distinct(Push(t, id, outcome).conflicted)
  {
  }

  lemma TalliedStays(t: MergeReport, id: Id, outcome: Outcome, other: Id, last: Outcome)
    requires TalliedAt(t, id, outcome) && id != other
    ensures TalliedAt(Push(t, other, last), id, outcome)
  {
  }

  // ---------------------------------------------------------------- merging again

  /** Merging the row changes nothing. */
  predicate Quiet(rows: map<Id, Record>, c: Merging, row: Record) {
    !Eligible(c, row) || ParentLost(rows, c, row) ||
    var holders := Holders(rows, c.key, row.content.hash);
    holders != {} && (row.parent.None? || holders == {row.parent.value})
  }

  lemma {:induction false} QuietRowsChangeNothing(rows: map<Id, Record>, issued: set<Id>, c: Merging, ids: seq<Id>,
                                                  choices: seq<Id>)
    requires Listed(rows, ids, choices) && AllSupplied(rows, issued, c, ids, choices)
    requires forall id :: id in ids ==> Quiet(rows, c, rows[id])
    ensures MergeRows(rows, c, ids, choices) == rows
  {
    if ids != [] {
      var n := |ids| - 1;
      SuppliedPrefix(rows, issued, c, ids, choices, n);
      QuietRowsChangeNothing(rows, issued, c, ids[..n], choices[..n]);
      assert SuppliedAt(rows, issued, c, ids, choices, n);
      assert Quiet(rows, c, rows[ids[n]]);
    }
  }

  /** Once its turn has passed, a row that has a parent stays quiet. */
  lemma QuietAfterTurn(rows: map<Id, Record>, issued: set<Id>, c: Merging, ids: seq<Id>, choices: seq<Id>, i: nat)
    requires Ready(rows, issued, c, ids, choices) && UniqueHashes(rows, c.key) && i < |ids| && rows[ids[i]].parent.Some?
    ensures Quiet(RowsAt(rows, c, ids, choices, |ids|), c, rows[ids[i]])
  {
    var row := rows[ids[i]];
    var p := row.parent.value;
    assert RefersTo(row, rows.Keys);
    BetweenTurns(rows, issued, c, ids, choices, 0, i, p);
    BetweenTurns(rows, issued, c, ids, choices, i, |ids|, p);
    if OutcomeAt(rows, c, ids, choices, i).Merged? {
      if choices[i] != p {
        ReplacingLoses(rows, issued, c, ids, choices, i, p);
        BetweenTurns(rows, issued, c, ids, choices, i + 1, |ids|, p);
      } else {
        Turn(rows, issued, c, ids, choices, i);
        MergeKeepsHashesUnique(rows, issued, c, ids, choices, |ids|);
        var last := RowsAt(rows, c, ids, choices, |ids|);
        if !ParentLost(last, c, row) {
          assert p in Holders(last, c.key, row.content.hash);
          assert Holders(last, c.key, row.content.hash) == {p};
        }
      }
    }
  }

  lemma {:induction false} RowsAtGrows(rows: map<Id, Record>, issued: set<Id>, c: Merging, ids: seq<Id>,
                                       choices: seq<Id>, i: nat, j: nat)
    requires Ready(rows, issued, c, ids, choices) && i <= j <= |ids|
    ensures RowsAt(rows, c, ids, choices, i).Keys <= RowsAt(rows, c, ids, choices, j).Keys
  {
    forall x | x in RowsAt(rows, c, ids, choices, i) ensures x in RowsAt(rows, c, ids, choices, j) {
      BetweenTurns(rows, issued, c, ids, choices, i, j, x);
    }
  }

  /** A merge that meets an eligible row without a parent whose content nobody holds adds a row. */
  lemma {:induction false} LoudRowAddsARow(rows: map<Id, Record>, issued: set<Id>, c: Merging, ids: seq<Id>,
                                           choices: seq<Id>, i: nat)
    requires Ready(rows, issued, c, ids, choices) && i < |ids|
    requires Eligible(c, rows[ids[i]]) && rows[ids[i]].parent.None? &&
             Holders(rows, c.key, rows[ids[i]].content.hash) == {}
    ensures MergeRows(rows, c, ids, choices) != rows
  {
    assert RowsAt(rows, c, ids, choices, |ids|) == MergeRows(rows, c, ids, choices) by {
      assert ids[..|ids|] == ids && choices[..|ids|] == choices;
    }
    if RowsAt(rows, c, ids, choices, i) == rows {
      Turn(rows, issued, c, ids, choices, i);
      assert choices[i] in RowsAt(rows, c, ids, choices, i + 1) && choices[i] !in rows;
      RowsAtGrows(rows, issued, c, ids, choices, i + 1, |ids|);
    } else {
      ChangeShows(rows, issued, c, ids, choices, i);
    }
  }

  /** A change made by the first turns is never undone by the later ones. */
  lemma ChangeShows(rows: map<Id, Record>, issued: set<Id>, c: Merging, ids: seq<Id>, choices: seq<Id>, i: nat)
    requires Ready(rows, issued, c, ids, choices) && i <= |ids| && RowsAt(rows, c, ids, choices, i) != rows
    ensures RowsAt(rows, c, ids, choices, |ids|) != rows
  {
    var mid := RowsAt(rows, c, ids, choices, i);
    RowsAtGrows(rows, issued, c, ids, choices, 0, i);
    RowsAtGrows(rows, issued, c, ids, choices, i, |ids|);
    assert mid.Keys == rows.Keys && (forall x :: x in rows ==> mid[x] == rows[x]) ==> mid == rows;
    var x :| x in mid && (x !in rows || mid[x] != rows[x]);
    if x in rows {
      BetweenTurns(rows, issued, c, ids, choices, 0, i, x);
      BetweenTurns(rows, issued, c, ids, choices, i, |ids|, x);
    }
  }

  function MergingOf(step: Step): Merging
    requires step.MergeStep?
  {
    Merging(step.key, step.strategy == "verified_only", step.now)
  }

  /** `second` merges the branch that `first` has just merged, with the same strategy. */
  ghost predicate Repeats(s: State, first: Step, second: Step) {
    first.MergeStep? && second.MergeStep? && Enabled(s, first) && Issued(s) && References(s.records) &&
    OwnsBranch(s, first.key, first.merged) && first.strategy in {"verified_only", "all"} &&
    second.key == first.key && second.merged == first.merged && second.strategy == first.strategy &&
    Enabled(Apply(s, first), second) && UniqueHashes(s.records, first.key)
  }

  /** An eligible branch row without a parent whose content is no longer held on the main line. */
  predicate Orphaned(s: State, first: Step, after: State, id: Id)
    requires first.MergeStep? && id in s.records
  {
    Eligible(MergingOf(first), s.records[id]) && s.records[id].parent.None? &&
    Holders(after.records, first.key, s.records[id].content.hash) == {}
  }

  lemma RemergeSetting(s: State, first: Step, second: Step)
    requires Repeats(s, first, second)
    ensures var after := Apply(s, first);
      Ready(s.records, s.issued, MergingOf(first), first.ids, first.choices) &&
      Ready(after.records, after.issued, MergingOf(second), second.ids, second.choices) &&
      after.records == RowsAt(s.records, MergingOf(first), first.ids, first.choices, |first.ids|) &&
      Apply(after, second).records == MergeRows(after.records, MergingOf(second), second.ids, second.choices) &&
      (forall id :: id in second.ids <==> id in first.ids) &&
      (forall id :: id in first.ids ==> id in after.records && after.records[id] == s.records[id])
  {
    MergeRowsKeys(s.records, s.issued, MergingOf(first), first.ids, first.choices);
    MergeReferences(s.records, s.issued, MergingOf(first), first.ids, first.choices);
    SameBranchRows(s, first, second);
    assert first.ids[..|first.ids|] == first.ids && first.choices[..|first.ids|] == first.choices;
  }

  lemma RemergeQuiet(s: State, first: Step, second: Step)
    requires Repeats(s, first, second)
    requires forall id :: id in first.ids ==> !Orphaned(s, first, Apply(s, first), id)
    ensures Apply(Apply(s, first), second).records == Apply(s, first).records
  {
    RemergeSetting(s, first, second);
    var after := Apply(s, first);
    forall id | id in second.ids ensures Quiet(after.records, MergingOf(second), after.records[id]) {
      var i :| 0 <= i < |first.ids| && first.ids[i] == id;
      if s.records[id].parent.Some? {
        QuietAfterTurn(s.records, s.issued, MergingOf(first), first.ids, first.choices, i);
      }
    }
    QuietRowsChangeNothing(after.records, after.issued, MergingOf(second), second.ids, second.choices);
  }

  /** Merging a branch again with the same strategy creates and supersedes nothing exactly when the
      content of every eligible row without a parent is still held on the main line. */
  lemma RemergeIsQuietIff(s: State, first: Step, second: Step)
    requires Repeats(s, first, second)
    ensures Apply(Apply(s, first), second).records == Apply(s, first).records <==>
            forall id :: id in first.ids ==> !Orphaned(s, first, Apply(s, first), id)
  {
    if id :| id in first.ids && Orphaned(s, first, Apply(s, first), id) {
      RemergeSetting(s, first, second);
      var i :| 0 <= i < |second.ids| && second.ids[i] == id;
      LoudRowAddsARow(Apply(s, first).records, Apply(s, first).issued, MergingOf(second), second.ids, second.choices,
                      i);
    } else {
      RemergeQuiet(s, first, second);
    }
  }

  /** In particular a branch whose rows all have parents is merged once. */
  lemma RemergeOfParentedRows(s: State, first: Step, second: Step)
    requires Repeats(s, first, second) && forall id :: id in first.ids ==> s.records[id].parent.Some?
    ensures Apply(Apply(s, first), second).records == Apply(s, first).records
  {
    RemergeIsQuietIff(s, first, second);
  }

  lemma SameBranchRows(s: State, first: Step, second: Step)
    requires first.MergeStep? && second.MergeStep? && Enabled(s, first) && Issued(s) &&
             OwnsBranch(s, first.key, first.merged)
    requires second.key == first.key && second.merged == first.merged && first.strategy in {"verified_only", "all"}
    requires Enabled(Apply(s, first), second)
    ensures forall id :: id in second.ids <==> id in first.ids
    ensures forall id :: id in first.ids ==>
            id in Apply(s, first).records && Apply(s, first).records[id] == s.records[id]
  {
    var c := Merging(first.key, first.strategy == "verified_only", first.now);
    var after := Apply(s, first).records;
    forall id
      ensures id in second.ids <==> id in first.ids
      ensures id in first.ids ==> id in after && after[id] == s.records[id]
    {
      if id in s.records {
        MergeRowsEvolve(s.records, s.issued, c, first.ids, first.choices, id);
      } else if id in after {
        MergeRowsAdds(s.records, s.issued, c, first.ids, first.choices, id);
      }
    }
  }

  /** Replacing the only holder of a content by a row that says something else leaves it without holder. */
  lemma ReplacedHolderIsGone(rows: map<Id, Record>, issued: set<Id>, c: Merging, id: Id, row: Record, choice: Id,
                             e: Id)
    requires rows.Keys <= issued && Supplied(rows, issued, c, row, choice) && UniqueHashes(rows, c.key)
    requires e in rows && Replaceable(rows, c, e) && Eligible(c, row) && row.parent == Some(e) &&
             row.content.hash != rows[e].content.hash
    ensures Holders(MergeRow(rows, c, id, row, choice), c.key, rows[e].content.hash) == {}
  {
    var after, hash := MergeRow(rows, c, id, row, choice), rows[e].content.hash;
    PromotedHolds(rows, issued, c, id, row, choice);
    assert choice != e && !after[e].status.Active?;
    forall x | x in after ensures !Holds(after[x], c.key, hash) {
      if x in rows && x != e && x != choice { assert !SameClaim(rows[x], rows[e], c.key); }
    }
  }

  /** Without parents it is not: row `a` merges into the holder `e` of its content, row `b` then replaces
      `e`, and the next merge would bring the content of `a` back. */
  lemma OrphanComesBack(rows: map<Id, Record>, issued: set<Id>, c: Merging, a: Id, b: Id, e: Id, n: Id)
    requires a != b && Ready(rows, issued, c, [a, b], [e, n]) && UniqueHashes(rows, c.key)
    requires Eligible(c, rows[a]) && rows[a].parent.None? && e in rows && Replaceable(rows, c, e)
    requires rows[e].content.hash == rows[a].content.hash != rows[b].content.hash
    requires Eligible(c, rows[b]) && rows[b].parent == Some(e)
    ensures !Quiet(MergeRows(rows, c, [a, b], [e, n]), c, rows[a])
  {
    assert RowsAt(rows, c, [a, b], [e, n], 0) == rows;
    Turn(rows, issued, c, [a, b], [e, n], 0);
    Turn(rows, issued, c, [a, b], [e, n], 1);
    assert e in Holders(rows, c.key, rows[a].content.hash);
    assert RowsAt(rows, c, [a, b], [e, n], 1) == rows;
    assert [a, b][..2] == [a, b] && [e, n][..2] == [e, n];
    ReplacedHolderIsGone(rows, issued + Elements([e, n][..1]), c, b, rows[b], n, e);
  }

  /** No run of any transactions leaves a reference to a row that is not there. */
  lemma {:induction false} ReferencesNeverDangle(trace: seq<State>, steps: seq<Step>, i: nat)
    requires IsRun(trace, steps) && trace[0] == EMPTY && i < |trace|
    ensures References(trace[i].records) && Issued(trace[i])
  {
    if i > 0 {
      ReferencesNeverDangle(trace, steps, i - 1);
      assert Moves(trace, steps, i - 1);
      StepReferences(trace[i - 1], steps[i - 1]);
      if steps[i - 1].MergeStep? {
        MergeRowsKeys(trace[i - 1].records, trace[i - 1].issued, MergingOf(steps[i - 1]), steps[i - 1].ids,
                      steps[i - 1].choices);
      }
    }
  }
}
