/** The memory store itself: tables that its methods update in place. Each method is proved against the
    transaction of the same name in module Transactions. */
module Store {
  import opened Prelude
  import opened Records
  import opened Transactions
  import opened History
  import MergeFacts

  class SqlMemoryStore {
    var records: map<Id, Record>
    var snapshots: map<Id, Snapshot>
    var branches: map<Id, Branch>
    var namespaces: map<Key, Namespace>
    ghost var issued: set<Id>

    ghost function View(): State
      reads this
    {
      State(records, snapshots, branches, namespaces, issued)
    }

    constructor ()
      ensures View() == EMPTY
    {
      records, snapshots, branches, namespaces, issued := map[], map[], map[], map[], {};
    }

    method NamespaceInSession(key: Key) returns (ns: Namespace)
      modifies `namespaces
      ensures ns == NamespaceOf(old(View()), key) && View() == Touch(old(View()), key)
    {
      if key in namespaces {
        ns := namespaces[key];
        assert namespaces == namespaces[key := ns];
      } else {
        ns := NEW_NAMESPACE;
        namespaces := namespaces[key := ns];
      }
    }

    method BumpVersion(key: Key) returns (version: nat)
      modifies `namespaces
      ensures View() == Bump(old(View()), key) && version == NamespaceOf(View(), key).version
      ensures version == NamespaceOf(old(View()), key).version + 1
    {
      var ns := NamespaceInSession(key);
      version := ns.version + 1;
      namespaces := namespaces[key := ns.(version := version)];
    }

    method CreateMemory(id: Id, key: Key, m: NewMemory, clock: int) returns (r: Result<Id, Error>)
      requires id !in issued
      modifies this
      ensures Tx(View(), r) == Create(old(View()), id, key, m, clock)
    {
      if m.content.text == "" { return Err(BlankText); }
      if m.parent.Some? && m.parent.value !in records { return Err(ForeignKey); }
      var ns := NamespaceInSession(key);
      var row := NewRow(old(View()), key, m, clock, ns.activeBranch);
      InsertRow(id, key, row);
      r := Ok(id);
    }

    static method NewRow(ghost s: State, key: Key, m: NewMemory, clock: int, active: Option<Id>) returns (row: Record)
      requires active == NamespaceOf(s, key).activeBranch
      ensures row == CreatedRecord(s, key, m, clock)
    {
      var now := if m.createdAt.Some? then m.createdAt.value else clock;
      var updated := if m.updatedAt.Some? then m.updatedAt.value else now;
      var branch := m.branch;
      if branch.None? { branch := active; }
      var from := now;
      if m.validFrom.Some? { from := m.validFrom.value; }
      row := Record(key, m.content, m.status, from, m.validUntil, now, None, None,
                    branch, m.parent, m.verifiedAt, now, updated);
    }

    method InsertRow(id: Id, key: Key, row: Record)
      modifies this
      ensures View() == Bump(old(View()).(records := old(records)[id := row], issued := old(issued) + {id}), key)
    {
      records := records[id := row];
      issued := issued + {id};
      var _ := BumpVersion(key);
    }

    method SupersedeMemory(id: Id, prior: Id, key: Key, content: Content, validFrom: int, branch: Option<Id>, now: int)
      returns (r: Result<Id, Error>)
      requires id !in issued
      modifies this
      ensures Tx(View(), r) == Supersede(old(View()), id, prior, key, content, validFrom, branch, now)
    {
      if prior !in records || records[prior].key != key { return Err(NotFound); }
      var row := records[prior];
      if !row.status.Active? { return Err(NotActive); }
      var target := branch;
      if target.None? {
        var ns := NamespaceInSession(key);
        target := ns.activeBranch;
      }
      records := records[id := Record(key, content, Active, validFrom, None, now, None, None,
                                      target, Some(prior), None, now, now)];
      issued := issued + {id};
      if target.None? {
        row := row.(status := Superseded);
        row := row.(validUntil := Some(validFrom));
        row := row.(supersededAt := Some(now));
        row := row.(supersededBy := Some(id));
        row := row.(updatedAt := now);
        records := records[prior := row];
      }
      var _ := BumpVersion(key);
      r := Ok(id);
    }

    method SupersedeWithExisting(prior: Id, next: Id, key: Key, now: int) returns (r: Result<(), Error>)
      modifies this
      ensures Tx(View(), r) == SupersedeExisting(old(View()), prior, next, key, now)
    {
      if prior !in records || next !in records { return Err(NotFound); }
      if records[prior].key != key || records[next].key != key { return Err(NotFound); }
      if prior == next { return Err(SelfSupersede); }
      var n := records[next];
      var from := n.validFrom;
      if from == 0 { from := n.createdAt; }
      if from == 0 { from := now; }
      var row := records[prior].(status := Superseded, validUntil := Some(from), supersededBy := Some(next),
                                 updatedAt := now);
      records := records[prior := row];
      var _ := BumpVersion(key);
      r := Ok(());
    }

    method VerifyMemory(id: Id, key: Key, verifiedAt: int, confidence: int) returns (r: Result<(), Error>)
      modifies this
      ensures Tx(View(), r) == Verify(old(View()), id, key, verifiedAt, confidence)
    {
      if id !in records || records[id].key != key { return Err(NotFound); }
      var row := records[id].(verifiedAt := Some(verifiedAt));
      row := row.(content := row.content.(confidence := confidence));
      row := row.(updatedAt := verifiedAt);
      records := records[id := row];
      var _ := BumpVersion(key);
      r := Ok(());
    }

    method MergeSourceEvents(id: Id, now: int) returns (r: Result<(), Error>)
      modifies this
      ensures Tx(View(), r) == MergeSources(old(View()), id, now)
    {
      if id !in records { return Err(NotFound); }
      var row := records[id];
      records := records[id := row.(observedAt := now, updatedAt := now)];
      var _ := BumpVersion(row.key);
      r := Ok(());
    }

    method MarkDisputed(id: Id, key: Key, now: int) returns (r: Result<(), Error>)
      modifies this
      ensures Tx(View(), r) == SetStatus(old(View()), id, key, Disputed, now)
    {
      if id !in records || records[id].key != key { return Err(NotFound); }
      records := records[id := records[id].(status := Disputed, updatedAt := now)];
      var _ := BumpVersion(key);
      r := Ok(());
    }

    method BeginForget(id: Id, key: Key, now: int) returns (r: Result<(), Error>)
      modifies this
      ensures Tx(View(), r) == SetStatus(old(View()), id, key, Deleting, now)
    {
      if id !in records || records[id].key != key { return Err(NotFound); }
      records := records[id := records[id].(status := Deleting, updatedAt := now)];
      var _ := BumpVersion(key);
      r := Ok(());
    }

    method ForgetMemory(id: Id, key: Key) returns (r: Result<(), Error>)
      modifies this
      ensures Tx(View(), r) == Forget(old(View()), id, key)
    {
      if id !in records || records[id].key != key { return Err(NotFound); }
      records := map other | other in records && other != id :: Unlink(records[other], id);
      var _ := BumpVersion(key);
      r := Ok(());
    }

    method CreateSnapshot(id: Id, key: Key) returns (r: Result<Id, Error>)
      requires id !in issued
      modifies this
      ensures Tx(View(), r) == TakeSnapshot(old(View()), id, key)
    {
      var ns := NamespaceInSession(key);
      var ids := set x | x in records && records[x].key.user == key.user &&
                         (records[x].key.workspace == "" || records[x].key.workspace == key.workspace) &&
                         records[x].status.Active? && records[x].branch.None?;
      assert ids == Manifest(records, key);
      snapshots := snapshots[id := Snapshot(key, ns.version, ids)];
      issued := issued + {id};
      r := Ok(id);
    }

    method CreateBranch(id: Id, key: Key, name: string, from: Option<Id>, activate: bool) returns (r: Result<Id, Error>)
      requires id !in issued
      modifies this
      ensures Tx(View(), r) == MakeBranch(old(View()), id, key, name, from, activate)
    {
      if from.Some? && (from.value !in snapshots || snapshots[from.value].key != key) { return Err(NotFound); }
      if exists b :: b in branches && branches[b].key == key && branches[b].name == name { return Err(DuplicateName); }
      branches := branches[id := Branch(key, name, from, false)];
      issued := issued + {id};
      if activate {
        var ns := NamespaceInSession(key);
        namespaces := namespaces[key := Namespace(ns.version + 1, Some(id), from)];
      }
      r := Ok(id);
    }

    method RestoreSnapshot(id: Id, key: Key, snapshot: Id) returns (r: Result<Id, Error>)
      requires id !in issued
      modifies this
      ensures Tx(View(), r) == Restore(old(View()), id, key, snapshot)
    {
      if snapshot !in snapshots || snapshots[snapshot].key != key { return Err(NotFound); }
      r := CreateBranch(id, key, "restore-" + LastEight(snapshot), Some(snapshot), true);
    }

    method CompareSnapshots(key: Key, left: Id, right: Id) returns (r: Result<Diff, Error>)
      ensures r == Compare(View(), key, left, right)
    {
      if left !in snapshots || snapshots[left].key != key { return Err(NotFound); }
      if right !in snapshots || snapshots[right].key != key { return Err(NotFound); }
      var added := snapshots[right].manifest - snapshots[left].manifest;
      var removed := snapshots[left].manifest - snapshots[right].manifest;
      var changed := {};
      if added != {} && removed != {} {
        var pending := added;
        while pending != {}
          invariant pending <= added
          invariant changed == Replacements(records, added - pending, removed)
        {
          var id :| id in pending;
          if id in records && records[id].parent.Some? && records[id].parent.value in removed {
            changed := changed + {(records[id].parent.value, id)};
          }
          pending := pending - {id};
        }
        assert added - pending == added;
      } else {
        assert Replacements(records, added, removed) == {};
      }
      r := Ok(Diff(added, removed, changed));
    }

    method TimeTravelRecords(key: Key, at: int, known: Option<int>) returns (found: map<Id, Record>)
      ensures found == if known.None? then TimeTravel(records, key, at) else AsOf(records, key, at, known.value)
    {
      if known.None? {
        found := map id | id in records && OnTimeline(key, records[id]) && records[id].validFrom <= at &&
                          (records[id].validUntil.None? || records[id].validUntil.value > at) :: records[id];
      } else {
        var k := known.value;
        found := map id | id in records && OnTimeline(key, records[id]) && records[id].validFrom <= at &&
                 records[id].observedAt <= k &&
                          ((records[id].supersededAt.Some? && records[id].supersededAt.value > k) ||
                           records[id].validUntil.None? || records[id].validUntil.value > at) :: records[id];
        var pending := found.Keys;
        while pending != {}
          invariant pending <= found.Keys == AsOf(records, key, at, k).Keys
          invariant forall id :: id in found ==>
                    found[id] == if id in pending then records[id] else Rewind(records[id], k)
        {
          var id :| id in pending;
          var record := found[id];
          if record.supersededAt.Some? && record.supersededAt.value > k {
            if record.status.Superseded? { record := record.(status := Active); }
            record := record.(validUntil := None);
            record := record.(supersededBy := None);
            record := record.(supersededAt := None);
            found := found[id := record];
          }
          pending := pending - {id};
        }
      }
    }

    /** One pass of the merge loop. The query for an existing holder of the row's content answers `choice`
        if there is one; otherwise `choice` is the identifier of the row to be inserted. */
    method MergeOneRow(key: Key, strategy: string, id: Id, choice: Id, now: int) returns (outcome: Outcome)
      requires id in records
      requires choice in records <==> Holders(records, key, records[id].content.hash) != {}
      modifies `records
      ensures var c := Merging(key, strategy == "verified_only", now);
        var row := old(records)[id];
        records == MergeRow(old(records), c, id, row, choice) && outcome == Verdict(old(records), c, row, choice)
    {
      var row := records[id];
      var verified := row.verifiedAt.Some? || row.content.trust in HIGH_TRUST;
      if strategy == "verified_only" && !verified { return Skipped; }
      if row.parent.Some? {
        if row.parent.value !in records { return Conflicted; }
        var p := records[row.parent.value];
        if p.key != key || p.branch.Some? || !p.status.Active? || p.supersededBy.Some? { return Conflicted; }
      }
      if choice !in records {
        var parent := id;
        if row.parent.Some? { parent := row.parent.value; }
        records := records[choice := Record(key, row.content, Active, now, None, now, None, None, None,
                                            Some(parent), row.verifiedAt, now, now)];
      }
      if row.parent.Some? && row.parent.value != choice {
        var from := records[choice].validFrom;
        if from == 0 { from := now; }
        var p := records[row.parent.value];
        p := p.(status := Superseded, validUntil := Some(from), supersededAt := Some(now));
        p := p.(supersededBy := Some(choice), updatedAt := now);
        records := records[row.parent.value := p];
      }
      outcome := Merged(choice);
    }

    method MergeBranch(key: Key, branch: Id, strategy: string, ids: seq<Id>, choices: seq<Id>, now: int)
      returns (r: Result<MergeReport, Error>)
      requires records.Keys <= issued
      requires |ids| == |choices| && BranchRows(records, key, branch, ids)
      requires AllSupplied(records, issued, Merging(key, strategy == "verified_only", now), ids, choices)
      modifies this
      ensures Tx(View(), r) == Merge(old(View()), key, branch, strategy, ids, choices, now)
    {
      if strategy != "verified_only" && strategy != "all" { return Err(BadStrategy); }
      if branch !in branches || branches[branch].key != key { return Err(NotFound); }
      var report := MergeLoop(key, strategy, ids, choices, now);
      issued := issued + Elements(choices);
      MarkMerged(key, branch);
      r := Ok(report);
    }

    method MarkMerged(key: Key, branch: Id)
      requires branch in branches
      modifies `branches, `namespaces
      ensures View() == CloseBranch(old(View()), key, branch)
    {
      branches := branches[branch := branches[branch].(merged := true)];
      var ns := NamespaceInSession(key);
      var version := ns.version + 1;
      if ns.activeBranch == Some(branch) {
        ns := ns.(activeBranch := None, activeSnapshot := None);
      }
      namespaces := namespaces[key := ns.(version := version)];
    }

    method MergeLoop(key: Key, strategy: string, ids: seq<Id>, choices: seq<Id>, now: int) returns (report: MergeReport)
      requires records.Keys <= issued && Listed(records, ids, choices)
      requires forall id :: id in ids ==> records[id].branch.Some?
      requires AllSupplied(records, issued, Merging(key, strategy == "verified_only", now), ids, choices)
      modifies `records
      ensures var c := Merging(key, strategy == "verified_only", now);
        records == MergeRows(old(records), c, ids, choices) &&
        report == Tally(ids, Outcomes(old(records), c, ids, choices))
    {
      ghost var start := records;
      ghost var c := Merging(key, strategy == "verified_only", now);
      report := MergeReport([], [], []);
      var i := 0;
      while i < |ids|
        invariant 0 <= i <= |ids|
        invariant records == MergeRows(start, c, ids[..i], choices[..i])
        invariant report == Tally(ids[..i], Outcomes(start, c, ids[..i], choices[..i]))
      {
        NextTurn(start, issued, c, ids, choices, i);
        var outcome := MergeOneRow(key, strategy, ids[i], choices[i], now);
        match outcome {
          case Skipped => report := report.(skipped := report.skipped + [ids[i]]);
          case Conflicted => report := report.(conflicted := report.conflicted + [ids[i]]);
          case Merged(target) => report := report.(merged := report.merged + [target]);
        }
        i := i + 1;
      }
      assert ids[..i] == ids && choices[..i] == choices;
    }
  }

  /** What one pass of the merge loop may rely on. */
  lemma NextTurn(rows: map<Id, Record>, issued: set<Id>, c: Merging, ids: seq<Id>, choices: seq<Id>, i: nat)
    requires rows.Keys <= issued && Listed(rows, ids, choices) && AllSupplied(rows, issued, c, ids, choices) &&
             i < |ids|
    requires rows[ids[i]].branch.Some?
    ensures var before := MergeRows(rows, c, ids[..i], choices[..i]);
      ids[i] in before && before[ids[i]] == rows[ids[i]] &&
      (choices[i] in before <==> Holders(before, c.key, rows[ids[i]].content.hash) != {}) &&
      MergeRows(rows, c, ids[..i + 1], choices[..i + 1]) == MergeRow(before, c, ids[i], rows[ids[i]], choices[i]) &&
      Tally(ids[..i + 1], Outcomes(rows, c, ids[..i + 1], choices[..i + 1])) ==
        Push(Tally(ids[..i], Outcomes(rows, c, ids[..i], choices[..i])), ids[i],
             Verdict(before, c, rows[ids[i]], choices[i]))
  {
    MergeFacts.SuppliedPrefix(rows, issued, c, ids, choices, i);
    MergeFacts.MergeRowsKeys(rows, issued, c, ids[..i], choices[..i]);
    MergeFacts.MergeRowsEvolve(rows, issued, c, ids[..i], choices[..i], ids[i]);
    assert SuppliedAt(rows, issued, c, ids, choices, i);
    assert ids[..i + 1][..i] == ids[..i] && choices[..i + 1][..i] == choices[..i];
    var outcomes := Outcomes(rows, c, ids[..i + 1], choices[..i + 1]);
    assert outcomes[..i] == Outcomes(rows, c, ids[..i], choices[..i]);
  }
}
