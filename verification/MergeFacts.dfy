/** What the merge loop may do to any single row. */
module MergeFacts {
  import opened Prelude
  import opened Records
  import opened Transactions

  lemma PromotedHolds(rows: map<Id, Record>, issued: set<Id>, c: Merging, id: Id, row: Record, choice: Id)
    requires Supplied(rows, issued, c, row, choice)
    ensures var after := Promote(rows, c, id, row, choice);
      choice in after && Holds(after[choice], c.key, row.content.hash)
  {
  }

  lemma SuppliedPrefix(rows: map<Id, Record>, issued: set<Id>, c: Merging, ids: seq<Id>, choices: seq<Id>, n: nat)
    requires Listed(rows, ids, choices) && AllSupplied(rows, issued, c, ids, choices) && n <= |ids|
    ensures AllSupplied(rows, issued, c, ids[..n], choices[..n])
  {
    forall i | 0 <= i < n
      ensures SuppliedAt(rows, issued, c, ids[..n], choices[..n], i)
    {
      assert ids[..n][..i] == ids[..i] && choices[..n][..i] == choices[..i];
      assert SuppliedAt(rows, issued, c, ids, choices, i);
    }
  }

  /** Rows are added, never removed, and only under supplied identifiers. */
  lemma {:induction false} MergeRowsKeys(rows: map<Id, Record>, issued: set<Id>, c: Merging, ids: seq<Id>,
                                         choices: seq<Id>)
    requires rows.Keys <= issued && Listed(rows, ids, choices) && AllSupplied(rows, issued, c, ids, choices)
    ensures rows.Keys <= MergeRows(rows, c, ids, choices).Keys <= issued + Elements(choices)
    ensures forall id :: id in MergeRows(rows, c, ids, choices) && id in issued ==> id in rows
  {
    if ids != [] {
      var n := |ids| - 1;
      SuppliedPrefix(rows, issued, c, ids, choices, n);
      MergeRowsKeys(rows, issued, c, ids[..n], choices[..n]);
      assert SuppliedAt(rows, issued, c, ids, choices, n);
      assert choices == choices[..n] + [choices[n]];
    }
  }

  /** The only change the merge makes to a row that was there before: an active, not yet superseded
      main-line row is retired. */
  ghost predicate Evolves(r: Record, after: Record, now: int) {
    after == r ||
    (OnMain(r) && r.status.Active? && r.supersededBy.None? && after.validUntil.Some? && after.supersededBy.Some? &&
     after == Retired(r, after.validUntil.value, after.supersededBy.value, now))
  }

  lemma {:induction false} MergeRowsEvolve(rows: map<Id, Record>, issued: set<Id>, c: Merging, ids: seq<Id>,
                                           choices: seq<Id>, x: Id)
    requires rows.Keys <= issued && Listed(rows, ids, choices) && AllSupplied(rows, issued, c, ids, choices) &&
             x in rows
    ensures x in MergeRows(rows, c, ids, choices)
    ensures Evolves(rows[x], MergeRows(rows, c, ids, choices)[x], c.now)
  {
    if ids != [] {
      var n := |ids| - 1;
      SuppliedPrefix(rows, issued, c, ids, choices, n);
      MergeRowsEvolve(rows, issued, c, ids[..n], choices[..n], x);
      MergeRowsKeys(rows, issued, c, ids[..n], choices[..n]);
      assert SuppliedAt(rows, issued, c, ids, choices, n);
    }
  }

  /** Rows the merge adds are main-line rows of the namespace, observed now. */
  lemma {:induction false} MergeRowsAdds(rows: map<Id, Record>, issued: set<Id>, c: Merging, ids: seq<Id>,
                                         choices: seq<Id>, x: Id)
    requires rows.Keys <= issued && Listed(rows, ids, choices) && AllSupplied(rows, issued, c, ids, choices)
    requires x in MergeRows(rows, c, ids, choices) && x !in rows
    ensures var r := MergeRows(rows, c, ids, choices)[x]; OnMain(r) && r.key == c.key && r.observedAt == c.now
  {
    if ids != [] {
      var n := |ids| - 1;
      SuppliedPrefix(rows, issued, c, ids, choices, n);
      MergeRowsKeys(rows, issued, c, ids[..n], choices[..n]);
      if x in MergeRows(rows, c, ids[..n], choices[..n]) {
        MergeRowsAdds(rows, issued, c, ids[..n], choices[..n], x);
        assert SuppliedAt(rows, issued, c, ids, choices, n);
      }
    }
  }
}
