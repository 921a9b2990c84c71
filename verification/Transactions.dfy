/** The store's transactions as functions from state to state: the reference that the store's
    methods are proved against and that the run theorems speak about. */
module Transactions {
  import opened Prelude
  import opened Records

  datatype Tx<+T> = Tx(state: State, result: Result<T, Error>)

  function Bump(s: State, key: Key): State {
    var ns := NamespaceOf(s, key);
    s.(namespaces := s.namespaces[key := ns.(version := ns.version + 1)])
  }

  // ---------------------------------------------------------------- create

  datatype NewMemory = NewMemory(content: Content, status: Status,
                                 validFrom: Option<int>, validUntil: Option<int>,
                                 branch: Option<Id>, parent: Option<Id>, verifiedAt: Option<int>,
                                 createdAt: Option<int>, updatedAt: Option<int>)

  function Or<T>(given: Option<T>, otherwise: T): T {
    if given.Some? then given.value else otherwise
  }

  function EffectiveBranch(s: State, key: Key, branch: Option<Id>): Option<Id> {
    if branch.Some? then branch else NamespaceOf(s, key).activeBranch
  }

  function CreatedRecord(s: State, key: Key, m: NewMemory, clock: int): Record {
    var now := Or(m.createdAt, clock);
    Record(key, m.content, m.status, Or(m.validFrom, now), m.validUntil, now, None, None,
           EffectiveBranch(s, key, m.branch), m.parent, m.verifiedAt, now, Or(m.updatedAt, now))
  }

  function Create(s: State, id: Id, key: Key, m: NewMemory, clock: int): Tx<Id> {
    if m.content.text == "" then Tx(s, Err(BlankText))
    else if m.parent.Some? && m.parent.value !in s.records then Tx(s, Err(ForeignKey))
    else
      var row := CreatedRecord(s, key, m, clock);
      Tx(Bump(s.(records := s.records[id := row], issued := s.issued + {id}), key), Ok(id))
  }

  // ---------------------------------------------------------------- supersede

  function ReplacementRecord(key: Key, content: Content, validFrom: int, branch: Option<Id>, prior: Id,
                             now: int): Record {
    Record(key, content, Active, validFrom, None, now, None, None, branch, Some(prior), None, now, now)
  }

  /** The row `r` once `successor` has replaced it from `from` on. */
  function Retired(r: Record, from: int, successor: Id, now: int): Record {
    r.(status := Superseded, validUntil := Some(from), supersededAt := Some(now),
       supersededBy := Some(successor), updatedAt := now)
  }

  function Supersede(s: State, id: Id, prior: Id, key: Key, content: Content, validFrom: int,
                     branch: Option<Id>, now: int): Tx<Id>
  {
    if !Owns(s, key, prior) then Tx(s, Err(NotFound))
    else if !s.records[prior].status.Active? then Tx(s, Err(NotActive))
    else
      var target := EffectiveBranch(s, key, branch);
      var added := s.records[id := ReplacementRecord(key, content, validFrom, target, prior, now)];
      var rows := if target.None? then added[prior := Retired(s.records[prior], validFrom, id, now)] else added;
      Tx(Bump(s.(records := rows, issued := s.issued + {id}), key), Ok(id))
  }

  /** The row as `supersede_with_existing` leaves it: no time of retirement. */
  function Replaced(r: Record, from: int, next: Id, now: int): Record {
    r.(status := Superseded, validUntil := Some(from), supersededBy := Some(next), updatedAt := now)
  }

  /** The start of the replacement, as the call reads it off the existing row. */
  function ReplacementStart(n: Record, now: int): int {
    if n.validFrom != 0 then n.validFrom else if n.createdAt != 0 then n.createdAt else now
  }

  /** Supersession by a row that already exists: no check of either status. */
  function SupersedeExisting(s: State, prior: Id, next: Id, key: Key, now: int): Tx<()> {
    if !Owns(s, key, prior) || !Owns(s, key, next) then Tx(s, Err(NotFound))
    else if prior == next then Tx(s, Err(SelfSupersede))
    else
      var row := Replaced(s.records[prior], ReplacementStart(s.records[next], now), next, now);
      Tx(Bump(s.(records := s.records[prior := row]), key), Ok(()))
  }

  // ---------------------------------------------------------------- single-row updates

  function Verify(s: State, id: Id, key: Key, verifiedAt: int, confidence: int): Tx<()> {
    if !Owns(s, key, id) then Tx(s, Err(NotFound))
    else
      var r := s.records[id];
      var row := r.(verifiedAt := Some(verifiedAt), updatedAt := verifiedAt,
                    content := r.content.(confidence := confidence));
      Tx(Bump(s.(records := s.records[id := row]), key), Ok(()))
  }

  /** `mark_disputed` and `begin_forget`: overwrite the status, whatever it was. */
  function SetStatus(s: State, id: Id, key: Key, status: Status, now: int): Tx<()> {
    if !Owns(s, key, id) then Tx(s, Err(NotFound))
    else Tx(Bump(s.(records := s.records[id := s.records[id].(status := status, updatedAt := now)]), key), Ok(()))
  }

  function MergeSources(s: State, id: Id, now: int): Tx<()> {
    if id !in s.records then Tx(s, Err(NotFound))
    else
      var r := s.records[id];
      Tx(Bump(s.(records := s.records[id := r.(observedAt := now, updatedAt := now)]), r.key), Ok(()))
  }

  /** Foreign keys are declared ON DELETE SET NULL. */
  function Unlink(r: Record, gone: Id): Record {
    r.(supersededBy := if r.supersededBy == Some(gone) then None else r.supersededBy,
       parent := if r.parent == Some(gone) then None else r.parent)
  }

  function Without(rows: map<Id, Record>, gone: Id): map<Id, Record> {
    map id | id in rows && id != gone :: Unlink(rows[id], gone)
  }

  function Forget(s: State, id: Id, key: Key): Tx<()> {
    if !Owns(s, key, id) then Tx(s, Err(NotFound))
    else Tx(Bump(s.(records := Without(s.records, id)), key), Ok(()))
  }

  // ---------------------------------------------------------------- snapshots and branches

  /** Rows a snapshot of the namespace lists. */
  predicate InManifest(key: Key, r: Record) {
    InScope(key, r.key) && r.status.Active? && OnMain(r)
  }

  function Manifest(rows: map<Id, Record>, key: Key): set<Id> {
    set id | id in rows && InManifest(key, rows[id])
  }

  /** Reading the namespace row creates it when it is missing. */
  function Touch(s: State, key: Key): State {
    s.(namespaces := s.namespaces[key := NamespaceOf(s, key)])
  }

  function TakeSnapshot(s: State, id: Id, key: Key): Tx<Id> {
    var row := Snapshot(key, NamespaceOf(s, key).version, Manifest(s.records, key));
    Tx(Touch(s, key).(snapshots := s.snapshots[id := row], issued := s.issued + {id}), Ok(id))
  }

  predicate OwnsSnapshot(s: State, key: Key, id: Id) {
    id in s.snapshots && s.snapshots[id].key == key
  }

  datatype Diff = Diff(added: set<Id>, removed: set<Id>, changed: set<(Id, Id)>)

  /** Pairs (parent, replacement) between a removed and an added row. */
  function Replacements(rows: map<Id, Record>, added: set<Id>, removed: set<Id>): set<(Id, Id)> {
    set id | id in added && id in rows && rows[id].parent.Some? && rows[id].parent.value in removed ::
      (rows[id].parent.value, id)
  }

  function Compare(s: State, key: Key, left: Id, right: Id): Result<Diff, Error> {
    if !OwnsSnapshot(s, key, left) || !OwnsSnapshot(s, key, right) then Err(NotFound)
    else
      var before, after := s.snapshots[left].manifest, s.snapshots[right].manifest;
      var added, removed := after - before, before - after;
      Ok(Diff(added, removed, Replacements(s.records, added, removed)))
  }

  predicate NameTaken(s: State, key: Key, name: string) {
    exists b :: b in s.branches && s.branches[b].key == key && s.branches[b].name == name
  }

  function MakeBranch(s: State, id: Id, key: Key, name: string, from: Option<Id>, activate: bool): Tx<Id> {
    if from.Some? && !OwnsSnapshot(s, key, from.value) then Tx(s, Err(NotFound))
    else if NameTaken(s, key, name) then Tx(s, Err(DuplicateName))
    else
      var ns := NamespaceOf(s, key);
      var added := s.(branches := s.branches[id := Branch(key, name, from, false)], issued := s.issued + {id});
      var active := added.(namespaces := s.namespaces[key := Namespace(ns.version + 1, Some(id), from)]);
      Tx(if activate then active else added, Ok(id))
  }

  function LastEight(id: Id): string {
    if |id| <= 8 then id else id[|id| - 8..]
  }

  function Restore(s: State, id: Id, key: Key, snapshot: Id): Tx<Id> {
    if !OwnsSnapshot(s, key, snapshot) then Tx(s, Err(NotFound))
    else MakeBranch(s, id, key, "restore-" + LastEight(snapshot), Some(snapshot), true)
  }

  // ---------------------------------------------------------------- search

  datatype Query = Query(key: Key, historical: bool, scope: string, kinds: set<string>, branch: Option<Id>)

  predicate ScopeMatches(q: Query, r: Record) {
    match q.scope
    case "user" => r.key == Key(q.key.user, "") && r.content.scope == "user"
    case "workspace" => r.key == q.key && r.content.scope == "workspace"
    case _ => InScope(q.key, r.key)
  }

  /** The filter of `list_candidates`. */
  predicate IsCandidate(q: Query, r: Record) {
    ScopeMatches(q, r) && (q.historical || r.status.Active?) && (q.kinds == {} || r.content.kind in q.kinds) &&
    (r.branch.None? || r.branch == q.branch)
  }

  /** The rows `search` ranks: candidates of the effective branch and, while a snapshot is active and the
      caller names no branch, only rows of that branch or of the snapshot. */
  predicate IsSearched(s: State, q: Query, id: Id)
    requires id in s.records
  {
    var ns := NamespaceOf(s, q.key);
    var branch := EffectiveBranch(s, q.key, q.branch);
    var r := s.records[id];
    IsCandidate(q.(branch := branch), r) &&
    (ns.activeSnapshot.Some? && q.branch.None? ==> r.branch == branch || id in SnapshotIds(s, ns.activeSnapshot.value))
  }

  function SnapshotIds(s: State, id: Id): set<Id> {
    if id in s.snapshots then s.snapshots[id].manifest else {}
  }

  function SearchRows(s: State, q: Query): set<Id> {
    set id | id in s.records && IsSearched(s, q, id)
  }

  // ---------------------------------------------------------------- merge

  datatype Merging = Merging(key: Key, verifiedOnly: bool, now: int)

  datatype Outcome = Skipped | Conflicted | Merged(target: Id)

  predicate Eligible(c: Merging, row: Record) {
    c.verifiedOnly ==> row.verifiedAt.Some? || row.content.trust in HIGH_TRUST
  }

  /** The row names a parent that may no longer be replaced. */
  predicate ParentLost(rows: map<Id, Record>, c: Merging, row: Record) {
    row.parent.Some? && !Replaceable(rows, c, row.parent.value)
  }

  predicate Replaceable(rows: map<Id, Record>, c: Merging, id: Id) {
    id in rows && rows[id].key == c.key && OnMain(rows[id]) && rows[id].status.Active? && rows[id].supersededBy.None?
  }

  predicate Holds(r: Record, key: Key, hash: string) {
    r.key == key && OnMain(r) && r.status.Active? && r.content.hash == hash
  }

  /** Active main-line rows of the namespace with this content hash. */
  function Holders(rows: map<Id, Record>, key: Key, hash: string): set<Id> {
    set id | id in rows && Holds(rows[id], key, hash)
  }

  function PromotedRecord(c: Merging, id: Id, row: Record): Record {
    Record(c.key, row.content, Active, c.now, None, c.now, None, None, None,
           Some(Or(row.parent, id)), row.verifiedAt, c.now, c.now)
  }

  /** Make sure the content of branch row `id` is on the main line. `choice` is the holder the query
      returned or, when there is none, the identifier of the row created. */
  function Promote(rows: map<Id, Record>, c: Merging, id: Id, row: Record, choice: Id): map<Id, Record> {
    if Holders(rows, c.key, row.content.hash) == {} then rows[choice := PromotedRecord(c, id, row)] else rows
  }

  /** Python's `existing.valid_from_ms or now`. */
  function SuccessorStart(r: Record, now: int): int {
    if r.validFrom != 0 then r.validFrom else now
  }

  function RetireParent(rows: map<Id, Record>, c: Merging, row: Record, target: Id): map<Id, Record> {
    if row.parent.Some? && row.parent.value in rows && target in rows && row.parent.value != target then
      rows[row.parent.value := Retired(rows[row.parent.value], SuccessorStart(rows[target], c.now), target, c.now)]
    else rows
  }

  function Verdict(rows: map<Id, Record>, c: Merging, row: Record, choice: Id): Outcome {
    if !Eligible(c, row) then Skipped
    else if ParentLost(rows, c, row) then Conflicted
    else Merged(choice)
  }

  function MergeRow(rows: map<Id, Record>, c: Merging, id: Id, row: Record, choice: Id): map<Id, Record> {
    if Verdict(rows, c, row, choice).Merged? then RetireParent(Promote(rows, c, id, row, choice), c, row, choice)
    else rows
  }

  /** The identifier the database supplies for a branch row: some holder of the hash, or one never
      issued before. */
  predicate Supplied(rows: map<Id, Record>, issued: set<Id>, c: Merging, row: Record, choice: Id) {
    var holders := Holders(rows, c.key, row.content.hash);
    if holders == {} then choice !in issued else choice in holders
  }

  predicate Listed(rows: map<Id, Record>, ids: seq<Id>, choices: seq<Id>) {
    |ids| == |choices| && forall id :: id in ids ==> id in rows
  }

  /** Records after the listed branch rows have been merged one after the other. */
  function MergeRows(rows: map<Id, Record>, c: Merging, ids: seq<Id>, choices: seq<Id>): map<Id, Record>
    requires Listed(rows, ids, choices)
  {
    if ids == [] then rows
    else
      var n := |ids| - 1;
      MergeRow(MergeRows(rows, c, ids[..n], choices[..n]), c, ids[n], rows[ids[n]], choices[n])
  }

  /** Every branch row is met with a valid choice when its turn comes. */
  ghost predicate AllSupplied(rows: map<Id, Record>, issued: set<Id>, c: Merging, ids: seq<Id>, choices: seq<Id>)
    requires Listed(rows, ids, choices)
  {
    forall i :: 0 <= i < |ids| ==> SuppliedAt(rows, issued, c, ids, choices, i)
  }

  ghost predicate SuppliedAt(rows: map<Id, Record>, issued: set<Id>, c: Merging, ids: seq<Id>, choices: seq<Id>, i: nat)
    requires Listed(rows, ids, choices) && i < |ids|
  {
    Supplied(MergeRows(rows, c, ids[..i], choices[..i]), issued + Elements(choices[..i]), c, rows[ids[i]], choices[i])
  }

  function OutcomeAt(rows: map<Id, Record>, c: Merging, ids: seq<Id>, choices: seq<Id>, i: nat): Outcome
    requires Listed(rows, ids, choices) && i < |ids|
  {
    Verdict(MergeRows(rows, c, ids[..i], choices[..i]), c, rows[ids[i]], choices[i])
  }

  /** Active rows of the branch, oldest first; rows created in the same millisecond in any order. */
  ghost predicate BranchRows(rows: map<Id, Record>, key: Key, branch: Id, ids: seq<Id>) {
    Distinct(ids) &&
    (forall id :: id in ids <==>
       id in rows && rows[id].key == key && rows[id].branch == Some(branch) && rows[id].status.Active?) &&
    (forall i, j :: 0 <= i < j < |ids| ==> rows[ids[i]].createdAt <= rows[ids[j]].createdAt)
  }

  datatype MergeReport = MergeReport(merged: seq<Id>, skipped: seq<Id>, conflicted: seq<Id>)

  function Outcomes(rows: map<Id, Record>, c: Merging, ids: seq<Id>, choices: seq<Id>): (os: seq<Outcome>)
    requires Listed(rows, ids, choices)
    ensures |os| == |ids|
  {
    if ids == [] then []
    else
      var n := |ids| - 1;
      Outcomes(rows, c, ids[..n], choices[..n]) + [OutcomeAt(rows, c, ids, choices, n)]
  }

  function Push(t: MergeReport, id: Id, o: Outcome): MergeReport {
    match o
    case Skipped => t.(skipped := t.skipped + [id])
    case Conflicted => t.(conflicted := t.conflicted + [id])
    case Merged(target) => t.(merged := t.merged + [target])
  }

  function Tally(ids: seq<Id>, outcomes: seq<Outcome>): MergeReport
    requires |ids| == |outcomes|
  {
    if ids == [] then MergeReport([], [], [])
    else
      var n := |ids| - 1;
      Push(Tally(ids[..n], outcomes[..n]), ids[n], outcomes[n])
  }

  predicate OwnsBranch(s: State, key: Key, id: Id) {
    id in s.branches && s.branches[id].key == key
  }

  function CloseBranch(s: State, key: Key, branch: Id): State
    requires branch in s.branches
  {
    var ns := NamespaceOf(s, key);
    var left := if ns.activeBranch == Some(branch) then ns.(activeBranch := None, activeSnapshot := None) else ns;
    s.(branches := s.branches[branch := s.branches[branch].(merged := true)],
       namespaces := s.namespaces[key := left.(version := ns.version + 1)])
  }

  function Merge(s: State, key: Key, branch: Id, strategy: string, ids: seq<Id>, choices: seq<Id>,
                 now: int): Tx<MergeReport>
    requires Listed(s.records, ids, choices)
  {
    if strategy !in {"verified_only", "all"} then Tx(s, Err(BadStrategy))
    else if !OwnsBranch(s, key, branch) then Tx(s, Err(NotFound))
    else
      var c := Merging(key, strategy == "verified_only", now);
      var merged := s.(records := MergeRows(s.records, c, ids, choices), issued := s.issued + Elements(choices));
      Tx(CloseBranch(merged, key, branch), Ok(Tally(ids, Outcomes(s.records, c, ids, choices))))
  }
}
