/** Time travel: what was true at an instant, and what was known at another. */
module History {
  import opened Prelude
  import opened Records
  import opened Transactions
  import opened Runs
  import opened MergeFacts

  predicate ValidAt(r: Record, at: int) {
    r.validFrom <= at && (r.validUntil.None? || r.validUntil.value > at)
  }

  predicate RetiredAfter(r: Record, known: int) {
    r.supersededAt.Some? && r.supersededAt.value > known
  }

  predicate OnTimeline(key: Key, r: Record) {
    OnMain(r) && InScope(key, r.key)
  }

  /** `time_travel_records` without `known_at_ms`. */
  function TimeTravel(rows: map<Id, Record>, key: Key, at: int): map<Id, Record> {
    map id | id in rows && OnTimeline(key, rows[id]) && ValidAt(rows[id], at) :: rows[id]
  }

  /** The row with a later retirement taken back. */
  function Rewind(r: Record, known: int): Record {
    if RetiredAfter(r, known) then
      r.(status := if r.status.Superseded? then Active else r.status,
         validUntil := None, supersededBy := None, supersededAt := None)
    else r
  }

  predicate KnownAt(r: Record, at: int, known: int) {
    r.validFrom <= at && r.observedAt <= known &&
    (RetiredAfter(r, known) || r.validUntil.None? || r.validUntil.value > at)
  }

  /** `time_travel_records` with `known_at_ms`. */
  function AsOf(rows: map<Id, Record>, key: Key, at: int, known: int): map<Id, Record> {
    map id | id in rows && OnTimeline(key, rows[id]) && KnownAt(rows[id], at, known) :: Rewind(rows[id], known)
  }

  /** Everything about a row but the time of its last update. */
  function Face(r: Record): Record {
    r.(updatedAt := 0)
  }

  ghost predicate SameFaces(a: map<Id, Record>, b: map<Id, Record>) {
    a.Keys == b.Keys && forall id :: id in a ==> Face(a[id]) == Face(b[id])
  }

  // ---------------------------------------------------------------- one state against a later one

  /** Nothing in the store was retired after `known`. */
  ghost predicate KnownBy(rows: map<Id, Record>, known: int) {
    forall id :: id in rows ==> RowKnownBy(rows[id], known)
  }

  ghost predicate RowKnownBy(r: Record, known: int) {
    !RetiredAfter(r, known) && RowUnretired(r)
  }

  ghost predicate RowUnretired(r: Record) {
    r.status.Active? ==> r.supersededAt.None? && r.supersededBy.None?
  }

  /** `after` is `r` as it is, or retired after `known`. */
  ghost predicate Later(r: Record, after: Record, known: int) {
    after == r ||
    (r.status.Active? && after.validUntil.Some? && after.supersededBy.Some? && RetiredAfter(after, known) &&
     after == Retired(r, after.validUntil.value, after.supersededBy.value, after.supersededAt.value))
  }

  ghost predicate Continues(past: map<Id, Record>, rows: map<Id, Record>, known: int) {
    past.Keys <= rows.Keys &&
    (forall id :: id in past ==> Later(past[id], rows[id], known)) &&
    (forall id :: id in rows ==> RowUnretired(rows[id]))
  }

  /** Valid at no instant. */
  predicate NeverValid(r: Record) {
    r.validUntil.Some? && r.validUntil.value <= r.validFrom
  }

  /** What keeps row `id` of the later store from changing the past: off the timeline anything does. A row
      that was there must not have lost an end of validity of its own to a later retirement, nor be dated
      after `known`; a row that was not must not be dated up to `known`; unless the row was never valid. */
  ghost predicate PastKeptAt(past: map<Id, Record>, rows: map<Id, Record>, key: Key, known: int, id: Id) {
    id in rows && OnTimeline(key, rows[id]) ==>
      if id in past then
        if rows[id].observedAt <= known then RetiredAfter(rows[id], known) ==> past[id].validUntil.None?
        else NeverValid(past[id])
      else
        rows[id].observedAt > known || (NeverValid(rows[id]) && !RetiredAfter(rows[id], known))
  }

  ghost predicate PastKept(past: map<Id, Record>, rows: map<Id, Record>, key: Key, known: int) {
    forall id :: PastKeptAt(past, rows, key, known, id)
  }

  /** The two answers agree on one row. */
  ghost predicate AgreeAt(a: map<Id, Record>, b: map<Id, Record>, id: Id) {
    (id in a <==> id in b) && (id in a ==> Face(a[id]) == Face(b[id]))
  }

  ghost predicate AgreesAlways(past: map<Id, Record>, rows: map<Id, Record>, key: Key, known: int, id: Id) {
    forall at :: AgreeAt(AsOf(rows, key, at, known), TimeTravel(past, key, at), id)
  }

  /** Row by row: its past is told as it was, at every instant, exactly when PastKeptAt. */
  lemma RowIsToldIff(past: map<Id, Record>, rows: map<Id, Record>, key: Key, known: int, id: Id)
    requires KnownBy(past, known) && Continues(past, rows, known)
    ensures AgreesAlways(past, rows, key, known, id) <==> PastKeptAt(past, rows, key, known, id)
  {
    if id in past { assert RowKnownBy(past[id], known) && Later(past[id], rows[id], known); }
    if id in rows && OnTimeline(key, rows[id]) && !PastKeptAt(past, rows, key, known, id) {
      var at := rows[id].validFrom;
      var shown, told := TimeTravel(past, key, at), AsOf(rows, key, at, known);
      if id in past && rows[id].observedAt <= known {
        assert id in told && Face(told[id]).validUntil.None?;
        assert id in shown ==> Face(shown[id]).validUntil.Some?;
      }
      assert !AgreeAt(told, shown, id);
    }
  }

  lemma SameFacesIff(a: map<Id, Record>, b: map<Id, Record>)
    ensures SameFaces(a, b) <==> forall id :: AgreeAt(a, b, id)
  {
    if forall id :: AgreeAt(a, b, id) {
      forall id ensures id in a <==> id in b { assert AgreeAt(a, b, id); }
      forall id | id in a ensures Face(a[id]) == Face(b[id]) { assert AgreeAt(a, b, id); }
    }
  }

  /** One state against a later one: what was known is told as it was, for every instant, exactly when PastKept. */
  lemma PastIsRecoveredIff(past: map<Id, Record>, rows: map<Id, Record>, key: Key, known: int)
    requires KnownBy(past, known) && Continues(past, rows, known)
    ensures (forall at :: SameFaces(AsOf(rows, key, at, known), TimeTravel(past, key, at))) <==>
            PastKept(past, rows, key, known)
  {
    forall id ensures AgreesAlways(past, rows, key, known, id) <==> PastKeptAt(past, rows, key, known, id) {
      RowIsToldIff(past, rows, key, known, id);
    }
    forall at
      ensures SameFaces(AsOf(rows, key, at, known), TimeTravel(past, key, at)) <==>
              forall id :: AgreeAt(AsOf(rows, key, at, known), TimeTravel(past, key, at), id)
    {
      SameFacesIff(AsOf(rows, key, at, known), TimeTravel(past, key, at));
    }
    if PastKept(past, rows, key, known) {
      forall at, id ensures AgreeAt(AsOf(rows, key, at, known), TimeTravel(past, key, at), id) {
        assert AgreesAlways(past, rows, key, known, id);
      }
    }
    if forall at :: SameFaces(AsOf(rows, key, at, known), TimeTravel(past, key, at)) {
      forall id ensures PastKeptAt(past, rows, key, known, id) {
        forall at ensures AgreeAt(AsOf(rows, key, at, known), TimeTravel(past, key, at), id) {}
        assert AgreesAlways(past, rows, key, known, id);
      }
    }
  }

  // ---------------------------------------------------------------- runs

  /** Creations, however dated, supersessions, merges, snapshots, branches and restores. */
  predicate Forward(step: Step) {
    step.CreateStep? || step.SupersedeStep? || step.MergeStep? ||
    step.SnapshotStep? || step.BranchStep? || step.RestoreStep?
  }

  lemma StepIsKnown(s: State, step: Step, known: int)
    requires Enabled(s, step) && Forward(step) && Issued(s) && KnownBy(s.records, known) && step.now <= known
    ensures KnownBy(Apply(s, step).records, known) && Issued(Apply(s, step))
  {
    if step.MergeStep? {
      MergeIsKnown(s, Merging(step.key, step.strategy == "verified_only", step.now), step.ids, step.choices, known);
    }
  }

  lemma {:induction false} MergeUnretired(rows: map<Id, Record>, issued: set<Id>, c: Merging, ids: seq<Id>,
                                          choices: seq<Id>, known: int)
    requires rows.Keys <= issued && Listed(rows, ids, choices) && AllSupplied(rows, issued, c, ids, choices)
    requires forall id :: id in rows ==> RowUnretired(rows[id])
    ensures forall id :: id in MergeRows(rows, c, ids, choices) ==> RowUnretired(MergeRows(rows, c, ids, choices)[id])
    ensures c.now <= known && KnownBy(rows, known) ==> KnownBy(MergeRows(rows, c, ids, choices), known)
  {
    if ids != [] {
      var n := |ids| - 1;
      SuppliedPrefix(rows, issued, c, ids, choices, n);
      MergeUnretired(rows, issued, c, ids[..n], choices[..n], known);
    }
  }

  lemma MergeIsKnown(s: State, c: Merging, ids: seq<Id>, choices: seq<Id>, known: int)
    requires Issued(s) && Listed(s.records, ids, choices) && AllSupplied(s.records, s.issued, c, ids, choices)
    requires KnownBy(s.records, known) && c.now <= known
    ensures KnownBy(MergeRows(s.records, c, ids, choices), known)
    ensures MergeRows(s.records, c, ids, choices).Keys <= s.issued + Elements(choices)
  {
    forall id | id in s.records ensures RowUnretired(s.records[id]) {
      assert RowKnownBy(s.records[id], known);
    }
    MergeUnretired(s.records, s.issued, c, ids, choices, known);
    MergeRowsKeys(s.records, s.issued, c, ids, choices);
  }

  lemma MergeContinues(past: map<Id, Record>, s: State, c: Merging, ids: seq<Id>, choices: seq<Id>, known: int)
    requires Issued(s) && Listed(s.records, ids, choices) && AllSupplied(s.records, s.issued, c, ids, choices)
    requires Continues(past, s.records, known) && c.now > known
    ensures Continues(past, MergeRows(s.records, c, ids, choices), known)
  {
    var after := MergeRows(s.records, c, ids, choices);
    MergeRowsKeys(s.records, s.issued, c, ids, choices);
    MergeUnretired(s.records, s.issued, c, ids, choices, known);
    forall id | id in past ensures Later(past[id], after[id], known) {
      MergeRowsEvolve(s.records, s.issued, c, ids, choices, id);
    }
  }

  lemma SupersedeContinues(past: map<Id, Record>, s: State, step: Step, known: int)
    requires step.SupersedeStep? && Enabled(s, step) && Issued(s) && Continues(past, s.records, known) &&
             step.now > known
    ensures Continues(past, Apply(s, step).records, known) && Issued(Apply(s, step))
  {
    var after := Apply(s, step).records;
    forall id | id in past ensures id in after && Later(past[id], after[id], known) {
      assert Later(past[id], s.records[id], known);
      SupersedeMakesLater(s, step, id, known);
      LaterThenLater(past[id], s.records[id], after[id], known);
    }
    forall id | id in after ensures RowUnretired(after[id]) {
      if id in s.records { SupersedeMakesLater(s, step, id, known); }
    }
  }

  lemma SupersedeMakesLater(s: State, step: Step, id: Id, known: int)
    requires step.SupersedeStep? && Enabled(s, step) && Issued(s) && step.now > known
    requires id in s.records && RowUnretired(s.records[id])
    ensures id in Apply(s, step).records && Later(s.records[id], Apply(s, step).records[id], known)
    ensures RowUnretired(Apply(s, step).records[id])
  {
  }

  lemma LaterThenLater(r: Record, mid: Record, after: Record, known: int)
    requires Later(r, mid, known) && Later(mid, after, known)
    ensures Later(r, after, known)
  {
  }

  lemma CreateContinues(past: map<Id, Record>, s: State, step: Step, known: int)
    requires step.CreateStep? && Enabled(s, step) && Forward(step) && Issued(s)
    requires Continues(past, s.records, known) && step.now > known
    ensures Continues(past, Apply(s, step).records, known) && Issued(Apply(s, step))
  {
  }

  lemma StepContinues(past: map<Id, Record>, s: State, step: Step, known: int)
    requires Enabled(s, step) && Forward(step) && Issued(s) && Continues(past, s.records, known) && step.now > known
    ensures Continues(past, Apply(s, step).records, known) && Issued(Apply(s, step))
  {
    if step.SupersedeStep? {
      SupersedeContinues(past, s, step, known);
    } else if step.CreateStep? {
      CreateContinues(past, s, step, known);
    } else if step.MergeStep? {
      var c := Merging(step.key, step.strategy == "verified_only", step.now);
      MergeContinues(past, s, c, step.ids, step.choices, known);
      MergeRowsKeys(s.records, s.issued, c, step.ids, step.choices);
    } else {
      assert Apply(s, step).records == s.records;
    }
  }

  ghost predicate CutAt(steps: seq<Step>, n: nat, known: int) {
    n <= |steps| && forall i :: 0 <= i < |steps| ==> (steps[i].now <= known <==> i < n)
  }

  lemma {:induction false} PrefixIsKnown(trace: seq<State>, steps: seq<Step>, n: nat, known: int, i: nat)
    requires IsRun(trace, steps) && trace[0] == EMPTY && CutAt(steps, n, known) && i <= n
    requires forall step :: step in steps ==> Forward(step)
    ensures KnownBy(trace[i].records, known) && Issued(trace[i])
  {
    if i > 0 {
      PrefixIsKnown(trace, steps, n, known, i - 1);
      assert Moves(trace, steps, i - 1);
      StepIsKnown(trace[i - 1], steps[i - 1], known);
    }
  }

  lemma {:induction false} SuffixContinues(trace: seq<State>, steps: seq<Step>, n: nat, known: int, i: nat)
    requires IsRun(trace, steps) && trace[0] == EMPTY && CutAt(steps, n, known) && n <= i < |trace|
    requires forall step :: step in steps ==> Forward(step)
    ensures Continues(trace[n].records, trace[i].records, known) && Issued(trace[i])
  {
    if i == n {
      PrefixIsKnown(trace, steps, n, known, n);
      forall id | id in trace[n].records ensures RowUnretired(trace[n].records[id]) {
        assert RowKnownBy(trace[n].records[id], known);
      }
    } else {
      SuffixContinues(trace, steps, n, known, i - 1);
      assert Moves(trace, steps, i - 1);
      StepContinues(trace[n].records, trace[i - 1], steps[i - 1], known);
    }
  }

  /** Past knowledge is stable. Cut a run where the clock passes `known`. Asking the final store what was
      known at `known` gives, for every instant, the rows that plain time travel gave at the cut, exactly
      when every row keeps the past. */
  lemma AsOfRecoversThePastIff(trace: seq<State>, steps: seq<Step>, n: nat, known: int, key: Key)
    requires IsRun(trace, steps) && trace[0] == EMPTY && CutAt(steps, n, known)
    requires forall step :: step in steps ==> Forward(step)
    ensures (forall at ::
               SameFaces(AsOf(trace[|steps|].records, key, at, known), TimeTravel(trace[n].records, key, at))) <==>
            PastKept(trace[n].records, trace[|steps|].records, key, known)
  {
    PrefixIsKnown(trace, steps, n, known, n);
    SuffixContinues(trace, steps, n, known, |steps|);
    PastIsRecoveredIff(trace[n].records, trace[|steps|].records, key, known);
  }

  /** Creations fall on the side of the cut that they say they fall on. */
  predicate DatedInOrder(step: Step, known: int) {
    step.CreateStep? && step.memory.createdAt.Some? ==> (step.memory.createdAt.value <= known <==> step.now <= known)
  }

  lemma {:induction false} MergeDates(rows: map<Id, Record>, issued: set<Id>, c: Merging, ids: seq<Id>,
                                      choices: seq<Id>, x: Id)
    requires rows.Keys <= issued && Listed(rows, ids, choices) && AllSupplied(rows, issued, c, ids, choices)
    requires x in MergeRows(rows, c, ids, choices)
    ensures MergeRows(rows, c, ids, choices)[x].observedAt == if x in rows then rows[x].observedAt else c.now
  {
    if x in rows {
      MergeRowsEvolve(rows, issued, c, ids, choices, x);
    } else {
      MergeRowsAdds(rows, issued, c, ids, choices, x);
    }
  }

  lemma StepDates(s: State, step: Step, known: int, x: Id)
    requires Enabled(s, step) && Forward(step) && Issued(s) && DatedInOrder(step, known)
    requires x in Apply(s, step).records
    ensures if x in s.records then Apply(s, step).records[x].observedAt == s.records[x].observedAt
            else (Apply(s, step).records[x].observedAt <= known <==> step.now <= known)
  {
    if step.MergeStep? && Apply(s, step).records != s.records {
      MergeDates(s.records, s.issued, Merging(step.key, step.strategy == "verified_only", step.now), step.ids,
                 step.choices, x);
    }
  }

  /** With creations dated in order, what is observed by `known` is what was there at the cut. */
  lemma {:induction false} RunDates(trace: seq<State>, steps: seq<Step>, n: nat, known: int, i: nat, x: Id)
    requires IsRun(trace, steps) && trace[0] == EMPTY && CutAt(steps, n, known) && i < |trace|
    requires forall step :: step in steps ==> Forward(step) && DatedInOrder(step, known)
    requires x in trace[i].records
    ensures Issued(trace[i])
    ensures trace[i].records[x].observedAt <= known <==> x in trace[Min(i, n)].records
    decreases i
  {
    if i > 0 {
      RunIsIssued(trace, steps, n, known, i);
      RunIsIssued(trace, steps, n, known, i - 1);
      assert Moves(trace, steps, i - 1);
      assert steps[i - 1] in steps;
      StepDates(trace[i - 1], steps[i - 1], known, x);
      if x in trace[i - 1].records { RunDates(trace, steps, n, known, i - 1, x); }
      if i > n { SuffixContinues(trace, steps, n, known, i - 1); }
    }
  }

  lemma RunIsIssued(trace: seq<State>, steps: seq<Step>, n: nat, known: int, i: nat)
    requires IsRun(trace, steps) && trace[0] == EMPTY && CutAt(steps, n, known) && i < |trace|
    requires forall step :: step in steps ==> Forward(step)
    ensures Issued(trace[i])
  {
    if i <= n { PrefixIsKnown(trace, steps, n, known, i); } else { SuffixContinues(trace, steps, n, known, i); }
  }

  ghost predicate ActiveAreOpenEnded(rows: map<Id, Record>) {
    forall id :: id in rows && rows[id].status.Active? ==> rows[id].validUntil.None?
  }

  lemma {:induction false} MergeStaysOpenEnded(rows: map<Id, Record>, c: Merging, ids: seq<Id>, choices: seq<Id>)
    requires Listed(rows, ids, choices) && ActiveAreOpenEnded(rows)
    ensures ActiveAreOpenEnded(MergeRows(rows, c, ids, choices))
  {
    if ids != [] {
      var n := |ids| - 1;
      MergeStaysOpenEnded(rows, c, ids[..n], choices[..n]);
    }
  }

  lemma StepStaysOpenEnded(s: State, step: Step)
    requires Enabled(s, step) && Forward(step) && ActiveAreOpenEnded(s.records)
    requires step.CreateStep? ==> step.memory.validUntil.None?
    ensures ActiveAreOpenEnded(Apply(s, step).records)
  {
    if step.MergeStep? {
      MergeStaysOpenEnded(s.records, Merging(step.key, step.strategy == "verified_only", step.now), step.ids,
                          step.choices);
    }
  }

  lemma {:induction false} RunStaysOpenEnded(trace: seq<State>, steps: seq<Step>, i: nat)
    requires IsRun(trace, steps) && trace[0] == EMPTY && i < |trace|
    requires forall step :: step in steps ==> Forward(step) && (step.CreateStep? ==> step.memory.validUntil.None?)
    ensures ActiveAreOpenEnded(trace[i].records)
  {
    if i > 0 {
      RunStaysOpenEnded(trace, steps, i - 1);
      assert Moves(trace, steps, i - 1);
      StepStaysOpenEnded(trace[i - 1], steps[i - 1]);
    }
  }

  /** In particular the past is stable in every run whose creations state no end of validity and are dated on
      the side of the cut on which they happen. */
  lemma AsOfIsStable(trace: seq<State>, steps: seq<Step>, n: nat, known: int, key: Key, at: int)
    requires IsRun(trace, steps) && trace[0] == EMPTY && CutAt(steps, n, known)
    requires forall step :: step in steps ==>
      Forward(step) && DatedInOrder(step, known) && (step.CreateStep? ==> step.memory.validUntil.None?)
    ensures SameFaces(AsOf(trace[|steps|].records, key, at, known), TimeTravel(trace[n].records, key, at))
  {
    var past, rows := trace[n].records, trace[|steps|].records;
    RunStaysOpenEnded(trace, steps, n);
    PrefixIsKnown(trace, steps, n, known, n);
    SuffixContinues(trace, steps, n, known, |steps|);
    forall id ensures PastKeptAt(past, rows, key, known, id) {
      if id in rows { RunDates(trace, steps, n, known, |steps|, id); }
      if id in past { assert Later(past[id], rows[id], known); }
    }
    AsOfRecoversThePastIff(trace, steps, n, known, key);
  }

  // ---------------------------------------------------------------- one call against the past

  /** A creation leaves what was known as it was exactly when its row is off the timeline, dated after `known`,
      or never valid: backdating rewrites the past. */
  lemma CreationKeepsThePastIff(s: State, id: Id, own: Key, m: NewMemory, clock: int, key: Key, known: int)
    requires id !in s.records && Create(s, id, own, m, clock).result.Ok?
    ensures (forall at ::
               AsOf(Create(s, id, own, m, clock).state.records, key, at, known) == AsOf(s.records, key, at, known))
       <==> !(OnTimeline(key, CreatedRecord(s, own, m, clock)) && Or(m.createdAt, clock) <= known &&
              !NeverValid(CreatedRecord(s, own, m, clock)))
  {
    var row := CreatedRecord(s, own, m, clock);
    var after := Create(s, id, own, m, clock).state.records;
    if OnTimeline(key, row) && row.observedAt <= known && !NeverValid(row) {
      assert id in AsOf(after, key, row.validFrom, known) && id !in AsOf(s.records, key, row.validFrom, known);
    } else {
      forall at ensures AsOf(after, key, at, known) == AsOf(s.records, key, at, known) {
        assert id !in AsOf(after, key, at, known);
      }
    }
  }

  /** What the replaced row must be, before the call, for what was known at `known` to stay: off the timeline or
      dated later; already retired after `known`, from an active state; retired in favour of the same row at the
      same instant; or never valid, before and after. */
  predicate ReplacementUnnoticed(r: Record, from: int, next: Id, key: Key, known: int) {
    OnTimeline(key, r) && r.observedAt <= known ==>
      if RetiredAfter(r, known) then r.status.Active? || r.status.Superseded?
      else
        (r.status.Superseded? && r.validUntil == Some(from) && r.supersededBy == Some(next)) ||
        (NeverValid(r) && from <= r.validFrom)
  }

  ghost predicate ToldAlike(r: Record, after: Record, at: int, known: int) {
    (KnownAt(r, at, known) <==> KnownAt(after, at, known)) &&
    (KnownAt(r, at, known) ==> Face(Rewind(r, known)) == Face(Rewind(after, known)))
  }

  lemma ReplacedIsToldIff(r: Record, from: int, next: Id, now: int, key: Key, known: int)
    ensures ReplacementUnnoticed(r, from, next, key, known) <==>
            (OnTimeline(key, r) ==> forall at :: ToldAlike(r, Replaced(r, from, next, now), at, known))
  {
    var after := Replaced(r, from, next, now);
    if OnTimeline(key, r) && !ReplacementUnnoticed(r, from, next, key, known) {
      assert KnownAt(r, r.validFrom, known) || KnownAt(after, r.validFrom, known);
      assert !ToldAlike(r, after, r.validFrom, known);
    }
  }

  lemma OneRowAgrees(rows: map<Id, Record>, id: Id, row: Record, key: Key, at: int, known: int)
    requires id in rows && OnTimeline(key, row) == OnTimeline(key, rows[id])
    ensures SameFaces(AsOf(rows[id := row], key, at, known), AsOf(rows, key, at, known)) <==>
            (OnTimeline(key, row) ==> ToldAlike(rows[id], row, at, known))
  {
    var after, before := AsOf(rows[id := row], key, at, known), AsOf(rows, key, at, known);
    SameFacesIff(after, before);
    forall x | x != id ensures AgreeAt(after, before, x) {}
    assert AgreeAt(after, before, id) <==> (OnTimeline(key, row) ==> ToldAlike(rows[id], row, at, known));
  }

  /** `supersede_with_existing` leaves what was known as it was exactly when ReplacementUnnoticed: it stores no
      time of retirement, so any other replaced row that was known vanishes or changes in the past. */
  lemma ExistingKeepsThePastIff(s: State, prior: Id, next: Id, own: Key, now: int, key: Key, known: int)
    requires SupersedeExisting(s, prior, next, own, now).result.Ok?
    ensures (forall at :: SameFaces(AsOf(SupersedeExisting(s, prior, next, own, now).state.records, key, at, known),
                                    AsOf(s.records, key, at, known)))
       <==> ReplacementUnnoticed(s.records[prior], ReplacementStart(s.records[next], now), next, key, known)
  {
    var r, from := s.records[prior], ReplacementStart(s.records[next], now);
    var after := SupersedeExisting(s, prior, next, own, now).state.records;
    assert after == s.records[prior := Replaced(r, from, next, now)];
    forall at
      ensures SameFaces(AsOf(after, key, at, known), AsOf(s.records, key, at, known)) <==>
              (OnTimeline(key, r) ==> ToldAlike(r, Replaced(r, from, next, now), at, known))
    {
      OneRowAgrees(s.records, prior, Replaced(r, from, next, now), key, at, known);
    }
    ReplacedIsToldIff(r, from, next, now, key, known);
  }

  // ---------------------------------------------------------------- one retirement against the past

  /** What a row about to be retired must be for the retirement not to show before it: off the timeline, dated
      later, or without an end of validity of its own. */
  predicate RetirementUnnoticed(r: Record, key: Key, known: int) {
    OnTimeline(key, r) && r.observedAt <= known ==> r.validUntil.None?
  }

  lemma RetiredIsToldIff(r: Record, from: int, next: Id, now: int, key: Key, known: int)
    requires r.status.Active? && RowUnretired(r) && now > known
    ensures RetirementUnnoticed(r, key, known) <==>
            (OnTimeline(key, r) ==> forall at :: ToldAlike(r, Retired(r, from, next, now), at, known))
  {
    if !RetirementUnnoticed(r, key, known) {
      assert !ToldAlike(r, Retired(r, from, next, now), r.validFrom, known);
    }
  }

  lemma LaterRowIsUnseen(rows: map<Id, Record>, id: Id, row: Record, key: Key, at: int, known: int)
    requires id !in rows && row.observedAt > known
    ensures AsOf(rows[id := row], key, at, known) == AsOf(rows, key, at, known)
  {
  }

  /** One retirement after `known`, of one row. */
  lemma RetirementKeepsThePastIff(rows: map<Id, Record>, x: Id, from: int, next: Id, now: int, key: Key, known: int)
    requires x in rows && rows[x].status.Active? && RowUnretired(rows[x]) && now > known
    ensures (forall at :: SameFaces(AsOf(rows[x := Retired(rows[x], from, next, now)], key, at, known),
                                    AsOf(rows, key, at, known)))
       <==> RetirementUnnoticed(rows[x], key, known)
  {
    var row := Retired(rows[x], from, next, now);
    forall at
      ensures SameFaces(AsOf(rows[x := row], key, at, known), AsOf(rows, key, at, known)) <==>
              (OnTimeline(key, row) ==> ToldAlike(rows[x], row, at, known))
    {
      OneRowAgrees(rows, x, row, key, at, known);
    }
    RetiredIsToldIff(rows[x], from, next, now, key, known);
  }

  /** A supersession after `known` leaves what was known as it was exactly when the replacement lands on a
      branch or the replaced row, before the call, has no end of validity to lose. */
  lemma SupersedeKeepsThePastIff(s: State, id: Id, prior: Id, own: Key, content: Content, from: int,
                                 branch: Option<Id>, now: int, key: Key, known: int)
    requires Supersede(s, id, prior, own, content, from, branch, now).result.Ok? && id !in s.records
    requires now > known && RowUnretired(s.records[prior])
    ensures (forall at ::
               SameFaces(AsOf(Supersede(s, id, prior, own, content, from, branch, now).state.records, key, at, known),
                         AsOf(s.records, key, at, known)))
       <==> (EffectiveBranch(s, own, branch).None? ==> RetirementUnnoticed(s.records[prior], key, known))
  {
    var target := EffectiveBranch(s, own, branch);
    var row := ReplacementRecord(own, content, from, target, prior, now);
    var after := Supersede(s, id, prior, own, content, from, branch, now).state.records;
    if target.None? {
      var retired := s.records[prior := Retired(s.records[prior], from, id, now)];
      assert after == retired[id := row];
      forall at ensures AsOf(after, key, at, known) == AsOf(retired, key, at, known) {
        LaterRowIsUnseen(retired, id, row, key, at, known);
      }
      RetirementKeepsThePastIff(s.records, prior, from, id, now, key, known);
    } else {
      assert after == s.records[id := row];
      forall at ensures SameFaces(AsOf(after, key, at, known), AsOf(s.records, key, at, known)) {
        LaterRowIsUnseen(s.records, id, row, key, at, known);
      }
    }
  }

  /** One pass of a merge after `known`: it leaves what was known as it was exactly when it retires no parent
      that has an end of validity to lose. */
  lemma MergeRowKeepsThePastIff(rows: map<Id, Record>, issued: set<Id>, c: Merging, id: Id, row: Record, choice: Id,
                                key: Key, known: int)
    requires rows.Keys <= issued && Supplied(rows, issued, c, row, choice) && c.now > known
    requires row.parent.Some? && row.parent.value in rows ==> RowUnretired(rows[row.parent.value])
    ensures (forall at :: SameFaces(AsOf(MergeRow(rows, c, id, row, choice), key, at, known),
                                    AsOf(rows, key, at, known)))
       <==> (Verdict(rows, c, row, choice).Merged? && row.parent.Some? && row.parent.value != choice ==>
             RetirementUnnoticed(rows[row.parent.value], key, known))
  {
    var promoted := Promote(rows, c, id, row, choice);
    forall at ensures AsOf(promoted, key, at, known) == AsOf(rows, key, at, known) {
      if promoted != rows { LaterRowIsUnseen(rows, choice, PromotedRecord(c, id, row), key, at, known); }
    }
    assert choice in promoted;
    if Verdict(rows, c, row, choice).Merged? && row.parent.Some? && row.parent.value != choice {
      var p := row.parent.value;
      assert promoted[p] == rows[p];
      RetirementKeepsThePastIff(promoted, p, SuccessorStart(promoted[choice], c.now), choice, c.now, key, known);
    } else {
      assert MergeRow(rows, c, id, row, choice) == promoted || MergeRow(rows, c, id, row, choice) == rows;
    }
  }

  /** Row x, if the change touches it, has no end of validity to lose. */
  ghost predicate ChangeUnnoticed(rows: map<Id, Record>, after: map<Id, Record>, key: Key, known: int, x: Id) {
    x in rows && x in after && after[x] != rows[x] ==> RetirementUnnoticed(rows[x], key, known)
  }

  ghost predicate AsBefore(after: map<Id, Record>, rows: map<Id, Record>, key: Key, known: int, x: Id) {
    forall at :: AgreeAt(AsOf(after, key, at, known), AsOf(rows, key, at, known), x)
  }

  lemma MergedRowIsToldIff(rows: map<Id, Record>, issued: set<Id>, c: Merging, ids: seq<Id>, choices: seq<Id>,
                           key: Key, known: int, x: Id)
    requires rows.Keys <= issued && Listed(rows, ids, choices) && AllSupplied(rows, issued, c, ids, choices)
    requires c.now > known && (x in rows ==> RowUnretired(rows[x]))
    ensures AsBefore(MergeRows(rows, c, ids, choices), rows, key, known, x) <==>
            ChangeUnnoticed(rows, MergeRows(rows, c, ids, choices), key, known, x)
  {
    var after := MergeRows(rows, c, ids, choices);
    if x in rows {
      MergeRowsEvolve(rows, issued, c, ids, choices, x);
      if after[x] != rows[x] {
        RetiredIsToldIff(rows[x], after[x].validUntil.value, after[x].supersededBy.value, c.now, key, known);
      }
      forall at
        ensures AgreeAt(AsOf(after, key, at, known), AsOf(rows, key, at, known), x) <==>
                (OnTimeline(key, rows[x]) ==> ToldAlike(rows[x], after[x], at, known)) {}
    } else if x in after {
      MergeRowsAdds(rows, issued, c, ids, choices, x);
    }
  }

  /** The whole merge: it leaves what was known as it was exactly when no row it retires has an end of validity
      to lose. */
  lemma MergeKeepsThePastIff(rows: map<Id, Record>, issued: set<Id>, c: Merging, ids: seq<Id>, choices: seq<Id>,
                             key: Key, known: int)
    requires rows.Keys <= issued && Listed(rows, ids, choices) && AllSupplied(rows, issued, c, ids, choices)
    requires c.now > known && forall x :: x in rows ==> RowUnretired(rows[x])
    ensures (forall at :: SameFaces(AsOf(MergeRows(rows, c, ids, choices), key, at, known), AsOf(rows, key, at, known)))
       <==> forall x :: ChangeUnnoticed(rows, MergeRows(rows, c, ids, choices), key, known, x)
  {
    var after := MergeRows(rows, c, ids, choices);
    forall x ensures AsBefore(after, rows, key, known, x) <==> ChangeUnnoticed(rows, after, key, known, x) {
      MergedRowIsToldIff(rows, issued, c, ids, choices, key, known, x);
    }
    AlwaysSameIff(after, rows, key, known);
  }

  lemma AlwaysSameIff(after: map<Id, Record>, rows: map<Id, Record>, key: Key, known: int)
    ensures (forall at :: SameFaces(AsOf(after, key, at, known), AsOf(rows, key, at, known))) <==>
            forall x :: AsBefore(after, rows, key, known, x)
  {
    forall at
      ensures SameFaces(AsOf(after, key, at, known), AsOf(rows, key, at, known)) <==>
              forall x :: AgreeAt(AsOf(after, key, at, known), AsOf(rows, key, at, known), x)
    {
      SameFacesIff(AsOf(after, key, at, known), AsOf(rows, key, at, known));
    }
    if forall x :: AsBefore(after, rows, key, known, x) {
      forall at, x ensures AgreeAt(AsOf(after, key, at, known), AsOf(rows, key, at, known), x) {
        assert AsBefore(after, rows, key, known, x);
      }
    }
  }

  /** A memory created with an end of validity and replaced later: at `known` it was over from `until` on, and
      asked afterwards the store answers that at `known` it was valid for ever. */
  lemma EndOfValidityIsLost(first: Id, second: Id, key: Key, content: Content, next: Content, from: int, until: int,
                            known: int, now: int) returns (trace: seq<State>, steps: seq<Step>)
    requires content.text != "" && first != second && from <= until && known < now
    ensures IsRun(trace, steps) && trace[0] == EMPTY && CutAt(steps, 1, known) && |steps| == 2
    ensures forall step :: step in steps ==> Forward(step) && DatedInOrder(step, known)
    ensures forall at :: at >= until ==>
      first !in TimeTravel(trace[1].records, key, at) && first in AsOf(trace[2].records, key, at, known)
  {
    var memory := NewMemory(content, Active, Some(from), Some(until), None, None, None, None, None);
    steps := [CreateStep(first, key, memory, known), SupersedeStep(second, first, key, next, now, None, now)];
    var created := Apply(EMPTY, steps[0]);
    trace := [EMPTY, created, Apply(created, steps[1])];
    assert Moves(trace, steps, 0) && Moves(trace, steps, 1);
  }
}
