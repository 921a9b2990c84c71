/** Versions tile time: the rows of one chain of supersessions divide the time line between them. */
module Tiling {
  import opened Prelude
  import opened Records
  import opened Transactions
  import opened Runs
  import opened History

  /** A first version and its successors, each valid until the next one starts. */
  ghost predicate Linked(rows: map<Id, Record>, chain: seq<Id>) {
    chain != [] && Distinct(chain) && (forall i :: 0 <= i < |chain| ==> LinkedAt(rows, chain, i))
  }

  ghost predicate LinkedAt(rows: map<Id, Record>, chain: seq<Id>, i: nat)
    requires i < |chain|
  {
    chain[0] in rows && chain[i] in rows && OnMain(rows[chain[i]]) && rows[chain[i]].key == rows[chain[0]].key &&
    if i == |chain| - 1 then rows[chain[i]].supersededBy.None? && rows[chain[i]].validUntil.None?
    else
      chain[i + 1] in rows && rows[chain[i]].supersededBy == Some(chain[i + 1]) && !rows[chain[i]].status.Active? &&
      rows[chain[i]].validUntil == Some(rows[chain[i + 1]].validFrom)
  }

  function Start(rows: map<Id, Record>, chain: seq<Id>, i: nat): int
    requires i < |chain| && chain[i] in rows
  {
    rows[chain[i]].validFrom
  }

  /** The last version, among the first n, that has started by `at`. */
  ghost function LastStarted(rows: map<Id, Record>, chain: seq<Id>, at: int, n: nat): (i: nat)
    requires Linked(rows, chain) && 0 < n <= |chain| && LinkedAt(rows, chain, 0) && Start(rows, chain, 0) <= at
    ensures i < n && LinkedAt(rows, chain, i) && Start(rows, chain, i) <= at
    ensures forall j :: i < j < n ==> LinkedAt(rows, chain, j) && Start(rows, chain, j) > at
  {
    assert LinkedAt(rows, chain, n - 1);
    if Start(rows, chain, n - 1) <= at then n - 1 else LastStarted(rows, chain, at, n - 1)
  }

  /** Rows of the chain that time travel returns. */
  ghost function Shown(rows: map<Id, Record>, key: Key, chain: seq<Id>, at: int): set<Id> {
    set id | id in chain && id in TimeTravel(rows, key, at)
  }

  /** Every version starts no later than each later version, or than the first one. */
  ghost predicate Settled(rows: map<Id, Record>, chain: seq<Id>)
    requires Linked(rows, chain)
  {
    forall i, j :: 0 <= i < j < |chain| ==> StartsBy(rows, chain, i, j)
  }

  ghost predicate StartsBy(rows: map<Id, Record>, chain: seq<Id>, i: nat, j: nat)
    requires Linked(rows, chain) && i < |chain| && j < |chain|
  {
    assert LinkedAt(rows, chain, 0) && LinkedAt(rows, chain, i) && LinkedAt(rows, chain, j);
    Start(rows, chain, i) <= Max(Start(rows, chain, j), Start(rows, chain, 0))
  }

  lemma LastStartedIsShown(rows: map<Id, Record>, key: Key, chain: seq<Id>, at: int)
    requires Linked(rows, chain) && LinkedAt(rows, chain, 0) && Start(rows, chain, 0) <= at &&
             InScope(key, rows[chain[0]].key)
    ensures chain[LastStarted(rows, chain, at, |chain|)] in Shown(rows, key, chain, at)
  {
    var i := LastStarted(rows, chain, at, |chain|);
    if i < |chain| - 1 { assert LinkedAt(rows, chain, i + 1); }
  }

  lemma OnlyLastStartedIsShown(rows: map<Id, Record>, key: Key, chain: seq<Id>, at: int, j: nat)
    requires Linked(rows, chain) && LinkedAt(rows, chain, 0) && Start(rows, chain, 0) <= at && Settled(rows, chain)
    requires j < |chain| && chain[j] in Shown(rows, key, chain, at)
    ensures j == LastStarted(rows, chain, at, |chain|)
  {
    var i := LastStarted(rows, chain, at, |chain|);
    var k := if j < i then j + 1 else j;
    assert LinkedAt(rows, chain, k) && (k < i ==> StartsBy(rows, chain, k, i));
    assert LinkedAt(rows, chain, j);
  }

  /** Some version before i is shown at an instant at which the first has started and version i has not. */
  lemma {:induction false} EarlierIsShown(rows: map<Id, Record>, key: Key, chain: seq<Id>, at: int,
                                          i: nat)
    returns (j: nat)
    requires Linked(rows, chain) && LinkedAt(rows, chain, 0) && InScope(key, rows[chain[0]].key) && 0 < i < |chain|
    requires LinkedAt(rows, chain, i) && Start(rows, chain, 0) <= at < Start(rows, chain, i)
    ensures j < i && chain[j] in Shown(rows, key, chain, at)
  {
    assert LinkedAt(rows, chain, i - 1);
    if Start(rows, chain, i - 1) <= at {
      j := i - 1;
    } else {
      j := EarlierIsShown(rows, key, chain, at, i - 1);
    }
  }

  /** At every instant from the first start on, time travel returns exactly one version, the last one
      that has started, if and only if the starts are settled. */
  lemma VersionsTileIff(rows: map<Id, Record>, key: Key, chain: seq<Id>)
    requires Linked(rows, chain) && LinkedAt(rows, chain, 0) && InScope(key, rows[chain[0]].key)
    ensures (forall at | Start(rows, chain, 0) <= at ::
               Shown(rows, key, chain, at) == {chain[LastStarted(rows, chain, at, |chain|)]})
       <==> Settled(rows, chain)
  {
    if i, j :| 0 <= i < j < |chain| && !StartsBy(rows, chain, i, j) {
      assert LinkedAt(rows, chain, i) && LinkedAt(rows, chain, j);
      var at := Max(Start(rows, chain, j), Start(rows, chain, 0));
      var e := EarlierIsShown(rows, key, chain, at, i);
      LastStartedIsShown(rows, key, chain, at);
      assert chain[e] != chain[LastStarted(rows, chain, at, |chain|)];
    } else {
      forall at | Start(rows, chain, 0) <= at
        ensures Shown(rows, key, chain, at) == {chain[LastStarted(rows, chain, at, |chain|)]}
      {
        LastStartedIsShown(rows, key, chain, at);
        forall id | id in Shown(rows, key, chain, at) ensures id == chain[LastStarted(rows, chain, at, |chain|)] {
          var j :| 0 <= j < |chain| && chain[j] == id;
          OnlyLastStartedIsShown(rows, key, chain, at, j);
        }
      }
    }
  }

  // ---------------------------------------------------------------- the chains of a run

  /** Creations without an end of validity, supersessions, snapshots, branches and restores. */
  predicate Versioning(step: Step) {
    (step.CreateStep? && step.memory.validUntil.None?) || step.SupersedeStep? ||
    step.SnapshotStep? || step.BranchStep? || step.RestoreStep?
  }

  function Extend(chain: seq<Id>, prior: Id, id: Id): seq<Id> {
    if chain != [] && chain[|chain| - 1] == prior then chain + [id] else chain
  }

  /** A main-line row that replaces no main-line row starts a chain; one that does extends it. */
  ghost function ChainsAfter(chains: set<seq<Id>>, s: State, step: Step): set<seq<Id>> {
    match step
    case CreateStep(id, key, memory, now) =>
      if Create(s, id, key, memory, now).result.Ok? && EffectiveBranch(s, key, memory.branch).None? then chains + {[id]}
      else chains
    case SupersedeStep(id, prior, key, content, from, branch, now) =>
      if Supersede(s, id, prior, key, content, from, branch, now).result.Err? ||
         EffectiveBranch(s, key, branch).Some? then chains
      else if OnMain(s.records[prior]) then set chain | chain in chains :: Extend(chain, prior, id)
      else chains + {[id]}
    case _ => chains
  }

  ghost function Chains(trace: seq<State>, steps: seq<Step>, i: nat): set<seq<Id>>
    requires i < |trace| && |trace| == |steps| + 1
  {
    if i == 0 then {} else ChainsAfter(Chains(trace, steps, i - 1), trace[i - 1], steps[i - 1])
  }

  ghost predicate Partitioned(rows: map<Id, Record>, chains: set<seq<Id>>) {
    (forall chain :: chain in chains ==> Linked(rows, chain)) &&
    (forall id :: id in rows && OnMain(rows[id]) ==> exists chain :: chain in chains && id in chain) &&
    (forall a, b, id :: a in chains && b in chains && id in a && id in b ==> a == b)
  }

  lemma LinkedFrame(rows: map<Id, Record>, after: map<Id, Record>, chain: seq<Id>)
    requires Linked(rows, chain) && forall id :: id in chain ==> id in rows && id in after && after[id] == rows[id]
    ensures Linked(after, chain)
  {
    forall i | 0 <= i < |chain| ensures LinkedAt(after, chain, i) {
      assert LinkedAt(rows, chain, i);
      if i < |chain| - 1 { assert chain[i + 1] in chain; }
    }
  }

  lemma ChainRows(rows: map<Id, Record>, chains: set<seq<Id>>, chain: seq<Id>, id: Id)
    requires Partitioned(rows, chains) && chain in chains && id in chain
    ensures id in rows && OnMain(rows[id])
    ensures rows[id].status.Active? ==> chain[|chain| - 1] == id
  {
    var i :| 0 <= i < |chain| && chain[i] == id;
    assert LinkedAt(rows, chain, i);
  }

  lemma NewChain(rows: map<Id, Record>, chains: set<seq<Id>>, id: Id, r: Record)
    requires Partitioned(rows, chains) && id !in rows && OnMain(r) && r.supersededBy.None? && r.validUntil.None?
    ensures Partitioned(rows[id := r], chains + {[id]})
  {
    var after := rows[id := r];
    assert LinkedAt(after, [id], 0);
    forall chain | chain in chains ensures Linked(after, chain) && id !in chain {
      forall x | x in chain ensures x in rows { ChainRows(rows, chains, chain, x); }
      LinkedFrame(rows, after, chain);
    }
    forall x | x in after && OnMain(after[x]) ensures exists chain :: chain in chains + {[id]} && x in chain {
      if x == id {
        assert id in [id];
      } else {
        var chain :| chain in chains && x in chain;
      }
    }
  }

  lemma OffMainRow(rows: map<Id, Record>, chains: set<seq<Id>>, id: Id, r: Record)
    requires Partitioned(rows, chains) && (id in rows ==> !OnMain(rows[id])) && !OnMain(r)
    ensures Partitioned(rows[id := r], chains)
  {
    forall chain | chain in chains ensures Linked(rows[id := r], chain) {
      forall x | x in chain ensures x in rows && OnMain(rows[x]) { ChainRows(rows, chains, chain, x); }
      LinkedFrame(rows, rows[id := r], chain);
    }
  }

  lemma ExtendedIsLinked(rows: map<Id, Record>, chain: seq<Id>, prior: Id, id: Id, r: Record, now: int)
    requires Linked(rows, chain) && chain[|chain| - 1] == prior && id !in rows && prior in rows
    requires OnMain(r) && r.supersededBy.None? && r.validUntil.None? && r.key == rows[prior].key
    ensures Linked(rows[id := r][prior := Retired(rows[prior], r.validFrom, id, now)], chain + [id])
  {
    var after := rows[id := r][prior := Retired(rows[prior], r.validFrom, id, now)];
    forall i | 0 <= i < |chain| ensures LinkedAt(after, chain + [id], i) {
      assert LinkedAt(rows, chain, i);
      if i + 1 < |chain| { assert LinkedAt(rows, chain, i + 1); }
    }
    forall i | 0 <= i < |chain| ensures chain[i] != id { assert LinkedAt(rows, chain, i); }
    assert LinkedAt(rows, chain, |chain| - 1);
    assert LinkedAt(after, chain + [id], |chain|);
  }

  lemma ExtendedChain(rows: map<Id, Record>, chains: set<seq<Id>>, prior: Id, id: Id, r: Record, now: int)
    requires Partitioned(rows, chains) && id !in rows && prior in rows && OnMain(rows[prior]) &&
             rows[prior].status.Active?
    requires OnMain(r) && r.supersededBy.None? && r.validUntil.None? && r.key == rows[prior].key
    ensures Partitioned(rows[id := r][prior := Retired(rows[prior], r.validFrom, id, now)],
                        set chain | chain in chains :: Extend(chain, prior, id))
  {
    var after := rows[id := r][prior := Retired(rows[prior], r.validFrom, id, now)];
    var extended := set chain | chain in chains :: Extend(chain, prior, id);
    var own :| own in chains && prior in own;
    ChainRows(rows, chains, own, prior);
    assert Extend(own, prior, id) == own + [id] && own + [id] in extended;
    ExtendedIsLinked(rows, own, prior, id, r, now);
    forall chain | chain in chains
      ensures Linked(after, Extend(chain, prior, id)) && id !in chain
      ensures Extend(chain, prior, id) == if chain == own then own + [id] else chain
    {
      forall x | x in chain ensures x in rows { ChainRows(rows, chains, chain, x); }
      if chain != own {
        assert prior !in chain;
        assert Linked(rows, chain);
        assert chain[|chain| - 1] in chain;
        LinkedFrame(rows, after, chain);
      }
    }
    forall x | x in after && OnMain(after[x]) ensures exists chain :: chain in extended && x in chain {
      if x == id {
        assert id in own + [id];
      } else {
        var chain :| chain in chains && x in chain;
        assert Extend(chain, prior, id) in extended && x in Extend(chain, prior, id);
      }
    }
  }

  lemma StepPartitions(s: State, chains: set<seq<Id>>, step: Step)
    requires Enabled(s, step) && Issued(s) && Versioning(step) && Partitioned(s.records, chains)
    ensures Partitioned(Apply(s, step).records, ChainsAfter(chains, s, step)) && Issued(Apply(s, step))
  {
    if step.CreateStep? {
      if Create(s, step.id, step.key, step.memory, step.now).result.Ok? {
        var r := CreatedRecord(s, step.key, step.memory, step.now);
        if OnMain(r) { NewChain(s.records, chains, step.id, r); } else { OffMainRow(s.records, chains, step.id, r); }
      }
    } else if step.SupersedeStep? {
      SupersedePartitions(s, chains, step);
    }
  }

  lemma SupersedePartitions(s: State, chains: set<seq<Id>>, step: Step)
    requires step.SupersedeStep? && Enabled(s, step) && Issued(s) && Partitioned(s.records, chains)
    ensures Partitioned(Apply(s, step).records, ChainsAfter(chains, s, step)) && Issued(Apply(s, step))
  {
    if Owns(s, step.key, step.prior) && s.records[step.prior].status.Active? {
      var target := EffectiveBranch(s, step.key, step.branch);
      var prior := s.records[step.prior];
      var r := ReplacementRecord(step.key, step.content, step.validFrom, target, step.prior, step.now);
      if target.Some? {
        OffMainRow(s.records, chains, step.id, r);
      } else if OnMain(prior) {
        ExtendedChain(s.records, chains, step.prior, step.id, r, step.now);
      } else {
        NewChain(s.records, chains, step.id, r);
        OffMainRow(s.records[step.id := r], chains + {[step.id]}, step.prior,
                   Retired(prior, step.validFrom, step.id, step.now));
      }
    }
  }

  /** At every point of a run the main line is partitioned into linked chains. */
  lemma {:induction false} RunPartitions(trace: seq<State>, steps: seq<Step>, i: nat)
    requires IsRun(trace, steps) && trace[0] == EMPTY && i < |trace|
    requires forall step :: step in steps ==> Versioning(step)
    ensures Partitioned(trace[i].records, Chains(trace, steps, i)) && Issued(trace[i])
  {
    if i > 0 {
      RunPartitions(trace, steps, i - 1);
      assert Moves(trace, steps, i - 1);
      StepPartitions(trace[i - 1], Chains(trace, steps, i - 1), steps[i - 1]);
    }
  }

  // ---------------------------------------------------------------- forward supersession

  /** No supersession dates its replacement before the row it replaces. */
  ghost predicate DatedForward(trace: seq<State>, steps: seq<Step>)
    requires |trace| == |steps| + 1
  {
    forall i :: 0 <= i < |steps| ==> ForwardAt(trace[i], steps[i])
  }

  predicate ForwardAt(s: State, step: Step) {
    step.SupersedeStep? && step.prior in s.records ==> s.records[step.prior].validFrom <= step.validFrom
  }

  ghost predicate NonDecreasing(rows: map<Id, Record>, chain: seq<Id>) {
    forall i :: 0 <= i < |chain| - 1 ==> InOrderAt(rows, chain, i)
  }

  predicate InOrderAt(rows: map<Id, Record>, chain: seq<Id>, i: nat)
    requires i < |chain| - 1
  {
    chain[i] in rows && chain[i + 1] in rows && Start(rows, chain, i) <= Start(rows, chain, i + 1)
  }

  lemma {:induction false} NonDecreasingIsSettled(rows: map<Id, Record>, chain: seq<Id>, i: nat, j: nat)
    requires Linked(rows, chain) && NonDecreasing(rows, chain) && i <= j < |chain|
    ensures LinkedAt(rows, chain, i) && LinkedAt(rows, chain, j) && Start(rows, chain, i) <= Start(rows, chain, j)
  {
    assert LinkedAt(rows, chain, i) && LinkedAt(rows, chain, j);
    if i < j {
      NonDecreasingIsSettled(rows, chain, i, j - 1);
      assert InOrderAt(rows, chain, j - 1);
    }
  }

  lemma SameStartsStayForward(rows: map<Id, Record>, after: map<Id, Record>, chain: seq<Id>)
    requires NonDecreasing(rows, chain)
    requires forall x :: x in chain ==> x in rows && x in after && after[x].validFrom == rows[x].validFrom
    ensures NonDecreasing(after, chain)
  {
    forall i | 0 <= i < |chain| - 1 ensures InOrderAt(after, chain, i) {
      assert InOrderAt(rows, chain, i);
      assert chain[i] in chain && chain[i + 1] in chain;
    }
  }

  lemma ExtensionStaysForward(rows: map<Id, Record>, chain: seq<Id>, prior: Id, id: Id)
    requires NonDecreasing(rows, chain) && chain != [] && chain[|chain| - 1] == prior
    requires prior in rows && id in rows && rows[prior].validFrom <= rows[id].validFrom
    ensures NonDecreasing(rows, chain + [id])
  {
    forall i | 0 <= i < |chain| ensures InOrderAt(rows, chain + [id], i) {
      if i < |chain| - 1 { assert InOrderAt(rows, chain, i); }
    }
  }

  lemma StepStaysForward(s: State, chains: set<seq<Id>>, step: Step, chain: seq<Id>)
    requires Enabled(s, step) && Issued(s) && Versioning(step) && Partitioned(s.records, chains) && ForwardAt(s, step)
    requires forall c :: c in chains ==> NonDecreasing(s.records, c)
    requires chain in ChainsAfter(chains, s, step)
    ensures NonDecreasing(Apply(s, step).records, chain)
  {
    var after := Apply(s, step).records;
    forall c | c in chains ensures NonDecreasing(after, c) {
      forall x | x in c ensures x in s.records && x in after && after[x].validFrom == s.records[x].validFrom {
        ChainRows(s.records, chains, c, x);
      }
      SameStartsStayForward(s.records, after, c);
    }
    if chain !in chains && step.SupersedeStep? && OnMain(s.records[step.prior]) {
      var c :| c in chains && chain == Extend(c, step.prior, step.id);
      ExtensionStaysForward(after, c, step.prior, step.id);
    }
  }

  lemma {:induction false} RunStaysForward(trace: seq<State>, steps: seq<Step>, i: nat)
    requires IsRun(trace, steps) && trace[0] == EMPTY && i < |trace| && DatedForward(trace, steps)
    requires forall step :: step in steps ==> Versioning(step)
    ensures forall c :: c in Chains(trace, steps, i) ==> NonDecreasing(trace[i].records, c)
  {
    if i > 0 {
      RunStaysForward(trace, steps, i - 1);
      RunPartitions(trace, steps, i - 1);
      assert Moves(trace, steps, i - 1);
      assert ForwardAt(trace[i - 1], steps[i - 1]);
      forall c | c in Chains(trace, steps, i) ensures NonDecreasing(trace[i].records, c) {
        StepStaysForward(trace[i - 1], Chains(trace, steps, i - 1), steps[i - 1], c);
      }
    }
  }

  /** In every run that dates its supersessions forward, however many chains it interleaves, each instant
      from a chain's first start on shows exactly one of its versions: the last that has started. */
  lemma VersionsTileTime(trace: seq<State>, steps: seq<Step>, i: nat, chain: seq<Id>, key: Key, at: int)
    requires IsRun(trace, steps) && trace[0] == EMPTY && i < |trace| && DatedForward(trace, steps)
    requires forall step :: step in steps ==> Versioning(step)
    requires chain in Chains(trace, steps, i)
    ensures Linked(trace[i].records, chain) && LinkedAt(trace[i].records, chain, 0)
    ensures InScope(key, trace[i].records[chain[0]].key) && Start(trace[i].records, chain, 0) <= at ==>
              Shown(trace[i].records, key, chain, at) == {chain[LastStarted(trace[i].records, chain, at, |chain|)]}
  {
    var rows := trace[i].records;
    RunPartitions(trace, steps, i);
    RunStaysForward(trace, steps, i);
    assert LinkedAt(rows, chain, 0);
    if InScope(key, rows[chain[0]].key) {
      forall a, b | 0 <= a < b < |chain| ensures StartsBy(rows, chain, a, b) {
        NonDecreasingIsSettled(rows, chain, a, b);
      }
      VersionsTileIff(rows, key, chain);
    }
  }
}
