/** The execution gate's cache of prepared memory contexts: bounded, and revalidated against settings and
    the namespace version on every use. */
module Gate {
  import opened Prelude
  import opened Records
  import opened Transactions
  import opened Runs
  import opened MergeFacts
  import Supersession

  const GATED_SCOPES := {"task:write", "autonomous:run", "coding:write", "command:execute"}
  const FAST_SCOPES := {"coding:write", "command:execute"}

  datatype Settings = Settings(enabled: bool, required: bool, contextLimit: int, canonicalLimit: int,
                               verificationTtl: int)

  datatype Bundle = Bundle(version: nat, rendered: string)

  datatype Slot = Slot(key: Key, scope: string)

  /** `storedAt` is in seconds of a monotonic clock. */
  datatype Entry = Entry(storedAt: real, version: nat, settings: Settings, bundle: Bundle)

  datatype Limits = Limits(ttlMs: int, maxEntries: nat)

  /** One control action: who asks, when, under which settings, and what preparing a context would render. */
  datatype Request = Request(key: Key, scope: string, now: real, settings: Settings, rendered: string)

  datatype Answer = Ungated | Hit(bundle: Bundle) | Prepared(bundle: Bundle)

  type Cache = map<Slot, Entry>

  predicate Usable(e: Entry, l: Limits, q: Request, version: nat) {
    (q.now - e.storedAt) * 1000.0 < l.ttlMs as real && e.version == version && e.settings == q.settings
  }

  predicate Cached(q: Request, l: Limits) {
    q.scope in FAST_SCOPES && l.ttlMs > 0
  }

  /** The namespace version read for the check is also the one the prepared bundle records. */
  function Reply(cache: Cache, l: Limits, q: Request, version: nat): Answer {
    var slot := Slot(q.key, q.scope);
    if q.scope !in GATED_SCOPES then Ungated
    else if Cached(q, l) && slot in cache && Usable(cache[slot], l, q, version) then Hit(cache[slot].bundle)
    else Prepared(Bundle(version, q.rendered))
  }

  predicate IsOldest(cache: Cache, slot: Slot) {
    slot in cache && forall other :: other in cache ==> cache[slot].storedAt <= cache[other].storedAt
  }

  predicate MustEvict(cache: Cache, l: Limits, q: Request) {
    |cache| >= l.maxEntries && Slot(q.key, q.scope) !in cache
  }

  /** The cache after the request; `victim` is the oldest entry, evicted when there is no room. */
  function Refreshed(cache: Cache, l: Limits, q: Request, version: nat, victim: Slot): Cache {
    if !Cached(q, l) || !Reply(cache, l, q, version).Prepared? then cache
    else
      var room := if MustEvict(cache, l, q) then cache - {victim} else cache;
      room[Slot(q.key, q.scope) := Entry(q.now, version, q.settings, Bundle(version, q.rendered))]
  }

  class GateCache {
    var cache: Cache
    const limits: Limits

    constructor (limits: Limits)
      ensures cache == map[] && this.limits == limits
    {
      cache := map[];
      this.limits := limits;
    }

    method Oldest() returns (slot: Slot)
      requires cache != map[]
      ensures IsOldest(cache, slot)
    {
      slot :| slot in cache;
      var pending := cache.Keys - {slot};
      while pending != {}
        invariant slot in cache && pending <= cache.Keys
        invariant forall other :: other in cache && other !in pending ==> cache[slot].storedAt <= cache[other].storedAt
      {
        var other :| other in pending;
        if cache[other].storedAt < cache[slot].storedAt { slot := other; }
        pending := pending - {other};
      }
    }

    method RequireControlActionMemory(q: Request, version: nat) returns (answer: Answer, ghost victim: Slot)
      requires limits.maxEntries >= 1
      modifies this
      ensures answer == Reply(old(cache), limits, q, version)
      ensures cache == Refreshed(old(cache), limits, q, version, victim)
      ensures MustEvict(old(cache), limits, q) ==> IsOldest(old(cache), victim)
    {
      var slot := Slot(q.key, q.scope);
      victim := slot;
      if MustEvict(cache, limits, q) { victim := Oldest(); }
      if q.scope !in GATED_SCOPES { return Ungated, victim; }
      var bundle;
      if q.scope in FAST_SCOPES && limits.ttlMs > 0 {
        if slot in cache && (q.now - cache[slot].storedAt) * 1000.0 < limits.ttlMs as real &&
           cache[slot].version == version && cache[slot].settings == q.settings {
          return Hit(cache[slot].bundle), victim;
        }
        bundle := Bundle(version, q.rendered);
        if |cache| >= limits.maxEntries && slot !in cache {
          var oldest := Oldest();
          victim := oldest;
          cache := cache - {oldest};
        }
        cache := cache[slot := Entry(q.now, bundle.version, q.settings, bundle)];
      } else {
        bundle := Bundle(version, q.rendered);
      }
      answer := Prepared(bundle);
    }
  }

  // ---------------------------------------------------------------- what a version number stands for

  function Version(s: State, key: Key): nat {
    NamespaceOf(s, key).version
  }

  /** What a context can show of a record. */
  datatype Shown = Shown(content: Content, status: Status, validFrom: int, validUntil: Option<int>)

  function ShownOf(r: Record): Shown {
    Shown(r.content, r.status, r.validFrom, r.validUntil)
  }

  function NamespaceRows(s: State, key: Key): map<Id, Shown> {
    map id | id in s.records && s.records[id].key == key :: ShownOf(s.records[id])
  }

  /** The merge touches rows of its own namespace only. */
  lemma {:induction false} MergeTouchesOwnRows(rows: map<Id, Record>, issued: set<Id>, c: Merging, ids: seq<Id>,
                                               choices: seq<Id>, x: Id)
    requires rows.Keys <= issued && Listed(rows, ids, choices) && AllSupplied(rows, issued, c, ids, choices)
    requires x in rows && rows[x].key != c.key
    ensures x in MergeRows(rows, c, ids, choices) && MergeRows(rows, c, ids, choices)[x] == rows[x]
  {
    if ids != [] {
      var n := |ids| - 1;
      SuppliedPrefix(rows, issued, c, ids, choices, n);
      MergeTouchesOwnRows(rows, issued, c, ids[..n], choices[..n], x);
      MergeRowsKeys(rows, issued, c, ids[..n], choices[..n]);
      assert SuppliedAt(rows, issued, c, ids, choices, n);
    }
  }

  lemma MergeVersion(s: State, step: Step, key: Key)
    requires step.MergeStep? && Enabled(s, step) && Issued(s)
    ensures Version(Apply(s, step), key) >= Version(s, key)
    ensures Version(Apply(s, step), key) == Version(s, key) ==>
            NamespaceRows(Apply(s, step), key) == NamespaceRows(s, key)
  {
    var c := Merging(step.key, step.strategy == "verified_only", step.now);
    var after := Apply(s, step);
    if Version(after, key) == Version(s, key) && after.records != s.records {
      forall x
        ensures x in s.records && s.records[x].key == key ==> x in after.records && after.records[x] == s.records[x]
        ensures x in after.records && after.records[x].key == key ==> x in s.records && s.records[x].key == key
      {
        if x in s.records {
          MergeRowsEvolve(s.records, s.issued, c, step.ids, step.choices, x);
          if s.records[x].key != c.key { MergeTouchesOwnRows(s.records, s.issued, c, step.ids, step.choices, x); }
        } else if x in after.records {
          MergeRowsAdds(s.records, s.issued, c, step.ids, step.choices, x);
        }
      }
    }
  }

  /** Rows of other namespaces show what they showed. */
  ghost predicate OthersKept(rows: map<Id, Record>, after: map<Id, Record>, own: Key) {
    forall x :: KeptAt(rows, after, own, x)
  }

  ghost predicate KeptAt(rows: map<Id, Record>, after: map<Id, Record>, own: Key, x: Id) {
    (x in rows && rows[x].key != own ==>
     x in after && after[x].key == rows[x].key && ShownOf(after[x]) == ShownOf(rows[x])) &&
    (x in after && after[x].key != own ==> x in rows && rows[x].key == after[x].key)
  }

  lemma OthersKeptRows(s: State, after: State, own: Key, key: Key)
    requires OthersKept(s.records, after.records, own) && key != own
    ensures NamespaceRows(after, key) == NamespaceRows(s, key)
  {
    forall x
      ensures x in NamespaceRows(after, key) <==> x in NamespaceRows(s, key)
      ensures x in NamespaceRows(s, key) ==> NamespaceRows(after, key)[x] == NamespaceRows(s, key)[x]
    {
      assert KeptAt(s.records, after.records, own, x);
    }
  }

  /** Steps that name their namespace raise its version or leave the rows alone. */
  lemma KeyedStepVersion(s: State, step: Step, own: Key)
    requires Enabled(s, step) && Issued(s) && !step.MergeStep? && !step.SourcesStep? && own == step.key
    ensures forall key :: Version(Apply(s, step), key) >= Version(s, key)
    ensures Version(Apply(s, step), own) == Version(s, own) ==> Apply(s, step).records == s.records
  {
  }

  lemma KeyedStepKeepsOthers(s: State, step: Step, own: Key)
    requires Enabled(s, step) && Issued(s) && !step.MergeStep? && !step.SourcesStep? && own == step.key
    ensures OthersKept(s.records, Apply(s, step).records, own)
  {
    forall x ensures KeptAt(s.records, Apply(s, step).records, own, x) {}
  }

  /** No transaction lowers a version, and one that leaves it alone leaves the namespace's rows alone. */
  lemma StepVersion(s: State, step: Step, key: Key)
    requires Enabled(s, step) && Issued(s)
    ensures Version(Apply(s, step), key) >= Version(s, key)
    ensures Version(Apply(s, step), key) == Version(s, key) ==>
            NamespaceRows(Apply(s, step), key) == NamespaceRows(s, key)
  {
    if step.MergeStep? {
      MergeVersion(s, step, key);
    } else if step.SourcesStep? {
      SourcesVersion(s, step, key);
    } else {
      KeyedStepVersion(s, step, step.key);
      if key != step.key {
        KeyedStepKeepsOthers(s, step, step.key);
        OthersKeptRows(s, Apply(s, step), step.key, key);
      }
    }
  }

  lemma SourcesVersion(s: State, step: Step, key: Key)
    requires step.SourcesStep?
    ensures Version(Apply(s, step), key) >= Version(s, key)
    ensures NamespaceRows(Apply(s, step), key) == NamespaceRows(s, key)
  {
  }

  // ---------------------------------------------------------------- runs

  datatype Event = Mutate(step: Step) | Ask(q: Request, victim: Slot)

  datatype World = World(store: State, cache: Cache)

  ghost predicate Possible(w: World, l: Limits, e: Event) {
    match e
    case Mutate(step) => Enabled(w.store, step)
    case Ask(q, victim) => MustEvict(w.cache, l, q) ==> IsOldest(w.cache, victim)
  }

  ghost function After(w: World, l: Limits, e: Event): World
    requires Possible(w, l, e)
  {
    match e
    case Mutate(step) => w.(store := Apply(w.store, step))
    case Ask(q, victim) => w.(cache := Refreshed(w.cache, l, q, Version(w.store, q.key), victim))
  }

  ghost predicate IsHistory(trace: seq<World>, l: Limits, events: seq<Event>) {
    |trace| == |events| + 1 && trace[0] == World(EMPTY, map[]) &&
    forall i :: 0 <= i < |events| ==> Happens(trace, l, events, i)
  }

  ghost predicate Happens(trace: seq<World>, l: Limits, events: seq<Event>, i: nat)
    requires i < |events| && |trace| == |events| + 1
  {
    Possible(trace[i], l, events[i]) && trace[i + 1] == After(trace[i], l, events[i])
  }

  lemma {:induction false} AlwaysIssued(trace: seq<World>, l: Limits, events: seq<Event>, i: nat)
    requires IsHistory(trace, l, events) && i < |trace|
    ensures Issued(trace[i].store)
  {
    if i > 0 {
      AlwaysIssued(trace, l, events, i - 1);
      assert Happens(trace, l, events, i - 1);
      if events[i - 1].Mutate? { Supersession.StepIssues(trace[i - 1].store, events[i - 1].step); }
    }
  }

  /** The cache never outgrows its maximum. */
  lemma {:induction false} CacheIsBounded(trace: seq<World>, l: Limits, events: seq<Event>, i: nat)
    requires IsHistory(trace, l, events) && i < |trace| && l.maxEntries >= 1
    ensures |trace[i].cache| <= l.maxEntries
  {
    if i > 0 {
      CacheIsBounded(trace, l, events, i - 1);
      assert Happens(trace, l, events, i - 1);
    }
  }

  /** Request i of the history prepared the context that this entry holds. */
  ghost predicate StoredBy(trace: seq<World>, l: Limits, events: seq<Event>, i: nat, slot: Slot, e: Entry)
    requires i < |events| && |trace| == |events| + 1
  {
    events[i].Ask? && events[i].q.key == slot.key && events[i].q.scope == slot.scope &&
    Reply(trace[i].cache, l, events[i].q, Version(trace[i].store, slot.key)) == Prepared(e.bundle) &&
    e == Entry(events[i].q.now, Version(trace[i].store, slot.key), events[i].q.settings, e.bundle)
  }

  lemma {:induction false} EntryOrigin(trace: seq<World>, l: Limits, events: seq<Event>, j: nat,
                                       slot: Slot)
    returns (i: nat)
    requires IsHistory(trace, l, events) && j < |trace| && slot in trace[j].cache
    ensures i < j && StoredBy(trace, l, events, i, slot, trace[j].cache[slot])
  {
    assert Happens(trace, l, events, j - 1);
    if slot in trace[j - 1].cache && trace[j].cache[slot] == trace[j - 1].cache[slot] {
      i := EntryOrigin(trace, l, events, j - 1, slot);
    } else {
      i := j - 1;
    }
  }

  lemma {:induction false} VersionTells(trace: seq<World>, l: Limits, events: seq<Event>, i: nat, j: nat, key: Key)
    requires IsHistory(trace, l, events) && i <= j < |trace|
    ensures Version(trace[i].store, key) <= Version(trace[j].store, key)
    ensures Version(trace[i].store, key) == Version(trace[j].store, key) ==>
            NamespaceRows(trace[i].store, key) == NamespaceRows(trace[j].store, key)
  {
    if i < j {
      VersionTells(trace, l, events, i, j - 1, key);
      AlwaysIssued(trace, l, events, j - 1);
      assert Happens(trace, l, events, j - 1);
      if events[j - 1].Mutate? { StepVersion(trace[j - 1].store, events[j - 1].step, key); }
    }
  }

  /** Every hit returns a context that an earlier request prepared for the same user, workspace and scope,
      less than the time to live ago, under the same settings and at the same version; and since then no
      row of that namespace was added, removed or changed in text, confidence, status or validity. */
  lemma HitsAreSound(trace: seq<World>, l: Limits, events: seq<Event>, j: nat) returns (i: nat)
    requires IsHistory(trace, l, events) && j < |events| && events[j].Ask?
    requires Reply(trace[j].cache, l, events[j].q, Version(trace[j].store, events[j].q.key)).Hit?
    ensures i < j && events[i].Ask? && events[i].q.key == events[j].q.key && events[i].q.scope == events[j].q.scope
    ensures events[i].q.settings == events[j].q.settings &&
            (events[j].q.now - events[i].q.now) * 1000.0 < l.ttlMs as real
    ensures var key := events[j].q.key;
      Reply(trace[i].cache, l, events[i].q, Version(trace[i].store, key)) ==
        Prepared(Reply(trace[j].cache, l, events[j].q, Version(trace[j].store, key)).bundle) &&
      Version(trace[i].store, key) == Version(trace[j].store, key) &&
      NamespaceRows(trace[i].store, key) == NamespaceRows(trace[j].store, key)
  {
    var slot := Slot(events[j].q.key, events[j].q.scope);
    i := EntryOrigin(trace, l, events, j, slot);
    VersionTells(trace, l, events, i, j, slot.key);
  }

  // ---------------------------------------------------------------- when there is a hit

  /** The event throws this entry out. */
  predicate Evicts(w: World, l: Limits, e: Event, slot: Slot) {
    e.Ask? && MustEvict(w.cache, l, e.q) && e.victim == slot
  }

  predicate AsksFor(e: Event, slot: Slot) {
    e.Ask? && e.q.key == slot.key && e.q.scope == slot.scope
  }

  lemma {:induction false} EntryStays(trace: seq<World>, l: Limits, events: seq<Event>, i: nat, j: nat, slot: Slot)
    requires IsHistory(trace, l, events) && i <= j < |trace| && slot in trace[i].cache
    requires forall m :: i <= m < j ==> !Evicts(trace[m], l, events[m], slot) && !AsksFor(events[m], slot)
    ensures slot in trace[j].cache && trace[j].cache[slot] == trace[i].cache[slot]
  {
    if i < j {
      EntryStays(trace, l, events, i, j - 1, slot);
      assert Happens(trace, l, events, j - 1);
    }
  }

  /** Of a request that had its context prepared and stored, and the next one for the same user, workspace and
      scope: that one is a hit, on the stored context, exactly when it comes within the time to live, under the
      same settings and at the same version, unless the entry was evicted in between. */
  lemma NextRequestHitsIff(trace: seq<World>, l: Limits, events: seq<Event>, i: nat, j: nat)
    requires IsHistory(trace, l, events) && i < j < |events| && events[i].Ask? && l.ttlMs > 0
    requires events[i].q.scope == "coding:write" || events[i].q.scope == "command:execute"
    requires Reply(trace[i].cache, l, events[i].q, Version(trace[i].store, events[i].q.key)).Prepared?
    requires AsksFor(events[j], Slot(events[i].q.key, events[i].q.scope))
    requires forall m :: i < m < j ==>
      var slot := Slot(events[i].q.key, events[i].q.scope);
      !Evicts(trace[m], l, events[m], slot) && !AsksFor(events[m], slot)
    ensures var was, now := events[i].q, events[j].q;
      var before, next := Version(trace[i].store, was.key), Version(trace[j].store, was.key);
      Reply(trace[j].cache, l, now, next) ==
        if (now.now - was.now) * 1000.0 < l.ttlMs as real && now.settings == was.settings && before == next
        then Hit(Bundle(before, was.rendered)) else Prepared(Bundle(next, now.rendered))
  {
    var slot := Slot(events[i].q.key, events[i].q.scope);
    assert Happens(trace, l, events, i);
    EntryStays(trace, l, events, i + 1, j, slot);
  }

  lemma {:induction false} CacheHoldsAsked(trace: seq<World>, l: Limits, events: seq<Event>, i: nat, slots: set<Slot>)
    requires IsHistory(trace, l, events) && i < |trace|
    requires forall m :: 0 <= m < i && events[m].Ask? ==> Slot(events[m].q.key, events[m].q.scope) in slots
    ensures trace[i].cache.Keys <= slots
  {
    if i > 0 {
      CacheHoldsAsked(trace, l, events, i - 1, slots);
      assert Happens(trace, l, events, i - 1);
    }
  }

  /** Nothing is evicted before more slots have been asked for than fit, and then the oldest entry goes. */
  lemma EvictionIsOfOldest(trace: seq<World>, l: Limits, events: seq<Event>, i: nat, slots: set<Slot>, slot: Slot)
    requires IsHistory(trace, l, events) && i < |events| && Evicts(trace[i], l, events[i], slot)
    requires forall m :: 0 <= m <= i && events[m].Ask? ==> Slot(events[m].q.key, events[m].q.scope) in slots
    ensures |slots| > l.maxEntries
    ensures slot in trace[i].cache &&
            forall other :: other in trace[i].cache ==> trace[i].cache[slot].storedAt <= trace[i].cache[other].storedAt
  {
    assert Happens(trace, l, events, i);
    CacheHoldsAsked(trace, l, events, i, slots);
    var own := Slot(events[i].q.key, events[i].q.scope);
    SubsetSize(trace[i].cache.Keys, slots - {own});
    assert |trace[i].cache| == |trace[i].cache.Keys|;
  }

  /** Which requests the gate looks at, and that it never answers others with a context. */
  lemma GatedScopes(cache: Cache, l: Limits, q: Request, version: nat)
    ensures Reply(cache, l, q, version).Ungated? <==>
      q.scope != "task:write" && q.scope != "autonomous:run" && q.scope != "coding:write" &&
      q.scope != "command:execute"
    ensures Reply(cache, l, q, version).Hit? ==> q.scope == "coding:write" || q.scope == "command:execute"
  {
  }

  // ---------------------------------------------------------------- what a hit does not check

  /** All a search from the namespace can reach: its own rows and the owner's global ones. */
  function ScopeRows(s: State, key: Key): map<Id, Shown> {
    map id | id in s.records && InScope(key, s.records[id].key) :: ShownOf(s.records[id])
  }

  function GlobalOf(key: Key): Key {
    Key(key.user, "")
  }

  lemma ScopeIsOwnAndGlobal(s: State, key: Key, id: Id)
    ensures id in ScopeRows(s, key) <==> id in NamespaceRows(s, key) || id in NamespaceRows(s, GlobalOf(key))
    ensures id in NamespaceRows(s, key) ==> ScopeRows(s, key)[id] == NamespaceRows(s, key)[id]
    ensures id in NamespaceRows(s, GlobalOf(key)) ==> ScopeRows(s, key)[id] == NamespaceRows(s, GlobalOf(key))[id]
    ensures key != GlobalOf(key) ==> id !in NamespaceRows(s, key) || id !in NamespaceRows(s, GlobalOf(key))
  {
    assert forall other: Key :: InScope(key, other) <==> other == key || other == GlobalOf(key);
  }

  /** With the namespace's own rows unchanged, what its searches reach is unchanged exactly when the owner's
      global rows are. */
  lemma ScopeKeptIff(s: State, later: State, key: Key)
    requires NamespaceRows(s, key) == NamespaceRows(later, key)
    ensures ScopeRows(s, key) == ScopeRows(later, key) <==>
            NamespaceRows(s, GlobalOf(key)) == NamespaceRows(later, GlobalOf(key))
  {
    forall id
      ensures SameAt(ScopeRows(s, key), ScopeRows(later, key), id) <==>
              SameAt(NamespaceRows(s, GlobalOf(key)), NamespaceRows(later, GlobalOf(key)), id)
    {
      ScopeIsOwnAndGlobal(s, key, id);
      ScopeIsOwnAndGlobal(later, key, id);
    }
    SameEverywhere(ScopeRows(s, key), ScopeRows(later, key));
    SameEverywhere(NamespaceRows(s, GlobalOf(key)), NamespaceRows(later, GlobalOf(key)));
  }

  ghost predicate SameAt(a: map<Id, Shown>, b: map<Id, Shown>, id: Id) {
    (id in a <==> id in b) && (id in a ==> a[id] == b[id])
  }

  lemma SameEverywhere(a: map<Id, Shown>, b: map<Id, Shown>)
    ensures a == b <==> forall id :: SameAt(a, b, id)
  {
    if forall id :: SameAt(a, b, id) {
      forall id ensures (id in a <==> id in b) && (id in a ==> a[id] == b[id]) { assert SameAt(a, b, id); }
    }
  }

  /** A hit is fresh in everything a search from the namespace can reach exactly when the owner's global rows
      show what they showed when the context was prepared. That is so when the version of the global
      namespace, which the gate does not compare, has not moved; and always in the global scope itself. */
  lemma HitIsFreshIff(trace: seq<World>, l: Limits, events: seq<Event>, j: nat) returns (i: nat)
    requires IsHistory(trace, l, events) && j < |events| && events[j].Ask?
    requires Reply(trace[j].cache, l, events[j].q, Version(trace[j].store, events[j].q.key)).Hit?
    ensures i < j && StoredBy(trace, l, events, i, Slot(events[j].q.key, events[j].q.scope),
                              trace[j].cache[Slot(events[j].q.key, events[j].q.scope)])
    ensures ScopeRows(trace[i].store, events[j].q.key) == ScopeRows(trace[j].store, events[j].q.key) <==>
            NamespaceRows(trace[i].store, GlobalOf(events[j].q.key)) ==
            NamespaceRows(trace[j].store, GlobalOf(events[j].q.key))
    ensures Version(trace[i].store, GlobalOf(events[j].q.key)) == Version(trace[j].store, GlobalOf(events[j].q.key)) ==>
            ScopeRows(trace[i].store, events[j].q.key) == ScopeRows(trace[j].store, events[j].q.key)
    ensures events[j].q.key.workspace == "" ==>
            ScopeRows(trace[i].store, events[j].q.key) == ScopeRows(trace[j].store, events[j].q.key)
  {
    var slot := Slot(events[j].q.key, events[j].q.scope);
    i := EntryOrigin(trace, l, events, j, slot);
    VersionTells(trace, l, events, i, j, slot.key);
    VersionTells(trace, l, events, i, j, GlobalOf(slot.key));
    ScopeKeptIff(trace[i].store, trace[j].store, slot.key);
    if slot.key.workspace == "" { assert GlobalOf(slot.key) == slot.key; }
  }

  /** A hit on a context from which a memory is missing that the workspace's default search finds. */
  ghost predicate StaleHit(trace: seq<World>, l: Limits, events: seq<Event>, i: nat, j: nat) {
    && IsHistory(trace, l, events) && i < j < |events| && events[i].Ask? && events[j].Ask?
    && var q := events[j].q;
    && Reply(trace[j].cache, l, q, Version(trace[j].store, q.key)).Hit?
    && StoredBy(trace, l, events, i, Slot(q.key, q.scope), trace[j].cache[Slot(q.key, q.scope)])
    && SearchRows(trace[i].store, Query(q.key, false, "both", {}, None)) !=
       SearchRows(trace[j].store, Query(q.key, false, "both", {}, None))
  }

  lemma GlobalRowIsFound(key: Key, id: Id, m: NewMemory, clock: int)
    requires m.content.text != "" && m.parent.None? && m.branch.None? && m.status.Active? && key.workspace != ""
    ensures id in SearchRows(Create(EMPTY, id, GlobalOf(key), m, clock).state, Query(key, false, "both", {}, None))
  {
  }

  /** From the empty world: ask in a workspace, learn something in the global scope, ask again. */
  lemma GlobalRowGoesUnnoticed(l: Limits, q: Request, id: Id, m: NewMemory, clock: int, victim: Slot)
    returns (trace: seq<World>, events: seq<Event>)
    requires q.scope in FAST_SCOPES && q.key.workspace != "" && l.ttlMs > 0 && l.maxEntries >= 1
    requires m.content.text != "" && m.parent.None? && m.branch.None? && m.status.Active?
    ensures StaleHit(trace, l, events, 0, 2)
  {
    var step := CreateStep(id, GlobalOf(q.key), m, clock);
    var asked := Ask(q, victim);
    events := [asked, Mutate(step), asked];
    var w0 := World(EMPTY, map[]);
    var w1 := After(w0, l, asked);
    var w2 := After(w1, l, Mutate(step));
    assert Slot(q.key, q.scope) in w2.cache && !MustEvict(w2.cache, l, q);
    var w3 := After(w2, l, asked);
    trace := [w0, w1, w2, w3];
    assert Happens(trace, l, events, 0) && Happens(trace, l, events, 1) && Happens(trace, l, events, 2);
    GlobalRowIsFound(q.key, id, m, clock);
    assert id in SearchRows(w2.store, Query(q.key, false, "both", {}, None));
    assert id !in SearchRows(w0.store, Query(q.key, false, "both", {}, None));
  }
}
