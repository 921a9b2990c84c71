/** The conflict table after a rebuild of any scope: when a rebuild is refused, and how many rows it adds for
    each pair of records, whatever order the records were visited in. */
module RebuiltConflicts {
  import opened Prelude
  import opened Records
  import opened Transactions
  import opened Conflicts
  import opened Rebuild

  predicate Joins(p: Pair, a: Id, b: Id) {
    (p.left == a && p.right == b) || (p.left == b && p.right == a)
  }

  /** Rows of the table about the pair {a, b}, filed under `key`. */
  function RowsBetween(t: Table, key: Key, a: Id, b: Id): set<Pair> {
    set p | p in t && p.key == key && Joins(p, a, b)
  }

  predicate Stable(reader: FactReader, subject: string) {
    reader.normalize(subject) == subject
  }

  /** The analysis of `id` finds `other` contradicting, and files that under `key`. */
  predicate Reports(rows: map<Id, Record>, reader: FactReader, key: Key, id: Id, other: Id) {
    Indexable(rows, id) && rows[id].key == key && Sees(rows, reader, id, other)
  }

  lemma SeenFactsAgree(rows: map<Id, Record>, reader: FactReader, a: Id, b: Id)
    requires Sees(rows, reader, a, b)
    ensures Subject(reader, rows[a]) == Subject(reader, rows[b])
  {
  }

  // ---------------------------------------------------------------- refusal

  /** The analysis of `id` would insert a row that is there: its look-up, under the fact key as read, misses
      the row that is stored under the key as normalised. */
  predicate Blocked(t: Table, rows: map<Id, Record>, reader: FactReader, id: Id, other: Id) {
    Indexable(rows, id) && Sees(rows, reader, id, other) && PairFor(rows, reader, id, other) in t &&
    !Known(t, rows[id].key, Subject(reader, rows[id]), other, id)
  }

  lemma AcceptedIff(d: Derived, rows: map<Id, Record>, rd: Readers, id: Id)
    ensures Accepted(d, rows, rd, id) <==> forall other :: !Blocked(d.conflicts, rows, rd.facts, id, other)
  {
    if Indexable(rows, id) && rows[id].status.Active? {
      var t := d.conflicts;
      if other :| Blocked(t, rows, rd.facts, id, other) {
        assert PairFor(rows, rd.facts, id, other) in NewPairs(t, rows, rd.facts, id) * t.Keys;
      }
      if p :| p in NewPairs(t, rows, rd.facts, id) * t.Keys {
        var other :| other in Seen(rows, rd.facts, id) &&
                     !Known(t, rows[id].key, Subject(rd.facts, rows[id]), other, id)
          && p == PairFor(rows, rd.facts, id, other);
        assert Blocked(t, rows, rd.facts, id, other);
      }
    }
  }

  /** Visiting another row neither blocks a pair nor clears the way for it. */
  lemma BlockedStays(d: Derived, rows: map<Id, Record>, rd: Readers, x: Id, id: Id, other: Id)
    requires x != id
    ensures Blocked(Visit(d, rows, rd, x).conflicts, rows, rd.facts, id, other) <==>
            Blocked(d.conflicts, rows, rd.facts, id, other)
  {
    var t, after := d.conflicts, Visit(d, rows, rd, x).conflicts;
    if Indexable(rows, id) && Sees(rows, rd.facts, id, other) && after != t {
      var key, subject := rows[id].key, Subject(rd.facts, rows[id]);
      assert after.Keys == t.Keys + NewPairs(t, rows, rd.facts, x);
      assert PairFor(rows, rd.facts, id, other) in after <==> PairFor(rows, rd.facts, id, other) in t;
      assert Pair(key, subject, other, id) in after <==> Pair(key, subject, other, id) in t;
      NewRowIsStable(t, rows, rd.facts, x, id, other);
    }
  }

  lemma NewRowIsStable(t: Table, rows: map<Id, Record>, reader: FactReader, x: Id, id: Id, other: Id)
    requires x in rows && x != id && Sees(rows, reader, id, other)
    ensures Pair(rows[id].key, Subject(reader, rows[id]), id, other) in NewPairs(t, rows, reader, x) ==>
      Stable(reader, Subject(reader, rows[id]))
  {
    SeenFactsAgree(rows, reader, id, other);
  }

  lemma {:induction false} BlockedUntilVisited(d: Derived, rows: map<Id, Record>, rd: Readers, ids: seq<Id>, id: Id,
                                               other: Id)
    requires id !in ids
    ensures Blocked(VisitAll(d, rows, rd, ids).conflicts, rows, rd.facts, id, other) <==>
            Blocked(d.conflicts, rows, rd.facts, id, other)
  {
    if ids != [] {
      var n := |ids| - 1;
      BlockedUntilVisited(d, rows, rd, ids[..n], id, other);
      BlockedStays(VisitAll(d, rows, rd, ids[..n]), rows, rd, ids[n], id, other);
    }
  }

  /** Whether a pass over a listing is refused can be read off the table it starts from. */
  lemma {:induction false} SmoothIff(d: Derived, rows: map<Id, Record>, rd: Readers, ids: seq<Id>)
    requires Distinct(ids)
    ensures Smooth(d, rows, rd, ids) <==>
            forall id, other :: id in ids ==> !Blocked(d.conflicts, rows, rd.facts, id, other)
  {
    if ids != [] {
      var n := |ids| - 1;
      assert ids == ids[..n] + [ids[n]];
      SmoothIff(d, rows, rd, ids[..n]);
      AcceptedIff(VisitAll(d, rows, rd, ids[..n]), rows, rd, ids[n]);
      forall other
        ensures Blocked(VisitAll(d, rows, rd, ids[..n]).conflicts, rows, rd.facts, ids[n], other) <==>
                Blocked(d.conflicts, rows, rd.facts, ids[n], other)
      {
        BlockedUntilVisited(d, rows, rd, ids[..n], ids[n], other);
      }
    }
  }

  lemma ClearedBlocks(d: Derived, rows: map<Id, Record>, rd: Readers, key: Key, id: Id, other: Id)
    ensures Blocked(Cleared(d, key).conflicts, rows, rd.facts, id, other) <==>
            id in rows && rows[id].key != key && Blocked(d.conflicts, rows, rd.facts, id, other)
  {
  }

  /** A rebuild is refused exactly when a listed row of another namespace, which is a global row, is blocked by
      the table as the rebuild finds it. The rows of the rebuilt scope itself never are. */
  lemma RebuildIsSmoothIff(d: Derived, rows: map<Id, Record>, rd: Readers, key: Key, listing: seq<Id>)
    requires IsListing(rows, key, listing)
    ensures Smooth(Cleared(d, key), rows, rd, listing) <==>
            forall id, other :: id in listing && rows[id].key != key ==>
              !Blocked(d.conflicts, rows, rd.facts, id, other)
  {
    SmoothIff(Cleared(d, key), rows, rd, listing);
    forall id, other
      ensures Blocked(Cleared(d, key).conflicts, rows, rd.facts, id, other) <==>
              id in rows && rows[id].key != key && Blocked(d.conflicts, rows, rd.facts, id, other)
    {
      ClearedBlocks(d, rows, rd, key, id, other);
    }
  }

  /** In the global scope no rebuild is ever refused. */
  lemma RebuildIsSmooth(d: Derived, rows: map<Id, Record>, rd: Readers, key: Key, listing: seq<Id>)
    requires IsListing(rows, key, listing) && key.workspace == ""
    ensures Smooth(Cleared(d, key), rows, rd, listing)
  {
    RebuildIsSmoothIff(d, rows, rd, key, listing);
    forall id | id in listing ensures rows[id].key == key { assert InScope(key, rows[id].key); }
  }

  // ---------------------------------------------------------------- rows per pair

  /** The analysis of a third row, or one that files elsewhere, does not touch the pair. */
  lemma AnalyzeElsewhere(t: Table, rows: map<Id, Record>, reader: FactReader, key: Key, id: Id, a: Id, b: Id)
    requires id in rows && ((id != a && id != b) || rows[id].key != key)
    ensures RowsBetween(Analyze(t, rows, reader, id), key, a, b) == RowsBetween(t, key, a, b)
  {
  }

  /** Analysing `a` adds at most the row for (b, a). */
  lemma AnalyzeOne(t: Table, rows: map<Id, Record>, reader: FactReader, key: Key, a: Id, b: Id)
    requires a in rows && b in rows && a != b && rows[a].key == key
    ensures var adds := Sees(rows, reader, a, b) && !Known(t, key, Subject(reader, rows[a]), b, a);
      RowsBetween(Analyze(t, rows, reader, a), key, a, b) ==
        RowsBetween(t, key, a, b) + if adds then {PairFor(rows, reader, a, b)} else {}
  {
    var after := Analyze(t, rows, reader, a);
    assert after.Keys == t.Keys + NewPairs(t, rows, reader, a);
    if Sees(rows, reader, a, b) && !Known(t, key, Subject(reader, rows[a]), b, a) {
      assert PairFor(rows, reader, a, b) in NewPairs(t, rows, reader, a);
    }
  }

  /** Whether a pair is known depends on its own rows alone. */
  lemma KnownBetween(t: Table, key: Key, subject: string, a: Id, b: Id)
    ensures Known(t, key, subject, b, a) <==>
            Pair(key, subject, b, a) in RowsBetween(t, key, a, b) ||
            Pair(key, subject, a, b) in RowsBetween(t, key, a, b)
  {
  }

  /** The rows about {a, b} once `visited` has been visited: those there before, and nothing new if the pair was
      known; with a stable fact key one row from whichever analysis came first; otherwise one from each. */
  ghost predicate PairState(start: Table, t: Table, rows: map<Id, Record>, reader: FactReader, key: Key,
                            visited: seq<Id>, a: Id, b: Id)
    requires a in rows && b in rows
  {
    var byA := a in visited && Reports(rows, reader, key, a, b);
    var byB := b in visited && Reports(rows, reader, key, b, a);
    var fromA, fromB := PairFor(rows, reader, a, b), PairFor(rows, reader, b, a);
    var was, now := RowsBetween(start, key, a, b), RowsBetween(t, key, a, b);
    if (!byA && !byB) || Known(start, key, Subject(reader, rows[a]), b, a) then now == was
    else if Stable(reader, Subject(reader, rows[a])) then
      (byA && now == was + {fromA}) || (byB && now == was + {fromB})
    else
      now == was + (if byA then {fromA} else {}) + (if byB then {fromB} else {})
  }

  lemma PairStateSymmetric(start: Table, t: Table, rows: map<Id, Record>, reader: FactReader, key: Key,
                           visited: seq<Id>, a: Id, b: Id)
    requires a in rows && b in rows && PairState(start, t, rows, reader, key, visited, a, b)
    ensures PairState(start, t, rows, reader, key, visited, b, a)
  {
    assert RowsBetween(t, key, a, b) == RowsBetween(t, key, b, a);
    assert RowsBetween(start, key, a, b) == RowsBetween(start, key, b, a);
    if Sees(rows, reader, a, b) { SeenFactsAgree(rows, reader, a, b); }
    if Sees(rows, reader, b, a) { SeenFactsAgree(rows, reader, b, a); }
  }

  /** A visit that leaves the rows of the pair alone. */
  lemma VisitElsewhere(start: Table, t: Table, after: Table, rows: map<Id, Record>, reader: FactReader, key: Key,
                       visited: seq<Id>, id: Id, a: Id, b: Id)
    requires a in rows && b in rows && PairState(start, t, rows, reader, key, visited, a, b)
    requires RowsBetween(after, key, a, b) == RowsBetween(t, key, a, b)
    requires id == a ==> !Reports(rows, reader, key, a, b)
    requires id == b ==> !Reports(rows, reader, key, b, a)
    ensures PairState(start, after, rows, reader, key, visited + [id], a, b)
  {
    assert a in visited + [id] <==> a in visited || a == id;
    assert b in visited + [id] <==> b in visited || b == id;
  }

  /** Visiting `a` for the first time when its analysis finds `b` and files that under `key`. */
  lemma VisitReporter(start: Table, t: Table, rows: map<Id, Record>, reader: FactReader, key: Key, visited: seq<Id>,
                      a: Id, b: Id)
    requires a in rows && b in rows && a != b && a !in visited && Reports(rows, reader, key, a, b)
    requires PairState(start, t, rows, reader, key, visited, a, b)
    ensures PairState(start, Analyze(t, rows, reader, a), rows, reader, key, visited + [a], a, b)
  {
    var after, subject := Analyze(t, rows, reader, a), Subject(reader, rows[a]);
    AnalyzeOne(t, rows, reader, key, a, b);
    KnownBetween(t, key, subject, a, b);
    KnownBetween(start, key, subject, a, b);
    assert a in visited + [a] && (b in visited + [a] <==> b in visited);
    SeenFactsAgree(rows, reader, a, b);
  }

  /** Visiting `a`, which files under `key`, for the first time. */
  lemma VisitEnd(start: Table, t: Table, rows: map<Id, Record>, reader: FactReader, key: Key, visited: seq<Id>,
                 a: Id, b: Id)
    requires a in rows && b in rows && a != b && rows[a].key == key && Indexable(rows, a) && a !in visited
    requires PairState(start, t, rows, reader, key, visited, a, b)
    ensures PairState(start, Analyze(t, rows, reader, a), rows, reader, key, visited + [a], a, b)
  {
    if Sees(rows, reader, a, b) {
      VisitReporter(start, t, rows, reader, key, visited, a, b);
    } else {
      AnalyzeOne(t, rows, reader, key, a, b);
      VisitElsewhere(start, t, Analyze(t, rows, reader, a), rows, reader, key, visited, a, a, b);
    }
  }

  lemma VisitKeepsPairState(start: Table, d: Derived, rows: map<Id, Record>, rd: Readers, key: Key, visited: seq<Id>,
                            id: Id, a: Id, b: Id)
    requires a in rows && b in rows && a != b && id !in visited
    requires PairState(start, d.conflicts, rows, rd.facts, key, visited, a, b)
    ensures PairState(start, Visit(d, rows, rd, id).conflicts, rows, rd.facts, key, visited + [id], a, b)
  {
    var t, reader := d.conflicts, rd.facts;
    if !Indexable(rows, id) || !rows[id].status.Active? {
      VisitElsewhere(start, t, t, rows, reader, key, visited, id, a, b);
    } else if rows[id].key != key || (id != a && id != b) {
      AnalyzeElsewhere(t, rows, reader, key, id, a, b);
      VisitElsewhere(start, t, Analyze(t, rows, reader, id), rows, reader, key, visited, id, a, b);
    } else if id == a {
      VisitEnd(start, t, rows, reader, key, visited, a, b);
    } else {
      PairStateSymmetric(start, t, rows, reader, key, visited, a, b);
      VisitEnd(start, t, rows, reader, key, visited, b, a);
      PairStateSymmetric(start, Analyze(t, rows, reader, b), rows, reader, key, visited + [b], b, a);
    }
  }

  lemma {:induction false} PairStateAfter(d: Derived, rows: map<Id, Record>, rd: Readers, key: Key, ids: seq<Id>,
                                          a: Id, b: Id)
    requires Distinct(ids) && a in rows && b in rows && a != b
    ensures PairState(d.conflicts, VisitAll(d, rows, rd, ids).conflicts, rows, rd.facts, key, ids, a, b)
  {
    if ids != [] {
      var n := |ids| - 1;
      PairStateAfter(d, rows, rd, key, ids[..n], a, b);
      assert ids == ids[..n] + [ids[n]];
      VisitKeepsPairState(d.conflicts, VisitAll(d, rows, rd, ids[..n]), rows, rd, key, ids[..n], ids[n], a, b);
    }
  }

  /** Rows a smooth pass adds for the pair under `key`. */
  function NewRows(start: Table, rows: map<Id, Record>, reader: FactReader, key: Key, a: Id, b: Id): nat
    requires a in rows && b in rows
  {
    var byA, byB := Reports(rows, reader, key, a, b), Reports(rows, reader, key, b, a);
    if (!byA && !byB) || Known(start, key, Subject(reader, rows[a]), b, a) then 0
    else if byA && byB && !Stable(reader, Subject(reader, rows[a])) then 2
    else 1
  }

  lemma NewIsNotOld(start: Table, rows: map<Id, Record>, reader: FactReader, key: Key, a: Id, b: Id)
    requires Reports(rows, reader, key, a, b) && !Blocked(start, rows, reader, a, b)
    requires !Known(start, key, Subject(reader, rows[a]), b, a)
    ensures PairFor(rows, reader, a, b) !in RowsBetween(start, key, a, b)
  {
  }

  /** A rebuild that is not refused adds to the rows it finds for a pair, under any key, none, one or two: in
      the scope it rebuilds and in the global one that it analyses along with it. */
  lemma RebuiltRowsPerPair(d: Derived, rows: map<Id, Record>, rd: Readers, key: Key, listing: seq<Id>, file: Key,
                           a: Id, b: Id)
    requires IsListing(rows, key, listing) && Smooth(Cleared(d, key), rows, rd, listing)
    requires a in listing && b in listing && a != b
    ensures |RowsBetween(VisitAll(Cleared(d, key), rows, rd, listing).conflicts, file, a, b)| ==
            |RowsBetween(Cleared(d, key).conflicts, file, a, b)| +
            NewRows(Cleared(d, key).conflicts, rows, rd.facts, file, a, b)
  {
    var start, reader := Cleared(d, key).conflicts, rd.facts;
    var t := VisitAll(Cleared(d, key), rows, rd, listing).conflicts;
    PairStateAfter(Cleared(d, key), rows, rd, file, listing, a, b);
    SmoothIff(Cleared(d, key), rows, rd, listing);
    assert !Blocked(start, rows, reader, a, b) && !Blocked(start, rows, reader, b, a);
    if NewRows(start, rows, reader, file, a, b) > 0 {
      CountNew(start, t, rows, reader, file, listing, a, b);
    }
  }

  lemma CountNew(start: Table, t: Table, rows: map<Id, Record>, reader: FactReader, key: Key, visited: seq<Id>,
                 a: Id, b: Id)
    requires a in rows && b in rows && a != b && a in visited && b in visited
    requires PairState(start, t, rows, reader, key, visited, a, b) && NewRows(start, rows, reader, key, a, b) > 0
    requires !Blocked(start, rows, reader, a, b) && !Blocked(start, rows, reader, b, a)
    ensures |RowsBetween(t, key, a, b)| == |RowsBetween(start, key, a, b)| + NewRows(start, rows, reader, key, a, b)
  {
    var was, now := RowsBetween(start, key, a, b), RowsBetween(t, key, a, b);
    var fromA, fromB := PairFor(rows, reader, a, b), PairFor(rows, reader, b, a);
    var byA, byB := Reports(rows, reader, key, a, b), Reports(rows, reader, key, b, a);
    assert RowsBetween(start, key, b, a) == was;
    if byA {
      SeenFactsAgree(rows, reader, a, b);
      NewIsNotOld(start, rows, reader, key, a, b);
    }
    if byB {
      SeenFactsAgree(rows, reader, b, a);
      NewIsNotOld(start, rows, reader, key, b, a);
    }
    CountSets(was, now, fromA, fromB, byA, byB, byA && byB && !Stable(reader, Subject(reader, rows[a])));
  }

  lemma CountSets(was: set<Pair>, now: set<Pair>, fromA: Pair, fromB: Pair, byA: bool, byB: bool, both: bool)
    requires fromA != fromB && (byA ==> fromA !in was) && (byB ==> fromB !in was)
    requires if both then byA && byB && now == was + {fromA} + {fromB}
             else (byA && now == was + {fromA}) || (byB && now == was + {fromB})
    ensures |now| == |was| + if both then 2 else 1
  {
    if both {
      OneMore(was, fromA);
      OneMore(was + {fromA}, fromB);
    } else if byA && now == was + {fromA} {
      OneMore(was, fromA);
    } else {
      OneMore(was, fromB);
    }
  }

  lemma OneMore(s: set<Pair>, p: Pair)
    requires p !in s
    ensures |s + {p}| == |s| + 1
  {
  }

  /** A pair that contradicts within the rebuilt scope has exactly one row there, whatever the visiting order, if
      and only if only one of the two reports the other or normalising the fact key leaves it as it is. */
  lemma OneRowPerContradictionIff(d: Derived, rows: map<Id, Record>, rd: Readers, key: Key, listing: seq<Id>, a: Id,
                                  b: Id)
    requires IsListing(rows, key, listing) && Smooth(Cleared(d, key), rows, rd, listing)
    requires a in listing && b in listing && a != b
    requires Reports(rows, rd.facts, key, a, b) || Reports(rows, rd.facts, key, b, a)
    ensures |RowsBetween(VisitAll(Cleared(d, key), rows, rd, listing).conflicts, key, a, b)| == 1 <==>
            !Reports(rows, rd.facts, key, a, b) || !Reports(rows, rd.facts, key, b, a) ||
            Stable(rd.facts, Subject(rd.facts, rows[a]))
  {
    RebuiltRowsPerPair(d, rows, rd, key, listing, key, a, b);
    assert RowsBetween(Cleared(d, key).conflicts, key, a, b) == {};
  }

  lemma TwoRowsIff(d: Derived, rows: map<Id, Record>, rd: Readers, key: Key, listing: seq<Id>, a: Id, b: Id)
    requires IsListing(rows, key, listing) && Smooth(Cleared(d, key), rows, rd, listing)
    requires a in listing && b in listing && a != b
    ensures |RowsBetween(VisitAll(Cleared(d, key), rows, rd, listing).conflicts, key, a, b)| == 2 <==>
            Reports(rows, rd.facts, key, a, b) && Reports(rows, rd.facts, key, b, a) &&
            !Stable(rd.facts, Subject(rd.facts, rows[a]))
  {
    RebuiltRowsPerPair(d, rows, rd, key, listing, key, a, b);
    assert RowsBetween(Cleared(d, key).conflicts, key, a, b) == {};
  }

  /** A pair filed twice blocks every later analysis of either row. */
  lemma DoubledPairBlocks(d: Derived, rows: map<Id, Record>, rd: Readers, key: Key, ids: seq<Id>, a: Id, b: Id)
    requires Distinct(ids) && a in ids && b in ids && RowsBetween(d.conflicts, key, a, b) == {}
    requires Reports(rows, rd.facts, key, a, b) && Reports(rows, rd.facts, key, b, a)
    requires !Stable(rd.facts, Subject(rd.facts, rows[a]))
    ensures Blocked(VisitAll(d, rows, rd, ids).conflicts, rows, rd.facts, a, b)
  {
    var t, fromA := VisitAll(d, rows, rd, ids).conflicts, PairFor(rows, rd.facts, a, b);
    PairStateAfter(d, rows, rd, key, ids, a, b);
    SeenFactsAgree(rows, rd.facts, a, b);
    KnownBetween(d.conflicts, key, Subject(rd.facts, rows[a]), a, b);
    KnownBetween(t, key, Subject(rd.facts, rows[a]), a, b);
    assert fromA in RowsBetween(t, key, a, b);
  }

  // ---------------------------------------------------------------- a fact key that normalising changes

  /** The key read off a structured fact about "api_key=x": the subject is redacted before "|is" is appended.
      Redacting the whole key again takes the suffix for part of the secret. */
  const SECRET_KEY := "api_key=[redacted]|is"

  function RedactSecretKey(key: string): string {
    if key == SECRET_KEY then "api_key=[redacted]" else key
  }

  /** Every row is about that key, and its text is the value. */
  const SECRET_READER := FactReader((r: Record) => Some(Fact(SECRET_KEY, r.content.text)), RedactSecretKey)

  const GLOBAL := Key("u", "")

  function Claim(text: string): Record {
    var content := Content("user", "fact", text, text, 0, 0, "");
    Record(GLOBAL, content, Active, 0, None, 0, None, None, None, None, None, 0, 0)
  }

  const CLAIMS := map["a" := Claim("one"), "b" := Claim("two")]
  const CLAIM_LISTING: seq<Id> := ["a", "b"]

  lemma ClaimsReportEachOther()
    ensures Reports(CLAIMS, SECRET_READER, GLOBAL, "a", "b") && Reports(CLAIMS, SECRET_READER, GLOBAL, "b", "a")
    ensures Subject(SECRET_READER, CLAIMS["a"]) == SECRET_KEY && !Stable(SECRET_READER, SECRET_KEY)
    ensures forall workspace :: IsListing(CLAIMS, Key("u", workspace), CLAIM_LISTING)
  {
    assert |SECRET_KEY| == 21 && |"api_key=[redacted]"| == 18;
    assert "one"[0] == 'o' && "two"[0] == 't';
    assert CLAIM_LISTING[0] == "a" && CLAIM_LISTING[1] == "b" && "a"[0] != "b"[0];
  }

  /** The failure of OneRowPerContradictionIff, on an input: whatever the indexes held before, a rebuild of the
      global scope leaves two conflict rows for this one pair. */
  lemma TwoRowsForOnePair(d: Derived, rd: Readers)
    requires rd.facts == SECRET_READER
    ensures |RowsBetween(VisitAll(Cleared(d, GLOBAL), CLAIMS, rd, CLAIM_LISTING).conflicts, GLOBAL, "a", "b")| == 2
  {
    ClaimsReportEachOther();
    RebuildIsSmooth(d, CLAIMS, rd, GLOBAL, CLAIM_LISTING);
    assert "a" in CLAIM_LISTING && "b" in CLAIM_LISTING;
    var one, other := CLAIM_LISTING[0], CLAIM_LISTING[1];
    assert one == "a" && other == "b";
    TwoRowsIff(d, CLAIMS, rd, GLOBAL, CLAIM_LISTING, one, other);
  }

  /** And once the pair is stored, every rebuild of a workspace of that owner is refused. */
  lemma WorkspaceRebuildIsRefused(d: Derived, rd: Readers, workspace: string)
    requires rd.facts == SECRET_READER && workspace != ""
    ensures IsListing(CLAIMS, Key("u", workspace), CLAIM_LISTING)
    ensures var after := VisitAll(Cleared(d, GLOBAL), CLAIMS, rd, CLAIM_LISTING);
      !Smooth(Cleared(after, Key("u", workspace)), CLAIMS, rd, CLAIM_LISTING)
  {
    var after, key := VisitAll(Cleared(d, GLOBAL), CLAIMS, rd, CLAIM_LISTING), Key("u", workspace);
    ClaimsReportEachOther();
    RebuildIsSmoothIff(after, CLAIMS, rd, key, CLAIM_LISTING);
    assert RowsBetween(Cleared(d, GLOBAL).conflicts, GLOBAL, "a", "b") == {};
    assert "a" in CLAIM_LISTING && "b" in CLAIM_LISTING;
    DoubledPairBlocks(Cleared(d, GLOBAL), CLAIMS, rd, GLOBAL, CLAIM_LISTING, "a", "b");
    assert Blocked(after.conflicts, CLAIMS, rd.facts, "a", "b");
  }

  // ---------------------------------------------------------------- what the rows say

  /** A later start of a trusted row is a change over time; anything else is a contradiction. */
  predicate ChangesLater(left: Record, right: Record) {
    right.validFrom > left.validFrom &&
    (right.content.trust == "user_directive" || right.content.trust == "verified_system_fact" ||
     right.content.trust == "tool_result" || right.content.trust == "managed_memory")
  }

  /** The row says that the fact of `left` is contradicted by `right`, which was analysed when it was written, and
      how. */
  ghost predicate SaysTruth(t: Table, rows: map<Id, Record>, reader: FactReader, p: Pair)
    requires p in t
  {
    Sees(rows, reader, p.right, p.left) && rows[p.right].key == p.key &&
    p.subject == reader.normalize(Subject(reader, rows[p.right])) &&
    (t[p] == TemporalChange <==> ChangesLater(rows[p.left], rows[p.right]))
  }

  lemma NewRowsSayTruth(t: Table, rows: map<Id, Record>, reader: FactReader, id: Id, p: Pair)
    requires id in rows && p in Analyze(t, rows, reader, id)
    ensures SaysTruth(Analyze(t, rows, reader, id), rows, reader, p) ||
            (p in t && Analyze(t, rows, reader, id)[p] == t[p])
  {
    if p in NewPairs(t, rows, reader, id) {
      var other :| other in Seen(rows, reader, id) && p == PairFor(rows, reader, id, other);
    }
  }

  /** After a rebuild every conflict row of the scope is about two active rows that contradict each other, one of
      which meets the other, and is classified by their dates and trust. */
  lemma {:induction false} RebuiltRowsSayTruth(d: Derived, rows: map<Id, Record>, rd: Readers, key: Key, ids: seq<Id>,
                                               p: Pair)
    requires p.key == key && p in VisitAll(Cleared(d, key), rows, rd, ids).conflicts
    ensures SaysTruth(VisitAll(Cleared(d, key), rows, rd, ids).conflicts, rows, rd.facts, p)
  {
    var n := |ids| - 1;
    var before := VisitAll(Cleared(d, key), rows, rd, ids[..n]);
    if p in before.conflicts { RebuiltRowsSayTruth(d, rows, rd, key, ids[..n], p); }
    if Indexable(rows, ids[n]) && rows[ids[n]].status.Active? {
      NewRowsSayTruth(before.conflicts, rows, rd.facts, ids[n], p);
    }
  }

  /** How a pair is classified depends on which of the two is analysed. When the row that starts later and is
      trusted was learned last, its analysis finds a change over time; a rebuild, which visits the other row
      first, files a contradiction in its place, and with a stable fact key nothing else. */
  lemma RebuildForgetsChange(d: Derived, t: Table, rows: map<Id, Record>, rd: Readers, key: Key, listing: seq<Id>,
                             i: nat, a: Id, b: Id)
    requires Reports(rows, rd.facts, key, a, b) && Reports(rows, rd.facts, key, b, a)
    requires Distinct(listing) && i < |listing| && listing[i] == a && b !in listing[..i]
    requires ChangesLater(rows[a], rows[b]) && !Known(t, key, Subject(rd.facts, rows[b]), a, b)
    ensures PairFor(rows, rd.facts, b, a) in Analyze(t, rows, rd.facts, b) &&
            Analyze(t, rows, rd.facts, b)[PairFor(rows, rd.facts, b, a)] == TemporalChange
    ensures var rebuilt := VisitAll(Cleared(d, key), rows, rd, listing).conflicts;
      PairFor(rows, rd.facts, a, b) in rebuilt && rebuilt[PairFor(rows, rd.facts, a, b)] == Contradiction &&
      (Stable(rd.facts, Subject(rd.facts, rows[a])) ==>
        RowsBetween(rebuilt, key, a, b) == {PairFor(rows, rd.facts, a, b)})
  {
    var reader, from := rd.facts, Cleared(d, key);
    assert PairFor(rows, reader, b, a) in NewPairs(t, rows, reader, b);
    var before, rest := listing[..i], listing[i + 1..];
    assert listing == before + [a] + rest;
    var mid := VisitAll(from, rows, rd, before + [a]);
    assert mid.conflicts[PairFor(rows, reader, a, b)] == Contradiction by {
      FiledFirst(d, rows, rd, key, before, a, b);
    }
    VisitAppend(from, rows, rd, before + [a], rest);
    FiledRowStays(mid, rows, rd, rest, PairFor(rows, reader, a, b));
    if Stable(reader, Subject(reader, rows[a])) { OnlyFiledRow(d, rows, rd, key, listing, a, b); }
  }

  lemma FiledFirst(d: Derived, rows: map<Id, Record>, rd: Readers, key: Key, before: seq<Id>, a: Id, b: Id)
    requires Reports(rows, rd.facts, key, a, b) && a !in before && b !in before && ChangesLater(rows[a], rows[b])
    ensures var t := VisitAll(Cleared(d, key), rows, rd, before + [a]).conflicts;
      PairFor(rows, rd.facts, a, b) in t && t[PairFor(rows, rd.facts, a, b)] == Contradiction
  {
    var start := VisitAll(Cleared(d, key), rows, rd, before).conflicts;
    UntouchedPair(d, rows, rd, key, before, a, b);
    assert (before + [a])[..|before|] == before;
    KnownBetween(start, key, Subject(rd.facts, rows[a]), a, b);
    assert PairFor(rows, rd.facts, a, b) in NewPairs(start, rows, rd.facts, a);
  }

  lemma {:induction false} FiledRowStays(d: Derived, rows: map<Id, Record>, rd: Readers, ids: seq<Id>, p: Pair)
    requires p in d.conflicts && p.right !in ids
    ensures p in VisitAll(d, rows, rd, ids).conflicts && VisitAll(d, rows, rd, ids).conflicts[p] == d.conflicts[p]
  {
    if ids != [] { FiledRowStays(d, rows, rd, ids[..|ids| - 1], p); }
  }

  lemma OnlyFiledRow(d: Derived, rows: map<Id, Record>, rd: Readers, key: Key, listing: seq<Id>, a: Id, b: Id)
    requires Distinct(listing) && a in rows && b in rows && a != b && Stable(rd.facts, Subject(rd.facts, rows[a]))
    requires PairFor(rows, rd.facts, a, b) in VisitAll(Cleared(d, key), rows, rd, listing).conflicts
    requires rows[a].key == key
    ensures RowsBetween(VisitAll(Cleared(d, key), rows, rd, listing).conflicts, key, a, b) ==
            {PairFor(rows, rd.facts, a, b)}
  {
    PairStateAfter(Cleared(d, key), rows, rd, key, listing, a, b);
    assert RowsBetween(Cleared(d, key).conflicts, key, a, b) == {};
    assert PairFor(rows, rd.facts, a, b) in
           RowsBetween(VisitAll(Cleared(d, key), rows, rd, listing).conflicts, key, a, b);
  }

  lemma {:induction false} UntouchedPair(d: Derived, rows: map<Id, Record>, rd: Readers, key: Key, ids: seq<Id>, a: Id,
                                         b: Id)
    requires a !in ids && b !in ids
    ensures RowsBetween(VisitAll(Cleared(d, key), rows, rd, ids).conflicts, key, a, b) == {}
  {
    if ids != [] {
      var n := |ids| - 1;
      UntouchedPair(d, rows, rd, key, ids[..n], a, b);
      if Indexable(rows, ids[n]) && rows[ids[n]].status.Active? {
        AnalyzeElsewhere(VisitAll(Cleared(d, key), rows, rd, ids[..n]).conflicts, rows, rd.facts, key, ids[n], a, b);
      }
    }
  }
}
