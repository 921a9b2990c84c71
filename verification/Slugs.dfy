/** Names turned into URL slugs, and the allocator that keeps one owner's slugs apart. */
module Slugs {
  import opened Prelude

  // ---------------------------------------------------------------- slugs

  const LIMIT := 80

  predicate Alnum(c: char) {
    'a' <= c <= 'z' || '0' <= c <= '9'
  }

  /** Every run of other characters becomes one dash. */
  function Dashed(s: string): string {
    if s == [] then []
    else
      var before, c := Dashed(s[..|s| - 1]), s[|s| - 1];
      if Alnum(c) then before + [c]
      else if before != [] && before[|before| - 1] == '-' then before
      else before + ['-']
  }

  function StripLeft(s: string): string {
    if s != [] && s[0] == '-' then StripLeft(s[1..]) else s
  }

  function StripRight(s: string): string {
    if s != [] && s[|s| - 1] == '-' then StripRight(s[..|s| - 1]) else s
  }

  function Take(s: string, n: nat): string {
    if |s| <= n then s else s[..n]
  }

  /** `_slugify` of a name that is already lower-cased. */
  function Slugify(name: string): string {
    var cut := Take(StripRight(StripLeft(Dashed(name))), LIMIT);
    if cut == [] then "workspace" else cut
  }

  /** Letters, digits and single dashes. */
  ghost predicate Dashing(s: string) {
    && (forall i :: 0 <= i < |s| ==> Alnum(s[i]) || s[i] == '-')
    && (forall i :: 0 < i < |s| ==> !(s[i - 1] == '-' && s[i] == '-'))
  }

  ghost predicate Clean(s: string) {
    Dashing(s) && (s != [] ==> s[0] != '-')
  }

  /** The letters and digits of a text, in order. */
  function Letters(s: string): string {
    if s == [] then []
    else Letters(s[..|s| - 1]) + if Alnum(s[|s| - 1]) then [s[|s| - 1]] else []
  }

  lemma {:induction false} DashedIsDashing(s: string)
    ensures Dashing(Dashed(s)) && Letters(Dashed(s)) == Letters(s)
  {
    if s != [] {
      var before, c := Dashed(s[..|s| - 1]), s[|s| - 1];
      DashedIsDashing(s[..|s| - 1]);
      assert (before + [c])[..|before|] == before && (before + ['-'])[..|before|] == before;
    }
  }

  lemma {:induction false} StripLeftKeeps(s: string)
    requires Dashing(s)
    ensures Clean(StripLeft(s)) && Letters(StripLeft(s)) == Letters(s)
  {
    if s != [] && s[0] == '-' {
      StripLeftKeeps(s[1..]);
      LettersOfSum(s[..1], s[1..]);
      assert s == s[..1] + s[1..];
      assert s[..1][..0] == [];
    }
  }

  lemma {:induction false} LettersOfSum(a: string, b: string)
    ensures Letters(a + b) == Letters(a) + Letters(b)
  {
    if b == [] {
      assert a + b == a;
    } else {
      var n := |b| - 1;
      LettersOfSum(a, b[..n]);
      assert (a + b)[..|a + b| - 1] == a + b[..n];
    }
  }

  lemma {:induction false} StripRightKeeps(s: string)
    requires Clean(s)
    ensures Clean(StripRight(s)) && Letters(StripRight(s)) == Letters(s) && |StripRight(s)| <= |s|
    ensures StripRight(s) == s <==> s == [] || s[|s| - 1] != '-'
  {
    if s != [] && s[|s| - 1] == '-' { StripRightKeeps(s[..|s| - 1]); }
  }

  lemma TakeKeeps(s: string, n: nat)
    requires Clean(s)
    ensures Clean(Take(s, n)) && |Take(s, n)| <= n && Letters(Take(s, n)) <= Letters(s)
  {
    if |s| > n {
      LettersOfSum(s[..n], s[n..]);
      assert s == s[..n] + s[n..];
    }
  }

  /** A slug is 1 to 80 letters, digits and single inner dashes, and what it spells is the beginning of what
      the name spells, or "workspace" when the name spells nothing. */
  lemma SlugSpellsName(name: string)
    ensures 1 <= |Slugify(name)| <= LIMIT && Clean(Slugify(name))
    ensures if Letters(name) == [] then Slugify(name) == "workspace" else Letters(Slugify(name)) <= Letters(name)
  {
    var dashed := Dashed(name);
    DashedIsDashing(name);
    StripLeftKeeps(dashed);
    StripRightKeeps(StripLeft(dashed));
    TakeKeeps(StripRight(StripLeft(dashed)), LIMIT);
  }

  lemma {:induction false} DashedOfDashing(s: string)
    requires Dashing(s)
    ensures Dashed(s) == s
  {
    if s != [] {
      DashedOfDashing(s[..|s| - 1]);
      assert s == s[..|s| - 1] + [s[|s| - 1]];
    }
  }

  /** Slugifying again changes nothing exactly when the cut at 80 characters did not leave a dash at the end. */
  lemma SlugifyIsIdempotentIff(name: string)
    ensures Slugify(Slugify(name)) == Slugify(name) <==> Slugify(name)[|Slugify(name)| - 1] != '-'
  {
    var slug := Slugify(name);
    SlugSpellsName(name);
    DashedOfDashing(slug);
    assert StripLeft(slug) == slug;
    StripRightKeeps(slug);
  }

  // ---------------------------------------------------------------- serial numbers

  function Digit(d: nat): char
    requires d < 10
  {
    ('0' as int + d) as char
  }

  function Decimal(n: nat): string {
    (if n < 10 then [] else Decimal(n / 10)) + [Digit(n % 10)]
  }

  function Value(s: string): int {
    if s == [] then 0 else 10 * Value(s[..|s| - 1]) + (s[|s| - 1] as int - '0' as int)
  }

  function PowerOfTen(n: nat): nat {
    if n == 0 then 1 else 10 * PowerOfTen(n - 1)
  }

  lemma {:induction false} DecimalRoundTrip(n: nat)
    ensures Value(Decimal(n)) == n && '-' !in Decimal(n) && Decimal(n) != []
  {
    var s := Decimal(n);
    if n < 10 {
      assert s[..|s| - 1] == [];
    } else {
      DecimalRoundTrip(n / 10);
      assert s[..|s| - 1] == Decimal(n / 10);
    }
  }

  lemma {:induction false} DecimalLength(n: nat, k: nat)
    requires n < PowerOfTen(k) && k > 0
    ensures |Decimal(n)| <= k
  {
    if n >= 10 {
      assert k > 1;
      DecimalLength(n / 10, k - 1);
    }
  }

  // ---------------------------------------------------------------- the allocator

  /** Keep the head, at least one character of it, so that head and tail together fit. */
  function Fit(base: string, room: int): string {
    Take(base, Max(1, room))
  }

  function WithSuffix(base: string, suffix: string): string {
    Fit(base, 71 - |suffix|) + "-" + suffix
  }

  function Numbered(base: string, serial: nat): string {
    Fit(base, 79 - |Decimal(serial)|) + "-" + Decimal(serial)
  }

  /** The query: the owner's slugs that start with the base. */
  function Starting(taken: set<string>, base: string): set<string> {
    set s | s in taken && base <= s
  }

  lemma AfterLastDash(a: string, x: string, b: string, y: string)
    requires a + "-" + x == b + "-" + y && '-' !in x && '-' !in y
    ensures x == y && a == b
  {
    var s, t := a + "-" + x, b + "-" + y;
    assert s[|a|] == '-' && t[|b|] == '-';
    assert |a| == |b|;
    assert s[..|a|] == a && t[..|b|] == b && s[|a| + 1..] == x && t[|b| + 1..] == y;
  }

  lemma NumberedShape(base: string, serial: nat) returns (head: string)
    requires base != []
    ensures Numbered(base, serial) == head + "-" + Decimal(serial)
    ensures |head| == Min(|base|, Max(1, 79 - |Decimal(serial)|))
    ensures '-' !in Decimal(serial) && Value(Decimal(serial)) == serial && Decimal(serial) != []
  {
    head := Fit(base, 79 - |Decimal(serial)|);
    DecimalRoundTrip(serial);
  }

  /** Candidates with different serials differ. */
  lemma NumberedInjective(base: string, m: nat, n: nat)
    requires base != [] && Numbered(base, m) == Numbered(base, n)
    ensures m == n
  {
    var a := NumberedShape(base, m);
    var b := NumberedShape(base, n);
    AfterLastDash(a, Decimal(m), b, Decimal(n));
  }

  /** The suffixed candidate or the base itself is none of the numbered ones. */
  lemma OneIsUnnumbered(base: string, suffix: string) returns (other: string)
    requires base != [] && '-' !in suffix && 1 <= |suffix| <= 9
    ensures other == base || other == WithSuffix(base, suffix)
    ensures forall n: nat :: other != Numbered(base, n)
  {
    if n: nat :| WithSuffix(base, suffix) == Numbered(base, n) {
      other := base;
      forall m: nat ensures other != Numbered(base, m) {}
    } else {
      other := WithSuffix(base, suffix);
    }
  }

  /** When the base, the suffixed candidate and the numbers before n are all taken, n - 1 slugs are taken. */
  lemma Crowded(base: string, suffix: string, existing: set<string>, n: nat)
    requires base != [] && '-' !in suffix && 1 <= |suffix| <= 9 && n >= 2
    requires base in existing && WithSuffix(base, suffix) in existing
    requires forall i :: 2 <= i < n ==> Numbered(base, i) in existing
    ensures n - 1 <= |existing|
  {
    var other := OneIsUnnumbered(base, suffix);
    var seen := seq(n - 2, (i: nat) => Numbered(base, i + 2)) + [other];
    forall i, j | 0 <= i < j < |seen| ensures seen[i] != seen[j] {
      if j < n - 2 && seen[i] == seen[j] { NumberedInjective(base, i + 2, j + 2); }
    }
    DistinctFits(seen, existing);
  }

  /** The first numbered candidate from n on that is not taken. A candidate met once is never met again, so it
      may be dropped from the set. */
  function FirstFree(base: string, n: nat, existing: set<string>): string
    decreases |existing|
  {
    var candidate := Numbered(base, n);
    if candidate in existing then FirstFree(base, n + 1, existing - {candidate}) else candidate
  }

  /** The slug handed out: the base, the base with the suffix, or the first free number. */
  function Allocated(base: string, suffix: string, existing: set<string>): string {
    if base !in existing then base
    else if WithSuffix(base, suffix) !in existing then WithSuffix(base, suffix)
    else FirstFree(base, 2, existing)
  }

  lemma {:induction false} FirstFreeIs(base: string, n: nat, existing: set<string>, m: nat)
    requires base != [] && n <= m && Numbered(base, m) !in existing
    requires forall i :: n <= i < m ==> Numbered(base, i) in existing
    ensures FirstFree(base, n, existing) == Numbered(base, m)
    decreases m - n
  {
    if n < m {
      var rest := existing - {Numbered(base, n)};
      forall i | n < i < m ensures Numbered(base, i) in rest {
        if Numbered(base, i) == Numbered(base, n) { NumberedInjective(base, i, n); }
      }
      FirstFreeIs(base, n + 1, rest, m);
    }
  }

  /** It is met after at most as many candidates as there are slugs. */
  lemma {:induction false} FirstFreeSerial(base: string, n: nat, existing: set<string>) returns (m: nat)
    requires base != []
    ensures FirstFree(base, n, existing) == Numbered(base, m) && n <= m <= n + |existing|
    ensures Numbered(base, m) !in existing
    decreases |existing|
  {
    var candidate := Numbered(base, n);
    if candidate in existing {
      m := FirstFreeSerial(base, n + 1, existing - {candidate});
      if Numbered(base, m) == candidate { NumberedInjective(base, m, n); }
    } else {
      m := n;
    }
  }

  /** `_allocate_workspace_slug` and `_allocate_workspace_group_slug` from the base on; the suffix is the start
      of the row's identifier without dashes, or a fixed word. */
  method Allocate(base: string, suffix: string, existing: set<string>) returns (slug: string, rounds: nat)
    requires base != [] && |base| <= LIMIT && '-' !in suffix && 1 <= |suffix| <= 9
    ensures slug == Allocated(base, suffix, existing)
    ensures slug !in existing
    ensures rounds <= |existing|
    ensures slug == if base !in existing then base
                    else if rounds == 0 then WithSuffix(base, suffix)
                    else Numbered(base, rounds + 1)
    ensures base in existing && rounds > 0 ==> WithSuffix(base, suffix) in existing
    ensures forall i :: 2 <= i <= rounds ==> Numbered(base, i) in existing
    ensures 1 <= |slug| && (|existing| < PowerOfTen(78) - 1 ==> |slug| <= LIMIT)
  {
    slug, rounds := base, 0;
    if slug !in existing {
      return;
    }
    slug := WithSuffix(base, suffix);
    var serial := 2;
    while slug in existing
      invariant serial >= 2
      invariant slug == if serial == 2 then WithSuffix(base, suffix) else Numbered(base, serial - 1)
      invariant serial > 2 ==> WithSuffix(base, suffix) in existing
      invariant forall i :: 2 <= i < serial - 1 ==> Numbered(base, i) in existing
      invariant serial - 2 <= |existing|
      decreases |existing| + 2 - serial
    {
      Crowded(base, suffix, existing, serial);
      slug := Numbered(base, serial);
      serial := serial + 1;
    }
    rounds := serial - 2;
    if rounds > 0 { FirstFreeIs(base, 2, existing, serial - 1); }
    if rounds > 0 && |existing| < PowerOfTen(78) - 1 {
      DecimalLength(serial - 1, 78);
    }
  }

  function WithoutDashes(id: string): string {
    if id == [] then []
    else WithoutDashes(id[..|id| - 1]) + if id[|id| - 1] == '-' then [] else [id[|id| - 1]]
  }

  function Suffix(id: string, fallback: string): string {
    var short := Take(WithoutDashes(id), 8);
    if short == [] then fallback else short
  }

  lemma {:induction false} NoDashLeft(id: string)
    ensures '-' !in WithoutDashes(id)
  {
    if id != [] { NoDashLeft(id[..|id| - 1]); }
  }

  /** Rows with the same suffix are those whose identifiers agree in their first eight characters, dashes not
      counted. */
  lemma SuffixTellsApartIff(a: string, b: string, fallback: string)
    requires |WithoutDashes(a)| >= 8 && |WithoutDashes(b)| >= 8
    ensures |Suffix(a, fallback)| == 8
    ensures Suffix(a, fallback) == Suffix(b, fallback) <==>
            forall i :: 0 <= i < 8 ==> WithoutDashes(a)[i] == WithoutDashes(b)[i]
  {
    var x, y := WithoutDashes(a), WithoutDashes(b);
    assert Suffix(a, fallback) == x[..8] && Suffix(b, fallback) == y[..8];
    if x[..8] == y[..8] {
      forall i | 0 <= i < 8 ensures x[i] == y[i] { assert x[..8][i] == y[..8][i]; }
    }
  }

  /** More slugs than any owner has: serial numbers up to seven digits. */
  const MANY := PowerOfTen(7) - 2

  lemma UncutNumbered(base: string, n: nat)
    requires base != [] && |base| <= 72 && n < PowerOfTen(7)
    ensures base <= Numbered(base, n)
  {
    DecimalLength(n, 7);
  }

  lemma AllocatedExtendsBase(base: string, suffix: string, existing: set<string>)
    requires base != [] && 1 <= |suffix| <= 9 && base <= WithSuffix(base, suffix) && |existing| < MANY
    ensures base <= Allocated(base, suffix, existing) && Allocated(base, suffix, existing) !in existing
  {
    if base in existing && WithSuffix(base, suffix) in existing {
      var m := FirstFreeSerial(base, 2, existing);
      UncutNumbered(base, m);
    }
  }

  /** The allocator only looks at slugs that start with the base. Its answer is free among all of the owner's
      slugs, whichever those are, exactly when putting the suffix on does not cut the base. */
  lemma FreshAmongAllIff(base: string, suffix: string)
    requires base != [] && |base| <= LIMIT && '-' !in suffix && 1 <= |suffix| <= 9
    ensures (forall taken: set<string> :: |taken| < MANY ==> FreshAmong(base, suffix, taken)) <==>
            base <= WithSuffix(base, suffix)
  {
    if base <= WithSuffix(base, suffix) {
      forall taken: set<string> | |taken| < MANY ensures FreshAmong(base, suffix, taken) {
        SubsetSize(Starting(taken, base), taken);
        AllocatedExtendsBase(base, suffix, Starting(taken, base));
      }
    } else {
      var taken := {base, WithSuffix(base, suffix)};
      TwoTaken(base, suffix, taken);
    }
  }

  ghost predicate FreshAmong(base: string, suffix: string, taken: set<string>) {
    Allocated(base, suffix, Starting(taken, base)) !in taken
  }

  lemma TwoTaken(base: string, suffix: string, taken: set<string>)
    requires taken == {base, WithSuffix(base, suffix)} && !(base <= WithSuffix(base, suffix))
    ensures !FreshAmong(base, suffix, taken) && |taken| < MANY
  {
    assert Starting(taken, base) == {base};
    assert base != WithSuffix(base, suffix);
    assert |{base}| == 1 && taken == {base} + {WithSuffix(base, suffix)};
    assert PowerOfTen(7) == 10 * PowerOfTen(6) && PowerOfTen(6) >= 1;
    assert PowerOfTen(1) == 10 && PowerOfTen(2) == 100;
  }

  /** In particular when base and suffix together are short, or cut off exactly where the suffix repeats the rest
      of the base. */
  lemma SuffixCutsBaseIff(base: string, suffix: string)
    requires base != [] && 1 <= |suffix| <= 9
    ensures base <= WithSuffix(base, suffix) <==>
            |base| + |suffix| <= 71 ||
            (|base| <= 72 && base[71 - |suffix|..] <= "-" + suffix)
  {
    var cut := Fit(base, 71 - |suffix|);
    var tail := "-" + suffix;
    assert WithSuffix(base, suffix) == cut + tail;
    if |base| + |suffix| > 71 {
      var n := 71 - |suffix|;
      assert cut == base[..n] && base == cut + base[n..];
      if base <= cut + tail {
        assert base[n..] == (cut + tail)[n..|base|];
        assert (cut + tail)[n..] == tail;
      }
      if |base| <= 72 && base[n..] <= tail {
        assert (cut + tail)[..|base|] == cut + tail[..|base| - n];
      }
    }
  }

  /** The whole allocation against the owner's slugs, for a workspace or a group: free among all of them
      whenever the suffix of the identifier leaves the name's slug uncut. */
  method AllocateSlug(name: string, id: string, fallback: string, taken: set<string>) returns (slug: string)
    requires fallback == "workspace" || fallback == "group"
    ensures slug == Allocated(Slugify(name), Suffix(id, fallback), Starting(taken, Slugify(name)))
    ensures slug !in Starting(taken, Slugify(name)) && 1 <= |slug|
    ensures Slugify(name) <= WithSuffix(Slugify(name), Suffix(id, fallback)) && |taken| < MANY ==> slug !in taken
    ensures Slugify(name) <= slug ==> slug !in taken
    ensures Slugify(name) !in taken ==> slug == Slugify(name)
    ensures |taken| < PowerOfTen(78) - 1 ==> |slug| <= LIMIT
  {
    var base, suffix := Slugify(name), Suffix(id, fallback);
    SlugSpellsName(name);
    NoDashLeft(id);
    var rounds;
    slug, rounds := Allocate(base, suffix, Starting(taken, base));
    SubsetSize(Starting(taken, base), taken);
    if base <= WithSuffix(base, suffix) && |taken| < MANY {
      AllocatedExtendsBase(base, suffix, Starting(taken, base));
    }
  }

  /** A base that leaves room for the tail is not cut. */
  lemma RoomyBaseIsKept(base: string, suffix: string, serial: nat)
    ensures |base| + |suffix| <= 71 ==> base <= WithSuffix(base, suffix)
    ensures |base| + |Decimal(serial)| <= 79 ==> base <= Numbered(base, serial)
  {
  }

  /** An input on which the slug handed out is already taken: the longest slug there is, itself taken, while the
      candidate with the suffix is taken by a row that the query does not return. */
  lemma CutBaseCollides(suffix: string)
    requires |suffix| == 8 && '-' !in suffix
    ensures var base := seq(80, (i: nat) => 'a');
      Slugify(base) == base && !FreshAmong(base, suffix, {base, WithSuffix(base, suffix)})
  {
    var base := seq(80, (i: nat) => 'a');
    DashedOfDashing(base);
    assert WithSuffix(base, suffix)[63] == '-' && base[63] == 'a';
    TwoTaken(base, suffix, {base, WithSuffix(base, suffix)});
  }
}
