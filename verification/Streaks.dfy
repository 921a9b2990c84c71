/** Runs of consecutive active days. A day is its ordinal number. */
module Streaks {
  import opened Prelude

  /** The k days from `first` on are all active. */
  ghost predicate Run(active: set<int>, first: int, k: nat) {
    forall d :: first <= d < first + k ==> d in active
  }

  ghost predicate Ascending(days: seq<int>) {
    forall i, j :: 0 <= i < j < |days| ==> days[i] < days[j]
  }

  ghost predicate Least(s: set<int>, x: int) {
    x in s && forall y :: y in s ==> x <= y
  }

  lemma Pick<T>(s: set<T>) returns (x: T)
    requires s != {}
    ensures x in s
  {
    x :| x in s;
  }

  lemma {:induction false} HasLeast(s: set<int>) returns (least: int)
    requires s != {}
    ensures Least(s, least)
  {
    least := Pick(s);
    if s != {least} {
      assert s == s - {least} + {least};
      var other := HasLeast(s - {least});
      least := Min(least, other);
    }
  }

  lemma LeastExists(s: set<int>)
    requires s != {}
    ensures exists x :: Least(s, x)
  {
    var least := HasLeast(s);
  }

  /** The days in order. */
  function Sorted(s: set<int>): (r: seq<int>)
    ensures Ascending(r) && Elements(r) == s
  {
    if s == {} then []
    else
      LeastExists(s);
      var least :| least in s && forall y :: y in s ==> least <= y;
      var rest := Sorted(s - {least});
      Prepend(s, least, rest);
      [least] + rest
  }

  lemma Prepend(s: set<int>, least: int, rest: seq<int>)
    requires Least(s, least) && Ascending(rest) && Elements(rest) == s - {least}
    ensures Ascending([least] + rest) && Elements([least] + rest) == s
  {
    var r := [least] + rest;
    forall i | 0 <= i < |rest| ensures least < rest[i] { assert rest[i] in Elements(rest); }
    forall x | x in s ensures x in Elements(r) {
      if x == least {
        assert r[0] == x;
      } else {
        assert x in Elements(rest);
        var i :| 0 <= i < |rest| && rest[i] == x;
        assert r[i + 1] == x;
      }
    }
    forall x | x in Elements(r) ensures x in s {
      var i :| 0 <= i < |r| && r[i] == x;
      assert i > 0 ==> rest[i - 1] in Elements(rest);
    }
  }

  /** Length of the run that ends with day j of the list. */
  function RunAt(days: seq<int>, j: nat): (r: nat)
    requires j < |days|
    ensures 1 <= r <= j + 1
  {
    if j > 0 && days[j] == days[j - 1] + 1 then RunAt(days, j - 1) + 1 else 1
  }

  lemma {:induction false} RunAtIsRun(days: seq<int>, j: nat)
    requires j < |days|
    ensures Run(Elements(days), days[j] - RunAt(days, j) + 1, RunAt(days, j))
  {
    if j > 0 && days[j] == days[j - 1] + 1 { RunAtIsRun(days, j - 1); }
  }

  lemma StepBack(days: seq<int>, i: nat, j: nat)
    requires i < |days| && j < |days| && Ascending(days) && days[i] + 1 == days[j]
    ensures i == j - 1
  {
    assert j > 0 ==> days[j - 1] < days[j];
  }

  /** No run ending on that day is longer. */
  lemma {:induction false} RunAtIsLongest(days: seq<int>, j: nat, k: nat)
    requires j < |days| && Ascending(days) && k >= 1 && Run(Elements(days), days[j] - k + 1, k)
    ensures k <= RunAt(days, j)
  {
    if k > 1 {
      assert days[j] - 1 in Elements(days);
      var i :| 0 <= i < |days| && days[i] == days[j] - 1;
      StepBack(days, i, j);
      RunAtIsLongest(days, j - 1, k - 1);
    }
  }

  /** The longest run of consecutive active days has r days. */
  ghost predicate IsLongest(active: set<int>, r: nat) {
    && (exists first :: Run(active, first, r))
    && (forall first, k: nat :: Run(active, first, k) ==> k <= r)
  }

  /** The loop over the sorted dates. */
  method LongestStreak(active: set<int>) returns (longest: nat)
    ensures IsLongest(active, longest)
  {
    var days := Sorted(active);
    longest := 0;
    var run := 0;
    var previous: Option<int> := None;
    assert Run(active, 0, 0);
    for i := 0 to |days|
      invariant i == 0 ==> run == 0 && previous == None
      invariant i > 0 ==> previous == Some(days[i - 1]) && run == RunAt(days, i - 1)
      invariant forall j :: 0 <= j < i ==> RunAt(days, j) <= longest
      invariant exists first :: Run(active, first, longest)
    {
      run := if previous.Some? && days[i] == previous.value + 1 then run + 1 else 1;
      previous := Some(days[i]);
      RunAtIsRun(days, i);
      longest := Max(longest, run);
    }
    forall first, k: nat | Run(active, first, k) ensures k <= longest { NoLonger(active, days, first, k, longest); }
  }

  lemma NoLonger(active: set<int>, days: seq<int>, first: int, k: nat, longest: nat)
    requires Ascending(days) && Elements(days) == active && Run(active, first, k)
    requires forall j :: 0 <= j < |days| ==> RunAt(days, j) <= longest
    ensures k <= longest
  {
    if k > 0 {
      assert first + k - 1 in Elements(days);
      var j :| 0 <= j < |days| && days[j] == first + k - 1;
      RunAtIsLongest(days, j, k);
    }
  }

  /** The loop that walks back from today. */
  method CurrentStreak(active: set<int>, today: int) returns (streak: nat)
    ensures EndsWith(active, today, streak) && today - streak !in active
  {
    streak := 0;
    var cursor := today;
    ghost var seen: set<int> := {};
    while cursor in active
      invariant cursor == today - streak && Run(active, cursor + 1, streak)
      invariant seen <= active && forall d :: d in seen ==> d > cursor
      decreases active - seen
    {
      streak := streak + 1;
      seen := seen + {cursor};
      cursor := cursor - 1;
    }
  }

  ghost predicate EndsWith(active: set<int>, today: int, k: nat) {
    Run(active, today - k + 1, k)
  }

  /** The current streak is the longest run that ends today, and no streak beats the longest. */
  lemma CurrentIsMaximal(active: set<int>, today: int, streak: nat, longest: nat)
    requires EndsWith(active, today, streak) && today - streak !in active && IsLongest(active, longest)
    ensures streak <= longest
    ensures forall k: nat :: EndsWith(active, today, k) ==> k <= streak
  {
    forall k: nat | EndsWith(active, today, k) ensures k <= streak {
      assert today - k + 1 <= today - streak < today - k + 1 + k ==> today - streak in active;
    }
  }
}
