/** Usage accounting: messages put into days, days rolled up into weeks and running totals. */
module Usage {
  import opened Prelude
  import opened Streaks

  datatype Role = User | Assistant | OtherRole

  /** One message: its chat, the ordinal of its day, its token count, its author and the model that wrote it. */
  datatype Row = Row(chat: string, day: int, tokens: nat, role: Role, model: Option<string>)

  /** What is counted per day, week or prefix. Models are counted by name. */
  datatype Entry = Entry(tokens: int, messages: int, chats: int, models: map<string, int>)

  const NOTHING := Entry(0, 0, 0, map[])

  /** A day while it is being filled: the chats are a set. */
  datatype Day = Day(tokens: int, messages: int, chats: set<string>, models: map<string, int>)

  const QUIET := Day(0, 0, {}, map[])

  function Count(models: map<string, int>, model: string): int {
    if model in models then models[model] else 0
  }

  /** Model by model. */
  function Merge(a: map<string, int>, b: map<string, int>): map<string, int> {
    map m | m in a.Keys + b.Keys :: Count(a, m) + Count(b, m)
  }

  function Added(a: int, b: int): int {
    a + b
  }

  function Plus(a: Entry, b: Entry): Entry {
    Entry(Added(a.tokens, b.tokens), Added(a.messages, b.messages), Added(a.chats, b.chats), Merge(a.models, b.models))
  }

  function Closed(d: Day): Entry {
    Entry(d.tokens, d.messages, |d.chats|, d.models)
  }

  // ---------------------------------------------------------------- filling the days

  function Model(r: Row): map<string, int> {
    if r.role == Assistant && r.model.Some? && r.model.value != "" then map[r.model.value := 1] else map[]
  }

  function Add(d: Day, r: Row): Day {
    Day(d.tokens + r.tokens, d.messages + 1, d.chats + {r.chat}, Merge(d.models, Model(r)))
  }

  /** The day as its messages make it. */
  function DayOf(rows: seq<Row>, day: int): Day {
    if rows == [] then QUIET
    else
      var before, last := DayOf(rows[..|rows| - 1], day), rows[|rows| - 1];
      if last.day == day then Add(before, last) else before
  }

  /** Messages that fall on a day of the period. */
  function Within(rows: seq<Row>, start: int, today: int): seq<Row> {
    if rows == [] then []
    else
      var last := rows[|rows| - 1];
      Within(rows[..|rows| - 1], start, today) + if start <= last.day <= today then [last] else []
  }

  ghost predicate Filed(stats: map<int, Day>, rows: seq<Row>) {
    forall d :: FiledAt(stats, rows, d)
  }

  /** A day is there when a message falls on it, and holds what its messages make. */
  ghost predicate FiledAt(stats: map<int, Day>, rows: seq<Row>, d: int) {
    && (d in stats <==> exists r :: r in rows && r.day == d)
    && (d in stats ==> stats[d] == DayOf(rows, d))
  }

  lemma FiledStepAt(stats: map<int, Day>, rows: seq<Row>, r: Row, d: int)
    requires FiledAt(stats, rows, d)
    ensures FiledAt(File(stats, r), rows + [r], d)
  {
    var all := rows + [r];
    assert all[..|rows|] == rows && all[|rows|] == r;
    if d == r.day {
      assert r in all;
      if d !in stats { Absent(rows, d); }
    }
    if x :| x in rows && x.day == d { assert x in all; }
  }

  lemma FiledStep(stats: map<int, Day>, rows: seq<Row>, r: Row)
    requires Filed(stats, rows)
    ensures Filed(File(stats, r), rows + [r])
  {
    forall d ensures FiledAt(File(stats, r), rows + [r], d) {
      assert FiledAt(stats, rows, d);
      FiledStepAt(stats, rows, r, d);
    }
  }

  function File(stats: map<int, Day>, r: Row): map<int, Day> {
    stats[r.day := Add(if r.day in stats then stats[r.day] else QUIET, r)]
  }

  lemma {:induction false} Absent(rows: seq<Row>, day: int)
    requires forall r :: r in rows ==> r.day != day
    ensures DayOf(rows, day) == QUIET
  {
    if rows != [] { Absent(rows[..|rows| - 1], day); }
  }

  /** The first loop: every message of the period into its day; the others are passed over. */
  method FileRows(rows: seq<Row>, start: int, today: int)
    returns (stats: map<int, Day>, userMessages: nat, assistantMessages: nat)
    ensures Filed(stats, Within(rows, start, today))
    ensures userMessages == Written(Within(rows, start, today), User)
    ensures assistantMessages == Written(Within(rows, start, today), Assistant)
  {
    stats, userMessages, assistantMessages := map[], 0, 0;
    ghost var kept: seq<Row> := [];
    for i := 0 to |rows|
      invariant kept == Within(rows[..i], start, today) && Filed(stats, kept)
      invariant userMessages == Written(kept, User) && assistantMessages == Written(kept, Assistant)
    {
      var r := rows[i];
      assert rows[..i + 1][..i] == rows[..i];
      if start <= r.day <= today {
        FiledStep(stats, kept, r);
        stats := File(stats, r);
        userMessages, assistantMessages := CountRole(kept, r, userMessages, assistantMessages);
        kept := kept + [r];
      }
    }
    assert rows[..|rows|] == rows;
  }

  method CountRole(ghost kept: seq<Row>, r: Row, users: nat, assistants: nat)
    returns (userMessages: nat, assistantMessages: nat)
    requires users == Written(kept, User) && assistants == Written(kept, Assistant)
    ensures userMessages == Written(kept + [r], User) && assistantMessages == Written(kept + [r], Assistant)
  {
    userMessages, assistantMessages := users, assistants;
    assert (kept + [r])[..|kept|] == kept;
    if r.role == User {
      userMessages := users + 1;
    } else if r.role == Assistant {
      assistantMessages := assistants + 1;
    }
  }

  function Written(rows: seq<Row>, role: Role): nat {
    if rows == [] then 0
    else Written(rows[..|rows| - 1], role) + if rows[|rows| - 1].role == role then 1 else 0
  }

  // ---------------------------------------------------------------- rolling up

  function Sum(entries: seq<Entry>): Entry {
    if entries == [] then NOTHING else Plus(Sum(entries[..|entries| - 1]), entries[|entries| - 1])
  }

  /** Monday of the week: ordinal 1 is a Monday. */
  function WeekOf(day: int): int {
    day - (day + 6) % 7
  }

  function EntryOn(stats: map<int, Day>, day: int): Entry {
    if day in stats then Closed(stats[day]) else NOTHING
  }

  /** The days of the period that belong to the week, as indices into the list of days. */
  function FirstIn(start: int, n: nat, week: int): nat {
    Min(n, Max(0, week - start))
  }

  function EndIn(start: int, n: nat, week: int): (e: nat)
    ensures e >= FirstIn(start, n, week)
  {
    Min(n, Max(0, week + 7 - start))
  }

  function WeekDays(entries: seq<Entry>, start: int, week: int): seq<Entry> {
    entries[FirstIn(start, |entries|, week)..EndIn(start, |entries|, week)]
  }

  ghost predicate DayInWeek(start: int, n: nat, week: int, i: int) {
    0 <= i < n && WeekOf(start + i) == week
  }

  ghost predicate Touched(start: int, n: nat, week: int) {
    exists i :: DayInWeek(start, n, week, i)
  }

  /** One entry per week the period touches: the total of the week's days within the period. */
  ghost predicate Weekly(weekly: map<int, Entry>, entries: seq<Entry>, start: int) {
    forall w :: WeeklyAt(weekly, entries, start, w)
  }

  ghost predicate WeeklyAt(weekly: map<int, Entry>, entries: seq<Entry>, start: int, w: int) {
    && (w in weekly <==> Touched(start, |entries|, w))
    && (w in weekly ==> weekly[w] == Sum(WeekDays(entries, start, w)))
  }

  function WeekEntry(weekly: map<int, Entry>, week: int): Entry {
    if week in weekly then weekly[week] else NOTHING
  }

  /** A day's entry added to its week. */
  function WithDay(weekly: map<int, Entry>, week: int, e: Entry): map<int, Entry> {
    weekly[week := Plus(WeekEntry(weekly, week), e)]
  }

  lemma PastWeekStays(entries: seq<Entry>, start: int, e: Entry, week: int)
    requires week + 7 <= start + |entries|
    ensures WeekDays(entries + [e], start, week) == WeekDays(entries, start, week)
  {
    var all, end := entries + [e], EndIn(start, |entries|, week);
    assert end == EndIn(start, |all|, week);
    assert FirstIn(start, |all|, week) == FirstIn(start, |entries|, week);
    assert all[..end] == entries[..end];
  }

  lemma DayJoinsWeek(entries: seq<Entry>, start: int, e: Entry, week: int)
    requires week <= start + |entries| < week + 7
    ensures WeekDays(entries + [e], start, week) == WeekDays(entries, start, week) + [e]
  {
    var all, first := entries + [e], FirstIn(start, |entries|, week);
    assert EndIn(start, |all|, week) == |all| && EndIn(start, |entries|, week) == |entries|;
    assert first == FirstIn(start, |all|, week);
    assert all[first..] == entries[first..] + [e];
  }

  lemma WeekGainsDay(weekly: map<int, Entry>, entries: seq<Entry>, start: int, e: Entry, w: int)
    requires WeeklyAt(weekly, entries, start, w) && w == WeekOf(start + |entries|)
    ensures WeeklyAt(WithDay(weekly, w, e), entries + [e], start, w)
  {
    assert DayInWeek(start, |entries| + 1, w, |entries|);
    if w !in weekly { NoEarlierDay(entries, start, w); }
    DayJoinsWeek(entries, start, e, w);
  }

  lemma OtherWeekStays(weekly: map<int, Entry>, entries: seq<Entry>, start: int, e: Entry, w: int, v: int)
    requires WeeklyAt(weekly, entries, start, v) && w == WeekOf(start + |entries|) && v != w
    ensures WeeklyAt(WithDay(weekly, w, e), entries + [e], start, v)
  {
    TouchedBefore(start, |entries|, |entries| + 1, v);
    if i :| DayInWeek(start, |entries|, v, i) {
      PastWeekStays(entries, start, e, v);
    }
  }

  lemma WeeklyStepAt(weekly: map<int, Entry>, entries: seq<Entry>, start: int, e: Entry, w: int, v: int)
    requires WeeklyAt(weekly, entries, start, v) && w == WeekOf(start + |entries|)
    ensures WeeklyAt(WithDay(weekly, w, e), entries + [e], start, v)
  {
    if v == w { WeekGainsDay(weekly, entries, start, e, w); } else { OtherWeekStays(weekly, entries, start, e, w, v); }
  }

  lemma TouchedBefore(start: int, n: nat, m: nat, week: int)
    requires m == n + 1 && week != WeekOf(start + n)
    ensures Touched(start, m, week) <==> Touched(start, n, week)
  {
    if i :| DayInWeek(start, m, week, i) { assert DayInWeek(start, n, week, i); }
    if i :| DayInWeek(start, n, week, i) { assert DayInWeek(start, m, week, i); }
  }

  lemma WeeklyStep(weekly: map<int, Entry>, entries: seq<Entry>, start: int, e: Entry, w: int)
    requires Weekly(weekly, entries, start) && w == WeekOf(start + |entries|)
    ensures Weekly(WithDay(weekly, w, e), entries + [e], start)
  {
    var after := WithDay(weekly, w, e);
    forall v ensures WeeklyAt(after, entries + [e], start, v) {
      assert WeeklyAt(weekly, entries, start, v);
      WeeklyStepAt(weekly, entries, start, e, w, v);
    }
  }

  lemma NoEarlierDay(entries: seq<Entry>, start: int, w: int)
    requires w == WeekOf(start + |entries|) && !Touched(start, |entries|, w)
    ensures WeekDays(entries, start, w) == []
  {
    var n := |entries|;
    if n > 0 {
      assert !DayInWeek(start, n, w, n - 1);
    }
  }

  ghost predicate Daily(heatmap: seq<Entry>, stats: map<int, Day>, start: int) {
    forall i :: 0 <= i < |heatmap| ==> DailyAt(heatmap, stats, start, i)
  }

  ghost predicate DailyAt(heatmap: seq<Entry>, stats: map<int, Day>, start: int, i: int)
    requires 0 <= i < |heatmap|
  {
    heatmap[i] == EntryOn(stats, start + i)
  }

  lemma DailyStep(heatmap: seq<Entry>, stats: map<int, Day>, start: int, e: Entry)
    requires Daily(heatmap, stats, start) && e == EntryOn(stats, start + |heatmap|)
    ensures Daily(heatmap + [e], stats, start)
  {
    var h := heatmap + [e];
    forall i | 0 <= i < |h| ensures DailyAt(h, stats, start, i) {
      if i < |heatmap| { assert DailyAt(heatmap, stats, start, i); }
    }
  }

  ghost predicate RunningAt(cumulative: seq<Entry>, heatmap: seq<Entry>, i: nat)
    requires |cumulative| <= |heatmap| && i < |cumulative|
  {
    cumulative[i] == Sum(heatmap[..i + 1])
  }

  /** Each entry is the total of the days up to it. */
  ghost predicate Running(cumulative: seq<Entry>, heatmap: seq<Entry>) {
    |cumulative| == |heatmap| && forall i :: 0 <= i < |cumulative| ==> RunningAt(cumulative, heatmap, i)
  }

  lemma RunningStep(cumulative: seq<Entry>, heatmap: seq<Entry>, e: Entry)
    requires Running(cumulative, heatmap)
    ensures Running(cumulative + [Plus(Sum(heatmap), e)], heatmap + [e])
  {
    var c, h := cumulative + [Plus(Sum(heatmap), e)], heatmap + [e];
    forall i | 0 <= i < |c| ensures RunningAt(c, h, i) {
      if i < |cumulative| {
        assert RunningAt(cumulative, heatmap, i);
        assert h[..i + 1] == heatmap[..i + 1];
      } else {
        assert h[..i + 1] == h;
      }
    }
  }

  /** What the second loop has put together for the first days of the period. */
  ghost predicate Rolled(stats: map<int, Day>, start: int, heatmap: seq<Entry>, weekly: map<int, Entry>,
                         cumulative: seq<Entry>) {
    Daily(heatmap, stats, start) && Weekly(weekly, heatmap, start) && Running(cumulative, heatmap)
  }

  lemma RolledStep(stats: map<int, Day>, start: int, heatmap: seq<Entry>, weekly: map<int, Entry>,
                   cumulative: seq<Entry>, e: Entry, week: int)
    requires Rolled(stats, start, heatmap, weekly, cumulative)
    requires e == EntryOn(stats, start + |heatmap|) && week == WeekOf(start + |heatmap|)
    ensures Rolled(stats, start, heatmap + [e], WithDay(weekly, week, e),
                   cumulative + [Plus(Sum(heatmap), e)])
    ensures Sum(heatmap + [e]) == Plus(Sum(heatmap), e)
  {
    DailyStep(heatmap, stats, start, e);
    WeeklyStep(weekly, heatmap, start, e, week);
    RunningStep(cumulative, heatmap, e);
  }

  /** A week starts on a Monday and has seven days. */
  lemma WeekOfDay(day: int)
    ensures WeekOf(day) <= day < WeekOf(day) + 7 && (WeekOf(day) - 1) % 7 == 0
  {
  }

  /** The second loop: one entry per day of the period, each also added to its week and to the running total. */
  method RollUp(stats: map<int, Day>, start: int, today: int)
    returns (heatmap: seq<Entry>, weekly: map<int, Entry>, cumulative: seq<Entry>)
    requires start <= today
    ensures |heatmap| == today - start + 1 && Rolled(stats, start, heatmap, weekly, cumulative)
    ensures forall w :: w in weekly ==> (w - 1) % 7 == 0
  {
    heatmap, weekly, cumulative := [], map[], [];
    var total := NOTHING;
    for offset := 0 to today - start + 1
      invariant |heatmap| == offset && total == Sum(heatmap)
      invariant Rolled(stats, start, heatmap, weekly, cumulative)
      invariant forall w :: w in weekly ==> (w - 1) % 7 == 0
    {
      WeekOfDay(start + offset);
      var entry, week := EntryOn(stats, start + offset), WeekOf(start + offset);
      RolledStep(stats, start, heatmap, weekly, cumulative, entry, week);
      heatmap := heatmap + [entry];
      weekly := WithDay(weekly, week, entry);
      total := Plus(total, entry);
      cumulative := cumulative + [total];
    }
  }

  // ---------------------------------------------------------------- conservation: days, weeks, running total

  /** A quantity that is counted up: tokens, messages, chats, or the messages of one model. */
  ghost predicate Additive(g: Entry -> int) {
    g(NOTHING) == 0 && forall a, b :: AdditiveAt(g, a, b)
  }

  ghost predicate AdditiveAt(g: Entry -> int, a: Entry, b: Entry) {
    g(Plus(a, b)) == g(a) + g(b)
  }

  function WeeklyMap(entries: seq<Entry>, start: int): map<int, Entry> {
    if entries == [] then map[]
    else
      var n := |entries| - 1;
      var before, w := WeeklyMap(entries[..n], start), WeekOf(start + n);
      WithDay(before, w, entries[n])
  }

  lemma {:induction false} WeeklyMapIsWeekly(entries: seq<Entry>, start: int)
    ensures Weekly(WeeklyMap(entries, start), entries, start)
  {
    if entries == [] {
      forall w ensures WeeklyAt(WeeklyMap(entries, start), entries, start, w) {}
    } else {
      var n := |entries| - 1;
      WeeklyMapIsWeekly(entries[..n], start);
      WeeklyStep(WeeklyMap(entries[..n], start), entries[..n], start, entries[n], WeekOf(start + n));
      assert entries[..n] + [entries[n]] == entries;
    }
  }

  lemma WeeklyIsUnique(a: map<int, Entry>, b: map<int, Entry>, entries: seq<Entry>, start: int)
    requires Weekly(a, entries, start) && Weekly(b, entries, start)
    ensures a == b
  {
    forall w ensures (w in a <==> w in b) && (w in a ==> a[w] == b[w]) {
      assert WeeklyAt(a, entries, start, w) && WeeklyAt(b, entries, start, w);
    }
  }

  function Measured(weekly: map<int, Entry>, g: Entry -> int): int -> int {
    w => g(WeekEntry(weekly, w))
  }

  /** What the weeks add up to in one quantity. */
  ghost function AllWeeks(weekly: map<int, Entry>, g: Entry -> int): int {
    Total(weekly.Keys, Measured(weekly, g))
  }

  lemma WeekGrows(weekly: map<int, Entry>, w: int, e: Entry, g: Entry -> int)
    requires Additive(g)
    ensures AllWeeks(WithDay(weekly, w, e), g) == AllWeeks(weekly, g) + g(e)
  {
    var after := WithDay(weekly, w, e);
    var f, h := Measured(weekly, g), Measured(after, g);
    assert AdditiveAt(g, WeekEntry(weekly, w), e);
    TotalSplit(after.Keys, h, w);
    forall v | v in after.Keys - {w} ensures f(v) == h(v) {
      assert WeekEntry(weekly, v) == WeekEntry(after, v);
    }
    TotalAgrees(after.Keys - {w}, f, h);
    assert WeekEntry(after, w) == Plus(WeekEntry(weekly, w), e);
    assert h(w) == g(WeekEntry(after, w)) == f(w) + g(e);
    if w in weekly {
      assert after.Keys == weekly.Keys;
      TotalSplit(weekly.Keys, f, w);
    } else {
      assert after.Keys - {w} == weekly.Keys;
      assert f(w) == g(NOTHING);
    }
  }

  lemma {:induction false} WeeksAddUp(entries: seq<Entry>, start: int, g: Entry -> int)
    requires Additive(g)
    ensures WeeksMeasure(WeeklyMap(entries, start), g, Sum(entries))
  {
    if entries != [] {
      var n := |entries| - 1;
      WeeksAddUp(entries[..n], start, g);
      WeeksAddOne(WeeklyMap(entries[..n], start), WeekOf(start + n), entries[n], Sum(entries[..n]), g);
    } else {
      NoWeeks(g);
    }
  }

  lemma NoWeeks(g: Entry -> int)
    requires Additive(g)
    ensures WeeksMeasure(map[], g, NOTHING)
  {
  }

  ghost predicate WeeksMeasure(weekly: map<int, Entry>, g: Entry -> int, sum: Entry) {
    AllWeeks(weekly, g) == g(sum)
  }

  lemma WeeksAddOne(weekly: map<int, Entry>, w: int, e: Entry, sum: Entry, g: Entry -> int)
    requires Additive(g) && WeeksMeasure(weekly, g, sum)
    ensures WeeksMeasure(WithDay(weekly, w, e), g, Plus(sum, e))
  {
    WeekGrows(weekly, w, e, g);
    assert AdditiveAt(g, sum, e);
  }

  /** Weekly totals, daily totals and the last running total agree in every quantity that is counted. */
  lemma RollupsAgree(stats: map<int, Day>, start: int, heatmap: seq<Entry>, weekly: map<int, Entry>,
                     cumulative: seq<Entry>, g: Entry -> int)
    requires Rolled(stats, start, heatmap, weekly, cumulative) && heatmap != [] && Additive(g)
    ensures AllWeeks(weekly, g) == g(Sum(heatmap)) == g(cumulative[|cumulative| - 1])
  {
    WeeklyMapIsWeekly(heatmap, start);
    WeeklyIsUnique(weekly, WeeklyMap(heatmap, start), heatmap, start);
    WeeksAddUp(heatmap, start, g);
    assert RunningAt(cumulative, heatmap, |heatmap| - 1);
    assert heatmap[..|heatmap|] == heatmap;
  }

  /** The four quantities of an entry are counted up. */
  lemma EntryIsAdditive(model: string)
    ensures Additive((e: Entry) => e.tokens) && Additive((e: Entry) => e.messages)
    ensures Additive((e: Entry) => e.chats) && Additive((e: Entry) => Count(e.models, model))
  {
  }

  // ---------------------------------------------------------------- conservation: back to the messages

  function Tokens(rows: seq<Row>): nat {
    if rows == [] then 0 else Tokens(rows[..|rows| - 1]) + rows[|rows| - 1].tokens
  }

  function Models(rows: seq<Row>): map<string, int> {
    if rows == [] then map[] else Merge(Models(rows[..|rows| - 1]), Model(rows[|rows| - 1]))
  }

  /** Which chat was used on which day. */
  function ChatDays(rows: seq<Row>): set<(string, int)> {
    set r | r in rows :: (r.chat, r.day)
  }

  /** The whole period counted straight from the messages: a chat counts once per day it was used on. */
  function Account(rows: seq<Row>): Entry {
    Entry(Tokens(rows), |rows|, |ChatDays(rows)|, Models(rows))
  }

  function DayEntry(rows: seq<Row>, day: int): Entry {
    Closed(DayOf(rows, day))
  }

  function Days(rows: seq<Row>, start: int, n: nat): (r: seq<Entry>)
    ensures |r| == n && forall i :: 0 <= i < n ==> r[i] == DayEntry(rows, start + i)
  {
    if n == 0 then [] else Days(rows, start, n - 1) + [DayEntry(rows, start + n - 1)]
  }

  lemma {:induction false} SumChange(a: seq<Entry>, b: seq<Entry>, k: nat, delta: Entry)
    requires |a| == |b| && k < |a| && b == a[k := Plus(a[k], delta)]
    ensures Sum(b) == Plus(Sum(a), delta)
  {
    var n := |a| - 1;
    if k < n {
      assert b[..n] == a[..n][k := Plus(a[..n][k], delta)] && b[n] == a[n];
      SumChange(a[..n], b[..n], k, delta);
      PlusSwaps(Sum(a[..n]), delta, a[n]);
    } else {
      assert a[..n] == b[..n];
      PlusGroups(Sum(a[..n]), a[n], delta);
    }
  }

  lemma PlusSwaps(a: Entry, b: Entry, c: Entry)
    ensures Plus(Plus(a, b), c) == Plus(Plus(a, c), b)
  {
  }

  lemma PlusGroups(a: Entry, b: Entry, c: Entry)
    ensures Plus(a, Plus(b, c)) == Plus(Plus(a, b), c)
  {
  }

  /** What one more message adds to the period. */
  function Delta(rows: seq<Row>, r: Row): Entry {
    Entry(r.tokens, 1, if (r.chat, r.day) in ChatDays(rows) then 0 else 1, Model(r))
  }

  lemma {:induction false} ChatsOfDay(rows: seq<Row>, day: int, chat: string)
    ensures chat in DayOf(rows, day).chats <==> (chat, day) in ChatDays(rows)
  {
    if rows != [] {
      var n := |rows| - 1;
      ChatsOfDay(rows[..n], day, chat);
      assert rows == rows[..n] + [rows[n]];
      ChatDaysPush(rows[..n], rows[n]);
    }
  }

  lemma ChatDaysPush(rows: seq<Row>, r: Row)
    ensures ChatDays(rows + [r]) == ChatDays(rows) + {(r.chat, r.day)}
  {
    var all := rows + [r];
    forall x | x in ChatDays(all) ensures x in ChatDays(rows) + {(r.chat, r.day)} {
      var y :| y in all && (y.chat, y.day) == x;
    }
    forall x | x in ChatDays(rows) + {(r.chat, r.day)} ensures x in ChatDays(all) {
      if x in ChatDays(rows) {
        var y :| y in rows && (y.chat, y.day) == x;
        assert y in all;
      } else {
        assert r in all;
      }
    }
  }

  lemma DaysStep(rows: seq<Row>, r: Row, start: int, n: nat)
    requires start <= r.day < start + n
    ensures Sum(Days(rows + [r], start, n)) == Plus(Sum(Days(rows, start, n)), Delta(rows, r))
  {
    var a, b, k := Days(rows, start, n), Days(rows + [r], start, n), r.day - start;
    assert (rows + [r])[..|rows|] == rows;
    ChatsOfDay(rows, r.day, r.chat);
    assert b[k] == DayEntry(rows + [r], r.day) == Plus(a[k], Delta(rows, r));
    forall i | 0 <= i < n && i != k ensures b[i] == a[i] { assert start + i != r.day; }
    SumChange(a, b, k, Delta(rows, r));
  }

  lemma AccountStep(rows: seq<Row>, r: Row)
    ensures Account(rows + [r]) == Plus(Account(rows), Delta(rows, r))
  {
    assert (rows + [r])[..|rows|] == rows;
    ChatDaysPush(rows, r);
    var was, x := ChatDays(rows), (r.chat, r.day);
    if x in was { assert was + {x} == was; }
  }

  lemma {:induction false} DaysAddUp(rows: seq<Row>, start: int, n: nat)
    requires forall r :: r in rows ==> start <= r.day < start + n
    ensures Sum(Days(rows, start, n)) == Account(rows)
  {
    if rows == [] {
      forall i | 0 <= i < n ensures Days(rows, start, n)[i] == NOTHING {}
      SumOfNothing(Days(rows, start, n));
      assert ChatDays(rows) == {};
    } else {
      var m := |rows| - 1;
      DaysAddUp(rows[..m], start, n);
      assert rows == rows[..m] + [rows[m]];
      DaysStep(rows[..m], rows[m], start, n);
      AccountStep(rows[..m], rows[m]);
    }
  }

  lemma {:induction false} SumOfNothing(entries: seq<Entry>)
    requires forall i :: 0 <= i < |entries| ==> entries[i] == NOTHING
    ensures Sum(entries) == NOTHING
  {
    if entries != [] {
      SumOfNothing(entries[..|entries| - 1]);
    }
  }

  lemma {:induction false} WithinIsInside(rows: seq<Row>, start: int, today: int)
    ensures forall r :: r in Within(rows, start, today) ==> r in rows && start <= r.day <= today
    ensures forall r :: r in rows && start <= r.day <= today ==> r in Within(rows, start, today)
  {
    if rows != [] {
      WithinIsInside(rows[..|rows| - 1], start, today);
      assert rows == rows[..|rows| - 1] + [rows[|rows| - 1]];
    }
  }

  /** The last running total is the period's messages counted directly: nothing is lost or counted twice. */
  lemma NothingIsLost(rows: seq<Row>, start: int, today: int, stats: map<int, Day>, heatmap: seq<Entry>)
    requires start <= today && Filed(stats, Within(rows, start, today))
    requires |heatmap| == today - start + 1 && Daily(heatmap, stats, start)
    ensures Sum(heatmap) == Account(Within(rows, start, today))
  {
    var kept, n := Within(rows, start, today), |heatmap|;
    WithinIsInside(rows, start, today);
    forall i | 0 <= i < n ensures heatmap[i] == Days(kept, start, n)[i] {
      assert DailyAt(heatmap, stats, start, i) && FiledAt(stats, kept, start + i);
      if start + i !in stats { Absent(kept, start + i); }
    }
    assert heatmap == Days(kept, start, n);
    DaysAddUp(kept, start, n);
  }

  // ---------------------------------------------------------------- per model

  datatype ModelTotal = ModelTotal(messages: int, tokens: int)

  predicate WrittenBy(r: Row, model: string) {
    r.role == Assistant && r.model == Some(model) && model != ""
  }

  function TokensBy(rows: seq<Row>, model: string): int {
    if rows == [] then 0
    else
      var n := |rows| - 1;
      TokensBy(rows[..n], model) + if WrittenBy(rows[n], model) then rows[n].tokens else 0
  }

  ghost predicate TotalledAt(stats: map<string, ModelTotal>, rows: seq<Row>, model: string) {
    && (model in stats <==> exists r :: r in rows && WrittenBy(r, model))
    && (model in stats ==> stats[model] == ModelTotal(Count(Models(rows), model), TokensBy(rows, model)))
  }

  lemma {:induction false} UnusedModel(rows: seq<Row>, model: string)
    requires forall r :: r in rows ==> !WrittenBy(r, model)
    ensures Count(Models(rows), model) == 0 && TokensBy(rows, model) == 0
  {
    if rows != [] {
      var n := |rows| - 1;
      assert rows == rows[..n] + [rows[n]];
      assert rows[n] in rows;
      UnusedModel(rows[..n], model);
    }
  }

  function Credit(stats: map<string, ModelTotal>, r: Row): map<string, ModelTotal> {
    if Model(r) == map[] then stats
    else
      var model := r.model.value;
      var was := if model in stats then stats[model] else ModelTotal(0, 0);
      stats[model := ModelTotal(was.messages + 1, was.tokens + r.tokens)]
  }

  lemma WritersAreCounted(r: Row, model: string)
    ensures Count(Model(r), model) == if WrittenBy(r, model) then 1 else 0
    ensures WrittenBy(r, model) <==> Model(r) == map[model := 1]
  {
    if Model(r) == map[model := 1] { assert model in Model(r); }
  }

  lemma TotalledStep(stats: map<string, ModelTotal>, rows: seq<Row>, r: Row, model: string)
    requires TotalledAt(stats, rows, model)
    ensures TotalledAt(Credit(stats, r), rows + [r], model)
  {
    var all := rows + [r];
    assert all[..|rows|] == rows && all[|rows|] == r && r in all;
    WritersAreCounted(r, model);
    if model !in stats { UnusedModel(rows, model); }
    if x :| x in rows && WrittenBy(x, model) { assert x in all; }
    CreditedModel(stats, r, model);
    assert Count(Models(all), model) == Count(Models(rows), model) + Count(Model(r), model);
  }

  lemma CreditedModel(stats: map<string, ModelTotal>, r: Row, model: string)
    ensures model in Credit(stats, r) <==> model in stats || WrittenBy(r, model)
    ensures model in Credit(stats, r) && !WrittenBy(r, model) ==> Credit(stats, r)[model] == stats[model]
    ensures WrittenBy(r, model) ==>
      var was := if model in stats then stats[model] else ModelTotal(0, 0);
      Credit(stats, r)[model] == ModelTotal(was.messages + 1, was.tokens + r.tokens)
  {
    if Model(r) != map[] { assert Model(r) == map[r.model.value := 1] && WrittenBy(r, r.model.value); }
    if WrittenBy(r, model) { assert model in Model(r); }
  }

  /** The models list of the report: per model the messages that the daily, weekly and running counts show, and
      their tokens. */
  method TotalPerModel(rows: seq<Row>, start: int, today: int) returns (stats: map<string, ModelTotal>)
    ensures forall model :: TotalledAt(stats, Within(rows, start, today), model)
  {
    stats := map[];
    ghost var kept: seq<Row> := [];
    for i := 0 to |rows|
      invariant kept == Within(rows[..i], start, today)
      invariant forall model :: TotalledAt(stats, kept, model)
    {
      var r := rows[i];
      assert rows[..i + 1][..i] == rows[..i];
      if start <= r.day <= today {
        ghost var was := stats;
        stats := Credit(stats, r);
        ghost var more := kept + [r];
        forall model ensures TotalledAt(stats, more, model) { TotalledStep(was, kept, r, model); }
        kept := more;
      }
    }
    assert rows[..|rows|] == rows;
  }

  // ---------------------------------------------------------------- the report

  datatype Usage = Usage(heatmap: seq<Entry>, weekly: map<int, Entry>, cumulative: seq<Entry>,
                         currentStreak: nat, longestStreak: nat,
                         userMessages: nat, assistantMessages: nat, lifetimeTokens: nat,
                         models: map<string, ModelTotal>)

  /** Days on which some message of the period was written. */
  function ActiveDays(rows: seq<Row>): set<int> {
    set r | r in rows :: r.day
  }

  method LifetimeTokens(rows: seq<Row>) returns (total: nat)
    ensures total == Tokens(rows)
  {
    total := 0;
    for i := 0 to |rows|
      invariant total == Tokens(rows[..i])
    {
      assert rows[..i + 1][..i] == rows[..i];
      total := total + rows[i].tokens;
    }
    assert rows[..|rows|] == rows;
  }

  method ActiveDates(stats: map<int, Day>, ghost rows: seq<Row>) returns (active: set<int>)
    requires Filed(stats, rows)
    ensures active == ActiveDays(rows)
  {
    active := set d | d in stats && stats[d].messages > 0;
    forall d ensures d in active <==> d in ActiveDays(rows) {
      assert FiledAt(stats, rows, d);
      if r :| r in rows && r.day == d { Counted(rows, r); }
    }
  }

  lemma {:induction false} Counted(rows: seq<Row>, r: Row)
    requires r in rows
    ensures DayOf(rows, r.day).messages > 0
  {
    var n := |rows| - 1;
    assert rows == rows[..n] + [rows[n]];
    MessagesSign(rows[..n], r.day);
    if r in rows[..n] { Counted(rows[..n], r); }
  }

  lemma {:induction false} MessagesSign(rows: seq<Row>, day: int)
    ensures DayOf(rows, day).messages >= 0
  {
    if rows != [] { MessagesSign(rows[..|rows| - 1], day); }
  }

  function Start(today: int, days: Option<int>): int {
    today - (if days.Some? then days.value else 730) + 1
  }

  /** The three rollups show the same messages. */
  ghost predicate Reconciled(heatmap: seq<Entry>, weekly: map<int, Entry>, cumulative: seq<Entry>, rows: seq<Row>,
                             start: int, n: nat) {
    && |heatmap| == |cumulative| == n > 0
    && (forall i :: 0 <= i < n ==> heatmap[i] == DayEntry(rows, start + i))
    && Weekly(weekly, heatmap, start) && Running(cumulative, heatmap)
    && cumulative[n - 1] == Account(rows)
    && (forall g :: Additive(g) ==> WeeksMeasure(weekly, g, Account(rows)))
  }

  lemma RollupsReconcile(rows: seq<Row>, start: int, today: int, stats: map<int, Day>, heatmap: seq<Entry>,
                         weekly: map<int, Entry>, cumulative: seq<Entry>)
    requires start <= today && |heatmap| == today - start + 1
    requires Filed(stats, Within(rows, start, today)) && Rolled(stats, start, heatmap, weekly, cumulative)
    ensures Reconciled(heatmap, weekly, cumulative, Within(rows, start, today), start, today - start + 1)
  {
    var kept := Within(rows, start, today);
    NothingIsLost(rows, start, today, stats, heatmap);
    forall g | Additive(g) ensures WeeksMeasure(weekly, g, Account(kept)) {
      RollupsAgree(stats, start, heatmap, weekly, cumulative, g);
    }
    LastRunning(cumulative, heatmap);
    FiledDays(stats, kept, heatmap, start);
    assert |heatmap| == |cumulative| == today - start + 1 > 0;
  }

  ghost predicate StreaksExact(active: set<int>, today: int, current: nat, longest: nat) {
    && EndsWith(active, today, current) && today - current !in active
    && IsLongest(active, longest) && current <= longest
  }

  method BothStreaks(active: set<int>, today: int) returns (current: nat, longest: nat)
    ensures StreaksExact(active, today, current, longest)
  {
    current := CurrentStreak(active, today);
    longest := LongestStreak(active);
    CurrentIsMaximal(active, today, current, longest);
  }

  /** `get_usage`: over the last `days` days the weekly totals, the daily totals and the last running total are
      the messages of the period counted directly, and the streaks are exact. */
  method GetUsage(rows: seq<Row>, today: int, days: Option<int>) returns (u: Usage)
    requires days.Some? ==> 7 <= days.value <= 732
    ensures Reconciled(u.heatmap, u.weekly, u.cumulative, Within(rows, Start(today, days), today),
                       Start(today, days), today - Start(today, days) + 1)
    ensures StreaksExact(ActiveDays(Within(rows, Start(today, days), today)), today, u.currentStreak, u.longestStreak)
    ensures u.longestStreak <= today - Start(today, days) + 1
    ensures |u.heatmap| == (if days.Some? then days.value else 730)
    ensures u.userMessages == Written(Within(rows, Start(today, days), today), User)
    ensures u.assistantMessages == Written(Within(rows, Start(today, days), today), Assistant)
    ensures u.lifetimeTokens == Tokens(rows)
    ensures forall model :: TotalledAt(u.models, Within(rows, Start(today, days), today), model)
  {
    var lifetime := LifetimeTokens(rows);
    var start := Start(today, days);
    var stats, users, assistants := FileRows(rows, start, today);
    var heatmap, weekly, cumulative := Rollups(rows, start, today, stats);
    var current, longest := StreaksOf(rows, start, today, stats);
    var models := TotalPerModel(rows, start, today);
    u := Usage(heatmap, weekly, cumulative, current, longest, users, assistants, lifetime, models);
  }

  method Rollups(ghost rows: seq<Row>, start: int, today: int, stats: map<int, Day>)
    returns (heatmap: seq<Entry>, weekly: map<int, Entry>, cumulative: seq<Entry>)
    requires start <= today && Filed(stats, Within(rows, start, today))
    ensures Reconciled(heatmap, weekly, cumulative, Within(rows, start, today), start, today - start + 1)
  {
    heatmap, weekly, cumulative := RollUp(stats, start, today);
    RollupsReconcile(rows, start, today, stats, heatmap, weekly, cumulative);
  }

  method StreaksOf(ghost rows: seq<Row>, start: int, today: int, stats: map<int, Day>)
    returns (current: nat, longest: nat)
    requires start <= today && Filed(stats, Within(rows, start, today))
    ensures StreaksExact(ActiveDays(Within(rows, start, today)), today, current, longest)
    ensures longest <= today - start + 1
  {
    var active := ActiveDates(stats, Within(rows, start, today));
    current, longest := BothStreaks(active, today);
    LongestFits(rows, start, today, longest);
  }

  lemma LastRunning(cumulative: seq<Entry>, heatmap: seq<Entry>)
    requires Running(cumulative, heatmap) && heatmap != []
    ensures cumulative[|cumulative| - 1] == Sum(heatmap)
  {
    assert RunningAt(cumulative, heatmap, |heatmap| - 1);
    assert heatmap[..|heatmap|] == heatmap;
  }

  lemma FiledDays(stats: map<int, Day>, rows: seq<Row>, heatmap: seq<Entry>, start: int)
    requires Filed(stats, rows) && Daily(heatmap, stats, start)
    ensures forall i :: 0 <= i < |heatmap| ==> heatmap[i] == DayEntry(rows, start + i)
  {
    forall i | 0 <= i < |heatmap| ensures heatmap[i] == DayEntry(rows, start + i) {
      assert DailyAt(heatmap, stats, start, i) && FiledAt(stats, rows, start + i);
      if start + i !in stats { Absent(rows, start + i); }
    }
  }

  lemma LongestFits(rows: seq<Row>, start: int, today: int, longest: nat)
    requires start <= today && IsLongest(ActiveDays(Within(rows, start, today)), longest)
    ensures longest <= today - start + 1
  {
    var active := ActiveDays(Within(rows, start, today));
    WithinIsInside(rows, start, today);
    var first :| Run(active, first, longest);
    if longest > 0 {
      assert first in active && first + longest - 1 in active;
    }
  }

  /** The two message counts add up to the messages of the period exactly when every one of them was written
      by the user or the assistant. */
  lemma {:induction false} WrittenAddsUpIff(rows: seq<Row>)
    ensures Written(rows, User) + Written(rows, Assistant) <= |rows|
    ensures Written(rows, User) + Written(rows, Assistant) == |rows| <==> forall r :: r in rows ==> r.role != OtherRole
  {
    if rows != [] {
      WrittenAddsUpIff(rows[..|rows| - 1]);
      assert rows == rows[..|rows| - 1] + [rows[|rows| - 1]];
    }
  }

  ghost predicate QuietOutside(rows: seq<Row>, start: int, today: int) {
    forall r :: r in rows && !(start <= r.day <= today) ==> r.tokens == 0
  }

  lemma QuietOutsidePush(rows: seq<Row>, r: Row, start: int, today: int)
    ensures QuietOutside(rows + [r], start, today) <==>
      QuietOutside(rows, start, today) && (start <= r.day <= today || r.tokens == 0)
  {
    assert forall x :: x in rows + [r] <==> x in rows || x == r;
  }

  lemma TokensPush(rows: seq<Row>, r: Row)
    ensures Tokens(rows + [r]) == Tokens(rows) + r.tokens
  {
    assert (rows + [r])[..|rows|] == rows;
  }

  lemma TokensWithin(rows: seq<Row>, r: Row, start: int, today: int)
    ensures Tokens(Within(rows + [r], start, today)) ==
      Tokens(Within(rows, start, today)) + if start <= r.day <= today then r.tokens else 0
  {
    assert (rows + [r])[..|rows|] == rows;
    TokensPush(Within(rows, start, today), r);
    assert Within(rows, start, today) + [] == Within(rows, start, today);
  }

  /** Lifetime tokens are the period's tokens exactly when no message outside the period has any. */
  lemma {:induction false} LifetimeIsPeriodIff(rows: seq<Row>, start: int, today: int)
    ensures Tokens(Within(rows, start, today)) <= Tokens(rows)
    ensures Tokens(Within(rows, start, today)) == Tokens(rows) <==> QuietOutside(rows, start, today)
  {
    if rows != [] {
      var before, last := rows[..|rows| - 1], rows[|rows| - 1];
      LifetimeIsPeriodIff(before, start, today);
      QuietOutsidePush(before, last, start, today);
      assert rows == before + [last];
      TokensPush(before, last);
      TokensWithin(before, last, start, today);
    }
  }
}
