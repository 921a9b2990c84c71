/** Time spent in chats: the pauses between a chat's messages, as far as they are short. */
module ChatTime {
  import opened Prelude

  /** A message of a chat, at a second. */
  datatype Stamp = Stamp(chat: string, at: int)

  const LONGEST_PAUSE := 1800

  function Pause(earlier: int, later: int): int {
    if 0 < later - earlier <= LONGEST_PAUSE then later - earlier else 0
  }

  /** When the messages of one chat were written. */
  function TimesOf(stamps: seq<Stamp>, chat: string): seq<int> {
    if stamps == [] then []
    else
      var n := |stamps| - 1;
      TimesOf(stamps[..n], chat) + if stamps[n].chat == chat then [stamps[n].at] else []
  }

  /** The short pauses between neighbours, added up. */
  function Active(times: seq<int>): int {
    if |times| <= 1 then 0
    else
      var n := |times| - 1;
      Active(times[..n]) + Pause(times[n - 1], times[n])
  }

  function Get(m: map<string, int>, chat: string): int {
    if chat in m then m[chat] else 0
  }

  ghost predicate TrackedAt(stamps: seq<Stamp>, last: map<string, int>, active: map<string, int>, chat: string) {
    var times := TimesOf(stamps, chat);
    && (chat in last <==> times != [])
    && (chat in last ==> last[chat] == times[|times| - 1])
    && Get(active, chat) == Active(times)
  }

  lemma TrackedStep(stamps: seq<Stamp>, s: Stamp, last: map<string, int>, active: map<string, int>,
                    after: map<string, int>, chat: string)
    requires TrackedAt(stamps, last, active, chat)
    requires Get(after, chat) == Get(active, chat) +
               if chat == s.chat && chat in last then Pause(last[chat], s.at) else 0
    ensures TrackedAt(stamps + [s], last[s.chat := s.at], after, chat)
  {
    assert (stamps + [s])[..|stamps|] == stamps;
    var times := TimesOf(stamps, chat);
    if chat == s.chat {
      assert (times + [s.at])[..|times|] == times;
    } else {
      assert times + [] == times;
    }
  }

  /** The bookkeeping of the message loop: whatever the interleaving of chats, each is credited with the short
      pauses between its own messages. */
  method ActiveSeconds(stamps: seq<Stamp>) returns (active: map<string, int>)
    ensures forall chat :: Get(active, chat) == Active(TimesOf(stamps, chat))
    ensures forall chat :: chat in active ==> active[chat] > 0
  {
    active := map[];
    var last: map<string, int> := map[];
    for i := 0 to |stamps|
      invariant forall chat :: TrackedAt(stamps[..i], last, active, chat)
      invariant forall chat :: chat in active ==> active[chat] > 0
    {
      var s := stamps[i];
      ghost var before := active;
      assert TrackedAt(stamps[..i], last, active, s.chat);
      if s.chat in last {
        var delta := s.at - last[s.chat];
        if 0 < delta <= 30 * 60 {
          active := active[s.chat := Get(active, s.chat) + delta];
        }
      }
      assert stamps[..i + 1] == stamps[..i] + [s];
      ghost var seen, was := stamps[..i + 1], last;
      last := last[s.chat := s.at];
      forall chat ensures TrackedAt(seen, last, active, chat) {
        TrackedStep(stamps[..i], s, was, before, active, chat);
      }
    }
    assert stamps[..|stamps|] == stamps;
    forall chat ensures Get(active, chat) == Active(TimesOf(stamps, chat)) {
      assert TrackedAt(stamps, last, active, chat);
    }
  }

  /** `max(active_seconds_by_chat.values(), default=0)`. */
  method LongestChat(stamps: seq<Stamp>) returns (longest: int)
    ensures forall chat :: Active(TimesOf(stamps, chat)) <= longest
    ensures longest == 0 || exists chat :: Active(TimesOf(stamps, chat)) == longest
  {
    var active := ActiveSeconds(stamps);
    longest := 0;
    var pending := active.Keys;
    while pending != {}
      invariant pending <= active.Keys && longest >= 0
      invariant forall chat :: chat in active && chat !in pending ==> active[chat] <= longest
      invariant longest == 0 || exists chat :: chat in active && active[chat] == longest
    {
      var chat :| chat in pending;
      longest := Max(longest, active[chat]);
      pending := pending - {chat};
    }
    forall chat ensures Active(TimesOf(stamps, chat)) <= longest {
      assert Get(active, chat) == Active(TimesOf(stamps, chat));
    }
    if longest != 0 {
      var chat :| chat in active && active[chat] == longest;
      assert Get(active, chat) == Active(TimesOf(stamps, chat));
    }
  }

  ghost predicate InOrder(times: seq<int>) {
    forall i :: 0 < i < |times| ==> times[i - 1] <= times[i]
  }

  /** Messages of a chat that come in order are credited with no more than the time from the first to the last,
      and with all of it exactly when no pause was too long. */
  lemma {:induction false} ActiveIsSpanIff(times: seq<int>)
    requires InOrder(times) && times != []
    ensures 0 <= Active(times) <= times[|times| - 1] - times[0]
    ensures Active(times) == times[|times| - 1] - times[0] <==>
            forall i :: 0 < i < |times| ==> times[i] - times[i - 1] <= 1800
  {
    if |times| > 1 {
      var n := |times| - 1;
      ActiveIsSpanIff(times[..n]);
      assert times[n - 1] <= times[n];
      assert forall i :: 0 < i < n ==> times[..n][i] - times[..n][i - 1] == times[i] - times[i - 1];
    }
  }
}
