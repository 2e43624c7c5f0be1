/** The meeting timer and agenda: an elapsed-seconds counter that ticks while
    running, its `H:MM:SS` / `M:SS` display, and a checklist of agenda items with
    planned durations in minutes. */
module TimerAgenda {
  import opened Wrappers
  import Text
  import Lists

  /** `seconds` split as `formatTime` splits it. */
  function Hours(seconds: nat): nat { seconds / 3600 }
  function Minutes(seconds: nat): (m: nat) ensures m < 60 { (seconds % 3600) / 60 }
  function Secs(seconds: nat): (s: nat) ensures s < 60 { seconds % 60 }

  /** The three parts put back together are the seconds, and minutes and seconds are below 60. */
  lemma TimeParts(seconds: nat)
    ensures Hours(seconds) * 3600 + Minutes(seconds) * 60 + Secs(seconds) == seconds
    ensures Minutes(seconds) < 60 && Secs(seconds) < 60
  {
  }

  /** What stands before the seconds: `H:MM` when `h > 0`, else `M`. */
  function MinutesPart(h: nat, m: nat): string {
    if h > 0 then Text.NatToString(h) + ":" + Text.PadStart2(Text.NatToString(m))
    else Text.NatToString(m)
  }

  /** `formatTime(seconds)`: `H:MM:SS` with at least one hour, `M:SS` below. The
      seconds after the last colon are padded to two digits; what precedes them is the
      unpadded minutes below an hour (`NatToString` has no leading zero), else the
      unpadded hours, a colon and the minutes padded to two digits. */
  function FormatTime(seconds: nat): (r: string)
    ensures |r| >= 4 && r[|r| - 3] == ':'
    ensures r[|r| - 2..] == Text.PadStart2(Text.NatToString(Secs(seconds)))
    ensures Hours(seconds) == 0 ==> r[..|r| - 3] == Text.NatToString(Minutes(seconds))
    ensures Hours(seconds) > 0 ==>
      r[..|r| - 3] == Text.NatToString(Hours(seconds)) + ":" + Text.PadStart2(Text.NatToString(Minutes(seconds)))
  {
    var p := MinutesPart(Hours(seconds), Minutes(seconds));
    var ss := Text.PadStart2(Text.NatToString(Secs(seconds)));
    TwoDigits(Secs(seconds));
    ColonSplit(p, ss);
    p + ":" + ss
  }

  /** The display has two colons with at least one hour and one colon below,
      and always ends in two digits of seconds. */
  lemma FormatColons(seconds: nat)
    ensures Text.Count(FormatTime(seconds), ':') == if Hours(seconds) > 0 then 2 else 1
    ensures var t := FormatTime(seconds); |t| >= 4 && Text.AllDigits(t[|t| - 2..])
  {
    TwoDigits(Secs(seconds));
    MinutesPartColons(Hours(seconds), Minutes(seconds));
    ColonThenDigits(MinutesPart(Hours(seconds), Minutes(seconds)), Text.PadStart2(Text.NatToString(Secs(seconds))));
  }

  /** The minutes part holds a colon only in its hours form. */
  lemma MinutesPartColons(h: nat, m: nat)
    requires m < 60
    ensures Text.Count(MinutesPart(h, m), ':') == if h > 0 then 1 else 0
    ensures |MinutesPart(h, m)| >= 1
  {
    if h > 0 {
      var hs := Text.NatToString(h);
      var mm := Text.PadStart2(Text.NatToString(m));
      TwoDigits(m);
      assert MinutesPart(h, m) == hs + ":" + mm;
      DigitsColonDigits(hs, mm);
    } else {
      Text.CountInDigits(Text.NatToString(m), ':');
    }
  }

  /** Two runs of digits around a colon hold exactly that colon. */
  lemma DigitsColonDigits(a: string, b: string)
    requires Text.AllDigits(a) && Text.AllDigits(b)
    ensures Text.Count(a + ":" + b, ':') == 1
  {
    Text.CountInDigits(a, ':');
    Text.CountInDigits(b, ':');
    Text.CountConcat(a, ":", ':');
    Text.CountConcat(a + ":", b, ':');
  }

  /** A colon and two digits add one colon and end in the digits. */
  lemma ColonThenDigits(p: string, ss: string)
    requires |p| >= 1 && |ss| == 2 && Text.AllDigits(ss)
    ensures Text.Count(p + ":" + ss, ':') == Text.Count(p, ':') + 1
    ensures var t := p + ":" + ss; |t| >= 4 && Text.AllDigits(t[|t| - 2..])
  {
    Text.CountInDigits(ss, ':');
    Text.CountConcat(p, ":", ':');
    Text.CountConcat(p + ":", ss, ':');
    ColonSplit(p, ss);
  }

  /** Reads a display back: two digits of seconds after the last colon, and
      before it what `ParseMinutes` reads. */
  function ParseTime(r: string): Option<nat> {
    if |r| < 3 || r[|r| - 3] != ':' || !Text.AllDigits(r[|r| - 2..]) then None
    else
      var minutes := ParseMinutes(r[..|r| - 3]);
      if minutes.None? then None else Some(minutes.value * 60 + Text.DigitsValue(r[|r| - 2..]))
  }

  /** Whole minutes from `M`, or from `H:MM`. */
  function ParseMinutes(p: string): Option<nat> {
    if p != [] && Text.AllDigits(p) then Some(Text.DigitsValue(p))
    else if |p| < 4 || p[|p| - 3] != ':' || !Text.AllDigits(p[|p| - 2..]) || p[..|p| - 3] == []
            || !Text.AllDigits(p[..|p| - 3]) then None
    else Some(Text.DigitsValue(p[..|p| - 3]) * 60 + Text.DigitsValue(p[|p| - 2..]))
  }

  /** The pieces of `p + ":" + tail` for a two-character tail. */
  lemma ColonSplit(p: string, tail: string)
    requires |tail| == 2
    ensures var r := p + ":" + tail;
      |r| >= 3 && r[|r| - 3] == ':' && r[|r| - 2..] == tail && r[..|r| - 3] == p
  {
    var r := p + ":" + tail;
    assert r[|r| - 2..] == tail;
    assert r[..|r| - 3] == p;
  }

  /** Two padded digits of a number below 60. */
  lemma TwoDigits(n: nat)
    requires n < 60
    ensures var d := Text.PadStart2(Text.NatToString(n));
      |d| == 2 && Text.AllDigits(d) && Text.DigitsValue(d) == n
  {
    Text.TwoDigitsValue(n);
  }

  lemma ParseMinutesPart(h: nat, m: nat)
    requires m < 60
    ensures ParseMinutes(MinutesPart(h, m)) == Some(h * 60 + m)
  {
    if h > 0 {
      ParseLongPart(h, m);
    } else {
      ParseShortPart(m);
    }
  }

  lemma ParseLongPart(h: nat, m: nat)
    requires 0 < h && m < 60
    ensures ParseMinutes(MinutesPart(h, m)) == Some(h * 60 + m)
  {
    var hs := Text.NatToString(h);
    var mm := Text.PadStart2(Text.NatToString(m));
    TwoDigits(m);
    Text.NatToStringValue(h);
    ParseHoursMinutes(hs, mm, h, m);
    assert MinutesPart(h, m) == hs + ":" + mm;
  }

  lemma ParseShortPart(m: nat)
    requires m < 60
    ensures ParseMinutes(MinutesPart(0, m)) == Some(m)
  {
    var ms := Text.NatToString(m);
    assert MinutesPart(0, m) == ms;
    Text.NatToStringValue(m);
    assert ParseMinutes(ms) == Some(Text.DigitsValue(ms));
  }

  /** `H:MM` reads as `H * 60 + MM` minutes. */
  lemma ParseHoursMinutes(hs: string, mm: string, h: nat, m: nat)
    requires hs != [] && Text.AllDigits(hs) && |mm| == 2 && Text.AllDigits(mm)
    requires Text.DigitsValue(hs) == h && Text.DigitsValue(mm) == m
    ensures ParseMinutes(hs + ":" + mm) == Some(h * 60 + m)
  {
    var p := hs + ":" + mm;
    ColonSplit(hs, mm);
    assert !Text.IsDigit(p[|p| - 3]);
  }

  /** The display reads back as the number of seconds it shows. */
  lemma FormatParse(seconds: nat)
    ensures ParseTime(FormatTime(seconds)) == Some(seconds)
  {
    FormatParts(seconds);
    Recombine(seconds);
    SomeOf(ParseTime(FormatTime(seconds)), (Hours(seconds) * 60 + Minutes(seconds)) * 60 + Secs(seconds), seconds);
  }

  lemma SomeOf(v: Option<nat>, a: nat, b: nat)
    requires v.Some? && v.value == a && a == b
    ensures v == Some(b)
  {
  }

  /** The display reads back as its hours, minutes and seconds combined. */
  lemma FormatParts(seconds: nat)
    ensures ParseTime(FormatTime(seconds)).Some?
    ensures ParseTime(FormatTime(seconds)).value ==
      (Hours(seconds) * 60 + Minutes(seconds)) * 60 + Secs(seconds)
  {
    ParsePadded(Hours(seconds), Minutes(seconds), Secs(seconds));
  }

  /** The same with the seconds padded to two digits, as `formatTime` pads them. */
  lemma ParsePadded(h: nat, m: nat, sec: nat)
    requires m < 60 && sec < 60
    ensures var t := MinutesPart(h, m) + ":" + Text.PadStart2(Text.NatToString(sec));
      ParseTime(t).Some? && ParseTime(t).value == (h * 60 + m) * 60 + sec
  {
    var ss := Text.PadStart2(Text.NatToString(sec));
    TwoDigits(sec);
    ParseParts(h, m, sec, ss);
  }

  /** Hours, minutes and seconds combine back into the seconds. */
  lemma Recombine(seconds: nat)
    ensures (Hours(seconds) * 60 + Minutes(seconds)) * 60 + Secs(seconds) == seconds
  {
    TimeParts(seconds);
  }

  /** A minutes part followed by two digits of seconds reads back as their total. */
  lemma ParseParts(h: nat, m: nat, sec: nat, ss: string)
    requires m < 60 && |ss| == 2 && Text.AllDigits(ss) && Text.DigitsValue(ss) == sec
    ensures ParseTime(MinutesPart(h, m) + ":" + ss).Some?
    ensures ParseTime(MinutesPart(h, m) + ":" + ss).value == (h * 60 + m) * 60 + sec
  {
    ParseMinutesPart(h, m);
    ParseSeconds(MinutesPart(h, m), ss, h * 60 + m, sec);
  }

  /** Minutes followed by `:SS` read as that many minutes and seconds. */
  lemma ParseSeconds(p: string, ss: string, minutes: nat, sec: nat)
    requires ParseMinutes(p) == Some(minutes)
    requires |ss| == 2 && Text.AllDigits(ss) && Text.DigitsValue(ss) == sec
    ensures ParseTime(p + ":" + ss) == Some(minutes * 60 + sec)
  {
    ColonSplit(p, ss);
  }

  /** Different times show differently. */
  lemma FormatTimeInjective(a: nat, b: nat)
    requires FormatTime(a) == FormatTime(b)
    ensures a == b
  {
    FormatParse(a);
    FormatParse(b);
  }

  datatype AgendaItem = AgendaItem(id: string, title: string, duration: int, completed: bool,
                                   startTime: Option<int>)

  /** `agenda.map(item => item.id === itemId ? { ...item, completed: !item.completed } : item)`. */
  function ToggleItem(agenda: seq<AgendaItem>, itemId: string): (r: seq<AgendaItem>)
    ensures |r| == |agenda|
    ensures forall i :: 0 <= i < |agenda| && agenda[i].id == itemId ==>
      r[i] == agenda[i].(completed := !agenda[i].completed)
    ensures forall i :: 0 <= i < |agenda| && agenda[i].id != itemId ==> r[i] == agenda[i]
  {
    seq(|agenda|, i requires 0 <= i < |agenda| =>
      if agenda[i].id == itemId then agenda[i].(completed := !agenda[i].completed) else agenda[i])
  }

  /** Toggling the same item twice gives back the agenda. */
  lemma ToggleTwice(agenda: seq<AgendaItem>, itemId: string)
    ensures ToggleItem(ToggleItem(agenda, itemId), itemId) == agenda
  {
    var r := ToggleItem(ToggleItem(agenda, itemId), itemId);
    forall i | 0 <= i < |agenda| ensures r[i] == agenda[i] {
      if agenda[i].id == itemId {
        assert r[i] == agenda[i].(completed := agenda[i].completed);
      }
    }
  }

  predicate Done(item: AgendaItem) { item.completed }
  predicate Open(item: AgendaItem) { !item.completed }

  /** `completedItems`: at most the number of items, and 0 exactly when no item is completed. */
  function CompletedItems(agenda: seq<AgendaItem>): (r: nat)
    ensures r <= |agenda|
    ensures r == 0 <==> forall i :: 0 <= i < |agenda| ==> !agenda[i].completed
  {
    var done := Lists.Filter(agenda, Done);
    assert done != [] ==> done[0] in agenda && done[0].completed;
    |done|
  }

  /** The completed items and the remaining ones (`totalItems - completedItems`,
      which are the items not completed) add up to the agenda. */
  lemma CompletedPlusRemaining(agenda: seq<AgendaItem>)
    ensures CompletedItems(agenda) + |Lists.Filter(agenda, Open)| == |agenda|
  {
    Lists.FilterPartition(agenda, Done, Open);
  }

  /** `agenda.find(item => !item.completed)`: the first item not completed. */
  function CurrentItem(agenda: seq<AgendaItem>): (r: Option<AgendaItem>)
    ensures r.None? <==> forall i :: 0 <= i < |agenda| ==> agenda[i].completed
    ensures r.Some? ==> exists i :: 0 <= i < |agenda| && agenda[i] == r.value && !r.value.completed &&
                                    forall j :: 0 <= j < i ==> agenda[j].completed
  {
    if agenda == [] then None
    else if !agenda[0].completed then Some(agenda[0])
    else
      var r := CurrentItem(agenda[1..]);
      assert r.Some? ==> exists i :: 1 <= i < |agenda| && agenda[i] == r.value && !r.value.completed &&
                                    forall j :: 0 <= j < i ==> agenda[j].completed by {
        if r.Some? {
          var k :| 0 <= k < |agenda| - 1 && agenda[1..][k] == r.value && !r.value.completed &&
                   forall j :: 0 <= j < k ==> agenda[1..][j].completed;
          assert agenda[k + 1] == r.value;
          forall j | 1 <= j < k + 1 ensures agenda[j].completed {
            assert agenda[j] == agenda[1..][j - 1];
          }
        }
      }
      r
  }

  /** There is no current item exactly when every item is completed, which is when
      the summary says all agenda items are done. */
  lemma NoCurrentIffAllDone(agenda: seq<AgendaItem>)
    ensures CurrentItem(agenda).None? <==> CompletedItems(agenda) == |agenda|
  {
    if CompletedItems(agenda) == |agenda| {
      Lists.FilterFullLength(agenda, Done);
    }
    if CurrentItem(agenda).None? {
      Lists.FilterAll(agenda, Done);
    }
  }

  /** `items.reduce((sum, item) => sum + item.duration, 0)`. */
  function Duration(items: seq<AgendaItem>): int {
    if items == [] then 0 else items[0].duration + Duration(items[1..])
  }

  lemma DurationCons(a: AgendaItem, items: seq<AgendaItem>)
    ensures Duration([a] + items) == a.duration + Duration(items)
  {
    assert ([a] + items)[1..] == items;
  }

  /** Adding the last item's duration to the sum of the others. */
  lemma {:induction false} DurationSnoc(items: seq<AgendaItem>)
    ensures items != [] ==> Duration(items) == Duration(items[..|items| - 1]) + items[|items| - 1].duration
  {
    if |items| > 1 {
      DurationSnoc(items[1..]);
      assert items[..|items| - 1][1..] == items[1..][..|items| - 2];
    }
  }

  /** `totalPlannedDuration`: the `reduce` adds the durations in agenda order, each to the
      sum of those before it; with no negative duration the plan is not negative. */
  function PlannedMinutes(agenda: seq<AgendaItem>): (r: int)
    ensures agenda == [] ==> r == 0
    ensures agenda != [] ==> r == PlannedMinutes(agenda[..|agenda| - 1]) + agenda[|agenda| - 1].duration
    ensures NonNegativeDurations(agenda) ==> r >= 0
  {
    DurationSnoc(agenda);
    DurationNonNegative(agenda);
    Duration(agenda)
  }

  /** With no item completed every item is open. */
  lemma NoneCompletedAllOpen(agenda: seq<AgendaItem>)
    ensures (forall i :: 0 <= i < |agenda| ==> !agenda[i].completed) ==> Lists.Filter(agenda, Open) == agenda
  {
    if forall i :: 0 <= i < |agenda| ==> !agenda[i].completed {
      Lists.FilterAll(agenda, Open);
    }
  }

  /** The estimate of minutes left: the durations of the items not completed, which is
      nothing once every item is completed and the whole plan while none is. */
  function RemainingMinutes(agenda: seq<AgendaItem>): (r: int)
    ensures (forall i :: 0 <= i < |agenda| ==> agenda[i].completed) ==> r == 0
    ensures (forall i :: 0 <= i < |agenda| ==> !agenda[i].completed) ==> r == PlannedMinutes(agenda)
  {
    var open := Lists.Filter(agenda, Open);
    assert open != [] ==> open[0] in agenda && !open[0].completed;
    NoneCompletedAllOpen(agenda);
    Duration(open)
  }

  /** The planned minutes are the remaining minutes plus those of the completed items. */
  lemma {:induction false} PlannedSplits(agenda: seq<AgendaItem>)
    ensures PlannedMinutes(agenda) == RemainingMinutes(agenda) + Duration(Lists.Filter(agenda, Done))
  {
    if agenda != [] {
      PlannedSplits(agenda[1..]);
      var a := agenda[0];
      var rest := agenda[1..];
      if a.completed {
        assert Lists.Filter(agenda, Open) == Lists.Filter(rest, Open);
        assert Lists.Filter(agenda, Done) == [a] + Lists.Filter(rest, Done);
        DurationCons(a, Lists.Filter(rest, Done));
      } else {
        assert Lists.Filter(agenda, Open) == [a] + Lists.Filter(rest, Open);
        assert Lists.Filter(agenda, Done) == Lists.Filter(rest, Done);
        DurationCons(a, Lists.Filter(rest, Open));
      }
    }
  }

  predicate NonNegativeDurations(items: seq<AgendaItem>) {
    forall i :: 0 <= i < |items| ==> items[i].duration >= 0
  }

  lemma {:induction false} DurationNonNegative(items: seq<AgendaItem>)
    ensures NonNegativeDurations(items) ==> Duration(items) >= 0
  {
    if items != [] {
      DurationNonNegative(items[1..]);
    }
  }

  /** With no negative durations the minutes left never exceed the planned minutes. */
  lemma RemainingAtMostPlanned(agenda: seq<AgendaItem>)
    requires NonNegativeDurations(agenda)
    ensures RemainingMinutes(agenda) <= PlannedMinutes(agenda)
  {
    PlannedSplits(agenda);
    var done := Lists.Filter(agenda, Done);
    assert NonNegativeDurations(done) by {
      forall i | 0 <= i < |done| ensures done[i].duration >= 0 {
        var j :| 0 <= j < |agenda| && agenda[j] == done[i];
      }
    }
    DurationNonNegative(done);
  }

  /** The "Over" badge: more seconds have passed than the planned minutes allow.
      A timer at zero is on track unless some duration is negative. */
  function IsOver(totalTime: int, agenda: seq<AgendaItem>): (r: bool)
    ensures NonNegativeDurations(agenda) && totalTime <= 0 ==> !r
  {
    totalTime > PlannedMinutes(agenda) * 60
  }

  /** `Math.floor(totalTime / 60)`, the "Current" minutes beside the badge. */
  function CurrentMinutes(totalTime: nat): (r: nat)
    ensures r * 60 <= totalTime < (r + 1) * 60
  {
    totalTime / 60
  }

  /** The badge agrees with the minutes shown beside it: more current than planned
      minutes means "Over", and "Over" means at least the planned minutes are shown. */
  lemma OverMatchesCurrent(totalTime: nat, agenda: seq<AgendaItem>)
    ensures CurrentMinutes(totalTime) > PlannedMinutes(agenda) ==> IsOver(totalTime, agenda)
    ensures IsOver(totalTime, agenda) ==> CurrentMinutes(totalTime) >= PlannedMinutes(agenda)
  {
    var q := totalTime / 60;
    assert totalTime == 60 * q + totalTime % 60;
  }

  /** The timer panel's state. */
  class MeetingTimer {
    var totalTime: nat
    var isRunning: bool
    var agenda: seq<AgendaItem>

    /** The panel opens at 32 minutes 45 seconds, running. */
    constructor (items: seq<AgendaItem>)
      ensures totalTime == 32 * 60 + 45 && isRunning && agenda == items
    {
      totalTime := 32 * 60 + 45;
      isRunning := true;
      agenda := items;
    }

    /** One interval callback: a second more, but only while the timer runs. */
    method Tick()
      modifies this
      ensures totalTime == old(totalTime) + (if old(isRunning) then 1 else 0)
      ensures isRunning == old(isRunning) && agenda == old(agenda)
      ensures old(IsOver(totalTime, agenda)) ==> IsOver(totalTime, agenda)
    {
      if isRunning {
        totalTime := totalTime + 1;
      }
    }

    /** `toggleTimer`: pause or resume. */
    method ToggleTimer()
      modifies this
      ensures isRunning == !old(isRunning)
      ensures totalTime == old(totalTime) && agenda == old(agenda)
    {
      isRunning := !isRunning;
    }

    /** `resetTimer`: back to zero, stopped. */
    method ResetTimer()
      modifies this
      ensures totalTime == 0 && !isRunning
      ensures agenda == old(agenda)
    {
      totalTime := 0;
      isRunning := false;
    }

    /** `toggleAgendaItem(itemId)`. */
    method ToggleAgendaItem(itemId: string)
      modifies this
      ensures agenda == ToggleItem(old(agenda), itemId)
      ensures totalTime == old(totalTime) && isRunning == old(isRunning)
    {
      agenda := ToggleItem(agenda, itemId);
    }
  }
}
