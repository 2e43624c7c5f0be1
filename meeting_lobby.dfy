/** The meeting lobby: the list of meetings with how long ago each started, the
    create form and the join form. Creating posts to the server when there is a
    session and otherwise enters a local demo meeting; joining enters the meeting
    whatever the server answers. Clock readings and server answers are parameters. */
module MeetingLobby {
  import opened Wrappers
  import Text
  import Session

  /** A meeting as the lobby lists it; `createdAt` is in milliseconds. */
  datatype LobbyMeeting = LobbyMeeting(id: string, name: string, creatorName: string,
                                       createdAt: int, participantCount: int, isActive: bool)

  /** The meeting handed to `onJoinMeeting`. */
  datatype Entered = Entered(id: string, name: string)

  datatype CreateRequest = CreateRequest(name: string, password: Option<string>)
  datatype JoinRequest = JoinRequest(meetingId: string, password: Option<string>)

  /** What the create call came back with: a response whose `meeting` field may be
      missing, or an exception. */
  datatype CreateOutcome = Answered(meeting: Option<Entered>) | CreateThrew

  /** What the meeting list call came back with. */
  datatype ListOutcome = Listed(meetings: Option<seq<LobbyMeeting>>) | ListThrew

  /** The lobby's own session test, `user && accessToken`: unlike the other
      components it does not hold back guest tokens. */
  function HasSession(user: Option<Session.ClientUser>, token: Option<string>): (r: bool)
    ensures r ==> user.Some? && token.Some? && token.value != ""
    ensures user.Some? && token.Some? && token.value != "" ==> r
  {
    user.Some? && token.Some? && token.value != ""
  }

  /** Every session the other components sync with is one here too, but a guest
      token is sent to the server only from the lobby. */
  lemma SessionWiderThanSync(user: Option<Session.ClientUser>, token: Option<string>)
    ensures Session.CanSync(user, token) ==> HasSession(user, token)
    ensures HasSession(Some(Session.ClientUser(None)), Some("guest-1"))
    ensures !Session.CanSync(Some(Session.ClientUser(None)), Some("guest-1"))
  {
    assert "guest-1"[..5] == "guest";
  }

  /** `value.trim() || undefined`. */
  function TrimmedOrNone(value: string): (r: Option<string>)
    ensures r.None? <==> Text.IsBlank(value)
    ensures r.Some? ==> r.value == Text.Trim(value) && r.value != ""
  {
    var t := Text.Trim(value);
    if t == "" then None else Some(t)
  }

  /** The two demo meetings shown when the list cannot be fetched, started 30 and
      15 minutes before `now`. */
  function DemoMeetings(now: int): (r: seq<LobbyMeeting>)
    ensures |r| == 2 && r[0].createdAt == now - 30 * 60000 && r[1].createdAt == now - 15 * 60000
  {
    [LobbyMeeting("demo-1", "Product Strategy Meeting", "Sarah Johnson", now - 30 * 60 * 1000, 3, true),
     LobbyMeeting("demo-2", "Design Review Session", "Alex Chen", now - 15 * 60 * 1000, 5, true)]
  }

  /** `loadMeetings`: `response.meetings || []`, or the demo meetings on failure. */
  function ListedMeetings(outcome: ListOutcome, now: int): (r: seq<LobbyMeeting>)
    ensures outcome.ListThrew? ==> r == DemoMeetings(now)
    ensures outcome.Listed? && outcome.meetings.None? ==> r == []
    ensures outcome.Listed? && outcome.meetings.Some? ==> r == outcome.meetings.value
  {
    match outcome
    case Listed(ms) => ms.GetOr([])
    case ListThrew => DemoMeetings(now)
  }

  /** Whole minutes between two clock readings, `Math.floor(ms / 60000)`. */
  function MinutesBetween(start: int, now: int): (r: int)
    ensures r * 60000 <= now - start < (r + 1) * 60000
  {
    (now - start) / 60000
  }

  /** The lobby's "started ... ago" label for a meeting `minutes` old;
      `dateLabel` is the locale date shown for meetings a day old or older.
      Under a minute (future start times included) it is "Just now", under an hour
      it ends in "m ago", under a day in "h ago", and from a day on it is the date;
      `MinutesLabel` and `HoursLabel` give the numbers. */
  function RelativeTime(minutes: int, dateLabel: string): (r: string)
    ensures minutes < 1 ==> r == "Just now"
    ensures 1 <= minutes < 60 ==> |r| > 5 && r[|r| - 5..] == "m ago"
    ensures 60 <= minutes < 1440 ==> |r| > 5 && r[|r| - 5..] == "h ago"
    ensures minutes >= 1440 ==> r == dateLabel
  {
    if minutes < 1 then "Just now"
    else if minutes < 60 then Text.NatToString(minutes) + "m ago"
    else if minutes < 1440 then Text.NatToString(minutes / 60) + "h ago"
    else dateLabel
  }

  /** Under an hour, the label is the minute count followed by "m ago", and the
      count reads back as `minutes`. */
  lemma MinutesLabel(minutes: int, dateLabel: string)
    requires 1 <= minutes < 60
    ensures exists n: string :: (RelativeTime(minutes, dateLabel) == n + "m ago" &&
      Text.AllDigits(n) && Text.DigitsValue(n) == minutes)
  {
    var n := Text.NatToString(minutes);
    Text.NatToStringValue(minutes);
    assert RelativeTime(minutes, dateLabel) == n + "m ago";
  }

  /** Under a day, the label is a whole number of hours from 1 to 23 followed by
      "h ago", the hours being the completed ones. */
  lemma HoursLabel(minutes: int, dateLabel: string)
    requires 60 <= minutes < 1440
    ensures exists n: string :: (RelativeTime(minutes, dateLabel) == n + "h ago" &&
      Text.AllDigits(n) && 1 <= Text.DigitsValue(n) <= 23 &&
      Text.DigitsValue(n) * 60 <= minutes < (Text.DigitsValue(n) + 1) * 60)
  {
    var h := minutes / 60;
    var n := Text.NatToString(h);
    Text.NatToStringValue(h);
    assert RelativeTime(minutes, dateLabel) == n + "h ago";
  }

  /** The first demo meeting reads "30m ago" when the list is drawn at once. */
  lemma DemoMeetingLabel(now: int, dateLabel: string)
    ensures RelativeTime(MinutesBetween(DemoMeetings(now)[0].createdAt, now), dateLabel) == "30m ago"
  {
    assert MinutesBetween(DemoMeetings(now)[0].createdAt, now) == 30;
    assert Text.NatToString(30) == "30";
  }

  /** What one press of Create does: the request posted, if any, and the meeting
      entered, if any. */
  datatype CreateStep = CreateStep(sent: Option<CreateRequest>, entered: Option<Entered>)

  /** `createMeeting` with the form's name and password, the session, the clock and
      the server's answer (ignored when nothing is posted). */
  function CreateFlow(name: string, password: string, session: bool, now: nat,
                      outcome: CreateOutcome): (r: CreateStep)
    ensures Text.IsBlank(name) ==> r.sent.None? && r.entered.None?
    ensures !Text.IsBlank(name) && session ==>
      r.sent == Some(CreateRequest(Text.Trim(name), TrimmedOrNone(password)))
    ensures !Text.IsBlank(name) && !session ==> r.sent.None?
    ensures !Text.IsBlank(name) && session && outcome.Answered? ==> r.entered == outcome.meeting
    ensures !Text.IsBlank(name) && (!session || outcome.CreateThrew?) ==>
      r.entered == Some(Entered("demo-" + Text.NatToString(now), Text.Trim(name)))
  {
    var t := Text.Trim(name);
    var demo := Some(Entered("demo-" + Text.NatToString(now), t));
    if t == "" then CreateStep(None, None)
    else if !session then CreateStep(None, demo)
    else
      var sent := Some(CreateRequest(t, TrimmedOrNone(password)));
      match outcome
      case Answered(m) => CreateStep(sent, m)
      case CreateThrew => CreateStep(sent, demo)
  }

  /** A non-blank name always enters a meeting unless the server answered without
      one, and a meeting entered locally carries the non-blank trimmed name. */
  lemma CreateEnters(name: string, password: string, session: bool, now: nat, outcome: CreateOutcome)
    requires !Text.IsBlank(name)
    ensures var r := CreateFlow(name, password, session, now, outcome);
      r.entered.None? <==> (session && outcome == Answered(None))
    ensures var r := CreateFlow(name, password, session, now, outcome);
      r.entered.Some? && !(session && outcome.Answered?) ==> r.entered.value.name != ""
  {
  }

  /** Create does nothing at all exactly when the name is blank; otherwise it
      either posts or enters a demo meeting. */
  lemma CreateIdleIffBlank(name: string, password: string, session: bool, now: nat, outcome: CreateOutcome)
    ensures CreateFlow(name, password, session, now, outcome) == CreateStep(None, None) <==> Text.IsBlank(name)
  {
  }

  /** Demo meetings created at different times get different ids. */
  lemma DemoIdsDiffer(t1: nat, t2: nat)
    requires t1 != t2
    ensures "demo-" + Text.NatToString(t1) != "demo-" + Text.NatToString(t2)
  {
    if "demo-" + Text.NatToString(t1) == "demo-" + Text.NatToString(t2) {
      assert Text.NatToString(t1) == ("demo-" + Text.NatToString(t1))[5..];
      assert Text.NatToString(t2) == ("demo-" + Text.NatToString(t2))[5..];
      Text.NatToStringInjective(t1, t2);
    }
  }

  /** What one join does: the request posted, if any, and the meeting entered, if any. */
  datatype JoinStep = JoinStep(sent: Option<JoinRequest>, entered: Option<Entered>)

  /** `joinMeeting(meetingId?, meetingName?)` with the form's name and password: the
      name is the given one or else the trimmed form name, the id the given one or
      else `join-{now}`; the meeting is entered whatever the server answers. */
  function JoinFlow(meetingId: Option<string>, meetingName: Option<string>, formName: string,
                    formPassword: string, session: bool, now: nat): (r: JoinStep)
    ensures var named := meetingName.Some? && meetingName.value != "";
      r.entered.None? <==> !named && Text.IsBlank(formName)
    ensures r.entered.Some? ==> r.entered.value.name != ""
    ensures r.entered.Some? && meetingName.Some? && meetingName.value != "" ==>
      r.entered.value.name == meetingName.value
    ensures r.entered.Some? && !(meetingName.Some? && meetingName.value != "") ==>
      r.entered.value.name == Text.Trim(formName)
    ensures r.entered.Some? && meetingId.Some? && meetingId.value != "" ==>
      r.entered.value.id == meetingId.value
    ensures r.entered.Some? && !(meetingId.Some? && meetingId.value != "") ==>
      r.entered.value.id == "join-" + Text.NatToString(now)
    ensures r.sent.Some? <==> r.entered.Some? && session && meetingId.Some? && meetingId.value != ""
    ensures r.sent.Some? ==>
      r.sent.value == JoinRequest(r.entered.value.id, TrimmedOrNone(formPassword))
  {
    var name := if meetingName.Some? && meetingName.value != "" then meetingName.value else Text.Trim(formName);
    var id := if meetingId.Some? && meetingId.value != "" then meetingId.value else "join-" + Text.NatToString(now);
    if name == "" then JoinStep(None, None)
    else
      var sent := if session && meetingId.Some? && meetingId.value != ""
        then Some(JoinRequest(meetingId.value, TrimmedOrNone(formPassword))) else None;
      JoinStep(sent, Some(Entered(id, name)))
  }

  /** The Join and Create buttons are off while loading or while their name field is
      blank, `!name.trim() || isLoading`. */
  function NameButtonDisabled(formName: string, isLoading: bool): (r: bool)
    ensures isLoading ==> r
    ensures !isLoading ==> (r <==> Text.Trim(formName) == "")
  {
    Text.IsBlank(formName) || isLoading
  }

  /** Pressing an enabled Join button enters a meeting under the trimmed form name
      and posts nothing, as it gives no meeting id. */
  lemma EnabledJoinEnters(formName: string, formPassword: string, session: bool, now: nat)
    requires !NameButtonDisabled(formName, false)
    ensures var r := JoinFlow(None, None, formName, formPassword, session, now);
      r.sent.None? && r.entered == Some(Entered("join-" + Text.NatToString(now), Text.Trim(formName)))
  {
  }

  /** The lobby's state: the meeting list, the two forms and the loading flag. */
  class Lobby {
    var meetings: seq<LobbyMeeting>
    var isLoading: bool
    var newMeetingName: string
    var newMeetingPassword: string
    var joinMeetingName: string
    var joinMeetingPassword: string

    constructor ()
      ensures meetings == [] && !isLoading
      ensures newMeetingName == "" && newMeetingPassword == ""
      ensures joinMeetingName == "" && joinMeetingPassword == ""
    {
      meetings := [];
      isLoading := false;
      newMeetingName := "";
      newMeetingPassword := "";
      joinMeetingName := "";
      joinMeetingPassword := "";
    }

    /** `loadMeetings` once its call has come back. */
    method LoadMeetings(outcome: ListOutcome, now: int)
      modifies this`meetings
      ensures meetings == ListedMeetings(outcome, now)
    {
      meetings := ListedMeetings(outcome, now);
    }

    /** `createMeeting`: returns what was posted and the meeting entered; loading
        ends unless the name was blank. The forms and the list are left as they were. */
    method CreateMeeting(user: Option<Session.ClientUser>, token: Option<string>, now: nat,
                         outcome: CreateOutcome) returns (step: CreateStep)
      modifies this`isLoading
      ensures step == CreateFlow(old(newMeetingName), old(newMeetingPassword), HasSession(user, token), now, outcome)
      ensures isLoading == (old(isLoading) && step == CreateStep(None, None))
    {
      step := CreateFlow(newMeetingName, newMeetingPassword, HasSession(user, token), now, outcome);
      if step != CreateStep(None, None) {
        isLoading := false;
      }
    }

    /** `joinMeeting(meetingId?, meetingName?)`: returns what was posted and the
        meeting entered. */
    method JoinMeeting(meetingId: Option<string>, meetingName: Option<string>,
                       user: Option<Session.ClientUser>, token: Option<string>, now: nat)
      returns (step: JoinStep)
      modifies this`isLoading
      ensures step == JoinFlow(meetingId, meetingName, old(joinMeetingName), old(joinMeetingPassword),
                               HasSession(user, token), now)
      ensures isLoading == (old(isLoading) && step.entered.None?)
    {
      step := JoinFlow(meetingId, meetingName, joinMeetingName, joinMeetingPassword, HasSession(user, token), now);
      if step.entered.Some? {
        isLoading := false;
      }
    }
  }
}
