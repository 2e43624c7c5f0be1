/** The live-polling panel: its list of polls with per-option counts, the
    options this user has voted for, and the form for a new poll. A vote is
    applied to the local tally first and then sent; a new poll is shown at once
    under a temporary id and replaced by the server's poll when that arrives. */
module PollingVoting {
  import opened Wrappers
  import Text
  import Lists
  import Tally
  import Session

  /** A poll as the panel holds it; `votes` maps an option index to its count. */
  datatype Poll = Poll(id: string, question: string, options: seq<string>, votes: map<int, nat>,
                       totalVotes: int, isActive: bool, creatorName: string, createdAt: int)

  /** The new-poll form. */
  datatype Draft = Draft(question: string, options: seq<string>)

  const EmptyDraft: Draft := Draft("", ["", ""])

  /** `totalVotes` is the sum of the per-option counts, whatever order the options are summed in. */
  ghost predicate Tallied(p: Poll) {
    forall ks :: Tally.Enumerates(ks, p.votes) ==> Tally.SumAt(p.votes, ks) == p.totalVotes
  }

  ghost predicate AllTallied(ps: seq<Poll>) {
    forall i :: 0 <= i < |ps| ==> Tallied(ps[i])
  }

  /** One more vote for option `k`: its count (0 when absent) and the total go up by one. */
  function AddVote(p: Poll, k: int): (r: Poll)
    ensures Tally.Count(r.votes, k) == Tally.Count(p.votes, k) + 1
    ensures forall j :: j != k ==> Tally.Count(r.votes, j) == Tally.Count(p.votes, j)
    ensures r.totalVotes == p.totalVotes + 1
    ensures r.(votes := p.votes, totalVotes := p.totalVotes) == p
  {
    p.(votes := Tally.Bump(p.votes, k), totalVotes := p.totalVotes + 1)
  }

  /** The optimistic update of `vote`: the polls with id `pollId` get the vote, no other poll changes. */
  function RecordVote(ps: seq<Poll>, pollId: string, k: int): (r: seq<Poll>)
    ensures |r| == |ps|
    ensures forall i :: 0 <= i < |ps| && ps[i].id != pollId ==> r[i] == ps[i]
    ensures forall i :: 0 <= i < |ps| && ps[i].id == pollId ==> r[i] == AddVote(ps[i], k)
  {
    seq(|ps|, i requires 0 <= i < |ps| => if ps[i].id == pollId then AddVote(ps[i], k) else ps[i])
  }

  /** A vote keeps the total equal to the sum of the counts. */
  lemma AddVoteKeepsTallied(p: Poll, k: int)
    requires Tallied(p)
    ensures Tallied(AddVote(p, k))
  {
    var r := AddVote(p, k);
    forall ks | Tally.Enumerates(ks, r.votes) ensures Tally.SumAt(r.votes, ks) == r.totalVotes {
      if k in p.votes {
        assert Tally.Enumerates(ks, p.votes);
        Tally.SumAtBumpInside(p.votes, ks, k);
      } else {
        var i :| 0 <= i < |ks| && ks[i] == k;
        var rest := ks[..i] + ks[i + 1..];
        Tally.RemoveAt(ks, i);
        assert Tally.Enumerates(rest, p.votes);
        Tally.SumAtRemoveAt(r.votes, ks, i);
        Tally.SumAtBumpOutside(p.votes, rest, k);
      }
    }
  }

  lemma RecordVoteKeepsTallied(ps: seq<Poll>, pollId: string, k: int)
    requires AllTallied(ps)
    ensures AllTallied(RecordVote(ps, pollId, k))
  {
    var r := RecordVote(ps, pollId, k);
    forall i | 0 <= i < |r| ensures Tallied(r[i]) {
      if ps[i].id == pollId {
        AddVoteKeepsTallied(ps[i], k);
      }
    }
  }

  /** `opt.trim()` is truthy: the option is not blank. */
  function NonBlank(opt: string): (r: bool)
    ensures r <==> !Text.IsBlank(opt)
  {
    Text.Trim(opt) != ""
  }

  /** The guard of `createPoll`: a non-empty question and no blank option. */
  function CanCreate(d: Draft): (r: bool)
    ensures r <==> d.question != "" && forall i :: 0 <= i < |d.options| ==> !Text.IsBlank(d.options[i])
  {
    d.question != "" && forall i :: 0 <= i < |d.options| ==> NonBlank(d.options[i])
  }

  /** The optimistic poll: a temporary id, the non-blank options, no votes, active. */
  function NewPoll(d: Draft, tempId: string, creatorName: string, now: int): (r: Poll)
    ensures r.id == tempId && r.question == d.question && r.votes == map[] && r.totalVotes == 0
    ensures r.isActive && r.creatorName == creatorName && r.createdAt == now
    ensures forall i :: 0 <= i < |r.options| ==> !Text.IsBlank(r.options[i])
  {
    Poll(tempId, d.question, Lists.Filter(d.options, NonBlank), map[], 0, true, creatorName, now)
  }

  /** Past the guard, filtering the options keeps them all, and a fresh poll is tallied. */
  lemma NewPollKeepsOptions(d: Draft, tempId: string, creatorName: string, now: int)
    requires CanCreate(d)
    ensures NewPoll(d, tempId, creatorName, now).options == d.options
    ensures Tallied(NewPoll(d, tempId, creatorName, now))
  {
    Lists.FilterAll(d.options, NonBlank);
    var p := NewPoll(d, tempId, creatorName, now);
    forall ks | Tally.Enumerates(ks, p.votes) ensures Tally.SumAt(p.votes, ks) == 0 {
      Tally.SumAtEmpty(ks);
    }
  }

  /** The polls carrying id `id`. */
  function HasId(id: string): Poll -> bool {
    (p: Poll) => p.id == id
  }

  /** Showing a tallied poll, then replacing it with a tallied server poll, keeps every poll tallied. */
  lemma AfterCreateTallied(ps: seq<Poll>, p: Poll, reply: Option<Poll>)
    requires AllTallied(ps) && Tallied(p)
    requires reply.Some? ==> Tallied(reply.value)
    ensures AllTallied(Lists.ShowThenReplace(ps, p, HasId(p.id), reply))
  {
    var q := [p] + ps;
    assert forall i :: 0 <= i < |q| ==> Tallied(q[i]) by {
      forall i | 0 <= i < |q| ensures Tallied(q[i]) {
        if i > 0 {
          assert q[i] == ps[i - 1];
        }
      }
    }
  }

  /** `Math.round((votes / total) * 100)`, or 0 when there are no votes; the
      rounding is to the nearest integer with halves going up. */
  function Percentage(votes: int, total: int): (r: int)
    ensures total <= 0 ==> r == 0
    ensures total > 0 ==> r * 2 * total <= 200 * votes + total < (r + 1) * 2 * total
  {
    if total > 0 then (200 * votes + total) / (2 * total) else 0
  }

  /** A share of the total is between 0 and 100 per cent, and all of it is 100. */
  lemma PercentageBounds(votes: int, total: int)
    requires 0 <= votes <= total
    ensures 0 <= Percentage(votes, total) <= 100
    ensures total > 0 && votes == total ==> Percentage(votes, total) == 100
  {
    var r := Percentage(votes, total);
    if total > 0 {
      if r >= 101 {
        MulMono(202, r * 2, total);
      }
      if r < 0 {
        MulMono(r + 1, 0, 2 * total);
      }
      if votes == total && r <= 99 {
        MulMono(r + 1, 100, 2 * total);
      }
    }
  }

  lemma MulMono(a: int, b: int, c: int)
    requires a <= b && c >= 0
    ensures a * c <= b * c
  {
  }

  /** `initialDemoPolls`, created 15 and 25 minutes before `now`. */
  function DemoPolls(now: int): seq<Poll> {
    [Poll("1", "Which AI feature should we prioritize next?",
          ["Real-time sentiment analysis", "Advanced keyword extraction", "Meeting mood tracking", "Voice tone analysis"],
          map[0 := 5, 1 := 3, 2 := 7, 3 := 2], 17, true, "John", now - 15 * 60 * 1000),
     Poll("2", "Best time for our next design review?",
          ["Tomorrow 2 PM", "Wednesday 10 AM", "Thursday 3 PM"],
          map[0 := 2, 1 := 8, 2 := 4], 14, false, "Sarah", now - 25 * 60 * 1000)]
  }

  /** The demo polls the panel opens with are tallied (5 + 3 + 7 + 2 = 17, 2 + 8 + 4 = 14). */
  lemma DemoPollsTallied(now: int)
    ensures AllTallied(DemoPolls(now))
  {
    var ps := DemoPolls(now);
    FourOptionsTallied(ps[0]);
    ThreeOptionsTallied(ps[1]);
  }

  lemma FourOptionsTallied(p: Poll)
    requires p.votes == map[0 := 5, 1 := 3, 2 := 7, 3 := 2] && p.totalVotes == 17
    ensures Tallied(p)
  {
    var m := p.votes;
    var ks := [0, 1, 2, 3];
    assert Tally.SumAt(m, ks[3..]) == 2;
    assert Tally.SumAt(m, ks[2..]) == 9;
    assert Tally.SumAt(m, ks[1..]) == 12;
    assert Tally.SumAt(m, ks) == 17;
    assert Tally.Enumerates(ks, m);
    TalliedFrom(p, ks);
  }

  lemma ThreeOptionsTallied(p: Poll)
    requires p.votes == map[0 := 2, 1 := 8, 2 := 4] && p.totalVotes == 14
    ensures Tallied(p)
  {
    var m := p.votes;
    var ks := [0, 1, 2];
    assert Tally.SumAt(m, ks[2..]) == 4;
    assert Tally.SumAt(m, ks[1..]) == 12;
    assert Tally.SumAt(m, ks) == 14;
    assert Tally.Enumerates(ks, m);
    TalliedFrom(p, ks);
  }

  /** One enumeration of the keys whose sum is the total makes the poll tallied. */
  lemma TalliedFrom(p: Poll, ks0: seq<int>)
    requires Tally.Enumerates(ks0, p.votes) && Tally.SumAt(p.votes, ks0) == p.totalVotes
    ensures Tallied(p)
  {
    forall ks | Tally.Enumerates(ks, p.votes) ensures Tally.SumAt(p.votes, ks) == p.totalVotes {
      Tally.SumAtPermutation(p.votes, ks, ks0);
    }
  }

  /** The panel's state. */
  class PollBoard {
    var polls: seq<Poll>
    var userVotes: map<string, int>
    var draft: Draft
    var showCreatePoll: bool

    /** Every poll's total is the sum of its counts. */
    ghost predicate Valid()
      reads this
    {
      AllTallied(polls)
    }

    constructor (initial: seq<Poll>, voted: map<string, int>)
      ensures polls == initial && userVotes == voted && draft == EmptyDraft && !showCreatePoll
      ensures AllTallied(initial) ==> Valid()
    {
      polls := initial;
      userVotes := voted;
      draft := EmptyDraft;
      showCreatePoll := false;
    }

    /** `vote(pollId, optionIndex)`: nothing happens when this user already voted
        in the poll; otherwise the vote is added locally, remembered, and sent when
        the session allows (the local tally stays whatever the server answers).
        Returns the option index posted, if any. */
    method Vote(pollId: string, optionIndex: int, user: Option<Session.ClientUser>, token: Option<string>)
      returns (sent: Option<int>)
      modifies this
      ensures pollId in old(userVotes) ==>
        polls == old(polls) && userVotes == old(userVotes) && sent.None?
      ensures pollId !in old(userVotes) ==>
        polls == RecordVote(old(polls), pollId, optionIndex) &&
        userVotes == old(userVotes)[pollId := optionIndex] &&
        sent == (if Session.CanSync(user, token) then Some(optionIndex) else None)
      ensures draft == old(draft) && showCreatePoll == old(showCreatePoll)
      ensures old(Valid()) ==> Valid()
    {
      sent := None;
      if pollId in userVotes {
        return;
      }
      if Valid() {
        RecordVoteKeepsTallied(polls, pollId, optionIndex);
      }
      polls := RecordVote(polls, pollId, optionIndex);
      userVotes := userVotes[pollId := optionIndex];
      if Session.CanSync(user, token) {
        sent := Some(optionIndex);
      }
    }

    /** `addOption`: one more empty option at the end. */
    method AddOption()
      modifies this
      ensures draft == old(draft).(options := old(draft).options + [""])
      ensures polls == old(polls) && userVotes == old(userVotes) && showCreatePoll == old(showCreatePoll)
    {
      draft := draft.(options := draft.options + [""]);
    }

    /** `updateOption(index, value)`: the option at `index` becomes `value`. */
    method UpdateOption(index: nat, value: string)
      requires index < |draft.options|
      modifies this
      ensures draft == old(draft).(options := old(draft).options[index := value])
      ensures polls == old(polls) && userVotes == old(userVotes) && showCreatePoll == old(showCreatePoll)
    {
      draft := draft.(options := draft.options[index := value]);
    }

    /** `createPoll` at clock reading `now`: nothing happens unless the form passes
        the guard. Otherwise the poll is shown first under `temp-{now}`, the form is
        reset and closed, and when the session allows the form is sent; `reply` is
        the server's poll, or `None` when the request failed, in which case the
        optimistic poll stays. Returns the question and options sent, if any. */
    method CreatePoll(user: Option<Session.ClientUser>, token: Option<string>, now: nat, reply: Option<Poll>)
      returns (sent: Option<Draft>)
      modifies this
      ensures !CanCreate(old(draft)) ==> unchanged(this) && sent.None?
      ensures CanCreate(old(draft)) ==>
        var p := NewPoll(old(draft), "temp-" + Text.NatToString(now), Session.NameOr(user, "You"), now);
        draft == EmptyDraft && !showCreatePoll && userVotes == old(userVotes) &&
        polls == Lists.ShowThenReplace(old(polls), p, HasId(p.id), if Session.CanSync(user, token) then reply else None) &&
        sent == (if Session.CanSync(user, token) then Some(Draft(old(draft).question, p.options)) else None)
      ensures old(Valid()) && (reply.Some? ==> Tallied(reply.value)) ==> Valid()
    {
      sent := None;
      if !CanCreate(draft) {
        return;
      }
      var p := NewPoll(draft, "temp-" + Text.NatToString(now), Session.NameOr(user, "You"), now);
      var answer := if Session.CanSync(user, token) then reply else None;
      if Valid() && (reply.Some? ==> Tallied(reply.value)) {
        NewPollKeepsOptions(draft, p.id, p.creatorName, now);
        AfterCreateTallied(polls, p, answer);
      }
      if Session.CanSync(user, token) {
        sent := Some(Draft(draft.question, p.options));
      }
      polls := Lists.ShowThenReplace(polls, p, HasId(p.id), answer);
      draft := EmptyDraft;
      showCreatePoll := false;
    }
  }
}
