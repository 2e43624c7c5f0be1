/** The HTTP handlers of the backend over the key-value store. The caller's
    identity (`auth`), fresh ids and the clock are parameters; `None` for
    `auth` stands for a missing or rejected access token. */
module Server {
  import opened Wrappers
  import Lists
  import Tally
  import Kv
  import opened Records

  /** The JSON body of a reply: a value, or an HTTP error status with a message. */
  datatype Reply<T> = Ok(value: T) | Err(status: int, error: string)

  /** A poll as `GET /polls` returns it: the stored poll with its vote counts. */
  datatype PollView = PollView(poll: Poll, votes: map<int, nat>, totalVotes: nat)

  /** `user.user_metadata?.name || 'Unknown User'`. */
  function DisplayName(u: AuthUser): (r: string)
    ensures r != ""
    ensures u.name.Some? && u.name.value != "" ==> r == u.name.value
    ensures !(u.name.Some? && u.name.value != "") ==> r == "Unknown User"
  {
    if u.name.Some? && u.name.value != "" then u.name.value else "Unknown User"
  }

  /** `password || null`: an empty or missing password is stored as none. */
  function StoredPassword(given: Option<string>): (r: Option<string>)
    ensures r.Some? ==> r.value != "" && given == r
  {
    if given.Some? && given.value != "" then given else None
  }

  /** `meeting.password && meeting.password !== password`: a meeting without a
      password admits every join, a protected one rejects every password but its own. */
  function PasswordRejects(stored: Option<string>, given: Option<string>): (r: bool)
    ensures stored.None? || stored == Some("") ==> !r
    ensures given == stored ==> !r
    ensures stored.Some? && stored.value != "" && given != stored ==> r
  {
    stored.Some? && stored.value != "" && given != stored
  }

  /** A meeting created with password `p` admits a join with password `q` exactly
      when `p` was empty or missing, or `q` is `p`. */
  lemma JoinAdmits(p: Option<string>, q: Option<string>)
    ensures !PasswordRejects(StoredPassword(p), q) <==> p.None? || p.value == "" || q == p
  {
  }

  function PollTime(v: PollView): int { -v.poll.createdAt }
  function TaskTime(t: Task): int { -t.createdAt }
  function MeetingTime(m: Meeting): int { -m.createdAt }
  function MessageTime(m: Message): int { m.createdAt }

  predicate IsActive(m: Meeting) { m.isActive }

  function ParsePolls(rs: seq<Record>): (r: seq<Poll>)
    requires AllOfKind(rs, PollKind)
    ensures |r| == |rs| && forall i :: 0 <= i < |rs| ==> rs[i] == PollRec(r[i])
  {
    seq(|rs|, i requires 0 <= i < |rs| => rs[i].poll)
  }

  function ParseVotes(rs: seq<Record>): (r: seq<Vote>)
    requires AllOfKind(rs, VoteKind)
    ensures |r| == |rs| && forall i :: 0 <= i < |rs| ==> rs[i] == VoteRec(r[i])
  {
    seq(|rs|, i requires 0 <= i < |rs| => rs[i].vote)
  }

  function ParseTasks(rs: seq<Record>): (r: seq<Task>)
    requires AllOfKind(rs, TaskKind)
    ensures |r| == |rs| && forall i :: 0 <= i < |rs| ==> rs[i] == TaskRec(r[i])
  {
    seq(|rs|, i requires 0 <= i < |rs| => rs[i].task)
  }

  function ParseMeetings(rs: seq<Record>): (r: seq<Meeting>)
    requires AllOfKind(rs, MeetingKind)
    ensures |r| == |rs| && forall i :: 0 <= i < |rs| ==> rs[i] == MeetingRec(r[i])
  {
    seq(|rs|, i requires 0 <= i < |rs| => rs[i].meeting)
  }

  function ParseMessages(rs: seq<Record>): (r: seq<Message>)
    requires AllOfKind(rs, MessageKind)
    ensures |r| == |rs| && forall i :: 0 <= i < |rs| ==> rs[i] == MessageRec(r[i])
  {
    seq(|rs|, i requires 0 <= i < |rs| => rs[i].message)
  }

  /** The votes cast in poll `pollId` (`vote.poll_id === poll.id`), in store order. */
  function VotesFor(votes: seq<Vote>, pollId: string): (r: seq<Vote>)
    ensures |r| <= |votes|
    ensures forall i :: 0 <= i < |r| ==> r[i].pollId == pollId && r[i] in votes
    ensures forall i :: 0 <= i < |votes| && votes[i].pollId == pollId ==> votes[i] in r
  {
    Lists.Filter(votes, InPoll(pollId))
  }

  function InPoll(pollId: string): Vote -> bool {
    (v: Vote) => v.pollId == pollId
  }

  function OptionIndices(votes: seq<Vote>): (r: seq<int>)
    ensures |r| == |votes| && forall i :: 0 <= i < |votes| ==> r[i] == votes[i].optionIndex
  {
    seq(|votes|, i requires 0 <= i < |votes| => votes[i].optionIndex)
  }

  lemma OptionIndicesSnoc(votes: seq<Vote>, v: Vote)
    ensures OptionIndices(votes + [v]) == OptionIndices(votes) + [v.optionIndex]
  {
  }

  /** The view of one poll: the poll itself, each option's count being the number of
      the poll's votes choosing it, and the total being the number of the poll's votes. */
  function PollViewOf(poll: Poll, votes: seq<Vote>): (r: PollView)
    ensures r.poll == poll
    ensures r.totalVotes == |VotesFor(votes, poll.id)|
    ensures forall k :: Tally.Count(r.votes, k) == Tally.Occurrences(OptionIndices(VotesFor(votes, poll.id)), k)
  {
    var mine := VotesFor(votes, poll.id);
    Tally.CountsAll(OptionIndices(mine));
    PollView(poll, Tally.Counts(OptionIndices(mine)), |mine|)
  }

  /** The total of a poll view is the number of votes cast in the poll, and also
      the sum of its per-option counts in whatever order the options are listed;
      each option's count is the number of those votes choosing it. */
  lemma PollViewTotals(poll: Poll, votes: seq<Vote>, ks: seq<int>)
    requires Tally.Enumerates(ks, PollViewOf(poll, votes).votes)
    ensures PollViewOf(poll, votes).totalVotes == |VotesFor(votes, poll.id)|
    ensures Tally.SumAt(PollViewOf(poll, votes).votes, ks) == PollViewOf(poll, votes).totalVotes
  {
    Tally.SumOfCountsAnyOrder(OptionIndices(VotesFor(votes, poll.id)), ks);
  }

  /** Selecting a poll's votes distributes over concatenation. */
  lemma VotesForConcat(a: seq<Vote>, b: seq<Vote>, pollId: string)
    ensures VotesFor(a + b, pollId) == VotesFor(a, pollId) + VotesFor(b, pollId)
  {
    Lists.FilterConcat(a, b, InPoll(pollId));
  }

  /** Inserting a vote of another poll anywhere leaves a poll's view unchanged. */
  lemma OtherPollVoteIgnored(poll: Poll, a: seq<Vote>, w: Vote, b: seq<Vote>)
    requires w.pollId != poll.id
    ensures PollViewOf(poll, a + [w] + b) == PollViewOf(poll, a + b)
  {
    OtherPollVoteDropped(poll.id, a, w, b);
  }

  lemma {:induction false} OtherPollVoteDropped(pollId: string, a: seq<Vote>, w: Vote, b: seq<Vote>)
    requires w.pollId != pollId
    ensures VotesFor(a + [w] + b, pollId) == VotesFor(a + b, pollId)
  {
    VotesForConcat(a + [w], b, pollId);
    VotesForConcat(a, [w], pollId);
    VotesForConcat(a, b, pollId);
    assert VotesFor([w], pollId) == [];
  }

  /** The views of all polls, in store order. */
  function Views(polls: seq<Poll>, votes: seq<Vote>): (r: seq<PollView>)
    ensures |r| == |polls|
    ensures forall i :: 0 <= i < |polls| ==> r[i] == PollViewOf(polls[i], votes)
  {
    seq(|polls|, i requires 0 <= i < |polls| => PollViewOf(polls[i], votes))
  }

  /** The `forEach` of `GET /polls`: one count bump per vote, and one more in the total. */
  method CountVotes(pollVotes: seq<Vote>) returns (voteCounts: map<int, nat>, totalVotes: nat)
    ensures voteCounts == Tally.Counts(OptionIndices(pollVotes))
    ensures totalVotes == |pollVotes|
    ensures forall k :: Tally.Count(voteCounts, k) == Tally.Occurrences(OptionIndices(pollVotes), k)
  {
    voteCounts := map[];
    totalVotes := 0;
    var i := 0;
    while i < |pollVotes|
      invariant 0 <= i <= |pollVotes|
      invariant voteCounts == Tally.Counts(OptionIndices(pollVotes[..i]))
      invariant totalVotes == i
    {
      var option := pollVotes[i].optionIndex;
      CountVotesStep(pollVotes, i);
      voteCounts := voteCounts[option := (if option in voteCounts then voteCounts[option] else 0) + 1];
      totalVotes := totalVotes + 1;
      i := i + 1;
    }
    assert pollVotes[..i] == pollVotes;
    Tally.CountsAll(OptionIndices(pollVotes));
  }

  /** Counting one more vote bumps its option in the counts so far. */
  lemma CountVotesStep(votes: seq<Vote>, i: nat)
    requires i < |votes|
    ensures Tally.Counts(OptionIndices(votes[..i + 1])) ==
      Tally.Bump(Tally.Counts(OptionIndices(votes[..i])), votes[i].optionIndex)
  {
    assert votes[..i + 1] == votes[..i] + [votes[i]];
    OptionIndicesSnoc(votes[..i], votes[i]);
    Tally.CountsSnoc(OptionIndices(votes[..i]), votes[i].optionIndex);
  }

  /** One poll of `GET /polls`: its votes, counted. */
  method AggregatePoll(poll: Poll, votes: seq<Vote>) returns (view: PollView)
    ensures view == PollViewOf(poll, votes)
  {
    var pollVotes := VotesFor(votes, poll.id);
    var voteCounts, totalVotes := CountVotes(pollVotes);
    view := PollView(poll, voteCounts, totalVotes);
  }

  /** The stored records of each kind: `kv.getByPrefix(prefix)`, each value parsed. */
  function PollsIn(es: seq<(string, Record)>): seq<Poll>
    requires WellKeyed(es)
  {
    ScanIsOfKind(es, PollKind);
    ParsePolls(Kv.GetByPrefix(es, Prefix(PollKind)))
  }

  function VotesIn(es: seq<(string, Record)>): seq<Vote>
    requires WellKeyed(es)
  {
    ScanIsOfKind(es, VoteKind);
    ParseVotes(Kv.GetByPrefix(es, Prefix(VoteKind)))
  }

  function TasksIn(es: seq<(string, Record)>): seq<Task>
    requires WellKeyed(es)
  {
    ScanIsOfKind(es, TaskKind);
    ParseTasks(Kv.GetByPrefix(es, Prefix(TaskKind)))
  }

  function MeetingsIn(es: seq<(string, Record)>): seq<Meeting>
    requires WellKeyed(es)
  {
    ScanIsOfKind(es, MeetingKind);
    ParseMeetings(Kv.GetByPrefix(es, Prefix(MeetingKind)))
  }

  function MessagesIn(es: seq<(string, Record)>): seq<Message>
    requires WellKeyed(es)
  {
    ScanIsOfKind(es, MessageKind);
    ParseMessages(Kv.GetByPrefix(es, Prefix(MessageKind)))
  }

  /** `GET /messages`: every stored message, oldest first. */
  function ListMessages(es: seq<(string, Record)>): (r: seq<Message>)
    requires WellKeyed(es)
    ensures Lists.SortedBy(r, MessageTime)
    ensures multiset(r) == multiset(MessagesIn(es))
  {
    Lists.SortBy(MessagesIn(es), MessageTime)
  }

  /** `GET /tasks`: every stored task, newest first. */
  function ListTasks(es: seq<(string, Record)>): (r: seq<Task>)
    requires WellKeyed(es)
    ensures Lists.SortedBy(r, TaskTime)
    ensures multiset(r) == multiset(TasksIn(es))
  {
    Lists.SortBy(TasksIn(es), TaskTime)
  }

  /** `GET /meetings`: the active stored meetings, newest first. */
  function ListMeetings(es: seq<(string, Record)>): (r: seq<Meeting>)
    requires WellKeyed(es)
    ensures Lists.SortedBy(r, MeetingTime)
    ensures multiset(r) == multiset(Lists.Filter(MeetingsIn(es), IsActive))
    ensures forall m :: m in r <==> m.isActive && m in MeetingsIn(es)
  {
    var ms := MeetingsIn(es);
    var active := Lists.Filter(ms, IsActive);
    var r := Lists.SortBy(active, MeetingTime);
    ActiveMembers(ms, active, r);
    r
  }

  lemma ActiveMembers(ms: seq<Meeting>, active: seq<Meeting>, r: seq<Meeting>)
    requires active == Lists.Filter(ms, IsActive)
    requires multiset(r) == multiset(active)
    ensures forall m :: m in r <==> m.isActive && m in ms
  {
    Lists.SameMembers(r, active);
    forall m ensures m in r <==> m.isActive && m in ms {
      if m in active {
        var j :| 0 <= j < |active| && active[j] == m;
        assert IsActive(active[j]);
      }
      if m.isActive && m in ms {
        var j :| 0 <= j < |ms| && ms[j] == m;
        assert IsActive(ms[j]);
      }
    }
  }

  /** The `polls.map(...)` of `GET /polls`: each poll with its counted votes. */
  method ViewAll(polls: seq<Poll>, votes: seq<Vote>) returns (views: seq<PollView>)
    ensures views == Views(polls, votes)
  {
    views := [];
    var i := 0;
    while i < |polls|
      invariant 0 <= i <= |polls|
      invariant |views| == i
      invariant forall j :: 0 <= j < i ==> views[j] == PollViewOf(polls[j], votes)
    {
      var view := AggregatePoll(polls[i], votes);
      views := views + [view];
      i := i + 1;
    }
  }

  /** `GET /polls`: every stored poll with its vote counts, newest first. */
  method ListPolls(es: seq<(string, Record)>) returns (r: seq<PollView>)
    requires WellKeyed(es)
    ensures Lists.SortedBy(r, PollTime)
    ensures multiset(r) == multiset(Views(PollsIn(es), VotesIn(es)))
    ensures forall i :: 0 <= i < |r| ==>
      r[i].poll in PollsIn(es) && r[i] == PollViewOf(r[i].poll, VotesIn(es))
  {
    var polls := PollsIn(es);
    var votes := VotesIn(es);
    var views := ViewAll(polls, votes);
    r := Lists.SortBy(views, PollTime);
    ViewMembers(polls, votes, r);
  }

  lemma ViewMembers(polls: seq<Poll>, votes: seq<Vote>, r: seq<PollView>)
    requires multiset(r) == multiset(Views(polls, votes))
    ensures forall i :: 0 <= i < |r| ==> r[i].poll in polls && r[i] == PollViewOf(r[i].poll, votes)
  {
    var views := Views(polls, votes);
    forall i | 0 <= i < |r|
      ensures r[i].poll in polls && r[i] == PollViewOf(r[i].poll, votes)
    {
      assert r[i] in multiset(views);
      var j :| 0 <= j < |views| && views[j] == r[i];
      assert views[j].poll == polls[j];
    }
  }

  /** The outcome of a join request given the caller and the meeting found:
      401 "Unauthorized" without a user, 404 "Meeting not found" without a meeting,
      401 "Incorrect password" when the meeting has a non-empty password that the
      request does not repeat, and otherwise the meeting with one more participant. */
  function JoinReply(auth: Option<AuthUser>, found: Option<Meeting>, password: Option<string>): (r: Reply<Meeting>)
    ensures r.Ok? <==> auth.Some? && found.Some? && !PasswordRejects(found.value.password, password)
    ensures r.Ok? ==> r.value == found.value.(participantCount := found.value.participantCount + 1)
    ensures auth.None? ==> r == Err(401, "Unauthorized")
    ensures auth.Some? && found.None? ==> r == Err(404, "Meeting not found")
    ensures (auth.Some? && found.Some? && PasswordRejects(found.value.password, password)) ==>
      r == Err(401, "Incorrect password")
  {
    if auth.None? then Err(401, "Unauthorized")
    else if found.None? then Err(404, "Meeting not found")
    else if PasswordRejects(found.value.password, password) then Err(401, "Incorrect password")
    else Ok(found.value.(participantCount := found.value.participantCount + 1))
  }

  /** A join never changes anything of the meeting but its participant count, and
      joining twice with an accepted password adds two participants. */
  lemma JoinTwice(auth: AuthUser, m: Meeting, password: Option<string>)
    requires !PasswordRejects(m.password, password)
    ensures var once := JoinReply(Some(auth), Some(m), password);
      once.Ok? && once.value.id == m.id && once.value.password == m.password &&
      JoinReply(Some(auth), Some(once.value), password) ==
        Ok(m.(participantCount := m.participantCount + 2))
  {
  }

  /** The server's store. */
  class Backend {
    var kv: seq<(string, Record)>

    ghost predicate Valid()
      reads this
    {
      Kv.DistinctKeys(kv) && WellKeyed(kv)
    }

    constructor ()
      ensures Valid() && kv == []
    {
      kv := [];
    }

    /** `kv.set(key, JSON.stringify(record))` under the record's own key. */
    method Put(r: Record)
      requires Valid()
      modifies this
      ensures Valid()
      ensures kv == Kv.Set(old(kv), RecordKey(r), r)
    {
      SetKeepsWellKeyed(kv, r);
      Kv.SetKeepsDistinct(kv, RecordKey(r), r);
      kv := Kv.Set(kv, RecordKey(r), r);
    }

    /** `POST /messages`. */
    method CreateMessage(auth: Option<AuthUser>, content: string, userName: string, id: string, now: int)
      returns (reply: Reply<Message>)
      requires Valid()
      modifies this
      ensures Valid()
      ensures auth.None? ==> reply == Err(401, "Unauthorized") && kv == old(kv)
      ensures auth.Some? ==>
        reply == Ok(Message(id, auth.value.id, if userName != "" then userName else DisplayName(auth.value),
                            content, now)) &&
        kv == Kv.Set(old(kv), MessageKey(id), MessageRec(reply.value))
    {
      if auth.None? {
        return Err(401, "Unauthorized");
      }
      var user := auth.value;
      var message := Message(id, user.id, if userName != "" then userName else DisplayName(user), content, now);
      Put(MessageRec(message));
      reply := Ok(message);
    }

    /** `POST /tasks`: missing priority and source default to `medium` and `manual`. */
    method CreateTask(auth: Option<AuthUser>, title: string, assigneeName: string, dueDate: string,
                      priority: string, source: string, id: string, now: int)
      returns (reply: Reply<Task>)
      requires Valid()
      modifies this
      ensures Valid()
      ensures auth.None? ==> reply == Err(401, "Unauthorized") && kv == old(kv)
      ensures auth.Some? ==>
        reply == Ok(Task(id, title, assigneeName, dueDate, if priority != "" then priority else "medium",
                         false, if source != "" then source else "manual", auth.value.id, now)) &&
        kv == Kv.Set(old(kv), TaskKey(id), TaskRec(reply.value))
    {
      if auth.None? {
        return Err(401, "Unauthorized");
      }
      var task := Task(id, title, assigneeName, dueDate, if priority != "" then priority else "medium",
                       false, if source != "" then source else "manual", auth.value.id, now);
      Put(TaskRec(task));
      reply := Ok(task);
    }

    /** `PUT /tasks/:id`: no token needed; a missing task is 404 and nothing is
        written; otherwise the stored task is rewritten with only `completed` changed. */
    method UpdateTask(taskId: string, completed: bool) returns (reply: Reply<Task>)
      requires Valid()
      modifies this
      ensures Valid()
      ensures old(TaskAt(kv, taskId)).None? ==> reply == Err(404, "Task not found") && kv == old(kv)
      ensures old(TaskAt(kv, taskId)).Some? ==>
        reply == Ok(old(TaskAt(kv, taskId)).value.(completed := completed)) &&
        kv == Kv.Set(old(kv), TaskKey(taskId), TaskRec(reply.value))
    {
      var existing := TaskAt(kv, taskId);
      if existing.None? {
        return Err(404, "Task not found");
      }
      var task := existing.value.(completed := completed);
      Put(TaskRec(task));
      reply := Ok(task);
    }

    /** `POST /polls`: stored active; returned with no votes. */
    method CreatePoll(auth: Option<AuthUser>, question: string, options: seq<string>, id: string, now: int)
      returns (reply: Reply<PollView>)
      requires Valid()
      modifies this
      ensures Valid()
      ensures auth.None? ==> reply == Err(401, "Unauthorized") && kv == old(kv)
      ensures auth.Some? ==>
        reply == Ok(PollView(Poll(id, question, options, auth.value.id, DisplayName(auth.value), true, now),
                             map[], 0)) &&
        kv == Kv.Set(old(kv), PollKey(id), PollRec(reply.value.poll))
    {
      if auth.None? {
        return Err(401, "Unauthorized");
      }
      var poll := Poll(id, question, options, auth.value.id, DisplayName(auth.value), true, now);
      Put(PollRec(poll));
      reply := Ok(PollView(poll, map[], 0));
    }

    /** `POST /polls/:id/vote`: neither the poll nor the option index is checked;
        the vote overwrites any earlier vote of the same user in the same poll. */
    method CastVote(auth: Option<AuthUser>, pollId: string, optionIndex: int, id: string, now: int)
      returns (reply: Reply<Vote>)
      requires Valid()
      modifies this
      ensures Valid()
      ensures auth.None? ==> reply == Err(401, "Unauthorized") && kv == old(kv)
      ensures auth.Some? ==>
        reply == Ok(Vote(id, pollId, auth.value.id, optionIndex, now)) &&
        kv == Kv.Set(old(kv), VoteKey(pollId, auth.value.id), VoteRec(reply.value))
    {
      if auth.None? {
        return Err(401, "Unauthorized");
      }
      var vote := Vote(id, pollId, auth.value.id, optionIndex, now);
      Put(VoteRec(vote));
      reply := Ok(vote);
    }

    /** `POST /meetings`: one participant, active, password kept only when non-empty. */
    method CreateMeeting(auth: Option<AuthUser>, name: string, password: Option<string>, id: string, now: int)
      returns (reply: Reply<Meeting>)
      requires Valid()
      modifies this
      ensures Valid()
      ensures auth.None? ==> reply == Err(401, "Unauthorized") && kv == old(kv)
      ensures auth.Some? ==>
        reply == Ok(Meeting(id, name, StoredPassword(password), auth.value.id, DisplayName(auth.value),
                            1, true, now)) &&
        kv == Kv.Set(old(kv), MeetingKey(id), MeetingRec(reply.value))
    {
      if auth.None? {
        return Err(401, "Unauthorized");
      }
      var meeting := Meeting(id, name, StoredPassword(password), auth.value.id, DisplayName(auth.value), 1, true, now);
      Put(MeetingRec(meeting));
      reply := Ok(meeting);
    }

    /** `POST /meetings/:id/join`: the reply is decided by `JoinReply` on the
        meeting stored under `meeting:{id}`; only a successful join writes, and it
        writes the meeting back under the same key. */
    method JoinMeeting(auth: Option<AuthUser>, meetingId: string, password: Option<string>)
      returns (reply: Reply<Meeting>)
      requires Valid()
      modifies this
      ensures Valid()
      ensures reply == JoinReply(auth, old(MeetingAt(kv, meetingId)), password)
      ensures reply.Err? ==> unchanged(this)
      ensures reply.Ok? ==> kv == Kv.Set(old(kv), MeetingKey(meetingId), MeetingRec(reply.value))
    {
      var existing := MeetingAt(kv, meetingId);
      reply := JoinReply(auth, existing, password);
      if reply.Ok? {
        assert RecordKey(MeetingRec(reply.value)) == MeetingKey(meetingId);
        Put(MeetingRec(reply.value));
      }
    }
  }

  /** After a vote, the store holds that vote under the voter's key for the poll,
      and every other key, including other users' votes, is as before. */
  lemma VoteOverwritesOnlyOwnKey(es: seq<(string, Record)>, v: Vote, pollId: string, userId: string)
    requires Kv.DistinctKeys(es)
    requires ':' !in v.userId && ':' !in userId
    ensures var after := Kv.Set(es, VoteKey(v.pollId, v.userId), VoteRec(v));
      Kv.Get(after, VoteKey(v.pollId, v.userId)) == Some(VoteRec(v)) &&
      ((pollId, userId) != (v.pollId, v.userId) ==> Kv.Get(after, VoteKey(pollId, userId)) == Kv.Get(es, VoteKey(pollId, userId)))
  {
    if VoteKey(pollId, userId) == VoteKey(v.pollId, v.userId) {
      VoteKeyInjective(pollId, userId, v.pollId, v.userId);
    }
  }

  /** A second vote by the same user in the same poll replaces the first: the
      store ends up exactly as if only the second vote had been cast. */
  lemma LastVoteWins(es: seq<(string, Record)>, v1: Vote, v2: Vote)
    requires v1.pollId == v2.pollId && v1.userId == v2.userId
    ensures var key := VoteKey(v2.pollId, v2.userId);
      Kv.Set(Kv.Set(es, key, VoteRec(v1)), key, VoteRec(v2)) == Kv.Set(es, key, VoteRec(v2))
  {
    Kv.SetTwice(es, VoteKey(v2.pollId, v2.userId), VoteRec(v1), VoteRec(v2));
  }
}
