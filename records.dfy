/** The records the server keeps in its key-value store, and the key each record
    is stored under: `poll:{id}`, `vote:{pollId}:{userId}`, `task:{id}`,
    `meeting:{id}` and `message:{id}`. Stored values are typed records here
    rather than JSON text; timestamps are milliseconds. */
module Records {
  import opened Wrappers
  import Text
  import Kv

  /** The authenticated caller, as the auth service reports it. */
  datatype AuthUser = AuthUser(id: string, name: Option<string>)

  datatype Poll = Poll(id: string, question: string, options: seq<string>, creatorId: string,
                       creatorName: string, isActive: bool, createdAt: int)

  datatype Vote = Vote(id: string, pollId: string, userId: string, optionIndex: int, createdAt: int)

  datatype Task = Task(id: string, title: string, assigneeName: string, dueDate: string,
                       priority: string, completed: bool, source: string, createdBy: string,
                       createdAt: int)

  datatype Meeting = Meeting(id: string, name: string, password: Option<string>, creatorId: string,
                             creatorName: string, participantCount: int, isActive: bool,
                             createdAt: int)

  datatype Message = Message(id: string, userId: string, userName: string, content: string,
                             createdAt: int)

  datatype Record =
    | PollRec(poll: Poll)
    | VoteRec(vote: Vote)
    | TaskRec(task: Task)
    | MeetingRec(meeting: Meeting)
    | MessageRec(message: Message)

  datatype Kind = PollKind | VoteKind | TaskKind | MeetingKind | MessageKind

  function KindOf(r: Record): Kind {
    match r
    case PollRec(_) => PollKind
    case VoteRec(_) => VoteKind
    case TaskRec(_) => TaskKind
    case MeetingRec(_) => MeetingKind
    case MessageRec(_) => MessageKind
  }

  /** The key prefix of each kind of record. */
  function Prefix(k: Kind): string {
    match k
    case PollKind => "poll:"
    case VoteKind => "vote:"
    case TaskKind => "task:"
    case MeetingKind => "meeting:"
    case MessageKind => "message:"
  }

  function PollKey(id: string): string { Prefix(PollKind) + id }
  function VoteKey(pollId: string, userId: string): string { Prefix(VoteKind) + pollId + ":" + userId }
  function TaskKey(id: string): string { Prefix(TaskKind) + id }
  function MeetingKey(id: string): string { Prefix(MeetingKind) + id }
  function MessageKey(id: string): string { Prefix(MessageKind) + id }

  /** The key the server stores a record under. */
  function RecordKey(r: Record): string {
    match r
    case PollRec(p) => PollKey(p.id)
    case VoteRec(v) => VoteKey(v.pollId, v.userId)
    case TaskRec(t) => TaskKey(t.id)
    case MeetingRec(m) => MeetingKey(m.id)
    case MessageRec(m) => MessageKey(m.id)
  }

  /** Every entry of the store sits under the key derived from its record. */
  predicate WellKeyed(es: seq<(string, Record)>) {
    forall i :: 0 <= i < |es| ==> es[i].0 == RecordKey(es[i].1)
  }

  predicate AllOfKind(rs: seq<Record>, k: Kind) {
    forall i :: 0 <= i < |rs| ==> KindOf(rs[i]) == k
  }

  /** A record's key starts with the prefix of its own kind and with no other prefix. */
  lemma PrefixDeterminesKind(r: Record, k: Kind)
    ensures Text.StartsWith(RecordKey(r), Prefix(k)) <==> KindOf(r) == k
  {
    var key := RecordKey(r);
    var own := Prefix(KindOf(r));
    var rest := match r
      case VoteRec(v) => v.pollId + ":" + v.userId
      case PollRec(p) => p.id
      case TaskRec(t) => t.id
      case MeetingRec(m) => m.id
      case MessageRec(m) => m.id;
    assert key == own + rest;
    assert key[..|own|] == own;
    assert key[0] == own[0] && key[2] == own[2];
  }

  /** Under a well-keyed store, a prefix scan for one kind returns only records of that kind. */
  lemma ScanIsOfKind(es: seq<(string, Record)>, k: Kind)
    requires WellKeyed(es)
    ensures AllOfKind(Kv.GetByPrefix(es, Prefix(k)), k)
  {
    var s := Kv.Scan(es, Prefix(k));
    var rs := Kv.GetByPrefix(es, Prefix(k));
    forall i | 0 <= i < |rs| ensures KindOf(rs[i]) == k {
      assert s[i] in es;
      var j :| 0 <= j < |es| && es[j] == s[i];
      PrefixDeterminesKind(rs[i], k);
    }
  }

  /** Writing a record under its own key keeps the store well keyed. */
  lemma SetKeepsWellKeyed(es: seq<(string, Record)>, r: Record)
    requires Kv.DistinctKeys(es) && WellKeyed(es)
    ensures WellKeyed(Kv.Set(es, RecordKey(r), r))
  {
    var t := Kv.Set(es, RecordKey(r), r);
    Kv.SetEntries(es, RecordKey(r), r);
    forall i | 0 <= i < |t| ensures t[i].0 == RecordKey(t[i].1) {
      assert t[i] in t;
      if t[i] != (RecordKey(r), r) {
        var j :| 0 <= j < |es| && es[j] == t[i];
      }
    }
  }

  /** Equal keys with the same prefix have equal remainders. */
  lemma PrefixCancel(p: string, a: string, b: string)
    requires p + a == p + b
    ensures a == b
  {
    assert a == (p + a)[|p|..];
    assert b == (p + b)[|p|..];
  }

  /** In a well-keyed store the record found under `TaskKey(id)` is the task `id`;
      likewise for meetings. */
  lemma FoundUnderOwnKey(es: seq<(string, Record)>, key: string)
    requires WellKeyed(es)
    ensures Kv.Get(es, key).Some? ==> RecordKey(Kv.Get(es, key).value) == key
  {
    if Kv.Get(es, key).Some? {
      var i :| 0 <= i < |es| && es[i] == (key, Kv.Get(es, key).value);
    }
  }

  lemma TaskFound(es: seq<(string, Record)>, id: string)
    requires WellKeyed(es)
    ensures var r := Kv.Get(es, TaskKey(id));
      r.Some? ==> r.value.TaskRec? && r.value.task.id == id
  {
    var r := Kv.Get(es, TaskKey(id));
    FoundUnderOwnKey(es, TaskKey(id));
    if r.Some? {
      PrefixDeterminesKind(r.value, TaskKind);
      assert Text.StartsWith(TaskKey(id), Prefix(TaskKind));
      PrefixCancel(Prefix(TaskKind), r.value.task.id, id);
    }
  }

  lemma MeetingFound(es: seq<(string, Record)>, id: string)
    requires WellKeyed(es)
    ensures var r := Kv.Get(es, MeetingKey(id));
      r.Some? ==> r.value.MeetingRec? && r.value.meeting.id == id
  {
    var r := Kv.Get(es, MeetingKey(id));
    FoundUnderOwnKey(es, MeetingKey(id));
    if r.Some? {
      PrefixDeterminesKind(r.value, MeetingKind);
      assert Text.StartsWith(MeetingKey(id), Prefix(MeetingKind));
      PrefixCancel(Prefix(MeetingKind), r.value.meeting.id, id);
    }
  }

  /** The task stored under `task:{id}`, if any (`kv.get` then `JSON.parse`). */
  function TaskAt(es: seq<(string, Record)>, id: string): (r: Option<Task>)
    requires WellKeyed(es)
    ensures r.None? <==> Kv.Get(es, TaskKey(id)).None?
    ensures r.Some? ==> Kv.Get(es, TaskKey(id)) == Some(TaskRec(r.value)) && r.value.id == id
  {
    TaskFound(es, id);
    var found := Kv.Get(es, TaskKey(id));
    if found.None? then None else Some(found.value.task)
  }

  /** The meeting stored under `meeting:{id}`, if any. */
  function MeetingAt(es: seq<(string, Record)>, id: string): (r: Option<Meeting>)
    requires WellKeyed(es)
    ensures r.None? <==> Kv.Get(es, MeetingKey(id)).None?
    ensures r.Some? ==> Kv.Get(es, MeetingKey(id)) == Some(MeetingRec(r.value)) && r.value.id == id
  {
    MeetingFound(es, id);
    var found := Kv.Get(es, MeetingKey(id));
    if found.None? then None else Some(found.value.meeting)
  }

  /** Where the user id part of a vote key begins: a longer user id than the
      other key's would have to contain that key's separating colon. */
  lemma VoteKeySuffix(p1: string, u1: string, p2: string, u2: string)
    requires VoteKey(p1, u1) == VoteKey(p2, u2)
    ensures |u2| > |u1| ==> ':' in u2
  {
    var k := VoteKey(p1, u1);
    var n := |k|;
    if |u2| > |u1| {
      assert k[n - |u1| - 1] == ':';
      assert VoteKey(p2, u2)[n - |u1| - 1] == u2[|u2| - |u1| - 1];
    }
  }

  /** Vote keys identify the (poll, user) pair as long as user ids contain no colon
      (they are UUIDs); poll ids come from the request path and may contain anything. */
  lemma VoteKeyInjective(p1: string, u1: string, p2: string, u2: string)
    requires ':' !in u1 && ':' !in u2
    requires VoteKey(p1, u1) == VoteKey(p2, u2)
    ensures p1 == p2 && u1 == u2
  {
    VoteKeySuffix(p1, u1, p2, u2);
    VoteKeySuffix(p2, u2, p1, u1);
    var k := VoteKey(p1, u1);
    var n := |k|;
    assert u1 == k[n - |u1|..];
    assert u2 == VoteKey(p2, u2)[n - |u2|..];
    assert p1 == k[5..5 + |p1|];
    assert p2 == VoteKey(p2, u2)[5..5 + |p2|];
  }

  /** Without that condition two different pairs can share a key. */
  lemma VoteKeyCollision()
    ensures VoteKey("a", "b:c") == VoteKey("a:b", "c")
  {
  }

  /** In a well-keyed store with distinct keys there is at most one vote per poll and user. */
  lemma AtMostOneVote(es: seq<(string, Record)>, i: nat, j: nat)
    requires Kv.DistinctKeys(es) && WellKeyed(es)
    requires i < |es| && j < |es| && es[i].1.VoteRec? && es[j].1.VoteRec?
    requires es[i].1.vote.pollId == es[j].1.vote.pollId && es[i].1.vote.userId == es[j].1.vote.userId
    ensures i == j
  {
  }
}
