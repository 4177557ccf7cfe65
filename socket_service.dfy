/**
 * The conference socket service: the process-wide registry of active meetings,
 * the per-connection handlers (`join-meeting`, `chat-message`, `signal`,
 * `disconnect` / `leave-meeting`) and the periodic sweep of idle meetings.
 *
 * Socket I/O is replaced by returned emissions: each handler gives back the list
 * of messages it would emit, addressed either to one socket or to a room minus
 * its sender. The clock reading is a `now` parameter and the user-directory
 * lookup is an `Option` of the username.
 */
module SocketService {
  import opened Wrappers
  import opened Seqs

  /** A meeting idle for longer than this many milliseconds is swept (one hour). */
  const InactivityTimeout: int := 1000 * 60 * 60

  datatype MeetingParticipant = MeetingParticipant(socketId: string, username: string)

  /** One entry of the `participants-list` sent to a joiner. */
  datatype RosterEntry = RosterEntry(userId: string, username: string)

  /** A negotiation blob; the router forwards it without looking inside. */
  datatype Signal = Signal(signalType: string, body: string)

  /** A chat message as the client sends it; the server forwards it as is. */
  datatype ChatMessage = ChatMessage(userId: string, username: string, text: string, timestamp: int)

  datatype Event =
    | ParticipantsList(participants: seq<RosterEntry>)
    | UserJoined(userId: string, username: string)
    | SignalForward(signal: Signal, userId: string)
    | UserLeft(userId: string)
    | ChatForward(message: ChatMessage)

  /** An emission goes either to one socket or to everyone in a room except the sending socket. */
  datatype Target = ToSocket(socketId: string) | ToRoomExceptSender(room: string, sender: string)

  datatype Emission = Emission(target: Target, event: Event)

  /** JavaScript truthiness of a string. */
  predicate Truthy(s: string) {
    s != ""
  }

  /** One meeting: a JavaScript Map of participants (with its key order) and the last-activity time. */
  class Meeting {
    var participants: map<string, MeetingParticipant>
    /** The keys of `participants` in insertion order, as a JavaScript Map iterates them. */
    var order: seq<string>
    var lastActivity: int

    ghost predicate Valid()
      reads this
    {
      Distinct(order) && forall id :: id in order <==> id in participants
    }

    constructor (now: int)
      ensures Valid()
      ensures participants == map[] && order == [] && lastActivity == now
    {
      participants := map[];
      order := [];
      lastActivity := now;
    }

    /** `participants.set(id, p)`: a new key goes last, an existing key keeps its place. */
    method Set(id: string, p: MeetingParticipant)
      requires Valid()
      modifies this
      ensures Valid()
      ensures participants == old(participants)[id := p]
      ensures order == if id in old(participants) then old(order) else old(order) + [id]
      ensures lastActivity == old(lastActivity)
    {
      if id !in participants {
        order := order + [id];
      }
      participants := participants[id := p];
    }

    /** `participants.delete(id)`. */
    method Delete(id: string)
      requires Valid()
      modifies this
      ensures Valid()
      ensures participants == old(participants) - {id}
      ensures order == Without(old(order), id)
      ensures lastActivity == old(lastActivity)
    {
      WithoutDistinct(order, id);
      order := Without(order, id);
      participants := participants - {id};
    }

    /** A participant leaves: `participants.delete(id)` and the activity time is bumped. */
    method Leave(id: string, now: int)
      requires Valid()
      modifies this
      ensures Valid()
      ensures participants == old(participants) - {id}
      ensures order == Without(old(order), id)
      ensures lastActivity == now
    {
      Delete(id);
      lastActivity := now;
    }
  }

  /**
   * The roster computed for a joiner: the entries of the Map in order, without the
   * joiner, each as `{userId, username}`.
   */
  function Roster(order: seq<string>, participants: map<string, MeetingParticipant>, joiner: string): (r: seq<RosterEntry>)
    requires forall id :: id in order ==> id in participants
    ensures |r| <= |order|
    ensures forall k :: 0 <= k < |r| ==>
      r[k].userId != joiner && r[k].userId in order && r[k].username == participants[r[k].userId].username
  {
    if order == [] then []
    else
      var rest := Roster(order[1..], participants, joiner);
      if order[0] == joiner then rest
      else [RosterEntry(order[0], participants[order[0]].username)] + rest
  }

  function RosterIds(r: seq<RosterEntry>): (ids: seq<string>)
    ensures |ids| == |r| && forall k :: 0 <= k < |r| ==> ids[k] == r[k].userId
  {
    if r == [] then [] else [r[0].userId] + RosterIds(r[1..])
  }

  /** The roster lists every participant other than the joiner, each exactly once. */
  lemma {:induction false} RosterExactlyOthers(order: seq<string>, participants: map<string, MeetingParticipant>, joiner: string)
    requires Distinct(order)
    requires forall id :: id in order ==> id in participants
    ensures forall id :: id in RosterIds(Roster(order, participants, joiner)) <==> id in order && id != joiner
    ensures Distinct(RosterIds(Roster(order, participants, joiner)))
  {
    if order != [] {
      var tail := order[1..];
      assert Distinct(tail) by {
        forall i, j | 0 <= i < j < |tail| ensures tail[i] != tail[j] {
          assert tail[i] == order[i + 1] && tail[j] == order[j + 1];
        }
      }
      assert order[0] !in tail by {
        forall k | 0 <= k < |tail| ensures tail[k] != order[0] {
          assert tail[k] == order[k + 1];
        }
      }
      RosterExactlyOthers(tail, participants, joiner);
      var rest := Roster(tail, participants, joiner);
      var restIds := RosterIds(rest);
      assert forall id :: id in order <==> id == order[0] || id in tail by {
        assert order == [order[0]] + tail;
      }
      if order[0] != joiner {
        var r := [RosterEntry(order[0], participants[order[0]].username)] + rest;
        assert r[1..] == rest;
        var ids := RosterIds(r);
        assert ids == [order[0]] + restIds;
        assert order[0] !in restIds;
        forall i, j | 0 <= i < j < |ids| ensures ids[i] != ids[j] {
          if i == 0 {
            assert ids[j] == restIds[j - 1];
          } else {
            assert ids[i] == restIds[i - 1] && ids[j] == restIds[j - 1];
          }
        }
      }
    }
  }

  /** A JavaScript value as far as the disconnect lookup's `===` sees it. */
  datatype JsValue = JsString(s: string) | JsParticipant(p: MeetingParticipant)

  /** `v === s` for a string `s`: a value of another type is never strictly equal to a string. */
  predicate StrictEqualsString(v: JsValue, s: string) {
    v.JsString? && v.s == s
  }

  /**
   * What the disconnect lookup compares with `socket.id`. As written, the callback
   * destructures each Map entry into its key and its whole participant record and
   * compares the record; the evident intent is the record's `socketId` field.
   */
  datatype Lookup = AsWritten | Intended

  function Probe(lookup: Lookup, p: MeetingParticipant): JsValue {
    match lookup
    case AsWritten => JsParticipant(p)
    case Intended => JsString(p.socketId)
  }

  /** Whether the entry for `id` passes the disconnect lookup's comparison. */
  predicate Matches(participants: map<string, MeetingParticipant>, id: string, socketId: string, lookup: Lookup)
    requires id in participants
  {
    StrictEqualsString(Probe(lookup, participants[id]), socketId)
  }

  /**
   * The disconnect lookup: the key of the first entry, in insertion order, that passes the
   * comparison, or nothing when no entry does.
   */
  function FindBySocket(order: seq<string>, participants: map<string, MeetingParticipant>, socketId: string, lookup: Lookup): (r: Option<string>)
    requires forall id :: id in order ==> id in participants
    ensures r.None? <==> forall k :: 0 <= k < |order| ==> !Matches(participants, order[k], socketId, lookup)
    ensures r.Some? ==>
      exists k :: (&& 0 <= k < |order| && order[k] == r.value
                   && Matches(participants, order[k], socketId, lookup)
                   && forall j :: 0 <= j < k ==> !Matches(participants, order[j], socketId, lookup))
  {
    if order == [] then None
    else if Matches(participants, order[0], socketId, lookup) then
      Some(order[0])
    else
      var r := FindBySocket(order[1..], participants, socketId, lookup);
      assert forall k :: 1 <= k < |order| ==> order[k] == order[1..][k - 1];
      r
  }

  /** As written, the lookup can never find anyone. */
  lemma {:induction false} AsWrittenNeverMatches(order: seq<string>, participants: map<string, MeetingParticipant>, socketId: string)
    requires forall id :: id in order ==> id in participants
    ensures FindBySocket(order, participants, socketId, AsWritten) == None
  {
    if order != [] {
      AsWrittenNeverMatches(order[1..], participants, socketId);
    }
  }

  /** With the intended comparison, the lookup finds a participant exactly when one holds that socket id. */
  lemma {:induction false} IntendedFindsSocket(order: seq<string>, participants: map<string, MeetingParticipant>, socketId: string)
    requires forall id :: id in order ==> id in participants
    ensures var r := FindBySocket(order, participants, socketId, Intended);
      (r.Some? <==> exists id :: id in order && participants[id].socketId == socketId)
      && (r.Some? ==> participants[r.value].socketId == socketId)
  {
    if order != [] {
      IntendedFindsSocket(order[1..], participants, socketId);
      if participants[order[0]].socketId != socketId {
        forall id | id in order && participants[id].socketId == socketId ensures id in order[1..] {
          assert order == [order[0]] + order[1..];
        }
      }
    }
  }

  /** What a connection remembers: its socket, the handshake's meeting id and the meeting object captured then. */
  datatype Connection = Connection(socketId: string, meetingId: string, meeting: Meeting)

  /**
   * The `signal` handler. It looks the target up in the meeting object captured when
   * the connection was set up, not in the registry, and forwards only when that entry
   * has a (truthy) socket id.
   */
  function Relay(conn: Connection, to: string, from: string, signal: Signal): (out: seq<Emission>)
    reads conn.meeting
    ensures |out| <= 1
    ensures out != [] <==> to in conn.meeting.participants && Truthy(conn.meeting.participants[to].socketId)
    ensures out != [] ==> out[0] == Emission(ToSocket(conn.meeting.participants[to].socketId), SignalForward(signal, from))
  {
    if to in conn.meeting.participants && Truthy(conn.meeting.participants[to].socketId) then
      [Emission(ToSocket(conn.meeting.participants[to].socketId), SignalForward(signal, from))]
    else []
  }

  /** The `chat-message` handler: the message alone goes to the rest of the named room. */
  function ChatRelay(conn: Connection, message: ChatMessage, meetingId: string): (out: seq<Emission>)
    ensures |out| == 1 && out[0].event == ChatForward(message)
    ensures out[0].target == ToRoomExceptSender(meetingId, conn.socketId)
  {
    [Emission(ToRoomExceptSender(meetingId, conn.socketId), ChatForward(message))]
  }

  /** Whether the sweep at `now` removes a meeting last active at `lastActivity`. */
  predicate Expired(now: int, lastActivity: int) {
    now - lastActivity > InactivityTimeout
  }

  /** The sweep keeps a meeting for exactly one hour after its last activity and removes it one millisecond later. */
  lemma ExpiryBoundary(t: int)
    ensures !Expired(t + 3600000, t) && Expired(t + 3600001, t)
  {
  }

  class Registry {
    var activeMeetings: map<string, Meeting>

    ghost predicate Valid()
      reads this, activeMeetings.Values
    {
      && (forall id :: id in activeMeetings ==> activeMeetings[id].Valid())
      && (forall a, b :: a in activeMeetings && b in activeMeetings && a != b ==> activeMeetings[a] != activeMeetings[b])
    }

    constructor ()
      ensures Valid() && activeMeetings == map[]
    {
      activeMeetings := map[];
    }

    /**
     * A new connection: creates the handshake's meeting if it is absent and captures
     * the meeting object the `signal` handler will use.
     */
    method Connect(socketId: string, meetingId: string, now: int) returns (conn: Connection)
      requires Valid()
      modifies this
      ensures Valid()
      ensures conn.socketId == socketId && conn.meetingId == meetingId
      ensures meetingId in activeMeetings && conn.meeting == activeMeetings[meetingId]
      ensures meetingId in old(activeMeetings) ==> activeMeetings == old(activeMeetings)
      ensures meetingId !in old(activeMeetings) ==>
        && fresh(conn.meeting)
        && activeMeetings == old(activeMeetings)[meetingId := conn.meeting]
        && conn.meeting.participants == map[] && conn.meeting.order == []
        && conn.meeting.lastActivity == now
    {
      if meetingId !in activeMeetings {
        var m := new Meeting(now);
        activeMeetings := activeMeetings[meetingId := m];
      }
      conn := Connection(socketId, meetingId, activeMeetings[meetingId]);
    }

    /**
     * The `join-meeting` handler, for the payload's `meetingId` and `userId`. `user` is
     * the directory's answer: `None` stands for a missing user, whose `user.username`
     * throws before the participant is set, and for a failed query.
     */
    method Join(conn: Connection, meetingId: string, userId: string, user: Option<string>, now: int) returns (out: seq<Emission>)
      requires Valid()
      modifies if meetingId in activeMeetings then {activeMeetings[meetingId]} else {}
      ensures Valid()
      ensures activeMeetings == old(activeMeetings)
      ensures meetingId !in activeMeetings || user.None? ==> out == []
      ensures meetingId in activeMeetings && user.None? ==> unchanged(activeMeetings[meetingId])
      ensures meetingId in activeMeetings && user.Some? ==>
        var m := activeMeetings[meetingId];
        && m.participants == old(m.participants)[userId := MeetingParticipant(conn.socketId, user.value)]
        && m.order == (if userId in old(m.participants) then old(m.order) else old(m.order) + [userId])
        && m.lastActivity == now
        && out == [Emission(ToSocket(conn.socketId), ParticipantsList(Roster(m.order, m.participants, userId))),
                   Emission(ToRoomExceptSender(meetingId, conn.socketId), UserJoined(userId, user.value))]
    {
      if meetingId !in activeMeetings {
        return [];
      }
      var m := activeMeetings[meetingId];
      if user.None? {
        return [];
      }
      m.Set(userId, MeetingParticipant(conn.socketId, user.value));
      m.lastActivity := now;
      var roster := Roster(m.order, m.participants, userId);
      out := [Emission(ToSocket(conn.socketId), ParticipantsList(roster)),
              Emission(ToRoomExceptSender(meetingId, conn.socketId), UserJoined(userId, user.value))];
    }

    /**
     * `handleDisconnect`, run for both `disconnect` and `leave-meeting`: a fresh registry
     * lookup of the handshake's meeting, the participant lookup by socket, its removal,
     * the `user-left` notice and the deletion of a meeting left empty.
     */
    method HandleDisconnect(conn: Connection, now: int, lookup: Lookup) returns (out: seq<Emission>)
      requires Valid()
      modifies this, if conn.meetingId in activeMeetings then {activeMeetings[conn.meetingId]} else {}
      ensures Valid()
      ensures conn.meetingId !in old(activeMeetings) ==> activeMeetings == old(activeMeetings) && out == []
      ensures conn.meetingId in old(activeMeetings) ==>
        var m := old(activeMeetings)[conn.meetingId];
        var found := old(FindBySocket(m.order, m.participants, conn.socketId, lookup));
        if found.Some? && Truthy(found.value) then
          && m.participants == old(m.participants) - {found.value}
          && m.order == Without(old(m.order), found.value)
          && m.lastActivity == now
          && out == [Emission(ToRoomExceptSender(conn.meetingId, conn.socketId), UserLeft(found.value))]
          && activeMeetings == if m.participants == map[] then old(activeMeetings) - {conn.meetingId} else old(activeMeetings)
        else
          && unchanged(m)
          && activeMeetings == old(activeMeetings)
          && out == []
    {
      if conn.meetingId !in activeMeetings {
        return [];
      }
      var m := activeMeetings[conn.meetingId];
      var found := FindBySocket(m.order, m.participants, conn.socketId, lookup);
      if found.Some? && Truthy(found.value) {
        Evict(conn.meetingId, found.value, now);
        out := [Emission(ToRoomExceptSender(conn.meetingId, conn.socketId), UserLeft(found.value))];
      } else {
        out := [];
      }
    }

    /** Removes one participant, bumps the activity time and deletes the meeting if it is left empty. */
    method Evict(meetingId: string, userId: string, now: int)
      requires Valid() && meetingId in activeMeetings
      modifies this, activeMeetings[meetingId]
      ensures Valid()
      ensures var m := old(activeMeetings)[meetingId];
        && m.participants == old(m.participants) - {userId}
        && m.order == Without(old(m.order), userId)
        && m.lastActivity == now
        && activeMeetings == if m.participants == map[] then old(activeMeetings) - {meetingId} else old(activeMeetings)
    {
      var m := activeMeetings[meetingId];
      m.Leave(userId, now);
      forall id | id in activeMeetings ensures activeMeetings[id].Valid() {
        if activeMeetings[id] != m {
          assert old(activeMeetings[id].Valid());
        }
      }
      if |m.participants| == 0 {
        activeMeetings := activeMeetings - {meetingId};
      }
    }

    /**
     * The handler as written, which the connection binds to both `disconnect` and
     * `leave-meeting`, so both events have this one effect: nothing changes and
     * nothing is emitted.
     */
    method Disconnect(conn: Connection, now: int) returns (out: seq<Emission>)
      requires Valid()
      modifies this, if conn.meetingId in activeMeetings then {activeMeetings[conn.meetingId]} else {}
      ensures Valid()
      ensures activeMeetings == old(activeMeetings)
      ensures conn.meetingId in activeMeetings ==> unchanged(activeMeetings[conn.meetingId])
      ensures out == []
    {
      if conn.meetingId in activeMeetings {
        var m := activeMeetings[conn.meetingId];
        AsWrittenNeverMatches(m.order, m.participants, conn.socketId);
      }
      out := HandleDisconnect(conn, now, AsWritten);
    }

    /** The periodic cleanup: every meeting idle for more than an hour is deleted, the others stay as they are. */
    method Sweep(now: int)
      requires Valid()
      modifies this
      ensures Valid()
      ensures activeMeetings == map id | id in old(activeMeetings) && !Expired(now, old(activeMeetings)[id].lastActivity) :: old(activeMeetings)[id]
      ensures forall id :: id in activeMeetings ==> unchanged(activeMeetings[id])
    {
      var pending := activeMeetings.Keys;
      while pending != {}
        invariant pending <= old(activeMeetings).Keys
        invariant activeMeetings == map id | id in old(activeMeetings) && (id in pending || !Expired(now, old(activeMeetings)[id].lastActivity)) :: old(activeMeetings)[id]
        decreases pending
      {
        var id :| id in pending;
        if now - activeMeetings[id].lastActivity > InactivityTimeout {
          activeMeetings := activeMeetings - {id};
        }
        pending := pending - {id};
      }
    }
  }

  /** A, with socket "sa", joins "m1" in a fresh registry. */
  method OneJoined(now: int) returns (registry: Registry, toA: seq<Emission>)
    ensures fresh(registry) && registry.Valid()
    ensures "m1" in registry.activeMeetings && fresh(registry.activeMeetings["m1"])
    ensures registry.activeMeetings.Keys == {"m1"}
    ensures registry.activeMeetings["m1"].order == ["a"]
    ensures registry.activeMeetings["m1"].participants == map["a" := MeetingParticipant("sa", "alice")]
    ensures toA == [Emission(ToSocket("sa"), ParticipantsList([])), Emission(ToRoomExceptSender("m1", "sa"), UserJoined("a", "alice"))]
  {
    registry := new Registry();
    var a := registry.Connect("sa", "m1", now);
    toA := registry.Join(a, "m1", "a", Some("alice"), now);
  }

  /** Two participants in "m1", A with socket "sa" and B with socket "sb". */
  method TwoJoined(now: int) returns (registry: Registry, b: Connection, toA: seq<Emission>, toB: seq<Emission>)
    ensures fresh(registry) && registry.Valid()
    ensures b.socketId == "sb" && b.meetingId == "m1"
    ensures registry.activeMeetings == map["m1" := b.meeting] && fresh(b.meeting)
    ensures b.meeting.order == ["a", "b"]
    ensures b.meeting.participants == map["a" := MeetingParticipant("sa", "alice"), "b" := MeetingParticipant("sb", "bob")]
    ensures toA == [Emission(ToSocket("sa"), ParticipantsList([])), Emission(ToRoomExceptSender("m1", "sa"), UserJoined("a", "alice"))]
    ensures toB == [Emission(ToSocket("sb"), ParticipantsList([RosterEntry("a", "alice")])), Emission(ToRoomExceptSender("m1", "sb"), UserJoined("b", "bob"))]
  {
    registry, toA := OneJoined(now);
    b := registry.Connect("sb", "m1", now);
    toB := registry.Join(b, "m1", "b", Some("bob"), now);
    var m := b.meeting;
    assert m.order == ["a", "b"] && m.order[1..] == ["b"] && m.order[1..][1..] == [];
    assert Roster(["b"], m.participants, "b") == [];
    assert Roster(m.order, m.participants, "b") == [RosterEntry("a", "alice")];
  }

  /**
   * Two participants: A joins an empty meeting and gets an empty roster, B joins and
   * gets A, and B's signal for A goes to A's socket marked as from B.
   */
  method TwoPartyMesh(now: int, offer: Signal) returns (toA: seq<Emission>, toB: seq<Emission>, delivered: seq<Emission>)
    ensures toA == [Emission(ToSocket("sa"), ParticipantsList([])), Emission(ToRoomExceptSender("m1", "sa"), UserJoined("a", "alice"))]
    ensures toB == [Emission(ToSocket("sb"), ParticipantsList([RosterEntry("a", "alice")])), Emission(ToRoomExceptSender("m1", "sb"), UserJoined("b", "bob"))]
    ensures delivered == [Emission(ToSocket("sa"), SignalForward(offer, "b"))]
  {
    var registry, b;
    registry, b, toA, toB := TwoJoined(now);
    delivered := Relay(b, "a", "b", offer);
  }

  /** B's transport drops; with the lookup as written B stays registered and nobody is told. */
  method DisconnectAsWrittenScenario(now: int) returns (out: seq<Emission>, stillThere: bool)
    ensures out == [] && stillThere
  {
    var registry, b, _, _ := TwoJoined(now);
    out := registry.Disconnect(b, now + 1);
    stillThere := "m1" in registry.activeMeetings && "b" in registry.activeMeetings["m1"].participants;
  }

  /** B's transport drops; with the intended lookup B is removed and the room hears `user-left`. */
  method DisconnectIntendedScenario(now: int) returns (out: seq<Emission>, removed: bool)
    ensures out == [Emission(ToRoomExceptSender("m1", "sb"), UserLeft("b"))] && removed
  {
    var registry, b, _, _ := TwoJoined(now);
    var m := b.meeting;
    assert m.order[1..] == ["b"];
    assert FindBySocket(m.order, m.participants, "sb", Intended) == Some("b");
    out := registry.HandleDisconnect(b, now + 1, Intended);
    assert m.participants.Keys == {"a"};
    removed := "m1" in registry.activeMeetings && "b" !in registry.activeMeetings["m1"].participants;
  }

  /**
   * A meeting whose last join is over an hour old is swept even while A is still
   * connected. C's connection then creates a new meeting: C's roster is empty, and A's
   * relay, which reads the meeting captured at A's connection, cannot reach C.
   */
  method StaleMeetingScenario(t: int, offer: Signal) returns (toC: seq<Emission>, fromA: seq<Emission>)
    ensures |toC| == 2 && toC[0] == Emission(ToSocket("sc"), ParticipantsList([]))
    ensures fromA == []
  {
    var registry := new Registry();
    var a := registry.Connect("sa", "m1", t);
    var _ := registry.Join(a, "m1", "a", Some("alice"), t);
    registry.Sweep(t + InactivityTimeout + 1);
    assert "m1" !in registry.activeMeetings;
    var later := t + InactivityTimeout + 1;
    var c := registry.Connect("sc", "m1", later);
    assert "m1" in registry.activeMeetings && c.meeting.order == [];
    toC := registry.Join(c, "m1", "c", Some("carol"), later);
    assert c.meeting.order == ["c"];
    assert "c" !in a.meeting.participants;
    fromA := Relay(a, "c", "a", offer);
  }
}
