/**
 * The parts of the realtime database the stranger chat uses, as values: the
 * waiting queue, the chat rooms and the presence list. Every write of the
 * chat client is a function from one store value to the next; a
 * multi-location update is one such function. Server timestamps are the
 * parameter `now`.
 */
module ChatStore {
  import opened Wrappers

  type UserId = string
  type ChatId = string

  /** A chat's `status`; `Unset` is a node written without one. */
  datatype Status = Waiting | Active | Unset

  datatype Message = Message(sender: UserId, text: string, timestamp: int)

  /**
   * A chat room. `participants` lists the keys of the `participants` object
   * without repetition, in the order they were written (a write adds a key at
   * the end); a missing or empty object is the empty list. `createdAt` and
   * `lastActivity` are 0 when missing.
   */
  datatype Chat = Chat(participants: seq<UserId>, status: Status, participantCount: int,
                       createdAt: int, lastActivity: int, creator: Option<UserId>,
                       connected: set<UserId>, typing: set<UserId>, messages: seq<Message>)

  /** An entry of `waitingQueue`: whether its `status` is `'waiting'`, and its timestamp. */
  datatype QueueEntry = QueueEntry(waiting: bool, timestamp: int)

  datatype Db = Db(queue: map<UserId, QueueEntry>, chats: map<ChatId, Chat>, presence: set<UserId>)

  predicate NoRepeats(s: seq<UserId>)
  {
    forall i, j :: 0 <= i < j < |s| ==> s[i] != s[j]
  }

  /** Every chat lists each participant once. */
  predicate WellFormed(db: Db)
  {
    forall id :: id in db.chats ==> NoRepeats(db.chats[id].participants)
  }

  /** The chats `u` is a participant of. */
  function ChatsWith(db: Db, u: UserId): set<ChatId>
  {
    set id | id in db.chats && u in db.chats[id].participants
  }

  // ---------------------------------------------------------------------------
  // participants

  /** `participantIds.find(id => id !== me)`. */
  function FirstOther(ps: seq<UserId>, me: UserId): (o: Option<UserId>)
    ensures o.Some? ==> o.value in ps && o.value != me
    ensures o.None? <==> forall i :: 0 <= i < |ps| ==> ps[i] == me
  {
    if |ps| == 0 then None
    else if ps[0] != me then Some(ps[0])
    else FirstOther(ps[1..], me)
  }

  /** `participantIds.filter(id => id !== me)`. */
  function Others(ps: seq<UserId>, me: UserId): (r: seq<UserId>)
    ensures |r| <= |ps|
    ensures forall u :: u in r <==> u in ps && u != me
    ensures me in ps && NoRepeats(ps) ==> |r| == |ps| - 1
    ensures me !in ps ==> r == ps
    ensures NoRepeats(ps) ==> NoRepeats(r)
  {
    if |ps| == 0 then []
    else
      var rest := Others(ps[1..], me);
      assert ps == [ps[0]] + ps[1..];
      if ps[0] == me then rest
      else
        var r := [ps[0]] + rest;
        assert NoRepeats(ps) ==> NoRepeats(r) by {
          if NoRepeats(ps) {
            assert ps[0] !in ps[1..];
            forall j | 1 <= j < |r|
              ensures r[0] != r[j]
            {
              assert r[j] in rest;
            }
          }
        }
        r
  }

  /** Writing `participants/<u>: true`: `u` is added at the end when absent. */
  function AddMember(ps: seq<UserId>, u: UserId): (r: seq<UserId>)
    ensures forall v :: v in r <==> v in ps || v == u
    ensures NoRepeats(ps) ==> NoRepeats(r)
    ensures u in ps ==> r == ps
  {
    if u in ps then ps else ps + [u]
  }

  // ---------------------------------------------------------------------------
  // matching

  /**
   * The test a waiting chat must pass before it is joined: one participant,
   * not me, a non-empty id, and online (listed in presence).
   */
  predicate IsJoinCandidate(c: Chat, me: UserId, presence: set<UserId>)
  {
    var other := FirstOther(c.participants, me);
    |c.participants| == 1 && me !in c.participants && other.Some? && other.value != "" && other.value in presence
  }

  /** A candidate is exactly a room holding one other user who is online. */
  lemma JoinCandidateMeans(c: Chat, me: UserId, presence: set<UserId>)
    ensures IsJoinCandidate(c, me, presence) <==>
      exists u :: c.participants == [u] && u != me && u != "" && u in presence
  {
    if IsJoinCandidate(c, me, presence) {
      var u := c.participants[0];
      assert c.participants == [u];
    }
  }

  predicate IsWaitingCandidate(db: Db, id: ChatId, me: UserId)
  {
    id in db.chats && db.chats[id].status == Waiting && IsJoinCandidate(db.chats[id], me, db.presence)
  }

  predicate IsQueuedPartner(db: Db, u: UserId, me: UserId)
  {
    u != me && u in db.queue && db.queue[u].waiting
  }

  /** The first chat, in the listing order `order`, that passes the candidate test. */
  function FirstWaitingChat(db: Db, order: seq<ChatId>, me: UserId): (found: Option<ChatId>)
    ensures found.Some? ==> IsWaitingCandidate(db, found.value, me)
    ensures found.Some? ==> exists k :: 0 <= k < |order| && order[k] == found.value
                                        && forall i :: 0 <= i < k ==> !IsWaitingCandidate(db, order[i], me)
    ensures found.None? <==> forall i :: 0 <= i < |order| ==> !IsWaitingCandidate(db, order[i], me)
  {
    if |order| == 0 then None
    else if IsWaitingCandidate(db, order[0], me) then Some(order[0])
    else
      var rest := FirstWaitingChat(db, order[1..], me);
      assert forall i :: 1 <= i < |order| ==> order[i] == order[1..][i - 1];
      rest
  }

  /** The first user, in the listing order `order`, other than me whose queue entry says `waiting`. */
  function FirstQueuedPartner(db: Db, order: seq<UserId>, me: UserId): (found: Option<UserId>)
    ensures found.Some? ==> IsQueuedPartner(db, found.value, me)
    ensures found.Some? ==> exists k :: 0 <= k < |order| && order[k] == found.value
                                        && forall i :: 0 <= i < k ==> !IsQueuedPartner(db, order[i], me)
    ensures found.None? <==> forall i :: 0 <= i < |order| ==> !IsQueuedPartner(db, order[i], me)
  {
    if |order| == 0 then None
    else if IsQueuedPartner(db, order[0], me) then Some(order[0])
    else
      var rest := FirstQueuedPartner(db, order[1..], me);
      assert forall i :: 1 <= i < |order| ==> order[i] == order[1..][i - 1];
      rest
  }

  /** The scan over the waiting chats, in the listing order `order`. */
  method FindWaitingChat(db: Db, order: seq<ChatId>, me: UserId) returns (found: Option<ChatId>)
    ensures found == FirstWaitingChat(db, order, me)
  {
    var k := 0;
    while k < |order|
      invariant 0 <= k <= |order|
      invariant FirstWaitingChat(db, order[k..], me) == FirstWaitingChat(db, order, me)
    {
      if IsWaitingCandidate(db, order[k], me) {
        return Some(order[k]);
      }
      assert order[k..][1..] == order[k + 1..];
      k := k + 1;
    }
    return None;
  }

  /** The scan over the queue, in the listing order `order`. */
  method FindQueuedPartner(db: Db, order: seq<UserId>, me: UserId) returns (found: Option<UserId>)
    ensures found == FirstQueuedPartner(db, order, me)
  {
    var k := 0;
    while k < |order|
      invariant 0 <= k <= |order|
      invariant FirstQueuedPartner(db, order[k..], me) == FirstQueuedPartner(db, order, me)
    {
      if IsQueuedPartner(db, order[k], me) {
        return Some(order[k]);
      }
      assert order[k..][1..] == order[k + 1..];
      k := k + 1;
    }
    return None;
  }

  // ---------------------------------------------------------------------------
  // writes

  /** `createChat`'s write: a new room holding only me, waiting, with one participant. */
  function OpenWaitingChat(db: Db, id: ChatId, me: UserId, now: int): (r: Db)
    requires id !in db.chats
    ensures id in r.chats && r.chats[id].participants == [me] && r.chats[id].status == Waiting
    ensures r.chats[id].participantCount == 1
    ensures forall k :: k != id ==> (k in r.chats <==> k in db.chats) && (k in db.chats ==> r.chats[k] == db.chats[k])
    ensures r.queue == db.queue && r.presence == db.presence
    ensures ChatsWith(r, me) == ChatsWith(db, me) + {id}
    ensures WellFormed(db) ==> WellFormed(r)
  {
    db.(chats := db.chats[id := Chat([me], Waiting, 1, now, now, None, {}, {}, [])])
  }

  /**
   * `createNewChatWithUser`'s single multi-location update: a new active room
   * holding exactly me and the other user, and neither of us left in the queue.
   */
  function PairChat(db: Db, id: ChatId, me: UserId, other: UserId, now: int): (r: Db)
    requires id !in db.chats
    ensures id in r.chats && (forall u :: u in r.chats[id].participants <==> u == me || u == other)
    ensures other != me ==> r.chats[id].participants == [me, other]
    ensures r.chats[id].status == Active && r.chats[id].participantCount == 2 && r.chats[id].creator == Some(me)
    ensures r.queue == db.queue - {me, other}
    ensures forall k :: k != id ==> (k in r.chats <==> k in db.chats) && (k in db.chats ==> r.chats[k] == db.chats[k])
    ensures r.presence == db.presence
    ensures ChatsWith(r, me) == ChatsWith(db, me) + {id}
    ensures WellFormed(db) ==> WellFormed(r)
  {
    var chat := Chat(AddMember([me], other), Active, 2, now, now, Some(me), {}, {}, []);
    Db(db.queue - {me, other}, db.chats[id := chat], db.presence)
  }

  /**
   * `joinExistingChat`'s writes: me added to the room, which becomes active
   * with a count of two; me and the first other participant marked
   * connected; my queue entry removed.
   */
  function JoinExisting(db: Db, id: ChatId, me: UserId, now: int): (r: Db)
    requires id in db.chats
    ensures id in r.chats
    ensures forall u :: u in r.chats[id].participants <==> u in db.chats[id].participants || u == me
    ensures r.chats[id].status == Active && r.chats[id].participantCount == 2 && r.chats[id].lastActivity == now
    ensures r.chats[id].messages == db.chats[id].messages
    ensures me in r.chats[id].connected
    ensures r.queue == db.queue - {me}
    ensures forall k :: k != id ==> (k in r.chats <==> k in db.chats) && (k in db.chats ==> r.chats[k] == db.chats[k])
    ensures r.presence == db.presence
    ensures ChatsWith(r, me) == ChatsWith(db, me) + {id}
    ensures WellFormed(db) ==> WellFormed(r)
  {
    var c := db.chats[id];
    var other := FirstOther(c.participants, me);
    var marked := if other.Some? && other.value != "" then {me, other.value} else {me};
    var c' := c.(participants := AddMember(c.participants, me), status := Active, participantCount := 2,
                 lastActivity := now, connected := c.connected + marked);
    Db(db.queue - {me}, db.chats[id := c'], db.presence)
  }

  /**
   * `joinChat`'s write `participants/<me>: true`. On a room that is gone it
   * creates a bare node holding only that entry.
   */
  function AddParticipant(db: Db, id: ChatId, me: UserId): (r: Db)
    ensures id in r.chats && me in r.chats[id].participants
    ensures id in db.chats ==> r.chats[id] == db.chats[id].(participants := AddMember(db.chats[id].participants, me))
    ensures forall k :: k != id ==> (k in r.chats <==> k in db.chats) && (k in db.chats ==> r.chats[k] == db.chats[k])
    ensures r.queue == db.queue && r.presence == db.presence
    ensures ChatsWith(r, me) == ChatsWith(db, me) + {id}
    ensures WellFormed(db) ==> WellFormed(r)
  {
    var c := if id in db.chats then db.chats[id] else Chat([], Unset, 0, 0, 0, None, {}, {}, []);
    db.(chats := db.chats[id := c.(participants := AddMember(c.participants, me))])
  }

  /** Joining a room I am already in writes nothing new. */
  lemma RejoinChangesNothing(db: Db, id: ChatId, me: UserId)
    requires id in db.chats && me in db.chats[id].participants
    ensures AddParticipant(db, id, me) == db
  {
    assert db.chats[id := db.chats[id]] == db.chats;
  }

  /** Leaving a room others are still in: my participant and typing entries go, nothing else. */
  function LeaveChat(db: Db, id: ChatId, me: UserId): (r: Db)
    requires id in db.chats
    ensures id in r.chats
    ensures r.chats[id].participants == Others(db.chats[id].participants, me)
    ensures r.chats[id].typing == db.chats[id].typing - {me}
    ensures r.chats[id] == db.chats[id].(participants := r.chats[id].participants, typing := r.chats[id].typing)
    ensures forall k :: k != id ==> (k in r.chats <==> k in db.chats) && (k in db.chats ==> r.chats[k] == db.chats[k])
    ensures r.queue == db.queue && r.presence == db.presence
    ensures ChatsWith(r, me) == ChatsWith(db, me) - {id}
    ensures WellFormed(db) ==> WellFormed(r)
  {
    var c := db.chats[id];
    db.(chats := db.chats[id := c.(participants := Others(c.participants, me), typing := c.typing - {me})])
  }

  function DeleteChat(db: Db, id: ChatId): (r: Db)
    ensures r.chats == db.chats - {id}
    ensures r.queue == db.queue && r.presence == db.presence
    ensures forall u :: ChatsWith(r, u) == ChatsWith(db, u) - {id}
    ensures WellFormed(db) ==> WellFormed(r)
  {
    db.(chats := db.chats - {id})
  }

  function Enqueue(db: Db, me: UserId, now: int): (r: Db)
    ensures r.queue == db.queue[me := QueueEntry(true, now)]
    ensures r.chats == db.chats && r.presence == db.presence
  {
    db.(queue := db.queue[me := QueueEntry(true, now)])
  }

  function Dequeue(db: Db, me: UserId): (r: Db)
    ensures r.queue == db.queue - {me}
    ensures r.chats == db.chats && r.presence == db.presence
  {
    db.(queue := db.queue - {me})
  }

  // ---------------------------------------------------------------------------
  // what a participant listener sees

  datatype ParticipantView =
    | Ended                        // no participants: the room is gone or empty
    | Pair(stranger: UserId)       // two participants, one of them a stranger
    | OnlyMe                       // one participant, and it is me
    | Invalid                      // anything else

  /** The branch the `participants` listener takes. */
  function Classify(ps: seq<UserId>, me: UserId): (v: ParticipantView)
    ensures v == Ended <==> |ps| == 0
    ensures v.Pair? ==> v.stranger in ps && v.stranger != me && |ps| == 2
    ensures v == OnlyMe <==> ps == [me]
  {
    var strangers := Others(ps, me);
    if |ps| == 0 then Ended
    else if |ps| == 2 && |strangers| == 1 then Pair(strangers[0])
    else if |ps| == 1 && me in ps then OnlyMe
    else Invalid
  }

  /** With each participant listed once, a pair view means exactly me and one stranger. */
  lemma PairMeansMeAndStranger(ps: seq<UserId>, me: UserId, s: UserId)
    requires NoRepeats(ps)
    ensures Classify(ps, me) == Pair(s) <==> s != me && (ps == [me, s] || ps == [s, me])
  {
    if Classify(ps, me) == Pair(s) {
      assert s in Others(ps, me);
      if ps[0] == s {
        assert ps[1] != s;
      } else {
        assert ps[1] == s by {
          assert s in ps;
        }
      }
    }
    if s != me && ps == [me, s] {
      assert Others(ps, me) == [s] by {
        assert ps[1..] == [s];
        assert Others([s], me) == [s];
      }
    }
    if s != me && ps == [s, me] {
      assert Others(ps, me) == [s] by {
        assert ps[1..] == [me];
        assert Others([me], me) == [];
      }
    }
  }

  // ---------------------------------------------------------------------------
  // reaping

  const MinuteMs: int := 60000

  /** `chatData.lastActivity || chatData.createdAt || 0`. */
  function ActivityTime(c: Chat): (t: int)
    ensures t == c.lastActivity || t == c.createdAt || t == 0
    ensures c.lastActivity != 0 ==> t == c.lastActivity
  {
    if c.lastActivity != 0 then c.lastActivity
    else if c.createdAt != 0 then c.createdAt
    else 0
  }

  /** The page's own reaper (`cleanupAbandonedChats`): a room of mine, empty, alone for 20 minutes, or idle for 45. */
  predicate AbandonedForMe(c: Chat, me: UserId, now: int)
  {
    var t := ActivityTime(c);
    me in c.participants
    && (|c.participants| == 0 || (|c.participants| == 1 && t < now - 20 * MinuteMs) || t < now - 45 * MinuteMs)
  }

  /** The background reaper: any room empty, alone for 15 minutes, or idle for 30. */
  predicate AbandonedInBackground(c: Chat, now: int)
  {
    var t := ActivityTime(c);
    |c.participants| == 0 || (|c.participants| == 1 && t < now - 15 * MinuteMs) || t < now - 30 * MinuteMs
  }

  /** An empty room is always reaped by the background job. */
  lemma EmptyChatReaped(c: Chat, now: int)
    requires |c.participants| == 0
    ensures AbandonedInBackground(c, now)
  {
  }

  /** Once reapable, a room stays reapable as time passes. */
  lemma ReapingIsMonotonic(c: Chat, me: UserId, now: int, later: int)
    requires now <= later
    ensures AbandonedInBackground(c, now) ==> AbandonedInBackground(c, later)
    ensures AbandonedForMe(c, me, now) ==> AbandonedForMe(c, me, later)
  {
  }

  /**
   * The page's reaper is stricter than the background job: whatever it
   * deletes, the background job would too. Its empty-room case can never
   * fire, since it only looks at rooms that list me.
   */
  lemma ReapersAgree(c: Chat, me: UserId, now: int)
    ensures AbandonedForMe(c, me, now) ==> AbandonedInBackground(c, now)
    ensures AbandonedForMe(c, me, now) ==> |c.participants| >= 1
  {
  }

  /** `chatRef.remove()` for every room the predicate selects, judged on the store as read before the loop. */
  method RemoveChatsWhere(db: Db, doomed: (ChatId, Chat) -> bool) returns (r: Db)
    ensures r.queue == db.queue && r.presence == db.presence
    ensures forall id :: id in r.chats <==> id in db.chats && !doomed(id, db.chats[id])
    ensures forall id :: id in r.chats ==> r.chats[id] == db.chats[id]
    ensures WellFormed(db) ==> WellFormed(r)
  {
    var pending := db.chats.Keys;
    var chats := db.chats;
    while pending != {}
      invariant pending <= db.chats.Keys
      invariant forall id :: id in chats <==> id in db.chats && (id in pending || !doomed(id, db.chats[id]))
      invariant forall id :: id in chats ==> chats[id] == db.chats[id]
      decreases |pending|
    {
      var id :| id in pending;
      if doomed(id, db.chats[id]) {
        chats := chats - {id};
      }
      pending := pending - {id};
    }
    r := db.(chats := chats);
  }

  /** `setupBackgroundCleanup`'s periodic pass. */
  method BackgroundCleanup(db: Db, now: int) returns (r: Db)
    ensures forall id :: id in r.chats <==> id in db.chats && !AbandonedInBackground(db.chats[id], now)
    ensures forall id :: id in r.chats ==> r.chats[id] == db.chats[id]
    ensures r.queue == db.queue && r.presence == db.presence
  {
    r := RemoveChatsWhere(db, (id, c) => AbandonedInBackground(c, now));
  }
}
