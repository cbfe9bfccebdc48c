/**
 * The page's matchmaking client. Its own fields are the room it is in, the
 * reference its listeners hang on, whether it holds a queue entry, its
 * partner, and the page-wide `strangerId` shown in the header. Each
 * operation takes the store as it finds it and returns the store as it
 * leaves it; fresh push keys and server times are parameters.
 */
module ChatClient {
  import opened Wrappers
  import opened ChatStore

  /** What a participant listener event did. */
  datatype ParticipantOutcome =
    | ChatEnded                                // no participants: local state reset
    | Connected(previous: Option<UserId>)      // a new stranger; `previous` is the stranger before, whose old rooms get cleaned up when it is set and non-empty
    | StillConnected                           // the same stranger as before
    | PartnerLeft                              // I am alone after having had a partner
    | StillWaiting                             // I am alone and never had a partner
    | BackToIdle                               // an invalid participant list: local state reset

  /** The listener's `chatRef.update({status: 'active', participantCount: 2, lastActivity})`; on a room that is gone it creates a bare node. */
  function MarkActive(db: Db, id: ChatId, now: int): (r: Db)
    ensures id in r.chats && r.chats[id].status == Active && r.chats[id].participantCount == 2
    ensures id in db.chats ==> r.chats[id].participants == db.chats[id].participants
    ensures forall k :: k != id ==> (k in r.chats <==> k in db.chats) && (k in db.chats ==> r.chats[k] == db.chats[k])
    ensures r.queue == db.queue && r.presence == db.presence
  {
    var c := if id in db.chats then db.chats[id] else Chat([], Unset, 0, 0, 0, None, {}, {}, []);
    db.(chats := db.chats[id := c.(status := Active, participantCount := 2, lastActivity := now)])
  }

  lemma GrowsByTwo<T>(a: set<T>, b: set<T>, c: set<T>, x: T, y: T)
    requires b == a + {x} && c == b + {y}
    ensures c == a + {x, y}
  {
  }

  class FirebaseChat {
    /** `myId`. */
    const me: UserId
    var currentChatId: Option<ChatId>
    /** The room `chatRef` points at. */
    var chatRef: Option<ChatId>
    /** `this.waitingQueue` is set: this page wrote a queue entry. */
    var inQueue: bool
    var currentPartner: Option<UserId>
    /** The page-wide `strangerId`. */
    var strangerId: Option<UserId>

    /** The listeners hang on the current room. */
    predicate Valid()
      reads this
    {
      chatRef == currentChatId
    }

    constructor (me: UserId)
      ensures this.me == me && Valid()
      ensures currentChatId.None? && !inQueue && currentPartner.None? && strangerId.None?
    {
      this.me := me;
      currentChatId := None;
      chatRef := None;
      inQueue := false;
      currentPartner := None;
      strangerId := None;
    }

    /** `cleanupLocalState`: forget the room, the partner and the stranger. The queue handle is kept. */
    method CleanupLocalState()
      modifies this
      ensures Valid() && currentChatId.None? && currentPartner.None? && strangerId.None?
      ensures inQueue == old(inQueue)
    {
      chatRef := None;
      currentChatId := None;
      currentPartner := None;
      strangerId := None;
    }

    /** `joinChat`: point the listeners at the room and write me into its participants. */
    method JoinChat(db: Db, id: ChatId) returns (r: Db)
      modifies this
      ensures Valid() && currentChatId == Some(id)
      ensures r == AddParticipant(db, id, me)
      ensures inQueue == old(inQueue) && currentPartner == old(currentPartner) && strangerId == old(strangerId)
    {
      currentChatId := Some(id);
      chatRef := Some(id);
      r := AddParticipant(db, id, me);
    }

    /** `createChat`: a fresh waiting room holding only me, which I then join. */
    method CreateChat(db: Db, id: ChatId, now: int) returns (r: Db, created: ChatId)
      requires id !in db.chats
      modifies this
      ensures created == id && Valid() && currentChatId == Some(id)
      ensures r == OpenWaitingChat(db, id, me, now)
      ensures ChatsWith(r, me) == ChatsWith(db, me) + {id}
      ensures inQueue == old(inQueue) && currentPartner == old(currentPartner) && strangerId == old(strangerId)
    {
      var room := OpenWaitingChat(db, id, me, now);
      r := JoinChat(room, id);
      assert r.chats == room.chats;
      created := id;
    }

    /**
     * `createNewChatWithUser`: if the other user still has a queue entry, one
     * update creates the room for the two of us and removes both queue
     * entries; then I join it.
     */
    method CreateNewChatWithUser(db: Db, other: UserId, id: ChatId, now: int) returns (r: Db, result: Option<ChatId>)
      requires id !in db.chats
      modifies this
      ensures other !in db.queue ==>
        result.None? && r == db
        && currentChatId == old(currentChatId) && chatRef == old(chatRef) && inQueue == old(inQueue)
        && currentPartner == old(currentPartner)
      ensures other in db.queue ==>
        result == Some(id) && r == PairChat(db, id, me, other, now)
        && Valid() && currentChatId == Some(id) && !inQueue && currentPartner == Some(other)
      ensures strangerId == old(strangerId)
    {
      if other !in db.queue {
        return db, None;
      }
      var paired := PairChat(db, id, me, other, now);
      inQueue := false;
      currentPartner := Some(other);
      r := JoinChat(paired, id);
      assert r.chats == paired.chats;
      result := Some(id);
    }

    /** `findOrCreateChatWithUser`: nothing while already in a room. */
    method FindOrCreateChatWithUser(db: Db, other: UserId, id: ChatId, now: int) returns (r: Db, result: Option<ChatId>)
      requires id !in db.chats
      modifies this
      ensures old(currentChatId).Some? || other !in db.queue ==>
        result.None? && r == db
        && currentChatId == old(currentChatId) && chatRef == old(chatRef) && inQueue == old(inQueue)
        && currentPartner == old(currentPartner)
      ensures old(currentChatId).None? && other in db.queue ==>
        result == Some(id) && r == PairChat(db, id, me, other, now)
        && Valid() && currentChatId == Some(id) && !inQueue && currentPartner == Some(other)
      ensures strangerId == old(strangerId)
    {
      if currentChatId.Some? {
        return db, None;
      }
      r, result := CreateNewChatWithUser(db, other, id, now);
    }

    /**
     * `joinExistingChat`: if the room still exists, add me to it, mark it
     * active with two participants, take the first other participant as my
     * partner, drop my queue entry and join the room.
     */
    method JoinExistingChat(db: Db, id: ChatId, now: int) returns (r: Db)
      modifies this
      ensures id !in db.chats ==>
        r == db && currentChatId == old(currentChatId) && chatRef == old(chatRef)
        && inQueue == old(inQueue) && currentPartner == old(currentPartner)
      ensures id in db.chats ==> r == JoinExisting(db, id, me, now) && Valid() && currentChatId == Some(id) && !inQueue
      ensures id in db.chats ==>
        var other := FirstOther(db.chats[id].participants, me);
        currentPartner == if other.Some? && other.value != "" then other else old(currentPartner)
      ensures strangerId == old(strangerId)
    {
      if id !in db.chats {
        return db;
      }
      var other := FirstOther(db.chats[id].participants, me);
      if other.Some? && other.value != "" {
        currentPartner := other;
      }
      var joined := JoinExisting(db, id, me, now);
      inQueue := false;
      RejoinChangesNothing(joined, id, me);
      r := JoinChat(joined, id);
    }

    /**
     * `joinWaitingQueue`: pair with the first other user waiting in the queue
     * (listed in `order`) and stop there, whether or not the pairing
     * happened; with nobody waiting, write my own queue entry.
     */
    method JoinWaitingQueue(db: Db, order: seq<UserId>, pairId: ChatId, now: int) returns (r: Db)
      requires pairId !in db.chats
      modifies this
      ensures (forall i :: 0 <= i < |order| ==> !IsQueuedPartner(db, order[i], me)) ==>
        r == Enqueue(db, me, now) && inQueue
        && currentChatId == old(currentChatId) && chatRef == old(chatRef) && currentPartner == old(currentPartner)
      ensures (exists i :: 0 <= i < |order| && IsQueuedPartner(db, order[i], me)) && old(currentChatId).None? ==>
        Valid() && currentChatId == Some(pairId) && !inQueue && currentPartner.Some?
        && ChatsWith(r, me) == ChatsWith(db, me) + {pairId}
        && pairId in r.chats && r.chats[pairId].status == Active
        && (forall k :: k != pairId ==> (k in r.chats <==> k in db.chats) && (k in db.chats ==> r.chats[k] == db.chats[k]))
        && r.presence == db.presence
      ensures (exists i :: 0 <= i < |order| && IsQueuedPartner(db, order[i], me)) && old(currentChatId).None? ==>
        var partner := FirstQueuedPartner(db, order, me);
        && partner.Some? && currentPartner == partner
        && r == PairChat(db, pairId, me, partner.value, now)
        && r.queue == db.queue - {me, partner.value}
      ensures (exists i :: 0 <= i < |order| && IsQueuedPartner(db, order[i], me)) && old(currentChatId).Some? ==>
        r == db && currentChatId == old(currentChatId) && chatRef == old(chatRef) && inQueue == old(inQueue)
      ensures strangerId == old(strangerId)
    {
      var partner := FindQueuedPartner(db, order, me);
      if partner.Some? {
        var result;
        r, result := FindOrCreateChatWithUser(db, partner.value, pairId, now);
        return;
      }
      r := Enqueue(db, me, now);
      inQueue := true;
    }

    /**
     * `findChat` as written: after the queue step it goes on to the waiting
     * rooms even when the queue step has already put me in a room, so I end
     * up in two new rooms and the first partner is left alone.
     */
    method FindChatAsWritten(db: Db, queueOrder: seq<UserId>, chatOrder: seq<ChatId>,
                             pairId: ChatId, roomId: ChatId, now: int) returns (r: Db, chatId: ChatId)
      requires pairId !in db.chats && roomId !in db.chats && pairId != roomId
      modifies this
      ensures old(currentChatId).None? && (exists i :: 0 <= i < |queueOrder| && IsQueuedPartner(db, queueOrder[i], me)) ==>
        chatId != pairId && ChatsWith(r, me) == ChatsWith(db, me) + {pairId, chatId}
        && currentChatId == Some(chatId)
    {
      ghost var matched := old(currentChatId).None? && exists i :: 0 <= i < |queueOrder| && IsQueuedPartner(db, queueOrder[i], me);
      var afterQueue := JoinWaitingQueue(db, queueOrder, pairId, now);
      ghost var paired := pairId in afterQueue.chats && afterQueue.chats[pairId].status == Active
        && ChatsWith(afterQueue, me) == ChatsWith(db, me) + {pairId};
      assert matched ==> paired;
      var candidate := FindWaitingChat(afterQueue, chatOrder, me);
      if candidate.Some? {
        assert paired ==> candidate.value != pairId;
        r := JoinExistingChat(afterQueue, candidate.value, now);
        chatId := candidate.value;
      } else {
        r, chatId := CreateChat(afterQueue, roomId, now);
      }
      if paired {
        GrowsByTwo(ChatsWith(db, me), ChatsWith(afterQueue, me), ChatsWith(r, me), pairId, chatId);
      }
    }

    /**
     * `findChat` with the evident intent: once the queue step has put me in a
     * room, that room is the result. Starting outside any room I end up in
     * exactly one new room: the one paired from the queue, else the first
     * joinable waiting room, else a fresh waiting room of my own.
     */
    method FindChat(db: Db, queueOrder: seq<UserId>, chatOrder: seq<ChatId>,
                    pairId: ChatId, roomId: ChatId, now: int) returns (r: Db, chatId: ChatId)
      requires pairId !in db.chats && roomId !in db.chats && pairId != roomId
      modifies this
      ensures old(currentChatId).None? ==> ChatsWith(r, me) == ChatsWith(db, me) + {chatId} && currentChatId == Some(chatId) && Valid()
      ensures old(currentChatId).None? && (exists i :: 0 <= i < |queueOrder| && IsQueuedPartner(db, queueOrder[i], me)) ==>
        chatId == pairId
      ensures old(currentChatId).None? && chatId != pairId && chatId != roomId ==>
        IsWaitingCandidate(db, chatId, me)
    {
      var afterQueue := JoinWaitingQueue(db, queueOrder, pairId, now);
      if currentChatId.Some? {
        return afterQueue, currentChatId.value;
      }
      var candidate := FindWaitingChat(afterQueue, chatOrder, me);
      if candidate.Some? {
        r := JoinExistingChat(afterQueue, candidate.value, now);
        chatId := candidate.value;
      } else {
        r, chatId := CreateChat(afterQueue, roomId, now);
      }
    }

    /**
     * One of the delayed re-checks `joinWaitingQueue` schedules: while queued
     * and not in a room, join the first joinable waiting room, or else pair
     * with the first other waiting user.
     */
    method RetryMatch(db: Db, chatOrder: seq<ChatId>, queueOrder: seq<UserId>, pairId: ChatId, now: int)
      returns (r: Db, matched: Option<ChatId>)
      requires pairId !in db.chats
      modifies this
      ensures !old(inQueue) || old(currentChatId).Some? ==> matched.None? && r == db && currentChatId == old(currentChatId)
      ensures matched.Some? ==> ChatsWith(r, me) == ChatsWith(db, me) + {matched.value} && currentChatId == matched
      ensures matched.None? ==> r == db && currentChatId == old(currentChatId)
      ensures (old(inQueue) && old(currentChatId).None?
               && (exists i :: 0 <= i < |queueOrder| && IsQueuedPartner(db, queueOrder[i], me))) ==> matched.Some?
      ensures old(inQueue) && old(currentChatId).None? && FirstWaitingChat(db, chatOrder, me).Some? ==>
        matched == FirstWaitingChat(db, chatOrder, me) && r == JoinExisting(db, matched.value, me, now)
      ensures old(inQueue) && old(currentChatId).None? && FirstWaitingChat(db, chatOrder, me).None? ==>
        var partner := FirstQueuedPartner(db, queueOrder, me);
        && (partner.None? ==> matched.None?)
        && (partner.Some? ==> matched == Some(pairId) && r == PairChat(db, pairId, me, partner.value, now)
                              && currentPartner == partner)
    {
      if !inQueue || currentChatId.Some? {
        return db, None;
      }
      var candidate := FindWaitingChat(db, chatOrder, me);
      if candidate.Some? {
        r := JoinExistingChat(db, candidate.value, now);
        return r, candidate;
      }
      var partner := FindQueuedPartner(db, queueOrder, me);
      if partner.Some? {
        r, matched := FindOrCreateChatWithUser(db, partner.value, pairId, now);
        return;
      }
      return db, None;
    }

    /**
     * The `participants` listener of the current room. With a new stranger it
     * records them and marks the room active; with only me left it forgets a
     * former partner; an empty or invalid list resets local state.
     */
    method OnParticipantsChanged(db: Db, ps: seq<UserId>, now: int) returns (r: Db, outcome: ParticipantOutcome)
      requires chatRef.Some?
      modifies this
      ensures Classify(ps, me) == Ended ==> outcome == ChatEnded
      ensures Classify(ps, me) == Invalid ==> outcome == BackToIdle
      ensures outcome == ChatEnded || outcome == BackToIdle ==>
        r == db && currentChatId.None? && chatRef.None? && strangerId.None? && currentPartner.None?
      ensures Classify(ps, me).Pair? ==>
        var s := Classify(ps, me).stranger;
        strangerId == Some(s)
        && (old(strangerId) == Some(s) ==> outcome == StillConnected && r == db)
        && (old(strangerId) != Some(s) ==> outcome == Connected(old(strangerId)) && r == MarkActive(db, old(chatRef).value, now))
      ensures Classify(ps, me) == OnlyMe ==>
        r == db &&
        (if old(strangerId).Some? && old(strangerId).value != "" then outcome == PartnerLeft && strangerId.None?
         else outcome == StillWaiting && strangerId == old(strangerId))
      ensures outcome != ChatEnded && outcome != BackToIdle ==>
        currentChatId == old(currentChatId) && chatRef == old(chatRef) && currentPartner == old(currentPartner)
      ensures inQueue == old(inQueue)
    {
      match Classify(ps, me) {
        case Ended =>
          CleanupLocalState();
          return db, ChatEnded;
        case Pair(s) =>
          if strangerId == Some(s) {
            return db, StillConnected;
          }
          var previous := strangerId;
          strangerId := Some(s);
          r := MarkActive(db, chatRef.value, now);
          outcome := Connected(previous);
        case OnlyMe =>
          if strangerId.Some? && strangerId.value != "" {
            strangerId := None;
            return db, PartnerLeft;
          }
          return db, StillWaiting;
        case Invalid =>
          CleanupLocalState();
          return db, BackToIdle;
      }
    }

    /**
     * `disconnectChat`. With a room and a readable store: delete the room if
     * it lists at most one participant, otherwise take only me out of it;
     * then drop my queue entry if I hold one. A failed read skips the store
     * writes. Local state is reset in every case.
     */
    method DisconnectChat(db: Db, storeOk: bool) returns (r: Db)
      modifies this
      ensures Valid() && currentChatId.None? && currentPartner.None? && strangerId.None? && inQueue == old(inQueue)
      ensures old(currentChatId).None? || old(chatRef).None? || !storeOk ==> r == db
      ensures old(currentChatId).Some? && old(chatRef).Some? && storeOk ==>
        var id := old(currentChatId).value;
        var afterChat :=
          if id in db.chats && |db.chats[id].participants| > 0 then
            (if |db.chats[id].participants| <= 1 then DeleteChat(db, id) else LeaveChat(db, id, me))
          else db;
        r == if old(inQueue) then Dequeue(afterChat, me) else afterChat
    {
      r := db;
      if currentChatId.Some? && chatRef.Some? && storeOk {
        var id := currentChatId.value;
        if id in r.chats && |r.chats[id].participants| > 0 {
          if |r.chats[id].participants| <= 1 {
            r := DeleteChat(r, id);
          } else {
            r := LeaveChat(r, id, me);
          }
        }
        if inQueue {
          r := Dequeue(r, me);
        }
      }
      CleanupLocalState();
    }

    /** `createChat`'s one-minute timer: a room still mine and still holding one participant is deleted. */
    method OnWaitingRoomTimeout(db: Db, id: ChatId) returns (r: Db, deleted: bool)
      modifies this
      ensures deleted <==> old(currentChatId) == Some(id) && id in db.chats && db.chats[id].participantCount == 1
      ensures deleted ==> r == DeleteChat(db, id) && currentChatId.None? && chatRef.None?
      ensures !deleted ==>
        r == db && currentChatId == old(currentChatId) && chatRef == old(chatRef)
        && strangerId == old(strangerId) && currentPartner == old(currentPartner)
      ensures inQueue == old(inQueue)
    {
      if currentChatId == Some(id) && id in db.chats && db.chats[id].participantCount == 1 {
        r := DeleteChat(db, id);
        CleanupLocalState();
        deleted := true;
      } else {
        r := db;
        deleted := false;
      }
    }

    /** `cleanupAbandonedChats`: delete every room of mine the page's reaper selects. */
    method CleanupAbandonedChats(db: Db, now: int) returns (r: Db)
      ensures forall id :: id in r.chats <==> id in db.chats && !AbandonedForMe(db.chats[id], me, now)
      ensures forall id :: id in r.chats ==> r.chats[id] == db.chats[id]
      ensures r.queue == db.queue && r.presence == db.presence
    {
      var my := me;
      r := RemoveChatsWhere(db, (id: ChatId, c: Chat) => AbandonedForMe(c, my, now));
    }

    /** The cleanup scheduled on meeting a new stranger: delete my other rooms with the previous one. */
    method CleanupChatsWith(db: Db, previous: UserId) returns (r: Db)
      ensures forall id :: id in r.chats <==>
        (id in db.chats && !(previous in db.chats[id].participants && me in db.chats[id].participants && Some(id) != currentChatId))
      ensures forall id :: id in r.chats ==> r.chats[id] == db.chats[id]
      ensures currentChatId.Some? && currentChatId.value in db.chats ==> currentChatId.value in r.chats
      ensures r.queue == db.queue && r.presence == db.presence
    {
      var my, current := me, currentChatId;
      r := RemoveChatsWhere(db, (id: ChatId, c: Chat) => previous in c.participants && my in c.participants && Some(id) != current);
    }
  }
}
