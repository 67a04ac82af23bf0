/**
  Marking a conversation as read: every unread message that `otherId` sent to
  `userId` gets `read = true`; nothing else changes.
 */
module MarkRead {
  import opened Messages
  import ChatSummary

  /** The update filter: a message from `otherId` to `userId` that is still unread. */
  predicate Unread(m: Message, userId: UserId, otherId: UserId) {
    m.receiverId == userId && m.senderId == otherId && !m.read
  }

  /** The `$set: { read: true }` update applied to one message when the filter selects it. */
  function MarkOne(m: Message, userId: UserId, otherId: UserId): (r: Message)
    ensures r.read == (m.read || (m.receiverId == userId && m.senderId == otherId))
    ensures r == m.(read := r.read)
  {
    if Unread(m, userId, otherId) then m.(read := true) else m
  }

  /** The store after the update, message by message. */
  function MarkedRead(ms: seq<Message>, userId: UserId, otherId: UserId): (r: seq<Message>)
    ensures |r| == |ms|
    decreases |ms|
  {
    if ms == [] then []
    else MarkedRead(ms[..|ms| - 1], userId, otherId) + [MarkOne(ms[|ms| - 1], userId, otherId)]
  }

  /**
    The update keeps the store's length and order and changes each message only by
    `MarkOne`: the read flag becomes true exactly on the messages from `otherId` to
    `userId`, stays as it was on all others, and no other field changes.
   */
  lemma {:induction false} MarkedReadAt(ms: seq<Message>, userId: UserId, otherId: UserId)
    ensures |MarkedRead(ms, userId, otherId)| == |ms|
    ensures forall i :: 0 <= i < |ms| ==> MarkedRead(ms, userId, otherId)[i] == MarkOne(ms[i], userId, otherId)
    decreases |ms|
  {
    if ms != [] {
      MarkedReadAt(ms[..|ms| - 1], userId, otherId);
    }
  }

  /** Messages the filter does not select are left exactly as they were. */
  lemma UnselectedUnchanged(ms: seq<Message>, userId: UserId, otherId: UserId, i: nat)
    requires i < |ms|
    requires !Unread(ms[i], userId, otherId)
    ensures i < |MarkedRead(ms, userId, otherId)| && MarkedRead(ms, userId, otherId)[i] == ms[i]
  {
    MarkedReadAt(ms, userId, otherId);
  }

  /** After the update no message matches the filter any more. */
  lemma {:induction false} NoneLeftUnread(ms: seq<Message>, userId: UserId, otherId: UserId)
    ensures forall m :: m in MarkedRead(ms, userId, otherId) ==> !Unread(m, userId, otherId)
  {
    MarkedReadAt(ms, userId, otherId);
    var r := MarkedRead(ms, userId, otherId);
    forall m | m in r ensures !Unread(m, userId, otherId) {
      var i :| 0 <= i < |r| && r[i] == m;
    }
  }

  /** Marking twice leaves the same store as marking once. */
  lemma {:induction false} Idempotent(ms: seq<Message>, userId: UserId, otherId: UserId)
    ensures MarkedRead(MarkedRead(ms, userId, otherId), userId, otherId) == MarkedRead(ms, userId, otherId)
  {
    var r := MarkedRead(ms, userId, otherId);
    MarkedReadAt(ms, userId, otherId);
    MarkedReadAt(r, userId, otherId);
    var rr := MarkedRead(r, userId, otherId);
    assert forall i :: 0 <= i < |rr| ==> rr[i] == r[i];
  }

  /** Marking messages read changes nobody's chat list in who it lists. */
  lemma KeepsChatCounterparts(ms: seq<Message>, userId: UserId, otherId: UserId, v: UserId)
    ensures ChatSummary.Chats(MarkedRead(ms, userId, otherId), v).Keys == ChatSummary.Chats(ms, v).Keys
  {
    var r := MarkedRead(ms, userId, otherId);
    MarkedReadAt(ms, userId, otherId);
    ChatSummary.PartnersKeptByPartyPreservingUpdate(ms, r, v);
    ChatSummary.ChatsKeys(ms, v);
    ChatSummary.ChatsKeys(r, v);
  }
}
