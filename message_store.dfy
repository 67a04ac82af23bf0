/**
  The message collection and the three endpoints that use it: sending a message,
  listing a user's chats and marking a conversation as read.
 */
module Store {
  import opened Messages
  import Delivery
  import ChatSummary
  import MarkRead

  /** The message collection, in insertion order. */
  class MessageStore {
    var messages: seq<Message>

    constructor ()
      ensures messages == []
    {
      messages := [];
    }

    /**
      Sending: builds the record from the request (the timestamp is the time `now`
      the record is created, `read` is false, an attachment is recorded only when a
      file was uploaded under its field), saves it after every earlier message, and
      returns it with the rooms it is emitted to.
     */
    method Send(senderId: UserId, receiverId: UserId, text: string,
                imageFiles: seq<string>, videoFiles: seq<string>, now: int)
      returns (m: Message, rooms: seq<UserId>)
      modifies this
      ensures m.senderId == senderId && m.receiverId == receiverId && m.text == text
      ensures m.image == StoredFileName(imageFiles) && m.video == StoredFileName(videoFiles)
      ensures m.timestamp == now && !m.read
      ensures messages == old(messages) + [m]
      ensures rooms == Delivery.Rooms(m)
    {
      m := Message(senderId, receiverId, text, StoredFileName(imageFiles), StoredFileName(videoFiles), now, false);
      messages := messages + [m];
      rooms := Delivery.Rooms(m);
    }

    /** The chat list of `userId` over the current collection. */
    method ChatList(userId: UserId) returns (chats: map<UserId, Message>)
      ensures chats == ChatSummary.Chats(messages, userId)
      ensures chats.Keys == ChatSummary.Partners(messages, userId)
    {
      chats := ChatSummary.Chats(messages, userId);
      ChatSummary.ChatsKeys(messages, userId);
    }

    /**
      Marking as read: sets `read` on every unread message `otherId` sent to `userId`,
      one message at a time, leaving every other message and field as it was.
     */
    method MarkAsRead(userId: UserId, otherId: UserId)
      modifies this
      ensures messages == MarkRead.MarkedRead(old(messages), userId, otherId)
    {
      ghost var before := messages;
      var i := 0;
      while i < |messages|
        invariant 0 <= i <= |messages| == |before|
        invariant messages[..i] == MarkRead.MarkedRead(before[..i], userId, otherId)
        invariant messages[i..] == before[i..]
      {
        assert messages[i] == before[i];
        if MarkRead.Unread(messages[i], userId, otherId) {
          messages := messages[i := messages[i].(read := true)];
        }
        assert before[..i + 1][..i] == before[..i];
        assert messages[..i + 1] == messages[..i] + [messages[i]];
        i := i + 1;
      }
      assert before[..i] == before;
      assert messages[..i] == messages;
    }
  }

  /**
    A sent message shows up in the chat list of each room it is emitted to: both
    parties get an entry for the other that is at least as new as the message.
   */
  lemma SentMessageListedForBothRooms(ms: seq<Message>, m: Message, u: UserId)
    requires u in Delivery.Rooms(m)
    ensures Counterpart(m, u) in ChatSummary.Chats(ms + [m], u)
    ensures ChatSummary.Chats(ms + [m], u)[Counterpart(m, u)].timestamp >= m.timestamp
  {
    assert m in ms + [m];
    ChatSummary.ChatsCorrect(ms + [m], u);
  }
}
