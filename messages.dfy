/**
  The message document of the chat server (`MessageSchema`) and the facts about a
  single message that the send, chat-list and mark-as-read endpoints share.
 */
module Messages {

  /** An optional value; `None` stands for a field stored as null. */
  datatype Option<+T> = None | Some(value: T)

  /** User ids are opaque strings; each one is also the name of that user's socket room. */
  type UserId = string

  /**
    A stored message. `image` and `video` hold the stored file name of an upload,
    `timestamp` is the creation time in milliseconds, `read` starts out false.
   */
  datatype Message = Message(
    senderId: UserId,
    receiverId: UserId,
    text: string,
    image: Option<string>,
    video: Option<string>,
    timestamp: int,
    read: bool)

  /** `u` took part in `m`, as sender or as receiver. */
  predicate Participates(m: Message, u: UserId) {
    m.senderId == u || m.receiverId == u
  }

  /**
    The other party of `m` as seen by `u`: the receiver when `u` sent it, the sender
    otherwise. For a participant the message is exchanged between `u` and the
    counterpart.
   */
  function Counterpart(m: Message, u: UserId): (k: UserId)
    ensures Participates(m, u) ==>
      (m.senderId == u && m.receiverId == k) || (m.receiverId == u && m.senderId == k)
    ensures Participates(m, u) ==> Participates(m, k)
  {
    if m.senderId == u then m.receiverId else m.senderId
  }

  /** Both parties of a message see each other as its counterpart. */
  lemma CounterpartSymmetric(m: Message, u: UserId)
    requires Participates(m, u)
    ensures Counterpart(m, Counterpart(m, u)) == u
  {
  }

  /**
    The file name recorded for one upload field: absent when nothing was uploaded
    under that field, otherwise the name given to its first (and only) file.
   */
  function StoredFileName(files: seq<string>): (name: Option<string>)
    ensures name.None? <==> files == []
    ensures name.Some? ==> name.value == files[0] && name.value in files
  {
    if files == [] then None else Some(files[0])
  }
}
