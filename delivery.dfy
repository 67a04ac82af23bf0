/** The rooms a newly sent message is emitted to. */
module Delivery {
  import opened Messages

  /**
    The socket rooms a new message is emitted to, in emission order: the receiver's
    room first, then the sender's. A user is a target exactly when they take part in
    the message.
   */
  function Rooms(m: Message): (rooms: seq<UserId>)
    ensures |rooms| == 2 && rooms[0] == m.receiverId && rooms[1] == m.senderId
    ensures forall u :: u in rooms <==> Participates(m, u)
  {
    [m.receiverId, m.senderId]
  }

  /** A message between two different users is emitted once to each of their rooms. */
  lemma EmittedOncePerParty(m: Message)
    requires m.senderId != m.receiverId
    ensures multiset(Rooms(m))[m.senderId] == 1
    ensures multiset(Rooms(m))[m.receiverId] == 1
  {
    assert Rooms(m) == [m.receiverId] + [m.senderId];
  }

  /** A message a user sends to themselves is emitted twice to the same room. */
  lemma SelfMessageEmittedTwice(m: Message)
    requires m.senderId == m.receiverId
    ensures multiset(Rooms(m)) == multiset{m.senderId, m.senderId}
  {
    assert Rooms(m) == [m.senderId] + [m.senderId];
  }
}
