/**
  The chat list of one user: the messages the user took part in, sorted by
  timestamp, newest first, and folded into one latest message per counterpart.
 */
module ChatSummary {
  import opened Messages

  /** The participant query: the messages of `ms` sent or received by `u`, in store order. */
  function Involving(ms: seq<Message>, u: UserId): (r: seq<Message>)
    ensures forall m :: m in r <==> m in ms && Participates(m, u)
    ensures forall m :: multiset(r)[m] == if Participates(m, u) then multiset(ms)[m] else 0
  {
    if ms == [] then []
    else
      assert ms == [ms[0]] + ms[1..];
      assert multiset(ms) == multiset{ms[0]} + multiset(ms[1..]);
      if Participates(ms[0], u) then [ms[0]] + Involving(ms[1..], u)
      else Involving(ms[1..], u)
  }

  /** Newest first: timestamps never increase along `s`. */
  ghost predicate SortedDesc(s: seq<Message>) {
    forall i, j :: 0 <= i < j < |s| ==> s[i].timestamp >= s[j].timestamp
  }

  /** Puts `m` into the newest-first sequence `s`, ahead of the messages no newer than it. */
  function Insert(m: Message, s: seq<Message>): (r: seq<Message>)
    ensures multiset(r) == multiset(s) + multiset{m}
  {
    if s == [] then [m]
    else if m.timestamp >= s[0].timestamp then [m] + s
    else
      assert s == [s[0]] + s[1..];
      [s[0]] + Insert(m, s[1..])
  }

  lemma {:induction false} InsertSorted(m: Message, s: seq<Message>)
    requires SortedDesc(s)
    ensures SortedDesc(Insert(m, s))
  {
    if s != [] && m.timestamp < s[0].timestamp {
      var t := Insert(m, s[1..]);
      InsertSorted(m, s[1..]);
      forall x | x in t ensures s[0].timestamp >= x.timestamp {
        assert x in multiset(t);
        assert x == m || x in multiset(s[1..]);
      }
      var r := [s[0]] + t;
      forall i, j | 0 <= i < j < |r| ensures r[i].timestamp >= r[j].timestamp {
        if i == 0 {
          assert r[j] == t[j - 1];
        } else {
          assert r[i] == t[i - 1] && r[j] == t[j - 1];
        }
      }
    }
  }

  /**
    The descending sort on `timestamp`. Ties are left in store order here; the
    lemmas below hold for any newest-first arrangement of the same messages.
   */
  function SortByTimestampDesc(s: seq<Message>): (r: seq<Message>)
    ensures SortedDesc(r)
    ensures multiset(r) == multiset(s)
  {
    if s == [] then []
    else
      assert s == [s[0]] + s[1..];
      InsertSorted(s[0], SortByTimestampDesc(s[1..]));
      Insert(s[0], SortByTimestampDesc(s[1..]))
  }

  /**
    One step of the reduction: the counterpart of `m` gets an entry at least as new as
    `m` and as its old entry; an entry at least as new as `m` is kept (ties keep the
    earlier message); every other entry is untouched.
   */
  function Step(acc: map<UserId, Message>, m: Message, u: UserId): (r: map<UserId, Message>)
    ensures r.Keys == acc.Keys + {Counterpart(m, u)}
    ensures r[Counterpart(m, u)].timestamp >= m.timestamp
    ensures Counterpart(m, u) in acc ==> r[Counterpart(m, u)].timestamp >= acc[Counterpart(m, u)].timestamp
    ensures Counterpart(m, u) in acc && acc[Counterpart(m, u)].timestamp >= m.timestamp ==> r == acc
    ensures forall k :: k in acc && k != Counterpart(m, u) ==> r[k] == acc[k]
  {
    var k := Counterpart(m, u);
    if k !in acc then acc[k := m]
    else if m.timestamp > acc[k].timestamp then acc[k := m]
    else acc
  }

  /** The left-to-right reduction of `s` into `acc`. */
  function Reduce(s: seq<Message>, u: UserId, acc: map<UserId, Message>): (r: map<UserId, Message>)
    ensures acc.Keys <= r.Keys
    decreases |s|
  {
    if s == [] then acc else Reduce(s[1..], u, Step(acc, s[0], u))
  }

  /** The reduction from the empty accumulator: one entry per counterpart. */
  function Summary(s: seq<Message>, u: UserId): (r: map<UserId, Message>)
    ensures s == [] <==> r == map[]
  {
    Reduce(s, u, map[])
  }

  /** The chat list of `u` over the store `ms`. */
  function Chats(ms: seq<Message>, u: UserId): (r: map<UserId, Message>)
    ensures Involving(ms, u) == [] <==> r == map[]
  {
    Summary(SortByTimestampDesc(Involving(ms, u)), u)
  }

  /** Every counterpart `u` has a message with in `s`. */
  ghost function Counterparts(s: seq<Message>, u: UserId): set<UserId> {
    set m | m in s :: Counterpart(m, u)
  }

  /** For each counterpart, the first message of `s` exchanged with it. */
  function FirstOccurrences(s: seq<Message>, u: UserId): map<UserId, Message>
    decreases |s|
  {
    if s == [] then map[] else FirstOccurrences(s[1..], u)[Counterpart(s[0], u) := s[0]]
  }

  /** Each entry of `acc` is a message of `pool` filed under its own counterpart. */
  ghost predicate FiledFrom(acc: map<UserId, Message>, u: UserId, pool: set<Message>) {
    forall k :: k in acc ==> acc[k] in pool && Counterpart(acc[k], u) == k
  }

  lemma {:induction false} ReduceKeys(s: seq<Message>, u: UserId, acc: map<UserId, Message>)
    ensures Reduce(s, u, acc).Keys == acc.Keys + Counterparts(s, u)
    decreases |s|
  {
    if s != [] {
      ReduceKeys(s[1..], u, Step(acc, s[0], u));
      assert s == [s[0]] + s[1..];
      assert Counterparts(s, u) == {Counterpart(s[0], u)} + Counterparts(s[1..], u);
    }
  }

  lemma {:induction false} ReduceFiled(s: seq<Message>, u: UserId, acc: map<UserId, Message>, pool: set<Message>)
    requires FiledFrom(acc, u, pool)
    requires forall m :: m in s ==> m in pool
    ensures FiledFrom(Reduce(s, u, acc), u, pool)
    decreases |s|
  {
    if s != [] {
      assert s[0] in s;
      assert forall m :: m in s[1..] ==> m in s;
      ReduceFiled(s[1..], u, Step(acc, s[0], u), pool);
    }
  }

  lemma {:induction false} ReduceLatest(s: seq<Message>, u: UserId, acc: map<UserId, Message>)
    ensures forall k :: k in acc ==> k in Reduce(s, u, acc) && Reduce(s, u, acc)[k].timestamp >= acc[k].timestamp
    ensures forall m :: m in s ==>
      Counterpart(m, u) in Reduce(s, u, acc) && Reduce(s, u, acc)[Counterpart(m, u)].timestamp >= m.timestamp
    decreases |s|
  {
    if s != [] {
      var acc' := Step(acc, s[0], u);
      ReduceLatest(s[1..], u, acc');
      assert s == [s[0]] + s[1..];
    }
  }

  lemma {:induction false} ReduceSorted(s: seq<Message>, u: UserId, acc: map<UserId, Message>)
    requires SortedDesc(s)
    requires forall k, i :: k in acc && 0 <= i < |s| ==> acc[k].timestamp >= s[i].timestamp
    ensures Reduce(s, u, acc) == FirstOccurrences(s, u) + acc
    decreases |s|
  {
    if s != [] {
      var k := Counterpart(s[0], u);
      var acc' := Step(acc, s[0], u);
      forall k', i | k' in acc' && 0 <= i < |s[1..]|
        ensures acc'[k'].timestamp >= s[1..][i].timestamp
      {
        assert s[1..][i] == s[i + 1];
      }
      ReduceSorted(s[1..], u, acc');
      var f := FirstOccurrences(s[1..], u);
      if k in acc {
        assert acc[k].timestamp >= s[0].timestamp;
        assert acc' == acc;
        assert f + acc == f[k := s[0]] + acc;
      } else {
        assert f + acc[k := s[0]] == f[k := s[0]] + acc;
      }
    }
  }

  lemma {:induction false} FirstOccurrenceAt(s: seq<Message>, u: UserId, i: nat)
    requires i < |s|
    requires forall j :: 0 <= j < i ==> Counterpart(s[j], u) != Counterpart(s[i], u)
    ensures Counterpart(s[i], u) in FirstOccurrences(s, u)
    ensures FirstOccurrences(s, u)[Counterpart(s[i], u)] == s[i]
    decreases i
  {
    if i > 0 {
      FirstOccurrenceAt(s[1..], u, i - 1);
    }
  }

  /** Coverage and uniqueness: exactly one entry for each distinct counterpart of `s`. */
  lemma SummaryKeys(s: seq<Message>, u: UserId)
    ensures Summary(s, u).Keys == Counterparts(s, u)
  {
    ReduceKeys(s, u, map[]);
  }

  /** Every entry is a message of `s` exchanged with the counterpart it is filed under. */
  lemma SummaryEntries(s: seq<Message>, u: UserId)
    ensures forall k :: k in Summary(s, u) ==>
      Summary(s, u)[k] in s && Counterpart(Summary(s, u)[k], u) == k
  {
    var pool := set m | m in s;
    ReduceFiled(s, u, map[], pool);
  }

  /** Maximality: each entry is at least as new as every message exchanged with its counterpart. */
  lemma SummaryLatest(s: seq<Message>, u: UserId)
    ensures forall m :: m in s ==>
      Counterpart(m, u) in Summary(s, u) && Summary(s, u)[Counterpart(m, u)].timestamp >= m.timestamp
  {
    ReduceLatest(s, u, map[]);
  }

  /**
    Tie rule: over a newest-first sequence no entry is ever replaced, so the entry of a
    counterpart is the first message of the sequence exchanged with it.
   */
  lemma SummaryTieRule(s: seq<Message>, u: UserId, i: nat)
    requires SortedDesc(s)
    requires i < |s|
    requires forall j :: 0 <= j < i ==> Counterpart(s[j], u) != Counterpart(s[i], u)
    ensures Counterpart(s[i], u) in Summary(s, u)
    ensures Summary(s, u)[Counterpart(s[i], u)] == s[i]
  {
    ReduceSorted(s, u, map[]);
    assert Summary(s, u) == FirstOccurrences(s, u);
    FirstOccurrenceAt(s, u, i);
  }

  /**
    The counterparts of a summary and the timestamps of its entries do not depend on
    the order in which the messages are reduced; only which of several equally new
    messages is shown does.
   */
  lemma SummaryTimestampsOrderIndependent(s1: seq<Message>, s2: seq<Message>, u: UserId)
    requires multiset(s1) == multiset(s2)
    ensures Summary(s1, u).Keys == Summary(s2, u).Keys
    ensures forall k :: k in Summary(s1, u) ==> Summary(s1, u)[k].timestamp == Summary(s2, u)[k].timestamp
  {
    SameMembers(s1, s2);
    SummaryKeys(s1, u);
    SummaryKeys(s2, u);
    SummaryEntries(s1, u);
    SummaryEntries(s2, u);
    SummaryLatest(s1, u);
    SummaryLatest(s2, u);
  }

  /** Two equally new messages from one counterpart: the sort order alone decides which is shown. */
  lemma TieDependsOnSortOrder()
    ensures
      var a := Message("bob", "alice", "first", None, None, 5, false);
      var b := Message("bob", "alice", "second", None, None, 5, false);
      SortedDesc([a, b]) && SortedDesc([b, a]) &&
      Summary([a, b], "alice") == map["bob" := a] &&
      Summary([b, a], "alice") == map["bob" := b]
  {
  }

  /** Every user `u` has exchanged a message with in the store `ms`. */
  ghost function Partners(ms: seq<Message>, u: UserId): set<UserId> {
    set m | m in ms && Participates(m, u) :: Counterpart(m, u)
  }

  /** The chat list of `u` has exactly one entry per user `u` has exchanged a message with. */
  lemma ChatsKeys(ms: seq<Message>, u: UserId)
    ensures Chats(ms, u).Keys == Partners(ms, u)
  {
    var f := Involving(ms, u);
    var s := SortByTimestampDesc(f);
    SameMembers(s, f);
    SummaryKeys(s, u);
  }

  /** Changing messages in place without touching their parties leaves the partners the same. */
  lemma PartnersKeptByPartyPreservingUpdate(ms: seq<Message>, ms': seq<Message>, u: UserId)
    requires |ms'| == |ms|
    requires forall i :: 0 <= i < |ms| ==> ms'[i].senderId == ms[i].senderId && ms'[i].receiverId == ms[i].receiverId
    ensures Partners(ms', u) == Partners(ms, u)
  {
    forall k | k in Partners(ms, u) ensures k in Partners(ms', u) {
      var m :| m in ms && Participates(m, u) && Counterpart(m, u) == k;
      var i :| 0 <= i < |ms| && ms[i] == m;
      assert ms'[i] in ms';
    }
    forall k | k in Partners(ms', u) ensures k in Partners(ms, u) {
      var m :| m in ms' && Participates(m, u) && Counterpart(m, u) == k;
      var i :| 0 <= i < |ms'| && ms'[i] == m;
      assert ms[i] in ms;
    }
  }

  lemma SameMembers(s: seq<Message>, t: seq<Message>)
    requires multiset(s) == multiset(t)
    ensures forall m :: m in s <==> m in t
  {
    forall m ensures m in s <==> m in t {
      assert m in s <==> m in multiset(s);
      assert m in t <==> m in multiset(t);
    }
  }

  /**
    The chat list of `u`: one entry per user `u` has exchanged a message with, each a
    stored message between the two and at least as new as every other message between
    them.
   */
  lemma ChatsCorrect(ms: seq<Message>, u: UserId)
    ensures Chats(ms, u).Keys == Partners(ms, u)
    ensures forall k :: k in Chats(ms, u) ==>
      Chats(ms, u)[k] in ms && Participates(Chats(ms, u)[k], u) && Counterpart(Chats(ms, u)[k], u) == k
    ensures forall m :: m in ms && Participates(m, u) ==>
      Counterpart(m, u) in Chats(ms, u) && Chats(ms, u)[Counterpart(m, u)].timestamp >= m.timestamp
  {
    var f := Involving(ms, u);
    var s := SortByTimestampDesc(f);
    SameMembers(s, f);
    ChatsKeys(ms, u);
    SummaryEntries(s, u);
    SummaryLatest(s, u);
  }

  /**
    Within equal timestamps the chat list shows the first of the equally new messages
    in the newest-first order of the participant query.
   */
  lemma ChatsTieRule(ms: seq<Message>, u: UserId, i: nat)
    requires i < |SortByTimestampDesc(Involving(ms, u))|
    requires forall j :: 0 <= j < i ==>
      Counterpart(SortByTimestampDesc(Involving(ms, u))[j], u) != Counterpart(SortByTimestampDesc(Involving(ms, u))[i], u)
    ensures Counterpart(SortByTimestampDesc(Involving(ms, u))[i], u) in Chats(ms, u)
    ensures Chats(ms, u)[Counterpart(SortByTimestampDesc(Involving(ms, u))[i], u)] == SortByTimestampDesc(Involving(ms, u))[i]
  {
    SummaryTieRule(SortByTimestampDesc(Involving(ms, u)), u, i);
  }
}
