/**
  The chat-list reduction as the code writes it: the accumulator `acc` is a plain
  object literal, so `acc[otherUserId]` also finds the members every object inherits
  from `Object.prototype`. A counterpart whose id is one of those names is taken to
  be present already; its message is never stored, and the entry either becomes the
  inherited member (an own property holding, say, the `Object` function) or, for
  `__proto__`, does not appear at all. `ChatSummary.Summary` is the intended
  reduction over a real map, which the rest of the model uses.
 */
module ChatSummaryAsWritten {
  import opened Messages
  import ChatSummary

  /** The property names a plain object inherits from `Object.prototype`. */
  const InheritedNames: set<string> := {
    "constructor", "hasOwnProperty", "isPrototypeOf", "propertyIsEnumerable",
    "toLocaleString", "toString", "valueOf", "__defineGetter__", "__defineSetter__",
    "__lookupGetter__", "__lookupSetter__", "__proto__"
  }

  /** An own property of the accumulator: a message document, or an inherited member copied in. */
  datatype Slot = Doc(msg: Message) | Builtin(name: string)

  /**
    One step with object-property semantics. An inherited member is truthy, so the
    `else` branch runs; comparing a timestamp with its missing `timestamp` is false,
    so the member itself is assigned back: as an own property, except for
    `__proto__`, whose assignment only resets the prototype.
   */
  function StepAsWritten(acc: map<string, Slot>, m: Message, u: UserId): (r: map<string, Slot>)
    ensures acc.Keys <= r.Keys
  {
    var k := Counterpart(m, u);
    if k in acc then
      match acc[k]
      case Doc(e) => if m.timestamp > e.timestamp then acc[k := Doc(m)] else acc
      case Builtin(_) => acc
    else if k in InheritedNames then
      if k == "__proto__" then acc else acc[k := Builtin(k)]
    else acc[k := Doc(m)]
  }

  /** The left-to-right reduction with object-property semantics; it never removes a key. */
  function ReduceAsWritten(s: seq<Message>, u: UserId, acc: map<string, Slot>): (r: map<string, Slot>)
    ensures acc.Keys <= r.Keys
    decreases |s|
  {
    if s == [] then acc else ReduceAsWritten(s[1..], u, StepAsWritten(acc, s[0], u))
  }

  /** An accumulator in which no inherited name holds a message and `__proto__` is no own property. */
  ghost predicate InheritedNamesUnfilled(acc: map<string, Slot>) {
    "__proto__" !in acc && forall k :: k in acc && k in InheritedNames ==> acc[k].Builtin?
  }

  /**
    For every input: the reduction never stores a message under an inherited name and
    never makes `__proto__` an own property.
   */
  lemma {:induction false} InheritedNamesNeverFilled(s: seq<Message>, u: UserId, acc: map<string, Slot>)
    requires InheritedNamesUnfilled(acc)
    ensures InheritedNamesUnfilled(ReduceAsWritten(s, u, acc))
    decreases |s|
  {
    if s != [] {
      InheritedNamesNeverFilled(s[1..], u, StepAsWritten(acc, s[0], u));
    }
  }

  /**
    The own properties of the accumulator after the reduction from `{}`: whatever the
    messages, no inherited name holds one, and `__proto__` is never listed.
   */
  function SummaryAsWritten(s: seq<Message>, u: UserId): (r: map<string, Slot>)
    ensures "__proto__" !in r
    ensures forall k :: k in r && k in InheritedNames ==> r[k].Builtin?
  {
    InheritedNamesNeverFilled(s, u, map[]);
    ReduceAsWritten(s, u, map[])
  }

  /**
    When no counterpart id is an inherited name, the code's reduction agrees with the
    intended one entry for entry.
   */
  lemma {:induction false} AgreesWithoutInheritedNames(s: seq<Message>, u: UserId, acc: map<UserId, Message>)
    requires forall m :: m in s ==> Counterpart(m, u) !in InheritedNames
    ensures ReduceAsWritten(s, u, map k | k in acc :: Doc(acc[k])) ==
            map k | k in ChatSummary.Reduce(s, u, acc) :: Doc(ChatSummary.Reduce(s, u, acc)[k])
    decreases |s|
  {
    if s != [] {
      var acc' := ChatSummary.Step(acc, s[0], u);
      assert s[0] in s;
      assert StepAsWritten(map k | k in acc :: Doc(acc[k]), s[0], u) == map k | k in acc' :: Doc(acc'[k]);
      assert forall m :: m in s[1..] ==> m in s;
      AgreesWithoutInheritedNames(s[1..], u, acc');
    }
  }

  /**
    Counterexample: a message from a user named "constructor" to "alice". The intended
    chat list of alice holds that message; the code's holds the inherited `Object`
    function under that name instead, and a message from "__proto__" leaves no entry.
   */
  lemma InheritedNameHidesMessage()
    ensures
      var m := Message("constructor", "alice", "hi", None, None, 1, false);
      ChatSummary.Summary([m], "alice") == map["constructor" := m] &&
      SummaryAsWritten([m], "alice") == map["constructor" := Builtin("constructor")]
    ensures
      var m := Message("__proto__", "alice", "hi", None, None, 1, false);
      ChatSummary.Summary([m], "alice") == map["__proto__" := m] &&
      SummaryAsWritten([m], "alice") == map[]
  {
  }
}
