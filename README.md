# DEFI chat server: message store, chat list and read marking

A Dafny model of the chat logic of the DEFI chat server (`index.js`), an Express /
MongoDB / socket.io service in which users exchange text messages with optional
image and video attachments. Underneath the web and database wiring sit three pieces
of logic, modelled here:

- **Message store** (`message_store.dfy`, `messages.dfy`): the message collection is
  a class `Store.MessageStore` holding a `seq<Message>`. `Send` builds a record
  (`read` false, an attachment field set only when a file was uploaded under it,
  timestamp passed in as `now`), appends it and returns the rooms it is emitted to.
  `MarkAsRead` is the `updateMany` as a loop that sets `read` on every unread message
  from `otherId` to `userId`. It is proved against the specification function
  `MarkRead.MarkedRead`, whose properties are lemmas in `mark_read.dfy`.
- **Chat list** (`chat_summary.dfy`): the participant query (`Involving`), the
  newest-first sort (`SortByTimestampDesc`) and the `reduce` into one latest message
  per counterpart (`Step`, `Reduce`, `Summary`, `Chats`, over a map rather than the
  code's object literal; see below). The list is a map keyed by
  counterpart. MongoDB does not fix the order of messages with equal timestamps, so
  the lemmas about `Summary` hold for any newest-first arrangement, or for any order
  at all where the sort does not matter.
- **Delivery targets** (`delivery.dfy`): the rooms a new message is emitted to.

Behaviour worth noting:
- A message a user sends to themselves is emitted twice to the same room
  (`Delivery.SelfMessageEmittedTwice`).
- Equal timestamps are not broken by any id. The entry shown is the first of the
  equally new messages in the order the database returns
  (`ChatSummary.TieDependsOnSortOrder`).
- Chat entries carry no unread count, and sending does not validate empty messages
  or ids.
- The chat list is built in a plain JavaScript object, so counterpart ids that are
  `Object.prototype` member names behave differently (see "## Findings"). That
  behaviour is modelled separately in `ChatSummaryAsWritten`; `Step`, `Reduce`,
  `Summary` and `Chats` are the map-based reduction the code evidently intends, and
  the store's `ChatList` uses it.

## Model

| member | source | states |
|---|---|---|
| `Messages.Counterpart` | index.js:63 | the counterpart is the receiver when `u` sent the message, otherwise the sender; for a participant the message is exchanged between `u` and the counterpart |
| `Messages.CounterpartSymmetric` | index.js:63 | both parties of a message see each other as its counterpart |
| `Messages.StoredFileName` | index.js:39-40 | an attachment field is absent (null) exactly when no file was uploaded under it, otherwise it is the first file's name |
| `Delivery.Rooms` | index.js:45-46 | a new message is emitted to two rooms, the receiver's first and then the sender's; a user is a target exactly when they took part in the message |
| `Delivery.EmittedOncePerParty` | index.js:45-46 | between two different users, each room gets the message once |
| `Delivery.SelfMessageEmittedTwice` | index.js:45-46 | a message to oneself is emitted twice to the same room |
| `Store.MessageStore.constructor` | index.js:31 | the collection starts empty; this is a modelling choice, since the database collection persists across restarts, and every other member and lemma works on arbitrary contents |
| `Store.MessageStore.Send` | index.js:37-49 | exactly one message is appended with the given sender, receiver and text, the timestamp `now`, `read` false and attachments recorded only when uploaded; earlier messages are unchanged; it is emitted to `Delivery.Rooms` |
| `Store.SentMessageListedForBothRooms` | index.js:42-46 | every user the new message is emitted to then has an entry for the other party that is at least as new as the message |
| `Store.MessageStore.ChatList` | index.js:52-73 | the response is the chat list of the current collection, with one entry per user the viewer exchanged a message with |
| `Messages.Message` | index.js:21-29 | the message record: sender, receiver, text, optional image and video file names, integer timestamp and read flag (a datatype; no contract) |
| `Messages.Participates` | index.js:55-58 | the query filter: the user is the receiver or the sender (a predicate; no contract of its own; `ChatSummary.Involving` and `Delivery.Rooms` state its use) |
| `ChatSummary.Involving` | index.js:54-58 | the query keeps exactly the stored messages the user sent or received, each as many times as it is stored (a filter on the multiset) |
| `ChatSummary.Insert` | index.js:59 | inserting keeps every message (as a multiset) and adds the new one |
| `ChatSummary.InsertSorted` | index.js:59 | inserting into a newest-first sequence keeps it newest first |
| `ChatSummary.SortByTimestampDesc` | index.js:59 | the sort returns a permutation of its input ordered newest first |
| `ChatSummary.Step` | index.js:63-68 | one reduction step: the counterpart's entry is at least as new as the message and as the old entry, an entry at least as new as the message is kept (the strict `>`), and all other entries are untouched; `ReduceLatest`, `ReduceSorted` and `SummaryTieRule` state its effect over a sequence |
| `ChatSummary.Reduce` | index.js:62-70 | the left-to-right reduction never drops an accumulator key; `ReduceKeys`, `ReduceFiled`, `ReduceLatest` and `ReduceSorted` state the rest |
| `ChatSummary.Summary` | index.js:62-70 | the reduction from `{}` is empty exactly when there are no messages; `SummaryKeys`, `SummaryEntries`, `SummaryLatest` and `SummaryTieRule` state the rest |
| `ChatSummary.Chats` | index.js:54-70 | the query, sort and reduction together: empty exactly when the user took part in no message; `ChatsKeys`, `ChatsCorrect` and `ChatsTieRule` state the rest |
| `ChatSummary.ReduceKeys` | index.js:62-70 | the reduction's keys are the accumulator's keys plus the counterpart of every reduced message |
| `ChatSummary.ReduceFiled` | index.js:62-70 | every entry of the reduction is one of the reduced messages, filed under its own counterpart |
| `ChatSummary.ReduceLatest` | index.js:64-67 | no entry gets older, and each counterpart's entry is at least as new as every reduced message with it |
| `ChatSummary.ReduceSorted` | index.js:59-67 | over a newest-first sequence no entry is ever replaced: the result is the first message per counterpart, over the accumulator |
| `ChatSummary.FirstOccurrenceAt` | index.js:64-65 | the first message with a counterpart is the one recorded for it |
| `ChatSummary.SummaryKeys` | index.js:62-72 | the summary has one entry per distinct counterpart, and no others |
| `ChatSummary.SummaryEntries` | index.js:62-70 | each entry is a message of the input exchanged with the counterpart it is filed under |
| `ChatSummary.SummaryLatest` | index.js:64-67 | each entry is at least as new as every message exchanged with that counterpart |
| `ChatSummary.SummaryTieRule` | index.js:59-67 | over a newest-first sequence the entry is the first message exchanged with that counterpart, so equal timestamps keep the earlier one |
| `ChatSummary.SummaryTimestampsOrderIndependent` | index.js:59-70 | the counterparts and the entries' timestamps depend only on which messages are reduced, not on their order |
| `ChatSummary.TieDependsOnSortOrder` | index.js:59-67 | two equally new messages from one user: each order of the sort shows a different one |
| `ChatSummary.ChatsKeys` | index.js:52-72 | the chat list has one entry per user the viewer sent to or received from |
| `ChatSummary.ChatsCorrect` | index.js:52-72 | every entry is a stored message between the viewer and that counterpart, at least as new as every other message between them |
| `ChatSummary.ChatsTieRule` | index.js:59-67 | within equal timestamps the chat list shows the first message in the sorted query result |
| `ChatSummary.PartnersKeptByPartyPreservingUpdate` | index.js:80-83 | an in-place update that keeps every sender and receiver leaves each user's set of chat partners unchanged |
| `MarkRead.Unread` | index.js:81 | the update filter: receiver is `userId`, sender is `otherId`, not yet read (a predicate; no contract of its own; `MarkOne` and `NoneLeftUnread` state its use) |
| `MarkRead.MarkedRead` | index.js:80-83 | the collection after `updateMany` has the same length; `MarkedReadAt`, `UnselectedUnchanged`, `NoneLeftUnread` and `Idempotent` state the rest |
| `MarkRead.MarkOne` | index.js:81-82 | a message's `read` becomes true when it was sent by `otherId` to `userId`, is otherwise unchanged, and no other field changes |
| `MarkRead.MarkedReadAt` | index.js:80-83 | the update keeps the length and order of the collection and applies `MarkOne` to each message |
| `Store.MessageStore.MarkAsRead` | index.js:76-89 | the collection afterwards is `MarkedRead` of the collection before |
| `MarkRead.UnselectedUnchanged` | index.js:80-83 | messages the filter does not select are left exactly as they were |
| `MarkRead.NoneLeftUnread` | index.js:80-83 | afterwards no message from `otherId` to `userId` is unread |
| `MarkRead.Idempotent` | index.js:80-83 | marking twice leaves the same collection as marking once |
| `MarkRead.KeepsChatCounterparts` | index.js:80-83 | marking as read never changes who appears in anyone's chat list |
| `ChatSummaryAsWritten.StepAsWritten` | index.js:62-70 | the reduction step with plain-object lookup never removes a key |
| `ChatSummaryAsWritten.ReduceAsWritten` | index.js:62-70 | the reduction as written, over object properties, never removes a key |
| `ChatSummaryAsWritten.InheritedNamesNeverFilled` | index.js:62-70 | for every input, no inherited name ever holds a message and `__proto__` never becomes an own property |
| `ChatSummaryAsWritten.SummaryAsWritten` | index.js:62-72 | the code's chat list from `{}`: for any messages, `__proto__` is never listed and an inherited name only ever holds the inherited member |
| `ChatSummaryAsWritten.AgreesWithoutInheritedNames` | index.js:62-70 | when no counterpart id is an `Object.prototype` member name, the code's reduction equals the intended one |
| `ChatSummaryAsWritten.InheritedNameHidesMessage` | index.js:62-72 | a message from "constructor" yields the inherited `Object` function as alice's entry, and one from "__proto__" yields no entry |

## Findings

| source | as written | input that shows it | evidently intended | confidence | as-written member | corrected member |
|---|---|---|---|---|---|---|
| index.js:62-70 | the accumulator is an object literal, so `acc[otherUserId]` finds members inherited from `Object.prototype`; such a counterpart is treated as already present and its message is never stored | user "alice" whose only message is from user "constructor": the list holds the `Object` function (serialised as null) instead of the message; a user "__proto__" gets no entry at all | one entry per counterpart holding its latest message, whatever the counterpart's id | medium, not executed | `ChatSummaryAsWritten.InheritedNameHidesMessage` | `ChatSummary.SummaryKeys` |

## Left out

- HTTP routing, request parsing and responses (`res.send`, `res.status`) are not modelled; the endpoints are methods that take their parameters directly.
- Request body fields are taken as present strings. A missing `senderId`, `receiverId` or `message` (undefined in JavaScript) is not modelled.
- File uploads are not modelled beyond the list of file names under each field. Disk storage, the one-file limit enforced by the upload middleware and a request without multipart files are left out.
- The database connection and query engine are replaced by the in-memory sequence. The 500 response when the update fails is storage I/O and is not modelled.
- Timestamps are integer inputs (`now`), not the wall clock.
- Socket connection, room join and leave, and the actual emission are library-managed and concurrent. Only the choice of rooms is modelled.
- The order of the chat list array (`Object.values`) follows JavaScript's property-ordering rules and is not modelled; the list is a map keyed by counterpart.
- Store.MessageStore.ChatList: stated over the stable insertion sort `SortByTimestampDesc`; the database may order equal timestamps differently, which the `Summary` lemmas cover for any newest-first order. It uses the map-based reduction, so for counterpart ids that are `Object.prototype` member names the code's response differs (see ## Findings and `ChatSummaryAsWritten`).
- Mongoose document ids (`_id`) and the copy made of the first entry (`{ ...message._doc }`) are not modelled; an entry is the message itself.
