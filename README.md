# Chat relay and conversation store — a Dafny model

This project models the chat backend of a two-party messenger, and the small
pure part of its mobile inbox screen that talks to it.

- **Conversation registry** (`POST /create-chat`): get-or-create a chat for a
  pair of users. The lookup matches the pair in either stored order. A new
  chat keeps the pair in the order requested.
- **Inbox** (`GET /user-chats/:uuid`): every chat the user takes part in,
  with the participants' names and the chat's latest message, ordered by
  latest activity first.
- **History** (`GET /messages/:chat_id`): one chat's messages, oldest first,
  with the sender's name.
- **Relay** (socket events `join_chat`, `chatMessage`, `disconnect`): room
  membership, and "store the message, then emit it to the room, then announce
  it to everyone", or an `error` to the sender alone when the store fails.
- **Accounts** (`POST /register`, `POST /login`): request validation,
  phone-uniqueness conflicts and the credential check. The password hasher and
  comparison are function parameters.
- **Inbox screen** (mobile client): the partner shown for an inbox row, and
  the blank-input guard and trim before a create-chat request.

The MySQL tables are sequences of records (`users`, `chats`, `messages`).
Timestamps are natural numbers. Ids and uuids are strings. The mutable state
is one class, `Server.ChatServer`, with fields `users`, `chats`, `messages`,
`rooms` (a set of connection/room pairs) and `events` (the log of emitted
events). Its `Valid()` keeps three invariants:

- uuids and phones are unique;
- chat ids are unique, with at most one chat per unordered pair;
- every chat message delivered to a room, and every `newMessage`
  announcement, refers to a message already in the store.

The read endpoints are pure functions of those fields.

Each handler is one atomic step. Inputs the code takes from outside are
parameters:

- `uuidv4` is a fresh id the caller supplies; it must not be in use;
- `storeUp` says whether the store answers; when it is false, the catch block
  runs;
- `now` is the store-assigned `created_at`;
- `hash` and `matches` stand for bcrypt.

A JSON request field is an `Option<string>`. The code's `!field` test rejects
both an absent field and the empty string; that test is `Records.Given`.

In these places the code does less than a reader might expect, and the model follows the code:

- A chat between a user and themselves is accepted.
- Create-chat does not check that either uuid belongs to a registered user.
- `chatMessage` does not reject an empty text.
- `join_chat` joins any room, with no participant check.
- The history is ordered by `created_at` alone. Equal timestamps have no
  promised tie order.
- `/register` answers `{uuid, name}`.
- The `newMessage` announcement goes to every connection, not only to the
  chat's participants.

## Model

| member | source | states |
|---|---|---|
| `Records.NameOf` | BackEnd/index.js:121-122 | The name joined for a uuid is absent exactly when no user row has that uuid. Otherwise it is the name of a user row with that uuid. |
| `Registry.FindChat` | BackEnd/index.js:89-92 | The lookup finds nothing exactly when no chat links the two users in either order. Otherwise it gives the first chat that does. |
| `Registry.FindChatSymmetric` | BackEnd/index.js:89-91 | The lookup gives the same answer whichever order the two uuids are passed in. |
| `Registry.GetOrCreate` | BackEnd/index.js:88-105 | If a chat for the pair exists, its id is returned and the table is unchanged. Otherwise exactly one chat `(freshId, a, b)` is appended, in the order given, and `freshId` is returned. Earlier rows never change. |
| `Registry.ExistingChatReturned` | BackEnd/index.js:94-96 | When pairs are unique, any chat linking the pair, in either stored order, is the one whose id comes back, and nothing is inserted. |
| `Registry.GetOrCreateKeepsValid` | BackEnd/index.js:98-103 | With a fresh id, chat ids stay unique and there is still at most one chat per unordered pair. |
| `Registry.ExactlyOneChatForPair` | BackEnd/index.js:88-105 | Afterwards exactly one chat links the pair, and it carries the returned id. |
| `Registry.PairOnlyAt` | BackEnd/index.js:88-96 | While pairs are unique, a chat linking two users is the only chat that links them, in either stored order. |
| `Registry.SwappedRequestSameChat` | BackEnd/index.js:88-105 | On any table, a second request with the uuids swapped returns the same id and inserts nothing, whatever fresh id it is offered. |
| `Accounts.FindUser` | BackEnd/index.js:63-68 | Finds nothing exactly when no user has the uuid. Otherwise it gives the first user row with it. |
| `Accounts.Register` | BackEnd/index.js:28-52 | 400 exactly when name, phone or password is missing or empty. 500 exactly when all three are given and the store fails. 409 exactly when the store is up and the phone is already registered. Success exactly when all three are given, the store is up and the phone is new. On any failure the users are unchanged. On success one user with the fresh uuid, the name, the phone and the hashed password is appended, and `{uuid, name}` is returned. |
| `Accounts.Login` | BackEnd/index.js:55-77 | 400 exactly when uuid or password is missing or empty. 500 exactly when both are given and the store fails. 404 exactly when the store is up and no user has the uuid. For a known uuid, the first user row with it decides: success exactly when its hash matches the password, answering that user's uuid and name, and 401 exactly when it does not. |
| `Accounts.RegisterKeepsValid` | BackEnd/index.js:36-48 | Registering with a fresh uuid keeps uuids and phones unique. |
| `Accounts.LoginAfterRegister` | BackEnd/index.js:36-72 | After a successful registration, logging in with the issued uuid and the same password returns the same `{uuid, name}`, provided the comparison accepts a password against its own hash. |
| `Sorting.SortBy` | BackEnd/index.js:148 | An `ORDER BY` returns a permutation of its input (same multiset), non-decreasing in the key. |
| `Sorting.SortKeepsDistinct` | BackEnd/index.js:129 | Ordering rows never duplicates a row: distinct ids stay distinct. |
| `Inbox.LastMessage` | BackEnd/index.js:123-127 | Absent exactly when the chat has no message. Otherwise it is a message of that chat whose `created_at` is at least every other message's of the chat. |
| `Inbox.ChatsOf` | BackEnd/index.js:128 | Holds exactly the chats where the user is `user1` or `user2`, and keeps chat ids unique. |
| `Inbox.RowOf` | BackEnd/index.js:117-127 | Each row carries its chat's columns and the participants' names. Its `last_message` and `last_message_time` are absent exactly when the chat has no message. Otherwise they come from one message of the chat that no other message of the chat is later than. |
| `Inbox.UserChats` | BackEnd/index.js:113-131 | The inbox has one row per chat the user takes part in, and every row has the user as `user1` or `user2`. |
| `Inbox.ParticipatingChatHasRow` | BackEnd/index.js:120-128 | Every chat the user takes part in has an inbox row, also when it has no messages. |
| `Inbox.RowIsParticipatingChat` | BackEnd/index.js:120-128 | Every inbox row describes a chat the user takes part in. |
| `Inbox.UserChatsOneRowPerChat` | BackEnd/index.js:123-127 | With chat ids unique, no chat appears twice in the inbox. |
| `Inbox.UserChatsLatestFirst` | BackEnd/index.js:129 | Rows are non-increasing in `COALESCE(last message time, chat created_at)`. |
| `Inbox.LastMessageAfterAppend` | BackEnd/index.js:123-127 | A message appended with a time no earlier than its chat's other messages becomes that chat's last message. Other chats' last messages are unchanged. |
| `Inbox.SingleChatInbox` | BackEnd/index.js:116-131 | With one chat in the table, a participant's inbox is exactly that chat's row. |
| `History.MessagesOf` | BackEnd/index.js:147 | Each message is kept exactly as many times as it is stored when its chat id matches, and not at all otherwise. |
| `History.ChatHistory` | BackEnd/index.js:140-151 | The history has one row per stored message of the chat, and every row is a stored message of that chat. |
| `History.OfTheChat` | BackEnd/index.js:147 | A message kept by the `WHERE m.chat_id = ?` filter is a stored message of that chat. |
| `History.HistoryExactlyTheChat` | BackEnd/index.js:143-149 | The history holds exactly the chat's stored messages, each as often as stored, and nothing from other chats. |
| `History.HistoryOldestFirst` | BackEnd/index.js:144-148 | Rows are non-decreasing in `created_at`, and each carries its sender's name from the users table. |
| `History.AppendedMessageInHistory` | BackEnd/index.js:143-149 | A message appended to the log is in its chat's history with the sender, recipient and text it was sent with. Other chats' histories do not change. |
| `History.SingleMessageHistory` | BackEnd/index.js:143-149 | A chat with one stored message has a history of exactly that message with its sender's name. |
| `Server.Members` | BackEnd/index.js:179 | The room's recipients are exactly the connections joined to that room. |
| `Server.ChatServer.Register` | BackEnd/index.js:28-52 | The new user table and the reply are those of `Accounts.Register`; uuids and phones stay unique. |
| `Server.ChatServer.CreateChat` | BackEnd/index.js:80-110 | 400 when either uuid is missing or empty, and 500 when the store fails; both leave the chats unchanged. Otherwise the reply and the new table are those of get-or-create on the pair. The registry invariant is kept. |
| `Server.ChatServer.JoinChat` | BackEnd/index.js:164-167 | The connection joins the chat's room, with no check; nothing else changes. |
| `Server.ChatServer.SendChatMessage` | BackEnd/index.js:170-192 | On success the message is appended with the store's time. Then exactly two events are emitted: a `chatMessage` with the same text to the room's members, then a global `newMessage` with the chat id. On store failure nothing is stored and only the sender gets `error`. Every delivered message stays backed by the store. |
| `Server.ChatServer.Disconnect` | BackEnd/index.js:194-196 | The connection leaves every room; other memberships are unchanged. |
| `Server.Walkthrough` | BackEnd/index.js:28-192 | Ana and Bea register, and a second registration of Ana's phone gets 409 and leaves both stored users, Ana first and Bea second, in place. Ana's create-chat and Bea's swapped create-chat return the same non-empty id. Bea's joined connection receives Ana's "oi". |
| `Server.SignUps` | BackEnd/index.js:28-52 | Ana and Bea are stored in turn, with `{uuid, name}` replies, and a third registration with Ana's phone gets 409 and stores nothing. |
| `Server.ConversationViews` | BackEnd/index.js:113-156 | At the end of that conversation, the history is exactly "oi" with sender name Ana, and Ana's inbox is the one chat with last message "oi". |
| `InboxScreen.Trim` | Mobile/app/inbox.js:75 | `trim()` is never longer than its input and leaves no whitespace at either end. |
| `InboxScreen.TrimCutsOnlySpace` | Mobile/app/inbox.js:75 | `trim()` returns a slice of its input, and only ECMAScript whitespace and line terminators are cut from either end. |
| `InboxScreen.TrimEmptyIffBlank` | Mobile/app/inbox.js:75 | The trimmed text is empty exactly when every character of the input is whitespace. |
| `InboxScreen.TrimIdempotent` | Mobile/app/inbox.js:83 | Trimming twice gives the same text as trimming once. |
| `InboxScreen.NewChatRequest` | Mobile/app/inbox.js:74-84 | No request is made exactly when the typed uuid is empty or all whitespace. Otherwise `user1_uuid` is the current user and `user2_uuid` is the trimmed, non-empty input. |
| `InboxScreen.RequestPassesServerCheck` | Mobile/app/inbox.js:81-84 | A request sent for a signed-in user always passes the server's 400 check on both uuids. |
| `InboxScreen.PartnerUuid` | Mobile/app/inbox.js:105-107 | The partner is one of the row's two participants. On a row the user takes part in, the user and the partner together are the row's pair. |
| `InboxScreen.PartnerName` | Mobile/app/inbox.js:97-103 | The name shown is the partner column's joined name when it is present and non-empty, and the partner's uuid otherwise. It is never blank unless the uuid is. |
| `InboxScreen.PartnerCompletesPair` | Mobile/app/inbox.js:105-107 | For a chat the user takes part in, the chat links the user and the chosen partner uuid: `user2` when the user is `user1`, `user1` otherwise. In a chat between two different users, the partner is not the user. |
| `InboxScreen.PartnerNameIsPartners` | Mobile/app/inbox.js:97-103 | The name shown is the chosen partner's name from the users table if it is present and non-empty, and the partner's uuid otherwise. |

## Left out

- The MySQL pool, SQL text and connection handling, Express routing, CORS,
  the socket.io transport and server start-up. The tables are sequences, and
  each handler is one atomic step.
- The race between create-chat's lookup and its insert, and concurrent
  sends. These are concurrency matters, and every request here is atomic.
- `uuidv4`, `bcrypt.hash` and `bcrypt.compare` are foreign calls. They are
  the `freshId`/`freshUuid`, `hash` and `matches` parameters.
- The broadcast's `_id` (`Date.now() + Math.random()`) and `createdAt` are
  wall-clock and floating-point values. `Server.ChatMessage` carries only
  `text` and `user`.
- The store-failure path (status 500) of `/user-chats` and `/messages`.
  Those are pure functions of the tables here.
- MySQL's default collation compares strings case-insensitively. The model
  compares uuids, chat ids and phones exactly, so `Accounts.PhoneTaken`
  detects a duplicate phone only when the strings are equal.
- Request fields that are JSON numbers or booleans. `Records.Field` holds only strings. In the code, `!0` and `!false` also give 400, and a non-zero number passes the check.
- The `user` of a `chatMessage` is an object `{_id, name}` sent by the client. The server only passes it on, so `Server.Outgoing` treats it as an opaque value, written as a string.
- A `chatMessage` whose fields are missing (`undefined` inserted as NULL).
  `Server.Outgoing` has every field present.
- Sorting.SortBy: the order of rows with equal keys is not promised, because
  `ORDER BY created_at` and `ORDER BY COALESCE(...)` leave ties open.
- Inbox.LastMessage: the SQL leaves open which message wins when several
  share the latest time. The model takes the one appended last, and the
  contract promises only a message with the latest time.
- The auto-increment `id` column of `messages`. `Records.Message` has no id,
  so `History.HistoryExactlyTheChat` counts equal messages by multiplicity.
- The `disconnect` handler itself only logs. `Server.ChatServer.Disconnect`
  models socket.io dropping the connection's room memberships.
- React state, rendering, navigation, alerts, clipboard and the axios calls
  of the inbox screen; the other screens; styling components; client socket
  configuration; and the router layout. None of these has logic to model.
