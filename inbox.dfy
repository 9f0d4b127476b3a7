/**
 * `/user-chats/:uuid`: the inbox of a user, derived at read time from the
 * `chats`, `users` and `messages` tables. One row per chat the user takes
 * part in (also chats without messages), each with the latest message of
 * that chat, ordered by latest activity first.
 */
module Inbox {
  import opened Records
  import Sorting

  datatype InboxRow = InboxRow(
    chatId: ChatId, user1: Uuid, user2: Uuid, createdAt: nat,
    user1Name: Option<string>, user2Name: Option<string>,
    lastMessage: Option<string>, lastMessageTime: Option<nat>)

  /**
   * The message of chat `chatId` that the window `ROW_NUMBER() OVER
   * (PARTITION BY chat_id ORDER BY created_at DESC) = 1` picks. SQL leaves
   * ties open; here, among messages with the latest time, the one appended
   * last is taken.
   */
  function LastMessage(messages: seq<Message>, chatId: ChatId): (r: Option<Message>)
    ensures r.None? <==> forall i :: 0 <= i < |messages| ==> messages[i].chatId != chatId
    ensures r.Some? ==> r.value in messages && r.value.chatId == chatId
    ensures r.Some? ==> forall i :: 0 <= i < |messages| && messages[i].chatId == chatId ==>
                          messages[i].createdAt <= r.value.createdAt
  {
    if messages == [] then None
    else
      var earlier := messages[..|messages| - 1];
      var m := messages[|messages| - 1];
      var prev := LastMessage(earlier, chatId);
      assert forall i :: 0 <= i < |messages| - 1 ==> messages[i] == earlier[i];
      if m.chatId == chatId && (prev.None? || prev.value.createdAt <= m.createdAt) then Some(m)
      else prev
  }

  /** The `COALESCE(m.created_at, c.created_at)` of a row. */
  function Activity(r: InboxRow): nat {
    if r.lastMessageTime.Some? then r.lastMessageTime.value else r.createdAt
  }

  /** The row the joins produce for chat `c`; `Describes` says what it holds. */
  function RowOf(users: seq<User>, messages: seq<Message>, c: Chat): (r: InboxRow)
    ensures Describes(users, messages, c, r)
  {
    var last := LastMessage(messages, c.chatId);
    assert last.Some? ==> last.value in messages;
    InboxRow(c.chatId, c.user1, c.user2, c.createdAt,
             NameOf(users, c.user1), NameOf(users, c.user2),
             if last.Some? then Some(last.value.text) else None,
             if last.Some? then Some(last.value.createdAt) else None)
  }

  /** `WHERE c.user1_uuid = ? OR c.user2_uuid = ?`, in table order. */
  function ChatsOf(chats: seq<Chat>, u: Uuid): (r: seq<Chat>)
    ensures forall c :: c in r <==> c in chats && IsParticipant(c, u)
    ensures ChatIdsUnique(chats) ==> ChatIdsUnique(r)
  {
    if chats == [] then []
    else
      var rest := ChatsOf(chats[1..], u);
      assert forall c :: c in chats <==> c == chats[0] || c in chats[1..];
      if IsParticipant(chats[0], u) then
        assert ChatIdsUnique(chats) ==> ChatIdsUnique([chats[0]] + rest) by {
          if ChatIdsUnique(chats) {
            forall j | 0 <= j < |rest| ensures rest[j].chatId != chats[0].chatId {
              assert rest[j] in chats[1..];
              var k :| 0 <= k < |chats[1..]| && chats[1..][k] == rest[j];
              assert chats[k + 1] == rest[j];
            }
          }
        }
        [chats[0]] + rest
      else rest
  }

  function ChatActivity(users: seq<User>, messages: seq<Message>, c: Chat): int {
    Activity(RowOf(users, messages, c))
  }

  /** The participating chats, latest activity first. */
  function ChatsByActivity(users: seq<User>, messages: seq<Message>, chats: seq<Chat>, u: Uuid): seq<Chat> {
    Sorting.SortBy(ChatsOf(chats, u), c => -ChatActivity(users, messages, c))
  }

  /**
   * The whole `/user-chats/:uuid` answer: one row per participating chat,
   * and every row is about a chat with `u` on one of its two sides.
   */
  function UserChats(users: seq<User>, chats: seq<Chat>, messages: seq<Message>, u: Uuid): (r: seq<InboxRow>)
    ensures |r| == |ChatsOf(chats, u)|
    ensures forall k :: 0 <= k < |r| ==> r[k].user1 == u || r[k].user2 == u
  {
    var ordered := ChatsByActivity(users, messages, chats, u);
    assert forall k :: 0 <= k < |ordered| ==> IsParticipant(ordered[k], u) by {
      forall k | 0 <= k < |ordered| ensures IsParticipant(ordered[k], u) {
        assert ordered[k] in multiset(ordered);
        assert ordered[k] in multiset(ChatsOf(chats, u));
      }
    }
    seq(|ordered|, k requires 0 <= k < |ordered| => RowOf(users, messages, ordered[k]))
  }

  /**
   * What a row for chat `c` must say, stated without reference to how it is
   * computed: the chat's own columns, the participants' names from the
   * users table, and a last message that belongs to the chat and is at
   * least as recent as every other message of the chat (absent exactly when
   * the chat has none).
   */
  ghost predicate Describes(users: seq<User>, messages: seq<Message>, c: Chat, r: InboxRow) {
    && r.chatId == c.chatId && r.user1 == c.user1 && r.user2 == c.user2 && r.createdAt == c.createdAt
    && r.user1Name == NameOf(users, c.user1) && r.user2Name == NameOf(users, c.user2)
    && r.lastMessage.Some? == r.lastMessageTime.Some?
    && (r.lastMessage.None? <==> forall i :: 0 <= i < |messages| ==> messages[i].chatId != c.chatId)
    && (r.lastMessage.Some? ==>
          exists m :: m in messages && m.chatId == c.chatId &&
            m.text == r.lastMessage.value && m.createdAt == r.lastMessageTime.value)
    && (r.lastMessageTime.Some? ==>
          forall i :: 0 <= i < |messages| && messages[i].chatId == c.chatId ==>
            messages[i].createdAt <= r.lastMessageTime.value)
  }

  /** Every chat the user takes part in has a row, also when it has no messages. */
  lemma ParticipatingChatHasRow(users: seq<User>, chats: seq<Chat>, messages: seq<Message>, u: Uuid, c: Chat)
    requires c in chats && IsParticipant(c, u)
    ensures var rows := UserChats(users, chats, messages, u);
      exists k :: 0 <= k < |rows| && rows[k].chatId == c.chatId && Describes(users, messages, c, rows[k])
  {
    var rows := UserChats(users, chats, messages, u);
    var ordered := ChatsByActivity(users, messages, chats, u);
    assert c in multiset(ChatsOf(chats, u));
    assert c in multiset(ordered);
    var k :| 0 <= k < |ordered| && ordered[k] == c;
    assert rows[k] == RowOf(users, messages, c);
  }

  /** Every row of the inbox is the row of a chat the user takes part in. */
  lemma RowIsParticipatingChat(users: seq<User>, chats: seq<Chat>, messages: seq<Message>, u: Uuid, k: nat)
    requires k < |UserChats(users, chats, messages, u)|
    ensures exists c :: c in chats && IsParticipant(c, u) && Describes(users, messages, c, UserChats(users, chats, messages, u)[k])
  {
    var ordered := ChatsByActivity(users, messages, chats, u);
    var c := ordered[k];
    assert c in multiset(ordered);
    assert c in multiset(ChatsOf(chats, u));
    assert UserChats(users, chats, messages, u)[k] == RowOf(users, messages, c);
  }

  /** With chat ids as keys, no chat appears twice in the inbox. */
  lemma UserChatsOneRowPerChat(users: seq<User>, chats: seq<Chat>, messages: seq<Message>, u: Uuid)
    requires ChatIdsUnique(chats)
    ensures var rows := UserChats(users, chats, messages, u);
      forall i, j :: 0 <= i < j < |rows| ==> rows[i].chatId != rows[j].chatId
  {
    var chosen := ChatsOf(chats, u);
    var id := (c: Chat) => c.chatId;
    assert Sorting.DistinctBy(chosen, id);
    Sorting.SortKeepsDistinct(chosen, c => -ChatActivity(users, messages, c), id);
  }

  /** Rows come latest activity first: by last message time, else by the chat's creation time. */
  lemma UserChatsLatestFirst(users: seq<User>, chats: seq<Chat>, messages: seq<Message>, u: Uuid)
    ensures var rows := UserChats(users, chats, messages, u);
      forall i, j :: 0 <= i < j < |rows| ==> Activity(rows[i]) >= Activity(rows[j])
  {
    var ordered := ChatsByActivity(users, messages, chats, u);
    var key := c => -ChatActivity(users, messages, c);
    assert Sorting.SortedBy(ordered, key);
    forall i, j | 0 <= i < j < |ordered|
      ensures ChatActivity(users, messages, ordered[i]) >= ChatActivity(users, messages, ordered[j])
    {
      assert key(ordered[i]) <= key(ordered[j]);
    }
  }

  /** A message sent at the latest time so far becomes its chat's last message. */
  lemma {:induction false} LastMessageAfterAppend(messages: seq<Message>, m: Message)
    requires forall i :: 0 <= i < |messages| && messages[i].chatId == m.chatId ==> messages[i].createdAt <= m.createdAt
    ensures LastMessage(messages + [m], m.chatId) == Some(m)
    ensures forall c :: c != m.chatId ==> LastMessage(messages + [m], c) == LastMessage(messages, c)
  {
    assert (messages + [m])[..|messages|] == messages;
  }

  /** With a single chat in the table, a participant's inbox is that chat's row. */
  lemma SingleChatInbox(users: seq<User>, c: Chat, messages: seq<Message>, u: Uuid)
    requires IsParticipant(c, u)
    ensures UserChats(users, [c], messages, u) == [RowOf(users, messages, c)]
  {
    assert ChatsOf([c], u) == [c];
    assert Sorting.SortBy([c], c => -ChatActivity(users, messages, c)) == [c];
  }
}
