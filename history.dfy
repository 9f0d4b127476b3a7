/**
 * `/messages/:chat_id`: the history of one chat, oldest first, each
 * message with its sender's name from the users table.
 */
module History {
  import opened Records
  import Sorting

  datatype HistoryRow = HistoryRow(message: Message, senderName: Option<string>)

  /** `WHERE m.chat_id = ?`: the chat's messages, each as often as it is stored. */
  function MessagesOf(messages: seq<Message>, chatId: ChatId): (r: seq<Message>)
    ensures forall m :: multiset(r)[m] == if m.chatId == chatId then multiset(messages)[m] else 0
  {
    if messages == [] then []
    else
      var earlier := messages[..|messages| - 1];
      var m := messages[|messages| - 1];
      assert messages == earlier + [m];
      if m.chatId == chatId then MessagesOf(earlier, chatId) + [m] else MessagesOf(earlier, chatId)
  }

  /** A message `MessagesOf` keeps is a stored message of that chat. */
  lemma OfTheChat(messages: seq<Message>, chatId: ChatId, m: Message)
    requires m in multiset(Sorting.SortBy(MessagesOf(messages, chatId), CreatedAt))
    ensures m.chatId == chatId && m in messages
  {
    assert multiset(MessagesOf(messages, chatId))[m] > 0;
  }

  function CreatedAt(m: Message): int {
    m.createdAt
  }

  /**
   * The whole `/messages/:chat_id` answer: `ORDER BY m.created_at ASC`,
   * joined with the sender's name. Every row is a message of the chat.
   */
  function ChatHistory(users: seq<User>, messages: seq<Message>, chatId: ChatId): (r: seq<HistoryRow>)
    ensures |r| == |MessagesOf(messages, chatId)|
    ensures forall k :: 0 <= k < |r| ==> r[k].message.chatId == chatId && r[k].message in messages
  {
    var ordered := Sorting.SortBy(MessagesOf(messages, chatId), CreatedAt);
    forall k | 0 <= k < |ordered| ensures ordered[k].chatId == chatId && ordered[k] in messages {
      OfTheChat(messages, chatId, ordered[k]);
    }
    seq(|ordered|, k requires 0 <= k < |ordered| => HistoryRow(ordered[k], NameOf(users, ordered[k].fromUuid)))
  }

  function MessagesIn(rows: seq<HistoryRow>): seq<Message> {
    seq(|rows|, k requires 0 <= k < |rows| => rows[k].message)
  }

  /**
   * The history holds exactly the messages stored for the chat, each as
   * often as it is stored, and nothing from other chats.
   */
  lemma HistoryExactlyTheChat(users: seq<User>, messages: seq<Message>, chatId: ChatId)
    ensures forall m :: multiset(MessagesIn(ChatHistory(users, messages, chatId)))[m] ==
                          if m.chatId == chatId then multiset(messages)[m] else 0
  {
    var ordered := Sorting.SortBy(MessagesOf(messages, chatId), CreatedAt);
    assert MessagesIn(ChatHistory(users, messages, chatId)) == ordered;
  }

  /** Oldest first, and each row names the message's sender. */
  lemma HistoryOldestFirst(users: seq<User>, messages: seq<Message>, chatId: ChatId)
    ensures var rows := ChatHistory(users, messages, chatId);
      && (forall i, j :: 0 <= i < j < |rows| ==> rows[i].message.createdAt <= rows[j].message.createdAt)
      && (forall k :: 0 <= k < |rows| ==> rows[k].senderName == NameOf(users, rows[k].message.fromUuid))
  {
    var ordered := Sorting.SortBy(MessagesOf(messages, chatId), CreatedAt);
    assert Sorting.SortedBy(ordered, CreatedAt);
  }

  /**
   * Round trip: a message appended to the log is in its chat's history with
   * the sender, recipient and text it was sent with; other chats' histories
   * do not change.
   */
  lemma {:induction false} AppendedMessageInHistory(users: seq<User>, messages: seq<Message>, m: Message)
    ensures m in MessagesIn(ChatHistory(users, messages + [m], m.chatId))
    ensures forall c :: c != m.chatId ==> ChatHistory(users, messages + [m], c) == ChatHistory(users, messages, c)
  {
    HistoryExactlyTheChat(users, messages + [m], m.chatId);
    assert multiset(messages + [m])[m] > 0;
    assert multiset(MessagesIn(ChatHistory(users, messages + [m], m.chatId)))[m] > 0;
    assert (messages + [m])[..|messages|] == messages;
  }

  /** A chat with a single stored message has just that message in its history. */
  lemma SingleMessageHistory(users: seq<User>, m: Message)
    ensures ChatHistory(users, [m], m.chatId) == [HistoryRow(m, NameOf(users, m.fromUuid))]
  {
    assert [m][..0] == [];
    assert MessagesOf([m], m.chatId) == [m];
    assert Sorting.SortBy([m], CreatedAt) == [m];
  }
}
