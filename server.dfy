/**
 * The backend's mutable state and the handlers that change it: the three
 * tables, the socket rooms and the events emitted to connected clients.
 * Each handler runs as one atomic step; the store's failure is the
 * `storeUp` parameter, and `uuidv4` is the fresh id a caller passes in.
 */
module Server {
  import opened Records
  import Registry
  import Accounts
  import Inbox
  import History

  /** A socket.io connection id. */
  type ConnId = string

  /** What an emitted event carries; the constructor is the event's name. */
  datatype Payload =
    | ChatMessage(text: string, user: string)  // "chatMessage"; its `_id` and `createdAt` are not modelled
    | NewMessage(chatId: ChatId)               // "newMessage"
    | Error(message: string)                   // "error"

  /** An emitted event and whom it goes to. */
  datatype Emit =
    | ToRoom(room: ChatId, members: set<ConnId>, payload: Payload)  // `io.to(room).emit`
    | ToAll(payload: Payload)                                       // `io.emit`
    | ToSocket(conn: ConnId, payload: Payload)                      // `socket.emit`

  /** The `msg` object a client sends with "chatMessage". */
  datatype Outgoing = Outgoing(chatId: ChatId, fromUuid: Uuid, toUuid: Uuid, text: string, user: string)

  const SendFailed: string := "Erro ao enviar mensagem"

  /** The connections joined to `room`. */
  function Members(rooms: set<(ConnId, ChatId)>, room: ChatId): (r: set<ConnId>)
    ensures forall conn :: conn in r <==> (conn, room) in rooms
  {
    set p | p in rooms && p.1 == room :: p.0
  }

  /**
   * An event is backed by the store when what it announces is durable: a
   * chat message delivered to a room was stored for that chat with that
   * text, and a chat announced as having new activity has a stored message.
   */
  ghost predicate Backed(e: Emit, messages: seq<Message>) {
    match e
    case ToRoom(room, _, ChatMessage(text, _)) => exists m :: m in messages && m.chatId == room && m.text == text
    case ToAll(NewMessage(c)) => exists m :: m in messages && m.chatId == c
    case _ => true
  }

  /** Nothing is ever delivered or announced before it is stored. */
  ghost predicate DeliveredOnlyIfStored(events: seq<Emit>, messages: seq<Message>) {
    forall i :: 0 <= i < |events| ==> Backed(events[i], messages)
  }

  class ChatServer {
    var users: seq<User>
    var chats: seq<Chat>
    var messages: seq<Message>
    var rooms: set<(ConnId, ChatId)>
    var events: seq<Emit>

    ghost predicate Valid()
      reads this
    {
      Accounts.UsersValid(users) && Registry.RegistryValid(chats) && DeliveredOnlyIfStored(events, messages)
    }

    constructor ()
      ensures Valid()
      ensures users == [] && chats == [] && messages == [] && rooms == {} && events == []
    {
      users, chats, messages, rooms, events := [], [], [], {}, [];
    }

    /** `POST /register`. */
    method Register(name: Field, phone: Field, password: Field,
                    freshUuid: Uuid, hash: string -> string, storeUp: bool) returns (r: Reply<Accounts.Session>)
      requires Valid()
      requires !Accounts.UuidUsed(users, freshUuid)
      modifies this`users
      ensures Valid()
      ensures (r, users) == Accounts.Register(old(users), name, phone, password, freshUuid, hash, storeUp)
    {
      Accounts.RegisterKeepsValid(users, name, phone, password, freshUuid, hash, storeUp);
      if !Given(name) || !Given(phone) || !Given(password) {
        return Fail(BadRequest);
      }
      if !storeUp {
        return Fail(ServerError);
      }
      if Accounts.PhoneTaken(users, phone.value) {
        return Fail(Conflict);
      }
      users := users + [User(freshUuid, name.value, phone.value, hash(password.value))];
      r := Ok(Accounts.Session(freshUuid, name.value));
    }

    /**
     * `POST /create-chat`: 400 when either uuid is missing or empty and 500
     * when the store fails, both leaving the chats as they were; otherwise
     * get-or-create on the pair.
     */
    method CreateChat(user1: Field, user2: Field, freshId: ChatId, now: nat, storeUp: bool) returns (r: Reply<ChatId>)
      requires Valid()
      requires !ChatIdUsed(chats, freshId)
      modifies this`chats
      ensures Valid()
      ensures !Given(user1) || !Given(user2) ==> r == Fail(BadRequest) && chats == old(chats)
      ensures Given(user1) && Given(user2) && !storeUp ==> r == Fail(ServerError) && chats == old(chats)
      ensures Given(user1) && Given(user2) && storeUp ==>
                var (id, after) := Registry.GetOrCreate(old(chats), user1.value, user2.value, freshId, now);
                r == Ok(id) && chats == after
    {
      if !Given(user1) || !Given(user2) {
        return Fail(BadRequest);
      }
      if !storeUp {
        return Fail(ServerError);
      }
      var a, b := user1.value, user2.value;
      Registry.GetOrCreateKeepsValid(chats, a, b, freshId, now);
      var existing := Registry.FindChat(chats, a, b);
      if existing.Some? {
        return Ok(chats[existing.value].chatId);
      }
      chats := chats + [Chat(freshId, a, b, now)];
      r := Ok(freshId);
    }

    /** Socket event "join_chat": the connection joins the chat's room, with no check of who it is. */
    method JoinChat(conn: ConnId, chatId: ChatId)
      requires Valid()
      modifies this`rooms
      ensures Valid()
      ensures rooms == old(rooms) + {(conn, chatId)}
    {
      rooms := rooms + {(conn, chatId)};
    }

    /**
     * Socket event "chatMessage": store the message first; only then emit it
     * to the chat's room and announce the chat to every connection. When the
     * store fails, nothing is stored or broadcast and only the sender hears
     * an "error".
     */
    method SendChatMessage(sender: ConnId, msg: Outgoing, now: nat, storeUp: bool)
      requires Valid()
      modifies this`messages, this`events
      ensures Valid()
      ensures storeUp ==>
                && messages == old(messages) + [Message(msg.chatId, msg.fromUuid, msg.toUuid, msg.text, now)]
                && events == old(events) + [ToRoom(msg.chatId, Members(rooms, msg.chatId), ChatMessage(msg.text, msg.user)),
                                            ToAll(NewMessage(msg.chatId))]
      ensures !storeUp ==> messages == old(messages) && events == old(events) + [ToSocket(sender, Error(SendFailed))]
    {
      if !storeUp {
        events := events + [ToSocket(sender, Error(SendFailed))];
        return;
      }
      var stored := Message(msg.chatId, msg.fromUuid, msg.toUuid, msg.text, now);
      messages := messages + [stored];
      assert forall i :: 0 <= i < |events| ==> Backed(events[i], messages) by {
        forall i | 0 <= i < |events| ensures Backed(events[i], messages) {
          assert Backed(events[i], old(messages));
        }
      }
      assert stored in messages;
      events := events + [ToRoom(msg.chatId, Members(rooms, msg.chatId), ChatMessage(msg.text, msg.user))];
      events := events + [ToAll(NewMessage(msg.chatId))];
    }

    /** Socket event "disconnect": socket.io drops every room membership of the connection. */
    method Disconnect(conn: ConnId)
      requires Valid()
      modifies this`rooms
      ensures Valid()
      ensures rooms == set p | p in old(rooms) && p.0 != conn
    {
      rooms := set p | p in rooms && p.0 != conn;
    }
  }

  /**
   * A conversation from start to finish: Ana and Bea register, a second
   * registration of Ana's phone is refused, Ana asks for a chat with Bea and
   * Bea then asks with the pair swapped, Bea's connection joins the room and
   * Ana sends "oi". Bea's connection receives it, the history holds just
   * that message, and Ana's inbox shows it as the chat's last message.
   */
  method Walkthrough(hash: string -> string)
    returns (dup: Reply<Accounts.Session>, registered: seq<User>, first: Reply<ChatId>, second: Reply<ChatId>,
             delivered: Emit, history: seq<History.HistoryRow>, inbox: seq<Inbox.InboxRow>)
    ensures dup == Fail(Conflict)
    ensures |registered| == 2 && registered[0].uuid == "uuid-ana" && registered[0].phone == "111"
    ensures registered[1].uuid == "uuid-bea" && registered[1].phone == "222"
    ensures first == second && first.Ok? && first.body != ""
    ensures delivered.ToRoom? && "conn-bea" in delivered.members && delivered.payload == ChatMessage("oi", "Ana")
    ensures |history| == 1 && history[0].message.text == "oi" && history[0].senderName == Some("Ana")
    ensures |inbox| == 1 && inbox[0].chatId == first.body && inbox[0].lastMessage == Some("oi")
  {
    var s := new ChatServer();
    var anaRow := User("uuid-ana", "Ana", "111", hash("senha-a"));
    var beaRow := User("uuid-bea", "Bea", "222", hash("senha-b"));
    SignUps(hash);
    var ana := s.Register(Some("Ana"), Some("111"), Some("senha-a"), "uuid-ana", hash, true);
    var bea := s.Register(Some("Bea"), Some("222"), Some("senha-b"), "uuid-bea", hash, true);
    dup := s.Register(Some("Outra"), Some("111"), Some("senha-c"), "uuid-outra", hash, true);
    assert dup == Fail(Conflict) && s.users == [anaRow, beaRow];
    registered := s.users;

    first := s.CreateChat(Some("uuid-ana"), Some("uuid-bea"), "chat-1", 10, true);
    var chat := Chat("chat-1", "uuid-ana", "uuid-bea", 10);
    assert s.chats == [chat];
    Registry.ExistingChatReturned(s.chats, "uuid-bea", "uuid-ana", "chat-2", 11, 0);
    second := s.CreateChat(Some("uuid-bea"), Some("uuid-ana"), "chat-2", 11, true);
    assert first == second == Ok("chat-1") && s.chats == [chat];

    s.JoinChat("conn-bea", "chat-1");
    var oi := Outgoing("chat-1", "uuid-ana", "uuid-bea", "oi", "Ana");
    s.SendChatMessage("conn-ana", oi, 12, true);
    var m := Message("chat-1", "uuid-ana", "uuid-bea", "oi", 12);
    assert s.messages == [m];
    delivered := s.events[0];
    assert ("conn-bea", "chat-1") in s.rooms;
    assert delivered == ToRoom("chat-1", Members(s.rooms, "chat-1"), ChatMessage("oi", "Ana"));
    assert s.users == [anaRow, beaRow] && s.chats == [chat];

    ConversationViews(s.users, s.chats, s.messages);
    history := History.ChatHistory(s.users, s.messages, "chat-1");
    inbox := Inbox.UserChats(s.users, s.chats, s.messages, "uuid-ana");
    assert |history| == 1 && history[0].message.text == "oi" && history[0].senderName == Some("Ana");
    assert |inbox| == 1 && inbox[0].chatId == first.body && inbox[0].lastMessage == Some("oi");
    assert delivered.ToRoom? && "conn-bea" in delivered.members && delivered.payload == ChatMessage("oi", "Ana");
  }

  /**
   * The registrations of `Walkthrough`: Ana and Bea are stored in turn, and
   * a third request with Ana's phone gets 409 and stores nothing.
   */
  lemma SignUps(hash: string -> string)
    ensures var anaRow := User("uuid-ana", "Ana", "111", hash("senha-a"));
      var beaRow := User("uuid-bea", "Bea", "222", hash("senha-b"));
      && Accounts.Register([], Some("Ana"), Some("111"), Some("senha-a"), "uuid-ana", hash, true)
           == (Ok(Accounts.Session("uuid-ana", "Ana")), [anaRow])
      && Accounts.Register([anaRow], Some("Bea"), Some("222"), Some("senha-b"), "uuid-bea", hash, true)
           == (Ok(Accounts.Session("uuid-bea", "Bea")), [anaRow, beaRow])
      && Accounts.Register([anaRow, beaRow], Some("Outra"), Some("111"), Some("senha-c"), "uuid-outra", hash, true)
           == (Fail(Conflict), [anaRow, beaRow])
  {
    var anaRow := User("uuid-ana", "Ana", "111", hash("senha-a"));
    var beaRow := User("uuid-bea", "Bea", "222", hash("senha-b"));
    assert !Accounts.PhoneTaken([], "111") && [] + [anaRow] == [anaRow];
    assert !Accounts.PhoneTaken([anaRow], "222");
    assert [anaRow] + [beaRow] == [anaRow, beaRow];
    assert Accounts.PhoneTaken([anaRow, beaRow], "111") by { assert [anaRow, beaRow][0].phone == "111"; }
  }

  /** What the read endpoints answer at the end of `Walkthrough`. */
  lemma ConversationViews(users: seq<User>, chats: seq<Chat>, messages: seq<Message>)
    requires |users| == 2 && users[0].uuid == "uuid-ana" && users[0].name == "Ana" && users[1].uuid == "uuid-bea"
    requires chats == [Chat("chat-1", "uuid-ana", "uuid-bea", 10)]
    requires messages == [Message("chat-1", "uuid-ana", "uuid-bea", "oi", 12)]
    ensures var history := History.ChatHistory(users, messages, "chat-1");
      |history| == 1 && history[0].message.text == "oi" && history[0].senderName == Some("Ana")
    ensures var inbox := Inbox.UserChats(users, chats, messages, "uuid-ana");
      |inbox| == 1 && inbox[0].chatId == "chat-1" && inbox[0].lastMessage == Some("oi")
  {
    var m := messages[0];
    History.SingleMessageHistory(users, m);
    assert NameOf(users, "uuid-ana") == Some("Ana");
    Inbox.SingleChatInbox(users, chats[0], messages, "uuid-ana");
    Inbox.LastMessageAfterAppend([], m);
    assert [] + [m] == messages;
  }
}
