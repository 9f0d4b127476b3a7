/**
 * The records of the chat backend: the rows of the `users`, `chats` and
 * `messages` tables, request fields as they arrive in a JSON body, and the
 * replies an HTTP handler sends back.
 *
 * Timestamps (`created_at`) are natural numbers assigned by the store; ids
 * and uuids are strings.
 */
module Records {

  datatype Option<+T> = None | Some(value: T)

  type Uuid = string
  type ChatId = string

  /** A row of the `users` table; `passwordHash` is whatever the hasher produced. */
  datatype User = User(uuid: Uuid, name: string, phone: string, passwordHash: string)

  /** A row of the `chats` table: the pair is stored in the order it was first requested. */
  datatype Chat = Chat(chatId: ChatId, user1: Uuid, user2: Uuid, createdAt: nat)

  /** A row of the `messages` table; `createdAt` is set by the store on insert. */
  datatype Message = Message(chatId: ChatId, fromUuid: Uuid, toUuid: Uuid, text: string, createdAt: nat)

  /**
   * A field of a JSON request body: absent (or null) is `None`. A handler
   * that tests `!field` rejects the absent field and the empty string alike.
   */
  type Field = Option<string>

  predicate Given(f: Field) {
    f.Some? && f.value != ""
  }

  /** What an HTTP handler answers: a JSON body, or an error status. */
  datatype Reply<+T> = Ok(body: T) | Fail(status: nat)

  const BadRequest: nat := 400
  const Unauthorized: nat := 401
  const NotFound: nat := 404
  const Conflict: nat := 409
  const ServerError: nat := 500

  predicate IsParticipant(c: Chat, u: Uuid) {
    c.user1 == u || c.user2 == u
  }

  /** The chat links exactly the two users `a` and `b`, in either stored order. */
  predicate LinksPair(c: Chat, a: Uuid, b: Uuid) {
    (c.user1 == a && c.user2 == b) || (c.user1 == b && c.user2 == a)
  }

  predicate ChatIdsUnique(chats: seq<Chat>) {
    forall i, j :: 0 <= i < j < |chats| ==> chats[i].chatId != chats[j].chatId
  }

  predicate ChatIdUsed(chats: seq<Chat>, id: ChatId) {
    exists i :: 0 <= i < |chats| && chats[i].chatId == id
  }

  /**
   * The name a LEFT JOIN on `users` attaches to `uuid`: the name of the
   * first user row with that uuid, or null when there is none.
   */
  function NameOf(users: seq<User>, uuid: Uuid): (r: Option<string>)
    ensures r.None? <==> forall i :: 0 <= i < |users| ==> users[i].uuid != uuid
    ensures r.Some? ==> exists i :: 0 <= i < |users| && users[i].uuid == uuid && users[i].name == r.value
  {
    if users == [] then None
    else if users[0].uuid == uuid then Some(users[0].name)
    else
      var r := NameOf(users[1..], uuid);
      assert r.Some? ==> exists i :: 1 <= i < |users| && users[i].uuid == uuid && users[i].name == r.value by {
        if r.Some? {
          var k :| 0 <= k < |users[1..]| && users[1..][k].uuid == uuid && users[1..][k].name == r.value;
          assert users[k + 1] == users[1..][k];
        }
      }
      r
  }
}
