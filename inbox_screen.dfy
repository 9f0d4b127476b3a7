/**
 * The pure pieces of the mobile inbox screen: picking the other participant
 * of an inbox row, and turning the typed uuid into a `/create-chat` request.
 */
module InboxScreen {
  import opened Records
  import Inbox

  /**
   * The characters JavaScript's `String.prototype.trim` removes: the
   * WhiteSpace and LineTerminator code points of ECMAScript.
   */
  predicate IsJsSpace(c: char) {
    || c == '\t' || c == '\n' || c == '\U{000B}' || c == '\U{000C}' || c == '\r' || c == ' '
    || c == '\U{00A0}' || c == '\U{1680}' || ('\U{2000}' <= c <= '\U{200A}')
    || c == '\U{2028}' || c == '\U{2029}' || c == '\U{202F}' || c == '\U{205F}'
    || c == '\U{3000}' || c == '\U{FEFF}'
  }

  function TrimStart(s: string): (r: string)
    ensures |r| <= |s| && r == s[|s| - |r|..]
    ensures forall k :: 0 <= k < |s| - |r| ==> IsJsSpace(s[k])
    ensures r == [] || !IsJsSpace(r[0])
  {
    if s != [] && IsJsSpace(s[0]) then TrimStart(s[1..]) else s
  }

  function TrimEnd(s: string): (r: string)
    ensures |r| <= |s| && r == s[..|r|]
    ensures forall k :: |r| <= k < |s| ==> IsJsSpace(s[k])
    ensures r == [] || !IsJsSpace(r[|r| - 1])
  {
    if s != [] && IsJsSpace(s[|s| - 1]) then TrimEnd(s[..|s| - 1]) else s
  }

  /** `s.trim()`: never longer than `s`, and no whitespace left at either end. */
  function Trim(s: string): (r: string)
    ensures |r| <= |s|
    ensures r == [] || (!IsJsSpace(r[0]) && !IsJsSpace(r[|r| - 1]))
  {
    var t := TrimStart(s);
    var r := TrimEnd(t);
    assert r != [] ==> r[0] == t[0];
    r
  }

  /**
   * The trimmed text is the slice of the input, with only
   * whitespace cut from either end.
   */
  lemma TrimCutsOnlySpace(s: string)
    ensures var r, i := Trim(s), |s| - |TrimStart(s)|;
      && i + |r| <= |s| && r == s[i..i + |r|]
      && (forall k :: 0 <= k < i ==> IsJsSpace(s[k]))
      && (forall k :: i + |r| <= k < |s| ==> IsJsSpace(s[k]))
  {
    var t := TrimStart(s);
    var r := TrimEnd(t);
    var i := |s| - |t|;
    assert t == s[i..];
    assert r == t[..|r|];
    forall k | i + |r| <= k < |s| ensures IsJsSpace(s[k]) {
      assert s[k] == t[k - i];
    }
  }

  /** `!s.trim()`: the trimmed text is empty exactly when every character is whitespace. */
  lemma TrimEmptyIffBlank(s: string)
    ensures Trim(s) == [] <==> forall k :: 0 <= k < |s| ==> IsJsSpace(s[k])
  {
  }

  lemma {:induction false} TrimIdempotent(s: string)
    ensures Trim(Trim(s)) == Trim(s)
  {
    var r := Trim(s);
    assert TrimStart(r) == r;
    assert TrimEnd(r) == r;
  }

  /** The body `createNewChat` posts to `/create-chat`. */
  datatype CreateChatRequest = CreateChatRequest(user1Uuid: Uuid, user2Uuid: Uuid)

  /**
   * `createNewChat`: nothing is sent when the typed uuid is blank; otherwise
   * the current user goes first and the trimmed uuid second.
   */
  function NewChatRequest(me: Uuid, typed: string): (r: Option<CreateChatRequest>)
    ensures r.None? <==> forall k :: 0 <= k < |typed| ==> IsJsSpace(typed[k])
    ensures r.Some? ==> r.value.user1Uuid == me && r.value.user2Uuid == Trim(typed) && r.value.user2Uuid != ""
  {
    TrimEmptyIffBlank(typed);
    if Trim(typed) == "" then None else Some(CreateChatRequest(me, Trim(typed)))
  }

  /** A request the screen sends for a signed-in user always passes the server's 400 check. */
  lemma RequestPassesServerCheck(me: Uuid, typed: string)
    requires me != ""
    requires NewChatRequest(me, typed).Some?
    ensures var req := NewChatRequest(me, typed).value;
      Given(Some(req.user1Uuid)) && Given(Some(req.user2Uuid))
  {
  }

  /** `a || b` on strings, where `a` may be null: `a` unless it is null or empty. */
  function Or(a: Option<string>, b: string): string {
    if a.Some? && a.value != "" then a.value else b
  }

  /**
   * `getChatPartnerUuid`: one of the row's two participants, and on a row
   * where `me` takes part, the one that together with `me` makes up the pair.
   */
  function PartnerUuid(row: Inbox.InboxRow, me: Uuid): (r: Uuid)
    ensures r == row.user1 || r == row.user2
    ensures row.user1 == me || row.user2 == me ==> multiset{me, r} == multiset{row.user1, row.user2}
  {
    if row.user1 == me then row.user2 else row.user1
  }

  /**
   * `getChatPartnerName`: the joined name of the partner's column, or the
   * partner's uuid when that name is missing or empty; never blank when the
   * uuid is not.
   */
  function PartnerName(row: Inbox.InboxRow, me: Uuid): (r: string)
    ensures PartnerUuid(row, me) != "" ==> r != ""
    ensures var name := if row.user1 == me then row.user2Name else row.user1Name;
      && (name.Some? && name.value != "" ==> r == name.value)
      && (!(name.Some? && name.value != "") ==> r == PartnerUuid(row, me))
  {
    if row.user1 == me then Or(row.user2Name, row.user2) else Or(row.user1Name, row.user1)
  }

  /**
   * For a row of the user's inbox, the partner completes the chat's pair:
   * the chat links `me` and the partner, so in a chat between two different
   * users the partner is the other one.
   */
  lemma PartnerCompletesPair(users: seq<User>, messages: seq<Message>, c: Chat, me: Uuid)
    requires IsParticipant(c, me)
    ensures var partner := PartnerUuid(Inbox.RowOf(users, messages, c), me);
      LinksPair(c, me, partner) && (c.user1 != c.user2 ==> partner != me)
  {
  }

  /**
   * The name shown is the partner's own: the name the users table has for
   * the uuid `PartnerUuid` picks, or that uuid when the name is missing or
   * empty.
   */
  lemma PartnerNameIsPartners(users: seq<User>, messages: seq<Message>, c: Chat, me: Uuid)
    ensures var row := Inbox.RowOf(users, messages, c);
      PartnerName(row, me) == Or(NameOf(users, PartnerUuid(row, me)), PartnerUuid(row, me))
  {
  }
}
