/**
 * The conversation registry behind `/create-chat`: look a chat up by its
 * participant pair in either stored order, and insert one only when there is
 * none. These are the functions the `ChatServer.CreateChat` handler is
 * specified by; the lemmas are the registry's guarantees.
 */
module Registry {
  import opened Records

  /**
   * The SELECT of `/create-chat`: the position of the first chat that links
   * `a` and `b`, in either stored order.
   */
  function FindChat(chats: seq<Chat>, a: Uuid, b: Uuid): (r: Option<nat>)
    ensures r.None? <==> forall i :: 0 <= i < |chats| ==> !LinksPair(chats[i], a, b)
    ensures r.Some? ==> r.value < |chats| && LinksPair(chats[r.value], a, b)
    ensures r.Some? ==> forall i :: 0 <= i < r.value ==> !LinksPair(chats[i], a, b)
  {
    if chats == [] then None
    else if LinksPair(chats[0], a, b) then Some(0)
    else
      match FindChat(chats[1..], a, b)
      case None => None
      case Some(i) => Some(i + 1)
  }

  /** At most one chat per unordered pair of participants. */
  ghost predicate PairsUnique(chats: seq<Chat>) {
    forall i, j :: 0 <= i < j < |chats| ==> !LinksPair(chats[j], chats[i].user1, chats[i].user2)
  }

  /** The registry's invariant: chat ids are keys, and pairs are unique. */
  ghost predicate RegistryValid(chats: seq<Chat>) {
    ChatIdsUnique(chats) && PairsUnique(chats)
  }

  /**
   * `/create-chat` once its arguments are accepted and the store answers:
   * the id of the existing chat for the pair, or `freshId` for a new chat
   * `(freshId, a, b)` appended to the table. Earlier rows never change.
   */
  function GetOrCreate(chats: seq<Chat>, a: Uuid, b: Uuid, freshId: ChatId, now: nat): (r: (ChatId, seq<Chat>))
    ensures |chats| <= |r.1| <= |chats| + 1 && r.1[..|chats|] == chats
    ensures (exists i :: 0 <= i < |chats| && LinksPair(chats[i], a, b)) ==>
              r.1 == chats && exists i :: 0 <= i < |chats| && LinksPair(chats[i], a, b) && chats[i].chatId == r.0
    ensures (forall i :: 0 <= i < |chats| ==> !LinksPair(chats[i], a, b)) ==>
              r == (freshId, chats + [Chat(freshId, a, b, now)])
  {
    match FindChat(chats, a, b)
    case Some(i) => (chats[i].chatId, chats)
    case None => (freshId, chats + [Chat(freshId, a, b, now)])
  }

  /** The lookup does not depend on the order in which the pair is given. */
  lemma {:induction false} FindChatSymmetric(chats: seq<Chat>, a: Uuid, b: Uuid)
    ensures FindChat(chats, a, b) == FindChat(chats, b, a)
  {
    if chats != [] {
      FindChatSymmetric(chats[1..], a, b);
    }
  }

  /**
   * When a chat for the pair exists and pairs are unique, that very chat's
   * id is returned, whichever of the two orders it was stored in, and the
   * table is left as it was.
   */
  lemma ExistingChatReturned(chats: seq<Chat>, a: Uuid, b: Uuid, freshId: ChatId, now: nat, k: nat)
    requires PairsUnique(chats)
    requires k < |chats| && LinksPair(chats[k], a, b)
    ensures GetOrCreate(chats, a, b, freshId, now) == (chats[k].chatId, chats)
  {
    var i := FindChat(chats, a, b).value;
    if i < k {
      assert LinksPair(chats[k], chats[i].user1, chats[i].user2);
    }
  }

  /** A fresh id keeps ids unique and a new pair keeps pairs unique. */
  lemma GetOrCreateKeepsValid(chats: seq<Chat>, a: Uuid, b: Uuid, freshId: ChatId, now: nat)
    requires RegistryValid(chats)
    requires !ChatIdUsed(chats, freshId)
    ensures RegistryValid(GetOrCreate(chats, a, b, freshId, now).1)
  {
    var after := GetOrCreate(chats, a, b, freshId, now).1;
    if after != chats {
      var n := |chats|;
      forall i, j | 0 <= i < j < |after|
        ensures after[i].chatId != after[j].chatId
        ensures !LinksPair(after[j], after[i].user1, after[i].user2)
      {
        if j == n {
          assert after[i] == chats[i];
        }
      }
    }
  }

  /** After get-or-create, exactly one chat links the pair, and its id is the one returned. */
  lemma ExactlyOneChatForPair(chats: seq<Chat>, a: Uuid, b: Uuid, freshId: ChatId, now: nat)
    requires PairsUnique(chats)
    ensures var (id, after) := GetOrCreate(chats, a, b, freshId, now);
      exists k :: 0 <= k < |after| && LinksPair(after[k], a, b) && after[k].chatId == id &&
        forall j :: 0 <= j < |after| && LinksPair(after[j], a, b) ==> j == k
  {
    var (id, after) := GetOrCreate(chats, a, b, freshId, now);
    var k := if FindChat(chats, a, b).Some? then FindChat(chats, a, b).value else |chats|;
    assert LinksPair(after[k], a, b) && after[k].chatId == id;
    if k < |chats| {
      PairOnlyAt(chats, a, b, k);
    }
  }

  /** Under unique pairs, a chat linking `a` and `b` is the only one that does. */
  lemma PairOnlyAt(chats: seq<Chat>, a: Uuid, b: Uuid, k: nat)
    requires PairsUnique(chats)
    requires k < |chats| && LinksPair(chats[k], a, b)
    ensures forall j :: 0 <= j < |chats| && j != k ==> !LinksPair(chats[j], a, b)
  {
    forall j | 0 <= j < |chats| && j != k ensures !LinksPair(chats[j], a, b) {
      if j < k {
        assert !LinksPair(chats[k], chats[j].user1, chats[j].user2);
      } else {
        assert !LinksPair(chats[j], chats[k].user1, chats[k].user2);
      }
    }
  }

  /**
   * Idempotence under swap: asking again with the arguments swapped returns
   * the same id and inserts nothing, whatever fresh id is offered.
   */
  lemma {:induction false} SwappedRequestSameChat(chats: seq<Chat>, a: Uuid, b: Uuid,
                                                  id1: ChatId, now1: nat, id2: ChatId, now2: nat)
    ensures var (first, after) := GetOrCreate(chats, a, b, id1, now1);
      GetOrCreate(after, b, a, id2, now2) == (first, after)
  {
    var (first, after) := GetOrCreate(chats, a, b, id1, now1);
    FindChatSymmetric(after, b, a);
    if FindChat(chats, a, b).None? {
      assert LinksPair(after[|chats|], a, b);
      assert forall i :: 0 <= i < |chats| ==> after[i] == chats[i];
      assert FindChat(after, a, b) == Some(|chats|);
    }
  }
}
