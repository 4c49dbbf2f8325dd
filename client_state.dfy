/** The cached conversations both chat providers keep (`messages`, keyed by the other
    party's id) and the list updaters they share. */
module ClientState {
  import opened Types
  import opened Conversation

  type Conversations = map<UserId, seq<Message>>

  /** `currentUserIdRef.current` taken as a condition: `null` and `''` both fail it. */
  predicate SignedIn(user: Option<UserId>) {
    user.Some? && user.value != ""
  }

  /** `prev[friendId] || []`. */
  function ConversationOf(msgs: Conversations, friendId: UserId): seq<Message> {
    if friendId in msgs then msgs[friendId] else []
  }

  /** The updater of `new_message` and `message_sent`: a message whose id is already
      cached leaves everything as it was; otherwise it is appended and the list is
      re-sorted by timestamp. */
  function AddMessage(msgs: Conversations, key: UserId, m: Message): Conversations {
    var existing := ConversationOf(msgs, key);
    if FindMessage(existing, m.id).Some? then msgs
    else msgs[key := SortByTime(existing + [m])]
  }

  /** The revoke updater: every message with that id becomes an empty tombstone. */
  function Tombstone(msgs: Conversations, friendId: UserId, messageId: string): (r: Conversations)
    ensures forall k :: k != friendId ==> ConversationOf(r, k) == ConversationOf(msgs, k)
    ensures |ConversationOf(r, friendId)| == |ConversationOf(msgs, friendId)|
  {
    msgs[friendId := RevokeAll(ConversationOf(msgs, friendId), messageId)]
  }

  /** The delete updater: every message with that id leaves the friend's list. */
  function Discard(msgs: Conversations, friendId: UserId, messageId: string): (r: Conversations)
    ensures forall k :: k != friendId ==> ConversationOf(r, k) == ConversationOf(msgs, k)
    ensures forall m :: m in ConversationOf(r, friendId) <==>
                          m in ConversationOf(msgs, friendId) && m.id != messageId
    ensures forall m :: multiset(ConversationOf(r, friendId))[m] ==
                          if m.id == messageId then 0 else multiset(ConversationOf(msgs, friendId))[m]
  {
    msgs[friendId := RemoveMessage(ConversationOf(msgs, friendId), messageId)]
  }

  /** Deleting keeps every remaining timestamp at or above a bound all of `xs` respects. */
  lemma {:induction false} RemoveMessageBounded(xs: seq<Message>, id: string, lo: int)
    requires forall k :: 0 <= k < |xs| ==> lo <= xs[k].timestamp
    ensures forall k :: 0 <= k < |RemoveMessage(xs, id)| ==> lo <= RemoveMessage(xs, id)[k].timestamp
    decreases |xs|
  {
    if |xs| > 0 {
      RemoveMessageBounded(xs[1..], id, lo);
    }
  }

  lemma SortedTail(xs: seq<Message>)
    requires |xs| > 0 && SortedByTime(xs)
    ensures SortedByTime(xs[1..])
  {
    forall i, j | 0 <= i < j < |xs| - 1 ensures xs[1..][i].timestamp <= xs[1..][j].timestamp {
      assert xs[1..][i] == xs[i + 1] && xs[1..][j] == xs[j + 1];
    }
  }

  lemma SortedCons(x: Message, rest: seq<Message>)
    requires SortedByTime(rest)
    requires forall k :: 0 <= k < |rest| ==> x.timestamp <= rest[k].timestamp
    ensures SortedByTime([x] + rest)
  {
    var r := [x] + rest;
    forall i, j | 0 <= i < j < |r| ensures r[i].timestamp <= r[j].timestamp {
      assert r[j] == rest[j - 1];
      if i > 0 {
        assert r[i] == rest[i - 1];
      }
    }
  }

  /** Deleting from a conversation in timestamp order leaves it in timestamp order. */
  lemma {:induction false} RemoveMessageKeepsSorted(xs: seq<Message>, id: string)
    requires SortedByTime(xs)
    ensures SortedByTime(RemoveMessage(xs, id))
    decreases |xs|
  {
    if |xs| > 0 {
      SortedTail(xs);
      RemoveMessageKeepsSorted(xs[1..], id);
      RemoveMessageBounded(xs[1..], id, xs[0].timestamp);
      if xs[0].id != id {
        SortedCons(xs[0], RemoveMessage(xs[1..], id));
      }
    }
  }

  /** The delete updater keeps the friend's conversation in timestamp order. */
  lemma DiscardKeepsSorted(msgs: Conversations, friendId: UserId, messageId: string)
    requires SortedByTime(ConversationOf(msgs, friendId))
    ensures SortedByTime(ConversationOf(Discard(msgs, friendId, messageId), friendId))
  {
    RemoveMessageKeepsSorted(ConversationOf(msgs, friendId), messageId);
  }

  /** A message with a new id grows its list by exactly that message, leaves the list
      sorted by timestamp and every other conversation untouched. */
  lemma AddMessageFresh(msgs: Conversations, key: UserId, m: Message)
    requires FindMessage(ConversationOf(msgs, key), m.id).None?
    ensures var before := ConversationOf(msgs, key);
      var after := ConversationOf(AddMessage(msgs, key, m), key);
      && |after| == |before| + 1
      && multiset(after) == multiset(before) + multiset{m}
      && SortedByTime(after)
      && FindMessage(after, m.id).Some?
    ensures forall k :: k != key ==> ConversationOf(AddMessage(msgs, key, m), k) == ConversationOf(msgs, k)
  {
    var before := ConversationOf(msgs, key);
    var after := SortByTime(before + [m]);
    SortByTimeSorted(before + [m]);
    assert m in multiset(after);
    assert m in after;
  }

  /** Receiving the same message twice is the same as receiving it once. */
  lemma AddMessageIdempotent(msgs: Conversations, key: UserId, m: Message)
    ensures AddMessage(AddMessage(msgs, key, m), key, m) == AddMessage(msgs, key, m)
  {
    if FindMessage(ConversationOf(msgs, key), m.id).None? {
      AddMessageFresh(msgs, key, m);
    }
  }

  /** A message no older than the cached ones lands at the end of an ordered list. */
  lemma AddMessageInOrder(msgs: Conversations, key: UserId, m: Message)
    requires FindMessage(ConversationOf(msgs, key), m.id).None?
    requires SortedByTime(ConversationOf(msgs, key))
    requires forall x :: x in ConversationOf(msgs, key) ==> x.timestamp <= m.timestamp
    ensures ConversationOf(AddMessage(msgs, key, m), key) == ConversationOf(msgs, key) + [m]
  {
    var s := ConversationOf(msgs, key) + [m];
    assert forall i :: 0 <= i < |s| - 1 ==> s[i] in ConversationOf(msgs, key);
    SortByTimeSortedInput(s);
  }

  /** Revoking twice is revoking once. */
  lemma TombstoneIdempotent(msgs: Conversations, friendId: UserId, messageId: string)
    ensures Tombstone(Tombstone(msgs, friendId, messageId), friendId, messageId)
            == Tombstone(msgs, friendId, messageId)
  {
    var once := RevokeAll(ConversationOf(msgs, friendId), messageId);
    assert RevokeAll(once, messageId) == once;
  }

  /** A tombstone keeps the message in place under its id, emptied and marked revoked. */
  lemma TombstoneKeepsPlace(msgs: Conversations, friendId: UserId, messageId: string, j: nat)
    requires j < |ConversationOf(msgs, friendId)|
    requires ConversationOf(msgs, friendId)[j].id == messageId
    ensures var m := ConversationOf(Tombstone(msgs, friendId, messageId), friendId)[j];
      m.id == messageId && m.isRevoked && m.content == ""
      && m.senderId == ConversationOf(msgs, friendId)[j].senderId
      && m.timestamp == ConversationOf(msgs, friendId)[j].timestamp
  {
  }

  /** Deleting twice is deleting once. */
  lemma {:induction false} RemoveMessageIdempotent(xs: seq<Message>, id: string)
    ensures RemoveMessage(RemoveMessage(xs, id), id) == RemoveMessage(xs, id)
  {
    if |xs| > 0 {
      RemoveMessageIdempotent(xs[1..], id);
      if xs[0].id != id {
        var rest := RemoveMessage(xs[1..], id);
        assert ([xs[0]] + rest)[1..] == rest;
      }
    }
  }

  /** Deleting an id the list does not hold changes nothing. */
  lemma {:induction false} RemoveMessageNoId(xs: seq<Message>, id: string)
    requires FindMessage(xs, id).None?
    ensures RemoveMessage(xs, id) == xs
  {
    if |xs| > 0 {
      assert FindMessage(xs[1..], id).None? by {
        forall j | 0 <= j < |xs[1..]| ensures xs[1..][j].id != id {
          assert xs[1..][j] == xs[j + 1];
        }
      }
      RemoveMessageNoId(xs[1..], id);
      assert xs == [xs[0]] + xs[1..];
    }
  }
}
