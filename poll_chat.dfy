/** The polling chat provider of src/contexts/ChatContext.polling.tsx: no socket, an
    optimistic local send, a local revoke with its own two-minute check, and fetched
    conversations that replace the cached ones. */
module PollChat {
  import opened Types
  import opened Text
  import opened Conversation
  import opened ServerStore
  import opened ClientState

  /** The id of an optimistic message, `temp-${Date.now()}`. */
  function TempId(now: nat): (r: string)
    ensures |r| > 5 && r[..5] == "temp-"
  {
    "temp-" + Decimal(now)
  }

  /** The checks of `revokeMessage`, against the cached conversation: the message must
      be cached under the friend and sent by the current user (a missing user matches
      no sender), and at most two minutes old. */
  function LocalRevoke(msgs: Conversations, user: Option<UserId>, friendId: UserId,
                       messageId: string, now: int): (r: Result<()>)
    ensures r.Ok? <==>
      var f := FindMessage(ConversationOf(msgs, friendId), messageId);
      && f.Some? && user == Some(ConversationOf(msgs, friendId)[f.value].senderId)
      && now - ConversationOf(msgs, friendId)[f.value].timestamp <= RevokeWindow
    ensures r.Err? ==> r.error == NotOwnMessage || r.error == RevokeExpired
  {
    var cached := ConversationOf(msgs, friendId);
    match FindMessage(cached, messageId)
    case None => Err(NotOwnMessage)
    case Some(i) =>
      if user != Some(cached[i].senderId) then Err(NotOwnMessage)
      else if now - cached[i].timestamp > RevokeWindow then Err(RevokeExpired)
      else Ok(())
  }

  /** `requests.filter(r => r.toUserId === currentUserIdRef.current && r.status === 'pending')`. */
  function Incoming(requests: seq<FriendRequest>, user: Option<UserId>): (r: seq<FriendRequest>)
    ensures forall q :: q in r <==> q in requests && Some(q.toUserId) == user && q.status == Pending
  {
    if |requests| == 0 then []
    else
      var rest := Incoming(requests[1..], user);
      assert forall q :: q in requests <==> q == requests[0] || q in requests[1..];
      if Some(requests[0].toUserId) == user && requests[0].status == Pending
      then [requests[0]] + rest else rest
  }

  /** `requests.filter(r => r.fromUserId === currentUserIdRef.current && r.status === 'pending')`. */
  function Outgoing(requests: seq<FriendRequest>, user: Option<UserId>): (r: seq<FriendRequest>)
    ensures forall q :: q in r <==> q in requests && Some(q.fromUserId) == user && q.status == Pending
  {
    if |requests| == 0 then []
    else
      var rest := Outgoing(requests[1..], user);
      assert forall q :: q in requests <==> q == requests[0] || q in requests[1..];
      if Some(requests[0].fromUserId) == user && requests[0].status == Pending
      then [requests[0]] + rest else rest
  }

  /** The client's incoming filter keeps exactly what the server's incoming query
      returns, in the same order. */
  lemma {:induction false} IncomingAgreesWithServer(requests: seq<FriendRequest>, user: UserId)
    ensures Incoming(requests, Some(user)) == IncomingRequests(requests, user)
  {
    if |requests| > 0 {
      IncomingAgreesWithServer(requests[1..], user);
    }
  }

  /** With nobody signed in both filters are empty. */
  lemma SignedOutFiltersEmpty(requests: seq<FriendRequest>)
    ensures Incoming(requests, None) == [] && Outgoing(requests, None) == []
  {
    if |requests| > 0 {
      assert requests[0] in requests;
      if Incoming(requests, None) != [] {
        assert Incoming(requests, None)[0] in Incoming(requests, None);
      }
      if Outgoing(requests, None) != [] {
        assert Outgoing(requests, None)[0] in Outgoing(requests, None);
      }
    }
  }

  /** A request is never both incoming and outgoing for someone unless it is addressed to
      its own sender. */
  lemma IncomingOutgoingDisjoint(requests: seq<FriendRequest>, user: UserId, q: FriendRequest)
    requires q in Incoming(requests, Some(user)) && q in Outgoing(requests, Some(user))
    ensures q.fromUserId == q.toUserId
  {
  }

  /** The local check and the server's check agree on a cached conversation that matches
      the stored log, and so do their tombstones when the id occurs once in it. */
  lemma LocalRevokeAgreesWithServer(st: Store, msgs: Conversations, user: UserId, friendId: UserId,
                                    messageId: string, now: int)
    requires ConversationOf(msgs, friendId) == MessagesAt(st.messages, Key(user, friendId))
    ensures LocalRevoke(msgs, Some(user), friendId, messageId, now).Ok?
            <==> Revoke(st, user, friendId, messageId, now).0.Ok?
    ensures LocalRevoke(msgs, Some(user), friendId, messageId, now).Err? ==>
              LocalRevoke(msgs, Some(user), friendId, messageId, now)
                == Revoke(st, user, friendId, messageId, now).0
    ensures (Revoke(st, user, friendId, messageId, now).0.Ok? &&
             forall j, k :: 0 <= j < k < |ConversationOf(msgs, friendId)| ==>
               ConversationOf(msgs, friendId)[j].id != ConversationOf(msgs, friendId)[k].id) ==>
              ConversationOf(Tombstone(msgs, friendId, messageId), friendId)
                == MessagesAt(Revoke(st, user, friendId, messageId, now).1.messages, Key(user, friendId))
  {
    var log := MessagesAt(st.messages, Key(user, friendId));
    var f := FindMessage(log, messageId);
    if Revoke(st, user, friendId, messageId, now).0.Ok? {
      var tomb := log[f.value := log[f.value].(isRevoked := true, content := "")];
      assert MessagesAt(Revoke(st, user, friendId, messageId, now).1.messages, Key(user, friendId)) == tomb;
      if forall j, k :: 0 <= j < k < |log| ==> log[j].id != log[k].id {
        assert RevokeAll(log, messageId) == tomb;
      }
    }
  }

  class PollingChatClient {
    var friends: seq<Friend>
    var messages: Conversations
    var currentChatId: Option<UserId>
    var requests: seq<FriendRequest>
    /** `currentUserIdRef.current`. */
    var currentUser: Option<UserId>

    constructor ()
      ensures friends == [] && messages == map[] && requests == []
      ensures currentChatId.None? && currentUser.None?
    {
      friends := [];
      messages := map[];
      currentChatId := None;
      requests := [];
      currentUser := None;
    }

    /** The `user_logged_in` listener up to its fetches. */
    method UserLoggedIn(userId: UserId)
      modifies this
      ensures currentUser == Some(userId)
      ensures friends == old(friends) && messages == old(messages) && requests == old(requests)
      ensures currentChatId == old(currentChatId)
    {
      currentUser := Some(userId);
    }

    /** The `user_logged_out` listener: forget the user and every cached list; the open
        chat id stays. */
    method Logout()
      modifies this
      ensures currentUser.None? && friends == [] && messages == map[] && requests == []
      ensures currentChatId == old(currentChatId)
    {
      currentUser := None;
      friends := [];
      messages := map[];
      requests := [];
    }

    /** `loadFriends` once its fetch returns. */
    method LoadFriends(fetched: seq<Friend>)
      modifies this
      ensures friends == fetched
      ensures messages == old(messages) && requests == old(requests)
      ensures currentUser == old(currentUser) && currentChatId == old(currentChatId)
    {
      friends := fetched;
    }

    /** `loadIncomingRequests` once its fetch returns. */
    method LoadIncomingRequests(fetched: seq<FriendRequest>)
      modifies this
      ensures requests == fetched
      ensures messages == old(messages) && friends == old(friends)
      ensures currentUser == old(currentUser) && currentChatId == old(currentChatId)
    {
      requests := fetched;
    }

    /** `loadMessages` once its fetch returns: with a user signed in, the fetched list
        replaces the cached conversation wholesale, optimistic messages included. */
    method LoadMessages(friendId: UserId, fetched: seq<Message>)
      modifies this
      ensures SignedIn(currentUser) ==> messages == old(messages)[friendId := fetched]
      ensures SignedIn(currentUser) ==> ConversationOf(messages, friendId) == fetched
      ensures !SignedIn(currentUser) ==> messages == old(messages)
      ensures forall k :: k != friendId ==> ConversationOf(messages, k) == ConversationOf(old(messages), k)
      ensures friends == old(friends) && requests == old(requests)
      ensures currentUser == old(currentUser) && currentChatId == old(currentChatId)
    {
      if currentUser.None? || currentUser.value == "" {
        return;
      }
      messages := messages[friendId := fetched];
    }

    /** `sendMessage`: with a user signed in, append an optimistic message under a
        temporary id at the end of the conversation.  The content is neither trimmed nor
        checked, the friend's status is not consulted and no server is called. */
    method SendMessage(friendId: UserId, content: string, now: nat)
      modifies this
      ensures SignedIn(currentUser) ==>
        ConversationOf(messages, friendId)
          == ConversationOf(old(messages), friendId)
             + [Message(TempId(now), currentUser.value, friendId, content, now, false)]
      ensures !SignedIn(currentUser) ==> messages == old(messages)
      ensures forall k :: k != friendId ==> ConversationOf(messages, k) == ConversationOf(old(messages), k)
      ensures friends == old(friends) && requests == old(requests)
      ensures currentUser == old(currentUser) && currentChatId == old(currentChatId)
    {
      if currentUser.None? || currentUser.value == "" {
        return;
      }
      var temp := Message(TempId(now), currentUser.value, friendId, content, now, false);
      messages := messages[friendId := ConversationOf(messages, friendId) + [temp]];
    }

    /** `deleteMessage`: drop the message locally, signed in or not; the refresh that
        follows is `LoadMessages`. */
    method DeleteMessage(friendId: UserId, messageId: string)
      modifies this
      ensures messages == Discard(old(messages), friendId, messageId)
      ensures friends == old(friends) && requests == old(requests)
      ensures currentUser == old(currentUser) && currentChatId == old(currentChatId)
    {
      messages := Discard(messages, friendId, messageId);
    }

    /** `revokeMessage`: the local checks, then a local tombstone. */
    method RevokeMessage(friendId: UserId, messageId: string, now: int)
      returns (success: bool, error: Option<string>)
      modifies this
      ensures var r := LocalRevoke(old(messages), currentUser, friendId, messageId, now);
        && (success <==> r.Ok?)
        && (r.Ok? ==> error.None? && messages == Tombstone(old(messages), friendId, messageId))
        && (r.Err? ==> error == Some(ErrorText(r.error)) && messages == old(messages))
      ensures friends == old(friends) && requests == old(requests)
      ensures currentUser == old(currentUser) && currentChatId == old(currentChatId)
    {
      var cached := ConversationOf(messages, friendId);
      var i := FindMessage(cached, messageId);
      if i.None? || currentUser != Some(cached[i.value].senderId) {
        return false, Some(ErrorText(NotOwnMessage));
      }
      if now - cached[i.value].timestamp > RevokeWindow {
        return false, Some(ErrorText(RevokeExpired));
      }
      messages := messages[friendId := RevokeAll(cached, messageId)];
      return true, None;
    }

    /** `setCurrentChatId`; the polling it starts is left out. */
    method SetCurrentChatId(id: Option<UserId>)
      modifies this
      ensures currentChatId == id
      ensures friends == old(friends) && messages == old(messages) && requests == old(requests)
      ensures currentUser == old(currentUser)
    {
      currentChatId := id;
    }
  }

  /** A fetched conversation with no optimistic ids leaves none behind. */
  lemma FetchDropsTemp(msgs: Conversations, friendId: UserId, fetched: seq<Message>, now: nat)
    requires forall m :: m in fetched ==> m.id != TempId(now)
    ensures FindMessage(ConversationOf(msgs[friendId := fetched], friendId), TempId(now)).None?
  {
  }
}
