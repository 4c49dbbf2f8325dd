/** The socket-driven chat provider of src/contexts/ChatContext.tsx: the listeners'
    state updaters as functions over the cached view, and the provider itself as a class
    whose methods emit socket events and update its state. */
module PushChat {
  import opened Types
  import opened Text
  import opened Conversation
  import opened ClientState

  /** What the provider emits on its socket. */
  datatype Emit =
    | EmitLogin(userId: UserId)
    | EmitSendMessage(friendId: UserId, content: string, senderId: UserId)
    | EmitDeleteMessage(messageId: string, friendId: UserId, userId: UserId)
    | EmitRevokeMessage(messageId: string, friendId: UserId, userId: UserId)
    | EmitMarkRead(friendId: UserId, userId: UserId)

  /** The three pieces of state the socket listeners update. */
  datatype View = View(friends: seq<Friend>, messages: Conversations, requests: seq<FriendRequest>)

  /** `new_message` files a message under the other party. */
  function OtherParty(self: UserId, m: Message): (r: UserId)
    ensures r == m.senderId || r == m.receiverId
    ensures m.senderId != self ==> r == m.senderId
  {
    if m.senderId == self then m.receiverId else m.senderId
  }

  /** The `friend_request` updater: a request with an unseen id is appended. */
  function OnFriendRequest(reqs: seq<FriendRequest>, q: FriendRequest): (r: seq<FriendRequest>)
    ensures |r| == |reqs| || |r| == |reqs| + 1
    ensures |r| == |reqs| + 1 <==> FindRequest(reqs, q.id).None?
    ensures FindRequest(r, q.id).Some? && r[..|reqs|] == reqs
    ensures FindRequest(reqs, q.id).None? ==> r == reqs + [q]
    ensures FindRequest(reqs, q.id).Some? ==> r == reqs
  {
    if FindRequest(reqs, q.id).Some? then reqs
    else
      assert (reqs + [q])[|reqs|].id == q.id;
      reqs + [q]
  }

  /** The `friend_approved` updater: every record for the peer becomes accepted. */
  function OnFriendApproved(friends: seq<Friend>, friendId: UserId): (r: seq<Friend>)
    ensures |r| == |friends|
    ensures forall j :: 0 <= j < |r| ==> r[j].id == friends[j].id
    ensures forall j :: 0 <= j < |r| && friends[j].id == friendId ==>
              r[j] == friends[j].(status := Some(Accepted))
    ensures forall j :: 0 <= j < |r| && friends[j].id != friendId ==> r[j] == friends[j]
  {
    seq(|friends|, j requires 0 <= j < |friends| =>
      if friends[j].id == friendId then friends[j].(status := Some(Accepted)) else friends[j])
  }

  /** `update.x ?? f.x`. */
  function Or<T>(update: Option<T>, current: T): T {
    if update.Some? then update.value else current
  }

  /** The `friend_updated` updater: fields present in the update overwrite, the absent
      ones keep their value. */
  function OnFriendUpdated(friends: seq<Friend>, friendId: UserId, lastMessage: Option<string>,
                           lastMessageTime: Option<int>, unreadCount: Option<int>): (r: seq<Friend>)
    ensures |r| == |friends|
    ensures forall j :: 0 <= j < |r| && friends[j].id != friendId ==> r[j] == friends[j]
    ensures forall j :: 0 <= j < |r| && friends[j].id == friendId ==>
              && r[j].id == friends[j].id && r[j].name == friends[j].name
              && r[j].status == friends[j].status
              && (lastMessage.None? ==> r[j].lastMessage == friends[j].lastMessage)
              && (lastMessage.Some? ==> r[j].lastMessage == lastMessage)
              && (lastMessageTime.None? ==> r[j].lastMessageTime == friends[j].lastMessageTime)
              && (lastMessageTime.Some? ==> r[j].lastMessageTime == lastMessageTime)
              && r[j].unreadCount == Or(unreadCount, friends[j].unreadCount)
  {
    seq(|friends|, j requires 0 <= j < |friends| =>
      var f := friends[j];
      if f.id == friendId
      then f.(lastMessage := if lastMessage.Some? then lastMessage else f.lastMessage,
              lastMessageTime := if lastMessageTime.Some? then lastMessageTime else f.lastMessageTime,
              unreadCount := Or(unreadCount, f.unreadCount))
      else f)
  }

  /** The `read_updated` updater, and the local reset when a chat opens: the peer's
      records get the count, nothing else changes. */
  function SetUnread(friends: seq<Friend>, friendId: UserId, count: int): (r: seq<Friend>)
    ensures |r| == |friends|
    ensures forall j :: 0 <= j < |r| && friends[j].id != friendId ==> r[j] == friends[j]
    ensures forall j :: 0 <= j < |r| && friends[j].id == friendId ==>
              r[j] == friends[j].(unreadCount := count)
  {
    seq(|friends|, j requires 0 <= j < |friends| =>
      if friends[j].id == friendId then friends[j].(unreadCount := count) else friends[j])
  }

  /** The local preview after a delete: the peer's records show the last message that
      remains, or no preview once nothing remains. */
  function RefreshPreview(friends: seq<Friend>, friendId: UserId, remaining: seq<Message>)
    : (r: seq<Friend>)
    ensures |r| == |friends|
    ensures forall j :: 0 <= j < |r| && friends[j].id != friendId ==> r[j] == friends[j]
    ensures forall j :: 0 <= j < |r| && friends[j].id == friendId ==>
              && r[j].id == friends[j].id && r[j].name == friends[j].name
              && r[j].unreadCount == friends[j].unreadCount && r[j].status == friends[j].status
              && (|remaining| == 0 ==> r[j].lastMessage.None? && r[j].lastMessageTime.None?)
              && (|remaining| > 0 ==>
                    r[j].lastMessage == Some(remaining[|remaining| - 1].content) &&
                    r[j].lastMessageTime == Some(remaining[|remaining| - 1].timestamp))
  {
    var lastMessage := if |remaining| > 0 then Some(remaining[|remaining| - 1].content) else None;
    var lastTime := if |remaining| > 0 then Some(remaining[|remaining| - 1].timestamp) else None;
    seq(|friends|, j requires 0 <= j < |friends| =>
      if friends[j].id == friendId
      then friends[j].(lastMessage := lastMessage, lastMessageTime := lastTime)
      else friends[j])
  }

  /** The listener table of `connectSocket(self)`: each pushed event through its updater.
      `error` only logs. */
  function Apply(v: View, self: UserId, ev: Event): View {
    match ev
    case NewMessage(m) => v.(messages := AddMessage(v.messages, OtherParty(self, m), m))
    case MessageSent(m) => v.(messages := AddMessage(v.messages, m.receiverId, m))
    case MessageRevoked(id, friendId) => v.(messages := Tombstone(v.messages, friendId, id))
    case MessageDeleted(id, friendId) => v.(messages := Discard(v.messages, friendId, id))
    case FriendRequestReceived(q) => v.(requests := OnFriendRequest(v.requests, q))
    case FriendApproved(friendId, _) => v.(friends := OnFriendApproved(v.friends, friendId))
    case FriendUpdated(friendId, lm, lmt, uc) =>
      v.(friends := OnFriendUpdated(v.friends, friendId, lm, lmt, uc))
    case ReadUpdated(friendId, count) => v.(friends := SetUnread(v.friends, friendId, count))
    case ServerError(_) => v
  }

  /** The guard of `sendMessage`: something to say after trimming, a live socket, a
      signed-in user, and a cached record for the friend whose status, when it has one,
      is accepted. */
  predicate MaySend(friends: seq<Friend>, connected: bool, user: Option<UserId>, friendId: UserId,
                    content: string)
  {
    && Trim(content) != "" && connected && SignedIn(user)
    && match FindFriend(friends, friendId)
       case None => false
       case Some(i) => friends[i].status.None? || friends[i].status == Some(Accepted)
  }

  /** Every pushed event, delivered twice, has the effect of one delivery: the message
      updaters deduplicate by id and the friend updaters set rather than add. */
  lemma {:induction false} ApplyTwice(v: View, self: UserId, ev: Event)
    ensures Apply(Apply(v, self, ev), self, ev) == Apply(v, self, ev)
  {
    match ev
    case NewMessage(m) => AddMessageIdempotent(v.messages, OtherParty(self, m), m);
    case MessageSent(m) => AddMessageIdempotent(v.messages, m.receiverId, m);
    case MessageRevoked(id, friendId) => TombstoneIdempotent(v.messages, friendId, id);
    case MessageDeleted(id, friendId) =>
      RemoveMessageIdempotent(ConversationOf(v.messages, friendId), id);
    case FriendRequestReceived(q) =>
      assert FindRequest(OnFriendRequest(v.requests, q), q.id).Some?;
    case FriendApproved(friendId, _) =>
    case FriendUpdated(friendId, lm, lmt, uc) =>
    case ReadUpdated(friendId, count) =>
    case ServerError(_) =>
  }

  /** The sender's own confirmation and a later echo of the same message as
      `new_message` file it in one place, once. */
  lemma SentThenEchoed(v: View, self: UserId, m: Message)
    requires m.senderId == self
    ensures var sent := Apply(v, self, MessageSent(m));
      Apply(sent, self, NewMessage(m)) == sent
  {
    AddMessageIdempotent(v.messages, m.receiverId, m);
  }

  /** A message the guard lets through always carries content the server accepts:
      non-empty and already trimmed. */
  lemma MaySendContent(friends: seq<Friend>, connected: bool, user: Option<UserId>,
                       friendId: UserId, content: string)
    requires MaySend(friends, connected, user, friendId, content)
    ensures Trim(content) != "" && Trim(Trim(content)) == Trim(content)
    ensures FindFriend(friends, friendId).Some?
  {
    TrimIdempotent(content);
  }

  /** A whitespace-only draft is never sent. */
  lemma BlankNeverSent(friends: seq<Friend>, connected: bool, user: Option<UserId>,
                       friendId: UserId, content: string)
    requires AllSpace(content)
    ensures !MaySend(friends, connected, user, friendId, content)
  {
    TrimEmptyIff(content);
  }

  class ChatClient {
    var friends: seq<Friend>
    var messages: Conversations
    var currentChatId: Option<UserId>
    var requests: seq<FriendRequest>
    var isConnected: bool
    /** `currentUserIdRef.current`. */
    var currentUser: Option<UserId>
    /** The `userId` the socket listeners were registered with. */
    var socketUser: UserId

    function State(): View
      reads this
    {
      View(friends, messages, requests)
    }

    constructor ()
      ensures State() == View([], map[], [])
      ensures currentChatId.None? && !isConnected && currentUser.None?
    {
      friends := [];
      messages := map[];
      currentChatId := None;
      requests := [];
      isConnected := false;
      currentUser := None;
      socketUser := "";
    }

    /** `initializeForUser` up to its fetches: record the user and, unless a socket is
        already connected, connect one and log in on it. */
    method InitializeForUser(userId: UserId) returns (out: seq<Emit>)
      modifies this
      ensures currentUser == Some(userId) && isConnected
      ensures old(isConnected) ==> out == [] && socketUser == old(socketUser)
      ensures !old(isConnected) ==> out == [EmitLogin(userId)] && socketUser == userId
      ensures State() == old(State()) && currentChatId == old(currentChatId)
    {
      currentUser := Some(userId);
      out := [];
      if !isConnected {
        socketUser := userId;
        isConnected := true;
        out := [EmitLogin(userId)];
      }
    }

    /** The socket's `disconnect` listener. */
    method Disconnected()
      modifies this
      ensures !isConnected
      ensures State() == old(State()) && currentUser == old(currentUser)
      ensures currentChatId == old(currentChatId) && socketUser == old(socketUser)
    {
      isConnected := false;
    }

    /** One event pushed by the server, through its listener. */
    method Receive(ev: Event)
      modifies this
      ensures State() == Apply(old(State()), socketUser, ev)
      ensures socketUser == old(socketUser) && currentUser == old(currentUser)
      ensures isConnected == old(isConnected) && currentChatId == old(currentChatId)
    {
      match ev {
        case NewMessage(m) =>
          messages := AddMessage(messages, OtherParty(socketUser, m), m);
        case MessageSent(m) =>
          messages := AddMessage(messages, m.receiverId, m);
        case MessageRevoked(id, friendId) =>
          messages := Tombstone(messages, friendId, id);
        case MessageDeleted(id, friendId) =>
          messages := Discard(messages, friendId, id);
        case FriendRequestReceived(q) =>
          requests := OnFriendRequest(requests, q);
        case FriendApproved(friendId, _) =>
          friends := OnFriendApproved(friends, friendId);
        case FriendUpdated(friendId, lm, lmt, uc) =>
          friends := OnFriendUpdated(friends, friendId, lm, lmt, uc);
        case ReadUpdated(friendId, count) =>
          friends := SetUnread(friends, friendId, count);
        case ServerError(_) =>
      }
    }

    /** The fetched friend list replaces the cached one. */
    method LoadFriends(fetched: seq<Friend>)
      modifies this
      ensures friends == fetched
      ensures messages == old(messages) && requests == old(requests)
      ensures currentUser == old(currentUser) && isConnected == old(isConnected)
      ensures currentChatId == old(currentChatId) && socketUser == old(socketUser)
    {
      friends := fetched;
    }

    /** The fetched incoming requests replace the cached ones. */
    method LoadRequests(fetched: seq<FriendRequest>)
      modifies this
      ensures requests == fetched
      ensures messages == old(messages) && friends == old(friends)
      ensures currentUser == old(currentUser) && isConnected == old(isConnected)
      ensures currentChatId == old(currentChatId) && socketUser == old(socketUser)
    {
      requests := fetched;
    }

    /** The fetched conversation replaces the cached one for that friend. */
    method LoadMessages(friendId: UserId, fetched: seq<Message>)
      modifies this
      ensures messages == old(messages)[friendId := fetched]
      ensures ConversationOf(messages, friendId) == fetched
      ensures forall k :: k != friendId ==> ConversationOf(messages, k) == ConversationOf(old(messages), k)
      ensures friends == old(friends) && requests == old(requests)
      ensures currentUser == old(currentUser) && isConnected == old(isConnected)
      ensures currentChatId == old(currentChatId) && socketUser == old(socketUser)
    {
      messages := messages[friendId := fetched];
    }

    /** `sendMessage`: emits the trimmed content when the guard holds, nothing otherwise;
        the cached state is left to the server's confirmation. */
    method SendMessage(friendId: UserId, content: string) returns (out: seq<Emit>)
      ensures MaySend(friends, isConnected, currentUser, friendId, content) ==>
                out == [EmitSendMessage(friendId, Trim(content), currentUser.value)]
      ensures !MaySend(friends, isConnected, currentUser, friendId, content) ==> out == []
    {
      out := [];
      if Trim(content) == "" || !isConnected || currentUser.None? || currentUser.value == "" {
        return;
      }
      var target := FindFriend(friends, friendId);
      if target.None? || (target.value < |friends| && friends[target.value].status.Some? &&
                          friends[target.value].status != Some(Accepted)) {
        return;
      }
      out := [EmitSendMessage(friendId, Trim(content), currentUser.value)];
    }

    /** `deleteMessage`: with a live socket and a signed-in user, ask the server to
        delete, drop the message locally and recompute the friend's preview. */
    method DeleteMessage(friendId: UserId, messageId: string) returns (out: seq<Emit>)
      modifies this
      ensures !(isConnected && SignedIn(currentUser)) ==> out == [] && State() == old(State())
      ensures isConnected && SignedIn(currentUser) ==>
        && out == [EmitDeleteMessage(messageId, friendId, currentUser.value)]
        && messages == Discard(old(messages), friendId, messageId)
        && friends == RefreshPreview(old(friends), friendId, ConversationOf(messages, friendId))
        && requests == old(requests)
      ensures currentUser == old(currentUser) && isConnected == old(isConnected)
      ensures currentChatId == old(currentChatId) && socketUser == old(socketUser)
    {
      out := [];
      if !isConnected || currentUser.None? || currentUser.value == "" {
        return;
      }
      out := [EmitDeleteMessage(messageId, friendId, currentUser.value)];
      var filtered := RemoveMessage(ConversationOf(messages, friendId), messageId);
      friends := RefreshPreview(friends, friendId, filtered);
      messages := messages[friendId := filtered];
    }

    /** `revokeMessage`: asks the server and reports success whenever it could ask; the
        cached state waits for the server's `message_revoked`. */
    method RevokeMessage(friendId: UserId, messageId: string)
      returns (success: bool, error: Option<string>, out: seq<Emit>)
      ensures success <==> isConnected && SignedIn(currentUser)
      ensures success ==> error.None? && out == [EmitRevokeMessage(messageId, friendId, currentUser.value)]
      ensures !success ==> error == Some("WebSocket 未连接") && out == []
    {
      if !isConnected || currentUser.None? || currentUser.value == "" {
        return false, Some("WebSocket 未连接"), [];
      }
      return true, None, [EmitRevokeMessage(messageId, friendId, currentUser.value)];
    }

    /** `setCurrentChatId` and the effect that runs when the id changes: with a chat and
        a signed-in user, mark the chat read on the server when connected and clear its
        unread count locally.  Loading its messages is `LoadMessages`. */
    method OpenChat(id: Option<UserId>) returns (out: seq<Emit>)
      modifies this
      ensures currentChatId == id
      ensures var opens := id != old(currentChatId) && SignedIn(id) && SignedIn(currentUser);
        && (opens ==> friends == SetUnread(old(friends), id.value, 0))
        && (!opens ==> friends == old(friends))
        && (out != [] <==> opens && isConnected)
        && (out != [] ==> out == [EmitMarkRead(id.value, currentUser.value)])
      ensures messages == old(messages) && requests == old(requests)
      ensures currentUser == old(currentUser) && isConnected == old(isConnected)
      ensures socketUser == old(socketUser)
    {
      out := [];
      var changed := id != currentChatId;
      currentChatId := id;
      if changed && id.Some? && id.value != "" && currentUser.Some? && currentUser.value != "" {
        if isConnected {
          out := [EmitMarkRead(id.value, currentUser.value)];
        }
        friends := SetUnread(friends, id.value, 0);
      }
    }

    /** The `user_logged_out` listener: drop the socket and every cached list. */
    method Logout()
      modifies this
      ensures State() == View([], map[], [])
      ensures currentUser.None? && !isConnected
      ensures currentChatId == old(currentChatId)
    {
      friends := [];
      messages := map[];
      requests := [];
      currentUser := None;
      isConnected := false;
    }
  }
}
