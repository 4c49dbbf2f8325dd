/** The events each handler of server/index.js pushes, computed from the store the handler
    starts from.  `Caller` is `socket.emit`, `ToSocket` is `io.to(socketId)` and `ToRoom`
    is `io.to('user:' + id)`, the room a socket joins at login. */
module ServerEvents {
  import opened Types
  import opened ServerStore

  datatype Target = Caller | ToSocket(socket: SocketId) | ToRoom(user: UserId)

  type Outbox = seq<(Target, Event)>

  /** `connectedUsers.get(u)` taken as a condition: an empty socket id counts as absent. */
  function ReceiverSocket(connected: seq<(UserId, SocketId)>, u: UserId): (r: Option<SocketId>)
    ensures r.Some? <==> Lookup(connected, u).Some? && Lookup(connected, u).value != ""
    ensures r.Some? ==> r.value == Lookup(connected, u).value
  {
    match Lookup(connected, u)
    case Some(s) => if s != "" then Some(s) else None
    case None => None
  }

  /** An accepted request is pushed to the target's room. */
  function SendRequestEvents(st: Store, from: UserId, to: UserId, id: string, now: int): Outbox {
    match SendRequest(st, from, to, id, now).0
    case Ok(q) => [(ToRoom(to), FriendRequestReceived(q))]
    case Err(_) => []
  }

  /** An approval tells each side about the other, under the name the other registered. */
  function ApproveEvents(st: Store, approver: UserId, requestId: string): Outbox {
    match Approve(st, approver, requestId).0
    case Err(_) => []
    case Ok(_) =>
      var q := st.requests[FindRequest(st.requests, requestId).value];
      [(ToRoom(q.fromUserId), FriendApproved(q.toUserId, NameOr(FindUser(st.users, q.toUserId)))),
       (ToRoom(q.toUserId), FriendApproved(q.fromUserId, NameOr(FindUser(st.users, q.fromUserId))))]
  }

  /** `receiverFriend?.unreadCount || 0`, read after the update. */
  function PushedUnread(friends: map<UserId, seq<Friend>>, owner: UserId, peer: UserId): int {
    match UnreadOf(friends, owner, peer)
    case Some(c) => c
    case None => 0
  }

  /** send_message, given the reply `r` and the store `st'` the handler ends with: a
      refusal goes back to the caller; a stored message goes to the receiver's socket when
      one is registered, then is confirmed to the caller. */
  function SendMessageEvents(st: Store, r: Result<Message>, st': Store, senderId: UserId,
                             friendId: UserId, content: string, now: int): Outbox
  {
    match r
    case Err(e) => [(Caller, ServerError(ErrorText(e)))]
    case Ok(msg) =>
      var toReceiver := match ReceiverSocket(st.connected, friendId)
        case Some(s) =>
          [(ToSocket(s), NewMessage(msg)),
           (ToSocket(s), FriendUpdated(senderId, Some(content), Some(now),
                                       Some(PushedUnread(st'.friends, friendId, senderId))))]
        case None => [];
      toReceiver + [(Caller, MessageSent(msg)),
                    (Caller, FriendUpdated(friendId, Some(content), Some(now), None))]
  }

  /** revoke_message as written: the receiver is sent the same `{ messageId, friendId }`
      as the caller, where `friendId` is the receiver's own id. */
  function RevokeEventsAsWritten(st: Store, userId: UserId, friendId: UserId, messageId: string,
                                 now: int): Outbox
  {
    match Revoke(st, userId, friendId, messageId, now).0
    case Err(e) => [(Caller, ServerError(ErrorText(e)))]
    case Ok(_) =>
      [(Caller, MessageRevoked(messageId, friendId))] +
      match ReceiverSocket(st.connected, friendId)
      case Some(s) => [(ToSocket(s), MessageRevoked(messageId, friendId))]
      case None => []
  }

  /** revoke_message with the receiver's notice naming the conversation from the
      receiver's side, i.e. the revoking user. */
  function RevokeEvents(st: Store, userId: UserId, friendId: UserId, messageId: string,
                        now: int): Outbox
  {
    match Revoke(st, userId, friendId, messageId, now).0
    case Err(e) => [(Caller, ServerError(ErrorText(e)))]
    case Ok(_) =>
      [(Caller, MessageRevoked(messageId, friendId))] +
      match ReceiverSocket(st.connected, friendId)
      case Some(s) => [(ToSocket(s), MessageRevoked(messageId, userId))]
      case None => []
  }

  /** delete_message confirms to the caller only. */
  function DeleteEvents(messageId: string, friendId: UserId): Outbox {
    [(Caller, MessageDeleted(messageId, friendId))]
  }

  /** mark_read confirms only when the user holds a record for the friend. */
  function MarkReadEvents(st: Store, userId: UserId, friendId: UserId): Outbox {
    if FindFriend(FriendsOf(st.friends, userId), friendId).Some?
    then [(Caller, ReadUpdated(friendId, 0))]
    else []
  }
}
