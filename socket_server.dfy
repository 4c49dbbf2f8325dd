/** The running server of server/index.js: the stores it reads and writes and the
    `connectedUsers` map it updates in place, with one method per handler.  Each method
    is proved against the store transition of ServerStore and the outbox of ServerEvents,
    and keeps the server's invariant. */
module SocketServer {
  import opened Types
  import opened Text
  import opened Conversation
  import opened ServerStore
  import opened ServerEvents
  import opened ServerProperties

  class ChatServer {
    var users: seq<User>
    var friends: map<UserId, seq<Friend>>
    var requests: seq<FriendRequest>
    var messages: map<string, seq<Message>>
    var connectedUsers: seq<(UserId, SocketId)>

    function State(): Store
      reads this
    {
      Store(users, friends, requests, messages, connectedUsers)
    }

    /** Acceptance is mutual, every list holds one record per peer and the registry one
        entry per user. */
    ghost predicate Valid()
      reads this
    {
      Mutual(friends) && UniquePeersEverywhere(friends) && UniqueUsers(connectedUsers)
    }

    /** A fresh deployment: the data files start empty and nobody is connected. */
    constructor (registered: seq<User>)
      ensures State() == Store(registered, map[], [], map[], [])
      ensures Valid()
    {
      users := registered;
      friends := map[];
      requests := [];
      messages := map[];
      connectedUsers := [];
    }

    /** POST /api/friends/request. */
    method SendFriendRequest(from: UserId, to: UserId, id: string, now: int)
      returns (r: Result<FriendRequest>, out: Outbox)
      requires Valid()
      modifies this
      ensures (r, State()) == SendRequest(old(State()), from, to, id, now)
      ensures out == SendRequestEvents(old(State()), from, to, id, now)
      ensures Valid()
    {
      ghost var st := State();
      SendRequestKeepsUniquePeers(st, from, to, id, now);
      SendRequestKeepsMutual(st, from, to, id, now);
      out := [];
      if to == "" || to == from {
        return Err(InvalidUserId), out;
      }
      var toUser := FindUser(users, to);
      if toUser.None? {
        return Err(UserNotFound), out;
      }
      if HasAcceptedRecord(FriendsOf(friends, from), to) {
        return Err(AlreadyFriends), out;
      }
      if PendingBetween(requests, from, to) {
        return Err(RequestAlreadyPending), out;
      }
      var request := FriendRequest(id, from, NameOr(FindUser(users, from)), to, toUser.value.name,
                                   Pending, now);
      requests := requests + [request];
      var list := FriendsOf(friends, from);
      if !HasRecord(list, to) {
        list := list + [Friend(to, toUser.value.name, None, None, 0, Some(Pending))];
      }
      friends := friends[from := list];
      r := Ok(request);
      out := [(ToRoom(to), FriendRequestReceived(request))];
    }

    /** POST /api/friends/approve. */
    method ApproveFriendRequest(approver: UserId, requestId: string) returns (r: Result<()>, out: Outbox)
      requires Valid()
      modifies this
      ensures (r, State()) == Approve(old(State()), approver, requestId)
      ensures out == ApproveEvents(old(State()), approver, requestId)
      ensures Valid()
    {
      ghost var st := State();
      ApproveKeepsMutual(st, approver, requestId);
      if Approve(st, approver, requestId).0.Ok? {
        ApproveEffect(st, approver, requestId);
      }
      out := [];
      var found := FindRequest(requests, requestId);
      if found.None? || requests[found.value].toUserId != approver {
        return Err(RequestNotFound), out;
      }
      var q := requests[found.value];
      if q.status != Pending {
        return Err(RequestHandled), out;
      }
      requests := requests[found.value := q.(status := Accepted)];
      var fromName := NameOr(FindUser(users, q.fromUserId));
      var toName := NameOr(FindUser(users, q.toUserId));

      AcceptIn(q.fromUserId, q.toUserId, toName);
      AcceptIn(q.toUserId, q.fromUserId, fromName);
      r := Ok(());
      out := [(ToRoom(q.fromUserId), FriendApproved(q.toUserId, toName)),
              (ToRoom(q.toUserId), FriendApproved(q.fromUserId, fromName))];
    }

    /** One side of an approval: `owner`'s record of `peer` is marked accepted, or an
        accepted record is appended when there is none. */
    method AcceptIn(owner: UserId, peer: UserId, name: string)
      modifies this
      ensures friends == old(friends)[owner := AcceptRecord(FriendsOf(old(friends), owner), peer, name)]
      ensures users == old(users) && requests == old(requests) && messages == old(messages)
      ensures connectedUsers == old(connectedUsers)
    {
      var list := FriendsOf(friends, owner);
      var k := FindFriend(list, peer);
      if k.Some? {
        list := list[k.value := list[k.value].(status := Some(Accepted))];
      } else {
        list := list + [Friend(peer, name, None, None, 0, Some(Accepted))];
      }
      friends := friends[owner := list];
    }

    /** The `login` event on socket `socket`. */
    method Login(userId: UserId, socket: SocketId)
      requires Valid()
      modifies this
      ensures connectedUsers == Register(old(connectedUsers), userId, socket)
      ensures Lookup(connectedUsers, userId) == Some(socket)
      ensures users == old(users) && friends == old(friends) && requests == old(requests)
      ensures messages == old(messages)
      ensures Valid()
    {
      RegisterSpec(connectedUsers, userId, socket);
      connectedUsers := Register(connectedUsers, userId, socket);
    }

    /** The `send_message` event received on socket `socket`. */
    method SendMessage(socket: SocketId, senderId: UserId, friendId: UserId, content: string,
                       msgId: string, now: int)
      returns (r: Result<Message>, out: Outbox)
      requires Valid()
      modifies this
      ensures (r, State()) == ServerStore.SendMessage(old(State()), socket, senderId, friendId,
                                                      content, msgId, now)
      ensures out == SendMessageEvents(old(State()), r, State(), senderId, friendId, content, now)
      ensures Valid()
    {
      ghost var st := State();
      if friendId == "" || content == "" || senderId == "" {
        return Err(MissingFields), [(Caller, ServerError(ErrorText(MissingFields)))];
      }
      var fr := friends;
      var senderList := FriendsOf(fr, senderId);
      var i := FindFriend(senderList, friendId);
      if i.None? || senderList[i.value].status != Some(Accepted) {
        return Err(NotFriends), [(Caller, ServerError(ErrorText(NotFriends)))];
      }
      r, out := Deliver(socket, senderId, friendId, content, msgId, now, i.value);
    }

    /** The accepted path of `send_message`: store the message, update both previews and
        the receiver's unread count, and relay it. */
    method Deliver(socket: SocketId, senderId: UserId, friendId: UserId, content: string,
                   msgId: string, now: int, i: nat)
      returns (r: Result<Message>, out: Outbox)
      requires Valid()
      requires friendId != "" && content != "" && senderId != ""
      requires FindFriend(FriendsOf(friends, senderId), friendId) == Some(i)
      requires FriendsOf(friends, senderId)[i].status == Some(Accepted)
      modifies this
      ensures (r, State()) == ServerStore.SendMessage(old(State()), socket, senderId, friendId,
                                                      content, msgId, now)
      ensures out == SendMessageEvents(old(State()), r, State(), senderId, friendId, content, now)
      ensures Valid()
    {
      ghost var st := State();
      var senderList := FriendsOf(friends, senderId);
      SendMessageAcceptedStore(st, socket, senderId, friendId, content, msgId, now, i);
      SendMessageAcceptedValid(st, socket, senderId, friendId, content, msgId, now, i);
      var message := Message(msgId, senderId, friendId, Trim(content), now, false);
      var key := Key(senderId, friendId);
      messages := messages[key := MessagesAt(messages, key) + [message]];

      friends := friends[senderId := senderList[i := Preview(senderList[i], content, now)]];
      var unread := UpdateReceiver(friendId, senderId, content, now,
                                   Lookup(connectedUsers, friendId) != Some(socket));

      out := [];
      var receiverSocket := ReceiverSocket(connectedUsers, friendId);
      if receiverSocket.Some? {
        out := [(ToSocket(receiverSocket.value), NewMessage(message)),
                (ToSocket(receiverSocket.value), FriendUpdated(senderId, Some(content), Some(now), Some(unread)))];
      }
      out := out + [(Caller, MessageSent(message)),
                    (Caller, FriendUpdated(friendId, Some(content), Some(now), None))];
      r := Ok(message);
    }


    /** The receiver's side of the accepted path: `owner`'s first record of `peer`, if
        any, gets the preview and, when `bump` holds, one more unread message; the count
        read back afterwards (0 without a record) is returned. */
    method UpdateReceiver(owner: UserId, peer: UserId, content: string, now: int, bump: bool)
      returns (unread: int)
      modifies this
      ensures friends == ReceiverUpdate(old(friends), owner, peer, content, now, bump)
      ensures unread == PushedUnread(friends, owner, peer)
      ensures users == old(users) && requests == old(requests) && messages == old(messages)
      ensures connectedUsers == old(connectedUsers)
    {
      var list := FriendsOf(friends, owner);
      var j := FindFriend(list, peer);
      unread := 0;
      if j.Some? {
        var f := Preview(list[j.value], content, now);
        if bump {
          f := f.(unreadCount := f.unreadCount + 1);
        }
        ReceiverUpdateAt(friends, owner, peer, content, now, bump, j.value, f);
        friends := friends[owner := list[j.value := f]];
        unread := f.unreadCount;
      }
    }

    /** The `revoke_message` event. */
    method RevokeMessage(userId: UserId, friendId: UserId, messageId: string, now: int)
      returns (r: Result<()>, out: Outbox)
      requires Valid()
      modifies this
      ensures (r, State()) == Revoke(old(State()), userId, friendId, messageId, now)
      ensures out == RevokeEventsAsWritten(old(State()), userId, friendId, messageId, now)
      ensures Valid()
    {
      var key := Key(userId, friendId);
      var log := MessagesAt(messages, key);
      var i := FindMessage(log, messageId);
      if i.None? || log[i.value].senderId != userId {
        return Err(NotOwnMessage), [(Caller, ServerError(ErrorText(NotOwnMessage)))];
      }
      if now - log[i.value].timestamp > RevokeWindow {
        return Err(RevokeExpired), [(Caller, ServerError(ErrorText(RevokeExpired)))];
      }
      log := log[i.value := log[i.value].(isRevoked := true, content := "")];
      messages := messages[key := log];
      out := [(Caller, MessageRevoked(messageId, friendId))];
      var receiverSocket := ReceiverSocket(connectedUsers, friendId);
      if receiverSocket.Some? {
        out := out + [(ToSocket(receiverSocket.value), MessageRevoked(messageId, friendId))];
      }
      r := Ok(());
    }

    /** The `delete_message` event. */
    method DeleteMessage(userId: UserId, friendId: UserId, messageId: string) returns (out: Outbox)
      requires Valid()
      modifies this
      ensures State() == Delete(old(State()), userId, friendId, messageId)
      ensures out == DeleteEvents(messageId, friendId)
      ensures Valid()
    {
      var key := Key(userId, friendId);
      messages := messages[key := RemoveMessage(MessagesAt(messages, key), messageId)];
      out := [(Caller, MessageDeleted(messageId, friendId))];
    }

    /** The `mark_read` event. */
    method MarkRead(userId: UserId, friendId: UserId) returns (out: Outbox)
      requires Valid()
      modifies this
      ensures State() == ServerStore.MarkRead(old(State()), userId, friendId)
      ensures out == MarkReadEvents(old(State()), userId, friendId)
      ensures Valid()
    {
      ghost var st := State();
      MarkReadKeepsMutual(st, userId, friendId);
      MarkReadKeepsUniquePeers(st, userId, friendId);
      var list := FriendsOf(friends, userId);
      var i := FindFriend(list, friendId);
      out := [];
      if i.Some? {
        friends := friends[userId := list[i.value := list[i.value].(unreadCount := 0)]];
        out := [(Caller, ReadUpdated(friendId, 0))];
      }
    }

    /** The `disconnect` event of socket `socket`: scan the registry in insertion order and
        delete the first entry bound to the socket. */
    method Disconnect(socket: SocketId)
      requires Valid()
      modifies this
      ensures connectedUsers == Unregister(old(connectedUsers), socket)
      ensures users == old(users) && friends == old(friends) && requests == old(requests)
      ensures messages == old(messages)
      ensures Valid()
    {
      UnregisterKeepsUnique(connectedUsers, socket);
      var i := 0;
      while i < |connectedUsers|
        invariant 0 <= i <= |connectedUsers|
        invariant connectedUsers == old(connectedUsers)
        invariant forall k :: 0 <= k < i ==> connectedUsers[k].1 != socket
      {
        if connectedUsers[i].1 == socket {
          UnregisterFirst(connectedUsers, socket, i);
          connectedUsers := connectedUsers[..i] + connectedUsers[i + 1..];
          return;
        }
        i := i + 1;
      }
      UnregisterAbsent(connectedUsers, socket);
    }
  }
}
