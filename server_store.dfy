/** The server's relationship and message engine (server/index.js, and the push-free
    copy of the same handlers in server/api.js) as transitions of an in-memory store.
    Each handler is a function from the old store and the request to its reply and
    the new store; `now`, fresh ids and the calling socket are parameters. */
module ServerStore {
  import opened Types
  import opened Text
  import opened Conversation

  type SocketId = string

  datatype User = User(id: UserId, name: string)

  /** users.json (in insertion order), friends.json, requests.json, messages.json and
      the `connectedUsers` map (entries in insertion order, as a JavaScript Map keeps them). */
  datatype Store = Store(
    users: seq<User>,
    friends: map<UserId, seq<Friend>>,
    requests: seq<FriendRequest>,
    messages: map<string, seq<Message>>,
    connected: seq<(UserId, SocketId)>)

  datatype Error =
    | InvalidUserId | UserNotFound | AlreadyFriends | RequestAlreadyPending
    | RequestNotFound | RequestHandled
    | MissingFields | NotFriends | NotOwnMessage | RevokeExpired

  datatype Result<T> = Ok(value: T) | Err(error: Error)

  /** The error strings the handlers send back. */
  function ErrorText(e: Error): string {
    match e
    case InvalidUserId => "无效的用户ID"
    case UserNotFound => "用户不存在"
    case AlreadyFriends => "已是好友"
    case RequestAlreadyPending => "申请已发送或对方申请中"
    case RequestNotFound => "申请不存在"
    case RequestHandled => "申请已处理"
    case MissingFields => "缺少必要字段"
    case NotFriends => "不是好友或申请未通过"
    case NotOwnMessage => "只能撤回自己的消息"
    case RevokeExpired => "超过2分钟，无法撤回"
  }

  /** Two minutes, in milliseconds. */
  const RevokeWindow: int := 2 * 60 * 1000

  const UnknownName: string := "未知"

  /** `friends[u] || []`. */
  function FriendsOf(friends: map<UserId, seq<Friend>>, u: UserId): seq<Friend> {
    if u in friends then friends[u] else []
  }

  /** `messages[key] || []`. */
  function MessagesAt(messages: map<string, seq<Message>>, key: string): seq<Message> {
    if key in messages then messages[key] else []
  }

  /** `Object.values(users).find(u => u.id === id)`. */
  function FindUser(users: seq<User>, id: UserId): (r: Option<User>)
    ensures r.Some? ==> r.value in users && r.value.id == id
    ensures r.None? <==> forall j :: 0 <= j < |users| ==> users[j].id != id
  {
    if |users| == 0 then None
    else if users[0].id == id then Some(users[0])
    else FindUser(users[1..], id)
  }

  /** `user?.name || '未知'`: an absent user or an empty name reads as unknown. */
  function NameOr(u: Option<User>): string {
    if u.Some? && u.value.name != "" then u.value.name else UnknownName
  }

  /** `list.some(f => f.id === peer)`. */
  predicate HasRecord(list: seq<Friend>, peer: UserId) {
    exists i :: 0 <= i < |list| && list[i].id == peer
  }

  /** `list.some(f => f.id === peer && f.status === 'accepted')`. */
  predicate HasAcceptedRecord(list: seq<Friend>, peer: UserId) {
    exists i :: 0 <= i < |list| && list[i].id == peer && list[i].status == Some(Accepted)
  }

  /** A pending request between `a` and `b`, in either direction. */
  predicate PendingBetween(requests: seq<FriendRequest>, a: UserId, b: UserId) {
    exists i :: 0 <= i < |requests| && requests[i].status == Pending &&
      ((requests[i].fromUserId == a && requests[i].toUserId == b) ||
       (requests[i].fromUserId == b && requests[i].toUserId == a))
  }

  // ---------------------------------------------------------------- friend requests

  /** POST /api/friends/request from `from` with body `{ toUserId: to }`; `id` and `now`
      stand for the two `Date.now()` readings. */
  function SendRequest(st: Store, from: UserId, to: UserId, id: string, now: int)
    : (Result<FriendRequest>, Store)
  {
    if to == "" || to == from then (Err(InvalidUserId), st)
    else
      var toUser := FindUser(st.users, to);
      if toUser.None? then (Err(UserNotFound), st)
      else if HasAcceptedRecord(FriendsOf(st.friends, from), to) then (Err(AlreadyFriends), st)
      else if PendingBetween(st.requests, from, to) then (Err(RequestAlreadyPending), st)
      else
        var request := FriendRequest(id, from, NameOr(FindUser(st.users, from)), to,
                                     toUser.value.name, Pending, now);
        var list := FriendsOf(st.friends, from);
        var list' := if HasRecord(list, to) then list
                     else list + [Friend(to, toUser.value.name, None, None, 0, Some(Pending))];
        (Ok(request), st.(requests := st.requests + [request], friends := st.friends[from := list']))
  }

  /** On approval, one side's list: the first record for `peer` becomes accepted, or an
      accepted record is appended when there is none. */
  function AcceptRecord(list: seq<Friend>, peer: UserId, name: string): seq<Friend> {
    match FindFriend(list, peer)
    case Some(i) => list[i := list[i].(status := Some(Accepted))]
    case None => list + [Friend(peer, name, None, None, 0, Some(Accepted))]
  }

  /** POST /api/friends/approve by `approver` with body `{ requestId }`. */
  function Approve(st: Store, approver: UserId, requestId: string): (Result<()>, Store) {
    match FindRequest(st.requests, requestId)
    case None => (Err(RequestNotFound), st)
    case Some(i) =>
      var r := st.requests[i];
      if r.toUserId != approver then (Err(RequestNotFound), st)
      else if r.status != Pending then (Err(RequestHandled), st)
      else
        var fromName := NameOr(FindUser(st.users, r.fromUserId));
        var toName := NameOr(FindUser(st.users, r.toUserId));
        var f1 := st.friends[r.fromUserId := AcceptRecord(FriendsOf(st.friends, r.fromUserId), r.toUserId, toName)];
        var f2 := f1[r.toUserId := AcceptRecord(FriendsOf(f1, r.toUserId), r.fromUserId, fromName)];
        (Ok(()), st.(requests := st.requests[i := r.(status := Accepted)], friends := f2))
  }

  /** GET /api/friends/requests/incoming: the pending requests addressed to `user`, in order. */
  function IncomingRequests(requests: seq<FriendRequest>, user: UserId): (r: seq<FriendRequest>)
    ensures forall q :: q in r <==> q in requests && q.toUserId == user && q.status == Pending
    ensures |r| <= |requests|
  {
    if |requests| == 0 then []
    else if requests[0].toUserId == user && requests[0].status == Pending
    then [requests[0]] + IncomingRequests(requests[1..], user)
    else IncomingRequests(requests[1..], user)
  }

  // ---------------------------------------------------------------- message fetch

  predicate BetweenPair(m: Message, a: UserId, b: UserId) {
    (m.senderId == a && m.receiverId == b) || (m.senderId == b && m.receiverId == a)
  }

  /** `log.filter(m => <m is between a and b>)`. */
  function FilterPair(log: seq<Message>, a: UserId, b: UserId): (r: seq<Message>)
    ensures forall m :: m in r <==> m in log && BetweenPair(m, a, b)
  {
    if |log| == 0 then []
    else if BetweenPair(log[0], a, b) then [log[0]] + FilterPair(log[1..], a, b)
    else FilterPair(log[1..], a, b)
  }

  /** GET /api/messages/:friendId for `user`. */
  function FetchMessages(st: Store, user: UserId, friend: UserId): seq<Message> {
    SortByTime(FilterPair(MessagesAt(st.messages, Key(user, friend)), user, friend))
  }

  // ---------------------------------------------------------------- connection registry

  /** `connectedUsers.get(u)`. */
  function Lookup(reg: seq<(UserId, SocketId)>, u: UserId): (r: Option<SocketId>)
    ensures r.None? <==> forall j :: 0 <= j < |reg| ==> reg[j].0 != u
    ensures r.Some? ==> exists j :: 0 <= j < |reg| && reg[j] == (u, r.value)
  {
    if |reg| == 0 then None
    else if reg[0].0 == u then Some(reg[0].1)
    else Lookup(reg[1..], u)
  }

  /** `connectedUsers.set(u, s)`: an existing entry keeps its place, a new one goes last. */
  function Register(reg: seq<(UserId, SocketId)>, u: UserId, s: SocketId): seq<(UserId, SocketId)> {
    if |reg| == 0 then [(u, s)]
    else if reg[0].0 == u then [(u, s)] + reg[1..]
    else [reg[0]] + Register(reg[1..], u, s)
  }

  /** The `disconnect` handler's scan: delete the first entry bound to `s`, then stop. */
  function Unregister(reg: seq<(UserId, SocketId)>, s: SocketId): seq<(UserId, SocketId)> {
    if |reg| == 0 then []
    else if reg[0].1 == s then reg[1..]
    else [reg[0]] + Unregister(reg[1..], s)
  }

  /** One user id per entry, as in a Map. */
  ghost predicate UniqueUsers(reg: seq<(UserId, SocketId)>) {
    forall i, j :: 0 <= i < j < |reg| ==> reg[i].0 != reg[j].0
  }

  // ---------------------------------------------------------------- messages

  /** The preview fields `send_message` writes into a record. */
  function Preview(f: Friend, content: string, now: int): Friend {
    f.(lastMessage := Some(content), lastMessageTime := Some(now))
  }

  /** The receiver's side of `send_message`: its first record for `peer`, if any, gets
      the preview, and one more unread message when `bump` holds. */
  function ReceiverUpdate(friends: map<UserId, seq<Friend>>, owner: UserId, peer: UserId,
                          content: string, now: int, bump: bool): map<UserId, seq<Friend>>
  {
    var list := FriendsOf(friends, owner);
    match FindFriend(list, peer)
    case None => friends
    case Some(j) =>
      var p := Preview(list[j], content, now);
      friends[owner := list[j := if bump then p.(unreadCount := p.unreadCount + 1) else p]]
  }

  /** The `send_message` event received on socket `socket`; `msgId` and `now` stand for
      the `Date.now()` readings. */
  function SendMessage(st: Store, socket: SocketId, senderId: UserId, friendId: UserId,
                       content: string, msgId: string, now: int): (Result<Message>, Store)
  {
    if friendId == "" || content == "" || senderId == "" then (Err(MissingFields), st)
    else
      var list := FriendsOf(st.friends, senderId);
      match FindFriend(list, friendId)
      case None => (Err(NotFriends), st)
      case Some(i) =>
        if list[i].status != Some(Accepted) then (Err(NotFriends), st)
        else
          var msg := Message(msgId, senderId, friendId, Trim(content), now, false);
          var key := Key(senderId, friendId);
          var f1 := st.friends[senderId := list[i := Preview(list[i], content, now)]];
          var bump := Lookup(st.connected, friendId) != Some(socket);
          (Ok(msg), st.(messages := st.messages[key := MessagesAt(st.messages, key) + [msg]],
                        friends := ReceiverUpdate(f1, friendId, senderId, content, now, bump)))
  }

  /** The `revoke_message` event from `userId` about a message with `friendId`. */
  function Revoke(st: Store, userId: UserId, friendId: UserId, messageId: string, now: int)
    : (Result<()>, Store)
  {
    var key := Key(userId, friendId);
    var log := MessagesAt(st.messages, key);
    match FindMessage(log, messageId)
    case None => (Err(NotOwnMessage), st)
    case Some(i) =>
      if log[i].senderId != userId then (Err(NotOwnMessage), st)
      else if now - log[i].timestamp > RevokeWindow then (Err(RevokeExpired), st)
      else (Ok(()), st.(messages := st.messages[key := log[i := log[i].(isRevoked := true, content := "")]]))
  }

  /** The `delete_message` event: the filtered log is written back under the key. */
  function Delete(st: Store, userId: UserId, friendId: UserId, messageId: string): Store {
    var key := Key(userId, friendId);
    st.(messages := st.messages[key := RemoveMessage(MessagesAt(st.messages, key), messageId)])
  }

  /** The `mark_read` event. */
  function MarkRead(st: Store, userId: UserId, friendId: UserId): Store {
    var list := FriendsOf(st.friends, userId);
    match FindFriend(list, friendId)
    case None => st
    case Some(i) => st.(friends := st.friends[userId := list[i := list[i].(unreadCount := 0)]])
  }

  /** The unread count of `owner`'s first record for `peer`, when there is one. */
  function UnreadOf(friends: map<UserId, seq<Friend>>, owner: UserId, peer: UserId): Option<int> {
    var list := FriendsOf(friends, owner);
    match FindFriend(list, peer)
    case None => None
    case Some(j) => Some(list[j].unreadCount)
  }
}
