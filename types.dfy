/** The record shapes the server stores and the clients cache (src/services/api.ts). */
module Types {

  datatype Option<T> = None | Some(value: T)

  type UserId = string

  /** Status of a friend record or a friend request. `Rejected` exists only in the
      client's request type; no handler ever produces it. */
  datatype Status = Pending | Accepted | Rejected

  /** One user's view of a relationship with a peer (`Friend`).  The client's type
      makes `status`, `lastMessage` and `lastMessageTime` optional. */
  datatype Friend = Friend(
    id: UserId,
    name: string,
    lastMessage: Option<string>,
    lastMessageTime: Option<int>,
    unreadCount: int,
    status: Option<Status>)

  /** A chat message.  A missing `isRevoked` is modelled as `false`. */
  datatype Message = Message(
    id: string,
    senderId: UserId,
    receiverId: UserId,
    content: string,
    timestamp: int,
    isRevoked: bool)

  datatype FriendRequest = FriendRequest(
    id: string,
    fromUserId: UserId,
    fromName: string,
    toUserId: UserId,
    toName: string,
    status: Status,
    createdAt: int)

  /** The socket events the server pushes and the client's listeners handle, with the
      payloads index.js builds for them. */
  datatype Event =
    | NewMessage(message: Message)
    | MessageSent(message: Message)
    | MessageRevoked(messageId: string, friendId: UserId)
    | MessageDeleted(messageId: string, friendId: UserId)
    | FriendRequestReceived(request: FriendRequest)
    | FriendApproved(friendId: UserId, friendName: string)
    | FriendUpdated(friendId: UserId, lastMessage: Option<string>, lastMessageTime: Option<int>,
                    unreadCount: Option<int>)
    | ReadUpdated(friendId: UserId, count: int)
    | ServerError(text: string)

  /** `xs.find(f => f.id === id)`: the index of the first record for `id`. */
  function FindFriend(xs: seq<Friend>, id: UserId): (r: Option<nat>)
    ensures r.Some? ==> r.value < |xs| && xs[r.value].id == id
    ensures r.Some? ==> forall j :: 0 <= j < r.value ==> xs[j].id != id
    ensures r.None? <==> forall j :: 0 <= j < |xs| ==> xs[j].id != id
  {
    if |xs| == 0 then None
    else if xs[0].id == id then Some(0)
    else match FindFriend(xs[1..], id)
      case None => None
      case Some(k) => Some(k + 1)
  }

  /** `xs.find(m => m.id === id)` over messages. */
  function FindMessage(xs: seq<Message>, id: string): (r: Option<nat>)
    ensures r.Some? ==> r.value < |xs| && xs[r.value].id == id
    ensures r.Some? ==> forall j :: 0 <= j < r.value ==> xs[j].id != id
    ensures r.None? <==> forall j :: 0 <= j < |xs| ==> xs[j].id != id
  {
    if |xs| == 0 then None
    else if xs[0].id == id then Some(0)
    else match FindMessage(xs[1..], id)
      case None => None
      case Some(k) => Some(k + 1)
  }

  /** `requests.find(r => r.id === id)`. */
  function FindRequest(requests: seq<FriendRequest>, id: string): (r: Option<nat>)
    ensures r.Some? ==> r.value < |requests| && requests[r.value].id == id
    ensures r.Some? ==> forall j :: 0 <= j < r.value ==> requests[j].id != id
    ensures r.None? <==> forall j :: 0 <= j < |requests| ==> requests[j].id != id
  {
    if |requests| == 0 then None
    else if requests[0].id == id then Some(0)
    else match FindRequest(requests[1..], id)
      case None => None
      case Some(k) => Some(k + 1)
  }

  /** `list.filter(m => m.id !== id)`. */
  function RemoveMessage(xs: seq<Message>, id: string): (r: seq<Message>)
    ensures forall m :: m in r <==> m in xs && m.id != id
    ensures forall m :: multiset(r)[m] == if m.id == id then 0 else multiset(xs)[m]
    ensures |r| <= |xs|
  {
    if |xs| == 0 then []
    else
      assert xs == [xs[0]] + xs[1..];
      if xs[0].id == id then RemoveMessage(xs[1..], id)
      else [xs[0]] + RemoveMessage(xs[1..], id)
  }

  /** The filter works element by element: removing from a concatenation is removing
      from each part, so the messages that stay keep their order. */
  lemma {:induction false} RemoveMessageAppend(a: seq<Message>, b: seq<Message>, id: string)
    ensures RemoveMessage(a + b, id) == RemoveMessage(a, id) + RemoveMessage(b, id)
    decreases |a|
  {
    if |a| == 0 {
      assert a + b == b;
    } else {
      assert (a + b)[0] == a[0];
      assert (a + b)[1..] == a[1..] + b;
      RemoveMessageAppend(a[1..], b, id);
    }
  }

  /** A single message stays exactly when its id differs. */
  lemma RemoveMessageOne(m: Message, id: string)
    ensures RemoveMessage([m], id) == if m.id == id then [] else [m]
  {
    assert [m][1..] == [];
  }

  /** `list.map(m => m.id === id ? { ...m, isRevoked: true, content: '' } : m)`. */
  function RevokeAll(xs: seq<Message>, id: string): (r: seq<Message>)
    ensures |r| == |xs|
    ensures forall j :: 0 <= j < |xs| && xs[j].id != id ==> r[j] == xs[j]
    ensures forall j :: 0 <= j < |xs| && xs[j].id == id ==> r[j] == xs[j].(isRevoked := true, content := "")
  {
    seq(|xs|, j requires 0 <= j < |xs| =>
      if xs[j].id == id then xs[j].(isRevoked := true, content := "") else xs[j])
  }
}
