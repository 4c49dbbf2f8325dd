/** What the relationship and message engine promises, proved about ServerStore. */
module ServerProperties {
  import opened Types
  import opened Text
  import opened Conversation
  import opened ServerStore

  // ---------------------------------------------------------------- friend requests

  /** A send-request is refused exactly when the target id is empty or the sender's own,
      the target is unknown, the sender already holds an accepted record for it, or a
      request is pending between the two in either direction; a refusal changes nothing. */
  lemma SendRequestRefusal(st: Store, from: UserId, to: UserId, id: string, now: int)
    ensures var (r, st') := SendRequest(st, from, to, id, now);
      && (r.Err? <==> (to == "" || to == from || FindUser(st.users, to).None?
                       || HasAcceptedRecord(FriendsOf(st.friends, from), to)
                       || PendingBetween(st.requests, from, to)))
      && (r.Err? ==> st' == st)
      && ((to == "" || to == from) ==> r == Err(InvalidUserId))
      && (to != "" && to != from && FindUser(st.users, to).None? ==> r == Err(UserNotFound))
  {
  }

  /** A successful send-request appends exactly one pending request from the sender to the
      target; the sender gains a pending record for the target only when it had none; no
      other user's friend list changes, the receiver's included. */
  lemma SendRequestEffect(st: Store, from: UserId, to: UserId, id: string, now: int)
    requires SendRequest(st, from, to, id, now).0.Ok?
    ensures var (r, st') := SendRequest(st, from, to, id, now);
      && st'.requests == st.requests + [r.value]
      && r.value.id == id && r.value.fromUserId == from && r.value.toUserId == to
      && r.value.status == Pending && r.value.createdAt == now
      && (HasRecord(FriendsOf(st.friends, from), to) ==>
            FriendsOf(st'.friends, from) == FriendsOf(st.friends, from))
      && (!HasRecord(FriendsOf(st.friends, from), to) ==>
            exists name :: FriendsOf(st'.friends, from)
              == FriendsOf(st.friends, from) + [Friend(to, name, None, None, 0, Some(Pending))])
      && (forall u :: u != from ==> FriendsOf(st'.friends, u) == FriendsOf(st.friends, u))
      && FriendsOf(st'.friends, to) == FriendsOf(st.friends, to)
      && st'.messages == st.messages && st'.users == st.users && st'.connected == st.connected
  {
    var (r, st') := SendRequest(st, from, to, id, now);
    var toUser := FindUser(st.users, to);
    if !HasRecord(FriendsOf(st.friends, from), to) {
      var name := toUser.value.name;
      assert FriendsOf(st'.friends, from)
        == FriendsOf(st.friends, from) + [Friend(to, name, None, None, 0, Some(Pending))];
    }
  }

  /** Approval is refused, with nothing changed, unless the request exists, is addressed
      to the approver and is still pending; a wrong approver reads as a missing request. */
  lemma ApproveRefusal(st: Store, approver: UserId, requestId: string)
    ensures var (r, st') := Approve(st, approver, requestId);
      var found := FindRequest(st.requests, requestId);
      && (r.Err? <==> (found.None? || st.requests[found.value].toUserId != approver
                       || st.requests[found.value].status != Pending))
      && (r.Err? ==> st' == st)
      && ((found.None? || st.requests[found.value].toUserId != approver) ==> r == Err(RequestNotFound))
  {
  }

  /** No list holds two records for the same peer. */
  ghost predicate UniquePeers(list: seq<Friend>) {
    forall i, j :: 0 <= i < j < |list| ==> list[i].id != list[j].id
  }

  ghost predicate UniquePeersEverywhere(friends: map<UserId, seq<Friend>>) {
    forall u :: u in friends ==> UniquePeers(friends[u])
  }

  /** On one side of an approval: the list ends with exactly one record for the peer,
      accepted, and an existing record keeps every other field. */
  lemma {:induction false} AcceptRecordEffect(list: seq<Friend>, peer: UserId, name: string)
    requires UniquePeers(list)
    ensures var list' := AcceptRecord(list, peer, name);
      && UniquePeers(list')
      && HasAcceptedRecord(list', peer)
      && (forall i :: 0 <= i < |list| ==>
            list'[i] == if list[i].id == peer then list[i].(status := Some(Accepted)) else list[i])
      && |list'| == if HasRecord(list, peer) then |list| else |list| + 1
  {
    var list' := AcceptRecord(list, peer, name);
    match FindFriend(list, peer)
    case Some(i) =>
      assert list'[i].id == peer && list'[i].status == Some(Accepted);
    case None =>
      assert list'[|list|].id == peer && list'[|list|].status == Some(Accepted);
  }

  /** A successful approval accepts the request and leaves each side with exactly one
      accepted record for the other; no other user's list and no other request changes. */
  lemma ApproveEffect(st: Store, approver: UserId, requestId: string)
    requires UniquePeersEverywhere(st.friends)
    requires Approve(st, approver, requestId).0.Ok?
    ensures var (_, st') := Approve(st, approver, requestId);
      var i := FindRequest(st.requests, requestId).value;
      var q := st.requests[i];
      && q.toUserId == approver && q.status == Pending
      && st'.requests == st.requests[i := q.(status := Accepted)]
      && UniquePeersEverywhere(st'.friends)
      && HasAcceptedRecord(FriendsOf(st'.friends, q.fromUserId), q.toUserId)
      && HasAcceptedRecord(FriendsOf(st'.friends, q.toUserId), q.fromUserId)
      && (forall u :: u != q.fromUserId && u != q.toUserId ==>
            FriendsOf(st'.friends, u) == FriendsOf(st.friends, u))
      && st'.messages == st.messages && st'.users == st.users
  {
    var i := FindRequest(st.requests, requestId).value;
    var q := st.requests[i];
    var fromName := NameOr(FindUser(st.users, q.fromUserId));
    var toName := NameOr(FindUser(st.users, q.toUserId));
    var f1 := st.friends[q.fromUserId := AcceptRecord(FriendsOf(st.friends, q.fromUserId), q.toUserId, toName)];
    var f2 := f1[q.toUserId := AcceptRecord(FriendsOf(f1, q.toUserId), q.fromUserId, fromName)];
    var st' := Approve(st, approver, requestId).1;
    assert st'.friends == f2;
    assert st'.requests == st.requests[i := q.(status := Accepted)];
    AcceptBoth(st.friends, q.fromUserId, q.toUserId, fromName, toName);
  }

  /** Both sides of an approval: each ends with exactly one accepted record for the
      other, and every other list is untouched. */
  lemma AcceptBoth(friends: map<UserId, seq<Friend>>, x: UserId, y: UserId, xName: string, yName: string)
    requires UniquePeersEverywhere(friends)
    ensures var f1 := friends[x := AcceptRecord(FriendsOf(friends, x), y, yName)];
      var f2 := f1[y := AcceptRecord(FriendsOf(f1, y), x, xName)];
      && UniquePeersEverywhere(f2)
      && HasAcceptedRecord(FriendsOf(f2, x), y)
      && HasAcceptedRecord(FriendsOf(f2, y), x)
      && (forall u :: u != x && u != y ==> FriendsOf(f2, u) == FriendsOf(friends, u))
  {
    var l0 := FriendsOf(friends, x);
    assert UniquePeers(l0);
    AcceptRecordEffect(l0, y, yName);
    var f1 := friends[x := AcceptRecord(l0, y, yName)];
    var l1 := FriendsOf(f1, y);
    assert UniquePeers(l1);
    AcceptRecordEffect(l1, x, xName);
    var l2 := AcceptRecord(l1, x, xName);
    if x == y {
      assert HasAcceptedRecord(l2, y);
    } else {
      assert FriendsOf(f1, x) == AcceptRecord(l0, y, yName);
    }
  }

  // ---------------------------------------------------------------- message fetch

  lemma {:induction false} FilterPairSymmetric(log: seq<Message>, a: UserId, b: UserId)
    ensures FilterPair(log, a, b) == FilterPair(log, b, a)
  {
    if |log| > 0 {
      FilterPairSymmetric(log[1..], a, b);
    }
  }

  /** The fetch gives the same answer to either participant, holds only messages between
      the two, every such message of their log, and is in timestamp order. */
  lemma FetchMessagesSpec(st: Store, a: UserId, b: UserId)
    ensures FetchMessages(st, a, b) == FetchMessages(st, b, a)
    ensures SortedByTime(FetchMessages(st, a, b))
    ensures forall m :: m in FetchMessages(st, a, b) <==>
      m in MessagesAt(st.messages, Key(a, b)) && BetweenPair(m, a, b)
  {
    KeySymmetric(a, b);
    FilterPairSymmetric(MessagesAt(st.messages, Key(a, b)), a, b);
    SortByTimeSorted(FilterPair(MessagesAt(st.messages, Key(a, b)), a, b));
    forall m ensures m in FetchMessages(st, a, b) <==>
      m in MessagesAt(st.messages, Key(a, b)) && BetweenPair(m, a, b)
    {
      var f := FilterPair(MessagesAt(st.messages, Key(a, b)), a, b);
      assert m in SortByTime(f) <==> m in multiset(SortByTime(f));
      assert m in f <==> m in multiset(f);
    }
  }

  // ---------------------------------------------------------------- send_message

  /** A message is stored exactly when the three fields are non-empty and the sender's
      first record for the friend is accepted; otherwise nothing changes. */
  lemma SendMessageGate(st: Store, socket: SocketId, senderId: UserId, friendId: UserId,
                        content: string, msgId: string, now: int)
    ensures var (r, st') := SendMessage(st, socket, senderId, friendId, content, msgId, now);
      var list := FriendsOf(st.friends, senderId);
      var f := FindFriend(list, friendId);
      && (r.Ok? <==> (friendId != "" && content != "" && senderId != ""
                      && f.Some? && list[f.value].status == Some(Accepted)))
      && (r.Err? ==> st' == st)
      && ((friendId == "" || content == "" || senderId == "") ==> r == Err(MissingFields))
  {
  }

  /** Unfolding helper for the proofs below and for the server class: the accepted path of
      send_message, spelled out as a new store. */
  lemma SendMessageAcceptedStore(st: Store, socket: SocketId, senderId: UserId, friendId: UserId,
                                 content: string, msgId: string, now: int, i: nat)
    requires friendId != "" && content != "" && senderId != ""
    requires FindFriend(FriendsOf(st.friends, senderId), friendId) == Some(i)
    requires FriendsOf(st.friends, senderId)[i].status == Some(Accepted)
    ensures var list := FriendsOf(st.friends, senderId);
      var msg := Message(msgId, senderId, friendId, Trim(content), now, false);
      var key := Key(senderId, friendId);
      var f1 := st.friends[senderId := list[i := Preview(list[i], content, now)]];
      var bump := Lookup(st.connected, friendId) != Some(socket);
      SendMessage(st, socket, senderId, friendId, content, msgId, now)
        == (Ok(msg), Store(st.users, ReceiverUpdate(f1, friendId, senderId, content, now, bump), st.requests,
                           st.messages[key := MessagesAt(st.messages, key) + [msg]], st.connected))
  {
  }

  /** The accepted path of send_message keeps acceptance mutual and one record per peer. */
  lemma SendMessageAcceptedValid(st: Store, socket: SocketId, senderId: UserId, friendId: UserId,
                                 content: string, msgId: string, now: int, i: nat)
    requires friendId != "" && content != "" && senderId != ""
    requires FindFriend(FriendsOf(st.friends, senderId), friendId) == Some(i)
    requires FriendsOf(st.friends, senderId)[i].status == Some(Accepted)
    requires Mutual(st.friends) && UniquePeersEverywhere(st.friends)
    ensures var list := FriendsOf(st.friends, senderId);
      var f1 := st.friends[senderId := list[i := Preview(list[i], content, now)]];
      var fr := ReceiverUpdate(f1, friendId, senderId, content, now, Lookup(st.connected, friendId) != Some(socket));
      Mutual(fr) && UniquePeersEverywhere(fr)
  {
    SendMessageAcceptedStore(st, socket, senderId, friendId, content, msgId, now, i);
    SendMessageKeepsMutual(st, socket, senderId, friendId, content, msgId, now);
    SendMessageKeepsUniquePeers(st, socket, senderId, friendId, content, msgId, now);
  }

  /** The receiver's side of send_message when the receiver holds a record for the sender
      at `j`: that record, and only it, is updated, and its count is what gets pushed. */
  lemma ReceiverUpdateAt(friends: map<UserId, seq<Friend>>, owner: UserId, peer: UserId,
                         content: string, now: int, bump: bool, j: nat, f: Friend)
    requires FindFriend(FriendsOf(friends, owner), peer) == Some(j)
    requires f == if bump then Preview(FriendsOf(friends, owner)[j], content, now).(unreadCount := FriendsOf(friends, owner)[j].unreadCount + 1)
                  else Preview(FriendsOf(friends, owner)[j], content, now)
    ensures ReceiverUpdate(friends, owner, peer, content, now, bump)
              == friends[owner := FriendsOf(friends, owner)[j := f]]
    ensures UnreadOf(friends[owner := FriendsOf(friends, owner)[j := f]], owner, peer) == Some(f.unreadCount)
  {
    var l := FriendsOf(friends, owner);
    var nl := l[j := f];
    assert f.id == l[j].id;
    assert SameIds(l, nl);
    SameIdsFind(l, nl, peer);
    assert FriendsOf(friends[owner := nl], owner) == nl;
  }

  /** A stored message is appended, trimmed and not revoked, to the log both directions
      address; every other log, the requests and the registry are unchanged. */
  lemma SendMessageStores(st: Store, socket: SocketId, senderId: UserId, friendId: UserId,
                          content: string, msgId: string, now: int)
    requires SendMessage(st, socket, senderId, friendId, content, msgId, now).0.Ok?
    ensures var (r, st') := SendMessage(st, socket, senderId, friendId, content, msgId, now);
      && r.value == Message(msgId, senderId, friendId, Trim(content), now, false)
      && Trimmed(r.value.content)
      && MessagesAt(st'.messages, Key(friendId, senderId))
           == MessagesAt(st.messages, Key(senderId, friendId)) + [r.value]
      && (forall k :: k != Key(senderId, friendId) ==> MessagesAt(st'.messages, k) == MessagesAt(st.messages, k))
      && st'.requests == st.requests && st'.users == st.users && st'.connected == st.connected
  {
    KeySymmetric(senderId, friendId);
    TrimmedTrim(content);
  }

  /** After a send both sides' records carry the preview; the receiver's unread count
      rises by one unless the receiver's registered socket is the sending socket, and the
      receiver's list is untouched when it holds no record for the sender. */
  lemma SendMessagePreview(st: Store, socket: SocketId, senderId: UserId, friendId: UserId,
                           content: string, msgId: string, now: int)
    requires senderId != friendId
    requires SendMessage(st, socket, senderId, friendId, content, msgId, now).0.Ok?
    ensures var (_, st') := SendMessage(st, socket, senderId, friendId, content, msgId, now);
      var sl := FriendsOf(st.friends, senderId);
      var i := FindFriend(sl, friendId).value;
      var rl := FriendsOf(st.friends, friendId);
      var rl' := FriendsOf(st'.friends, friendId);
      && FriendsOf(st'.friends, senderId) == sl[i := Preview(sl[i], content, now)]
      && (FindFriend(rl, senderId).None? ==> rl' == rl)
      && (FindFriend(rl, senderId).Some? ==>
            var j := FindFriend(rl, senderId).value;
            && |rl'| == |rl|
            && (forall k :: 0 <= k < |rl| && k != j ==> rl'[k] == rl[k])
            && rl'[j].lastMessage == Some(content) && rl'[j].lastMessageTime == Some(now)
            && rl'[j].id == rl[j].id && rl'[j].name == rl[j].name && rl'[j].status == rl[j].status
            && rl'[j].unreadCount
                 == rl[j].unreadCount + (if Lookup(st.connected, friendId) != Some(socket) then 1 else 0))
      && (forall u :: u != senderId && u != friendId ==> FriendsOf(st'.friends, u) == FriendsOf(st.friends, u))
  {
    var sl := FriendsOf(st.friends, senderId);
    var i := FindFriend(sl, friendId).value;
    var f1 := st.friends[senderId := sl[i := Preview(sl[i], content, now)]];
    var bump := Lookup(st.connected, friendId) != Some(socket);
    SendMessageFriends(st, socket, senderId, friendId, content, msgId, now);
    ReceiverUpdateOthers(f1, friendId, senderId, content, now, bump);
    var rl := FriendsOf(st.friends, friendId);
    assert FriendsOf(f1, friendId) == rl;
    match FindFriend(rl, senderId)
    case None =>
    case Some(j) =>
      var p := Preview(rl[j], content, now);
      var f := if bump then p.(unreadCount := rl[j].unreadCount + 1) else p;
      ReceiverUpdateAt(f1, friendId, senderId, content, now, bump, j, f);
  }

  /** The receiver's side of send_message touches no other user's list. */
  lemma ReceiverUpdateOthers(friends: map<UserId, seq<Friend>>, owner: UserId, peer: UserId,
                             content: string, now: int, bump: bool)
    ensures forall u :: u != owner ==>
      FriendsOf(ReceiverUpdate(friends, owner, peer, content, now, bump), u) == FriendsOf(friends, u)
  {
  }

  // ---------------------------------------------------------------- revoke, delete, mark_read

  /** Revocation succeeds exactly when the message is in the pair's log, the actor sent it
      and at most two minutes have passed; it then empties the content and sets the flag
      in place, keeping the log's length and every other message. */
  lemma RevokeSpec(st: Store, userId: UserId, friendId: UserId, messageId: string, now: int)
    ensures var (r, st') := Revoke(st, userId, friendId, messageId, now);
      var key := Key(userId, friendId);
      var log := MessagesAt(st.messages, key);
      var f := FindMessage(log, messageId);
      && (r.Ok? <==> (f.Some? && log[f.value].senderId == userId
                      && now - log[f.value].timestamp <= RevokeWindow))
      && (r.Err? ==> st' == st)
      && (r.Ok? ==>
            var log' := MessagesAt(st'.messages, key);
            && |log'| == |log|
            && log'[f.value] == log[f.value].(isRevoked := true, content := "")
            && (forall j :: 0 <= j < |log| && j != f.value ==> log'[j] == log[j])
            && (forall k :: k != key ==> MessagesAt(st'.messages, k) == MessagesAt(st.messages, k))
            && st'.friends == st.friends)
  {
  }

  /** Two logs with the same ids position by position have the same first match. */
  lemma FindMessageSameIds(a: seq<Message>, b: seq<Message>, id: string)
    requires |a| == |b| && forall j :: 0 <= j < |a| ==> a[j].id == b[j].id
    ensures FindMessage(a, id) == FindMessage(b, id)
  {
  }

  /** Revoking an already revoked message is not refused (within the window). */
  lemma RevokeAgainAccepted(st: Store, userId: UserId, friendId: UserId, messageId: string, now: int)
    requires Revoke(st, userId, friendId, messageId, now).0.Ok?
    ensures var st' := Revoke(st, userId, friendId, messageId, now).1;
      Revoke(st', userId, friendId, messageId, now).0.Ok?
  {
    var key := Key(userId, friendId);
    var st' := Revoke(st, userId, friendId, messageId, now).1;
    FindMessageSameIds(MessagesAt(st.messages, key), MessagesAt(st'.messages, key), messageId);
  }

  /** The two-minute window, at its edges: the sender may revoke at 119 s and not at
      121 s, and the counterpart may not revoke the sender's message at all. */
  lemma RevokeWindowEdges(st: Store, sender: UserId, friendId: UserId, messageId: string)
    requires friendId != sender
    requires var log := MessagesAt(st.messages, Key(sender, friendId));
      FindMessage(log, messageId).Some? && log[FindMessage(log, messageId).value].senderId == sender
    ensures var t := MessagesAt(st.messages, Key(sender, friendId))
                       [FindMessage(MessagesAt(st.messages, Key(sender, friendId)), messageId).value].timestamp;
      && Revoke(st, sender, friendId, messageId, t + 119000).0.Ok?
      && Revoke(st, sender, friendId, messageId, t + 121000).0 == Err(RevokeExpired)
      && Revoke(st, friendId, sender, messageId, t).0 == Err(NotOwnMessage)
  {
    KeySymmetric(sender, friendId);
  }

  /** Delete removes exactly the messages with that id from the pair's log, for either
      participant and with no sender check; every other log and every record is unchanged,
      and the message is gone from the counterpart's fetch too. */
  lemma DeleteSpec(st: Store, userId: UserId, friendId: UserId, messageId: string)
    ensures var st' := Delete(st, userId, friendId, messageId);
      var key := Key(userId, friendId);
      && (forall m :: m in MessagesAt(st'.messages, key) <==>
            m in MessagesAt(st.messages, key) && m.id != messageId)
      && (forall m :: multiset(MessagesAt(st'.messages, key))[m] ==
            if m.id == messageId then 0 else multiset(MessagesAt(st.messages, key))[m])
      && MessagesAt(st'.messages, key) == RemoveMessage(MessagesAt(st.messages, key), messageId)
      && (forall k :: k != key ==> MessagesAt(st'.messages, k) == MessagesAt(st.messages, k))
      && st'.friends == st.friends && st'.requests == st.requests
      && (forall m :: m in FetchMessages(st', friendId, userId) ==> m.id != messageId)
  {
    var st' := Delete(st, userId, friendId, messageId);
    FetchMessagesSpec(st', friendId, userId);
    KeySymmetric(userId, friendId);
  }

  /** mark_read zeroes the unread count of the user's first record for the friend and
      changes nothing else; with no such record it is a no-op. */
  lemma MarkReadSpec(st: Store, userId: UserId, friendId: UserId)
    ensures var st' := MarkRead(st, userId, friendId);
      var list := FriendsOf(st.friends, userId);
      var f := FindFriend(list, friendId);
      && (f.None? ==> st' == st)
      && (f.Some? ==> FriendsOf(st'.friends, userId) == list[f.value := list[f.value].(unreadCount := 0)]
                      && FriendsOf(st'.friends, userId)[f.value].unreadCount == 0)
      && (forall u :: u != userId ==> FriendsOf(st'.friends, u) == FriendsOf(st.friends, u))
      && st'.messages == st.messages && st'.requests == st.requests
  {
  }

  // ---------------------------------------------------------------- connection registry

  /** login: the newest socket wins for that user, every other user's lookup is unchanged,
      and the registry still has one entry per user. */
  lemma {:induction false} RegisterSpec(reg: seq<(UserId, SocketId)>, u: UserId, s: SocketId)
    requires UniqueUsers(reg)
    ensures Lookup(Register(reg, u, s), u) == Some(s)
    ensures forall v :: v != u ==> Lookup(Register(reg, u, s), v) == Lookup(reg, v)
    ensures UniqueUsers(Register(reg, u, s))
  {
    if |reg| > 0 && reg[0].0 != u {
      var rest := reg[1..];
      assert UniqueUsers(rest);
      RegisterSpec(rest, u, s);
      var tail := Register(rest, u, s);
      assert Lookup(rest, reg[0].0).None? by {
        forall k | 0 <= k < |rest| ensures rest[k].0 != reg[0].0 {
          assert rest[k] == reg[k + 1];
        }
      }
      assert Lookup(tail, reg[0].0).None?;
      var r := [reg[0]] + tail;
      assert Register(reg, u, s) == r;
      forall i, j | 0 <= i < j < |r| ensures r[i].0 != r[j].0 {
        if i == 0 {
          assert r[j] == tail[j - 1];
        } else {
          assert r[i] == tail[i - 1] && r[j] == tail[j - 1];
        }
      }
    } else if |reg| > 0 {
      var r := [(u, s)] + reg[1..];
      forall i, j | 0 <= i < j < |r| ensures r[i].0 != r[j].0 {
        assert r[j] == reg[j];
        if i > 0 { assert r[i] == reg[i]; }
      }
    }
  }

  /** disconnect with no entry bound to the socket leaves the registry unchanged. */
  lemma {:induction false} UnregisterAbsent(reg: seq<(UserId, SocketId)>, s: SocketId)
    requires forall j :: 0 <= j < |reg| ==> reg[j].1 != s
    ensures Unregister(reg, s) == reg
  {
    if |reg| > 0 {
      UnregisterAbsent(reg[1..], s);
      assert reg == [reg[0]] + reg[1..];
    }
  }

  /** disconnect removes the first entry bound to the socket, at index `j`, and no other. */
  lemma {:induction false} UnregisterFirst(reg: seq<(UserId, SocketId)>, s: SocketId, j: nat)
    requires j < |reg| && reg[j].1 == s
    requires forall k :: 0 <= k < j ==> reg[k].1 != s
    ensures Unregister(reg, s) == reg[..j] + reg[j + 1..]
  {
    if j > 0 {
      UnregisterFirst(reg[1..], s, j - 1);
      assert reg[..j] == [reg[0]] + reg[1..][..j - 1];
      assert reg[j + 1..] == reg[1..][j..];
    }
  }

  /** After a disconnect the user whose entry was removed is no longer reachable, and
      every user not bound to that socket keeps its socket. */
  lemma {:induction false} UnregisterLookup(reg: seq<(UserId, SocketId)>, s: SocketId, v: UserId)
    requires UniqueUsers(reg)
    ensures Lookup(reg, v) != Some(s) ==> Lookup(Unregister(reg, s), v) == Lookup(reg, v)
    ensures (Lookup(reg, v) == Some(s) && forall k :: 0 <= k < |reg| && reg[k].0 != v ==> reg[k].1 != s)
            ==> Lookup(Unregister(reg, s), v).None?
  {
    if |reg| > 0 {
      assert UniqueUsers(reg[1..]);
      UnregisterLookup(reg[1..], s, v);
      if reg[0].1 == s && reg[0].0 != v {
        assert Lookup(reg, v) == Lookup(reg[1..], v);
      }
      if reg[0].1 == s && reg[0].0 == v {
        forall j | 0 <= j < |reg[1..]| ensures reg[1..][j].0 != v {
          assert reg[j + 1].0 != reg[0].0;
        }
      }
    }
  }

  // ---------------------------------------------------------------- store invariants

  /** `a`'s first record for `b` is accepted: what send_message checks. */
  predicate AcceptedFor(friends: map<UserId, seq<Friend>>, a: UserId, b: UserId) {
    var list := FriendsOf(friends, a);
    var f := FindFriend(list, b);
    f.Some? && list[f.value].status == Some(Accepted)
  }

  /** Acceptance is mutual: whoever accepted a peer is accepted back. */
  ghost predicate Mutual(friends: map<UserId, seq<Friend>>) {
    forall a, b :: AcceptedFor(friends, a, b) ==> AcceptedFor(friends, b, a)
  }

  /** Two lists with the same ids and statuses, position by position. */
  ghost predicate SameStatuses(l1: seq<Friend>, l2: seq<Friend>) {
    |l1| == |l2| && forall i :: 0 <= i < |l1| ==> l1[i].id == l2[i].id && l1[i].status == l2[i].status
  }

  /** Two lists with the same ids, position by position. */
  ghost predicate SameIds(l1: seq<Friend>, l2: seq<Friend>) {
    |l1| == |l2| && forall i :: 0 <= i < |l1| ==> l1[i].id == l2[i].id
  }

  lemma {:induction false} SameIdsFind(l1: seq<Friend>, l2: seq<Friend>, p: UserId)
    requires SameIds(l1, l2)
    ensures FindFriend(l1, p) == FindFriend(l2, p)
    decreases |l1|
  {
    if |l1| > 0 && l1[0].id != p {
      SameIdsFind(l1[1..], l2[1..], p);
    }
  }

  /** Replacing one user's list by one with the same ids and statuses changes no acceptance. */
  lemma SameStatusesAccepted(friends: map<UserId, seq<Friend>>, u: UserId, list: seq<Friend>)
    requires SameStatuses(FriendsOf(friends, u), list)
    ensures forall a, b :: AcceptedFor(friends[u := list], a, b) <==> AcceptedFor(friends, a, b)
  {
    forall a, b ensures AcceptedFor(friends[u := list], a, b) <==> AcceptedFor(friends, a, b) {
      if a == u {
        SameIdsFind(FriendsOf(friends, u), list, b);
      }
    }
  }

  lemma ReceiverUpdateKeepsAcceptance(friends: map<UserId, seq<Friend>>, owner: UserId, peer: UserId,
                                      content: string, now: int, bump: bool)
    ensures forall a, b :: AcceptedFor(ReceiverUpdate(friends, owner, peer, content, now, bump), a, b)
                           <==> AcceptedFor(friends, a, b)
  {
    var rl := FriendsOf(friends, owner);
    var found := FindFriend(rl, peer);
    if found.Some? {
      var j := found.value;
      var p := Preview(rl[j], content, now);
      var f := if bump then p.(unreadCount := p.unreadCount + 1) else p;
      assert f.id == rl[j].id && f.status == rl[j].status;
      var nl := rl[j := f];
      assert SameStatuses(rl, nl);
      assert ReceiverUpdate(friends, owner, peer, content, now, bump) == friends[owner := nl];
      SameStatusesAccepted(friends, owner, nl);
    }
  }

  /** send_message leaves every acceptance as it was. */
  lemma SendMessageKeepsAcceptance(st: Store, socket: SocketId, senderId: UserId, friendId: UserId,
                                   content: string, msgId: string, now: int)
    ensures var st' := SendMessage(st, socket, senderId, friendId, content, msgId, now).1;
      forall a, b :: AcceptedFor(st'.friends, a, b) <==> AcceptedFor(st.friends, a, b)
  {
    var (r, st') := SendMessage(st, socket, senderId, friendId, content, msgId, now);
    if r.Ok? {
      var list := FriendsOf(st.friends, senderId);
      var i := FindFriend(list, friendId).value;
      var l1 := list[i := Preview(list[i], content, now)];
      SameStatusesAccepted(st.friends, senderId, l1);
      var f1 := st.friends[senderId := l1];
      var bump := Lookup(st.connected, friendId) != Some(socket);
      ReceiverUpdateKeepsAcceptance(f1, friendId, senderId, content, now, bump);
      assert st'.friends == ReceiverUpdate(f1, friendId, senderId, content, now, bump);
    }
  }

  lemma MarkReadKeepsAcceptance(st: Store, userId: UserId, friendId: UserId)
    ensures var st' := MarkRead(st, userId, friendId);
      forall a, b :: AcceptedFor(st'.friends, a, b) <==> AcceptedFor(st.friends, a, b)
  {
    var list := FriendsOf(st.friends, userId);
    match FindFriend(list, friendId)
    case None =>
    case Some(i) => SameStatusesAccepted(st.friends, userId, list[i := list[i].(unreadCount := 0)]);
  }

  /** A successful send-request changes no acceptance: the only record it adds is pending. */
  lemma SendRequestKeepsAcceptance(st: Store, from: UserId, to: UserId, id: string, now: int)
    ensures var st' := SendRequest(st, from, to, id, now).1;
      forall a, b :: AcceptedFor(st'.friends, a, b) <==> AcceptedFor(st.friends, a, b)
  {
    var (r, st') := SendRequest(st, from, to, id, now);
    if r.Ok? {
      var list := FriendsOf(st.friends, from);
      if !HasRecord(list, to) {
        var x := Friend(to, FindUser(st.users, to).value.name, None, None, 0, Some(Pending));
        var l' := list + [x];
        assert st'.friends == st.friends[from := l'];
        forall b ensures AcceptedFor(st'.friends, from, b) <==> AcceptedFor(st.friends, from, b) {
          if b != to {
            FindFriendAppend(list, x, b);
          } else {
            assert l'[|list|].id == to;
            assert forall j :: 0 <= j < |list| ==> l'[j] == list[j];
          }
        }
      } else {
        assert st'.friends == st.friends[from := list];
      }
    }
  }

  /** On one side of an approval the first record for any other peer, and its status,
      stay where they were. */
  lemma AcceptRecordOtherPeer(list: seq<Friend>, peer: UserId, name: string, b: UserId)
    requires b != peer
    ensures var list' := AcceptRecord(list, peer, name);
      && FindFriend(list', b) == FindFriend(list, b)
      && (FindFriend(list, b).Some? ==>
            list'[FindFriend(list, b).value].status == list[FindFriend(list, b).value].status)
  {
    match FindFriend(list, peer)
    case Some(i) =>
      var list' := list[i := list[i].(status := Some(Accepted))];
      assert SameIds(list, list');
      SameIdsFind(list, list', b);
    case None =>
      FindFriendAppend(list, Friend(peer, name, None, None, 0, Some(Accepted)), b);
  }

  /** Appending a record for someone else does not move anyone's first record. */
  lemma FindFriendAppend(list: seq<Friend>, f: Friend, b: UserId)
    requires f.id != b
    ensures FindFriend(list + [f], b) == FindFriend(list, b)
  {
    var g, g' := FindFriend(list, b), FindFriend(list + [f], b);
    if g.Some? { assert (list + [f])[g.value].id == b; }
    if g'.Some? { assert g'.value < |list|; assert list[g'.value].id == b; }
  }

  /** On one side of an approval the peer's first record ends up accepted. */
  lemma AcceptRecordPeer(list: seq<Friend>, peer: UserId, name: string)
    ensures var list' := AcceptRecord(list, peer, name);
      FindFriend(list', peer).Some? && list'[FindFriend(list', peer).value].status == Some(Accepted)
  {
    var list' := AcceptRecord(list, peer, name);
    match FindFriend(list, peer)
    case Some(i) =>
      SameIdsFind(list, list', peer);
    case None =>
      assert list'[|list|].id == peer;
  }

  /** On one side of an approval, only the peer's acceptance changes, and it becomes true. */
  lemma AcceptRecordAcceptance(friends: map<UserId, seq<Friend>>, u: UserId, peer: UserId, name: string)
    ensures var f' := friends[u := AcceptRecord(FriendsOf(friends, u), peer, name)];
      && AcceptedFor(f', u, peer)
      && forall a, b :: (a, b) != (u, peer) ==> (AcceptedFor(f', a, b) <==> AcceptedFor(friends, a, b))
  {
    var f' := friends[u := AcceptRecord(FriendsOf(friends, u), peer, name)];
    AcceptRecordPeer(FriendsOf(friends, u), peer, name);
    forall a, b | (a, b) != (u, peer) ensures AcceptedFor(f', a, b) <==> AcceptedFor(friends, a, b) {
      if a == u {
        AcceptRecordOtherPeer(FriendsOf(friends, u), peer, name, b);
      }
    }
  }

  /** Approval makes the requester and the approver accept each other and changes no other
      acceptance. */
  lemma ApproveAcceptance(st: Store, approver: UserId, requestId: string)
    requires Approve(st, approver, requestId).0.Ok?
    ensures var st' := Approve(st, approver, requestId).1;
      var q := st.requests[FindRequest(st.requests, requestId).value];
      && AcceptedFor(st'.friends, q.fromUserId, q.toUserId)
      && AcceptedFor(st'.friends, q.toUserId, q.fromUserId)
      && forall a, b :: (a, b) != (q.fromUserId, q.toUserId) && (a, b) != (q.toUserId, q.fromUserId) ==>
           (AcceptedFor(st'.friends, a, b) <==> AcceptedFor(st.friends, a, b))
  {
    var q := st.requests[FindRequest(st.requests, requestId).value];
    var fromName := NameOr(FindUser(st.users, q.fromUserId));
    var toName := NameOr(FindUser(st.users, q.toUserId));
    AcceptRecordAcceptance(st.friends, q.fromUserId, q.toUserId, toName);
    var f1 := st.friends[q.fromUserId := AcceptRecord(FriendsOf(st.friends, q.fromUserId), q.toUserId, toName)];
    AcceptRecordAcceptance(f1, q.toUserId, q.fromUserId, fromName);
  }

  /** Two friend maps with the same acceptances are mutual together. */
  lemma SameAcceptanceKeepsMutual(f: map<UserId, seq<Friend>>, f': map<UserId, seq<Friend>>)
    requires Mutual(f)
    requires forall a, b :: AcceptedFor(f', a, b) <==> AcceptedFor(f, a, b)
    ensures Mutual(f')
  {
  }

  lemma SendRequestKeepsMutual(st: Store, from: UserId, to: UserId, id: string, now: int)
    requires Mutual(st.friends)
    ensures Mutual(SendRequest(st, from, to, id, now).1.friends)
  {
    SendRequestKeepsAcceptance(st, from, to, id, now);
    SameAcceptanceKeepsMutual(st.friends, SendRequest(st, from, to, id, now).1.friends);
  }

  lemma ApproveKeepsMutual(st: Store, approver: UserId, requestId: string)
    requires Mutual(st.friends)
    ensures Mutual(Approve(st, approver, requestId).1.friends)
  {
    if Approve(st, approver, requestId).0.Ok? {
      ApproveAcceptance(st, approver, requestId);
    }
  }

  lemma SendMessageKeepsMutual(st: Store, socket: SocketId, senderId: UserId, friendId: UserId,
                               content: string, msgId: string, now: int)
    requires Mutual(st.friends)
    ensures Mutual(SendMessage(st, socket, senderId, friendId, content, msgId, now).1.friends)
  {
    SendMessageKeepsAcceptance(st, socket, senderId, friendId, content, msgId, now);
    SameAcceptanceKeepsMutual(st.friends, SendMessage(st, socket, senderId, friendId, content, msgId, now).1.friends);
  }

  lemma MarkReadKeepsMutual(st: Store, userId: UserId, friendId: UserId)
    requires Mutual(st.friends)
    ensures Mutual(MarkRead(st, userId, friendId).friends)
  {
    MarkReadKeepsAcceptance(st, userId, friendId);
    SameAcceptanceKeepsMutual(st.friends, MarkRead(st, userId, friendId).friends);
  }

  /** Every handler keeps acceptance mutual. */
  lemma MutualPreserved(st: Store, socket: SocketId, a: UserId, b: UserId, content: string,
                        id: string, now: int)
    requires Mutual(st.friends)
    ensures Mutual(SendRequest(st, a, b, id, now).1.friends)
    ensures Mutual(Approve(st, a, id).1.friends)
    ensures Mutual(SendMessage(st, socket, a, b, content, id, now).1.friends)
    ensures Mutual(Revoke(st, a, b, id, now).1.friends)
    ensures Mutual(Delete(st, a, b, id).friends)
    ensures Mutual(MarkRead(st, a, b).friends)
  {
    SendRequestKeepsMutual(st, a, b, id, now);
    ApproveKeepsMutual(st, a, id);
    SendMessageKeepsMutual(st, socket, a, b, content, id, now);
    MarkReadKeepsMutual(st, a, b);
  }

  /** With acceptance mutual, a message is stored only between two users who both hold an
      accepted record for each other. */
  lemma SendNeedsMutualAcceptance(st: Store, socket: SocketId, senderId: UserId, friendId: UserId,
                                  content: string, msgId: string, now: int)
    requires Mutual(st.friends)
    requires SendMessage(st, socket, senderId, friendId, content, msgId, now).0.Ok?
    ensures AcceptedFor(st.friends, senderId, friendId) && AcceptedFor(st.friends, friendId, senderId)
  {
  }

  // ---------------------------------------------------------------- scenarios

  /** A send-request keeps one record per peer in every list. */
  lemma SendRequestKeepsUniquePeers(st: Store, from: UserId, to: UserId, id: string, now: int)
    requires UniquePeersEverywhere(st.friends)
    ensures UniquePeersEverywhere(SendRequest(st, from, to, id, now).1.friends)
  {
    var (r, st') := SendRequest(st, from, to, id, now);
    if r.Ok? {
      var list := FriendsOf(st.friends, from);
      assert UniquePeers(list);
      if !HasRecord(list, to) {
        var list' := FriendsOf(st'.friends, from);
        forall i, j | 0 <= i < j < |list'| ensures list'[i].id != list'[j].id {
          if j == |list| {
            assert list'[i] == list[i];
          } else {
            assert list'[i] == list[i] && list'[j] == list[j];
          }
        }
      }
    }
  }

  /** The first half of the handshake: the request is issued, is the only one with its
      id and shows up in the target's incoming list. */
  lemma HandshakeRequest(st: Store, a: UserId, b: UserId, id: string, now: int)
    requires a != "" && b != "" && a != b
    requires FindUser(st.users, b).Some?
    requires !HasAcceptedRecord(FriendsOf(st.friends, a), b)
    requires !PendingBetween(st.requests, a, b)
    requires FindRequest(st.requests, id).None?
    ensures var (r1, s1) := SendRequest(st, a, b, id, now);
      && r1.Ok?
      && r1.value.fromUserId == a && r1.value.toUserId == b && r1.value.status == Pending
      && s1.requests == st.requests + [r1.value]
      && r1.value in IncomingRequests(s1.requests, b)
      && FindRequest(s1.requests, id) == Some(|st.requests|)
  {
    var r1 := SendRequest(st, a, b, id, now).0;
    var s1 := SendRequest(st, a, b, id, now).1;
    SendRequestEffect(st, a, b, id, now);
    FindRequestAppend(st.requests, r1.value);
  }

  /** A request with a new id appended to the log is found at the end. */
  lemma FindRequestAppend(requests: seq<FriendRequest>, q: FriendRequest)
    requires FindRequest(requests, q.id).None?
    ensures FindRequest(requests + [q], q.id) == Some(|requests|)
  {
    var all := requests + [q];
    assert all[|requests|].id == q.id;
    assert forall j :: 0 <= j < |requests| ==> all[j] == requests[j];
  }

  /** A first request leaves the sender with a pending record, so messaging stays closed. */
  lemma HandshakePending(st: Store, a: UserId, b: UserId, id: string, now: int)
    requires !HasRecord(FriendsOf(st.friends, a), b)
    requires SendRequest(st, a, b, id, now).0.Ok?
    ensures !AcceptedFor(SendRequest(st, a, b, id, now).1.friends, a, b)
  {
    SendRequestEffect(st, a, b, id, now);
    var list := FriendsOf(st.friends, a);
    var l1 := FriendsOf(SendRequest(st, a, b, id, now).1.friends, a);
    var name :| l1 == list + [Friend(b, name, None, None, 0, Some(Pending))];
    assert l1[|list|].id == b;
    assert forall j :: 0 <= j < |list| ==> l1[j].id != b;
    assert FindFriend(l1, b) == Some(|list|);
  }

  /** The second half of the handshake: the target approves the pending request `q`, the
      last of the log, after which both sides may message each other, the request leaves
      the incoming list and cannot be approved again. */
  lemma HandshakeApprove(s1: Store, base: seq<FriendRequest>, q: FriendRequest, a: UserId, b: UserId,
                         socket: SocketId, content: string, msgId: string, later: int)
    requires a != "" && b != "" && content != ""
    requires s1.requests == base + [q]
    requires FindRequest(s1.requests, q.id) == Some(|base|)
    requires q.fromUserId == a && q.toUserId == b && q.status == Pending
    ensures var (r2, s2) := Approve(s1, b, q.id);
      && r2.Ok?
      && SendMessage(s2, socket, a, b, content, msgId, later).0.Ok?
      && SendMessage(s2, socket, b, a, content, msgId, later).0.Ok?
      && IncomingRequests(s2.requests, b) == IncomingRequests(base, b)
      && Approve(s2, b, q.id).0 == Err(RequestHandled)
  {
    ApproveOpensMessaging(s1, q, a, b, socket, content, msgId, later);
    ApproveClosesRequest(s1, base, q, b);
  }

  /** Approving a pending request from `a` to `b` lets both message each other. */
  lemma ApproveOpensMessaging(s1: Store, q: FriendRequest, a: UserId, b: UserId,
                              socket: SocketId, content: string, msgId: string, later: int)
    requires a != "" && b != "" && content != ""
    requires FindRequest(s1.requests, q.id).Some? && s1.requests[FindRequest(s1.requests, q.id).value] == q
    requires q.fromUserId == a && q.toUserId == b && q.status == Pending
    ensures var (r2, s2) := Approve(s1, b, q.id);
      && r2.Ok?
      && SendMessage(s2, socket, a, b, content, msgId, later).0.Ok?
      && SendMessage(s2, socket, b, a, content, msgId, later).0.Ok?
  {
    var s2 := Approve(s1, b, q.id).1;
    ApproveAcceptance(s1, b, q.id);
    SendMessageGate(s2, socket, a, b, content, msgId, later);
    SendMessageGate(s2, socket, b, a, content, msgId, later);
  }

  /** Once the last request of the log is approved it leaves the incoming list and a
      second approval is refused. */
  lemma ApproveClosesRequest(s1: Store, base: seq<FriendRequest>, q: FriendRequest, b: UserId)
    requires s1.requests == base + [q]
    requires FindRequest(s1.requests, q.id) == Some(|base|)
    requires q.toUserId == b && q.status == Pending
    ensures var s2 := Approve(s1, b, q.id).1;
      && IncomingRequests(s2.requests, b) == IncomingRequests(base, b)
      && Approve(s2, b, q.id).0 == Err(RequestHandled)
  {
    var n := |base|;
    var q' := q.(status := Accepted);
    ApproveMarksRequest(s1, b, q.id);
    var s2 := Approve(s1, b, q.id).1;
    assert s2.requests == base + [q'] by {
      assert s2.requests == (base + [q])[n := q'];
    }
    IncomingAfterApprove(base, q, b);
    FindRequestSameIds(s1.requests, s2.requests, q.id);
    ApproveHandled(s2, b, q.id);
  }

  /** A pending request addressed to the approver is marked accepted in place. */
  lemma ApproveMarksRequest(st: Store, approver: UserId, requestId: string)
    requires FindRequest(st.requests, requestId).Some?
    requires st.requests[FindRequest(st.requests, requestId).value].toUserId == approver
    requires st.requests[FindRequest(st.requests, requestId).value].status == Pending
    ensures var i := FindRequest(st.requests, requestId).value;
      Approve(st, approver, requestId).1.requests
        == st.requests[i := st.requests[i].(status := Accepted)]
  {
  }

  /** A request found already accepted is refused as handled. */
  lemma ApproveHandled(st: Store, approver: UserId, requestId: string)
    requires FindRequest(st.requests, requestId).Some?
    requires st.requests[FindRequest(st.requests, requestId).value].toUserId == approver
    requires st.requests[FindRequest(st.requests, requestId).value].status == Accepted
    ensures Approve(st, approver, requestId).0 == Err(RequestHandled)
  {
  }

  /** Lookup by id sees only the ids, position by position. */
  lemma {:induction false} FindRequestSameIds(r1: seq<FriendRequest>, r2: seq<FriendRequest>, id: string)
    requires |r1| == |r2| && forall j :: 0 <= j < |r1| ==> r1[j].id == r2[j].id
    ensures FindRequest(r1, id) == FindRequest(r2, id)
    decreases |r1|
  {
    if |r1| > 0 && r1[0].id != id {
      FindRequestSameIds(r1[1..], r2[1..], id);
    }
  }

  /** The full handshake between two fresh users: messages are refused while the request
      is pending; once the target approves it both may message each other, the request
      leaves the incoming list and cannot be approved again. */
  lemma HandshakeScenario(st: Store, a: UserId, b: UserId, id: string, now: int,
                          socket: SocketId, content: string, msgId: string, later: int)
    requires a != "" && b != "" && a != b && content != ""
    requires FindUser(st.users, b).Some?
    requires !HasRecord(FriendsOf(st.friends, a), b)
    requires !PendingBetween(st.requests, a, b)
    requires FindRequest(st.requests, id).None?
    ensures var s1 := SendRequest(st, a, b, id, now).1;
      SendMessage(s1, socket, a, b, content, msgId, later).0 == Err(NotFriends)
    ensures var s2 := Approve(SendRequest(st, a, b, id, now).1, b, id).1;
      && SendMessage(s2, socket, a, b, content, msgId, later).0.Ok?
      && SendMessage(s2, socket, b, a, content, msgId, later).0.Ok?
      && IncomingRequests(s2.requests, b) == IncomingRequests(st.requests, b)
      && Approve(s2, b, id).0 == Err(RequestHandled)
  {
    assert !HasAcceptedRecord(FriendsOf(st.friends, a), b);
    HandshakeRequest(st, a, b, id, now);
    HandshakePending(st, a, b, id, now);
    var r1 := SendRequest(st, a, b, id, now).0;
    var s1 := SendRequest(st, a, b, id, now).1;
    SendMessageGate(s1, socket, a, b, content, msgId, later);
    HandshakeApprove(s1, st.requests, r1.value, a, b, socket, content, msgId, later);
  }

  /** The query ignores a request once it is accepted. */
  lemma {:induction false} IncomingAfterApprove(requests: seq<FriendRequest>, q: FriendRequest, user: UserId)
    ensures IncomingRequests(requests + [q.(status := Accepted)], user) == IncomingRequests(requests, user)
  {
    if |requests| > 0 {
      IncomingAfterApprove(requests[1..], q, user);
      assert (requests + [q.(status := Accepted)])[1..] == requests[1..] + [q.(status := Accepted)];
    }
  }

  /** Repeating a successful request is refused as pending, and so is the reverse request
      from a registered sender unless the target already holds an accepted record for it. */
  lemma DuplicateRequestRefused(st: Store, a: UserId, b: UserId, id: string, now: int,
                                id2: string, now2: int)
    requires SendRequest(st, a, b, id, now).0.Ok?
    ensures var s1 := SendRequest(st, a, b, id, now).1;
      && SendRequest(s1, a, b, id2, now2).0 == Err(RequestAlreadyPending)
      && (a != "" && FindUser(st.users, a).Some? && !HasAcceptedRecord(FriendsOf(s1.friends, b), a) ==>
            SendRequest(s1, b, a, id2, now2).0 == Err(RequestAlreadyPending))
  {
    var (r1, s1) := SendRequest(st, a, b, id, now);
    SendRequestEffect(st, a, b, id, now);
    assert s1.requests[|st.requests|] == r1.value;
    assert PendingBetween(s1.requests, a, b);
    assert PendingBetween(s1.requests, b, a);
  }

  /** One send from `a` to `b` whose registered socket is not the sending one: the message
      goes through, `b`'s count for `a` rises by one and the acceptance and registry stay. */
  lemma SendBumpsUnread(st: Store, socket: SocketId, a: UserId, b: UserId, content: string,
                        msgId: string, now: int, count: int)
    requires a != "" && b != "" && a != b && content != ""
    requires AcceptedFor(st.friends, a, b)
    requires Lookup(st.connected, b) != Some(socket)
    requires UnreadOf(st.friends, b, a) == Some(count)
    ensures var (r, st') := SendMessage(st, socket, a, b, content, msgId, now);
      && r.Ok?
      && UnreadOf(st'.friends, b, a) == Some(count + 1)
      && AcceptedFor(st'.friends, a, b)
      && st'.connected == st.connected
  {
    SendMessageGate(st, socket, a, b, content, msgId, now);
    SendMessageStores(st, socket, a, b, content, msgId, now);
    SendMessageKeepsAcceptance(st, socket, a, b, content, msgId, now);
    SendAddsUnread(st, socket, a, b, content, msgId, now, count);
  }

  /** The receiver's count step of `SendBumpsUnread`. */
  lemma SendAddsUnread(st: Store, socket: SocketId, a: UserId, b: UserId, content: string,
                       msgId: string, now: int, count: int)
    requires a != b
    requires SendMessage(st, socket, a, b, content, msgId, now).0.Ok?
    requires Lookup(st.connected, b) != Some(socket)
    requires UnreadOf(st.friends, b, a) == Some(count)
    ensures UnreadOf(SendMessage(st, socket, a, b, content, msgId, now).1.friends, b, a) == Some(count + 1)
  {
    var sl := FriendsOf(st.friends, a);
    var i := FindFriend(sl, b).value;
    var f1 := st.friends[a := sl[i := Preview(sl[i], content, now)]];
    SendMessageFriends(st, socket, a, b, content, msgId, now);
    assert FriendsOf(f1, b) == FriendsOf(st.friends, b);
    ReceiverBumps(f1, b, a, content, now, count);
  }

  /** A bumped receiver update adds one to the count of the record it finds. */
  lemma ReceiverBumps(friends: map<UserId, seq<Friend>>, owner: UserId, peer: UserId,
                      content: string, now: int, count: int)
    requires UnreadOf(friends, owner, peer) == Some(count)
    ensures UnreadOf(ReceiverUpdate(friends, owner, peer, content, now, true), owner, peer) == Some(count + 1)
  {
    var rl := FriendsOf(friends, owner);
    var j := FindFriend(rl, peer).value;
    var f := Preview(rl[j], content, now).(unreadCount := rl[j].unreadCount + 1);
    ReceiverUpdateAt(friends, owner, peer, content, now, true, j, f);
  }

  /** Unfolding helper: the friend lists after a successful send, the sender's record with
      the preview and then the receiver's side updated. */
  lemma SendMessageFriends(st: Store, socket: SocketId, a: UserId, b: UserId, content: string,
                           msgId: string, now: int)
    requires SendMessage(st, socket, a, b, content, msgId, now).0.Ok?
    ensures var sl := FriendsOf(st.friends, a);
      && FindFriend(sl, b).Some?
      && var i := FindFriend(sl, b).value;
      SendMessage(st, socket, a, b, content, msgId, now).1.friends
        == ReceiverUpdate(st.friends[a := sl[i := Preview(sl[i], content, now)]], b, a, content, now,
                          Lookup(st.connected, b) != Some(socket))
  {
  }

  /** mark_read brings an existing count to zero. */
  lemma MarkReadClears(st: Store, b: UserId, a: UserId)
    requires UnreadOf(st.friends, b, a).Some?
    ensures UnreadOf(MarkRead(st, b, a).friends, b, a) == Some(0)
  {
    MarkReadSpec(st, b, a);
    var list := FriendsOf(st.friends, b);
    var j := FindFriend(list, a).value;
    SameIdsFind(list, list[j := list[j].(unreadCount := 0)], a);
  }

  /** While the receiver is away from the sending socket each message adds one unread; three
      sends and a mark_read by the receiver leave the count at zero. */
  lemma UnreadScenario(st: Store, socket: SocketId, a: UserId, b: UserId, content: string,
                       id1: string, id2: string, id3: string, t1: int, t2: int, t3: int, count: int)
    requires a != "" && b != "" && a != b && content != ""
    requires AcceptedFor(st.friends, a, b)
    requires Lookup(st.connected, b) != Some(socket)
    requires UnreadOf(st.friends, b, a) == Some(count)
    ensures var s1 := SendMessage(st, socket, a, b, content, id1, t1).1;
      var s2 := SendMessage(s1, socket, a, b, content, id2, t2).1;
      var s3 := SendMessage(s2, socket, a, b, content, id3, t3).1;
      && UnreadOf(s3.friends, b, a) == Some(count + 3)
      && UnreadOf(MarkRead(s3, b, a).friends, b, a) == Some(0)
  {
    SendBumpsUnread(st, socket, a, b, content, id1, t1, count);
    var s1 := SendMessage(st, socket, a, b, content, id1, t1).1;
    SendBumpsUnread(s1, socket, a, b, content, id2, t2, count + 1);
    var s2 := SendMessage(s1, socket, a, b, content, id2, t2).1;
    SendBumpsUnread(s2, socket, a, b, content, id3, t3, count + 2);
    var s3 := SendMessage(s2, socket, a, b, content, id3, t3).1;
    MarkReadClears(s3, b, a);
  }

  // ---------------------------------------------------------------- shape invariants

  /** Replacing one list by one with the same ids keeps one record per peer everywhere. */
  lemma SameIdsKeepUniquePeers(friends: map<UserId, seq<Friend>>, u: UserId, list: seq<Friend>)
    requires UniquePeersEverywhere(friends)
    requires SameIds(FriendsOf(friends, u), list)
    ensures UniquePeersEverywhere(friends[u := list])
  {
    var old_ := FriendsOf(friends, u);
    assert UniquePeers(old_);
    forall i, j | 0 <= i < j < |list| ensures list[i].id != list[j].id {
      assert list[i].id == old_[i].id && list[j].id == old_[j].id;
    }
  }

  /** send_message keeps one record per peer in every list. */
  lemma SendMessageKeepsUniquePeers(st: Store, socket: SocketId, a: UserId, b: UserId,
                                    content: string, msgId: string, now: int)
    requires UniquePeersEverywhere(st.friends)
    ensures UniquePeersEverywhere(SendMessage(st, socket, a, b, content, msgId, now).1.friends)
  {
    var list := FriendsOf(st.friends, a);
    var (r, st') := SendMessage(st, socket, a, b, content, msgId, now);
    if r.Ok? {
      var i := FindFriend(list, b).value;
      var l1 := list[i := Preview(list[i], content, now)];
      assert SameIds(list, l1);
      SameIdsKeepUniquePeers(st.friends, a, l1);
      var f1 := st.friends[a := l1];
      SendMessageFriends(st, socket, a, b, content, msgId, now);
      ReceiverUpdateKeepsUniquePeers(f1, b, a, content, now, Lookup(st.connected, b) != Some(socket));
    }
  }

  /** The receiver's side of send_message keeps one record per peer in every list. */
  lemma ReceiverUpdateKeepsUniquePeers(friends: map<UserId, seq<Friend>>, owner: UserId, peer: UserId,
                                       content: string, now: int, bump: bool)
    requires UniquePeersEverywhere(friends)
    ensures UniquePeersEverywhere(ReceiverUpdate(friends, owner, peer, content, now, bump))
  {
    var rl := FriendsOf(friends, owner);
    match FindFriend(rl, peer)
    case None =>
    case Some(j) =>
      var p := Preview(rl[j], content, now);
      var f := if bump then p.(unreadCount := rl[j].unreadCount + 1) else p;
      ReceiverUpdateAt(friends, owner, peer, content, now, bump, j, f);
      assert SameIds(rl, rl[j := f]);
      SameIdsKeepUniquePeers(friends, owner, rl[j := f]);
  }

  /** mark_read keeps one record per peer in every list. */
  lemma MarkReadKeepsUniquePeers(st: Store, a: UserId, b: UserId)
    requires UniquePeersEverywhere(st.friends)
    ensures UniquePeersEverywhere(MarkRead(st, a, b).friends)
  {
    var list := FriendsOf(st.friends, a);
    match FindFriend(list, b)
    case None =>
    case Some(i) =>
      SameIdsKeepUniquePeers(st.friends, a, list[i := list[i].(unreadCount := 0)]);
  }

  /** disconnect keeps one entry per user. */
  lemma {:induction false} UnregisterKeepsUnique(reg: seq<(UserId, SocketId)>, s: SocketId)
    requires UniqueUsers(reg)
    ensures UniqueUsers(Unregister(reg, s))
    ensures forall k :: 0 <= k < |Unregister(reg, s)| ==> Unregister(reg, s)[k] in reg
  {
    if |reg| > 0 && reg[0].1 != s {
      assert UniqueUsers(reg[1..]);
      UnregisterKeepsUnique(reg[1..], s);
      var tail := Unregister(reg[1..], s);
      var r := [reg[0]] + tail;
      forall i, j | 0 <= i < j < |r| ensures r[i].0 != r[j].0 {
        assert r[j] == tail[j - 1];
        assert tail[j - 1] in reg[1..];
        if i > 0 { assert r[i] == tail[i - 1]; }
      }
    }
  }
}
