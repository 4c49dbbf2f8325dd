/** What the server's pushes do to the clients' caches: the events a handler addresses
    to one socket, fed through the listeners of the push-mode provider on that socket. */
module Sync {
  import opened Types
  import opened Conversation
  import opened ServerStore
  import opened ServerEvents
  import opened ClientState
  import opened PushChat
  import opened ServerProperties

  /** The events of `out` addressed to `target`, in emission order. */
  function EventsTo(out: Outbox, target: Target): (r: seq<Event>)
    ensures |r| <= |out|
    ensures forall ev :: ev in r <==> (target, ev) in out
  {
    if |out| == 0 then []
    else if out[0].0 == target then [out[0].1] + EventsTo(out[1..], target)
    else EventsTo(out[1..], target)
  }

  /** The listeners of a client signed in as `self`, applied in order. */
  function ApplyAll(v: View, self: UserId, evs: seq<Event>): View
    decreases |evs|
  {
    if |evs| == 0 then v else ApplyAll(Apply(v, self, evs[0]), self, evs[1..])
  }

  /** Two events applied in turn. */
  lemma ApplyPair(v: View, self: UserId, e1: Event, e2: Event)
    ensures ApplyAll(v, self, [e1, e2]) == Apply(Apply(v, self, e1), self, e2)
  {
    var v1 := Apply(v, self, e1);
    assert [e1, e2][1..] == [e2];
    assert [e2][1..] == [];
    assert ApplyAll(v1, self, [e2]) == ApplyAll(Apply(v1, self, e2), self, []);
  }

  /** The receiver of a revoke, as written: the notice names the receiver itself, so the
      receiver's client tombstones the conversation filed under its own id and the one
      filed under the revoking user keeps the message as it was. */
  lemma RevokeAsWrittenMissesReceiver(st: Store, userId: UserId, friendId: UserId,
                                      messageId: string, now: int, v: View)
    requires Revoke(st, userId, friendId, messageId, now).0.Ok?
    requires ReceiverSocket(st.connected, friendId).Some?
    requires userId != friendId
    ensures var s := ReceiverSocket(st.connected, friendId).value;
      var evs := EventsTo(RevokeEventsAsWritten(st, userId, friendId, messageId, now), ToSocket(s));
      ConversationOf(ApplyAll(v, friendId, evs).messages, userId) == ConversationOf(v.messages, userId)
  {
    var s := ReceiverSocket(st.connected, friendId).value;
    var out := RevokeEventsAsWritten(st, userId, friendId, messageId, now);
    assert out == [(Caller, MessageRevoked(messageId, friendId)),
                   (ToSocket(s), MessageRevoked(messageId, friendId))];
    assert EventsTo(out, ToSocket(s)) == [MessageRevoked(messageId, friendId)];
  }

  /** A concrete revoke the receiver never sees: Bob holds Alice's message `m1`, Alice
      revokes it within the window, the store tombstones it, and Bob's conversation with
      Alice still shows the original text. */
  lemma RevokeAsWrittenExample()
    ensures var m := Message("m1", "alice", "bob", "hi", 0, false);
      var st := Store([], map[], [], map[Key("alice", "bob") := [m]], [("bob", "s2")]);
      var v := View([], map["alice" := [m]], []);
      var evs := EventsTo(RevokeEventsAsWritten(st, "alice", "bob", "m1", 1000), ToSocket("s2"));
      && Revoke(st, "alice", "bob", "m1", 1000).0.Ok?
      && MessagesAt(Revoke(st, "alice", "bob", "m1", 1000).1.messages, Key("alice", "bob"))[0].isRevoked
      && ConversationOf(ApplyAll(v, "bob", evs).messages, "alice") == [m]
  {
    var m := Message("m1", "alice", "bob", "hi", 0, false);
    var st := Store([], map[], [], map[Key("alice", "bob") := [m]], [("bob", "s2")]);
    assert FindMessage([m], "m1") == Some(0);
    assert ReceiverSocket(st.connected, "bob") == Some("s2");
    RevokeAsWrittenMissesReceiver(st, "alice", "bob", "m1", 1000, View([], map["alice" := [m]], []));
  }

  /** The receiver of a revoke, with the notice naming the revoking user: the receiver's
      conversation with that user gets the same tombstone as the store. */
  lemma RevokeReachesReceiver(st: Store, userId: UserId, friendId: UserId,
                              messageId: string, now: int, v: View)
    requires Revoke(st, userId, friendId, messageId, now).0.Ok?
    requires ReceiverSocket(st.connected, friendId).Some?
    ensures var s := ReceiverSocket(st.connected, friendId).value;
      var evs := EventsTo(RevokeEvents(st, userId, friendId, messageId, now), ToSocket(s));
      ConversationOf(ApplyAll(v, friendId, evs).messages, userId)
        == RevokeAll(ConversationOf(v.messages, userId), messageId)
  {
    var s := ReceiverSocket(st.connected, friendId).value;
    var out := RevokeEvents(st, userId, friendId, messageId, now);
    assert out == [(Caller, MessageRevoked(messageId, friendId)),
                   (ToSocket(s), MessageRevoked(messageId, userId))];
    assert EventsTo(out, ToSocket(s)) == [MessageRevoked(messageId, userId)];
  }

  /** The revoking user's own client tombstones its conversation with the friend. */
  lemma RevokeReachesCaller(st: Store, userId: UserId, friendId: UserId,
                            messageId: string, now: int, v: View)
    requires Revoke(st, userId, friendId, messageId, now).0.Ok?
    ensures var evs := EventsTo(RevokeEvents(st, userId, friendId, messageId, now), Caller);
      ConversationOf(ApplyAll(v, userId, evs).messages, friendId)
        == RevokeAll(ConversationOf(v.messages, friendId), messageId)
  {
    var out := RevokeEvents(st, userId, friendId, messageId, now);
    var tail := match ReceiverSocket(st.connected, friendId)
      case Some(s) => [(ToSocket(s), MessageRevoked(messageId, userId))]
      case None => [];
    assert out == [(Caller, MessageRevoked(messageId, friendId))] + tail;
    assert EventsTo(tail, Caller) == [];
    assert EventsTo(out, Caller) == [MessageRevoked(messageId, friendId)];
  }

  /** The events `send_message` addresses to the receiver's socket and to the caller,
      for any stored message `msg`. */
  lemma SendEventsSplit(st: Store, msg: Message, st': Store, senderId: UserId, friendId: UserId,
                        content: string, now: int, s: SocketId)
    requires ReceiverSocket(st.connected, friendId) == Some(s)
    ensures EventsTo(SendMessageEvents(st, Ok(msg), st', senderId, friendId, content, now), ToSocket(s))
            == [NewMessage(msg), FriendUpdated(senderId, Some(content), Some(now),
                                               Some(PushedUnread(st'.friends, friendId, senderId)))]
  {
    var upd := FriendUpdated(senderId, Some(content), Some(now),
                             Some(PushedUnread(st'.friends, friendId, senderId)));
    var head := [(ToSocket(s), NewMessage(msg)), (ToSocket(s), upd)];
    var tail := [(Caller, MessageSent(msg)), (Caller, FriendUpdated(friendId, Some(content), Some(now), None))];
    assert SendMessageEvents(st, Ok(msg), st', senderId, friendId, content, now) == head + tail;
    assert EventsTo(tail[1..], ToSocket(s)) == [];
    assert EventsTo(tail, ToSocket(s)) == [];
    assert EventsTo(head[1..], ToSocket(s)) == [upd];
    EventsToAppend(head, tail, ToSocket(s));
  }

  /** The caller always gets the confirmation and its own preview update, in that order. */
  lemma SendEventsToCaller(st: Store, msg: Message, st': Store, senderId: UserId, friendId: UserId,
                           content: string, now: int)
    ensures EventsTo(SendMessageEvents(st, Ok(msg), st', senderId, friendId, content, now), Caller)
            == [MessageSent(msg), FriendUpdated(friendId, Some(content), Some(now), None)]
  {
    var upd := FriendUpdated(friendId, Some(content), Some(now), None);
    var head := match ReceiverSocket(st.connected, friendId)
      case Some(s) =>
        [(ToSocket(s), NewMessage(msg)),
         (ToSocket(s), FriendUpdated(senderId, Some(content), Some(now),
                                     Some(PushedUnread(st'.friends, friendId, senderId))))]
      case None => [];
    var tail := [(Caller, MessageSent(msg)), (Caller, upd)];
    assert SendMessageEvents(st, Ok(msg), st', senderId, friendId, content, now) == head + tail;
    if |head| > 0 {
      assert EventsTo(head[1..], Caller) == [];
    }
    assert EventsTo(head, Caller) == [];
    assert EventsTo(tail[1..], Caller) == [upd];
    EventsToAppend(head, tail, Caller);
  }

  /** A message from `senderId` to `friendId` pushed to the receiver's client: filed under
      the sender, and the receiver's records of the sender show its preview and the
      pushed count. */
  lemma DeliveredToReceiver(st: Store, msg: Message, st': Store, senderId: UserId, friendId: UserId,
                            content: string, now: int, s: SocketId, v: View)
    requires ReceiverSocket(st.connected, friendId) == Some(s)
    requires msg.senderId == senderId && msg.receiverId == friendId
    ensures var evs := EventsTo(SendMessageEvents(st, Ok(msg), st', senderId, friendId, content, now), ToSocket(s));
      var v' := ApplyAll(v, friendId, evs);
      && FindMessage(ConversationOf(v'.messages, senderId), msg.id).Some?
      && |v'.friends| == |v.friends|
      && forall j :: 0 <= j < |v.friends| && v.friends[j].id == senderId ==>
           && v'.friends[j].lastMessage == Some(content)
           && v'.friends[j].lastMessageTime == Some(now)
           && v'.friends[j].unreadCount == PushedUnread(st'.friends, friendId, senderId)
  {
    SendEventsSplit(st, msg, st', senderId, friendId, content, now, s);
    var count := PushedUnread(st'.friends, friendId, senderId);
    ApplyPair(v, friendId, NewMessage(msg), FriendUpdated(senderId, Some(content), Some(now), Some(count)));
    FiledThenPreviewed(v, friendId, NewMessage(msg), msg, senderId, content, now, Some(count));
  }

  /** A message event that files `msg` under `peer`, followed by a preview update for
      `peer`: the message is cached there and `peer`'s records show the preview. */
  lemma FiledThenPreviewed(v: View, self: UserId, ev: Event, msg: Message, peer: UserId,
                           content: string, now: int, count: Option<int>)
    requires ev == NewMessage(msg) || ev == MessageSent(msg)
    requires ev.NewMessage? ==> OtherParty(self, msg) == peer
    requires ev.MessageSent? ==> msg.receiverId == peer
    ensures var v' := Apply(Apply(v, self, ev), self, FriendUpdated(peer, Some(content), Some(now), count));
      && FindMessage(ConversationOf(v'.messages, peer), msg.id).Some?
      && |v'.friends| == |v.friends|
      && forall j :: 0 <= j < |v.friends| && v.friends[j].id == peer ==>
           && v'.friends[j].lastMessage == Some(content)
           && v'.friends[j].lastMessageTime == Some(now)
           && v'.friends[j].unreadCount == Or(count, v.friends[j].unreadCount)
  {
    var v1 := Apply(v, self, ev);
    assert v1 == v.(messages := AddMessage(v.messages, peer, msg));
    var v2 := Apply(v1, self, FriendUpdated(peer, Some(content), Some(now), count));
    assert v2 == v1.(friends := OnFriendUpdated(v.friends, peer, Some(content), Some(now), count));
    if FindMessage(ConversationOf(v.messages, peer), msg.id).None? {
      AddMessageFresh(v.messages, peer, msg);
    }
  }

  /** The confirmation on the sender's client: filed under the friend, with the friend's
      preview updated and the sender's own unread count for the friend left alone. */
  lemma ConfirmedToSender(st: Store, msg: Message, st': Store, senderId: UserId, friendId: UserId,
                          content: string, now: int, v: View)
    requires msg.receiverId == friendId
    ensures var evs := EventsTo(SendMessageEvents(st, Ok(msg), st', senderId, friendId, content, now), Caller);
      var v' := ApplyAll(v, senderId, evs);
      && FindMessage(ConversationOf(v'.messages, friendId), msg.id).Some?
      && |v'.friends| == |v.friends|
      && forall j :: 0 <= j < |v.friends| && v.friends[j].id == friendId ==>
           && v'.friends[j].lastMessage == Some(content)
           && v'.friends[j].unreadCount == v.friends[j].unreadCount
  {
    SendEventsToCaller(st, msg, st', senderId, friendId, content, now);
    ApplyPair(v, senderId, MessageSent(msg), FriendUpdated(friendId, Some(content), Some(now), None));
    FiledThenPreviewed(v, senderId, MessageSent(msg), msg, friendId, content, now, None);
  }

  /** End to end: a `send_message` the store accepts shows up, under each other's id, in
      the sender's cache and, when the receiver is connected, in the receiver's. */
  lemma SendReachesBothSides(st: Store, socket: SocketId, senderId: UserId, friendId: UserId,
                             content: string, msgId: string, now: int, sender: View, receiver: View)
    requires SendMessage(st, socket, senderId, friendId, content, msgId, now).0.Ok?
    ensures var (r, st') := SendMessage(st, socket, senderId, friendId, content, msgId, now);
      var out := SendMessageEvents(st, r, st', senderId, friendId, content, now);
      && FindMessage(ConversationOf(ApplyAll(sender, senderId, EventsTo(out, Caller)).messages, friendId), msgId).Some?
      && (ReceiverSocket(st.connected, friendId).Some? ==>
            var s := ReceiverSocket(st.connected, friendId).value;
            FindMessage(ConversationOf(ApplyAll(receiver, friendId, EventsTo(out, ToSocket(s))).messages,
                                       senderId), msgId).Some?)
  {
    var (r, st') := SendMessage(st, socket, senderId, friendId, content, msgId, now);
    SendMessageStores(st, socket, senderId, friendId, content, msgId, now);
    ConfirmedToSender(st, r.value, st', senderId, friendId, content, now, sender);
    if ReceiverSocket(st.connected, friendId).Some? {
      var s := ReceiverSocket(st.connected, friendId).value;
      DeliveredToReceiver(st, r.value, st', senderId, friendId, content, now, s, receiver);
    }
  }

  lemma {:induction false} EventsToAppend(a: Outbox, b: Outbox, target: Target)
    ensures EventsTo(a + b, target) == EventsTo(a, target) + EventsTo(b, target)
  {
    if |a| > 0 {
      assert (a + b)[1..] == a[1..] + b;
      EventsToAppend(a[1..], b, target);
    } else {
      assert a + b == b;
    }
  }

  /** Opening a chat clears its count locally; the server's `read_updated` that follows
      finds nothing left to change. */
  lemma MarkReadAfterOpen(v: View, self: UserId, friendId: UserId)
    ensures var cleared := v.(friends := SetUnread(v.friends, friendId, 0));
      Apply(cleared, self, ReadUpdated(friendId, 0)) == cleared
  {
    ApplyTwice(v, self, ReadUpdated(friendId, 0));
  }
}
