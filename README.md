# Relationship-gated chat, trace codes and credits — a Dafny model

This project models the core of a small social chat application:

- **The chat server** (`server/index.js`, and `server/api.js`, which holds the same HTTP
  handlers without pushes). It keeps users, per-user friend records, friend requests,
  per-conversation message logs and a registry of connected sockets. Friend requests move
  from pending to accepted. Messages are accepted only from a user whose record of the
  receiver is accepted. A message can be revoked by its sender within two minutes, and it
  is then kept as an empty tombstone. Delete removes a message outright. Mark-read zeroes
  an unread count. Socket login and disconnect maintain the registry.
- **The push client** (`src/contexts/ChatContext.tsx`). Its socket listeners fold server
  events into the cached friends, conversations and requests. It also has a send guard, a
  local delete that recomputes the preview, and an unread reset when a chat is opened.
- **The polling client** (`src/contexts/ChatContext.polling.tsx`). It has an optimistic
  temporary message, a local revoke with its own two-minute check, wholesale replacement
  on fetch, and request filters.
- **The add-friend button** (`src/components/AddFriendButton.tsx`). Its status is derived
  from the cached friend list and from the server's error text.
- **The trace-code page** (`src/pages/TraceCode.tsx`), with its used-code registry and
  test-code generator (`app/src/contexts/TraceCodeContext.tsx`) and the per-user credit
  ledger (`app/src/contexts/CreditContext.tsx`). A valid code earns 10 credits once. The
  page shows block data derived from the sum of the code's character codes.

## Structure

| module | file | models |
|---|---|---|
| `Types` | `types.dfy` | the record shapes (friend, message, request, socket event) and the `find`/`filter`/`map` helpers over them |
| `Text` | `text.dfy` | JavaScript `trim` (ECMAScript white space), `toUpperCase`, `includes`, decimal rendering |
| `Conversation` | `conversation.dfy` | the conversation key `[a, b].sort().join('_')` and the stable sort by timestamp |
| `ServerStore` | `server_store.dfy` | the store and one transition function per handler: `(reply, new store)` from the old store and the request |
| `ServerEvents` | `server_events.dfy` | the events each handler pushes, and to whom |
| `ServerProperties` | `server_properties.dfy` | lemmas about the transitions: refusals, effects, invariants, scenarios |
| `SocketServer` | `socket_server.dfy` | class `ChatServer`, whose fields are the data files and `connectedUsers`; each handler is a method proved equal to its transition function and to its pushed events |
| `ClientState` | `client_state.dfy` | the conversation updaters shared by both clients |
| `PushChat` | `push_chat.dfy` | the event reducers, the send guard, and class `ChatClient` |
| `PollChat` | `poll_chat.dfy` | the request filters, the local revoke, and class `PollingChatClient` |
| `Sync` | `sync.dfy` | what a client's view becomes after it applies the events the server pushes to it |
| `AddFriendButton` | `add_friend_button.dfy` | the status derivation and class `Button` |
| `Credits` | `credits.dfy` | class `CreditStore` |
| `TraceCodeFormat` | `trace_code_format.dfy` | the validator and the derived hashes |
| `TraceCodes` | `trace_codes.dfy` | the test-code format and class `TraceCodeStore` |
| `TracePage` | `trace_page.dfy` | the award-once ledger and class `TraceCodePage` |

Clocks, fresh ids, the calling socket and random draws are parameters. File reads and
writes become the fields of `ChatServer`. A socket `emit` becomes an element of the
returned outbox. `server/api.js` runs the same request, approve, incoming and fetch code
as `server/index.js`, so the same transition functions model both; some rows below cite
one file and some the other.

`Types.FindFriend`, `Types.FindMessage` and `Types.FindRequest` are the same first-index
search, written once per record type because each call site searches a different record.

## Model

| member | source | states |
|---|---|---|
| Types.FindFriend | server/index.js:365 | the index found holds the first record with that id; there is none exactly when no record has the id |
| Types.FindMessage | server/index.js:434 | the index found holds the first message with that id; there is none exactly when no message has the id |
| Types.FindRequest | server/index.js:256 | the index found holds the first request with that id; there is none exactly when no request has the id |
| Types.RemoveMessage | server/index.js:465 | the result holds exactly the messages whose id differs from the one removed, each as many times as before |
| Types.RemoveMessageAppend | server/index.js:465 | removing from a concatenation is removing from each part, so the messages that stay keep their order |
| Types.RemoveMessageOne | server/index.js:465 | a single message stays exactly when its id differs |
| Types.RevokeAll | src/contexts/ChatContext.tsx:119-121 | same length; every message with the id becomes revoked with empty content, and every other message is unchanged |
| Text.TrimmedTrim | server/index.js:375 | a trimmed string has no white space at either end and is no longer than the input |
| Text.TrimShape | server/index.js:375 | the trim is the contiguous piece after the leading white space, and only white space surrounds it |
| Text.TrimIdempotent | src/pages/TraceCode.tsx:159 | trimming twice is trimming once |
| Text.TrimTrimmed | src/pages/TraceCode.tsx:235 | a string with no white space at either end is its own trim |
| Text.TrimEmptyIff | src/contexts/ChatContext.tsx:280 | the trim is empty exactly when the string is all white space |
| Text.Upper | src/pages/TraceCode.tsx:152 | upper-casing keeps the length |
| Text.Decimal | src/contexts/ChatContext.polling.tsx:146 | the decimal rendering is non-empty and made of digits |
| Conversation.LessTrichotomy | server/index.js:382 | JavaScript string order is a strict total order |
| Conversation.KeySymmetric | server/index.js:382 | both orders of a pair give the same conversation key |
| Conversation.KeyCollides | server/index.js:327 | two different pairs share a key: (`a_b`, `c`) and (`a`, `b_c`) both give `a_b_c` |
| Conversation.InsertByTime | server/index.js:333 | one insertion step of the sort adds exactly the message (multiset) |
| Conversation.SortByTime | server/index.js:333 | the sort by timestamp is a permutation |
| Conversation.InsertKeepsSorted | server/index.js:333 | inserting into a list in timestamp order keeps it in order |
| Conversation.InsertBounded | server/index.js:333 | inserting keeps every element at or above a bound that all elements respect |
| Conversation.SortByTimeSorted | server/index.js:333 | the sorted conversation is in non-decreasing timestamp order |
| Conversation.SortByTimeSortedInput | src/contexts/ChatContext.tsx:89 | sorting a conversation that is already in order changes nothing |
| ServerStore.FindUser | server/index.js:196 | the user found is registered under that id; there is none exactly when no user has the id |
| ServerStore.IncomingRequests | server/api.js:297-301 | exactly the pending requests addressed to the user |
| ServerStore.FilterPair | server/index.js:329-332 | exactly the messages exchanged between the two users |
| ServerStore.Lookup | server/index.js:407 | no socket exactly when the user has no entry; a socket found is bound to the user in the registry |
| ServerEvents.ReceiverSocket | server/index.js:407-408 | a socket counts only when it is registered and non-empty, and it is the registered one |
| ServerProperties.SendRequestRefusal | server/index.js:192-216 | a friend request fails exactly for an empty or own id, an unknown user, an accepted record, or a pending request in either direction, and a failure changes nothing |
| ServerProperties.SendRequestEffect | server/index.js:218-241 | a sent request appends one pending request; the sender gains a pending record only when it had none for the peer; every other list is unchanged |
| ServerProperties.ApproveRefusal | server/api.js:249-256 | approval fails exactly for a missing request, a wrong approver or a handled request, changing nothing; the first two read as not found |
| ServerProperties.AcceptRecordEffect | server/index.js:276-299 | one side ends with exactly one accepted record for the peer; an existing record keeps its other fields |
| ServerProperties.ApproveEffect | server/api.js:258-291 | approval marks the request accepted, leaves each side accepted for the other with no duplicate records, and changes no one else |
| ServerProperties.AcceptBoth | server/api.js:267-289 | accepting on both sides keeps one record per peer and changes no other user |
| ServerProperties.FilterPairSymmetric | server/api.js:309-312 | the pair filter does not depend on the order of the pair |
| ServerProperties.FetchMessagesSpec | server/api.js:304-316 | the fetch is the same for (a, b) and (b, a), in timestamp order, with exactly the pair's messages under their key |
| ServerProperties.SendMessageGate | server/index.js:355-369 | a message is accepted exactly when all three fields are present and the sender's record of the friend is accepted; a refusal changes nothing |
| ServerProperties.SendMessageAcceptedValid | server/index.js:371-404 | an accepted message keeps acceptance mutual and one record per peer |
| ServerProperties.SendMessageStores | server/index.js:371-385 | one message with trimmed content and not revoked is appended under the pair's key; no other log changes |
| ServerProperties.SendMessagePreview | server/index.js:388-402 | both sides' records get the preview; the receiver's unread count rises by one unless its registered socket is the sending one; nothing else changes |
| ServerProperties.ReceiverUpdateAt | server/index.js:394-402 | the receiver's update replaces only its first record of the sender |
| ServerProperties.ReceiverUpdateOthers | server/index.js:394-402 | the receiver's update leaves every other user's list unchanged |
| ServerProperties.ReceiverBumps | server/index.js:399-401 | with the bump, the receiver's unread count rises by exactly one |
| ServerProperties.RevokeSpec | server/index.js:434-448 | a revoke succeeds exactly for the sender within 120000 ms; the message stays in place as a tombstone, the log length is kept, and nothing else changes |
| ServerProperties.FindMessageSameIds | server/index.js:434 | the message search depends only on the ids |
| ServerProperties.RevokeAgainAccepted | server/index.js:434-448 | revoking an already revoked message is accepted again |
| ServerProperties.RevokeWindowEdges | server/index.js:440-444 | a revoke 119 s after sending succeeds, one at 121 s expires, and the receiver cannot revoke |
| ServerProperties.DeleteSpec | server/index.js:459-467 | delete removes exactly the messages with that id from the pair's log, keeping the multiplicity of the others, with no sender check; no other log or record changes, and later fetches never show it |
| ServerProperties.MarkReadSpec | server/index.js:473-484 | mark-read zeroes only that record's unread count and is a no-op without a record |
| ServerProperties.RegisterSpec | server/index.js:345-347 | after login the user maps to the newest socket, other users keep theirs, and ids stay unique |
| ServerProperties.UnregisterAbsent | server/index.js:487-495 | disconnecting a socket that is not registered changes nothing |
| ServerProperties.UnregisterFirst | server/index.js:487-495 | disconnect deletes exactly the first entry bound to the socket |
| ServerProperties.UnregisterLookup | server/index.js:487-495 | disconnect keeps every user bound elsewhere and drops the one bound to the socket |
| ServerProperties.UnregisterKeepsUnique | server/index.js:487-495 | disconnect keeps one entry per user and adds no entry |
| ServerProperties.SameIdsFind | server/index.js:365 | the friend search depends only on the ids |
| ServerProperties.SameStatusesAccepted | server/index.js:365-366 | acceptance depends only on ids and statuses |
| ServerProperties.ReceiverUpdateKeepsAcceptance | server/index.js:394-402 | the receiver's update does not change who accepts whom |
| ServerProperties.SendMessageKeepsAcceptance | server/index.js:352-404 | sending does not change who accepts whom |
| ServerProperties.MarkReadKeepsAcceptance | server/index.js:473-484 | mark-read does not change who accepts whom |
| ServerProperties.SendRequestKeepsAcceptance | server/index.js:228-241 | a friend request does not change who accepts whom |
| ServerProperties.AcceptRecordOtherPeer | server/index.js:276-299 | accepting one peer leaves the search and status for any other peer unchanged |
| ServerProperties.FindFriendAppend | server/index.js:234 | appending a record for another peer does not change the search |
| ServerProperties.AcceptRecordPeer | server/index.js:276-299 | after accepting, the first record for the peer is accepted |
| ServerProperties.AcceptRecordAcceptance | server/index.js:276-299 | accepting one side changes acceptance for that ordered pair only |
| ServerProperties.ApproveAcceptance | server/index.js:265-301 | approval makes both directions accepted and changes acceptance for no other pair |
| ServerProperties.SameAcceptanceKeepsMutual | server/index.js:265-301 | unchanged acceptance keeps it mutual |
| ServerProperties.SendRequestKeepsMutual | server/index.js:186-247 | a friend request keeps acceptance mutual |
| ServerProperties.ApproveKeepsMutual | server/index.js:250-314 | an approval keeps acceptance mutual |
| ServerProperties.SendMessageKeepsMutual | server/index.js:352-425 | sending keeps acceptance mutual |
| ServerProperties.MarkReadKeepsMutual | server/index.js:473-484 | mark-read keeps acceptance mutual |
| ServerProperties.MutualPreserved | server/index.js:186-484 | every handler keeps acceptance mutual |
| ServerProperties.SendNeedsMutualAcceptance | server/index.js:363-369 | under mutual acceptance, an accepted message means both sides accept each other |
| ServerProperties.SendRequestKeepsUniquePeers | server/index.js:232-240 | a friend request never gives a user two records for one peer |
| ServerProperties.SendMessageKeepsUniquePeers | server/index.js:388-402 | sending never gives a user two records for one peer |
| ServerProperties.ReceiverUpdateKeepsUniquePeers | server/index.js:394-402 | the receiver's update keeps one record per peer |
| ServerProperties.MarkReadKeepsUniquePeers | server/index.js:473-484 | mark-read keeps one record per peer |
| ServerProperties.SameIdsKeepUniquePeers | server/index.js:365 | a list with the same ids keeps one record per peer |
| ServerProperties.HandshakeRequest | server/index.js:186-247 | a first request between two users succeeds, is pending and shows in the target's incoming list |
| ServerProperties.FindRequestAppend | server/index.js:228 | an appended request with a fresh id is found at the end |
| ServerProperties.HandshakePending | server/index.js:232-240 | before approval the sender does not accept the target |
| ServerProperties.HandshakeApprove | server/index.js:250-314 | approving the new request opens messaging both ways, empties it from the incoming list, and a second approval is refused |
| ServerProperties.ApproveOpensMessaging | server/index.js:265-299 | after approval both users can message each other |
| ServerProperties.ApproveClosesRequest | server/index.js:261-266 | an approved request leaves the incoming list and cannot be approved again |
| ServerProperties.ApproveMarksRequest | server/index.js:265 | approval marks that request accepted in place |
| ServerProperties.ApproveHandled | server/index.js:261-263 | an accepted request is refused as handled |
| ServerProperties.FindRequestSameIds | server/index.js:256 | the request search depends only on the ids |
| ServerProperties.HandshakeScenario | server/index.js:186-425 | request, then approve, then message: refused before approval and accepted both ways after it |
| ServerProperties.IncomingAfterApprove | server/index.js:317-321 | an accepted request at the end of the list is not incoming |
| ServerProperties.DuplicateRequestRefused | server/index.js:208-216 | a second request in either direction is refused while the first is pending |
| ServerProperties.SendBumpsUnread | server/index.js:399-401 | a message from another socket adds one unread message for the receiver |
| ServerProperties.SendAddsUnread | server/index.js:399-401 | an accepted message from a socket that is not the receiver's adds one unread message |
| ServerProperties.MarkReadClears | server/index.js:479-480 | mark-read leaves zero unread messages |
| ServerProperties.UnreadScenario | server/index.js:352-484 | three messages give three more unread, and mark-read clears them |
| SocketServer.ChatServer.constructor | server/index.js:43-46 | the server starts with the registered users and empty friends, requests, messages and registry |
| SocketServer.ChatServer.SendFriendRequest | server/index.js:186-247 | the reply and new state are those of the request transition; the request is pushed to the target's room |
| SocketServer.ChatServer.ApproveFriendRequest | server/index.js:250-314 | the reply and new state are those of the approve transition; both sides are told |
| SocketServer.ChatServer.AcceptIn | server/index.js:276-299 | one side's list becomes its accepted version |
| SocketServer.ChatServer.Login | server/index.js:345-349 | the registry maps the user to the new socket |
| SocketServer.ChatServer.SendMessage | server/index.js:352-425 | the reply and new state are those of the send transition, with the events sent to the receiver's socket and the caller |
| SocketServer.ChatServer.Deliver | server/index.js:371-424 | the accepted path matches the send transition and its events |
| SocketServer.ChatServer.UpdateReceiver | server/index.js:394-402 | the receiver's list gets its update and the unread count read back is returned |
| SocketServer.ChatServer.RevokeMessage | server/index.js:428-456 | the reply and new state are those of the revoke transition; the notices are the ones the handler sends as written, so the receiver's notice names the receiver itself |
| SocketServer.ChatServer.DeleteMessage | server/index.js:459-470 | the new state is that of the delete transition; only the caller is told |
| SocketServer.ChatServer.MarkRead | server/index.js:473-484 | the new state is that of the mark-read transition; the caller is told only when a record exists |
| SocketServer.ChatServer.Disconnect | server/index.js:487-495 | the loop deletes the first registry entry bound to the socket and stops |
| ClientState.Tombstone | src/contexts/ChatContext.tsx:112-124 | a revoke keeps the conversation's length and leaves other conversations unchanged |
| ClientState.Discard | src/contexts/ChatContext.tsx:126-135 | a delete keeps exactly the messages with another id, each as many times as before, and other conversations are unchanged |
| ClientState.RemoveMessageKeepsSorted | src/contexts/ChatContext.tsx:132 | deleting from a conversation in timestamp order leaves it in timestamp order |
| ClientState.RemoveMessageBounded | src/contexts/ChatContext.tsx:132 | deleting keeps every remaining timestamp at or above a bound the conversation respects |
| ClientState.DiscardKeepsSorted | src/contexts/ChatContext.tsx:126-135 | the delete listener keeps the friend's conversation in timestamp order |
| ClientState.AddMessageFresh | src/contexts/ChatContext.tsx:75-110 | a message with an unseen id grows the conversation by exactly that message and leaves it in timestamp order |
| ClientState.AddMessageIdempotent | src/contexts/ChatContext.tsx:83-85 | receiving the same message twice is receiving it once |
| ClientState.AddMessageInOrder | src/contexts/ChatContext.tsx:87-90 | a message no earlier than the rest is appended at the end |
| ClientState.TombstoneIdempotent | src/contexts/ChatContext.tsx:119-121 | revoking twice is revoking once |
| ClientState.TombstoneKeepsPlace | src/contexts/ChatContext.tsx:119-121 | the revoked message stays in its place with its sender and time, empty and marked revoked |
| ClientState.RemoveMessageIdempotent | src/contexts/ChatContext.tsx:132 | deleting twice is deleting once |
| ClientState.RemoveMessageNoId | src/contexts/ChatContext.tsx:132 | deleting an absent id changes nothing |
| PushChat.OtherParty | src/contexts/ChatContext.tsx:78 | a received message is filed under one of its two parties, under the sender when that is not the user |
| PushChat.OnFriendRequest | src/contexts/ChatContext.tsx:137-145 | a request with an unseen id is appended as it arrived; a request whose id is already listed leaves the list unchanged |
| PushChat.OnFriendApproved | src/contexts/ChatContext.tsx:147-154 | only matching records become accepted, and no record is added |
| PushChat.OnFriendUpdated | src/contexts/ChatContext.tsx:156-175 | only matching records change; a field absent from the update keeps its value |
| PushChat.SetUnread | src/contexts/ChatContext.tsx:177-181 | only matching records get the new unread count |
| PushChat.RefreshPreview | src/contexts/ChatContext.tsx:311-345 | the friend's preview becomes the last remaining message, or is cleared when none remains; id, name, unread count and status are kept, and other records are unchanged |
| PushChat.ApplyTwice | src/contexts/ChatContext.tsx:75-181 | every listener is idempotent: the same event twice has the effect of once |
| PushChat.SentThenEchoed | src/contexts/ChatContext.tsx:75-110 | a confirmation followed by the same message adds it once |
| PushChat.MaySendContent | src/contexts/ChatContext.tsx:279-296 | a message that passes the guard has non-blank trimmed content and a cached record for the friend |
| PushChat.BlankNeverSent | src/contexts/ChatContext.tsx:280 | an all-white-space message is never sent |
| PushChat.ChatClient.constructor | src/contexts/ChatContext.tsx:36-42 | an empty, disconnected, signed-out client |
| PushChat.ChatClient.InitializeForUser | src/contexts/ChatContext.tsx:224-231 | the user is recorded, and a login is emitted only when no socket was connected |
| PushChat.ChatClient.Disconnected | src/contexts/ChatContext.tsx:70-73 | only the connected flag drops |
| PushChat.ChatClient.Receive | src/contexts/ChatContext.tsx:75-181 | the cached view becomes the event's reducer applied to it |
| PushChat.ChatClient.LoadFriends | src/contexts/ChatContext.tsx:191-198 | the friend list is replaced by the fetched one |
| PushChat.ChatClient.LoadRequests | src/contexts/ChatContext.tsx:214-221 | the request list is replaced by the fetched one |
| PushChat.ChatClient.LoadMessages | src/contexts/ChatContext.tsx:201-211 | that conversation is replaced by the fetched one, and the others are kept |
| PushChat.ChatClient.SendMessage | src/contexts/ChatContext.tsx:279-296 | the trimmed message is emitted exactly when the guard passes |
| PushChat.ChatClient.DeleteMessage | src/contexts/ChatContext.tsx:299-346 | when connected and signed in, the delete is emitted, the messages are dropped locally and the preview recomputed; otherwise nothing happens |
| PushChat.ChatClient.RevokeMessage | src/contexts/ChatContext.tsx:349-361 | succeeds and emits the revoke exactly when connected and signed in |
| PushChat.ChatClient.OpenChat | src/contexts/ChatContext.tsx:419-439 | opening another chat zeroes that friend's unread count and emits mark-read when connected |
| PushChat.ChatClient.Logout | src/contexts/ChatContext.tsx:257-267 | the view is emptied and the user signed out |
| PollChat.TempId | src/contexts/ChatContext.polling.tsx:146 | a temporary id starts with `temp-` |
| PollChat.LocalRevoke | src/contexts/ChatContext.polling.tsx:191-200 | the local revoke succeeds exactly for the user's own cached message within 120000 ms |
| PollChat.Incoming | src/contexts/ChatContext.polling.tsx:265 | exactly the pending requests addressed to the user |
| PollChat.Outgoing | src/contexts/ChatContext.polling.tsx:266 | exactly the pending requests the user sent |
| PollChat.IncomingAgreesWithServer | src/contexts/ChatContext.polling.tsx:265 | the client's incoming filter equals the server's incoming query |
| PollChat.SignedOutFiltersEmpty | src/contexts/ChatContext.polling.tsx:265-266 | signed out, both filters are empty |
| PollChat.LocalRevokeAgreesWithServer | src/contexts/ChatContext.polling.tsx:191-209 | on the server's log, the local revoke succeeds and fails exactly as the server's, with the same error and, for unique ids, the same resulting log |
| PollChat.PollingChatClient.constructor | src/contexts/ChatContext.polling.tsx:29-34 | an empty, signed-out client |
| PollChat.PollingChatClient.UserLoggedIn | src/contexts/ChatContext.polling.tsx:39-44 | the user is recorded and nothing else changes |
| PollChat.PollingChatClient.Logout | src/contexts/ChatContext.polling.tsx:46-55 | friends, messages and requests are emptied and the user signed out |
| PollChat.PollingChatClient.LoadFriends | src/contexts/ChatContext.polling.tsx:67-74 | the friend list is replaced |
| PollChat.PollingChatClient.LoadIncomingRequests | src/contexts/ChatContext.polling.tsx:77-84 | the request list is replaced |
| PollChat.PollingChatClient.LoadMessages | src/contexts/ChatContext.polling.tsx:87-99 | signed in, that conversation is replaced wholesale; signed out, nothing changes |
| PollChat.PollingChatClient.SendMessage | src/contexts/ChatContext.polling.tsx:141-176 | signed in, exactly one temporary message with the untrimmed content is appended, with no content or friend check |
| PollChat.PollingChatClient.DeleteMessage | src/contexts/ChatContext.polling.tsx:179-188 | the messages with that id are dropped from that conversation only |
| PollChat.PollingChatClient.RevokeMessage | src/contexts/ChatContext.polling.tsx:191-210 | succeeds exactly when the local revoke does, then tombstones the message; otherwise returns the error text and changes nothing |
| PollChat.PollingChatClient.SetCurrentChatId | src/contexts/ChatContext.polling.tsx:31 | only the open chat changes |
| Sync.EventsTo | server/index.js:409-424 | the events addressed to one target, in order |
| Sync.ApplyPair | src/contexts/ChatContext.tsx:75-181 | applying two events is applying one after the other |
| Sync.RevokeAsWrittenMissesReceiver | server/index.js:454 | as written, the receiver's notice names the receiver itself, so the receiver's copy of the conversation is not tombstoned |
| Sync.RevokeAsWrittenExample | server/index.js:451-455 | concretely: alice revokes m1 to a connected bob; the server stores the tombstone, but bob still shows the message |
| Sync.RevokeReachesReceiver | server/index.js:451-455 | with the corrected notice, the receiver tombstones the message under the sender |
| Sync.RevokeReachesCaller | server/index.js:451 | the caller tombstones the message under the friend |
| Sync.SendEventsSplit | server/index.js:407-416 | the receiver's socket gets the message and then its preview with the unread count |
| Sync.SendEventsToCaller | server/index.js:419-424 | the caller gets the confirmation and then its preview |
| Sync.FiledThenPreviewed | src/contexts/ChatContext.tsx:75-175 | a filed message followed by its preview shows the message and updates only the preview fields of the peer's records |
| Sync.DeliveredToReceiver | server/index.js:407-416 | the receiver's view shows the message under the sender, with the preview and the server's unread count |
| Sync.ConfirmedToSender | server/index.js:419-424 | the sender's view shows the message under the friend, with the preview and its own unread count kept |
| Sync.SendReachesBothSides | server/index.js:406-424 | an accepted message ends up in the sender's view and, when connected, the receiver's |
| Sync.EventsToAppend | server/index.js:409-424 | routing distributes over concatenation |
| Sync.MarkReadAfterOpen | src/contexts/ChatContext.tsx:425-437 | the server's read confirmation after opening a chat changes nothing further |
| AddFriendButton.DerivedStatus | src/components/AddFriendButton.tsx:23-43 | idle when signed out; a friend exactly when the first cached record is accepted; sent exactly when it is pending; idle otherwise |
| AddFriendButton.FailureStatus | src/components/AddFriendButton.tsx:70-79 | a refusal shows a friend exactly when its text contains `已是好友`, sent exactly when it contains `申请已发送` and not the first, and an error otherwise |
| AddFriendButton.RefusalAlreadyFriends | src/components/AddFriendButton.tsx:75-76 | the server's "already friends" text leaves the button showing a friend |
| AddFriendButton.RefusalPending | src/components/AddFriendButton.tsx:77-78 | the server's pending-request text leaves the button showing sent |
| AddFriendButton.RefusalOther | src/components/AddFriendButton.tsx:70-72 | the server's other refusal texts leave a retryable error |
| AddFriendButton.NoMatch | src/components/AddFriendButton.tsx:75-77 | a text in which the first two characters of a word never occur side by side does not contain the word |
| AddFriendButton.Button.constructor | src/components/AddFriendButton.tsx:19-20 | idle, with no error |
| AddFriendButton.Button.Refresh | src/components/AddFriendButton.tsx:23-43 | the status becomes the derived status and the error is kept |
| AddFriendButton.Button.Click | src/components/AddFriendButton.tsx:45-56 | signed out: an error and nothing sent; busy, sent or friend: nothing; otherwise sending, error cleared, and a request goes out |
| AddFriendButton.Button.Settle | src/components/AddFriendButton.tsx:58-84 | success gives sent; a refusal gives its failure status and error text; a thrown error gives error |
| Credits.CreditOf | app/src/contexts/CreditContext.tsx:30-39 | the stored balance of the signed-in user, or 0 when signed out or absent |
| Credits.CreditStore.constructor | app/src/contexts/CreditContext.tsx:27 | zero on screen, signed out |
| Credits.CreditStore.SwitchUser | app/src/contexts/CreditContext.tsx:30-39 | the balance on screen becomes the stored balance of the new user |
| Credits.CreditStore.SaveCredit | app/src/contexts/CreditContext.tsx:42-47 | only that user's entry changes, and the screen shows the new value |
| Credits.CreditStore.AddCredit | app/src/contexts/CreditContext.tsx:49-56 | signed out: nothing; otherwise the user's entry and the screen become the old balance plus the amount |
| Credits.CreditStore.ResetCredit | app/src/contexts/CreditContext.tsx:58-64 | signed out: nothing; otherwise the user's entry and the screen become 0 |
| TraceCodeFormat.ValidShape | src/pages/TraceCode.tsx:148-155 | a valid code normalises to 19 characters, `XY-` first and a dash at position 12 |
| TraceCodeFormat.UpperIdempotent | src/pages/TraceCode.tsx:152 | upper-casing twice is upper-casing once |
| TraceCodeFormat.UpperKeepsTrimmed | src/pages/TraceCode.tsx:152 | upper-casing creates no white space at either end |
| TraceCodeFormat.NormaliseIdempotent | src/pages/TraceCode.tsx:159 | normalising twice is normalising once |
| TraceCodeFormat.ValidNormalised | src/pages/TraceCode.tsx:159-162 | validity does not change under normalisation |
| TraceCodeFormat.NormaliseTrimmed | src/pages/TraceCode.tsx:235 | trimming first does not change the normalised code |
| TraceCodeFormat.HexRunDigits | src/pages/TraceCode.tsx:184-186 | digit i of a run is the hex digit of seed + offset + i modulo 16 |
| TraceCodeFormat.HexDigitInjective | src/pages/TraceCode.tsx:185 | distinct values below 16 give distinct hex digits |
| TraceCodeFormat.BlockHashShape | src/pages/TraceCode.tsx:183-186 | the block hash is `0x` and 64 lower-case hex digits that repeat every 16 |
| TraceCodeFormat.CertificateIsShiftedBlock | src/pages/TraceCode.tsx:195-215 | the k-th certificate hash is 18 characters, the block digits shifted by k |
| TraceCodeFormat.HexRunModulo | src/pages/TraceCode.tsx:184-186 | seeds that agree modulo 16 give the same digits |
| TraceCodeFormat.BlockHashIff | src/pages/TraceCode.tsx:183-186 | two seeds give the same block hash exactly when they agree modulo 16 |
| TraceCodeFormat.HashSeedSwap | src/pages/TraceCode.tsx:183 | swapping neighbouring characters keeps the seed |
| TraceCodeFormat.SwappedCodeSharesSeed | src/pages/TraceCode.tsx:183-215 | two different valid codes can show identical block data |
| TraceCodes.Base36 | app/src/contexts/TraceCodeContext.tsx:51 | the base-36 rendering is non-empty and made of base-36 digits |
| TraceCodes.LastNine | app/src/contexts/TraceCodeContext.tsx:51 | padding then slicing gives exactly nine characters: the last nine, or zeros then the input |
| TraceCodes.RandomPart | app/src/contexts/TraceCodeContext.tsx:53 | the random part has at most six characters, fewer only when the draw renders shorter |
| TraceCodes.TestCode | app/src/contexts/TraceCodeContext.tsx:48-55 | a test code is `XY-`, nine characters, a dash and the random part, at most 19 characters |
| TraceCodes.MiddleChars | app/src/contexts/TraceCodeContext.tsx:51 | the middle part is made of `[A-Z0-9]` |
| TraceCodes.RandomChars | app/src/contexts/TraceCodeContext.tsx:53 | the random part is made of `[A-Z0-9]` |
| TraceCodes.UpperFixed | app/src/contexts/TraceCodeContext.tsx:51 | a string with no lower-case ASCII letter is its own upper case |
| TraceCodes.ShapedValidIff | src/pages/TraceCode.tsx:148-155 | a code of the generated layout is valid exactly when it has 19 characters |
| TraceCodes.TestCodeShaped | app/src/contexts/TraceCodeContext.tsx:48-55 | every generated code has the layout |
| TraceCodes.TestCodeValidIff | app/src/contexts/TraceCodeContext.tsx:48-55 | a generated code is valid exactly when the draw renders with at least six digits |
| TraceCodes.ShortDrawInvalid | app/src/contexts/TraceCodeContext.tsx:53 | a draw of 0.5 gives a code the page rejects |
| TraceCodes.AheadShrinks | app/src/contexts/TraceCodeContext.tsx:64-66 | each retry of the inner loop removes a known code from those still ahead |
| TraceCodes.TraceCodeStore.constructor | app/src/contexts/TraceCodeContext.tsx:19-29 | the registry starts with the saved codes |
| TraceCodes.TraceCodeStore.MarkCodeAsUsed | app/src/contexts/TraceCodeContext.tsx:41-45 | the set gains exactly the code, which is then used; marking a used code changes nothing |
| TraceCodes.TraceCodeStore.GenerateTestCodes | app/src/contexts/TraceCodeContext.tsx:58-73 | exactly n pairwise distinct codes, none already used, all drawn from the generator; the used set is not modified |
| TracePage.TraceDataOf | src/pages/TraceCode.tsx:182-220 | the record carries the block hash and three certificate hashes with offsets 1, 2 and 3 |
| TracePage.Scan | src/pages/TraceCode.tsx:158-227 | an invalid or used code changes nothing; a valid code is recorded, and a signed-in user earns 10 exactly when it was new |
| TracePage.ScanTwice | src/pages/TraceCode.tsx:223-226 | querying a code again earns nothing and changes nothing |
| TracePage.SignedOutScanForfeits | src/pages/TraceCode.tsx:223-226 | a code scanned while signed out is spent and never earns |
| TracePage.ScanStep | src/pages/TraceCode.tsx:223-226 | one query records at most its own valid code and earns 10 per new code |
| TracePage.ScanAllEarnsOncePerCode | src/pages/TraceCode.tsx:177-226 | over any sequence of queries, a signed-in user earns exactly 10 per newly used code, and only valid codes are recorded |
| TracePage.TraceCodePage.constructor | src/pages/TraceCode.tsx:20-26 | nothing scanned, no data, no warning |
| TracePage.TraceCodePage.Award | src/pages/TraceCode.tsx:223-226 | the code is recorded and a signed-in user's balance rises by 10 |
| TracePage.TraceCodePage.ProcessTraceCode | src/pages/TraceCode.tsx:158-227 | the ledger follows the scan; an invalid code shows the warning and clears the result; a valid one shows its normalised code, whether it was used, and its data |
| TracePage.TraceCodePage.HandleQuery | src/pages/TraceCode.tsx:230-236 | blank input changes nothing; otherwise the trimmed input is processed |

## Left out

- File persistence (`readData`, `writeData`, `initDataFile`): the data files are the fields of `ChatServer`, and a failed read or write is not modelled.
- Express routing, CORS, the `authenticate` header check and socket.io rooms and transport: the caller's id is a parameter, and pushes are outbox entries.
- Registration, login with password, user search and the user-info query (`server/index.js:83-176`, `server/api.js:82-175`): outside the messaging core. `ChatServer.constructor` takes the registered users as given.
- `GET /api/friends` is `FriendsOf` over the store; the clients' fetches arrive as the `fetched` parameters of their load methods.
- The health check of `server/api.js` and the WebSocket URL building of the push client.
- Read-modify-write races between handlers, React state batching, the order of async replies, and the `setInterval`/`setTimeout` refreshes of the polling client.
- The camera scanner of the trace page (`handleScan`, `stopScanning`, `handleScanSuccess`): its decoded text would reach `ProcessTraceCode` trimmed, which `NormaliseTrimmed` shows makes no difference.
- The three-second timer that hides the invalid-code warning.
- The JSON encoding of the browser-storage entries, and a corrupt saved code list (the registry then starts empty).
- `addFriend` in both clients and `approveFriendRequest`/`sendFriendRequest` in the clients: each is one HTTP call followed by the load methods.
- The `type: 'text'` field of messages: it is constant. A missing `isRevoked` is modelled as `false`.
- ServerStore.SendMessage: the several `Date.now()` readings of one call are one `now`, and the id is a parameter, so colliding ids are not modelled.
- Conversation.Less: strings are compared by `char`, as JavaScript compares UTF-16 code units; surrogate pairs are not modelled separately.
- Text.Upper: only ASCII letters are upper-cased; JavaScript's full Unicode case mapping is not modelled. As a consequence, a code that JavaScript's full case mapping would bring into the pattern (for example `XY-ABCDEFGHI-ıııııı`, where `ı` upper-cases to `I`) is rejected by `IsValidTraceCode` in the model but accepted by the page.
- PushChat.ChatClient.InitializeForUser: the socket's `connect` callback, which sets `isConnected` and emits `login`, is taken to run at once; the gap between creating the socket and its connection is not modelled.
- ServerEvents.ReceiverSocket: an empty socket id counts as absent, as JavaScript's truthiness test does.
- TraceCodes.TraceCodeStore.GenerateTestCodes: requires a generator that never repeats a code from the first call on. With a generator that keeps repeating used codes, the source's inner loop never ends, and the model does not cover that case.
- TraceCodes.RandomPart: takes the digits of `Math.random()` after `0.` as a parameter; the rendering of a floating-point number in base 36 is not modelled.
- PushChat.ChatClient: `incomingRequests` and `outgoingRequests` are both the whole `requests` list in this client, so no separate filter is modelled for them.
- PollChat.PollingChatClient.SendMessage: the `catch` branch that removes the temporary message cannot run, because its `try` block only schedules a timer; the message never reaches the server.
- PollChat.PollingChatClient: `isConnected` is the constant `true`.

## Findings

`SocketServer.ChatServer.RevokeMessage` sends the notices as the handler writes them. `ServerEvents.RevokeEvents` is the corrected list of notices, and the `Sync` lemmas compare the two.

| source | as written | input that shows it | evidently intended | confidence | as-written member | corrected member |
|---|---|---|---|---|---|---|
| server/index.js:454 | the receiver's `message_revoked` notice carries the caller's `friendId`, which is the receiver's own id, so the receiver's client tombstones nothing in its conversation with the sender | alice revokes m1, sent to bob less than two minutes ago, while bob is connected: the server stores the tombstone, but bob's client keeps showing "hi" | the receiver's notice names the revoking user, so that the receiver's copy of the message becomes a tombstone | not executed | Sync.RevokeAsWrittenMissesReceiver | Sync.RevokeReachesReceiver |
