# A verified model of the messenger

The repository is an end-to-end encrypted messenger: a terminal client, and a server that stores and
forwards ciphertexts. This project models its two protocol cores and a few smaller algorithms in Dafny
4.11, and proves what they promise. `dafny verify dfyconfig.toml` checks everything.

## The client's message pipeline

`KeySchedule` derives root keys and the keys of a chain; `Ratchet` is the symmetric ratchet with its
cache of skipped keys; `Replay` is the filter on identifiers and counters; `Protocol` builds the
associated data, byte by byte; `Pipeline` builds and opens envelopes. The main result,
`ExactAcceptanceWindow`, says which genuine envelopes a receiver accepts: the undelivered ones from 49
below the highest accepted counter to 51 above it, whatever was lost, repeated or reordered before. For
arbitrary traffic, no ciphertext opens twice, opened metadata is authentic, and `ReceiverHoldsExactly` says
what is left in filter and chain.

`SendPath` is the sending side, where the chain moves with every envelope built and the counter with
every send confirmed. `Inbox` is the receiving side. `TrustCache`, `Encoding` and `Storage` are the
peers' identity keys and the files that sessions are kept in.

## The server

`Tables` holds the database and its constraints, `Friends` and `Messages` the endpoints, `Server` the
runs of calls from an empty database: blocks, requests, friendships, conversations, messages, delivery
marks and unread counts, in one invariant. `Transitions` says of each change which call of whose brings it
about. `Paging` is the cursor pagination with the client loop that
consumes it, and `RateLimit` the fixed-window limiter with its lockout.

## The whole

`EndToEnd` puts server, clients and acknowledgements in flight into one state machine, and proves over
every interleaving that messages are saved once and as sent, that marks and pushes follow saves, and
that nothing accepted is lost. `Completeness` says exactly which messages arrive and are acknowledged,
`LostConfirmations` exactly which senders get stuck, and `DeadDirections`, on the invariants of `Traffic`, exactly which are not heard
again; `RunawaySender` is a run to such a sender, and `SpentMessages` is about messages
opened in vain. `LogFilter` and `Splice` are two algorithms on the side.

Methods on classes and on the database work in place, as the program does. Each is proved equal to a
function on values, and the theorems are about runs of those functions. Time, random draws, the outcome
of requests and of local writes, and identifiers are parameters.

## Where code and expectation part

Each of these fails in the code; the lemmas named say exactly when, and that it does happen.

- Identifiers with "|" in them make associated data ambiguous, and no others do
  (`AdIdentifiesExactlyTheSeparatorFree`).
- The replay filter on its own admits a counter it has seen, under a new identifier, exactly while it is
  in the window (`SeenCounterIsAdmittedExactlyInTheWindow`); the ratchet refuses the second message
  (`NoCiphertextOpensTwice`).
- History synchronisation is sure to hand over everything others sent exactly if none of it lies in a
  second that a page end cuts (`SynchronisationIsCompleteExactlyWhen`); it fetches everything exactly if no
  full page ends within a second (`WalkIsCompleteExactlyWhen`, `OneBusySecondIsCutOff`).
- A lock holds for sequential calls. Under interleaving it can be escaped by a stale fast path, and
  shortened by a stale commit (`StaleFastPathEscapesTheLock`, `StaleCommitShortensALock`). Nothing is granted
  exactly until a commit takes effect whose reading is more than a window past the window start
  (`LockHoldsExactlyUntilALateCommit`), and nothing at a reading inside the lock exactly if no commit with
  such a reading is among the first of its window (`NothingIsGrantedBeforeExactlyWhen`). The maximum per
  window stands regardless.
- Two people who part can become friends again exactly if one of them has no accepted request to the
  other on record and is not blocked by them (`StrangersCanBefriendExactlyWhen`, `ASpentPairIsReachable`).
- A sender is refused for their counter exactly after a confirmation of theirs was lost in that
  conversation, and then for good (`StuckExactlyAfterALoss`, `ConfirmationsDoGetLost`).
- A sender who builds 51 envelopes in a row that never arrive is not heard again: between the two ends of a
  session a direction is dead exactly if the chain is out of reach and nothing waits
  (`DirectionIsDeadExactlyWhen`, `DirectionLivesExactlyWhen`, `DirectionsDoDie`).
- A message that opens but cannot be saved is lost (`OpenedButUnsavedIsNeverSaved`).
- Bootstrap keys do not survive a restart before the first success (`BootKeysAreCarriedExactlyWhen`), and
  two sessions set up from both sides at once never carry a message (`CrossedSetUpsSaveNothing`,
  `SetUpsDoCross`).

## Model

| member | source | states |
|---|---|---|
| KeySchedule.BothSidesDeriveTheSameRoot | client/crypto/session.py:360-435 | initiator and responder derive the same root key from the public keys that the first envelope carries |
| KeySchedule.MessageKeysAreDistinct | client/crypto/session.py:466-505 | the message keys of one chain differ exactly when their indices do |
| KeySchedule.RootInfoOfAnExample | client/crypto/session.py:456 | the context string of one key derivation, letter by letter |
| KeySchedule.RootsSeparateConversations | client/crypto/session.py:438-463 | from the same secrets, root keys agree if and only if both users and the conversation do: always for the same two users, and for any whose identifiers are free of the colon |
| KeySchedule.MessageKeysIdentifyChains | client/crypto/session.py:466-505 | at equal indices, the message keys of two chains are equal exactly when the chains start alike |
| Ratchet.ChainsCross | client/crypto/session.py:542-558 | each side's send chain is the other side's receive chain, and starts at index 0 with nothing cached |
| Ratchet.CachingOneMore | client/crypto/session.py:514-518 | one step of the catch-up loop extends its closed form: chain key, index and every key skipped over, in one stride |
| Ratchet.RatchetChain.Advance | client/crypto/session.py:498-505 | new chain key, index and released message key in terms of the old ones |
| Ratchet.RatchetChain.AdvanceTo | client/crypto/session.py:507-519 | the key-by-key loop equals the closed form; both refusals leave the chain as it was |
| Ratchet.RatchetChain.TrySkipped | client/crypto/session.py:521-524 | a cached key is handed out and leaves the cache; anything else changes nothing |
| Ratchet.AdvanceToStaysOnSchedule | client/crypto/session.py:507-519 | catching up is refused exactly outside [index, index + 50]; else it hands out the key of the target and spends that index alone |
| Ratchet.EveryRunConserves | client/crypto/session.py:498-524 | after any run of the three operations: the chain key is the index-th, every cached key is that of its index, and cached and released indices partition [0, index) |
| Ratchet.NoKeyIsReleasedTwice | client/crypto/session.py:498-524 | no index is released twice, and different releases carry different keys |
| Replay.ReplayProtector.Check | client/crypto/session.py:800-830 | the verdict of the filter, for identifiers and counters alike; nothing is changed |
| Replay.ReplayProtector.Commit | client/crypto/session.py:832-839 | the new maximum and the queue with its oldest identifier dropped once it holds 100 |
| Replay.FilterRemembers | client/crypto/session.py:792-839 | after any run the filter holds the last 100 identifiers and the highest counter of the run |
| Replay.EvictedMeansStale | client/crypto/session.py:792-839 | an identifier that fell out of the queue has a counter 50 or more below the maximum: 100 later distinct counters force it there |
| Replay.CommittedIsRejectedForever | client/crypto/session.py:792-839 | over any run of check and commit with distinct counters, a committed pair is refused ever after |
| Replay.FilterRefusesExactly | client/crypto/session.py:800-839 | after any deliveries the filter refuses exactly the last 100 identifiers and the counters that some delivery was 50 or more ahead of |
| Replay.SeenCounterIsAdmittedExactlyInTheWindow | client/crypto/session.py:778-839 | so under a new identifier the filter alone admits a counter it has seen if and only if no delivery is 50 or more ahead of it |
| Replay.FilterAloneAdmitsASeenCounter | client/crypto/session.py:778-839 | a concrete run in which it does |
| Protocol.EncodeIsInjective | shared/protocol.py:212-230 | UTF-8 encodings of different identifiers differ |
| Protocol.BigEndianIsInjective | shared/protocol.py:223-230 | fixed-width big-endian fields determine their numbers |
| Protocol.AdIsInjective | shared/protocol.py:212-230 | equal associated data means equal sender, recipient, conversation, counter, timestamp and TTL field, and equal TTL under the server's range check, if one side's identifiers are free of the separator |
| Protocol.AdFixesTheNumbers | shared/protocol.py:223-230 | equal associated data means equal counter, timestamp and TTL field, whatever the identifiers |
| Protocol.SeparatorMakesAdAmbiguous | shared/protocol.py:212-230 | an envelope with the separator in an identifier shares its associated data with another one |
| Protocol.AdIdentifiesExactlyTheSeparatorFree | shared/protocol.py:212-230 | the associated data pins the identifiers down if and only if none contains the separator |
| Protocol.AdOfAnExample | shared/protocol.py:212-230 | the associated data of one envelope, byte by byte |
| Pipeline.BuildAndEncrypt | client/crypto/session.py:854-894 | the envelope and the advanced chain; the chain has moved on even when the associated data cannot be computed |
| Pipeline.BuiltFollowsTheDraft | client/crypto/session.py:854-894 | an envelope carries the draft's identifiers, TTL, time and nonce, the counter handed in and the index of its key, and seals the draft's text for exactly these fields; it fails exactly if a number does not fit, and moves the chain on in any case |
| Pipeline.DecryptEnvelope | client/crypto/session.py:897-944 | filter, skipped key, catch-up, associated data, tag check and commit, in that order, with the state each refusal leaves |
| Pipeline.DecryptedDoesExactly | client/crypto/session.py:897-944 | whatever arrives: if its key is not to be had, nothing changes; otherwise the key of its index is spent and no other, it opens exactly if that key seals a text in this envelope, and it is committed to the filter exactly if it opens |
| Pipeline.ReceiverHoldsExactly | client/crypto/session.py:897-944 | over any arrivals, forged ones included: the filter is that of the deliveries that opened, in their order, and the spent indices are those of envelopes that opened or failed after their key was taken |
| Pipeline.KeyForSpendsOneIndex | client/crypto/session.py:917-924 | a key is handed out exactly for unspent indices up to 50 beyond the current one, it is the key of that index, and only that index becomes spent |
| Pipeline.SentEnvelopesAreGenuine | client/crypto/session.py:854-894 | when every send succeeds, counter and chain index run together and envelope n is sealed with key n |
| Pipeline.ReceiverTracksWindow | client/crypto/session.py:897-944 | ratchet and filter together implement a window over plain sets of counters, for any order, loss and repetition |
| Pipeline.ExactAcceptanceWindow | client/crypto/session.py:897-944 | a genuine envelope c yields the sender's plaintext exactly when c is undelivered and max - 50 < c <= max + 51; otherwise it is refused and the receiver is unchanged |
| Pipeline.DecryptedSpendsItsIndex | client/crypto/session.py:897-944 | whatever arrives: spent indices stay spent, and an opened envelope was sealed with the key of its own, until then unspent, index |
| Pipeline.NoCiphertextOpensTwice | client/crypto/session.py:897-944 | over any arrivals, forged ones included, no ciphertext opens twice on one receive chain |
| Pipeline.OpenedMetadataIsAuthentic | client/crypto/session.py:854-944 | an honest ciphertext opens only inside an envelope with its own counter, chain index, TTL field and timestamp, and to its own text; and with its own sender, recipient and conversation too, unless one of them contains the separator |
| SendPath.SendContext.EnsureSession | client/use_cases/send_message.py:58-108 | an existing session is kept; else a new initiator session with its bootstrap keys, or a refusal without effect |
| SendPath.SendContext.ExecuteSend | client/use_cases/send_message.py:111-189 | session, chain and both counters after a send, for every combination of accepted and saved |
| SendPath.EnvelopeIsBuiltExactlyWhen | client/use_cases/send_message.py:111-160 | an envelope is built if and only if there is a session or one can be set up, and counter, time and TTL fit their fields |
| SendPath.EveryEnvelopeSaysAsAsked | client/use_cases/send_message.py:126-160 | after any history there is one envelope for each attempt that one could be built for, in order, with the attempt's own identifier, recipient, time, nonce and text, and the TTL of its conversation if there is a setting and none otherwise |
| SendPath.EveryHistoryIsInLockstep | client/use_cases/send_message.py:95-189 | over any mix of sends, failures, receipts and restarts: both counters equal the number of successes, successful sends carry 0, 1, 2 and so on, chain indices strictly increase, no counter exceeds its chain index |
| SendPath.BootKeysLastUntilARestart | client/use_cases/send_message.py:95-108 | a session holds bootstrap keys exactly from the send that set it up until the next restart |
| SendPath.BootKeysAreCarriedExactlyWhen | client/use_cases/send_message.py:139-154 | after any history an envelope carries bootstrap keys if and only if no send of its conversation has succeeded and the session is set up by this send, or was by an earlier one with no restart since |
| Inbox.ChatClient.SaveMessage | client/state/store.py:186-229 | insert-or-ignore under the primary key and the unique triple |
| Inbox.ChatClient.HandleEnvelope | client/ui/app.py:488-644 | session set-up, opening, saving and acknowledging, with what every early return leaves; the handler of pushed messages takes the same steps (lines 1193-1419) |
| Inbox.HandlingMovesOneSession | client/ui/app.py:591-644 | a receipt moves the receiving part of one session, opened or not; what opens is acknowledged exactly if the table can be written, known or not; at most one row is added, with the text |
| RateLimit.RateLimiter.CheckRateLimit | server/core/security.py:171-239 | fast path, upsert and read-back as one sequential call on the key's row; other keys untouched |
| RateLimit.MaxPerWindow | server/core/security.py:200-239 | no window start value sees more than the maximum of allowed requests, in whatever order clock readings arrive |
| RateLimit.WindowStartNeverRepeats | server/core/security.py:209-219 | a window start is replaced only by one more than a window later |
| RateLimit.WindowStartNeverRepeatsUnderInterleaving | server/core/security.py:209-219 | the same over every schedule of concurrent calls |
| RateLimit.IntervalBound | server/core/security.py:171-239 | with a non-decreasing clock, a closed interval of k windows holds at most (k + 1) times the maximum |
| RateLimit.Lockout | server/core/security.py:186-239 | after a lock set at t nothing is allowed before t plus the window; after that, a request is allowed if and only if it comes more than a window after the window start |
| RateLimit.LockedCallsChangeNothing | server/core/security.py:190-195 | any number of calls during a lock are refused and leave the row alone |
| RateLimit.SequentialCallsAreASchedule | server/core/security.py:171-239 | calls one after the other are the schedule in which each arrives and commits at once |
| RateLimit.SequentialCallIsGrantedExactlyWhen | server/core/security.py:171-239 | after any sequential calls the next one is granted if and only if no lock covers it and it is among the first maximum of its window to get past the fast path |
| RateLimit.MaxPerWindowUnderInterleaving | server/core/security.py:189-239 | with the fast path as a step of its own, every schedule of concurrent calls keeps to the maximum per window |
| RateLimit.LockIsEscapedExactlyWhen | server/core/security.py:200-239 | a commit on a row that carries a lock, run out or not, is granted if and only if its clock reading is more than a window past the window start; otherwise the lock is set to end a window after that reading, be it earlier or later |
| RateLimit.LockHoldsExactlyUntilALateCommit | server/core/security.py:189-239 | over every schedule: once the row carries a lock, what follows grants nothing if and only if no commit takes effect with a reading more than a window past the window start; until one does, the row stays locked in its window |
| RateLimit.GrantedExactlyWhenAmongTheFirst | server/core/security.py:189-239 | over every schedule: a call that gets past the fast path is granted if and only if it is among the first maximum to commit in its window |
| RateLimit.NothingIsGrantedBeforeExactlyWhen | server/core/security.py:189-239 | over every schedule: nothing that follows is granted at a reading before a given time, such as the end of a lock, if and only if no commit takes effect with such a reading among the first of its window |
| RateLimit.StaleFastPathEscapesTheLock | server/core/security.py:189-239 | a concrete schedule in which a call with a stale fast path is granted inside a lock |
| RateLimit.StaleCommitShortensALock | server/core/security.py:189-239 | a concrete schedule in which a stale commit shortens a lock, and a call with a fresh fast path is granted inside the old one |
| Paging.SelectLatest | server/api/messages.py:289-330 | ordering by descending timestamp and cutting off: the latest rows, each once, the rest no later |
| Paging.FetchMessages | server/api/messages.py:289-356 | one page: strictly before the cursor's timestamp, latest first, with the successor flag and the cursor for the next page |
| Paging.NegativeLimits | server/api/messages.py:309-323 | a limit of -1 gets no row, one of -k all that match but the k earliest, and both claim a next page |
| Paging.CollectPages | client/ui/app.py:453-479 | the client loop ends; unless some request fails, its pages form a walk of the table |
| Paging.ProcessPages | client/ui/app.py:481-486 | the two reversed loops hand over the fetched messages of others in processing order |
| Paging.PagesAreDisjoint | server/api/messages.py:289-356 | no message is on two pages |
| Paging.MissedAreExactlyTheTied | server/api/messages.py:289-317 | a message is missed if and only if it ties in sent_at with the last row of a page that has a successor, and is not on that page |
| Paging.DistinctTimesMissNothing | server/api/messages.py:289-317 | with distinct timestamps every message is fetched |
| Paging.WalkIsCompleteExactlyWhen | server/api/messages.py:289-317 | any walk fetches the whole table if and only if no full page, counted off from the latest message, ends between two messages of the same second |
| Paging.OneBusySecondIsCutOff | server/api/messages.py:289-317 | more messages than a page holds, all sent in one second, are never all fetched |
| Paging.CleanBreaksCutNothing | server/api/messages.py:289-317 | where no full page ends within a second, no second is cut |
| Paging.AlwaysFetchedExactlyWhen | server/api/messages.py:289-317 | a message is fetched by every walk if and only if its second is not one that a page end cuts, which depends on the table alone |
| Paging.ProcessingRunsForward | client/ui/app.py:481-486 | everything fetched, own messages included, is gone through in non-decreasing sent_at, each message once |
| Paging.HandedOverOfAWalk | client/ui/app.py:481-486 | what is handed over of a walk is exactly what was fetched of others, in non-decreasing sent_at, each message once |
| Paging.SynchronisationIsCompleteExactlyWhen | client/ui/app.py:453-486 | every walk hands over all that others sent if and only if none of it lies in a second that a page end cuts |
| Paging.SyncHistory | client/ui/app.py:453-486 | both loops together: only messages of others, in order, each once; and all of them, if no request fails and nobody else wrote in a second that a page end cuts |
| Friends.SendFriendRequest | server/api/friends.py:48-117 | tables and answer of the endpoint, for every branch |
| Friends.HandleRequest | server/api/friends.py:174-229 | tables and answer of accepting, declining and cancelling, for every branch |
| Friends.RemoveFriend | server/api/friends.py:262-280 | the friendship row of the ordered pair goes, nothing else |
| Friends.BlockUser | server/api/friends.py:283-322 | block row, friendship and pending requests after a block, and both refusals |
| Friends.RequestKeepsInv | server/api/friends.py:48-117 | a friend request keeps the social invariant |
| Friends.HandleKeepsInv | server/api/friends.py:174-229 | an answer keeps the social invariant |
| Friends.BlockKeepsInv | server/api/friends.py:283-322 | a block keeps the social invariant |
| Server.BlockingSevers | server/api/friends.py:283-322 | a block leaves no friendship and no pending request between the two, and everybody else as they were |
| Server.EveryReachableStateIsSound | server/api/friends.py:48-322 | every run of endpoint calls from an empty database keeps the whole server invariant |
| Server.BlocksAreRespected | server/api/friends.py:74-117 | no pending request to a blocker; a friendship under a block rests on an accepted request of the blocker; mutual blocks leave neither friendship nor pending request |
| Server.AtMostOneRequestPerOrderedPair | server/models/friend_request.py:29-32 | one request row per ordered pair, and none to oneself |
| Server.AcceptedIsForever | server/api/friends.py:87-101 | an accepted request row never changes again |
| Server.NewFriendsHadAPendingRequest | server/api/friends.py:190-216 | a friendship can only come about through a request pending between the two |
| Server.SpentPairStaysApart | server/api/friends.py:74-101 | once neither of two who are not friends can ask the other (a request of theirs to the other was accepted once, or the other has blocked them), no run of calls makes them friends |
| Server.StrangersCanBefriendExactlyWhen | server/api/friends.py:48-229 | two who are not friends can become friends by some run of calls if and only if one of them can ask the other |
| Server.ASpentPairIsReachable | server/api/friends.py:48-322 | a concrete run from an empty database to a pair that stays apart |
| Server.FriendsShareOneConversation | server/api/friends.py:213-229 | friends have exactly one conversation, so sending is never refused for want of one |
| Transitions.FriendshipBeginsExactlyWhen | server/api/friends.py:190-229 | two who are not friends become friends by a call if and only if one of them accepts a request pending from the other |
| Transitions.FriendshipEndsExactlyWhen | server/api/friends.py:262-322 | friends cease to be friends by a call if and only if one of them removes or blocks the other |
| Transitions.BlockBeginsExactlyWhen | server/api/friends.py:283-322 | a block comes about by the blocker's own call alone, on a known user, and stays |
| Transitions.BlockIsAnsweredExactlyWhen | server/api/friends.py:283-322 | a block succeeds exactly on another known user; otherwise the refusal is named and nothing changes |
| Transitions.PendingRowChangesExactlyWhen | server/api/friends.py:190-211 | a pending request becomes accepted or declined exactly by its recipient's call, and cancelled exactly by its sender's call or a block between the two |
| Transitions.SettledRowChangesExactlyWhen | server/api/friends.py:87-101 | any other request is left alone, unless its sender asks again and may |
| Transitions.RequestBeginsExactlyWhen | server/api/friends.py:48-117 | a request becomes pending if and only if its sender asks a live user who has not blocked them, is no friend, and has neither an open nor a granted request from them |
| Transitions.ConversationBeginsExactlyWhen | server/api/friends.py:213-229 | two get their conversation exactly when one first accepts the other's request |
| Transitions.UsersStay | server/api/friends.py:48-322 | no call of an endpoint changes an account |
| Transitions.RequestIsAnsweredExactlyWhen | server/api/friends.py:48-117 | the endpoint succeeds if and only if it makes a request pending, and answers with the identifier of that one |
| Transitions.AnswerIsAnsweredExactlyWhen | server/api/friends.py:174-229 | an answer succeeds if and only if it settles a pending request |
| Transitions.RequestIsRefusedForTheFirst | server/api/friends.py:60-101 | a friend request is refused if and only if something stands in its way, for the first thing that does in the endpoint's order, and without effect |
| Transitions.AnswerIsRefusedForTheFirst | server/api/friends.py:190-211 | an answer to a request is refused if and only if something stands in its way, for the first thing that does, and without effect |
| Messages.SendMessage | server/api/messages.py:111-246 | tables and answer of the endpoint, for every refusal and for acceptance |
| Messages.MarkDeliveredOnAck | server/services/delivery.py:22-51 | the mark is set once, by the recipient, and by nobody else |
| Messages.MarkRead | server/api/conversations.py:93-125 | the caller's own unread count is cleared, whichever side of the pair they are |
| Messages.FlushOfflineQueue | server/ws/handler.py:111-147 | a prefix of the undelivered messages, each once, oldest first; all of them if the socket holds |
| Messages.SendKeepsInv | server/api/messages.py:111-246 | sending keeps the server invariant |
| Messages.UuidsAreFiveGroups | server/api/messages.py:38 | the identifiers admitted are five groups of hexadecimal digits with the version and the variant of a random UUID |
| Server.MessagesAreAcceptedExactlyWhen | server/api/messages.py:111-222 | in a sound state a message is accepted if and only if it is well formed, its sender sends it to a live friend in the conversation of the two, and neither its identifier nor its counter is taken; a refusal changes nothing |
| Transitions.MessageIsRefusedForTheFirst | server/api/messages.py:118-222 | a message is refused if and only if something stands in its way, for the first thing that does in the order of the guards, and without effect |
| Transitions.MessageAppearsExactlyWhen | server/api/messages.py:199-232 | a message appears exactly by being sent and accepted, as it was sent and unmarked |
| Transitions.MarkIsSetExactlyWhen | server/services/delivery.py:22-51 | a delivery mark is set exactly by the recipient's first acknowledgement, with the time of that |
| Transitions.AckIsAnnouncedExactlyWhen | server/services/delivery.py:22-51 | an acknowledgement is announced, to the sender of the message and to nobody else, exactly if it sets the mark |
| Transitions.ReadIsAnsweredExactlyWhen | server/api/conversations.py:93-125 | marking read succeeds exactly for the two participants |
| Transitions.FetchableIsAllBetweenTheTwo | server/api/messages.py:278-317 | a participant can page through all that was ever sent between the two, and nothing else |
| Transitions.QueueHoldsExactly | server/ws/handler.py:111-147 | the offline queue of a user holds exactly the stored messages to them that bear no mark |
| Transitions.LastMessageTimesAreTrue | server/api/messages.py:234-240 | in every reachable state a conversation bears the time of the message accepted last in it |
| Server.FetchedMessagesAreOnesOwn | server/api/messages.py:278-317 | filtering by conversation alone returns only messages that the caller sent or received |
| Server.CountersNameMessages | server/models/message.py:20-24 | a sender's counter names one message of a conversation |
| Server.MessagesAreForever | server/api/messages.py:199-246 | no call changes a stored message, and a delivery mark stays as it was set |
| Server.SenderIsToldOnce | server/services/delivery.py:28-51 | after the acknowledgement that sets the mark, none is announced again, over any later run |
| Server.UnreadCountsAreConserved | server/api/messages.py:234-240 | each participant's unread count is the number of messages accepted for them since they last marked the conversation read; refused sends count for nothing |
| EndToEnd.SteppedKeepsInv | client/ui/app.py:488-644 | every step of the whole system keeps the invariant that ties server, sessions, local rows, acknowledgements and pushes together |
| EndToEnd.SavedDoesNotOpenAgain | client/ui/app.py:591-613 | an envelope saved before does not open again, by whatever way it comes back |
| EndToEnd.ReceivedRowIsNew | client/state/store.py:202-222 | in a sound state insert-or-ignore never ignores a message received for the first time, although its slot is guarded by two unique keys |
| EndToEnd.SavingKeepsInv | client/ui/app.py:615-644 | an envelope that opens and was not saved before is saved with the text that was sent, and the invariant is kept |
| EndToEnd.EachMessageIsSavedAtMostOnce | client/ui/app.py:1193-1419 | over every interleaving a message is saved on receipt at most once, by its recipient, with the text that was sent |
| EndToEnd.LocalRowsAreAsSent | client/state/store.py:186-229 | every local row holds the text sent under its identifier, and belongs to its sender or was saved on receipt |
| EndToEnd.DeliveredMeansSaved | server/api/messages.py:384-410 | a message marked delivered, or announced as delivered, was saved by its recipient |
| EndToEnd.EachSenderIsToldAtMostOnce | server/ws/handler.py:153-222 | at most one acknowledgement push per message, over every interleaving |
| EndToEnd.NothingAcceptedIsLost | server/ws/handler.py:111-147 | an accepted message was saved by its recipient or is in the recipient's next flush |
| Completeness.OpensExactlyWhen | client/crypto/session.py:897-944 | an envelope opens if and only if the recipient's session and the one that built it share a root key in opposite roles, and it lies in the recipient's window |
| Completeness.MessagesAreSavedExactlyWhen | client/ui/app.py:488-644 | over every run, a message that reaches its recipient is saved if and only if the table can be written, there is a session or one can be opened, it is the other end of the sender's, and the message lies in its window |
| Completeness.ReceiptDoesExactly | client/ui/app.py:488-644 | over every run, exactly these messages are acknowledged, by the same call, and get their row with the text sent; any other receipt changes no table and sends no acknowledgement |
| Completeness.PostDoesExactly | client/use_cases/send_message.py:111-189 | over every run, what the server accepts it holds unmarked, and the sender's table gets one row with the text sent exactly if the sender hears of it and can save; nothing else is touched |
| Completeness.CrossedSetUpsSaveNothing | client/ui/app.py:488-644 | if both sides set up a session of their own, nothing either sends is ever saved |
| Completeness.SetUpsDoCross | client/use_cases/send_message.py:58-108 | a concrete run in which both sides set up a session and a message of one reaches the other |
| Completeness.FirstEnvelopePairsExactlyWhen | client/crypto/session.py:360-435 | a first envelope opens the other end of its session if and only if the session was set up with the recipient's own key |
| Traffic.SteppedKeepsTraffic | client/crypto/session.py:854-944 | every step keeps receivers to what the server holds for them, and senders past the chain index and up to the counter of all they have stored |
| DeadDirections.DirectionLivesExactlyWhen | client/crypto/session.py:507-519 | over every run: between the two ends of a session, another message of x will be saved by y on some run if and only if a stored one lies in y's window, or some run leads to where the server takes a message of x whose chain is at most 50 ahead of y's |
| DeadDirections.DirectionIsDeadExactlyWhen | client/crypto/session.py:507-519 | while the server takes x's next message, no run makes y save another if and only if x's chain is more than 50 ahead of y's and no stored message of x lies in y's window |
| DeadDirections.BeyondIsForever | client/crypto/session.py:507-519 | once x is that far ahead and nothing waits, no run brings the direction back |
| RunawaySender.DirectionsDoDie | client/crypto/session.py:854-894 | a concrete run to a dead direction: one message heard, then 51 envelopes built and refused, while the server would still take the next |
| SpentMessages.OpenedButUnsavedIsNeverSaved | client/ui/app.py:591-629 | a message that its recipient opens while the local table cannot be written is never saved, whatever comes after |
| LostConfirmations.StuckExactlyAfterALoss | client/use_cases/send_message.py:141-189 | after any run a user's next counter in a conversation is taken by a message of theirs if and only if some send of theirs there was accepted without their hearing of it or without its being saved |
| LostConfirmations.NextCounterIsTakenExactlyAfterALoss | client/use_cases/send_message.py:139-166 | so the next message is refused for its counter if and only if a confirmation was lost there before |
| LostConfirmations.LostConfirmationBlocksTheConversation | client/use_cases/send_message.py:141-189 | after a lost confirmation the counter never moves, and every later send there is refused |
| LostConfirmations.ConfirmationsDoGetLost | client/use_cases/send_message.py:141-189 | a concrete run in which a confirmation is lost: two become friends, and the first message times out |
| TrustCache.IdentityKeyCache.CheckAndUpdate | client/crypto/session.py:656-701 | first use, match, flagged change and refused change, with the state each leaves |
| TrustCache.IdentityKeyCache.MarkVerified | client/crypto/session.py:703-713 | the key is pinned, verified, and unflagged |
| TrustCache.CacheIsExplained | client/crypto/session.py:656-713 | closed form over any history: key, verified, change flag and fingerprint from the last verification, or else from all the checks |
| TrustCache.VerifiedIsForever | client/crypto/session.py:656-713 | a verified peer stays verified, and the pinned key is that of a verification no earlier |
| TrustCache.AnswerToACheck | client/crypto/session.py:656-701 | the answer to the next check as a function of the history alone |
| LogFilter.LogKeys.ShouldLog | client/ui/app.py:340-347 | the cache after a call, and the answer: new keys only |
| LogFilter.ByLastUseIsInOrder | client/ui/app.py:340-347 | the ideal list holds exactly the keys used, each once, in the order of their last uses |
| LogFilter.CacheIsTheMostRecent | client/ui/app.py:340-347 | after any calls the cache is the last 256 of the ideal list |
| LogFilter.RememberedMeansRecent | client/ui/app.py:340-347 | a key is remembered if and only if fewer than 256 other keys were used since its last use |
| Encoding.Hex | client/crypto/session.py:526-539 | reading the digits gives the bytes back |
| Encoding.Decimal | client/crypto/session.py:526-539 | reading the digits gives the integer back, so no two indices share a key |
| Storage.ReadChain | client/crypto/session.py:533-539 | a chain is read if and only if all its texts are readable, with every skipped key under its number |
| Storage.ChainRoundTrip | client/crypto/session.py:526-539 | the dictionary form of a chain reads back as that chain and as no other |
| Storage.ReadCache | client/crypto/session.py:734-761 | the loop over peers equals the closed form, former and foreign entry forms included |
| Storage.BareKeysLoadAsFirstUse | client/crypto/session.py:734-761 | a peer stored with a key alone, in the former form or the present one, is loaded as trusted on first use; one without a readable entry is not loaded |
| Storage.CacheRoundTrip | client/crypto/session.py:721-761 | a trust cache comes back if and only if its keys and its trust states have the same peers |
| Storage.SaveSessions | client/crypto/storage.py:243-273 | the loop writes one sealed entry per conversation |
| Storage.LoadSessions | client/crypto/storage.py:276-322 | entries that do not open are passed over, the others are read, and an unreadable one ends the loading |
| Storage.OldEntriesLoadAsNew | client/crypto/storage.py:311-328 | an entry from before replay state, trust or counters were kept loads as one in which nothing happened; a counter other than zero was in the entry, and is never negative |
| Storage.SavedSessionsComeBack | client/crypto/storage.py:243-328 | loading what was saved succeeds and restores root keys, peers and both chains; it restores everything if and only if each session is filed under its own conversation, holds at most 100 identifiers, has matching trust states and a non-negative counter; another password or salt brings nothing back |
| Storage.UsedStateIsRestorable | client/crypto/session.py:792-839 | filters and trust caches that came about by use meet the condition of the round trip |
| Splice.ApplyReplacements | scripts/lint_codemod.py:47-51 | the loop applies the sorted replacements one after the other, with Python's slice bounds |
| Splice.SplicingIsSubstitution | scripts/lint_codemod.py:47-51 | for replacements in bounds and apart, the result is simultaneous substitution from left to right |
| Splice.AnyOrderWillDo | scripts/lint_codemod.py:47-51 | the order of the list does not matter |
| Splice.SortedAgreesExactlyWhen | scripts/lint_codemod.py:47-51 | two lists, fitting or not, are applied in the same order if and only if they agree on the replacements of each start and on their order |
| Splice.SplicedLength | scripts/lint_codemod.py:47-51 | the result is longer by the sum of the growths |
| Splice.SplicingKeeps | scripts/lint_codemod.py:47-51 | every character outside the spans is kept, at its shifted place |
| Splice.SplicingPlaces | scripts/lint_codemod.py:47-51 | every replacement's text stands at its shifted place |
| Splice.EqualStartsDependOnOrder | scripts/lint_codemod.py:47-51 | two insertions at one place come out in an order that depends on the list |
| Splice.LinesMakeTheText | scripts/lint_codemod.py:28-34 | the lines of a text, with their ends, are the text |
| Splice.LinesAreLines | scripts/lint_codemod.py:28-34 | each line ends in its only break, a carriage return and line feed counting as one; the last may have none |
| Splice.LineOffsets | scripts/lint_codemod.py:28-34 | consecutive offsets delimit the lines of the text |

## Left out

- Cryptography is ideal: HKDF, X25519, AES-GCM and Argon2id are free constructors, so there are no collisions, and a ciphertext opens under what sealed it only.
- UTF-8 decoding of an opened plaintext, base64 text, and the size limits on plaintexts and ciphertexts.
- Pipeline.DecryptEnvelope: malformed base64, and a plaintext that is not valid UTF-8, are not outcomes of their own, because envelopes hold bytes and ideal ciphertexts hold text.
- SendPath.SendContext.ExecuteSend: sessions are values in a map here, so two names for one session object are not modelled; a crash between building an envelope and persisting the session is not either.
- Inbox.ChatClient.HandleEnvelope: whether the peer's key bundle could be fetched and verified is a parameter; banners, unread badges, the conversation list and the refresh of a changed key are left out.
- EndToEnd.NothingAcceptedIsLost: safety only; a message that was saved but whose acknowledgement was lost stays in the queue for good, because the client refuses it when it comes again and sends no second acknowledgement.
- EndToEnd.EachMessageIsSavedAtMostOnce: assumes that clients do not lose their session files and that the server deletes no message rows; deleting a row would free its counter.
- Each handler is one atomic step: two handlers of one client, or a session being set up twice, do not interleave across awaits.
- Messages.SendMessage: the size limit on ciphertexts and the length checks on the two bootstrap keys, which are symbols here; and when a message breaks both unique constraints, the answer is the replay refusal; which constraint the database names first is not modelled.
- Messages.FlushOfflineQueue: no message has an expiry on the server, because nothing assigns one; the conversion of timestamps to dates is left out.
- Friends.BlockUser: foreign keys are checked here only; changes to the users table are arbitrary steps of their own.
- Storage.ReadChain: digits and white space of other scripts in decimal numbers, which Python also reads.
- Storage.LoadSessions: JSON syntax, missing mandatory fields and values of the wrong type, and the file system.
- The rewriting of syntax trees that produces the replacements.
- The map of open connections, pushes as such (a push is one of the ways a message may reach its recipient), TLS, HTTP, configuration, logging and screens.
- Registration, login, passwords, TOTP, and the validation of key bundles.
- The age-based clean-up of the server, and `MAX_SESSION_MESSAGES`, which nothing enforces.
