/**
 Messages on the server: sending, acknowledging, reading, and the offline queue
 (server/api/messages.py, server/services/delivery.py, server/api/conversations.py,
 server/ws/handler.py).
 */
module Messages {
  import opened Common
  import opened Protocol
  import opened Tables
  import opened Friends
  import Paging

  // ---------------------------------------------------------------- validation

  const HEX := "0123456789abcdef"

  predicate IsUuid4(s: string)
  {
    && |s| == 36
    && (forall i :: 0 <= i < 36 ==> s[i] == '-' || s[i] in HEX)
    && (forall i :: 0 <= i < 36 ==> (s[i] == '-' <==> i == 8 || i == 13 || i == 18 || i == 23))
    && s[14] == '4' && s[19] in "89ab"
  }

  predicate AllHex(s: string)
  {
    forall i :: 0 <= i < |s| ==> s[i] in HEX
  }

  /** The pattern, group by group. */
  lemma UuidsAreFiveGroups(s: string, a: string, b: string, c: string, d: string, e: string)
    requires |a| == 8 && |b| == 4 && |c| == 4 && |d| == 4 && |e| == 12
    requires s == a + "-" + b + "-" + c + "-" + d + "-" + e
    ensures IsUuid4(s)
        <==> AllHex(a) && AllHex(b) && AllHex(c) && AllHex(d) && AllHex(e) && c[0] == '4' && d[0] in "89ab"
  {
    assert a == s[..8] && b == s[9..13] && c == s[14..18] && d == s[19..23] && e == s[24..];
    if AllHex(a) && AllHex(b) && AllHex(c) && AllHex(d) && AllHex(e) {
      forall i | 0 <= i < 36
        ensures s[i] == '-' <==> i == 8 || i == 13 || i == 18 || i == 23
        ensures s[i] == '-' || s[i] in HEX
      {
        assert i < 8 ==> s[i] == a[i];
        assert 9 <= i < 13 ==> s[i] == b[i - 9];
        assert 14 <= i < 18 ==> s[i] == c[i - 14];
        assert 19 <= i < 23 ==> s[i] == d[i - 19];
        assert 24 <= i ==> s[i] == e[i - 24];
      }
    }
  }

  /** The pattern ends in "$", which also matches before a final newline. */
  predicate MatchesIdPattern(s: string)
  {
    IsUuid4(s) || (|s| > 0 && s[|s| - 1] == '\n' && IsUuid4(s[..|s| - 1]))
  }

  predicate EnvelopeValid(e: Envelope)
  {
    MatchesIdPattern(e.id) && |e.nonce| == 12 && ServerAcceptsTtl(e.ttlSeconds) && e.counter >= 0
  }

  // ---------------------------------------------------------------- the endpoints, on values

  /** One more unread message for the recipient, on whichever side of the pair they are. */
  function Bumped(c: Conversation, recipient: string, sentAt: int): Conversation
  {
    if recipient == c.userA then c.(unreadA := c.unreadA + 1, lastMessageAt := Some(sentAt))
    else c.(unreadB := c.unreadB + 1, lastMessageAt := Some(sentAt))
  }

  predicate CounterTaken(t: Tables, e: Envelope)
  {
    exists id :: id in t.messages && SameCounter(t.messages[id].envelope, e)
  }

  /** Inserting the row, unless a unique constraint forbids it, and counting it as unread. */
  function Stored(t: Tables, e: Envelope): (Tables, Result<(), HttpError>)
    requires e.conversationId in t.conversations
  {
    if CounterTaken(t, e) then (t, Err(DuplicateReplay))
    else if e.id in t.messages then (t, Err(ConstraintViolated))
    else
      (t.(messages := t.messages[e.id := Message(e, None)],
          conversations := t.conversations[e.conversationId :=
            Bumped(t.conversations[e.conversationId], e.recipientId, e.sentAt)]),
       Ok(()))
  }

  ghost function MessageSent(t: Tables, caller: string, e: Envelope): (Tables, Result<(), HttpError>)
  {
    var pair := Ordered(e.senderId, e.recipientId);
    if !EnvelopeValid(e) then (t, Err(InvalidEnvelope))
    else if e.senderId != caller then (t, Err(SenderMismatch))
    else if pair !in t.friendships then (t, Err(NotFriends))
    else if !IsLiveUserId(t, e.recipientId) then (t, Err(RecipientNotFound))
    else
      match ConversationOf(PairsOf(t.conversations), pair)
      case None => (t, Err(NoConversation))
      case Some(id) =>
        if id != e.conversationId then (t, Err(ConversationMismatch)) else Stored(t, e)
  }

  /** The four results of an acknowledgement; only the last one is pushed to the sender. */
  datatype AckOutcome = AckNotFound | AckNotRecipient | AckAlreadyDelivered | AckDelivered(senderId: string)

  function AckMarked(t: Tables, messageId: string, actor: string, now: int): (Tables, AckOutcome)
  {
    if messageId !in t.messages then (t, AckNotFound)
    else
      var m := t.messages[messageId];
      if m.envelope.recipientId != actor then (t, AckNotRecipient)
      else if m.deliveredAt.Some? then (t, AckAlreadyDelivered)
      else (t.(messages := t.messages[messageId := m.(deliveredAt := Some(now))]), AckDelivered(m.envelope.senderId))
  }

  predicate Participates(c: Conversation, user: string)
  {
    c.userA == user || c.userB == user
  }

  function ReadMarked(t: Tables, caller: string, conversationId: string): (Tables, Result<(), HttpError>)
  {
    if conversationId !in t.conversations || !Participates(t.conversations[conversationId], caller)
    then (t, Err(NotParticipant))
    else
      var c := t.conversations[conversationId];
      var c' := if c.userA == caller then c.(unreadA := 0) else c.(unreadB := 0);
      (t.(conversations := t.conversations[conversationId := c']), Ok(()))
  }

  function ConversationMessages(t: Tables, conversationId: string): set<Envelope>
  {
    set id | id in t.messages && t.messages[id].envelope.conversationId == conversationId :: t.messages[id].envelope
  }

  /** What a caller may page through: the messages of a conversation the caller takes part in. */
  function Fetchable(t: Tables, caller: string, conversationId: string): Result<set<Envelope>, HttpError>
  {
    if conversationId !in t.conversations || !Participates(t.conversations[conversationId], caller)
    then Err(NotParticipant)
    else Ok(ConversationMessages(t, conversationId))
  }

  predicate AwaitsDelivery(t: Tables, id: string, user: string)
  {
    id in t.messages && t.messages[id].envelope.recipientId == user && t.messages[id].deliveredAt.None?
  }

  /** Messages to a user that have not been acknowledged; none ever has an expiry on the server. */
  function Undelivered(t: Tables, user: string): set<Envelope>
  {
    set id | id in t.messages && AwaitsDelivery(t, id, user) :: t.messages[id].envelope
  }

  // ---------------------------------------------------------------- the endpoints, in place

  method SendMessage(db: Database, caller: string, e: Envelope) returns (r: Result<(), HttpError>)
    requires OneConversationPerPair(PairsOf(db.conversations))
    modifies db
    ensures (db.State(), r) == MessageSent(old(db.State()), caller, e)
  {
    if !EnvelopeValid(e) {
      return Err(InvalidEnvelope);
    }
    if e.senderId != caller {
      return Err(SenderMismatch);
    }
    var pair := Ordered(e.senderId, e.recipientId);
    if pair !in db.friendships {
      return Err(NotFriends);
    }
    var _, live := FindUserId(db, e.recipientId);
    if !live {
      return Err(RecipientNotFound);
    }
    var conversation := FindConversation(db, pair);
    if conversation.None? {
      return Err(NoConversation);
    }
    if conversation.value != e.conversationId {
      return Err(ConversationMismatch);
    }
    r := StoreMessage(db, e);
  }

  method StoreMessage(db: Database, e: Envelope) returns (r: Result<(), HttpError>)
    requires e.conversationId in db.conversations
    modifies db
    ensures (db.State(), r) == Stored(old(db.State()), e)
  {
    if i :| i in db.messages && SameCounter(db.messages[i].envelope, e) {
      assert CounterTaken(db.State(), e);
      return Err(DuplicateReplay);
    }
    if e.id in db.messages {
      return Err(ConstraintViolated);
    }
    db.messages := db.messages[e.id := Message(e, None)];
    var c := db.conversations[e.conversationId];
    if e.recipientId == c.userA {
      c := c.(unreadA := c.unreadA + 1);
    } else {
      c := c.(unreadB := c.unreadB + 1);
    }
    db.conversations := db.conversations[e.conversationId := c.(lastMessageAt := Some(e.sentAt))];
    r := Ok(());
  }

  method MarkDeliveredOnAck(db: Database, messageId: string, actor: string, now: int) returns (r: AckOutcome)
    modifies db
    ensures (db.State(), r) == AckMarked(old(db.State()), messageId, actor, now)
  {
    if messageId !in db.messages {
      return AckNotFound;
    }
    var m := db.messages[messageId];
    if m.envelope.recipientId != actor {
      return AckNotRecipient;
    }
    if m.deliveredAt.Some? {
      return AckAlreadyDelivered;
    }
    db.messages := db.messages[messageId := m.(deliveredAt := Some(now))];
    r := AckDelivered(m.envelope.senderId);
  }

  method MarkRead(db: Database, caller: string, conversationId: string) returns (r: Result<(), HttpError>)
    modifies db
    ensures (db.State(), r) == ReadMarked(old(db.State()), caller, conversationId)
  {
    if conversationId !in db.conversations || !Participates(db.conversations[conversationId], caller) {
      return Err(NotParticipant);
    }
    var c := db.conversations[conversationId];
    if c.userA == caller {
      c := c.(unreadA := 0);
    } else {
      c := c.(unreadB := 0);
    }
    db.conversations := db.conversations[conversationId := c];
    r := Ok(());
  }

  /** Undelivered messages, oldest first; equal timestamps come in any order. */
  ghost predicate IsQueue(queue: seq<Envelope>, t: Tables, user: string)
  {
    Distinct(queue) && Elements(queue) == Undelivered(t, user) && Paging.OldestFirst(queue)
  }

  lemma ReversedSelectionIsAQueue(rows: seq<Envelope>, t: Tables, user: string)
    requires Paging.IsTop(rows, Undelivered(t, user), |Undelivered(t, user)|)
    ensures IsQueue(Paging.Reversed(rows), t, user)
  {
    DistinctCount(rows);
    SameSizeSubset(Elements(rows), Undelivered(t, user));
    ReversedElements(rows);
    Paging.ReversedRunsForward(rows);
  }

  /** The user's queue, oldest first. */
  method QueueOf(db: Database, user: string) returns (queue: seq<Envelope>)
    ensures IsQueue(queue, db.State(), user)
  {
    var waiting := set id | id in db.messages && db.messages[id].envelope.recipientId == user
                                              && db.messages[id].deliveredAt.None? :: db.messages[id].envelope;
    var rows := Paging.SelectLatest(waiting, |waiting|);
    queue := Paging.Reversed(rows);
    assert waiting == Undelivered(db.State(), user);
    ReversedSelectionIsAQueue(rows, db.State(), user);
  }

  /** The socket gives out after `failAt` sends, or never if the queue is shorter. */
  method FlushOfflineQueue(db: Database, user: string, failAt: nat) returns (sent: seq<Envelope>)
    ensures exists queue :: IsQueue(queue, db.State(), user)
                            && sent == queue[..if failAt < |queue| then failAt else |queue|]
  {
    var queue := QueueOf(db, user);
    sent := [];
    for i := 0 to |queue|
      invariant i <= failAt && sent == queue[..i]
    {
      if i == failAt {
        return;
      }
      sent := sent + [queue[i]];
    }
    assert queue[..|queue|] == queue;
  }

  lemma {:induction false} ReversedElements<T>(s: seq<T>)
    ensures Elements(Paging.Reversed(s)) == Elements(s)
  {
    var r := Paging.Reversed(s);
    forall x
      ensures x in r <==> x in s
    {
      if x in s {
        var i :| 0 <= i < |s| && s[i] == x;
        assert r[|s| - 1 - i] == x;
      }
    }
  }

  // ---------------------------------------------------------------- what the message table keeps

  /** A message between the two participants of its conversation. */
  predicate Belongs(pairs: map<string, Pair>, e: Envelope)
  {
    && e.conversationId in pairs
    && e.senderId != e.recipientId
    && Ordered(e.senderId, e.recipientId) == pairs[e.conversationId]
  }

  ghost predicate EnvelopesSound(envelopes: map<string, Envelope>, pairs: map<string, Pair>)
  {
    && OneMessagePerCounter(envelopes)
    && forall id :: id in envelopes ==>
         envelopes[id].id == id && envelopes[id].counter >= 0 && Belongs(pairs, envelopes[id])
  }

  ghost predicate MessagesSound(t: Tables)
  {
    EnvelopesSound(EnvelopesOf(t.messages), PairsOf(t.conversations))
  }

  ghost predicate ServerInv(t: Tables)
  {
    SocialInv(t) && MessagesSound(t)
  }

  /** Conversations may be added; those there are keep their participants. */
  lemma MorePairsKeepEnvelopes(envelopes: map<string, Envelope>, pairs: map<string, Pair>, pairs': map<string, Pair>)
    requires EnvelopesSound(envelopes, pairs)
    requires forall id :: id in pairs ==> id in pairs' && pairs'[id] == pairs[id]
    ensures EnvelopesSound(envelopes, pairs')
  {
  }

  lemma NewEnvelopeStaysSound(envelopes: map<string, Envelope>, pairs: map<string, Pair>, e: Envelope)
    requires EnvelopesSound(envelopes, pairs) && Belongs(pairs, e) && e.counter >= 0
    requires forall id :: id in envelopes ==> !SameCounter(envelopes[id], e)
    ensures EnvelopesSound(envelopes[e.id := e], pairs)
  {
    forall id | id in envelopes
      ensures !SameCounter(e, envelopes[id])
    {
      assert !SameCounter(envelopes[id], e);
    }
  }

  /** In a sound state friends always have a conversation: the refusal for want of one is dead code. */
  lemma FriendsHaveAConversation(t: Tables, caller: string, e: Envelope)
    requires SocialInv(t)
    ensures MessageSent(t, caller, e).1 != Err(NoConversation)
  {
  }

  /** A refused message leaves the tables as they were. */
  lemma RefusedMessageLeavesTables(t: Tables, caller: string, e: Envelope)
    requires MessageSent(t, caller, e).1.Err?
    ensures MessageSent(t, caller, e).0 == t
  {
  }

  /** An accepted message went through every guard. */
  lemma AcceptedMessagePassed(t: Tables, caller: string, e: Envelope)
    requires MessageSent(t, caller, e).1.Ok?
    ensures
      var pair := Ordered(e.senderId, e.recipientId);
      && e.senderId == caller && EnvelopeValid(e) && pair in t.friendships
      && e.conversationId in t.conversations && PairsOf(t.conversations)[e.conversationId] == pair
      && !CounterTaken(t, e) && e.id !in t.messages
      && MessageSent(t, caller, e) == Stored(t, e)
  {
  }

  /** Storing adds one envelope and no conversation. */
  lemma StoringAddsOneEnvelope(t: Tables, e: Envelope)
    requires e.conversationId in t.conversations && Stored(t, e).1.Ok?
    ensures
      var t' := Stored(t, e).0;
      && EnvelopesOf(t'.messages) == EnvelopesOf(t.messages)[e.id := e]
      && PairsOf(t'.conversations) == PairsOf(t.conversations)
      && t'.friendships == t.friendships && t'.blocks == t.blocks && t'.requests == t.requests && t'.users == t.users
  {
  }

  lemma StoringKeepsMessages(t: Tables, e: Envelope)
    requires MessagesSound(t) && Belongs(PairsOf(t.conversations), e) && e.counter >= 0
    ensures MessagesSound(Stored(t, e).0)
  {
    if Stored(t, e).1.Ok? {
      StoringAddsOneEnvelope(t, e);
      forall id | id in EnvelopesOf(t.messages)
        ensures !SameCounter(EnvelopesOf(t.messages)[id], e)
      {
        assert !SameCounter(t.messages[id].envelope, e);
      }
      NewEnvelopeStaysSound(EnvelopesOf(t.messages), PairsOf(t.conversations), e);
    }
  }

  /** Messaging touches no request, block or friendship, and no conversation's participants. */
  lemma MessagingIsAntisocial(t: Tables, t': Tables)
    requires SocialInv(t)
    requires t'.friendships == t.friendships && t'.blocks == t.blocks && t'.requests == t.requests
    requires PairsOf(t'.conversations) == PairsOf(t.conversations)
    ensures SocialInv(t')
  {
  }

  lemma FriendsAreTwo(friendships: set<Pair>, blocks: set<Pair>, requests: Requests, x: string, y: string)
    requires FriendshipsSound(friendships, blocks, requests) && Ordered(x, y) in friendships
    ensures x != y
  {
    OrderedIdentifiesThePair(x, x, x, y);
  }

  lemma SendKeepsInv(t: Tables, caller: string, e: Envelope)
    requires ServerInv(t)
    ensures ServerInv(MessageSent(t, caller, e).0)
  {
    if MessageSent(t, caller, e).1.Ok? {
      AcceptedMessagePassed(t, caller, e);
      FriendsAreTwo(t.friendships, t.blocks, t.requests, e.senderId, e.recipientId);
      StoringKeepsMessages(t, e);
      StoringAddsOneEnvelope(t, e);
      MessagingIsAntisocial(t, Stored(t, e).0);
    }
  }

  lemma AckKeepsEnvelopes(t: Tables, messageId: string, actor: string, now: int)
    ensures
      var t' := AckMarked(t, messageId, actor, now).0;
      EnvelopesOf(t'.messages) == EnvelopesOf(t.messages) && t'.conversations == t.conversations
  {
  }

  lemma AckKeepsInv(t: Tables, messageId: string, actor: string, now: int)
    requires ServerInv(t)
    ensures ServerInv(AckMarked(t, messageId, actor, now).0)
  {
    AckKeepsEnvelopes(t, messageId, actor, now);
    MessagingIsAntisocial(t, AckMarked(t, messageId, actor, now).0);
  }

  lemma ReadKeepsPairs(t: Tables, caller: string, conversationId: string)
    ensures
      var t' := ReadMarked(t, caller, conversationId).0;
      PairsOf(t'.conversations) == PairsOf(t.conversations) && t'.messages == t.messages
  {
  }

  lemma ReadKeepsInv(t: Tables, caller: string, conversationId: string)
    requires ServerInv(t)
    ensures ServerInv(ReadMarked(t, caller, conversationId).0)
  {
    ReadKeepsPairs(t, caller, conversationId);
    MessagingIsAntisocial(t, ReadMarked(t, caller, conversationId).0);
  }
}
