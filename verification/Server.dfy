/**
 The server as a state machine: runs of endpoint calls from an empty database, and what holds of every
 state that such a run reaches.
 */
module Server {
  import opened Common
  import opened Protocol
  import opened Tables
  import opened Friends
  import opened Messages

  /** One request to the server; identifiers drawn by the server are part of the call. */
  datatype Call =
    | UsersCall(users: map<string, User>)  // registration and removal, not part of this model
    | RequestCall(caller: string, username: string, freshId: string)
    | HandleCall(caller: string, requestId: string, action: Action, freshId: string)
    | RemoveCall(caller: string, peer: string)
    | BlockCall(caller: string, peer: string)
    | SendCall(caller: string, envelope: Envelope)
    | AckCall(caller: string, messageId: string, now: int)
    | ReadCall(caller: string, conversationId: string)

  ghost function Served(t: Tables, call: Call): Tables
  {
    match call
    case UsersCall(users) => t.(users := users)
    case RequestCall(caller, username, freshId) => FriendRequested(t, caller, username, freshId).0
    case HandleCall(caller, requestId, action, freshId) => RequestHandled(t, caller, requestId, action, freshId).0
    case RemoveCall(caller, peer) => FriendRemoved(t, caller, peer)
    case BlockCall(caller, peer) => UserBlocked(t, caller, peer).0
    case SendCall(caller, envelope) => MessageSent(t, caller, envelope).0
    case AckCall(caller, messageId, now) => AckMarked(t, messageId, caller, now).0
    case ReadCall(caller, conversationId) => ReadMarked(t, caller, conversationId).0
  }

  ghost function After(t: Tables, calls: seq<Call>): Tables
  {
    if calls == [] then t else Served(After(t, calls[..|calls| - 1]), calls[|calls| - 1])
  }

  // ---------------------------------------------------------------- the invariant

  predicate IsSocial(call: Call)
  {
    call.UsersCall? || call.RequestCall? || call.HandleCall? || call.RemoveCall? || call.BlockCall?
  }

  /** Social calls touch no message and keep every conversation as it is; one they add has nothing unread. */
  lemma SocialCallsLeaveMessages(t: Tables, call: Call)
    requires IsSocial(call)
    ensures Served(t, call).messages == t.messages
    ensures forall id :: id in t.conversations ==>
              id in Served(t, call).conversations && Served(t, call).conversations[id] == t.conversations[id]
    ensures forall id :: id in Served(t, call).conversations && id !in t.conversations ==>
              Served(t, call).conversations[id].unreadA == 0 && Served(t, call).conversations[id].unreadB == 0
  {
    if call.HandleCall? && RequestHandled(t, call.caller, call.requestId, call.action, call.freshId).1.Ok? {
      HandledRequest(t, call.caller, call.requestId, call.action, call.freshId);
      if call.action == Accept {
        AcceptedRequestMakesFriends(t, call.caller, call.requestId, call.freshId);
      }
    }
  }

  lemma SocialCallsKeepMessages(t: Tables, call: Call)
    requires MessagesSound(t) && IsSocial(call)
    ensures MessagesSound(Served(t, call))
  {
    SocialCallsLeaveMessages(t, call);
    MorePairsKeepEnvelopes(
      EnvelopesOf(t.messages), PairsOf(t.conversations), PairsOf(Served(t, call).conversations));
  }

  lemma ServedKeepsInv(t: Tables, call: Call)
    requires ServerInv(t)
    ensures ServerInv(Served(t, call))
  {
    match call {
      case UsersCall(users) =>
      case RequestCall(caller, username, freshId) =>
        RequestKeepsInv(t, caller, username, freshId);
        SocialCallsKeepMessages(t, call);
      case HandleCall(caller, requestId, action, freshId) =>
        HandleKeepsInv(t, caller, requestId, action, freshId);
        SocialCallsKeepMessages(t, call);
      case RemoveCall(caller, peer) =>
        RemoveKeepsInv(t, caller, peer);
        SocialCallsKeepMessages(t, call);
      case BlockCall(caller, peer) =>
        BlockKeepsInv(t, caller, peer);
        SocialCallsKeepMessages(t, call);
      case SendCall(caller, envelope) => SendKeepsInv(t, caller, envelope);
      case AckCall(caller, messageId, now) => AckKeepsInv(t, messageId, caller, now);
      case ReadCall(caller, conversationId) => ReadKeepsInv(t, caller, conversationId);
    }
  }

  lemma {:induction false} InvHoldsThroughout(t: Tables, calls: seq<Call>)
    requires ServerInv(t)
    ensures ServerInv(After(t, calls))
  {
    if calls != [] {
      InvHoldsThroughout(t, calls[..|calls| - 1]);
      ServedKeepsInv(After(t, calls[..|calls| - 1]), calls[|calls| - 1]);
    }
  }

  lemma EveryReachableStateIsSound(calls: seq<Call>)
    ensures ServerInv(After(EMPTY, calls))
  {
    InvHoldsThroughout(EMPTY, calls);
  }

  // ---------------------------------------------------------------- the social graph

  ghost predicate PendingFrom(t: Tables, x: string, y: string)
  {
    exists id :: RequestFrom(t.requests, id, x, y) && t.requests[id].status == Pending
  }

  predicate AreFriends(t: Tables, x: string, y: string)
  {
    Ordered(x, y) in t.friendships
  }

  /**
   In every reachable state: nobody has a pending request to someone who has blocked them; a blocker
   who is friends with the blocked had a request of their own accepted; and two who block each other
   are not friends and have no pending request either way.
   */
  lemma BlocksAreRespected(calls: seq<Call>, x: string, y: string)
    ensures
      var t := After(EMPTY, calls);
      && ((x, y) in t.blocks ==> !PendingFrom(t, y, x))
      && ((x, y) in t.blocks && AreFriends(t, x, y) ==> AcceptedRequest(t.requests, x, y))
      && ((x, y) in t.blocks && (y, x) in t.blocks ==>
            !AreFriends(t, x, y) && !PendingFrom(t, x, y) && !PendingFrom(t, y, x))
  {
    EveryReachableStateIsSound(calls);
  }

  lemma AtMostOneRequestPerOrderedPair(calls: seq<Call>, i: string, j: string, x: string, y: string)
    requires RequestFrom(After(EMPTY, calls).requests, i, x, y) && RequestFrom(After(EMPTY, calls).requests, j, x, y)
    ensures i == j && x != y
  {
    EveryReachableStateIsSound(calls);
  }

  lemma MessagingLeavesRequests(t: Tables, call: Call)
    requires !IsSocial(call)
    ensures Served(t, call).requests == t.requests && Served(t, call).blocks == t.blocks
  {
    if call.SendCall? && MessageSent(t, call.caller, call.envelope).1.Ok? {
      AcceptedMessagePassed(t, call.caller, call.envelope);
    }
  }

  lemma ServedKeepsAccepted(t: Tables, call: Call, id: string)
    requires id in t.requests && t.requests[id].status == Accepted
    ensures id in Served(t, call).requests && Served(t, call).requests[id] == t.requests[id]
  {
    match call {
      case RequestCall(caller, username, freshId) =>
        if FriendRequested(t, caller, username, freshId).1.Ok? {
          SentRequest(t, caller, username, freshId);
        }
      case HandleCall(caller, requestId, action, freshId) =>
        if RequestHandled(t, caller, requestId, action, freshId).1.Ok? {
          HandledRequest(t, caller, requestId, action, freshId);
        }
      case UsersCall(_) =>
      case RemoveCall(_, _) =>
      case BlockCall(_, _) =>
      case _ => MessagingLeavesRequests(t, call);
    }
  }

  /** ACCEPTED is absorbing: the row never changes again. */
  lemma {:induction false} AcceptedIsForever(t: Tables, calls: seq<Call>, id: string)
    requires id in t.requests && t.requests[id].status == Accepted
    ensures id in After(t, calls).requests && After(t, calls).requests[id] == t.requests[id]
  {
    if calls != [] {
      AcceptedIsForever(t, calls[..|calls| - 1], id);
      ServedKeepsAccepted(After(t, calls[..|calls| - 1]), calls[|calls| - 1], id);
    }
  }

  /** A friendship can only come about through a pending request between the two. */
  lemma NewFriendsHadAPendingRequest(t: Tables, call: Call, x: string, y: string)
    requires !AreFriends(t, x, y) && AreFriends(Served(t, call), x, y)
    ensures PendingFrom(t, x, y) || PendingFrom(t, y, x)
  {
    if call.HandleCall? && RequestHandled(t, call.caller, call.requestId, call.action, call.freshId).1.Ok? {
      HandledRequest(t, call.caller, call.requestId, call.action, call.freshId);
      if call.action == Accept {
        AcceptedRequestMakesFriends(t, call.caller, call.requestId, call.freshId);
        var req := t.requests[call.requestId];
        OrderedIdentifiesThePair(x, y, req.senderId, req.recipientId);
        assert RequestFrom(t.requests, call.requestId, req.senderId, req.recipientId);
      }
    }
  }

  /** No request of x to y was ever accepted, and y has not blocked x: nothing that lasts is in the way. */
  ghost predicate CanAsk(t: Tables, x: string, y: string)
  {
    !AcceptedRequest(t.requests, x, y) && (y, x) !in t.blocks
  }

  lemma {:induction false} BlocksAreForever(t: Tables, calls: seq<Call>)
    ensures t.blocks <= After(t, calls).blocks
  {
    if calls != [] {
      BlocksAreForever(t, calls[..|calls| - 1]);
      ServedKeepsBlocks(After(t, calls[..|calls| - 1]), calls[|calls| - 1]);
    }
  }

  lemma ServedKeepsBlocks(t: Tables, call: Call)
    ensures t.blocks <= Served(t, call).blocks
  {
    if !IsSocial(call) {
      MessagingLeavesRequests(t, call);
    }
    if call.RequestCall? && FriendRequested(t, call.caller, call.username, call.freshId).1.Ok? {
      SentRequest(t, call.caller, call.username, call.freshId);
    }
    if call.HandleCall? && RequestHandled(t, call.caller, call.requestId, call.action, call.freshId).1.Ok? {
      HandledRequest(t, call.caller, call.requestId, call.action, call.freshId);
    }
  }

  lemma NeverPendingAgain(t: Tables, calls: seq<Call>, x: string, y: string)
    requires ServerInv(t) && !CanAsk(t, x, y)
    ensures !PendingFrom(After(t, calls), x, y)
  {
    InvHoldsThroughout(t, calls);
    if AcceptedRequest(t.requests, x, y) {
      AcceptedLeavesNothingPending(t, calls, x, y);
    } else {
      BlocksAreForever(t, calls);
    }
  }

  /** Once neither of two who are not friends can ask the other, no run of calls makes them friends. */
  lemma {:induction false} SpentPairStaysApart(t: Tables, calls: seq<Call>, x: string, y: string)
    requires ServerInv(t) && !AreFriends(t, x, y) && !CanAsk(t, x, y) && !CanAsk(t, y, x)
    ensures !AreFriends(After(t, calls), x, y)
  {
    if calls != [] {
      SpentPairStaysApart(t, calls[..|calls| - 1], x, y);
      NeverPendingAgain(t, calls[..|calls| - 1], x, y);
      NeverPendingAgain(t, calls[..|calls| - 1], y, x);
      if AreFriends(After(t, calls), x, y) {
        NewFriendsHadAPendingRequest(After(t, calls[..|calls| - 1]), calls[|calls| - 1], x, y);
      }
    }
  }

  lemma AfterOneMore(t: Tables, calls: seq<Call>, call: Call)
    ensures After(t, calls + [call]) == Served(After(t, calls), call)
  {
    assert (calls + [call])[..|calls|] == calls;
  }

  lemma AfterNone(t: Tables)
    ensures After(t, []) == t
  {
  }

  /** As long as a request can be made and nothing stands in its way, there is one pending afterwards. */
  lemma AskingLeavesAPendingRequest(t: Tables, x: string, y: string, name: string, freshId: string) returns (id: string)
    requires SocialInv(t) && x != y && !AreFriends(t, x, y) && CanAsk(t, x, y)
    requires name in t.users && t.users[name] == User(y, false) && freshId !in t.requests
    ensures
      var t' := FriendRequested(t, x, name, freshId).0;
      && RequestFrom(t'.requests, id, x, y) && t'.requests[id].status == Pending
      && t'.conversations == t.conversations
  {
    var (t', r) := FriendRequested(t, x, name, freshId);
    match RequestBetween(t.requests, x, y) {
      case Some(i) =>
        id := i;
        assert RequestFrom(t.requests, id, x, y);
      case None =>
        id := freshId;
    }
  }

  /** Registering, unless y is a user already, asking and accepting brings two together who can ask each other. */
  lemma AskingAndAcceptingMakesFriends(t: Tables, x: string, y: string) returns (calls: seq<Call>)
    requires ServerInv(t) && x != y && !AreFriends(t, x, y) && CanAsk(t, x, y)
    ensures AreFriends(After(t, calls), x, y)
  {
    var requestId := FreshString(t.requests.Keys);
    var conversationId := FreshString(t.conversations.Keys);
    var name := FreshString(t.users.Keys);
    if IsLiveUserId(t, y) {
      name :| name in t.users && t.users[name].id == y && !t.users[name].deleted;
    }
    var users, ask := UsersCall(t.users[name := User(y, false)]), RequestCall(x, name, requestId);
    var t1 := Served(t, users);
    var id := AskingLeavesAPendingRequest(t1, x, y, name, requestId);
    var accept := HandleCall(y, id, Accept, conversationId);
    calls := [] + [users] + [ask] + [accept];
    AfterNone(t);
    AfterOneMore(t, [], users);
    AfterOneMore(t, [] + [users], ask);
    AfterOneMore(t, [] + [users] + [ask], accept);
    var t2 := Served(t1, ask);
    assert conversationId !in t2.conversations;
    AcceptedRequestMakesFriends(t2, y, id, conversationId);
  }

  /** After these calls the two are friends. */
  ghost predicate Befriends(t: Tables, calls: seq<Call>, x: string, y: string)
  {
    AreFriends(After(t, calls), x, y)
  }

  /**
   Who can become friends again. For two people who are not friends, in any sound state, some run of
   calls makes them friends if and only if one of them can ask the other: has no accepted request to the
   other on record, and is not blocked by them.
   */
  lemma StrangersCanBefriendExactlyWhen(t: Tables, x: string, y: string)
    requires ServerInv(t) && x != y && !AreFriends(t, x, y)
    ensures (exists calls :: Befriends(t, calls, x, y)) <==> CanAsk(t, x, y) || CanAsk(t, y, x)
  {
    if CanAsk(t, x, y) {
      var calls := AskingAndAcceptingMakesFriends(t, x, y);
      assert Befriends(t, calls, x, y);
    } else if CanAsk(t, y, x) {
      OrderedIdentifiesThePair(x, y, y, x);
      var calls := AskingAndAcceptingMakesFriends(t, y, x);
      assert Befriends(t, calls, x, y);
    } else {
      forall calls
        ensures !Befriends(t, calls, x, y)
      {
        SpentPairStaysApart(t, calls, x, y);
      }
    }
  }

  /** Two users register, one asks, the other accepts. */
  const FRIENDS_RUN: seq<Call> :=
    [] + [UsersCall(map["ann" := User("a", false), "bob" := User("b", false)])]
    + [RequestCall("a", "bob", "r")] + [HandleCall("b", "r", Accept, "c")]

  lemma FriendsRunMakesFriends()
    ensures
      var t := After(EMPTY, FRIENDS_RUN);
      && t.users == map["ann" := User("a", false), "bob" := User("b", false)]
      && t.requests == map["r" := Request("a", "b", Accepted)]
      && AreFriends(t, "a", "b") && t.blocks == {} && t.messages == map[]
      && "c" in t.conversations && PairsOf(t.conversations)["c"] == Ordered("a", "b")
  {
    var users := UsersCall(map["ann" := User("a", false), "bob" := User("b", false)]);
    var ask, accept := RequestCall("a", "bob", "r"), HandleCall("b", "r", Accept, "c");
    AfterNone(EMPTY);
    AfterOneMore(EMPTY, [], users);
    AfterOneMore(EMPTY, [] + [users], ask);
    AfterOneMore(EMPTY, [] + [users] + [ask], accept);
    var t1 := Served(EMPTY, users);
    var t2 := Served(t1, ask);
    assert t2 == t1.(requests := map["r" := Request("a", "b", Pending)]) by {
      assert "a"[0] != "b"[0];
      assert t1.users["bob"] == User("b", false);
    }
    assert RequestHandled(t2, "b", "r", Accept, "c").1.Ok?;
    HandledRequest(t2, "b", "r", Accept, "c");
    AcceptedRequestMakesFriends(t2, "b", "r", "c");
  }

  /** Pairs that stay apart do come about: friends, of whom the one who had asked blocks the other. */
  lemma ASpentPairIsReachable()
    ensures
      var t := After(EMPTY, FRIENDS_RUN + [BlockCall("a", "b")]);
      !AreFriends(t, "a", "b") && !CanAsk(t, "a", "b") && !CanAsk(t, "b", "a")
  {
    FriendsRunMakesFriends();
    AfterOneMore(EMPTY, FRIENDS_RUN, BlockCall("a", "b"));
    var t := After(EMPTY, FRIENDS_RUN);
    assert "a"[0] != "b"[0];
    assert IsUserId(t, "b") by {
      assert t.users["bob"].id == "b";
    }
    BlockingSevers(t, "a", "b", "a", "b");
    assert RequestFrom(Served(t, BlockCall("a", "b")).requests, "r", "a", "b");
  }

  lemma AcceptedLeavesNothingPending(t: Tables, calls: seq<Call>, x: string, y: string)
    requires ServerInv(t) && AcceptedRequest(t.requests, x, y)
    ensures !PendingFrom(After(t, calls), x, y)
  {
    var id :| RequestFrom(t.requests, id, x, y) && t.requests[id].status == Accepted;
    AcceptedIsForever(t, calls, id);
    InvHoldsThroughout(t, calls);
    assert RequestFrom(After(t, calls).requests, id, x, y);
  }

  // ---------------------------------------------------------------- exactly when a call succeeds

  /** Blocking severs the two, and nobody else. */
  lemma BlockingSevers(t: Tables, caller: string, peer: string, x: string, y: string)
    requires UserBlocked(t, caller, peer).1.Ok?
    ensures
      var t' := UserBlocked(t, caller, peer).0;
      if {x, y} == {caller, peer}
      then (caller, peer) in t'.blocks && !AreFriends(t', x, y) && !PendingFrom(t', x, y)
      else
        && (AreFriends(t', x, y) <==> AreFriends(t, x, y))
        && (PendingFrom(t', x, y) <==> PendingFrom(t, x, y))
        && ((x, y) in t'.blocks <==> (x, y) in t.blocks)
  {
    OrderedIdentifiesThePair(x, y, caller, peer);
    var t' := UserBlocked(t, caller, peer).0;
    if {x, y} != {caller, peer} {
      assert x in {x, y} && y in {x, y};
      forall id
        ensures RequestFrom(t'.requests, id, x, y) <==> RequestFrom(t.requests, id, x, y)
        ensures RequestFrom(t.requests, id, x, y) ==> t'.requests[id] == t.requests[id]
      {
      }
    }
  }

  /** A message is accepted exactly if its sender sends it, in order, to a friend, in their conversation, once. */
  lemma MessagesAreAcceptedExactlyWhen(t: Tables, caller: string, e: Envelope)
    requires ServerInv(t)
    ensures
      var (t', r) := MessageSent(t, caller, e);
      && (r.Err? ==> t' == t)
      && (r.Ok? <==>
            && EnvelopeValid(e) && e.senderId == caller && AreFriends(t, caller, e.recipientId)
            && IsLiveUserId(t, e.recipientId)
            && e.conversationId in t.conversations
            && {t.conversations[e.conversationId].userA, t.conversations[e.conversationId].userB}
               == {e.senderId, e.recipientId}
            && e.id !in t.messages
            && forall id :: id in t.messages ==> !SameCounter(t.messages[id].envelope, e))
  {
    if e.conversationId in t.conversations {
      var c := t.conversations[e.conversationId];
      assert PairsOf(t.conversations)[e.conversationId] == (c.userA, c.userB);
      SameParticipants(c.userA, c.userB, e.senderId, e.recipientId);
    }
  }

  lemma SameParticipants(a: string, b: string, x: string, y: string)
    requires Ordered(a, b) == (a, b)
    ensures {a, b} == {x, y} && a != b <==> Ordered(x, y) == (a, b) && a != b
  {
    OrderedIdentifiesThePair(a, b, x, y);
    if {a, b} == {x, y} && a != b {
      assert a in {x, y} && b in {x, y} && x in {a, b} && y in {a, b};
    }
  }

  // ---------------------------------------------------------------- conversations and messages

  /** Friends always have exactly one conversation, so sending never fails for want of one. */
  lemma FriendsShareOneConversation(calls: seq<Call>, x: string, y: string)
    requires AreFriends(After(EMPTY, calls), x, y)
    ensures
      var pairs := PairsOf(After(EMPTY, calls).conversations);
      && ConversationOf(pairs, Ordered(x, y)).Some?
      && forall i, j :: i in pairs && j in pairs && pairs[i] == pairs[j] == Ordered(x, y) ==> i == j
    ensures forall caller, e :: MessageSent(After(EMPTY, calls), caller, e).1 != Err(NoConversation)
  {
    EveryReachableStateIsSound(calls);
    var t := After(EMPTY, calls);
    forall caller, e
      ensures MessageSent(t, caller, e).1 != Err(NoConversation)
    {
      FriendsHaveAConversation(t, caller, e);
    }
  }

  /** Whoever may page through a conversation is the sender or the recipient of each of its messages. */
  lemma FetchedMessagesAreOnesOwn(calls: seq<Call>, caller: string, conversationId: string, e: Envelope)
    requires Fetchable(After(EMPTY, calls), caller, conversationId).Ok?
    requires e in Fetchable(After(EMPTY, calls), caller, conversationId).value
    ensures e.conversationId == conversationId && e.senderId != e.recipientId
    ensures e.senderId == caller || e.recipientId == caller
    ensures
      var c := After(EMPTY, calls).conversations[conversationId];
      {e.senderId, e.recipientId} == {c.userA, c.userB}
  {
    EveryReachableStateIsSound(calls);
    var t := After(EMPTY, calls);
    var id :| id in t.messages && t.messages[id].envelope == e;
    assert EnvelopesOf(t.messages)[id] == e;
  }

  /** The replay constraint: a sender's counter names one message of a conversation. */
  lemma CountersNameMessages(calls: seq<Call>, i: string, j: string)
    requires i in After(EMPTY, calls).messages && j in After(EMPTY, calls).messages
    requires SameCounter(After(EMPTY, calls).messages[i].envelope, After(EMPTY, calls).messages[j].envelope)
    ensures i == j
  {
    EveryReachableStateIsSound(calls);
    var envelopes := EnvelopesOf(After(EMPTY, calls).messages);
    assert SameCounter(envelopes[i], envelopes[j]);
  }

  // ---------------------------------------------------------------- delivery marks

  lemma ServedKeepsMessage(t: Tables, call: Call, id: string)
    requires ServerInv(t) && id in t.messages
    ensures id in Served(t, call).messages && Served(t, call).messages[id].envelope == t.messages[id].envelope
    ensures t.messages[id].deliveredAt.Some? ==> Served(t, call).messages[id] == t.messages[id]
  {
    match call {
      case SendCall(caller, e) =>
        if MessageSent(t, caller, e).1.Ok? {
          AcceptedMessagePassed(t, caller, e);
        }
      case AckCall(caller, messageId, now) =>
      case ReadCall(caller, conversationId) =>
      case _ => SocialCallsLeaveMessages(t, call);
    }
  }

  /** A stored message stays as it was sent, and its delivery mark, once set, stays as it was set. */
  lemma {:induction false} MessagesAreForever(t: Tables, calls: seq<Call>, id: string)
    requires ServerInv(t) && id in t.messages
    ensures id in After(t, calls).messages && After(t, calls).messages[id].envelope == t.messages[id].envelope
    ensures t.messages[id].deliveredAt.Some? ==> After(t, calls).messages[id] == t.messages[id]
  {
    if calls != [] {
      MessagesAreForever(t, calls[..|calls| - 1], id);
      InvHoldsThroughout(t, calls[..|calls| - 1]);
      ServedKeepsMessage(After(t, calls[..|calls| - 1]), calls[|calls| - 1], id);
    }
  }

  /** The sender of a message is told of its delivery at most once. */
  lemma SenderIsToldOnce(t: Tables, calls: seq<Call>, id: string, actor: string, now: int, actor': string, now': int)
    requires ServerInv(t) && AckMarked(t, id, actor, now).1.AckDelivered?
    ensures !AckMarked(After(AckMarked(t, id, actor, now).0, calls), id, actor', now').1.AckDelivered?
  {
    AckKeepsInv(t, id, actor, now);
    MessagesAreForever(AckMarked(t, id, actor, now).0, calls, id);
  }

  // ---------------------------------------------------------------- unread counts

  /** How one call moves the number of messages waiting for a user in a conversation. */
  ghost function CountAfter(t: Tables, call: Call, count: int, conversationId: string, user: string): int
  {
    match call
    case SendCall(caller, e) =>
      if MessageSent(t, caller, e).1.Ok? && e.conversationId == conversationId && e.recipientId == user
      then count + 1 else count
    case ReadCall(caller, id) => if caller == user && id == conversationId then 0 else count
    case _ => count
  }

  /** Messages to the user accepted in the conversation since the user last marked it read. */
  ghost function UnreadSince(calls: seq<Call>, conversationId: string, user: string): int
  {
    if calls == [] then 0
    else
      var init := calls[..|calls| - 1];
      CountAfter(After(EMPTY, init), calls[|calls| - 1], UnreadSince(init, conversationId, user), conversationId, user)
  }

  /** The two counters of a conversation are the counts of its two participants. */
  ghost predicate CountsAgree(t: Tables, conversationId: string, count: string -> int)
  {
    if conversationId in t.conversations then
      var c := t.conversations[conversationId];
      c.unreadA == count(c.userA) && c.unreadB == count(c.userB)
    else forall user :: count(user) == 0
  }

  lemma SendCounts(t: Tables, caller: string, e: Envelope, id: string, count: string -> int, count': string -> int)
    requires ServerInv(t) && CountsAgree(t, id, count)
    requires forall user :: count'(user) == CountAfter(t, SendCall(caller, e), count(user), id, user)
    ensures CountsAgree(MessageSent(t, caller, e).0, id, count')
  {
    if MessageSent(t, caller, e).1.Ok? {
      AcceptedMessagePassed(t, caller, e);
      FriendsAreTwo(t.friendships, t.blocks, t.requests, e.senderId, e.recipientId);
      var pair := Ordered(e.senderId, e.recipientId);
      assert pair.0 != pair.1 && (e.recipientId == pair.0 || e.recipientId == pair.1);
    }
  }

  lemma ReadCounts(t: Tables, caller: string, read: string, id: string, count: string -> int, count': string -> int)
    requires ServerInv(t) && CountsAgree(t, id, count)
    requires forall user :: count'(user) == CountAfter(t, ReadCall(caller, read), count(user), id, user)
    ensures CountsAgree(ReadMarked(t, caller, read).0, id, count')
  {
    assert id in t.conversations ==> PairsOf(t.conversations)[id].0 != PairsOf(t.conversations)[id].1;
  }

  lemma OtherCallsCount(t: Tables, call: Call, id: string, count: string -> int)
    requires CountsAgree(t, id, count) && !call.SendCall? && !call.ReadCall?
    ensures CountsAgree(Served(t, call), id, count)
  {
    if IsSocial(call) {
      SocialCallsLeaveMessages(t, call);
    }
  }

  /**
   Conservation of unread counts: in every reachable state each participant's count is the number of
   messages accepted for them since they last marked the conversation read, on either side of the
   pair; refused and repeated sends count for nothing.
   */
  lemma {:induction false} UnreadCountsAreConserved(calls: seq<Call>, id: string)
    ensures CountsAgree(After(EMPTY, calls), id, user => UnreadSince(calls, id, user))
  {
    if calls != [] {
      var init, last := calls[..|calls| - 1], calls[|calls| - 1];
      UnreadCountsAreConserved(init, id);
      EveryReachableStateIsSound(init);
      var t := After(EMPTY, init);
      var count, count' := (user => UnreadSince(init, id, user)), (user => UnreadSince(calls, id, user));
      match last {
        case SendCall(caller, e) => SendCounts(t, caller, e, id, count, count');
        case ReadCall(caller, read) => ReadCounts(t, caller, read, id, count, count');
        case _ =>
          OtherCallsCount(t, last, id, count);
          assert forall user :: count'(user) == count(user);
      }
    }
  }
}
