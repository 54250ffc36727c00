/**
 What each call to the server changes, and whose call it has to be: every change of a friendship, a block, a
 request, a conversation or a delivery mark, in both directions.
 */
module Transitions {
  import opened Common
  import opened Protocol
  import opened Tables
  import opened Friends
  import opened Messages
  import opened Server

  // ---------------------------------------------------------------- calls that mean something

  /** y accepts the pending request that x made. */
  ghost predicate Accepts(t: Tables, call: Call, x: string, y: string)
  {
    && call.HandleCall? && call.action == Accept && call.caller == y
    && RequestFrom(t.requests, call.requestId, x, y) && t.requests[call.requestId].status == Pending
    && (call.freshId in t.conversations ==> ConversationOf(PairsOf(t.conversations), Ordered(x, y)).Some?)
  }

  /** x blocks y, who is a user. */
  ghost predicate Blocks(t: Tables, call: Call, x: string, y: string)
  {
    call == BlockCall(x, y) && x != y && exists name :: name in t.users && t.users[name].id == y
  }

  /** x asks y, who is a live user and has not blocked them, and nothing between the two is open or granted. */
  ghost predicate Asks(t: Tables, call: Call, x: string, y: string)
  {
    && call.RequestCall? && call.caller == x && call.username in t.users
    && t.users[call.username].id == y && !t.users[call.username].deleted
    && x != y && (y, x) !in t.blocks && Ordered(x, y) !in t.friendships
    && !PendingFrom(t, x, y) && !AcceptedRequest(t.requests, x, y)
    && (call.freshId in t.requests ==> exists id :: RequestFrom(t.requests, id, x, y))
  }

  // ---------------------------------------------------------------- friendships and blocks

  lemma FriendshipAfterAnAnswer(t: Tables, call: Call, x: string, y: string)
    requires call.HandleCall?
    ensures AreFriends(Served(t, call), x, y)
        <==> AreFriends(t, x, y) || Accepts(t, call, x, y) || Accepts(t, call, y, x)
  {
    OrderedIdentifiesThePair(x, y, y, x);
    if call.requestId in t.requests {
      var req := t.requests[call.requestId];
      OrderedIdentifiesThePair(x, y, req.senderId, req.recipientId);
    }
  }

  lemma FriendshipAfterParting(t: Tables, call: Call, x: string, y: string)
    requires call.RemoveCall? || call.BlockCall?
    ensures AreFriends(Served(t, call), x, y)
        <==> AreFriends(t, x, y)
             && call != RemoveCall(x, y) && call != RemoveCall(y, x) && !Blocks(t, call, x, y) && !Blocks(t, call, y, x)
  {
    OrderedIdentifiesThePair(x, y, call.caller, call.peer);
  }

  lemma OtherCallsLeaveFriendships(t: Tables, call: Call)
    requires !call.HandleCall? && !call.RemoveCall? && !call.BlockCall?
    ensures Served(t, call).friendships == t.friendships
  {
    if !IsSocial(call) {
      MessagingLeavesTheGraph(t, call);
    }
  }

  /** Two who were not friends become friends exactly if one accepts the other's pending request. */
  lemma FriendshipBeginsExactlyWhen(t: Tables, call: Call, x: string, y: string)
    requires !AreFriends(t, x, y)
    ensures AreFriends(Served(t, call), x, y) <==> Accepts(t, call, x, y) || Accepts(t, call, y, x)
  {
    match call {
      case HandleCall(_, _, _, _) => FriendshipAfterAnAnswer(t, call, x, y);
      case RemoveCall(_, _) => FriendshipAfterParting(t, call, x, y);
      case BlockCall(_, _) => FriendshipAfterParting(t, call, x, y);
      case _ => OtherCallsLeaveFriendships(t, call);
    }
  }

  /** Friends cease to be friends exactly if one removes or blocks the other. */
  lemma FriendshipEndsExactlyWhen(t: Tables, call: Call, x: string, y: string)
    requires AreFriends(t, x, y)
    ensures !AreFriends(Served(t, call), x, y)
        <==> call == RemoveCall(x, y) || call == RemoveCall(y, x) || Blocks(t, call, x, y) || Blocks(t, call, y, x)
  {
    match call {
      case HandleCall(_, _, _, _) => FriendshipAfterAnAnswer(t, call, x, y);
      case RemoveCall(_, _) => FriendshipAfterParting(t, call, x, y);
      case BlockCall(_, _) => FriendshipAfterParting(t, call, x, y);
      case _ => OtherCallsLeaveFriendships(t, call);
    }
  }

  /** A block is set by its blocker's call alone, and stays. */
  lemma BlockBeginsExactlyWhen(t: Tables, call: Call, x: string, y: string)
    ensures (x, y) in Served(t, call).blocks <==> (x, y) in t.blocks || Blocks(t, call, x, y)
  {
    if !IsSocial(call) {
      MessagingLeavesTheGraph(t, call);
    }
  }

  lemma MessagingLeavesTheGraph(t: Tables, call: Call)
    requires !IsSocial(call)
    ensures
      var t' := Served(t, call);
      && t'.requests == t.requests && t'.blocks == t.blocks && t'.friendships == t.friendships && t'.users == t.users
      && PairsOf(t'.conversations) == PairsOf(t.conversations)
  {
    match call {
      case SendCall(caller, e) => SendingLeavesTheGraph(t, caller, e);
      case AckCall(caller, id, now) =>
      case ReadCall(caller, id) => ReadKeepsPairs(t, caller, id);
    }
  }

  lemma SendingLeavesTheGraph(t: Tables, caller: string, e: Envelope)
    ensures
      var t' := MessageSent(t, caller, e).0;
      && t'.requests == t.requests && t'.blocks == t.blocks && t'.friendships == t.friendships && t'.users == t.users
      && PairsOf(t'.conversations) == PairsOf(t.conversations)
  {
    if MessageSent(t, caller, e).1.Ok? {
      AcceptedMessagePassed(t, caller, e);
      StoringAddsOneEnvelope(t, e);
    } else {
      RefusedMessageLeavesTables(t, caller, e);
    }
  }

  // ---------------------------------------------------------------- requests

  /** Calls other than these leave requests alone. */
  lemma OtherCallsLeaveRequests(t: Tables, call: Call)
    requires !call.RequestCall? && !call.HandleCall? && !call.BlockCall?
    ensures Served(t, call).requests == t.requests
  {
    if !IsSocial(call) {
      MessagingLeavesTheGraph(t, call);
    }
  }

  /** A pending row stays pending when somebody asks. */
  lemma AskingLeavesPendingRows(t: Tables, call: Call, id: string)
    requires call.RequestCall? && id in t.requests && t.requests[id].status == Pending
    ensures id in Served(t, call).requests && Served(t, call).requests[id] == t.requests[id]
  {
    if FriendRequested(t, call.caller, call.username, call.freshId).1.Ok? {
      SentRequest(t, call.caller, call.username, call.freshId);
    }
  }

  /** What an answer does to a pending row. */
  lemma AnswerChangesPendingRow(t: Tables, call: Call, id: string)
    requires call.HandleCall? && id in t.requests && t.requests[id].status == Pending
    ensures id in Served(t, call).requests
    ensures
      var req := t.requests[id];
      Served(t, call).requests[id]
      == if call.requestId != id then req
         else if Accepts(t, call, req.senderId, req.recipientId) then req.(status := Accepted)
         else if call.action == Decline && call.caller == req.recipientId then req.(status := Declined)
         else if call.action == Cancel && call.caller == req.senderId then req.(status := Cancelled)
         else req
  {
  }

  /** What a block does to a row. */
  lemma BlockChangesRow(t: Tables, call: Call, id: string)
    requires call.BlockCall? && id in t.requests
    ensures id in Served(t, call).requests
    ensures
      var req := t.requests[id];
      Served(t, call).requests[id]
      == if req.status == Pending
            && (Blocks(t, call, req.senderId, req.recipientId) || Blocks(t, call, req.recipientId, req.senderId))
         then req.(status := Cancelled) else req
  {
  }

  /** A pending row is answered by its recipient, or taken back by its sender, or cancelled by a block. */
  lemma PendingRowChangesExactlyWhen(t: Tables, call: Call, id: string)
    requires id in t.requests && t.requests[id].status == Pending
    ensures id in Served(t, call).requests
    ensures
      var req := t.requests[id];
      var x, y := req.senderId, req.recipientId;
      var req' := Served(t, call).requests[id];
      && req'.senderId == x && req'.recipientId == y
      && (req'.status == Accepted <==> Accepts(t, call, x, y) && call.requestId == id)
      && (req'.status == Declined <==>
            call.HandleCall? && call.action == Decline && call.caller == y && call.requestId == id)
      && (req'.status == Cancelled <==>
            (call.HandleCall? && call.action == Cancel && call.caller == x && call.requestId == id)
            || Blocks(t, call, x, y) || Blocks(t, call, y, x))
  {
    match call {
      case RequestCall(_, _, _) => AskingLeavesPendingRows(t, call, id);
      case HandleCall(_, _, _, _) => AnswerChangesPendingRow(t, call, id);
      case BlockCall(_, _) => BlockChangesRow(t, call, id);
      case _ => OtherCallsLeaveRequests(t, call);
    }
  }

  lemma AskingChangesSettledRow(t: Tables, call: Call, id: string)
    requires RequestsSound(t.requests, t.blocks) && call.RequestCall?
    requires id in t.requests && t.requests[id].status != Pending
    ensures id in Served(t, call).requests
    ensures
      var req := t.requests[id];
      Served(t, call).requests[id]
      == if Asks(t, call, req.senderId, req.recipientId) then req.(status := Pending) else req
  {
    var req := t.requests[id];
    assert RequestFrom(t.requests, id, req.senderId, req.recipientId);
    if FriendRequested(t, call.caller, call.username, call.freshId).1.Ok? {
      SentRequest(t, call.caller, call.username, call.freshId);
    }
  }

  /** A row that is not pending is left alone, unless its sender asks again after it was declined or cancelled. */
  lemma SettledRowChangesExactlyWhen(t: Tables, call: Call, id: string)
    requires ServerInv(t) && id in t.requests && t.requests[id].status != Pending
    ensures id in Served(t, call).requests
    ensures
      var req := t.requests[id];
      Served(t, call).requests[id]
      == if Asks(t, call, req.senderId, req.recipientId) then req.(status := Pending) else req
  {
    match call {
      case RequestCall(_, _, _) => AskingChangesSettledRow(t, call, id);
      case HandleCall(_, _, _, _) =>
      case BlockCall(_, _) => BlockChangesRow(t, call, id);
      case _ => OtherCallsLeaveRequests(t, call);
    }
  }

  lemma AskedRowIsNew(t: Tables, call: Call, id: string)
    requires RequestsSound(t.requests, t.blocks) && call.RequestCall?
    requires id !in t.requests && id in Served(t, call).requests
    ensures
      var req := Served(t, call).requests[id];
      req.status == Pending && Asks(t, call, req.senderId, req.recipientId) && id == call.freshId
  {
    SentRequest(t, call.caller, call.username, call.freshId);
  }

  lemma OnlyAskingAddsRows(t: Tables, call: Call)
    requires !call.RequestCall?
    ensures Served(t, call).requests.Keys == t.requests.Keys
  {
    if !call.HandleCall? && !call.BlockCall? {
      OtherCallsLeaveRequests(t, call);
    }
  }

  /** A new row is a pending request that its sender makes, under the identifier drawn. */
  lemma NewRowIsAsked(t: Tables, call: Call, id: string)
    requires ServerInv(t) && id !in t.requests && id in Served(t, call).requests
    ensures call.RequestCall?
    ensures
      var req := Served(t, call).requests[id];
      req.status == Pending && Asks(t, call, req.senderId, req.recipientId) && id == call.freshId
  {
    if call.RequestCall? {
      AskedRowIsNew(t, call, id);
    } else {
      OnlyAskingAddsRows(t, call);
    }
  }

  /** A request from x to y becomes pending exactly if x asks y. */
  lemma RequestBeginsExactlyWhen(t: Tables, call: Call, x: string, y: string)
    requires ServerInv(t) && !PendingFrom(t, x, y)
    ensures PendingFrom(Served(t, call), x, y) <==> Asks(t, call, x, y)
  {
    if Asks(t, call, x, y) {
      AskingMakesItPending(t, call, x, y);
    } else {
      forall id
        ensures !(RequestFrom(Served(t, call).requests, id, x, y) && Served(t, call).requests[id].status == Pending)
      {
        if id in t.requests && t.requests[id].status == Pending {
          PendingRowChangesExactlyWhen(t, call, id);
        } else if id in t.requests {
          SettledRowChangesExactlyWhen(t, call, id);
        } else if id in Served(t, call).requests {
          NewRowIsAsked(t, call, id);
        }
      }
    }
  }

  lemma AskingMakesItPending(t: Tables, call: Call, x: string, y: string)
    requires ServerInv(t) && Asks(t, call, x, y)
    ensures PendingFrom(Served(t, call), x, y)
  {
    var t' := Served(t, call);
    if id :| RequestFrom(t.requests, id, x, y) {
      SettledRowChangesExactlyWhen(t, call, id);
      assert RequestFrom(t'.requests, id, x, y) && t'.requests[id].status == Pending;
    } else {
      assert RequestFrom(t'.requests, call.freshId, x, y) && t'.requests[call.freshId].status == Pending;
    }
  }

  // ---------------------------------------------------------------- conversations and users

  /** A conversation begins, empty, with the first friendship of its two; none ends or changes hands. */
  lemma ConversationBeginsExactlyWhen(t: Tables, call: Call, x: string, y: string)
    requires ServerInv(t) && ConversationOf(PairsOf(t.conversations), Ordered(x, y)).None?
    ensures ConversationOf(PairsOf(Served(t, call).conversations), Ordered(x, y)).Some?
        <==> Accepts(t, call, x, y) || Accepts(t, call, y, x)
  {
    OrderedIdentifiesThePair(x, y, y, x);
    if !IsSocial(call) {
      MessagingLeavesTheGraph(t, call);
    } else if call.HandleCall? && RequestHandled(t, call.caller, call.requestId, call.action, call.freshId).1.Ok? {
      AnswerBeginsConversation(t, call, x, y);
    }
  }

  lemma AnswerBeginsConversation(t: Tables, call: Call, x: string, y: string)
    requires ServerInv(t) && ConversationOf(PairsOf(t.conversations), Ordered(x, y)).None?
    requires call.HandleCall? && RequestHandled(t, call.caller, call.requestId, call.action, call.freshId).1.Ok?
    ensures ConversationOf(PairsOf(Served(t, call).conversations), Ordered(x, y)).Some?
        <==> Accepts(t, call, x, y) || Accepts(t, call, y, x)
  {
    HandledRequest(t, call.caller, call.requestId, call.action, call.freshId);
    var req := t.requests[call.requestId];
    OrderedIdentifiesThePair(x, y, req.senderId, req.recipientId);
    OrderedIdentifiesThePair(x, y, y, x);
    if call.action == Accept {
      AcceptedRequestMakesFriends(t, call.caller, call.requestId, call.freshId);
      var pairs, pairs' := PairsOf(t.conversations), PairsOf(Served(t, call).conversations);
      if ConversationOf(pairs, Ordered(req.senderId, req.recipientId)).None? {
        assert pairs'[call.freshId] == Ordered(req.senderId, req.recipientId);
      }
    }
  }

  /** Accounts change in no call of this model but the one that stands for their changes. */
  lemma UsersStay(t: Tables, call: Call)
    requires !call.UsersCall?
    ensures Served(t, call).users == t.users
  {
    if !IsSocial(call) {
      MessagingLeavesTheGraph(t, call);
    }
  }

  // ---------------------------------------------------------------- answers

  function PendingIds(t: Tables): set<string>
  {
    set id | id in t.requests && t.requests[id].status == Pending
  }

  /** A request is answered with success exactly if it makes a pending one, whose identifier is the answer. */
  lemma RequestIsAnsweredExactlyWhen(t: Tables, call: Call)
    requires ServerInv(t) && call.RequestCall?
    ensures
      var r := FriendRequested(t, call.caller, call.username, call.freshId).1;
      && (r.Ok? <==> exists y :: Asks(t, call, call.caller, y))
      && (r.Ok? ==> r.value in Served(t, call).requests && r.value !in PendingIds(t)
                    && r.value in PendingIds(Served(t, call)))
  {
    var r := FriendRequested(t, call.caller, call.username, call.freshId).1;
    if r.Ok? {
      SentRequest(t, call.caller, call.username, call.freshId);
      assert Asks(t, call, call.caller, t.users[call.username].id);
    }
  }

  /** An answer is accepted exactly if it settles the request. */
  lemma AnswerIsAnsweredExactlyWhen(t: Tables, caller: string, requestId: string, action: Action, freshId: string)
    ensures
      var (t', r) := RequestHandled(t, caller, requestId, action, freshId);
      r.Ok? <==> requestId in PendingIds(t) && requestId !in PendingIds(t')
  {
  }

  lemma BlockIsAnsweredExactlyWhen(t: Tables, caller: string, peer: string)
    ensures
      var (t', r) := UserBlocked(t, caller, peer);
      && (r.Ok? <==> Blocks(t, BlockCall(caller, peer), caller, peer))
      && (r.Err? ==> t' == t && r.error == if peer == caller then CannotBlockYourself else ConstraintViolated)
  {
  }

  // ---------------------------------------------------------------- refusals

  /** Refused exactly for the first hindrance in this order, and without effect. */
  predicate RefusedForTheFirst<R>(
    order: seq<HttpError>, hinders: HttpError -> bool, t: Tables, t': Tables, r: Result<R, HttpError>)
  {
    && (r.Err? ==> t' == t && r.error in order && hinders(r.error))
    && (forall k :: 0 <= k < |order| && hinders(order[k]) ==> r.Err? && r.error in order[..k + 1])
  }

  /** What stands in the way of a friend request, in the order in which it is looked for. */
  const REQUEST_ORDER: seq<HttpError> :=
    [UserNotFound, CannotAddYourself, ActionNotAllowed, AlreadyFriends, RequestAlreadyOpen, ConstraintViolated]

  ghost predicate HindersRequest(t: Tables, caller: string, username: string, freshId: string, error: HttpError)
  {
    if username !in t.users then error == UserNotFound
    else
      var peer := t.users[username].id;
      match error
      case UserNotFound => t.users[username].deleted
      case CannotAddYourself => peer == caller
      case ActionNotAllowed => (peer, caller) in t.blocks
      case AlreadyFriends => AreFriends(t, caller, peer)
      case RequestAlreadyOpen => PendingFrom(t, caller, peer) || AcceptedRequest(t.requests, caller, peer)
      case ConstraintViolated => freshId in t.requests && forall id :: !RequestFrom(t.requests, id, caller, peer)
      case _ => false
  }

  /** A friend request is refused exactly if something stands in its way, and for the first thing that does. */
  lemma RequestIsRefusedForTheFirst(t: Tables, caller: string, username: string, freshId: string)
    requires ServerInv(t)
    ensures
      var (t', r) := FriendRequested(t, caller, username, freshId);
      RefusedForTheFirst(REQUEST_ORDER, error => HindersRequest(t, caller, username, freshId, error), t, t', r)
  {
  }

  /** The same for an answer to a request. */
  const ANSWER_ORDER: seq<HttpError> :=
    [RequestNotFound, RequestNotPending, OnlySenderCancels, OnlyRecipientAnswers, ConstraintViolated]

  ghost predicate HindersAnswer(
    t: Tables, caller: string, requestId: string, action: Action, freshId: string, error: HttpError)
  {
    if requestId !in t.requests then error == RequestNotFound
    else
      var req := t.requests[requestId];
      match error
      case RequestNotPending => req.status != Pending
      case OnlySenderCancels => action == Cancel && req.senderId != caller
      case OnlyRecipientAnswers => action != Cancel && req.recipientId != caller
      case ConstraintViolated =>
        action == Accept && freshId in t.conversations
        && ConversationOf(PairsOf(t.conversations), Ordered(req.senderId, req.recipientId)).None?
      case _ => false
  }

  lemma AnswerIsRefusedForTheFirst(t: Tables, caller: string, requestId: string, action: Action, freshId: string)
    ensures
      var (t', r) := RequestHandled(t, caller, requestId, action, freshId);
      RefusedForTheFirst(
        ANSWER_ORDER, error => HindersAnswer(t, caller, requestId, action, freshId, error), t, t', r)
  {
  }

  /** The same for a message. */
  const MESSAGE_ORDER: seq<HttpError> :=
    [InvalidEnvelope, SenderMismatch, NotFriends, RecipientNotFound, NoConversation, ConversationMismatch,
     DuplicateReplay, ConstraintViolated]

  ghost predicate HindersMessage(t: Tables, caller: string, e: Envelope, error: HttpError)
  {
    match error
    case InvalidEnvelope => !EnvelopeValid(e)
    case SenderMismatch => e.senderId != caller
    case NotFriends => !AreFriends(t, e.senderId, e.recipientId)
    case RecipientNotFound => forall name :: name in t.users && t.users[name].id == e.recipientId ==>
                                t.users[name].deleted
    case NoConversation => ConversationOf(PairsOf(t.conversations), Ordered(e.senderId, e.recipientId)).None?
    case ConversationMismatch =>
      ConversationOf(PairsOf(t.conversations), Ordered(e.senderId, e.recipientId)) != Some(e.conversationId)
    case DuplicateReplay =>
      exists id :: id in t.messages && t.messages[id].envelope.conversationId == e.conversationId
                   && t.messages[id].envelope.senderId == e.senderId && t.messages[id].envelope.counter == e.counter
    case ConstraintViolated => e.id in t.messages
    case _ => false
  }

  lemma MessageIsRefusedForTheFirst(t: Tables, caller: string, e: Envelope)
    ensures
      var (t', r) := MessageSent(t, caller, e);
      RefusedForTheFirst(MESSAGE_ORDER, error => HindersMessage(t, caller, e, error), t, t', r)
  {
    if MessageSent(t, caller, e).1.Err? {
      MessageRefusalIsTrue(t, caller, e);
    }
    forall k | 0 <= k < |MESSAGE_ORDER| && HindersMessage(t, caller, e, MESSAGE_ORDER[k])
      ensures MessageSent(t, caller, e).1.Err? && MessageSent(t, caller, e).1.error in MESSAGE_ORDER[..k + 1]
    {
      HindranceRefuses(t, caller, e, k);
    }
  }

  lemma MessageRefusalIsTrue(t: Tables, caller: string, e: Envelope)
    requires MessageSent(t, caller, e).1.Err?
    ensures
      var (t', r) := MessageSent(t, caller, e);
      t' == t && r.error in MESSAGE_ORDER && HindersMessage(t, caller, e, r.error)
  {
  }

  lemma HindranceRefuses(t: Tables, caller: string, e: Envelope, k: nat)
    requires k < |MESSAGE_ORDER| && HindersMessage(t, caller, e, MESSAGE_ORDER[k])
    ensures MessageSent(t, caller, e).1.Err? && MessageSent(t, caller, e).1.error in MESSAGE_ORDER[..k + 1]
  {
    forall j: nat | j <= k
      ensures MESSAGE_ORDER[j] in MESSAGE_ORDER[..k + 1]
    {
      assert MESSAGE_ORDER[..k + 1][j] == MESSAGE_ORDER[j];
    }
    assert MESSAGE_ORDER == [MESSAGE_ORDER[0], MESSAGE_ORDER[1], MESSAGE_ORDER[2], MESSAGE_ORDER[3],
                             MESSAGE_ORDER[4], MESSAGE_ORDER[5], MESSAGE_ORDER[6], MESSAGE_ORDER[7]];
  }

  // ---------------------------------------------------------------- messages

  /** Sending adds one unmarked message under a new identifier, or nothing. */
  lemma SendingAddsOneMessage(t: Tables, caller: string, e: Envelope)
    ensures
      var (t', r) := MessageSent(t, caller, e);
      && t'.messages == (if r.Ok? then t.messages[e.id := Message(e, None)] else t.messages)
      && (r.Ok? ==> e.id !in t.messages)
  {
    if MessageSent(t, caller, e).1.Ok? {
      AcceptedMessagePassed(t, caller, e);
    } else {
      RefusedMessageLeavesTables(t, caller, e);
    }
  }

  /** A message appears exactly by being sent, as it was sent and unmarked. */
  lemma MessageAppearsExactlyWhen(t: Tables, call: Call, id: string)
    requires ServerInv(t) && id !in t.messages
    ensures id in Served(t, call).messages
        <==> call.SendCall? && call.envelope.id == id && MessageSent(t, call.caller, call.envelope).1.Ok?
    ensures id in Served(t, call).messages ==> Served(t, call).messages[id] == Message(call.envelope, None)
  {
    match call {
      case SendCall(caller, e) => SendingAddsOneMessage(t, caller, e);
      case AckCall(caller, i, now) =>
      case ReadCall(caller, i) => ReadKeepsPairs(t, caller, i);
      case _ => SocialCallsLeaveMessages(t, call);
    }
  }

  /** A message is marked delivered exactly by its recipient's first acknowledgement, with the time of that. */
  lemma MarkIsSetExactlyWhen(t: Tables, call: Call, id: string)
    requires ServerInv(t) && id in t.messages
    ensures id in Served(t, call).messages
    ensures
      var m := t.messages[id];
      Served(t, call).messages[id]
      == if call.AckCall? && call.messageId == id && call.caller == m.envelope.recipientId && m.deliveredAt.None?
         then m.(deliveredAt := Some(call.now)) else m
  {
    match call {
      case SendCall(caller, e) => SendingAddsOneMessage(t, caller, e);
      case AckCall(caller, i, now) =>
      case ReadCall(caller, i) => ReadKeepsPairs(t, caller, i);
      case _ => SocialCallsLeaveMessages(t, call);
    }
  }

  /** An acknowledgement is announced, to the sender, exactly if it sets the mark. */
  lemma AckIsAnnouncedExactlyWhen(t: Tables, id: string, actor: string, now: int, who: string)
    requires ServerInv(t)
    ensures AckMarked(t, id, actor, now).1 == AckDelivered(who)
        <==> id in t.messages && t.messages[id].envelope.senderId == who && t.messages[id].deliveredAt.None?
             && id in AckMarked(t, id, actor, now).0.messages
             && AckMarked(t, id, actor, now).0.messages[id].deliveredAt.Some?
    ensures AckMarked(t, id, actor, now).1 == AckNotFound <==> id !in t.messages
    ensures AckMarked(t, id, actor, now).1 == AckNotRecipient
        <==> id in t.messages && t.messages[id].envelope.recipientId != actor
  {
  }

  /** Marking read is refused exactly to those who take no part in the conversation. */
  lemma ReadIsAnsweredExactlyWhen(t: Tables, caller: string, id: string)
    ensures
      var (t', r) := ReadMarked(t, caller, id);
      && (r.Ok? <==> id in t.conversations && caller in {t.conversations[id].userA, t.conversations[id].userB})
      && (r.Err? ==> t' == t && r.error == NotParticipant)
  {
  }

  /** Paging through a conversation shows its two participants all that was ever sent between them. */
  lemma FetchableIsAllBetweenTheTwo(t: Tables, caller: string, id: string, e: Envelope)
    requires ServerInv(t)
    ensures
      var r := Fetchable(t, caller, id);
      && (r.Ok? <==> id in t.conversations && caller in {t.conversations[id].userA, t.conversations[id].userB})
      && (r.Ok? ==>
            (e in r.value <==>
               e.id in t.messages && t.messages[e.id].envelope == e
               && {e.senderId, e.recipientId} == {t.conversations[id].userA, t.conversations[id].userB}))
  {
    if id in t.conversations && e.id in t.messages && t.messages[e.id].envelope == e {
      StoredBetween(t, id, e);
    }
    forall i | i in t.messages
      ensures t.messages[i].envelope.id == i
    {
      assert EnvelopesOf(t.messages)[i].id == i;
    }
  }

  /** In a sound state a stored message is of this conversation exactly if it is between its two. */
  lemma StoredBetween(t: Tables, id: string, e: Envelope)
    requires ServerInv(t) && id in t.conversations && e.id in t.messages && t.messages[e.id].envelope == e
    ensures e.conversationId == id
        <==> {e.senderId, e.recipientId} == {t.conversations[id].userA, t.conversations[id].userB}
  {
    var c, pairs := t.conversations[id], PairsOf(t.conversations);
    assert EnvelopesOf(t.messages)[e.id] == e;
    assert Belongs(pairs, e) && pairs[id] == (c.userA, c.userB);
    SameParticipants(c.userA, c.userB, e.senderId, e.recipientId);
  }

  /** The offline queue holds exactly the stored messages to the user that bear no mark. */
  lemma QueueHoldsExactly(t: Tables, user: string, queue: seq<Envelope>, e: Envelope)
    requires ServerInv(t) && IsQueue(queue, t, user)
    ensures e in queue
        <==> e.id in t.messages && t.messages[e.id].envelope == e && e.recipientId == user
             && t.messages[e.id].deliveredAt.None?
  {
    assert e in queue <==> e in Elements(queue);
    forall i | i in t.messages
      ensures t.messages[i].envelope.id == i
    {
      assert EnvelopesOf(t.messages)[i].id == i;
    }
    if e.id in t.messages && t.messages[e.id].envelope == e && e.recipientId == user
       && t.messages[e.id].deliveredAt.None? {
      assert AwaitsDelivery(t, e.id, user);
    }
  }

  // ---------------------------------------------------------------- the time of the last message

  /** When the message accepted last in the conversation was sent. */
  ghost function LastSentAt(calls: seq<Call>, id: string): Option<int>
  {
    if calls == [] then None
    else
      var init, call := calls[..|calls| - 1], calls[|calls| - 1];
      if call.SendCall? && call.envelope.conversationId == id
         && MessageSent(After(EMPTY, init), call.caller, call.envelope).1.Ok?
      then Some(call.envelope.sentAt) else LastSentAt(init, id)
  }

  lemma SendingSetsTheTime(t: Tables, caller: string, e: Envelope, id: string)
    ensures
      var (t', r) := MessageSent(t, caller, e);
      && t'.conversations.Keys == t.conversations.Keys
      && (id in t'.conversations ==>
            t'.conversations[id].lastMessageAt
            == if r.Ok? && e.conversationId == id then Some(e.sentAt) else t.conversations[id].lastMessageAt)
  {
    if MessageSent(t, caller, e).1.Ok? {
      AcceptedMessagePassed(t, caller, e);
    } else {
      RefusedMessageLeavesTables(t, caller, e);
    }
  }

  lemma ServedKeepsTimes(t: Tables, call: Call, id: string)
    requires ServerInv(t)
    ensures id in t.conversations ==> id in Served(t, call).conversations
    ensures id in Served(t, call).conversations ==>
              Served(t, call).conversations[id].lastMessageAt
              == if call.SendCall? && call.envelope.conversationId == id
                    && MessageSent(t, call.caller, call.envelope).1.Ok? then Some(call.envelope.sentAt)
                 else if id in t.conversations then t.conversations[id].lastMessageAt else None
  {
    match call {
      case SendCall(caller, e) => SendingSetsTheTime(t, caller, e, id);
      case AckCall(caller, i, now) =>
      case ReadCall(caller, i) =>
      case _ => SocialCallsKeepTimes(t, call, id);
    }
  }

  lemma SocialCallsKeepTimes(t: Tables, call: Call, id: string)
    requires IsSocial(call)
    ensures id in t.conversations ==>
              id in Served(t, call).conversations && Served(t, call).conversations[id] == t.conversations[id]
    ensures id in Served(t, call).conversations && id !in t.conversations ==>
              Served(t, call).conversations[id].lastMessageAt == None
  {
    SocialCallsLeaveMessages(t, call);
    if call.HandleCall? && RequestHandled(t, call.caller, call.requestId, call.action, call.freshId).1.Ok? {
      HandledRequest(t, call.caller, call.requestId, call.action, call.freshId);
      if call.action == Accept {
        AcceptedRequestMakesFriends(t, call.caller, call.requestId, call.freshId);
      }
    }
  }

  /** In every reachable state a conversation bears the time of the message accepted last in it. */
  lemma {:induction false} LastMessageTimesAreTrue(calls: seq<Call>, id: string)
    requires id in After(EMPTY, calls).conversations
    ensures After(EMPTY, calls).conversations[id].lastMessageAt == LastSentAt(calls, id)
  {
    var init, call := calls[..|calls| - 1], calls[|calls| - 1];
    EveryReachableStateIsSound(init);
    ServedKeepsTimes(After(EMPTY, init), call, id);
    if id in After(EMPTY, init).conversations {
      LastMessageTimesAreTrue(init, id);
    } else {
      NothingSentBefore(init, id);
    }
  }

  lemma {:induction false} NothingSentBefore(calls: seq<Call>, id: string)
    requires id !in After(EMPTY, calls).conversations
    ensures LastSentAt(calls, id) == None
  {
    if calls != [] {
      var init, call := calls[..|calls| - 1], calls[|calls| - 1];
      EveryReachableStateIsSound(init);
      ServedKeepsTimes(After(EMPTY, init), call, id);
      NothingSentBefore(init, id);
      if call.SendCall? && MessageSent(After(EMPTY, init), call.caller, call.envelope).1.Ok? {
        AcceptedMessagePassed(After(EMPTY, init), call.caller, call.envelope);
      }
    }
  }
}
