/**
 How one direction of a conversation dies. The send chain moves with every envelope built, the receive
 chain only with envelopes that arrive, and it skips at most 50 (client/crypto/session.py): a sender who
 gets too far ahead is never heard again.
 */
module DeadDirections {
  import opened Common
  import opened Protocol
  import opened Ratchet
  import opened Replay
  import opened Pipeline
  import opened Tables
  import opened Messages
  import opened Server
  import opened SendPath
  import opened Inbox
  import opened EndToEnd
  import opened LostConfirmations
  import opened Completeness
  import opened Traffic

  // ---------------------------------------------------------------- a direction that is dead

  /** The conversation is between x and y, who hold the two ends of one session. */
  ghost predicate Ends(w: World, x: string, y: string, id: string)
  {
    && x != y && id in w.server.conversations && PairsOf(w.server.conversations)[id] == Ordered(x, y)
    && x in w.clients && y in w.clients && id in w.clients[x].sessions && id in w.clients[y].sessions
    && Paired(w.clients[x].sessions[id], w.clients[y].sessions[id])
  }

  /** A message from x in the conversation. */
  predicate Of(e: Envelope, x: string, id: string)
  {
    e.senderId == x && e.conversationId == id
  }

  /** No stored message from x lies in y's window. */
  ghost predicate NoneWaits(w: World, x: string, y: string, id: string)
    requires Ends(w, x, y, id)
  {
    forall i :: i in EnvelopesOf(w.server.messages) && Of(EnvelopesOf(w.server.messages)[i], x, id) ==>
      !InWindow(w.clients[y].sessions[id].receiver, EnvelopesOf(w.server.messages)[i])
  }

  /** x's chain is not too far ahead of y's. */
  predicate Near(w: World, x: string, y: string, id: string)
    requires x in w.clients && y in w.clients && id in w.clients[x].sessions && id in w.clients[y].sessions
  {
    w.clients[x].sessions[id].send.index <= w.clients[y].sessions[id].receiver.chain.index + MAX_SKIP
  }

  /** What x has sent, and what x will send, is out of y's reach. */
  ghost predicate Beyond(w: World, x: string, y: string, id: string)
    requires Ends(w, x, y, id)
  {
    !Near(w, x, y, id) && NoneWaits(w, x, y, id)
  }

  /** The ends stay ends; y has heard nothing more, x has built no less, and new messages of x were built since. */
  ghost predicate DirectionMoves(w: World, w': World, x: string, y: string, id: string)
    requires Ends(w, x, y, id)
  {
    && Ends(w', x, y, id)
    && w'.clients[y].sessions[id].receiver == w.clients[y].sessions[id].receiver
    && w.clients[x].sessions[id].send.index <= w'.clients[x].sessions[id].send.index
    && forall i :: i in EnvelopesOf(w'.server.messages) && Of(EnvelopesOf(w'.server.messages)[i], x, id) ==>
         var e := EnvelopesOf(w'.server.messages)[i];
         (i in EnvelopesOf(w.server.messages) && EnvelopesOf(w.server.messages)[i] == e)
         || e.chainIndex >= w.clients[x].sessions[id].send.index
  }

  lemma BeyondMoves(w: World, w': World, x: string, y: string, id: string)
    requires Ends(w, x, y, id) && Beyond(w, x, y, id) && DirectionMoves(w, w', x, y, id)
    ensures Beyond(w', x, y, id)
  {
  }

  lemma SendsOnlyKeepEnds(w: World, w': World, x: string, y: string, id: string)
    requires Ends(w, x, y, id) && AllSendOnly(w.clients, w'.clients)
    requires id in w'.server.conversations
             && PairsOf(w'.server.conversations)[id] == PairsOf(w.server.conversations)[id]
    ensures Ends(w', x, y, id)
    ensures w'.clients[y].sessions[id].receiver == w.clients[y].sessions[id].receiver
    ensures w.clients[x].sessions[id].send.index <= w'.clients[x].sessions[id].send.index
  {
  }

  lemma SendingKeepsPairs(t: Tables, caller: string, e: Envelope, id: string)
    requires id in t.conversations
    ensures
      var t' := MessageSent(t, caller, e).0;
      id in t'.conversations && PairsOf(t'.conversations)[id] == PairsOf(t.conversations)[id]
  {
    if MessageSent(t, caller, e).1.Ok? {
      AcceptedMessagePassed(t, caller, e);
      StoringAddsOneEnvelope(t, e);
    } else {
      RefusedMessageLeavesTables(t, caller, e);
    }
  }

  lemma CallsKeepPairs(t: Tables, call: Call, id: string)
    requires id in t.conversations && !call.SendCall?
    ensures id in Served(t, call).conversations
    ensures PairsOf(Served(t, call).conversations)[id] == PairsOf(t.conversations)[id]
  {
    if IsSocial(call) {
      SocialCallsLeaveMessages(t, call);
    } else if call.ReadCall? {
      ReadKeepsPairs(t, call.caller, call.conversationId);
    }
  }

  lemma PostingKeepsPairs(w: World, user: string, a: Attempt, heard: bool, stored: bool, id: string)
    requires id in w.server.conversations && user in w.clients && user in w.stores
    ensures
      var t' := Posted(w, user, a, heard, stored).server;
      id in t'.conversations && PairsOf(t'.conversations)[id] == PairsOf(w.server.conversations)[id]
  {
    PostedMovesServer(w, user, a, heard, stored);
    var envelope := Prepared(w.clients[user], a).1;
    if envelope.Some? {
      SendingKeepsPairs(w.server, user, envelope.value, id);
    }
  }

  lemma StepKeepsPairs(w: World, e: EndToEnd.Event, id: string)
    requires id in w.server.conversations
    ensures
      var t' := Stepped(w, e).server;
      id in t'.conversations && PairsOf(t'.conversations)[id] == PairsOf(w.server.conversations)[id]
  {
    if Stepped(w, e) != w {
      match e {
        case ServerEvent(call) => CallsKeepPairs(w.server, call, id);
        case SendEvent(user, a, heard, stored) => PostingKeepsPairs(w, user, a, heard, stored, id);
        case AckEvent(user, i, now) => AckKeepsEnvelopes(w.server, i, user, now);
        case _ =>
      }
    }
  }

  lemma NewMessageIsBuiltSince(w: World, sender: string, a: Attempt, x: string, id: string)
    requires sender in w.clients && w.clients[sender].userId == sender && Prepared(w.clients[sender], a).1.Some?
    requires x in w.clients && id in w.clients[x].sessions && Of(Prepared(w.clients[sender], a).1.value, x, id)
    ensures Prepared(w.clients[sender], a).1.value.chainIndex >= w.clients[x].sessions[id].send.index
  {
    PreparedEnvelope(w.clients[sender], a);
  }

  lemma SendMovesDirection(w: World, e: EndToEnd.Event, x: string, y: string, id: string)
    requires Ends(w, x, y, id) && e.SendEvent? && Stepped(w, e) != w
    ensures DirectionMoves(w, Stepped(w, e), x, y, id)
  {
    StepsSendOnly(w, e);
    StepKeepsPairs(w, e, id);
    SendsOnlyKeepEnds(w, Stepped(w, e), x, y, id);
    PostedEnvelopes(w, e.user, e.attempt, e.heard, e.stored);
    var envelope := Prepared(w.clients[e.user], e.attempt).1;
    if envelope.Some? && Of(envelope.value, x, id) {
      NewMessageIsBuiltSince(w, e.user, e.attempt, x, id);
    }
  }

  lemma QuietStepMovesDirection(w: World, e: EndToEnd.Event, x: string, y: string, id: string)
    requires Ends(w, x, y, id) && !e.SendEvent? && !e.ReceiveEvent?
    ensures DirectionMoves(w, Stepped(w, e), x, y, id)
  {
    StepsSendOnly(w, e);
    StepKeepsPairs(w, e, id);
    StepKeepsEnvelopes(w, e);
    SendsOnlyKeepEnds(w, Stepped(w, e), x, y, id);
  }

  /** An honest envelope that is refused leaves the receiver as it was. */
  lemma HonestRefusalChangesNothing(p: Session, s: Session, e: Envelope)
    requires SealedBy(e, p) && Paired(p, s) && OnSchedule(RecvStart(s), s.receiver.chain)
    requires Decrypted(s.receiver, e).1.Err?
    ensures Decrypted(s.receiver, e).0 == s.receiver
  {
    KeyForSpendsOneIndex(RecvStart(s), s.receiver.chain, e.chainIndex);
    PairedMeansCrossed(p, s);
  }

  /** In a conversation of x and y, what reaches y is from x. */
  lemma OnlyThePeerIsHeard(w: World, x: string, y: string, id: string, i: string)
    requires WorldInv(w) && Ends(w, x, y, id) && Reaches(w, y, i) && w.server.messages[i].envelope.conversationId == id
    ensures Of(w.server.messages[i].envelope, x, id)
  {
    var e := w.server.messages[i].envelope;
    OnlyTheRecipientIsReached(w, y, i);
    assert Belongs(PairsOf(w.server.conversations), EnvelopesOf(w.server.messages)[i]);
    OrderedIdentifiesThePair(e.senderId, e.recipientId, x, y);
  }

  /** What is out of reach is not saved, and moves nothing. */
  lemma OutOfReachIsRefused(w: World, x: string, y: string, id: string, i: string, keysVerified: bool)
    requires WorldInv(w) && SendInv(w) && Ends(w, x, y, id) && NoneWaits(w, x, y, id)
    requires y in w.dhKeys && Reaches(w, y, i) && w.server.messages[i].envelope.conversationId == id
    ensures
      var s, e := w.clients[y].sessions[id], w.server.messages[i].envelope;
      && SessionFor(w.clients[y], w.dhKeys[y], e, keysVerified) == Some(s)
      && Decrypted(s.receiver, e).1.Err? && Decrypted(s.receiver, e).0 == s.receiver
  {
    var s, e := w.clients[y].sessions[id], w.server.messages[i].envelope;
    OnlyThePeerIsHeard(w, x, y, id, i);
    assert EnvelopesOf(w.server.messages)[i] == e;
    assert SentFrom(e, w.clients);
    OpeningSpends(w, y, e, keysVerified);
    OpensExactlyWhen(w.clients[x].sessions[id], s, e);
    HonestRefusalChangesNothing(w.clients[x].sessions[id], s, e);
  }

  /** One session is used to receive: the others stay, and so does all of it but the receiver. */
  lemma ReceivingLeavesTheRest(
    w: World, user: string, e: Envelope, keysVerified: bool, stored: bool, u: string, id: string)
    requires user in w.clients && user in w.stores && user in w.dhKeys
    requires u in w.clients && id in w.clients[u].sessions
    ensures
      var clients', s := Received(w, user, e, keysVerified, stored).clients, w.clients[u].sessions[id];
      && u in clients' && id in clients'[u].sessions
      && clients'[u].sessions[id]
         == if u == user && id == e.conversationId then s.(receiver := Decrypted(s.receiver, e).0) else s
  {
    ReceivingMovesOneReceiver(w, user, e, keysVerified, stored);
  }

  lemma UnheardReceiptMovesDirection(w: World, w': World, x: string, y: string, id: string)
    requires Ends(w, x, y, id) && w'.server == w.server
    requires x in w'.clients && id in w'.clients[x].sessions && y in w'.clients && id in w'.clients[y].sessions
    requires var p, p' := w.clients[x].sessions[id], w'.clients[x].sessions[id];
             p'.root == p.root && p'.initiator == p.initiator && p'.send == p.send
    requires w'.clients[y].sessions[id] == w.clients[y].sessions[id]
    ensures DirectionMoves(w, w', x, y, id)
  {
  }

  lemma ReceivedMovesDirection(
    w: World, user: string, i: string, keysVerified: bool, stored: bool, x: string, y: string, id: string)
    requires WorldInv(w) && SendInv(w) && Ends(w, x, y, id) && NoneWaits(w, x, y, id)
    requires user in w.clients && user in w.stores && user in w.dhKeys && Reaches(w, user, i)
    ensures DirectionMoves(w, Received(w, user, w.server.messages[i].envelope, keysVerified, stored), x, y, id)
  {
    var e := w.server.messages[i].envelope;
    ReceivingLeavesTheRest(w, user, e, keysVerified, stored, x, id);
    ReceivingLeavesTheRest(w, user, e, keysVerified, stored, y, id);
    if user == y && e.conversationId == id {
      OutOfReachIsRefused(w, x, y, id, i, keysVerified);
    }
    UnheardReceiptMovesDirection(w, Received(w, user, e, keysVerified, stored), x, y, id);
  }

  /** A receipt that has an effect. */
  lemma ReceiptIsReceived(w: World, e: EndToEnd.Event)
    requires e.ReceiveEvent? && Stepped(w, e) != w
    ensures e.user in w.clients && e.user in w.stores && e.user in w.dhKeys && Reaches(w, e.user, e.id)
    ensures Stepped(w, e) == Received(w, e.user, w.server.messages[e.id].envelope, e.keysVerified, e.stored)
  {
  }

  lemma StepKeepsBeyond(w: World, e: EndToEnd.Event, x: string, y: string, id: string)
    requires Reached(w) && Ends(w, x, y, id) && Beyond(w, x, y, id)
    ensures Ends(Stepped(w, e), x, y, id) && Beyond(Stepped(w, e), x, y, id)
  {
    if Stepped(w, e) != w {
      if e.SendEvent? {
        SendMovesDirection(w, e, x, y, id);
      } else if e.ReceiveEvent? {
        ReceiptIsReceived(w, e);
        ReceivedMovesDirection(w, e.user, e.id, e.keysVerified, e.stored, x, y, id);
      } else {
        QuietStepMovesDirection(w, e, x, y, id);
      }
      BeyondMoves(w, Stepped(w, e), x, y, id);
    }
  }

  /** The messages from x in the conversation that y has saved on receipt. */
  function SavedFrom(w: World, x: string, y: string, id: string): set<string>
  {
    SavedAmong(SavedBy(w.saves), EnvelopesOf(w.server.messages), x, y, id)
  }

  function SavedAmong(
    saved: set<(string, string)>, envelopes: map<string, Envelope>, x: string, y: string, id: string): set<string>
  {
    set s | s in saved && s.0 == y && s.1 in envelopes && Of(envelopes[s.1], x, id) :: s.1
  }

  /** More messages on the server change nothing about what was saved of those that were there. */
  lemma SavedAmongMore(
    saved: set<(string, string)>, envelopes: map<string, Envelope>, envelopes': map<string, Envelope>,
    x: string, y: string, id: string)
    requires forall s :: s in saved ==> s.1 in envelopes
    requires forall i :: i in envelopes ==> i in envelopes' && envelopes'[i] == envelopes[i]
    ensures SavedAmong(saved, envelopes', x, y, id) == SavedAmong(saved, envelopes, x, y, id)
  {
  }

  lemma SavedElsewhere(
    saved: set<(string, string)>, envelopes: map<string, Envelope>, user: string, i: string,
    x: string, y: string, id: string)
    requires i in envelopes && !(user == y && Of(envelopes[i], x, id))
    ensures SavedAmong(saved + {(user, i)}, envelopes, x, y, id) == SavedAmong(saved, envelopes, x, y, id)
  {
  }

  lemma SavedHere(
    saved: set<(string, string)>, envelopes: map<string, Envelope>, i: string, x: string, y: string, id: string)
    requires i in envelopes && Of(envelopes[i], x, id) && (y, i) !in saved
    ensures SavedAmong(saved + {(y, i)}, envelopes, x, y, id) != SavedAmong(saved, envelopes, x, y, id)
  {
    assert (y, i) in saved + {(y, i)};
    assert i in SavedAmong(saved + {(y, i)}, envelopes, x, y, id);
    assert i !in SavedAmong(saved, envelopes, x, y, id);
  }

  lemma SavesAreOfMessages(w: World)
    requires WorldInv(w)
    ensures forall s :: s in SavedBy(w.saves) ==> s.1 in EnvelopesOf(w.server.messages)
  {
    forall k | 0 <= k < |w.saves|
      ensures w.saves[k].id in EnvelopesOf(w.server.messages)
    {
      assert SaveSound(w.saves[k], EnvelopesOf(w.server.messages), w.sent, w.clients);
    }
  }

  lemma OtherStepsSaveNothing(w: World, e: EndToEnd.Event)
    requires !e.ReceiveEvent?
    ensures Stepped(w, e).saves == w.saves
  {
  }

  lemma StepKeepsMessages(w: World, e: EndToEnd.Event)
    ensures forall i :: i in EnvelopesOf(w.server.messages) ==>
              i in EnvelopesOf(Stepped(w, e).server.messages)
              && EnvelopesOf(Stepped(w, e).server.messages)[i] == EnvelopesOf(w.server.messages)[i]
  {
    if e.SendEvent? {
      if Stepped(w, e) != w {
        PostedEnvelopes(w, e.user, e.attempt, e.heard, e.stored);
      }
    } else {
      StepKeepsEnvelopes(w, e);
    }
  }

  lemma OtherStepsKeepSaved(w: World, e: EndToEnd.Event, x: string, y: string, id: string)
    requires WorldInv(w) && !e.ReceiveEvent?
    ensures SavedFrom(Stepped(w, e), x, y, id) == SavedFrom(w, x, y, id)
  {
    OtherStepsSaveNothing(w, e);
    StepKeepsMessages(w, e);
    SavesAreOfMessages(w);
    SavedAmongMore(
      SavedBy(w.saves), EnvelopesOf(w.server.messages), EnvelopesOf(Stepped(w, e).server.messages), x, y, id);
  }

  /** The saves after a receipt. */
  lemma ReceivedSaves(w: World, user: string, e: Envelope, keysVerified: bool, stored: bool)
    requires user in w.clients && user in w.stores && user in w.dhKeys
    ensures
      var w' := Received(w, user, e, keysVerified, stored);
      var h := Handled(w.clients[user], w.stores[user], w.dhKeys[user], e, keysVerified, stored);
      && w'.server == w.server
      && SavedBy(w'.saves) == if h.saved.Some? then SavedBy(w.saves) + {(user, e.id)} else SavedBy(w.saves)
  {
    var h := Handled(w.clients[user], w.stores[user], w.dhKeys[user], e, keysVerified, stored);
    if h.saved.Some? {
      SavedByGrows(w.saves, Save(user, e.id, h.saved.value));
    }
  }

  /** What a receipt saves is not from x in the conversation. */
  lemma UnreachedIsNotSaved(
    w: World, user: string, i: string, keysVerified: bool, stored: bool, x: string, y: string, id: string)
    requires WorldInv(w) && SendInv(w) && Ends(w, x, y, id) && NoneWaits(w, x, y, id)
    requires user in w.clients && user in w.stores && user in w.dhKeys && Reaches(w, user, i)
    requires
      var e := w.server.messages[i].envelope;
      Handled(w.clients[user], w.stores[user], w.dhKeys[user], e, keysVerified, stored).saved.Some?
    ensures !(user == y && w.server.messages[i].envelope.conversationId == id)
  {
    OnlyOpenedIsSaved(
      w.clients[user], w.stores[user], w.dhKeys[user], w.server.messages[i].envelope, keysVerified, stored);
    if user == y && w.server.messages[i].envelope.conversationId == id {
      OutOfReachIsRefused(w, x, y, id, i, keysVerified);
    }
  }

  lemma UnreachedReceiptSavesNothing(
    w: World, user: string, i: string, keysVerified: bool, stored: bool, x: string, y: string, id: string)
    requires WorldInv(w) && SendInv(w) && Ends(w, x, y, id) && NoneWaits(w, x, y, id)
    requires user in w.clients && user in w.stores && user in w.dhKeys && Reaches(w, user, i)
    ensures SavedFrom(Received(w, user, w.server.messages[i].envelope, keysVerified, stored), x, y, id)
         == SavedFrom(w, x, y, id)
  {
    var e := w.server.messages[i].envelope;
    OnlyTheRecipientIsReached(w, user, i);
    ReceivedSaves(w, user, e, keysVerified, stored);
    var saved := Handled(w.clients[user], w.stores[user], w.dhKeys[user], e, keysVerified, stored).saved.Some?;
    if saved {
      UnreachedIsNotSaved(w, user, i, keysVerified, stored, x, y, id);
    }
    OtherSavesDoNotCount(w, Received(w, user, e, keysVerified, stored), saved, user, i, x, y, id);
  }

  lemma OtherSavesDoNotCount(
    w: World, w': World, saved: bool, user: string, i: string, x: string, y: string, id: string)
    requires w'.server == w.server
    requires SavedBy(w'.saves) == if saved then SavedBy(w.saves) + {(user, i)} else SavedBy(w.saves)
    requires saved ==>
               i in w.server.messages && !(user == y && w.server.messages[i].envelope.conversationId == id)
    ensures SavedFrom(w', x, y, id) == SavedFrom(w, x, y, id)
  {
    if saved {
      SavedElsewhere(SavedBy(w.saves), EnvelopesOf(w.server.messages), user, i, x, y, id);
    }
  }

  lemma UnreachedStepSavesNothing(w: World, e: EndToEnd.Event, x: string, y: string, id: string)
    requires WorldInv(w) && SendInv(w) && Ends(w, x, y, id) && NoneWaits(w, x, y, id)
    ensures SavedFrom(Stepped(w, e), x, y, id) == SavedFrom(w, x, y, id)
  {
    if !e.ReceiveEvent? {
      OtherStepsKeepSaved(w, e, x, y, id);
    } else if Stepped(w, e) != w {
      ReceiptIsReceived(w, e);
      UnreachedReceiptSavesNothing(w, e.user, e.id, e.keysVerified, e.stored, x, y, id);
    }
  }

  /**
   Dead for good. Once a direction is out of reach, no run of events whatever makes y save another message
   from x in the conversation, or brings the direction back.
   */
  lemma {:induction false} BeyondIsForever(w: World, after: seq<EndToEnd.Event>, x: string, y: string, id: string)
    requires Reached(w) && Ends(w, x, y, id) && Beyond(w, x, y, id)
    ensures Ends(WorldAfter(w, after), x, y, id) && Beyond(WorldAfter(w, after), x, y, id)
    ensures SavedFrom(WorldAfter(w, after), x, y, id) == SavedFrom(w, x, y, id)
  {
    if after != [] {
      var w1, last := WorldAfter(w, after[..|after| - 1]), after[|after| - 1];
      BeyondIsForever(w, after[..|after| - 1], x, y, id);
      ReachedAlong(w, after[..|after| - 1]);
      StepKeepsBeyond(w1, last, x, y, id);
      UnreachedStepSavesNothing(w1, last, x, y, id);
    }
  }

  // ---------------------------------------------------------------- and when it is not

  /** A send that is heard of and saved, and a receipt that is saved. */
  function Sending(x: string, a: Attempt): EndToEnd.Event
  {
    EndToEnd.Event.SendEvent(x, a, true, true)
  }

  function Hearing(y: string, i: string): EndToEnd.Event
  {
    EndToEnd.Event.ReceiveEvent(y, i, true, true)
  }

  /** The server takes what x would send next. */
  ghost predicate CanPost(w: World, x: string, a: Attempt)
  {
    && x in w.clients && x in w.stores && w.clients[x].userId == x && Prepared(w.clients[x], a).1.Some?
    && MessageSent(w.server, x, Prepared(w.clients[x], a).1.value).1.Ok?
  }

  /** A stored message within reach is saved by receiving it. */
  lemma ReceivingSaves(w: World, x: string, y: string, id: string, i: string)
    requires WorldInv(w) && SendInv(w) && Ends(w, x, y, id) && y in w.stores && y in w.dhKeys
    requires i in w.server.messages && Of(w.server.messages[i].envelope, x, id)
    requires InWindow(w.clients[y].sessions[id].receiver, w.server.messages[i].envelope)
    ensures Reaches(w, y, i)
    ensures SavedFrom(Received(w, y, w.server.messages[i].envelope, true, true), x, y, id) != SavedFrom(w, x, y, id)
  {
    var e := w.server.messages[i].envelope;
    StoredMessageReaches(w, x, y, id, i);
    OnlyTheRecipientIsReached(w, y, i);
    ReachableIsSaved(w, x, y, id, i);
    ReceivedSaves(w, y, e, true, true);
    SavedHere(SavedBy(w.saves), EnvelopesOf(w.server.messages), i, x, y, id);
  }

  lemma ReachableIsSaved(w: World, x: string, y: string, id: string, i: string)
    requires WorldInv(w) && SendInv(w) && Ends(w, x, y, id) && y in w.stores && y in w.dhKeys && Reaches(w, y, i)
    requires Of(w.server.messages[i].envelope, x, id)
    requires InWindow(w.clients[y].sessions[id].receiver, w.server.messages[i].envelope)
    ensures Handled(w.clients[y], w.stores[y], w.dhKeys[y], w.server.messages[i].envelope, true, true).saved.Some?
    ensures (y, i) !in SavedBy(w.saves)
  {
    SavedInASoundWorld(w, y, i, true, true);
    OnlyOpenedIsSaved(w.clients[y], w.stores[y], w.dhKeys[y], w.server.messages[i].envelope, true, true);
    NotSavedYet(w, y, i);
  }

  lemma StoredMessageReaches(w: World, x: string, y: string, id: string, i: string)
    requires WorldInv(w) && Ends(w, x, y, id) && i in w.server.messages && Of(w.server.messages[i].envelope, x, id)
    ensures Reaches(w, y, i) && w.server.messages[i].envelope.recipientId == y
  {
    var e := w.server.messages[i].envelope;
    assert Belongs(PairsOf(w.server.conversations), EnvelopesOf(w.server.messages)[i]);
    OrderedIdentifiesThePair(e.senderId, e.recipientId, x, y);
  }

  lemma NotSavedYet(w: World, user: string, i: string)
    requires WorldInv(w) && user in w.clients && user in w.dhKeys && Reaches(w, user, i)
    requires
      var s := SessionFor(w.clients[user], w.dhKeys[user], w.server.messages[i].envelope, true);
      s.Some? && Decrypted(s.value.receiver, w.server.messages[i].envelope).1.Ok?
    ensures (user, i) !in SavedBy(w.saves)
  {
    OnlyTheRecipientIsReached(w, user, i);
    if (user, i) in SavedBy(w.saves) {
      SavedDoesNotOpenAgain(w, user, w.server.messages[i].envelope, true);
    }
  }

  lemma InWindowByParts(rc: Receiver, e: Envelope)
    requires e.id !in rc.filter.seenIds && e.counter > rc.filter.maxCounter - REPLAY_WINDOW
    requires rc.chain.index <= e.chainIndex <= rc.chain.index + MAX_SKIP
    ensures InWindow(rc, e)
  {
  }

  /** y's receiver is not ahead of x's chain and counter. */
  lemma ReceiverIsNotAhead(w: World, x: string, y: string, id: string)
    requires Reached(w) && Ends(w, x, y, id)
    ensures
      var rc := w.clients[y].sessions[id].receiver;
      && rc.chain.index <= w.clients[x].sessions[id].send.index
      && (rc.filter.maxCounter == -1 || rc.filter.maxCounter <= NextCounter(w.clients[x], id))
      && forall i :: i in rc.filter.seenIds ==> i in EnvelopesOf(w.server.messages)
  {
    var rc := w.clients[y].sessions[id].receiver;
    assert Heard(rc, EnvelopesOf(w.server.messages), y, id);
    assert SendChainsSound(w.clients[x].sessions);
    assert OnSchedule(SendStart(w.clients[x].sessions[id]), w.clients[x].sessions[id].send);
    if rc.chain.index != 0 {
      HeardIndexIsBehind(w, x, y, id, rc.chain.index - 1);
    }
    if rc.filter.maxCounter != -1 {
      HeardCounterIsBehind(w, x, y, id, rc.filter.maxCounter);
    }
  }

  /** The next message of x is within y's reach unless the chain is too far ahead. */
  lemma NextIsInWindow(w: World, x: string, y: string, id: string, a: Attempt)
    requires Reached(w) && Ends(w, x, y, id) && CanPost(w, x, a) && a.conversationId == id
    requires Near(w, x, y, id)
    ensures InWindow(w.clients[y].sessions[id].receiver, Prepared(w.clients[x], a).1.value)
  {
    var e, rc := Prepared(w.clients[x], a).1.value, w.clients[y].sessions[id].receiver;
    NextEnvelope(w, x, id, a);
    ReceiverIsNotAhead(w, x, y, id);
    InWindowByParts(rc, e);
  }

  lemma NextEnvelope(w: World, x: string, id: string, a: Attempt)
    requires CanPost(w, x, a) && a.conversationId == id && id in w.clients[x].sessions
    ensures
      var e := Prepared(w.clients[x], a).1.value;
      && e.id !in EnvelopesOf(w.server.messages) && e.counter >= 0 && e.counter == NextCounter(w.clients[x], id)
      && e.chainIndex == w.clients[x].sessions[id].send.index && Of(e, x, id) && e.id == a.id
  {
    PreparedEnvelope(w.clients[x], a);
    PostingAddsOneMessage(w, x, a);
    CounterIsNatural(w, x, a);
  }

  lemma CounterIsNatural(w: World, x: string, a: Attempt)
    requires CanPost(w, x, a)
    ensures Prepared(w.clients[x], a).1.value.counter >= 0
  {
    AcceptedMessagePassed(w.server, x, Prepared(w.clients[x], a).1.value);
  }

  lemma PeerSent(w: World, x: string, y: string, id: string, i: string)
    requires WorldInv(w) && Ends(w, x, y, id)
    requires i in EnvelopesOf(w.server.messages) && To(EnvelopesOf(w.server.messages)[i], y, id)
    ensures Of(EnvelopesOf(w.server.messages)[i], x, id)
  {
    var e := EnvelopesOf(w.server.messages)[i];
    OrderedIdentifiesThePair(e.senderId, e.recipientId, x, y);
  }

  lemma HeardIndexIsBehind(w: World, x: string, y: string, id: string, index: int)
    requires Reached(w) && Ends(w, x, y, id) && HasIndex(EnvelopesOf(w.server.messages), y, id, index)
    ensures index < w.clients[x].sessions[id].send.index
  {
    var i :| i in EnvelopesOf(w.server.messages) && To(EnvelopesOf(w.server.messages)[i], y, id)
             && EnvelopesOf(w.server.messages)[i].chainIndex == index;
    PeerSent(w, x, y, id, i);
    assert LeftBehind(EnvelopesOf(w.server.messages)[i], w.clients);
  }

  lemma HeardCounterIsBehind(w: World, x: string, y: string, id: string, counter: int)
    requires Reached(w) && Ends(w, x, y, id) && HasCounter(EnvelopesOf(w.server.messages), y, id, counter)
    ensures counter <= NextCounter(w.clients[x], id)
  {
    var i :| i in EnvelopesOf(w.server.messages) && To(EnvelopesOf(w.server.messages)[i], y, id)
             && EnvelopesOf(w.server.messages)[i].counter == counter;
    PeerSent(w, x, y, id, i);
    assert LeftBehind(EnvelopesOf(w.server.messages)[i], w.clients);
  }

  lemma SendingPosts(w: World, x: string, a: Attempt)
    requires CanPost(w, x, a)
    ensures Stepped(w, Sending(x, a)) == Posted(w, x, a, true, true)
  {
  }

  /** After posting, the message waits within y's reach. */
  lemma PostedWaits(w: World, x: string, y: string, id: string, a: Attempt)
    requires Reached(w) && Ends(w, x, y, id) && CanPost(w, x, a) && a.conversationId == id
    requires Near(w, x, y, id)
    ensures
      var w1 := Stepped(w, Sending(x, a));
      && Ends(w1, x, y, id) && a.id in w1.server.messages && Of(w1.server.messages[a.id].envelope, x, id)
      && InWindow(w1.clients[y].sessions[id].receiver, w1.server.messages[a.id].envelope)
  {
    var w1 := Stepped(w, Sending(x, a));
    NextIsInWindow(w, x, y, id, a);
    NextEnvelope(w, x, id, a);
    SendingPosts(w, x, a);
    PostedEnvelopes(w, x, a, true, true);
    assert a.id in EnvelopesOf(w1.server.messages);
    SendMovesDirection(w, Sending(x, a), x, y, id);
  }

  lemma SendingKeepsMeans(w: World, x: string, a: Attempt, y: string)
    requires CanPost(w, x, a)
    ensures Stepped(w, Sending(x, a)).stores.Keys == w.stores.Keys && Stepped(w, Sending(x, a)).dhKeys == w.dhKeys
  {
    SendingPosts(w, x, a);
  }

  /** Posting the next message and receiving it saves it, if the chain is not too far ahead. */
  lemma PostingAndReceivingSaves(w: World, x: string, y: string, id: string, a: Attempt)
    requires Reached(w) && Ends(w, x, y, id) && y in w.stores && y in w.dhKeys
    requires CanPost(w, x, a) && a.conversationId == id
    requires Near(w, x, y, id)
    ensures SavedFrom(Stepped(Stepped(w, Sending(x, a)), Hearing(y, a.id)), x, y, id) != SavedFrom(w, x, y, id)
  {
    PostedWaits(w, x, y, id, a);
    StepKeepsReached(w, Sending(x, a));
    SendingKeepsMeans(w, x, a, y);
    HearingSaves(Stepped(w, Sending(x, a)), x, y, id, a.id);
    OtherStepsKeepSaved(w, Sending(x, a), x, y, id);
  }

  lemma HearingSaves(w: World, x: string, y: string, id: string, i: string)
    requires WorldInv(w) && SendInv(w) && Ends(w, x, y, id) && y in w.stores && y in w.dhKeys
    requires i in w.server.messages && Of(w.server.messages[i].envelope, x, id)
    requires InWindow(w.clients[y].sessions[id].receiver, w.server.messages[i].envelope)
    ensures SavedFrom(Stepped(w, Hearing(y, i)), x, y, id) != SavedFrom(w, x, y, id)
  {
    ReceivingSaves(w, x, y, id, i);
    HearingReceives(w, y, i);
  }

  lemma HearingReceives(w: World, y: string, i: string)
    requires y in w.clients && y in w.stores && y in w.dhKeys && Reaches(w, y, i)
    ensures Stepped(w, Hearing(y, i)) == Received(w, y, w.server.messages[i].envelope, true, true)
  {
  }

  /** Some run from here makes y save another message from x. */
  ghost predicate CanStillBeHeard(w: World, x: string, y: string, id: string)
  {
    exists after :: HeardAfter(w, after, x, y, id)
  }

  ghost predicate HeardAfter(w: World, after: seq<EndToEnd.Event>, x: string, y: string, id: string)
  {
    SavedFrom(WorldAfter(w, after), x, y, id) != SavedFrom(w, x, y, id)
  }

  /** After this run the server takes a message from x that is within y's reach. */
  ghost predicate NearAfter(w: World, more: seq<EndToEnd.Event>, a: Attempt, x: string, y: string, id: string)
  {
    var w' := WorldAfter(w, more);
    Ends(w', x, y, id) && CanPost(w', x, a) && a.conversationId == id && Near(w', x, y, id)
  }

  ghost predicate CanGetNear(w: World, x: string, y: string, id: string)
  {
    exists more, a :: NearAfter(w, more, a, x, y, id)
  }

  /** A message that x gets accepted while not near is not in y's window. */
  lemma FarMessageIsNotInWindow(w: World, user: string, a: Attempt, x: string, y: string, id: string)
    requires Ends(w, x, y, id) && CanPost(w, user, a) && Of(Prepared(w.clients[user], a).1.value, x, id)
    requires user == x && a.conversationId == id ==> !Near(w, x, y, id)
    ensures !InWindow(w.clients[y].sessions[id].receiver, Prepared(w.clients[user], a).1.value)
  {
    PreparedEnvelope(w.clients[user], a);
  }

  lemma OneMessageMoreKeepsNoneWaiting(w: World, w': World, e: Envelope, x: string, y: string, id: string)
    requires Ends(w, x, y, id) && NoneWaits(w, x, y, id) && DirectionMoves(w, w', x, y, id)
    requires EnvelopesOf(w'.server.messages) == EnvelopesOf(w.server.messages)[e.id := e]
    requires Of(e, x, id) ==> !InWindow(w.clients[y].sessions[id].receiver, e)
    ensures NoneWaits(w', x, y, id)
  {
  }

  lemma SendersCanPost(w: World, e: EndToEnd.Event)
    requires e.SendEvent? && Stepped(w, e) != w
    ensures e.user in w.clients && e.user in w.stores && w.clients[e.user].userId == e.user
    ensures Stepped(w, e) == Posted(w, e.user, e.attempt, e.heard, e.stored)
  {
  }

  lemma FarSendKeepsNoneWaiting(w: World, e: EndToEnd.Event, x: string, y: string, id: string)
    requires Ends(w, x, y, id) && NoneWaits(w, x, y, id) && e.SendEvent? && Stepped(w, e) != w
    requires CanPost(w, x, e.attempt) && e.user == x && e.attempt.conversationId == id ==> !Near(w, x, y, id)
    ensures Ends(Stepped(w, e), x, y, id) && NoneWaits(Stepped(w, e), x, y, id)
  {
    SendersCanPost(w, e);
    SendMovesDirection(w, e, x, y, id);
    PostedEnvelopes(w, e.user, e.attempt, e.heard, e.stored);
    var envelope := Prepared(w.clients[e.user], e.attempt).1;
    if envelope.Some? && MessageSent(w.server, e.user, envelope.value).1.Ok? {
      if Of(envelope.value, x, id) {
        FarMessageIsNotInWindow(w, e.user, e.attempt, x, y, id);
      }
      OneMessageMoreKeepsNoneWaiting(w, Stepped(w, e), envelope.value, x, y, id);
    } else {
      MovesKeepNoneWaiting(w, Stepped(w, e), x, y, id);
    }
  }

  lemma MovesKeepNoneWaiting(w: World, w': World, x: string, y: string, id: string)
    requires Ends(w, x, y, id) && NoneWaits(w, x, y, id) && DirectionMoves(w, w', x, y, id)
    requires EnvelopesOf(w'.server.messages) == EnvelopesOf(w.server.messages)
    ensures NoneWaits(w', x, y, id)
  {
  }

  lemma StepKeepsNoneWaiting(w: World, e: EndToEnd.Event, x: string, y: string, id: string)
    requires Reached(w) && Ends(w, x, y, id) && NoneWaits(w, x, y, id)
    requires e.SendEvent? && CanPost(w, x, e.attempt) && e.user == x && e.attempt.conversationId == id ==>
               !Near(w, x, y, id)
    ensures Ends(Stepped(w, e), x, y, id) && NoneWaits(Stepped(w, e), x, y, id)
  {
    if Stepped(w, e) != w {
      if e.SendEvent? {
        FarSendKeepsNoneWaiting(w, e, x, y, id);
      } else {
        StepKeepsEnvelopes(w, e);
        if e.ReceiveEvent? {
          ReceiptIsReceived(w, e);
          ReceivedMovesDirection(w, e.user, e.id, e.keysVerified, e.stored, x, y, id);
        } else {
          QuietStepMovesDirection(w, e, x, y, id);
        }
        MovesKeepNoneWaiting(w, Stepped(w, e), x, y, id);
      }
    }
  }

  lemma {:induction false} NeverNearIsNeverHeard(
    w: World, after: seq<EndToEnd.Event>, x: string, y: string, id: string)
    requires Reached(w) && Ends(w, x, y, id) && NoneWaits(w, x, y, id) && !CanGetNear(w, x, y, id)
    ensures Ends(WorldAfter(w, after), x, y, id) && NoneWaits(WorldAfter(w, after), x, y, id)
    ensures SavedFrom(WorldAfter(w, after), x, y, id) == SavedFrom(w, x, y, id)
  {
    if after != [] {
      var init, last := after[..|after| - 1], after[|after| - 1];
      NeverNearIsNeverHeard(w, init, x, y, id);
      ReachedAlong(w, init);
      if last.SendEvent? {
        assert !NearAfter(w, init, last.attempt, x, y, id);
      }
      StepKeepsNoneWaiting(WorldAfter(w, init), last, x, y, id);
      UnreachedStepSavesNothing(WorldAfter(w, init), last, x, y, id);
    }
  }

  /** What has been saved stays on record. */
  lemma StepKeepsSaved(w: World, e: EndToEnd.Event, x: string, y: string, id: string)
    requires WorldInv(w)
    ensures SavedFrom(w, x, y, id) <= SavedFrom(Stepped(w, e), x, y, id)
  {
    if !e.ReceiveEvent? {
      OtherStepsKeepSaved(w, e, x, y, id);
    } else if Stepped(w, e) != w {
      ReceiptIsReceived(w, e);
      ReceivedSaves(w, e.user, w.server.messages[e.id].envelope, e.keysVerified, e.stored);
    }
  }

  lemma {:induction false} RunKeepsSaved(w: World, more: seq<EndToEnd.Event>, x: string, y: string, id: string)
    requires WorldInv(w)
    ensures SavedFrom(w, x, y, id) <= SavedFrom(WorldAfter(w, more), x, y, id)
  {
    if more != [] {
      RunKeepsSaved(w, more[..|more| - 1], x, y, id);
      InvHoldsAlong(w, more[..|more| - 1]);
      StepKeepsSaved(WorldAfter(w, more[..|more| - 1]), more[|more| - 1], x, y, id);
    }
  }

  lemma {:induction false} EndsAlong(w: World, more: seq<EndToEnd.Event>, y: string)
    ensures WorldAfter(w, more).stores.Keys == w.stores.Keys && WorldAfter(w, more).dhKeys == w.dhKeys
  {
    if more != [] {
      EndsAlong(w, more[..|more| - 1], y);
      StepKeepsMeans(WorldAfter(w, more[..|more| - 1]), more[|more| - 1]);
    }
  }

  lemma StepKeepsMeans(w: World, e: EndToEnd.Event)
    ensures Stepped(w, e).stores.Keys == w.stores.Keys && Stepped(w, e).dhKeys == w.dhKeys
  {
  }

  /** Getting near and then sending is being heard. */
  lemma GettingNearIsHeard(w: World, more: seq<EndToEnd.Event>, a: Attempt, x: string, y: string, id: string)
    requires Reached(w) && y in w.stores && y in w.dhKeys && NearAfter(w, more, a, x, y, id)
    ensures CanStillBeHeard(w, x, y, id)
  {
    var w' := WorldAfter(w, more);
    ReachedAlong(w, more);
    EndsAlong(w, more, y);
    RunKeepsSaved(w, more, x, y, id);
    PostingAndReceivingSaves(w', x, y, id, a);
    StepKeepsReached(w', Sending(x, a));
    StepKeepsSaved(w', Sending(x, a), x, y, id);
    StepKeepsSaved(Stepped(w', Sending(x, a)), Hearing(y, a.id), x, y, id);
    HeardAfterMore(w, more, Sending(x, a), Hearing(y, a.id), x, y, id);
  }

  lemma HeardAfterMore(
    w: World, more: seq<EndToEnd.Event>, e: EndToEnd.Event, f: EndToEnd.Event, x: string, y: string, id: string)
    requires SavedFrom(Stepped(Stepped(WorldAfter(w, more), e), f), x, y, id) != SavedFrom(w, x, y, id)
    ensures CanStillBeHeard(w, x, y, id)
  {
    TwoMoreSteps(w, more, e, f);
    assert HeardAfter(w, more + [e] + [f], x, y, id);
  }

  /**
   Exactly when a direction can still be heard. After any run, let x and y hold the two ends of a session,
   and let y be able to receive. Then some run makes y save another message from x if and only if a stored
   message from x lies in y's window, or some run leads to where the server takes a message from x whose
   chain is at most 50 ahead of y's.
   */
  lemma DirectionLivesExactlyWhen(w: World, events: seq<EndToEnd.Event>, x: string, y: string, id: string)
    requires Initial(w) && AllCountersMatch(w.clients)
    requires Ends(WorldAfter(w, events), x, y, id)
    requires y in WorldAfter(w, events).stores && y in WorldAfter(w, events).dhKeys
    ensures CanStillBeHeard(WorldAfter(w, events), x, y, id)
        <==> !NoneWaits(WorldAfter(w, events), x, y, id) || CanGetNear(WorldAfter(w, events), x, y, id)
  {
    InitialIsReached(w);
    ReachedAlong(w, events);
    LivesExactlyWhen(WorldAfter(w, events), x, y, id);
  }

  lemma LivesExactlyWhen(w: World, x: string, y: string, id: string)
    requires Reached(w) && Ends(w, x, y, id) && y in w.stores && y in w.dhKeys
    ensures CanStillBeHeard(w, x, y, id) <==> !NoneWaits(w, x, y, id) || CanGetNear(w, x, y, id)
  {
    if CanGetNear(w, x, y, id) {
      var more, a :| NearAfter(w, more, a, x, y, id);
      GettingNearIsHeard(w, more, a, x, y, id);
    } else if !NoneWaits(w, x, y, id) {
      SomeWaitingIsHeard(w, x, y, id);
    } else {
      forall after
        ensures !HeardAfter(w, after, x, y, id)
      {
        NeverNearIsNeverHeard(w, after, x, y, id);
      }
    }
  }

  lemma SomeWaitingIsHeard(w: World, x: string, y: string, id: string)
    requires Reached(w) && Ends(w, x, y, id) && y in w.stores && y in w.dhKeys && !NoneWaits(w, x, y, id)
    ensures CanStillBeHeard(w, x, y, id)
  {
    var envelopes := EnvelopesOf(w.server.messages);
    var i :| i in envelopes && Of(envelopes[i], x, id) && InWindow(w.clients[y].sessions[id].receiver, envelopes[i]);
    WaitingIsHeard(w, x, y, id, i);
  }

  /**
   Exactly when a direction is dead. After any run, let x and y hold the two ends of a session, let y be
   able to receive, and let the server take x's next message. Then no run of events makes y save another
   message from x if and only if x's chain is more than 50 ahead of y's and every stored message from x is
   outside y's window.
   */
  lemma DirectionIsDeadExactlyWhen(
    w: World, events: seq<EndToEnd.Event>, x: string, y: string, id: string, a: Attempt)
    requires Initial(w) && AllCountersMatch(w.clients)
    requires Ends(WorldAfter(w, events), x, y, id)
    requires y in WorldAfter(w, events).stores && y in WorldAfter(w, events).dhKeys
    requires CanPost(WorldAfter(w, events), x, a) && a.conversationId == id
    ensures !CanStillBeHeard(WorldAfter(w, events), x, y, id) <==> Beyond(WorldAfter(w, events), x, y, id)
  {
    InitialIsReached(w);
    ReachedAlong(w, events);
    DeadExactlyWhen(WorldAfter(w, events), x, y, id, a);
  }

  lemma DeadExactlyWhen(w: World, x: string, y: string, id: string, a: Attempt)
    requires Reached(w) && Ends(w, x, y, id) && y in w.stores && y in w.dhKeys
    requires CanPost(w, x, a) && a.conversationId == id
    ensures !CanStillBeHeard(w, x, y, id) <==> Beyond(w, x, y, id)
  {
    if Beyond(w, x, y, id) {
      forall after
        ensures !HeardAfter(w, after, x, y, id)
      {
        BeyondIsForever(w, after, x, y, id);
      }
    } else {
      AliveIsHeard(w, x, y, id, a);
    }
  }

  lemma NearIsHeard(w: World, x: string, y: string, id: string, a: Attempt)
    requires Reached(w) && Ends(w, x, y, id) && y in w.stores && y in w.dhKeys
    requires CanPost(w, x, a) && a.conversationId == id
    requires Near(w, x, y, id)
    ensures CanStillBeHeard(w, x, y, id)
  {
    PostingAndReceivingSaves(w, x, y, id, a);
    HeardAfterTwo(w, Sending(x, a), Hearing(y, a.id), x, y, id);
  }

  lemma HeardAfterTwo(w: World, e: EndToEnd.Event, f: EndToEnd.Event, x: string, y: string, id: string)
    requires SavedFrom(Stepped(Stepped(w, e), f), x, y, id) != SavedFrom(w, x, y, id)
    ensures CanStillBeHeard(w, x, y, id)
  {
    TwoSteps(w, e, f);
    HeardThere(w, [e] + [f], Stepped(Stepped(w, e), f), x, y, id);
  }

  lemma HeardThere(w: World, after: seq<EndToEnd.Event>, w2: World, x: string, y: string, id: string)
    requires WorldAfter(w, after) == w2 && SavedFrom(w2, x, y, id) != SavedFrom(w, x, y, id)
    ensures CanStillBeHeard(w, x, y, id)
  {
    assert HeardAfter(w, after, x, y, id);
  }

  lemma WaitingIsHeard(w: World, x: string, y: string, id: string, i: string)
    requires Reached(w) && Ends(w, x, y, id) && y in w.stores && y in w.dhKeys
    requires i in w.server.messages && Of(w.server.messages[i].envelope, x, id)
    requires InWindow(w.clients[y].sessions[id].receiver, w.server.messages[i].envelope)
    ensures CanStillBeHeard(w, x, y, id)
  {
    HearingSaves(w, x, y, id, i);
    OneStep(w, Hearing(y, i));
    assert HeardAfter(w, [Hearing(y, i)], x, y, id);
  }

  lemma AliveIsHeard(w: World, x: string, y: string, id: string, a: Attempt)
    requires Reached(w) && Ends(w, x, y, id) && y in w.stores && y in w.dhKeys
    requires CanPost(w, x, a) && a.conversationId == id && !Beyond(w, x, y, id)
    ensures CanStillBeHeard(w, x, y, id)
  {
    if Near(w, x, y, id) {
      NearIsHeard(w, x, y, id, a);
    } else {
      SomeWaitingIsHeard(w, x, y, id);
    }
  }

  lemma OneStep(w: World, e: EndToEnd.Event)
    ensures WorldAfter(w, [e]) == Stepped(w, e)
  {
    LastStep(w, [], e);
    assert [] + [e] == [e];
  }

  lemma TwoSteps(w: World, e: EndToEnd.Event, f: EndToEnd.Event)
    ensures WorldAfter(w, [e] + [f]) == Stepped(Stepped(w, e), f)
  {
    OneStep(w, e);
    LastStep(w, [e], f);
  }
}
