/**
 Which messages arrive: exactly when an envelope that reaches its recipient is opened and saved, over every
 run of the whole system.
 */
module Completeness {
  import opened Common
  import opened KeySchedule
  import opened Protocol
  import opened Ratchet
  import opened Replay
  import opened Pipeline
  import opened Tables
  import opened Messages
  import opened Server
  import opened SendPath
  import opened Inbox
  import opened EndToEnd
  import opened LostConfirmations

  // ---------------------------------------------------------------- opening one envelope

  /** The envelope was built by this session. */
  ghost predicate SealedBy(e: Envelope, s: Session)
  {
    && e.chainIndex >= 0 && e.ciphertext.Sealed?
    && e.ciphertext.key == MessageKey(SendStart(s), e.chainIndex)
    && e.ciphertext.nonce == e.nonce && ComputeAd(e) == Ok(e.ciphertext.ad)
  }

  /** Two ends of one session: the same root key, and one of them initiated. */
  predicate Paired(p: Session, s: Session)
  {
    p.root == s.root && p.initiator != s.initiator
  }

  lemma PairedMeansCrossed(p: Session, s: Session)
    ensures SendStart(p) == RecvStart(s) <==> Paired(p, s)
  {
  }

  /** Neither replayed nor spent, and not too far ahead. */
  predicate InWindow(rc: Receiver, e: Envelope)
  {
    && Checked(rc.filter, e.id, e.counter).None?
    && !Spent(rc.chain, e.chainIndex) && e.chainIndex <= rc.chain.index + MAX_SKIP
  }

  lemma OpensExactlyWhen(p: Session, s: Session, e: Envelope)
    requires SealedBy(e, p) && OnSchedule(RecvStart(s), s.receiver.chain)
    ensures Decrypted(s.receiver, e).1.Ok? <==> Paired(p, s) && InWindow(s.receiver, e)
  {
    KeyForSpendsOneIndex(RecvStart(s), s.receiver.chain, e.chainIndex);
    MessageKeysIdentifyChains(SendStart(p), RecvStart(s), e.chainIndex);
    PairedMeansCrossed(p, s);
  }

  // ---------------------------------------------------------------- who sealed what

  ghost predicate ChainsSound(clients: map<string, Client>)
  {
    forall user :: user in clients ==> SendChainsSound(clients[user].sessions)
  }

  ghost predicate SendChainsSound(sessions: map<string, Session>)
  {
    forall id :: id in sessions ==> OnSchedule(SendStart(sessions[id]), sessions[id].send)
  }

  /** Every stored message was built by its sender's session for its conversation. */
  ghost predicate SendersSound(envelopes: map<string, Envelope>, clients: map<string, Client>)
  {
    forall id :: id in envelopes ==> SentFrom(envelopes[id], clients)
  }

  ghost predicate SentFrom(e: Envelope, clients: map<string, Client>)
  {
    && e.senderId in clients && e.conversationId in clients[e.senderId].sessions
    && SealedBy(e, clients[e.senderId].sessions[e.conversationId])
  }

  ghost predicate SendInv(w: World)
  {
    ChainsSound(w.clients) && SendersSound(EnvelopesOf(w.server.messages), w.clients)
  }

  /** No session changes its root key or its role. */
  ghost predicate SameRoots(sessions: map<string, Session>, sessions': map<string, Session>)
  {
    forall id :: id in sessions ==>
      id in sessions' && sessions'[id].root == sessions[id].root && sessions'[id].initiator == sessions[id].initiator
  }

  lemma OneSessionMoves(sessions: map<string, Session>, id: string, s: Session)
    requires SendChainsSound(sessions) && OnSchedule(SendStart(s), s.send)
    requires id in sessions ==> sessions[id].root == s.root && sessions[id].initiator == s.initiator
    ensures SendChainsSound(sessions[id := s]) && SameRoots(sessions, sessions[id := s])
  {
  }

  lemma SendersCarryOver(envelopes: map<string, Envelope>, clients: map<string, Client>, user: string, c: Client)
    requires SendersSound(envelopes, clients) && user in clients && SameRoots(clients[user].sessions, c.sessions)
    ensures SendersSound(envelopes, clients[user := c])
  {
    forall id | id in envelopes
      ensures SentFrom(envelopes[id], clients[user := c])
    {
      assert SentFrom(envelopes[id], clients);
    }
  }

  lemma SessionEnsuredKeepsChains(c: Client, a: Attempt)
    requires SendChainsSound(c.sessions)
    ensures
      var c1 := SessionEnsured(c, a).0;
      SendChainsSound(c1.sessions) && SameRoots(c.sessions, c1.sessions)
  {
    var root, boot := EnsuringAddsAtMostOneSession(c, a);
    if a.conversationId !in c.sessions && SessionEnsured(c, a).1 {
      OneSessionMoves(c.sessions, a.conversationId, NewSession(root, true, boot));
    }
  }

  lemma BuiltIsSealed(c: KeyChain, start: Key, d: Draft, counter: int)
    requires OnSchedule(start, c) && Built(c, d, counter).1.Ok?
    ensures
      var e := Built(c, d, counter).1.value;
      && e.chainIndex == c.index && e.ciphertext.Sealed? && e.ciphertext.key == MessageKey(start, c.index)
      && e.ciphertext.nonce == e.nonce && ComputeAd(e) == Ok(e.ciphertext.ad)
  {
  }

  lemma AdvancingStaysOnSchedule(start: Key, c: KeyChain)
    requires OnSchedule(start, c)
    ensures OnSchedule(start, Advanced(c).0)
  {
  }

  lemma SendingKeepsChains(c: Client, a: Attempt, ok: bool)
    requires SendChainsSound(c.sessions)
    ensures
      var c' := Sent(c, a, ok).0;
      SendChainsSound(c'.sessions) && SameRoots(c.sessions, c'.sessions)
  {
    SessionEnsuredKeepsChains(c, a);
    if SessionEnsured(c, a).1 {
      var next := SentMovesOneSession(c, a, ok);
      var sessions, id := SessionEnsured(c, a).0.sessions, a.conversationId;
      AdvancingStaysOnSchedule(SendStart(sessions[id]), sessions[id].send);
      OneSessionMoves(
        sessions, id, sessions[id].(send := Advanced(sessions[id].send).0, nextOutbound := next));
    } else {
      UnreadySendsNothing(c, a, ok);
    }
  }

  lemma PreparedIsSealed(c: Client, a: Attempt, ok: bool)
    requires SendChainsSound(c.sessions) && Prepared(c, a).1.Some?
    ensures
      var c', e := Sent(c, a, ok).0, Prepared(c, a).1.value;
      && e.senderId == c.userId && e.conversationId == a.conversationId
      && a.conversationId in c'.sessions && SealedBy(e, c'.sessions[a.conversationId])
  {
    SessionEnsuredKeepsChains(c, a);
    PreparedEnvelope(c, a);
    var c1 := SessionEnsured(c, a).0;
    var s := c1.sessions[a.conversationId];
    BuiltIsSealed(s.send, SendStart(s), DraftOf(c1, a), NextCounter(c1, a.conversationId));
    assert SendStart(Sent(c, a, ok).0.sessions[a.conversationId]) == SendStart(s);
  }

  lemma NewMessageIsSound(envelopes: map<string, Envelope>, clients: map<string, Client>, e: Envelope)
    requires SendersSound(envelopes, clients) && SentFrom(e, clients)
    ensures SendersSound(envelopes[e.id := e], clients)
  {
  }

  lemma PostedKeepsSendInv(w: World, user: string, a: Attempt, heard: bool, stored: bool)
    requires SendInv(w) && user in w.clients && user in w.stores && w.clients[user].userId == user
    ensures SendInv(Posted(w, user, a, heard, stored))
  {
    var c, envelope := w.clients[user], Prepared(w.clients[user], a).1;
    var ok := PostedMovesOneClient(w, user, a, heard, stored);
    SendingKeepsChains(c, a, ok);
    SendersCarryOver(EnvelopesOf(w.server.messages), w.clients, user, Sent(c, a, ok).0);
    PostedMovesServer(w, user, a, heard, stored);
    if envelope.Some? && MessageSent(w.server, user, envelope.value).1.Ok? {
      PostingAddsOneMessage(w, user, a);
      PreparedIsSealed(c, a, ok);
      NewMessageIsSound(
        EnvelopesOf(w.server.messages), w.clients[user := Sent(c, a, ok).0], envelope.value);
    } else if envelope.Some? {
      RefusedMessageLeavesTables(w.server, user, envelope.value);
    }
  }

  lemma ReceivingKeepsChains(c: Client, store: Store, dhKey: Scalar, e: Envelope, keysVerified: bool, stored: bool)
    requires SendChainsSound(c.sessions)
    ensures
      var c' := Handled(c, store, dhKey, e, keysVerified, stored).client;
      SendChainsSound(c'.sessions) && SameRoots(c.sessions, c'.sessions)
  {
    HandlingMovesOneSession(c, store, dhKey, e, keysVerified, stored);
    var s := SessionFor(c, dhKey, e, keysVerified);
    if s.Some? {
      OneSessionMoves(
        c.sessions, e.conversationId, s.value.(receiver := Decrypted(s.value.receiver, e).0));
    }
  }

  lemma OtherStepsKeepSendInv(w: World, e: EndToEnd.Event)
    requires SendInv(w) && !e.SendEvent?
    ensures SendInv(Stepped(w, e))
  {
    if Stepped(w, e) != w {
      var envelopes := EnvelopesOf(w.server.messages);
      match e {
        case ServerEvent(call) => CallsKeepEnvelopes(w.server, call);
        case AckEvent(other, acked, now) => AckKeepsEnvelopes(w.server, acked, other, now);
        case ReceiveEvent(user, id, keysVerified, stored) =>
          ReceivingKeepsChains(
            w.clients[user], w.stores[user], w.dhKeys[user], w.server.messages[id].envelope, keysVerified, stored);
          SendersCarryOver(envelopes, w.clients, user, Stepped(w, e).clients[user]);
        case RestartEvent(user) =>
          SendersCarryOver(envelopes, w.clients, user, Restarted(w.clients[user]));
        case _ =>
      }
    }
  }

  lemma CallsKeepEnvelopes(t: Tables, call: Call)
    requires !call.SendCall? && !call.AckCall?
    ensures EnvelopesOf(Served(t, call).messages) == EnvelopesOf(t.messages)
  {
    if IsSocial(call) {
      SocialCallsLeaveMessages(t, call);
    } else {
      ReadKeepsPairs(t, call.caller, call.conversationId);
    }
  }

  lemma {:induction false} SendInvHoldsAlong(w: World, events: seq<EndToEnd.Event>)
    requires Initial(w)
    ensures SendInv(WorldAfter(w, events))
  {
    if events != [] {
      var w1, last := WorldAfter(w, events[..|events| - 1]), events[|events| - 1];
      SendInvHoldsAlong(w, events[..|events| - 1]);
      if !last.SendEvent? {
        OtherStepsKeepSendInv(w1, last);
      } else if Stepped(w1, last) != w1 {
        PostedKeepsSendInv(w1, last.user, last.attempt, last.heard, last.stored);
      }
    }
  }

  // ---------------------------------------------------------------- what is saved

  /** An envelope that opens has not been saved before, so its row is inserted. */
  lemma SavedExactlyWhenOpened(w: World, user: string, id: string, keysVerified: bool, stored: bool)
    requires WorldInv(w) && user in w.clients && user in w.stores && user in w.dhKeys && Reaches(w, user, id)
    ensures
      var e := w.server.messages[id].envelope;
      var s := SessionFor(w.clients[user], w.dhKeys[user], e, keysVerified);
      Handled(w.clients[user], w.stores[user], w.dhKeys[user], e, keysVerified, stored).saved.Some?
      <==> stored && s.Some? && Decrypted(s.value.receiver, e).1.Ok?
  {
    var e := w.server.messages[id].envelope;
    var s := SessionFor(w.clients[user], w.dhKeys[user], e, keysVerified);
    OnlyTheRecipientIsReached(w, user, id);
    if s.Some? && Decrypted(s.value.receiver, e).1.Ok? {
      if (user, id) in SavedBy(w.saves) {
        SavedDoesNotOpenAgain(w, user, e, keysVerified);
      } else {
        ReceivedRowIsNew(w, user, e, Decrypted(s.value.receiver, e).1.value);
      }
    }
  }

  /**
   Completeness. After any run, a message that reaches its recipient is saved if and only if the local
   table can be written, the recipient has or can open a session, that session and the sender's are the
   two ends of one, and the message lies in the recipient's window.
   */
  lemma MessagesAreSavedExactlyWhen(
    w: World, events: seq<EndToEnd.Event>, user: string, id: string, keysVerified: bool, stored: bool)
    requires Initial(w)
    requires
      var w' := WorldAfter(w, events);
      user in w'.clients && user in w'.stores && user in w'.dhKeys && Reaches(w', user, id)
    ensures
      var w' := WorldAfter(w, events);
      var e := w'.server.messages[id].envelope;
      var s := SessionFor(w'.clients[user], w'.dhKeys[user], e, keysVerified);
      && e.senderId in w'.clients && e.conversationId in w'.clients[e.senderId].sessions
      && (Handled(w'.clients[user], w'.stores[user], w'.dhKeys[user], e, keysVerified, stored).saved.Some?
          <==> stored && s.Some? && Paired(w'.clients[e.senderId].sessions[e.conversationId], s.value)
               && InWindow(s.value.receiver, e))
  {
    var w' := WorldAfter(w, events);
    WorldStaysSound(w, events);
    SendInvHoldsAlong(w, events);
    SavedInASoundWorld(w', user, id, keysVerified, stored);
  }

  lemma SavedInASoundWorld(w: World, user: string, id: string, keysVerified: bool, stored: bool)
    requires WorldInv(w) && SendInv(w)
    requires user in w.clients && user in w.stores && user in w.dhKeys && Reaches(w, user, id)
    ensures
      var e := w.server.messages[id].envelope;
      var s := SessionFor(w.clients[user], w.dhKeys[user], e, keysVerified);
      && e.senderId in w.clients && e.conversationId in w.clients[e.senderId].sessions
      && (Handled(w.clients[user], w.stores[user], w.dhKeys[user], e, keysVerified, stored).saved.Some?
          <==> stored && s.Some? && Paired(w.clients[e.senderId].sessions[e.conversationId], s.value)
               && InWindow(s.value.receiver, e))
  {
    var e := w.server.messages[id].envelope;
    var s := SessionFor(w.clients[user], w.dhKeys[user], e, keysVerified);
    SavedExactlyWhenOpened(w, user, id, keysVerified, stored);
    assert EnvelopesOf(w.server.messages)[id] == e;
    assert SentFrom(e, w.clients);
    if s.Some? {
      OpeningSpends(w, user, e, keysVerified);
      OpensExactlyWhen(w.clients[e.senderId].sessions[e.conversationId], s.value, e);
    }
  }

  /** There is a session, or one can be opened with the keys that the envelope carries. */
  predicate CanOpen(c: Client, e: Envelope, keysVerified: bool)
  {
    e.conversationId in c.sessions || (keysVerified && e.ephPub.Some? && e.convDhPub.Some?)
  }

  /** The table can be written, there is or can be a session, it is the sender's other end, and the window is right. */
  ghost predicate IsWelcome(w: World, user: string, e: Envelope, keysVerified: bool, stored: bool)
    requires user in w.clients && user in w.dhKeys
  {
    && stored && CanOpen(w.clients[user], e, keysVerified)
    && e.senderId in w.clients && e.conversationId in w.clients[e.senderId].sessions
    && var p := w.clients[e.senderId].sessions[e.conversationId];
       if e.conversationId in w.clients[user].sessions then
         var s := w.clients[user].sessions[e.conversationId];
         Paired(p, s) && InWindow(s.receiver, e)
       else
         var root := RootAsResponder(w.dhKeys[user], e.ephPub.value, e.convDhPub.value,
                                     w.clients[user].userId, e.senderId, e.conversationId);
         p.root == root && p.initiator && e.chainIndex <= MAX_SKIP
  }

  lemma SessionIsFoundExactlyWhen(c: Client, dhKey: Scalar, e: Envelope, keysVerified: bool)
    ensures
      var s := SessionFor(c, dhKey, e, keysVerified);
      && (s.Some? <==> CanOpen(c, e, keysVerified))
      && (e.conversationId in c.sessions ==> s == Some(c.sessions[e.conversationId]))
      && (e.conversationId !in c.sessions && s.Some? ==>
            && !s.value.initiator && s.value.receiver == Receiver(Fresh(RecvStart(s.value)), EMPTY_FILTER)
            && s.value.root == RootAsResponder(
                 dhKey, e.ephPub.value, e.convDhPub.value, c.userId, e.senderId, e.conversationId))
  {
  }

  /** A new receiver's window: the first 51 envelopes. */
  lemma NewWindow(start: Key, e: Envelope)
    requires e.chainIndex >= 0 && e.counter >= 0
    ensures InWindow(Receiver(Fresh(start), EMPTY_FILTER), e) <==> e.chainIndex <= MAX_SKIP
  {
  }

  /**
   What a receipt does, after any run. If the message is welcome, its row is written with the text that was
   sent, and it is acknowledged; if not, neither, and the table stays as it was. So exactly the messages
   that are saved are acknowledged.
   */
  lemma ReceiptDoesExactly(
    w: World, events: seq<EndToEnd.Event>, user: string, id: string, keysVerified: bool, stored: bool)
    requires Initial(w)
    requires
      var w' := WorldAfter(w, events);
      user in w'.clients && user in w'.stores && user in w'.dhKeys && Reaches(w', user, id)
    ensures
      var w1 := WorldAfter(w, events);
      var e := w1.server.messages[id].envelope;
      var w2 := Received(w1, user, e, keysVerified, stored);
      && id in w1.sent && w2.server == w1.server && w2.sent == w1.sent
      && if IsWelcome(w1, user, e, keysVerified, stored) then
           && id !in w1.stores[user]
           && w2.stores == w1.stores[user := w1.stores[user][id :=
                             Row(e.conversationId, e.senderId, e.counter, w1.sent[id])]]
           && w2.acks == w1.acks + {(user, id)} && w2.saves == w1.saves + [Save(user, id, w1.sent[id])]
         else w2.stores == w1.stores && w2.acks == w1.acks && w2.saves == w1.saves
  {
    var w' := WorldAfter(w, events);
    WorldStaysSound(w, events);
    SendInvHoldsAlong(w, events);
    ReceiptInASoundWorld(w', user, id, keysVerified, stored);
  }

  lemma WelcomeIsSaved(w: World, user: string, id: string, keysVerified: bool, stored: bool)
    requires WorldInv(w) && SendInv(w)
    requires user in w.clients && user in w.stores && user in w.dhKeys && Reaches(w, user, id)
    ensures
      var e := w.server.messages[id].envelope;
      Handled(w.clients[user], w.stores[user], w.dhKeys[user], e, keysVerified, stored).saved.Some?
      <==> IsWelcome(w, user, e, keysVerified, stored)
  {
    var e := w.server.messages[id].envelope;
    SavedInASoundWorld(w, user, id, keysVerified, stored);
    SessionIsFoundExactlyWhen(w.clients[user], w.dhKeys[user], e, keysVerified);
    assert EnvelopesOf(w.server.messages)[id] == e && SentFrom(EnvelopesOf(w.server.messages)[id], w.clients);
    var s := SessionFor(w.clients[user], w.dhKeys[user], e, keysVerified);
    if s.Some? && e.conversationId !in w.clients[user].sessions {
      NewWindow(RecvStart(s.value), e);
    }
  }

  /** Rows and acknowledgements of a receipt go by whether it was saved. */
  lemma HandledGoesBySaved(c: Client, store: Store, dhKey: Scalar, e: Envelope, keysVerified: bool, stored: bool)
    requires e.id !in store || SessionFor(c, dhKey, e, keysVerified).None? || !stored
             || Decrypted(SessionFor(c, dhKey, e, keysVerified).value.receiver, e).1.Err?
    requires
      var s := SessionFor(c, dhKey, e, keysVerified);
      s.Some? && Decrypted(s.value.receiver, e).1.Ok? && stored ==>
        Handled(c, store, dhKey, e, keysVerified, stored).saved.Some?
    ensures
      var h := Handled(c, store, dhKey, e, keysVerified, stored);
      && (h.acked <==> h.saved.Some?)
      && h.store == if h.saved.Some?
                    then store[e.id := Row(e.conversationId, e.senderId, e.counter, h.saved.value)] else store
  {
  }

  lemma ReceiptInASoundWorld(w: World, user: string, id: string, keysVerified: bool, stored: bool)
    requires WorldInv(w) && SendInv(w)
    requires user in w.clients && user in w.stores && user in w.dhKeys && Reaches(w, user, id)
    ensures
      var e := w.server.messages[id].envelope;
      var w2 := Received(w, user, e, keysVerified, stored);
      && id in w.sent && w2.server == w.server && w2.sent == w.sent
      && if IsWelcome(w, user, e, keysVerified, stored) then
           && id !in w.stores[user]
           && w2.stores == w.stores[user := w.stores[user][id :=
                             Row(e.conversationId, e.senderId, e.counter, w.sent[id])]]
           && w2.acks == w.acks + {(user, id)} && w2.saves == w.saves + [Save(user, id, w.sent[id])]
         else w2.stores == w.stores && w2.acks == w.acks && w2.saves == w.saves
  {
    var e := w.server.messages[id].envelope;
    OnlyTheRecipientIsReached(w, user, id);
    WelcomeIsSaved(w, user, id, keysVerified, stored);
    ReceiptIsHandled(w, user, id, keysVerified, stored);
    ReceivedGoesByHandling(w, user, e, keysVerified, stored);
  }

  /** What the client makes of the message: one row and an acknowledgement, or neither. */
  lemma ReceiptIsHandled(w: World, user: string, id: string, keysVerified: bool, stored: bool)
    requires WorldInv(w) && user in w.clients && user in w.stores && user in w.dhKeys && Reaches(w, user, id)
    ensures id in w.sent
    ensures
      var e, store := w.server.messages[id].envelope, w.stores[user];
      var h := Handled(w.clients[user], store, w.dhKeys[user], e, keysVerified, stored);
      && (h.acked <==> h.saved.Some?)
      && (h.saved.Some? ==>
            && h.saved.value == w.sent[id] && id !in store
            && h.store == store[id := Row(e.conversationId, e.senderId, e.counter, w.sent[id])])
      && (h.saved.None? ==> h.store == store)
  {
    var e := w.server.messages[id].envelope;
    OnlyTheRecipientIsReached(w, user, id);
    SavedExactlyWhenOpened(w, user, id, keysVerified, stored);
    WelcomeIsNew(w, user, id, keysVerified, stored);
    HandledGoesBySaved(w.clients[user], w.stores[user], w.dhKeys[user], e, keysVerified, stored);
    if Handled(w.clients[user], w.stores[user], w.dhKeys[user], e, keysVerified, stored).saved.Some? {
      OnlyOpenedIsSaved(w.clients[user], w.stores[user], w.dhKeys[user], e, keysVerified, stored);
    }
  }

  lemma OnlyOpenedIsSaved(
    c: Client, store: Store, dhKey: Scalar, e: Envelope, keysVerified: bool, stored: bool)
    requires Handled(c, store, dhKey, e, keysVerified, stored).saved.Some?
    ensures
      var s := SessionFor(c, dhKey, e, keysVerified);
      stored && s.Some? && Decrypted(s.value.receiver, e).1.Ok?
  {
  }

  /** The world after a receipt, by what its client makes of it. */
  lemma ReceivedGoesByHandling(w: World, user: string, e: Envelope, keysVerified: bool, stored: bool)
    requires user in w.clients && user in w.stores && user in w.dhKeys
    ensures
      var w2 := Received(w, user, e, keysVerified, stored);
      var h := Handled(w.clients[user], w.stores[user], w.dhKeys[user], e, keysVerified, stored);
      && w2.server == w.server && w2.sent == w.sent
      && w2.stores == (if h.store == w.stores[user] then w.stores else w.stores[user := h.store])
      && w2.saves == (if h.saved.Some? then w.saves + [Save(user, e.id, h.saved.value)] else w.saves)
      && w2.acks == if h.acked then w.acks + {(user, e.id)} else w.acks
  {
    var h := Handled(w.clients[user], w.stores[user], w.dhKeys[user], e, keysVerified, stored);
    if h.store == w.stores[user] {
      assert w.stores[user := h.store] == w.stores;
    }
  }

  lemma WelcomeIsNew(w: World, user: string, id: string, keysVerified: bool, stored: bool)
    requires WorldInv(w) && user in w.clients && user in w.stores && user in w.dhKeys && Reaches(w, user, id)
    ensures id in w.sent
    ensures
      var e := w.server.messages[id].envelope;
      var h := Handled(w.clients[user], w.stores[user], w.dhKeys[user], e, keysVerified, stored);
      var s := SessionFor(w.clients[user], w.dhKeys[user], e, keysVerified);
      && (h.saved.Some? ==> h.saved.value == w.sent[id])
      && (s.Some? && Decrypted(s.value.receiver, e).1.Ok? ==> id !in w.stores[user])
  {
    var e := w.server.messages[id].envelope;
    OnlyTheRecipientIsReached(w, user, id);
    var s := SessionFor(w.clients[user], w.dhKeys[user], e, keysVerified);
    if s.Some? && Decrypted(s.value.receiver, e).1.Ok? {
      OpeningSpends(w, user, e, keysVerified);
      if (user, id) in SavedBy(w.saves) {
        SavedDoesNotOpenAgain(w, user, e, keysVerified);
      } else {
        ReceivedRowIsNew(w, user, e, "");
      }
    }
  }

  /**
   What a send does, after any run. If an envelope can be built and the server takes it, the server holds it
   unmarked; if the sender hears of it and can save, their own table has one row more, with the text sent;
   otherwise the table stays as it was. Nobody else's table, and no acknowledgement, is touched.
   */
  lemma PostDoesExactly(w: World, events: seq<EndToEnd.Event>, user: string, a: Attempt, heard: bool, stored: bool)
    requires Initial(w) && AllCountersMatch(w.clients)
    requires
      var w1 := WorldAfter(w, events);
      user in w1.clients && user in w1.stores && w1.clients[user].userId == user
    ensures
      var w1 := WorldAfter(w, events);
      var w2, envelope := Posted(w1, user, a, heard, stored), Prepared(w1.clients[user], a).1;
      && w2.acks == w1.acks && w2.saves == w1.saves && w2.ackPushes == w1.ackPushes
      && if envelope.Some? && MessageSent(w1.server, user, envelope.value).1.Ok? then
           && w2.server.messages == w1.server.messages[a.id := Message(envelope.value, None)]
           && w2.sent == w1.sent[a.id := a.plaintext]
           && w2.stores == if !heard || !stored then w1.stores
                           else w1.stores[user := w1.stores[user][a.id :=
                                  Row(a.conversationId, user, envelope.value.counter, a.plaintext)]]
         else w2.server == w1.server && w2.stores == w1.stores && w2.sent == w1.sent
  {
    var w1 := WorldAfter(w, events);
    WorldStaysSound(w, events);
    PostInASoundWorld(w1, user, a, heard, stored);
  }

  lemma PostInASoundWorld(w: World, user: string, a: Attempt, heard: bool, stored: bool)
    requires WorldInv(w) && user in w.clients && user in w.stores && w.clients[user].userId == user
    ensures
      var w2, envelope := Posted(w, user, a, heard, stored), Prepared(w.clients[user], a).1;
      && w2.acks == w.acks && w2.saves == w.saves && w2.ackPushes == w.ackPushes
      && if envelope.Some? && MessageSent(w.server, user, envelope.value).1.Ok? then
           && w2.server.messages == w.server.messages[a.id := Message(envelope.value, None)]
           && w2.sent == w.sent[a.id := a.plaintext]
           && w2.stores == if !heard || !stored then w.stores
                           else w.stores[user := w.stores[user][a.id :=
                                  Row(a.conversationId, user, envelope.value.counter, a.plaintext)]]
         else w2.server == w.server && w2.stores == w.stores && w2.sent == w.sent
  {
    var envelope := Prepared(w.clients[user], a).1;
    if envelope.Some? {
      PreparedEnvelope(w.clients[user], a);
      if MessageSent(w.server, user, envelope.value).1.Ok? {
        PostingAddsOneMessage(w, user, a);
        OwnRowIsNew(w, user, envelope.value, a.plaintext);
      } else {
        RefusedMessageLeavesTables(w.server, user, envelope.value);
      }
    }
  }

  /** Rows in the table are of stored messages. */
  lemma RowsAreOfMessages(
    stores: map<string, Store>, envelopes: map<string, Envelope>, sent: map<string, string>,
    saved: set<(string, string)>, user: string)
    requires StoresSound(stores, envelopes, sent, saved) && user in stores
    ensures forall other :: other in stores[user] ==>
              other in envelopes && SameSlot(stores[user][other], RowOf(envelopes[other], ""))
  {
  }

  lemma FreeCounterIsFreeSlot(store: Store, envelopes: map<string, Envelope>, e: Envelope, text: string)
    requires forall other :: other in store ==>
               other in envelopes && SameSlot(store[other], RowOf(envelopes[other], ""))
    requires e.id !in envelopes && forall other :: other in envelopes ==> !SameCounter(envelopes[other], e)
    ensures !Clashes(store, e.id, RowOf(e, text))
  {
    forall other | other in store
      ensures !SameSlot(store[other], RowOf(e, text))
    {
      assert !SameCounter(envelopes[other], e);
    }
  }

  lemma TakenIsFree(t: Tables, caller: string, e: Envelope)
    requires MessageSent(t, caller, e).1.Ok?
    ensures e.id !in EnvelopesOf(t.messages)
    ensures forall other :: other in EnvelopesOf(t.messages) ==> !SameCounter(EnvelopesOf(t.messages)[other], e)
  {
    AcceptedMessagePassed(t, caller, e);
    forall other | other in t.messages
      ensures !SameCounter(t.messages[other].envelope, e)
    {
    }
  }

  /** The sender's row for a message that the server takes does not clash with any. */
  lemma OwnRowIsNew(w: World, user: string, e: Envelope, text: string)
    requires WorldInv(w) && user in w.stores && MessageSent(w.server, user, e).1.Ok?
    ensures !Clashes(w.stores[user], e.id, RowOf(e, text))
  {
    var envelopes := EnvelopesOf(w.server.messages);
    TakenIsFree(w.server, user, e);
    RowsAreOfMessages(w.stores, envelopes, w.sent, SavedBy(w.saves), user);
    FreeCounterIsFreeSlot(w.stores[user], envelopes, e, text);
  }

  /** A message reaches a user whose session for it, like that of its sender, was set up on their own side. */
  ghost predicate Crossed(w: World, user: string, id: string)
  {
    && user in w.clients && user in w.stores && user in w.dhKeys && Reaches(w, user, id)
    && var e := w.server.messages[id].envelope;
       && e.conversationId in w.clients[user].sessions && w.clients[user].sessions[e.conversationId].initiator
       && e.senderId in w.clients && e.conversationId in w.clients[e.senderId].sessions
       && w.clients[e.senderId].sessions[e.conversationId].initiator
  }

  /** If both sides have set up a session of their own, nothing that either sends is ever saved. */
  lemma CrossedSetUpsSaveNothing(
    w: World, events: seq<EndToEnd.Event>, user: string, id: string, keysVerified: bool, stored: bool)
    requires Initial(w) && Crossed(WorldAfter(w, events), user, id)
    ensures Received(WorldAfter(w, events), user, WorldAfter(w, events).server.messages[id].envelope,
                     keysVerified, stored).saves
         == WorldAfter(w, events).saves
  {
    MessagesAreSavedExactlyWhen(w, events, user, id, keysVerified, stored);
  }

  /**
   The first envelope of a session opens the other end of it on a client that has none if and only if the
   session was set up with that client's own Diffie-Hellman key.
   */
  lemma FirstEnvelopePairsExactlyWhen(c: Client, a: Attempt, recipient: Client, dhKey: Scalar)
    requires a.conversationId !in c.sessions && a.conversationId !in c.counters && Prepared(c, a).1.Some?
    requires a.conversationId !in recipient.sessions && recipient.userId == a.peerId
    ensures
      var (c', envelope) := Prepared(c, a);
      var s := SessionFor(recipient, dhKey, envelope.value, true);
      && a.conversationId in c'.sessions && s.Some? && a.setup.Some?
      && (Paired(c'.sessions[a.conversationId], s.value) <==> a.setup.value.peerDh == PublicKey(dhKey))
  {
    PreparedEnvelope(c, a);
    BootRidesOnTheEnvelope(c, a);
  }

  // ---------------------------------------------------------------- both sides can set up a session

  const TWO_NEWCOMERS := World(
    EMPTY, map["a" := NEWCOMER, "b" := Client("b", map[], map[], map[])], map["a" := map[], "b" := map[]],
    map["b" := 3], {}, map[], [], [])

  /** The other side's first message in the same conversation. */
  function CounterAttempt(): Attempt
  {
    Attempt("c", "a", "hello", 0, "", seq(12, i => 0), Some(Setup(4, 5, PublicKey(6))))
  }

  /** Two friends who have not written to each other yet. */
  ghost predicate TwoFriends(w: World)
  {
    && w.server == After(EMPTY, FRIENDS_RUN)
    && "a" in w.clients && w.clients["a"] == NEWCOMER && "a" in w.stores
    && "b" in w.clients && w.clients["b"] == Client("b", map[], map[], map[]) && "b" in w.stores && "b" in w.dhKeys
  }

  lemma FirstMessageIsStored(w: World)
    requires TwoFriends(w)
    ensures
      var w' := Posted(w, "a", FirstAttempt(), true, true);
      && AN_ID in w'.server.messages
      && w'.server.messages[AN_ID].envelope == Prepared(NEWCOMER, FirstAttempt()).1.value
  {
    FirstSendIsAccepted();
    FirstEnvelope();
    PostingAddsOneMessage(w, "a", FirstAttempt());
    PostedMovesServer(w, "a", FirstAttempt(), true, true);
  }

  lemma FirstSenderInitiates(w: World)
    requires TwoFriends(w)
    ensures
      var w' := Posted(w, "a", FirstAttempt(), true, true);
      && w'.clients.Keys == w.clients.Keys && w'.stores.Keys == w.stores.Keys && w'.dhKeys == w.dhKeys
      && "c" in w'.clients["a"].sessions && w'.clients["a"].sessions["c"].initiator
      && w'.clients["b"] == w.clients["b"]
  {
    var ok := PostedMovesOneClient(w, "a", FirstAttempt(), true, true);
    FirstSendInitiates(NEWCOMER, FirstAttempt(), ok);
  }

  /** A first send with a set-up leaves the sender the initiator. */
  lemma FirstSendInitiates(c: Client, a: Attempt, ok: bool)
    requires a.conversationId !in c.sessions && a.setup.Some?
    ensures
      var c' := Sent(c, a, ok).0;
      a.conversationId in c'.sessions && c'.sessions[a.conversationId].initiator
  {
    var next := SentMovesOneSession(c, a, ok);
  }

  lemma BothInitiate(w: World)
    requires ServerInv(w.server) && AN_ID in w.server.messages
    requires "a" in w.clients && "c" in w.clients["a"].sessions && w.clients["a"].sessions["c"].initiator
    requires "b" in w.clients && "b" in w.stores && w.clients["b"] == Client("b", map[], map[], map[])
    ensures
      var w' := Posted(w, "b", CounterAttempt(), true, true);
      && AN_ID in w'.server.messages && w'.server.messages[AN_ID].envelope == w.server.messages[AN_ID].envelope
      && w'.clients.Keys == w.clients.Keys && w'.stores.Keys == w.stores.Keys && w'.dhKeys == w.dhKeys
      && "c" in w'.clients["a"].sessions && w'.clients["a"].sessions["c"].initiator
      && "c" in w'.clients["b"].sessions && w'.clients["b"].sessions["c"].initiator
  {
    PostedKeepsMessage(w, "b", CounterAttempt(), true, true, AN_ID);
    var ok := PostedMovesOneClient(w, "b", CounterAttempt(), true, true);
    FirstSendInitiates(w.clients["b"], CounterAttempt(), ok);
  }

  lemma CrossedAfterBoth(w: World)
    requires TwoFriends(w)
    ensures Crossed(Posted(Posted(w, "a", FirstAttempt(), true, true), "b", CounterAttempt(), true, true), "b", AN_ID)
  {
    EveryReachableStateIsSound(FRIENDS_RUN);
    FirstMessageIsStored(w);
    FirstSenderInitiates(w);
    FirstEnvelope();
    PostedMovesServer(w, "a", FirstAttempt(), true, true);
    SendKeepsInv(w.server, "a", Prepared(NEWCOMER, FirstAttempt()).1.value);
    BothInitiate(Posted(w, "a", FirstAttempt(), true, true));
  }

  lemma FriendsSetUpBoth(w: World)
    requires TwoFriends(w)
    ensures
      var w1 := Stepped(w, EndToEnd.Event.SendEvent("a", FirstAttempt(), true, true));
      && w1 == Posted(w, "a", FirstAttempt(), true, true)
      && Stepped(w1, EndToEnd.Event.SendEvent("b", CounterAttempt(), true, true))
         == Posted(w1, "b", CounterAttempt(), true, true)
  {
    FirstSenderInitiates(w);
  }

  lemma TwoMoreSteps(w: World, init: seq<EndToEnd.Event>, e: EndToEnd.Event, f: EndToEnd.Event)
    ensures WorldAfter(w, init + [e] + [f]) == Stepped(Stepped(WorldAfter(w, init), e), f)
  {
    LastStep(w, init, e);
    LastStep(w, init + [e], f);
  }

  lemma TwoBecomeFriends() returns (events: seq<EndToEnd.Event>)
    ensures Initial(TWO_NEWCOMERS) && TwoFriends(WorldAfter(TWO_NEWCOMERS, events))
  {
    CallsMoveTheServer(TWO_NEWCOMERS, FRIENDS_RUN);
    events := AsEvents(FRIENDS_RUN);
  }

  lemma CrossedAtTheEnd(w: World, init: seq<EndToEnd.Event>)
    requires TwoFriends(WorldAfter(w, init))
    ensures Crossed(WorldAfter(w, init + [EndToEnd.Event.SendEvent("a", FirstAttempt(), true, true)]
                                       + [EndToEnd.Event.SendEvent("b", CounterAttempt(), true, true)]), "b", AN_ID)
  {
    FriendsSetUpBoth(WorldAfter(w, init));
    CrossedAfterBoth(WorldAfter(w, init));
    TwoMoreSteps(w, init, EndToEnd.Event.SendEvent("a", FirstAttempt(), true, true),
                 EndToEnd.Event.SendEvent("b", CounterAttempt(), true, true));
  }

  /** A run in which both sides set up a session, and a message of one reaches the other. */
  lemma SetUpsDoCross() returns (events: seq<EndToEnd.Event>)
    ensures Initial(TWO_NEWCOMERS) && Crossed(WorldAfter(TWO_NEWCOMERS, events), "b", AN_ID)
  {
    events := TwoBecomeFriends();
    CrossedAtTheEnd(TWO_NEWCOMERS, events);
    events := events + [EndToEnd.Event.SendEvent("a", FirstAttempt(), true, true)]
              + [EndToEnd.Event.SendEvent("b", CounterAttempt(), true, true)];
  }
}
