/**
 What sessions have behind them in every world of a run: receivers have heard stored messages only, and
 senders are past all that they have stored.
 */
module Traffic {
  import opened KeySchedule
  import opened Protocol
  import opened Ratchet
  import opened Replay
  import opened Pipeline
  import opened Tables
  import opened Messages
  import opened SendPath
  import opened Inbox
  import opened EndToEnd
  import opened LostConfirmations
  import opened Completeness

  // ---------------------------------------------------------------- how sessions move

  /** Sending moves send chains on and leaves receivers alone; new sessions have heard nothing. */
  ghost predicate SendsOnly(sessions: map<string, Session>, sessions': map<string, Session>)
  {
    && (forall id :: id in sessions ==>
          && id in sessions' && sessions'[id].root == sessions[id].root
          && sessions'[id].initiator == sessions[id].initiator && sessions'[id].receiver == sessions[id].receiver
          && sessions[id].send.index <= sessions'[id].send.index)
    && (forall id :: id in sessions' && id !in sessions ==>
          sessions'[id].receiver == Receiver(Fresh(RecvStart(sessions'[id])), EMPTY_FILTER))
  }

  lemma SendingSendsOnly(c: Client, a: Attempt, ok: bool)
    ensures SendsOnly(c.sessions, Sent(c, a, ok).0.sessions)
  {
    var root, boot := EnsuringAddsAtMostOneSession(c, a);
    if SessionEnsured(c, a).1 {
      var next := SentMovesOneSession(c, a, ok);
    } else {
      UnreadySendsNothing(c, a, ok);
    }
  }

  lemma RestartSendsOnly(c: Client)
    ensures SendsOnly(c.sessions, Restarted(c).sessions)
  {
  }

  ghost predicate AllSendOnly(clients: map<string, Client>, clients': map<string, Client>)
  {
    clients'.Keys == clients.Keys && forall u :: u in clients ==> SendsOnly(clients[u].sessions, clients'[u].sessions)
  }

  lemma OneClientSendsOnly(clients: map<string, Client>, user: string, c: Client)
    requires user in clients && SendsOnly(clients[user].sessions, c.sessions)
    ensures AllSendOnly(clients, clients[user := c])
  {
  }

  lemma PostingSendsOnly(w: World, user: string, a: Attempt, heard: bool, stored: bool)
    requires user in w.clients && user in w.stores
    ensures AllSendOnly(w.clients, Posted(w, user, a, heard, stored).clients)
  {
    var ok := PostedMovesOneClient(w, user, a, heard, stored);
    SendingSendsOnly(w.clients[user], a, ok);
    OneClientSendsOnly(w.clients, user, Sent(w.clients[user], a, ok).0);
  }

  lemma NothingMovedSendsOnly(clients: map<string, Client>)
    ensures AllSendOnly(clients, clients)
  {
  }

  /** Every step but a receipt. */
  lemma StepsSendOnly(w: World, e: EndToEnd.Event)
    requires !e.ReceiveEvent?
    ensures AllSendOnly(w.clients, Stepped(w, e).clients)
  {
    NothingMovedSendsOnly(w.clients);
    if Stepped(w, e) != w {
      match e {
        case SendEvent(user, a, heard, stored) => PostingSendsOnly(w, user, a, heard, stored);
        case RestartEvent(user) =>
          RestartSendsOnly(w.clients[user]);
          OneClientSendsOnly(w.clients, user, Restarted(w.clients[user]));
        case _ =>
      }
    }
  }

  // ---------------------------------------------------------------- what receivers have heard

  /** What a receiver holds comes from stored messages to its user in its conversation. */
  ghost predicate Heard(rc: Receiver, envelopes: map<string, Envelope>, user: string, id: string)
  {
    && (forall i :: i in rc.filter.seenIds ==> i in envelopes)
    && (rc.filter.maxCounter == -1 || HasCounter(envelopes, user, id, rc.filter.maxCounter))
    && (rc.chain.index == 0 || HasIndex(envelopes, user, id, rc.chain.index - 1))
  }

  predicate To(e: Envelope, user: string, id: string)
  {
    e.recipientId == user && e.conversationId == id
  }

  ghost predicate HasCounter(envelopes: map<string, Envelope>, user: string, id: string, counter: int)
  {
    exists i :: i in envelopes && To(envelopes[i], user, id) && envelopes[i].counter == counter
  }

  ghost predicate HasIndex(envelopes: map<string, Envelope>, user: string, id: string, index: int)
  {
    exists i :: i in envelopes && To(envelopes[i], user, id) && envelopes[i].chainIndex == index
  }

  ghost predicate AllHeard(clients: map<string, Client>, envelopes: map<string, Envelope>)
  {
    forall u, id :: u in clients && id in clients[u].sessions ==>
      Heard(clients[u].sessions[id].receiver, envelopes, u, id)
  }

  lemma HeardCarriesOver(
    rc: Receiver, envelopes: map<string, Envelope>, envelopes': map<string, Envelope>, user: string, id: string)
    requires Heard(rc, envelopes, user, id)
    requires forall i :: i in envelopes ==> i in envelopes' && envelopes'[i] == envelopes[i]
    ensures Heard(rc, envelopes', user, id)
  {
    if rc.filter.maxCounter != -1 {
      var i :| i in envelopes && To(envelopes[i], user, id) && envelopes[i].counter == rc.filter.maxCounter;
      assert envelopes'[i] == envelopes[i];
    }
    if rc.chain.index != 0 {
      var i :| i in envelopes && To(envelopes[i], user, id) && envelopes[i].chainIndex == rc.chain.index - 1;
      assert envelopes'[i] == envelopes[i];
    }
  }

  lemma AllHeardCarriesOver(
    clients: map<string, Client>, clients': map<string, Client>,
    envelopes: map<string, Envelope>, envelopes': map<string, Envelope>)
    requires AllHeard(clients, envelopes) && AllSendOnly(clients, clients')
    requires forall i :: i in envelopes ==> i in envelopes' && envelopes'[i] == envelopes[i]
    ensures AllHeard(clients', envelopes')
  {
    forall u, id | u in clients' && id in clients'[u].sessions
      ensures Heard(clients'[u].sessions[id].receiver, envelopes', u, id)
    {
      if id in clients[u].sessions {
        HeardCarriesOver(clients[u].sessions[id].receiver, envelopes, envelopes', u, id);
      }
    }
  }

  /** What opening, or failing to open, leaves in a receiver. */
  lemma DecryptedMoves(start: Key, rc: Receiver, e: Envelope)
    requires OnSchedule(start, rc.chain)
    ensures
      var rc' := Decrypted(rc, e).0;
      && (rc'.filter == rc.filter || rc'.filter == Committed(rc.filter, e.id, e.counter))
      && (rc'.chain.index == rc.chain.index || rc'.chain.index == e.chainIndex + 1)
  {
    KeyForSpendsOneIndex(start, rc.chain, e.chainIndex);
  }

  lemma CommittedHolds(f: Filter, id: string, counter: int)
    ensures
      var f' := Committed(f, id, counter);
      && (forall i :: i in f'.seenIds ==> i in f.seenIds || i == id)
      && (f'.maxCounter == f.maxCounter || f'.maxCounter == counter)
  {
  }

  lemma DecryptedIsHeard(
    start: Key, rc: Receiver, e: Envelope, envelopes: map<string, Envelope>, user: string, id: string)
    requires OnSchedule(start, rc.chain) && Heard(rc, envelopes, user, id)
    requires e.id in envelopes && envelopes[e.id] == e && To(e, user, id)
    ensures Heard(Decrypted(rc, e).0, envelopes, user, id)
  {
    DecryptedMoves(start, rc, e);
    CommittedHolds(rc.filter, e.id, e.counter);
    assert HasCounter(envelopes, user, id, e.counter);
    assert HasIndex(envelopes, user, id, e.chainIndex);
  }

  // ---------------------------------------------------------------- what senders have behind them

  /** A stored message lies behind its sender's chain, and not beyond their counter. */
  ghost predicate LeftBehind(e: Envelope, clients: map<string, Client>)
  {
    && e.senderId in clients && e.conversationId in clients[e.senderId].sessions
    && e.chainIndex < clients[e.senderId].sessions[e.conversationId].send.index
    && e.counter <= NextCounter(clients[e.senderId], e.conversationId)
  }

  ghost predicate AllLeftBehind(envelopes: map<string, Envelope>, clients: map<string, Client>)
  {
    forall id :: id in envelopes ==> LeftBehind(envelopes[id], clients)
  }

  /** Chains and counters never fall. */
  ghost predicate Grows(clients: map<string, Client>, clients': map<string, Client>, user: string, id: string)
  {
    user in clients && id in clients[user].sessions ==>
      && user in clients' && id in clients'[user].sessions
      && clients[user].sessions[id].send.index <= clients'[user].sessions[id].send.index
      && NextCounter(clients[user], id) <= NextCounter(clients'[user], id)
  }

  lemma LeftBehindCarriesOver(
    envelopes: map<string, Envelope>, clients: map<string, Client>, clients': map<string, Client>)
    requires AllLeftBehind(envelopes, clients) && forall u, id :: Grows(clients, clients', u, id)
    ensures AllLeftBehind(envelopes, clients')
  {
    forall i | i in envelopes
      ensures LeftBehind(envelopes[i], clients')
    {
      assert LeftBehind(envelopes[i], clients);
      assert Grows(clients, clients', envelopes[i].senderId, envelopes[i].conversationId);
    }
  }

  ghost predicate TrafficInv(w: World)
  {
    && AllHeard(w.clients, EnvelopesOf(w.server.messages))
    && AllLeftBehind(EnvelopesOf(w.server.messages), w.clients)
  }

  lemma PostingGrows(w: World, sender: string, a: Attempt, heard: bool, stored: bool, user: string, id: string)
    requires AllCountersMatch(w.clients) && sender in w.clients && sender in w.stores
    ensures Grows(w.clients, Posted(w, sender, a, heard, stored).clients, user, id)
  {
    PostingGrowsCounters(w, sender, a, heard, stored, user, id);
    var ok := PostedMovesOneClient(w, sender, a, heard, stored);
    SendingSendsOnly(w.clients[sender], a, ok);
  }

  /** A built envelope is left behind by the client that built it. */
  lemma BuiltIsLeftBehind(c: Client, a: Attempt, ok: bool)
    requires CountersMatch(c) && Prepared(c, a).1.Some?
    ensures
      var c', e := Sent(c, a, ok).0, Prepared(c, a).1.value;
      && e.senderId == c.userId && e.conversationId == a.conversationId && a.conversationId in c'.sessions
      && e.chainIndex < c'.sessions[a.conversationId].send.index && e.counter <= NextCounter(c', a.conversationId)
  {
    PreparedEnvelope(c, a);
    SendingMovesItsCounter(c, a, ok);
    var next := SentMovesOneSession(c, a, ok);
  }

  lemma NewMessageIsLeftBehind(envelopes: map<string, Envelope>, clients: map<string, Client>, e: Envelope)
    requires AllLeftBehind(envelopes, clients) && LeftBehind(e, clients)
    ensures AllLeftBehind(envelopes[e.id := e], clients)
  {
  }

  lemma PostedMovesClients(w: World, user: string, a: Attempt, heard: bool, stored: bool)
    requires AllLeftBehind(EnvelopesOf(w.server.messages), w.clients) && AllCountersMatch(w.clients)
    requires user in w.clients && user in w.stores
    ensures
      var clients' := Posted(w, user, a, heard, stored).clients;
      AllSendOnly(w.clients, clients') && AllLeftBehind(EnvelopesOf(w.server.messages), clients')
  {
    var clients' := Posted(w, user, a, heard, stored).clients;
    var ok := PostedMovesOneClient(w, user, a, heard, stored);
    SendingSendsOnly(w.clients[user], a, ok);
    OneClientSendsOnly(w.clients, user, Sent(w.clients[user], a, ok).0);
    forall u, id
      ensures Grows(w.clients, clients', u, id)
    {
      PostingGrows(w, user, a, heard, stored, u, id);
    }
    LeftBehindCarriesOver(EnvelopesOf(w.server.messages), w.clients, clients');
  }

  lemma PostedIsLeftBehind(w: World, user: string, a: Attempt, heard: bool, stored: bool)
    requires AllCountersMatch(w.clients) && user in w.clients && user in w.stores && w.clients[user].userId == user
    requires Prepared(w.clients[user], a).1.Some?
    ensures LeftBehind(Prepared(w.clients[user], a).1.value, Posted(w, user, a, heard, stored).clients)
  {
    var ok := PostedMovesOneClient(w, user, a, heard, stored);
    BuiltIsLeftBehind(w.clients[user], a, ok);
  }

  /** The server's envelopes after a post: one more if it was accepted, else the same. */
  lemma PostedEnvelopes(w: World, user: string, a: Attempt, heard: bool, stored: bool)
    requires user in w.clients && user in w.stores && w.clients[user].userId == user
    ensures
      var envelopes, envelope := EnvelopesOf(w.server.messages), Prepared(w.clients[user], a).1;
      EnvelopesOf(Posted(w, user, a, heard, stored).server.messages)
      == if envelope.Some? && MessageSent(w.server, user, envelope.value).1.Ok?
         then envelopes[envelope.value.id := envelope.value] else envelopes
    ensures
      var envelope := Prepared(w.clients[user], a).1;
      envelope.Some? && MessageSent(w.server, user, envelope.value).1.Ok? ==>
        envelope.value.id !in EnvelopesOf(w.server.messages)
  {
    PostedMovesServer(w, user, a, heard, stored);
    var envelope := Prepared(w.clients[user], a).1;
    if envelope.Some? && MessageSent(w.server, user, envelope.value).1.Ok? {
      PostingAddsOneMessage(w, user, a);
    } else if envelope.Some? {
      RefusedMessageLeavesTables(w.server, user, envelope.value);
    }
  }

  lemma PostedKeepsTraffic(w: World, user: string, a: Attempt, heard: bool, stored: bool)
    requires TrafficInv(w) && AllCountersMatch(w.clients)
    requires user in w.clients && user in w.stores && w.clients[user].userId == user
    ensures TrafficInv(Posted(w, user, a, heard, stored))
  {
    var w', envelope := Posted(w, user, a, heard, stored), Prepared(w.clients[user], a).1;
    PostedMovesClients(w, user, a, heard, stored);
    PostedEnvelopes(w, user, a, heard, stored);
    if envelope.Some? {
      PostedIsLeftBehind(w, user, a, heard, stored);
      NewMessageIsLeftBehind(EnvelopesOf(w.server.messages), w'.clients, envelope.value);
    }
    AllHeardCarriesOver(
      w.clients, w'.clients, EnvelopesOf(w.server.messages), EnvelopesOf(w'.server.messages));
  }

  /** A receipt moves the receiving part of one session. */
  lemma ReceivingMovesOneReceiver(w: World, user: string, e: Envelope, keysVerified: bool, stored: bool)
    requires user in w.clients && user in w.stores && user in w.dhKeys
    ensures
      var w' := Received(w, user, e, keysVerified, stored);
      var s := SessionFor(w.clients[user], w.dhKeys[user], e, keysVerified);
      && w'.server == w.server
      && w'.clients == w.clients[user :=
           if s.None? then w.clients[user]
           else WithSession(w.clients[user], e.conversationId,
                            s.value.(receiver := Decrypted(s.value.receiver, e).0))]
  {
    HandlingMovesOneSession(w.clients[user], w.stores[user], w.dhKeys[user], e, keysVerified, stored);
  }

  lemma ReceivingGrows(w: World, user: string, e: Envelope, keysVerified: bool, stored: bool, u: string, id: string)
    requires user in w.clients && user in w.stores && user in w.dhKeys
    ensures Grows(w.clients, Received(w, user, e, keysVerified, stored).clients, u, id)
  {
    ReceivingMovesOneReceiver(w, user, e, keysVerified, stored);
  }

  lemma ReceivedIsHeard(w: World, user: string, e: Envelope, keysVerified: bool, stored: bool)
    requires AllHeard(w.clients, EnvelopesOf(w.server.messages)) && SessionsSound(w.clients)
    requires user in w.clients && user in w.stores && user in w.dhKeys
    requires e.id in EnvelopesOf(w.server.messages) && EnvelopesOf(w.server.messages)[e.id] == e
    requires e.recipientId == user
    ensures AllHeard(Received(w, user, e, keysVerified, stored).clients, EnvelopesOf(w.server.messages))
  {
    ReceivingMovesOneReceiver(w, user, e, keysVerified, stored);
    var s := SessionFor(w.clients[user], w.dhKeys[user], e, keysVerified);
    if s.Some? {
      OpeningSpends(w, user, e, keysVerified);
      DecryptedIsHeard(
        RecvStart(s.value), s.value.receiver, e, EnvelopesOf(w.server.messages), user, e.conversationId);
    }
  }

  lemma ReceivedKeepsTraffic(w: World, user: string, id: string, keysVerified: bool, stored: bool)
    requires TrafficInv(w) && WorldInv(w)
    requires user in w.clients && user in w.stores && user in w.dhKeys && Reaches(w, user, id)
    ensures TrafficInv(Received(w, user, w.server.messages[id].envelope, keysVerified, stored))
  {
    var e := w.server.messages[id].envelope;
    var w' := Received(w, user, e, keysVerified, stored);
    OnlyTheRecipientIsReached(w, user, id);
    ReceivedIsHeard(w, user, e, keysVerified, stored);
    forall u, i
      ensures Grows(w.clients, w'.clients, u, i)
    {
      ReceivingGrows(w, user, e, keysVerified, stored, u, i);
    }
    LeftBehindCarriesOver(EnvelopesOf(w.server.messages), w.clients, w'.clients);
  }

  lemma StepKeepsEnvelopes(w: World, e: EndToEnd.Event)
    requires !e.SendEvent?
    ensures EnvelopesOf(Stepped(w, e).server.messages) == EnvelopesOf(w.server.messages)
  {
    if Stepped(w, e) != w {
      match e {
        case ServerEvent(call) => CallsKeepEnvelopes(w.server, call);
        case AckEvent(user, id, now) => AckKeepsEnvelopes(w.server, id, user, now);
        case _ =>
      }
    }
  }

  lemma QuietStepGrows(w: World, e: EndToEnd.Event, user: string, id: string)
    requires !e.SendEvent? && !e.ReceiveEvent? && AllCountersMatch(w.clients)
    ensures Grows(w.clients, Stepped(w, e).clients, user, id)
  {
  }

  lemma SteppedKeepsTraffic(w: World, e: EndToEnd.Event)
    requires TrafficInv(w) && WorldInv(w) && AllCountersMatch(w.clients)
    ensures TrafficInv(Stepped(w, e))
  {
    if Stepped(w, e) != w {
      if e.SendEvent? {
        PostedKeepsTraffic(w, e.user, e.attempt, e.heard, e.stored);
      } else if e.ReceiveEvent? {
        ReceivedKeepsTraffic(w, e.user, e.id, e.keysVerified, e.stored);
      } else {
        QuietStepKeepsTraffic(w, e);
      }
    }
  }

  lemma QuietStepKeepsTraffic(w: World, e: EndToEnd.Event)
    requires TrafficInv(w) && AllCountersMatch(w.clients) && !e.SendEvent? && !e.ReceiveEvent?
    ensures TrafficInv(Stepped(w, e))
  {
    StepKeepsEnvelopes(w, e);
    StepsSendOnly(w, e);
    forall u, i
      ensures Grows(w.clients, Stepped(w, e).clients, u, i)
    {
      QuietStepGrows(w, e, u, i);
    }
    LeftBehindCarriesOver(EnvelopesOf(w.server.messages), w.clients, Stepped(w, e).clients);
    AllHeardCarriesOver(
      w.clients, Stepped(w, e).clients, EnvelopesOf(w.server.messages), EnvelopesOf(w.server.messages));
  }

  /** Everything that is known of the worlds of a run. */
  ghost predicate Reached(w: World)
  {
    WorldInv(w) && SendInv(w) && TrafficInv(w) && AllCountersMatch(w.clients)
  }

  lemma StepKeepsSendInv(w: World, e: EndToEnd.Event)
    requires SendInv(w)
    ensures SendInv(Stepped(w, e))
  {
    if !e.SendEvent? {
      OtherStepsKeepSendInv(w, e);
    } else if Stepped(w, e) != w {
      PostedKeepsSendInv(w, e.user, e.attempt, e.heard, e.stored);
    }
  }

  lemma StepKeepsReached(w: World, e: EndToEnd.Event)
    requires Reached(w)
    ensures Reached(Stepped(w, e))
  {
    SteppedKeepsInv(w, e);
    StepKeepsSendInv(w, e);
    SteppedKeepsTraffic(w, e);
    SteppedKeepsMatch(w, e);
  }

  lemma {:induction false} ReachedAlong(w: World, events: seq<EndToEnd.Event>)
    requires Reached(w)
    ensures Reached(WorldAfter(w, events))
  {
    if events != [] {
      ReachedAlong(w, events[..|events| - 1]);
      StepKeepsReached(WorldAfter(w, events[..|events| - 1]), events[|events| - 1]);
    }
  }

  lemma InitialIsReached(w: World)
    requires Initial(w) && AllCountersMatch(w.clients)
    ensures Reached(w)
  {
    WorldStaysSound(w, []);
    SendInvHoldsAlong(w, []);
  }
}
