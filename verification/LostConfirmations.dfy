/**
 What becomes of a sender whose request the server accepted without the sender's hearing of it
 (client/use_cases/send_message.py, server/api/messages.py): exactly then, the counter of the next
 message is taken, for good.
 */
module LostConfirmations {
  import opened Common
  import opened KeySchedule
  import opened Protocol
  import opened Tables
  import opened Messages
  import opened Server
  import opened SendPath
  import opened Inbox
  import opened EndToEnd

  /** A counter in memory is the one stored with its session. */
  ghost predicate CountersMatch(c: Client)
  {
    forall id :: id in c.counters ==> id in c.sessions && c.counters[id] == c.sessions[id].nextOutbound
  }

  ghost predicate AllCountersMatch(clients: map<string, Client>)
  {
    forall user :: user in clients ==> CountersMatch(clients[user])
  }

  lemma SentKeepsMatch(c: Client, a: Attempt, ok: bool)
    requires CountersMatch(c)
    ensures CountersMatch(Sent(c, a, ok).0)
    ensures forall id :: id in c.sessions && id != a.conversationId ==>
              id in Sent(c, a, ok).0.sessions && NextCounter(Sent(c, a, ok).0, id) == NextCounter(c, id)
    ensures !ok && a.conversationId in c.sessions ==>
              NextCounter(Sent(c, a, ok).0, a.conversationId) == NextCounter(c, a.conversationId)
  {
  }

  lemma SteppedKeepsMatch(w: World, e: EndToEnd.Event)
    requires AllCountersMatch(w.clients)
    ensures AllCountersMatch(Stepped(w, e).clients)
  {
    if e.SendEvent? && Stepped(w, e) != w {
      var ok := PostedMovesOneClient(w, e.user, e.attempt, e.heard, e.stored);
      SentKeepsMatch(w.clients[e.user], e.attempt, ok);
    }
  }

  lemma {:induction false} CountersMatchAlong(w: World, events: seq<EndToEnd.Event>)
    requires AllCountersMatch(w.clients)
    ensures AllCountersMatch(WorldAfter(w, events).clients)
  {
    if events != [] {
      CountersMatchAlong(w, events[..|events| - 1]);
      SteppedKeepsMatch(WorldAfter(w, events[..|events| - 1]), events[|events| - 1]);
    }
  }

  /** The server holds a message under the very counter that the user's next one will carry. */
  ghost predicate Stuck(w: World, user: string, conversationId: string, id: string)
  {
    && user in w.clients && w.clients[user].userId == user && conversationId in w.clients[user].sessions
    && id in w.server.messages
    && var e := w.server.messages[id].envelope;
       && e.conversationId == conversationId && e.senderId == user
       && e.counter == NextCounter(w.clients[user], conversationId)
  }

  lemma StuckMeansRefused(w: World, user: string, id: string, a: Attempt)
    requires Stuck(w, user, a.conversationId, id) && Prepared(w.clients[user], a).1.Some?
    ensures MessageSent(w.server, user, Prepared(w.clients[user], a).1.value).1.Err?
  {
    PreparedEnvelope(w.clients[user], a);
    var e := Prepared(w.clients[user], a).1.value;
    assert SameCounter(w.server.messages[id].envelope, e);
    if MessageSent(w.server, user, e).1.Ok? {
      AcceptedMessagePassed(w.server, user, e);
    }
  }

  /** An accepted send of which the client does not hear, or which it cannot save, leaves it stuck. */
  lemma LostConfirmationSticks(w: World, user: string, a: Attempt, heard: bool, stored: bool)
    requires user in w.clients && user in w.stores && w.clients[user].userId == user && !(heard && stored)
    requires Prepared(w.clients[user], a).1.Some?
    requires MessageSent(w.server, user, Prepared(w.clients[user], a).1.value).1.Ok?
    ensures Stuck(Posted(w, user, a, heard, stored), user, a.conversationId, a.id)
  {
    PreparedEnvelope(w.clients[user], a);
    PostingAddsOneMessage(w, user, a);
  }

  lemma ReceivingKeepsCounters(
    c: Client, store: Store, dhKey: Scalar, e: Envelope, keysVerified: bool, stored: bool, id: string)
    ensures
      var c' := Handled(c, store, dhKey, e, keysVerified, stored).client;
      && c'.userId == c.userId
      && (id in c.sessions ==> id in c'.sessions && NextCounter(c', id) == NextCounter(c, id))
  {
  }

  /** Whatever leaves the server and the user's next counter alone keeps what is stuck. */
  lemma StuckClientsStay(w: World, w': World, user: string, conversationId: string, id: string)
    requires Stuck(w, user, conversationId, id) && w'.server == w.server
    requires user in w'.clients && w'.clients[user].userId == user && conversationId in w'.clients[user].sessions
    requires NextCounter(w'.clients[user], conversationId) == NextCounter(w.clients[user], conversationId)
    ensures Stuck(w', user, conversationId, id)
  {
  }

  lemma PostedKeepsMessage(w: World, user: string, a: Attempt, heard: bool, stored: bool, id: string)
    requires ServerInv(w.server) && user in w.clients && user in w.stores && id in w.server.messages
    ensures
      var w' := Posted(w, user, a, heard, stored);
      id in w'.server.messages && w'.server.messages[id].envelope == w.server.messages[id].envelope
  {
    PostedMovesServer(w, user, a, heard, stored);
    var envelope := Prepared(w.clients[user], a).1;
    if envelope.Some? {
      SendKeepsMessage(w.server, user, envelope.value, id);
    }
  }

  lemma SendKeepsMessage(t: Tables, caller: string, e: Envelope, id: string)
    requires ServerInv(t) && id in t.messages
    ensures id in MessageSent(t, caller, e).0.messages
    ensures MessageSent(t, caller, e).0.messages[id].envelope == t.messages[id].envelope
  {
    if MessageSent(t, caller, e).1.Ok? {
      AcceptedMessagePassed(t, caller, e);
    } else {
      RefusedMessageLeavesTables(t, caller, e);
    }
  }

  /** A refused send of one's own, or any send of anyone else, leaves a stuck client's next counter. */
  lemma StuckCounterStays(
    w: World, sender: string, a: Attempt, heard: bool, stored: bool, user: string, conversationId: string, id: string)
    requires Stuck(w, user, conversationId, id) && AllCountersMatch(w.clients)
    requires sender in w.clients && sender in w.stores
    ensures
      var clients' := Posted(w, sender, a, heard, stored).clients;
      && user in clients' && clients'[user].userId == user && conversationId in clients'[user].sessions
      && NextCounter(clients'[user], conversationId) == NextCounter(w.clients[user], conversationId)
  {
    var ok := PostedMovesOneClient(w, sender, a, heard, stored);
    SentKeepsMatch(w.clients[sender], a, ok);
    if sender == user && a.conversationId == conversationId && ok {
      StuckMeansRefused(w, user, id, a);
    }
  }

  lemma StuckStaysOnSending(w: World, e: EndToEnd.Event, user: string, conversationId: string, id: string)
    requires Stuck(w, user, conversationId, id) && ServerInv(w.server) && AllCountersMatch(w.clients)
    requires e.SendEvent? && Stepped(w, e) != w
    ensures Stuck(Stepped(w, e), user, conversationId, id)
    ensures NextCounter(Stepped(w, e).clients[user], conversationId) == NextCounter(w.clients[user], conversationId)
  {
    PostedKeepsMessage(w, e.user, e.attempt, e.heard, e.stored, id);
    StuckCounterStays(w, e.user, e.attempt, e.heard, e.stored, user, conversationId, id);
  }

  lemma ReceivingKeepsNextCounter(
    w: World, receiver: string, e: Envelope, keysVerified: bool, stored: bool, user: string, conversationId: string)
    requires receiver in w.clients && receiver in w.stores && receiver in w.dhKeys
    requires user in w.clients && conversationId in w.clients[user].sessions
    ensures
      var clients' := Received(w, receiver, e, keysVerified, stored).clients;
      && user in clients' && clients'[user].userId == w.clients[user].userId
      && conversationId in clients'[user].sessions
      && NextCounter(clients'[user], conversationId) == NextCounter(w.clients[user], conversationId)
  {
    ReceivingKeepsCounters(
      w.clients[receiver], w.stores[receiver], w.dhKeys[receiver], e, keysVerified, stored, conversationId);
  }

  lemma StuckStays(w: World, e: EndToEnd.Event, user: string, conversationId: string, id: string)
    requires Stuck(w, user, conversationId, id) && ServerInv(w.server) && AllCountersMatch(w.clients)
    ensures Stuck(Stepped(w, e), user, conversationId, id)
    ensures NextCounter(Stepped(w, e).clients[user], conversationId) == NextCounter(w.clients[user], conversationId)
  {
    if Stepped(w, e) != w {
      match e {
        case ServerEvent(call) => ServedKeepsMessage(w.server, call, id);
        case SendEvent(_, _, _, _) => StuckStaysOnSending(w, e, user, conversationId, id);
        case AckEvent(other, acked, now) => ServedKeepsMessage(w.server, AckCall(other, acked, now), id);
        case ReceiveEvent(receiver, received, keysVerified, stored) =>
          ReceivingKeepsNextCounter(
            w, receiver, w.server.messages[received].envelope, keysVerified, stored, user, conversationId);
          StuckClientsStay(w, Stepped(w, e), user, conversationId, id);
        case _ => StuckClientsStay(w, Stepped(w, e), user, conversationId, id);
      }
    }
  }

  /** The server accepts this send, but the client does not hear of it or cannot save it. */
  ghost predicate ConfirmationLost(w: World, user: string, a: Attempt, heard: bool, stored: bool)
  {
    && user in w.clients && user in w.stores && w.clients[user].userId == user && !(heard && stored)
    && Prepared(w.clients[user], a).1.Some?
    && MessageSent(w.server, user, Prepared(w.clients[user], a).1.value).1.Ok?
  }

  lemma {:induction false} StuckAlong(
    w: World, events: seq<EndToEnd.Event>, user: string, conversationId: string, id: string)
    requires Stuck(w, user, conversationId, id) && WorldInv(w) && AllCountersMatch(w.clients)
    ensures Stuck(WorldAfter(w, events), user, conversationId, id)
    ensures NextCounter(WorldAfter(w, events).clients[user], conversationId)
         == NextCounter(w.clients[user], conversationId)
  {
    if events != [] {
      var init := events[..|events| - 1];
      StuckAlong(w, init, user, conversationId, id);
      InvHoldsAlong(w, init);
      CountersMatchAlong(w, init);
      StuckStays(WorldAfter(w, init), events[|events| - 1], user, conversationId, id);
    }
  }

  lemma LostConfirmationSticksAlong(
    w: World, user: string, a: Attempt, heard: bool, stored: bool, after: seq<EndToEnd.Event>)
    requires WorldInv(w) && AllCountersMatch(w.clients) && ConfirmationLost(w, user, a, heard, stored)
    ensures
      var w1 := Posted(w, user, a, heard, stored);
      var w2 := WorldAfter(w1, after);
      && Stuck(w1, user, a.conversationId, a.id) && Stuck(w2, user, a.conversationId, a.id)
      && NextCounter(w2.clients[user], a.conversationId) == NextCounter(w1.clients[user], a.conversationId)
  {
    LostConfirmationSticks(w, user, a, heard, stored);
    PostedKeepsInv(w, user, a, heard, stored);
    SteppedKeepsMatch(w, EndToEnd.Event.SendEvent(user, a, heard, stored));
    StuckAlong(Posted(w, user, a, heard, stored), after, user, a.conversationId, a.id);
  }

  /**
   The price of the replay constraint. Once the server has accepted a message and its sender did not
   hear of it, or could not save it, the sender's counter for that conversation never moves again, and
   the server refuses everything they send there, whatever else happens.
   */
  lemma LostConfirmationBlocksTheConversation(
    w: World, before: seq<EndToEnd.Event>, user: string, a: Attempt, heard: bool, stored: bool,
    after: seq<EndToEnd.Event>, a': Attempt)
    requires Initial(w) && AllCountersMatch(w.clients)
    requires ConfirmationLost(WorldAfter(w, before), user, a, heard, stored)
    requires a'.conversationId == a.conversationId
    ensures
      var w1 := Posted(WorldAfter(w, before), user, a, heard, stored);
      var w2 := WorldAfter(w1, after);
      && user in w2.clients && a.conversationId in w1.clients[user].sessions
      && a.conversationId in w2.clients[user].sessions
      && NextCounter(w2.clients[user], a.conversationId) == NextCounter(w1.clients[user], a.conversationId)
      && (Prepared(w2.clients[user], a').1.Some? ==>
            MessageSent(w2.server, user, Prepared(w2.clients[user], a').1.value).1.Err?)
  {
    WorldStaysSound(w, before);
    CountersMatchAlong(w, before);
    LostConfirmationSticksAlong(WorldAfter(w, before), user, a, heard, stored, after);
    var w2 := WorldAfter(Posted(WorldAfter(w, before), user, a, heard, stored), after);
    if Prepared(w2.clients[user], a').1.Some? {
      StuckMeansRefused(w2, user, a.id, a');
    }
  }

  // ---------------------------------------------------------------- and when none is lost

  /** Every stored message of the user in the conversation has a counter below that of the next one. */
  ghost predicate Behind(
    envelopes: map<string, Envelope>, clients: map<string, Client>, user: string, conversationId: string)
  {
    forall id :: id in envelopes && envelopes[id].senderId == user && envelopes[id].conversationId == conversationId ==>
      && user in clients && conversationId in clients[user].sessions
      && envelopes[id].counter < NextCounter(clients[user], conversationId)
  }

  ghost predicate AllBehind(w: World, user: string, conversationId: string)
  {
    Behind(EnvelopesOf(w.server.messages), w.clients, user, conversationId)
  }

  lemma BehindIsNotStuck(w: World, user: string, conversationId: string, id: string)
    requires AllBehind(w, user, conversationId)
    ensures !Stuck(w, user, conversationId, id)
  {
    if id in w.server.messages {
      assert EnvelopesOf(w.server.messages)[id] == w.server.messages[id].envelope;
    }
  }

  /** The next counter of a conversation never falls. */
  ghost predicate CounterGrows(clients: map<string, Client>, clients': map<string, Client>, user: string, id: string)
  {
    user in clients && id in clients[user].sessions ==>
      user in clients' && id in clients'[user].sessions
      && NextCounter(clients[user], id) <= NextCounter(clients'[user], id)
  }

  lemma BehindCarriesOver(
    envelopes: map<string, Envelope>, clients: map<string, Client>, clients': map<string, Client>,
    user: string, conversationId: string)
    requires Behind(envelopes, clients, user, conversationId)
    requires CounterGrows(clients, clients', user, conversationId)
    ensures Behind(envelopes, clients', user, conversationId)
  {
  }

  /** A send moves the counter of its conversation on by one if it is confirmed, and no counter otherwise. */
  lemma SendingMovesItsCounter(c: Client, a: Attempt, ok: bool)
    requires CountersMatch(c) && Sent(c, a, ok).1.Some?
    ensures
      var c', e, id := Sent(c, a, ok).0, Sent(c, a, ok).1.value, a.conversationId;
      && id in c'.sessions && e.conversationId == id && e.senderId == c.userId
      && NextCounter(c', id) == (if ok then e.counter + 1 else e.counter)
      && (id in c.sessions ==> e.counter == NextCounter(c, id))
  {
    PreparedEnvelope(c, a);
    SentIsOneMoreBuilt(c, a, ok);
  }

  lemma PostingGrowsCounters(w: World, sender: string, a: Attempt, heard: bool, stored: bool, user: string, id: string)
    requires AllCountersMatch(w.clients) && sender in w.clients && sender in w.stores
    ensures CounterGrows(w.clients, Posted(w, sender, a, heard, stored).clients, user, id)
  {
    var ok := PostedMovesOneClient(w, sender, a, heard, stored);
    SentKeepsMatch(w.clients[sender], a, ok);
    if ok {
      SendingMovesItsCounter(w.clients[sender], a, ok);
    }
  }

  /** A message that was accepted and confirmed is behind its sender's next. */
  lemma ConfirmedIsBehind(w: World, sender: string, a: Attempt, heard: bool, stored: bool)
    requires AllCountersMatch(w.clients) && sender in w.clients && sender in w.stores && heard && stored
    requires w.clients[sender].userId == sender && Prepared(w.clients[sender], a).1.Some?
    requires MessageSent(w.server, sender, Prepared(w.clients[sender], a).1.value).1.Ok?
    ensures
      var w', e := Posted(w, sender, a, heard, stored), Prepared(w.clients[sender], a).1.value;
      && e.senderId == sender && e.conversationId == a.conversationId
      && a.conversationId in w'.clients[sender].sessions
      && e.counter < NextCounter(w'.clients[sender], a.conversationId)
  {
    var ok := PostedMovesOneClient(w, sender, a, heard, stored);
    SendingMovesItsCounter(w.clients[sender], a, ok);
  }

  lemma PostedKeepsBehind(
    w: World, sender: string, a: Attempt, heard: bool, stored: bool, user: string, conversationId: string)
    requires AllCountersMatch(w.clients) && AllBehind(w, user, conversationId)
    requires sender in w.clients && sender in w.stores && w.clients[sender].userId == sender
    requires !(sender == user && a.conversationId == conversationId && ConfirmationLost(w, sender, a, heard, stored))
    ensures AllBehind(Posted(w, sender, a, heard, stored), user, conversationId)
  {
    var w', envelope := Posted(w, sender, a, heard, stored), Prepared(w.clients[sender], a).1;
    PostingGrowsCounters(w, sender, a, heard, stored, user, conversationId);
    BehindCarriesOver(EnvelopesOf(w.server.messages), w.clients, w'.clients, user, conversationId);
    PostedMovesServer(w, sender, a, heard, stored);
    if envelope.Some? && MessageSent(w.server, sender, envelope.value).1.Ok? {
      PostingAddsOneMessage(w, sender, a);
      PreparedEnvelope(w.clients[sender], a);
      if heard && stored {
        ConfirmedIsBehind(w, sender, a, heard, stored);
      }
    } else if envelope.Some? {
      RefusedMessageLeavesTables(w.server, sender, envelope.value);
    }
  }

  /** Steps other than sending leave messages alone and let no counter fall. */
  lemma OtherStepsKeepBehind(w: World, e: EndToEnd.Event, user: string, conversationId: string)
    requires AllCountersMatch(w.clients) && AllBehind(w, user, conversationId) && !e.SendEvent?
    ensures AllBehind(Stepped(w, e), user, conversationId)
  {
    if Stepped(w, e) != w {
      match e {
        case ServerEvent(call) =>
          if IsSocial(call) {
            SocialCallsLeaveMessages(w.server, call);
          } else {
            ReadKeepsPairs(w.server, call.caller, call.conversationId);
          }
        case AckEvent(other, acked, now) => AckKeepsEnvelopes(w.server, acked, other, now);
        case ReceiveEvent(receiver, received, keysVerified, stored) =>
          ReceivingKeepsCounters(
            w.clients[receiver], w.stores[receiver], w.dhKeys[receiver], w.server.messages[received].envelope,
            keysVerified, stored, conversationId);
          BehindCarriesOver(
            EnvelopesOf(w.server.messages), w.clients, Stepped(w, e).clients, user, conversationId);
        case _ =>
          BehindCarriesOver(
            EnvelopesOf(w.server.messages), w.clients, Stepped(w, e).clients, user, conversationId);
      }
    }
  }

  /** Event k sent a message of the user in the conversation whose confirmation was lost. */
  ghost predicate LostAt(w: World, events: seq<EndToEnd.Event>, k: nat, user: string, conversationId: string)
  {
    k < |events| && Loses(WorldAfter(w, events[..k]), events[k], user, conversationId)
  }

  ghost predicate Loses(w: World, e: EndToEnd.Event, user: string, conversationId: string)
  {
    && e.SendEvent? && e.user == user && e.attempt.conversationId == conversationId
    && ConfirmationLost(w, user, e.attempt, e.heard, e.stored)
  }

  lemma EarlierLossesStay(w: World, init: seq<EndToEnd.Event>, last: EndToEnd.Event, k: nat, user: string, id: string)
    requires k < |init|
    ensures LostAt(w, init + [last], k, user, id) <==> LostAt(w, init, k, user, id)
  {
    assert (init + [last])[..k] == init[..k];
  }

  lemma LastStep(w: World, init: seq<EndToEnd.Event>, last: EndToEnd.Event)
    ensures WorldAfter(w, init + [last]) == Stepped(WorldAfter(w, init), last)
    ensures (init + [last])[..|init|] == init
  {
  }

  lemma StuckStaysInARun(
    w: World, init: seq<EndToEnd.Event>, last: EndToEnd.Event, user: string, conversationId: string, id: string)
    requires Initial(w) && AllCountersMatch(w.clients) && Stuck(WorldAfter(w, init), user, conversationId, id)
    ensures Stuck(Stepped(WorldAfter(w, init), last), user, conversationId, id)
  {
    WorldStaysSound(w, init);
    CountersMatchAlong(w, init);
    StuckStays(WorldAfter(w, init), last, user, conversationId, id);
  }

  lemma LossSticksAtOnce(w: World, e: EndToEnd.Event, user: string, conversationId: string)
    requires Loses(w, e, user, conversationId)
    ensures SomeStuck(Stepped(w, e), user, conversationId)
  {
    LostConfirmationSticks(w, e.user, e.attempt, e.heard, e.stored);
  }

  lemma StepAfterPrefix(w: World, events: seq<EndToEnd.Event>, k: nat)
    requires k < |events|
    ensures WorldAfter(w, events[..k + 1]) == Stepped(WorldAfter(w, events[..k]), events[k])
  {
    assert events[..k + 1] == events[..k] + [events[k]];
    LastStep(w, events[..k], events[k]);
  }

  lemma LossAtTheEnd(w: World, events: seq<EndToEnd.Event>, k: nat, user: string, conversationId: string)
    requires LostAt(w, events, k, user, conversationId)
    ensures SomeStuck(WorldAfter(w, events[..k + 1]), user, conversationId)
  {
    StepAfterPrefix(w, events, k);
    LossSticksAtOnce(WorldAfter(w, events[..k]), events[k], user, conversationId);
  }

  lemma StuckAtTheEnd(
    w: World, init: seq<EndToEnd.Event>, last: EndToEnd.Event, user: string, conversationId: string)
    requires Initial(w) && AllCountersMatch(w.clients) && SomeStuck(WorldAfter(w, init), user, conversationId)
    ensures SomeStuck(WorldAfter(w, init + [last]), user, conversationId)
  {
    var id :| Stuck(WorldAfter(w, init), user, conversationId, id);
    StuckStaysInARun(w, init, last, user, conversationId, id);
    LastStep(w, init, last);
  }

  ghost predicate SomeStuck(w: World, user: string, conversationId: string)
  {
    exists id :: Stuck(w, user, conversationId, id)
  }

  lemma {:induction false} StuckStaysToTheEnd(
    w: World, events: seq<EndToEnd.Event>, n: nat, user: string, conversationId: string)
    requires Initial(w) && AllCountersMatch(w.clients) && n <= |events|
    requires SomeStuck(WorldAfter(w, events[..n]), user, conversationId)
    ensures SomeStuck(WorldAfter(w, events), user, conversationId)
  {
    if n < |events| {
      var init, last := events[..|events| - 1], events[|events| - 1];
      assert init[..n] == events[..n] && init + [last] == events;
      StuckStaysToTheEnd(w, init, n, user, conversationId);
      StuckAtTheEnd(w, init, last, user, conversationId);
    } else {
      assert events[..n] == events;
    }
  }

  /** A loss leaves the conversation stuck from then on. */
  lemma LossesStick(w: World, events: seq<EndToEnd.Event>, k: nat, user: string, conversationId: string)
    requires Initial(w) && AllCountersMatch(w.clients) && LostAt(w, events, k, user, conversationId)
    ensures SomeStuck(WorldAfter(w, events), user, conversationId)
  {
    LossAtTheEnd(w, events, k, user, conversationId);
    StuckStaysToTheEnd(w, events, k + 1, user, conversationId);
  }

  lemma {:induction false} WithoutLossesAllIsBehind(
    w: World, events: seq<EndToEnd.Event>, user: string, conversationId: string)
    requires Initial(w) && AllCountersMatch(w.clients)
    requires forall k: nat :: !LostAt(w, events, k, user, conversationId)
    ensures AllBehind(WorldAfter(w, events), user, conversationId)
  {
    if events != [] {
      var init, last := events[..|events| - 1], events[|events| - 1];
      assert events == init + [last];
      LastStep(w, init, last);
      forall k: nat
        ensures !LostAt(w, init, k, user, conversationId)
      {
        if k < |init| {
          EarlierLossesStay(w, init, last, k, user, conversationId);
        }
      }
      WithoutLossesAllIsBehind(w, init, user, conversationId);
      CountersMatchAlong(w, init);
      var w1 := WorldAfter(w, init);
      if !last.SendEvent? {
        OtherStepsKeepBehind(w1, last, user, conversationId);
      } else if Stepped(w1, last) != w1 {
        assert !LostAt(w, events, |init|, user, conversationId);
        PostedKeepsBehind(w1, last.user, last.attempt, last.heard, last.stored, user, conversationId);
      }
    }
  }

  ghost predicate SomeLoss(w: World, events: seq<EndToEnd.Event>, user: string, conversationId: string)
  {
    exists k: nat :: LostAt(w, events, k, user, conversationId)
  }

  lemma SomeLossSticks(w: World, events: seq<EndToEnd.Event>, user: string, conversationId: string)
    requires Initial(w) && AllCountersMatch(w.clients) && SomeLoss(w, events, user, conversationId)
    ensures SomeStuck(WorldAfter(w, events), user, conversationId)
  {
    var k: nat :| LostAt(w, events, k, user, conversationId);
    LossesStick(w, events, k, user, conversationId);
  }

  /**
   Exactly when a sender is stuck. After any run, the counter of a user's next message in a conversation
   is taken by a message of theirs if and only if some send of theirs there was accepted without their
   hearing of it or without its being saved.
   */
  lemma StuckExactlyAfterALoss(w: World, events: seq<EndToEnd.Event>, user: string, conversationId: string)
    requires Initial(w) && AllCountersMatch(w.clients)
    ensures SomeStuck(WorldAfter(w, events), user, conversationId) <==> SomeLoss(w, events, user, conversationId)
  {
    if SomeLoss(w, events, user, conversationId) {
      SomeLossSticks(w, events, user, conversationId);
    } else {
      WithoutLossesAllIsBehind(w, events, user, conversationId);
      forall id
        ensures !Stuck(WorldAfter(w, events), user, conversationId, id)
      {
        BehindIsNotStuck(WorldAfter(w, events), user, conversationId, id);
      }
    }
  }

  /**
   A user's next message in a conversation finds its counter taken if and only if a confirmation was lost
   there at any time before, whatever else happened since.
   */
  lemma NextCounterIsTakenExactlyAfterALoss(w: World, events: seq<EndToEnd.Event>, user: string, a: Attempt)
    requires Initial(w) && AllCountersMatch(w.clients)
    requires user in WorldAfter(w, events).clients && WorldAfter(w, events).clients[user].userId == user
    requires Prepared(WorldAfter(w, events).clients[user], a).1.Some?
    ensures
      var w' := WorldAfter(w, events);
      CounterTaken(w'.server, Prepared(w'.clients[user], a).1.value)
      <==> SomeLoss(w, events, user, a.conversationId)
  {
    var w' := WorldAfter(w, events);
    CountersMatchAlong(w, events);
    PreparedEnvelope(w'.clients[user], a);
    SendingMovesItsCounter(w'.clients[user], a, false);
    var e := Prepared(w'.clients[user], a).1.value;
    if SomeLoss(w, events, user, a.conversationId) {
      SomeLossSticks(w, events, user, a.conversationId);
      var id :| Stuck(w', user, a.conversationId, id);
      assert SameCounter(w'.server.messages[id].envelope, e);
    } else {
      WithoutLossesAllIsBehind(w, events, user, a.conversationId);
      forall id | id in w'.server.messages
        ensures !SameCounter(w'.server.messages[id].envelope, e)
      {
        assert EnvelopesOf(w'.server.messages)[id] == w'.server.messages[id].envelope;
      }
    }
  }

  // ---------------------------------------------------------------- it does happen

  function AsEvents(calls: seq<Call>): seq<EndToEnd.Event>
  {
    seq(|calls|, i requires 0 <= i < |calls| => ServerEvent(calls[i]))
  }

  lemma {:induction false} CallsMoveTheServer(w: World, calls: seq<Call>)
    requires forall i :: 0 <= i < |calls| ==> !calls[i].SendCall? && !calls[i].AckCall?
    ensures WorldAfter(w, AsEvents(calls)) == w.(server := After(w.server, calls))
  {
    if calls != [] {
      var init := calls[..|calls| - 1];
      CallsMoveTheServer(w, init);
      assert AsEvents(calls)[..|calls| - 1] == AsEvents(init);
    }
  }

  const AN_ID := "00000000-0000-4000-8000-000000000000"

  lemma AnIdIsValid()
    ensures IsUuid4(AN_ID)
  {
  }

  const NEWCOMER := Client("a", map[], map[], map[])
  const NEW_WORLD := World(
    EMPTY, map["a" := NEWCOMER], map["a" := map[]], map[], {}, map[], [], [])

  /** The first message to a new friend, in a session that is set up for it. */
  function FirstAttempt(): Attempt
  {
    Attempt("c", "b", "hello", 0, AN_ID, seq(12, i => 0), Some(Setup(1, 2, PublicKey(3))))
  }

  /** What the new user sends first: with counter 0, and the keys that set the session up. */
  lemma FirstEnvelope()
    ensures
      var envelope := Prepared(NEWCOMER, FirstAttempt()).1;
      && envelope.Some? && EnvelopeValid(envelope.value) && envelope.value.counter == 0
      && envelope.value.senderId == "a" && envelope.value.recipientId == "b"
      && envelope.value.conversationId == "c" && envelope.value.id == AN_ID
  {
    AnIdIsValid();
    var c := SessionEnsured(NEWCOMER, FirstAttempt()).0;
    assert c.sessions["c"].send.index == 0;
    var d := DraftOf(c, FirstAttempt());
    assert ComputeAd(Pipeline.Skeleton(d, 0, 0)).Ok?;
  }

  lemma FirstSendIsAccepted()
    ensures
      var envelope := Prepared(NEWCOMER, FirstAttempt()).1;
      envelope.Some? && MessageSent(After(EMPTY, FRIENDS_RUN), "a", envelope.value).1.Ok?
  {
    var t := After(EMPTY, FRIENDS_RUN);
    FriendsRunMakesFriends();
    EveryReachableStateIsSound(FRIENDS_RUN);
    FirstEnvelope();
    FriendIsLive(t);
    MessagesAreAcceptedExactlyWhen(t, "a", Prepared(NEWCOMER, FirstAttempt()).1.value);
  }

  lemma FirstSendIsLost(w: World)
    requires w == NEW_WORLD.(server := After(EMPTY, FRIENDS_RUN))
    ensures Loses(w, EndToEnd.Event.SendEvent("a", FirstAttempt(), false, true), "a", "c")
  {
    FirstSendIsAccepted();
  }

  lemma LossFollowsFriendship(w: World, init: seq<EndToEnd.Event>)
    requires WorldAfter(w, init) == NEW_WORLD.(server := After(EMPTY, FRIENDS_RUN))
    ensures SomeLoss(w, init + [EndToEnd.Event.SendEvent("a", FirstAttempt(), false, true)], "a", "c")
  {
    FirstSendIsLost(WorldAfter(w, init));
    LossInARun(w, init, EndToEnd.Event.SendEvent("a", FirstAttempt(), false, true), "a", "c");
  }

  lemma NewWorldIsInitial()
    ensures Initial(NEW_WORLD) && AllCountersMatch(NEW_WORLD.clients)
  {
  }

  lemma BefriendedRun() returns (events: seq<EndToEnd.Event>)
    ensures WorldAfter(NEW_WORLD, events) == NEW_WORLD.(server := After(EMPTY, FRIENDS_RUN))
  {
    CallsMoveTheServer(NEW_WORLD, FRIENDS_RUN);
    events := AsEvents(FRIENDS_RUN);
  }

  /** A run in which a confirmation gets lost: two become friends, and the first message times out. */
  lemma ConfirmationsDoGetLost() returns (events: seq<EndToEnd.Event>)
    ensures Initial(NEW_WORLD) && AllCountersMatch(NEW_WORLD.clients)
    ensures SomeLoss(NEW_WORLD, events, "a", "c")
  {
    NewWorldIsInitial();
    events := BefriendedRun();
    LossFollowsFriendship(NEW_WORLD, events);
    events := events + [EndToEnd.Event.SendEvent("a", FirstAttempt(), false, true)];
  }

  lemma LossInARun(w: World, init: seq<EndToEnd.Event>, last: EndToEnd.Event, user: string, conversationId: string)
    requires Loses(WorldAfter(w, init), last, user, conversationId)
    ensures SomeLoss(w, init + [last], user, conversationId)
  {
    LastStep(w, init, last);
    assert LostAt(w, init + [last], |init|, user, conversationId);
  }

  lemma FriendIsLive(t: Tables)
    requires t.users == map["ann" := User("a", false), "bob" := User("b", false)]
    requires "c" in t.conversations && PairsOf(t.conversations)["c"] == Ordered("a", "b")
    ensures IsLiveUserId(t, "b")
    ensures {t.conversations["c"].userA, t.conversations["c"].userB} == {"a", "b"}
  {
    assert t.users["bob"] == User("b", false);
    assert Ordered("a", "b") == (t.conversations["c"].userA, t.conversations["c"].userB);
  }
}
