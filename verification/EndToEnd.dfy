/**
 The whole system: the server, honest clients, and everything in flight between them. A message may
 reach its recipient by push, by the flush on reconnecting or by history synchronisation, any number
 of times and at any time; acknowledgements may be lost, late or repeated; requests may be accepted
 without the sender hearing of it (server/api/messages.py, server/ws/handler.py, client/ui/app.py,
 client/state/store.py).
 */
module EndToEnd {
  import opened Common
  import opened KeySchedule
  import opened Protocol
  import opened Ratchet
  import opened Pipeline
  import opened Tables
  import opened Messages
  import opened Server
  import opened SendPath
  import opened Inbox

  // ---------------------------------------------------------------- the world

  /** A row that was really inserted for a received message. */
  datatype Save = Save(user: string, id: string, plaintext: string)

  /**
   Besides the server and the clients: the acknowledgements in flight, and three histories that nothing
   consults: what was sent under each identifier, what was saved on receipt, and which senders' pushes
   announced a delivery.
   */
  datatype World = World(
    server: Tables,
    clients: map<string, Client>,
    stores: map<string, Store>,
    dhKeys: map<string, Scalar>,
    acks: set<(string, string)>,
    sent: map<string, string>,
    saves: seq<Save>,
    ackPushes: seq<string>)

  datatype Event =
    | ServerEvent(call: Call)  // anything but sending and acknowledging
    | SendEvent(user: string, attempt: Attempt, heard: bool, stored: bool)
    | ReceiveEvent(user: string, id: string, keysVerified: bool, stored: bool)
    | AckEvent(user: string, id: string, now: int)
    | SweepEvent(user: string, expired: set<string>)
    | RestartEvent(user: string)

  /** A received envelope: what its client makes of it, the save if there is one, and the ACK sent. */
  function Received(w: World, user: string, e: Envelope, keysVerified: bool, stored: bool): World
    requires user in w.clients && user in w.stores && user in w.dhKeys
  {
    var h := Handled(w.clients[user], w.stores[user], w.dhKeys[user], e, keysVerified, stored);
    w.(clients := w.clients[user := h.client],
       stores := w.stores[user := h.store],
       saves := if h.saved.Some? then w.saves + [Save(user, e.id, h.saved.value)] else w.saves,
       acks := if h.acked then w.acks + {(user, e.id)} else w.acks)
  }

  /** The envelopes the server hands to a user: their own mail, and others' messages of their conversations. */
  predicate Reaches(w: World, user: string, id: string)
  {
    id in w.server.messages &&
    var e := w.server.messages[id].envelope;
    e.recipientId == user || (Fetchable(w.server, user, e.conversationId).Ok? && e.senderId != user)
  }

  /** A client's send: the server may accept without the client hearing of it, and saving may fail. */
  ghost function Posted(w: World, user: string, a: Attempt, heard: bool, stored: bool): World
    requires user in w.clients && user in w.stores
  {
    var (c1, envelope) := Prepared(w.clients[user], a);
    match envelope
    case None => w.(clients := w.clients[user := c1])
    case Some(e) =>
      var (server, r) := MessageSent(w.server, user, e);
      var ok := r.Ok? && heard && stored;
      w.(server := server,
         sent := if r.Ok? then w.sent[e.id := a.plaintext] else w.sent,
         clients := w.clients[user := Sent(w.clients[user], a, ok).0],
         stores := if ok then w.stores[user := Saved(w.stores[user], e.id, RowOf(e, a.plaintext))] else w.stores)
  }

  /** An acknowledgement arrives; the first one for a message is announced to its sender. */
  function Acked(w: World, user: string, id: string, now: int): World
  {
    var (server, r) := AckMarked(w.server, id, user, now);
    w.(server := server, ackPushes := if r.AckDelivered? then w.ackPushes + [id] else w.ackPushes)
  }

  ghost function Stepped(w: World, e: Event): World
  {
    match e
    case ServerEvent(call) =>
      if call.SendCall? || call.AckCall? then w else w.(server := Served(w.server, call))
    case SendEvent(user, a, heard, stored) =>
      if user in w.clients && user in w.stores && w.clients[user].userId == user
      then Posted(w, user, a, heard, stored) else w
    case ReceiveEvent(user, id, keysVerified, stored) =>
      if user in w.clients && user in w.stores && user in w.dhKeys && Reaches(w, user, id)
      then Received(w, user, w.server.messages[id].envelope, keysVerified, stored) else w
    case AckEvent(user, id, now) =>
      if (user, id) in w.acks then Acked(w, user, id, now) else w
    case SweepEvent(user, expired) =>
      if user in w.stores then w.(stores := w.stores[user := w.stores[user] - expired]) else w
    case RestartEvent(user) =>
      if user in w.clients then w.(clients := w.clients[user := Restarted(w.clients[user])]) else w
  }

  /** Nothing sent, nothing stored, no session yet. */
  predicate Initial(w: World)
  {
    && w.server == EMPTY && w.acks == {} && w.sent == map[] && w.saves == [] && w.ackPushes == []
    && (forall user :: user in w.clients ==> w.clients[user].sessions == map[])
    && (forall user :: user in w.stores ==> w.stores[user] == map[])
  }

  ghost function WorldAfter(w: World, events: seq<Event>): World
  {
    if events == [] then w else Stepped(WorldAfter(w, events[..|events| - 1]), events[|events| - 1])
  }

  // ---------------------------------------------------------------- the invariant

  /** Who has saved which message, at any time so far. */
  function SavedBy(saves: seq<Save>): set<(string, string)>
  {
    set k | 0 <= k < |saves| :: (saves[k].user, saves[k].id)
  }

  /** Every stored message seals the text that was sent under its identifier. */
  ghost predicate TextsSound(envelopes: map<string, Envelope>, sent: map<string, string>)
  {
    forall id :: id in envelopes ==>
      id in sent && envelopes[id].ciphertext.Sealed? && envelopes[id].ciphertext.plaintext == sent[id]
  }

  ghost predicate SessionsSound(clients: map<string, Client>)
  {
    forall user, id :: user in clients && id in clients[user].sessions ==>
      OnSchedule(RecvStart(clients[user].sessions[id]), clients[user].sessions[id].receiver.chain)
  }

  /** A save is of a message to that user, with the text that was sent, and has spent its key. */
  ghost predicate SaveSound(
    s: Save, envelopes: map<string, Envelope>, sent: map<string, string>, clients: map<string, Client>)
  {
    && s.id in envelopes && s.id in sent && s.plaintext == sent[s.id]
    && envelopes[s.id].recipientId == s.user
    && KeySpent(s.user, envelopes[s.id], clients)
  }

  /** The user's session can no longer open this envelope: the index of its key is spent. */
  ghost predicate KeySpent(user: string, e: Envelope, clients: map<string, Client>)
  {
    && user in clients && e.conversationId in clients[user].sessions
    && var s := clients[user].sessions[e.conversationId];
       && Spent(s.receiver.chain, e.chainIndex)
       && e.ciphertext.Sealed? && e.ciphertext.key == MessageKey(RecvStart(s), e.chainIndex)
  }

  ghost predicate SavesSound(
    saves: seq<Save>, envelopes: map<string, Envelope>, sent: map<string, string>, clients: map<string, Client>)
  {
    && (forall k :: 0 <= k < |saves| ==> SaveSound(saves[k], envelopes, sent, clients))
    && (forall j, k :: 0 <= j < k < |saves| ==> (saves[j].user, saves[j].id) != (saves[k].user, saves[k].id))
  }

  /** A local row holds the sent text of a message the user sent, or received and saved. */
  ghost predicate StoresSound(
    stores: map<string, Store>, envelopes: map<string, Envelope>, sent: map<string, string>,
    saved: set<(string, string)>)
  {
    forall user, id :: user in stores && id in stores[user] ==>
      && id in envelopes && id in sent && stores[user][id] == RowOf(envelopes[id], sent[id])
      && (envelopes[id].senderId == user || (user, id) in saved)
  }

  /** Acknowledgements follow saves, delivery marks follow acknowledgements, and pushes follow marks. */
  ghost predicate AcksSound(
    acks: set<(string, string)>, saved: set<(string, string)>, messages: map<string, Message>, ackPushes: seq<string>)
  {
    && acks <= saved
    && (forall id :: id in messages && messages[id].deliveredAt.Some? ==>
          (messages[id].envelope.recipientId, id) in saved)
    && (forall id :: id in ackPushes ==> id in messages && messages[id].deliveredAt.Some?)
    && Distinct(ackPushes)
  }

  ghost predicate WorldInv(w: World)
  {
    var envelopes := EnvelopesOf(w.server.messages);
    && ServerInv(w.server)
    && TextsSound(envelopes, w.sent)
    && SessionsSound(w.clients)
    && SavesSound(w.saves, envelopes, w.sent, w.clients)
    && StoresSound(w.stores, envelopes, w.sent, SavedBy(w.saves))
    && AcksSound(w.acks, SavedBy(w.saves), w.server.messages, w.ackPushes)
  }

  // ---------------------------------------------------------------- receiving

  /** Only a message's recipient is handed it. */
  lemma OnlyTheRecipientIsReached(w: World, user: string, id: string)
    requires MessagesSound(w.server) && Reaches(w, user, id)
    ensures
      var e := w.server.messages[id].envelope;
      id in EnvelopesOf(w.server.messages) && EnvelopesOf(w.server.messages)[id] == e
      && e.id == id && e.recipientId == user && e.senderId != user
  {
    var e := w.server.messages[id].envelope;
    assert EnvelopesOf(w.server.messages)[id] == e;
  }

  /** The session used for an envelope is on schedule, and opening the envelope keeps it so. */
  lemma OpeningSpends(w: World, user: string, e: Envelope, keysVerified: bool)
    requires user in w.clients && user in w.dhKeys && SessionsSound(w.clients)
    requires SessionFor(w.clients[user], w.dhKeys[user], e, keysVerified).Some?
    ensures
      var s := SessionFor(w.clients[user], w.dhKeys[user], e, keysVerified).value;
      var (receiver, r) := Decrypted(s.receiver, e);
      && OnSchedule(RecvStart(s), s.receiver.chain) && OnSchedule(RecvStart(s), receiver.chain)
      && (forall i :: Spent(s.receiver.chain, i) ==> Spent(receiver.chain, i))
      && (r.Ok? ==>
            && !Spent(s.receiver.chain, e.chainIndex) && Spent(receiver.chain, e.chainIndex)
            && e.ciphertext.Sealed? && e.ciphertext.key == MessageKey(RecvStart(s), e.chainIndex)
            && e.ciphertext.plaintext == r.value)
  {
    var s := SessionFor(w.clients[user], w.dhKeys[user], e, keysVerified).value;
    assert OnSchedule(RecvStart(s), s.receiver.chain);
    DecryptedSpendsItsIndex(RecvStart(s), s.receiver, e);
  }

  /** A spent key stays spent when a session receives. */
  lemma KeySpentCarriesOver(user: string, e: Envelope, clients: map<string, Client>, clients': map<string, Client>)
    requires KeySpent(user, e, clients)
    requires SessionsAdvance(clients, clients')
    ensures KeySpent(user, e, clients')
  {
  }

  /** No session disappears, changes its receive chain's origin, or unspends an index. */
  ghost predicate SessionsAdvance(clients: map<string, Client>, clients': map<string, Client>)
  {
    forall user, id :: user in clients && id in clients[user].sessions ==>
      && user in clients' && id in clients'[user].sessions
      && var s, s' := clients[user].sessions[id], clients'[user].sessions[id];
         && RecvStart(s') == RecvStart(s)
         && forall i :: Spent(s.receiver.chain, i) ==> Spent(s'.receiver.chain, i)
  }

  lemma SavesCarryOver(
    saves: seq<Save>, envelopes: map<string, Envelope>, envelopes': map<string, Envelope>,
    sent: map<string, string>, sent': map<string, string>,
    clients: map<string, Client>, clients': map<string, Client>)
    requires SavesSound(saves, envelopes, sent, clients) && SessionsAdvance(clients, clients')
    requires forall id :: id in envelopes ==> id in envelopes' && envelopes'[id] == envelopes[id]
    requires forall id :: id in sent && id in envelopes ==> id in sent' && sent'[id] == sent[id]
    ensures SavesSound(saves, envelopes', sent', clients')
  {
    forall k | 0 <= k < |saves|
      ensures SaveSound(saves[k], envelopes', sent', clients')
    {
      assert SaveSound(saves[k], envelopes, sent, clients);
      KeySpentCarriesOver(saves[k].user, envelopes[saves[k].id], clients, clients');
    }
  }

  /** An envelope whose message was saved before does not open again. */
  lemma SavedDoesNotOpenAgain(w: World, user: string, e: Envelope, keysVerified: bool)
    requires WorldInv(w) && user in w.clients && user in w.dhKeys
    requires e.id in EnvelopesOf(w.server.messages) && EnvelopesOf(w.server.messages)[e.id] == e
    requires (user, e.id) in SavedBy(w.saves) && SessionFor(w.clients[user], w.dhKeys[user], e, keysVerified).Some?
    ensures Decrypted(SessionFor(w.clients[user], w.dhKeys[user], e, keysVerified).value.receiver, e).1.Err?
  {
    var k :| 0 <= k < |w.saves| && (w.saves[k].user, w.saves[k].id) == (user, e.id);
    assert SaveSound(w.saves[k], EnvelopesOf(w.server.messages), w.sent, w.clients);
    OpeningSpends(w, user, e, keysVerified);
  }

  /** Equal slots mean equal identifiers. */
  lemma SlotsNameRows(store: Store, envelopes: map<string, Envelope>, e: Envelope, plaintext: string)
    requires OneMessagePerCounter(envelopes) && e.id in envelopes && envelopes[e.id] == e
    requires forall id :: id in store ==> id in envelopes && SameSlot(store[id], RowOf(envelopes[id], ""))
    ensures forall id :: id in store && SameSlot(store[id], RowOf(e, plaintext)) ==> id == e.id
  {
    forall id | id in store && SameSlot(store[id], RowOf(e, plaintext))
      ensures id == e.id
    {
      assert SameCounter(envelopes[id], envelopes[e.id]);
    }
  }

  /** A row for a received message never clashes: nothing is silently ignored. */
  lemma ReceivedRowIsNew(w: World, user: string, e: Envelope, plaintext: string)
    requires MessagesSound(w.server)
    requires StoresSound(w.stores, EnvelopesOf(w.server.messages), w.sent, SavedBy(w.saves)) && user in w.stores
    requires e.id in EnvelopesOf(w.server.messages) && EnvelopesOf(w.server.messages)[e.id] == e
    requires e.senderId != user && (user, e.id) !in SavedBy(w.saves)
    ensures !Clashes(w.stores[user], e.id, RowOf(e, plaintext))
  {
    NotHeldYet(w.stores, EnvelopesOf(w.server.messages), w.sent, SavedBy(w.saves), user, e);
    SlotsNameRows(w.stores[user], EnvelopesOf(w.server.messages), e, plaintext);
  }

  /** What a user neither sent nor saved on receipt is not in their table. */
  lemma NotHeldYet(
    stores: map<string, Store>, envelopes: map<string, Envelope>, sent: map<string, string>,
    saved: set<(string, string)>, user: string, e: Envelope)
    requires StoresSound(stores, envelopes, sent, saved) && user in stores
    requires e.id in envelopes && envelopes[e.id] == e && e.senderId != user && (user, e.id) !in saved
    ensures e.id !in stores[user]
    ensures forall id :: id in stores[user] ==>
              id in envelopes && SameSlot(stores[user][id], RowOf(envelopes[id], ""))
  {
  }

  lemma SavedByGrows(saves: seq<Save>, s: Save)
    ensures SavedBy(saves + [s]) == SavedBy(saves) + {(s.user, s.id)}
  {
    var saves' := saves + [s];
    assert saves'[|saves|] == s;
    assert forall k :: 0 <= k < |saves| ==> saves'[k] == saves[k];
  }

  lemma SavesGrow(
    saves: seq<Save>, s: Save, envelopes: map<string, Envelope>, sent: map<string, string>,
    clients: map<string, Client>)
    requires SavesSound(saves, envelopes, sent, clients) && SaveSound(s, envelopes, sent, clients)
    requires (s.user, s.id) !in SavedBy(saves)
    ensures SavesSound(saves + [s], envelopes, sent, clients)
  {
    assert forall k :: 0 <= k < |saves| ==> (saves[k].user, saves[k].id) in SavedBy(saves);
  }

  lemma StoresGrow(
    stores: map<string, Store>, envelopes: map<string, Envelope>, sent: map<string, string>,
    saved: set<(string, string)>, user: string, id: string)
    requires StoresSound(stores, envelopes, sent, saved) && user in stores && id in envelopes && id in sent
    requires envelopes[id].senderId == user || (user, id) in saved
    ensures
      var row := RowOf(envelopes[id], sent[id]);
      StoresSound(stores[user := Saved(stores[user], id, row)], envelopes, sent, saved)
  {
  }

  lemma StoresCarryOver(
    stores: map<string, Store>, envelopes: map<string, Envelope>, envelopes': map<string, Envelope>,
    sent: map<string, string>, sent': map<string, string>,
    saved: set<(string, string)>, saved': set<(string, string)>)
    requires StoresSound(stores, envelopes, sent, saved) && saved <= saved'
    requires forall id :: id in envelopes ==> id in envelopes' && envelopes'[id] == envelopes[id]
    requires forall id :: id in envelopes && id in sent ==> id in sent' && sent'[id] == sent[id]
    ensures StoresSound(stores, envelopes', sent', saved')
  {
  }

  lemma SessionsMove(clients: map<string, Client>, user: string, id: string, s: Session)
    requires SessionsSound(clients) && user in clients && OnSchedule(RecvStart(s), s.receiver.chain)
    requires id in clients[user].sessions ==>
               var before := clients[user].sessions[id];
               RecvStart(before) == RecvStart(s)
               && forall i :: Spent(before.receiver.chain, i) ==> Spent(s.receiver.chain, i)
    ensures
      var clients' := clients[user := WithSession(clients[user], id, s)];
      SessionsSound(clients') && SessionsAdvance(clients, clients')
  {
  }

  /** Opening, or failing to open, leaves every session sound. */
  lemma ReceivingKeepsSessions(w: World, user: string, e: Envelope, keysVerified: bool)
    requires user in w.clients && user in w.dhKeys && SessionsSound(w.clients)
    requires SessionFor(w.clients[user], w.dhKeys[user], e, keysVerified).Some?
    ensures
      var s := SessionFor(w.clients[user], w.dhKeys[user], e, keysVerified).value;
      var receiver := Decrypted(s.receiver, e).0;
      var clients' := w.clients[user := WithSession(w.clients[user], e.conversationId, s.(receiver := receiver))];
      SessionsSound(clients') && SessionsAdvance(w.clients, clients')
  {
    OpeningSpends(w, user, e, keysVerified);
    var s := SessionFor(w.clients[user], w.dhKeys[user], e, keysVerified).value;
    SessionsMove(w.clients, user, e.conversationId, s.(receiver := Decrypted(s.receiver, e).0));
  }

  lemma UnsavedChangesSessionsOnly(w: World, user: string, e: Envelope, keysVerified: bool, stored: bool)
    requires user in w.clients && user in w.stores && user in w.dhKeys
    requires var s := SessionFor(w.clients[user], w.dhKeys[user], e, keysVerified);
             s.None? || Decrypted(s.value.receiver, e).1.Err? || !stored
    ensures
      var w' := Received(w, user, e, keysVerified, stored);
      w'.server == w.server && w'.stores == w.stores && w'.sent == w.sent && SameHistories(w, w')
  {
  }

  lemma ReceivedMovesSessions(w: World, user: string, e: Envelope, keysVerified: bool, stored: bool)
    requires user in w.clients && user in w.stores && user in w.dhKeys && SessionsSound(w.clients)
    ensures
      var clients' := Received(w, user, e, keysVerified, stored).clients;
      SessionsSound(clients') && SessionsAdvance(w.clients, clients')
  {
    if SessionFor(w.clients[user], w.dhKeys[user], e, keysVerified).Some? {
      ReceivingKeepsSessions(w, user, e, keysVerified);
    }
  }

  lemma ReceivedKeepsInv(w: World, user: string, id: string, keysVerified: bool, stored: bool)
    requires WorldInv(w) && user in w.clients && user in w.stores && user in w.dhKeys && Reaches(w, user, id)
    ensures WorldInv(Received(w, user, w.server.messages[id].envelope, keysVerified, stored))
  {
    var e := w.server.messages[id].envelope;
    OnlyTheRecipientIsReached(w, user, id);
    var s := SessionFor(w.clients[user], w.dhKeys[user], e, keysVerified);
    if s.Some? && stored && Decrypted(s.value.receiver, e).1.Ok? {
      if (user, id) in SavedBy(w.saves) {
        SavedDoesNotOpenAgain(w, user, e, keysVerified);
      } else {
        SavingKeepsInv(w, user, e, keysVerified);
      }
    } else {
      UnsavedChangesSessionsOnly(w, user, e, keysVerified, stored);
      ReceivedMovesSessions(w, user, e, keysVerified, stored);
      NoMessageMoreKeepsInv(w, Received(w, user, e, keysVerified, stored));
    }
  }

  lemma SavingKeepsInv(w: World, user: string, e: Envelope, keysVerified: bool)
    requires WorldInv(w) && user in w.clients && user in w.stores && user in w.dhKeys
    requires e.id in EnvelopesOf(w.server.messages) && EnvelopesOf(w.server.messages)[e.id] == e
    requires e.recipientId == user && e.senderId != user && (user, e.id) !in SavedBy(w.saves)
    requires SessionFor(w.clients[user], w.dhKeys[user], e, keysVerified).Some?
    requires Decrypted(SessionFor(w.clients[user], w.dhKeys[user], e, keysVerified).value.receiver, e).1.Ok?
    ensures
      var w' := Received(w, user, e, keysVerified, true);
      WorldInv(w') && w'.saves == w.saves + [Save(user, e.id, w.sent[e.id])]
  {
    var envelopes := EnvelopesOf(w.server.messages);
    var w' := Received(w, user, e, keysVerified, true);
    var s := SessionFor(w.clients[user], w.dhKeys[user], e, keysVerified).value;
    var text := Decrypted(s.receiver, e).1.value;
    OpeningSpends(w, user, e, keysVerified);
    ReceivingKeepsSessions(w, user, e, keysVerified);
    SavesCarryOver(w.saves, envelopes, envelopes, w.sent, w.sent, w.clients, w'.clients);
    ReceivedRowIsNew(w, user, e, text);
    var save := Save(user, e.id, text);
    assert SaveSound(save, envelopes, w.sent, w'.clients);
    SavesGrow(w.saves, save, envelopes, w.sent, w'.clients);
    SavedByGrows(w.saves, save);
    StoresCarryOver(w.stores, envelopes, envelopes, w.sent, w.sent, SavedBy(w.saves), SavedBy(w'.saves));
    StoresGrow(w.stores, envelopes, w.sent, SavedBy(w'.saves), user, e.id);
  }

  // ---------------------------------------------------------------- sending

  ghost predicate SameReceivers(c: Client, c': Client)
  {
    && (forall id :: id in c.sessions ==>
          && id in c'.sessions && c'.sessions[id].receiver == c.sessions[id].receiver
          && RecvStart(c'.sessions[id]) == RecvStart(c.sessions[id]))
    && (forall id :: id in c'.sessions && id !in c.sessions ==>
          OnSchedule(RecvStart(c'.sessions[id]), c'.sessions[id].receiver.chain))
  }

  /** Sending leaves every receive chain as it is, and starts that of a new session afresh. */
  lemma SendingKeepsReceivers(c: Client, a: Attempt, ok: bool)
    ensures SameReceivers(c, Sent(c, a, ok).0)
  {
    var root, boot := EnsuringAddsAtMostOneSession(c, a);
    if SessionEnsured(c, a).1 {
      var next := SentMovesOneSession(c, a, ok);
    } else {
      UnreadySendsNothing(c, a, ok);
    }
  }

  lemma SameReceiversKeepSessions(clients: map<string, Client>, user: string, c: Client)
    requires SessionsSound(clients) && user in clients && SameReceivers(clients[user], c)
    ensures SessionsSound(clients[user := c]) && SessionsAdvance(clients, clients[user := c])
  {
  }

  /** An accepted message adds one undelivered envelope, sealed around its text, under a new identifier. */
  lemma PostingAddsOneMessage(w: World, user: string, a: Attempt)
    requires user in w.clients && w.clients[user].userId == user && Prepared(w.clients[user], a).1.Some?
    requires MessageSent(w.server, user, Prepared(w.clients[user], a).1.value).1.Ok?
    ensures
      var e := Prepared(w.clients[user], a).1.value;
      var server := MessageSent(w.server, user, e).0;
      && e.id == a.id && e.id !in w.server.messages && e.senderId == user
      && server.messages == w.server.messages[e.id := Message(e, None)]
      && EnvelopesOf(server.messages) == EnvelopesOf(w.server.messages)[e.id := e]
      && e.ciphertext.Sealed? && e.ciphertext.plaintext == a.plaintext
  {
    PreparedEnvelope(w.clients[user], a);
    var e := Prepared(w.clients[user], a).1.value;
    AcceptedMessagePassed(w.server, user, e);
    StoringAddsOneEnvelope(w.server, e);
  }

  /** On the server and in the stores, w' is w after the user posted e with this text. */
  ghost predicate OneMessageMore(w: World, w': World, user: string, e: Envelope, text: string)
  {
    && e.id !in w.server.messages && e.senderId == user
    && w'.server.messages == w.server.messages[e.id := Message(e, None)]
    && e.ciphertext.Sealed? && e.ciphertext.plaintext == text && w'.sent == w.sent[e.id := text]
    && user in w.stores
    && (w'.stores == w.stores || w'.stores == w.stores[user := Saved(w.stores[user], e.id, RowOf(e, text))])
  }

  ghost predicate SameHistories(w: World, w': World)
  {
    w'.saves == w.saves && w'.acks == w.acks && w'.ackPushes == w.ackPushes
  }

  lemma OneMessageMoreKeepsTexts(w: World, w': World, user: string, e: Envelope, text: string)
    requires TextsSound(EnvelopesOf(w.server.messages), w.sent) && OneMessageMore(w, w', user, e, text)
    ensures TextsSound(EnvelopesOf(w'.server.messages), w'.sent)
    ensures EnvelopesOf(w'.server.messages) == EnvelopesOf(w.server.messages)[e.id := e]
  {
    assert EnvelopesOf(w'.server.messages) == EnvelopesOf(w.server.messages)[e.id := e];
  }

  lemma OneMessageMoreKeepsStores(w: World, w': World, user: string, e: Envelope, text: string)
    requires StoresSound(w.stores, EnvelopesOf(w.server.messages), w.sent, SavedBy(w.saves))
    requires OneMessageMore(w, w', user, e, text) && SameHistories(w, w')
    ensures StoresSound(w'.stores, EnvelopesOf(w'.server.messages), w'.sent, SavedBy(w'.saves))
  {
    var envelopes, envelopes' := EnvelopesOf(w.server.messages), EnvelopesOf(w'.server.messages);
    assert envelopes' == envelopes[e.id := e];
    StoresCarryOver(w.stores, envelopes, envelopes', w.sent, w'.sent, SavedBy(w.saves), SavedBy(w.saves));
    StoresGrow(w.stores, envelopes', w'.sent, SavedBy(w.saves), user, e.id);
  }

  lemma OneMessageMoreKeepsAcks(w: World, w': World, user: string, e: Envelope, text: string)
    requires AcksSound(w.acks, SavedBy(w.saves), w.server.messages, w.ackPushes)
    requires OneMessageMore(w, w', user, e, text) && SameHistories(w, w')
    ensures AcksSound(w'.acks, SavedBy(w'.saves), w'.server.messages, w'.ackPushes)
  {
  }

  lemma OneMessageMoreKeepsSaves(w: World, w': World, user: string, e: Envelope, text: string)
    requires SavesSound(w.saves, EnvelopesOf(w.server.messages), w.sent, w.clients)
    requires SessionsAdvance(w.clients, w'.clients) && OneMessageMore(w, w', user, e, text) && SameHistories(w, w')
    requires EnvelopesOf(w'.server.messages) == EnvelopesOf(w.server.messages)[e.id := e]
    ensures SavesSound(w'.saves, EnvelopesOf(w'.server.messages), w'.sent, w'.clients)
  {
    SavesCarryOver(w.saves, EnvelopesOf(w.server.messages), EnvelopesOf(w'.server.messages), w.sent, w'.sent,
                   w.clients, w'.clients);
  }

  lemma OneMessageMoreKeepsInv(w: World, w': World, user: string, e: Envelope, text: string)
    requires WorldInv(w) && ServerInv(w'.server)
    requires SessionsSound(w'.clients) && SessionsAdvance(w.clients, w'.clients)
    requires OneMessageMore(w, w', user, e, text) && SameHistories(w, w')
    ensures WorldInv(w')
  {
    OneMessageMoreKeepsTexts(w, w', user, e, text);
    OneMessageMoreKeepsStores(w, w', user, e, text);
    OneMessageMoreKeepsSaves(w, w', user, e, text);
    OneMessageMoreKeepsAcks(w, w', user, e, text);
  }

  lemma NoMessageMoreKeepsInv(w: World, w': World)
    requires WorldInv(w) && w'.server == w.server && w'.stores == w.stores && w'.sent == w.sent
    requires SessionsSound(w'.clients) && SessionsAdvance(w.clients, w'.clients) && SameHistories(w, w')
    ensures WorldInv(w')
  {
    var envelopes := EnvelopesOf(w.server.messages);
    SavesCarryOver(w.saves, envelopes, envelopes, w.sent, w.sent, w.clients, w'.clients);
  }

  lemma PostedMovesSessions(w: World, user: string, a: Attempt, heard: bool, stored: bool)
    requires SessionsSound(w.clients) && user in w.clients && user in w.stores
    ensures
      var clients' := Posted(w, user, a, heard, stored).clients;
      SessionsSound(clients') && SessionsAdvance(w.clients, clients')
  {
    var c, clients' := w.clients[user], Posted(w, user, a, heard, stored).clients;
    SendingKeepsReceivers(c, a, true);
    SendingKeepsReceivers(c, a, false);
    assert clients' == w.clients[user := Sent(c, a, true).0] || clients' == w.clients[user := Sent(c, a, false).0];
    SameReceiversKeepSessions(w.clients, user, clients'[user]);
  }

  lemma PostedKeepsInv(w: World, user: string, a: Attempt, heard: bool, stored: bool)
    requires WorldInv(w) && user in w.clients && user in w.stores && w.clients[user].userId == user
    ensures WorldInv(Posted(w, user, a, heard, stored))
  {
    var w', envelope := Posted(w, user, a, heard, stored), Prepared(w.clients[user], a).1;
    PostedMovesSessions(w, user, a, heard, stored);
    if envelope.Some? && MessageSent(w.server, user, envelope.value).1.Ok? {
      PostingAddsOneMessage(w, user, a);
      SendKeepsInv(w.server, user, envelope.value);
      OneMessageMoreKeepsInv(w, w', user, envelope.value, a.plaintext);
    } else {
      if envelope.Some? {
        RefusedMessageLeavesTables(w.server, user, envelope.value);
      }
      NoMessageMoreKeepsInv(w, w');
    }
  }

  /** After a post the client is as its send path leaves it: confirmed only if the server took the message. */
  lemma PostedMovesOneClient(w: World, user: string, a: Attempt, heard: bool, stored: bool) returns (ok: bool)
    requires user in w.clients && user in w.stores
    ensures Posted(w, user, a, heard, stored).clients == w.clients[user := Sent(w.clients[user], a, ok).0]
    ensures ok <==> Prepared(w.clients[user], a).1.Some? && heard && stored
                    && MessageSent(w.server, user, Prepared(w.clients[user], a).1.value).1.Ok?
  {
    var envelope := Prepared(w.clients[user], a).1;
    ok := envelope.Some? && MessageSent(w.server, user, envelope.value).1.Ok? && heard && stored;
  }

  lemma PostedMovesServer(w: World, user: string, a: Attempt, heard: bool, stored: bool)
    requires user in w.clients && user in w.stores
    ensures
      var envelope := Prepared(w.clients[user], a).1;
      Posted(w, user, a, heard, stored).server
      == if envelope.Some? then MessageSent(w.server, user, envelope.value).0 else w.server
  {
  }

  // ---------------------------------------------------------------- acknowledging, and the rest

  lemma AckKeepsAcks(
    t: Tables, user: string, id: string, now: int,
    acks: set<(string, string)>, saved: set<(string, string)>, ackPushes: seq<string>)
    requires AcksSound(acks, saved, t.messages, ackPushes) && (user, id) in acks
    ensures
      var (t', r) := AckMarked(t, id, user, now);
      AcksSound(acks, saved, t'.messages, if r.AckDelivered? then ackPushes + [id] else ackPushes)
  {
  }

  /** The server moved on, its messages are the same, and so is everything else but marks and pushes. */
  lemma ServerMovesKeepInv(w: World, server: Tables, ackPushes: seq<string>)
    requires WorldInv(w) && ServerInv(server)
    requires EnvelopesOf(server.messages) == EnvelopesOf(w.server.messages)
    requires AcksSound(w.acks, SavedBy(w.saves), server.messages, ackPushes)
    ensures WorldInv(w.(server := server, ackPushes := ackPushes))
  {
  }

  lemma AckedKeepsInv(w: World, user: string, id: string, now: int)
    requires WorldInv(w) && (user, id) in w.acks
    ensures WorldInv(Acked(w, user, id, now))
  {
    AckKeepsInv(w.server, id, user, now);
    AckKeepsEnvelopes(w.server, id, user, now);
    AckKeepsAcks(w.server, user, id, now, w.acks, SavedBy(w.saves), w.ackPushes);
    var w' := Acked(w, user, id, now);
    assert AcksSound(w.acks, SavedBy(w.saves), w'.server.messages, w'.ackPushes);
    ServerMovesKeepInv(w, w'.server, w'.ackPushes);
  }

  lemma CallKeepsInv(w: World, call: Call)
    requires WorldInv(w) && !call.SendCall? && !call.AckCall?
    ensures WorldInv(w.(server := Served(w.server, call)))
  {
    ServedKeepsInv(w.server, call);
    if IsSocial(call) {
      SocialCallsLeaveMessages(w.server, call);
    } else {
      ReadKeepsPairs(w.server, call.caller, call.conversationId);
    }
    ServerMovesKeepInv(w, Served(w.server, call), w.ackPushes);
  }

  lemma SweepKeepsInv(w: World, user: string, expired: set<string>)
    requires WorldInv(w) && user in w.stores
    ensures WorldInv(w.(stores := w.stores[user := w.stores[user] - expired]))
  {
  }

  lemma RestartKeepsInv(w: World, user: string)
    requires WorldInv(w) && user in w.clients
    ensures WorldInv(w.(clients := w.clients[user := Restarted(w.clients[user])]))
  {
    var w' := w.(clients := w.clients[user := Restarted(w.clients[user])]);
    var envelopes := EnvelopesOf(w.server.messages);
    SameReceiversKeepSessions(w.clients, user, w'.clients[user]);
    SavesCarryOver(w.saves, envelopes, envelopes, w.sent, w.sent, w.clients, w'.clients);
  }

  lemma SteppedKeepsInv(w: World, e: Event)
    requires WorldInv(w)
    ensures WorldInv(Stepped(w, e))
  {
    if Stepped(w, e) != w {
      match e {
        case ServerEvent(call) => CallKeepsInv(w, call);
        case SendEvent(user, a, heard, stored) => PostedKeepsInv(w, user, a, heard, stored);
        case ReceiveEvent(user, id, keysVerified, stored) => ReceivedKeepsInv(w, user, id, keysVerified, stored);
        case AckEvent(user, id, now) => AckedKeepsInv(w, user, id, now);
        case SweepEvent(user, expired) => SweepKeepsInv(w, user, expired);
        case RestartEvent(user) => RestartKeepsInv(w, user);
      }
    }
  }

  lemma {:induction false} InvHoldsAlong(w: World, events: seq<Event>)
    requires WorldInv(w)
    ensures WorldInv(WorldAfter(w, events))
  {
    if events != [] {
      InvHoldsAlong(w, events[..|events| - 1]);
      SteppedKeepsInv(WorldAfter(w, events[..|events| - 1]), events[|events| - 1]);
    }
  }

  lemma WorldStaysSound(w: World, events: seq<Event>)
    requires Initial(w)
    ensures WorldInv(WorldAfter(w, events))
  {
    assert ServerInv(EMPTY);
    InvHoldsAlong(w, events);
  }

  // ---------------------------------------------------------------- safety over whole runs

  /** How often a user has saved a message. */
  function SaveCount(saves: seq<Save>, user: string, id: string): nat
  {
    if saves == [] then 0
    else
      var last := saves[|saves| - 1];
      SaveCount(saves[..|saves| - 1], user, id) + if last.user == user && last.id == id then 1 else 0
  }

  lemma {:induction false} DistinctSavesCountOnce(saves: seq<Save>, user: string, id: string)
    requires forall j, k :: 0 <= j < k < |saves| ==> (saves[j].user, saves[j].id) != (saves[k].user, saves[k].id)
    ensures SaveCount(saves, user, id) == if (user, id) in SavedBy(saves) then 1 else 0
  {
    if saves != [] {
      var init, last := saves[..|saves| - 1], saves[|saves| - 1];
      DistinctSavesCountOnce(init, user, id);
      SavedByGrows(init, last);
      assert init + [last] == saves;
      assert forall k :: 0 <= k < |init| ==> (saves[k].user, saves[k].id) != (last.user, last.id);
    }
  }

  /**
   Whatever is saved on receipt is saved once, by the message's recipient, with the text that was sent;
   sweeping expired rows, restarting, or receiving the message again by another way changes nothing
   about that.
   */
  lemma EachMessageIsSavedAtMostOnce(w: World, events: seq<Event>, s: Save)
    requires Initial(w) && s in WorldAfter(w, events).saves
    ensures
      var w' := WorldAfter(w, events);
      && SaveCount(w'.saves, s.user, s.id) == 1
      && s.id in w'.server.messages && w'.server.messages[s.id].envelope.recipientId == s.user
      && s.id in w'.sent && s.plaintext == w'.sent[s.id]
  {
    WorldStaysSound(w, events);
    var w' := WorldAfter(w, events);
    var k :| 0 <= k < |w'.saves| && w'.saves[k] == s;
    assert SaveSound(w'.saves[k], EnvelopesOf(w'.server.messages), w'.sent, w'.clients);
    DistinctSavesCountOnce(w'.saves, s.user, s.id);
  }

  /** Every local row holds the text of a message its owner sent, or was sent and saved on receipt. */
  lemma LocalRowsAreAsSent(w: World, events: seq<Event>, user: string, id: string)
    requires Initial(w) && user in WorldAfter(w, events).stores && id in WorldAfter(w, events).stores[user]
    ensures
      var w' := WorldAfter(w, events);
      && id in w'.server.messages && id in w'.sent
      && w'.stores[user][id].conversationId == w'.server.messages[id].envelope.conversationId
      && w'.stores[user][id].senderId == w'.server.messages[id].envelope.senderId
      && w'.stores[user][id].counter == w'.server.messages[id].envelope.counter
      && w'.stores[user][id].plaintext == w'.sent[id]
      && (w'.server.messages[id].envelope.senderId == user || SaveCount(w'.saves, user, id) == 1)
  {
    WorldStaysSound(w, events);
    DistinctSavesCountOnce(WorldAfter(w, events).saves, user, id);
  }

  lemma SavedMeansSent(
    saves: seq<Save>, envelopes: map<string, Envelope>, sent: map<string, string>, clients: map<string, Client>,
    user: string, id: string)
    requires SavesSound(saves, envelopes, sent, clients) && (user, id) in SavedBy(saves)
    ensures id in sent && Save(user, id, sent[id]) in saves
  {
    var k :| 0 <= k < |saves| && (saves[k].user, saves[k].id) == (user, id);
    assert SaveSound(saves[k], envelopes, sent, clients);
  }

  /** No message is marked delivered, nor its sender told, before its recipient has saved it. */
  lemma DeliveredMeansSaved(w: World, events: seq<Event>, id: string)
    requires Initial(w) && id in WorldAfter(w, events).server.messages
    requires WorldAfter(w, events).server.messages[id].deliveredAt.Some? || id in WorldAfter(w, events).ackPushes
    ensures
      var w' := WorldAfter(w, events);
      && id in w'.sent
      && Save(w'.server.messages[id].envelope.recipientId, id, w'.sent[id]) in w'.saves
  {
    WorldStaysSound(w, events);
    var w' := WorldAfter(w, events);
    var recipient := w'.server.messages[id].envelope.recipientId;
    SavedMeansSent(w'.saves, EnvelopesOf(w'.server.messages), w'.sent, w'.clients, recipient, id);
  }

  /** The sender of a message is told of its delivery at most once. */
  lemma EachSenderIsToldAtMostOnce(w: World, events: seq<Event>)
    requires Initial(w)
    ensures Distinct(WorldAfter(w, events).ackPushes)
  {
    WorldStaysSound(w, events);
  }

  /** Nothing accepted is lost: it has been saved by its recipient, or is in the recipient's next flush. */
  lemma NothingAcceptedIsLost(w: World, events: seq<Event>, id: string, queue: seq<Envelope>)
    requires Initial(w) && id in WorldAfter(w, events).server.messages
    requires
      var w' := WorldAfter(w, events);
      IsQueue(queue, w'.server, w'.server.messages[id].envelope.recipientId)
    ensures
      var w' := WorldAfter(w, events);
      var e := w'.server.messages[id].envelope;
      e in queue || (id in w'.sent && Save(e.recipientId, id, w'.sent[id]) in w'.saves)
  {
    var w' := WorldAfter(w, events);
    WorldStaysSound(w, events);
    if w'.server.messages[id].deliveredAt.Some? {
      DeliveredMeansSaved(w, events, id);
    } else {
      assert AwaitsDelivery(w'.server, id, w'.server.messages[id].envelope.recipientId);
      assert w'.server.messages[id].envelope in Elements(queue);
    }
  }
}
