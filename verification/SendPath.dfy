/**
 The sending side of a client (client/use_cases/send_message.py): setting up a session, and the send
 path in which the chain moves on with every envelope built while the counter moves on with every
 envelope accepted and saved.
 */
module SendPath {
  import opened Common
  import opened KeySchedule
  import opened Protocol
  import opened Ratchet
  import opened Replay
  import opened Pipeline

  /** The public keys that let the peer derive the session; kept in memory only. */
  datatype Boot = Boot(ephPub: PublicKey, convDhPub: PublicKey)

  datatype Session = Session(
    root: Key, initiator: bool, send: KeyChain, receiver: Receiver, nextOutbound: int, boot: Option<Boot>)

  /** Where the receive chain of a session began. */
  function RecvStart(s: Session): Key
  {
    RatchetChains(s.root, s.initiator).1.chainKey
  }

  /** Where its send chain began. */
  function SendStart(s: Session): Key
  {
    RatchetChains(s.root, s.initiator).0.chainKey
  }

  function NewSession(root: Key, initiator: bool, boot: Option<Boot>): Session
  {
    var (send, recv) := RatchetChains(root, initiator);
    Session(root, initiator, send, Receiver(recv, EMPTY_FILTER), 0, boot)
  }

  /** Sessions, counters and TTL settings are keyed by conversation. */
  datatype Client = Client(
    userId: string, sessions: map<string, Session>, counters: map<string, int>, ttlSettings: map<string, int>)

  /** The draws and the verified peer key of a session set-up; absent when the set-up cannot be done. */
  datatype Setup = Setup(ephemeral: Scalar, convDh: Scalar, peerDh: PublicKey)

  datatype Attempt = Attempt(
    conversationId: string, peerId: string, plaintext: string, sentAt: int,
    id: string, nonce: Bytes, setup: Option<Setup>)

  // ---------------------------------------------------------------- the send path, on values

  function SessionEnsured(c: Client, a: Attempt): (Client, bool)
  {
    if a.conversationId in c.sessions then (c, true)
    else
      match a.setup
      case None => (c, false)
      case Some(s) =>
        var (root, ephPub, convDhPub) :=
          RootAsInitiator(s.ephemeral, s.convDh, s.peerDh, c.userId, a.peerId, a.conversationId);
        (c.(sessions := c.sessions[a.conversationId := NewSession(root, true, Some(Boot(ephPub, convDhPub)))]), true)
  }

  /** The counter in memory if there is one, else the one restored with the session. */
  function NextCounter(c: Client, conversationId: string): int
    requires conversationId in c.sessions
  {
    if conversationId in c.counters then c.counters[conversationId] else c.sessions[conversationId].nextOutbound
  }

  function DraftOf(c: Client, a: Attempt): Draft
  {
    var ttl := if a.conversationId in c.ttlSettings then Some(c.ttlSettings[a.conversationId]) else None;
    Draft(a.id, c.userId, a.peerId, a.conversationId, a.plaintext, ttl, a.sentAt, a.nonce)
  }

  /** The bootstrap keys ride along while the counter is zero. */
  function WithBoot(e: Envelope, boot: Option<Boot>): Envelope
  {
    if e.counter == 0 && boot.Some? then e.(ephPub := Some(boot.value.ephPub), convDhPub := Some(boot.value.convDhPub))
    else e
  }

  /** Everything up to the request: the session is there and its chain has moved on, the counter has not. */
  function Prepared(c: Client, a: Attempt): (Client, Option<Envelope>)
  {
    var (c1, ready) := SessionEnsured(c, a);
    if !ready then (c1, None)
    else
      var s := c1.sessions[a.conversationId];
      var (chain, built) := Built(s.send, DraftOf(c1, a), NextCounter(c1, a.conversationId));
      (c1.(sessions := c1.sessions[a.conversationId := s.(send := chain)]),
       if built.Ok? then Some(WithBoot(built.value, s.boot)) else None)
  }

  /** What follows a request that was accepted and whose message was saved. */
  function Confirmed(c: Client, conversationId: string): Client
    requires conversationId in c.sessions
  {
    var next := NextCounter(c, conversationId) + 1;
    c.(counters := c.counters[conversationId := next],
       sessions := c.sessions[conversationId := c.sessions[conversationId].(nextOutbound := next)])
  }

  /** One call; `ok` says that the request went through and the message was saved. */
  function Sent(c: Client, a: Attempt, ok: bool): (Client, Option<Envelope>)
  {
    var (c1, envelope) := Prepared(c, a);
    if envelope.Some? && ok then (Confirmed(c1, a.conversationId), envelope) else (c1, envelope)
  }

  /** A clean exit and a new login: sessions come back without bootstrap keys, counters with them. */
  function Restarted(c: Client): Client
  {
    c.(sessions := map id | id in c.sessions :: c.sessions[id].(boot := None),
       counters := map id | id in c.sessions :: c.sessions[id].nextOutbound)
  }

  // ---------------------------------------------------------------- the send path, in place

  class SendContext {
    const userId: string
    var sessions: map<string, Session>
    var counters: map<string, int>
    var ttlSettings: map<string, int>

    function State(): Client
      reads this
    {
      Client(userId, sessions, counters, ttlSettings)
    }

    method EnsureSession(a: Attempt) returns (ready: bool)
      modifies this
      ensures (State(), ready) == SessionEnsured(old(State()), a)
    {
      if a.conversationId in sessions {
        return true;
      }
      if a.setup.None? {
        return false;
      }
      var s := a.setup.value;
      var (root, ephPub, convDhPub) :=
        RootAsInitiator(s.ephemeral, s.convDh, s.peerDh, userId, a.peerId, a.conversationId);
      var session := NewSession(root, true, Some(Boot(ephPub, convDhPub)));
      sessions := sessions[a.conversationId := session];
      return true;
    }

    /** `posted` and `saved` are the outcomes of the request and of the local store. */
    method ExecuteSend(a: Attempt, posted: bool, saved: bool) returns (envelope: Option<Envelope>)
      modifies this
      ensures (State(), envelope) == Sent(old(State()), a, posted && saved)
    {
      var ready := EnsureSession(a);
      if !ready {
        return None;
      }
      var session := sessions[a.conversationId];
      var counter := if a.conversationId in counters then counters[a.conversationId] else session.nextOutbound;
      var (chain, built) := Built(session.send, DraftOf(State(), a), counter);
      sessions := sessions[a.conversationId := session.(send := chain)];
      if built.Err? {
        return None;
      }
      envelope := Some(WithBoot(built.value, session.boot));
      if !posted || !saved {
        return;
      }
      counters := counters[a.conversationId := counter + 1];
      sessions := sessions[a.conversationId := sessions[a.conversationId].(nextOutbound := counter + 1)];
    }
  }

  // ---------------------------------------------------------------- lockstep over whole runs

  datatype Event =
    | SendEvent(attempt: Attempt, ok: bool)
    | RespondEvent(conversationId: string, root: Key)  // a peer's first envelope opened a session
    | ReceiveEvent(conversationId: string, receiver: Receiver)
    | RestartEvent

  /** An envelope that was built, and whether its send succeeded. */
  datatype Entry = Entry(envelope: Envelope, ok: bool)

  datatype History = History(client: Client, log: seq<Entry>)

  function Happened(h: History, e: Event): History
  {
    match e
    case SendEvent(a, ok) =>
      var (c, envelope) := Sent(h.client, a, ok);
      History(c, if envelope.Some? then h.log + [Entry(envelope.value, ok)] else h.log)
    case RespondEvent(id, root) =>
      if id in h.client.sessions then h
      else h.(client := h.client.(sessions := h.client.sessions[id := NewSession(root, false, None)]))
    case ReceiveEvent(id, receiver) =>
      if id !in h.client.sessions then h
      else h.(client := h.client.(sessions := h.client.sessions[id := h.client.sessions[id].(receiver := receiver)]))
    case RestartEvent => h.(client := Restarted(h.client))
  }

  function HistoryOf(userId: string, ttlSettings: map<string, int>, events: seq<Event>): History
  {
    if events == [] then History(Client(userId, map[], map[], ttlSettings), [])
    else Happened(HistoryOf(userId, ttlSettings, events[..|events| - 1]), events[|events| - 1])
  }

  /** How many sends of a conversation have succeeded. */
  function Successes(log: seq<Entry>, conversationId: string): nat
  {
    if log == [] then 0
    else
      var init, last := log[..|log| - 1], log[|log| - 1];
      Successes(init, conversationId) + if last.ok && last.envelope.conversationId == conversationId then 1 else 0
  }

  /** Both counters stand at the number of successes, and the chain has moved at least as far. */
  ghost predicate Lockstep(c: Client, log: seq<Entry>)
  {
    && (forall id :: id in c.counters ==> id in c.sessions && c.counters[id] == c.sessions[id].nextOutbound)
    && (forall id :: id in c.sessions ==>
          c.sessions[id].nextOutbound == Successes(log, id) && Successes(log, id) <= c.sessions[id].send.index)
    && (forall id :: id !in c.sessions ==> Successes(log, id) == 0)
  }

  /** Entry n carries the number of earlier successes as its counter, and never runs ahead of its chain index. */
  ghost predicate Numbered(log: seq<Entry>)
  {
    forall n :: 0 <= n < |log| ==>
      var e := log[n].envelope;
      && e.counter == Successes(log[..n], e.conversationId)
      && e.counter <= e.chainIndex
      && (e.ephPub.Some? || e.convDhPub.Some? ==> e.counter == 0)
  }

  /** Chain indices of a conversation strictly increase, and its chain is beyond all of them. */
  ghost predicate Increasing(c: Client, log: seq<Entry>)
  {
    && (forall n :: 0 <= n < |log| ==>
          var e := log[n].envelope;
          e.conversationId in c.sessions && e.chainIndex < c.sessions[e.conversationId].send.index)
    && (forall m, n :: 0 <= m < n < |log| && log[m].envelope.conversationId == log[n].envelope.conversationId ==>
          log[m].envelope.chainIndex < log[n].envelope.chainIndex)
  }

  lemma SessionEnsuredKeeps(c: Client, a: Attempt, log: seq<Entry>)
    requires Lockstep(c, log) && Increasing(c, log)
    ensures
      var (c', ready) := SessionEnsured(c, a);
      && Lockstep(c', log) && Increasing(c', log)
      && (ready ==> a.conversationId in c'.sessions
                    && NextCounter(c', a.conversationId) == Successes(log, a.conversationId))
  {
  }

  /** Of all sessions, a send moves that of its conversation only: its send chain, and perhaps its counter. */
  lemma SentMovesOneSession(c: Client, a: Attempt, ok: bool) returns (next: int)
    requires SessionEnsured(c, a).1
    ensures
      var c1, id := SessionEnsured(c, a).0, a.conversationId;
      && id in c1.sessions
      && Sent(c, a, ok).0.sessions
         == c1.sessions[id := c1.sessions[id].(send := Advanced(c1.sessions[id].send).0, nextOutbound := next)]
  {
    next := Sent(c, a, ok).0.sessions[a.conversationId].nextOutbound;
  }

  lemma UnreadySendsNothing(c: Client, a: Attempt, ok: bool)
    requires !SessionEnsured(c, a).1
    ensures Sent(c, a, ok) == (c, None)
  {
  }

  /** A session set up by a first send. */
  lemma EnsuringAddsAtMostOneSession(c: Client, a: Attempt) returns (root: Key, boot: Option<Boot>)
    ensures
      SessionEnsured(c, a).0.sessions
      == if a.conversationId in c.sessions || !SessionEnsured(c, a).1 then c.sessions
         else c.sessions[a.conversationId := NewSession(root, true, boot)]
  {
    if a.conversationId !in c.sessions && SessionEnsured(c, a).1 {
      root, boot := SessionEnsured(c, a).0.sessions[a.conversationId].root,
                    SessionEnsured(c, a).0.sessions[a.conversationId].boot;
    } else {
      root, boot := Root(SharedSecret(0, 0), SharedSecret(0, 0), ""), None;
    }
  }

  /** A built envelope takes the counter, the chain index and the conversation from where it was built. */
  lemma PreparedEnvelope(c: Client, a: Attempt)
    requires Prepared(c, a).1.Some?
    ensures
      var c1, id := SessionEnsured(c, a).0, a.conversationId;
      var (c2, envelope) := Prepared(c, a);
      var e := envelope.value;
      && SessionEnsured(c, a).1 && id in c1.sessions
      && e.conversationId == id && e.counter == NextCounter(c1, id) && e.chainIndex == c1.sessions[id].send.index
      && e.id == a.id && e.senderId == c.userId && e.recipientId == a.peerId
      && e.ciphertext.Sealed? && e.ciphertext.plaintext == a.plaintext
      && (e.ephPub.Some? || e.convDhPub.Some? ==> e.counter == 0)
      && c2 == c1.(sessions := c1.sessions[id :=
                     c1.sessions[id].(send := Advanced(c1.sessions[id].send).0)])
  {
  }

  lemma LogGrowsByOne(log: seq<Entry>, entry: Entry)
    ensures forall id :: Successes(log + [entry], id)
              == Successes(log, id) + if entry.ok && entry.envelope.conversationId == id then 1 else 0
    ensures forall n :: 0 <= n <= |log| ==> (log + [entry])[..n] == log[..n]
  {
    assert (log + [entry])[..|log|] == log;
  }

  /** c' is c after one more envelope of conversation id was built, and confirmed if ok. */
  ghost predicate OneMoreBuilt(c: Client, c': Client, id: string, ok: bool)
  {
    && id in c.sessions && c'.sessions.Keys == c.sessions.Keys
    && c'.sessions[id].send.index == c.sessions[id].send.index + 1
    && c'.sessions[id].nextOutbound == (if ok then NextCounter(c, id) + 1 else c.sessions[id].nextOutbound)
    && c'.counters == (if ok then c.counters[id := NextCounter(c, id) + 1] else c.counters)
    && forall other :: other in c.sessions && other != id ==> c'.sessions[other] == c.sessions[other]
  }

  lemma SentIsOneMoreBuilt(c: Client, a: Attempt, ok: bool)
    requires Sent(c, a, ok).1.Some?
    ensures OneMoreBuilt(SessionEnsured(c, a).0, Sent(c, a, ok).0, a.conversationId, ok)
  {
    PreparedEnvelope(c, a);
  }

  lemma LockstepMoves(c: Client, c': Client, log: seq<Entry>, entry: Entry)
    requires Lockstep(c, log) && OneMoreBuilt(c, c', entry.envelope.conversationId, entry.ok)
    requires NextCounter(c, entry.envelope.conversationId) == Successes(log, entry.envelope.conversationId)
    ensures Lockstep(c', log + [entry])
  {
    LogGrowsByOne(log, entry);
  }

  lemma IncreasingMoves(c: Client, c': Client, log: seq<Entry>, entry: Entry)
    requires Increasing(c, log) && OneMoreBuilt(c, c', entry.envelope.conversationId, entry.ok)
    requires entry.envelope.chainIndex == c.sessions[entry.envelope.conversationId].send.index
    ensures Increasing(c', log + [entry])
  {
    var log' := log + [entry];
    forall n | 0 <= n < |log'|
      ensures var e := log'[n].envelope;
              e.conversationId in c'.sessions && e.chainIndex < c'.sessions[e.conversationId].send.index
    {
      if n < |log| {
        assert log'[n] == log[n];
      }
    }
  }

  lemma NumberingMoves(log: seq<Entry>, entry: Entry)
    requires Numbered(log)
    requires entry.envelope.counter == Successes(log, entry.envelope.conversationId) <= entry.envelope.chainIndex
    requires entry.envelope.ephPub.Some? || entry.envelope.convDhPub.Some? ==> entry.envelope.counter == 0
    ensures Numbered(log + [entry])
  {
    LogGrowsByOne(log, entry);
    var log' := log + [entry];
    forall n | 0 <= n < |log|
      ensures log'[n] == log[n] && log'[..n] == log[..n]
    {
    }
    assert log'[..|log|] == log;
  }

  lemma SendKeepsLockstep(c: Client, log: seq<Entry>, a: Attempt, ok: bool)
    requires Lockstep(c, log) && Increasing(c, log) && Numbered(log)
    ensures
      var (c', envelope) := Sent(c, a, ok);
      var log' := if envelope.Some? then log + [Entry(envelope.value, ok)] else log;
      Lockstep(c', log') && Increasing(c', log') && Numbered(log')
  {
    SessionEnsuredKeeps(c, a, log);
    var (c', envelope) := Sent(c, a, ok);
    if envelope.Some? {
      PreparedEnvelope(c, a);
      SentIsOneMoreBuilt(c, a, ok);
      var c1, entry := SessionEnsured(c, a).0, Entry(envelope.value, ok);
      LockstepMoves(c1, c', log, entry);
      IncreasingMoves(c1, c', log, entry);
      NumberingMoves(log, entry);
    } else {
      FailedBuildKeepsLockstep(c, log, a, ok);
    }
  }

  /** A build that fails has moved the chain and nothing else. */
  lemma FailedBuildKeepsLockstep(c: Client, log: seq<Entry>, a: Attempt, ok: bool)
    requires Lockstep(c, log) && Increasing(c, log) && Sent(c, a, ok).1.None?
    ensures Lockstep(Sent(c, a, ok).0, log) && Increasing(Sent(c, a, ok).0, log)
  {
    SessionEnsuredKeeps(c, a, log);
    SessionsKeepLockstep(SessionEnsured(c, a).0, Sent(c, a, ok).0, log);
  }

  /** Sessions that are new, or differ in what the two invariants do not look at. */
  lemma SessionsKeepLockstep(c: Client, c': Client, log: seq<Entry>)
    requires Lockstep(c, log) && Increasing(c, log)
    requires forall id :: id in c.sessions ==>
               && id in c'.sessions && c'.sessions[id].nextOutbound == c.sessions[id].nextOutbound
               && c'.sessions[id].send.index >= c.sessions[id].send.index
    requires forall id :: id in c'.sessions && id !in c.sessions ==>
               c'.sessions[id].nextOutbound == c'.sessions[id].send.index == 0
    requires forall id :: id in c'.counters ==>
               id in c.sessions && c'.counters[id] == c.sessions[id].nextOutbound
    ensures Lockstep(c', log) && Increasing(c', log)
  {
  }

  ghost predicate InLockstep(h: History)
  {
    Lockstep(h.client, h.log) && Increasing(h.client, h.log) && Numbered(h.log)
  }

  /** c' is c but for new sessions, and for parts of old ones that sending does not look at. */
  ghost predicate LeavesSends(c: Client, c': Client)
  {
    && (forall id :: id in c.sessions ==>
          && id in c'.sessions && c'.sessions[id].nextOutbound == c.sessions[id].nextOutbound
          && c'.sessions[id].send == c.sessions[id].send)
    && (forall id :: id in c'.sessions && id !in c.sessions ==>
          c'.sessions[id].nextOutbound == c'.sessions[id].send.index == 0)
    && (forall id :: id in c'.counters ==> id in c.sessions && c'.counters[id] == c.sessions[id].nextOutbound)
  }

  lemma LeftSendsKeepLockstep(c: Client, c': Client, log: seq<Entry>)
    requires Lockstep(c, log) && Increasing(c, log) && LeavesSends(c, c')
    ensures Lockstep(c', log) && Increasing(c', log)
  {
    SessionsKeepLockstep(c, c', log);
  }

  lemma RestartLeavesSends(c: Client)
    ensures LeavesSends(c, Restarted(c))
  {
  }

  lemma QuietEventLeavesSends(h: History, e: Event)
    requires !e.SendEvent? && Lockstep(h.client, h.log)
    ensures LeavesSends(h.client, Happened(h, e).client) && Happened(h, e).log == h.log
  {
    if e.RestartEvent? {
      RestartLeavesSends(h.client);
    }
  }

  lemma QuietEventKeepsLockstep(h: History, e: Event)
    requires InLockstep(h) && !e.SendEvent?
    ensures InLockstep(Happened(h, e))
  {
    QuietEventLeavesSends(h, e);
    LeftSendsKeepLockstep(h.client, Happened(h, e).client, h.log);
  }

  /**
   After any mix of succeeding and failing sends, of receiving, and of clean restarts: a conversation's
   counter in memory equals the session's own; the successful sends of a conversation carry 0, 1, 2 and
   so on; chain indices strictly increase and no counter exceeds its chain index; and bootstrap keys
   ride on counter zero only.
   */
  lemma {:induction false} EveryHistoryIsInLockstep(userId: string, ttlSettings: map<string, int>, events: seq<Event>)
    ensures InLockstep(HistoryOf(userId, ttlSettings, events))
  {
    if events != [] {
      var init, e := events[..|events| - 1], events[|events| - 1];
      EveryHistoryIsInLockstep(userId, ttlSettings, init);
      EventKeepsLockstep(HistoryOf(userId, ttlSettings, init), e);
    }
  }

  lemma EventKeepsLockstep(h: History, e: Event)
    requires InLockstep(h)
    ensures InLockstep(Happened(h, e))
  {
    if e.SendEvent? {
      SendKeepsLockstep(h.client, h.log, e.attempt, e.ok);
    } else {
      QuietEventKeepsLockstep(h, e);
    }
  }

  // ---------------------------------------------------------------- how long bootstrap keys last

  lemma HistoryStep(userId: string, ttlSettings: map<string, int>, init: seq<Event>, last: Event)
    ensures HistoryOf(userId, ttlSettings, init + [last]) == Happened(HistoryOf(userId, ttlSettings, init), last)
  {
    assert (init + [last])[..|init|] == init;
  }

  /** Event k set up the session of the conversation, as a first send does, and no restart came after. */
  ghost predicate BootedAt(userId: string, ttlSettings: map<string, int>, events: seq<Event>, k: nat, id: string)
  {
    && k < |events| && events[k].SendEvent? && events[k].attempt.conversationId == id
    && id !in HistoryOf(userId, ttlSettings, events[..k]).client.sessions
    && SessionEnsured(HistoryOf(userId, ttlSettings, events[..k]).client, events[k].attempt).1
    && forall j :: k < j < |events| ==> !events[j].RestartEvent?
  }

  ghost predicate Booted(userId: string, ttlSettings: map<string, int>, events: seq<Event>, id: string)
  {
    exists k: nat :: BootedAt(userId, ttlSettings, events, k, id)
  }

  lemma BootedMoves(userId: string, ttlSettings: map<string, int>, init: seq<Event>, last: Event, id: string)
    ensures
      var c := HistoryOf(userId, ttlSettings, init).client;
      Booted(userId, ttlSettings, init + [last], id)
      <==> (!last.RestartEvent? && Booted(userId, ttlSettings, init, id))
           || (last.SendEvent? && last.attempt.conversationId == id && id !in c.sessions
               && SessionEnsured(c, last.attempt).1)
  {
    var events := init + [last];
    assert events[..|init|] == init && events[|init|] == last;
    forall k: nat | k < |init|
      ensures BootedAt(userId, ttlSettings, events, k, id)
          <==> !last.RestartEvent? && BootedAt(userId, ttlSettings, init, k, id)
    {
      assert events[..k] == init[..k] && events[k] == init[k];
      assert forall j :: 0 <= j < |init| ==> events[j] == init[j];
    }
    if Booted(userId, ttlSettings, events, id) {
      var k: nat :| BootedAt(userId, ttlSettings, events, k, id);
    }
    if !last.RestartEvent? && Booted(userId, ttlSettings, init, id) {
      var k: nat :| BootedAt(userId, ttlSettings, init, k, id);
      assert BootedAt(userId, ttlSettings, events, k, id);
    }
    if last.SendEvent? && last.attempt.conversationId == id
       && id !in HistoryOf(userId, ttlSettings, init).client.sessions
       && SessionEnsured(HistoryOf(userId, ttlSettings, init).client, last.attempt).1 {
      assert BootedAt(userId, ttlSettings, events, |init|, id);
    }
  }

  predicate HasBoot(c: Client, id: string)
  {
    id in c.sessions && c.sessions[id].boot.Some?
  }

  lemma SendingMovesBoot(c: Client, a: Attempt, ok: bool, id: string)
    ensures HasBoot(Sent(c, a, ok).0, id)
        <==> HasBoot(c, id) || (a.conversationId == id && id !in c.sessions && SessionEnsured(c, a).1)
  {
  }

  /** A session holds bootstrap keys exactly from the send that set it up until the next restart. */
  lemma {:induction false} BootKeysLastUntilARestart(
    userId: string, ttlSettings: map<string, int>, events: seq<Event>, id: string)
    ensures HasBoot(HistoryOf(userId, ttlSettings, events).client, id) <==> Booted(userId, ttlSettings, events, id)
  {
    if events != [] {
      var init, last := events[..|events| - 1], events[|events| - 1];
      assert events == init + [last];
      BootKeysLastUntilARestart(userId, ttlSettings, init, id);
      HistoryStep(userId, ttlSettings, init, last);
      BootedMoves(userId, ttlSettings, init, last, id);
      if last.SendEvent? {
        SendingMovesBoot(HistoryOf(userId, ttlSettings, init).client, last.attempt, last.ok, id);
      }
    }
  }

  /**
   Which envelopes carry bootstrap keys. After any history, the next envelope of a conversation carries
   them if and only if no send there has succeeded yet, and the session is either set up by this very
   send, or was set up by an earlier one with no restart since. So a restart before the first success
   loses them for good.
   */
  lemma BootKeysAreCarriedExactlyWhen(userId: string, ttlSettings: map<string, int>, events: seq<Event>, a: Attempt)
    requires Prepared(HistoryOf(userId, ttlSettings, events).client, a).1.Some?
    ensures
      var h, id := HistoryOf(userId, ttlSettings, events), a.conversationId;
      var e := Prepared(h.client, a).1.value;
      && (e.ephPub.Some? <==> e.convDhPub.Some?)
      && (e.ephPub.Some? <==>
            Successes(h.log, id) == 0 && (id !in h.client.sessions || Booted(userId, ttlSettings, events, id)))
  {
    var h := HistoryOf(userId, ttlSettings, events);
    EveryHistoryIsInLockstep(userId, ttlSettings, events);
    SessionEnsuredKeeps(h.client, a, h.log);
    PreparedEnvelope(h.client, a);
    BootKeysLastUntilARestart(userId, ttlSettings, events, a.conversationId);
    BootRidesOnTheEnvelope(h.client, a);
  }

  lemma BootRidesOnTheEnvelope(c: Client, a: Attempt)
    requires Prepared(c, a).1.Some?
    ensures
      var e, id := Prepared(c, a).1.value, a.conversationId;
      && (e.ephPub.Some? <==> e.convDhPub.Some?)
      && (e.ephPub.Some? <==> e.counter == 0 && (id !in c.sessions || c.sessions[id].boot.Some?))
  {
  }

  // ---------------------------------------------------------------- what the envelopes say

  /** The envelope says what the attempt asked for, by this user and under these settings. */
  predicate SaysAsAsked(e: Envelope, a: Attempt, userId: string, ttlSettings: map<string, int>)
  {
    && e.id == a.id && e.senderId == userId && e.recipientId == a.peerId && e.conversationId == a.conversationId
    && e.sentAt == a.sentAt && e.nonce == a.nonce
    && (a.conversationId in ttlSettings ==> e.ttlSeconds == Some(ttlSettings[a.conversationId]))
    && (a.conversationId !in ttlSettings ==> e.ttlSeconds == None)
    && e.ciphertext.Sealed? && e.ciphertext.plaintext == a.plaintext
    && e.ciphertext.nonce == e.nonce && ComputeAd(e) == Ok(e.ciphertext.ad)
  }

  lemma PreparedSaysAsAsked(c: Client, a: Attempt)
    requires Prepared(c, a).1.Some?
    ensures SaysAsAsked(Prepared(c, a).1.value, a, c.userId, c.ttlSettings)
  {
  }

  /** An envelope is built exactly if there is a session or one can be set up, and all numbers fit. */
  lemma EnvelopeIsBuiltExactlyWhen(c: Client, a: Attempt)
    ensures
      var counter := if a.conversationId in c.counters then c.counters[a.conversationId]
                     else if a.conversationId in c.sessions then c.sessions[a.conversationId].nextOutbound else 0;
      var ttl := if a.conversationId in c.ttlSettings then c.ttlSettings[a.conversationId] else 0;
      Prepared(c, a).1.Some?
      <==> (a.conversationId in c.sessions || a.setup.Some?)
           && 0 <= counter < Power256(8) && 0 <= a.sentAt < Power256(8) && 0 <= ttl < Power256(4)
  {
  }

  /** The attempts that an envelope was built for, and whether each was accepted and saved, in their order. */
  function BuiltFor(userId: string, ttlSettings: map<string, int>, events: seq<Event>): seq<(Attempt, bool)>
  {
    if events == [] then []
    else
      var init, last := events[..|events| - 1], events[|events| - 1];
      BuiltFor(userId, ttlSettings, init)
      + if last.SendEvent? && Prepared(HistoryOf(userId, ttlSettings, init).client, last.attempt).1.Some?
        then [(last.attempt, last.ok)] else []
  }

  /** Entry for entry, the log says what was asked for. */
  ghost predicate LogSaysAsAsked(
    log: seq<Entry>, attempts: seq<(Attempt, bool)>, userId: string, ttlSettings: map<string, int>)
  {
    && |log| == |attempts|
    && forall n :: 0 <= n < |log| ==>
         SaysAsAsked(log[n].envelope, attempts[n].0, userId, ttlSettings) && log[n].ok == attempts[n].1
  }

  /** Identity and settings are the user's throughout. */
  lemma {:induction false} IdentityStays(userId: string, ttlSettings: map<string, int>, events: seq<Event>)
    ensures
      var c := HistoryOf(userId, ttlSettings, events).client;
      c.userId == userId && c.ttlSettings == ttlSettings
  {
    if events != [] {
      var init, last := events[..|events| - 1], events[|events| - 1];
      IdentityStays(userId, ttlSettings, init);
      if last.SendEvent? {
        SendingKeepsIdentity(HistoryOf(userId, ttlSettings, init).client, last.attempt, last.ok);
      }
    }
  }

  lemma SendingKeepsIdentity(c: Client, a: Attempt, ok: bool)
    ensures Sent(c, a, ok).0.userId == c.userId && Sent(c, a, ok).0.ttlSettings == c.ttlSettings
    ensures Sent(c, a, ok).1 == Prepared(c, a).1
  {
  }

  /**
   What every envelope says. After any history the log holds exactly one envelope for each attempt that one
   could be built for, in order, with the attempt's own recipient, time, nonce and text, and the TTL of its
   conversation if there is a setting and none otherwise.
   */
  lemma {:induction false} EveryEnvelopeSaysAsAsked(
    userId: string, ttlSettings: map<string, int>, events: seq<Event>)
    ensures LogSaysAsAsked(HistoryOf(userId, ttlSettings, events).log, BuiltFor(userId, ttlSettings, events),
                           userId, ttlSettings)
  {
    if events != [] {
      var init, last := events[..|events| - 1], events[|events| - 1];
      EveryEnvelopeSaysAsAsked(userId, ttlSettings, init);
      IdentityStays(userId, ttlSettings, init);
      var h := HistoryOf(userId, ttlSettings, init);
      if last.SendEvent? {
        SendingKeepsIdentity(h.client, last.attempt, last.ok);
        if Prepared(h.client, last.attempt).1.Some? {
          PreparedSaysAsAsked(h.client, last.attempt);
        }
      }
    }
  }
}
