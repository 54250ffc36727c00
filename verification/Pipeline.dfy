/**
 Building and opening envelopes (client/crypto/session.py): how the ratchet, the replay filter and
 authenticated encryption work together on the receiving side.
 */
module Pipeline {
  import opened Common
  import opened KeySchedule
  import opened Protocol
  import opened Ratchet
  import opened Replay

  /** What a sender hands to the pipeline; identifier and nonce are the random draws. */
  datatype Draft = Draft(
    id: string, senderId: string, recipientId: string, conversationId: string,
    plaintext: string, ttlSeconds: Option<int>, sentAt: int, nonce: Bytes)

  datatype Receiver = Receiver(chain: KeyChain, filter: Filter)

  datatype Rejection = Replayed(replay: ReplayError) | ChainRejected(chain: ChainError) | AdOverflow | Tampered

  // ---------------------------------------------------------------- the two operations

  function Skeleton(d: Draft, counter: int, chainIndex: int): Envelope
  {
    Envelope(d.id, d.senderId, d.recipientId, d.conversationId, counter, d.nonce, Noise([]), None, None,
             chainIndex, d.ttlSeconds, d.sentAt)
  }

  /** The chain has moved on even when the associated data cannot be computed. */
  function Built(c: KeyChain, d: Draft, counter: int): (KeyChain, Result<Envelope, AdError>)
  {
    var (c', key) := Advanced(c);
    var env := Skeleton(d, counter, c'.index - 1);
    match ComputeAd(env)
    case Ok(ad) => (c', Ok(env.(ciphertext := Sealed(key, d.nonce, ad, d.plaintext))))
    case Err(e) => (c', Err(e))
  }

  method BuildAndEncrypt(sendChain: RatchetChain, d: Draft, counter: int) returns (r: Result<Envelope, AdError>)
    modifies sendChain
    ensures (sendChain.State(), r) == Built(old(sendChain.State()), d, counter)
  {
    var key := sendChain.Advance();
    var env := Skeleton(d, counter, sendChain.index - 1);
    var ad := ComputeAd(env);
    if ad.Err? {
      return Err(ad.error);
    }
    r := Ok(env.(ciphertext := Sealed(key, d.nonce, ad.value, d.plaintext)));
  }

  /**
   What is built is what was asked for: the draft's identifiers, TTL, time and nonce, the counter handed in,
   the index of the key used, and the draft's text sealed with that key for exactly these fields. It fails
   exactly if a number does not fit, and moves the chain on by one key in any case.
   */
  lemma BuiltFollowsTheDraft(start: Key, c: KeyChain, d: Draft, counter: int)
    requires OnSchedule(start, c)
    ensures
      var (c', r) := Built(c, d, counter);
      && OnSchedule(start, c') && c'.index == c.index + 1 && c'.skipped == c.skipped
      && (r.Ok? <==> 0 <= counter < Power256(8) && 0 <= d.sentAt < Power256(8)
                     && 0 <= (if d.ttlSeconds.Some? then d.ttlSeconds.value else 0) < Power256(4))
      && (r.Ok? ==>
            var e := r.value;
            && e.id == d.id && e.senderId == d.senderId && e.recipientId == d.recipientId
            && e.conversationId == d.conversationId && e.counter == counter && e.chainIndex == c.index
            && e.ttlSeconds == d.ttlSeconds && e.sentAt == d.sentAt && e.nonce == d.nonce
            && e.ephPub.None? && e.convDhPub.None?
            && SealsText(e, MessageKey(start, c.index), d.plaintext))
  {
  }

  /** The text sealed in this very envelope, under this key. */
  predicate SealsText(env: Envelope, key: Key, text: string)
  {
    ComputeAd(env).Ok? && env.ciphertext == Sealed(key, env.nonce, ComputeAd(env).value, text)
  }

  /** The key for chain index i: from the cache if it is there, else by advancing. */
  function KeyFor(c: KeyChain, i: int): (KeyChain, Result<Key, ChainError>)
  {
    var (c', cached) := SkippedTaken(c, i);
    if cached.Some? then (c', Ok(cached.value)) else AdvancedTo(c', i)
  }

  function Decrypted(rc: Receiver, env: Envelope): (Receiver, Result<string, Rejection>)
  {
    match Checked(rc.filter, env.id, env.counter)
    case Some(replay) => (rc, Err(Replayed(replay)))
    case None =>
      var (chain, key) := KeyFor(rc.chain, env.chainIndex);
      if key.Err? then (rc.(chain := chain), Err(ChainRejected(key.error)))
      else
        var ad := ComputeAd(env);
        if ad.Err? then (rc.(chain := chain), Err(AdOverflow))
        else
          match Open(key.value, env.nonce, ad.value, env.ciphertext)
          case None => (rc.(chain := chain), Err(Tampered))
          case Some(text) => (Receiver(chain, Committed(rc.filter, env.id, env.counter)), Ok(text))
  }

  method DecryptEnvelope(recvChain: RatchetChain, env: Envelope, protector: ReplayProtector)
    returns (r: Result<string, Rejection>)
    requires |protector.seenIds| <= SEEN_CAPACITY
    modifies recvChain, protector
    ensures (Receiver(recvChain.State(), protector.State()), r)
         == Decrypted(Receiver(old(recvChain.State()), old(protector.State())), env)
    ensures |protector.seenIds| <= SEEN_CAPACITY
  {
    var replay := protector.Check(env.id, env.counter);
    if replay.Some? {
      return Err(Replayed(replay.value));
    }
    var cached := recvChain.TrySkipped(env.chainIndex);
    var key: Key;
    if cached.Some? {
      key := cached.value;
    } else {
      var advanced := recvChain.AdvanceTo(env.chainIndex);
      if advanced.Err? {
        return Err(ChainRejected(advanced.error));
      }
      key := advanced.value;
    }
    var ad := ComputeAd(env);
    if ad.Err? {
      return Err(AdOverflow);
    }
    var text := Open(key, env.nonce, ad.value, env.ciphertext);
    if text.None? {
      return Err(Tampered);
    }
    protector.Commit(env.id, env.counter);
    r := Ok(text.value);
  }

  /** What KeyFor hands out is the unspent key of its index, which is spent from then on. */
  lemma KeyForSpendsOneIndex(start: Key, c: KeyChain, i: int)
    requires OnSchedule(start, c)
    ensures
      var (c', key) := KeyFor(c, i);
      && OnSchedule(start, c')
      && (key.Ok? <==> !Spent(c, i) && 0 <= i <= c.index + MAX_SKIP)
      && (key.Err? ==> c' == c)
      && (key.Ok? ==>
            && key.value == MessageKey(start, i)
            && c'.index == (if i < c.index then c.index else i + 1)
            && forall j :: Spent(c', j) <==> Spent(c, j) || j == i)
  {
    if i !in c.skipped {
      AdvanceToStaysOnSchedule(start, c, i);
    }
  }

  // ---------------------------------------------------------------- genuine traffic

  /** The envelopes of a sender whose every send succeeds: counter and chain index run together. */
  function SendAll(start: KeyChain, drafts: seq<Draft>): (KeyChain, seq<Result<Envelope, AdError>>)
  {
    if drafts == [] then (start, [])
    else
      var n := |drafts| - 1;
      var (c, sent) := SendAll(start, drafts[..n]);
      var (c', r) := Built(c, drafts[n], n);
      (c', sent + [r])
  }

  predicate IsOutbox(start: KeyChain, drafts: seq<Draft>, outbox: seq<Envelope>)
  {
    && |outbox| == |drafts|
    && |SendAll(start, drafts).1| == |drafts|
    && forall n :: 0 <= n < |drafts| ==> SendAll(start, drafts).1[n] == Ok(outbox[n])
  }

  predicate DistinctIds(drafts: seq<Draft>)
  {
    forall m, n :: 0 <= m < n < |drafts| ==> drafts[m].id != drafts[n].id
  }

  ghost predicate Genuine(start: Key, env: Envelope, d: Draft, n: nat)
  {
    && env.id == d.id && env.counter == n && env.chainIndex == n
    && ComputeAd(env).Ok?
    && env.ciphertext == Sealed(MessageKey(start, n), env.nonce, ComputeAd(env).value, d.plaintext)
  }

  lemma {:induction false} SentEnvelopesAreGenuine(start: Key, drafts: seq<Draft>)
    ensures
      var (c, sent) := SendAll(Fresh(start), drafts);
      && c == Chain(KeyAt(start, |drafts|), |drafts|, map[])
      && |sent| == |drafts|
      && forall n :: 0 <= n < |sent| && sent[n].Ok? ==> Genuine(start, sent[n].value, drafts[n], n)
  {
    if drafts != [] {
      SentEnvelopesAreGenuine(start, drafts[..|drafts| - 1]);
    }
  }

  // ---------------------------------------------------------------- the window, stated without any key

  datatype Window = Window(delivered: set<int>, maxSeen: int)

  predicate Accepts(w: Window, c: nat)
  {
    c !in w.delivered && w.maxSeen - REPLAY_WINDOW < c <= w.maxSeen + MAX_SKIP + 1
  }

  function Moved(w: Window, c: nat): Window
  {
    if Accepts(w, c) then Window(w.delivered + {c}, if c > w.maxSeen then c else w.maxSeen) else w
  }

  /** The window after counters arrived in the order of the schedule, with loss and repetition at will. */
  function WindowAfter(schedule: seq<nat>): Window
  {
    if schedule == [] then Window({}, -1)
    else Moved(WindowAfter(schedule[..|schedule| - 1]), schedule[|schedule| - 1])
  }

  /** Every entry of the schedule is the position of an envelope. */
  predicate Names(schedule: seq<nat>, outbox: seq<Envelope>)
  {
    forall k :: 0 <= k < |schedule| ==> schedule[k] < |outbox|
  }

  /** The receiver after the envelopes named by the schedule arrived in that order. */
  function ReceiverAfter(chain: KeyChain, outbox: seq<Envelope>, schedule: seq<nat>): Receiver
    requires Names(schedule, outbox)
  {
    if schedule == [] then Receiver(chain, EMPTY_FILTER)
    else
      var last := schedule[|schedule| - 1];
      Decrypted(ReceiverAfter(chain, outbox, schedule[..|schedule| - 1]), outbox[last]).0
  }

  ghost predicate ChainAgrees(start: Key, chain: KeyChain, w: Window)
  {
    && OnSchedule(start, chain)
    && chain.index == w.maxSeen + 1
    && forall i :: Spent(chain, i) <==> i in w.delivered
  }

  /** The log h of accepted deliveries explains both the filter and the window. */
  ghost predicate LogAgrees(drafts: seq<Draft>, f: Filter, w: Window, h: seq<Delivery>)
  {
    && f == FilterAfter(h) && f.maxCounter == w.maxSeen
    && EachPassed(h) && DistinctCounters(h)
    && w.delivered == CountersFrom(h, 0)
    && (forall n :: 0 <= n < |h| ==> Logged(drafts, h[n]))
  }

  predicate Logged(drafts: seq<Draft>, d: Delivery)
  {
    0 <= d.counter < |drafts| && d.id == drafts[d.counter].id
  }

  ghost predicate Agree(start: Key, drafts: seq<Draft>, rc: Receiver, w: Window, h: seq<Delivery>)
  {
    ChainAgrees(start, rc.chain, w) && LogAgrees(drafts, rc.filter, w, h)
  }

  /** An undelivered identifier is not in the queue. */
  lemma UndeliveredIsUnseen(drafts: seq<Draft>, f: Filter, w: Window, h: seq<Delivery>, c: nat)
    requires LogAgrees(drafts, f, w, h) && DistinctIds(drafts) && c < |drafts| && c !in w.delivered
    ensures drafts[c].id !in f.seenIds
  {
    FilterRemembers(h);
    forall n | 0 <= n < |h|
      ensures Ids(h)[n] != drafts[c].id
    {
      assert Logged(drafts, h[n]);
      assert h[n].counter in CountersFrom(h, 0);
    }
  }

  /** The log grows by a delivery that passed the check and brings a new counter. */
  lemma LogGrows(h: seq<Delivery>, d: Delivery)
    requires EachPassed(h) && DistinctCounters(h)
    requires Checked(FilterAfter(h), d.id, d.counter).None?
    requires forall n :: 0 <= n < |h| ==> h[n].counter != d.counter
    ensures EachPassed(h + [d]) && DistinctCounters(h + [d])
    ensures FilterAfter(h + [d]) == Committed(FilterAfter(h), d.id, d.counter)
  {
    var h' := h + [d];
    assert h'[..|h|] == h;
  }

  lemma AcceptedOpens(start: Key, drafts: seq<Draft>, rc: Receiver, w: Window, h: seq<Delivery>, env: Envelope, c: nat)
    requires Agree(start, drafts, rc, w, h) && DistinctIds(drafts) && c < |drafts|
    requires Genuine(start, env, drafts[c], c) && Accepts(w, c)
    ensures Decrypted(rc, env).1 == Ok(drafts[c].plaintext)
    ensures Decrypted(rc, env).0 == Receiver(KeyFor(rc.chain, c).0, Committed(rc.filter, env.id, c))
    ensures Checked(rc.filter, env.id, c).None?
  {
    UndeliveredIsUnseen(drafts, rc.filter, w, h, c);
    KeyForSpendsOneIndex(start, rc.chain, c);
  }

  lemma CountersGrow(h: seq<Delivery>, d: Delivery)
    ensures CountersFrom(h + [d], 0) == CountersFrom(h, 0) + {d.counter}
  {
    var h' := h + [d];
    assert h'[|h|] == d;
    forall n | 0 <= n < |h|
      ensures h[n].counter in CountersFrom(h', 0)
    {
      assert h'[n] == h[n];
    }
  }

  lemma LogAgreementMoves(drafts: seq<Draft>, f: Filter, w: Window, h: seq<Delivery>, c: nat)
    requires LogAgrees(drafts, f, w, h) && c < |drafts| && Accepts(w, c)
    requires Checked(f, drafts[c].id, c).None?
    ensures
      LogAgrees(drafts, Committed(f, drafts[c].id, c), Moved(w, c), h + [Delivery(drafts[c].id, c)])
  {
    var d := Delivery(drafts[c].id, c);
    assert forall n :: 0 <= n < |h| ==> h[n].counter in CountersFrom(h, 0);
    LogGrows(h, d);
    CountersGrow(h, d);
    assert Logged(drafts, d);
  }

  lemma RefusedChangesNothing(
    start: Key, drafts: seq<Draft>, rc: Receiver, w: Window, h: seq<Delivery>, env: Envelope, c: nat)
    requires Agree(start, drafts, rc, w, h) && c < |drafts|
    requires Genuine(start, env, drafts[c], c) && !Accepts(w, c)
    ensures Decrypted(rc, env).1.Err? && Decrypted(rc, env).0 == rc
  {
    if c in w.delivered {
      var n :| 0 <= n < |h| && h[n].counter == c;
      CommittedIsRejectedForever(h, n);
    } else {
      KeyForSpendsOneIndex(start, rc.chain, c);
    }
  }

  lemma {:induction false} ReceiverTracksWindow(
    start: Key, drafts: seq<Draft>, outbox: seq<Envelope>, schedule: seq<nat>) returns (h: seq<Delivery>)
    requires DistinctIds(drafts) && |outbox| == |drafts|
    requires forall n :: 0 <= n < |outbox| ==> Genuine(start, outbox[n], drafts[n], n)
    requires Names(schedule, outbox)
    ensures Agree(start, drafts, ReceiverAfter(Fresh(start), outbox, schedule), WindowAfter(schedule), h)
  {
    if schedule == [] {
      h := [];
    } else {
      var init, c := schedule[..|schedule| - 1], schedule[|schedule| - 1];
      h := ReceiverTracksWindow(start, drafts, outbox, init);
      var rc, w := ReceiverAfter(Fresh(start), outbox, init), WindowAfter(init);
      if Accepts(w, c) {
        AcceptedOpens(start, drafts, rc, w, h, outbox[c], c);
        LogAgreementMoves(drafts, rc.filter, w, h, c);
        KeyForSpendsOneIndex(start, rc.chain, c);
        h := h + [Delivery(outbox[c].id, c)];
      } else {
        RefusedChangesNothing(start, drafts, rc, w, h, outbox[c], c);
      }
    }
  }

  /**
   Exact acceptance window. Let either side of any session send drafts with distinct identifiers, and
   let the other side receive them in any order, with any loss and repetition. The next genuine
   envelope c yields the sender's plaintext exactly when c is undelivered and lies above the highest
   accepted counter less 50 and at most 51 beyond it; otherwise it is refused and nothing changes.
   */
  lemma ExactAcceptanceWindow(
    h: Handshake, fromInitiator: bool, drafts: seq<Draft>, outbox: seq<Envelope>, schedule: seq<nat>, c: nat)
    requires DistinctIds(drafts) && IsOutbox(h.Chains(fromInitiator).0, drafts, outbox)
    requires Names(schedule, outbox) && c < |outbox|
    ensures
      var rc := ReceiverAfter(h.Chains(!fromInitiator).1, outbox, schedule);
      var (rc', r) := Decrypted(rc, outbox[c]);
      if Accepts(WindowAfter(schedule), c) then r == Ok(drafts[c].plaintext) else r.Err? && rc' == rc
  {
    ChainsCross(h);
    var chain := h.Chains(fromInitiator).0;
    var start := chain.chainKey;
    assert chain == Fresh(start) == h.Chains(!fromInitiator).1;
    SentEnvelopesAreGenuine(start, drafts);
    var log := ReceiverTracksWindow(start, drafts, outbox, schedule);
    var rc, w := ReceiverAfter(chain, outbox, schedule), WindowAfter(schedule);
    if Accepts(w, c) {
      AcceptedOpens(start, drafts, rc, w, log, outbox[c], c);
    } else {
      RefusedChangesNothing(start, drafts, rc, w, log, outbox[c], c);
    }
  }

  // ---------------------------------------------------------------- arbitrary traffic

  /** The receiver after any envelopes whatever, genuine or not. */
  function ReceiverAfterAny(chain: KeyChain, envs: seq<Envelope>): Receiver
  {
    if envs == [] then Receiver(chain, EMPTY_FILTER)
    else Decrypted(ReceiverAfterAny(chain, envs[..|envs| - 1]), envs[|envs| - 1]).0
  }

  /** The outcome of envelope n in the order of arrival. */
  function OutcomeOf(chain: KeyChain, envs: seq<Envelope>, n: nat): Result<string, Rejection>
    requires n < |envs|
  {
    Decrypted(ReceiverAfterAny(chain, envs[..n]), envs[n]).1
  }

  /** The envelope passes the filter, and the key of its index can be had. */
  predicate KeyAvailable(rc: Receiver, env: Envelope)
  {
    && Checked(rc.filter, env.id, env.counter).None?
    && !Spent(rc.chain, env.chainIndex) && 0 <= env.chainIndex <= rc.chain.index + MAX_SKIP
  }

  /**
   What one envelope does, genuine or not. If its key is not to be had, it is refused for a replay or by the
   chain, and nothing changes. Otherwise the key of its index is spent and no other; it opens exactly if
   that key seals a text in this envelope, and only then is it recorded in the filter.
   */
  lemma DecryptedDoesExactly(start: Key, rc: Receiver, env: Envelope)
    requires OnSchedule(start, rc.chain)
    ensures
      var (rc', r) := Decrypted(rc, env);
      if !KeyAvailable(rc, env) then
        && rc' == rc
        && r == match Checked(rc.filter, env.id, env.counter)
                case Some(replay) => Err(Replayed(replay))
                case None => Err(ChainRejected(
                    if env.chainIndex < rc.chain.index then BehindCurrentIndex else TooManySkipped))
      else
        && OnSchedule(start, rc'.chain)
        && rc'.chain.index == (if env.chainIndex < rc.chain.index then rc.chain.index else env.chainIndex + 1)
        && (forall i :: Spent(rc'.chain, i) <==> Spent(rc.chain, i) || i == env.chainIndex)
        && (forall text :: r == Ok(text) <==> SealsText(env, MessageKey(start, env.chainIndex), text))
        && (r.Err? ==> r.error == if ComputeAd(env).Err? then AdOverflow else Tampered)
        && rc'.filter == if r.Ok? then Committed(rc.filter, env.id, env.counter) else rc.filter
  {
    KeyForSpendsOneIndex(start, rc.chain, env.chainIndex);
    if env.chainIndex !in rc.chain.skipped {
      AdvanceToStaysOnSchedule(start, rc.chain, env.chainIndex);
    }
  }

  /** The deliveries that opened, in the order of arrival. */
  function Opened(chain: KeyChain, envs: seq<Envelope>): seq<Delivery>
  {
    if envs == [] then []
    else
      var n := |envs| - 1;
      Opened(chain, envs[..n])
      + if OutcomeOf(chain, envs, n).Ok? then [Delivery(envs[n].id, envs[n].counter)] else []
  }

  /** Envelope n used up the key of its index, by opening or by failing after the key was taken. */
  predicate TookItsKey(chain: KeyChain, envs: seq<Envelope>, n: nat)
    requires n < |envs|
  {
    var r := OutcomeOf(chain, envs, n);
    r.Ok? || r.error == AdOverflow || r.error == Tampered
  }

  predicate TakenBy(chain: KeyChain, envs: seq<Envelope>, n: nat, i: int)
  {
    n < |envs| && envs[n].chainIndex == i && TookItsKey(chain, envs, n)
  }

  lemma EarlierTakings(chain: KeyChain, envs: seq<Envelope>, n: nat, i: int)
    requires n < |envs| - 1
    ensures TakenBy(chain, envs[..|envs| - 1], n, i) <==> TakenBy(chain, envs, n, i)
  {
    assert envs[..|envs| - 1][..n] == envs[..n];
  }

  /** Some envelope of this index took its key. */
  ghost predicate IndexTaken(chain: KeyChain, envs: seq<Envelope>, i: int)
  {
    exists n: nat :: TakenBy(chain, envs, n, i)
  }

  lemma IndexTakenMoves(chain: KeyChain, envs: seq<Envelope>, i: int)
    requires envs != []
    ensures IndexTaken(chain, envs, i)
        <==> IndexTaken(chain, envs[..|envs| - 1], i) || TakenBy(chain, envs, |envs| - 1, i)
  {
    var init := envs[..|envs| - 1];
    if IndexTaken(chain, init, i) {
      var n: nat :| TakenBy(chain, init, n, i);
      EarlierTakings(chain, envs, n, i);
    }
    if IndexTaken(chain, envs, i) {
      var n: nat :| TakenBy(chain, envs, n, i);
      if n < |init| {
        EarlierTakings(chain, envs, n, i);
      }
    }
  }

  /**
   What a receiver holds after any arrivals whatever. Its filter is that of the deliveries that opened, in
   their order, and of no others; its chain is on schedule; and the spent indices are exactly those of
   envelopes that opened, or failed after their key had been taken.
   */
  lemma {:induction false} ReceiverHoldsExactly(start: Key, envs: seq<Envelope>)
    ensures
      var rc := ReceiverAfterAny(Fresh(start), envs);
      && rc.filter == FilterAfter(Opened(Fresh(start), envs))
      && OnSchedule(start, rc.chain)
      && forall i :: Spent(rc.chain, i) <==> IndexTaken(Fresh(start), envs, i)
  {
    if envs != [] {
      var init, env := envs[..|envs| - 1], envs[|envs| - 1];
      var rc, rc' := ReceiverAfterAny(Fresh(start), init), ReceiverAfterAny(Fresh(start), envs);
      ReceiverHoldsExactly(start, init);
      DecryptedDoesExactly(start, rc, env);
      OpenedMoves(Fresh(start), envs);
      forall i
        ensures Spent(rc'.chain, i) <==> IndexTaken(Fresh(start), envs, i)
      {
        IndexTakenMoves(Fresh(start), envs, i);
      }
    }
  }

  lemma OpenedMoves(chain: KeyChain, envs: seq<Envelope>)
    requires envs != []
    ensures
      var n := |envs| - 1;
      FilterAfter(Opened(chain, envs))
      == if OutcomeOf(chain, envs, n).Ok?
         then Committed(FilterAfter(Opened(chain, envs[..n])), envs[n].id, envs[n].counter)
         else FilterAfter(Opened(chain, envs[..n]))
  {
    var n := |envs| - 1;
    var h, d := Opened(chain, envs[..n]), Delivery(envs[n].id, envs[n].counter);
    assert (h + [d])[..|h|] == h;
    assert h + [] == h;
  }

  lemma DecryptedSpendsItsIndex(start: Key, rc: Receiver, env: Envelope)
    requires OnSchedule(start, rc.chain)
    ensures
      var (rc', r) := Decrypted(rc, env);
      && OnSchedule(start, rc'.chain)
      && (forall i :: Spent(rc.chain, i) ==> Spent(rc'.chain, i))
      && (r.Ok? ==>
            && !Spent(rc.chain, env.chainIndex) && Spent(rc'.chain, env.chainIndex)
            && ComputeAd(env).Ok?
            && env.ciphertext
               == Sealed(MessageKey(start, env.chainIndex), env.nonce, ComputeAd(env).value, r.value))
  {
    KeyForSpendsOneIndex(start, rc.chain, env.chainIndex);
  }

  /** Every index that opened an envelope stays spent. */
  lemma {:induction false} OpenedIndexStaysSpent(start: Key, envs: seq<Envelope>, n: nat)
    requires n < |envs|
    ensures OnSchedule(start, ReceiverAfterAny(Fresh(start), envs).chain)
    ensures OutcomeOf(Fresh(start), envs, n).Ok? ==>
              && Spent(ReceiverAfterAny(Fresh(start), envs).chain, envs[n].chainIndex)
              && envs[n].ciphertext.Sealed?
              && envs[n].ciphertext.key == MessageKey(start, envs[n].chainIndex)
  {
    var init := envs[..|envs| - 1];
    var rc := ReceiverAfterAny(Fresh(start), init);
    if n < |init| {
      OpenedIndexStaysSpent(start, init, n);
      assert init[..n] == envs[..n];
    } else if init != [] {
      OpenedIndexStaysSpent(start, init, 0);
    }
    DecryptedSpendsItsIndex(start, rc, envs[|envs| - 1]);
  }

  /**
   No ciphertext opens twice on one receive chain, whatever envelopes arrive: new identifiers,
   counters or chain indices do not help.
   */
  lemma NoCiphertextOpensTwice(start: Key, envs: seq<Envelope>, m: nat, n: nat)
    requires m < n < |envs|
    requires OutcomeOf(Fresh(start), envs, m).Ok? && OutcomeOf(Fresh(start), envs, n).Ok?
    ensures envs[m].ciphertext != envs[n].ciphertext
  {
    OpenedIndexStaysSpent(start, envs[..n], m);
    assert envs[..n][..m] == envs[..m];
    DecryptedSpendsItsIndex(start, ReceiverAfterAny(Fresh(start), envs[..n]), envs[n]);
    MessageKeysAreDistinct(start, envs[m].chainIndex, envs[n].chainIndex);
  }

  /**
   Bound metadata. If the ciphertext of an honestly built envelope opens inside any envelope at all,
   then that envelope carries the counter, chain index, TTL field and timestamp it was built with, and
   opens to the text it was built from; and it carries the same sender, recipient and conversation too,
   unless one of them contains the separator.
   */
  lemma OpenedMetadataIsAuthentic(
    start: Key, rc: Receiver, env: Envelope, d: Draft, n: nat, counter: int, built: Envelope)
    requires OnSchedule(start, rc.chain)
    requires Built(Chain(KeyAt(start, n), n, map[]), d, counter).1 == Ok(built)
    requires env.ciphertext == built.ciphertext && Decrypted(rc, env).1.Ok?
    ensures SameNumbers(built, env) && env.chainIndex == built.chainIndex
    ensures SeparatorFree(built) ==> SameIds(built, env)
    ensures Decrypted(rc, env).1.value == d.plaintext
  {
    DecryptedSpendsItsIndex(start, rc, env);
    AdFixesTheNumbers(built, env);
    if SeparatorFree(built) {
      AdIsInjective(built, env);
    }
    MessageKeysAreDistinct(start, n, env.chainIndex);
  }
}
