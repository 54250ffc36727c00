/**
 Trust in peers' identity keys (client/crypto/session.py): the first key is trusted on first use, a
 verified key is pinned, and a change is flagged.
 */
module TrustCache {
  import opened Common

  datatype TrustState = TrustState(fingerprint: string, verified: bool, keyChanged: bool)

  datatype Cache = Cache(store: map<string, Bytes>, trust: map<string, TrustState>)

  const EMPTY_CACHE := Cache(map[], map[])

  datatype KeyChangeWarning = KeyChangeWarning(peerId: string, cached: Bytes, received: Bytes)

  /** The digest of a public key; which function it is does not matter here. */
  type Fingerprint = Bytes -> string

  // ---------------------------------------------------------------- what the operations compute

  /** The state on record, or that of a key nobody has verified. */
  function StateOf(fp: Fingerprint, c: Cache, peer: string, cached: Bytes): TrustState
  {
    if peer in c.trust then c.trust[peer] else TrustState(fp(cached), false, false)
  }

  function With(c: Cache, peer: string, pub: Bytes, state: TrustState): Cache
  {
    Cache(c.store[peer := pub], c.trust[peer := state])
  }

  /** The flag asks for a warning; a warning raised leaves the pinned key alone. */
  function CheckedKey(fp: Fingerprint, c: Cache, peer: string, pub: Bytes): (Cache, Result<bool, KeyChangeWarning>)
  {
    if peer !in c.store then (With(c, peer, pub, TrustState(fp(pub), false, false)), Ok(false))
    else if c.store[peer] == pub then (c, Ok(false))
    else
      var state := StateOf(fp, c, peer, c.store[peer]);
      if state.verified
      then (c.(trust := c.trust[peer := state.(keyChanged := true)]), Err(KeyChangeWarning(peer, c.store[peer], pub)))
      else (With(c, peer, pub, TrustState(fp(pub), false, true)), Ok(true))
  }

  function MarkedVerified(fp: Fingerprint, c: Cache, peer: string, pub: Bytes): Cache
  {
    With(c, peer, pub, TrustState(fp(pub), true, false))
  }

  class IdentityKeyCache {
    const fp: Fingerprint
    var store: map<string, Bytes>
    var trustStates: map<string, TrustState>

    function State(): Cache
      reads this
    {
      Cache(store, trustStates)
    }

    constructor (fp: Fingerprint)
      ensures State() == EMPTY_CACHE && this.fp == fp
    {
      this.fp, store, trustStates := fp, map[], map[];
    }

    method CheckAndUpdate(peer: string, received: Bytes) returns (r: Result<bool, KeyChangeWarning>)
      modifies this
      ensures (State(), r) == CheckedKey(fp, old(State()), peer, received)
    {
      if peer !in store {
        store := store[peer := received];
        trustStates := trustStates[peer := TrustState(fp(received), false, false)];
        return Ok(false);
      }
      var cached := store[peer];
      if cached == received {
        return Ok(false);
      }
      var state := StateOf(fp, State(), peer, cached);
      if state.verified {
        trustStates := trustStates[peer := state.(keyChanged := true)];
        return Err(KeyChangeWarning(peer, cached, received));
      }
      store := store[peer := received];
      trustStates := trustStates[peer := TrustState(fp(received), false, true)];
      return Ok(true);
    }

    method MarkVerified(peer: string, pub: Bytes)
      modifies this
      ensures State() == MarkedVerified(fp, old(State()), peer, pub)
    {
      store := store[peer := pub];
      trustStates := trustStates[peer := TrustState(fp(pub), true, false)];
    }
  }

  // ---------------------------------------------------------------- whole histories

  datatype Event = Check(peer: string, pub: Bytes) | Verify(peer: string, pub: Bytes)

  function CacheAfter(fp: Fingerprint, events: seq<Event>): Cache
  {
    if events == [] then EMPTY_CACHE
    else
      var c, last := CacheAfter(fp, events[..|events| - 1]), events[|events| - 1];
      match last
      case Check(peer, pub) => CheckedKey(fp, c, peer, pub).0
      case Verify(peer, pub) => MarkedVerified(fp, c, peer, pub)
  }

  /** Event n is the last verification of the peer. */
  predicate LastVerified(events: seq<Event>, peer: string, n: nat)
  {
    n < |events| && events[n] == Verify(peer, events[n].pub)
    && forall m :: n < m < |events| && events[m].peer == peer ==> events[m].Check?
  }

  /** Event n is the last check of a peer who was never verified. */
  predicate LastChecked(events: seq<Event>, peer: string, n: nat)
  {
    n < |events| && events[n].peer == peer
    && (forall m :: n < m < |events| ==> events[m].peer != peer)
    && (forall m :: 0 <= m < |events| && events[m].peer == peer ==> events[m].Check?)
  }

  /** The peer showed another key than `pub` from event n on. */
  predicate Strayed(events: seq<Event>, peer: string, pub: Bytes, n: nat)
  {
    exists m :: n <= m < |events| && events[m].peer == peer && events[m].pub != pub
  }

  /** Two checks of the peer disagree. */
  predicate Disagree(events: seq<Event>, peer: string)
  {
    exists m :: 0 <= m < |events| && events[m].peer == peer && Strayed(events, peer, events[m].pub, 0)
  }

  predicate Known(events: seq<Event>, peer: string)
  {
    exists m :: 0 <= m < |events| && events[m].peer == peer
  }

  predicate Decides(events: seq<Event>, peer: string, n: nat)
  {
    LastVerified(events, peer, n) || LastChecked(events, peer, n)
  }

  /** The event that decides: the last verification if there is one, else the last check. */
  lemma {:induction false} DecidingEvent(events: seq<Event>, peer: string) returns (n: nat)
    requires Known(events, peer)
    ensures Decides(events, peer, n)
  {
    var init, k := events[..|events| - 1], |events| - 1;
    if events[k].peer == peer && events[k].Verify? {
      n := k;
    } else if Known(init, peer) {
      n := DecidingEvent(init, peer);
      if LastChecked(init, peer, n) && events[k].peer == peer {
        n := k;
      }
    } else {
      assert forall m :: 0 <= m < k ==> init[m].peer != peer;
      n := k;
    }
  }

  /** What the cache should hold for a peer, given the event that decides. */
  ghost predicate Explains(fp: Fingerprint, c: Cache, events: seq<Event>, peer: string, n: nat)
    requires n < |events|
  {
    var changed := if events[n].Verify? then Strayed(events, peer, events[n].pub, n) else Disagree(events, peer);
    && peer in c.store && c.store[peer] == events[n].pub
    && peer in c.trust && c.trust[peer] == TrustState(fp(events[n].pub), events[n].Verify?, changed)
  }

  lemma OtherPeersDoNotMatter(init: seq<Event>, last: Event, peer: string, n: nat)
    requires last.peer != peer && Decides(init + [last], peer, n)
    ensures Decides(init, peer, n) && (init + [last])[n] == init[n]
    ensures forall pub :: Strayed(init + [last], peer, pub, n) <==> Strayed(init, peer, pub, n)
    ensures Disagree(init + [last], peer) <==> Disagree(init, peer)
  {
    var events := init + [last];
    assert forall m :: 0 <= m < |init| ==> events[m] == init[m];
    assert forall pub, k: nat :: Strayed(events, peer, pub, k) <==> Strayed(init, peer, pub, k);
  }

  lemma CheckStrays(init: seq<Event>, peer: string, pub: Bytes, key: Bytes, n: nat)
    requires n <= |init|
    ensures Strayed(init + [Check(peer, pub)], peer, key, n) <==> Strayed(init, peer, key, n) || key != pub
  {
    var events := init + [Check(peer, pub)];
    assert events[|init|] == Check(peer, pub);
    assert forall m :: 0 <= m < |init| ==> events[m] == init[m];
    if Strayed(init, peer, key, n) {
      var m :| n <= m < |init| && init[m].peer == peer && init[m].pub != key;
      assert events[m].pub != key;
    }
  }

  /** A check makes the keys disagree unless they agreed and it brings the last of them again. */
  lemma CheckDisagrees(init: seq<Event>, peer: string, pub: Bytes, n: nat)
    requires n < |init| && init[n].peer == peer
    ensures Disagree(init + [Check(peer, pub)], peer) <==> Disagree(init, peer) || init[n].pub != pub
  {
    var events := init + [Check(peer, pub)];
    assert forall m :: 0 <= m < |init| ==> events[m] == init[m];
    if Disagree(init, peer) {
      var m :| 0 <= m < |init| && init[m].peer == peer && Strayed(init, peer, init[m].pub, 0);
      CheckStrays(init, peer, pub, init[m].pub, 0);
      assert Strayed(events, peer, events[m].pub, 0);
    } else if init[n].pub != pub {
      CheckStrays(init, peer, pub, init[n].pub, 0);
      assert Strayed(events, peer, events[n].pub, 0);
    }
  }

  lemma FirstCheckAgrees(init: seq<Event>, peer: string, pub: Bytes)
    requires !Known(init, peer)
    ensures !Disagree(init + [Check(peer, pub)], peer)
  {
  }

  /** After a check the deciding event is still the last verification, or else the check itself. */
  lemma CheckDecides(init: seq<Event>, peer: string, pub: Bytes, n: nat, m: nat)
    requires Decides(init, peer, m) && Decides(init + [Check(peer, pub)], peer, n)
    ensures n == if init[m].Verify? then m else |init|
  {
    var events := init + [Check(peer, pub)];
    assert events[|init|] == Check(peer, pub);
    assert events[m] == init[m];
    if n < |init| {
      assert events[n] == init[n];
    }
  }

  lemma CheckIsExplained(fp: Fingerprint, c: Cache, init: seq<Event>, peer: string, pub: Bytes, n: nat, m: nat)
    requires Decides(init, peer, m) && Explains(fp, c, init, peer, m)
    requires Decides(init + [Check(peer, pub)], peer, n)
    ensures Explains(fp, CheckedKey(fp, c, peer, pub).0, init + [Check(peer, pub)], peer, n)
  {
    CheckDecides(init, peer, pub, n, m);
    if init[m].Verify? {
      CheckStrays(init, peer, pub, init[m].pub, m);
    } else {
      CheckDisagrees(init, peer, pub, m);
    }
  }

  lemma {:induction false} OnlyKnownPeers(fp: Fingerprint, events: seq<Event>, peer: string)
    ensures peer in CacheAfter(fp, events).store <==> Known(events, peer)
    ensures peer in CacheAfter(fp, events).trust <==> Known(events, peer)
  {
    if events != [] {
      var init, last := events[..|events| - 1], events[|events| - 1];
      OnlyKnownPeers(fp, init, peer);
      assert Known(events, peer) <==> Known(init, peer) || last.peer == peer;
    }
  }

  /**
   Closed form. After any history from an empty cache, a peer's key is the one last verified if there
   is one and the one last checked otherwise; the peer counts as verified exactly in the first case;
   the change flag is up exactly when a later check strayed from the verified key, or, for a peer never
   verified, when not all keys checked were the same; and the fingerprint is that of the stored key.
   */
  lemma {:induction false} CacheIsExplained(fp: Fingerprint, events: seq<Event>, peer: string, n: nat)
    requires Decides(events, peer, n)
    ensures Explains(fp, CacheAfter(fp, events), events, peer, n)
  {
    var init, last := events[..|events| - 1], events[|events| - 1];
    assert events == init + [last];
    OnlyKnownPeers(fp, init, peer);
    if last.peer != peer {
      OtherPeersDoNotMatter(init, last, peer, n);
      CacheIsExplained(fp, init, peer, n);
    } else if last.Verify? {
      assert n == |init|;
    } else if Known(init, peer) {
      var m := DecidingEvent(init, peer);
      CacheIsExplained(fp, init, peer, m);
      CheckIsExplained(fp, CacheAfter(fp, init), init, peer, last.pub, n, m);
    } else {
      FirstCheckAgrees(init, peer, last.pub);
      assert n == |init|;
    }
  }

  /** Once verified, always verified: only another verification replaces the pinned key. */
  lemma VerifiedIsForever(fp: Fingerprint, events: seq<Event>, peer: string, n: nat)
    requires n < |events| && events[n].peer == peer && events[n].Verify?
    ensures
      var c := CacheAfter(fp, events);
      && peer in c.store && peer in c.trust && c.trust[peer].verified
      && exists m :: n <= m < |events| && events[m] == Verify(peer, c.store[peer])
  {
    var m := DecidingEvent(events, peer);
    CacheIsExplained(fp, events, peer, m);
    assert LastVerified(events, peer, m);
    assert m >= n;
  }

  /**
   The answer to the next check: a first key raises nothing; after that, a warning is raised exactly if
   the key strays from the pinned one, and asked for exactly if it differs from the last unverified one.
   */
  lemma AnswerToACheck(fp: Fingerprint, events: seq<Event>, peer: string, n: nat, pub: Bytes)
    requires Known(events, peer) ==> Decides(events, peer, n)
    ensures
      CheckedKey(fp, CacheAfter(fp, events), peer, pub).1
      == if !Known(events, peer) || events[n].pub == pub then Ok(false)
         else if events[n].Verify? then Err(KeyChangeWarning(peer, events[n].pub, pub))
         else Ok(true)
  {
    OnlyKnownPeers(fp, events, peer);
    if Known(events, peer) {
      CacheIsExplained(fp, events, peer, n);
    }
  }
}
