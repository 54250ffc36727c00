/**
 The symmetric ratchet (client/crypto/session.py): a chain key, an index, and a cache of the keys of
 messages that were skipped over.
 */
module Ratchet {
  import opened Common
  import opened KeySchedule

  const MAX_SKIP := 50

  datatype Chain<K> = Chain(chainKey: K, index: int, skipped: map<int, K>)

  type KeyChain = Chain<Key>

  datatype ChainError = BehindCurrentIndex | TooManySkipped

  function Fresh(start: Key): KeyChain { Chain(start, 0, map[]) }

  // ---------------------------------------------------------------- what the operations compute

  function Advanced(c: KeyChain): (KeyChain, Key)
  {
    (Chain(Next(c.chainKey), c.index + 1, c.skipped), MsgKey(c.chainKey))
  }

  /** The keys of messages from c.index up to but not including target. */
  function SkippedOver(c: KeyChain, target: int): (r: map<int, Key>)
    requires c.index <= target
    ensures forall i :: i in r <==> c.index <= i < target
    ensures forall i :: i in r ==> r[i] == MessageKey(c.chainKey, i - c.index)
    decreases target - c.index
  {
    if target == c.index then map[]
    else SkippedOver(c, target - 1)[target - 1 := MessageKey(c.chainKey, target - 1 - c.index)]
  }

  /** One step of the loop in advance_to: the next key goes into the cache. */
  function CachedNext(c: KeyChain): KeyChain
  {
    Chain(Next(c.chainKey), c.index + 1, c.skipped[c.index := MsgKey(c.chainKey)])
  }

  /** Moving to `target` in one stride, caching every key on the way. */
  function CachedUpTo(c: KeyChain, target: int): KeyChain
    requires c.index <= target
  {
    Chain(KeyAt(c.chainKey, target - c.index), target, c.skipped + SkippedOver(c, target))
  }

  lemma CachingOneMore(c: KeyChain, target: int)
    requires c.index <= target
    ensures CachedNext(CachedUpTo(c, target)) == CachedUpTo(c, target + 1)
  {
    var key := MessageKey(c.chainKey, target - c.index);
    assert SkippedOver(c, target + 1) == SkippedOver(c, target)[target := key];
    assert (c.skipped + SkippedOver(c, target))[target := key]
        == c.skipped + SkippedOver(c, target)[target := key];
  }

  function AdvancedTo(c: KeyChain, target: int): (KeyChain, Result<Key, ChainError>)
  {
    if target < c.index then (c, Err(BehindCurrentIndex))
    else if target - c.index > MAX_SKIP then (c, Err(TooManySkipped))
    else
      var (c', key) := Advanced(CachedUpTo(c, target));
      (c', Ok(key))
  }

  function SkippedTaken(c: KeyChain, index: int): (KeyChain, Option<Key>)
  {
    if index in c.skipped then (c.(skipped := c.skipped - {index}), Some(c.skipped[index])) else (c, None)
  }

  class RatchetChain {
    var chainKey: Key
    var index: int
    var skippedKeys: map<int, Key>

    function State(): KeyChain
      reads this
    {
      Chain(chainKey, index, skippedKeys)
    }

    constructor (start: Key)
      ensures State() == Fresh(start)
    {
      chainKey, index, skippedKeys := start, 0, map[];
    }

    method Advance() returns (msgKey: Key)
      modifies this
      ensures (State(), msgKey) == Advanced(old(State()))
    {
      msgKey := MsgKey(chainKey);
      chainKey := Next(chainKey);
      index := index + 1;
    }

    /** The loop caches one key per step; the closed form CachedUpTo caches them all at once. */
    method AdvanceTo(target: int) returns (r: Result<Key, ChainError>)
      modifies this
      ensures (State(), r) == AdvancedTo(old(State()), target)
    {
      if target < index {
        return Err(BehindCurrentIndex);
      }
      if target - index > MAX_SKIP {
        return Err(TooManySkipped);
      }
      ghost var before := State();
      assert CachedUpTo(before, index) == before;
      while index < target
        invariant before.index <= index <= target
        invariant State() == CachedUpTo(before, index)
      {
        CachingOneMore(before, index);
        var skippedKey := Advance();
        skippedKeys := skippedKeys[index - 1 := skippedKey];
      }
      var msgKey := Advance();
      r := Ok(msgKey);
    }

    method TrySkipped(i: int) returns (r: Option<Key>)
      modifies this
      ensures (State(), r) == SkippedTaken(old(State()), i)
    {
      if i in skippedKeys {
        r := Some(skippedKeys[i]);
        skippedKeys := skippedKeys - {i};
      } else {
        r := None;
      }
    }
  }

  // ---------------------------------------------------------------- the two chains of a session

  /** Send chain first, receive chain second. */
  function RatchetChains(root: Key, initiator: bool): (KeyChain, KeyChain)
  {
    var a, b := Derived(root, ChainAInfo), Derived(root, ChainBInfo);
    if initiator then (Fresh(a), Fresh(b)) else (Fresh(b), Fresh(a))
  }

  /** Everything drawn or fixed when a session is set up. */
  datatype Handshake = Handshake(
    ephemeral: Scalar, convDh: Scalar, responderDh: Scalar,
    initiatorId: string, responderId: string, conversationId: string)
  {
    function InitiatorRoot(): (Key, PublicKey, PublicKey)
    {
      RootAsInitiator(ephemeral, convDh, PublicKey(responderDh), initiatorId, responderId, conversationId)
    }

    /** The responder works from the two public keys in the initiator's first envelope. */
    function ResponderRoot(): Key
    {
      var (_, ephPub, convDhPub) := InitiatorRoot();
      RootAsResponder(responderDh, ephPub, convDhPub, responderId, initiatorId, conversationId)
    }

    /** The chains of one side: send first, receive second. */
    function Chains(asInitiator: bool): (KeyChain, KeyChain)
    {
      if asInitiator then RatchetChains(InitiatorRoot().0, true) else RatchetChains(ResponderRoot(), false)
    }
  }

  /**
   Whatever was drawn, each side's send chain is the other side's receive chain, the two differ, and both
   begin at index 0 with an empty cache.
   */
  lemma ChainsCross(h: Handshake)
    ensures h.Chains(true).0 == h.Chains(false).1
    ensures h.Chains(true).1 == h.Chains(false).0
    ensures h.Chains(true).0 != h.Chains(true).1
    ensures forall side :: h.Chains(side).0.index == h.Chains(side).1.index == 0
                           && h.Chains(side).0.skipped == h.Chains(side).1.skipped == map[]
  {
    BothSidesDeriveTheSameRoot(
      h.ephemeral, h.convDh, h.responderDh, h.initiatorId, h.responderId, h.conversationId);
  }

  // ---------------------------------------------------------------- conservation over whole runs

  datatype Op = AdvanceOp | AdvanceToOp(target: int) | TrySkippedOp(index: int)

  /** A chain together with every (index, key) it has handed out so far. */
  datatype Ledger = Ledger(chain: KeyChain, released: seq<(int, Key)>)

  function Apply(l: Ledger, op: Op): Ledger
  {
    match op
    case AdvanceOp =>
      var (c, k) := Advanced(l.chain);
      Ledger(c, l.released + [(l.chain.index, k)])
    case AdvanceToOp(target) =>
      var (c, r) := AdvancedTo(l.chain, target);
      if r.Ok? then Ledger(c, l.released + [(target, r.value)]) else l.(chain := c)
    case TrySkippedOp(i) =>
      var (c, r) := SkippedTaken(l.chain, i);
      if r.Some? then Ledger(c, l.released + [(i, r.value)]) else l.(chain := c)
  }

  function Run(start: Key, ops: seq<Op>): Ledger
  {
    if ops == [] then Ledger(Fresh(start), [])
    else Apply(Run(start, ops[..|ops| - 1]), ops[|ops| - 1])
  }

  /** The chain sits on the schedule of `start`, and so does every key in its cache. */
  ghost predicate OnSchedule(start: Key, c: KeyChain)
  {
    && c.index >= 0
    && c.chainKey == KeyAt(start, c.index)
    && forall i :: i in c.skipped ==> 0 <= i < c.index && c.skipped[i] == MessageKey(start, i)
  }

  /** An index below the chain's own whose key is no longer cached. */
  predicate Spent(c: KeyChain, i: int)
  {
    0 <= i < c.index && i !in c.skipped
  }

  function Indices(released: seq<(int, Key)>): set<int>
  {
    set n | 0 <= n < |released| :: released[n].0
  }

  lemma IndicesGrow(released: seq<(int, Key)>, entry: (int, Key))
    ensures Indices(released + [entry]) == Indices(released) + {entry.0}
  {
    var more := released + [entry];
    assert more[|released|] == entry;
    assert forall n :: 0 <= n < |released| ==> more[n] == released[n];
  }

  ghost predicate Conserved(start: Key, l: Ledger)
  {
    && OnSchedule(start, l.chain)
    && (forall i :: Spent(l.chain, i) <==> i in Indices(l.released))
    && (forall m, n :: 0 <= m < n < |l.released| ==> l.released[m].0 != l.released[n].0)
    && (forall n :: 0 <= n < |l.released| ==>
          l.released[n].0 >= 0 && l.released[n].1 == MessageKey(start, l.released[n].0))
  }

  /**
   A jump to `target` succeeds exactly within the skip limit ahead; it then hands out the key of target,
   which was not spent, and spends that alone. A refused jump changes nothing.
   */
  lemma AdvanceToStaysOnSchedule(start: Key, c: KeyChain, target: int)
    requires OnSchedule(start, c)
    ensures
      var (c', r) := AdvancedTo(c, target);
      && OnSchedule(start, c')
      && (r.Ok? <==> c.index <= target <= c.index + MAX_SKIP)
      && (r == Err(BehindCurrentIndex) <==> target < c.index)
      && (r.Err? ==> c' == c)
      && (r.Ok? ==>
            && !Spent(c, target) && target >= 0 && r.value == MessageKey(start, target)
            && forall i :: Spent(c', i) <==> Spent(c, i) || i == target)
  {
    if c.index <= target <= c.index + MAX_SKIP {
      var (c', r) := AdvancedTo(c, target);
      KeyAtAdds(start, c.index, target - c.index);
      KeyAtAdds(start, c.index, target - c.index + 1);
      forall i | i in c'.skipped
        ensures 0 <= i < c'.index && c'.skipped[i] == MessageKey(start, i)
      {
        if i in SkippedOver(c, target) {
          KeyAtAdds(start, c.index, i - c.index);
        }
      }
    }
  }

  lemma ReleaseConserves(start: Key, l: Ledger, c: KeyChain, entry: (int, Key))
    requires Conserved(start, l) && OnSchedule(start, c)
    requires entry.0 >= 0 && entry.1 == MessageKey(start, entry.0)
    requires !Spent(l.chain, entry.0) && forall i :: Spent(c, i) <==> Spent(l.chain, i) || i == entry.0
    ensures Conserved(start, Ledger(c, l.released + [entry]))
  {
    IndicesGrow(l.released, entry);
    assert forall n :: 0 <= n < |l.released| ==> l.released[n].0 in Indices(l.released);
  }

  lemma ApplyConserves(start: Key, l: Ledger, op: Op)
    requires Conserved(start, l)
    ensures Conserved(start, Apply(l, op))
  {
    match op {
      case AdvanceOp =>
        var (c, k) := Advanced(l.chain);
        ReleaseConserves(start, l, c, (l.chain.index, k));
      case AdvanceToOp(target) =>
        AdvanceToStaysOnSchedule(start, l.chain, target);
        var (c, r) := AdvancedTo(l.chain, target);
        if r.Ok? {
          ReleaseConserves(start, l, c, (target, r.value));
        }
      case TrySkippedOp(i) =>
        var (c, r) := SkippedTaken(l.chain, i);
        if r.Some? {
          ReleaseConserves(start, l, c, (i, r.value));
        }
    }
  }

  /**
   After any sequence of operations the chain key is the start key stepped `index` times, each cached
   key is the one of its index, and cached and released indices partition [0, index).
   */
  lemma {:induction false} EveryRunConserves(start: Key, ops: seq<Op>)
    ensures Conserved(start, Run(start, ops))
  {
    if ops != [] {
      EveryRunConserves(start, ops[..|ops| - 1]);
      ApplyConserves(start, Run(start, ops[..|ops| - 1]), ops[|ops| - 1]);
    }
  }

  /** No message key leaves a chain twice, whatever is asked of it. */
  lemma NoKeyIsReleasedTwice(start: Key, ops: seq<Op>)
    ensures forall m, n :: 0 <= m < n < |Run(start, ops).released| ==>
              Run(start, ops).released[m].1 != Run(start, ops).released[n].1
  {
    EveryRunConserves(start, ops);
    var released := Run(start, ops).released;
    forall m, n | 0 <= m < n < |released|
      ensures released[m].1 != released[n].1
    {
      MessageKeysAreDistinct(start, released[m].0, released[n].0);
    }
  }
}
