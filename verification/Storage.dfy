/**
 Saving sessions to disk and loading them again (client/crypto/storage.py, and the dictionary forms of
 client/crypto/session.py). A JSON object is a map; the storage cipher is ideal.
 */
module Storage {
  import opened Common
  import opened Encoding
  import opened Ratchet
  import opened Replay
  import opened TrustCache

  // ---------------------------------------------------------------- ratchet chains

  type ByteChain = Chain<Bytes>

  datatype ChainJson = ChainJson(chainKeyHex: string, index: int, skipped: Option<map<string, string>>)

  function SkippedDict(keys: map<int, Bytes>): map<string, string>
  {
    map i | i in keys :: Decimal(i) := Hex(keys[i])
  }

  function ChainDict(c: ByteChain): ChainJson
  {
    ChainJson(Hex(c.chainKey), c.index, Some(SkippedDict(c.skipped)))
  }

  predicate KeyReadable(texts: map<string, string>, t: string)
  {
    t in texts && ParseInt(t).Some? && FromHex(texts[t]).Some?
  }

  predicate SkippedReadable(texts: map<string, string>)
  {
    forall t :: t in texts ==> KeyReadable(texts, t)
  }

  /** Every text is read into the key of its number; where two texts give one number, either may win. */
  ghost predicate SkippedRead(texts: map<string, string>, keys: map<int, Bytes>)
  {
    && (forall t :: t in texts ==> KeyReadable(texts, t) && ParseInt(t).value in keys)
    && (forall i :: i in keys ==> exists t :: KeyReadable(texts, t) && ParseInt(t) == Some(i)
                                             && FromHex(texts[t]) == Some(keys[i]))
  }

  function SkippedOf(j: ChainJson): map<string, string>
  {
    if j.skipped.Some? then j.skipped.value else map[]
  }

  predicate ChainReadable(j: ChainJson)
  {
    FromHex(j.chainKeyHex).Some? && SkippedReadable(SkippedOf(j))
  }

  ghost predicate ChainRead(j: ChainJson, c: ByteChain)
  {
    FromHex(j.chainKeyHex) == Some(c.chainKey) && j.index == c.index && SkippedRead(SkippedOf(j), c.skipped)
  }

  method ReadSkipped(texts: map<string, string>) returns (r: Option<map<int, Bytes>>)
    ensures r.Some? <==> SkippedReadable(texts)
    ensures r.Some? ==> SkippedRead(texts, r.value)
  {
    var keys: map<int, Bytes> := map[];
    var rest := texts.Keys;
    while rest != {}
      invariant rest <= texts.Keys
      invariant forall t :: t in texts && t !in rest ==> KeyReadable(texts, t) && ParseInt(t).value in keys
      invariant forall i :: i in keys ==> exists t :: KeyReadable(texts, t) && ParseInt(t) == Some(i)
                                                     && FromHex(texts[t]) == Some(keys[i])
    {
      var t :| t in rest;
      var i, key := ParseInt(t), FromHex(texts[t]);
      if i.None? || key.None? {
        assert !KeyReadable(texts, t);
        return None;
      }
      assert KeyReadable(texts, t);
      keys := keys[i.value := key.value];
      rest := rest - {t};
    }
    r := Some(keys);
  }

  method ReadChain(j: ChainJson) returns (r: Option<ByteChain>)
    ensures r.Some? <==> ChainReadable(j)
    ensures r.Some? ==> ChainRead(j, r.value)
  {
    var chainKey := FromHex(j.chainKeyHex);
    if chainKey.None? {
      return None;
    }
    var skipped := ReadSkipped(SkippedOf(j));
    if skipped.None? {
      return None;
    }
    r := Some(Chain(chainKey.value, j.index, skipped.value));
  }

  /** A printed key is read back as the key that was printed, and under its number. */
  lemma PrintedKey(keys: map<int, Bytes>, t: string)
    requires t in SkippedDict(keys)
    ensures
      && KeyReadable(SkippedDict(keys), t) && ParseInt(t).value in keys
      && FromHex(SkippedDict(keys)[t]) == Some(keys[ParseInt(t).value])
  {
    var i :| i in keys && t == Decimal(i);
  }

  lemma SkippedKeysComeBack(keys: map<int, Bytes>)
    ensures SkippedReadable(SkippedDict(keys)) && SkippedRead(SkippedDict(keys), keys)
  {
    var texts := SkippedDict(keys);
    forall t | t in texts
      ensures KeyReadable(texts, t) && ParseInt(t).value in keys
    {
      PrintedKey(keys, t);
    }
    forall i | i in keys
      ensures exists t :: KeyReadable(texts, t) && ParseInt(t) == Some(i) && FromHex(texts[t]) == Some(keys[i])
    {
      assert Decimal(i) in texts;
      PrintedKey(keys, Decimal(i));
    }
  }

  lemma ReadKeyWasPrinted(keys: map<int, Bytes>, keys': map<int, Bytes>, i: int)
    requires SkippedRead(SkippedDict(keys), keys') && i in keys'
    ensures i in keys && keys'[i] == keys[i]
  {
    var t :| KeyReadable(SkippedDict(keys), t) && ParseInt(t) == Some(i)
             && FromHex(SkippedDict(keys)[t]) == Some(keys'[i]);
    PrintedKey(keys, t);
  }

  lemma PrintedKeyIsRead(keys: map<int, Bytes>, keys': map<int, Bytes>, i: int)
    requires SkippedRead(SkippedDict(keys), keys') && i in keys
    ensures i in keys'
  {
    assert Decimal(i) in SkippedDict(keys);
  }

  lemma OnlySkippedKeysComeBack(keys: map<int, Bytes>, keys': map<int, Bytes>)
    requires SkippedRead(SkippedDict(keys), keys')
    ensures keys' == keys
  {
    forall i | i in keys'
      ensures i in keys && keys'[i] == keys[i]
    {
      ReadKeyWasPrinted(keys, keys', i);
    }
    forall i | i in keys
      ensures i in keys'
    {
      PrintedKeyIsRead(keys, keys', i);
    }
  }

  /** A chain comes back with its key, its index, and every skipped key under its number. */
  lemma ChainRoundTrip(c: ByteChain, c': ByteChain)
    ensures ChainReadable(ChainDict(c))
    ensures ChainRead(ChainDict(c), c') <==> c' == c
  {
    SkippedKeysComeBack(c.skipped);
    if SkippedRead(SkippedDict(c.skipped), c'.skipped) {
      OnlySkippedKeysComeBack(c.skipped, c'.skipped);
    }
  }

  // ---------------------------------------------------------------- replay state, trust, counters

  datatype ReplayJson = ReplayJson(maxCounter: Option<int>, seenIds: Option<seq<string>>)

  function FilterDict(f: Filter): ReplayJson
  {
    ReplayJson(Some(f.maxCounter), Some(f.seenIds))
  }

  /** Absent parts are those of a new filter; the queue keeps no more identifiers than it can hold. */
  function FilterRead(j: Option<ReplayJson>): Filter
  {
    if j.None? then EMPTY_FILTER
    else
      Filter(if j.value.maxCounter.Some? then j.value.maxCounter.value else -1,
             if j.value.seenIds.Some? then LastOf(j.value.seenIds.value, SEEN_CAPACITY) else [])
  }

  /** The former form of an entry was the key alone; entries of any other form are passed over. */
  datatype PeerJson =
    | KeyOnly(hex: string)
    | Record(pubHex: Option<string>, fingerprint: Option<string>, verified: Option<bool>, keyChanged: Option<bool>)
    | OtherForm

  function CacheDict(c: Cache): map<string, PeerJson>
  {
    map peer | peer in c.store && peer in c.trust ::
      Record(Some(Hex(c.store[peer])), Some(c.trust[peer].fingerprint), Some(c.trust[peer].verified),
             Some(c.trust[peer].keyChanged))
  }

  function Or<T>(o: Option<T>, default: T): T
  {
    if o.Some? then o.value else default
  }

  /** The text of the key, unless the entry is passed over. */
  function PubHex(j: PeerJson): Option<string>
  {
    match j
    case KeyOnly(hex) => Some(hex)
    case Record(pubHex, _, _, _) => pubHex
    case OtherForm => None
  }

  function StateRead(fp: Fingerprint, j: PeerJson, pub: Bytes): TrustState
  {
    match j
    case Record(_, fingerprint, verified, keyChanged) =>
      TrustState(Or(fingerprint, fp(pub)), Or(verified, false), Or(keyChanged, false))
    case _ => TrustState(fp(pub), false, false)
  }

  predicate PeerReadable(j: PeerJson)
  {
    PubHex(j).Some? ==> FromHex(PubHex(j).value).Some?
  }

  predicate CacheReadable(raw: map<string, PeerJson>)
  {
    forall peer :: peer in raw ==> PeerReadable(raw[peer])
  }

  function CacheRead(fp: Fingerprint, raw: map<string, PeerJson>): Cache
    requires CacheReadable(raw)
  {
    Cache(
      map peer | peer in raw && PubHex(raw[peer]).Some? :: FromHex(PubHex(raw[peer]).value).value,
      map peer | peer in raw && PubHex(raw[peer]).Some? ::
        StateRead(fp, raw[peer], FromHex(PubHex(raw[peer]).value).value))
  }

  method ReadCache(fp: Fingerprint, raw: map<string, PeerJson>) returns (r: Option<Cache>)
    ensures r.Some? <==> CacheReadable(raw)
    ensures r.Some? ==> r.value == CacheRead(fp, raw)
  {
    var store: map<string, Bytes> := map[];
    var trust: map<string, TrustState> := map[];
    var rest := raw.Keys;
    while rest != {}
      invariant rest <= raw.Keys
      invariant forall peer :: peer in raw && peer !in rest ==> PeerReadable(raw[peer])
      invariant store.Keys == trust.Keys
      invariant forall peer :: peer in store <==> peer in raw && peer !in rest && PubHex(raw[peer]).Some?
      invariant forall peer :: peer in store ==>
        store[peer] == FromHex(PubHex(raw[peer]).value).value && trust[peer] == StateRead(fp, raw[peer], store[peer])
    {
      var peer :| peer in rest;
      var hex := PubHex(raw[peer]);
      if hex.Some? {
        var pub := FromHex(hex.value);
        if pub.None? {
          return None;
        }
        store := store[peer := pub.value];
        trust := trust[peer := StateRead(fp, raw[peer], pub.value)];
      }
      rest := rest - {peer};
    }
    r := Some(Cache(store, trust));
    assert store == CacheRead(fp, raw).store;
    assert trust == CacheRead(fp, raw).trust;
  }

  /** A cache comes back exactly if it has a trust state for every key and no other. */
  lemma CacheRoundTrip(fp: Fingerprint, c: Cache)
    ensures CacheReadable(CacheDict(c))
    ensures CacheRead(fp, CacheDict(c)) == c <==> c.store.Keys == c.trust.Keys
  {
    var c' := CacheRead(fp, CacheDict(c));
    forall peer
      ensures peer in c'.store <==> peer in c.store && peer in c.trust
      ensures peer in c'.trust <==> peer in c.store && peer in c.trust
      ensures peer in c'.store ==> c'.store[peer] == c.store[peer] && c'.trust[peer] == c.trust[peer]
    {
      PeerRoundTrip(fp, c, peer);
    }
    SameCacheExactlyWhen(c, c');
  }

  lemma SameCacheExactlyWhen(c: Cache, c': Cache)
    requires forall peer :: peer in c'.store <==> peer in c.store && peer in c.trust
    requires forall peer :: peer in c'.trust <==> peer in c.store && peer in c.trust
    requires forall peer :: peer in c'.store ==> c'.store[peer] == c.store[peer] && c'.trust[peer] == c.trust[peer]
    ensures c' == c <==> c.store.Keys == c.trust.Keys
  {
    if c.store.Keys == c.trust.Keys {
      assert forall peer :: peer in c.store <==> peer in c.store.Keys;
      assert forall peer :: peer in c.trust <==> peer in c.trust.Keys;
      assert c'.store == c.store;
      assert c'.trust == c.trust;
    }
  }

  lemma PeerRoundTrip(fp: Fingerprint, c: Cache, peer: string)
    requires CacheReadable(CacheDict(c))
    ensures
      var c' := CacheRead(fp, CacheDict(c));
      && (peer in c'.store <==> peer in c.store && peer in c.trust)
      && (peer in c'.trust <==> peer in c.store && peer in c.trust)
      && (peer in c'.store ==> c'.store[peer] == c.store[peer] && c'.trust[peer] == c.trust[peer])
  {
  }

  /** An entry with a key alone, whatever its form, is loaded as a key trusted on first use; others are not loaded. */
  lemma BareKeysLoadAsFirstUse(fp: Fingerprint, raw: map<string, PeerJson>, peer: string)
    requires CacheReadable(raw) && peer in raw
    ensures
      var c := CacheRead(fp, raw);
      match raw[peer]
      case Record(Some(hex), None, None, None) => LoadedAsFirstUse(fp, c, peer, hex)
      case KeyOnly(hex) => LoadedAsFirstUse(fp, c, peer, hex)
      case Record(None, _, _, _) => peer !in c.store && peer !in c.trust
      case OtherForm => peer !in c.store && peer !in c.trust
      case _ => peer in c.store && peer in c.trust
  {
  }

  /** The cache holds what a first check of the key would have left. */
  predicate LoadedAsFirstUse(fp: Fingerprint, c: Cache, peer: string, hex: string)
  {
    FromHex(hex).Some? &&
    var first := CheckedKey(fp, EMPTY_CACHE, peer, FromHex(hex).value).0;
    && peer in c.store && peer in first.store && c.store[peer] == first.store[peer]
    && peer in c.trust && peer in first.trust && c.trust[peer] == first.trust[peer]
  }

  lemma FilterRoundTrip(f: Filter)
    ensures FilterRead(Some(FilterDict(f))) == f <==> |f.seenIds| <= SEEN_CAPACITY
  {
  }

  /** A JSON value where a number should be; a truth value counts as 0 or 1. */
  datatype Number = Whole(value: int) | Truth(holds: bool) | NotANumber

  function CounterRead(n: Option<Number>): int
  {
    match n
    case Some(Whole(i)) => if i >= 0 then i else 0
    case Some(Truth(b)) => if b then 1 else 0
    case _ => 0
  }

  // ---------------------------------------------------------------- sessions

  /** Argon2id over password and salt. */
  datatype StorageKey = StorageKey(password: string, salt: Bytes)

  datatype Box = Box(key: StorageKey, nonce: Bytes, content: Bytes) | Junk(bytes: Bytes)

  function OpenBox(key: StorageKey, nonce: Bytes, b: Box): Option<Bytes>
  {
    if b.Box? && b.key == key && b.nonce == nonce then Some(b.content) else None
  }

  datatype SessionKey = SessionKey(raw: Bytes, conversationId: string, peerId: string)

  datatype SessionState = SessionState(
    sessionKey: SessionKey, send: ByteChain, recv: ByteChain, filter: Filter, cache: Cache, nextOutbound: int)

  datatype Entry = Entry(
    nonce: Bytes, box: Box, peerId: string, nextOutbound: Option<Number>, replay: Option<ReplayJson>,
    send: ChainJson, recv: ChainJson, cache: Option<map<string, PeerJson>>)

  function EntryOf(key: StorageKey, nonce: Bytes, s: SessionState): Entry
  {
    Entry(nonce, Box(key, nonce, s.sessionKey.raw), s.sessionKey.peerId, Some(Whole(s.nextOutbound)),
          Some(FilterDict(s.filter)), ChainDict(s.send), ChainDict(s.recv), Some(CacheDict(s.cache)))
  }

  type File = map<string, Entry>

  /** `nonces` are the random draws, one per conversation. */
  function FileOf(key: StorageKey, nonces: string -> Bytes, states: map<string, SessionState>): File
  {
    map id | id in states :: EntryOf(key, nonces(id), states[id])
  }

  predicate Opens(key: StorageKey, e: Entry)
  {
    OpenBox(key, e.nonce, e.box).Some?
  }

  predicate EntryReadable(e: Entry)
  {
    ChainReadable(e.send) && ChainReadable(e.recv) && CacheReadable(Or(e.cache, map[]))
  }

  ghost predicate EntryRead(fp: Fingerprint, key: StorageKey, id: string, e: Entry, s: SessionState)
  {
    && EntryReadable(e) && OpenBox(key, e.nonce, e.box) == Some(s.sessionKey.raw)
    && s.sessionKey.conversationId == id && s.sessionKey.peerId == e.peerId
    && ChainRead(e.send, s.send) && ChainRead(e.recv, s.recv)
    && s.filter == FilterRead(e.replay) && s.cache == CacheRead(fp, Or(e.cache, map[]))
    && s.nextOutbound == CounterRead(e.nextOutbound)
  }

  /** Whatever opens is read; whatever does not is passed over. */
  ghost predicate FileRead(fp: Fingerprint, key: StorageKey, file: File, states: map<string, SessionState>)
  {
    && (forall id :: id in states <==> id in file && Opens(key, file[id]))
    && (forall id :: id in states ==> EntryRead(fp, key, id, file[id], states[id]))
  }

  predicate FileReadable(key: StorageKey, file: File)
  {
    forall id :: id in file && Opens(key, file[id]) ==> EntryReadable(file[id])
  }

  lemma FileIsDetermined(file: File, key: StorageKey, nonces: string -> Bytes, states: map<string, SessionState>)
    requires forall id :: id in file <==> id in states
    requires forall id :: id in file ==> file[id] == EntryOf(key, nonces(id), states[id])
    ensures file == FileOf(key, nonces, states)
  {
  }

  method SaveSessions(key: StorageKey, nonces: string -> Bytes, states: map<string, SessionState>)
    returns (file: File)
    ensures file == FileOf(key, nonces, states)
  {
    file := map[];
    var rest := states.Keys;
    while rest != {}
      invariant rest <= states.Keys
      invariant forall id :: id in file <==> id in states && id !in rest
      invariant forall id :: id in file ==> file[id] == EntryOf(key, nonces(id), states[id])
    {
      var id :| id in rest;
      file := file[id := EntryOf(key, nonces(id), states[id])];
      rest := rest - {id};
    }
    FileIsDetermined(file, key, nonces, states);
  }

  method ReadEntry(fp: Fingerprint, id: string, raw: Bytes, e: Entry) returns (r: Option<SessionState>)
    ensures r.Some? <==> EntryReadable(e)
    ensures forall key :: r.Some? && OpenBox(key, e.nonce, e.box) == Some(raw) ==>
              EntryRead(fp, key, id, e, r.value)
  {
    var send := ReadChain(e.send);
    var recv := ReadChain(e.recv);
    var cache := ReadCache(fp, Or(e.cache, map[]));
    if send.None? || recv.None? || cache.None? {
      return None;
    }
    r := Some(SessionState(
      SessionKey(raw, id, e.peerId), send.value, recv.value, FilterRead(e.replay), cache.value,
      CounterRead(e.nextOutbound)));
  }

  /** No file is no sessions; an entry that opens but cannot be read ends the loading. */
  method LoadSessions(fp: Fingerprint, key: StorageKey, file: Option<File>)
    returns (r: Option<map<string, SessionState>>)
    ensures file.None? ==> r == Some(map[])
    ensures file.Some? ==> (r.Some? <==> FileReadable(key, file.value))
    ensures file.Some? && r.Some? ==> FileRead(fp, key, file.value, r.value)
  {
    var states: map<string, SessionState> := map[];
    if file.None? {
      return Some(states);
    }
    var entries := file.value;
    var rest := entries.Keys;
    while rest != {}
      invariant rest <= entries.Keys
      invariant forall id :: id in states <==> id in entries && id !in rest && Opens(key, entries[id])
      invariant forall id :: id in states ==> EntryRead(fp, key, id, entries[id], states[id])
    {
      var id :| id in rest;
      var e := entries[id];
      var raw := OpenBox(key, e.nonce, e.box);
      if raw.Some? {
        var state := ReadEntry(fp, id, raw.value, e);
        if state.None? {
          return None;
        }
        states := states[id := state.value];
      }
      rest := rest - {id};
    }
    r := Some(states);
  }

  /**
   An entry from before replay state, trust and counters were kept loads as a session in which nothing
   happened, and a counter other than zero was in the entry.
   */
  lemma OldEntriesLoadAsNew(fp: Fingerprint, key: StorageKey, id: string, e: Entry, s: SessionState)
    requires EntryRead(fp, key, id, e, s)
    ensures e.replay.None? ==> s.filter == EMPTY_FILTER
    ensures e.cache.None? ==> s.cache == EMPTY_CACHE
    ensures s.nextOutbound != 0 ==>
              e.nextOutbound == Some(Whole(s.nextOutbound)) || e.nextOutbound == Some(Truth(s.nextOutbound == 1))
    ensures s.nextOutbound == 0 ==> e.nextOutbound != Some(Truth(true))
    ensures s.nextOutbound >= 0 && |s.filter.seenIds| <= SEEN_CAPACITY && s.cache.store.Keys == s.cache.trust.Keys
  {
    assert CacheRead(fp, map[]) == EMPTY_CACHE;
    assert s.cache.store.Keys == s.cache.trust.Keys;
  }

  // ---------------------------------------------------------------- the round trip

  /** What a session must be like to come back as it was. */
  predicate Restorable(id: string, s: SessionState)
  {
    && s.sessionKey.conversationId == id
    && |s.filter.seenIds| <= SEEN_CAPACITY
    && s.cache.store.Keys == s.cache.trust.Keys
    && s.nextOutbound >= 0
  }

  /** The same root key, peer and chains, filed under id. */
  predicate KeepsKeys(id: string, s: SessionState, s': SessionState)
  {
    s'.sessionKey == s.sessionKey.(conversationId := id) && s'.send == s.send && s'.recv == s.recv
  }

  lemma EntryRoundTrip(
    fp: Fingerprint, key: StorageKey, id: string, nonce: Bytes, s: SessionState, s': SessionState)
    ensures EntryReadable(EntryOf(key, nonce, s))
    ensures EntryRead(fp, key, id, EntryOf(key, nonce, s), s') ==>
              KeepsKeys(id, s, s') && (s' == s <==> Restorable(id, s))
  {
    ChainRoundTrip(s.send, s'.send);
    ChainRoundTrip(s.recv, s'.recv);
    FilterRoundTrip(s.filter);
    CacheRoundTrip(fp, s.cache);
  }

  /**
   Persistence. What was saved can be loaded; every session comes back, with its root key, its peer and
   both chains with all skipped keys; and everything comes back as it was exactly if every session
   carries the identifier it is filed under, has no more than 100 seen identifiers, a trust state for
   every cached key and no other, and a non-negative counter. Under another password or salt nothing
   comes back.
   */
  lemma SavedSessionsComeBack(
    fp: Fingerprint, key: StorageKey, nonces: string -> Bytes,
    states: map<string, SessionState>, states': map<string, SessionState>)
    ensures FileReadable(key, FileOf(key, nonces, states))
    ensures FileRead(fp, key, FileOf(key, nonces, states), states') ==>
              && states'.Keys == states.Keys
              && (forall id :: id in states ==> KeepsKeys(id, states[id], states'[id]))
              && (states' == states <==> forall id :: id in states ==> Restorable(id, states[id]))
    ensures forall other :: other != key && FileRead(fp, other, FileOf(key, nonces, states), states') ==>
              states' == map[]
  {
    SavedFileIsReadable(fp, key, nonces, states);
    if FileRead(fp, key, FileOf(key, nonces, states), states') {
      AllSavedSessionsComeBack(fp, key, nonces, states, states');
    }
  }

  lemma SavedFileIsReadable(
    fp: Fingerprint, key: StorageKey, nonces: string -> Bytes, states: map<string, SessionState>)
    ensures FileReadable(key, FileOf(key, nonces, states))
    ensures forall id :: id in states ==> Opens(key, FileOf(key, nonces, states)[id])
  {
    forall id | id in states
      ensures Opens(key, FileOf(key, nonces, states)[id]) && EntryReadable(FileOf(key, nonces, states)[id])
    {
      EntryRoundTrip(fp, key, id, nonces(id), states[id], states[id]);
    }
  }

  lemma AllSavedSessionsComeBack(
    fp: Fingerprint, key: StorageKey, nonces: string -> Bytes,
    states: map<string, SessionState>, states': map<string, SessionState>)
    requires FileRead(fp, key, FileOf(key, nonces, states), states')
    ensures states'.Keys == states.Keys
    ensures forall id :: id in states ==> KeepsKeys(id, states[id], states'[id])
    ensures states' == states <==> forall id :: id in states ==> Restorable(id, states[id])
  {
    forall id
      ensures id in states' <==> id in states
    {
      SavedFileIsReadable(fp, key, nonces, states);
    }
    forall id | id in states
      ensures KeepsKeys(id, states[id], states'[id])
      ensures states'[id] == states[id] <==> Restorable(id, states[id])
    {
      SavedSessionComesBack(fp, key, nonces, states, states', id);
    }
    SameExactlyWhen(states, states');
  }

  lemma SavedSessionComesBack(
    fp: Fingerprint, key: StorageKey, nonces: string -> Bytes,
    states: map<string, SessionState>, states': map<string, SessionState>, id: string)
    requires FileRead(fp, key, FileOf(key, nonces, states), states') && id in states && id in states'
    ensures KeepsKeys(id, states[id], states'[id])
    ensures states'[id] == states[id] <==> Restorable(id, states[id])
  {
    assert EntryRead(fp, key, id, FileOf(key, nonces, states)[id], states'[id]);
    EntryRoundTrip(fp, key, id, nonces(id), states[id], states'[id]);
  }

  lemma SameExactlyWhen(states: map<string, SessionState>, states': map<string, SessionState>)
    requires forall id :: id in states' <==> id in states
    requires forall id :: id in states ==> (states'[id] == states[id] <==> Restorable(id, states[id]))
    ensures states' == states <==> forall id :: id in states ==> Restorable(id, states[id])
    ensures states'.Keys == states.Keys
  {
  }

  /** Filters and caches that came about by use, rather than by hand, meet their part of the condition. */
  lemma UsedStateIsRestorable(fp: Fingerprint, h: seq<Delivery>, events: seq<Event>)
    ensures |FilterAfter(h).seenIds| <= SEEN_CAPACITY
    ensures CacheAfter(fp, events).store.Keys == CacheAfter(fp, events).trust.Keys
  {
    forall peer
      ensures peer in CacheAfter(fp, events).store <==> peer in CacheAfter(fp, events).trust
    {
      OnlyKnownPeers(fp, events, peer);
    }
  }
}
