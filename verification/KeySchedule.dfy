/**
 Session-key derivation and the key schedule of a ratchet chain. X25519, HKDF-SHA256 and AES-GCM are
 ideal: a derived value is the term that derives it, so two derivations agree exactly when their
 inputs do, and a ciphertext opens under the key, nonce and associated data that sealed it only.
 */
module KeySchedule {
  import opened Common

  const KDF_INFO_PREFIX := "COMP3334-IM-v1"

  // ---------------------------------------------------------------- Diffie-Hellman

  type Scalar = nat

  datatype PublicKey = PublicKey(of: Scalar)

  /** What both ends of an exchange compute: it does not remember which end computed it. */
  datatype SharedSecret = SharedSecret(lo: Scalar, hi: Scalar)

  function Exchange(mine: Scalar, theirs: PublicKey): SharedSecret
  {
    if mine <= theirs.of then SharedSecret(mine, theirs.of) else SharedSecret(theirs.of, mine)
  }

  // ---------------------------------------------------------------- keys

  datatype Info = MsgKeyInfo | ChainAdvanceInfo | ChainAInfo | ChainBInfo

  datatype Key =
    | Root(dh1: SharedSecret, dh2: SharedSecret, context: string)
    | Derived(source: Key, info: Info)

  function RootInfo(initiatorId: string, responderId: string, conversationId: string): string
  {
    KDF_INFO_PREFIX + ":" + initiatorId + ":" + responderId + ":" + conversationId
  }

  /** The initiator's root key and the two public keys that its first envelope carries. */
  function RootAsInitiator(
    ephemeral: Scalar, convDh: Scalar, peerDh: PublicKey, myId: string, peerId: string, conversationId: string)
    : (Key, PublicKey, PublicKey)
  {
    (Root(Exchange(convDh, peerDh), Exchange(ephemeral, peerDh), RootInfo(myId, peerId, conversationId)),
     PublicKey(ephemeral), PublicKey(convDh))
  }

  function RootAsResponder(
    myDh: Scalar, ephemeral: PublicKey, convDh: PublicKey, myId: string, peerId: string, conversationId: string)
    : Key
  {
    Root(Exchange(myDh, convDh), Exchange(myDh, ephemeral), RootInfo(peerId, myId, conversationId))
  }

  lemma BothSidesDeriveTheSameRoot(
    ephemeral: Scalar, convDh: Scalar, responderDh: Scalar,
    initiatorId: string, responderId: string, conversationId: string)
    ensures
      var (root, ephPub, convPub) :=
        RootAsInitiator(ephemeral, convDh, PublicKey(responderDh), initiatorId, responderId, conversationId);
      RootAsResponder(responderDh, ephPub, convPub, responderId, initiatorId, conversationId) == root
  {
  }

  /** The context string of a key derivation, letter by letter. */
  lemma RootInfoOfAnExample()
    ensures RootInfo("ann", "bob", "c1") == "COMP3334-IM-v1:ann:bob:c1"
  {
  }

  lemma ColonFollows(a: string, x: string)
    requires ':' !in a
    ensures (a + ":" + x)[|a|] == ':' && forall n :: 0 <= n < |a| ==> (a + ":" + x)[n] != ':'
  {
  }

  lemma CutAtColon(a: string, b: string, x: string, y: string)
    requires ':' !in a && ':' !in b && a + ":" + x == b + ":" + y
    ensures a == b && x == y
  {
    var s := a + ":" + x;
    ColonFollows(a, x);
    ColonFollows(b, y);
    assert a == s[..|a|] && b == s[..|b|];
    assert x == s[|a| + 1..] && y == s[|b| + 1..];
  }

  /**
   Keys of different conversations differ, even where the Diffie-Hellman outputs are the same: always between
   the same two users, and between any users whose identifiers are free of the colon.
   */
  lemma RootsSeparateConversations(
    dh1: SharedSecret, dh2: SharedSecret, i: string, r: string, c: string, i': string, r': string, c': string)
    requires (i == i' && r == r') || (':' !in i && ':' !in i' && ':' !in r && ':' !in r')
    ensures Root(dh1, dh2, RootInfo(i, r, c)) == Root(dh1, dh2, RootInfo(i', r', c'))
        <==> i == i' && r == r' && c == c'
  {
    var front := KDF_INFO_PREFIX + ":";
    var s, s' := i + ":" + (r + ":" + c), i' + ":" + (r' + ":" + c');
    assert RootInfo(i, r, c) == front + s && RootInfo(i', r', c') == front + s';
    if RootInfo(i, r, c) == RootInfo(i', r', c') {
      assert (front + s)[|front|..] == s && (front + s')[|front|..] == s';
      if i == i' && r == r' {
        var both := i + ":" + r + ":";
        assert s == both + c && s' == both + c';
        assert (both + c)[|both|..] == c && (both + c')[|both|..] == c';
      } else {
        CutAtColon(i, i', r + ":" + c, r' + ":" + c');
        CutAtColon(r, r', c, c');
      }
    }
  }

  // ---------------------------------------------------------------- the schedule of one chain

  function MsgKey(chainKey: Key): Key { Derived(chainKey, MsgKeyInfo) }

  function Next(chainKey: Key): Key { Derived(chainKey, ChainAdvanceInfo) }

  /** The chain key after n steps from `start`. */
  function KeyAt(start: Key, n: nat): Key
  {
    if n == 0 then start else Next(KeyAt(start, n - 1))
  }

  /** The key of message n on the chain that starts at `start`. */
  function MessageKey(start: Key, n: nat): Key { MsgKey(KeyAt(start, n)) }

  lemma {:induction false} KeyAtAdds(start: Key, m: nat, n: nat)
    ensures KeyAt(KeyAt(start, m), n) == KeyAt(start, m + n)
  {
    if n > 0 {
      KeyAtAdds(start, m, n - 1);
    }
  }

  function Depth(k: Key): nat
  {
    match k
    case Root(_, _, _) => 0
    case Derived(source, _) => 1 + Depth(source)
  }

  lemma {:induction false} KeyAtDepth(start: Key, n: nat)
    ensures Depth(KeyAt(start, n)) == Depth(start) + n
  {
    if n > 0 {
      KeyAtDepth(start, n - 1);
    }
  }

  /** Message keys identify their position in the chain. */
  lemma MessageKeysAreDistinct(start: Key, m: nat, n: nat)
    ensures MessageKey(start, m) == MessageKey(start, n) <==> m == n
  {
    KeyAtDepth(start, m);
    KeyAtDepth(start, n);
  }

  /** At equal positions, message keys identify their chain. */
  lemma {:induction false} MessageKeysIdentifyChains(start: Key, other: Key, n: nat)
    ensures MessageKey(start, n) == MessageKey(other, n) <==> start == other
  {
    if n > 0 {
      MessageKeysIdentifyChains(start, other, n - 1);
    }
  }

  // ---------------------------------------------------------------- authenticated encryption

  datatype Ciphertext = Sealed(key: Key, nonce: Bytes, ad: Bytes, plaintext: string) | Noise(bytes: Bytes)

  /** AES-GCM decryption: None is the failed tag check. */
  function Open(key: Key, nonce: Bytes, ad: Bytes, c: Ciphertext): Option<string>
  {
    if c.Sealed? && c.key == key && c.nonce == nonce && c.ad == ad then Some(c.plaintext) else None
  }
}
