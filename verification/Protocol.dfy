/**
 The message envelope and the associated data that AES-GCM binds to it (shared/protocol.py).
 */
module Protocol {
  import opened Common
  import opened KeySchedule

  const SEPARATOR: Byte := 0x7C  // '|'
  const TAIL_BYTES := 23

  datatype Envelope = Envelope(
    id: string,
    senderId: string,
    recipientId: string,
    conversationId: string,
    counter: int,
    nonce: Bytes,
    ciphertext: Ciphertext,
    ephPub: Option<PublicKey>,
    convDhPub: Option<PublicKey>,
    chainIndex: int,
    ttlSeconds: Option<int>,
    sentAt: int)

  // ---------------------------------------------------------------- UTF-8

  /** How often the separator byte occurs. */
  function Separators(b: Bytes): nat { multiset(b)[SEPARATOR] }

  /** The encoding of a text by a code f for characters. */
  function EncodeWith(f: char -> Bytes, s: string): Bytes
  {
    if s == "" then [] else f(s[0]) + EncodeWith(f, s[1..])
  }

  /** No code word is a prefix of another, and the separator is the code word of '|' and occurs in no other. */
  ghost predicate IsCode(f: char -> Bytes)
  {
    && (forall c :: |f(c)| > 0 && (SEPARATOR in f(c) <==> c == '|'))
    && (forall c, d :: f(c) <= f(d) ==> c == d)
  }

  lemma ShorterIsPrefix(w: Bytes, v: Bytes, x: Bytes, y: Bytes)
    requires w + x == v + y && |w| <= |v|
    ensures w <= v
  {
    assert w == (w + x)[..|w|] == (v + y)[..|w|] == v[..|w|];
  }

  lemma {:induction false} EncodeWithIsInjective(f: char -> Bytes, s: string, t: string)
    requires IsCode(f) && EncodeWith(f, s) == EncodeWith(f, t)
    ensures s == t
  {
    if s != "" && t != "" {
      var w, v, x, y := f(s[0]), f(t[0]), EncodeWith(f, s[1..]), EncodeWith(f, t[1..]);
      if |w| <= |v| {
        ShorterIsPrefix(w, v, x, y);
      } else {
        ShorterIsPrefix(v, w, y, x);
      }
      assert x == (w + x)[|w|..] == (v + y)[|w|..] == y;
      EncodeWithIsInjective(f, s[1..], t[1..]);
      assert s == [s[0]] + s[1..] && t == [t[0]] + t[1..];
    }
  }

  lemma EncodeWithHead(f: char -> Bytes, c: char, s: string)
    ensures EncodeWith(f, [c] + s) == f(c) + EncodeWith(f, s)
  {
    assert ([c] + s)[1..] == s;
  }

  lemma Associates(a: Bytes, b: Bytes, c: Bytes)
    ensures a + (b + c) == (a + b) + c
  {
  }

  lemma {:induction false} EncodeWithConcat(f: char -> Bytes, s: string, t: string)
    ensures EncodeWith(f, s + t) == EncodeWith(f, s) + EncodeWith(f, t)
  {
    if s == "" {
      assert s + t == t;
    } else {
      EncodeWithConcat(f, s[1..], t);
      assert s == [s[0]] + s[1..] && s + t == [s[0]] + (s[1..] + t);
      EncodeWithHead(f, s[0], s[1..]);
      EncodeWithHead(f, s[0], s[1..] + t);
      Associates(f(s[0]), EncodeWith(f, s[1..]), EncodeWith(f, t));
    }
  }

  lemma {:induction false} SeparatorsOfEncoding(f: char -> Bytes, s: string)
    requires IsCode(f)
    ensures Separators(EncodeWith(f, s)) == 0 <==> '|' !in s
  {
    if s != "" {
      SeparatorsOfEncoding(f, s[1..]);
      assert s == [s[0]] + s[1..];
      assert multiset(f(s[0]) + EncodeWith(f, s[1..])) == multiset(f(s[0])) + multiset(EncodeWith(f, s[1..]));
      assert SEPARATOR in multiset(f(s[0])) <==> SEPARATOR in f(s[0]);
    }
  }

  function EncodeChar(c: char): Bytes
  {
    var n0 := c as int;
    var n1 := n0 / 64;
    var n2 := n1 / 64;
    if n0 < 0x80 then [n0]
    else if n0 < 0x800 then [0xC0 + n1, 0x80 + n0 % 64]
    else if n0 < 0x1_0000 then [0xE0 + n2, 0x80 + n1 % 64, 0x80 + n0 % 64]
    else [0xF0 + n2 / 64, 0x80 + n2 % 64, 0x80 + n1 % 64, 0x80 + n0 % 64]
  }

  function Encode(s: string): Bytes { EncodeWith(EncodeChar, s) }

  lemma SameDigits(m: nat, n: nat)
    requires m / 64 == n / 64 && m % 64 == n % 64
    ensures m == n
  {
  }

  /** The first byte of a code word tells its length, and the bytes together tell the character. */
  lemma EncodeCharIsPrefixFree(c: char, d: char)
    requires EncodeChar(c) <= EncodeChar(d)
    ensures c == d
  {
    var s, t := EncodeChar(c), EncodeChar(d);
    var m, n := c as int, d as int;
    assert s[0] == t[0] && |s| == |t|;
    assert s == t;
    if |s| == 4 {
      SameDigits(m / 64 / 64, n / 64 / 64);
    }
    if |s| >= 3 {
      SameDigits(m / 64, n / 64);
    }
    if |s| >= 2 {
      SameDigits(m, n);
    }
  }

  lemma SeparatorOfChar(c: char)
    ensures SEPARATOR in EncodeChar(c) <==> c == '|'
  {
    assert c == '|' ==> EncodeChar(c)[0] == SEPARATOR;
  }

  lemma EncodeCharIsCode()
    ensures IsCode(EncodeChar)
  {
    forall c, d | EncodeChar(c) <= EncodeChar(d)
      ensures c == d
    {
      EncodeCharIsPrefixFree(c, d);
    }
    forall c: char
      ensures |EncodeChar(c)| > 0 && (SEPARATOR in EncodeChar(c) <==> c == '|')
    {
      SeparatorOfChar(c);
    }
  }

  lemma EncodeIsInjective(s: string, t: string)
    requires Encode(s) == Encode(t)
    ensures s == t
  {
    EncodeCharIsCode();
    EncodeWithIsInjective(EncodeChar, s, t);
  }

  lemma EncodeConcat(s: string, t: string)
    ensures Encode(s + t) == Encode(s) + Encode(t)
  {
    EncodeWithConcat(EncodeChar, s, t);
  }

  lemma SeparatorsOfText(s: string)
    ensures Separators(Encode(s)) == 0 <==> '|' !in s
  {
    EncodeCharIsCode();
    SeparatorsOfEncoding(EncodeChar, s);
  }

  // ---------------------------------------------------------------- fixed-width integers

  function Power256(k: nat): nat
  {
    if k == 0 then 1 else 256 * Power256(k - 1)
  }

  /** int.to_bytes(k, "big"). */
  function BigEndian(n: nat, k: nat): (r: Bytes)
    ensures |r| == k
  {
    if k == 0 then [] else BigEndian(n / 256, k - 1) + [n % 256]
  }

  lemma {:induction false} BigEndianIsInjective(m: nat, n: nat, k: nat)
    requires m < Power256(k) && n < Power256(k)
    requires BigEndian(m, k) == BigEndian(n, k)
    ensures m == n
  {
    if k > 0 {
      var a, b := BigEndian(m / 256, k - 1), BigEndian(n / 256, k - 1);
      assert a == BigEndian(m, k)[..k - 1] && b == BigEndian(n, k)[..k - 1];
      assert m % 256 == BigEndian(m, k)[k - 1] && n % 256 == BigEndian(n, k)[k - 1];
      BigEndianIsInjective(m / 256, n / 256, k - 1);
    }
  }

  // ---------------------------------------------------------------- associated data

  datatype AdError = Overflow

  /** An absent TTL is written as zero. */
  function TtlField(ttl: Option<int>): int
  {
    if ttl.Some? then ttl.value else 0
  }

  predicate Fits(n: int, k: nat) { 0 <= n < Power256(k) }

  function IdBytes(senderId: string, recipientId: string, conversationId: string): Bytes
  {
    Encode(senderId) + [SEPARATOR] + Encode(recipientId) + [SEPARATOR] + Encode(conversationId)
  }

  function NumberBytes(counter: nat, ttl: nat, sentAt: nat): (r: Bytes)
    ensures |r| == TAIL_BYTES
  {
    [SEPARATOR] + BigEndian(counter, 8) + [SEPARATOR] + BigEndian(ttl, 4) + [SEPARATOR] + BigEndian(sentAt, 8)
  }

  /** to_bytes raises OverflowError on a negative or oversized integer. */
  function ComputeAd(e: Envelope): Result<Bytes, AdError>
  {
    if Fits(e.counter, 8) && Fits(TtlField(e.ttlSeconds), 4) && Fits(e.sentAt, 8) then
      Ok(IdBytes(e.senderId, e.recipientId, e.conversationId)
         + NumberBytes(e.counter, TtlField(e.ttlSeconds), e.sentAt))
    else Err(Overflow)
  }

  /** The associated data of an example, byte by byte. */
  lemma AdOfAnExample(e: Envelope)
    requires e.senderId == "a" && e.recipientId == "\U{E9}" && e.conversationId == "c"
    requires e.counter == 258 && e.ttlSeconds == Some(3600) && e.sentAt == 65537
    ensures ComputeAd(e).Ok?
    ensures ComputeAd(e).value
         == [0x61, 0x7C, 0xC3, 0xA9, 0x7C, 0x63] + ([0x7C, 0, 0, 0, 0, 0, 0, 1, 2] + [0x7C, 0, 0, 0x0E, 0x10]
                                                    + [0x7C, 0, 0, 0, 0, 0, 1, 0, 1])
  {
    IdsOfTheExample();
    NumbersOfTheExample();
    Powers();
    assert ComputeAd(e).Ok?;
    assert ComputeAd(e).value
        == IdBytes(e.senderId, e.recipientId, e.conversationId) + NumberBytes(258, 3600, 65537);
  }

  lemma IdsOfTheExample()
    ensures IdBytes("a", "\U{E9}", "c") == [0x61, 0x7C, 0xC3, 0xA9, 0x7C, 0x63]
  {
    OneCharacter('a');
    OneCharacter('\U{E9}');
    OneCharacter('c');
    assert EncodeChar('\U{E9}') == [0xC3, 0xA9];
  }

  lemma NumbersOfTheExample()
    ensures NumberBytes(258, 3600, 65537)
         == [0x7C, 0, 0, 0, 0, 0, 0, 1, 2] + [0x7C, 0, 0, 0x0E, 0x10] + [0x7C, 0, 0, 0, 0, 0, 1, 0, 1]
  {
    EightBytes(258, 1, 2);
    FourBytesOfAnHour();
    EightBytesOf65537();
  }

  lemma Powers()
    ensures Power256(4) == 0x1_0000_0000 && Power256(8) == 0x1_0000_0000_0000_0000
  {
    assert Power256(2) == 0x1_0000;
    assert Power256(4) == 256 * (256 * Power256(2));
    assert Power256(6) == 256 * (256 * Power256(4));
    assert Power256(8) == 256 * (256 * Power256(6));
  }

  lemma OneCharacter(c: char)
    ensures Encode([c]) == EncodeChar(c)
  {
    var f := EncodeChar;
    assert f(c) == EncodeChar(c);
    EncodeWithHead(f, c, "");
    assert EncodeWith(f, "") == [];
    assert [c] + "" == [c];
    assert EncodeChar(c) + [] == EncodeChar(c);
  }

  lemma BigEndianStep(n: nat, k: nat)
    requires k > 0
    ensures BigEndian(n, k) == BigEndian(n / 256, k - 1) + [n % 256]
  {
  }

  lemma {:induction false} ZeroBytes(k: nat)
    ensures BigEndian(0, k) == seq(k, i => 0)
  {
    if k > 0 {
      ZeroBytes(k - 1);
      BigEndianStep(0, k);
      var zeros: Bytes := seq(k - 1, i => 0);
      assert zeros + [0] == seq(k, i => 0);
    }
  }

  lemma EightBytes(n: nat, hi: Byte, lo: Byte)
    requires n == hi * 256 + lo
    ensures BigEndian(n, 8) == [0, 0, 0, 0, 0, 0, hi, lo]
  {
    BigEndianStep(n, 8);
    BigEndianStep(hi, 7);
    ZeroBytes(6);
  }

  lemma FourBytesOfAnHour()
    ensures BigEndian(3600, 4) == [0, 0, 0x0E, 0x10]
  {
    BigEndianStep(3600, 4);
    BigEndianStep(14, 3);
    ZeroBytes(2);
  }

  lemma EightBytesOf65537()
    ensures BigEndian(65537, 8) == [0, 0, 0, 0, 0, 1, 0, 1]
  {
    BigEndianStep(65537, 8);
    BigEndianStep(256, 7);
    BigEndianStep(1, 6);
    ZeroBytes(5);
  }

  predicate SeparatorFree(e: Envelope)
  {
    '|' !in e.senderId && '|' !in e.recipientId && '|' !in e.conversationId
  }

  predicate SameIds(e: Envelope, f: Envelope)
  {
    e.senderId == f.senderId && e.recipientId == f.recipientId && e.conversationId == f.conversationId
  }

  predicate SameNumbers(e: Envelope, f: Envelope)
  {
    e.counter == f.counter && TtlField(e.ttlSeconds) == TtlField(f.ttlSeconds) && e.sentAt == f.sentAt
  }

  /** The server's check: absent, or one second to seven days. */
  predicate ServerAcceptsTtl(ttl: Option<int>)
  {
    ttl.Some? ==> 1 <= ttl.value <= 604800
  }

  function FirstSeparator(b: Bytes): nat
    requires SEPARATOR in b
  {
    if b[0] == SEPARATOR then 0 else 1 + FirstSeparator(b[1..])
  }

  lemma {:induction false} FirstSeparatorFollows(a: Bytes, x: Bytes)
    requires Separators(a) == 0
    ensures var b := a + [SEPARATOR] + x; SEPARATOR in b && FirstSeparator(b) == |a|
  {
    var b := a + [SEPARATOR] + x;
    assert b[|a|] == SEPARATOR;
    if a != [] {
      assert a == [a[0]] + a[1..];
      assert SEPARATOR !in multiset(a);
      assert a[0] in a && a[0] != SEPARATOR;
      FirstSeparatorFollows(a[1..], x);
      assert b[1..] == a[1..] + [SEPARATOR] + x;
    }
  }

  /** Cutting both sides at their first separator. */
  lemma CutAtSeparator(a: Bytes, b: Bytes, x: Bytes, y: Bytes)
    requires Separators(a) == 0 && Separators(b) == 0
    requires a + [SEPARATOR] + x == b + [SEPARATOR] + y
    ensures a == b && x == y
  {
    FirstSeparatorFollows(a, x);
    FirstSeparatorFollows(b, y);
    var whole := a + [SEPARATOR] + x;
    assert a == whole[..|a|] && b == whole[..|b|];
    assert x == whole[|a| + 1..] && y == whole[|b| + 1..];
  }

  lemma SeparatorsOfIds(s: string, r: string, c: string)
    ensures Separators(IdBytes(s, r, c)) == 2 <==> '|' !in s && '|' !in r && '|' !in c
  {
    SeparatorsOfText(s);
    SeparatorsOfText(r);
    SeparatorsOfText(c);
    assert multiset(IdBytes(s, r, c))
        == multiset(Encode(s)) + multiset([SEPARATOR]) + multiset(Encode(r)) + multiset([SEPARATOR])
           + multiset(Encode(c));
  }

  /** Three byte strings joined by separators come apart in one way only, if the first two have none. */
  lemma JoinedBytesIdentify(s: Bytes, r: Bytes, c: Bytes, s': Bytes, r': Bytes, c': Bytes)
    requires s + [SEPARATOR] + r + [SEPARATOR] + c == s' + [SEPARATOR] + r' + [SEPARATOR] + c'
    requires Separators(s) == Separators(r) == Separators(s') == Separators(r') == 0
    ensures s == s' && r == r' && c == c'
  {
    var rest, rest' := r + [SEPARATOR] + c, r' + [SEPARATOR] + c';
    assert s + [SEPARATOR] + rest == s + [SEPARATOR] + r + [SEPARATOR] + c;
    assert s' + [SEPARATOR] + rest' == s' + [SEPARATOR] + r' + [SEPARATOR] + c';
    CutAtSeparator(s, s', rest, rest');
    CutAtSeparator(r, r', c, c');
  }

  lemma IdBytesIdentify(s: string, r: string, c: string, s': string, r': string, c': string)
    requires IdBytes(s, r, c) == IdBytes(s', r', c')
    requires '|' !in s && '|' !in r && '|' !in c
    ensures s == s' && r == r' && c == c'
  {
    SeparatorsOfIds(s, r, c);
    SeparatorsOfIds(s', r', c');
    SeparatorsOfText(s);
    SeparatorsOfText(s');
    SeparatorsOfText(r);
    SeparatorsOfText(r');
    JoinedBytesIdentify(Encode(s), Encode(r), Encode(c), Encode(s'), Encode(r'), Encode(c'));
    EncodeIsInjective(s, s');
    EncodeIsInjective(r, r');
    EncodeIsInjective(c, c');
  }

  lemma NumberBytesIdentify(n: nat, t: nat, a: nat, n': nat, t': nat, a': nat)
    requires Fits(n, 8) && Fits(t, 4) && Fits(a, 8) && Fits(n', 8) && Fits(t', 4) && Fits(a', 8)
    requires NumberBytes(n, t, a) == NumberBytes(n', t', a')
    ensures n == n' && t == t' && a == a'
  {
    var b, b' := NumberBytes(n, t, a), NumberBytes(n', t', a');
    assert BigEndian(n, 8) == b[1..9] && BigEndian(n', 8) == b'[1..9];
    assert BigEndian(t, 4) == b[10..14] && BigEndian(t', 4) == b'[10..14];
    assert BigEndian(a, 8) == b[15..] && BigEndian(a', 8) == b'[15..];
    BigEndianIsInjective(n, n', 8);
    BigEndianIsInjective(t, t', 4);
    BigEndianIsInjective(a, a', 8);
  }

  /** The fixed-length tail comes off both sides alike. */
  lemma AdSplits(e: Envelope, f: Envelope)
    requires ComputeAd(e).Ok? && ComputeAd(f).Ok?
    ensures ComputeAd(e) == ComputeAd(f) <==>
              IdBytes(e.senderId, e.recipientId, e.conversationId)
              == IdBytes(f.senderId, f.recipientId, f.conversationId)
              && NumberBytes(e.counter, TtlField(e.ttlSeconds), e.sentAt)
                 == NumberBytes(f.counter, TtlField(f.ttlSeconds), f.sentAt)
  {
    if ComputeAd(e) == ComputeAd(f) {
      var ad := ComputeAd(e).value;
      var cut := |ad| - TAIL_BYTES;
      assert IdBytes(e.senderId, e.recipientId, e.conversationId) == ad[..cut];
      assert IdBytes(f.senderId, f.recipientId, f.conversationId) == ad[..cut];
      assert NumberBytes(e.counter, TtlField(e.ttlSeconds), e.sentAt) == ad[cut..];
      assert NumberBytes(f.counter, TtlField(f.ttlSeconds), f.sentAt) == ad[cut..];
    }
  }

  /** Equal associated data means equal numbers, whatever the identifiers. */
  lemma AdFixesTheNumbers(e: Envelope, f: Envelope)
    requires ComputeAd(e).Ok? && ComputeAd(f) == ComputeAd(e)
    ensures SameNumbers(e, f)
  {
    AdSplits(e, f);
    NumberBytesIdentify(
      e.counter, TtlField(e.ttlSeconds), e.sentAt, f.counter, TtlField(f.ttlSeconds), f.sentAt);
  }

  /** Equal associated data means equal fields, when the identifiers of one side are separator-free. */
  lemma AdIsInjective(e: Envelope, f: Envelope)
    requires ComputeAd(e).Ok? && ComputeAd(f) == ComputeAd(e) && SeparatorFree(e)
    ensures SameIds(e, f) && SameNumbers(e, f)
    ensures ServerAcceptsTtl(e.ttlSeconds) && ServerAcceptsTtl(f.ttlSeconds) ==> e.ttlSeconds == f.ttlSeconds
  {
    AdSplits(e, f);
    IdBytesIdentify(e.senderId, e.recipientId, e.conversationId, f.senderId, f.recipientId, f.conversationId);
    NumberBytesIdentify(
      e.counter, TtlField(e.ttlSeconds), e.sentAt, f.counter, TtlField(f.ttlSeconds), f.sentAt);
  }

  lemma SplitAtBar(s: string) returns (p: string, q: string)
    requires '|' in s
    ensures s == p + "|" + q && |p| < |s|
  {
    var i :| 0 <= i < |s| && s[i] == '|';
    p, q := s[..i], s[i + 1..];
  }

  /** Two identifiers joined by a separator encode like the two identifiers in a row. */
  lemma JoinedIdsEncode(p: string, q: string)
    ensures Encode(p + "|" + q) == Encode(p) + [SEPARATOR] + Encode(q)
  {
    EncodeConcat(p + "|", q);
    EncodeConcat(p, "|");
    assert Encode("|") == [SEPARATOR];
  }

  /** Four parts joined by separators, however they are grouped. */
  lemma Regrouped(p: Bytes, q: Bytes, r: Bytes, s: Bytes)
    ensures (p + [SEPARATOR] + q) + [SEPARATOR] + r + [SEPARATOR] + s
         == p + [SEPARATOR] + q + [SEPARATOR] + (r + [SEPARATOR] + s)
    ensures p + [SEPARATOR] + (q + [SEPARATOR] + r) + [SEPARATOR] + s
         == p + [SEPARATOR] + q + [SEPARATOR] + (r + [SEPARATOR] + s)
  {
  }

  /** Moving a separator between identifiers leaves the identifier part as it is. */
  lemma MovedSeparator(p: string, q: string, r: string, c: string)
    ensures IdBytes(p + "|" + q, r, c) == IdBytes(p, q, r + "|" + c)
    ensures IdBytes(p, q + "|" + r, c) == IdBytes(p, q, r + "|" + c)
  {
    JoinedIdsEncode(p, q);
    JoinedIdsEncode(q, r);
    JoinedIdsEncode(r, c);
    Regrouped(Encode(p), Encode(q), Encode(r), Encode(c));
  }

  lemma OtherIds(s: string, r: string, c: string) returns (s': string, r': string, c': string)
    requires '|' in s || '|' in r || '|' in c
    ensures IdBytes(s', r', c') == IdBytes(s, r, c) && (s' != s || r' != r)
  {
    if '|' in s {
      var p, q := SplitAtBar(s);
      MovedSeparator(p, q, r, c);
      s', r', c' := p, q, r + "|" + c;
    } else if '|' in r {
      var p, q := SplitAtBar(r);
      MovedSeparator(s, p, q, c);
      s', r', c' := s, p, q + "|" + c;
    } else {
      var p, q := SplitAtBar(c);
      MovedSeparator(s, r, p, q);
      s', r', c' := s, r + "|" + p, q;
    }
  }

  /** An envelope with a separator in some identifier shares its associated data with a different one. */
  lemma SeparatorMakesAdAmbiguous(e: Envelope) returns (f: Envelope)
    requires ComputeAd(e).Ok? && !SeparatorFree(e)
    ensures ComputeAd(f) == ComputeAd(e) && !SameIds(e, f)
  {
    var s, r, c := OtherIds(e.senderId, e.recipientId, e.conversationId);
    f := e.(senderId := s, recipientId := r, conversationId := c);
  }

  /** Exactly the envelopes without a separator in an identifier are pinned down by their associated data. */
  lemma AdIdentifiesExactlyTheSeparatorFree(e: Envelope)
    requires ComputeAd(e).Ok?
    ensures SeparatorFree(e) <==> forall f: Envelope :: ComputeAd(f) == ComputeAd(e) ==> SameIds(e, f)
  {
    if SeparatorFree(e) {
      forall f: Envelope | ComputeAd(f) == ComputeAd(e)
        ensures SameIds(e, f)
      {
        AdIsInjective(e, f);
      }
    } else {
      var f := SeparatorMakesAdAmbiguous(e);
    }
  }
}
