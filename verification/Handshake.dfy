/** Where the handshake keeps its digest and its Diffie-Hellman key (handshake.h). HMAC-SHA256
    is any function into 32 bytes. */
module Handshake {
  import opened Bytes
  import opened Net

  const SIG_SIZE := 1536
  const DIGEST := 32
  const KEY := 128

  type Block = s: seq<Byte> | |s| == SIG_SIZE witness seq(SIG_SIZE, _ => 0)

  /** Message and key to digest. */
  type Mac = f: (seq<Byte>, seq<Byte>) -> seq<Byte> | forall m,
    k :: |f(m, k)| == DIGEST witness (_, _) => seq(DIGEST, _ => 0)

  /** One of the two layouts: where the four bytes are whose sum determines the position of
      the digest or the key, the base of that position, and its modulus. */
  datatype Layout = Layout(digestSource: nat, digestBase: nat, keySource: nat, keyBase: nat)

  const FIRST := Layout(8, 12, 1532, 772)
  const SECOND := Layout(772, 776, 768, 8)

  function LayoutOf(offalg: nat): Layout { if offalg == 0 then FIRST else SECOND }

  function SumOf(s: seq<Byte>, at: nat): (n: nat)
    requires at + 4 <= |s|
    ensures n <= 4 * 255
  {
    s[at] as int + s[at + 1] as int + s[at + 2] as int + s[at + 3] as int
  }

  function DigestPos(l: Layout, s: Block): nat
    requires l.digestSource + 4 <= SIG_SIZE
  {
    SumOf(s, l.digestSource) % 728 + l.digestBase
  }

  function KeyPos(l: Layout, s: Block): nat
    requires l.keySource + 4 <= SIG_SIZE
  {
    SumOf(s, l.keySource) % 632 + l.keyBase
  }

  /** The sum counts each of its four bytes once and no other. */
  lemma SumCounts(s: seq<Byte>, at: nat, i: nat, b: Byte)
    requires at + 4 <= |s| && i < |s|
    ensures SumOf(s[i := b], at) == SumOf(s, at) + if at <= i < at + 4 then b - s[i] else 0
    ensures (forall k :: at <= k < at + 4 ==> s[k] == 0) ==> SumOf(s, at) == 0
  {
  }

  /** The positions in a block that is all zeros, and in one that is all ones, whose sums of 1020
      exceed both moduli. */
  lemma PositionExamples()
    ensures var s: Block := seq(SIG_SIZE, _ => 0);
            DigestPos(LayoutOf(0), s) == 12 && KeyPos(LayoutOf(0), s) == 772 &&
            DigestPos(LayoutOf(1), s) == 776 && KeyPos(LayoutOf(1), s) == 8
    ensures var s: Block := seq(SIG_SIZE, _ => 0xff);
            DigestPos(LayoutOf(0), s) == 12 + 292 && KeyPos(LayoutOf(0), s) == 772 + 388 &&
            DigestPos(LayoutOf(1), s) == 776 + 292 && KeyPos(LayoutOf(1), s) == 8 + 388
  {
    var ones: Block := seq(SIG_SIZE, _ => 0xff);
    assert SumOf(ones, 8) == 1020 == SumOf(ones, 1532) == SumOf(ones, 768) == SumOf(ones, 772);
  }

  // ---- The offset functions ----

  /** The sum through the moving pointer. */
  method AddUp(handshake: array<Byte>, from: nat) returns (offset: nat)
    requires from + 4 <= handshake.Length
    ensures offset == SumOf(handshake[..], from)
  {
    offset := 0;
    var ptr := from;
    offset := offset + handshake[ptr];
    ptr := ptr + 1;
    offset := offset + handshake[ptr];
    ptr := ptr + 1;
    offset := offset + handshake[ptr];
    ptr := ptr + 1;
    offset := offset + handshake[ptr];
  }

  /** GetDHOffset1 and GetDHOffset2. The branch that ends the program is dead. */
  method GetDHOffset(offalg: nat, handshake: array<Byte>) returns (res: nat)
    requires handshake.Length == SIG_SIZE && offalg <= 1
    ensures res == KeyPos(LayoutOf(offalg), handshake[..])
    ensures if offalg == 0 then 772 <= res && res + KEY <= 1531 else 8 <= res && res + KEY <= 767
  {
    if offalg == 0 {
      var offset := AddUp(handshake, 1532);
      res := offset % 632 + 772;
      if res + KEY > 1531 {
        assert false;
      }
    } else {
      var offset := AddUp(handshake, 768);
      res := offset % 632 + 8;
      if res + KEY > 767 {
        assert false;
      }
    }
  }

  /** GetDigestOffset1 and GetDigestOffset2. */
  method GetDigestOffset(offalg: nat, handshake: array<Byte>) returns (res: nat)
    requires handshake.Length == SIG_SIZE && offalg <= 1
    ensures res == DigestPos(LayoutOf(offalg), handshake[..])
    ensures if offalg == 0 then 12 <= res && res + DIGEST <= 771 else 776 <= res && res + DIGEST <= 1535
  {
    if offalg == 0 {
      var offset := AddUp(handshake, 8);
      res := offset % 728 + 12;
      if res + DIGEST > 771 {
        assert false;
      }
    } else {
      var offset := AddUp(handshake, 772);
      res := offset % 728 + 776;
      if res + DIGEST > 1535 {
        assert false;
      }
    }
  }

  // ---- Signing and verifying ----

  /** A block without the 32 bytes of its digest. */
  function Message(s: Block, pos: nat): (m: seq<Byte>)
    requires pos + DIGEST <= SIG_SIZE
    ensures |m| == SIG_SIZE - DIGEST
  {
    s[..pos] + s[pos + DIGEST..]
  }

  /** No byte outside the digest is left out of the message. */
  lemma MessageCovers(s: Block, t: Block, pos: nat, i: nat)
    requires pos + DIGEST <= SIG_SIZE && i < SIG_SIZE && !(pos <= i < pos + DIGEST)
    requires Message(s, pos) == Message(t, pos)
    ensures s[i] == t[i]
  {
    var k := if i < pos then i else i - DIGEST;
    assert Message(s, pos)[k] == s[i] && Message(t, pos)[k] == t[i];
  }

  /** VerifyDigest. */
  predicate Verifies(mac: Mac, s: Block, pos: nat, key: seq<Byte>)
    requires pos + DIGEST <= SIG_SIZE
  {
    s[pos..pos + DIGEST] == mac(Message(s, pos), key)
  }

  function Over(s: Block, at: nat, x: seq<Byte>): (r: Block)
    requires at + |x| <= SIG_SIZE
  {
    s[..at] + x + s[at + |x|..]
  }

  predicate Apart(a: nat, m: nat, b: nat, n: nat) { a + m <= b || b + n <= a }

  lemma OverAt(s: Block, at: nat, x: seq<Byte>, i: nat, j: nat)
    requires at + |x| <= SIG_SIZE && i <= j <= SIG_SIZE && Apart(at, |x|, i, j - i)
    ensures Over(s, at, x)[i..j] == s[i..j] && Over(s, at, x)[at..at + |x|] == x
  {
    var r := Over(s, at, x);
    forall k | i <= k < j ensures r[k] == s[k] {
    }
  }

  lemma SameSum(s: Block, t: Block, at: nat)
    requires at + 4 <= SIG_SIZE && s[at..at + 4] == t[at..at + 4]
    ensures SumOf(s, at) == SumOf(t, at)
  {
    assert s[at] == s[at..at + 4][0] && s[at + 1] == s[at..at + 4][1];
    assert s[at + 2] == s[at..at + 4][2] && s[at + 3] == s[at..at + 4][3];
  }

  /** In either layout the key, the digest and the bytes they are placed by lie apart. */
  lemma AllApart(offalg: nat, s: Block, t: Block)
    requires offalg <= 1
    ensures var l := LayoutOf(offalg);
            var k, d := KeyPos(l, s), DigestPos(l, t);
            k + KEY <= SIG_SIZE && d + DIGEST <= SIG_SIZE && Apart(k, KEY, d, DIGEST) &&
            Apart(k, KEY, l.keySource, 4) && Apart(k, KEY, l.digestSource, 4) &&
            Apart(d, DIGEST, l.keySource, 4) && Apart(d, DIGEST, l.digestSource, 4) &&
            Apart(l.keySource, 4, l.digestSource, 4)
  {
  }

  /** A block with a key and then a digest placed in it. */
  function Signed(mac: Mac, offalg: nat, s: Block, publicKey: Option<seq<Byte>>, key: seq<Byte>): (r: Block)
    requires offalg <= 1 && (publicKey.Some? ==> |publicKey.value| == KEY)
  {
    var l := LayoutOf(offalg);
    var t: Block := if publicKey.Some? then Over(s, KeyPos(l, s), publicKey.value) else s;
    var pos := DigestPos(l, t);
    Over(t, pos, mac(Message(t, pos), key))
  }

  /** The peer, who has only the finished block, finds key and digest where they were put and
      accepts the digest. */
  lemma PeerAgrees(mac: Mac, offalg: nat, s: Block, publicKey: Option<seq<Byte>>, key: seq<Byte>)
    requires offalg <= 1 && (publicKey.Some? ==> |publicKey.value| == KEY)
    ensures var l, r := LayoutOf(offalg), Signed(mac, offalg, s, publicKey, key);
            KeyPos(l, r) == KeyPos(l, s) && DigestPos(l, r) == DigestPos(l, s) &&
            (publicKey.Some? ==> r[KeyPos(l, r)..KeyPos(l, r) + KEY] == publicKey.value) &&
            DigestPos(l, r) + DIGEST <= SIG_SIZE && Verifies(mac, r, DigestPos(l, r), key)
  {
    hide SumOf, Over, Message, KeyPos, DigestPos;
    var l := LayoutOf(offalg);
    var k := KeyPos(l, s);
    AllApart(offalg, s, s);
    var t: Block := if publicKey.Some? then Over(s, k, publicKey.value) else s;
    if publicKey.Some? {
      OverAt(s, k, publicKey.value, l.keySource, l.keySource + 4);
      OverAt(s, k, publicKey.value, l.digestSource, l.digestSource + 4);
    }
    SamePositions(l, t, s);
    AllApart(offalg, s, t);
    var d := DigestPos(l, t);
    var x := mac(Message(t, d), key);
    var r := Over(t, d, x);
    OverAt(t, d, x, l.keySource, l.keySource + 4);
    OverAt(t, d, x, l.digestSource, l.digestSource + 4);
    OverAt(t, d, x, k, k + KEY);
    SamePositions(l, r, t);
    SameMessage(t, d, x);
  }

  lemma SamePositions(l: Layout, s: Block, t: Block)
    requires l.keySource + 4 <= SIG_SIZE && l.digestSource + 4 <= SIG_SIZE
    requires s[l.keySource..l.keySource + 4] == t[l.keySource..l.keySource + 4]
    requires s[l.digestSource..l.digestSource + 4] == t[l.digestSource..l.digestSource + 4]
    ensures KeyPos(l, s) == KeyPos(l, t) && DigestPos(l, s) == DigestPos(l, t)
  {
    hide SumOf;
    SameSum(s, t, l.keySource);
    SameSum(s, t, l.digestSource);
  }

  lemma SameMessage(s: Block, at: nat, x: seq<Byte>)
    requires |x| == DIGEST && at + DIGEST <= SIG_SIZE
    ensures Message(Over(s, at, x), at) == Message(s, at)
  {
  }

  // ---- The client's block and its search for the server's digest ----

  /** CalculateDigest. */
  method CalculateDigest(mac: Mac, pos: nat, block: array<Byte>, key: seq<Byte>) returns (digest: seq<Byte>)
    requires block.Length == SIG_SIZE && pos + DIGEST <= SIG_SIZE
    ensures digest == mac(Message(block[..], pos), key)
  {
    var message := new Byte[SIG_SIZE - DIGEST];
    Put(message, 0, block[..pos]);
    Put(message, pos, block[pos + DIGEST..]);
    assert message[..] == message[..pos] + message[pos..];
    assert message[..] == Message(block[..], pos);
    digest := mac(message[..], key);
  }

  /** The part of HandShake, and of SHandShake, that writes key and digest into the block. */
  method PlaceKeyAndDigest(mac: Mac, offalg: nat, block: array<Byte>, publicKey: Option<seq<Byte>>, key: seq<Byte>)
    returns (keyPos: nat, digestPos: nat)
    requires offalg <= 1 && block.Length == SIG_SIZE && (publicKey.Some? ==> |publicKey.value| == KEY)
    modifies block
    ensures block[..] == Signed(mac, offalg, old(block[..]), publicKey, key)
    ensures digestPos == DigestPos(LayoutOf(offalg), block[..])
    ensures publicKey.Some? ==> keyPos == KeyPos(LayoutOf(offalg), block[..])
  {
    hide KeyPos, DigestPos, Message, Signed, Over, Verifies, LayoutOf;
    ghost var start: Block := block[..];
    PeerAgrees(mac, offalg, start, publicKey, key);
    keyPos := 0;
    if publicKey.Some? {
      keyPos := GetDHOffset(offalg, block);
      Put(block, keyPos, publicKey.value);
      WrittenOver(start, block[..], keyPos, publicKey.value);
    }
    ghost var keyed: Block := block[..];
    digestPos := GetDigestOffset(offalg, block);
    var digest := CalculateDigest(mac, digestPos, block, key);
    Put(block, digestPos, digest);
    WrittenOver(keyed, block[..], digestPos, digest);
    SignedIs(mac, offalg, start, keyed, publicKey, key);
  }

  lemma SignedIs(mac: Mac, offalg: nat, s: Block, t: Block, publicKey: Option<seq<Byte>>, key: seq<Byte>)
    requires offalg <= 1 && (publicKey.Some? ==> |publicKey.value| == KEY)
    requires var l := LayoutOf(offalg); t == if publicKey.Some? then Over(s, KeyPos(l, s), publicKey.value) else s
    ensures var pos := DigestPos(LayoutOf(offalg), t);
            pos + DIGEST <= SIG_SIZE &&
              Signed(mac, offalg, s, publicKey, key) == Over(t, pos, mac(Message(t, pos), key)) &&
            DigestPos(LayoutOf(offalg), Over(t, pos, mac(Message(t, pos), key))) == pos
  {
    hide Over, Message, KeyPos, DigestPos, Verifies;
    PeerAgrees(mac, offalg, t, None, key);
  }

  lemma WrittenOver(was: Block, now: Block, at: nat, x: seq<Byte>)
    requires at + |x| <= SIG_SIZE && now[at..at + |x|] == x
    requires forall k :: 0 <= k < SIG_SIZE && !(at <= k < at + |x|) ==> now[k] == was[k]
    ensures now == Over(was, at, x)
  {
    assert now == now[..at] + now[at..at + |x|] + now[at + |x|..];
  }

  method VerifyDigest(mac: Mac, pos: nat, block: array<Byte>, key: seq<Byte>) returns (ok: bool)
    requires block.Length == SIG_SIZE && pos + DIGEST <= SIG_SIZE
    ensures ok == Verifies(mac, block[..], pos, key)
  {
    var digest := CalculateDigest(mac, pos, block, key);
    ok := block[pos..pos + DIGEST] == digest;
  }

  predicate VerifiesIn(mac: Mac, offalg: nat, s: Block, key: seq<Byte>)
    requires offalg <= 1
  {
    DigestPos(LayoutOf(offalg), s) + DIGEST <= SIG_SIZE &&
    Verifies(mac, s, DigestPos(LayoutOf(offalg), s), key)
  }

  /** The layout a peer settles on: its own if the digest verifies there, else the other. */
  function Settled(mac: Mac, offalg: nat, s: Block, key: seq<Byte>): Option<nat>
    requires offalg <= 1
  {
    if VerifiesIn(mac, offalg, s, key) then Some(offalg)
    else if VerifiesIn(mac, 1 - offalg, s, key) then Some(1 - offalg)
    else None
  }

  method FindDigest(mac: Mac, offalg: nat, block: array<Byte>, key: seq<Byte>) returns (found: Option<nat>, pos: nat)
    requires block.Length == SIG_SIZE && offalg <= 1
    ensures found == Settled(mac, offalg, block[..], key)
    ensures found.Some? ==> found.value <= 1 && pos == DigestPos(LayoutOf(found.value), block[..])
  {
    hide KeyPos, DigestPos, Verifies;
    pos := GetDigestOffset(offalg, block);
    var ok := VerifyDigest(mac, pos, block, key);
    if ok {
      return Some(offalg), pos;
    }
    pos := GetDigestOffset(1 - offalg, block);
    ok := VerifyDigest(mac, pos, block, key);
    return if ok then Some(1 - offalg) else None, pos;
  }

  /** A block signed in either layout is accepted; the peer reads it in the layout it was
      signed in unless it happens to verify in the one tried first, too. */
  lemma SignedIsAccepted(mac: Mac, signer: nat, peer: nat, s: Block, publicKey: Option<seq<Byte>>, key: seq<Byte>)
    requires signer <= 1 && peer <= 1 && (publicKey.Some? ==> |publicKey.value| == KEY)
    ensures var r := Signed(mac, signer, s, publicKey, key);
            Settled(mac, peer, r, key).Some? &&
            (Settled(mac, peer, r, key) == Some(signer) <==> peer == signer || !VerifiesIn(mac, peer, r, key))
  {
    hide KeyPos, DigestPos, Verifies, Signed;
    PeerAgrees(mac, signer, s, publicKey, key);
  }

  /** A digest of zeros over a block of zeros verifies in both layouts, and a peer who tries the
      other layout first stays with it. */
  lemma BothLayouts()
    ensures var mac: Mac, zeros: Block := (_, _) => seq(DIGEST, _ => 0), seq(SIG_SIZE, _ => 0);
            Signed(mac, 1, zeros, None, []) == zeros && Settled(mac, 0, zeros, []) == Some(0)
  {
    var mac: Mac, zeros: Block := (_, _) => seq(DIGEST, _ => 0), seq(SIG_SIZE, _ => 0);
    assert DigestPos(FIRST, zeros) == 12 && DigestPos(SECOND, zeros) == 776;
    assert Over(zeros, 776, seq(DIGEST, _ => 0)) == zeros;
    assert zeros[12..44] == seq(DIGEST, _ => 0);
  }

  // ---- The second blocks ----

  const SIGNATURE_AT := SIG_SIZE - DIGEST

  /** A second block: `base` with a signature of it under the digest the other side sent. */
  function Answer(mac: Mac, base: Block, digest: seq<Byte>, key: seq<Byte>): Block {
    base[..SIGNATURE_AT] + mac(base[..SIGNATURE_AT], mac(digest, key))
  }

  /** The check on the second block, by whoever sent the digest. */
  predicate Genuine(mac: Mac, answer: Block, digest: seq<Byte>, key: seq<Byte>) {
    mac(answer[..SIGNATURE_AT], mac(digest, key)) == answer[SIGNATURE_AT..]
  }

  function DigestIn(offalg: nat, s: Block): seq<Byte>
    requires offalg <= 1
  {
    AllApart(offalg, s, s);
    s[DigestPos(LayoutOf(offalg), s)..DigestPos(LayoutOf(offalg), s) + DIGEST]
  }

  /** Two sides that sign with any layouts and settle on each other's: both second blocks pass,
      the client's on random bytes and the server's on the client's own block. */
  lemma BothGenuine(mac: Mac, client: nat, server: nat, c: Block, s: Block, keyC: Option<seq<Byte>>,
                    keyS: Option<seq<Byte>>, random: Block, fpKey: seq<Byte>, fmsKey: seq<Byte>)
    requires client <= 1 && server <= 1 && |fpKey| >= 30 && |fmsKey| >= 36
    requires (keyC.Some? ==> |keyC.value| == KEY) && (keyS.Some? ==> |keyS.value| == KEY)
    requires var c1, s1 := Signed(mac, client, c, keyC, fpKey[..30]), Signed(mac, server, s, keyS, fmsKey[..36]);
             (client == server || (!VerifiesIn(mac, server, c1, fpKey[..30]) &&
               !VerifiesIn(mac, client, s1, fmsKey[..36])))
    ensures var c1, s1 := Signed(mac, client, c, keyC, fpKey[..30]), Signed(mac, server, s, keyS, fmsKey[..36]);
            var atServer, atClient := Settled(mac, server, c1, fpKey[..30]), Settled(mac, client, s1, fmsKey[..36]);
            atServer == Some(client) && atClient == Some(server) &&
            Genuine(mac, Answer(mac, c1, DigestIn(atServer.value, c1), fmsKey), DigestIn(client, c1), fmsKey) &&
            Genuine(mac, Answer(mac, random, DigestIn(atClient.value, s1), fpKey), DigestIn(server, s1), fpKey)
  {
    hide KeyPos, DigestPos, Verifies, Signed, VerifiesIn, DigestIn;
    SignedIsAccepted(mac, client, server, c, keyC, fpKey[..30]);
    SignedIsAccepted(mac, server, client, s, keyS, fmsKey[..36]);
    var c1, s1 := Signed(mac, client, c, keyC, fpKey[..30]), Signed(mac, server, s, keyS, fmsKey[..36]);
    AnswerIsGenuine(mac, c1, DigestIn(client, c1), fmsKey);
    AnswerIsGenuine(mac, random, DigestIn(server, s1), fpKey);
  }

  lemma AnswerIsGenuine(mac: Mac, base: Block, digest: seq<Byte>, key: seq<Byte>)
    ensures Genuine(mac, Answer(mac, base, digest, key), digest, key)
  {
    var x := mac(base[..SIGNATURE_AT], mac(digest, key));
    DropPrefix(base[..SIGNATURE_AT], x);
  }
}
