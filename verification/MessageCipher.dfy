/**
 Message keys, nonces, associated data, encryption and decryption
 (`secure_core/src/message_cipher.rs`).
 */
module MessageCipher {
  import opened Bytes
  import opened Crypto

  type Stamp = s: seq<byte> | |s| == 32 witness seq(32, _ => 0)

  const PROTO_VERSION := 4

  /** The fields that accompany a message and that both ends must agree on. */
  datatype Header = Header(stamp: Stamp, outgoing: bool, epoch: u32, msgSeq: u64, timestamp: u64)

  function KeyInfo(epoch: u32, msgSeq: u64): seq<byte> {
    LE(epoch, 4) + LE(msgSeq, 8)
  }

  function DeriveMessageKey(root: Root, epoch: u32, msgSeq: u64): Key {
    MessageKey(root, KeyInfo(epoch, msgSeq))
  }

  function BuildNonce(epoch: u32, timestamp: u64, msgSeq: u64): seq<byte> {
    LE(epoch, 4) + LE(Xor(timestamp, msgSeq), 8)
  }

  function BuildAad(h: Header): seq<byte> {
    h.stamp + [if h.outgoing then 0 else 1] + LE(h.epoch, 4) + LE(h.msgSeq, 8)
    + LE(h.timestamp, 8) + LE(PROTO_VERSION, 2)
  }

  function Encrypt(text: seq<byte>, key: Key, h: Header): Wire {
    var nonce := BuildNonce(h.epoch, h.timestamp, h.msgSeq);
    Packet(nonce, Sealed(key, nonce, BuildAad(h), text))
  }

  /** The nonce is the one on the wire; it is not recomputed from the header. */
  function Decrypt(wire: Wire, key: Key, h: Header): Option<seq<byte>> {
    match wire
    case TooShort => None
    case Packet(nonce, body) => Open(key, nonce, BuildAad(h), body)
  }

  // ---- the encodings lose nothing ------------------------------------------------------

  /** A concatenation of fixed-width parts determines its parts. */
  lemma SplitEqual(a: seq<byte>, b: seq<byte>, a': seq<byte>, b': seq<byte>)
    requires |a| == |a'|
    requires a + b == a' + b'
    ensures a == a' && b == b'
  {
    assert a == (a + b)[..|a|] && a' == (a' + b')[..|a|];
    assert b == (a + b)[|a|..] && b' == (a' + b')[|a|..];
  }

  lemma KeyInfoInjective(e: u32, q: u64, e': u32, q': u64)
    requires KeyInfo(e, q) == KeyInfo(e', q')
    ensures e == e' && q == q'
  {
    SplitEqual(LE(e, 4), LE(q, 8), LE(e', 4), LE(q', 8));
    WordSizes();
    LEInjective(e, e', 4);
    LEInjective(q, q', 8);
  }

  /** The 55-byte associated data determines every header field. */
  lemma AadInjective(h: Header, h': Header)
    ensures |BuildAad(h)| == 55
    ensures BuildAad(h) == BuildAad(h') ==> h == h'
  {
    if BuildAad(h) == BuildAad(h') {
      var d, d' := [if h.outgoing then 0 else 1], [if h'.outgoing then 0 else 1];
      var v := LE(PROTO_VERSION, 2);
      var (e, q, t) := (LE(h.epoch, 4), LE(h.msgSeq, 8), LE(h.timestamp, 8));
      var (e', q', t') := (LE(h'.epoch, 4), LE(h'.msgSeq, 8), LE(h'.timestamp, 8));
      SplitEqual(h.stamp + d + e + q + t, v, h'.stamp + d' + e' + q' + t', v);
      SplitEqual(h.stamp + d + e + q, t, h'.stamp + d' + e' + q', t');
      SplitEqual(h.stamp + d + e, q, h'.stamp + d' + e', q');
      SplitEqual(h.stamp + d, e, h'.stamp + d', e');
      SplitEqual(h.stamp, d, h'.stamp, d');
      WordSizes();
      LEInjective(h.epoch, h'.epoch, 4);
      LEInjective(h.msgSeq, h'.msgSeq, 8);
      LEInjective(h.timestamp, h'.timestamp, 8);
      assert d[0] == d'[0];
    }
  }

  /** Two 12-byte nonces are equal exactly when the epochs are and the mixed words are. */
  lemma NonceIff(e: u32, q: u64, t: u64, e': u32, q': u64, t': u64)
    ensures |BuildNonce(e, t, q)| == |KeyInfo(e, q)| == 12
    ensures BuildNonce(e, t, q) == BuildNonce(e', t', q') <==> e == e' && Xor(t, q) == Xor(t', q')
  {
    if BuildNonce(e, t, q) == BuildNonce(e', t', q') {
      SplitEqual(LE(e, 4), LE(Xor(t, q), 8), LE(e', 4), LE(Xor(t', q'), 8));
      Xor64Bound(t, q);
      Xor64Bound(t', q');
      WordSizes();
      LEInjective(e, e', 4);
      LEInjective(Xor(t, q), Xor(t', q'), 8);
    }
  }

  /** Key info and nonce together determine epoch, sequence number and timestamp. */
  lemma NonceAndInfoInjective(e: u32, q: u64, t: u64, e': u32, q': u64, t': u64)
    requires KeyInfo(e, q) == KeyInfo(e', q')
    requires BuildNonce(e, t, q) == BuildNonce(e', t', q')
    ensures e == e' && q == q' && t == t'
  {
    KeyInfoInjective(e, q, e', q');
    NonceIff(e, q, t, e', q', t');
    XorInjective(t, t', q);
  }

  /** Decryption returns the plaintext exactly when the key and every header field agree. */
  lemma DecryptIffAgree(text: seq<byte>, key: Key, h: Header, key': Key, h': Header)
    ensures Decrypt(Encrypt(text, key, h), key', h') ==
            if key == key' && h == h' then Some(text) else None
  {
    AadInjective(h, h');
  }

  /** A wire opens exactly when its body was sealed under that key, the nonce it carries and that header. */
  lemma DecryptExactly(wire: Wire, key: Key, h: Header, text: seq<byte>)
    ensures Decrypt(wire, key, h) == Some(text) <==>
            wire.Packet? && wire.body == Sealed(key, wire.nonce, BuildAad(h), text)
  {
  }

  /** Two derived keys agree exactly when root, epoch and sequence number do. */
  lemma KeysIffAgree(r: Root, e: u32, q: u64, r': Root, e': u32, q': u64)
    ensures DeriveMessageKey(r, e, q) == DeriveMessageKey(r', e', q') <==> r == r' && e == e' && q == q'
  {
    if KeyInfo(e, q) == KeyInfo(e', q') {
      KeyInfoInjective(e, q, e', q');
    }
  }

  // ---- where each field is -------------------------------------------------------------

  /** The 12 bytes of key info: epoch, then sequence number, both little-endian. */
  lemma KeyInfoFields(e: u32, q: u64)
    ensures var x := KeyInfo(e, q); |x| == 12 && FromLE(x[0..4]) == e && FromLE(x[4..12]) == q
  {
    var x := KeyInfo(e, q);
    assert x[0..4] == LE(e, 4) && x[4..12] == LE(q, 8);
    WordSizes();
    DecodeEncode(e, 4);
    DecodeEncode(q, 8);
  }

  /** The 12 bytes of the nonce: epoch, then the word from which the number recovers the timestamp. */
  lemma NonceFields(e: u32, q: u64, t: u64)
    ensures var x := BuildNonce(e, t, q); |x| == 12 && FromLE(x[0..4]) == e && Xor(FromLE(x[4..12]), q) == t
  {
    var x := BuildNonce(e, t, q);
    assert x[0..4] == LE(e, 4) && x[4..12] == LE(Xor(t, q), 8);
    WordSizes();
    Xor64Bound(t, q);
    DecodeEncode(e, 4);
    DecodeEncode(Xor(t, q), 8);
    XorInvolution(t, q);
  }

  /** The 55 bytes of associated data: stamp, direction, epoch, number, timestamp, version. */
  lemma AadFields(h: Header)
    ensures var x := BuildAad(h);
            && |x| == 55 && x[0..32] == h.stamp && x[32] == (if h.outgoing then 0 else 1)
            && FromLE(x[33..37]) == h.epoch && FromLE(x[37..45]) == h.msgSeq
            && FromLE(x[45..53]) == h.timestamp && FromLE(x[53..55]) == 4
  {
    var x := BuildAad(h);
    assert x[33..37] == LE(h.epoch, 4) && x[37..45] == LE(h.msgSeq, 8);
    assert x[45..53] == LE(h.timestamp, 8) && x[53..55] == LE(PROTO_VERSION, 2);
    WordSizes();
    DecodeEncode(h.epoch, 4);
    DecodeEncode(h.msgSeq, 8);
    DecodeEncode(h.timestamp, 8);
    DecodeEncode(PROTO_VERSION, 2);
  }
}
