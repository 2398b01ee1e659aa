/**
 The cryptography the kernel calls, as free constructors: two terms are equal only when they
 were built from the same inputs.

 HKDF-SHA256 and SHA-256 are injective, ML-KEM-1024 decapsulation returns the encapsulated
 secret for the matching key pair (and an unrelated one otherwise), and AES-256-GCM opens a
 body only under the key, nonce and associated data it was sealed with.
 */
module Crypto {
  import opened Bytes

  /** A KEM ciphertext; `BadLength` stands for bytes the library refuses to parse. */
  datatype KemCt = KemCt(pk: seq<byte>, coin: nat) | BadLength

  datatype Secret = Shared(pk: seq<byte>, coin: nat) | Rejected(owner: seq<byte>, ct: KemCt)

  /** A 256-bit root key, named by how it was derived. */
  datatype Root =
    | Init(seed: seq<byte>)               // SHA-256 of the interleaved entropy
    | Evolve(secret: Secret, prev: Root)  // HKDF(salt = KEM secret, ikm = current root)
    | Roll(prev: Root)                    // HKDF(salt = "epoch_roll", ikm = current root)

  /** How many derivations separate a root from its initial seed. */
  function Depth(r: Root): nat {
    match r
    case Init(_) => 0
    case Evolve(_, prev) => Depth(prev) + 1
    case Roll(prev) => Depth(prev) + 1
  }

  /** The root after n roll-forwards. */
  function RollN(r: Root, n: nat): Root {
    if n == 0 then r else Roll(RollN(r, n - 1))
  }

  lemma {:induction false} RollNFirst(r: Root, n: nat)
    ensures RollN(Roll(r), n) == RollN(r, n + 1)
  {
    if n != 0 { RollNFirst(r, n - 1); }
  }

  lemma {:induction false} RollNAdd(r: Root, m: nat, n: nat)
    ensures RollN(RollN(r, m), n) == RollN(r, m + n)
  {
    if n != 0 { RollNAdd(r, m, n - 1); }
  }

  lemma {:induction false} RollNInjective(r: Root, q: Root, n: nat)
    requires RollN(r, n) == RollN(q, n)
    ensures r == q
  {
    if n != 0 { RollNInjective(r, q, n - 1); }
  }

  const ML_KEM_PK_LEN := 1568

  /** The library refuses a public key of the wrong length. */
  function Encapsulate(pk: seq<byte>, coin: nat): Option<(KemCt, Secret)> {
    if |pk| == ML_KEM_PK_LEN then Some((KemCt(pk, coin), Shared(pk, coin))) else None
  }

  /** The secret half of a key pair, known by its public half. */
  datatype SecretKey = SecretHalf(pk: seq<byte>)

  /** `owner` is the public key whose secret half decapsulates. */
  function Decapsulate(ct: KemCt, owner: seq<byte>): Option<Secret> {
    match ct
    case BadLength => None
    case KemCt(pk, coin) => Some(if pk == owner then Shared(pk, coin) else Rejected(owner, ct))
  }

  /** A message key: HKDF of a root under an info string. */
  datatype Key = MessageKey(root: Root, info: seq<byte>)

  /** `Forged` stands for any body that no holder of a key has sealed. */
  datatype Body = Sealed(key: Key, nonce: seq<byte>, aad: seq<byte>, text: seq<byte>) | Forged

  function Open(key: Key, nonce: seq<byte>, aad: seq<byte>, body: Body): Option<seq<byte>> {
    match body
    case Forged => None
    case Sealed(k, n, a, text) => if k == key && n == nonce && a == aad then Some(text) else None
  }

  /** What travels: a 12-byte nonce and a sealed body, or fewer than 28 bytes. */
  datatype Wire = Packet(nonce: seq<byte>, body: Body) | TooShort
}
