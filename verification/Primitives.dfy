/**
 The cryptographic functions the ratchet calls, as arbitrary functions on bytes. Nothing
 is assumed about them here; what a theorem needs of them it states itself.
 */
module Primitives {
  import opened Words

  /** An incremental KEM key: header, encapsulation key, decapsulation key. */
  datatype KemKey = KemKey(pk1: Bytes, pk2: Bytes, dk: Bytes)

  /** What the first encapsulation phase yields. */
  datatype Phase1 = Phase1(ct1: Bytes, es: Bytes, ss: Bytes)

  datatype Salt = ZeroSalt | KeySalt(key: Bytes)

  /**
   The info argument of a key derivation: a fixed label, followed for some labels by a
   big-endian number.
   */
  datatype Info =
    | SckaKeyInfo(epoch: nat)
    | AuthUpdateInfo(epoch: nat)
    | ChainStartInfo
    | ChainAddEpochInfo
    | ChainNextInfo(ctr: nat)

  /** The data under a MAC: a fixed label, the big-endian epoch, and the bytes. */
  datatype MacInput = CiphertextMac(epoch: nat, ct: Bytes) | HeaderMac(epoch: nat, hdr: Bytes)

  datatype Crypto = Crypto(
    hkdf: (Salt, Bytes, Info, nat) -> Bytes,        // salt, input key, info, length
    hmac: (Bytes, MacInput) -> Bytes,               // key, data
    keygen: Bytes -> KemKey,                        // seed
    encaps1: (Bytes, Bytes) -> Phase1,              // header, message
    encaps2: (Bytes, Bytes) -> Option<Bytes>,       // saved state, encapsulation key
    decaps: (Bytes, Bytes, Bytes) -> Option<Bytes>, // decapsulation key, ct1, ct2
    validate: (Bytes, Bytes) -> bool)               // does the encapsulation key match the header

  const PK1_SIZE := 64
  const PK2_SIZE := 1152
  const CT1_SIZE := 960
  const CT2_SIZE := 128
  const MAC_SIZE := 32
  const KEY_SIZE := 32

  /** The output lengths the implementations have by construction. */
  ghost predicate Sized(c: Crypto) {
    && (forall salt, ikm, info, n :: |c.hkdf(salt, ikm, info, n)| == n)
    && (forall key, data :: |c.hmac(key, data)| == MAC_SIZE)
    && (forall seed :: |c.keygen(seed).pk1| == PK1_SIZE && |c.keygen(seed).pk2| == PK2_SIZE)
    && (forall hdr, m :: |c.encaps1(hdr, m).ct1| == CT1_SIZE)
    && (forall es, ek :: c.encaps2(es, ek).Some? ==> |c.encaps2(es, ek).value| == CT2_SIZE)
  }

  /**
   The two encapsulation phases against this key recover the encapsulator's secret. For
   ML-KEM this fails only with negligible probability over the sampled values.
   */
  predicate KemAgrees(c: Crypto, hdr: Bytes, ek: Bytes, dk: Bytes, m: Bytes) {
    var p := c.encaps1(hdr, m);
    var ct2 := c.encaps2(p.es, ek);
    ct2.Some? && c.decaps(dk, p.ct1, ct2.value) == Some(p.ss)
  }

  /** b[lo..hi], empty when out of range. */
  function Slice(b: Bytes, lo: nat, hi: nat): (r: Bytes) {
    if lo <= hi <= |b| then b[lo..hi] else []
  }
}

/** The MAC chain that binds each header and ciphertext to its epoch. */
module Authenticator {
  import opened Words
  import opened Primitives

  datatype Auth = Auth(root: Bytes, mac: Bytes)

  /** Ratchets the root with an epoch key; the second half of the output is the MAC key. */
  function Update(c: Crypto, a: Auth, epoch: nat, k: Bytes): (r: Auth) {
    var out := c.hkdf(ZeroSalt, a.root + k, AuthUpdateInfo(epoch), 64);
    Auth(Slice(out, 0, 32), Slice(out, 32, 64))
  }

  function NewAuth(c: Crypto, rootKey: Bytes, epoch: nat): (r: Auth) {
    var zeros := seq(32, i => 0);
    Update(c, Auth(zeros, zeros), epoch, rootKey)
  }

  function MacCt(c: Crypto, a: Auth, epoch: nat, ct: Bytes): (m: Bytes) {
    c.hmac(a.mac, CiphertextMac(epoch, ct))
  }

  function MacHdr(c: Crypto, a: Auth, epoch: nat, hdr: Bytes): (m: Bytes) {
    c.hmac(a.mac, HeaderMac(epoch, hdr))
  }
}
