/** The ratchet over the incremental ML-KEM: sizes, and which draws are good ones. */
module KemInstance {
  import opened Words
  import opened Parties
  import opened Primitives
  import opened Kpke
  import opened Incremental
  import opened V1Machine
  import opened V1Joint
  import S = V1Safety
  import M = Mlkem

  /** A draw of the size the code asks for; other sizes never occur and stand for zeros. */
  function Exactly(b: Bytes, n: nat): (r: Bytes)
    ensures |r| == n && (|b| == n ==> r == b)
  {
    if |b| == n then b else seq(n, i => 0)
  }

  ghost function GenerateKey(hs: M.Hashes, seed: Bytes): (k: DecapsKey)
    requires M.Sized(hs)
    ensures Matching(hs, k)
  {
    var s := Exactly(seed, 64);
    GeneratedMatches(hs, s[..32], s[32..]);
    KeyGen(hs, s[..32], s[32..])
  }

  ghost function Generate(hs: M.Hashes, seed: Bytes): (k: KemKey)
    requires M.Sized(hs)
  {
    var k := GenerateKey(hs, seed);
    KemKey(Header(k), EncodeVec(k.t), Expanded(k))
  }

  /** A header of any other size never gets this far. */
  ghost function FirstPhase(hs: M.Hashes, hdr: Bytes, m: Bytes): (p: Phase1)
    requires M.Sized(hs)
  {
    Encapsulate1(hs, Exactly(hdr, PK1_SIZE), Exactly(m, 32)).value
  }

  /** The primitives of the ratchet with the incremental ML-KEM as their KEM. */
  ghost function Instance(hs: M.Hashes, hkdf: (Salt, Bytes, Info, nat) -> Bytes,
      hmac: (Bytes, MacInput) -> Bytes): Crypto
    requires M.Sized(hs)
  {
    Crypto(hkdf, hmac,
           seed => Generate(hs, seed),
           (hdr, m) => FirstPhase(hs, hdr, m),
           (es, ek) => Encapsulate2(es, ek),
           (dk, ct1, ct2) => DecapsulateCompressedKey(hs, dk, ct1, ct2),
           (hdr, ek) => ValidatePublicKeyParts(hs, hdr, ek))
  }

  /** The noise of encapsulating a drawn message to the key of a drawn seed is survived. */
  ghost predicate Survives(hs: M.Hashes, seed: Bytes, m: Bytes)
    requires M.Sized(hs)
  {
    var s := Exactly(seed, 64);
    NoiseSurvived(hs, s[..32], s[32..], Exactly(m, 32))
  }

  lemma GeneratedSizes(hs: M.Hashes, seed: Bytes)
    requires M.Sized(hs)
    ensures |Generate(hs, seed).pk1| == PK1_SIZE && |Generate(hs, seed).pk2| == PK2_SIZE
  {
    hide KeyGen, EncodeVec, Expanded, GenerateKey;
    var k := GenerateKey(hs, seed);
  }

  lemma FirstPhaseSize(hs: M.Hashes, hdr: Bytes, m: Bytes)
    requires M.Sized(hs)
    ensures |FirstPhase(hs, hdr, m).ct1| == CT1_SIZE
  {
    hide Encapsulate1;
  }

  /** The output lengths every theorem about the ratchet asks for. */
  lemma InstanceIsSized(
      hs: M.Hashes, hkdf: (Salt, Bytes, Info, nat) -> Bytes, hmac: (Bytes, MacInput) -> Bytes)
    requires M.Sized(hs)
    requires forall salt, ikm, info, n :: |hkdf(salt, ikm, info, n)| == n
    requires forall key, data :: |hmac(key, data)| == MAC_SIZE
    ensures Sized(Instance(hs, hkdf, hmac))
  {
    hide Generate, FirstPhase, Encapsulate2;
    forall seed ensures |Generate(hs, seed).pk1| == PK1_SIZE && |Generate(hs, seed).pk2| == PK2_SIZE {
      GeneratedSizes(hs, seed);
    }
    forall hdr, m ensures |FirstPhase(hs, hdr, m).ct1| == CT1_SIZE {
      FirstPhaseSize(hs, hdr, m);
    }
  }

  /**
   Every generated key validates, and every message whose noise is survived is
   decapsulated to the encapsulator's secret.
   */
  lemma DrawsAreGood(
      hs: M.Hashes, hkdf: (Salt, Bytes, Info, nat) -> Bytes, hmac: (Bytes, MacInput) -> Bytes, seed: Bytes, m: Bytes)
    requires M.Sized(hs)
    ensures var c := Instance(hs, hkdf, hmac);
      var key := c.keygen(seed);
      && c.validate(key.pk1, key.pk2)
      && (Survives(hs, seed, m) ==> KemAgrees(c, key.pk1, key.pk2, key.dk, m))
  {
    hide KeyGen, NoiseSurvived, Encapsulate1, Encapsulate2, EncodeVec, Expanded, DecapsulateCompressedKey,
      ValidatePublicKeyParts, Header;
    var k := GenerateKey(hs, seed);
    GeneratedSizes(hs, seed);
    MatchingValidates(hs, k);
    if Survives(hs, seed, m) {
      var s := Exactly(seed, 64);
      IncrementalAgrees(hs, s[..32], s[32..], Exactly(m, 32));
    }
  }

  /**
   At every point of every run over ML-KEM: whatever a party draws is a good draw, except
   a message drawn for encapsulation to the peer's key whose noise is not survived.
   */
  lemma RunDrawsAreGood(
      hs: M.Hashes, hkdf: (Salt, Bytes, Info, nat) -> Bytes, hmac: (Bytes, MacInput) -> Bytes,
      authKey: Bytes, js: seq<Joint>, n: nat, p: Party, rnd: Bytes) returns (seed: Bytes)
    requires M.Sized(hs) && Sized(Instance(hs, hkdf, hmac))
    requires Run(Instance(hs, hkdf, hmac), authKey, js) && n < |js|
    ensures var c, mine, peer := Instance(hs, hkdf, hmac), js[n].Of(p), js[n].Of(Other(p));
      && (mine.HeaderReceived? ==>
            peer.KeysSampled? && c.keygen(seed) == KemKey(mine.hdr, peer.ek, peer.dk))
      && (!mine.HeaderReceived? || Survives(hs, seed, rnd) ==> GoodDraw(c, mine, peer, rnd))
  {
    hide Instance, Survives, KemAgrees, Run, GoodDraw;
    var c := Instance(hs, hkdf, hmac);
    seed := HeaderIsOf(c, authKey, js, n, p);
    DrawsAreGood(hs, hkdf, hmac, rnd, []);
    DrawsAreGood(hs, hkdf, hmac, seed, rnd);
    GoodIf(c, js[n].Of(p), js[n].Of(Other(p)), seed, rnd);
  }

  lemma GoodIf(c: Crypto, mine: State, peer: State, seed: Bytes, rnd: Bytes)
    requires c.validate(c.keygen(rnd).pk1, c.keygen(rnd).pk2)
    requires mine.HeaderReceived? ==> peer.KeysSampled? && c.keygen(seed) == KemKey(mine.hdr, peer.ek, peer.dk)
    ensures var key := c.keygen(seed);
      !mine.HeaderReceived? || KemAgrees(c, key.pk1, key.pk2, key.dk, rnd) ==> GoodDraw(c, mine, peer, rnd)
  {
    hide KemAgrees;
  }

  /** A received header belongs to the key the peer is sending. */
  lemma HeaderIsOf(c: Crypto, authKey: Bytes, js: seq<Joint>, n: nat, p: Party) returns (seed: Bytes)
    requires Sized(c) && Run(c, authKey, js) && n < |js|
    ensures var mine, peer := js[n].Of(p), js[n].Of(Other(p));
      mine.HeaderReceived? ==> peer.KeysSampled? && c.keygen(seed) == KemKey(mine.hdr, peer.ek, peer.dk)
  {
    var j := js[n];
    var l := S.RunInv(c, authKey, js, n);
    hide Run, StatesFit, Fits, SecretFits, Log.Ok;
    var q := EkParty(l.Epoch());
    seed := [];
    if j.Of(p).HeaderReceived? {
      if p == q {
        S.EkNotCt(l, j.Of(q), j.Of(Other(q)));
      } else {
        S.KeyedPeer(l, j.Of(q), j.Of(p));
        seed := l.cur.seed;
      }
    }
  }
}
