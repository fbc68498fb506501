/**
 Two v1 machines over a network that may drop, duplicate, delay and reorder messages:
 the invariant of every run and what follows from it.
 */
module V1Joint {
  import opened Words
  import opened Parties
  import opened Chunked
  import opened Streams
  import opened Primitives
  import opened Authenticator
  import opened V1Machine

  datatype Sent = Sent(from: Party, msg: Msg)

  /** An epoch secret some party handed to its key chain. */
  datatype Emitted = Emitted(who: Party, es: EpochSecret)

  /** Both machines, every message ever sent and every epoch secret ever produced. */
  datatype Joint = Joint(alice: State, bob: State, net: set<Sent>, secrets: set<Emitted>) {
    function Of(p: Party): (s: State) {
      if p == Alice then alice else bob
    }

    function With(p: Party, s: State): (j: Joint)
      ensures j.Of(p) == s && j.Of(Other(p)) == Of(Other(p)) && j.net == net && j.secrets == secrets
    {
      if p == Alice then this.(alice := s) else this.(bob := s)
    }
  }

  function Emit(p: Party, key: Option<EpochSecret>): (es: set<Emitted>) {
    match key
    case None => {}
    case Some(k) => {Emitted(p, k)}
  }

  function Initial(c: Crypto, authKey: Bytes): (j: Joint) {
    Joint(NewSendEk(c, authKey), NewSendCt(c, authKey), {}, {})
  }

  /**
   The draws the theorem speaks about: a key whose two parts match, and a message whose
   encapsulation to the peer's key decapsulates to the same secret.
   */
  predicate GoodDraw(c: Crypto, mine: State, peer: State, rnd: Bytes) {
    && (mine.KeysUnsampled? ==> c.validate(c.keygen(rnd).pk1, c.keygen(rnd).pk2))
    && (mine.HeaderReceived? && peer.KeysSampled? ==> KemAgrees(c, mine.hdr, peer.ek, peer.dk, rnd))
  }

  ghost predicate SendsTo(c: Crypto, j: Joint, p: Party, rnd: Bytes, j': Joint) {
    && j.Of(p).Wf() && GoodDraw(c, j.Of(p), j.Of(Other(p)), rnd)
    && var r := Send(c, j.Of(p), rnd);
       && r.Ok?
       && j' == j.With(p, r.value.state).(net := j.net + {Sent(p, r.value.msg)},
                                          secrets := j.secrets + Emit(p, r.value.key))
  }

  /** `p` receives any message its peer ever sent; a refused message changes nothing. */
  ghost predicate Delivers(c: Crypto, j: Joint, p: Party, msg: Msg, j': Joint) {
    && Sent(Other(p), msg) in j.net && j.Of(p).Wf() && MsgOk(msg)
    && var r := Recv(c, j.Of(p), msg);
       if r.Ok? then j' == j.With(p, r.value.state).(secrets := j.secrets + Emit(p, r.value.key))
       else j' == j
  }

  ghost predicate Step(c: Crypto, j: Joint, j': Joint) {
    || (exists p, rnd :: SendsTo(c, j, p, rnd, j'))
    || (exists p, msg :: Delivers(c, j, p, msg, j'))
  }

  ghost predicate Run(c: Crypto, authKey: Bytes, js: seq<Joint>) {
    && js != [] && js[0] == Initial(c, authKey)
    && forall i | 0 <= i < |js| - 1 :: Step(c, js[i], js[i + 1])
  }

  // ----- what has been drawn in each epoch -----

  datatype Exchange = Fresh | Keyed(seed: Bytes) | Full(seed: Bytes, m: Bytes)

  function KeyOf(c: Crypto, x: Exchange): (k: KemKey)
    requires !x.Fresh?
  {
    c.keygen(x.seed)
  }

  function PhaseOf(c: Crypto, x: Exchange): (p: Phase1)
    requires x.Full?
  {
    c.encaps1(KeyOf(c, x).pk1, x.m)
  }

  function Ct2Of(c: Crypto, x: Exchange): (ct2: Bytes)
    requires x.Full?
  {
    match c.encaps2(PhaseOf(c, x).es, KeyOf(c, x).pk2)
    case Some(ct2) => ct2
    case None => []
  }

  function SecretOf(c: Crypto, x: Exchange, epoch: nat): (k: Bytes)
    requires x.Full?
  {
    SckaKey(c, PhaseOf(c, x).ss, epoch)
  }

  ghost predicate Sound(c: Crypto, x: Exchange) {
    && (!x.Fresh? ==> c.validate(KeyOf(c, x).pk1, KeyOf(c, x).pk2))
    && (x.Full? ==> KemAgrees(c, KeyOf(c, x).pk1, KeyOf(c, x).pk2, KeyOf(c, x).dk, x.m))
  }

  /** The authenticator once the given exchanges are complete. */
  function AuthAfter(c: Crypto, authKey: Bytes, done: seq<Exchange>): (a: Auth)
    requires forall i | 0 <= i < |done| :: done[i].Full?
  {
    if done == [] then NewAuth(c, authKey, 1)
    else
      var n := |done|;
      Update(c, AuthAfter(c, authKey, done[..n - 1]), n, SecretOf(c, done[n - 1], n))
  }

  /** What is known about the epochs so far; entry e - 1 belongs to epoch e. */
  datatype Log = Log(c: Crypto, authKey: Bytes, done: seq<Exchange>, cur: Exchange) {
    ghost predicate Ok() {
      && Sized(c) && Sound(c, cur)
      && forall i | 0 <= i < |done| :: done[i].Full? && Sound(c, done[i])
    }

    function Epoch(): (e: nat) {
      |done| + 1
    }

    /** The exchange of epoch `e`. */
    function At(e: nat): (x: Exchange)
      requires 1 <= e <= Epoch()
    {
      if e == Epoch() then cur else done[e - 1]
    }

    /** The authenticator at the start of epoch `e`. */
    ghost function Before(e: nat): (a: Auth)
      requires Ok() && 1 <= e <= Epoch()
    {
      AuthAfter(c, authKey, done[..e - 1])
    }

    ghost function After(e: nat): (a: Auth)
      requires Ok() && 1 <= e <= Epoch() && At(e).Full?
    {
      Update(c, Before(e), e, SecretOf(c, At(e), e))
    }

    ghost function HdrMsg(e: nat): (m: Bytes)
      requires Ok() && 1 <= e <= Epoch() && !At(e).Fresh?
      ensures |m| == PK1_SIZE + MAC_SIZE
    {
      var pk1 := KeyOf(c, At(e)).pk1;
      pk1 + MacHdr(c, Before(e), e, pk1)
    }

    ghost function EkMsg(e: nat): (m: Bytes)
      requires Ok() && 1 <= e <= Epoch() && !At(e).Fresh?
      ensures |m| == PK2_SIZE
    {
      KeyOf(c, At(e)).pk2
    }

    ghost function Ct1Msg(e: nat): (m: Bytes)
      requires Ok() && 1 <= e <= Epoch() && At(e).Full?
      ensures |m| == CT1_SIZE
    {
      PhaseOf(c, At(e)).ct1
    }

    ghost function Ct2Msg(e: nat): (m: Bytes)
      requires Ok() && 1 <= e <= Epoch() && At(e).Full?
      ensures |m| == CT2_SIZE + MAC_SIZE
    {
      Ct2Of(c, At(e)) + MacCt(c, After(e), e, Ct1Msg(e) + Ct2Of(c, At(e)))
    }
  }

  /** Alice sends the key in odd epochs, Bob in even ones. */
  function EkParty(epoch: nat): (p: Party) {
    if epoch % 2 == 1 then Alice else Bob
  }

  ghost predicate IsChunk(chunk: Chunk, msg: Bytes) {
    |msg| % 2 == 0 && chunk == ChunkOf(msg, chunk.index)
  }

  /** A message consistent with what was drawn. */
  ghost predicate Fits(l: Log, msg: Msg)
    requires l.Ok()
  {
    var e := msg.epoch;
    && 1 <= e <= l.Epoch()
    && match msg.payload
       case NoPayload => true
       case Ct1Ack(_) => true
       case Hdr(chunk) => !l.At(e).Fresh? && IsChunk(chunk, l.HdrMsg(e))
       case Ek(chunk) => l.At(e).Full? && IsChunk(chunk, l.EkMsg(e))
       case EkCt1Ack(chunk) => l.At(e).Full? && IsChunk(chunk, l.EkMsg(e))
       case Ct1(chunk) => l.At(e).Full? && IsChunk(chunk, l.Ct1Msg(e))
       case Ct2(chunk) => l.At(e).Full? && IsChunk(chunk, l.Ct2Msg(e))
  }

  /** The key-sending party in the current epoch. */
  ghost predicate EkFits(l: Log, s: State)
    requires l.Ok()
  {
    var e, x := l.Epoch(), l.cur;
    && s.epoch == e && s.auth == l.Before(e)
    && match s
       case KeysUnsampled(_, _) => x.Fresh?
       case KeysSampled(_, _, ek, dk, enc) =>
         !x.Fresh? && ek == KeyOf(l.c, x).pk2 && dk == KeyOf(l.c, x).dk && enc.Encodes(l.HdrMsg(e))
       case HeaderSent(_, _, _, dk, enc, d) =>
         x.Full? && dk == KeyOf(l.c, x).dk && enc.Encodes(l.EkMsg(e)) && Holds(d, l.Ct1Msg(e))
       case Ct1Received(_, _, _, dk, ct1, enc) =>
         x.Full? && dk == KeyOf(l.c, x).dk && ct1 == l.Ct1Msg(e) && enc.Encodes(l.EkMsg(e))
       case EkSentCt1Received(_, _, dk, ct1, d) =>
         x.Full? && dk == KeyOf(l.c, x).dk && ct1 == l.Ct1Msg(e) && Holds(d, l.Ct2Msg(e))
       case _ => false
  }

  /** The ciphertext-sending party in the current epoch. */
  ghost predicate CtFits(l: Log, s: State)
    requires l.Ok()
  {
    var e, x := l.Epoch(), l.cur;
    && s.epoch == e
    && match s
       case NoHeaderReceived(_, a, d) =>
         && a == l.Before(e) && !x.Full?
         && (if x.Fresh? then d == NewReceived(PK1_SIZE + MAC_SIZE) else Holds(d, l.HdrMsg(e)))
       case HeaderReceived(_, a, hdr, d) =>
         a == l.Before(e) && x.Keyed? && hdr == KeyOf(l.c, x).pk1 && d == NewReceived(PK2_SIZE)
       case Ct1Sampled(_, a, hdr, es, ct1, enc, d) =>
         && x.Full? && a == l.After(e) && hdr == KeyOf(l.c, x).pk1 && es == PhaseOf(l.c, x).es
         && ct1 == l.Ct1Msg(e) && enc.Encodes(ct1) && Holds(d, l.EkMsg(e))
       case EkReceivedCt1Sampled(_, a, es, ek, ct1, enc) =>
         && x.Full? && a == l.After(e) && es == PhaseOf(l.c, x).es && ek == l.EkMsg(e)
         && ct1 == l.Ct1Msg(e) && enc.Encodes(ct1)
       case Ct1Acknowledged(_, a, hdr, es, ct1, d) =>
         && x.Full? && a == l.After(e) && hdr == KeyOf(l.c, x).pk1 && es == PhaseOf(l.c, x).es
         && ct1 == l.Ct1Msg(e) && Holds(d, l.EkMsg(e))
       case Ct2Sampled(_, a, enc) => x.Full? && a == l.After(e) && enc.Encodes(l.Ct2Msg(e))
       case _ => false
  }

  /** The party that still has to learn that the previous epoch is over. */
  ghost predicate Behind(l: Log, s: State)
    requires l.Ok()
  {
    && l.Epoch() >= 2 && l.cur.Fresh?
    && s.Ct2Sampled? && s.epoch == l.Epoch() - 1
    && s.auth == l.Before(l.Epoch()) && s.sendingCt2.Encodes(l.Ct2Msg(s.epoch))
  }

  ghost predicate StatesFit(l: Log, ek: State, ct: State)
    requires l.Ok()
  {
    && CtFits(l, ct)
    && (EkFits(l, ek) || (Behind(l, ek) && ct.NoHeaderReceived?))
  }

  ghost predicate SecretFits(l: Log, es: EpochSecret)
    requires l.Ok()
  {
    1 <= es.epoch <= l.Epoch() && l.At(es.epoch).Full? && es.secret == SecretOf(l.c, l.At(es.epoch), es.epoch)
  }

  ghost predicate Inv(l: Log, j: Joint) {
    && l.Ok()
    && var p := EkParty(l.Epoch());
       StatesFit(l, j.Of(p), j.Of(Other(p)))
       && (forall s <- j.net :: Fits(l, s.msg))
       && (forall s <- j.net | s.msg.epoch == l.Epoch() && s.msg.payload.Ct2? :: j.Of(Other(p)).Ct2Sampled?)
       && (forall es <- j.secrets :: SecretFits(l, es.es))
  }
}
