/**
 The SPQR v1 machine: eleven states in two roles. One role sends a KEM header and an
 encapsulation key, the other answers with the two halves of a ciphertext; when an
 exchange completes the epoch advances and the roles swap.
 */
module V1Machine {
  import opened Words
  import opened Chunked
  import opened Streams
  import opened Primitives
  import opened Authenticator

  datatype Error =
    | EpochOutOfRange | InvalidHdrMac | InvalidCtMac | ErroneousData
    | EncapsulateFailed | DecapsulateFailed | OddLength

  datatype Result<+T> = Ok(value: T) | Err(error: Error) {
    predicate IsFailure() { Err? }
    function PropagateFailure<U>(): Result<U> requires Err? { Err(error) }
    function Extract(): T requires Ok? { value }
  }

  datatype Payload =
    | NoPayload
    | Hdr(chunk: Chunk)
    | Ek(chunk: Chunk)
    | EkCt1Ack(chunk: Chunk)
    | Ct1Ack(ack: bool)
    | Ct1(chunk: Chunk)
    | Ct2(chunk: Chunk)

  datatype Msg = Msg(epoch: nat, payload: Payload)

  datatype EpochSecret = EpochSecret(epoch: nat, secret: Bytes)

  datatype State =
    // the role that sends the encapsulation key
    | KeysUnsampled(epoch: nat, auth: Auth)
    | KeysSampled(epoch: nat, auth: Auth, ek: Bytes, dk: Bytes, sendingHdr: Stream)
    | HeaderSent(epoch: nat, auth: Auth, ek: Bytes, dk: Bytes, sendingEk: Stream, recvingCt1: Received)
    | Ct1Received(epoch: nat, auth: Auth, ek: Bytes, dk: Bytes, ct1: Bytes, sendingEk: Stream)
    | EkSentCt1Received(epoch: nat, auth: Auth, dk: Bytes, ct1: Bytes, recvingCt2: Received)
    // the role that sends the ciphertext
    | NoHeaderReceived(epoch: nat, auth: Auth, recvingHdr: Received)
    | HeaderReceived(epoch: nat, auth: Auth, hdr: Bytes, recvingEk: Received)
    | Ct1Sampled(epoch: nat, auth: Auth, hdr: Bytes, es: Bytes, ct1: Bytes, sendingCt1: Stream, recvingEk: Received)
    | EkReceivedCt1Sampled(epoch: nat, auth: Auth, es: Bytes, ek: Bytes, ct1: Bytes, sendingCt1: Stream)
    | Ct1Acknowledged(epoch: nat, auth: Auth, hdr: Bytes, es: Bytes, ct1: Bytes, recvingEk: Received)
    | Ct2Sampled(epoch: nat, auth: Auth, sendingCt2: Stream)
  {
    /** Streams and decoders have sixteen rows. */
    predicate Wf() {
      match this
      case KeysUnsampled(_, _) => true
      case KeysSampled(_, _, _, _, s) => s.Ok()
      case HeaderSent(_, _, _, _, s, d) => s.Ok() && d.Ok()
      case Ct1Received(_, _, _, _, _, s) => s.Ok()
      case EkSentCt1Received(_, _, _, _, d) => d.Ok()
      case NoHeaderReceived(_, _, d) => d.Ok()
      case HeaderReceived(_, _, _, d) => d.Ok()
      case Ct1Sampled(_, _, _, _, _, s, d) => s.Ok() && d.Ok()
      case EkReceivedCt1Sampled(_, _, _, _, _, s) => s.Ok()
      case Ct1Acknowledged(_, _, _, _, _, d) => d.Ok()
      case Ct2Sampled(_, _, s) => s.Ok()
    }

    predicate SendsEk() {
      KeysUnsampled? || KeysSampled? || HeaderSent? || Ct1Received? || EkSentCt1Received?
    }
  }

  predicate MsgOk(m: Msg) {
    match m.payload
    case Hdr(c) => WellFormed(c)
    case Ek(c) => WellFormed(c)
    case EkCt1Ack(c) => WellFormed(c)
    case Ct1(c) => WellFormed(c)
    case Ct2(c) => WellFormed(c)
    case _ => true
  }

  datatype SendStep = SendStep(state: State, msg: Msg, key: Option<EpochSecret>)

  datatype RecvStep = RecvStep(state: State, key: Option<EpochSecret>)

  function NewSendEk(c: Crypto, authKey: Bytes): (s: State)
    ensures s.Wf()
  {
    KeysUnsampled(1, NewAuth(c, authKey, 1))
  }

  function NewSendCt(c: Crypto, authKey: Bytes): (s: State)
    ensures s.Wf()
  {
    NoHeaderReceived(1, NewAuth(c, authKey, 1), NewReceived(PK1_SIZE + MAC_SIZE))
  }

  /** The epoch secret both sides derive from the raw KEM secret. */
  function SckaKey(c: Crypto, ss: Bytes, epoch: nat): (k: Bytes) {
    c.hkdf(ZeroSalt, ss, SckaKeyInfo(epoch), 32)
  }

  function NewStream(msg: Bytes): (s: Result<Stream>)
    ensures s.Ok? <==> |msg| % 2 == 0
    ensures s.Ok? ==> s.value == StreamOf(msg)
  {
    if |msg| % 2 != 0 then Err(OddLength) else Ok(StreamOf(msg))
  }

  // ----- steps of the key-sending role -----

  /** Generates the key, MACs the header and sends the first header chunk. */
  function SendFirstHdr(c: Crypto, s: State, seed: Bytes): (r: Result<SendStep>)
    requires s.KeysUnsampled?
    ensures r.Ok? ==> r.value.state.Wf()
  {
    var keys := c.keygen(seed);
    var mac := MacHdr(c, s.auth, s.epoch, keys.pk1);
    var enc :- NewStream(keys.pk1 + mac);
    Ok(SendStep(KeysSampled(s.epoch, s.auth, keys.pk2, keys.dk, enc.Next()),
                Msg(s.epoch, Hdr(enc.Chunk())), None))
  }

  /** The first ct1 chunk starts the ct1 decoder and switches from header to key chunks. */
  function RecvFirstCt1(s: State, chunk: Chunk): (r: Result<State>)
    requires s.KeysSampled? && WellFormed(chunk)
    ensures r.Ok? ==> r.value.Wf()
  {
    var enc :- NewStream(s.ek);
    Ok(HeaderSent(s.epoch, s.auth, s.ek, s.dk, enc, NewReceived(CT1_SIZE).Add(chunk)))
  }

  function RecvCt1(s: State, chunk: Chunk): (r: State)
    requires s.HeaderSent? && s.Wf() && WellFormed(chunk)
    ensures r.Wf()
  {
    var d := s.recvingCt1.Add(chunk);
    match d.Decoded()
    case None => s.(recvingCt1 := d)
    case Some(ct1) => Ct1Received(s.epoch, s.auth, s.ek, s.dk, ct1, s.sendingEk)
  }

  function RecvFirstCt2(s: State, chunk: Chunk): (r: State)
    requires s.Ct1Received? && WellFormed(chunk)
    ensures r.Wf()
  {
    EkSentCt1Received(s.epoch, s.auth, s.dk, s.ct1, NewReceived(CT2_SIZE + MAC_SIZE).Add(chunk))
  }

  /**
   Folds a ct2 chunk; once ct2 and its MAC are complete, decapsulates, ratchets the
   authenticator, checks the MAC over both halves and flips to the other role.
   */
  function RecvCt2(c: Crypto, s: State, chunk: Chunk): (r: Result<RecvStep>)
    requires s.EkSentCt1Received? && s.Wf() && WellFormed(chunk)
    ensures r.Ok? ==> r.value.state.Wf()
  {
    var d := s.recvingCt2.Add(chunk);
    match d.Decoded()
    case None => Ok(RecvStep(s.(recvingCt2 := d), None))
    case Some(decoded) =>
      var ct2, mac := Slice(decoded, 0, CT2_SIZE), Slice(decoded, CT2_SIZE, |decoded|);
      match c.decaps(s.dk, s.ct1, ct2)
      case None => Err(DecapsulateFailed)
      case Some(ss) =>
        var secret := SckaKey(c, ss, s.epoch);
        var auth := Update(c, s.auth, s.epoch, secret);
        if mac != MacCt(c, auth, s.epoch, s.ct1 + ct2) then Err(InvalidCtMac)
        else Ok(RecvStep(NoHeaderReceived(s.epoch + 1, auth, NewReceived(PK1_SIZE + MAC_SIZE)),
                         Some(EpochSecret(s.epoch, secret))))
  }

  // ----- steps of the ciphertext-sending role -----

  function RecvHdr(c: Crypto, s: State, chunk: Chunk): (r: Result<State>)
    requires s.NoHeaderReceived? && s.Wf() && WellFormed(chunk)
    ensures r.Ok? ==> r.value.Wf()
  {
    var d := s.recvingHdr.Add(chunk);
    match d.Decoded()
    case None => Ok(s.(recvingHdr := d))
    case Some(decoded) =>
      var hdr, mac := Slice(decoded, 0, PK1_SIZE), Slice(decoded, PK1_SIZE, |decoded|);
      if mac != MacHdr(c, s.auth, s.epoch, hdr) then Err(InvalidHdrMac)
      else Ok(HeaderReceived(s.epoch, s.auth, hdr, NewReceived(PK2_SIZE)))
  }

  /** Encapsulates to the header, which already fixes the epoch secret. */
  function SendFirstCt1(c: Crypto, s: State, m: Bytes): (r: Result<SendStep>)
    requires s.HeaderReceived? && s.Wf()
    ensures r.Ok? ==> r.value.state.Wf()
  {
    var p := c.encaps1(s.hdr, m);
    var secret := SckaKey(c, p.ss, s.epoch);
    var auth := Update(c, s.auth, s.epoch, secret);
    var enc :- NewStream(p.ct1);
    Ok(SendStep(Ct1Sampled(s.epoch, auth, s.hdr, p.es, p.ct1, enc.Next(), s.recvingEk),
                Msg(s.epoch, Ct1(enc.Chunk())), Some(EpochSecret(s.epoch, secret))))
  }

  /** Finishes the ciphertext with the received key and starts sending ct2 and its MAC. */
  function ToCt2Sampled(c: Crypto, epoch: nat, auth: Auth, es: Bytes, ct1: Bytes, ek: Bytes): (r: Result<State>)
    ensures r.Ok? ==> r.value.Wf()
  {
    match c.encaps2(es, ek)
    case None => Err(EncapsulateFailed)
    case Some(ct2) =>
      var enc :- NewStream(ct2 + MacCt(c, auth, epoch, ct1 + ct2));
      Ok(Ct2Sampled(epoch, auth, enc))
  }

  /** A key chunk while ct1 is still being sent; the two completions may come in either order. */
  function RecvEkSampled(c: Crypto, s: State, chunk: Chunk, ack: bool): (r: Result<State>)
    requires s.Ct1Sampled? && s.Wf() && WellFormed(chunk)
    ensures r.Ok? ==> r.value.Wf()
  {
    var d := s.recvingEk.Add(chunk);
    match d.Decoded()
    case None =>
      if ack then Ok(Ct1Acknowledged(s.epoch, s.auth, s.hdr, s.es, s.ct1, d))
      else Ok(Ct1Sampled(s.epoch, s.auth, s.hdr, s.es, s.ct1, s.sendingCt1, d))
    case Some(ek) =>
      if !c.validate(s.hdr, ek) then Err(ErroneousData)
      else if ack then ToCt2Sampled(c, s.epoch, s.auth, s.es, s.ct1, ek)
      else Ok(EkReceivedCt1Sampled(s.epoch, s.auth, s.es, ek, s.ct1, s.sendingCt1))
  }

  function RecvEkAcknowledged(c: Crypto, s: State, chunk: Chunk): (r: Result<State>)
    requires s.Ct1Acknowledged? && s.Wf() && WellFormed(chunk)
    ensures r.Ok? ==> r.value.Wf()
  {
    var d := s.recvingEk.Add(chunk);
    match d.Decoded()
    case None => Ok(Ct1Acknowledged(s.epoch, s.auth, s.hdr, s.es, s.ct1, d))
    case Some(ek) =>
      if !c.validate(s.hdr, ek) then Err(ErroneousData)
      else ToCt2Sampled(c, s.epoch, s.auth, s.es, s.ct1, ek)
  }

  // ----- dispatch -----

  /** One outbound step; `rnd` is the seed or message a sampling state draws. */
  function Send(c: Crypto, s: State, rnd: Bytes): (r: Result<SendStep>)
    requires s.Wf()
    ensures r.Ok? ==> r.value.state.Wf() && r.value.msg.epoch == s.epoch
  {
    match s
    case KeysUnsampled(_, _) => SendFirstHdr(c, s, rnd)
    case KeysSampled(e, a, ek, dk, enc) =>
      Ok(SendStep(KeysSampled(e, a, ek, dk, enc.Next()), Msg(e, Hdr(enc.Chunk())), None))
    case HeaderSent(e, a, ek, dk, enc, d) =>
      Ok(SendStep(HeaderSent(e, a, ek, dk, enc.Next(), d), Msg(e, Ek(enc.Chunk())), None))
    case Ct1Received(e, a, ek, dk, ct1, enc) =>
      Ok(SendStep(Ct1Received(e, a, ek, dk, ct1, enc.Next()), Msg(e, EkCt1Ack(enc.Chunk())), None))
    case EkSentCt1Received(e, _, _, _, _) => Ok(SendStep(s, Msg(e, Ct1Ack(true)), None))
    case NoHeaderReceived(e, _, _) => Ok(SendStep(s, Msg(e, NoPayload), None))
    case HeaderReceived(_, _, _, _) => SendFirstCt1(c, s, rnd)
    case Ct1Sampled(e, a, hdr, es, ct1, enc, d) =>
      Ok(SendStep(Ct1Sampled(e, a, hdr, es, ct1, enc.Next(), d), Msg(e, Ct1(enc.Chunk())), None))
    case EkReceivedCt1Sampled(e, a, es, ek, ct1, enc) =>
      Ok(SendStep(EkReceivedCt1Sampled(e, a, es, ek, ct1, enc.Next()), Msg(e, Ct1(enc.Chunk())), None))
    case Ct1Acknowledged(e, _, _, _, _, _) => Ok(SendStep(s, Msg(e, NoPayload), None))
    case Ct2Sampled(e, a, enc) =>
      Ok(SendStep(Ct2Sampled(e, a, enc.Next()), Msg(e, Ct2(enc.Chunk())), None))
  }

  function Keyless(r: Result<State>): (k: Result<RecvStep>) {
    match r
    case Ok(s) => Ok(RecvStep(s, None))
    case Err(e) => Err(e)
  }

  /** An equal-epoch message handled by state and payload kind; everything else is ignored. */
  function RecvCurrent(c: Crypto, s: State, msg: Msg): (r: Result<RecvStep>)
    requires s.Wf() && MsgOk(msg)
    ensures r.Ok? ==> r.value.state.Wf()
  {
    match (s, msg.payload)
    case (KeysSampled(_, _, _, _, _), Ct1(chunk)) => Keyless(RecvFirstCt1(s, chunk))
    case (HeaderSent(_, _, _, _, _, _), Ct1(chunk)) => Ok(RecvStep(RecvCt1(s, chunk), None))
    case (Ct1Received(_, _, _, _, _, _), Ct2(chunk)) => Ok(RecvStep(RecvFirstCt2(s, chunk), None))
    case (EkSentCt1Received(_, _, _, _, _), Ct2(chunk)) => RecvCt2(c, s, chunk)
    case (NoHeaderReceived(_, _, _), Hdr(chunk)) => Keyless(RecvHdr(c, s, chunk))
    case (Ct1Sampled(_, _, _, _, _, _, _), Ek(chunk)) => Keyless(RecvEkSampled(c, s, chunk, false))
    case (Ct1Sampled(_, _, _, _, _, _, _), EkCt1Ack(chunk)) => Keyless(RecvEkSampled(c, s, chunk, true))
    case (EkReceivedCt1Sampled(e, a, es, ek, ct1, _), EkCt1Ack(_)) => Keyless(ToCt2Sampled(c, e, a, es, ct1, ek))
    case (EkReceivedCt1Sampled(e, a, es, ek, ct1, _), Ct1Ack(true)) => Keyless(ToCt2Sampled(c, e, a, es, ct1, ek))
    case (Ct1Acknowledged(_, _, _, _, _, _), Ek(chunk)) => Keyless(RecvEkAcknowledged(c, s, chunk))
    case (Ct1Acknowledged(_, _, _, _, _, _), EkCt1Ack(chunk)) => Keyless(RecvEkAcknowledged(c, s, chunk))
    case _ => Ok(RecvStep(s, None))
  }

  /** Stale messages are ignored; the next epoch is accepted only after ct2 was sampled. */
  function Recv(c: Crypto, s: State, msg: Msg): (r: Result<RecvStep>)
    requires s.Wf() && MsgOk(msg)
    ensures r.Ok? ==> r.value.state.Wf()
  {
    if msg.epoch > s.epoch then
      if s.Ct2Sampled? && msg.epoch == s.epoch + 1
      then Ok(RecvStep(KeysUnsampled(msg.epoch, s.auth), None))
      else Err(EpochOutOfRange)
    else if msg.epoch == s.epoch then RecvCurrent(c, s, msg)
    else Ok(RecvStep(s, None))
  }
}
