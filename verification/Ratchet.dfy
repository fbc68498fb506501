/**
 Orchestration: one send or receive drives the v1 machine one step, folds a completed
 epoch secret into the key chain, draws the message key, and negotiates the version.
 */
module Ratchet {
  import opened Words
  import opened Primitives
  import V1 = V1Machine
  import VC = V1Codec
  import KC = KeyChain
  import opened WireMessage

  datatype Negotiation = Negotiation(
    authKey: Bytes, direction: KC.Direction, minVersion: int, chainParams: Option<KC.Params>)

  /** A ratchet state with its machine in stored form; without a machine it is version 0. */
  datatype State = State(inner: Option<VC.Pb>, vn: Option<Negotiation>, chain: Option<KC.Chain>) {
    function Version(): (v: nat) {
      if inner.Some? then 1 else 0
    }
  }

  const EMPTY := State(None, None, None)

  datatype Error =
    | VersionMismatch | MinimumVersion | ChainNotAvailable | MsgDecode | StateDecode
    | Machine(e: V1.Error) | KeyChainError(k: KC.Error)

  datatype Result<+T> = Ok(value: T) | Err(error: Error) {
    predicate IsFailure() { Err? }
    function PropagateFailure<U>(): Result<U> requires Err? { Err(error) }
    function Extract(): T requires Ok? { value }
  }

  datatype SendResult = SendResult(state: State, msg: Bytes, key: Option<Bytes>)

  datatype RecvResult = RecvResult(state: State, key: Option<Bytes>)

  datatype Params = Params(
    direction: KC.Direction, version: nat, minVersion: int, authKey: Bytes, chainParams: Option<KC.Params>)

  function InitInner(c: Crypto, version: nat, d: KC.Direction, authKey: Bytes): (s: Option<VC.Pb>) {
    if version == 0 then None
    else if d.A2B? then Some(VC.ToProto(V1.NewSendEk(c, authKey)))
    else Some(VC.ToProto(V1.NewSendCt(c, authKey)))
  }

  function InitialState(c: Crypto, p: Params): (s: State) {
    if p.version == 0 then EMPTY
    else State(InitInner(c, p.version, p.direction, p.authKey),
               Some(Negotiation(p.authKey, p.direction, p.minVersion, p.chainParams)), None)
  }

  function ChainFromNegotiation(c: Crypto, vn: Negotiation): (r: Result<KC.Chain>) {
    match vn.chainParams
    case None => Err(ChainNotAvailable)
    case Some(p) => Ok(KC.NewChain(c, vn.authKey, vn.direction, p))
  }

  /** The stored chain as the reader gives it back. */
  function ReadChain(ch: KC.Chain): (r: Result<KC.Chain>) {
    if KC.Readable(ch.links) then Ok(ch) else Err(KeyChainError(KC.ChainDecode))
  }

  function ChainFrom(c: Crypto, st: State): (r: Result<KC.Chain>) {
    match (st.chain, st.vn)
    case (Some(ch), _) => ReadChain(ch)
    case (None, None) => Err(ChainNotAvailable)
    case (None, Some(vn)) => ChainFromNegotiation(c, vn)
  }

  /** No chain yet while negotiation at minimum version 0 is open. */
  function ResolveSendChain(c: Crypto, st: State): (r: Result<Option<KC.Chain>>) {
    match (st.chain, st.vn)
    case (Some(ch), _) =>
      var ch' :- ReadChain(ch);
      Ok(Some(ch'))
    case (None, None) => Err(ChainNotAvailable)
    case (None, Some(vn)) =>
      if vn.minVersion > 0 then
        var ch :- ChainFromNegotiation(c, vn);
        Ok(Some(ch))
      else Ok(None)
  }

  /** The chain epoch that keys a message of the given machine epoch, in 64 bits. */
  function ChainEpoch(epoch: nat): (e: nat) {
    if epoch == 0 then UINT64 - 1 else epoch - 1
  }

  function NonEmpty(k: Bytes): (r: Option<Bytes>) {
    if k == [] then None else Some(k)
  }

  function FoldSecret(c: Crypto, ch: KC.Chain, key: Option<V1.EpochSecret>): (r: Result<KC.Chain>) {
    match key
    case None => Ok(ch)
    case Some(es) =>
      match KC.AddEpoch(c, ch, es.epoch, es.secret)
      case Ok(ch') => Ok(ch')
      case Err(e) => Err(KeyChainError(e))
  }

  /** The key side of a send: the secret folded in, then the next send key of the epoch. */
  function DrawSendKey(c: Crypto, ch: KC.Chain, step: V1.SendStep): (r: Result<(KC.Chain, nat, Bytes)>)
    ensures r.Ok? ==> r.value.1 < UINT32
  {
    var ch1 :- FoldSecret(c, ch, step.key);
    match KC.SendKey(c, ch1, ChainEpoch(step.msg.epoch))
    case Ok((ch2, idx, k)) => Ok((ch2, idx, k))
    case Err(e) => Err(KeyChainError(e))
  }

  function Send(c: Crypto, st: State, rnd: Bytes): (r: Result<SendResult>) {
    if st.inner.None? then Ok(SendResult(EMPTY, [], None))
    else
      match VC.FromProto(st.inner.value)
      case None => Err(StateDecode)
      case Some(s) =>
        match V1.Send(c, s, rnd)
        case Err(e) => Err(Machine(e))
        case Ok(step) => SendWith(c, st, step)
  }

  /** The key side of a send, and the new state, once the machine has stepped. */
  function SendWith(c: Crypto, st: State, step: V1.SendStep): (r: Result<SendResult>) {
    var ch :- ResolveSendChain(c, st);
    var inner := Some(VC.ToProto(step.state));
    match ch
    case None =>
      if step.key.Some? then Err(ChainNotAvailable)
      else Ok(SendResult(State(inner, st.vn, None), Serialize(step.msg, 0), None))
    case Some(ch) =>
      var (ch', idx, key) :- DrawSendKey(c, ch, step);
      Ok(SendResult(State(inner, st.vn, Some(ch')), Serialize(step.msg, idx), NonEmpty(key)))
  }

  /** The state against which a message of the given version is processed. */
  function NegotiateRecv(c: Crypto, st: State, version: byte): (r: Result<State>)
    ensures r.Ok? ==> r.value == st || r.value.inner.None?
  {
    var ours := st.Version();
    var minimum, negotiating :=
      if st.vn.Some? then st.vn.value.minVersion % 256 else ours, st.vn.Some? || ours == 0;
    if version < minimum then Err(MinimumVersion)
    else if version != ours && !negotiating then Err(VersionMismatch)
    else if ours == 0 || version >= ours then Ok(st)
    else
      var ch :- ChainFrom(c, st);
      Ok(State(None, None, Some(ch)))
  }

  function Recv(c: Crypto, st: State, msg: Bytes): (r: Result<RecvResult>) {
    match DecodePreamble(msg)
    case None => Err(MsgDecode)
    case Some(pre) =>
      var st1 :- NegotiateRecv(c, st, pre.version);
      if st1.inner.None? then Ok(RecvResult(EMPTY, None))
      else if pre.version as nat > st1.Version() then
        var ch :- ChainFrom(c, st1);
        match KC.RecvKey(c, ch, 0, pre.index)
        case Err(e) => Err(KeyChainError(e))
        case Ok((ch', key)) => Ok(RecvResult(st1.(chain := Some(ch')), Some(key)))
      else RecvV1(c, st1, msg)
  }

  /** A message of our own version: machine step, epoch secret, receive key; negotiation ends. */
  function RecvV1(c: Crypto, st: State, msg: Bytes): (r: Result<RecvResult>)
    requires st.inner.Some?
    ensures r.Ok? ==> r.value.state.inner.Some? && r.value.state.vn.None? && r.value.state.chain.Some?
  {
    match Deserialize(msg)
    case None => Err(MsgDecode)
    case Some((m, index, _)) =>
      match VC.FromProto(st.inner.value)
      case None => Err(StateDecode)
      case Some(s) =>
        match V1.Recv(c, s, m)
        case Err(e) => Err(Machine(e))
        case Ok(step) =>
          var ch :- ChainFrom(c, st);
          var ch1 :- FoldSecret(c, ch, step.key);
          match KC.RecvKey(c, ch1, ChainEpoch(m.epoch), index)
          case Err(e) => Err(KeyChainError(e))
          case Ok((ch2, key)) =>
            Ok(RecvResult(State(Some(VC.ToProto(step.state)), None, Some(ch2)), NonEmpty(key)))
  }
}
