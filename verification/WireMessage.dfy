/** The wire form of a v1 message: version, epoch, key index, type and chunk. */
module WireMessage {
  import opened Words
  import opened Chunked
  import opened V1Machine

  const UINT64 := 0x1_0000_0000_0000_0000
  const UINT32 := 0x1_0000_0000
  const MAX_VARINT_BYTES := 10
  const VERSION_V1: byte := 1

  // ----- base-128 varints -----

  function Varint(v: nat): (b: Bytes)
    ensures |b| > 0
  {
    if v < 128 then [v] else [v % 128 + 128] + Varint(v / 128)
  }

  method AppendVarint(b: Bytes, value: nat) returns (out: Bytes)
    ensures out == b + Varint(value)
  {
    out := b;
    var v := value;
    while v >= 128
      invariant v >= 0 && out + Varint(v) == b + Varint(value)
    {
      out := out + [v % 128 + 128];
      v := v / 128;
    }
    out := out + [v];
  }

  function Pow128(i: nat): (p: nat)
    ensures p > 0
  {
    if i == 0 then 1 else 128 * Pow128(i - 1)
  }

  /** A seven-bit group at position `i` of a varint. */
  function Scaled(v: nat, i: nat): (n: nat) {
    v * Pow128(i)
  }

  /** One more byte of a varint, in 64 bits. */
  function Accumulate(val: nat, c: byte, i: nat): (v: nat) {
    (val + Scaled(c % 128, i)) % UINT64
  }

  /** The value with byte `i` of a varint starting at `at` and the bytes after it added in. */
  function VarintFrom(b: Bytes, at: nat, i: nat, val: nat): (r: Option<(nat, nat)>)
    requires i <= MAX_VARINT_BYTES && at + i <= |b|
    ensures r.Some? ==> at + i < r.value.1 <= |b|
    decreases MAX_VARINT_BYTES - i
  {
    if i == MAX_VARINT_BYTES || at + i == |b| then None
    else
      var c := b[at + i];
      var val' := Accumulate(val, c, i);
      if c < 128 then Some((val', at + i + 1)) else VarintFrom(b, at, i + 1, val')
  }

  /** A varint of at most ten bytes at an offset: its 64-bit value and where it ends. */
  function DecodeVarint(b: Bytes, at: nat): (r: Option<(nat, nat)>)
    ensures r.Some? ==> at < r.value.1 <= |b|
  {
    if at >= |b| then None else VarintFrom(b, at, 0, 0)
  }

  method ReadVarint(b: Bytes, at: nat) returns (r: Option<(nat, nat)>)
    ensures r == DecodeVarint(b, at)
  {
    if at >= |b| {
      return None;
    }
    hide Accumulate;
    var limit := if |b| - at < MAX_VARINT_BYTES then |b| - at else MAX_VARINT_BYTES;
    var val := 0;
    for i := 0 to limit
      invariant val >= 0 && DecodeVarint(b, at) == VarintFrom(b, at, i, val)
    {
      var c := b[at + i];
      val := Accumulate(val, c, i);
      if c < 128 {
        return Some((val, at + i + 1));
      }
    }
    return None;
  }

  lemma {:induction false} VarintBack(b: Bytes, at: nat, i: nat, val: nat, v: nat, rest: Bytes)
    requires i < MAX_VARINT_BYTES && at + i <= |b| && b[at + i..] == Varint(v) + rest
    requires Scaled(v, i) + val < UINT64 && (v == 0 ==> i == 0)
    ensures VarintFrom(b, at, i, val) == Some((val + Scaled(v, i), at + i + |Varint(v)|))
    decreases v
  {
    hide Scaled, VarintFrom;
    assert b[at + i] == (Varint(v) + rest)[0];
    Shift(v, i);
    VarintStep(b, at, i, val, v);
    if v >= 128 {
      LastByteFits(i, v);
      assert b[at + (i + 1)..] == b[at + i..][1..] == Varint(v / 128) + rest;
      VarintBack(b, at, i + 1, val + Scaled(v % 128, i), v / 128, rest);
    }
  }

  lemma VarintStep(b: Bytes, at: nat, i: nat, val: nat, v: nat)
    requires i < MAX_VARINT_BYTES && at + i < |b| && val + Scaled(v % 128, i) < UINT64
    requires b[at + i] == if v < 128 then v else v % 128 + 128
    ensures VarintFrom(b, at, i, val)
         == if v < 128 then Some((val + Scaled(v, i), at + i + 1))
            else VarintFrom(b, at, i + 1, val + Scaled(v % 128, i))
  {
    hide Scaled;
  }

  /** v * 128^i = (v mod 128) * 128^i + (v / 128) * 128^(i+1). */
  lemma Shift(v: nat, i: nat)
    ensures Scaled(v, i) == Scaled(v % 128, i) + Scaled(v / 128, i + 1)
  {
    var p := Pow128(i);
    assert v == v % 128 + v / 128 * 128;
    assert v * p == (v % 128) * p + (v / 128 * 128) * p;
    assert (v / 128 * 128) * p == v / 128 * (128 * p);
  }

  lemma LastByteFits(i: nat, v: nat)
    requires i < MAX_VARINT_BYTES && v >= 128 && Scaled(v, i) < UINT64
    ensures i + 1 < MAX_VARINT_BYTES
  {
    Pow128At9();
    assert v * Pow128(i) >= 128 * Pow128(i) by { Monotone(128, v, Pow128(i)); }
  }

  lemma Monotone(a: nat, b: nat, p: nat)
    requires a <= b
    ensures a * p <= b * p
  {
  }

  lemma Pow128At9()
    ensures Pow128(9) == 0x8000_0000_0000_0000
  {
    assert Pow128(4) == 0x1000_0000;
  }

  lemma VarintRoundTrip(pre: Bytes, v: nat, rest: Bytes)
    requires v < UINT64
    ensures DecodeVarint(pre + Varint(v) + rest, |pre|) == Some((v, |pre| + |Varint(v)|))
  {
    hide Varint, VarintFrom;
    var b := pre + Varint(v) + rest;
    assert b[|pre| + 0..] == Varint(v) + rest;
    assert Pow128(0) == 1;
    VarintBack(b, |pre|, 0, 0, v, rest);
  }

  // ----- messages -----

  function TypeOf(p: Payload): (t: byte) {
    match p
    case NoPayload => 0
    case Hdr(_) => 1
    case Ek(_) => 2
    case EkCt1Ack(_) => 3
    case Ct1Ack(_) => 4
    case Ct1(_) => 5
    case Ct2(_) => 6
  }

  function ChunkBytes(p: Payload): (b: Bytes) {
    match p
    case NoPayload => []
    case Ct1Ack(_) => []
    case Hdr(c) => Varint(c.index) + c.data
    case Ek(c) => Varint(c.index) + c.data
    case EkCt1Ack(c) => Varint(c.index) + c.data
    case Ct1(c) => Varint(c.index) + c.data
    case Ct2(c) => Varint(c.index) + c.data
  }

  function Serialize(m: Msg, index: nat): (b: Bytes)
    ensures |b| > 0 && b[0] == VERSION_V1
  {
    [VERSION_V1] + Varint(m.epoch) + Varint(index) + [TypeOf(m.payload)] + ChunkBytes(m.payload)
  }

  /** Version, epoch, index and the offset behind them; the empty message is version 0. */
  datatype Preamble = Preamble(version: byte, epoch: nat, index: nat, at: nat)

  function DecodePreamble(b: Bytes): (r: Option<Preamble>)
    ensures r.Some? ==> r.value.at <= |b| && r.value.index < UINT32
    ensures r.Some? && b != [] ==> r.value.version == b[0] && r.value.epoch > 0
    ensures r.Some? && b == [] ==> r.value.version == 0
  {
    if b == [] then Some(Preamble(0, 0, 0, 0))
    else
      match DecodeVarint(b, 1)
      case None => None
      case Some((epoch, at)) =>
        if epoch == 0 then None
        else
          match DecodeVarint(b, at)
          case None => None
          case Some((index, at')) => if index >= UINT32 then None else Some(Preamble(b[0], epoch, index, at'))
  }

  function DecodeChunk(b: Bytes, at: nat): (r: Option<(Chunk, nat)>)
    ensures r.Some? ==> WellFormed(r.value.0)
  {
    match DecodeVarint(b, at)
    case None => None
    case Some((idx, n)) =>
      if idx >= INDICES || n + CHUNK_SIZE > |b| then None
      else Some((Chunk(idx, b[n..n + CHUNK_SIZE]), n + CHUNK_SIZE))
  }

  function WithChunk(t: byte, c: Chunk): (p: Payload)
    requires t in {1, 2, 3, 5, 6}
  {
    if t == 1 then Hdr(c) else if t == 2 then Ek(c) else if t == 3 then EkCt1Ack(c)
    else if t == 5 then Ct1(c) else Ct2(c)
  }

  /** The message, its key index and the number of bytes read; trailing bytes are allowed. */
  function Deserialize(b: Bytes): (r: Option<(Msg, nat, nat)>)
    ensures r.Some? ==> MsgOk(r.value.0) && r.value.0.epoch > 0 && r.value.1 < UINT32
  {
    if b == [] || b[0] != VERSION_V1 then None
    else
      match DecodePreamble(b)
      case None => None
      case Some(p) =>
        if p.at >= |b| then None
        else
          var t, at := b[p.at], p.at + 1;
          if t == 0 then Some((Msg(p.epoch, NoPayload), p.index, at))
          else if t == 4 then Some((Msg(p.epoch, Ct1Ack(true)), p.index, at))
          else if t in {1, 2, 3, 5, 6} then
            match DecodeChunk(b, at)
            case None => None
            case Some((c, n)) => Some((Msg(p.epoch, WithChunk(t, c)), p.index, n))
          else None
  }

  lemma PreambleRoundTrip(v: byte, epoch: nat, index: nat, rest: Bytes)
    requires 0 < epoch < UINT64 && index < UINT32
    ensures var b := [v] + Varint(epoch) + Varint(index) + rest;
      DecodePreamble(b) == Some(Preamble(v, epoch, index, 1 + |Varint(epoch)| + |Varint(index)|))
  {
    hide Varint, DecodeVarint;
    var b := [v] + Varint(epoch) + Varint(index) + rest;
    assert b == [v] + Varint(epoch) + (Varint(index) + rest);
    VarintRoundTrip([v], epoch, Varint(index) + rest);
    var pre := [v] + Varint(epoch);
    assert b == pre + Varint(index) + rest;
    VarintRoundTrip(pre, index, rest);
  }

  /** Whatever `Serialize` writes, followed by anything, `Deserialize` reads back. */
  lemma MessageRoundTrip(m: Msg, index: nat, trailing: Bytes)
    requires MsgOk(m) && 0 < m.epoch < UINT64 && index < UINT32 && m.payload != Ct1Ack(false)
    ensures Deserialize(Serialize(m, index) + trailing) == Some((m, index, |Serialize(m, index)|))
    ensures DecodePreamble(Serialize(m, index) + trailing).value.version == VERSION_V1
    ensures DecodePreamble(Serialize(m, index) + trailing).Some?
  {
    hide Varint, DecodeVarint, DecodePreamble;
    var head := [VERSION_V1] + Varint(m.epoch) + Varint(index);
    var body := [TypeOf(m.payload)] + ChunkBytes(m.payload) + trailing;
    var b := Serialize(m, index) + trailing;
    assert b == head + body;
    PreambleRoundTrip(VERSION_V1, m.epoch, index, body);
    var pre := head + [TypeOf(m.payload)];
    assert b == pre + ChunkBytes(m.payload) + trailing;
    assert b[|head|] == TypeOf(m.payload);
    if ChunkBytes(m.payload) != [] {
      ChunkRoundTrip(pre, m.payload, trailing);
    } else if !m.payload.NoPayload? && !m.payload.Ct1Ack? {
      ChunkNotEmpty(m.payload);
    }
  }

  lemma ChunkNotEmpty(p: Payload)
    requires !p.NoPayload? && !p.Ct1Ack?
    ensures ChunkBytes(p) != []
  {
  }

  lemma ChunkRoundTrip(pre: Bytes, p: Payload, trailing: Bytes)
    requires !p.NoPayload? && !p.Ct1Ack? && MsgOk(Msg(1, p))
    ensures DecodeChunk(pre + ChunkBytes(p) + trailing, |pre|) == Some((p.chunk, |pre| + |ChunkBytes(p)|))
  {
    hide Varint, DecodeVarint;
    var v, d := Varint(p.chunk.index), p.chunk.data;
    var b := pre + ChunkBytes(p) + trailing;
    assert b == pre + v + (d + trailing);
    VarintRoundTrip(pre, p.chunk.index, d + trailing);
    var n := |pre| + |v|;
    assert b[n..n + CHUNK_SIZE] == d;
  }
}
