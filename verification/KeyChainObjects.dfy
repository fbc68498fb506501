/**
 The mutable objects of the key chain, proved against the functions of `KeyChain`: the
 history packed into 36-byte records, one direction of an epoch, and the chain itself.
 */
module KeyChainObjects {
  import opened Words
  import opened Primitives
  import opened KeyChain

  const ENTRY_SIZE := 36
  const KEY_LEN := 32

  // ----- big-endian records -----

  function PutUint32(n: uint32): (b: Bytes)
    ensures |b| == 4
  {
    [n / 0x100_0000, n / 0x1_0000 % 256, n / 0x100 % 256, n % 256]
  }

  function GetUint32(b: Bytes): (n: uint32)
    requires |b| == 4
  {
    ((b[0] as int * 256 + b[1]) * 256 + b[2]) * 256 + b[3]
  }

  lemma Uint32RoundTrip(n: uint32)
    ensures GetUint32(PutUint32(n)) == n
  {
    assert n / 0x100 == n / 0x1_0000 * 256 + n / 0x100 % 256;
    assert n / 0x1_0000 == n / 0x100_0000 * 256 + n / 0x1_0000 % 256;
  }

  /** Byte-string comparison, first difference decides. */
  predicate Greater(a: Bytes, b: Bytes)
    requires |a| == |b|
  {
    a != [] && (a[0] > b[0] || (a[0] == b[0] && Greater(a[1..], b[1..])))
  }

  /** On four big-endian bytes the string order is the numeric order. */
  lemma GreaterIsNumeric(a: Bytes, b: Bytes)
    requires |a| == |b| == 4
    ensures Greater(a, b) <==> GetUint32(a) > GetUint32(b)
  {
    assert Greater(a, b) <==> (a[0] > b[0] || (a[0] == b[0] && Greater(a[1..], b[1..])));
    assert Greater(a[1..], b[1..]) <==> (a[1] > b[1] || (a[1] == b[1] && Greater(a[1..][1..], b[1..][1..])));
    assert a[1..][1..] == a[2..] && b[1..][1..] == b[2..];
    assert Greater(a[2..], b[2..]) <==> (a[2] > b[2] || (a[2] == b[2] && Greater(a[2..][1..], b[2..][1..])));
    assert a[2..][1..] == a[3..] && b[2..][1..] == b[3..];
    assert Greater(a[3..], b[3..]) <==> a[3] > b[3];
  }

  lemma SameIndexBytes(a: Bytes, b: Bytes)
    requires |a| == |b| == 4
    ensures a == b <==> GetUint32(a) == GetUint32(b)
  {
    if GetUint32(a) == GetUint32(b) {
      assert a[0] == b[0] && a[1] == b[1] && a[2] == b[2] && a[3] == b[3];
    }
  }

  function EntryAt(data: Bytes, k: nat): (e: Entry)
    requires ENTRY_SIZE * (k + 1) <= |data|
  {
    var i := ENTRY_SIZE * k;
    Entry(GetUint32(data[i..i + 4]), data[i + 4..i + ENTRY_SIZE])
  }

  function Entries(data: Bytes): (h: seq<Entry>)
    requires |data| % ENTRY_SIZE == 0
    ensures |h| == |data| / ENTRY_SIZE
  {
    seq(|data| / ENTRY_SIZE, k requires 0 <= k < |data| / ENTRY_SIZE => EntryAt(data, k))
  }

  class KeyHistory {
    var data: Bytes

    ghost predicate Valid()
      reads this
    {
      |data| % ENTRY_SIZE == 0
    }

    function Model(): (h: seq<Entry>)
      requires Valid()
      reads this
    {
      Entries(data)
    }

    constructor ()
      ensures Valid() && Model() == []
    {
      data := [];
    }

    method Append(idx: uint32, key: Bytes)
      requires Valid() && |key| == KEY_LEN
      modifies this
      ensures Valid() && Model() == old(Model()) + [Entry(idx, key)]
    {
      hide PutUint32, GetUint32;
      ghost var before := data;
      data := data + PutUint32(idx);
      data := data + key;
      Uint32RoundTrip(idx);
      var n := |before|;
      assert data[n..n + 4] == PutUint32(idx) && data[n + 4..n + ENTRY_SIZE] == key;
      forall k | 0 <= k < n / ENTRY_SIZE ensures EntryAt(data, k) == EntryAt(before, k) {
        var i := ENTRY_SIZE * k;
        assert data[i..i + 4] == before[i..i + 4];
        assert data[i + 4..i + ENTRY_SIZE] == before[i + 4..i + ENTRY_SIZE];
      }
    }

    method Clear()
      modifies this
      ensures Valid() && Model() == []
    {
      data := data[..0];
    }

    /** Removes the record at a byte offset by moving the last record there. */
    method Remove(i: nat)
      requires Valid() && i % ENTRY_SIZE == 0 && i < |data|
      modifies this
      ensures Valid() && Model() == SwapRemove(old(Model()), i / ENTRY_SIZE)
    {
      hide GetUint32;
      ghost var before := data;
      var newEnd := |data| - ENTRY_SIZE;
      if i + ENTRY_SIZE < |data| {
        data := data[..i] + data[newEnd..] + data[i + ENTRY_SIZE..];
      }
      data := data[..newEnd];
      RemoveIs(before, data, i / ENTRY_SIZE);
    }

    /** Drops records older than the window once the history has grown past the trim size. */
    method Collect(currentKey: uint32, maxOoo: uint32)
      requires Valid()
      modifies this
      ensures Valid() && Model() == Gc(old(Model()), currentKey, maxOoo)
    {
      hide PutUint32, GetUint32, Greater, SwapRemove, Entries;
      if |data| < TrimSize(maxOoo) * ENTRY_SIZE {
        return;
      }
      if currentKey < maxOoo {
        return;
      }
      var horizon := currentKey - maxOoo;
      var horizonBE := PutUint32(horizon);
      Uint32RoundTrip(horizon);
      var i := 0;
      while i < |data|
        invariant Valid() && i % ENTRY_SIZE == 0 && 0 <= i <= |data|
        invariant DropBelow(Model(), i / ENTRY_SIZE, horizon) == DropBelow(old(Model()), 0, horizon)
        decreases |data| - i
      {
        GreaterIsNumeric(horizonBE, data[i..i + 4]);
        EntryIs(data, i / ENTRY_SIZE);
        if Greater(horizonBE, data[i..i + 4]) {
          Remove(i);
        } else {
          i := i + ENTRY_SIZE;
        }
      }
    }

    /** Pops the key at an index, unless it is too old or not there. */
    method Pop(at: uint32, currentCtr: uint32, maxOoo: uint32) returns (r: Result<Bytes>)
      requires Valid()
      modifies this
      ensures Valid()
      ensures match Get(old(Model()), at, currentCtr, maxOoo)
        case Err(e) => r == Err(e) && data == old(data)
        case Ok((k, rest)) => r == Ok(k) && Model() == rest
    {
      hide PutUint32, GetUint32, SwapRemove, Entries;
      if (at + maxOoo) % UINT32 < currentCtr {
        return Err(KeyTrimmed);
      }
      var wantBE := PutUint32(at);
      Uint32RoundTrip(at);
      var i := 0;
      while i < |data|
        invariant i % ENTRY_SIZE == 0 && 0 <= i <= |data| && data == old(data)
        invariant forall k | 0 <= k < i / ENTRY_SIZE :: Model()[k].idx != at
      {
        SameIndexBytes(data[i..i + 4], wantBE);
        EntryIs(data, i / ENTRY_SIZE);
        if data[i..i + 4] == wantBE {
          FindFirst(Model(), at, i / ENTRY_SIZE);
          var out := data[i + 4..i + ENTRY_SIZE];
          Remove(i);
          return Ok(out);
        }
        i := i + ENTRY_SIZE;
      }
      assert Find(Model(), at) == |Model()|;
      return Err(KeyAlreadyRequested);
    }
  }

  lemma EntryIs(data: Bytes, k: nat)
    requires |data| % ENTRY_SIZE == 0 && ENTRY_SIZE * k < |data|
    ensures ENTRY_SIZE * (k + 1) <= |data| && k < |Entries(data)|
    ensures Entries(data)[k] == EntryAt(data, k)
  {
  }

  lemma RemoveIs(before: Bytes, after: Bytes, k: nat)
    requires |before| % ENTRY_SIZE == 0 && ENTRY_SIZE * (k + 1) <= |before|
    requires var i, n := ENTRY_SIZE * k, |before| - ENTRY_SIZE;
      after == (if i < n then before[..i] + before[n..] + before[i + ENTRY_SIZE..] else before)[..n]
    ensures Entries(after) == SwapRemove(Entries(before), k)
  {
    hide GetUint32;
    var i, n := ENTRY_SIZE * k, |before| - ENTRY_SIZE;
    assert forall x | 0 <= x < n :: after[x] == before[if i <= x < i + ENTRY_SIZE then x - i + n else x];
    forall j | 0 <= j < n / ENTRY_SIZE
      ensures EntryAt(after, j) == EntryAt(before, if j == k then n / ENTRY_SIZE else j)
    {
      SameRecord(before, after, i, n, j, k);
    }
    var r := SwapRemove(Entries(before), k);
    forall j | 0 <= j < |r| ensures Entries(after)[j] == r[j] {
      EntryIs(before, if j == k then n / ENTRY_SIZE else j);
    }
  }

  lemma SameRecord(before: Bytes, after: Bytes, i: nat, n: nat, j: nat, k: nat)
    requires i == ENTRY_SIZE * k && n + ENTRY_SIZE == |before| && |after| == n && n % ENTRY_SIZE == 0
    requires ENTRY_SIZE * (j + 1) <= n && i <= n
    requires forall x | 0 <= x < n :: after[x] == before[if i <= x < i + ENTRY_SIZE then x - i + n else x]
    ensures EntryAt(after, j) == EntryAt(before, if j == k then n / ENTRY_SIZE else j)
  {
    hide GetUint32;
    var a, b := ENTRY_SIZE * j, ENTRY_SIZE * (if j == k then n / ENTRY_SIZE else j);
    assert after[a..a + 4] == before[b..b + 4];
    assert after[a + 4..a + ENTRY_SIZE] == before[b + 4..b + ENTRY_SIZE];
  }

  lemma FindFirst(h: seq<Entry>, idx: uint32, k: nat)
    requires k < |h| && h[k].idx == idx && forall i | 0 <= i < k :: h[i].idx != idx
    ensures Find(h, idx) == k
  {
  }

  class ChainDirection {
    var ctr: uint32
    var next: Bytes
    const prev: KeyHistory

    ghost predicate Valid()
      reads this, prev
    {
      prev.Valid()
    }

    function Model(): (h: Half)
      requires Valid()
      reads this, prev
    {
      Half(ctr, next, prev.Model())
    }

    constructor (seed: Bytes)
      ensures Valid() && fresh(prev) && Model() == NewHalf(seed)
    {
      ctr := 0;
      next := seed;
      prev := new KeyHistory();
    }

    method Advance(c: Crypto) returns (idx: uint32, key: Bytes)
      requires Valid()
      modifies this
      ensures Valid() && (Model(), key) == KeyChain.NextKey(c, old(Model())) && idx == Model().ctr
    {
      ctr := (ctr + 1) % UINT32;
      var okm := c.hkdf(ZeroSalt, next, ChainNextInfo(ctr), 64);
      next := Slice(okm, 0, 32);
      return ctr, Slice(okm, 32, 64);
    }

    /** The key at an index, advancing and caching as needed; a refusal changes nothing. */
    method KeyAt(c: Crypto, at: uint32, p: Params) returns (r: Result<Bytes>)
      requires Valid() && Sized(c)
      modifies this, prev
      ensures Valid()
      ensures match Key(c, old(Model()), at, p)
        case Err(e) => r == Err(e) && Model() == old(Model())
        case Ok((h, k)) => r == Ok(k) && Model() == h
    {
      hide Entries, KeyChain.NextKey, Sized;
      var maxJump, maxOoo := p.Jump(), p.Ooo();
      if at > ctr {
        if at - ctr > maxJump {
          return Err(KeyJump);
        }
      } else if at < ctr {
        r := prev.Pop(at, ctr, maxOoo);
        return;
      } else {
        return Err(KeyAlreadyRequested);
      }
      if at > (ctr + maxOoo) % UINT32 {
        prev.Clear();
      }
      ghost var start := Model();
      while at > ctr + 1
        invariant Valid() && ctr < at
        invariant SkipTo(c, Model(), at, maxOoo) == SkipTo(c, start, at, maxOoo)
        decreases at - ctr
      {
        ghost var h := Model();
        StepUp(c, h, at);
        var idx, k := Advance(c);
        if (ctr + maxOoo) % UINT32 >= at {
          prev.Append(idx, k);
        }
      }
      prev.Collect(ctr, maxOoo);
      var _, k := Advance(c);
      return Ok(k);
    }

    method ClearNext()
      requires Valid()
      modifies this
      ensures Valid() && Model() == old(Model()).(next := [])
    {
      next := next[..0];
    }
  }

  lemma StepUp(c: Crypto, h: Half, at: uint32)
    requires Sized(c) && h.ctr + 1 < at
    ensures KeyChain.NextKey(c, h).0.ctr == h.ctr + 1 && KeyChain.NextKey(c, h).0.prev == h.prev
    ensures |KeyChain.NextKey(c, h).1| == KEY_LEN
  {
  }

  /** The two directions of one epoch. */
  datatype LinkObjects = LinkObjects(send: ChainDirection, recv: ChainDirection)

  ghost function Objects(links: seq<LinkObjects>): set<object> {
    (set l <- links :: l.send) + (set l <- links :: l.recv)
    + (set l <- links :: l.send.prev) + (set l <- links :: l.recv.prev)
  }

  /** No two directions share their state. */
  ghost predicate Apart(links: seq<LinkObjects>) {
    && (forall i, j | 0 <= i < |links| && 0 <= j < |links| ::
          links[i].send != links[j].recv && links[i].send.prev != links[j].recv.prev)
    && (forall i, j | 0 <= i < j < |links| ::
          && links[i].send != links[j].send && links[i].send.prev != links[j].send.prev
          && links[i].recv != links[j].recv && links[i].recv.prev != links[j].recv.prev)
  }

  ghost predicate AllValid(links: seq<LinkObjects>)
    reads Objects(links)
  {
    forall i | 0 <= i < |links| :: links[i].send.Valid() && links[i].recv.Valid()
  }

  ghost function LinkModels(links: seq<LinkObjects>): (ls: seq<Link>)
    requires AllValid(links)
    reads Objects(links)
    ensures |ls| == |links|
  {
    seq(|links|, i requires 0 <= i < |links| reads Objects(links) requires AllValid(links) =>
      Link(links[i].send.Model(), links[i].recv.Model()))
  }

  lemma PrefixDropped(links: seq<LinkObjects>, k: nat)
    requires Apart(links) && AllValid(links) && k <= |links|
    ensures Apart(links[k..]) && AllValid(links[k..]) && Objects(links[k..]) <= Objects(links)
    ensures LinkModels(links[k..]) == LinkModels(links)[k..]
  {
    hide ChainDirection.Model, ChainDirection.Valid;
    forall o <- Objects(links[k..]) ensures o in Objects(links) {
      var i :| k <= i < |links|
        && (o == links[i].send || o == links[i].recv || o == links[i].send.prev || o == links[i].recv.prev);
      ObjectsHold(links, i);
    }
  }

  lemma ObjectsHold(links: seq<LinkObjects>, i: nat)
    requires i < |links|
    ensures var l := links[i]; {l.send, l.recv, l.send.prev, l.recv.prev} <= Objects(links)
  {
    assert links[i] in links;
  }

  lemma LinkAppended(links: seq<LinkObjects>, l: LinkObjects)
    requires Apart(links) && AllValid(links) && l.send.Valid() && l.recv.Valid()
    requires l.send != l.recv && l.send.prev != l.recv.prev
    requires Objects(links) !! {l.send, l.recv, l.send.prev, l.recv.prev}
    ensures Apart(links + [l]) && AllValid(links + [l])
    ensures Objects(links + [l]) == Objects(links) + {l.send, l.recv, l.send.prev, l.recv.prev}
    ensures LinkModels(links + [l]) == LinkModels(links) + [Link(l.send.Model(), l.recv.Model())]
  {
    hide ChainDirection.Model, ChainDirection.Valid;
    forall i | 0 <= i < |links| ensures links[i].send !in {l.send, l.recv} && links[i].recv !in {l.send, l.recv}
      ensures links[i].send.prev !in {l.send.prev, l.recv.prev} && links[i].recv.prev !in {l.send.prev, l.recv.prev}
    {
      ObjectsHold(links, i);
    }
  }

  /** The directions of a chain, one by one. */
  lemma ModelsAre(links: seq<LinkObjects>, ls: seq<Link>)
    requires |ls| == |links|
    requires forall j | 0 <= j < |links| ::
      && links[j].send.Valid() && links[j].send.Model() == ls[j].send
      && links[j].recv.Valid() && links[j].recv.Model() == ls[j].recv
    ensures AllValid(links) && LinkModels(links) == ls
  {
    hide ChainDirection.Model, ChainDirection.Valid;
  }

  lemma ObjectsExist(links: seq<LinkObjects>)
    ensures forall o <- Objects(links) :: allocated(o)
  {
  }

  lemma NotAmong(ch: EpochChain, links: seq<LinkObjects>)
    ensures ch !in Objects(links)
  {
  }

  /** The two fresh directions of an epoch. */
  method Directions(gen: Bytes, dir: Direction) returns (l: LinkObjects)
    ensures fresh({l.send, l.recv, l.send.prev, l.recv.prev})
    ensures l.send != l.recv && l.send.prev != l.recv.prev && l.send.Valid() && l.recv.Valid()
    ensures Link(l.send.Model(), l.recv.Model()) == NewLink(gen, dir)
  {
    var send := new ChainDirection(SeedFor(gen, dir));
    var recv := new ChainDirection(SeedFor(gen, Switch(dir)));
    l := LinkObjects(send, recv);
  }

  class EpochChain {
    const dir: Direction
    var currentEpoch: nat
    var sendEpoch: nat
    var links: seq<LinkObjects>
    var nextRoot: Bytes
    const params: Params

    ghost predicate Valid()
      reads this, Objects(links)
    {
      Apart(links) && AllValid(links)
    }

    ghost function Model(): (ch: Chain)
      requires Valid()
      reads this, Objects(links)
    {
      Chain(dir, currentEpoch, sendEpoch, LinkModels(links), nextRoot, params)
    }

    constructor (c: Crypto, key: Bytes, dir: Direction, params: Params)
      ensures Valid() && fresh(Objects(links)) && Model() == NewChain(c, key, dir, params)
    {
      var gen := c.hkdf(ZeroSalt, key, ChainStartInfo, 96);
      var link := Directions(gen, dir);
      this.dir := dir;
      this.currentEpoch := 0;
      this.sendEpoch := 0;
      this.links := [link];
      this.nextRoot := Slice(gen, 0, 32);
      this.params := params;
    }

    method FoldSecret(c: Crypto, epoch: nat, secret: Bytes) returns (err: Option<Error>)
      requires Valid()
      modifies this
      ensures Valid() && fresh(Objects(links) - old(Objects(links)))
      ensures match AddEpoch(c, old(Model()), epoch, secret)
        case Err(e) => err == Some(e) && Model() == old(Model())
        case Ok(ch) => err == None && Model() == ch
    {
      hide Objects, LinkModels, Apart, AllValid, ChainDirection.Model, ChainDirection.Valid, NewLink;
      if epoch != currentEpoch + 1 {
        return Some(ChainDecode);
      }
      var gen := c.hkdf(KeySalt(nextRoot), secret, ChainAddEpochInfo, 96);
      ObjectsExist(links);
      var link := Directions(gen, dir);
      LinkAppended(links, link);
      NotAmong(this, links + [link]);
      currentEpoch := epoch;
      nextRoot := Slice(gen, 0, 32);
      links := links + [link];
      return None;
    }

    /** The next send key, forgetting old links and old send chains when the epoch moves on. */
    method NextSendKey(c: Crypto, epoch: nat) returns (r: Result<(uint32, Bytes)>)
      requires Valid()
      modifies this, Objects(links)
      ensures Valid() && Objects(links) <= old(Objects(links))
      ensures match SendKey(c, old(Model()), epoch)
        case Err(e) => r == Err(e) && Model() == old(Model())
        case Ok((ch, idx, k)) => r == Ok((idx, k)) && Model() == ch
    {
      hide Objects, LinkModels, Apart, AllValid, KeyChain.NextKey, ClearSends;
      if epoch < sendEpoch {
        return Err(SendKeyEpochDecreased);
      }
      var found := FindEpoch(epoch);
      if found.Err? {
        return Err(found.error);
      }
      var epochIndex := found.value;
      if sendEpoch != epoch {
        epochIndex := MoveSendEpoch(epoch, epochIndex);
      }
      r := Draw(c, epochIndex);
    }

    /** Steps the send chain of one link. */
    method Draw(c: Crypto, i: nat) returns (r: Result<(uint32, Bytes)>)
      requires Valid() && i < |links|
      modifies Objects(links)
      ensures Valid() && links == old(links)
      ensures var was := old(Model());
        var (half, key) := KeyChain.NextKey(c, was.links[i].send);
        r == Ok((half.ctr, key)) && Model() == was.(links := was.links[i := was.links[i].(send := half)])
    {
      hide KeyChain.NextKey, ChainDirection.Model, ChainDirection.Valid, Objects;
      ghost var ls := LinkModels(links);
      ObjectsHold(links, i);
      var idx, key := links[i].send.Advance(c);
      ModelsAre(links, ls[i := ls[i].(send := links[i].send.Model())]);
      return Ok((idx, key));
    }

    /** The position of an epoch's link. */
    function FindEpoch(epoch: nat): (r: Result<nat>)
      reads this
    {
      if epoch > currentEpoch then Err(EpochOutOfRange)
      else if currentEpoch - epoch >= |links| then Err(EpochOutOfRange)
      else Ok(|links| - 1 - (currentEpoch - epoch))
    }

    /** Drops links older than one before the epoch and clears the older send chains. */
    method MoveSendEpoch(epoch: nat, idx: nat) returns (epochIndex: nat)
      requires Valid() && sendEpoch != epoch && idx < |links|
      modifies this, Objects(links)
      ensures Valid() && Objects(links) <= old(Objects(links))
      ensures Model() == EnterSendEpoch(old(Model()), epoch, idx)
      ensures epochIndex == if idx > EPOCHS_TO_KEEP then EPOCHS_TO_KEEP else idx
    {
      hide Objects, LinkModels, Apart, AllValid, ClearSends;
      ObjectsExist(links);
      NotAmong(this, links);
      epochIndex := idx;
      sendEpoch := epoch;
      while epochIndex > EPOCHS_TO_KEEP
        invariant epochIndex <= idx && (idx > EPOCHS_TO_KEEP ==> epochIndex >= EPOCHS_TO_KEEP)
        invariant idx <= EPOCHS_TO_KEEP ==> epochIndex == idx
        invariant links == old(links)[idx - epochIndex..]
        invariant sendEpoch == epoch && currentEpoch == old(currentEpoch) && nextRoot == old(nextRoot)
        modifies this
      {
        links := links[1..];
        epochIndex := epochIndex - 1;
      }
      PrefixDropped(old(links), idx - epochIndex);
      ClearOld(epochIndex);
    }

    /** Clears the send chains of the first `n` links. */
    method ClearOld(n: nat)
      requires Valid() && n <= |links|
      modifies Objects(links)
      ensures Valid() && links == old(links)
      ensures Model() == old(Model()).(links := ClearSends(old(Model()).links, n))
    {
      hide ChainDirection.Model, ChainDirection.Valid, Objects;
      NotAmong(this, links);
      ghost var was := LinkModels(links);
      for i := 0 to n
        invariant links == old(links) && unchanged(this)
        invariant Valid() && LinkModels(links) == ClearSends(was, i)
      {
        ghost var ls := LinkModels(links);
        ObjectsHold(links, i);
        links[i].send.ClearNext();
        ModelsAre(links, ls[i := ls[i].(send := links[i].send.Model())]);
        assert LinkModels(links) == ClearSends(was, i + 1);
      }
    }

    method ReceiveKey(c: Crypto, epoch: nat, index: uint32) returns (r: Result<Bytes>)
      requires Valid() && Sized(c)
      modifies this, Objects(links)
      ensures Valid() && links == old(links)
      ensures match RecvKey(c, old(Model()), epoch, index)
        case Err(e) => r == Err(e) && Model() == old(Model())
        case Ok((ch, k)) => r == Ok(k) && Model() == ch
    {
      hide Key, Sized, ChainDirection.Model, ChainDirection.Valid, Objects;
      if epoch == 0 && index == 0 {
        return Ok([]);
      }
      var found := FindEpoch(epoch);
      if found.Err? {
        return Err(found.error);
      }
      var i := found.value;
      ghost var ls := LinkModels(links);
      ObjectsHold(links, i);
      r := links[i].recv.KeyAt(c, index, params);
      ModelsAre(links, ls[i := ls[i].(recv := links[i].recv.Model())]);
    }
  }
}
