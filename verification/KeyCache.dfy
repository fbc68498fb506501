/** Lists of cached message-key seeds, looked up and removed by index. */
module KeyCache {
  import opened Words
  import opened KeyWindow

  /** A skipped key: its index and the seed from which it is derived again. */
  datatype Entry<T> = Entry(index: nat, seed: T)

  function Indices<T>(keys: seq<Entry<T>>): (r: seq<nat>)
    ensures |r| == |keys| && forall j | 0 <= j < |r| :: r[j] == keys[j].index
  {
    seq(|keys|, j requires 0 <= j < |keys| => keys[j].index)
  }

  /** The first entry with an index, or the length. */
  function Find<T>(keys: seq<Entry<T>>, i: nat): (n: nat)
    ensures n <= |keys| && (n < |keys| ==> keys[n].index == i)
    ensures forall j | 0 <= j < n :: keys[j].index != i
  {
    if keys == [] || keys[0].index == i then 0 else 1 + Find(keys[1..], i)
  }

  function DropAt<T>(keys: seq<Entry<T>>, n: nat): (r: seq<Entry<T>>)
    requires n < |keys|
  {
    keys[..n] + keys[n + 1..]
  }

  lemma IndicesAppend<T>(a: seq<Entry<T>>, b: seq<Entry<T>>)
    ensures Indices(a + b) == Indices(a) + Indices(b)
  {
  }

  lemma IndicesSlice<T>(a: seq<Entry<T>>, n: nat)
    requires n <= |a|
    ensures Indices(a[n..]) == Indices(a)[n..] && Indices(a[..n]) == Indices(a)[..n]
  {
  }

  /** An element at its first position is what Remove takes out. */
  lemma {:induction false} RemoveAt(s: seq<nat>, n: nat, i: nat)
    requires n < |s| && s[n] == i && forall j | 0 <= j < n :: s[j] != i
    ensures Remove(s, i) == s[..n] + s[n + 1..]
    decreases n
  {
    if n > 0 {
      RemoveAt(s[1..], n - 1, i);
      assert s[..n] + s[n + 1..] == [s[0]] + (s[1..][..n - 1] + s[1..][n..]);
    }
  }

  lemma DropAtIs<T>(keys: seq<Entry<T>>, i: nat)
    requires Find(keys, i) < |keys|
    ensures Indices(DropAt(keys, Find(keys, i))) == Remove(Indices(keys), i)
  {
    hide Find, Remove, Indices;
    var n := Find(keys, i);
    RemoveAt(Indices(keys), n, i);
    IndicesAppend(keys[..n], keys[n + 1..]);
    IndicesSlice(keys, n);
    IndicesSlice(keys, n + 1);
  }

  lemma HeldIffFound<T>(keys: seq<Entry<T>>, i: nat)
    ensures i in Indices(keys) <==> Find(keys, i) < |keys|
  {
    hide Find;
    var n := Find(keys, i);
    if n < |keys| {
      assert Indices(keys)[n] == i;
    }
  }

  lemma DropAtLength<T>(keys: seq<Entry<T>>, n: nat)
    requires n < |keys|
    ensures |DropAt(keys, n)| == |keys| - 1
  {
  }

  lemma DropAtSubset<T>(keys: seq<Entry<T>>, n: nat, j: nat)
    requires n < |keys| && j < |keys| - 1
    ensures |DropAt(keys, n)| == |keys| - 1
    ensures DropAt(keys, n)[j] == keys[if j < n then j else j + 1]
  {
  }

  lemma FindStep<T>(keys: seq<Entry<T>>, i: nat, n: nat)
    requires n < |keys| && Find(keys, i) == n + Find(keys[n..], i)
    ensures keys[n].index == i ==> Find(keys, i) == n
    ensures keys[n].index != i ==> Find(keys, i) == n + 1 + Find(keys[n + 1..], i)
  {
    assert keys[n..][1..] == keys[n + 1..];
  }
}
