/**
 * A Python `dict` from addresses to values, as the sequence of its items in
 * insertion order. Assigning to a key that is already present replaces its
 * value where it stands; assigning to a new key appends it.
 */
module OrderedMap {
  import opened Wrappers

  datatype Entry<V> = Entry(addr: int, value: V)

  function Keys<V>(m: seq<Entry<V>>): set<int> {
    if m == [] then {} else {m[0].addr} + Keys(m[1..])
  }

  /** No address occurs twice, as in every dict. */
  predicate DistinctKeys<V>(m: seq<Entry<V>>) {
    m == [] || (m[0].addr !in Keys(m[1..]) && DistinctKeys(m[1..]))
  }

  /** `m.get(a)`. */
  function Lookup<V>(m: seq<Entry<V>>, a: int): (r: Option<V>)
    ensures r.Some? <==> a in Keys(m)
  {
    if m == [] then None else if m[0].addr == a then Some(m[0].value) else Lookup(m[1..], a)
  }

  /** `m[a] = v`: a new address goes to the end, an existing one keeps its place. */
  function Put<V>(m: seq<Entry<V>>, a: int, v: V): seq<Entry<V>> {
    if m == [] then [Entry(a, v)]
    else if m[0].addr == a then [Entry(a, v)] + m[1..]
    else [m[0]] + Put(m[1..], a, v)
  }

  /** `m[a] = v` for an address not yet in the dict appends it. */
  lemma {:induction false} PutFresh<V>(m: seq<Entry<V>>, a: int, v: V)
    requires a !in Keys(m)
    ensures Put(m, a, v) == m + [Entry(a, v)]
    decreases |m|
  {
    if m != [] {
      PutFresh(m[1..], a, v);
      assert m == [m[0]] + m[1..];
    }
  }

  /**
   * After `m[a] = v`, `a` maps to `v` and every other address to what it
   * mapped to before; a new address is appended, an existing one keeps its
   * place, and the keys stay distinct.
   */
  lemma {:induction false} PutSpec<V>(m: seq<Entry<V>>, a: int, v: V)
    ensures var r := Put(m, a, v);
      && Lookup(r, a) == Some(v)
      && (forall b | b != a :: Lookup(r, b) == Lookup(m, b))
      && Keys(r) == Keys(m) + {a}
      && (a !in Keys(m) ==> r == m + [Entry(a, v)])
      && (a in Keys(m) ==> |r| == |m| && forall i | 0 <= i < |m| :: r[i].addr == m[i].addr)
      && (DistinctKeys(m) ==> DistinctKeys(r))
    decreases |m|
  {
    if m != [] && m[0].addr != a {
      PutSpec(m[1..], a, v);
      var r := Put(m, a, v);
      assert r[1..] == Put(m[1..], a, v);
      assert m == [m[0]] + m[1..];
    }
  }

  /** How many pairs `zip(range(n), values)` produces for `k` values. */
  function ZipLen(n: int, k: nat): (z: nat)
    ensures z <= k && (n >= 0 ==> z <= n)
    ensures z == k || z == n || (n < 0 && z == 0)
  {
    if n <= 0 then 0 else if n < k then n else k
  }

  /**
   * The dict after `m[start + i] = vals[i]` for `i` in `0 .. k-1`, in that
   * order: addresses `start .. start+k-1` take the first `k` values and no
   * other address changes.
   */
  function Fill<V>(m: seq<Entry<V>>, start: int, vals: seq<V>, k: nat): (r: seq<Entry<V>>)
    requires k <= |vals|
    ensures forall a | start <= a < start + k :: Lookup(r, a) == Some(vals[a - start])
    ensures forall a | !(start <= a < start + k) :: Lookup(r, a) == Lookup(m, a)
    ensures forall a :: a in Keys(r) <==> a in Keys(m) || start <= a < start + k
    ensures DistinctKeys(m) ==> DistinctKeys(r)
  {
    if k == 0 then m
    else
      var prev := Fill(m, start, vals, k - 1);
      PutSpec(prev, start + k - 1, vals[k - 1]);
      Put(prev, start + k - 1, vals[k - 1])
  }

  /**
   * `for address, value in zip(range(start, stop), vals): m[address] = value`.
   */
  method FillZip<V>(m: seq<Entry<V>>, start: int, stop: int, vals: seq<V>) returns (r: seq<Entry<V>>)
    ensures r == Fill(m, start, vals, ZipLen(stop - start, |vals|))
  {
    var n := ZipLen(stop - start, |vals|);
    r := m;
    var j := 0;
    while j < n
      invariant 0 <= j <= n
      invariant r == Fill(m, start, vals, j)
    {
      FillStep(m, start, vals, j);
      r := Put(r, start + j, vals[j]);
      j := j + 1;
    }
  }

  lemma FillStep<V>(m: seq<Entry<V>>, start: int, vals: seq<V>, k: nat)
    requires k < |vals|
    ensures Fill(m, start, vals, k + 1) == Put(Fill(m, start, vals, k), start + k, vals[k])
  {
  }
}
