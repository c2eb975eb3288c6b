/**
 * Python's `dict`: a finite mapping that remembers the order in which keys were
 * first inserted. Assigning to a present key keeps its position; `pop` removes it.
 * Iteration over `values()` and `items()` follows that order, which is why the
 * modelled code's call lists come out in the order they do.
 */
module Dicts {
  import opened Wrappers

  type Dict<K, V> = seq<(K, V)>

  ghost predicate KeysUnique<K, V>(d: Dict<K, V>) {
    forall i, j :: 0 <= i < j < |d| ==> d[i].0 != d[j].0
  }

  function Keys<K, V>(d: Dict<K, V>): (r: seq<K>)
    ensures |r| == |d|
    ensures forall i :: 0 <= i < |d| ==> r[i] == d[i].0
  {
    seq(|d|, i requires 0 <= i < |d| => d[i].0)
  }

  function Values<K, V>(d: Dict<K, V>): (r: seq<V>)
    ensures |r| == |d|
    ensures forall i :: 0 <= i < |d| ==> r[i] == d[i].1
  {
    seq(|d|, i requires 0 <= i < |d| => d[i].1)
  }

  /** Position of key `k`, the first one if (against the invariant) it occurred twice. */
  function IndexOf<K(==, !new), V>(d: Dict<K, V>, k: K): (r: Option<nat>)
    ensures r.Some? ==> r.value < |d| && d[r.value].0 == k
    ensures r.Some? ==> forall i :: 0 <= i < r.value ==> d[i].0 != k
    ensures r.None? ==> forall i :: 0 <= i < |d| ==> d[i].0 != k
  {
    if |d| == 0 then None
    else if d[0].0 == k then Some(0)
    else
      var rest := IndexOf(d[1..], k);
      assert forall i :: 1 <= i < |d| ==> d[i] == d[1..][i - 1];
      if rest.None? then None else Some(rest.value + 1)
  }

  /** Python `k in d`. */
  predicate HasKey<K(==, !new), V>(d: Dict<K, V>, k: K) {
    IndexOf(d, k).Some?
  }

  /** Python `d.get(k)`. */
  function Get<K(==, !new), V>(d: Dict<K, V>, k: K): (r: Option<V>)
    ensures r.Some? <==> HasKey(d, k)
  {
    match IndexOf(d, k)
    case None => None
    case Some(i) => Some(d[i].1)
  }

  /** The three facts IndexOf promises determine it. */
  lemma IndexOfIs<K(!new), V>(d: Dict<K, V>, k: K, i: nat)
    requires i < |d| && d[i].0 == k
    requires forall j :: 0 <= j < i ==> d[j].0 != k
    ensures IndexOf(d, k) == Some(i)
  {
    var r := IndexOf(d, k);
    assert r.Some?;
    assert !(r.value < i);
  }

  lemma IndexOfSameKeys<K(!new), V>(d: Dict<K, V>, e: Dict<K, V>, k: K)
    requires |d| == |e| && forall j :: 0 <= j < |d| ==> d[j].0 == e[j].0
    ensures IndexOf(d, k) == IndexOf(e, k)
  {
    if IndexOf(d, k).Some? {
      IndexOfIs(e, k, IndexOf(d, k).value);
    } else {
      assert IndexOf(e, k).None?;
    }
  }

  lemma IndexOfSnoc<K(!new), V>(d: Dict<K, V>, k: K, v: V, k': K)
    ensures IndexOf(d + [(k, v)], k') ==
      (if IndexOf(d, k').Some? then IndexOf(d, k') else if k' == k then Some(|d|) else None)
  {
    var r := d + [(k, v)];
    if IndexOf(d, k').Some? {
      IndexOfIs(r, k', IndexOf(d, k').value);
    } else if k' == k {
      IndexOfIs(r, k', |d|);
    } else {
      assert forall j :: 0 <= j < |r| ==> r[j].0 != k' by {
        forall j | 0 <= j < |r| ensures r[j].0 != k' {
          if j < |d| { assert r[j] == d[j]; }
        }
      }
    }
  }

  lemma GetAt<K(!new), V>(d: Dict<K, V>, i: nat)
    requires KeysUnique(d) && i < |d|
    ensures Get(d, d[i].0) == Some(d[i].1)
  {
    IndexOfIs(d, d[i].0, i);
  }

  /** Python `d[k] = v`. */
  function Put<K(==, !new), V>(d: Dict<K, V>, k: K, v: V): (r: Dict<K, V>)
    ensures Get(r, k) == Some(v)
    ensures forall k' :: k' != k ==> Get(r, k') == Get(d, k')
    ensures HasKey(d, k) ==> |r| == |d| && Keys(r) == Keys(d)
    ensures !HasKey(d, k) ==> r == d + [(k, v)]
    ensures KeysUnique(d) ==> KeysUnique(r)
  {
    match IndexOf(d, k)
    case Some(i) =>
      var r := d[i := (k, v)];
      assert forall k' :: IndexOf(r, k') == IndexOf(d, k') by {
        forall k' ensures IndexOf(r, k') == IndexOf(d, k') {
          IndexOfSameKeys(r, d, k');
        }
      }
      r
    case None =>
      var r := d + [(k, v)];
      assert forall k' :: IndexOf(r, k') == (if IndexOf(d, k').Some? then IndexOf(d, k') else if k' == k then Some(|d|) else None) by {
        forall k' ensures IndexOf(r, k') == (if IndexOf(d, k').Some? then IndexOf(d, k') else if k' == k then Some(|d|) else None) {
          IndexOfSnoc(d, k, v, k');
        }
      }
      r
  }

  /** Python `d.pop(k)`: the entry is removed, the others keep their order. */
  function Remove<K(==, !new), V>(d: Dict<K, V>, k: K): (r: Dict<K, V>)
    requires KeysUnique(d)
    ensures !HasKey(r, k)
    ensures forall k' :: k' != k ==> Get(r, k') == Get(d, k')
    ensures KeysUnique(r)
    ensures HasKey(d, k) ==> |r| == |d| - 1
    ensures !HasKey(d, k) ==> r == d
  {
    match IndexOf(d, k)
    case None => d
    case Some(i) =>
      var r := d[..i] + d[i + 1..];
      assert forall j :: 0 <= j < |r| ==> r[j] == (if j < i then d[j] else d[j + 1]);
      assert forall k' :: k' != k ==> Get(r, k') == Get(d, k') by {
        forall k' | k' != k ensures Get(r, k') == Get(d, k') {
          if IndexOf(d, k').Some? {
            var b := IndexOf(d, k').value;
            assert b != i;
            var b' := if b < i then b else b - 1;
            assert r[b'] == d[b];
            forall j | 0 <= j < b' ensures r[j].0 != k' {
              assert r[j] == (if j < i then d[j] else d[j + 1]);
            }
            IndexOfIs(r, k', b');
          } else {
            assert forall j :: 0 <= j < |r| ==> r[j].0 != k';
          }
        }
      }
      assert forall j :: 0 <= j < |r| ==> r[j].0 != k;
      r
  }

  /** Python `{**a, **b}`: the entries of `b` assigned, in order, over a copy of `a`. */
  function Merge<K(==, !new), V>(a: Dict<K, V>, b: Dict<K, V>): (r: Dict<K, V>)
    ensures forall k :: Get(r, k) == (if HasKey(b, k) then Get(b, k) else Get(a, k))
    requires KeysUnique(b)
    ensures KeysUnique(a) ==> KeysUnique(r)
    decreases |b|
  {
    if |b| == 0 then a
    else
      var last := b[|b| - 1];
      var init := b[..|b| - 1];
      assert b == init + [last];
      assert forall j :: 0 <= j < |init| ==> init[j].0 != last.0 by {
        forall j | 0 <= j < |init| ensures init[j].0 != last.0 {
          assert init[j] == b[j];
        }
      }
      var r := Put(Merge(a, init), last.0, last.1);
      assert forall k :: IndexOf(b, k) == (if IndexOf(init, k).Some? then IndexOf(init, k) else if k == last.0 then Some(|init|) else None) by {
        forall k ensures IndexOf(b, k) == (if IndexOf(init, k).Some? then IndexOf(init, k) else if k == last.0 then Some(|init|) else None) {
          IndexOfSnoc(init, last.0, last.1, k);
        }
      }
      r
  }
}
