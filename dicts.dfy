/**
 * A Python `dict` with string keys, as its entries in insertion order.
 * Assigning an existing key keeps its position; assigning a new key appends
 * it; `pop` removes it. Iteration (`.items()`, `.values()`) follows the
 * sequence order.
 */
module Dicts {
  import opened Wrappers

  type Dict<V> = seq<(string, V)>

  /** The keys, in iteration order. */
  function Keys<V>(d: Dict<V>): (ks: seq<string>)
    ensures |ks| == |d|
    ensures forall i :: 0 <= i < |d| ==> ks[i] == d[i].0
  {
    if d == [] then [] else [d[0].0] + Keys(d[1..])
  }

  /** The values, in iteration order (`.values()`). */
  function Values<V>(d: Dict<V>): (vs: seq<V>)
    ensures |vs| == |d|
    ensures forall i :: 0 <= i < |d| ==> vs[i] == d[i].1
  {
    if d == [] then [] else [d[0].1] + Values(d[1..])
  }

  /** A real dict never holds a key twice. */
  predicate DistinctKeys<V>(d: Dict<V>)
  {
    forall i, j :: 0 <= i < j < |d| ==> d[i].0 != d[j].0
  }

  /** `d.get(k)`. */
  function Get<V>(d: Dict<V>, k: string): (r: Option<V>)
    ensures r.Some? <==> k in Keys(d)
    ensures r.Some? ==> (k, r.value) in d
  {
    if d == [] then None
    else if d[0].0 == k then Some(d[0].1)
    else Get(d[1..], k)
  }

  /** `d[k] = v`: replaces the value in place, or appends a new entry. */
  function Set<V>(d: Dict<V>, k: string, v: V): (r: Dict<V>)
    ensures forall k' :: Get(r, k') == if k' == k then Some(v) else Get(d, k')
    ensures k !in Keys(d) ==> r == d + [(k, v)]
  {
    if d == [] then [(k, v)]
    else if d[0].0 == k then [(k, v)] + d[1..]
    else [d[0]] + Set(d[1..], k, v)
  }

  /** Assigning a key that is present leaves the keys and their order as they were. */
  lemma {:induction false} SetKeys<V>(d: Dict<V>, k: string, v: V)
    requires k in Keys(d)
    ensures Keys(Set(d, k, v)) == Keys(d)
  {
    if d[0].0 != k {
      SetKeys(d[1..], k, v);
    }
  }

  /** Assignment changes exactly one position `p`: the old entry there, or a new last one. */
  lemma {:induction false} SetReplacesOne<V>(d: Dict<V>, k: string, v: V) returns (p: nat)
    ensures p <= |d| && |Set(d, k, v)| == if p == |d| then |d| + 1 else |d|
    ensures Set(d, k, v)[p] == (k, v)
    ensures forall i :: 0 <= i < |Set(d, k, v)| && i != p ==> Set(d, k, v)[i] == d[i]
  {
    if d == [] || d[0].0 == k {
      p := 0;
    } else {
      var q := SetReplacesOne(d[1..], k, v);
      p := q + 1;
      assert Set(d, k, v) == [d[0]] + Set(d[1..], k, v);
    }
  }

  /** The keys of a non-empty dict are those of all but its last entry, and the last key. */
  lemma KeysOfInit<V>(d: Dict<V>)
    requires d != []
    ensures forall k :: k in Keys(d) <==> k in Keys(d[..|d| - 1]) || k == d[|d| - 1].0
  {
    var init := d[..|d| - 1];
    forall k ensures k in Keys(d) <==> k in Keys(init) || k == d[|d| - 1].0 {
      if k in Keys(d) {
        var i :| 0 <= i < |d| && Keys(d)[i] == k;
        if i < |d| - 1 { assert Keys(init)[i] == k; }
      }
      if k in Keys(init) {
        var i :| 0 <= i < |init| && Keys(init)[i] == k;
        assert Keys(d)[i] == k;
      }
      if k == d[|d| - 1].0 { assert Keys(d)[|d| - 1] == k; }
    }
  }

  /** Assignment adds its key to the key set and no other. */
  lemma SetKeySet<V>(d: Dict<V>, k: string, v: V)
    ensures forall k' :: k' in Keys(Set(d, k, v)) <==> k' in Keys(d) || k' == k
  {
  }

  /** Assignment keeps the keys distinct. */
  lemma SetKeepsDistinct<V>(d: Dict<V>, k: string, v: V)
    requires DistinctKeys(d)
    ensures DistinctKeys(Set(d, k, v))
  {
    var r := Set(d, k, v);
    if k in Keys(d) {
      SetKeys(d, k, v);
      forall i, j | 0 <= i < j < |r| ensures r[i].0 != r[j].0 {
        assert r[i].0 == Keys(r)[i] == Keys(d)[i] == d[i].0;
        assert r[j].0 == Keys(r)[j] == Keys(d)[j] == d[j].0;
      }
    } else {
      assert r == d + [(k, v)];
    }
  }

  /**
   * `d.pop(k, None)`: removes the entry for `k`, and is a no-op when there is
   * none. Every entry with key `k` is dropped, which is the same as Python's
   * single removal on a dict whose keys are distinct.
   */
  function Pop<V>(d: Dict<V>, k: string): (r: Dict<V>)
    ensures Get(r, k) == None
    ensures forall k' :: k' != k ==> Get(r, k') == Get(d, k')
    ensures k !in Keys(d) ==> r == d
    ensures forall k' :: k' in Keys(r) <==> k' in Keys(d) && k' != k
  {
    if d == [] then []
    else if d[0].0 == k then Pop(d[1..], k)
    else [d[0]] + Pop(d[1..], k)
  }

  /** Removal keeps the keys distinct. */
  lemma {:induction false} PopKeepsDistinct<V>(d: Dict<V>, k: string)
    requires DistinctKeys(d)
    ensures DistinctKeys(Pop(d, k))
  {
    if d != [] {
      assert DistinctKeys(d[1..]);
      PopKeepsDistinct(d[1..], k);
      if d[0].0 != k {
        var rest := Pop(d[1..], k);
        assert d[0].0 !in Keys(d[1..]);
        assert d[0].0 !in Keys(rest);
        assert forall j :: 0 <= j < |rest| ==> rest[j].0 == Keys(rest)[j];
      }
    }
  }

  /** Assigning the same key twice keeps only the second value. */
  lemma {:induction false} SetSet<V>(d: Dict<V>, k: string, v: V, w: V)
    ensures Set(Set(d, k, v), k, w) == Set(d, k, w)
  {
    if d != [] && d[0].0 != k {
      SetSet(d[1..], k, v, w);
    }
  }

  /** Popping a key twice is the same as popping it once. */
  lemma PopPop<V>(d: Dict<V>, k: string)
    ensures Pop(Pop(d, k), k) == Pop(d, k)
  {
  }
}
