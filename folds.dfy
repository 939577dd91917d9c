/**
 * The loop shape shared by `_serialize` and `_deserialize` in
 * aws_proxy/dynamoDb/dynamo_operations.py: a key-by-key fold over a dict that
 * converts every value and stops at the first failing conversion.
 */
module Folds {
  import opened Wrappers
  import opened Dicts

  /**
   * The loop shape of `_serialize` and `_deserialize`: each entry of `d`, in
   * order, is converted by `f` and assigned into a new dict; the first failing
   * conversion raises. The keys of the result are the keys of `d`.
   */
  function MapEntries<A, B, E>(d: Dict<A>, f: (string, A) -> Result<B, E>): (r: Result<Dict<B>, E>)
    ensures r.Ok? ==> forall k :: k in Keys(r.value) <==> k in Keys(d)
    decreases |d|
  {
    if d == [] then Ok([])
    else
      var init := d[..|d| - 1];
      var last := d[|d| - 1];
      KeysOfInit(d);
      match MapEntries(init, f)
      case Err(e) => Err(e)
      case Ok(out) =>
        match f(last.0, last.1)
        case Err(e) => Err(e)
        case Ok(b) =>
          SetKeySet(out, last.0, b);
          Ok(Set(out, last.0, b))
  }

  /** Once a prefix of the entries fails, the whole fold fails with the same error. */
  lemma {:induction false} MapEntriesErrSticks<A, B, E>(d: Dict<A>, f: (string, A) -> Result<B, E>, i: nat)
    requires i <= |d| && MapEntries(d[..i], f).Err?
    ensures MapEntries(d, f) == MapEntries(d[..i], f)
    decreases |d|
  {
    if i < |d| {
      assert d[..|d| - 1][..i] == d[..i];
      MapEntriesErrSticks(d[..|d| - 1], f, i);
    } else {
      assert d[..i] == d;
    }
  }

  /** The fold succeeds exactly when every entry converts. */
  lemma {:induction false} MapEntriesOk<A, B, E>(d: Dict<A>, f: (string, A) -> Result<B, E>)
    ensures MapEntries(d, f).Ok? <==> forall i :: 0 <= i < |d| ==> f(d[i].0, d[i].1).Ok?
    decreases |d|
  {
    if d != [] {
      var init := d[..|d| - 1];
      var last := d[|d| - 1];
      MapEntriesOk(init, f);
      assert forall i :: 0 <= i < |init| ==> init[i] == d[i];
      var all := forall i :: 0 <= i < |d| ==> f(d[i].0, d[i].1).Ok?;
      var allInit := forall i :: 0 <= i < |init| ==> f(init[i].0, init[i].1).Ok?;
      assert all <==> allInit && f(last.0, last.1).Ok?;
      assert MapEntries(d, f).Ok? <==> MapEntries(init, f).Ok? && f(last.0, last.1).Ok?;
    }
  }

  /** The error the fold raises is that of the first entry that fails to convert. */
  lemma MapEntriesFirstError<A, B, E>(d: Dict<A>, f: (string, A) -> Result<B, E>, i: nat)
    requires i < |d|
    requires forall j :: 0 <= j < i ==> f(d[j].0, d[j].1).Ok?
    requires f(d[i].0, d[i].1).Err?
    ensures MapEntries(d, f) == Err(f(d[i].0, d[i].1).error)
  {
    var pre := d[..i + 1];
    assert pre[..i] == d[..i];
    MapEntriesOk(d[..i], f);
    assert MapEntries(pre, f) == Err(f(d[i].0, d[i].1).error);
    MapEntriesErrSticks(d, f, i + 1);
  }

  /** A successful fold is the fold of all but the last entry, with the last one assigned. */
  lemma MapEntriesLast<A, B, E>(d: Dict<A>, f: (string, A) -> Result<B, E>)
    requires d != [] && MapEntries(d, f).Ok?
    ensures MapEntries(d[..|d| - 1], f).Ok? && f(d[|d| - 1].0, d[|d| - 1].1).Ok?
    ensures MapEntries(d, f).value ==
              Set(MapEntries(d[..|d| - 1], f).value, d[|d| - 1].0, f(d[|d| - 1].0, d[|d| - 1].1).value)
  {
  }

  /** On a dict with distinct keys the fold keeps the number of entries. */
  lemma {:induction false} MapEntriesLength<A, B, E>(d: Dict<A>, f: (string, A) -> Result<B, E>)
    requires DistinctKeys(d)
    requires MapEntries(d, f).Ok?
    ensures |MapEntries(d, f).value| == |d|
    decreases |d|
  {
    if d != [] {
      var init := d[..|d| - 1];
      var last := d[|d| - 1];
      assert DistinctKeys(init);
      MapEntriesLast(d, f);
      MapEntriesLength(init, f);
      assert last.0 !in Keys(MapEntries(init, f).value);
    }
  }

  /** Entry `i` of the fold over a dict with distinct keys is key `i` with its converted value. */
  lemma {:induction false} MapEntriesAt<A, B, E>(d: Dict<A>, f: (string, A) -> Result<B, E>, i: nat)
    requires DistinctKeys(d)
    requires MapEntries(d, f).Ok?
    requires i < |d|
    ensures |MapEntries(d, f).value| == |d|
    ensures f(d[i].0, d[i].1).Ok? && MapEntries(d, f).value[i] == (d[i].0, f(d[i].0, d[i].1).value)
    decreases |d|
  {
    var init := d[..|d| - 1];
    var last := d[|d| - 1];
    assert DistinctKeys(init);
    MapEntriesLast(d, f);
    MapEntriesLength(init, f);
    var out := MapEntries(init, f).value;
    assert last.0 !in Keys(out);
    assert MapEntries(d, f).value == out + [(last.0, f(last.0, last.1).value)];
    if i < |init| {
      MapEntriesAt(init, f, i);
      assert d[i] == init[i];
    }
  }

  /**
   * On a dict with distinct keys the fold is pointwise: entry `i` of the
   * result is key `i` with its converted value, so the keys keep their order.
   */
  lemma {:induction false} MapEntriesPointwise<A, B, E>(d: Dict<A>, f: (string, A) -> Result<B, E>)
    requires DistinctKeys(d)
    requires MapEntries(d, f).Ok?
    ensures |MapEntries(d, f).value| == |d|
    ensures forall i :: 0 <= i < |d| ==>
              f(d[i].0, d[i].1).Ok? && MapEntries(d, f).value[i] == (d[i].0, f(d[i].0, d[i].1).value)
  {
    MapEntriesLength(d, f);
    forall i | 0 <= i < |d|
      ensures f(d[i].0, d[i].1).Ok? && MapEntries(d, f).value[i] == (d[i].0, f(d[i].0, d[i].1).value)
    {
      MapEntriesAt(d, f, i);
    }
  }
}
