/** Python `dict` with string keys, as an insertion-ordered association
    list.  Assigning to an existing key keeps its position; a new key is
    appended; deleting removes the entry.  These are the ordering rules of
    Python 3.7+ dictionaries, which `to_dict` and JSON serialisation expose.
 */
module Dicts {

  import opened Errors

  type Dict<V> = seq<(string, V)>

  /** The keys in iteration order. */
  function Keys<V>(d: Dict<V>): (r: seq<string>)
    ensures |r| == |d|
    ensures forall i :: 0 <= i < |d| ==> r[i] == d[i].0
  {
    seq(|d|, i requires 0 <= i < |d| => d[i].0)
  }

  /** No key occurs twice: the invariant every dictionary keeps. */
  predicate Distinct(keys: seq<string>) {
    forall i, j :: 0 <= i < j < |keys| ==> keys[i] != keys[j]
  }

  predicate WellFormed<V>(d: Dict<V>) {
    Distinct(Keys(d))
  }

  /** `d.get(k)`: the value stored under `k`, if any. */
  function Get<V>(d: Dict<V>, k: string): (r: Option<V>)
    ensures r.Some? <==> k in Keys(d)
    decreases |d|
  {
    if |d| == 0 then None
    else if d[0].0 == k then Some(d[0].1)
    else
      assert Keys(d) == [d[0].0] + Keys(d[1..]);
      Get(d[1..], k)
  }

  /** The first entry under a key is the one `Get` finds. */
  lemma {:induction false} GetIndex<V>(d: Dict<V>, i: int)
    requires 0 <= i < |d|
    requires forall j :: 0 <= j < i ==> d[j].0 != d[i].0
    ensures Get(d, d[i].0) == Some(d[i].1)
    decreases i
  {
    if i > 0 {
      GetIndex(d[1..], i - 1);
    }
  }

  /** The dictionary display `{keys[0]: vals[0], ...}`. */
  function Zip<V>(keys: seq<string>, vals: seq<V>): (r: Dict<V>)
    requires |keys| == |vals|
    ensures Keys(r) == keys
    ensures Distinct(keys) ==> WellFormed(r)
  {
    var r := seq(|keys|, i requires 0 <= i < |keys| => (keys[i], vals[i]));
    assert Keys(r) == keys;
    r
  }

  /** In a display with distinct keys each key reads its own value. */
  lemma ZipGet<V>(keys: seq<string>, vals: seq<V>, i: int)
    requires |keys| == |vals| && Distinct(keys)
    requires 0 <= i < |keys|
    ensures Get(Zip(keys, vals), keys[i]) == Some(vals[i])
  {
    var d := Zip(keys, vals);
    assert Keys(d) == keys;
    GetIndex(d, i);
  }

  /** `d[k]`: raises KeyError when `k` is absent. */
  function At<V>(d: Dict<V>, k: string): (r: Result<V>)
    ensures r.Ok? <==> k in Keys(d)
    ensures r.Ok? ==> Get(d, k) == Some(r.value)
    ensures r.Err? ==> r.error == KeyError
  {
    match Get(d, k)
    case Some(v) => Ok(v)
    case None => Err(KeyError)
  }

  /** `d[k] = v`: an existing key keeps its place, a new key goes last. */
  function Set<V>(d: Dict<V>, k: string, v: V): (r: Dict<V>)
    ensures Keys(r) == if k in Keys(d) then Keys(d) else Keys(d) + [k]
    decreases |d|
  {
    if |d| == 0 then [(k, v)]
    else if d[0].0 == k then [(k, v)] + d[1..]
    else
      assert Keys(d) == [d[0].0] + Keys(d[1..]);
      var r := [d[0]] + Set(d[1..], k, v);
      assert Keys(r) == [d[0].0] + Keys(Set(d[1..], k, v));
      r
  }

  /** After `d[k] = v`, `d[k]` is `v` and every other key reads as before. */
  lemma {:induction false} SetGet<V>(d: Dict<V>, k: string, v: V, j: string)
    ensures Get(Set(d, k, v), j) == if j == k then Some(v) else Get(d, j)
    decreases |d|
  {
    if |d| > 0 && d[0].0 != k {
      SetGet(d[1..], k, v, j);
    }
  }

  /** Assigning keeps keys distinct. */
  lemma {:induction false} SetWellFormed<V>(d: Dict<V>, k: string, v: V)
    requires WellFormed(d)
    ensures WellFormed(Set(d, k, v))
  {
    var r := Set(d, k, v);
    if k !in Keys(d) {
      assert Keys(r) == Keys(d) + [k];
    }
  }

  /** `for k, v in pairs: d[k] = v`: assigning the pairs in order, so a
      later pair overwrites an earlier one with the same key. */
  function Fill<V>(d: Dict<V>, es: seq<(string, V)>): Dict<V>
    decreases |es|
  {
    if |es| == 0 then d
    else Fill(Set(d, es[0].0, es[0].1), es[1..])
  }

  /** The value of the last pair with key `k`, if any. */
  function LastValue<V>(es: seq<(string, V)>, k: string): (r: Option<V>)
    decreases |es|
  {
    if |es| == 0 then None
    else
      var rest := LastValue(es[1..], k);
      if rest.Some? then rest else if es[0].0 == k then Some(es[0].1) else None
  }

  /** After the assignments a key reads the value of its last pair, or
      what it read before when no pair has it. */
  lemma {:induction false} FillGet<V>(d: Dict<V>, es: seq<(string, V)>, k: string)
    ensures Get(Fill(d, es), k) == match LastValue(es, k)
                                   case Some(v) => Some(v)
                                   case None => Get(d, k)
    decreases |es|
  {
    if |es| > 0 {
      FillGet(Set(d, es[0].0, es[0].1), es[1..], k);
      SetGet(d, es[0].0, es[0].1, k);
    }
  }

  /** Assigning keeps keys distinct. */
  lemma {:induction false} FillWellFormed<V>(d: Dict<V>, es: seq<(string, V)>)
    requires WellFormed(d)
    ensures WellFormed(Fill(d, es))
    decreases |es|
  {
    if |es| > 0 {
      SetWellFormed(d, es[0].0, es[0].1);
      FillWellFormed(Set(d, es[0].0, es[0].1), es[1..]);
    }
  }

  /** Some pair has key `k` exactly when a last one does. */
  lemma {:induction false} LastValueSome<V>(es: seq<(string, V)>, k: string)
    ensures LastValue(es, k).Some? <==> exists i :: 0 <= i < |es| && es[i].0 == k
    decreases |es|
  {
    if |es| > 0 {
      LastValueSome(es[1..], k);
      if exists i :: 0 <= i < |es| && es[i].0 == k {
        var i :| 0 <= i < |es| && es[i].0 == k;
        if i > 0 {
          assert es[1..][i - 1] == es[i];
        }
      }
      if LastValue(es[1..], k).Some? {
        var i :| 0 <= i < |es[1..]| && es[1..][i].0 == k;
        assert es[i + 1] == es[1..][i];
      }
    }
  }

  /** A pair with no later pair of the same key gives the last value. */
  lemma {:induction false} LastValueOf<V>(es: seq<(string, V)>, i: int)
    requires 0 <= i < |es|
    requires forall j :: i < j < |es| ==> es[j].0 != es[i].0
    ensures LastValue(es, es[i].0) == Some(es[i].1)
    decreases |es|
  {
    LastValueSome(es[1..], es[i].0);
    if i > 0 {
      forall j | i - 1 < j < |es[1..]|
        ensures es[1..][j].0 != es[1..][i - 1].0
      {
        assert es[1..][j] == es[j + 1];
      }
      LastValueOf(es[1..], i - 1);
    }
  }

  /** `del d[k]`, removing the first entry under `k` (the only one in a
      well-formed dictionary). */
  function Remove<V>(d: Dict<V>, k: string): (r: Dict<V>)
    ensures |r| <= |d|
    decreases |d|
  {
    if |d| == 0 then d
    else if d[0].0 == k then d[1..]
    else [d[0]] + Remove(d[1..], k)
  }

  /** After `del d[k]` the key is gone and the others read as before. */
  lemma {:induction false} RemoveGet<V>(d: Dict<V>, k: string, j: string)
    requires WellFormed(d)
    ensures Get(Remove(d, k), j) == if j == k then None else Get(d, j)
    decreases |d|
  {
    if |d| > 0 {
      DistinctCons(d[0].0, Keys(d[1..]));
      assert Keys(d) == [d[0].0] + Keys(d[1..]);
      if d[0].0 != k {
        RemoveGet(d[1..], k, j);
      }
    }
  }

  /** Removing keeps keys distinct. */
  lemma {:induction false} RemoveWellFormed<V>(d: Dict<V>, k: string)
    requires WellFormed(d)
    ensures WellFormed(Remove(d, k))
    decreases |d|
  {
    if |d| > 0 {
      DistinctCons(d[0].0, Keys(d[1..]));
      assert Keys(d) == [d[0].0] + Keys(d[1..]);
      if d[0].0 != k {
        var rest := Remove(d[1..], k);
        RemoveWellFormed(d[1..], k);
        RemoveKeys(d[1..], k);
        assert Remove(d, k) == [d[0]] + rest;
        assert Keys([d[0]] + rest) == [d[0].0] + Keys(rest);
        DistinctCons(d[0].0, Keys(rest));
      }
    }
  }

  lemma DistinctCons(x: string, ks: seq<string>)
    ensures Distinct([x] + ks) <==> x !in ks && Distinct(ks)
  {
    var l := [x] + ks;
    if x !in ks && Distinct(ks) {
      forall i, j | 0 <= i < j < |l|
        ensures l[i] != l[j]
      {
        if i > 0 {
          assert l[i] == ks[i - 1] && l[j] == ks[j - 1];
        } else {
          assert l[j] == ks[j - 1];
        }
      }
    }
    if Distinct(l) {
      forall i, j | 0 <= i < j < |ks|
        ensures ks[i] != ks[j]
      {
        assert l[i + 1] == ks[i] && l[j + 1] == ks[j];
      }
      forall i | 0 <= i < |ks|
        ensures ks[i] != x
      {
        assert l[0] == x && l[i + 1] == ks[i];
        assert 0 < i + 1 < |l|;
      }
    }
  }

  /** Removing never adds keys. */
  lemma {:induction false} RemoveKeys<V>(d: Dict<V>, k: string)
    ensures forall j :: j in Keys(Remove(d, k)) ==> j in Keys(d)
    decreases |d|
  {
    if |d| > 0 && d[0].0 != k {
      RemoveKeys(d[1..], k);
      assert Keys(Remove(d, k)) == [d[0].0] + Keys(Remove(d[1..], k));
      assert Keys(d) == [d[0].0] + Keys(d[1..]);
    }
  }

  /** The empty dictionary. */
  function Empty<V>(): (r: Dict<V>)
    ensures WellFormed(r)
    ensures forall k :: Get(r, k).None?
  {
    []
  }
}
