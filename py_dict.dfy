/** Python dictionaries with string keys and values, which remember the
    order in which keys were first inserted. A dictionary is the sequence of
    its (key, value) entries in that order. */
module PyDict {

  type Dict = seq<(string, string)>

  /** `list(d.keys())`. */
  function Keys(d: Dict): (ks: seq<string>)
    ensures |ks| == |d|
    ensures forall i :: 0 <= i < |d| ==> ks[i] == d[i].0
  {
    if d == [] then [] else [d[0].0] + Keys(d[1..])
  }

  lemma KeysConcat(a: Dict, b: Dict)
    ensures Keys(a + b) == Keys(a) + Keys(b)
  {
  }

  /** `list(d.values())`. */
  function Values(d: Dict): (vs: seq<string>)
    ensures |vs| == |d|
    ensures forall i :: 0 <= i < |d| ==> vs[i] == d[i].1
  {
    if d == [] then [] else [d[0].1] + Values(d[1..])
  }

  /** No key occurs twice: true of every Python dictionary. */
  predicate DistinctKeys(ks: seq<string>)
  {
    forall i, j :: 0 <= i < j < |ks| ==> ks[i] != ks[j]
  }

  /** `d.get(key, default)`. */
  function Get(d: Dict, key: string, default: string): (v: string)
    ensures key !in Keys(d) ==> v == default
    ensures DistinctKeys(Keys(d)) ==>
      forall i :: 0 <= i < |d| && d[i].0 == key ==> v == d[i].1
  {
    if d == [] then default
    else if d[0].0 == key then d[0].1
    else Get(d[1..], key, default)
  }

  /** `d[key] = value`: replaces the value in place when `key` is present
      (its position is kept), appends a new entry otherwise. */
  function Put(d: Dict, key: string, value: string): (r: Dict)
    ensures key !in Keys(d) ==> r == d + [(key, value)]
    ensures key in Keys(d) ==> Keys(r) == Keys(d)
    ensures DistinctKeys(Keys(d)) && key in Keys(d) ==>
      && |r| == |d|
      && forall i :: 0 <= i < |d| ==> r[i] == (if d[i].0 == key then (key, value) else d[i])
  {
    if d == [] then [(key, value)]
    else
      KeysTail(d, key);
      if d[0].0 == key then [(key, value)] + d[1..]
      else
        var rest := Put(d[1..], key, value);
        [d[0]] + rest
  }

  /** What the keys of a non-empty dictionary say about those of its tail. */
  lemma KeysTail(d: Dict, key: string)
    requires d != []
    ensures Keys(d) == [d[0].0] + Keys(d[1..])
    ensures key in Keys(d) && d[0].0 != key ==> key in Keys(d[1..])
    ensures DistinctKeys(Keys(d)) ==>
      && DistinctKeys(Keys(d[1..]))
      && forall i :: 1 <= i < |d| ==> d[i].0 != d[0].0
  {
    if DistinctKeys(Keys(d)) {
      var ks := Keys(d);
      forall i | 1 <= i < |d| ensures d[i].0 != d[0].0 {
        assert ks[0] != ks[i];
      }
    }
  }

  /** `{**a, **b}`: the entries of `a`, updated and then extended by the
      entries of `b`, in `b`'s order. */
  function Merge(a: Dict, b: Dict): (r: Dict)
    ensures |r| >= |a|
    ensures forall i :: 0 <= i < |a| ==> r[i].0 == a[i].0
    decreases |b|
  {
    if b == [] then a else Merge(Put(a, b[0].0, b[0].1), b[1..])
  }

  /** The dictionary whose keys are `ks` and whose values are `vs`, paired
      in order: `dict(zip(ks, vs))` for distinct keys. */
  function Zip(ks: seq<string>, vs: seq<string>): (d: Dict)
    requires |ks| == |vs|
    ensures Keys(d) == ks && Values(d) == vs
  {
    if ks == [] then [] else [(ks[0], vs[0])] + Zip(ks[1..], vs[1..])
  }

  /** No key of `ka` is a key of `kb`. */
  predicate DisjointKeys(ka: seq<string>, kb: seq<string>)
  {
    forall i, j :: 0 <= i < |ka| && 0 <= j < |kb| ==> ka[i] != kb[j]
  }

  /** When no key of `b` is already in `a`, and `b` has no key twice, the
      merge keeps every entry of `a` in place and appends those of `b`. */
  lemma {:induction false} MergeDisjoint(a: Dict, b: Dict)
    requires DistinctKeys(Keys(b))
    requires DisjointKeys(Keys(a), Keys(b))
    ensures Merge(a, b) == a + b
    decreases |b|
  {
    if b != [] {
      MergeTail(a, b);
      MergeDisjoint(a + [b[0]], b[1..]);
      AppendHead(a, b);
    }
  }

  lemma AppendHead(a: Dict, b: Dict)
    requires b != []
    ensures a + [b[0]] + b[1..] == a + b
  {
    assert b == [b[0]] + b[1..];
  }

  /** The first step of a disjoint merge appends the first entry of `b` to
      `a`, and the preconditions of `MergeDisjoint` carry over to the rest
      of `b`. */
  lemma MergeTail(a: Dict, b: Dict)
    requires b != []
    requires DistinctKeys(Keys(b))
    requires DisjointKeys(Keys(a), Keys(b))
    ensures Merge(a, b) == Merge(a + [b[0]], b[1..])
    ensures DistinctKeys(Keys(b[1..]))
    ensures DisjointKeys(Keys(a + [b[0]]), Keys(b[1..]))
  {
    KeysCarry(a, b);
    assert Put(a, b[0].0, b[0].1) == a + [b[0]];
  }

  /** The key facts behind `MergeTail`: the first key of `b` is not in `a`,
      and the preconditions carry over once the first entry has moved. */
  lemma KeysCarry(a: Dict, b: Dict)
    requires b != []
    requires DistinctKeys(Keys(b))
    requires DisjointKeys(Keys(a), Keys(b))
    ensures b[0].0 !in Keys(a)
    ensures DistinctKeys(Keys(b[1..]))
    ensures DisjointKeys(Keys(a + [b[0]]), Keys(b[1..]))
  {
    var ks := Keys(b);
    assert ks[0] == b[0].0;
    assert forall i :: 0 <= i < |a| ==> Keys(a)[i] != ks[0];
    assert Keys(b[1..]) == ks[1..];
    KeysConcat(a, [b[0]]);
    var ka := Keys(a + [b[0]]);
    forall i, j | 0 <= i < |ka| && 0 <= j < |ks| - 1 ensures ka[i] != ks[1..][j] {
      if i < |a| {
        assert ka[i] == Keys(a)[i];
      }
    }
  }

  /** Pairing the keys with the values gives the dictionary back. */
  lemma {:induction false} ZipKeysValues(d: Dict)
    ensures Zip(Keys(d), Values(d)) == d
  {
    if d != [] {
      assert Keys(d)[1..] == Keys(d[1..]);
      assert Values(d)[1..] == Values(d[1..]);
      ZipKeysValues(d[1..]);
    }
  }
}
