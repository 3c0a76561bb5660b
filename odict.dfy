// Python's insertion-ordered `dict` from strings to strings, as both
// preprocessors use it for sections and miscellaneous buckets: assigning an
// existing key keeps its position, a new key goes last, and
// `dict(a, **b)` copies a and then assigns each entry of b in b's order.
module OrderedDict {

  /** The keys in insertion order and the value of each key. */
  datatype Dict = Dict(keys: seq<string>, vals: map<string, string>)

  /** Keys are distinct and are exactly the keys of the value map. */
  ghost predicate Valid(d: Dict)
  {
    && Distinct(d.keys)
    && (forall k :: k in d.vals <==> k in d.keys)
  }

  /** `{}` */
  function Empty(): (r: Dict)
    ensures Valid(r) && r.keys == [] && r.vals == map[]
  {
    Dict([], map[])
  }

  /** `d[k] = v` */
  function Set(d: Dict, k: string, v: string): (r: Dict)
  {
    if k in d.vals then Dict(d.keys, d.vals[k := v]) else Dict(d.keys + [k], d.vals[k := v])
  }

  /**
   * Assignment keeps the dict valid, makes k read back as v, leaves every
   * other key's value alone, keeps the position of an existing key and
   * puts a new key last.
   */
  lemma SetFacts(d: Dict, k: string, v: string)
    requires Valid(d)
    ensures var r := Set(d, k, v);
      && Valid(r)
      && k in r.vals && r.vals[k] == v
      && (forall j :: j != k ==> (j in r.vals <==> j in d.vals) && (j in d.vals ==> r.vals[j] == d.vals[j]))
      && (k in d.vals ==> r.keys == d.keys)
      && (k !in d.vals ==> r.keys == d.keys + [k])
  {
  }

  /** Assigning every key of ks, in order, its value in m. */
  function SetAll(d: Dict, ks: seq<string>, m: map<string, string>): (r: Dict)
    requires forall k :: k in ks ==> k in m
    decreases |ks|
  {
    if ks == [] then d else SetAll(Set(d, ks[0], m[ks[0]]), ks[1..], m)
  }

  /** `dict(a, **b)` */
  function Merge(a: Dict, b: Dict): (r: Dict)
    requires Valid(b)
  {
    SetAll(a, b.keys, b.vals)
  }

  /** The keys of ks that m does not have, in order. */
  function Missing(ks: seq<string>, m: map<string, string>): (r: seq<string>)
    ensures forall k :: k in r <==> k in ks && k !in m
  {
    if ks == [] then []
    else if ks[0] in m then Missing(ks[1..], m)
    else [ks[0]] + Missing(ks[1..], m)
  }

  /** Missing only depends on which keys of ks the map has. */
  lemma {:induction false} MissingSameKeys(ks: seq<string>, m1: map<string, string>, m2: map<string, string>)
    requires forall k :: k in ks ==> (k in m1 <==> k in m2)
    ensures Missing(ks, m1) == Missing(ks, m2)
  {
    if ks != [] {
      MissingSameKeys(ks[1..], m1, m2);
    }
  }

  /** The keys of ks are distinct. */
  ghost predicate Distinct(ks: seq<string>)
  {
    forall i, j :: 0 <= i < j < |ks| ==> ks[i] != ks[j]
  }

  /** Dropping the first of distinct keys leaves distinct keys without it. */
  lemma DistinctTail(ks: seq<string>)
    requires ks != [] && Distinct(ks)
    ensures Distinct(ks[1..]) && ks[0] !in ks[1..]
  {
    forall i, j | 0 <= i < j < |ks[1..]|
      ensures ks[1..][i] != ks[1..][j]
    {
      assert ks[1..][i] == ks[i + 1] && ks[1..][j] == ks[j + 1];
    }
    forall i | 0 <= i < |ks[1..]|
      ensures ks[1..][i] != ks[0]
    {
      assert ks[1..][i] == ks[i + 1];
    }
  }

  /** Assigning the keys ks keeps the dict valid and adds exactly the keys of ks. */
  lemma {:induction false} SetAllValid(d: Dict, ks: seq<string>, m: map<string, string>)
    requires Valid(d)
    requires forall k :: k in ks ==> k in m
    ensures var r := SetAll(d, ks, m);
      Valid(r) && forall k :: k in r.vals <==> k in d.vals || k in ks
    decreases |ks|
  {
    if ks != [] {
      SetFacts(d, ks[0], m[ks[0]]);
      SetAllValid(Set(d, ks[0], m[ks[0]]), ks[1..], m);
    }
  }

  /**
   * Assigning the distinct keys ks in order keeps the old keys as a prefix
   * and adds the new ones after them in the order of ks.
   */
  lemma {:induction false} SetAllKeys(d: Dict, ks: seq<string>, m: map<string, string>)
    requires Valid(d)
    requires forall k :: k in ks ==> k in m
    requires Distinct(ks)
    ensures SetAll(d, ks, m).keys == d.keys + Missing(ks, d.vals)
    decreases |ks|
  {
    if ks != [] {
      var k := ks[0];
      var d' := Set(d, k, m[k]);
      SetFacts(d, k, m[k]);
      DistinctTail(ks);
      SetAllKeys(d', ks[1..], m);
      MissingSameKeys(ks[1..], d'.vals, d.vals);
      if k !in d.vals {
        assert d.keys + Missing(ks, d.vals) == (d.keys + [k]) + Missing(ks[1..], d.vals);
      }
    }
  }

  /** After assigning the distinct keys ks, each reads back its value in m and the other keys keep theirs. */
  lemma {:induction false} SetAllValues(d: Dict, ks: seq<string>, m: map<string, string>)
    requires Valid(d)
    requires forall k :: k in ks ==> k in m
    requires Distinct(ks)
    ensures var r := SetAll(d, ks, m);
      && (forall k :: k in ks ==> k in r.vals && r.vals[k] == m[k])
      && (forall k :: k !in ks && k in d.vals ==> k in r.vals && r.vals[k] == d.vals[k])
    decreases |ks|
  {
    if ks != [] {
      var k := ks[0];
      SetFacts(d, k, m[k]);
      DistinctTail(ks);
      SetAllValues(Set(d, k, m[k]), ks[1..], m);
      SetAllValid(Set(d, k, m[k]), ks[1..], m);
    }
  }

  /**
   * `dict(a, **b)`: the keys of a first, in their order, then the keys of b
   * that a lacks, in b's order; b's value wins on a shared key.
   */
  lemma MergeFacts(a: Dict, b: Dict)
    requires Valid(a) && Valid(b)
    ensures var r := Merge(a, b);
      && Valid(r)
      && r.keys == a.keys + Missing(b.keys, a.vals)
      && (forall k :: k in r.vals <==> k in a.vals || k in b.vals)
      && (forall k :: k in b.vals ==> r.vals[k] == b.vals[k])
      && (forall k :: k !in b.vals && k in a.vals ==> r.vals[k] == a.vals[k])
  {
    SetAllValid(a, b.keys, b.vals);
    SetAllKeys(a, b.keys, b.vals);
    SetAllValues(a, b.keys, b.vals);
  }
}
