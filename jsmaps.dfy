// The JavaScript `Map`: a dictionary that remembers the order in which keys were first inserted.
module JsMaps {

  /** Keys in insertion order, each with its current value. */
  datatype JsMap<K(==, !new), V> = JsMap(keys: seq<K>, vals: map<K, V>) {

    ghost predicate Valid() {
      && (forall i, j :: 0 <= i < j < |keys| ==> keys[i] != keys[j])
      && (forall k :: k in vals <==> k in keys)
    }

    /** `m.has(k)`. */
    predicate Has(k: K) {
      k in vals
    }

    /** `m.get(k)` for a key that is present. */
    function Get(k: K): V
      requires Has(k)
    {
      vals[k]
    }

    /** `m.size`. */
    function Size(): nat {
      |keys|
    }

    /** `m.set(k, v)`: a present key keeps its position and gets the new value; a new key goes last. */
    function Set(k: K, v: V): (m: JsMap<K, V>)
      requires Valid()
      ensures m.Valid()
      ensures m.keys == if Has(k) then keys else keys + [k]
      ensures m.vals == vals[k := v]
    {
      if k in vals then JsMap(keys, vals[k := v]) else JsMap(keys + [k], vals[k := v])
    }

    /** `[...m.values()]`: the values in key order. */
    function Values(): (vs: seq<V>)
      requires Valid()
      ensures |vs| == |keys|
      ensures forall i :: 0 <= i < |keys| ==> vs[i] == vals[keys[i]]
    {
      seq(|keys|, i requires 0 <= i < |keys| => vals[keys[i]])
    }
  }

  function Empty<K(==, !new), V>(): (m: JsMap<K, V>)
    ensures m.Valid() && m.keys == []
  {
    JsMap([], map[])
  }

  /** `new Map(entries)`: the entries inserted one after the other with `set`. */
  function FromEntries<K(==, !new), V>(es: seq<(K, V)>): (m: JsMap<K, V>)
    ensures m.Valid()
  {
    if es == [] then Empty() else FromEntries(es[..|es| - 1]).Set(es[|es| - 1].0, es[|es| - 1].1)
  }

  /** Adding one entry is one more `set`. */
  lemma FromEntriesSnoc<K(!new), V>(es: seq<(K, V)>, k: K, v: V)
    ensures FromEntries(es + [(k, v)]) == FromEntries(es).Set(k, v)
  {
    assert (es + [(k, v)])[..|es|] == es;
  }

  /** The keys occurring among the entries. */
  function KeySet<K(==, !new), V>(es: seq<(K, V)>): (ks: set<K>)
    ensures forall i :: 0 <= i < |es| ==> es[i].0 in ks
    ensures forall k :: k in ks ==> exists i :: 0 <= i < |es| && es[i].0 == k
  {
    if es == [] then {} else KeySet(es[..|es| - 1]) + {es[|es| - 1].0}
  }

  /** The position of the first entry with key `k`. */
  function FirstIndex<K(==, !new), V>(es: seq<(K, V)>, k: K): (n: nat)
    requires k in KeySet(es)
    ensures n < |es| && es[n].0 == k
    ensures forall j :: 0 <= j < n ==> es[j].0 != k
  {
    var p := es[..|es| - 1];
    if k in KeySet(p) then FirstIndex(p, k) else |es| - 1
  }

  /** The position of the last entry with key `k`. */
  function LastIndex<K(==, !new), V>(es: seq<(K, V)>, k: K): (n: nat)
    requires k in KeySet(es)
    ensures n < |es| && es[n].0 == k
    ensures forall j :: n < j < |es| ==> es[j].0 != k
  {
    if es[|es| - 1].0 == k then |es| - 1 else LastIndex(es[..|es| - 1], k)
  }

  /** `new Map(entries)` has exactly the keys occurring among the entries. */
  lemma {:induction false} FromEntriesKeys<K(!new), V>(es: seq<(K, V)>)
    ensures forall k :: FromEntries(es).Has(k) <==> k in KeySet(es)
  {
    if es != [] {
      FromEntriesKeys(es[..|es| - 1]);
    }
  }

  /** A key of `new Map(entries)` occurs among the entries, at its first position. */
  lemma FromEntriesHas<K(!new), V>(es: seq<(K, V)>, k: K)
    requires FromEntries(es).Has(k)
    ensures k in KeySet(es)
  {
    FromEntriesKeys(es);
  }

  /** The keys of `new Map(entries)` are ordered by the position of their first entry. */
  lemma {:induction false} FromEntriesOrder<K(!new), V>(es: seq<(K, V)>)
    ensures forall i, j :: 0 <= i < j < |FromEntries(es).keys| ==>
              && FromEntries(es).keys[i] in KeySet(es) && FromEntries(es).keys[j] in KeySet(es)
              && FirstIndex(es, FromEntries(es).keys[i]) < FirstIndex(es, FromEntries(es).keys[j])
  {
    if es != [] {
      var p, e := es[..|es| - 1], es[|es| - 1];
      FromEntriesOrder(p);
      FromEntriesKeys(p);
      var m, m' := FromEntries(p), FromEntries(es);
      assert KeySet(es) == KeySet(p) + {e.0};
      forall i, j | 0 <= i < j < |FromEntries(es).keys|
        ensures && FromEntries(es).keys[i] in KeySet(es) && FromEntries(es).keys[j] in KeySet(es)
                && FirstIndex(es, FromEntries(es).keys[i]) < FirstIndex(es, FromEntries(es).keys[j])
      {
        assert m'.keys[i] in m.keys;
        assert m'.keys[i] in KeySet(p);
        assert FirstIndex(es, m'.keys[i]) == FirstIndex(p, m'.keys[i]);
        if j == |m.keys| {
          assert m'.keys[j] == e.0 && !m.Has(e.0);
          assert FirstIndex(es, m'.keys[j]) == |es| - 1;
        } else {
          assert m'.keys[j] in KeySet(p);
        }
      }
    } else {
      assert FromEntries(es).keys == [];
    }
  }

  /** Each key of `new Map(entries)` holds the value of its last entry. */
  lemma {:induction false} FromEntriesValues<K(!new), V>(es: seq<(K, V)>)
    ensures forall k :: k in KeySet(es) ==> FromEntries(es).Has(k) && FromEntries(es).Get(k) == es[LastIndex(es, k)].1
  {
    if es != [] {
      FromEntriesValues(es[..|es| - 1]);
    }
  }

  /** When no key repeats, the map has one key per entry. */
  lemma {:induction false} FromEntriesSize<K(!new), V>(es: seq<(K, V)>)
    requires forall i, j :: 0 <= i < j < |es| ==> es[i].0 != es[j].0
    ensures FromEntries(es).Size() == |es|
  {
    if es != [] {
      var p := es[..|es| - 1];
      FromEntriesSize(p);
      FromEntriesKeys(p);
      assert es[|es| - 1].0 !in KeySet(p);
    }
  }

  /** Each entry adds at most one key. */
  lemma {:induction false} FromEntriesSizeBound<K(!new), V>(es: seq<(K, V)>)
    ensures FromEntries(es).Size() <= |es|
  {
    if es != [] {
      FromEntriesSizeBound(es[..|es| - 1]);
    }
  }
}
