/**
 A Python `dict` of JSON scalars, as the conformer builds it: an association
 list kept in insertion order. Assigning to a key that is present overwrites
 the value where it stands; assigning to a new key appends it. That is the
 order in which `json.dumps` later writes the keys.
 */
module Dicts {

  import opened Values

  datatype Entry = Entry(key: string, value: Json)

  /** The entries of a dict, oldest key first. */
  type Dict = seq<Entry>

  /** The keys of `d` in iteration order. */
  function KeyList(d: Dict): seq<string>
  {
    seq(|d|, i requires 0 <= i < |d| => d[i].key)
  }

  predicate NoDup(ks: seq<string>)
  {
    forall i, j :: 0 <= i < j < |ks| ==> ks[i] != ks[j]
  }

  /** Every dict Python can build: no key occurs twice. */
  predicate Distinct(d: Dict)
  {
    NoDup(KeyList(d))
  }

  /** `d.get(k)`: the value stored under `k`, if any. */
  function Get(d: Dict, k: string): (r: Option<Json>)
    ensures r.Some? <==> k in KeyList(d)
  {
    if d == [] then None
    else
      assert KeyList(d) == [d[0].key] + KeyList(d[1..]);
      if d[0].key == k then Some(d[0].value) else Get(d[1..], k)
  }

  /** `d[k] = v`: overwrite in place when `k` is present, append otherwise. */
  function Set(d: Dict, k: string, v: Json): (r: Dict)
    ensures KeyList(r) == if k in KeyList(d) then KeyList(d) else KeyList(d) + [k]
  {
    if d == [] then [Entry(k, v)]
    else if d[0].key == k then
      assert KeyList(d) == [k] + KeyList(d[1..]);
      assert KeyList([Entry(k, v)] + d[1..]) == [k] + KeyList(d[1..]);
      [Entry(k, v)] + d[1..]
    else
      var rest := Set(d[1..], k, v);
      assert KeyList(d) == [d[0].key] + KeyList(d[1..]);
      assert KeyList([d[0]] + rest) == [d[0].key] + KeyList(rest);
      [d[0]] + rest
  }

  /** Assignment never repeats a key. */
  lemma SetDistinct(d: Dict, k: string, v: Json)
    requires Distinct(d)
    ensures Distinct(Set(d, k, v))
  {
    var ks := KeyList(d);
    if k !in ks {
      assert KeyList(Set(d, k, v)) == ks + [k];
      forall i, j | 0 <= i < j < |ks| + 1 ensures (ks + [k])[i] != (ks + [k])[j] {
        if j == |ks| {
          assert ks[i] in ks;
        }
      }
    }
  }

  /** After `d[k] = v`, `k` holds `v` and every other key what it held. */
  lemma {:induction false} GetSet(d: Dict, k: string, v: Json, k': string)
    ensures Get(Set(d, k, v), k') == if k' == k then Some(v) else Get(d, k')
  {
    if d != [] && d[0].key != k {
      GetSet(d[1..], k, v, k');
      assert Set(d, k, v)[1..] == Set(d[1..], k, v);
    }
  }

  /** `for k in es: d[k] = es[k]`, written as a fold that consumes `es`
      from its last entry backwards so that it matches a loop over prefixes. */
  function SetAll(d: Dict, es: Dict): Dict
  {
    if es == [] then d
    else
      var n := |es| - 1;
      Set(SetAll(d, es[..n]), es[n].key, es[n].value)
  }

  /** Copying a two-entry dict is two assignments. */
  lemma SetAllPair(d: Dict, e1: Entry, e2: Entry)
    ensures SetAll(d, [e1, e2]) == Set(Set(d, e1.key, e1.value), e2.key, e2.value)
  {
    var es := [e1, e2];
    assert es[..1] == [e1];
    assert [e1][..0] == [];
    assert SetAll(d, [e1]) == Set(SetAll(d, []), e1.key, e1.value);
    assert SetAll(d, es) == Set(SetAll(d, [e1]), e2.key, e2.value);
  }

  /** `[k for k in ks if k not in excluded]`. */
  function Without(ks: seq<string>, excluded: seq<string>): seq<string>
  {
    if ks == [] then []
    else
      var n := |ks| - 1;
      Without(ks[..n], excluded) + (if ks[n] in excluded then [] else [ks[n]])
  }

  /** Filtering keeps exactly the keys that are not excluded. */
  lemma {:induction false} InWithout(ks: seq<string>, excluded: seq<string>, k: string)
    ensures k in Without(ks, excluded) <==> k in ks && k !in excluded
  {
    if ks != [] {
      var n := |ks| - 1;
      assert ks == ks[..n] + [ks[n]];
      InWithout(ks[..n], excluded, k);
    }
  }

  /** Filtering a list without repeats gives a list without repeats. */
  lemma {:induction false} WithoutNoDup(ks: seq<string>, excluded: seq<string>)
    requires NoDup(ks)
    ensures NoDup(Without(ks, excluded))
  {
    if ks != [] {
      var n := |ks| - 1;
      WithoutNoDup(ks[..n], excluded);
      InWithout(ks[..n], excluded, ks[n]);
      assert ks[n] !in ks[..n] by {
        forall j | 0 <= j < n ensures ks[..n][j] != ks[n] {
          assert ks[j] != ks[n];
        }
      }
    }
  }

  /** Filtering by a list that shares no key with `ks` keeps all of `ks`. */
  lemma {:induction false} WithoutNone(ks: seq<string>, excluded: seq<string>)
    requires forall i :: 0 <= i < |ks| ==> ks[i] !in excluded
    ensures Without(ks, excluded) == ks
  {
    if ks != [] {
      var n := |ks| - 1;
      assert ks == ks[..n] + [ks[n]];
      WithoutNone(ks[..n], excluded);
    }
  }

  /** A key that is not among `hs` occurs in `hs` followed by the keys of `ks`
      not in `hs` exactly when it occurs in `ks`. */
  lemma InAppendedWithout(hs: seq<string>, ks: seq<string>, k: string)
    requires k !in hs
    ensures k in hs + Without(ks, hs) <==> k in ks
  {
    InWithout(ks, hs, k);
  }

  /** Filtering depends only on which of the filtered keys are excluded. */
  lemma {:induction false} WithoutSame(ks: seq<string>, a: seq<string>, b: seq<string>)
    requires forall i :: 0 <= i < |ks| ==> (ks[i] in a <==> ks[i] in b)
    ensures Without(ks, a) == Without(ks, b)
  {
    if ks != [] {
      var n := |ks| - 1;
      WithoutSame(ks[..n], a, b);
    }
  }

  /** In a dict without repeated keys, looking up the key at position `i`
      finds the value at position `i`. */
  lemma {:induction false} GetAt(d: Dict, i: int)
    requires Distinct(d) && 0 <= i < |d|
    ensures Get(d, d[i].key) == Some(d[i].value)
  {
    assert KeyList(d) == [d[0].key] + KeyList(d[1..]);
    if i > 0 {
      assert KeyList(d)[0] != KeyList(d)[i];
      assert KeyList(d[1..]) == KeyList(d)[1..];
      GetAt(d[1..], i - 1);
    }
  }

  /** Lookup in a concatenation finds the first part's entry first. */
  lemma {:induction false} GetAppend(p: Dict, q: Dict, k: string)
    ensures Get(p + q, k) == if k in KeyList(p) then Get(p, k) else Get(q, k)
  {
    if p != [] {
      assert (p + q)[1..] == p[1..] + q;
      assert KeyList(p) == [p[0].key] + KeyList(p[1..]);
      GetAppend(p[1..], q, k);
    } else {
      assert p + q == q;
    }
  }

  /** Two dicts with the same keys in the same order and the same value under
      every key are the same dict. */
  lemma Extensionality(a: Dict, b: Dict)
    requires Distinct(a) && Distinct(b)
    requires KeyList(a) == KeyList(b)
    requires forall k :: Get(a, k) == Get(b, k)
    ensures a == b
  {
    assert |a| == |KeyList(a)| == |KeyList(b)| == |b|;
    forall i | 0 <= i < |a| ensures a[i] == b[i] {
      assert KeyList(a)[i] == KeyList(b)[i];
      GetAt(a, i);
      GetAt(b, i);
    }
  }

  /** Copying a dict `es` into `d` key by key keeps the keys of `d` where
      they are and appends the new keys of `es` in their own order. */
  lemma {:induction false} SetAllKeys(d: Dict, es: Dict)
    requires Distinct(d) && Distinct(es)
    ensures Distinct(SetAll(d, es))
    ensures KeyList(SetAll(d, es)) == KeyList(d) + Without(KeyList(es), KeyList(d))
  {
    if es != [] {
      var n := |es| - 1;
      var p, e := es[..n], es[n];
      assert KeyList(es) == KeyList(p) + [e.key];
      assert Distinct(p) by {
        assert KeyList(p) == KeyList(es)[..n];
      }
      assert e.key !in KeyList(p) by {
        forall j | 0 <= j < n ensures KeyList(p)[j] != e.key {
          assert KeyList(es)[j] != KeyList(es)[n];
        }
      }
      SetAllKeys(d, p);
      InWithout(KeyList(p), KeyList(d), e.key);
      var m := SetAll(d, p);
      SetDistinct(m, e.key, e.value);
      assert SetAll(d, es) == Set(m, e.key, e.value);
      assert Without(KeyList(es), KeyList(d))
          == Without(KeyList(p), KeyList(d)) + (if e.key in KeyList(d) then [] else [e.key]);
    }
  }

  /** After copying a dict `es` into `d`, every key of `es` holds its value
      from `es` and every other key its value from `d`. */
  lemma {:induction false} SetAllGet(d: Dict, es: Dict, k: string)
    requires Distinct(es)
    ensures Get(SetAll(d, es), k) == if k in KeyList(es) then Get(es, k) else Get(d, k)
  {
    if es != [] {
      var n := |es| - 1;
      var p, e := es[..n], es[n];
      assert es == p + [e];
      assert KeyList(es) == KeyList(p) + [e.key];
      assert Distinct(p) by {
        assert KeyList(p) == KeyList(es)[..n];
      }
      SetAllGet(d, p, k);
      GetSet(SetAll(d, p), e.key, e.value, k);
      GetAppend(p, [e], k);
      if k == e.key {
        GetAt(es, n);
      }
    }
  }
}
