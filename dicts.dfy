/**
 * Python's insertion-ordered `dict` with string keys: the key order as a
 * sequence and the contents as a map. Signatures, keyword arguments,
 * predictor outputs and the tool registry are all such dicts in the source.
 */
module Dicts {
  import opened Wrappers

  datatype Dict<V> = Dict(keys: seq<string>, vals: map<string, V>)

  /** No key twice, and the key order lists exactly the keys of the map. */
  ghost predicate Valid<V>(d: Dict<V>) {
    Distinct(d.keys) && forall k :: k in d.vals <==> k in d.keys
  }

  predicate Distinct(s: seq<string>) {
    forall i, j :: 0 <= i < j < |s| ==> s[i] != s[j]
  }

  /** `{}`. */
  function Empty<V>(): (d: Dict<V>)
    ensures Valid(d) && d.keys == []
  {
    Dict([], map[])
  }

  /** `d.get(k)`. */
  function Get<V>(d: Dict<V>, k: string): Option<V> {
    if k in d.vals then Some(d.vals[k]) else None
  }

  /** `d[k] = v`: a new key goes last, an existing key keeps its place and
      takes the new value. */
  function Put<V>(d: Dict<V>, k: string, v: V): (r: Dict<V>)
    ensures Valid(d) ==> Valid(r)
  {
    Dict(if k in d.vals then d.keys else d.keys + [k], d.vals[k := v])
  }

  /** The first components of a list of pairs. */
  function Names<V>(items: seq<(string, V)>): (r: seq<string>)
    ensures |r| == |items| && forall i :: 0 <= i < |items| ==> r[i] == items[i].0
  {
    seq(|items|, i requires 0 <= i < |items| => items[i].0)
  }

  /** `d.update(items)` for an ordered list of pairs: each pair in turn is
      written with `Put`, so a later pair overrides an earlier one with the
      same key, and the keys already present keep their places. */
  function PutAll<V>(d: Dict<V>, items: seq<(string, V)>): (r: Dict<V>)
    ensures Valid(d) ==> Valid(r)
    ensures d.keys <= r.keys
    ensures forall k :: k in r.vals <==> k in d.vals || k in Names(items)
    ensures forall k :: k in d.vals && k !in Names(items) ==> r.vals[k] == d.vals[k]
    ensures items != [] ==> var (k, v) := items[|items| - 1]; k in r.vals && r.vals[k] == v
    decreases |items|
  {
    if items == [] then d
    else
      var init := items[..|items| - 1];
      var (k, v) := items[|items| - 1];
      assert Names(items) == Names(init) + [k];
      Put(PutAll(d, init), k, v)
  }

  /** The position of the first `k` in `s`, or `|s|` when `k` is absent. */
  function FirstIndex(s: seq<string>, k: string): (i: nat)
    ensures i <= |s| && (i < |s| <==> k in s)
    ensures i < |s| ==> s[i] == k
    ensures forall j :: 0 <= j < i ==> s[j] != k
  {
    if s == [] then 0 else if s[0] == k then 0 else 1 + FirstIndex(s[1..], k)
  }

  /** Appending to a list moves no first position of a name already in it. */
  lemma FirstIndexSnoc(s: seq<string>, x: string, k: string)
    ensures k in s ==> FirstIndex(s + [x], k) == FirstIndex(s, k)
    ensures k !in s ==> FirstIndex(s + [x], k) == if k == x then |s| else |s| + 1
  {
    var i, i' := FirstIndex(s, k), FirstIndex(s + [x], k);
    if k in s {
      assert (s + [x])[i] == k;
    } else if k == x {
      assert (s + [x])[|s|] == k;
    } else {
      assert k !in s + [x];
    }
  }

  /** `dict(items)` lists each name once, in the order of its first pair. */
  lemma {:induction false} PutAllFirstOrder<V>(items: seq<(string, V)>)
    ensures KeysInFirstOrder(PutAll(Empty(), items).keys, Names(items))
    decreases |items|
  {
    if items != [] {
      var init := items[..|items| - 1];
      var (k, v) := items[|items| - 1];
      assert Names(items) == Names(init) + [k];
      PutAllFirstOrder(init);
      FirstOrderSnoc(PutAll(Empty(), init), Names(init), k, v);
    }
  }

  /** Every key of `keys` is in `names`, and the keys come in the order of
      their first occurrence in `names`. */
  ghost predicate KeysInFirstOrder(keys: seq<string>, names: seq<string>) {
    && (forall i :: 0 <= i < |keys| ==> keys[i] in names)
    && forall i, j :: 0 <= i < j < |keys| ==> FirstIndex(names, keys[i]) < FirstIndex(names, keys[j])
  }

  /** Writing one more pair keeps the keys in the order of first occurrence. */
  lemma FirstOrderSnoc<V>(m: Dict<V>, names: seq<string>, k: string, v: V)
    requires Valid(m) && KeysInFirstOrder(m.keys, names)
    requires forall x :: x in m.vals <==> x in names
    ensures KeysInFirstOrder(Put(m, k, v).keys, names + [k])
  {
    var n := names + [k];
    forall i | 0 <= i < |m.keys|
      ensures FirstIndex(n, m.keys[i]) == FirstIndex(names, m.keys[i]) < |names|
    {
      FirstIndexSnoc(names, k, m.keys[i]);
    }
    if k !in m.vals {
      assert Put(m, k, v).keys == m.keys + [k];
      FirstIndexSnoc(names, k, k);
    }
  }

  /** `list(d.items())`. */
  function Items<V>(d: Dict<V>): (r: seq<(string, V)>)
    requires Valid(d)
    ensures Names(r) == d.keys
    ensures forall i :: 0 <= i < |r| ==> r[i] == (d.keys[i], d.vals[d.keys[i]])
  {
    seq(|d.keys|, i requires 0 <= i < |d.keys| => (d.keys[i], d.vals[d.keys[i]]))
  }

  /** `dict(items)`. */
  function FromItems<V>(items: seq<(string, V)>): (d: Dict<V>)
    ensures Valid(d)
  {
    PutAll(Empty(), items)
  }

  /** Writing pairs whose keys are new and pairwise different appends them,
      in order, after the entries already there, each with its own value. */
  lemma {:induction false} PutAllFreshItems<V>(d: Dict<V>, items: seq<(string, V)>)
    requires Valid(d) && Distinct(Names(items))
    requires forall i :: 0 <= i < |items| ==> items[i].0 !in d.vals
    ensures Items(PutAll(d, items)) == Items(d) + items
    decreases |items|
  {
    if items == [] {
      assert Items(d) + items == Items(d);
    } else {
      var init := items[..|items| - 1];
      var last := items[|items| - 1];
      assert Distinct(Names(init)) by {
        assert Names(init) == Names(items)[..|items| - 1];
      }
      var m := PutAll(d, init);
      assert PutAll(d, items) == Put(m, last.0, last.1);
      calc {
        Items(PutAll(d, items));
        Items(Put(m, last.0, last.1));
        { FreshLast(d, items);
          ItemsPutFresh(m, last.0, last.1); }
        Items(m) + [(last.0, last.1)];
        { PutAllFreshItems(d, init); }
        (Items(d) + init) + [(last.0, last.1)];
        { AppendLast(Items(d), items); }
        Items(d) + items;
      }
    }
  }

  /** `(a + s[..n]) + [s[n]] == a + s` for the last index `n` of `s`. */
  lemma AppendLast<T>(a: seq<T>, s: seq<T>)
    requires s != []
    ensures (a + s[..|s| - 1]) + [s[|s| - 1]] == a + s
  {
    assert s == s[..|s| - 1] + [s[|s| - 1]];
  }

  /** `dict(items)` lists the pairs in order when their names are distinct. */
  lemma FromItemsItems<V>(items: seq<(string, V)>)
    requires Distinct(Names(items))
    ensures Items(FromItems(items)) == items
  {
    PutAllFreshItems(Empty(), items);
    assert Items(Empty<V>()) == [];
    assert [] + items == items;
  }

  /** Fresh pairs written into a dict with items `inputs` come after them. */
  lemma LayoutOf<V>(base: Dict<V>, inputs: seq<(string, V)>, items: seq<(string, V)>)
    requires Valid(base) && Items(base) == inputs && Distinct(Names(items))
    requires forall i :: 0 <= i < |items| ==> items[i].0 !in base.vals
    ensures Items(PutAll(base, items)) == inputs + items
  {
    PutAllFreshItems(base, items);
  }

  /** Concatenation is associative. */
  lemma ConcatAssoc<T>(a: seq<T>, b: seq<T>, c: seq<T>)
    ensures a + b + c == a + (b + c)
  {
  }

  /** The names of a concatenation. */
  lemma NamesConcat<V>(a: seq<(string, V)>, b: seq<(string, V)>)
    ensures Names(a + b) == Names(a) + Names(b)
  {
  }

  /** Two lists with distinct names and no name in common have distinct names together. */
  lemma DisjointNamesDistinct<V>(a: seq<(string, V)>, b: seq<(string, V)>)
    requires Distinct(Names(a)) && Distinct(Names(b))
    requires forall i, j :: 0 <= i < |a| && 0 <= j < |b| ==> a[i].0 != b[j].0
    ensures Distinct(Names(a + b))
  {
    var n := Names(a + b);
    forall i, j | 0 <= i < j < |a + b| ensures n[i] != n[j] {
      if j < |a| {
        assert n[i] == Names(a)[i] && n[j] == Names(a)[j];
      } else if i >= |a| {
        assert n[i] == Names(b)[i - |a|] && n[j] == Names(b)[j - |a|];
      } else {
        assert n[i] == a[i].0 && n[j] == b[j - |a|].0;
      }
    }
  }

  /** A name missing from both parts is missing from the whole. */
  lemma NotInNamesAppend<V>(a: seq<(string, V)>, b: seq<(string, V)>, k: string)
    requires k !in Names(a) && forall i :: 0 <= i < |b| ==> b[i].0 != k
    ensures k !in Names(a + b)
  {
    assert Names(a + b) == Names(a) + Names(b);
  }

  /** The last key of a list with distinct names is new after the others are written. */
  lemma FreshLast<V>(d: Dict<V>, items: seq<(string, V)>)
    requires items != [] && Distinct(Names(items)) && items[|items| - 1].0 !in d.vals
    ensures items[|items| - 1].0 !in PutAll(d, items[..|items| - 1]).vals
  {
    var n := |items| - 1;
    var init := items[..n];
    assert forall i :: 0 <= i < n ==> Names(init)[i] == Names(items)[i] != Names(items)[n];
  }

  /** A new key goes last. */
  lemma ItemsPutFresh<V>(d: Dict<V>, k: string, v: V)
    requires Valid(d) && k !in d.vals
    ensures Items(Put(d, k, v)) == Items(d) + [(k, v)]
  {
    var r := Put(d, k, v);
    assert r.keys == d.keys + [k];
    forall i | 0 <= i < |d.keys| ensures r.vals[r.keys[i]] == d.vals[d.keys[i]] {
      assert r.keys[i] == d.keys[i] != k;
    }
  }

  /** Writing a list of pairs in two parts is writing it at once. */
  lemma {:induction false} PutAllConcat<V>(d: Dict<V>, a: seq<(string, V)>, b: seq<(string, V)>)
    ensures PutAll(d, a + b) == PutAll(PutAll(d, a), b)
    decreases |b|
  {
    if b == [] {
      assert a + b == a;
    } else {
      assert (a + b)[..|a + b| - 1] == a + b[..|b| - 1];
      PutAllConcat(d, a, b[..|b| - 1]);
    }
  }

  /** The value a key ends with is the one of its last pair. */
  lemma {:induction false} PutAllLastWins<V>(d: Dict<V>, items: seq<(string, V)>, i: nat)
    requires i < |items|
    requires forall j :: i < j < |items| ==> items[j].0 != items[i].0
    ensures items[i].0 in PutAll(d, items).vals && PutAll(d, items).vals[items[i].0] == items[i].1
    decreases |items|
  {
    if i < |items| - 1 {
      var init := items[..|items| - 1];
      assert init[i] == items[i];
      PutAllLastWins(d, init, i);
    }
  }

  /** The pairs of `o` in key order, skipping keys without a value. */
  function KnownItems<V>(keys: seq<string>, vals: map<string, V>): (r: seq<(string, V)>)
    ensures |r| <= |keys|
  {
    if keys == [] then []
    else
      var k := keys[|keys| - 1];
      KnownItems(keys[..|keys| - 1], vals) + (if k in vals then [(k, vals[k])] else [])
  }

  /** `d.update(o)`: each entry of `o`, in `o`'s order, written with `Put`. */
  function Update<V>(d: Dict<V>, o: Dict<V>): (r: Dict<V>)
    ensures Valid(d) ==> Valid(r)
  {
    PutAll(d, KnownItems(o.keys, o.vals))
  }

  /** When every key has a value, the known pairs are all the pairs, in key order. */
  lemma {:induction false} KnownItemsAll<V>(keys: seq<string>, vals: map<string, V>)
    requires forall k :: k in keys ==> k in vals
    ensures KnownItems(keys, vals) == seq(|keys|, i requires 0 <= i < |keys| => (keys[i], vals[keys[i]]))
    decreases |keys|
  {
    if keys != [] {
      var init := keys[..|keys| - 1];
      assert forall k :: k in init ==> k in keys;
      KnownItemsAll(init, vals);
    }
  }

  /** After `d.update(o)`, every key of `o` holds `o`'s value. */
  lemma UpdateWins<V>(d: Dict<V>, o: Dict<V>, k: string)
    requires Valid(o) && k in o.vals
    ensures k in Update(d, o).vals && Update(d, o).vals[k] == o.vals[k]
  {
    KnownItemsAll(o.keys, o.vals);
    var items := KnownItems(o.keys, o.vals);
    var p :| 0 <= p < |o.keys| && o.keys[p] == k;
    assert items[p] == (k, o.vals[k]);
    PutAllLastWins(d, items, p);
  }

  /** `d.update(o)` leaves the keys `o` lacks as they were in `d`. */
  lemma UpdateKeeps<V>(d: Dict<V>, o: Dict<V>, k: string)
    requires Valid(o) && k !in o.vals && k in d.vals
    ensures k in Update(d, o).vals && Update(d, o).vals[k] == d.vals[k]
  {
    KnownItemsAll(o.keys, o.vals);
    assert Names(KnownItems(o.keys, o.vals)) == o.keys;
  }

  /** Writing a key twice keeps its place and the second value. */
  lemma PutTwice<V>(d: Dict<V>, k: string, x: V, y: V)
    ensures Put(Put(d, k, x), k, y) == Put(d, k, y)
  {
    assert d.vals[k := x][k := y] == d.vals[k := y];
  }
}
