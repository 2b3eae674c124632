// Python's insertion-ordered `dict` with string keys, as an association list:
// assigning to an existing key keeps its position, assigning to a new key
// appends it, and `del` removes it.

module Assoc {
  import opened Values
  import opened Seqs

  type Assoc<V> = seq<(string, V)>

  /** The keys, in insertion order: what iterating over the dict yields. */
  function Keys<V>(d: Assoc<V>): (ks: seq<string>)
    ensures |ks| == |d|
    ensures forall i {:trigger ks[i]} :: 0 <= i < |d| ==> ks[i] == d[i].0
  {
    if d == [] then [] else [d[0].0] + Keys(d[1..])
  }

  /** No key occurs twice, as in every Python dict. */
  predicate Unique<V>(d: Assoc<V>)
  {
    forall i, j :: 0 <= i < j < |d| ==> d[i].0 != d[j].0
  }

  /** `d.get(k)`: the value under `k`, or `None` when the key is absent. */
  function Lookup<V>(d: Assoc<V>, k: string): (r: Option<V>)
    ensures r.None? <==> k !in Keys(d)
    ensures r.Some? ==> (k, r.value) in d
  {
    if d == [] then None
    else if d[0].0 == k then Some(d[0].1)
    else
      var r := Lookup(d[1..], k);
      assert r.Some? ==> (k, r.value) in d by {
        if r.Some? {
          assert (k, r.value) in d[1..];
          var i :| 0 <= i < |d[1..]| && d[1..][i] == (k, r.value);
          assert d[i + 1] == (k, r.value);
        }
      }
      r
  }

  /** In a dict whose keys are unique, the entry at position `i` is what
      looking up its key finds. */
  lemma {:induction false} LookupAt<V>(d: Assoc<V>, i: nat)
    requires Unique(d) && i < |d|
    ensures Lookup(d, d[i].0) == Some(d[i].1)
  {
    if i > 0 {
      assert Unique(d[1..]) by {
        forall a, b | 0 <= a < b < |d[1..]|
          ensures d[1..][a].0 != d[1..][b].0
        {
          assert d[1..][a] == d[a + 1] && d[1..][b] == d[b + 1];
        }
      }
      LookupAt(d[1..], i - 1);
    }
  }

  /** The tail of a dict with unique keys has unique keys. */
  lemma UniqueTail<V>(d: Assoc<V>)
    requires Unique(d) && d != []
    ensures Unique(d[1..])
    ensures d[0].0 !in Keys(d[1..])
  {
    forall a, b | 0 <= a < b < |d[1..]|
      ensures d[1..][a].0 != d[1..][b].0
    {
      assert d[1..][a] == d[a + 1] && d[1..][b] == d[b + 1];
    }
    forall a | 0 <= a < |d[1..]|
      ensures Keys(d[1..])[a] != d[0].0
    {
      assert d[1..][a] == d[a + 1];
    }
  }

  /** The front of a dict with unique keys has unique keys, none of them the
      key of the entry that follows it. */
  lemma UniqueSplit<V>(a: Assoc<V>, b: Assoc<V>)
    requires Unique(a + b)
    ensures Unique(a)
    ensures b != [] ==> b[0].0 !in Keys(a)
  {
    forall i, j | 0 <= i < j < |a| ensures a[i].0 != a[j].0 {
      assert (a + b)[i] == a[i] && (a + b)[j] == a[j];
    }
    if b != [] {
      forall j | 0 <= j < |a| ensures Keys(a)[j] != b[0].0 {
        assert (a + b)[j] == a[j] && (a + b)[|a|] == b[0];
      }
    }
  }

  /** An entry whose key is new in front of a dict with unique keys. */
  lemma UniqueCons<V>(x: (string, V), rest: Assoc<V>)
    requires Unique(rest) && x.0 !in Keys(rest)
    ensures Unique([x] + rest)
  {
    forall a, b | 0 <= a < b < |[x] + rest|
      ensures ([x] + rest)[a].0 != ([x] + rest)[b].0
    {
      if a == 0 {
        assert ([x] + rest)[b] == rest[b - 1];
        assert Keys(rest)[b - 1] == rest[b - 1].0;
      } else {
        assert ([x] + rest)[a] == rest[a - 1] && ([x] + rest)[b] == rest[b - 1];
      }
    }
  }

  /** `d[k] = v`. */
  function Put<V>(d: Assoc<V>, k: string, v: V): (r: Assoc<V>)
    ensures Keys(r) == if k in Keys(d) then Keys(d) else Keys(d) + [k]
    ensures Lookup(r, k) == Some(v)
    ensures forall j :: j != k ==> Lookup(r, j) == Lookup(d, j)
  {
    if d == [] then [(k, v)]
    else if d[0].0 == k then
      assert ([(k, v)] + d[1..])[1..] == d[1..];
      [(k, v)] + d[1..]
    else
      var rest := Put(d[1..], k, v);
      assert ([d[0]] + rest)[1..] == rest;
      [d[0]] + rest
  }

  /** Every entry after an assignment is the assigned one or was there before. */
  lemma {:induction false} PutEntries<V>(d: Assoc<V>, k: string, v: V)
    ensures forall x :: x in Put(d, k, v) ==> x == (k, v) || x in d
  {
    if d != [] && d[0].0 != k {
      PutEntries(d[1..], k, v);
      assert Put(d, k, v) == [d[0]] + Put(d[1..], k, v);
    } else if d != [] {
      assert Put(d, k, v) == [(k, v)] + d[1..];
    }
  }

  /** Assignment keeps the keys unique. */
  lemma {:induction false} PutUnique<V>(d: Assoc<V>, k: string, v: V)
    requires Unique(d)
    ensures Unique(Put(d, k, v))
  {
    if d != [] && d[0].0 != k {
      UniqueTail(d);
      PutUnique(d[1..], k, v);
      assert Put(d, k, v) == [d[0]] + Put(d[1..], k, v);
      UniqueCons(d[0], Put(d[1..], k, v));
    } else if d != [] {
      UniqueTail(d);
      UniqueCons((k, v), d[1..]);
    }
  }

  /** `del d[k]` for a present key, and nothing for an absent one. */
  function Remove<V>(d: Assoc<V>, k: string): (r: Assoc<V>)
    ensures forall j :: j != k ==> Lookup(r, j) == Lookup(d, j)
    ensures forall j :: j in Keys(r) ==> j in Keys(d)
    ensures k !in Keys(d) ==> r == d
  {
    if d == [] then []
    else if d[0].0 == k then d[1..]
    else
      var rest := Remove(d[1..], k);
      assert ([d[0]] + rest)[1..] == rest;
      [d[0]] + rest
  }

  /** Deletion keeps the keys unique, and the key is gone afterwards. */
  lemma {:induction false} RemoveUnique<V>(d: Assoc<V>, k: string)
    requires Unique(d)
    ensures Unique(Remove(d, k))
    ensures k !in Keys(Remove(d, k))
  {
    if d != [] {
      UniqueTail(d);
      if d[0].0 != k {
        RemoveUnique(d[1..], k);
        assert Remove(d, k) == [d[0]] + Remove(d[1..], k);
        UniqueCons(d[0], Remove(d[1..], k));
        assert Keys(Remove(d, k)) == [d[0].0] + Keys(Remove(d[1..], k));
      }
    }
  }

  /** Deleting the key of entry `i` from a dict with unique keys drops that
      entry and keeps every other one in its order. */
  lemma {:induction false} RemoveAt<V>(d: Assoc<V>, i: nat)
    requires Unique(d) && i < |d|
    ensures Remove(d, d[i].0) == d[..i] + d[i + 1..]
  {
    if i == 0 {
      assert d[..0] + d[1..] == d[1..];
    } else {
      UniqueTail(d);
      assert d[0].0 != d[i].0;
      var t := d[1..];
      assert t[i - 1] == d[i];
      RemoveAt(t, i - 1);
      assert [d[0]] + (t[..i - 1] + t[i..]) == d[..i] + d[i + 1..];
    }
  }

  /** A second assignment to the same key wins outright. */
  lemma {:induction false} PutTwice<V>(d: Assoc<V>, k: string, v: V, w: V)
    ensures Put(Put(d, k, v), k, w) == Put(d, k, w)
  {
    if d != [] && d[0].0 != k {
      PutTwice(d[1..], k, v, w);
      assert Put(d, k, v) == [d[0]] + Put(d[1..], k, v);
      assert (Put(d, k, v))[1..] == Put(d[1..], k, v);
    } else if d != [] {
      assert Put(d, k, v) == [(k, v)] + d[1..];
      assert Put(d, k, v)[1..] == d[1..];
    }
  }

  /** An entry of a nested map assigned twice through its outer key: the
      second assignment sees the first and replaces it. */
  lemma NestedPutTwice<V>(d: Assoc<Assoc<V>>, h: string, sec: Assoc<V>, k: string, a: V, b: V)
    ensures Lookup(Put(d, h, Put(sec, k, a)), h) == Some(Put(sec, k, a))
    ensures Lookup(Put(sec, k, a), k) == Some(a)
    ensures Put(Put(d, h, Put(sec, k, a)), h, Put(Put(sec, k, a), k, b)) == Put(d, h, Put(sec, k, b))
  {
    PutTwice(sec, k, a, b);
    PutTwice(d, h, Put(sec, k, a), Put(sec, k, b));
  }

  /** Assigning a key the value it already has changes nothing. */
  lemma {:induction false} PutSame<V>(d: Assoc<V>, k: string, v: V)
    requires Unique(d) && (k, v) in d
    ensures Put(d, k, v) == d
  {
    if d[0].0 != k {
      UniqueTail(d);
      assert (k, v) in d[1..];
      PutSame(d[1..], k, v);
      HeadTail(d);
    } else {
      var i :| 0 <= i < |d| && d[i] == (k, v);
      if i > 0 {
        assert d[0].0 == d[i].0;
      }
      HeadTail(d);
    }
  }

  /** The entries `es` assigned to `d` one after the other, as a loop of
      `d[k] = v` does. */
  function PutAll<V>(d: Assoc<V>, es: Assoc<V>): Assoc<V>
  {
    if es == [] then d else Put(PutAll(d, es[..|es| - 1]), es[|es| - 1].0, es[|es| - 1].1)
  }

  /** The entries assigned one after another, the last one last. */
  lemma PutAllSnoc<V>(d: Assoc<V>, es: Assoc<V>, x: (string, V))
    ensures PutAll(d, es + [x]) == Put(PutAll(d, es), x.0, x.1)
  {
    SnocInit(es, x);
  }

  /** Looking up a key after an appended entry. */
  lemma LookupSnoc<V>(d: Assoc<V>, x: (string, V), k: string)
    ensures Lookup(d + [x], k) == if k in Keys(d) then Lookup(d, k) else if k == x.0 then Some(x.1) else None
  {
    if d != [] {
      assert (d + [x])[1..] == d[1..] + [x];
      LookupSnoc(d[1..], x, k);
      assert Keys(d) == [d[0].0] + Keys(d[1..]);
    } else {
      assert d + [x] == [x];
    }
  }

  /** The front of a dict with unique keys has unique keys, none of them the
      last key. */
  lemma UniqueInit<V>(es: Assoc<V>)
    requires Unique(es) && es != []
    ensures Unique(es[..|es| - 1])
    ensures es[|es| - 1].0 !in Keys(es[..|es| - 1])
  {
    var init := es[..|es| - 1];
    forall a | 0 <= a < |init| ensures Keys(init)[a] != es[|es| - 1].0 {
      assert init[a] == es[a];
    }
  }

  /** After assigning entries with unique keys, a key holds its entry's
      value if it has one and its old value otherwise. */
  lemma {:induction false} PutAllLookup<V>(d: Assoc<V>, es: Assoc<V>, k: string)
    requires Unique(es)
    ensures Lookup(PutAll(d, es), k) == if k in Keys(es) then Lookup(es, k) else Lookup(d, k)
  {
    if es != [] {
      var init, last := es[..|es| - 1], es[|es| - 1];
      assert init + [last] == es;
      UniqueInit(es);
      assert Keys(es) == Keys(init) + [last.0] by {
        assert Keys(init + [last]) == Keys(init) + [last.0];
      }
      calc {
        Lookup(PutAll(d, es), k);
        Lookup(Put(PutAll(d, init), last.0, last.1), k);
        if k == last.0 then Some(last.1) else Lookup(PutAll(d, init), k);
        { PutAllLookup(d, init, k); }
        if k == last.0 then Some(last.1) else if k in Keys(init) then Lookup(init, k) else Lookup(d, k);
        { LookupSnoc(init, last, k); }
        if k in Keys(es) then Lookup(es, k) else Lookup(d, k);
      }
    }
  }

  /** After assigning entries, the old keys come first, in their old order. */
  lemma {:induction false} PutAllKeys<V>(d: Assoc<V>, es: Assoc<V>)
    ensures |Keys(d)| <= |Keys(PutAll(d, es))|
    ensures Keys(PutAll(d, es))[..|Keys(d)|] == Keys(d)
  {
    if es != [] {
      var init := es[..|es| - 1];
      PutAllKeys(d, init);
      var before := Keys(PutAll(d, init));
      assert before[..|Keys(d)|] == Keys(d);
      assert (before + [es[|es| - 1].0])[..|Keys(d)|] == before[..|Keys(d)|];
    }
  }

  /** Assigning entries keeps the keys unique. */
  lemma {:induction false} PutAllUnique<V>(d: Assoc<V>, es: Assoc<V>)
    requires Unique(d)
    ensures Unique(PutAll(d, es))
  {
    if es != [] {
      PutAllUnique(d, es[..|es| - 1]);
      PutUnique(PutAll(d, es[..|es| - 1]), es[|es| - 1].0, es[|es| - 1].1);
    }
  }

  /** Assigning entries that are all already present changes nothing. */
  lemma {:induction false} PutAllSame<V>(d: Assoc<V>, es: Assoc<V>)
    requires Unique(d) && forall x :: x in es ==> x in d
    ensures PutAll(d, es) == d
  {
    if es != [] {
      var init := es[..|es| - 1];
      assert forall x :: x in init ==> x in es;
      PutAllSame(d, init);
      assert es[|es| - 1] in es;
      PutSame(d, es[|es| - 1].0, es[|es| - 1].1);
    }
  }

  /** Assigning a key that is not there appends it. */
  lemma {:induction false} PutFresh<V>(d: Assoc<V>, k: string, v: V)
    requires k !in Keys(d)
    ensures Put(d, k, v) == d + [(k, v)]
  {
    if d != [] {
      FreshTail(d, k);
      PutFresh(d[1..], k, v);
      ConsSnoc(d[0], d[1..], (k, v));
      assert [d[0]] + d[1..] == d;
    }
  }

  lemma FreshTail<V>(d: Assoc<V>, k: string)
    requires k !in Keys(d) && d != []
    ensures d[0].0 != k && k !in Keys(d[1..])
  {
    assert Keys(d) == [d[0].0] + Keys(d[1..]);
  }


  /** Assigning entries with unique keys, none of them in `d`, appends them
      in order. */
  lemma {:induction false} PutAllFresh<V>(d: Assoc<V>, es: Assoc<V>)
    requires Unique(es)
    requires forall i :: 0 <= i < |es| ==> es[i].0 !in Keys(d)
    ensures PutAll(d, es) == d + es
  {
    if es != [] {
      var init, last := es[..|es| - 1], es[|es| - 1];
      UniqueInit(es);
      assert forall i :: 0 <= i < |init| ==> init[i] == es[i];
      PutAllFresh(d, init);
      KeysAppend(d, init);
      PutFresh(d + init, last.0, last.1);
      SnocAssoc(d, es);
    }
  }


  lemma KeysAppend<V>(a: Assoc<V>, b: Assoc<V>)
    ensures Keys(a + b) == Keys(a) + Keys(b)
  {
    assert forall i :: 0 <= i < |b| ==> (a + b)[|a| + i] == b[i];
  }


  /** An entry whose key is new after a dict with unique keys. */
  lemma UniqueSnoc<V>(d: Assoc<V>, x: (string, V))
    requires Unique(d)
    requires forall j :: 0 <= j < |d| ==> d[j].0 != x.0
    ensures Unique(d + [x])
  {
    forall a, b | 0 <= a < b < |d + [x]|
      ensures (d + [x])[a].0 != (d + [x])[b].0
    {
      assert (d + [x])[a] == d[a];
      if b < |d| {
        assert (d + [x])[b] == d[b];
      }
    }
  }
}
