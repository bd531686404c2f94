/** JavaScript plain objects used as dictionaries with string keys: an ordered list
    of key/value pairs in insertion order. Assigning to an existing key replaces
    its value in place; assigning to a new key appends it; `delete` drops it. */
module Dict {
  import opened Wrappers

  type Dict<V> = seq<(string, V)>

  function Keys<V>(d: Dict<V>): (ks: seq<string>)
    ensures |ks| == |d| && forall i :: 0 <= i < |d| ==> ks[i] == d[i].0
  {
    seq(|d|, i requires 0 <= i < |d| => d[i].0)
  }

  predicate Distinct(ks: seq<string>) {
    forall i, j :: 0 <= i < j < |ks| ==> ks[i] != ks[j]
  }

  /** What every JavaScript object satisfies: no key twice. */
  predicate UniqueKeys<V>(d: Dict<V>) {
    Distinct(Keys(d))
  }

  lemma KeysCons<V>(d: Dict<V>)
    requires |d| > 0
    ensures Keys(d) == [d[0].0] + Keys(d[1..])
  {
  }

  lemma DistinctCons(ks: seq<string>)
    requires |ks| > 0
    ensures Distinct(ks) <==> ks[0] !in ks[1..] && Distinct(ks[1..])
  {
    assert forall j :: 0 <= j < |ks[1..]| ==> ks[1..][j] == ks[j + 1];
    if ks[0] !in ks[1..] && Distinct(ks[1..]) {
      forall i, j | 0 <= i < j < |ks| ensures ks[i] != ks[j] {
        if i == 0 {
          assert ks[j] == ks[1..][j - 1];
        } else {
          assert ks[i] == ks[1..][i - 1] && ks[j] == ks[1..][j - 1];
        }
      }
    }
  }

  lemma DistinctSnoc(ks: seq<string>, k: string)
    requires Distinct(ks) && k !in ks
    ensures Distinct(ks + [k])
  {
    forall i, j | 0 <= i < j < |ks + [k]| ensures (ks + [k])[i] != (ks + [k])[j] {
      if j == |ks| {
        assert (ks + [k])[i] == ks[i];
      } else {
        assert (ks + [k])[i] == ks[i] && (ks + [k])[j] == ks[j];
      }
    }
  }

  /** `d[k]`: the value stored under k, if any. */
  function Lookup<V>(d: Dict<V>, k: string): (r: Option<V>)
    ensures r.None? <==> k !in Keys(d)
    decreases |d|
  {
    if |d| == 0 then None
    else
      KeysCons(d);
      if d[0].0 == k then Some(d[0].1) else Lookup(d[1..], k)
  }

  /** In a dictionary without repeated keys, each key holds its own pair's value. */
  lemma {:induction false} LookupAt<V>(d: Dict<V>, i: nat)
    requires UniqueKeys(d) && i < |d|
    ensures Lookup(d, d[i].0) == Some(d[i].1)
    decreases |d|
  {
    KeysCons(d);
    DistinctCons(Keys(d));
    if i > 0 {
      assert Keys(d)[i] == d[i].0 && d[i].0 in Keys(d[1..]);
      LookupAt(d[1..], i - 1);
    }
  }

  /** `d[k] = v`. */
  function Put<V>(d: Dict<V>, k: string, v: V): (r: Dict<V>)
    ensures Keys(r) == if k in Keys(d) then Keys(d) else Keys(d) + [k]
    decreases |d|
  {
    if |d| == 0 then [(k, v)]
    else
      KeysCons(d);
      if d[0].0 == k then
        var r := [(k, v)] + d[1..];
        KeysCons(r);
        r
      else
        var r := [d[0]] + Put(d[1..], k, v);
        KeysCons(r);
        r
  }

  /** After `d[k] = v`, k maps to v and every other key to what it mapped to. */
  lemma {:induction false} PutLookup<V>(d: Dict<V>, k: string, v: V, k': string)
    ensures Lookup(Put(d, k, v), k') == if k' == k then Some(v) else Lookup(d, k')
    decreases |d|
  {
    if |d| > 0 && d[0].0 != k {
      PutLookup(d[1..], k, v, k');
      assert Put(d, k, v)[1..] == Put(d[1..], k, v);
    }
  }

  /** Assignment keeps the keys distinct. */
  lemma PutUnique<V>(d: Dict<V>, k: string, v: V)
    requires UniqueKeys(d)
    ensures UniqueKeys(Put(d, k, v))
  {
    if k !in Keys(d) {
      DistinctSnoc(Keys(d), k);
    }
  }

  /** The keys without k, in order. */
  function Without(ks: seq<string>, k: string): (r: seq<string>)
    ensures forall x :: x in r <==> x in ks && x != k
    ensures |r| <= |ks|
    decreases |ks|
  {
    if |ks| == 0 then []
    else if ks[0] == k then Without(ks[1..], k)
    else
      assert forall x :: x in ks <==> x == ks[0] || x in ks[1..];
      [ks[0]] + Without(ks[1..], k)
  }

  lemma {:induction false} WithoutDistinct(ks: seq<string>, k: string)
    requires Distinct(ks)
    ensures Distinct(Without(ks, k))
    decreases |ks|
  {
    if |ks| > 0 {
      DistinctCons(ks);
      WithoutDistinct(ks[1..], k);
      if ks[0] != k {
        DistinctCons(Without(ks, k));
        assert Without(ks, k)[1..] == Without(ks[1..], k);
      }
    }
  }

  /** `delete d[k]`. */
  function Remove<V>(d: Dict<V>, k: string): (r: Dict<V>)
    ensures Keys(r) == Without(Keys(d), k)
    decreases |d|
  {
    if |d| == 0 then []
    else
      KeysCons(d);
      if d[0].0 == k then Remove(d[1..], k)
      else
        var r := [d[0]] + Remove(d[1..], k);
        KeysCons(r);
        r
  }

  /** After `delete d[k]` k is gone and every other key maps as before. */
  lemma {:induction false} RemoveLookup<V>(d: Dict<V>, k: string, k': string)
    ensures Lookup(Remove(d, k), k') == if k' == k then None else Lookup(d, k')
    decreases |d|
  {
    if |d| > 0 {
      RemoveLookup(d[1..], k, k');
      if d[0].0 != k {
        assert Remove(d, k)[1..] == Remove(d[1..], k);
      }
    }
  }

  lemma RemoveUnique<V>(d: Dict<V>, k: string)
    requires UniqueKeys(d)
    ensures UniqueKeys(Remove(d, k))
  {
    WithoutDistinct(Keys(d), k);
  }

  /** `Object.assign(d, src)`: each pair of src assigned in order. */
  function Assign<V>(d: Dict<V>, src: Dict<V>): (r: Dict<V>)
    ensures |r| >= |d| && Keys(r)[..|d|] == Keys(d)
    decreases |src|
  {
    if |src| == 0 then d
    else
      var d' := Put(d, src[0].0, src[0].1);
      var r := Assign(d', src[1..]);
      assert Keys(r)[..|d'|][..|d|] == Keys(r)[..|d|];
      r
  }

  /** Merging: a key of src takes src's value, every other key keeps its own, the
      result holds exactly the keys of both, and stays free of repeated keys. */
  lemma {:induction false} AssignMeaning<V>(d: Dict<V>, src: Dict<V>)
    requires UniqueKeys(src)
    ensures forall k :: Lookup(Assign(d, src), k) == if k in Keys(src) then Lookup(src, k) else Lookup(d, k)
    ensures forall k :: k in Keys(Assign(d, src)) <==> k in Keys(d) || k in Keys(src)
    ensures UniqueKeys(d) ==> UniqueKeys(Assign(d, src))
    decreases |src|
  {
    if |src| > 0 {
      var d' := Put(d, src[0].0, src[0].1);
      KeysCons(src);
      DistinctCons(Keys(src));
      AssignMeaning(d', src[1..]);
      forall k ensures Lookup(d', k) == if k == src[0].0 then Some(src[0].1) else Lookup(d, k) {
        PutLookup(d, src[0].0, src[0].1, k);
      }
      if UniqueKeys(d) {
        PutUnique(d, src[0].0, src[0].1);
      }
    }
  }

  /** Assigning a new key to a dictionary appends its pair. */
  lemma AppendStep<V>(prev: Dict<V>, want: Dict<V>, k: string, v: V)
    requires UniqueKeys(prev) && k !in Keys(prev)
    requires |want| == |prev| + 1 && want[..|prev|] == prev && want[|prev|] == (k, v)
    ensures Put(prev, k, v) == want && UniqueKeys(want)
  {
    PutAppends(prev, k, v);
    PutUnique(prev, k, v);
    assert want == prev + [(k, v)];
  }

  /** Dropping the last pair keeps keys distinct, and its key was not among the others. */
  lemma UniqueInit<V>(d: Dict<V>)
    requires |d| > 0 && UniqueKeys(d)
    ensures UniqueKeys(d[..|d| - 1]) && d[|d| - 1].0 !in Keys(d[..|d| - 1])
  {
    var n := |d| - 1;
    assert forall i :: 0 <= i < n ==> Keys(d[..n])[i] == Keys(d)[i];
  }

  /** Assigning a new key appends its pair. */
  lemma {:induction false} PutAppends<V>(d: Dict<V>, k: string, v: V)
    requires k !in Keys(d)
    ensures Put(d, k, v) == d + [(k, v)]
    decreases |d|
  {
    if |d| > 0 {
      KeysCons(d);
      assert d[0].0 != k && k !in Keys(d[1..]);
      assert Put(d, k, v) == [d[0]] + Put(d[1..], k, v);
      PutAppends(d[1..], k, v);
      assert [d[0]] + (d[1..] + [(k, v)]) == d + [(k, v)];
    }
  }
  /** The dictionary built by assigning the pairs of es in order, later pairs
      overwriting earlier ones with the same key. */
  function PutAll<V>(es: Dict<V>): Dict<V>
    decreases |es|
  {
    if |es| == 0 then []
    else
      var n := |es| - 1;
      Put(PutAll(es[..n]), es[n].0, es[n].1)
  }

  /** The result holds exactly the keys of es, each once, and so never more pairs. */
  lemma {:induction false} PutAllKeys<V>(es: Dict<V>)
    ensures UniqueKeys(PutAll(es)) && |PutAll(es)| <= |es|
    ensures forall k :: k in Keys(PutAll(es)) <==> k in Keys(es)
    decreases |es|
  {
    if |es| > 0 {
      var n := |es| - 1;
      PutAllKeys(es[..n]);
      PutAllUnfold(es);
      PutUnique(PutAll(es[..n]), es[n].0, es[n].1);
      KeysSnoc(es);
    }
  }

  lemma PutAllUnfold<V>(es: Dict<V>)
    requires |es| > 0
    ensures PutAll(es) == Put(PutAll(es[..|es| - 1]), es[|es| - 1].0, es[|es| - 1].1)
  {
  }

  lemma KeysSnoc<V>(es: Dict<V>)
    requires |es| > 0
    ensures Keys(es) == Keys(es[..|es| - 1]) + [es[|es| - 1].0]
  {
  }

  /** A pair whose key no later pair repeats keeps its value: the last write wins. */
  lemma {:induction false} PutAllLast<V>(es: Dict<V>, i: nat)
    requires i < |es| && forall j :: i < j < |es| ==> es[j].0 != es[i].0
    ensures Lookup(PutAll(es), es[i].0) == Some(es[i].1)
    decreases |es|
  {
    var n := |es| - 1;
    var init := es[..n];
    PutAllStep(es, es[i].0);
    if i < n {
      assert init[i] == es[i];
      forall j | i < j < |init| ensures init[j].0 != init[i].0 {
        assert init[j] == es[j];
      }
      PutAllLast(init, i);
    }
  }

  /** What the last assignment of the fold changes. */
  lemma PutAllStep<V>(es: Dict<V>, k: string)
    requires |es| > 0
    ensures Lookup(PutAll(es), k) ==
      if k == es[|es| - 1].0 then Some(es[|es| - 1].1) else Lookup(PutAll(es[..|es| - 1]), k)
  {
    var n := |es| - 1;
    PutLookup(PutAll(es[..n]), es[n].0, es[n].1, k);
  }

  /** Pairs with distinct keys are kept as they are, in order. */
  lemma {:induction false} PutAllDistinct<V>(es: Dict<V>)
    requires UniqueKeys(es)
    ensures PutAll(es) == es
    decreases |es|
  {
    if |es| > 0 {
      var n := |es| - 1;
      UniqueInit(es);
      PutAllDistinct(es[..n]);
      PutAllUnfold(es);
      PutAppends(es[..n], es[n].0, es[n].1);
      assert es[..n] + [es[n]] == es;
    }
  }
}
