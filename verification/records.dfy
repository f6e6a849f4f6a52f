/** A JavaScript object used as a string-keyed dictionary
    (`Record<string, V>`): an association list in property insertion order.
    Assigning `obj[k] = v` replaces the value in place when `k` is already a
    key and appends `k` otherwise, so `Object.keys` lists keys in the order
    they were first assigned. */
module Records {
  import opened Common

  type Record<V> = seq<(string, V)>

  /** A generated file: its text and its language tag. */
  datatype FileEntry = FileEntry(content: string, language: string)

  /** A project's files, keyed by path. */
  type Files = Record<FileEntry>

  /** `Object.keys(r)` */
  function Keys<V>(r: Record<V>): (ks: seq<string>)
    ensures |ks| == |r|
    ensures forall i :: 0 <= i < |r| ==> ks[i] == r[i].0
  {
    seq(|r|, i requires 0 <= i < |r| => r[i].0)
  }

  predicate UniqueKeys<V>(r: Record<V>) {
    forall i, j :: 0 <= i < j < |r| ==> r[i].0 != r[j].0
  }

  /** `r[k]`, or None when `k` is not a key. */
  function Get<V>(r: Record<V>, k: string): (v: Option<V>)
    ensures v.Some? <==> k in Keys(r)
  {
    if r == [] then None
    else if r[0].0 == k then Some(r[0].1)
    else
      assert Keys(r) == [r[0].0] + Keys(r[1..]);
      Get(r[1..], k)
  }

  /** In a record with unique keys, the value stored at position `i` is the
      one `Get` returns for its key. */
  lemma GetAt<V>(r: Record<V>, i: nat)
    requires UniqueKeys(r) && i < |r|
    ensures Get(r, r[i].0) == Some(r[i].1)
  {
    if i > 0 {
      assert UniqueKeys(r[1..]);
      GetAt(r[1..], i - 1);
    }
  }

  /** `r[k] = v` */
  function Set<V>(r: Record<V>, k: string, v: V): (r': Record<V>)
    ensures |r'| == |r| || |r'| == |r| + 1
  {
    if r == [] then [(k, v)]
    else if r[0].0 == k then [(k, v)] + r[1..]
    else [r[0]] + Set(r[1..], k, v)
  }

  /** After `r[k] = v`, `r[k]` is `v` and every other key reads as before. */
  lemma {:induction false} SetGet<V>(r: Record<V>, k: string, v: V, k': string)
    ensures Get(Set(r, k, v), k') == if k' == k then Some(v) else Get(r, k')
  {
    if r != [] && r[0].0 != k {
      SetGet(r[1..], k, v, k');
    }
  }

  /** Assigning an existing key keeps the key order; a new key goes last. */
  lemma {:induction false} SetKeys<V>(r: Record<V>, k: string, v: V)
    ensures Keys(Set(r, k, v)) == if k in Keys(r) then Keys(r) else Keys(r) + [k]
  {
    if r != [] {
      KeysCons(r[0], r[1..]);
      assert r == [r[0]] + r[1..];
      if r[0].0 != k {
        SetKeys(r[1..], k, v);
        KeysCons(r[0], Set(r[1..], k, v));
      } else {
        KeysCons((k, v), r[1..]);
      }
    }
  }

  /** Two assignments of distinct keys to an empty record keep them in
      assignment order. */
  lemma TwoKeys<V>(k0: string, v0: V, k1: string, v1: V)
    requires k0 != k1
    ensures Keys(Set(Set([], k0, v0), k1, v1)) == [k0, k1]
  {
    SetKeys([], k0, v0);
    SetKeys(Set([], k0, v0), k1, v1);
  }

  lemma KeysCons<V>(e: (string, V), r: Record<V>)
    ensures Keys([e] + r) == [e.0] + Keys(r)
  {
  }

  /** Assignment never creates a duplicate key. */
  lemma SetUnique<V>(r: Record<V>, k: string, v: V)
    requires UniqueKeys(r)
    ensures UniqueKeys(Set(r, k, v))
  {
    SetKeys(r, k, v);
    var r' := Set(r, k, v);
    assert forall i :: 0 <= i < |r| ==> Keys(r)[i] == r[i].0;
    assert forall i :: 0 <= i < |r'| ==> Keys(r')[i] == r'[i].0;
  }

  /** Assigning the same key twice keeps only the second value: nothing of
      the first survives. */
  lemma {:induction false} SetTwice<V>(r: Record<V>, k: string, a: V, b: V)
    ensures Set(Set(r, k, a), k, b) == Set(r, k, b)
  {
    if r != [] && r[0].0 != k {
      SetTwice(r[1..], k, a, b);
      assert Set(r, k, a)[1..] == Set(r[1..], k, a);
    }
  }

  /** `map.delete(k)`: the pair for `k` goes, the others keep their order. */
  function Remove<V>(r: Record<V>, k: string): (r': Record<V>)
    ensures |r'| <= |r|
  {
    if r == [] then []
    else if r[0].0 == k then Remove(r[1..], k)
    else [r[0]] + Remove(r[1..], k)
  }

  /** After deleting `k`, `k` is absent and every other key reads as
      before. */
  lemma {:induction false} RemoveGet<V>(r: Record<V>, k: string, k': string)
    ensures Get(Remove(r, k), k') == if k' == k then None else Get(r, k')
  {
    if r != [] {
      RemoveGet(r[1..], k, k');
    }
  }

  /** Deleting removes exactly `k` from the keys, keeping the order of the
      others. */
  lemma {:induction false} RemoveKeys<V>(r: Record<V>, k: string)
    ensures Keys(Remove(r, k)) == RemoveKey(Keys(r), k)
  {
    if r != [] {
      RemoveKeys(r[1..], k);
      assert Keys(r) == [r[0].0] + Keys(r[1..]);
      if r[0].0 != k {
        assert Keys([r[0]] + Remove(r[1..], k)) == [r[0].0] + Keys(Remove(r[1..], k));
      }
    }
  }

  /** The list `ks` without the entries equal to `k`. */
  function RemoveKey(ks: seq<string>, k: string): (r: seq<string>)
    ensures k !in r
    ensures forall x :: x in r <==> x in ks && x != k
  {
    if ks == [] then []
    else if ks[0] == k then RemoveKey(ks[1..], k)
    else [ks[0]] + RemoveKey(ks[1..], k)
  }

  /** Deleting an absent key changes nothing. */
  lemma {:induction false} RemoveAbsent<V>(r: Record<V>, k: string)
    requires k !in Keys(r)
    ensures Remove(r, k) == r
  {
    if r != [] {
      assert Keys(r) == [r[0].0] + Keys(r[1..]);
      RemoveAbsent(r[1..], k);
    }
  }

  /** Deleting never creates a duplicate key. */
  lemma RemoveUnique<V>(r: Record<V>, k: string)
    requires UniqueKeys(r)
    ensures UniqueKeys(Remove(r, k))
  {
    RemoveKeys(r, k);
    var r' := Remove(r, k);
    assert forall i :: 0 <= i < |r'| ==> Keys(r')[i] == r'[i].0;
    RemoveKeyUnique(Keys(r), k);
  }

  predicate Distinct(ks: seq<string>) {
    forall i, j :: 0 <= i < j < |ks| ==> ks[i] != ks[j]
  }

  lemma {:induction false} RemoveKeyUnique(ks: seq<string>, k: string)
    requires Distinct(ks)
    ensures Distinct(RemoveKey(ks, k))
  {
    if ks != [] {
      assert Distinct(ks[1..]);
      RemoveKeyUnique(ks[1..], k);
      if ks[0] != k {
        var rest := RemoveKey(ks[1..], k);
        assert ks[0] !in ks[1..];
        assert ks[0] !in rest;
        assert RemoveKey(ks, k) == [ks[0]] + rest;
      }
    }
  }

  /** The object built by assigning every pair of `es`, in order, on top of `r`. */
  function SetAll<V>(r: Record<V>, es: seq<(string, V)>): (r': Record<V>)
    decreases |es|
  {
    if es == [] then r else SetAll(Set(r, es[0].0, es[0].1), es[1..])
  }

  /** The value of the last pair of `es` whose key is `k`. */
  function LastFor<V>(es: seq<(string, V)>, k: string): Option<V>
    decreases |es|
  {
    if es == [] then None
    else if es[|es| - 1].0 == k then Some(es[|es| - 1].1)
    else LastFor(es[..|es| - 1], k)
  }

  /** Later assignments win: after assigning every pair of `es`, a key holds
      the value of the last pair that names it, or its old value when no pair
      names it. */
  lemma {:induction false} SetAllGet<V>(r: Record<V>, es: seq<(string, V)>, k: string)
    ensures Get(SetAll(r, es), k) == if LastFor(es, k).Some? then LastFor(es, k) else Get(r, k)
    decreases |es|
  {
    if es != [] {
      var n := |es| - 1;
      var front := es[..n];
      assert es == front + [es[n]];
      SetAllSnoc(r, front, es[n]);
      SetAllGet(r, front, k);
      SetGet(SetAll(r, front), es[n].0, es[n].1, k);
    }
  }

  lemma {:induction false} SetAllSnoc<V>(r: Record<V>, es: seq<(string, V)>, e: (string, V))
    ensures SetAll(r, es + [e]) == Set(SetAll(r, es), e.0, e.1)
    decreases |es|
  {
    if es == [] {
      assert SetAll(r, [e]) == SetAll(Set(r, e.0, e.1), []);
    } else {
      assert (es + [e])[1..] == es[1..] + [e];
      SetAllSnoc(Set(r, es[0].0, es[0].1), es[1..], e);
    }
  }

  /** The keys after assigning `es` are exactly the old keys and the keys
      named in `es`. */
  lemma {:induction false} SetAllKeys<V>(r: Record<V>, es: seq<(string, V)>, k: string)
    ensures k in Keys(SetAll(r, es)) <==> k in Keys(r) || exists i :: 0 <= i < |es| && es[i].0 == k
    decreases |es|
  {
    if es != [] {
      var r1 := Set(r, es[0].0, es[0].1);
      SetKeys(r, es[0].0, es[0].1);
      SetAllKeys(r1, es[1..], k);
      if exists i :: 0 <= i < |es[1..]| && es[1..][i].0 == k {
        var i :| 0 <= i < |es[1..]| && es[1..][i].0 == k;
        assert es[i + 1].0 == k;
      }
      if exists i :: 0 <= i < |es| && es[i].0 == k {
        var i :| 0 <= i < |es| && es[i].0 == k;
        if i > 0 { assert es[1..][i - 1].0 == k; }
      }
    }
  }

  /** Assigning a list of pairs to an empty record: its keys are exactly
      the keys named in the list. */
  lemma SetAllFreshKeys<V>(es: seq<(string, V)>, k: string)
    ensures k in Keys(SetAll([], es)) <==> exists i :: 0 <= i < |es| && es[i].0 == k
  {
    SetAllKeys([], es, k);
    assert k !in Keys<V>([]);
  }

  /** Assigning two pairs to an empty record is assigning one, then the
      other. */
  lemma SetAllOfTwo<V>(a: (string, V), b: (string, V))
    ensures SetAll([], [a, b]) == Set(Set([], a.0, a.1), b.0, b.1)
  {
    var r1 := Set([], a.0, a.1);
    assert [a, b][0] == a && [a, b][1..] == [b];
    assert SetAll([], [a, b]) == SetAll(r1, [b]);
    assert [b][0] == b && [b][1..] == [];
    assert SetAll(r1, [b]) == SetAll(Set(r1, b.0, b.1), []);
  }

  /** Assigning a list of pairs never creates a duplicate key. */
  lemma {:induction false} SetAllUnique<V>(r: Record<V>, es: seq<(string, V)>)
    requires UniqueKeys(r)
    ensures UniqueKeys(SetAll(r, es))
    decreases |es|
  {
    if es != [] {
      SetUnique(r, es[0].0, es[0].1);
      SetAllUnique(Set(r, es[0].0, es[0].1), es[1..]);
    }
  }
}
