/** `Array.prototype.sort()` without a comparator on an array of strings:
    the strings in ascending order of their characters, compared one by one,
    a proper prefix coming first. */
module Sorting {

  /** `a` sorts no later than `b`. */
  predicate StrLe(a: string, b: string)
    decreases |a|
  {
    a == [] || (b != [] && (a[0] < b[0] || (a[0] == b[0] && StrLe(a[1..], b[1..]))))
  }

  lemma {:induction false} StrLeTotal(a: string, b: string)
    ensures StrLe(a, b) || StrLe(b, a)
    decreases |a|
  {
    if a != [] && b != [] && a[0] == b[0] {
      StrLeTotal(a[1..], b[1..]);
    }
  }

  lemma {:induction false} StrLeTrans(a: string, b: string, c: string)
    requires StrLe(a, b) && StrLe(b, c)
    ensures StrLe(a, c)
    decreases |a|
  {
    if a != [] && b != [] && c != [] && a[0] == b[0] && b[0] == c[0] {
      StrLeTrans(a[1..], b[1..], c[1..]);
    }
  }

  lemma {:induction false} StrLeAntisym(a: string, b: string)
    requires StrLe(a, b) && StrLe(b, a)
    ensures a == b
    decreases |a|
  {
    if a != [] {
      StrLeAntisym(a[1..], b[1..]);
      assert a == [a[0]] + a[1..] && b == [b[0]] + b[1..];
    }
  }

  predicate Sorted(xs: seq<string>) {
    forall i, j :: 0 <= i < j < |xs| ==> StrLe(xs[i], xs[j])
  }

  /** `x` put into the sorted list `xs` before the first larger string. */
  function Insert(x: string, xs: seq<string>): (r: seq<string>)
    ensures |r| == |xs| + 1
  {
    if xs == [] || StrLe(x, xs[0]) then [x] + xs else [xs[0]] + Insert(x, xs[1..])
  }

  /** A string no later than the first of an ascending list can go in
      front of it. */
  lemma SortedCons(x: string, ys: seq<string>)
    requires Sorted(ys) && (ys == [] || StrLe(x, ys[0]))
    ensures Sorted([x] + ys)
  {
    forall i, j | 0 <= i < j < |ys| + 1
      ensures StrLe(([x] + ys)[i], ([x] + ys)[j])
    {
      if i == 0 {
        if j > 1 { StrLeTrans(x, ys[0], ys[j - 1]); }
      } else {
        assert ([x] + ys)[i] == ys[i - 1] && ([x] + ys)[j] == ys[j - 1];
      }
    }
  }

  /** Inserting into an ascending list keeps it ascending. */
  lemma {:induction false} InsertSorted(x: string, xs: seq<string>)
    requires Sorted(xs)
    ensures Sorted(Insert(x, xs))
    decreases |xs|
  {
    if xs == [] || StrLe(x, xs[0]) {
      SortedCons(x, xs);
    } else {
      StrLeTotal(x, xs[0]);
      SortedTail(xs);
      InsertSorted(x, xs[1..]);
      var rest := Insert(x, xs[1..]);
      assert StrLe(xs[0], rest[0]) by {
        if !(xs[1..] == [] || StrLe(x, xs[1..][0])) {
          assert rest[0] == xs[1..][0] == xs[1];
        }
      }
      SortedCons(xs[0], rest);
    }
  }

  /** Inserting adds exactly the one string. */
  lemma {:induction false} InsertPerm(x: string, xs: seq<string>)
    ensures multiset(Insert(x, xs)) == multiset(xs) + multiset{x}
    decreases |xs|
  {
    if !(xs == [] || StrLe(x, xs[0])) {
      InsertPerm(x, xs[1..]);
      assert xs == [xs[0]] + xs[1..];
    }
  }

  /** The strings of `xs` in ascending order. */
  function Sort(xs: seq<string>): (r: seq<string>)
    ensures |r| == |xs|
  {
    if xs == [] then [] else Insert(xs[0], Sort(xs[1..]))
  }

  /** `sort()` returns an ascending permutation of its input. */
  lemma {:induction false} SortSpec(xs: seq<string>)
    ensures Sorted(Sort(xs))
    ensures multiset(Sort(xs)) == multiset(xs)
  {
    if xs != [] {
      SortSpec(xs[1..]);
      InsertSorted(xs[0], Sort(xs[1..]));
      InsertPerm(xs[0], Sort(xs[1..]));
      assert xs == [xs[0]] + xs[1..];
    }
  }

  /** The tail of an ascending list is ascending. */
  lemma SortedTail(xs: seq<string>)
    requires xs != [] && Sorted(xs)
    ensures Sorted(xs[1..])
  {
    forall i, j | 0 <= i < j < |xs| - 1
      ensures StrLe(xs[1..][i], xs[1..][j])
    {
      assert xs[1..][i] == xs[i + 1] && xs[1..][j] == xs[j + 1];
    }
  }

  lemma TailMultiset(xs: seq<string>)
    requires xs != []
    ensures multiset(xs[1..]) == multiset(xs) - multiset{xs[0]}
  {
    assert xs == [xs[0]] + xs[1..];
  }

  /** Two ascending lists with the same contents start with the same
      string: each first string sorts no later than the other. */
  lemma SameFirst(a: seq<string>, b: seq<string>)
    requires a != [] && Sorted(a) && Sorted(b) && multiset(a) == multiset(b)
    ensures b != [] && a[0] == b[0]
  {
    assert a[0] in multiset(b) && |b| == |multiset(b)|;
    assert b[0] in multiset(a);
    var i :| 0 <= i < |b| && b[i] == a[0];
    var k :| 0 <= k < |a| && a[k] == b[0];
    if i > 0 && k > 0 {
      assert StrLe(b[0], b[i]);
      assert StrLe(a[0], a[k]);
      StrLeAntisym(a[0], b[0]);
    }
  }

  /** An ascending list is fixed by its contents: sorting is the only
      ascending permutation. */
  lemma {:induction false} SortedUnique(a: seq<string>, b: seq<string>)
    requires Sorted(a) && Sorted(b) && multiset(a) == multiset(b)
    ensures a == b
    decreases |a|
  {
    if a == [] {
      assert |b| == |multiset(b)| == 0;
    } else {
      SameFirst(a, b);
      TailMultiset(a);
      TailMultiset(b);
      SortedTail(a);
      SortedTail(b);
      SortedUnique(a[1..], b[1..]);
      assert a == [a[0]] + a[1..] && b == [b[0]] + b[1..];
    }
  }
}
