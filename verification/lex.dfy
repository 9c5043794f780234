/**
 The ordering `Vec<String>::sort` puts file names in: lexicographic, character
 by character (the order of UTF-8 bytes and of code points agree), a proper
 prefix first. Sorting is modelled as insertion into a sorted sequence.
 */
module Lex {

  /** `a` sorts no later than `b`. */
  predicate Le(a: string, b: string)
    decreases |a|
  {
    |a| == 0 || (|b| > 0 && (a[0] < b[0] || (a[0] == b[0] && Le(a[1..], b[1..]))))
  }

  lemma {:induction false} LeReflexive(a: string)
    ensures Le(a, a)
    decreases |a|
  {
    if |a| > 0 {
      LeReflexive(a[1..]);
    }
  }

  lemma {:induction false} LeTotal(a: string, b: string)
    ensures Le(a, b) || Le(b, a)
    decreases |a|
  {
    if |a| > 0 && |b| > 0 && a[0] == b[0] {
      LeTotal(a[1..], b[1..]);
    }
  }

  lemma {:induction false} LeTransitive(a: string, b: string, c: string)
    requires Le(a, b) && Le(b, c)
    ensures Le(a, c)
    decreases |a|
  {
    if |a| > 0 && a[0] == b[0] && b[0] == c[0] {
      LeTransitive(a[1..], b[1..], c[1..]);
    }
  }

  lemma {:induction false} LeAntisymmetric(a: string, b: string)
    requires Le(a, b) && Le(b, a)
    ensures a == b
    decreases |a|
  {
    if |a| > 0 {
      LeAntisymmetric(a[1..], b[1..]);
      assert a == [a[0]] + a[1..];
      assert b == [b[0]] + b[1..];
    }
  }

  predicate Sorted(xs: seq<string>) {
    forall i, j :: 0 <= i < j < |xs| ==> Le(xs[i], xs[j])
  }

  /** A name no later than every element of a sorted sequence can go first. */
  lemma {:induction false} ConsSorted(x: string, xs: seq<string>)
    requires Sorted(xs)
    requires forall k :: 0 <= k < |xs| ==> Le(x, xs[k])
    ensures Sorted([x] + xs)
  {
    var r := [x] + xs;
    assert forall k :: 1 <= k < |r| ==> r[k] == xs[k - 1];
  }

  /** A lower bound of a sequence and of one more name bounds any
      rearrangement of the two. */
  lemma {:induction false} BoundsRearrangement(y: string, x: string, ys: seq<string>, zs: seq<string>)
    requires Le(y, x)
    requires forall k :: 0 <= k < |ys| ==> Le(y, ys[k])
    requires multiset(zs) == multiset(ys) + multiset{x}
    ensures forall k :: 0 <= k < |zs| ==> Le(y, zs[k])
  {
    forall k | 0 <= k < |zs|
      ensures Le(y, zs[k])
    {
      assert zs[k] in multiset(zs);
      if zs[k] != x {
        assert zs[k] in multiset(ys);
        var m :| 0 <= m < |ys| && ys[m] == zs[k];
      }
    }
  }

  /** `x` placed before the first element it sorts no later than. */
  function Insert(x: string, xs: seq<string>): (r: seq<string>)
    ensures multiset(r) == multiset(xs) + multiset{x}
    ensures Sorted(xs) ==> Sorted(r)
    decreases |xs|
  {
    if |xs| == 0 then [x]
    else if Le(x, xs[0]) then
      assert Sorted(xs) ==> Sorted([x] + xs) by {
        if Sorted(xs) {
          forall k | 0 <= k < |xs|
            ensures Le(x, xs[k])
          {
            if k > 0 {
              LeTransitive(x, xs[0], xs[k]);
            }
          }
          ConsSorted(x, xs);
        }
      }
      [x] + xs
    else
      var rest := Insert(x, xs[1..]);
      assert xs == [xs[0]] + xs[1..];
      assert Sorted(xs) ==> Sorted([xs[0]] + rest) by {
        if Sorted(xs) {
          LeTotal(x, xs[0]);
          assert forall k :: 0 <= k < |xs[1..]| ==> Le(xs[0], xs[1..][k]);
          BoundsRearrangement(xs[0], x, xs[1..], rest);
          ConsSorted(xs[0], rest);
        }
      }
      [xs[0]] + rest
  }

  /** The names in ascending order. */
  function Sort(xs: seq<string>): (r: seq<string>)
    ensures Sorted(r)
    ensures multiset(r) == multiset(xs)
    decreases |xs|
  {
    if |xs| == 0 then []
    else
      assert xs == xs[..|xs| - 1] + [xs[|xs| - 1]];
      Insert(xs[|xs| - 1], Sort(xs[..|xs| - 1]))
  }

  /** The first element of a sorted sequence sorts no later than any element. */
  lemma {:induction false} HeadIsLeast(a: seq<string>, x: string)
    requires Sorted(a)
    requires x in multiset(a)
    ensures |a| > 0 && Le(a[0], x)
  {
    var i :| 0 <= i < |a| && a[i] == x;
    if i == 0 {
      LeReflexive(x);
    }
  }

  /** Dropping the first element removes one copy of it. */
  lemma {:induction false} TailMultiset(a: seq<string>)
    requires |a| > 0
    ensures multiset(a[1..]) == multiset(a) - multiset{a[0]}
  {
    assert a == [a[0]] + a[1..];
    assert multiset(a) == multiset{a[0]} + multiset(a[1..]);
  }

  /** A sorted arrangement of a multiset of names is unique, so `Sort` gives
      exactly what any correct sort gives. */
  lemma {:induction false} SortedIsUnique(a: seq<string>, b: seq<string>)
    requires Sorted(a) && Sorted(b)
    requires multiset(a) == multiset(b)
    ensures a == b
    decreases |a|
  {
    assert |a| == |b| by {
      assert |multiset(a)| == |a| && |multiset(b)| == |b|;
    }
    if |a| > 0 {
      HeadIsLeast(a, b[0]);
      HeadIsLeast(b, a[0]);
      LeAntisymmetric(a[0], b[0]);
      TailMultiset(a);
      TailMultiset(b);
      SortedIsUnique(a[1..], b[1..]);
      assert a == [a[0]] + a[1..];
      assert b == [b[0]] + b[1..];
    }
  }
}
