/**
 * `sorted(set(titles))`: the distinct titles in increasing string order.
 * Which sorting algorithm produces it does not matter: `SortedEqual` shows
 * that a strictly increasing sequence is determined by its elements.
 */
module Sorting {
  import opened StringOrder

  function Elems(s: seq<string>): set<string>
  {
    set x | x in s
  }

  /** Strictly increasing, hence also free of duplicates. */
  predicate StrictlySorted(s: seq<string>)
  {
    forall i, j :: 0 <= i < j < |s| ==> LexLess(s[i], s[j])
  }

  lemma SortedCons(a: string, r: seq<string>)
    requires StrictlySorted(r)
    requires r != [] ==> LexLess(a, r[0])
    ensures StrictlySorted([a] + r)
  {
    forall j | 0 < j < |r|
      ensures LexLess(a, r[j])
    {
      LexLessTransitive(a, r[0], r[j]);
    }
  }

  /** Every element of a strictly sorted sequence is its first one or after it. */
  lemma SortedFirst(s: seq<string>, y: string)
    requires StrictlySorted(s) && y in s
    ensures y == s[0] || LexLess(s[0], y)
  {
  }

  lemma SortedTail(s: seq<string>)
    requires StrictlySorted(s) && s != []
    ensures s[0] !in s[1..]
    ensures Elems(s[1..]) == Elems(s) - {s[0]}
  {
    LexLessIrreflexive(s[0]);
    assert s == [s[0]] + s[1..];
  }

  lemma ElemsCons(a: string, r: seq<string>)
    ensures Elems([a] + r) == {a} + Elems(r)
  {
  }

  /** Inserts `x` in its place, unless it is already there. */
  function Insert(x: string, s: seq<string>): (r: seq<string>)
    requires StrictlySorted(s)
    ensures StrictlySorted(r) && Elems(r) == Elems(s) + {x}
  {
    if s == [] then [x]
    else if x == s[0] then s
    else if LexLess(x, s[0]) then
      SortedCons(x, s);
      [x] + s
    else
      LexLessTotal(x, s[0]);
      assert s == [s[0]] + s[1..];
      var r := Insert(x, s[1..]);
      assert r[0] in Elems(s[1..]) + {x};
      SortedCons(s[0], r);
      ElemsCons(s[0], r);
      ElemsCons(s[0], s[1..]);
      [s[0]] + r
  }

  /** The distinct elements of `titles`, strictly increasing. */
  function SortedUnique(titles: seq<string>): (u: seq<string>)
    ensures StrictlySorted(u) && Elems(u) == Elems(titles)
  {
    if titles == [] then []
    else
      var n := |titles| - 1;
      assert titles == titles[..n] + [titles[n]];
      Insert(titles[n], SortedUnique(titles[..n]))
  }

  /** Two strictly sorted sequences with the same elements are equal. */
  lemma {:induction false} SortedEqual(a: seq<string>, b: seq<string>)
    requires StrictlySorted(a) && StrictlySorted(b) && Elems(a) == Elems(b)
    ensures a == b
  {
    assert a != [] ==> a[0] in Elems(b);
    assert b != [] ==> b[0] in Elems(a);
    if a != [] {
      SortedFirst(a, b[0]);
      SortedFirst(b, a[0]);
      LexLessAsymmetric(a[0], b[0]);
      SortedTail(a);
      SortedTail(b);
      SortedEqual(a[1..], b[1..]);
    }
  }
}
