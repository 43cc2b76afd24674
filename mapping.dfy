/**
 * `build_mapping`: the distinct titles, in increasing string order, paired
 * position by position with the generated labels.
 */
module Mapping {
  import opened StringOrder
  import opened Labels
  import opened Sorting

  predicate Distinct(s: seq<string>)
  {
    forall i, j :: 0 <= i < j < |s| ==> s[i] != s[j]
  }

  lemma SortedIsDistinct(s: seq<string>)
    requires StrictlySorted(s)
    ensures Distinct(s)
  {
    forall i, j | 0 <= i < j < |s|
      ensures s[i] != s[j]
    {
      LexLessIrreflexive(s[i]);
    }
  }

  /**
   * `dict(zip(keys, values))`: pairs stop at the shorter sequence, and a later
   * pair replaces an earlier one with the same key.
   */
  function Zip(keys: seq<string>, values: seq<string>): (m: map<string, string>)
    ensures m.Keys <= Elems(keys)
    ensures |keys| <= |values| ==> m.Keys == Elems(keys)
  {
    if keys == [] || values == [] then map[]
    else map[keys[0] := values[0]] + Zip(keys[1..], values[1..])
  }

  /** With distinct keys and enough values, the i-th key maps to the i-th value. */
  lemma {:induction false} ZipAt(keys: seq<string>, values: seq<string>)
    requires Distinct(keys) && |keys| <= |values|
    ensures forall i :: 0 <= i < |keys| ==> Zip(keys, values)[keys[i]] == values[i]
  {
    if keys != [] {
      var rest := Zip(keys[1..], values[1..]);
      ZipAt(keys[1..], values[1..]);
      assert Zip(keys, values) == map[keys[0] := values[0]] + rest;
      assert keys[0] !in rest.Keys by {
        assert forall j :: 0 <= j < |keys[1..]| ==> keys[1..][j] == keys[j + 1];
      }
      forall i | 0 < i < |keys|
        ensures Zip(keys, values)[keys[i]] == values[i]
      {
        assert keys[i] == keys[1..][i - 1] && values[i] == values[1..][i - 1];
        assert keys[i] in rest.Keys;
      }
    }
  }

  /** The title-to-label mapping of `build_mapping(titles)`. */
  function BuildMapping(titles: seq<string>): (m: map<string, string>)
    ensures m.Keys == Elems(titles)
    ensures forall i :: 0 <= i < |SortedUnique(titles)| ==> m[SortedUnique(titles)[i]] == Label(i)
  {
    var unique := SortedUnique(titles);
    var labels := LabelSeq(|unique|);
    SortedIsDistinct(unique);
    ZipAt(unique, labels);
    Zip(unique, labels)
  }

  /**
   * The i-th smallest title gets the i-th label: for any strictly increasing
   * listing of the distinct titles, position i maps to `Label(i)`.
   */
  lemma BuildMappingRank(titles: seq<string>, sorted: seq<string>)
    requires StrictlySorted(sorted) && Elems(sorted) == Elems(titles)
    ensures forall i :: 0 <= i < |sorted| ==> BuildMapping(titles)[sorted[i]] == Label(i)
  {
    SortedEqual(sorted, SortedUnique(titles));
  }

  /** Only the set of titles matters: duplicates and their order change nothing. */
  lemma BuildMappingSetOnly(a: seq<string>, b: seq<string>)
    requires Elems(a) == Elems(b)
    ensures BuildMapping(a) == BuildMapping(b)
  {
    SortedEqual(SortedUnique(a), SortedUnique(b));
  }

  /** The index of a title in the sorted distinct titles. */
  lemma IndexOf(u: seq<string>, t: string) returns (i: nat)
    requires t in u
    ensures i < |u| && u[i] == t
  {
    i :| 0 <= i < |u| && u[i] == t;
  }

  /** Different titles get different labels. */
  lemma BuildMappingInjective(titles: seq<string>, t1: string, t2: string)
    requires t1 in titles && t2 in titles && t1 != t2
    ensures BuildMapping(titles)[t1] != BuildMapping(titles)[t2]
  {
    var u := SortedUnique(titles);
    assert t1 in Elems(u) && t2 in Elems(u);
    var i := IndexOf(u, t1);
    var j := IndexOf(u, t2);
    if Label(i) == Label(j) {
      LabelInjective(i, j);
    }
  }

  /** The mapping keeps the order of titles: a smaller title gets an earlier label. */
  lemma BuildMappingMonotone(titles: seq<string>, t1: string, t2: string)
    requires t1 in titles && t2 in titles && LexLess(t1, t2)
    ensures ShortLexLess(BuildMapping(titles)[t1], BuildMapping(titles)[t2])
  {
    var u := SortedUnique(titles);
    assert t1 in Elems(u) && t2 in Elems(u);
    var i := IndexOf(u, t1);
    var j := IndexOf(u, t2);
    LexLessIrreflexive(t1);
    LexLessAsymmetric(t1, t2);
    assert i < j;
    LabelOrder(i, j);
  }

  /** Every label in the mapping is a non-empty string of capital letters. */
  lemma BuildMappingLabels(titles: seq<string>, t: string)
    requires t in titles
    ensures BuildMapping(titles)[t] != [] && IsLetters(BuildMapping(titles)[t])
  {
  }
}
