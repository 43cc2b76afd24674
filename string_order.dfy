/**
 * The default ordering of strings that `sorted` uses: character by character
 * on code points, a proper prefix coming before every longer string.
 * Also the "shortlex" order in which labels are generated: shorter first,
 * equal lengths by that character order.
 */
module StringOrder {

  /** `s < t` on strings. */
  predicate LexLess(s: string, t: string)
  {
    if s == [] then t != []
    else t != [] && (s[0] < t[0] || (s[0] == t[0] && LexLess(s[1..], t[1..])))
  }

  /** Shorter strings first; strings of equal length in `LexLess` order. */
  predicate ShortLexLess(s: string, t: string)
  {
    |s| < |t| || (|s| == |t| && LexLess(s, t))
  }

  lemma {:induction false} LexLessIrreflexive(s: string)
    ensures !LexLess(s, s)
  {
    if s != [] {
      LexLessIrreflexive(s[1..]);
    }
  }

  lemma {:induction false} LexLessAsymmetric(s: string, t: string)
    ensures !(LexLess(s, t) && LexLess(t, s))
  {
    if s != [] && t != [] && s[0] == t[0] {
      LexLessAsymmetric(s[1..], t[1..]);
    }
  }

  lemma {:induction false} LexLessTransitive(s: string, t: string, u: string)
    requires LexLess(s, t) && LexLess(t, u)
    ensures LexLess(s, u)
  {
    if s != [] && s[0] == t[0] && t[0] == u[0] {
      LexLessTransitive(s[1..], t[1..], u[1..]);
    }
  }

  /** Any two different strings are ordered one way or the other. */
  lemma {:induction false} LexLessTotal(s: string, t: string)
    requires s != t
    ensures LexLess(s, t) || LexLess(t, s)
  {
    if s != [] && t != [] && s[0] == t[0] {
      assert s == [s[0]] + s[1..] && t == [t[0]] + t[1..];
      LexLessTotal(s[1..], t[1..]);
    }
  }

  /** Two strings that differ only in their last character are ordered by it. */
  lemma {:induction false} LexLessLastChar(p: string, x: char, y: char)
    requires x < y
    ensures LexLess(p + [x], p + [y])
  {
    if p != [] {
      assert (p + [x])[1..] == p[1..] + [x];
      assert (p + [y])[1..] == p[1..] + [y];
      LexLessLastChar(p[1..], x, y);
    }
  }

  /** Appending one character to each of two ordered strings of equal length keeps their order. */
  lemma {:induction false} LexLessExtend(p: string, q: string, x: char, y: char)
    requires |p| == |q| && LexLess(p, q)
    ensures LexLess(p + [x], q + [y])
  {
    assert p != [];
    assert (p + [x])[1..] == p[1..] + [x];
    assert (q + [y])[1..] == q[1..] + [y];
    if p[0] == q[0] {
      LexLessExtend(p[1..], q[1..], x, y);
    }
  }
}
