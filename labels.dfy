/**
 * The label generator of `generate_labels`: index `num` is written in
 * bijective base 26 over the letters 'A'..'Z', so that 0, 1, ..., 25, 26, 27
 * become "A", "B", ..., "Z", "AA", "AB".
 */
module Labels {
  import opened StringOrder

  /** `base = 26`: one digit per letter. */
  const Base: nat := 26

  predicate IsLetter(c: char)
  {
    'A' <= c <= 'Z'
  }

  predicate IsLetters(s: string)
  {
    forall i :: 0 <= i < |s| ==> IsLetter(s[i])
  }

  /** `chr(ord("A") + k)`. */
  function Digit(k: int): (c: char)
    requires 0 <= k < Base
    ensures IsLetter(c) && c as int - 'A' as int == k
  {
    (('A' as int) + k) as char
  }

  /**
   * The label the inner loop builds for `num`: the last letter is digit
   * `num % 26`; what stays is `num / 26`, which ends the label when it is 0
   * and otherwise, decreased by one, is written in front the same way.
   */
  function Label(num: nat): (s: string)
    ensures s != [] && IsLetters(s)
    decreases num
  {
    (if num / Base == 0 then [] else Label(num / Base - 1)) + [Digit(num % Base)]
  }

  /** Reading a letter string in bijective base 26, digits 'A' = 1 ... 'Z' = 26. */
  function Value(s: string): nat
    requires IsLetters(s)
  {
    if s == [] then 0
    else Base * Value(s[..|s| - 1]) + (s[|s| - 1] as int - 'A' as int + 1)
  }

  /** The index a non-empty label stands for. */
  function Decode(s: string): (num: nat)
    requires s != [] && IsLetters(s)
  {
    assert Value(s) >= 1;
    Value(s) - 1
  }

  /** Decoding the label of `num` gives back `num`. */
  lemma {:induction false} DecodeLabel(num: nat)
    ensures Decode(Label(num)) == num
  {
    var s := Label(num);
    var p := if num / Base == 0 then [] else Label(num / Base - 1);
    assert s == p + [Digit(num % Base)];
    assert s[..|s| - 1] == p;
    if num / Base != 0 {
      DecodeLabel(num / Base - 1);
    }
    assert Value(p) == num / Base;
  }

  /** Every non-empty letter string is the label of some index: the one it decodes to. */
  lemma {:induction false} LabelDecode(s: string)
    requires s != [] && IsLetters(s)
    ensures Label(Decode(s)) == s
  {
    var p := s[..|s| - 1];
    var c := s[|s| - 1];
    var v := c as int - 'A' as int;
    var num := Decode(s);
    assert num == Base * Value(p) + v;
    assert num % Base == v && num / Base == Value(p);
    assert Digit(v) == c;
    if p != [] {
      LabelDecode(p);
    }
    assert s == p + [c];
  }

  /** Different indices get different labels. */
  lemma LabelInjective(a: nat, b: nat)
    requires Label(a) == Label(b)
    ensures a == b
  {
    DecodeLabel(a);
    DecodeLabel(b);
  }

  /** Labels come in shortlex order: never shorter than the previous, increasing among equal lengths. */
  lemma {:induction false} LabelOrder(a: nat, b: nat)
    requires a < b
    ensures ShortLexLess(Label(a), Label(b))
    decreases b
  {
    var x, y := Digit(a % Base), Digit(b % Base);
    if a / Base == b / Base {
      var p := if a / Base == 0 then [] else Label(a / Base - 1);
      assert Label(a) == p + [x] && Label(b) == p + [y];
      LexLessLastChar(p, x, y);
    } else if a / Base != 0 {
      var p, q := Label(a / Base - 1), Label(b / Base - 1);
      assert Label(a) == p + [x] && Label(b) == q + [y];
      LabelOrder(a / Base - 1, b / Base - 1);
      if |p| == |q| {
        LexLessExtend(p, q, x, y);
      }
    } else {
      assert |Label(a)| == 1;
      assert |Label(b)| == |Label(b / Base - 1)| + 1;
    }
  }

  /** The worked correspondence of the label scheme. */
  lemma LabelExamples()
    ensures Label(0) == "A" && Label(25) == "Z"
    ensures Label(26) == "AA" && Label(27) == "AB" && Label(51) == "AZ" && Label(52) == "BA"
    ensures Label(701) == "ZZ" && Label(702) == "AAA"
  {
  }

  /** The labels for `range(count)`, in the order they are yielded. */
  function LabelSeq(count: int): (labels: seq<string>)
    ensures |labels| == if count < 0 then 0 else count
    ensures forall i :: 0 <= i < |labels| ==> labels[i] == Label(i)
    decreases count
  {
    if count <= 0 then [] else LabelSeq(count - 1) + [Label(count - 1)]
  }

  /** The inner `while True` loop of `generate_labels`, for one index. */
  method EncodeLabel(num: int) returns (text: string)
    requires num >= 0
    ensures text == Label(num)
    ensures Decode(text) == num
  {
    text := "";
    var n := num;
    while true
      invariant n >= 0
      invariant Label(n) + text == Label(num)
      decreases n
    {
      ghost var before := text;
      text := [Digit(n % Base)] + text;
      assert Label(n) == (if n / Base == 0 then [] else Label(n / Base - 1)) + [Digit(n % Base)];
      n := n / Base;
      if n == 0 {
        break;
      }
      n := n - 1;
      assert Label(n) + text == (Label(n) + [text[0]]) + before;
    }
    DecodeLabel(num);
  }

  /** `generate_labels(count)`: one label per index of `range(count)`. */
  method GenerateLabels(count: int) returns (labels: seq<string>)
    ensures labels == LabelSeq(count)
    ensures |labels| == if count < 0 then 0 else count
    ensures forall i :: 0 <= i < |labels| ==> labels[i] != [] && IsLetters(labels[i]) && Decode(labels[i]) == i
    ensures forall i, j :: 0 <= i < j < |labels| ==> labels[i] != labels[j]
    ensures forall i, j :: 0 <= i < j < |labels| ==> ShortLexLess(labels[i], labels[j])
  {
    labels := [];
    var num := 0;
    while num < count
      invariant 0 <= num <= if count < 0 then 0 else count
      invariant labels == LabelSeq(num)
    {
      var text := EncodeLabel(num);
      labels := labels + [text];
      num := num + 1;
    }
    forall i | 0 <= i < |labels|
      ensures Decode(labels[i]) == i
    {
      DecodeLabel(i);
    }
    forall i, j | 0 <= i < j < |labels|
      ensures ShortLexLess(labels[i], labels[j])
    {
      LabelOrder(i, j);
    }
  }
}
