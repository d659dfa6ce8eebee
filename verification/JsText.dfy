/**
 ECMAScript strings: sequences of UTF-16 code units, with the operations the repository leans on
 (default sort order, `trim`, decimal rendering of integers, `BigInt` of a digit string).
 */
module JsText {
  import opened Ordering

  newtype CodeUnit = x: int | 0 <= x < 0x1_0000

  type Text = seq<CodeUnit>

  const SPACE: CodeUnit := 0x20
  const QUOTE: CodeUnit := 0x22
  const COMMA: CodeUnit := 0x2C
  const MINUS: CodeUnit := 0x2D
  const DOT: CodeUnit := 0x2E
  const ZERO: CodeUnit := 0x30
  const COLON: CodeUnit := 0x3A
  const SEMICOLON: CodeUnit := 0x3B
  const OPEN_BRACKET: CodeUnit := 0x5B
  const BACKSLASH: CodeUnit := 0x5C
  const CLOSE_BRACKET: CodeUnit := 0x5D
  const OPEN_BRACE: CodeUnit := 0x7B
  const CLOSE_BRACE: CodeUnit := 0x7D

  /** An ASCII literal as code units. */
  function Ascii(s: string): Text {
    seq(|s|, i requires 0 <= i < |s| => (s[i] as int % 0x1_0000) as CodeUnit)
  }

  /** The default `sort()` order: lexicographic on code units. */
  predicate LexLess(a: Text, b: Text) {
    if b == [] then false
    else if a == [] then true
    else if a[0] != b[0] then a[0] < b[0]
    else LexLess(a[1..], b[1..])
  }

  lemma {:induction false} LexIrreflexive(a: Text)
    ensures !LexLess(a, a)
  {
    if a != [] { LexIrreflexive(a[1..]); }
  }

  lemma {:induction false} LexTransitive(a: Text, b: Text, c: Text)
    requires LexLess(a, b) && LexLess(b, c)
    ensures LexLess(a, c)
  {
    if a != [] && a[0] == b[0] && b[0] == c[0] {
      LexTransitive(a[1..], b[1..], c[1..]);
    }
  }

  lemma {:induction false} LexTotal(a: Text, b: Text)
    requires a != b
    ensures LexLess(a, b) || LexLess(b, a)
  {
    if a != [] && b != [] && a[0] == b[0] {
      assert a == [a[0]] + a[1..] && b == [b[0]] + b[1..];
      LexTotal(a[1..], b[1..]);
    }
  }

  /** Code-unit order tells every two different strings apart, so sorting by it is canonical. */
  lemma LexIsStrictTotalOrder()
    ensures StrictTotalOrder(LexLess)
    ensures StrictWeakOrder(LexLess)
  {
    forall a ensures !LexLess(a, a) { LexIrreflexive(a); }
    forall a, b | a != b ensures LexLess(a, b) || LexLess(b, a) { LexTotal(a, b); }
    forall a, b, c | LexLess(a, b) && LexLess(b, c) ensures LexLess(a, c) { LexTransitive(a, b, c); }
    forall a, b, c | LexLess(a, c) ensures LexLess(a, b) || LexLess(b, c) {
      if a != b && LexLess(b, a) { LexTransitive(b, a, c); } else if a != b { LexTotal(a, b); }
    }
  }

  /** Default sorting arranges a set of distinct strings in one way only. */
  lemma SortTexts(s: seq<Text>, t: seq<Text>)
    requires Distinct(s) && Distinct(t) && forall x :: x in s <==> x in t
    ensures StableSort(LexLess, s) == StableSort(LexLess, t)
  {
    SameMembersSameMultiset(s, t);
    LexIsStrictTotalOrder();
    forall i, j | 0 <= i < j < |s| ensures LexLess(s[i], s[j]) || LexLess(s[j], s[i]) {
      LexTotal(s[i], s[j]);
    }
    SortIgnoresInputOrder(LexLess, s, t);
  }

  predicate IsDigit(c: CodeUnit) {
    ZERO <= c < ZERO + 10
  }

  predicate AllDigits(t: Text) {
    forall c | c in t :: IsDigit(c)
  }

  /** `String(n)` for a non-negative integer. */
  function Decimal(n: nat): (t: Text)
    ensures t != [] && AllDigits(t) && IsDigit(t[0])
  {
    var last := ZERO + (n % 10) as CodeUnit;
    if n < 10 then [last] else Decimal(n / 10) + [last]
  }

  /** `BigInt(t)` for a digit string. */
  function Value(t: Text): nat
    requires AllDigits(t)
  {
    if t == [] then 0
    else
      assert t[|t| - 1] in t;
      Value(t[..|t| - 1]) * 10 + (t[|t| - 1] as int - ZERO as int)
  }

  lemma {:induction false} ValueOfDecimal(n: nat)
    ensures Value(Decimal(n)) == n
  {
    if n >= 10 {
      ValueOfDecimal(n / 10);
      var t := Decimal(n);
      assert t[..|t| - 1] == Decimal(n / 10);
    }
  }

  lemma SplitEqual(a: Text, r: Text, b: Text, q: Text)
    requires a + r == b + q && |a| == |b|
    ensures a == b && r == q
  {
    assert (a + r)[..|a|] == a && (b + q)[..|b|] == b;
    assert (a + r)[|a|..] == r && (b + q)[|b|..] == q;
  }

  ghost predicate EndsNumber(rest: Text) {
    rest == [] || !IsDigit(rest[0])
  }

  lemma DigitRunContinues(a: Text, r: Text, b: Text, q: Text)
    requires AllDigits(b) && a + r == b + q
    ensures |a| < |b| ==> !EndsNumber(r)
  {
    if |a| < |b| {
      assert r[0] == (a + r)[|a|] == (b + q)[|a|] == b[|a|];
    }
  }

  /** A printed number followed by a non-digit can be read back in only one way. */
  lemma DecimalReadsBack(m: nat, r: Text, n: nat, q: Text)
    requires Decimal(m) + r == Decimal(n) + q
    requires EndsNumber(r) && EndsNumber(q)
    ensures m == n && r == q
  {
    DigitRunContinues(Decimal(m), r, Decimal(n), q);
    DigitRunContinues(Decimal(n), q, Decimal(m), r);
    SplitEqual(Decimal(m), r, Decimal(n), q);
    ValueOfDecimal(m);
    ValueOfDecimal(n);
  }

  /** ECMAScript WhiteSpace and LineTerminator, the class behind both `trim` and `\s`. */
  predicate IsSpace(c: CodeUnit) {
    || 0x09 <= c <= 0x0D || c == 0x20 || c == 0xA0 || c == 0x1680
    || 0x2000 <= c <= 0x200A || c == 0x2028 || c == 0x2029 || c == 0x202F
    || c == 0x205F || c == 0x3000 || c == 0xFEFF
  }

  function TrimStart(t: Text): (r: Text)
    ensures |r| <= |t| && r == t[|t| - |r|..]
    ensures forall i :: 0 <= i < |t| - |r| ==> IsSpace(t[i])
    ensures r == [] || !IsSpace(r[0])
  {
    if t != [] && IsSpace(t[0]) then TrimStart(t[1..]) else t
  }

  function TrimEnd(t: Text): (r: Text)
    ensures |r| <= |t| && r == t[..|r|]
    ensures forall i :: |r| <= i < |t| ==> IsSpace(t[i])
    ensures r == [] || !IsSpace(r[|r| - 1])
  {
    if t != [] && IsSpace(t[|t| - 1]) then TrimEnd(t[..|t| - 1]) else t
  }

  function Trim(t: Text): Text {
    TrimEnd(TrimStart(t))
  }

  ghost predicate Trimmed(t: Text) {
    t == [] || (!IsSpace(t[0]) && !IsSpace(t[|t| - 1]))
  }

  /** `trim` leaves no white space at either end, and a string without any is left alone. */
  lemma TrimFixpoint(t: Text)
    ensures Trimmed(Trim(t))
    ensures Trimmed(t) ==> Trim(t) == t
  {
    var u := TrimStart(t);
    if Trim(t) != [] {
      assert Trim(t)[0] == u[0];
    }
  }

  ghost predicate Blank(t: Text) {
    forall c <- t :: IsSpace(c)
  }

  lemma {:induction false} TrimStartPadded(pad: Text, t: Text)
    requires Blank(pad) && t != [] && !IsSpace(t[0])
    ensures TrimStart(pad + t) == t
  {
    if pad == [] {
      assert pad + t == t;
    } else {
      assert pad[0] in pad && (pad + t)[1..] == pad[1..] + t;
      TrimStartPadded(pad[1..], t);
    }
  }

  lemma {:induction false} TrimEndPadded(t: Text, pad: Text)
    requires Blank(pad) && t != [] && !IsSpace(t[|t| - 1])
    ensures TrimEnd(t + pad) == t
  {
    if pad == [] {
      assert t + pad == t;
    } else {
      var n := |pad| - 1;
      assert pad[n] in pad && (t + pad)[..|t + pad| - 1] == t + pad[..n];
      TrimEndPadded(t, pad[..n]);
    }
  }

  /** White space around a text that begins and ends with something else is what `trim` removes. */
  lemma TrimPadded(before: Text, t: Text, after: Text)
    requires Blank(before) && Blank(after) && Trimmed(t) && t != []
    ensures Trim(before + t + after) == t
  {
    assert before + t + after == before + (t + after);
    TrimStartPadded(before, t + after);
    TrimEndPadded(t, after);
  }
}
