/** Strings compared byte by byte, and decimal numerals of fixed width. */
module Lexicographic {

  predicate Less(a: string, b: string) {
    if b == "" then false
    else if a == "" then true
    else if a[0] != b[0] then a[0] < b[0]
    else Less(a[1..], b[1..])
  }

  predicate LessEq(a: string, b: string) {
    a == b || Less(a, b)
  }

  lemma {:induction false} Irreflexive(a: string)
    ensures !Less(a, a)
  {
    if a != "" {
      Irreflexive(a[1..]);
    }
  }

  /** Parts of equal length are compared one after the other. */
  lemma {:induction false} LessConcat(x: string, u: string, y: string, v: string)
    requires |x| == |y|
    ensures Less(x + u, y + v) <==> Less(x, y) || (x == y && Less(u, v))
  {
    if x == "" {
      assert x + u == u && y + v == v;
    } else {
      assert (x + u)[0] == x[0] && (x + u)[1..] == x[1..] + u;
      assert (y + v)[0] == y[0] && (y + v)[1..] == y[1..] + v;
      LessConcat(x[1..], u, y[1..], v);
      assert x == [x[0]] + x[1..] && y == [y[0]] + y[1..];
      if x == y {
        Irreflexive(x);
      }
    }
  }

  // ---------------------------------------------------------------- numerals

  function Digit(n: nat): char
    requires n < 10
  {
    '0' + n as char
  }

  /** Base ten, as FormatInt writes it. */
  function Digits(n: nat): string {
    if n < 10 then [Digit(n)] else Digits(n / 10) + [Digit(n % 10)]
  }

  function Zeros(n: nat): string {
    seq(n, i => '0')
  }

  /** Padded with zeros to at least `width` characters, as the verb %0<width>d writes it. */
  function Padded(n: nat, width: nat): string {
    if |Digits(n)| < width then Zeros(width - |Digits(n)|) + Digits(n) else Digits(n)
  }

  /** The last `width` digits. */
  function Fixed(n: nat, width: nat): (s: string)
    ensures |s| == width
  {
    if width == 0 then "" else Fixed(n / 10, width - 1) + [Digit(n % 10)]
  }

  function Pow10(k: nat): nat {
    if k == 0 then 1 else 10 * Pow10(k - 1)
  }

  lemma {:induction false} FixedZero(width: nat)
    ensures Fixed(0, width) == Zeros(width)
  {
    if width > 0 {
      FixedZero(width - 1);
      assert Zeros(width) == Zeros(width - 1) + ['0'];
    }
  }

  lemma {:induction false} PaddedIsFixed(n: nat, width: nat)
    requires width >= 1 && n < Pow10(width)
    ensures |Digits(n)| <= width && Padded(n, width) == Fixed(n, width)
    decreases width
  {
    if n < 10 {
      FixedZero(width - 1);
      assert n / 10 == 0;
      if width == 1 {
        assert Zeros(0) + [Digit(n)] == [Digit(n)];
      }
    } else {
      assert width >= 2 by {
        assert Pow10(1) == 10;
      }
      assert n / 10 < Pow10(width - 1);
      PaddedIsFixed(n / 10, width - 1);
      var k := |Digits(n / 10)|;
      if k < width - 1 {
        assert Zeros(width - 1 - k) + Digits(n / 10) + [Digit(n % 10)] == Zeros(width - 1 - k) + Digits(n);
      }
    }
  }

  // ---------------------------------------------------------------- reading numerals

  predicate IsNumeral(s: string) {
    forall i :: 0 <= i < |s| ==> '0' <= s[i] <= '9'
  }

  /** The number a decimal numeral stands for. */
  function ReadDecimal(s: string): nat
    requires IsNumeral(s)
  {
    if s == "" then 0 else 10 * ReadDecimal(s[..|s| - 1]) + (s[|s| - 1] as int - '0' as int)
  }

  lemma {:induction false} FixedReads(n: nat, width: nat)
    requires n < Pow10(width)
    ensures IsNumeral(Fixed(n, width)) && ReadDecimal(Fixed(n, width)) == n
  {
    if width > 0 {
      var s := Fixed(n, width);
      FixedReads(n / 10, width - 1);
      assert s[..width - 1] == Fixed(n / 10, width - 1);
      assert s[width - 1] == Digit(n % 10);
    }
  }

  /** A padded numeral read as a decimal is the number. */
  lemma PaddedReads(n: nat, width: nat)
    requires width >= 1 && n < Pow10(width)
    ensures |Padded(n, width)| == width && IsNumeral(Padded(n, width)) && ReadDecimal(Padded(n, width)) == n
  {
    PaddedIsFixed(n, width);
    FixedReads(n, width);
  }

  lemma DigitLess(a: nat, b: nat)
    requires a < 10 && b < 10
    ensures Less([Digit(a)], [Digit(b)]) <==> a < b
    ensures Digit(a) == Digit(b) <==> a == b
  {
    assert [Digit(a)][1..] == "" && [Digit(b)][1..] == "";
  }

  /** Numerals of one width compare as the numbers do. */
  lemma {:induction false} FixedOrder(a: nat, b: nat, width: nat)
    requires a < Pow10(width) && b < Pow10(width)
    ensures Less(Fixed(a, width), Fixed(b, width)) <==> a < b
    ensures Fixed(a, width) == Fixed(b, width) <==> a == b
  {
    if width > 0 {
      FixedOrder(a / 10, b / 10, width - 1);
      LessConcat(Fixed(a / 10, width - 1), [Digit(a % 10)], Fixed(b / 10, width - 1), [Digit(b % 10)]);
      DigitLess(a % 10, b % 10);
      var x, y := Fixed(a, width), Fixed(b, width);
      assert x[..width - 1] == Fixed(a / 10, width - 1) && y[..width - 1] == Fixed(b / 10, width - 1);
      assert x[width - 1] == Digit(a % 10) && y[width - 1] == Digit(b % 10);
    }
  }
}
