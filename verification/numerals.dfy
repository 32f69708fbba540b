/** Digit text: the decimal and hexadecimal conversions behind the file-name
    codec.

    Parsing (`Value`) accepts hex letters of either case, as `Uuid::parse_str`
    does; rendering (`Fixed`, `ToDecimal`) produces lower case only, as the
    `Display` of `Uuid` and `format!` do. `IsRegexDigit` is the class `\d`
    of the `regex` crate, which is Unicode-aware: it matches every character
    of general category Nd, not just `0`-`9`. */
module Numerals {
  import opened Results

  function Pow(base: nat, n: nat): (r: nat)
    ensures base > 0 ==> r > 0
  {
    if n == 0 then 1 else base * Pow(base, n - 1)
  }

  /** Powers of a base grow strictly with the exponent: a smaller power
      has a smaller exponent. */
  lemma {:induction false} PowCancel(base: nat, m: nat, n: nat)
    requires base > 0 && Pow(base, m) < Pow(base, n)
    ensures m < n
    decreases m
  {
    if m > 0 {
      var a, b := Pow(base, m - 1), Pow(base, n - 1);
      assert Pow(base, m) == base * a;
      assert Pow(base, n) == base * b;
      assert a * base < b * base;
      MulCancel(a, b, base);
      PowCancel(base, m - 1, n - 1);
    }
  }

  /** A product's order determines its factors' order, for a positive factor. */
  lemma {:induction false} MulCancel(a: nat, b: nat, c: nat)
    requires 0 < c && a * c < b * c
    ensures a < b
    decreases a
  {
    if a > 0 {
      assert (a - 1) * c == a * c - c;
      assert 0 < b;
      assert (b - 1) * c == b * c - c;
      MulCancel(a - 1, b - 1, c);
    }
  }

  lemma MulAssoc(a: int, b: int, c: int)
    ensures a * (b * c) == (a * b) * c
  {
  }

  lemma {:induction false} PowAdd(base: nat, m: nat, n: nat)
    ensures Pow(base, m + n) == Pow(base, m) * Pow(base, n)
    decreases m
  {
    if m > 0 {
      var a, c := Pow(base, m - 1), Pow(base, n);
      PowAdd(base, m - 1, n);
      PowNext(base, m + n);
      PowNext(base, m);
      MulAssoc(base, a, c);
    }
  }

  /** The powers of ten the decimal field widths need. */
  lemma PowTen()
    ensures Pow(10, 3) == 1000 && Pow(10, 5) == 100000
  {
    assert Pow(10, 3) == 1000;
    PowAdd(10, 3, 2);
  }

  /** The power of sixteen a 32-digit UUID needs. */
  lemma PowSixteen()
    ensures Pow(16, 32) == 0x1_0000_0000_0000_0000_0000_0000_0000_0000
  {
    assert Pow(16, 2) == 0x100;
    PowAdd(16, 2, 2);
    assert Pow(16, 4) == 0x1_0000;
    PowAdd(16, 4, 4);
    assert Pow(16, 8) == 0x1_0000_0000;
    PowAdd(16, 8, 8);
    assert Pow(16, 16) == 0x1_0000_0000_0000_0000;
    PowAdd(16, 16, 16);
  }

  predicate IsAsciiDigit(c: char) {
    '0' <= c <= '9'
  }

  /** `[0-9a-fA-F]` */
  predicate IsHexDigit(c: char) {
    '0' <= c <= '9' || 'a' <= c <= 'f' || 'A' <= c <= 'F'
  }

  function HexDigitValue(c: char): (d: nat)
    requires IsHexDigit(c)
    ensures d < 16
    ensures d < 10 <==> IsAsciiDigit(c)
  {
    if '0' <= c <= '9' then c as int - '0' as int
    else if 'a' <= c <= 'f' then c as int - 'a' as int + 10
    else c as int - 'A' as int + 10
  }

  /** A digit of the given base; for base 10 exactly the ASCII digits. */
  predicate IsDigitIn(c: char, base: nat) {
    IsHexDigit(c) && HexDigitValue(c) < base
  }

  /** The lower-case digit for `d`, as printed by `format!` and `Uuid`. */
  function DigitChar(d: nat): (c: char)
    requires d < 16
    ensures IsHexDigit(c) && HexDigitValue(c) == d
    ensures !('A' <= c <= 'F')
  {
    if d < 10 then ('0' as int + d) as char else ('a' as int + d - 10) as char
  }

  lemma DigitCharOfValue(c: char)
    requires IsHexDigit(c) && !('A' <= c <= 'F')
    ensures DigitChar(HexDigitValue(c)) == c
  {
  }

  predicate AllDigits(s: string, base: nat) {
    forall i | 0 <= i < |s| :: IsDigitIn(s[i], base)
  }

  /** Digits of the base, written the way the renderers write them (no upper case). */
  predicate Canonical(s: string, base: nat) {
    AllDigits(s, base) && forall i | 0 <= i < |s| :: !('A' <= s[i] <= 'F')
  }

  /** Appending a digit to a number of `n - 1` places gives one of `n` places. */
  lemma {:induction false} AppendBound(q: nat, d: nat, base: nat, n: nat)
    requires 0 < n && q < Pow(base, n - 1) && d < base
    ensures 0 <= q * base + d < Pow(base, n)
  {
    var bound := Pow(base, n - 1);
    MulLe(q + 1, bound, base);
    assert (q + 1) * base == q * base + base;
    PowNext(base, n);
  }

  lemma {:induction false} MulLe(a: nat, b: nat, c: nat)
    requires a <= b
    ensures 0 <= a * c <= b * c
    decreases c
  {
    if c > 0 {
      MulLe(a, b, c - 1);
      assert a * c == a * (c - 1) + a;
      assert b * c == b * (c - 1) + b;
    }
  }

  /** The number a digit string denotes, most significant digit first. */
  function Value(s: string, base: nat): (v: nat)
    requires AllDigits(s, base)
    ensures v < Pow(base, |s|)
    decreases |s|
  {
    if |s| == 0 then 0
    else
      var init, d := s[..|s| - 1], HexDigitValue(s[|s| - 1]);
      assert AllDigits(init, base) by {
        forall i | 0 <= i < |init|
          ensures IsDigitIn(init[i], base)
        {
          assert init[i] == s[i];
        }
      }
      var front := Value(init, base);
      AppendBound(front, d, base, |s|);
      front * base + d
  }

  /** Reading one more digit shifts the value up one place. */
  lemma ValueStep(s: string, c: char, base: nat, t: string)
    requires AllDigits(s, base) && IsDigitIn(c, base) && t == s + [c]
    ensures AllDigits(t, base)
    ensures Value(t, base) == Value(s, base) * base + HexDigitValue(c)
  {
    assert t[..|s|] == s;
  }

  /** Exactly `width` digits of `v`, the least significant last. */
  function Fixed(v: nat, width: nat, base: nat): (s: string)
    requires IsBase(base)
    ensures |s| == width && Canonical(s, base)
    decreases width
  {
    if width == 0 then [] else Fixed(v / base, width - 1, base) + [DigitChar(v % base)]
  }

  /** The two bases the codec uses. */
  predicate IsBase(base: nat) {
    base == 10 || base == 16
  }

  lemma DivModOf(q: nat, d: nat, base: nat)
    requires IsBase(base) && d < base
    ensures (q * base + d) / base == q && (q * base + d) % base == d
  {
    if base == 10 {
      assert (q * 10 + d) / 10 == q;
    } else {
      assert (q * 16 + d) / 16 == q;
    }
  }

  lemma DivModSplit(v: nat, base: nat)
    requires IsBase(base)
    ensures (v / base) * base + v % base == v
  {
  }

  /** Dropping the last digit of a number that fits in `width` digits
      leaves one that fits in `width - 1`. */
  lemma QuotientBound(v: nat, width: nat, base: nat)
    requires IsBase(base) && 0 < width && v < Pow(base, width)
    ensures v / base < Pow(base, width - 1)
  {
    var p, q := Pow(base, width - 1), v / base;
    PowNext(base, width);
    DivModSplit(v, base);
    assert q * base < p * base;
    MulCancel(q, p, base);
  }

  /** Rendering a number that fits and reading it back gives the number. */
  lemma {:induction false} ValueOfFixed(v: nat, width: nat, base: nat)
    requires IsBase(base) && v < Pow(base, width)
    ensures Value(Fixed(v, width, base), base) == v
    decreases width
  {
    if width > 0 {
      var q, r := v / base, v % base;
      QuotientBound(v, width, base);
      ValueOfFixed(q, width - 1, base);
      var front := Fixed(q, width - 1, base);
      var s := Fixed(v, width, base);
      ValueStep(front, DigitChar(r), base, s);
      assert Value(s, base) == q * base + r;
      DivModSplit(v, base);
    }
  }

  /** Reading a canonical digit string and rendering it at its own width gives it back. */
  lemma {:induction false} FixedOfValue(s: string, base: nat)
    requires IsBase(base) && Canonical(s, base)
    ensures Fixed(Value(s, base), |s|, base) == s
    decreases |s|
  {
    if |s| > 0 {
      var front := s[..|s| - 1];
      var last := s[|s| - 1];
      assert Canonical(front, base);
      var q, d := Value(front, base), HexDigitValue(last);
      assert s == front + [last];
      ValueStep(front, last, base, s);
      DivModOf(q, d, base);
      assert Fixed(Value(s, base), |s|, base) == Fixed(q, |front|, base) + [DigitChar(d)];
      FixedOfValue(front, base);
      DigitCharOfValue(last);
    }
  }

  function Zeros(n: nat): (s: string)
    ensures |s| == n && forall i | 0 <= i < n :: s[i] == '0'
  {
    seq(n, _ => '0')
  }

  lemma {:induction false} FixedOfZero(width: nat, base: nat)
    requires IsBase(base)
    ensures Fixed(0, width, base) == Zeros(width)
    decreases width
  {
    if width > 0 {
      FixedOfZero(width - 1, base);
    }
  }

  lemma PowNext(base: nat, n: nat)
    requires 0 < n
    ensures Pow(base, n) == base * Pow(base, n - 1)
  {
  }

  lemma TenTimes(p: nat, v: nat)
    requires 0 < p <= v / 10
    ensures 10 * p <= v
  {
  }

  /** The shortest decimal rendering of `v` (`{}` of an unsigned integer). */
  function ToDecimal(v: nat): (s: string)
    ensures 1 <= |s| && Canonical(s, 10)
    ensures Value(s, 10) == v
    ensures |s| > 1 ==> Pow(10, |s| - 1) <= v
    decreases v
  {
    if v < 10 then [DigitChar(v)]
    else
      var front := ToDecimal(v / 10);
      AppendDecimalDigit(front, v);
      front + [DigitChar(v % 10)]
  }

  /** The rendering of `v / 10` followed by the last digit of `v` renders `v`. */
  lemma AppendDecimalDigit(front: string, v: nat)
    requires v >= 10
    requires 1 <= |front| && Canonical(front, 10) && Value(front, 10) == v / 10
    requires |front| > 1 ==> Pow(10, |front| - 1) <= v / 10
    ensures var s := front + [DigitChar(v % 10)];
            Canonical(s, 10) && Value(s, 10) == v && Pow(10, |s| - 1) <= v
  {
    var s := front + [DigitChar(v % 10)];
    ValueStep(front, DigitChar(v % 10), 10, s);
    DivModSplit(v, 10);
    TenTimes(Pow(10, |front| - 1), v);
    PowNext(10, |front|);
  }

  /** `{:0w}`: left-pad with zeros up to `width`; longer text is kept whole. */
  function ZeroPad(s: string, width: nat): string {
    if |s| >= width then s else Zeros(width - |s|) + s
  }

  /** A number below `10^width` has at most `width` decimal digits. */
  lemma DecimalFits(v: nat, width: nat)
    requires 1 <= width && v < Pow(10, width)
    ensures |ToDecimal(v)| <= width
  {
    var t := ToDecimal(v);
    if |t| > 1 {
      PowCancel(10, |t| - 1, width);
    }
  }

  /** `{:0w}` of a number that fits in `width` digits is its fixed-width rendering. */
  lemma {:induction false} PadDecimal(v: nat, width: nat)
    requires 1 <= width && v < Pow(10, width)
    ensures ZeroPad(ToDecimal(v), width) == Fixed(v, width, 10)
  {
    DecimalFits(v, width);
    var t := ToDecimal(v);
    var k := width - |t|;
    DecimalWiden(v, k);
    assert |t| + k == width;
    assert Fixed(v, width, 10) == Zeros(k) + t;
    PadShort(t, width);
  }

  /** The shortest decimal rendering of `v`, widened by `k` places, is
      the fixed-width rendering at that width. */
  lemma {:induction false} DecimalWiden(v: nat, k: nat)
    ensures Fixed(v, |ToDecimal(v)| + k, 10) == Zeros(k) + ToDecimal(v)
    decreases v
  {
    if v < 10 {
      WidenDigit(v, k);
    } else {
      var front, d := ToDecimal(v / 10), DigitChar(v % 10);
      WidenStep(v, k);
      DecimalWiden(v / 10, k);
      assert Zeros(k) + front + [d] == Zeros(k) + (front + [d]);
    }
  }

  lemma WidenDigit(v: nat, k: nat)
    requires v < 10
    ensures Fixed(v, |ToDecimal(v)| + k, 10) == Zeros(k) + ToDecimal(v)
  {
    assert ToDecimal(v) == [DigitChar(v)];
    assert Fixed(v, 1 + k, 10) == Fixed(0, k, 10) + [DigitChar(v)];
    FixedOfZero(k, 10);
  }

  /** One more decimal digit on the right, in both renderings. */
  lemma WidenStep(v: nat, k: nat)
    requires v >= 10
    ensures ToDecimal(v) == ToDecimal(v / 10) + [DigitChar(v % 10)]
    ensures Fixed(v, |ToDecimal(v)| + k, 10) == Fixed(v / 10, |ToDecimal(v / 10)| + k, 10) + [DigitChar(v % 10)]
  {
    var t, w := ToDecimal(v), |ToDecimal(v / 10)| + k;
    assert t == ToDecimal(v / 10) + [DigitChar(v % 10)];
    assert |t| + k == w + 1;
    FixedStep(v, w);
  }

  lemma FixedStep(v: nat, w: nat)
    ensures Fixed(v, w + 1, 10) == Fixed(v / 10, w, 10) + [DigitChar(v % 10)]
  {
  }

  lemma PadShort(s: string, width: nat)
    requires |s| <= width
    ensures ZeroPad(s, width) == Zeros(width - |s|) + s
  {
    if |s| == width {
      assert Zeros(0) + s == s;
    }
  }

  /** `{:0w}` of a number that does not fit in `width` digits is longer than `width`. */
  lemma {:induction false} LongDecimal(v: nat, width: nat)
    requires v >= Pow(10, width)
    ensures |ToDecimal(v)| > width && ZeroPad(ToDecimal(v), width) == ToDecimal(v)
  {
    var t := ToDecimal(v);
    PowCancel(10, width, |t|);
  }

  /** `str::parse` of an unsigned integer type whose values are below `bound`:
      an optional `+`, then at least one ASCII digit, and no overflow. */
  function ParseUnsigned(s: string, bound: nat): (r: Option<nat>)
    ensures r.Some? ==> r.value < bound
    ensures |s| > 0 && AllDigits(s, 10) ==>
              (r.Some? <==> Value(s, 10) < bound) && (r.Some? ==> r.value == Value(s, 10))
    ensures (exists i | 0 <= i < |s| :: !IsAsciiDigit(s[i]) && !(i == 0 && s[i] == '+')) ==> r.None?
  {
    var digits := if |s| > 0 && s[0] == '+' then s[1..] else s;
    if |digits| > 0 && AllDigits(digits, 10) && Value(digits, 10) < bound
    then Some(Value(digits, 10))
    else None
  }

  /** A string that parses and does not start with a sign is all digits,
      and the parse is its value. */
  lemma ParsedUnsigned(s: string, bound: nat)
    requires ParseUnsigned(s, bound).Some? && (|s| > 0 ==> s[0] != '+')
    ensures |s| > 0 && AllDigits(s, 10) && ParseUnsigned(s, bound).value == Value(s, 10)
  {
  }

  /** No `\d` character is a sign. */
  lemma RegexDigitsUnsigned(s: string)
    requires |s| > 0 && AllRegexDigits(s)
    ensures s[0] != '+'
  {
    assert IsRegexDigit(s[0]);
  }

  /** `c` is one of the ten consecutive code points starting at `first`. */
  predicate TenFrom(c: char, first: int) {
    first <= c as int < first + 10
  }

  /** `\d` of the `regex` crate in its default Unicode mode: a character of
      general category Nd (Unicode 15.0). Apart from the ASCII digits these
      come in runs of ten, except the mathematical digits U+1D7CE-U+1D7FF. */
  predicate IsRegexDigit(c: char) {
    || IsAsciiDigit(c)
    || TenFrom(c, 0x0660) || TenFrom(c, 0x06F0) || TenFrom(c, 0x07C0) || TenFrom(c, 0x0966)
    || TenFrom(c, 0x09E6) || TenFrom(c, 0x0A66) || TenFrom(c, 0x0AE6) || TenFrom(c, 0x0B66)
    || TenFrom(c, 0x0BE6) || TenFrom(c, 0x0C66) || TenFrom(c, 0x0CE6) || TenFrom(c, 0x0D66)
    || TenFrom(c, 0x0DE6) || TenFrom(c, 0x0E50) || TenFrom(c, 0x0ED0) || TenFrom(c, 0x0F20)
    || TenFrom(c, 0x1040) || TenFrom(c, 0x1090) || TenFrom(c, 0x17E0) || TenFrom(c, 0x1810)
    || TenFrom(c, 0x1946) || TenFrom(c, 0x19D0) || TenFrom(c, 0x1A80) || TenFrom(c, 0x1A90)
    || TenFrom(c, 0x1B50) || TenFrom(c, 0x1BB0) || TenFrom(c, 0x1C40) || TenFrom(c, 0x1C50)
    || TenFrom(c, 0xA620) || TenFrom(c, 0xA8D0) || TenFrom(c, 0xA900) || TenFrom(c, 0xA9D0)
    || TenFrom(c, 0xA9F0) || TenFrom(c, 0xAA50) || TenFrom(c, 0xABF0) || TenFrom(c, 0xFF10)
    || TenFrom(c, 0x104A0) || TenFrom(c, 0x10D30) || TenFrom(c, 0x11066) || TenFrom(c, 0x110F0)
    || TenFrom(c, 0x11136) || TenFrom(c, 0x111D0) || TenFrom(c, 0x112F0) || TenFrom(c, 0x11450)
    || TenFrom(c, 0x114D0) || TenFrom(c, 0x11650) || TenFrom(c, 0x116C0) || TenFrom(c, 0x11730)
    || TenFrom(c, 0x118E0) || TenFrom(c, 0x11950) || TenFrom(c, 0x11C50) || TenFrom(c, 0x11D50)
    || TenFrom(c, 0x11DA0) || TenFrom(c, 0x11F50) || TenFrom(c, 0x16A60) || TenFrom(c, 0x16AC0)
    || TenFrom(c, 0x16B50) || TenFrom(c, 0x1E140) || TenFrom(c, 0x1E2F0) || TenFrom(c, 0x1E4F0)
    || TenFrom(c, 0x1E950) || TenFrom(c, 0x1FBF0)
    || 0x1D7CE <= c as int <= 0x1D7FF
  }

  predicate AllRegexDigits(s: string) {
    forall i | 0 <= i < |s| :: IsRegexDigit(s[i])
  }
}
