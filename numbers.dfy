/** Fixed-width integers and their decimal texts: Go's int32/int64 ranges,
    the truncating conversion int32(x), fmt's "%d", strconv.ParseInt in base
    10, the zero-padded fields of time.Format and humanize.Comma. */
module Numbers {
  import opened Results

  const MinInt32: int := -0x8000_0000
  const MaxInt32: int := 0x7fff_ffff
  const MinInt64: int := -0x8000_0000_0000_0000
  const MaxInt64: int := 0x7fff_ffff_ffff_ffff

  type int32 = x: int | MinInt32 <= x <= MaxInt32
  type int64 = x: int | MinInt64 <= x <= MaxInt64

  /** 2 to the power n. */
  function Pow2(n: nat): (r: nat)
    ensures r >= 1
  {
    if n == 0 then 1 else 2 * Pow2(n - 1)
  }

  /** 10 to the power n. */
  function Pow10(n: nat): (r: nat)
    ensures r >= 1
  {
    if n == 0 then 1 else 10 * Pow10(n - 1)
  }

  /** The range of a signed integer of `bits` bits. */
  predicate InBits(x: int, bits: nat)
    requires bits >= 1
  {
    -(Pow2(bits - 1) as int) <= x < Pow2(bits - 1)
  }

  lemma {:induction false} InBits32(x: int)
    ensures InBits(x, 32) <==> MinInt32 <= x <= MaxInt32
  {
    assert Pow2(31) == 0x8000_0000 by {
      assert Pow2(8) == 256;
      assert Pow2(16) == 256 * 256 by { assert Pow2(16) == Pow2(8) * 256 by { Pow2Add(8, 8); } }
      assert Pow2(31) == Pow2(16) * Pow2(15) by { Pow2Add(16, 15); }
    }
  }

  lemma {:induction false} InBits64(x: int)
    ensures InBits(x, 64) <==> MinInt64 <= x <= MaxInt64
  {
    assert Pow2(63) == 0x8000_0000_0000_0000 by {
      assert Pow2(8) == 256;
      assert Pow2(16) == 0x1_0000 by { Pow2Add(8, 8); }
      assert Pow2(32) == 0x1_0000_0000 by { Pow2Add(16, 16); }
      assert Pow2(63) == Pow2(32) * Pow2(31) by { Pow2Add(32, 31); }
      assert Pow2(31) == Pow2(16) * Pow2(15) by { Pow2Add(16, 15); }
    }
  }

  lemma {:induction false} Pow2Add(a: nat, b: nat)
    ensures Pow2(a + b) == Pow2(a) * Pow2(b)
  {
    if a > 0 {
      Pow2Add(a - 1, b);
    }
  }

  lemma {:induction false} Pow2Monotone(a: nat, b: nat)
    requires a <= b
    ensures Pow2(a) <= Pow2(b)
  {
    if a < b {
      Pow2Monotone(a, b - 1);
    }
  }

  /** A value that fits in `bits` bits fits in any wider width. */
  lemma {:induction false} InBitsWider(x: int, bits: nat, wider: nat)
    requires 1 <= bits <= wider && InBits(x, bits)
    ensures InBits(x, wider)
  {
    Pow2Monotone(bits - 1, wider - 1);
  }

  /** Go's int32(x) for a 64-bit x: the low 32 bits read as two's complement. */
  function Wrap32(x: int64): (r: int32)
    ensures (r - x) % 0x1_0000_0000 == 0
    ensures MinInt32 <= x <= MaxInt32 ==> r == x
  {
    var m := x % 0x1_0000_0000;
    if m > MaxInt32 then m - 0x1_0000_0000 else m
  }

  // ---------------------------------------------------------------- decimal digits

  predicate IsDigit(c: char) {
    '0' <= c <= '9'
  }

  predicate AllDigits(s: string) {
    forall i :: 0 <= i < |s| ==> IsDigit(s[i])
  }

  function DigitChar(d: nat): (c: char)
    requires d < 10
    ensures IsDigit(c)
  {
    ('0' as int + d) as char
  }

  function DigitValue(c: char): (d: nat)
    requires IsDigit(c)
    ensures d < 10 && DigitChar(d) == c
  {
    c as int - '0' as int
  }

  /** The decimal digits of n, most significant first, without leading zeros. */
  function Digits(n: nat): (r: string)
    ensures |r| >= 1 && AllDigits(r)
    ensures r[0] != '0' || n == 0
    ensures n < 10 <==> |r| == 1
  {
    if n < 10 then [DigitChar(n)] else Digits(n / 10) + [DigitChar(n % 10)]
  }

  /** The number a string of decimal digits stands for. */
  function ValueOf(s: string): nat
    requires AllDigits(s)
  {
    if |s| == 0 then 0 else ValueOf(s[..|s| - 1]) * 10 + DigitValue(s[|s| - 1])
  }

  lemma {:induction false} DigitsValue(n: nat)
    ensures ValueOf(Digits(n)) == n
  {
    if n >= 10 {
      var d := Digits(n);
      assert d[..|d| - 1] == Digits(n / 10);
      DigitsValue(n / 10);
    }
  }

  lemma {:induction false} AllDigitsAppend(a: string, b: string)
    requires AllDigits(a) && AllDigits(b)
    ensures AllDigits(a + b)
  {
    forall i | 0 <= i < |a + b| ensures IsDigit((a + b)[i]) {
      if i < |a| { assert (a + b)[i] == a[i]; } else { assert (a + b)[i] == b[i - |a|]; }
    }
  }

  lemma {:induction false} ValueOfAppend(a: string, b: string)
    requires AllDigits(a) && AllDigits(b)
    ensures AllDigits(a + b)
    ensures ValueOf(a + b) == ValueOf(a) * Pow10(|b|) + ValueOf(b)
    decreases |b|
  {
    AllDigitsAppend(a, b);
    if |b| == 0 {
      assert a + b == a;
    } else {
      var b' := b[..|b| - 1];
      var d := DigitValue(b[|b| - 1]);
      ValueOfSnoc(a, b);
      ValueOfAppend(a, b');
      ShiftDigit(ValueOf(a), Pow10(|b'|), ValueOf(b'), d);
    }
  }

  /** The last digit of a + b is the last digit of b. */
  lemma {:induction false} ValueOfSnoc(a: string, b: string)
    requires AllDigits(a) && AllDigits(b) && AllDigits(a + b) && |b| > 0
    ensures var b' := b[..|b| - 1];
      AllDigits(a + b') &&
      ValueOf(a + b) == ValueOf(a + b') * 10 + DigitValue(b[|b| - 1]) &&
      ValueOf(b) == ValueOf(b') * 10 + DigitValue(b[|b| - 1]) &&
      Pow10(|b|) == Pow10(|b'|) * 10
  {
    assert (a + b)[..|a + b| - 1] == a + b[..|b| - 1];
  }

  lemma {:induction false} MulDistrib(x: int, y: int, z: int)
    ensures (x + y) * z == x * z + y * z
  {
  }

  /** Appending a digit to va * p + vb multiplies it by ten. */
  lemma {:induction false} ShiftDigit(va: nat, p: nat, vb: nat, d: nat)
    ensures (va * p + vb) * 10 + d == va * (p * 10) + (vb * 10 + d)
  {
    MulDistrib(va * p, vb, 10);
    assert (va * p) * 10 == va * (p * 10);
  }

  lemma {:induction false} ValueZero(s: string)
    requires AllDigits(s) && ValueOf(s) == 0
    ensures forall i :: 0 <= i < |s| ==> s[i] == '0'
  {
    if |s| > 0 {
      ValueZero(s[..|s| - 1]);
      forall i | 0 <= i < |s| ensures s[i] == '0' {
        if i < |s| - 1 { assert s[i] == s[..|s| - 1][i]; }
      }
    }
  }

  /** A digit string without a leading zero is the decimal text of its value. */
  lemma {:induction false} CanonicalDigits(s: string)
    requires |s| >= 1 && AllDigits(s) && (s[0] != '0' || |s| == 1)
    ensures Digits(ValueOf(s)) == s
    decreases |s|
  {
    if |s| > 1 {
      var p := s[..|s| - 1];
      assert p[0] == s[0];
      if ValueOf(p) == 0 {
        ValueZero(p);
        assert false;
      }
      CanonicalDigits(p);
      assert s == p + [s[|s| - 1]];
    }
  }

  /** fmt's "%d" (and "%v") of an integer. */
  function Decimal(n: int): (r: string)
    ensures |r| >= 1
  {
    if n < 0 then "-" + Digits(-n) else Digits(n)
  }

  // ---------------------------------------------------------------- strconv.ParseInt

  /** strconv.ParseInt(s, 10, bits): an optional sign, then at least one
      decimal digit and nothing else, whose value fits in `bits` bits. Both a
      syntax error and a range error give None. */
  function ParseInt(s: string, bits: nat): (r: Option<int>)
    requires bits >= 1
    ensures r.Some? ==> InBits(r.value, bits)
  {
    var neg := |s| > 0 && s[0] == '-';
    var body := if |s| > 0 && (s[0] == '-' || s[0] == '+') then s[1..] else s;
    if |body| == 0 || !AllDigits(body) then None
    else
      var v := if neg then -(ValueOf(body) as int) else ValueOf(body);
      if InBits(v, bits) then Some(v) else None
  }

  /** The decimal text of every `bits`-bit integer reads back as that integer. */
  lemma {:induction false} DecimalRoundTrip(n: int, bits: nat)
    requires bits >= 1 && InBits(n, bits)
    ensures ParseInt(Decimal(n), bits) == Some(n)
  {
    var s := Decimal(n);
    if n < 0 {
      var d := Digits(-n);
      assert s == "-" + d && s[0] == '-' && s[1..] == d;
      DigitsValue(-n);
      assert ValueOf(d) == -n;
    } else {
      var d := Digits(n);
      assert s == d;
      assert IsDigit(s[0]);
      DigitsValue(n);
    }
  }

  /** Whatever ParseInt accepts has a decimal text that reads back the same
      way: ParseInt is a left inverse of Decimal on its whole domain. */
  lemma {:induction false} ParseIntDecimal(s: string, bits: nat)
    requires bits >= 1 && ParseInt(s, bits).Some?
    ensures ParseInt(Decimal(ParseInt(s, bits).value), bits) == ParseInt(s, bits)
  {
    DecimalRoundTrip(ParseInt(s, bits).value, bits);
  }

  /** The bit size only bounds the range: a text either parses to the same
      value at two widths or falls outside the narrower one. */
  lemma {:induction false} ParseIntWidths(s: string, bits: nat, wider: nat)
    requires 1 <= bits <= wider
    ensures ParseInt(s, bits).Some? ==> ParseInt(s, wider) == ParseInt(s, bits)
    ensures ParseInt(s, wider).Some? ==>
      ParseInt(s, bits) == (if InBits(ParseInt(s, wider).value, bits) then ParseInt(s, wider) else None)
  {
    if ParseInt(s, bits).Some? {
      InBitsWider(ParseInt(s, bits).value, bits, wider);
    }
  }

  // ---------------------------------------------------------------- padded fields

  function Zeros(n: nat): (r: string)
    ensures |r| == n && AllDigits(r)
    ensures ValueOf(r) == 0
  {
    if n == 0 then "" else Zeros(n - 1) + "0"
  }

  /** The digits of n padded on the left with zeros to at least `width`
      characters, as time.Format writes "01", "02" and "2006". */
  function PadDigits(n: nat, width: nat): (r: string)
    ensures AllDigits(r) && ValueOf(r) == n
    ensures |r| == if |Digits(n)| >= width then |Digits(n)| else width
  {
    var d := Digits(n);
    DigitsValue(n);
    if |d| >= width then d
    else
      ValueOfAppend(Zeros(width - |d|), d);
      Zeros(width - |d|) + d
  }

  lemma {:induction false} PadDigitsWidth(n: nat, width: nat)
    requires width >= 1 && n < Pow10(width)
    ensures |PadDigits(n, width)| == width
  {
    DigitsBelow(n, width);
  }

  lemma {:induction false} DigitsBelow(n: nat, width: nat)
    requires width >= 1 && n < Pow10(width)
    ensures |Digits(n)| <= width
  {
    if n >= 10 {
      assert width >= 2;
      assert n / 10 < Pow10(width - 1);
      DigitsBelow(n / 10, width - 1);
      assert Digits(n) == Digits(n / 10) + [DigitChar(n % 10)];
    }
  }

  lemma {:induction false} DigitsAbove(n: nat, width: nat)
    requires Pow10(width) <= n
    ensures |Digits(n)| > width
  {
    if width > 0 {
      assert n / 10 >= Pow10(width - 1);
      DigitsAbove(n / 10, width - 1);
      assert Digits(n) == Digits(n / 10) + [DigitChar(n % 10)];
    }
  }

  /** time.Format's field of a number padded to `width`: a minus sign for a
      negative number, then the padded digits of its magnitude. */
  function SignedPad(n: int, width: nat): string
  {
    if n < 0 then "-" + PadDigits(-n, width) else PadDigits(n, width)
  }

  // ---------------------------------------------------------------- humanize.Comma

  /** The digits of n with a comma between each group of three, counted
      from the right ("1,234,567"). */
  function Grouped(n: nat): (r: string)
    ensures |r| >= 1 && r[0] != ','
  {
    if n < 1000 then Digits(n)
    else Grouped(n / 1000) + "," + PadDigits(n % 1000, 3)
  }

  /** A comma exactly at every fourth position counted from the end of `r`:
      three digits follow each comma. */
  predicate CommasEveryFourth(r: string) {
    forall i :: 0 <= i < |r| ==> (r[i] == ',' <==> (|r| - i) % 4 == 0)
  }

  /** Where Grouped puts its commas: exactly at every fourth position
      counted from the end, so three digits follow each comma and, the
      first character being no comma, one to three digits come before the
      first. */
  lemma {:induction false} GroupedCommas(n: nat)
    ensures CommasEveryFourth(Grouped(n))
    decreases n
  {
    if n < 1000 {
      assert Pow10(3) == 1000;
      DigitsBelow(n, 3);
      ShortGroup(Digits(n));
    } else {
      GroupedCommas(n / 1000);
      assert Pow10(3) == 1000;
      PadDigitsWidth(n % 1000, 3);
      NextGroup(Grouped(n / 1000), PadDigits(n % 1000, 3));
    }
  }

  /** One to three digits and no comma. */
  lemma {:induction false} ShortGroup(s: string)
    requires |s| <= 3 && AllDigits(s)
    ensures CommasEveryFourth(s)
  {
    forall i | 0 <= i < |s|
      ensures s[i] == ',' <==> (|s| - i) % 4 == 0
    {
      assert IsDigit(s[i]);
      assert 1 <= |s| - i <= 3;
    }
  }

  /** A comma and a further group of three digits keep the commas four
      apart. */
  lemma {:induction false} NextGroup(g: string, lo: string)
    requires CommasEveryFourth(g) && |lo| == 3 && AllDigits(lo)
    ensures CommasEveryFourth(g + "," + lo)
  {
    var r := g + "," + lo;
    forall i | 0 <= i < |r|
      ensures r[i] == ',' <==> (|r| - i) % 4 == 0
    {
      if i < |g| {
        assert r[i] == g[i];
        FourMore(|g| - i);
      } else if i > |g| {
        assert r[i] == lo[i - |g| - 1];
        assert IsDigit(lo[i - |g| - 1]);
      } else {
        assert r[i] == ',';
      }
    }
  }

  lemma {:induction false} FourMore(k: nat)
    ensures (k + 4) % 4 == k % 4
  {
  }

  /** humanize.Comma: the sign, then the grouped digits of the magnitude. */
  function Comma(n: int): string
  {
    if n < 0 then "-" + Grouped(-n) else Grouped(n)
  }

  function RemoveCommas(s: string): string {
    if |s| == 0 then "" else (if s[0] == ',' then "" else [s[0]]) + RemoveCommas(s[1..])
  }

  lemma {:induction false} RemoveCommasAppend(a: string, b: string)
    ensures RemoveCommas(a + b) == RemoveCommas(a) + RemoveCommas(b)
  {
    if |a| == 0 {
      assert a + b == b;
    } else {
      assert (a + b)[1..] == a[1..] + b;
      RemoveCommasAppend(a[1..], b);
    }
  }

  lemma {:induction false} RemoveCommasNone(s: string)
    requires AllDigits(s)
    ensures RemoveCommas(s) == s
  {
    if |s| > 0 {
      RemoveCommasNone(s[1..]);
    }
  }

  /** Taking the commas out of Grouped(n) leaves exactly the digits of n. */
  lemma {:induction false} GroupedDigits(n: nat)
    ensures RemoveCommas(Grouped(n)) == Digits(n)
  {
    if n < 1000 {
      RemoveCommasNone(Digits(n));
    } else {
      var hi, r := n / 1000, n % 1000;
      var lo := PadDigits(r, 3);
      assert Grouped(n) == Grouped(hi) + "," + lo;
      GroupedDigits(hi);
      RemoveCommasGroup(Grouped(hi), lo);
      DigitsJoin(hi, r);
      assert hi * 1000 + r == n;
    }
  }

  /** The comma before a group of digits is all that is removed. */
  lemma {:induction false} RemoveCommasGroup(g: string, lo: string)
    requires AllDigits(lo)
    ensures RemoveCommas(g + "," + lo) == RemoveCommas(g) + lo
  {
    var c := g + ",";
    RemoveCommasAppend(c, lo);
    RemoveCommasAppend(g, ",");
    RemoveCommasComma();
    RemoveCommasNone(lo);
  }

  lemma {:induction false} RemoveCommasComma()
    ensures RemoveCommas(",") == ""
  {
    assert ","[1..] == "";
  }

  /** The digits of Pow10(width) * hi + lo: those of hi, then lo padded
      to `width`. */
  lemma {:induction false} DigitsJoinWidth(hi: nat, lo: nat, width: nat)
    requires hi >= 1 && width >= 1 && lo < Pow10(width)
    ensures Digits(hi) + PadDigits(lo, width) == Digits(hi * Pow10(width) + lo)
  {
    var p := PadDigits(lo, width);
    PadDigitsWidth(lo, width);
    var s := Digits(hi) + p;
    ValueOfAppend(Digits(hi), p);
    DigitsValue(hi);
    assert ValueOf(s) == hi * Pow10(width) + lo;
    assert s[0] == Digits(hi)[0];
    CanonicalDigits(s);
  }

  /** The digits of 1000 * hi + lo, for a positive hi and lo below 1000. */
  lemma {:induction false} DigitsJoin(hi: nat, lo: nat)
    requires hi >= 1 && lo < 1000
    ensures Digits(hi) + PadDigits(lo, 3) == Digits(hi * 1000 + lo)
  {
    ThousandIsPow10();
    DigitsJoinWidth(hi, lo, 3);
  }

  lemma {:induction false} ThousandIsPow10()
    ensures Pow10(3) == 1000
  {
    assert Pow10(1) == 10 && Pow10(2) == 100;
  }

  lemma {:induction false} ValueOfBelow(s: string)
    requires AllDigits(s)
    ensures ValueOf(s) < Pow10(|s|)
    decreases |s|
  {
    if |s| > 0 {
      var p := s[..|s| - 1];
      ValueOfBelow(p);
      assert ValueOf(s) == ValueOf(p) * 10 + DigitValue(s[|s| - 1]);
      assert Pow10(|s|) == Pow10(|p|) * 10;
    }
  }

  /** A number of exactly `width` digits is its own padded field. */
  lemma {:induction false} FullWidth(n: nat, width: nat)
    requires width >= 1 && Pow10(width - 1) <= n < Pow10(width)
    ensures PadDigits(n, width) == Digits(n)
  {
    var p := PadDigits(n, width);
    PadDigitsWidth(n, width);
    if |p| > 1 {
      assert p[0] != '0' by {
        var head, rest := p[..1], p[1..];
        assert head + rest == p;
        ValueOfAppend(head, rest);
        ValueOfBelow(rest);
        assert head[..0] == [];
        assert ValueOf(head) == DigitValue(p[0]);
      }
    }
    CanonicalDigits(p);
  }

  /** humanize.Comma is fmt's "%d" with commas between the groups of three. */
  lemma {:induction false} CommaDecimal(n: int)
    ensures RemoveCommas(Comma(n)) == Decimal(n)
  {
    if n < 0 {
      GroupedDigits(-n);
      RemoveCommasAppend("-", Grouped(-n));
    } else {
      GroupedDigits(n);
    }
  }
}
