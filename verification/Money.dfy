/** Decimal CNY amounts and micro-CNY (src/billing.rs, `parse_cny_to_micro`). */
module Money {
  import opened Prelude
  import opened Text
  import opened Utf8

  datatype MoneyError = Empty | Negative | TooManyDecimals | BadFormat | TooLarge
  datatype ParseResult = Micro(value: int) | Rejected(error: MoneyError)

  // ----- text helpers

  /** Bytes of the UTF-8 form: Rust's `len` counts these. */
  function ByteLength(s: string): nat {
    if s == [] then 0
    else
      var k := s[0] as int;
      (if k < 0x80 then 1 else if k < 0x800 then 2 else if k < 0x1_0000 then 3 else 4) + ByteLength(s[1..])
  }

  predicate IsDigit(c: char) { '0' <= c <= '9' }

  predicate AllDigits(s: string) { forall i | 0 <= i < |s| :: IsDigit(s[i]) }

  /** Index of the first occurrence of `c`, or the length. */
  function IndexOf(s: string, c: char): (i: nat)
    ensures i <= |s| && c !in s[..i] && (i < |s| ==> s[i] == c)
  {
    if s == [] || s[0] == c then 0
    else
      var i := 1 + IndexOf(s[1..], c);
      assert s[..i] == [s[0]] + s[1..][..i - 1];
      i
  }

  function Value(s: string): (v: nat)
    requires AllDigits(s)
  {
    if s == [] then 0 else 10 * Value(s[..|s| - 1]) + (s[|s| - 1] as int - '0' as int)
  }

  function Zeros(k: nat): (z: string)
    ensures |z| == k && AllDigits(z)
  {
    seq(k, _ => '0')
  }

  function Pow10(k: nat): (p: nat)
    ensures p > 0
  {
    if k == 0 then 1 else 10 * Pow10(k - 1)
  }

  // ----- the source's parser

  lemma {:induction false} LengthInBytes(s: string)
    ensures |s| <= ByteLength(s)
    ensures AllDigits(s) ==> ByteLength(s) == |s|
  {
    if s != [] {
      LengthInBytes(s[1..]);
      if AllDigits(s) {
        assert IsDigit(s[0]);
        assert forall i | 0 <= i < |s[1..]| :: s[1..][i] == s[i + 1];
      }
    }
  }

  function ParseCny(raw: string): ParseResult {
    var s := Trim(raw);
    if s == [] then Rejected(Empty)
    else if s[0] == '-' then Rejected(Negative)
    else
      var dot := IndexOf(s, '.');
      var intPart, fracPart := s[..dot], if dot < |s| then s[dot + 1..] else "";
      if ByteLength(fracPart) > 6 then Rejected(TooManyDecimals)
      else if intPart == [] || !AllDigits(intPart) then Rejected(BadFormat)
      else if !AllDigits(fracPart) then Rejected(BadFormat)
      else
        LengthInBytes(fracPart);
        var whole := Value(intPart);
        var frac := if fracPart == [] then 0 else Value(fracPart + Zeros(6 - |fracPart|));
        if whole > I64_MAX then Rejected(TooLarge)
        else if whole * 1_000_000 > I64_MAX then Rejected(TooLarge)
        else if whole * 1_000_000 + frac > I64_MAX then Rejected(TooLarge)
        else Micro(whole * 1_000_000 + frac)
  }

  // ----- what the text means

  /** `s` is the decimal with integer digits `a` and at most six fraction digits `f`; the point may be missing. */
  predicate IsDecimal(s: string, a: string, f: string) {
    && a != [] && AllDigits(a) && AllDigits(f) && |f| <= 6
    && (s == a + "." + f || (f == [] && s == a))
  }

  function MicroValue(a: string, f: string): nat
    requires AllDigits(a) && AllDigits(f) && |f| <= 6
  {
    Value(a) * 1_000_000 + Value(f) * Pow10(6 - |f|)
  }

  lemma {:induction false} ValueZeros(f: string, k: nat)
    requires AllDigits(f)
    ensures AllDigits(f + Zeros(k)) && Value(f + Zeros(k)) == Value(f) * Pow10(k)
  {
    if k == 0 {
      assert f + Zeros(0) == f;
    } else {
      ValueZeros(f, k - 1);
      var t := f + Zeros(k);
      assert t[..|t| - 1] == f + Zeros(k - 1);
    }
  }

  lemma DecimalSplit(s: string, a: string, f: string)
    requires IsDecimal(s, a, f)
    ensures var dot := IndexOf(s, '.');
            s != [] && s[0] != '-' && s[..dot] == a && (if dot < |s| then s[dot + 1..] else "") == f
  {
    var dot := IndexOf(s, '.');
    assert s[0] == a[0] && IsDigit(a[0]);
    assert forall i | 0 <= i < |a| :: s[i] == a[i] && IsDigit(a[i]);
    assert |a| < |s| ==> s[|a|] == '.' && forall i | 0 <= i < dot :: s[i] == s[..dot][i];
  }

  /** A decimal parses to its exact value, and is rejected exactly when that value exceeds 64 bits. */
  lemma DecimalParses(raw: string, a: string, f: string)
    requires IsDecimal(Trim(raw), a, f)
    ensures ParseCny(raw) == if MicroValue(a, f) <= I64_MAX then Micro(MicroValue(a, f)) else Rejected(TooLarge)
  {
    DecimalSplit(Trim(raw), a, f);
    LengthInBytes(f);
    ValueZeros(f, 6 - |f|);
  }

  /** The two parts of a text the parser accepts. */
  lemma AcceptedIsDecimal(raw: string) returns (a: string, f: string)
    requires ParseCny(raw).Micro?
    ensures IsDecimal(Trim(raw), a, f)
  {
    var s := Trim(raw);
    var dot := IndexOf(s, '.');
    a, f := s[..dot], if dot < |s| then s[dot + 1..] else "";
    LengthInBytes(f);
    if dot < |s| {
      assert s == a + "." + f;
    }
  }

  /** The parser accepts exactly the decimals whose exact value fits, with that value. */
  lemma ParseMeaning(raw: string, v: int)
    ensures ParseCny(raw) == Micro(v) <==>
              exists a, f :: IsDecimal(Trim(raw), a, f) && MicroValue(a, f) == v && v <= I64_MAX
  {
    if ParseCny(raw) == Micro(v) {
      var a, f := AcceptedIsDecimal(raw);
      DecimalParses(raw, a, f);
    }
    if a, f :| IsDecimal(Trim(raw), a, f) && MicroValue(a, f) == v && v <= I64_MAX {
      DecimalParses(raw, a, f);
    }
  }

  /** The trimmed text is a decimal whose exact value is positive and fits. */
  ghost predicate PositiveAmount(raw: string) {
    exists a, f :: IsDecimal(Trim(raw), a, f) && 0 < MicroValue(a, f) <= I64_MAX
  }

  lemma PositiveParses(raw: string)
    ensures PositiveAmount(raw) <==> ParseCny(raw).Micro? && 0 < ParseCny(raw).value
  {
    if ParseCny(raw).Micro? {
      ParseMeaning(raw, ParseCny(raw).value);
    }
    if a, f :| IsDecimal(Trim(raw), a, f) && 0 < MicroValue(a, f) <= I64_MAX {
      DecimalParses(raw, a, f);
    }
  }

  lemma Associate(a: int, b: int, c: int)
    ensures a * b * c == a * (b * c)
  {
  }

  lemma {:induction false} PowSplit(j: nat, k: nat)
    ensures Pow10(j) * Pow10(k) == Pow10(j + k)
  {
    if j > 0 {
      PowSplit(j - 1, k);
      Associate(10, Pow10(j - 1), Pow10(k));
    }
  }

  lemma TrimDecimal(a: string, f: string)
    requires a != [] && AllDigits(a) && AllDigits(f)
    ensures Trim(a + "." + f) == a + "." + f
  {
    var s := a + "." + f;
    assert s[0] == a[0] && IsDigit(a[0]);
    var last := s[|s| - 1];
    assert last == '.' || (f != [] && last == f[|f| - 1] && IsDigit(last));
  }

  /** Appending zeros, up to six decimals, never changes the outcome. */
  lemma TrailingZeros(a: string, f: string, k: nat)
    requires a != [] && AllDigits(a) && AllDigits(f) && |f| + k <= 6
    ensures ParseCny(a + "." + f + Zeros(k)) == ParseCny(a + "." + f)
  {
    var g := f + Zeros(k);
    assert a + "." + f + Zeros(k) == a + "." + g;
    ValueZeros(f, k);
    PowSplit(k, 6 - |g|);
    calc {
      Value(g) * Pow10(6 - |g|);
      Value(f) * Pow10(k) * Pow10(6 - |g|);
      { Associate(Value(f), Pow10(k), Pow10(6 - |g|)); }
      Value(f) * Pow10(6 - |f|);
    }
    TrimDecimal(a, f);
    TrimDecimal(a, g);
    DecimalParses(a + "." + f, a, f);
    DecimalParses(a + "." + g, a, g);
  }

  // ----- rendering

  /** The decimal digits of `n`, at least `width` of them. */
  function Digits(n: nat, width: nat): (s: string)
    ensures AllDigits(s) && |s| >= width && Value(s) == n
    ensures n < Pow10(width) ==> |s| == width
    decreases n, width
  {
    if n == 0 && width == 0 then ""
    else
      var rest := Digits(n / 10, if width == 0 then 0 else width - 1);
      rest + [(n % 10 + '0' as int) as char]
  }

  /** Canonical form: the integer part without leading zeros, a point, six decimals. */
  function Render(m: nat): string { Digits(m / 1_000_000, 1) + "." + Digits(m % 1_000_000, 6) }

  /** Every 64-bit amount survives rendering and parsing. */
  lemma RenderParses(m: nat)
    requires m <= I64_MAX
    ensures ParseCny(Render(m)) == Micro(m)
  {
    var a, f := Digits(m / 1_000_000, 1), Digits(m % 1_000_000, 6);
    assert Pow10(6) == 1_000_000;
    TrimDecimal(a, f);
    DecimalParses(Render(m), a, f);
  }

  /** A whole number of CNY, without a point, is a million micro each. */
  lemma WholeParses(a: string)
    requires a != "" && AllDigits(a) && Value(a) * 1_000_000 <= I64_MAX
    ensures ParseCny(a) == Micro(Value(a) * 1_000_000)
  {
    assert IsDigit(a[0]) && IsDigit(a[|a| - 1]);
    TrimAround("", a, "");
    assert "" + a + "" == a;
    assert Value("") == 0 && MicroValue(a, "") == Value(a) * 1_000_000;
    DecimalParses(a, a, "");
  }

  /** 100.50 CNY, with blanks around it. */
  lemma HundredFifty()
    ensures ParseCny(" " + ("100" + "." + "50") + " ") == Micro(100_500_000)
  {
    var a, f := "100", "50";
    assert Value("1") == 1 && Value("10") == 10 && Value(a) == 100;
    assert Value("5") == 5 && Value(f) == 50;
    assert Pow10(4) == 10_000;
    TrimAround(" ", a + "." + f, " ");
    DecimalParses(" " + (a + "." + f) + " ", a, f);
  }

  /** Rejections before any digit is looked at. */
  lemma RejectedEarly(raw: string)
    ensures ParseCny(raw) == Rejected(Empty) <==> Blank(raw)
    ensures ParseCny(raw) == Rejected(Negative) <==> Trim(raw) != "" && Trim(raw)[0] == '-'
  {
    BlankIff(raw);
  }

  function CodePoints(s: string): seq<CodePoint> { seq(|s|, i requires 0 <= i < |s| => s[i] as int) }

  /** Decimals are counted in bytes of UTF-8. */
  lemma {:induction false} BytesOfUtf8(s: string)
    ensures ByteLength(s) == |Encode(CodePoints(s))|
  {
    if s != "" {
      EncodeStep(CodePoints(s));
      assert CodePoints(s)[1..] == CodePoints(s[1..]);
      BytesOfUtf8(s[1..]);
    }
  }

  lemma DigitsExactly(c: char)
    ensures IsDigit(c) <==> c in "0123456789"
  {
  }
}
