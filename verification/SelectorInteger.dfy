/** The decimal prefix conversion behind `--compression-level` and
    `--split-pages`, with the exact bounds of its three stages. */
module SelectorInteger {
  import opened Tokens
  import opened Decimals

  const I128_MAX: int := 0x7FFF_FFFF_FFFF_FFFF_FFFF_FFFF_FFFF_FFFF
  const I64_MAX: int := 0x7FFF_FFFF_FFFF_FFFF
  const I32_MAX: int := 0x7FFF_FFFF

  /** Two's-complement range of a type with this maximum. */
  predicate InRange(v: int, max: int) {
    -max - 1 <= v <= max
  }

  predicate IsTrimmed(c: char) {
    c == ' ' || '\t' <= c <= '\r'
  }

  function TrimStart(s: string): string {
    if s != [] && IsTrimmed(s[0]) then TrimStart(s[1..]) else s
  }

  predicate Signed(s: string) {
    s != [] && (s[0] == '+' || s[0] == '-')
  }

  function LeadingDigits(s: string): (n: nat)
    ensures n <= |s| && (forall c <- s[..n] :: IsDigit(c))
  {
    if s == [] || !IsDigit(s[0]) then 0
    else
      var n := LeadingDigits(s[1..]);
      assert s[..n + 1] == [s[0]] + s[1..][..n];
      n + 1
  }

  /** `str::parse::<i128>`: left to right, each step checked. A negative number
      is built downwards, so that the minimum is reached. */
  function ParseI128(digits: string, negative: bool): Option<int>
    requires forall c <- digits :: IsDigit(c)
  {
    if digits == [] then Some(0)
    else
      var last := digits[|digits| - 1];
      match ParseI128(digits[..|digits| - 1], negative)
      case None => None
      case Some(v) =>
        if !InRange(10 * v, I128_MAX) then None
        else
          var d := last as int - '0' as int;
          var next := if negative then 10 * v - d else 10 * v + d;
          if InRange(next, I128_MAX) then Some(next) else None
  }

  datatype Conversion = Fits(value: int) | Overflows64 | OutOfRange32(value: int)

  function Convert(value: string): Conversion {
    var s := TrimStart(value);
    var start := if Signed(s) then 1 else 0;
    var n := LeadingDigits(s[start..]);
    if n == 0 then Fits(0)
    else
      match ParseI128(s[start..][..n], Signed(s) && s[0] == '-')
      case None => Overflows64
      case Some(v) =>
        if !InRange(v, I64_MAX) then Overflows64
        else if !InRange(v, I32_MAX) then OutOfRange32(v)
        else Fits(v)
  }

  predicate SplitPagesActive(raw: Option<string>) {
    raw.Some? && (raw.value == "" || match Convert(raw.value) case Fits(v) => v != 0 case _ => true)
  }

  /** The integer a text denotes: the sign and digits after leading space, zero
      without digits, whatever follows. */
  function Denoted(value: string): int {
    var s := TrimStart(value);
    var start := if Signed(s) then 1 else 0;
    var magnitude: int := Number(s[start..][..LeadingDigits(s[start..])]);
    if Signed(s) && s[0] == '-' then -magnitude else magnitude
  }

  /** The checked parse succeeds exactly when the number fits, on digit runs of
      any length. */
  lemma {:induction false} ParseIsExact(digits: string, negative: bool)
    requires forall c <- digits :: IsDigit(c)
    ensures var v: int := if negative then -(Number(digits) as int) else Number(digits);
            ParseI128(digits, negative) == if InRange(v, I128_MAX) then Some(v) else None
    decreases |digits|
  {
    if digits != [] {
      assert digits[|digits| - 1] in digits;
      ParseIsExact(digits[..|digits| - 1], negative);
    }
  }

  /** Exact bounds of the whole conversion: the 128-bit stage never shows. */
  lemma ConversionIsExact(value: string)
    ensures var v := Denoted(value);
            Convert(value) == if !InRange(v, I64_MAX) then Overflows64
                              else if !InRange(v, I32_MAX) then OutOfRange32(v)
                              else Fits(v)
  {
    var s := TrimStart(value);
    var start := if Signed(s) then 1 else 0;
    var n := LeadingDigits(s[start..]);
    ParseIsExact(s[start..][..n], Signed(s) && s[0] == '-');
  }

  /** Splitting is off exactly when no value is given or a non-empty value
      denotes zero: a rejected value is never zero, so it stays active. */
  lemma SplitPagesMeaning(raw: Option<string>)
    ensures SplitPagesActive(raw) <==> raw.Some? && (raw.value == "" || Denoted(raw.value) != 0)
    ensures raw.Some? && !Convert(raw.value).Fits? ==> SplitPagesActive(raw)
  {
    if raw.Some? {
      ConversionIsExact(raw.value);
    }
  }

  /** What follows the digits changes nothing. */
  lemma {:induction false} SuffixIgnored(digits: string, suffix: string)
    requires forall c <- digits :: IsDigit(c)
    requires digits != [] && (suffix == [] || !IsDigit(suffix[0]))
    ensures LeadingDigits(digits + suffix) == |digits|
  {
    assert (digits + suffix)[0] == digits[0] && (digits + suffix)[1..] == digits[1..] + suffix;
    assert digits[0] in digits;
    if |digits| > 1 {
      SuffixIgnored(digits[1..], suffix);
    } else {
      assert digits[1..] + suffix == suffix;
    }
  }

  /** Printing and converting is the identity on 32-bit integers, after space and
      before anything but a digit. */
  lemma ConvertsBack(v: int, space: string, suffix: string)
    requires InRange(v, I32_MAX)
    requires (forall c <- space :: IsTrimmed(c)) && (suffix == [] || !IsDigit(suffix[0]))
    ensures Convert(space + (if v < 0 then "-" + Decimal(-v) else Decimal(v)) + suffix) == Fits(v)
  {
    hide ParseI128, Decimal, Number;
    var digits := if v < 0 then Decimal(-v) else Decimal(v);
    var printed := (if v < 0 then "-" + digits else digits) + suffix;
    NotTrimmed('-');
    NotTrimmed(digits[0]);
    assert printed[0] == if v < 0 then '-' else digits[0];
    TrimmedOff(space, printed);
    assert space + (if v < 0 then "-" + digits else digits) + suffix == space + printed;
    assert digits[0] in digits && IsDigit(digits[0]);
    assert printed[if v < 0 then 1 else 0] == digits[0];
    var start := if v < 0 then 1 else 0;
    assert printed[start..] == digits + suffix;
    SuffixIgnored(digits, suffix);
    assert (digits + suffix)[..|digits|] == digits;
    NumberOfDecimal(if v < 0 then -v else v);
    ConversionIsExact(space + printed);
  }

  lemma NotTrimmed(c: char)
    requires c == '-' || IsDigit(c)
    ensures !IsTrimmed(c)
  {
  }

  lemma {:induction false} TrimmedOff(space: string, t: string)
    requires (forall c <- space :: IsTrimmed(c)) && t != [] && !IsTrimmed(t[0])
    ensures TrimStart(space + t) == t
  {
    if space == [] {
      assert space + t == t;
    } else {
      assert space[0] in space;
      assert (space + t)[0] == space[0] && (space + t)[1..] == space[1..] + t;
      TrimmedOff(space[1..], t);
    }
  }
}
