/** Decimal numerals: how the tools print numbers and what they read back. */
module Decimals {
  import opened Tokens

  function Digit(d: nat): char
    requires d < 10
  {
    ('0' as int + d) as char
  }

  /** `%d` of a natural number. */
  function Decimal(n: nat): (s: string)
    ensures s != [] && forall c <- s :: IsDigit(c)
  {
    if n < 10 then [Digit(n)] else Decimal(n / 10) + [Digit(n % 10)]
  }

  /** `%010d` of a natural number. */
  function Decimal10(n: nat): string {
    var s := Decimal(n);
    if |s| >= 10 then s else seq(10 - |s|, _ => '0') + s
  }

  /** What a run of digits stands for. */
  function Number(s: string): nat
    requires forall c <- s :: IsDigit(c)
  {
    if s == [] then 0
    else
      var c := s[|s| - 1];
      assert c in s && IsDigit(c);
      10 * Number(s[..|s| - 1]) + (c as int - '0' as int)
  }

  lemma {:induction false} NumberOfDecimal(n: nat)
    ensures Number(Decimal(n)) == n
  {
    if n >= 10 {
      var s := Decimal(n);
      assert s[..|s| - 1] == Decimal(n / 10) && s[|s| - 1] == Digit(n % 10);
      NumberOfDecimal(n / 10);
    } else {
      assert Decimal(n)[..0] == [];
    }
  }

  lemma {:induction false} LeadingZeros(k: nat, s: string)
    requires forall c <- s :: IsDigit(c)
    ensures forall c <- seq(k, _ => '0') + s :: IsDigit(c)
    ensures Number(seq(k, _ => '0') + s) == Number(s)
    decreases |s|, k
  {
    var zeros := seq(k, _ => '0');
    var t := zeros + s;
    if s != [] {
      assert t[..|t| - 1] == zeros + s[..|s| - 1];
      LeadingZeros(k, s[..|s| - 1]);
    } else if k > 0 {
      assert t[..|t| - 1] == seq(k - 1, _ => '0') + [];
      LeadingZeros(k - 1, []);
    }
  }

  const LIMIT: nat := 10_000_000_000

  function Power10(k: nat): nat {
    if k == 0 then 1 else 10 * Power10(k - 1)
  }

  lemma {:induction false} DecimalWidth(n: nat, k: nat)
    requires 0 < k && n < Power10(k)
    ensures |Decimal(n)| <= k
  {
    if n >= 10 {
      assert k > 1;
      DecimalWidth(n / 10, k - 1);
    }
  }

  lemma DecimalFits(n: nat)
    requires n < LIMIT
    ensures |Decimal(n)| <= 10
  {
    assert Power10(10) == 10 * Power10(9) == 100 * Power10(8) == 1000 * Power10(7) == 10000 * Power10(6)
        == 100000 * Power10(5) == 1000000 * Power10(4) == 10000000 * Power10(3) == 100000000 * Power10(2)
        == 1000000000 * Power10(1) == LIMIT;
    DecimalWidth(n, 10);
  }

  lemma Decimal10Is(n: nat)
    requires n < LIMIT
    ensures |Decimal10(n)| == 10 && (forall c <- Decimal10(n) :: IsDigit(c)) && Number(Decimal10(n)) == n
  {
    hide Decimal;
    DecimalFits(n);
    NumberOfDecimal(n);
    LeadingZeros(10 - |Decimal(n)|, Decimal(n));
    assert |Decimal(n)| == 10 ==> seq(10 - |Decimal(n)|, _ => '0') + Decimal(n) == Decimal(n);
  }
}
