/** The four-digit names of backup slots, the "D4" format of .NET. */
module BackupNames {

  function Digit(n: nat): char
    requires n < 10
  {
    "0123456789"[n]
  }

  function Decimal(n: nat): string {
    if n < 10 then [Digit(n)] else Decimal(n / 10) + [Digit(n % 10)]
  }

  function Zeros(n: nat): string {
    seq(n, _ => '0')
  }

  function FourDigits(n: nat): string {
    var digits := Decimal(n);
    if |digits| < 4 then Zeros(4 - |digits|) + digits else digits
  }

  function ValueOf(digits: string): int {
    if digits == "" then 0
    else 10 * ValueOf(digits[..|digits| - 1]) + (digits[|digits| - 1] as int - '0' as int)
  }

  lemma {:induction false} DecimalValue(n: nat)
    ensures ValueOf(Decimal(n)) == n
    ensures forall c | c in Decimal(n) :: '0' <= c <= '9'
  {
    if n >= 10 {
      DecimalValue(n / 10);
      assert Decimal(n)[..|Decimal(n)| - 1] == Decimal(n / 10);
    } else {
      assert Decimal(n)[..0] == "";
    }
  }

  lemma {:induction false} PaddedValue(count: nat, digits: string)
    ensures ValueOf(Zeros(count) + digits) == ValueOf(digits)
  {
    var padded := Zeros(count) + digits;
    if digits != "" {
      PaddedValue(count, digits[..|digits| - 1]);
      assert padded[..|padded| - 1] == Zeros(count) + digits[..|digits| - 1];
    } else if count > 0 {
      PaddedValue(count - 1, "");
      assert padded[..|padded| - 1] == Zeros(count - 1) + "";
    }
  }

  /** Reading a slot name gives its index back, so no two slots share a name. */
  lemma FourDigitsRoundTrip(n: nat)
    ensures ValueOf(FourDigits(n)) == n
    ensures |FourDigits(n)| >= 4
    ensures forall c | c in FourDigits(n) :: '0' <= c <= '9'
  {
    DecimalValue(n);
    PaddedValue(if |Decimal(n)| < 4 then 4 - |Decimal(n)| else 0, Decimal(n));
  }
}
