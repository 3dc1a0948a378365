/** Decimal text of 64-bit integers: `std::to_string`, and `std::from_chars` as the
    three `parse_i64` helpers and `parse_u64` use it (the whole text must be consumed). */
module Int64 {
  import opened Wrappers

  const INT64_MAX: int := 0x7fff_ffff_ffff_ffff
  const INT64_MIN: int := -0x8000_0000_0000_0000
  const UINT64_SPAN: int := 0x1_0000_0000_0000_0000

  type int64 = n: int | INT64_MIN <= n <= INT64_MAX

  type uint64 = n: int | 0 <= n < UINT64_SPAN

  predicate InInt64(n: int) {
    INT64_MIN <= n <= INT64_MAX
  }

  /** `static_cast<std::int64_t>` of a `std::uint64_t`. */
  function AsInt64(n: uint64): (r: int64)
    ensures (r - n) % UINT64_SPAN == 0
  {
    if n <= INT64_MAX then n else n - UINT64_SPAN
  }

  predicate IsDigit(c: char) {
    '0' <= c <= '9'
  }

  predicate AllDigits(s: string) {
    forall i | 0 <= i < |s| :: IsDigit(s[i])
  }

  function DigitChar(d: nat): (c: char)
    requires d < 10
    ensures IsDigit(c)
  {
    ('0' as int + d) as char
  }

  function DigitValue(c: char): (d: nat)
    requires IsDigit(c)
    ensures d < 10 && DigitChar(d) == c
  {
    c as int - '0' as int
  }

  function Digits(n: nat): (s: string)
    ensures s != [] && AllDigits(s)
  {
    if n < 10 then [DigitChar(n)] else Digits(n / 10) + [DigitChar(n % 10)]
  }

  function Number(s: string): nat
    requires AllDigits(s)
  {
    if s == [] then 0 else 10 * Number(s[..|s| - 1]) + DigitValue(s[|s| - 1])
  }

  function ToString(n: int): (s: string)
    ensures s != [] && forall i | 0 <= i < |s| :: s[i] == '-' || IsDigit(s[i])
  {
    if n < 0 then "-" + Digits(-n) else Digits(n)
  }

  function ParseI64(s: string): Option<int64> {
    var body := if s != [] && s[0] == '-' then s[1..] else s;
    if body == [] || !AllDigits(body) then
      None
    else
      var n := if s[0] == '-' then -(Number(body) as int) else Number(body);
      if InInt64(n) then Some(n) else None
  }

  function ParseU64(s: string): Option<uint64> {
    if s == [] || !AllDigits(s) || Number(s) >= UINT64_SPAN then None else Some(Number(s))
  }

  lemma {:induction false} NumberDigits(n: nat)
    ensures Number(Digits(n)) == n
  {
    if n < 10 {
      assert Digits(n)[..0] == [];
    } else {
      NumberDigits(n / 10);
      assert Digits(n)[..|Digits(n)| - 1] == Digits(n / 10);
    }
  }

  /** Printing then parsing is the identity exactly on the int64 range. */
  lemma ParseToString(n: int)
    ensures ParseI64(ToString(n)) == if InInt64(n) then Some(n) else None
  {
    if n < 0 {
      NumberDigits(-n);
      assert ToString(n)[1..] == Digits(-n);
    } else {
      NumberDigits(n);
      assert IsDigit(Digits(n)[0]);
    }
  }

  /** The same for the unsigned parser, which refuses every text that starts with `-`. */
  lemma ParseU64ToString(n: int)
    ensures ParseU64(ToString(n)) == if 0 <= n < UINT64_SPAN then Some(n) else None
  {
    if n < 0 {
      assert !IsDigit(ToString(n)[0]);
    } else {
      NumberDigits(n);
    }
  }

  /** A leading zero changes nothing, so parsing is many-to-one and printing picks one text. */
  lemma {:induction false} LeadingZero(s: string)
    requires AllDigits(s)
    ensures AllDigits("0" + s) && Number("0" + s) == Number(s)
  {
    if s == [] {
      assert ("0" + s)[..0] == [];
    } else {
      LeadingZero(s[..|s| - 1]);
      assert ("0" + s)[..|s|] == "0" + s[..|s| - 1];
    }
  }
}
