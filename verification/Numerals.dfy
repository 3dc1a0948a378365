/** Decimal numerals and what they denote by place value: a definition that owes nothing to the
    way `Int64` reads or prints them, and the proof that `Int64` reads exactly these. */
module Numerals {
  import opened Wrappers
  import opened Int64

  function Power(k: nat): nat {
    if k == 0 then 1 else 10 * Power(k - 1)
  }

  /** The sum of the digits, each times ten to the power of the number of places behind it. */
  function PlaceValue(s: string): int {
    if s == [] then 0 else (s[0] as int - 48) * Power(|s| - 1) + PlaceValue(s[1..])
  }

  /** One or more of the bytes 48 to 57. */
  predicate Unsigned(s: string) {
    s != [] && forall i | 0 <= i < |s| :: 48 <= s[i] as int <= 57
  }

  predicate Numeral(s: string) {
    Unsigned(s) || (s != [] && s[0] == '-' && Unsigned(s[1..]))
  }

  function Denoted(s: string): int {
    if s != [] && s[0] == '-' then -PlaceValue(s[1..]) else PlaceValue(s)
  }

  /** The text is a numeral for a number of 64 signed bits. */
  predicate Spells64(s: string, n: int) {
    Numeral(s) && Denoted(s) == n && -9223372036854775808 <= n <= 9223372036854775807
  }

  predicate IsInt64Text(s: string) {
    Spells64(s, Denoted(s))
  }

  /** The text is a numeral without a sign for a number of 64 unsigned bits. */
  predicate SpellsU64(s: string, n: int) {
    Unsigned(s) && PlaceValue(s) == n && n <= 18446744073709551615
  }

  predicate IsU64Text(s: string) {
    SpellsU64(s, PlaceValue(s))
  }

  // ---- reading -----------------------------------------------------------------------

  lemma {:induction false} PlaceValueSnoc(s: string, c: char)
    ensures PlaceValue(s + [c]) == 10 * PlaceValue(s) + (c as int - 48)
    decreases |s|
  {
    if s == [] {
      assert [c][1..] == [] && Power(0) == 1;
    } else {
      PlaceValueSnoc(s[1..], c);
      assert (s + [c])[1..] == s[1..] + [c];
      var v, p := s[0] as int - 48, Power(|s| - 1);
      assert Power(|s|) == 10 * p;
      assert v * (10 * p) == 10 * (v * p);
    }
  }

  lemma {:induction false} NumberIsPlaceValue(s: string)
    requires AllDigits(s)
    ensures Number(s) == PlaceValue(s)
  {
    if s != [] {
      var init := s[..|s| - 1];
      NumberIsPlaceValue(init);
      PlaceValueSnoc(init, s[|s| - 1]);
      assert s == init + [s[|s| - 1]];
    }
  }

  lemma DigitsAreBytes(s: string)
    ensures s != [] && AllDigits(s) <==> Unsigned(s)
  {
    forall i | 0 <= i < |s| ensures IsDigit(s[i]) <==> 48 <= s[i] as int <= 57 {
    }
  }

  /** `parse_i64` reads a text as `n` if and only if it is a numeral that denotes `n`, and `n` has
      64 signed bits. */
  lemma ReadsExactlyNumerals(s: string, n: int)
    ensures ParseI64(s) == Some(n) <==> Spells64(s, n)
  {
    var body := if s != [] && s[0] == '-' then s[1..] else s;
    DigitsAreBytes(body);
    if Unsigned(body) {
      NumberIsPlaceValue(body);
    }
  }

  /** So it refuses every other text. */
  lemma RefusesTheRest(s: string)
    ensures ParseI64(s).None? <==> !IsInt64Text(s)
    ensures ParseI64(s).Some? ==> ParseI64(s).value == Denoted(s)
  {
    ReadsExactlyNumerals(s, Denoted(s));
    if ParseI64(s).Some? {
      ReadsExactlyNumerals(s, ParseI64(s).value);
    }
  }

  /** `parse_u64`, likewise. */
  lemma ReadsExactlyUnsigned(s: string, n: int)
    ensures ParseU64(s) == Some(n) <==> SpellsU64(s, n)
  {
    DigitsAreBytes(s);
    if Unsigned(s) {
      NumberIsPlaceValue(s);
    }
  }

  lemma RefusesTheUnsignedRest(s: string)
    ensures ParseU64(s).None? <==> !IsU64Text(s)
    ensures ParseU64(s).Some? ==> ParseU64(s).value == PlaceValue(s)
  {
    ReadsExactlyUnsigned(s, PlaceValue(s));
    if ParseU64(s).Some? {
      ReadsExactlyUnsigned(s, ParseU64(s).value);
    }
  }

  // ---- printing ----------------------------------------------------------------------

  /** The one numeral that is printed: no leading zero, no `-0`. */
  predicate IsCanonical(s: string) {
    && Numeral(s)
    && (Unsigned(s) ==> s[0] != '0' || |s| == 1)
    && (s[0] == '-' ==> s[1] != '0')
  }

  lemma {:induction false} DigitsHaveNoLeadingZero(n: nat)
    ensures Digits(n)[0] == '0' ==> n == 0 && Digits(n) == "0"
  {
    if n >= 10 {
      DigitsHaveNoLeadingZero(n / 10);
    }
  }

  lemma {:induction false} CanonicalDigits(s: string)
    requires Unsigned(s) && (s[0] != '0' || |s| == 1)
    ensures PlaceValue(s) >= 0 && s == Digits(PlaceValue(s))
    ensures s[0] != '0' ==> PlaceValue(s) > 0
    decreases |s|
  {
    var init, last := s[..|s| - 1], s[|s| - 1];
    assert s == init + [last];
    PlaceValueSnoc(init, last);
    assert DigitChar(last as int - 48) == last;
    if init == [] {
      assert PlaceValue(s) == last as int - 48;
    } else {
      CanonicalDigits(init);
      var n, d := PlaceValue(init), last as int - 48;
      assert n > 0 && (10 * n + d) / 10 == n && (10 * n + d) % 10 == d;
    }
  }

  lemma PrintedDigits(n: nat)
    ensures Unsigned(Digits(n)) && PlaceValue(Digits(n)) == n
    ensures Digits(n)[0] != '0' || |Digits(n)| == 1
    ensures n > 0 ==> Digits(n)[0] != '0'
  {
    DigitsAreBytes(Digits(n));
    NumberIsPlaceValue(Digits(n));
    NumberDigits(n);
    DigitsHaveNoLeadingZero(n);
  }

  /** `std::to_string` prints `n` as the canonical numeral that denotes it, and there is only one. */
  lemma PrintsTheCanonicalNumeral(n: int, s: string)
    ensures s == ToString(n) <==> IsCanonical(s) && Denoted(s) == n
  {
    PrintedDigits(if n < 0 then -n else n);
    assert n < 0 ==> ToString(n)[1..] == Digits(-n);
    if IsCanonical(s) && Denoted(s) == n {
      if s[0] == '-' {
        CanonicalDigits(s[1..]);
        assert s == "-" + s[1..];
      } else {
        CanonicalDigits(s);
      }
    }
  }
}
