/** Decimal conversion, as far as the gossip state and the syncer use it: versions travel in
    compact entries as text, and listener counts travel as the values of endpoint entries. */
module Strconv {
  datatype Option<+T> = None | Some(value: T)

  const MAX_UINT64: nat := 0xFFFF_FFFF_FFFF_FFFF
  const MAX_INT64: int := 0x7FFF_FFFF_FFFF_FFFF
  const MIN_INT64: int := -0x8000_0000_0000_0000

  predicate IsDigit(c: char) {
    '0' <= c <= '9'
  }

  predicate AllDigits(s: string) {
    forall i :: 0 <= i < |s| ==> IsDigit(s[i])
  }

  function Digit(d: nat): (c: char)
    requires d < 10
    ensures IsDigit(c) && (c as int) - ('0' as int) == d
  {
    (('0' as int) + d) as char
  }

  /** The number written by a string of decimal digits. */
  function Value(s: string): nat
    requires AllDigits(s)
  {
    if s == [] then 0
    else Value(s[..|s| - 1]) * 10 + (s[|s| - 1] as int - '0' as int)
  }

  function FormatUint(n: nat): (s: string)
    ensures s != "" && AllDigits(s)
  {
    if n < 10 then [Digit(n)] else FormatUint(n / 10) + [Digit(n % 10)]
  }

  function Itoa(n: int): (s: string)
    ensures s != ""
  {
    if n < 0 then "-" + FormatUint(-n) else FormatUint(n)
  }

  /** strconv.ParseUint(s, 10, 64): no sign, at least one digit, and a value that fits 64 bits. */
  function ParseUint(s: string): (r: Option<nat>)
    ensures r.Some? ==> r.value <= MAX_UINT64
  {
    if s == "" || !AllDigits(s) || Value(s) > MAX_UINT64 then None else Some(Value(s))
  }

  /** strconv.Atoi on a 64-bit platform: an optional sign, then at least one digit, in range. */
  function Atoi(s: string): (r: Option<int>)
    ensures r.Some? ==> MIN_INT64 <= r.value <= MAX_INT64
  {
    var negative := s != "" && s[0] == '-';
    var digits := if s != "" && (s[0] == '-' || s[0] == '+') then s[1..] else s;
    if digits == "" || !AllDigits(digits) then None
    else
      var n: int := if negative then 0 - Value(digits) else Value(digits);
      if MIN_INT64 <= n <= MAX_INT64 then Some(n) else None
  }

  lemma {:induction false} FormatValue(n: nat)
    ensures Value(FormatUint(n)) == n
  {
    if n >= 10 {
      FormatValue(n / 10);
      var s := FormatUint(n);
      assert s[..|s| - 1] == FormatUint(n / 10);
    } else {
      assert FormatUint(n)[..0] == "";
    }
  }

  /** A version survives the trip through a compact entry, exactly when it fits a uint64. */
  lemma UintRoundTrip(n: nat)
    ensures ParseUint(FormatUint(n)) == if n <= MAX_UINT64 then Some(n) else None
  {
    FormatValue(n);
  }

  /** A listener count survives the trip through an endpoint entry, exactly when it fits an int. */
  lemma IntRoundTrip(n: int)
    ensures Atoi(Itoa(n)) == if MIN_INT64 <= n <= MAX_INT64 then Some(n) else None
  {
    if n < 0 { NegativeRoundTrip(-n); } else { PositiveRoundTrip(n); }
  }

  lemma NegativeRoundTrip(n: nat)
    requires n > 0
    ensures Atoi("-" + FormatUint(n)) == if MIN_INT64 <= 0 - n then Some(0 - n) else None
  {
    FormatValue(n);
    var s := "-" + FormatUint(n);
    assert s[0] == '-' && s[1..] == FormatUint(n);
  }

  lemma PositiveRoundTrip(n: nat)
    ensures Atoi(FormatUint(n)) == if n <= MAX_INT64 then Some(n) else None
  {
    FormatValue(n);
    assert IsDigit(FormatUint(n)[0]);
  }

  // ---------- What parses ----------

  function Zeros(k: nat): (s: string)
    ensures AllDigits(s)
  {
    seq(k, i => '0')
  }

  lemma {:induction false} LeadingZeros(k: nat, t: string)
    requires AllDigits(t)
    ensures AllDigits(Zeros(k) + t) && Value(Zeros(k) + t) == Value(t)
    decreases |t| + k
  {
    var s := Zeros(k) + t;
    if t != "" {
      LeadingZeros(k, t[..|t| - 1]);
      assert s[..|s| - 1] == Zeros(k) + t[..|t| - 1];
    } else if k > 0 {
      LeadingZeros(k - 1, "");
      assert s[..|s| - 1] == Zeros(k - 1) + "";
    }
  }

  /** Digits are the number they stand for, with zeros in front. */
  lemma {:induction false} DigitsAre(s: string) returns (k: nat)
    requires s != "" && AllDigits(s)
    ensures s == Zeros(k) + FormatUint(Value(s))
    decreases |s|
  {
    var init, d := s[..|s| - 1], s[|s| - 1] as int - '0' as int;
    k := 0;
    assert [Digit(d)] == [s[|s| - 1]];
    if init == "" {
      assert s == [s[0]] && Value(s) == d;
    } else {
      k := DigitsAre(init);
      if Value(init) == 0 {
        assert FormatUint(0) == "0" && Zeros(k) + "0" == Zeros(k + 1);
        k := k + 1;
      } else {
        assert FormatUint(Value(s)) == FormatUint(Value(init)) + [Digit(d)];
      }
    }
  }

  /** The string is the number in decimal, with any number of zeros in front. */
  ghost predicate Decimal(s: string, n: nat) {
    exists k :: s == Zeros(k) + FormatUint(n)
  }

  lemma DecimalIff(s: string, n: nat)
    ensures Decimal(s, n) <==> s != "" && AllDigits(s) && Value(s) == n
  {
    if Decimal(s, n) {
      var k :| s == Zeros(k) + FormatUint(n);
      LeadingZeros(k, FormatUint(n));
      FormatValue(n);
    }
    if s != "" && AllDigits(s) && Value(s) == n {
      var k := DigitsAre(s);
    }
  }

  /** Exactly the decimals that fit 64 bits parse, as the number they stand for. */
  lemma ParseUintIff(s: string, n: nat)
    ensures ParseUint(s) == Some(n) <==> n <= MAX_UINT64 && Decimal(s, n)
  {
    DecimalIff(s, n);
  }

  /** With an optional sign. */
  ghost predicate SignedDecimal(s: string, n: int) {
    || (n >= 0 && Decimal(s, n))
    || (s != "" && s[0] == '+' && n >= 0 && Decimal(s[1..], n))
    || (s != "" && s[0] == '-' && n <= 0 && Decimal(s[1..], -n))
  }

  lemma AtoiIff(s: string, n: int)
    ensures Atoi(s) == Some(n) <==> MIN_INT64 <= n <= MAX_INT64 && SignedDecimal(s, n)
  {
    if n >= 0 {
      DecimalIff(s, n);
      if s != "" { DecimalIff(s[1..], n); }
    }
    if n <= 0 && s != "" { DecimalIff(s[1..], -n); }
  }
}
