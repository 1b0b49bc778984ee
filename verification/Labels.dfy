/** Printing coordinates digit by digit (internal/geo/reverse.go), on 64-bit integers and exact reals. */
module Labels {
  import opened Wrappers

  const MIN_INT64: int := -0x8000_0000_0000_0000
  const MAX_INT64: int := 0x7FFF_FFFF_FFFF_FFFF

  predicate IsInt64(n: int) {
    MIN_INT64 <= n <= MAX_INT64
  }

  type Int64 = n: int | IsInt64(n)

  /** Negation on 64-bit integers: the least one is its own negation. */
  function Negate64(n: int): int {
    if n == MIN_INT64 then n else -n
  }

  function DigitChar(d: nat): char
    requires d < 10
  {
    ('0' as int + d) as char
  }

  /** Decimal digits, most significant first. */
  function Digits(n: nat): string {
    if n < 10 then [DigitChar(n)] else Digits(n / 10) + [DigitChar(n % 10)]
  }

  function Decimal(n: int): string {
    if n < 0 then "-" + Digits(-n) else Digits(n)
  }

  /** What the printer yields: the least 64-bit integer loses all its digits. */
  function Printed(n: int): string {
    if n == MIN_INT64 then "-" else Decimal(n)
  }

  function Reverse(s: string): string {
    seq(|s|, i requires 0 <= i < |s| => s[|s| - 1 - i])
  }

  /** Reverses the digit buffer in place. */
  method ReverseInPlace(a: array<char>)
    modifies a
    ensures a[..] == Reverse(old(a[..]))
  {
    var i, j := 0, a.Length - 1;
    while i < j
      invariant 0 <= i && i + j == a.Length - 1 && i <= j + 2
      invariant forall k :: 0 <= k < i ==> a[k] == old(a[a.Length - 1 - k]) && a[a.Length - 1 - k] == old(a[k])
      invariant forall k :: i <= k <= j ==> a[k] == old(a[k])
    {
      a[i], a[j] := a[j], a[i];
      i, j := i + 1, j - 1;
    }
    assert forall k :: 0 <= k < a.Length ==> a[k] == old(a[..])[a.Length - 1 - k];
  }

  lemma ReverseAppend(s: string, c: char)
    ensures Reverse(s + [c]) == [c] + Reverse(s)
  {
  }

  method IntToStr(n: int) returns (s: string)
    requires IsInt64(n)
    ensures s == Printed(n)
  {
    if n == 0 {
      return "0";
    }
    var neg, m := false, n;
    if m < 0 {
      neg, m := true, Negate64(m);
    }
    var digits: string := [];
    ghost var start := m;
    while m > 0
      invariant m > 0 ==> Digits(start) == Digits(m) + Reverse(digits)
      invariant m == 0 ==> Digits(start) == Reverse(digits)
      invariant m < 0 ==> m == start && digits == []
      decreases m
    {
      ReverseAppend(digits, DigitChar(m % 10));
      digits := digits + [DigitChar(m % 10)];
      m := m / 10;
    }
    var buffer := new char[|digits|](i requires 0 <= i < |digits| => digits[i]);
    assert buffer[..] == digits;
    ReverseInPlace(buffer);
    s := buffer[..];
    if neg {
      s := "-" + s;
    }
  }

  // --- Reading numbers back -------------------------------------------------------------------

  predicate IsDigit(c: char) {
    '0' <= c <= '9'
  }

  function DigitValue(c: char): nat
    requires IsDigit(c)
  {
    c as int - '0' as int
  }

  function ParseNat(s: string): Option<nat> {
    if s == [] || !IsDigit(s[|s| - 1]) then None
    else if |s| == 1 then Some(DigitValue(s[0]))
    else match ParseNat(s[..|s| - 1])
         case None => None
         case Some(n) => Some(10 * n + DigitValue(s[|s| - 1]))
  }

  function ParseInt(s: string): Option<int> {
    var negative := s != [] && s[0] == '-';
    var magnitude := ParseNat(if negative then s[1..] else s);
    if magnitude.None? then None else
    var n: int := magnitude.value;
    Some(if negative then -n else n)
  }

  lemma {:induction false} ParseDigits(n: nat)
    ensures ParseNat(Digits(n)) == Some(n)
    ensures |Digits(n)| >= 1 && IsDigit(Digits(n)[0])
    ensures n < 10 ==> |Digits(n)| == 1
    ensures 10 <= n < 100 ==> |Digits(n)| == 2
  {
    if n >= 10 {
      ParseDigits(n / 10);
      assert Digits(n)[..|Digits(n)| - 1] == Digits(n / 10);
    }
  }

  lemma ParseDecimal(n: int)
    ensures ParseInt(Decimal(n)) == Some(n)
  {
    if n < 0 {
      ParseDigits(-n);
      assert Decimal(n)[1..] == Digits(-n);
    } else {
      ParseDigits(n);
    }
  }

  /** Reading back what was printed gives the number exactly when it has a 64-bit negation. */
  lemma PrintParseIff(n: int)
    requires IsInt64(n)
    ensures ParseInt(Printed(n)) == Some(n) <==> n != MIN_INT64
  {
    if n == MIN_INT64 {
      assert Printed(n)[1..] == [];
    } else {
      ParseDecimal(n);
    }
  }

  // --- Two fraction digits --------------------------------------------------------------------

  /** Conversion to an integer, towards zero. */
  function Trunc(f: real): int {
    if f >= 0.0 then f.Floor else -((-f).Floor)
  }

  /** The same to 64 bits; what becomes of a value beyond them is up to the platform. */
  function ToInt64(beyond: real -> Int64, f: real): Int64 {
    if IsInt64(Trunc(f)) then Trunc(f) else beyond(f)
  }

  predicate Convertible(f: real) {
    -0x8000_0000_0000_0000 as real < f < 0x8000_0000_0000_0000 as real
  }

  function Abs(n: int): nat {
    if n < 0 then -n else n
  }

  function Hundredths(f: real): nat {
    Abs(Trunc((f - Trunc(f) as real) * 100.0))
  }

  function TwoDigits(h: nat): string {
    (if h < 10 then "0" else "") + Decimal(h)
  }

  function TwoPlaces(f: real): string {
    Decimal(Trunc(f)) + "." + TwoDigits(Hundredths(f))
  }

  lemma TruncBounds(f: real)
    ensures f >= 0.0 ==> 0.0 <= Trunc(f) as real <= f < Trunc(f) as real + 1.0
    ensures f < 0.0 ==> Trunc(f) as real - 1.0 < f <= Trunc(f) as real <= 0.0
  {
  }

  lemma HundredthsBounds(f: real)
    ensures Hundredths(f) < 100
    ensures var h := Hundredths(f) as real / 100.0;
            && (f >= 0.0 ==> Trunc(f) as real + h <= f < Trunc(f) as real + h + 0.01)
            && (f < 0.0 ==> Trunc(f) as real - h - 0.01 < f <= Trunc(f) as real - h)
  {
    var rest := (f - Trunc(f) as real) * 100.0;
    TruncBounds(f);
    TruncBounds(rest);
  }

  lemma FitsInt64(f: real)
    ensures Convertible(f) ==> MIN_INT64 < Trunc(f) <= MAX_INT64
    ensures IsInt64(Trunc(f)) ==> -100 < Trunc((f - Trunc(f) as real) * 100.0) < 100
  {
    TruncBounds(f);
    HundredthsBounds(f);
  }

  /**
   Two places after the point for every value whose whole part fits in 64 bits, but for the least 64-bit
   integer, which loses its digits.
   */
  method FormatFloat(beyond: real -> Int64, f: real) returns (s: string)
    ensures Convertible(f) ==> s == TwoPlaces(f)
    ensures Trunc(f) == MIN_INT64 ==> s == "-." + TwoDigits(Hundredths(f))
  {
    var whole: int := ToInt64(beyond, f);
    var frac: int := ToInt64(beyond, (f - whole as real) * 100.0);
    FitsInt64(f);
    HundredthsBounds(f);
    if frac < 0 {
      frac := Negate64(frac);
    }
    var w := IntToStr(whole);
    s := w + ".";
    if frac < 10 {
      s := s + "0";
    }
    var d := IntToStr(frac);
    s := s + d;
  }

  /** Reads a number printed with a point and two more digits, taking the sign from a leading minus. */
  function ParseFixed(s: string): Option<real> {
    if |s| < 4 || s[|s| - 3] != '.' then None else
    match (ParseInt(s[..|s| - 3]), ParseNat(s[|s| - 2..]))
    case (Some(whole), Some(cents)) =>
      Some(if s[0] == '-' then whole as real - cents as real / 100.0 else whole as real + cents as real / 100.0)
    case _ => None
  }

  lemma TwoDigitTail(h: nat)
    requires h < 100
    ensures |TwoDigits(h)| == 2 && ParseNat(TwoDigits(h)) == Some(h)
  {
    ParseDigits(h);
    if h < 10 {
      var tail := "0" + Decimal(h);
      assert tail[..1] == "0";
      assert ParseNat("0") == Some(0);
    } else {
      assert "" + Decimal(h) == Decimal(h);
    }
  }

  lemma SignOfDecimal(n: int)
    ensures |Decimal(n)| >= 1 && (Decimal(n)[0] == '-' <==> n < 0)
  {
    ParseDigits(if n < 0 then -n else n);
  }

  /** The printed number always has exactly two fraction digits, and reads back as its parts. */
  lemma TwoPlacesParse(f: real)
    ensures var h := Hundredths(f) as real / 100.0;
            ParseFixed(TwoPlaces(f)) == Some(if Trunc(f) < 0 then Trunc(f) as real - h else Trunc(f) as real + h)
  {
    hide Hundredths, Trunc, ParseNat, ParseInt, Digits;
    HundredthsBounds(f);
    TwoDigitTail(Hundredths(f));
    var head := Decimal(Trunc(f));
    var tail := TwoDigits(Hundredths(f));
    assert TwoPlaces(f) == head + "." + tail;
    assert TwoPlaces(f)[..|head|] == head && TwoPlaces(f)[|head| + 1..] == tail;
    ParseDecimal(Trunc(f));
    SignOfDecimal(Trunc(f));
  }

  /** From 0 up the printed value truncates: v <= f < v + 0.01. */
  lemma NonNegativeTruncates(f: real)
    requires f >= 0.0
    ensures var v := ParseFixed(TwoPlaces(f)); v.Some? && 0.0 <= v.value <= f < v.value + 0.01
  {
    TwoPlacesParse(f);
    TruncBounds(f);
    HundredthsBounds(f);
  }

  lemma TruncOfUnit(f: real)
    ensures Trunc(f) == 0 <==> -1.0 < f < 1.0
  {
  }

  /** On all reals, the printed value is within a hundredth exactly outside (-1, -0.01], where the sign is lost. */
  lemma PrintedWithinHundredthIff(f: real)
    ensures var v := ParseFixed(TwoPlaces(f));
            v.Some? && (-0.01 < v.value - f < 0.01 <==> !(-1.0 < f <= -0.01))
  {
    hide TwoPlaces, ParseFixed, Hundredths, Trunc;
    TwoPlacesParse(f);
    TruncBounds(f);
    HundredthsBounds(f);
    TruncOfUnit(f);
  }

  // --- Labels ---------------------------------------------------------------------------------

  const DEGREE: char := '\U{00B0}'

  function Magnitude(x: real): real {
    if x < 0.0 then -x else x
  }

  /** One coordinate of a label: its magnitude, a degree sign and a hemisphere letter. */
  function Coordinate(x: real, positive: char, negative: char): string {
    TwoPlaces(Magnitude(x)) + [DEGREE] + [if x < 0.0 then negative else positive]
  }

  method RegionLabel(beyond: real -> Int64, city: string, lat: real, lon: real) returns (text: string)
    ensures Convertible(lat) && Convertible(lon) ==>
              text == city + " (" + Coordinate(lat, 'N', 'S') + ", " + Coordinate(lon, 'E', 'W') + ")"
  {
    var latDir, la := 'N', lat;
    if la < 0.0 {
      latDir, la := 'S', -la;
    }
    var lonDir, lo := 'E', lon;
    if lo < 0.0 {
      lonDir, lo := 'W', -lo;
    }
    hide TwoPlaces;
    var latText := FormatFloat(beyond, la);
    var lonText := FormatFloat(beyond, lo);
    var latPart, lonPart := latText + [DEGREE] + [latDir], lonText + [DEGREE] + [lonDir];
    text := city + " (" + latPart + ", " + lonPart + ")";
  }

  /** Reads a coordinate of a label, negative when it carries the `negative` letter. */
  function ParseCoordinate(s: string, negative: char): Option<real> {
    if |s| < 2 then None else
    match ParseFixed(s[..|s| - 2])
    case None => None
    case Some(v) => Some(if s[|s| - 1] == negative then -v else v)
  }

  /**
   The hemisphere letter keeps the sign the number printer loses: every coordinate reads back within
   a hundredth, towards zero.
   */
  lemma CoordinateReadsBack(x: real, positive: char, negative: char)
    requires positive != negative
    ensures var v := ParseCoordinate(Coordinate(x, positive, negative), negative);
            v.Some? && (if x < 0.0 then v.value - 0.01 < x <= v.value <= 0.0 else 0.0 <= v.value <= x < v.value + 0.01)
  {
    hide TwoPlaces, ParseFixed;
    NonNegativeTruncates(Magnitude(x));
    var s := Coordinate(x, positive, negative);
    assert s[..|s| - 2] == TwoPlaces(Magnitude(x));
  }

  lemma OneMoreDigit(n: nat, d: nat)
    requires n > 0 && d < 10
    ensures Digits(10 * n + d) == Digits(n) + [DigitChar(d)]
  {
  }

  lemma AllDigits()
    ensures Decimal(1234567890) == "1234567890" && Decimal(-42) == "-42"
  {
    assert Digits(1) == "1" && Digits(4) == "4";
    OneMoreDigit(4, 2);
    OneMoreDigit(1, 2);
    OneMoreDigit(12, 3);
    OneMoreDigit(123, 4);
    OneMoreDigit(1234, 5);
    OneMoreDigit(12345, 6);
    OneMoreDigit(123456, 7);
    OneMoreDigit(1234567, 8);
    OneMoreDigit(12345678, 9);
    OneMoreDigit(123456789, 0);
    hide Digits;
  }

  lemma TwoCoordinates()
    ensures TwoPlaces(52.374) == "52.37" && TwoPlaces(4.907) == "4.90" && TwoPlaces(0.05) == "0.05"
  {
    assert Trunc(52.374) == 52 && Trunc(4.907) == 4 && Trunc(0.05) == 0;
    assert Hundredths(52.374) == 37 && Hundredths(4.907) == 90 && Hundredths(0.05) == 5;
    hide Trunc, Hundredths;
    assert Decimal(52) == "52" && Decimal(4) == "4" && Decimal(0) == "0";
    assert TwoDigits(37) == "37" && TwoDigits(90) == "90" && TwoDigits(5) == "05";
  }

  /** The digits are the usual ones, and so are the point, the degree sign and the letters. */
  lemma PrintedCoordinates()
    ensures Decimal(1234567890) == "1234567890" && Decimal(-42) == "-42"
    ensures Coordinate(52.374, 'N', 'S') == "52.37\U{00B0}N" && Coordinate(-4.907, 'E', 'W') == "4.90\U{00B0}W"
  {
    hide TwoPlaces, Decimal;
    AllDigits();
    TwoCoordinates();
  }
}
