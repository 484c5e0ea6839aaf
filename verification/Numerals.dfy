/** Decimal numerals and strtol() with base 10.

    strtol() skips white space, takes an optional sign and as many digits as follow, and
    clamps the value to the range of a `long`, which has 64 bits here; white space and digits
    are those of the C locale. It also says where it stopped, which is how its callers tell a
    numeral from a name: at the start if there are no digits at all. */
module Numerals {
  import opened Sequences

  const LONG_MAX := 0x7fff_ffff_ffff_ffff

  predicate IsDigit(c: char) { '0' <= c <= '9' }

  function Spaces(s: string): nat {
    if s != [] && IsSpace(s[0]) then 1 + Spaces(s[1..]) else 0
  }

  function Digits(s: string): (n: nat)
    ensures n <= |s| && forall i :: 0 <= i < n ==> IsDigit(s[i])
  {
    if s != [] && IsDigit(s[0]) then
      var n := Digits(s[1..]);
      assert forall i :: 0 < i < n + 1 ==> s[i] == s[1..][i - 1];
      1 + n
    else 0
  }

  function Value(digits: string): nat
    requires forall i :: 0 <= i < |digits| ==> IsDigit(digits[i])
  {
    if digits == [] then 0
    else
      var last := digits[|digits|-1];
      assert IsDigit(last);
      10 * Value(digits[..|digits|-1]) + (last as int - '0' as int)
  }

  /** The value, and how many characters were used; none if there is no numeral. */
  function Strtol(s: string): (int, nat) {
    var a := Spaces(s);
    var b := if a < |s| && (s[a] == '+' || s[a] == '-') then a + 1 else a;
    if b > |s| || Digits(s[b..]) == 0 then (0, 0)
    else
      var n := Digits(s[b..]);
      var v: int := Value(s[b..][..n]);
      (Clamp(if b > a && s[a] == '-' then -v else v), b + n)
  }

  function Clamp(v: int): int {
    if v > LONG_MAX then LONG_MAX else if v < -LONG_MAX - 1 then -LONG_MAX - 1 else v
  }

  function Decimal(n: nat): string {
    var last := [('0' as int + n % 10) as char];
    if n < 10 then last else Decimal(n / 10) + last
  }

  lemma {:induction false} AllDigits(s: string)
    requires forall i :: 0 <= i < |s| ==> IsDigit(s[i])
    ensures Digits(s) == |s|
  {
    if s != [] { AllDigits(s[1..]); }
  }

  lemma {:induction false} DecimalDigits(n: nat)
    ensures Decimal(n) != [] && forall i :: 0 <= i < |Decimal(n)| ==> IsDigit(Decimal(n)[i])
    ensures Value(Decimal(n)) == n
  {
    if n >= 10 {
      DecimalDigits(n / 10);
      assert Decimal(n)[..|Decimal(n)|-1] == Decimal(n / 10);
    } else {
      assert Decimal(n)[..0] == [];
    }
  }

  /** All of `s` is a numeral: white space up to `a`, perhaps a sign up to `b`, then digits. */
  predicate NumeralAt(s: string, a: nat, b: nat) {
    && a <= b < |s| && b <= a + 1
    && (forall i :: 0 <= i < a ==> IsSpace(s[i]))
    && (b > a ==> s[a] == '+' || s[a] == '-')
    && (forall i :: b <= i < |s| ==> IsDigit(s[i]))
  }

  function NumeralValue(s: string, a: nat, b: nat): int
    requires NumeralAt(s, a, b)
  {
    var v: int := Value(s[b..]);
    Clamp(if b > a && s[a] == '-' then -v else v)
  }

  lemma {:induction false} SpacesIs(s: string, a: nat)
    requires a <= |s| && (forall i :: 0 <= i < a ==> IsSpace(s[i])) && (a < |s| ==> !IsSpace(s[a]))
    ensures Spaces(s) == a
  {
    if a > 0 { SpacesIs(s[1..], a - 1); }
  }

  lemma {:induction false} SpacesAre(s: string)
    ensures Spaces(s) <= |s| && forall i :: 0 <= i < Spaces(s) ==> IsSpace(s[i])
  {
    if s != [] && IsSpace(s[0]) {
      SpacesAre(s[1..]);
      forall i | 0 < i < Spaces(s) ensures IsSpace(s[i]) { assert s[i] == s[1..][i - 1]; }
    }
  }

  /** A numeral is read to its end. */
  lemma StrtolReadsAll(s: string, a: nat, b: nat)
    requires NumeralAt(s, a, b)
    ensures Strtol(s) == (NumeralValue(s, a, b), |s|)
  {
    assert IsDigit(s[b]);
    SpacesIs(s, a);
    AllDigits(s[b..]);
    assert s[b..][..|s| - b] == s[b..];
  }

  /** Nothing but a numeral is read to its end. */
  lemma OnlyNumeralsReadAll(s: string) returns (a: nat, b: nat)
    requires s != [] && Strtol(s).1 == |s|
    ensures NumeralAt(s, a, b)
  {
    SpacesAre(s);
    a := Spaces(s);
    b := if a < |s| && (s[a] == '+' || s[a] == '-') then a + 1 else a;
    assert b <= |s|;
    forall i | b <= i < |s| ensures IsDigit(s[i]) {
      assert s[b..][i - b] == s[i];
    }
  }

  lemma DecimalNumeral(n: nat)
    requires n <= LONG_MAX
    ensures NumeralAt(Decimal(n), 0, 0) && NumeralValue(Decimal(n), 0, 0) == n
  {
    DecimalDigits(n);
    assert Decimal(n)[0..] == Decimal(n);
  }

  lemma StrtolUndoesDecimal(n: nat)
    requires n <= LONG_MAX
    ensures Strtol(Decimal(n)) == (n, |Decimal(n)|)
  {
    DecimalNumeral(n);
    StrtolReadsAll(Decimal(n), 0, 0);
  }
}
