/** How numbers are written: decimal, octal after a 0, hexadecimal after 0x, each with or without a sign. */
module Numerals {
  import opened BasicAst
  import opened Common
  import opened Grammar

  // ---------- What a numeral means ----------

  function Power(base: nat, k: nat): nat { if k == 0 then 1 else base * Power(base, k - 1) }

  /** A character that stands for a digit. */
  predicate IsDigit(c: char, d: nat) {
    || (c in "0123456789" && d == c as int - '0' as int)
    || (c in "abcdef" && d == c as int - 'a' as int + 10)
    || (c in "ABCDEF" && d == c as int - 'A' as int + 10)
  }

  predicate Spelled(t: string, digits: seq<nat>, base: nat) {
    |t| == |digits| && forall i :: 0 <= i < |t| ==> IsDigit(t[i], digits[i]) && digits[i] < base
  }

  /** The first digit counts most. */
  function ValueOf(digits: seq<nat>, base: nat): nat {
    if digits == [] then 0 else digits[0] * Power(base, |digits| - 1) + ValueOf(digits[1..], base)
  }

  /** A numeral without a sign, in one of the three bases. */
  ghost predicate LiteralIn(t: string, base: nat, digits: seq<nat>) {
    && digits != []
    && match base
       case 10 => digits[0] != 0 && Spelled(t, digits, 10)
       case 8 => digits[0] == 0 && Spelled(t, digits, 8)
       case 16 => |t| > 2 && t[0] == '0' && (t[1] == 'x' || t[1] == 'X') && Spelled(t[2..], digits, 16)
       case _ => false
  }

  ghost predicate Literal(t: string, n: int) {
    exists base, digits :: LiteralIn(t, base, digits) && n == ValueOf(digits, base)
  }

  /** A numeral of any number, however large. */
  ghost predicate Numeral(t: string, v: int) {
    || Literal(t, v)
    || (t != "" && t[0] == '+' && Literal(t[1..], v))
    || (t != "" && t[0] == '-' && Literal(t[1..], -v))
  }

  // ---------- Reading digits ----------

  lemma DigitIs(c: char, d: nat)
    ensures IsDigit(c, d) && d < 16 <==> DigitValue(c) == d && d < 16
  {
  }

  function DigitsOf(t: string): seq<nat> { seq(|t|, i requires 0 <= i < |t| => DigitValue(t[i])) }

  lemma SpelledIs(t: string, digits: seq<nat>, base: nat)
    requires base <= 16
    ensures Spelled(t, digits, base) <==> AllDigits(t, base) && digits == DigitsOf(t)
  {
    forall i | 0 <= i < |t| && i < |digits|
      ensures IsDigit(t[i], digits[i]) && digits[i] < base <==> DigitValue(t[i]) == digits[i] && digits[i] < base
    {
      DigitIs(t[i], digits[i]);
    }
    if Spelled(t, digits, base) {
      forall i | 0 <= i < |t| ensures DigitsOf(t)[i] == digits[i] && DigitValue(t[i]) < base {
        assert IsDigit(t[i], digits[i]);
      }
    }
  }

  lemma {:induction false} OneMoreDigit(digits: seq<nat>, d: nat, base: nat)
    ensures ValueOf(digits + [d], base) == ValueOf(digits, base) * base + d
  {
    var more := digits + [d];
    if digits == [] {
      assert more[1..] == [];
      assert Power(base, 0) == 1;
    } else {
      assert more[1..] == digits[1..] + [d];
      OneMoreDigit(digits[1..], d, base);
      Shifted(digits[0], Power(base, |digits| - 1), ValueOf(digits[1..], base), base, d);
    }
  }

  lemma Shifted(first: nat, power: nat, rest: nat, base: nat, d: nat)
    ensures first * (base * power) + (rest * base + d) == (first * power + rest) * base + d
  {
    assert first * (base * power) == first * power * base;
  }

  lemma {:induction false} MagnitudeIs(t: string, base: nat)
    ensures Magnitude(t, base) == ValueOf(DigitsOf(t), base)
  {
    if t == "" {
    } else {
      var n := |t| - 1;
      MagnitudeIs(t[..n], base);
      assert DigitsOf(t) == DigitsOf(t[..n]) + [DigitValue(t[n])];
      OneMoreDigit(DigitsOf(t[..n]), DigitValue(t[n]), base);
    }
  }

  // ---------- strtol ----------

  predicate IsHex(t: string) { |t| >= 3 && t[0] == '0' && (t[1] == 'x' || t[1] == 'X') }

  function BaseOf(t: string): nat { if IsHex(t) then 16 else if t != "" && t[0] == '0' then 8 else 10 }

  function BodyOf(t: string): string { if IsHex(t) then t[2..] else t }

  /** An unsigned numeral has one base and one value. */
  lemma LiteralIs(t: string, n: int)
    ensures Literal(t, n) <==>
            BodyOf(t) != "" && AllDigits(BodyOf(t), BaseOf(t)) && n == Magnitude(BodyOf(t), BaseOf(t))
  {
    hide Magnitude, ValueOf;
    var body, base := BodyOf(t), BaseOf(t);
    MagnitudeIs(body, base);
    forall b, digits ensures LiteralIn(t, b, digits) <==>
        b == base && body != "" && AllDigits(body, base) && digits == DigitsOf(body)
    {
      LiteralInIs(t, b, digits);
    }
    if body != "" && AllDigits(body, base) && n == Magnitude(body, base) {
      assert LiteralIn(t, base, DigitsOf(body));
    }
  }

  lemma LiteralInIs(t: string, b: nat, digits: seq<nat>)
    ensures LiteralIn(t, b, digits) <==>
              b == BaseOf(t) && BodyOf(t) != "" && AllDigits(BodyOf(t), b) && digits == DigitsOf(BodyOf(t))
  {
    hide Spelled, AllDigits;
    if b == 10 || b == 8 {
      SpelledIs(t, digits, b);
      if t != "" { FirstDigit(t, b); }
    } else if b == 16 {
      if |t| > 2 { SpelledIs(t[2..], digits, b); }
    }
  }

  lemma FirstDigit(t: string, b: nat)
    requires t != "" && b <= 16
    ensures AllDigits(t, b) ==> (DigitsOf(t)[0] == 0 <==> t[0] == '0') && !(b <= 10 && IsHex(t))
  {
    DigitIs(t[0], 0);
    if AllDigits(t, b) && IsHex(t) { assert DigitValue(t[1]) < b; }
  }

  /** `strtol` reads exactly the numerals of 64-bit numbers, each as the number it is of. */
  lemma StrtolExact(t: string, v: int)
    requires t != ""
    ensures Strtol(t).Some? && Strtol(t).value == v <==> Numeral(t, v) && INT64_MIN <= v < -INT64_MIN
  {
    hide Literal, Magnitude, AllDigits;
    LiteralIs(t, v);
    LiteralIs(t[1..], v);
    LiteralIs(t[1..], -v);
    if t[0] == '+' || t[0] == '-' { NoSign(t); }
  }

  lemma NoSign(t: string)
    requires t != "" && (t[0] == '+' || t[0] == '-')
    ensures !AllDigits(BodyOf(t), BaseOf(t))
  {
    assert BodyOf(t) == t && DigitValue(t[0]) == 36;
  }

  /** A numeral is of one number only: one that is too large or too small is not read. */
  lemma NumeralUnique(t: string, v: int, v': int)
    requires Numeral(t, v) && Numeral(t, v')
    ensures v == v'
  {
    hide Literal, Magnitude, AllDigits;
    LiteralIs(t, v);
    LiteralIs(t, v');
    LiteralIs(t[1..], v);
    LiteralIs(t[1..], -v);
    LiteralIs(t[1..], v');
    LiteralIs(t[1..], -v');
    if t[0] == '+' || t[0] == '-' { NoSign(t); }
  }

  lemma OutOfRange(t: string, v: int)
    requires Numeral(t, v) && !(INT64_MIN <= v < -INT64_MIN)
    ensures Strtol(t) == None
  {
    hide Numeral, Strtol;
    assert t != "" by { NotEmpty(v); }
    if Strtol(t).Some? {
      StrtolExact(t, Strtol(t).value);
      NumeralUnique(t, v, Strtol(t).value);
    }
  }

  lemma NotEmpty(v: int)
    ensures !Numeral("", v)
  {
    LiteralIs("", v);
  }

  // ---------- Writing numbers ----------

  function DigitChar(d: nat): char
    requires d < 16
  {
    "0123456789abcdef"[d]
  }

  predicate IsBase(base: nat) { base in {8, 10, 16} }

  function Digits(n: nat, base: nat): seq<nat>
    requires IsBase(base)
    decreases n
  {
    if n < base then [n] else Digits(n / base, base) + [n % base]
  }

  /** A number in one of the bases, without a prefix. */
  function Written(n: nat, base: nat): (t: string)
    requires IsBase(base)
    ensures t != ""
    decreases n
  {
    if n < base then [DigitChar(n)] else Written(n / base, base) + [DigitChar(n % base)]
  }

  function Prefix(base: nat): string { if base == 16 then "0x" else if base == 8 then "0" else "" }

  lemma {:induction false} DigitsValue(n: nat, base: nat)
    requires IsBase(base)
    ensures ValueOf(Digits(n, base), base) == n && Digits(n, base) != []
    ensures Digits(n, base)[0] == 0 ==> n == 0
    decreases n
  {
    if n < base {
      assert Power(base, 0) == 1 && Digits(n, base)[1..] == [];
    } else {
      DigitsValue(n / base, base);
      OneMoreDigit(Digits(n / base, base), n % base, base);
      assert n / base * base + n % base == n;
    }
  }

  lemma {:induction false} WrittenSpelled(n: nat, base: nat)
    requires IsBase(base)
    ensures Spelled(Written(n, base), Digits(n, base), base)
    decreases n
  {
    hide Spelled, IsDigit, DigitChar;
    DigitCharIs(n % base);
    if n < base {
      OneSpelled("", [], n, base);
      assert "" + [DigitChar(n)] == [DigitChar(n)] && [] + [n] == [n];
    } else {
      WrittenSpelled(n / base, base);
      OneSpelled(Written(n / base, base), Digits(n / base, base), n % base, base);
    }
  }

  lemma OneSpelled(t: string, digits: seq<nat>, d: nat, base: nat)
    requires (t == "" && digits == []) || Spelled(t, digits, base)
    requires d < base <= 16
    ensures Spelled(t + [DigitChar(d)], digits + [d], base)
  {
    hide IsDigit, DigitChar;
    DigitCharIs(d);
  }

  lemma DigitCharIs(d: nat)
    requires d < 16
    ensures IsDigit(DigitChar(d), d)
  {
  }

  lemma WrittenLiteral(n: nat, base: nat)
    requires IsBase(base)
    ensures Literal(Prefix(base) + Written(n, base), n)
  {
    hide Digits, Written, Spelled, ValueOf;
    var digits, t := Digits(n, base), Prefix(base) + Written(n, base);
    DigitsValue(n, base);
    WrittenSpelled(n, base);
    if base == 16 {
      assert t[2..] == Written(n, base);
      assert LiteralIn(t, 16, digits);
    } else if base == 8 || n == 0 {
      Octal(n, base);
    } else {
      assert t == Written(n, base);
      assert LiteralIn(t, 10, digits);
    }
  }

  /** A leading 0 does not matter, and 0 itself is octal. */
  lemma Octal(n: nat, base: nat)
    requires base == 8 || (base == 10 && n == 0)
    ensures Literal(Prefix(base) + Written(n, base), n)
  {
    if base == 8 {
      hide IsDigit, Digits, Written;
      DigitsValue(n, 8);
      WrittenSpelled(n, 8);
      AfterZero(Written(n, 8), Digits(n, 8), 8);
      assert LiteralIn("0" + Written(n, 8), 8, [0] + Digits(n, 8));
    } else {
      assert Prefix(10) + Written(0, 10) == "0";
      AfterZero("", [], 8);
      assert "0" + "" == "0" && [0] + [] == [0];
      assert LiteralIn("0", 8, [0]);
    }
  }

  lemma AfterZero(t: string, digits: seq<nat>, base: nat)
    requires Spelled(t, digits, base) && base > 0
    ensures Spelled("0" + t, [0] + digits, base) && ValueOf([0] + digits, base) == ValueOf(digits, base)
  {
    assert ([0] + digits)[1..] == digits;
    assert IsDigit('0', 0);
  }

  /** Whatever the base and the sign, a number that is written is read as what it is, if it is a 64-bit number, and not
      read at all otherwise. */
  lemma WrittenReads(sign: string, n: nat, base: nat)
    requires IsBase(base) && sign in {"", "+", "-"}
    ensures var v: int := if sign == "-" then 0 - n else n;
            Strtol(sign + (Prefix(base) + Written(n, base))) ==
            if INT64_MIN <= v < -INT64_MIN then Some(v) else None
  {
    hide Strtol, Written, Literal;
    var unsigned := Prefix(base) + Written(n, base);
    var t, v: int := sign + unsigned, if sign == "-" then 0 - n else n;
    WrittenLiteral(n, base);
    if sign == "" { assert t == unsigned; } else { assert t[1..] == unsigned; }
    assert Numeral(t, v);
    if INT64_MIN <= v < -INT64_MIN { StrtolExact(t, v); } else { OutOfRange(t, v); }
  }
}
