/**
  Decimal text for integers: what a JavaScript template literal `${n}` writes
  for an integral number, what `parseInt` reads back from a string of digits,
  and `padStart(2, '0')` on such text.
*/
module Numerals {
  import opened Wrappers

  predicate IsDigit(c: char) {
    '0' <= c <= '9'
  }

  predicate AllDigits(s: string) {
    forall i :: 0 <= i < |s| ==> IsDigit(s[i])
  }

  function DigitChar(d: nat): (c: char)
    requires d < 10
    ensures IsDigit(c) && DigitValue(c) == d
  {
    (d + '0' as int) as char
  }

  function DigitValue(c: char): (d: nat)
    requires IsDigit(c)
    ensures d < 10
  {
    c as int - '0' as int
  }

  /** Base-10 text of `n`, most significant digit first, with no leading zero. */
  function NatToString(n: nat): (s: string)
    ensures |s| >= 1 && AllDigits(s)
    ensures s[0] == '0' ==> n == 0
    ensures |s| == 1 <==> n < 10
    decreases n
  {
    if n < 10 then [DigitChar(n)] else NatToString(n / 10) + [DigitChar(n % 10)]
  }

  /** Base-10 text of an integer, with a leading '-' when it is negative. */
  function IntToString(i: int): (s: string)
    ensures |s| >= 1
    ensures s[0] == '-' <==> i < 0
  {
    if i < 0 then "-" + NatToString(-i) else NatToString(i)
  }

  /** The value of a string of digits read most significant first (leading zeros allowed). */
  function DigitsValue(s: string): nat
    requires AllDigits(s)
  {
    if |s| == 0 then 0 else DigitsValue(s[..|s| - 1]) * 10 + DigitValue(s[|s| - 1])
  }

  /** Reads a non-empty run of decimal digits; anything else is rejected. */
  function ParseNat(s: string): (r: Option<nat>)
    ensures r.Some? ==> |s| > 0 && AllDigits(s)
    ensures |s| > 0 && AllDigits(s) ==> r.Some?
  {
    if |s| > 0 && AllDigits(s) then Some(DigitsValue(s)) else None
  }

  /** Reading back the text of a natural number yields that number. */
  lemma {:induction false} ParseNatToString(n: nat)
    ensures ParseNat(NatToString(n)) == Some(n)
    decreases n
  {
    if n >= 10 {
      ParseNatToString(n / 10);
      var s := NatToString(n);
      assert s[..|s| - 1] == NatToString(n / 10);
      assert s[|s| - 1] == DigitChar(n % 10);
      assert DigitsValue(s) == (n / 10) * 10 + n % 10;
    } else {
      var s := NatToString(n);
      assert s[..0] == [];
      assert DigitsValue(s) == DigitValue(DigitChar(n));
    }
  }

  /**
    Decimal text as a template literal writes a natural number: digits only,
    and no leading zero unless the number is zero itself.
  */
  predicate Canonical(s: string) {
    |s| >= 1 && AllDigits(s) && (s[0] == '0' ==> |s| == 1)
  }

  /** Reads canonical decimal text only: "7" and "12", but not "07" or "". */
  function ReadNat(s: string): (r: Option<nat>)
    ensures r.Some? <==> Canonical(s)
    ensures r.Some? ==> r == ParseNat(s)
  {
    if Canonical(s) then ParseNat(s) else None
  }

  /** Reads what `${i}` writes for an integer: canonical digits, after a '-' when negative. */
  function ReadInt(s: string): (r: Option<int>)
    ensures r.Some? && r.value < 0 ==> |s| > 1 && s[0] == '-' && ReadNat(s[1..]) == Some(-r.value)
    ensures r.Some? && r.value >= 0 ==> ReadNat(s) == Some(r.value)
  {
    if |s| > 0 && s[0] == '-' then
      match ReadNat(s[1..])
      case Some(v) => if v > 0 then Some(-(v as int)) else None
      case None => None
    else
      match ReadNat(s)
      case Some(v) => Some(v)
      case None => None
  }

  /** The text of a natural number is canonical and reads back as that number. */
  lemma ReadNatToString(n: nat)
    ensures ReadNat(NatToString(n)) == Some(n)
  {
    ParseNatToString(n);
  }

  /** Canonical text is the text of the number it reads as: no other spelling names that number. */
  lemma {:induction false} NatToStringOfRead(s: string)
    requires ReadNat(s).Some?
    ensures NatToString(ReadNat(s).value) == s
    decreases |s|
  {
    var n := ReadNat(s).value;
    if |s| == 1 {
      assert s[..0] == [];
      assert n == DigitsValue(s) == DigitValue(s[0]);
      assert NatToString(n) == [DigitChar(n)];
      assert DigitChar(n) == s[0];
    } else {
      var p := s[..|s| - 1];
      assert p[0] == s[0];
      assert Canonical(p);
      NatToStringOfRead(p);
      LeadingDigitBound(p);
      assert n == DigitsValue(p) * 10 + DigitValue(s[|s| - 1]);
      assert n / 10 == DigitsValue(p) && n % 10 == DigitValue(s[|s| - 1]);
      assert s == p + [s[|s| - 1]];
    }
  }

  /** A run of digits is worth at least its leading digit. */
  lemma {:induction false} LeadingDigitBound(s: string)
    requires |s| >= 1 && AllDigits(s)
    ensures DigitsValue(s) >= DigitValue(s[0])
    decreases |s|
  {
    if |s| > 1 {
      var p := s[..|s| - 1];
      assert p[0] == s[0];
      LeadingDigitBound(p);
    } else {
      assert s[..0] == [];
    }
  }

  /** Reading back the text of an integer yields that integer. */
  lemma ReadIntToString(i: int)
    ensures ReadInt(IntToString(i)) == Some(i)
  {
    var s := IntToString(i);
    if i < 0 {
      var t := NatToString(-i);
      assert s == "-" + t;
      assert s[1..] == t;
      ReadNatToString(-i);
      assert ReadInt(s) == Some(-((-i) as int)) by {
        assert |s| > 0 && s[0] == '-' && ReadNat(s[1..]) == Some(-i) && -i > 0;
      }
    } else {
      assert s == NatToString(i);
      ReadNatToString(i);
      assert ReadInt(s) == Some(i) by {
        assert s[0] != '-' && ReadNat(s) == Some(i);
      }
    }
  }

  /** `n.toString().padStart(2, '0')` for a number below 100. */
  function PadTwo(n: nat): (s: string)
    requires n < 100
    ensures |s| == 2 && AllDigits(s)
  {
    var t := NatToString(n);
    if |t| < 2 then "0" + t else t
  }

  /** Padded text is exactly the tens digit followed by the units digit. */
  lemma PadTwoDigits(n: nat)
    requires n < 100
    ensures PadTwo(n) == [DigitChar(n / 10), DigitChar(n % 10)]
  {
    if n >= 10 {
      assert NatToString(n / 10) == [DigitChar(n / 10)];
    }
  }
}
