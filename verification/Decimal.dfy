/**
 Decimal printing and parsing of integers as the client does them.
 */
module Decimal {
  import opened Bytes

  function Digit(d: nat): (c: char)
    requires d < 10
    ensures '0' <= c <= '9' && c as int - '0' as int == d
  {
    ('0' as int + d) as char
  }

  predicate IsDigit(c: char) { '0' <= c <= '9' }

  // The decimal digits of v, most significant first.
  function Digits(v: nat): (s: string)
    ensures |s| > 0 && forall i :: 0 <= i < |s| ==> IsDigit(s[i])
  {
    if v < 10 then [Digit(v)] else Digits(v / 10) + [Digit(v % 10)]
  }

  // The value read from the leading digits of s, in 32-bit arithmetic.
  function Parsed(s: string, v: int32): int32
  {
    if s == [] || !IsDigit(s[0]) then v
    else Parsed(s[1..], Int32(Int32(v * 10) + (s[0] as int - '0' as int)))
  }

  lemma {:induction false} ParsedAppend(s: string, c: char, v: int32)
    requires (forall i :: 0 <= i < |s| ==> IsDigit(s[i])) && IsDigit(c)
    ensures Parsed(s + [c], v) == Int32(Int32(Parsed(s, v) * 10) + (c as int - '0' as int))
    decreases |s|
  {
    hide Int32;
    if s == [] {
      assert (s + [c])[1..] == [];
    } else {
      assert (s + [c])[1..] == s[1..] + [c];
      ParsedAppend(s[1..], c, Int32(Int32(v * 10) + (s[0] as int - '0' as int)));
    }
  }

  lemma Int32Small(u: int)
    requires 0 <= u < TWO_31
    ensures Int32(u) == u
  {
  }

  // Printing then parsing is the identity on every non-negative 32-bit integer.
  lemma {:induction false} ParseDigits(n: nat)
    requires n < TWO_31
    ensures Parsed(Digits(n), 0) == n
  {
    hide Parsed, Int32, Digits;
    DigitsStep(n);
    Int32Small(n);
    Int32Small(n / 10 * 10);
    if n < 10 {
      Int32Small(0);
      ParsedEmpty();
      ParsedAppend("", Digit(n), 0);
      assert "" + [Digit(n)] == Digits(n);
    } else {
      ParseDigits(n / 10);
      ParsedAppend(Digits(n / 10), Digit(n % 10), 0);
    }
  }

  lemma DigitsStep(n: nat)
    ensures Digits(n) == (if n < 10 then [] else Digits(n / 10)) + [Digit(n % 10)]
  {
  }

  lemma ParsedEmpty()
    ensures Parsed("", 0) == 0
  {
  }

  // Different numbers print differently, whatever their size.
  lemma {:induction false} DigitsInjective(a: nat, b: nat)
    requires Digits(a) == Digits(b)
    ensures a == b
  {
    var s := Digits(a);
    assert s[|s| - 1] == Digit(a % 10) == Digit(b % 10);
    if a >= 10 && b >= 10 {
      assert s[..|s| - 1] == Digits(a / 10) == Digits(b / 10);
      DigitsInjective(a / 10, b / 10);
    }
  }

  function Pow10(n: nat): (p: nat)
    ensures p > 0
  {
    if n == 0 then 1 else 10 * Pow10(n - 1)
  }

  lemma Pow10Nineteen()
    ensures Pow10(19) == 10_000_000_000_000_000_000
  {
    assert Pow10(4) == 10_000;
    assert Pow10(8) == 100_000_000;
    assert Pow10(12) == 1_000_000_000_000;
    assert Pow10(16) == 10_000_000_000_000_000;
  }

  // The least 64-bit integer has no 64-bit negation and prints as a bare sign.
  function Printed(v: int64): string
  {
    if v == -TWO_63 then "-" else if v < 0 then "-" + Digits(-v) else Digits(v)
  }

  function DigitsOrEmpty(v: int): string { if v > 0 then Digits(v) else "" }

  lemma DigitsOrEmptyStep(v: nat)
    requires v > 0
    ensures DigitsOrEmpty(v) == DigitsOrEmpty(v / 10) + [Digit(v % 10)]
  {
  }

  lemma DigitFits(v: nat, n: nat)
    requires 0 < v < Pow10(n)
    ensures n > 0 && v / 10 < Pow10(n - 1)
  {
  }

  // The loop that fills the buffer from its end, one digit at a time.
  method FillBackwards(b: array<char>, value: int64) returns (i: nat)
    requires b.Length == 20
    modifies b
    ensures 1 <= i <= 20
    ensures b[i..] == DigitsOrEmpty(value)
  {
    hide Pow10, Digits, DigitsOrEmpty;
    var v: int := value;
    i := b.Length;
    Pow10Nineteen();
    assert "" == b[i..];
    while v > 0
      invariant 1 <= i <= 20 && v < Pow10(i - 1)
      invariant DigitsOrEmpty(v) + b[i..] == DigitsOrEmpty(value)
      decreases v
    {
      DigitFits(v, i - 1);
      DigitsOrEmptyStep(v);
      ghost var tail := b[i..];
      i := i - 1;
      b[i] := Digit(v % 10);
      assert b[i..] == [Digit(v % 10)] + tail;
      v := v / 10;
    }
    NothingLeft(v);
  }

  lemma NothingLeft(v: int)
    requires v <= 0
    ensures DigitsOrEmpty(v) == ""
  {
  }

  lemma PrintedCases(v: int64)
    ensures v == 0 ==> Printed(v) == "0"
    ensures v < 0 ==> Printed(v) == "-" + DigitsOrEmpty(Int64(-(v as int)))
    ensures v > 0 ==> Printed(v) == DigitsOrEmpty(v)
  {
  }

  // A sign, then the digits, in a 20-byte buffer.
  method Itoa(value: int64) returns (s: string)
    ensures s == Printed(value)
  {
    hide Digits, Int64, Printed, DigitsOrEmpty;
    PrintedCases(value);
    if value == 0 {
      return "0";
    }
    var neg := value < 0;
    var v: int64 := value;
    if neg {
      v := Int64(-(v as int));
    }
    var b := new char[20](_ => '0');
    var i := FillBackwards(b, v);
    if neg {
      ghost var tail := b[i..];
      i := i - 1;
      b[i] := '-';
      assert b[i..] == ['-'] + tail;
    }
    return b[i..];
  }

  method ParseInt(s: string) returns (v: int32)
    ensures v == Parsed(s, 0)
  {
    v := 0;
    assert s[0..] == s;
    for i := 0 to |s|
      invariant Parsed(s, 0) == Parsed(s[i..], v)
    {
      if s[i] < '0' || s[i] > '9' {
        return;
      }
      assert s[i..][1..] == s[i + 1..];
      v := Int32(Int32(v * 10) + (s[i] as int - '0' as int));
    }
  }
}
