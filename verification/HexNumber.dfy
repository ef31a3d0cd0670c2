/** Hexadecimal numbers as `%x` prints them and as a chunk-size is read. */
module HexNumber {
  import opened Bytes

  function Digit(d: nat): byte
    requires d < 16
  {
    if d < 10 then (48 + d) as byte else (87 + d) as byte
  }

  predicate IsDigit(c: byte) {
    48 <= c <= 57 || 97 <= c <= 102 || 65 <= c <= 70
  }

  // HEXDIG is case-insensitive, although only lower case is ever printed here.
  function DigitValue(c: byte): (v: nat)
    requires IsDigit(c)
    ensures v < 16
  {
    if c <= 57 then (c - 48) as nat else if c <= 70 then (c - 55) as nat else (c - 87) as nat
  }

  function Print(n: nat): seq<byte> {
    if n < 16 then [Digit(n)] else Print(n / 16) + [Digit(n % 16)]
  }

  predicate AllDigits(s: seq<byte>) {
    forall i | 0 <= i < |s| :: IsDigit(s[i])
  }

  function Value(s: seq<byte>): nat
    requires AllDigits(s)
  {
    if s == [] then 0 else 16 * Value(s[..|s| - 1]) + DigitValue(s[|s| - 1])
  }

  // How many hexadecimal digits `s` starts with.
  function DigitRun(s: seq<byte>): (n: nat)
    ensures n <= |s| && AllDigits(s[..n])
    ensures n < |s| ==> !IsDigit(s[n])
  {
    if s == [] || !IsDigit(s[0]) then 0 else 1 + DigitRun(s[1..])
  }

  /** Printing and reading are inverse on every natural number, and printing puts
      no zero in front. */
  lemma {:induction false} PrintIsRead(n: nat)
    ensures Print(n) != [] && AllDigits(Print(n)) && Value(Print(n)) == n
    ensures n > 0 ==> Print(n)[0] != Digit(0)
  {
    if n < 16 {
      assert Print(n)[..0] == [];
    } else {
      PrintIsRead(n / 16);
      assert Print(n)[..|Print(n)| - 1] == Print(n / 16);
    }
  }

  // Only 0 to 9 and lower-case a to f are printed.
  lemma {:induction false} PrintsLowerCase(n: nat)
    ensures forall i | 0 <= i < |Print(n)| :: 48 <= Print(n)[i] <= 57 || 97 <= Print(n)[i] <= 102
  {
    if n >= 16 {
      PrintsLowerCase(n / 16);
    }
  }

  lemma RunEndsAt(digits: seq<byte>, rest: seq<byte>)
    requires AllDigits(digits) && rest != [] && !IsDigit(rest[0])
    ensures DigitRun(digits + rest) == |digits|
  {
    assert forall i | 0 <= i < |digits| :: (digits + rest)[i] == digits[i];
    assert (digits + rest)[|digits|] == rest[0];
  }
}
