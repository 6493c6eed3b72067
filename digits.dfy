/** Fixed-width decimal digit strings: reading them (as `datetime.fromisoformat`
    does for each field of a timestamp) and writing them zero-padded (as
    `strftime` does for `%Y`, `%m`, `%d`, `%H` and `%M`). */
module Digits {

  predicate IsDigit(c: char) {
    '0' <= c <= '9'
  }

  predicate AllDigits(s: string) {
    forall i :: 0 <= i < |s| ==> IsDigit(s[i])
  }

  function DigitValue(c: char): nat
    requires IsDigit(c)
  {
    c as int - '0' as int
  }

  function DigitChar(d: nat): char
    requires d < 10
  {
    ('0' as int + d) as char
  }

  function Pow10(width: nat): nat {
    if width == 0 then 1 else 10 * Pow10(width - 1)
  }

  /** The number a string of decimal digits denotes; it always fits its width. */
  function ValueOf(s: string): (n: nat)
    requires AllDigits(s)
    ensures n < Pow10(|s|)
  {
    if s == [] then 0 else ValueOf(s[..|s| - 1]) * 10 + DigitValue(s[|s| - 1])
  }

  /** `n` written in exactly `width` digits, zero-padded on the left
      (the high digits are dropped when `n` does not fit). */
  function Pad(n: nat, width: nat): (s: string)
    ensures |s| == width && AllDigits(s)
  {
    if width == 0 then [] else Pad(n / 10, width - 1) + [DigitChar(n % 10)]
  }

  /** The last decimal digit of `rest * 10 + d` is `d`, and the rest is `rest`. */
  lemma SplitLastDigit(rest: nat, d: nat)
    requires d < 10
    ensures (rest * 10 + d) / 10 == rest && (rest * 10 + d) % 10 == d
  {
  }

  /** Dropping the last decimal digit of a number below `10 * bound` leaves one below `bound`. */
  lemma DropLastDigit(n: nat, bound: nat)
    requires n < 10 * bound
    ensures n == n / 10 * 10 + n % 10 && n / 10 < bound
  {
  }

  /** Reading a digit string and writing the value back at the same width
      gives the string as written (leading zeros included). */
  lemma {:induction false} PadValueOf(s: string)
    requires AllDigits(s)
    ensures Pad(ValueOf(s), |s|) == s
  {
    if s != [] {
      var init, last := s[..|s| - 1], s[|s| - 1];
      PadValueOf(init);
      SplitLastDigit(ValueOf(init), DigitValue(last));
      assert Pad(ValueOf(s), |s|) == Pad(ValueOf(init), |init|) + [DigitChar(DigitValue(last))];
      assert s == init + [last];
    }
  }

  /** Writing a value that fits `width` digits and reading it back gives the value. */
  lemma {:induction false} ValueOfPad(n: nat, width: nat)
    requires n < Pow10(width)
    ensures ValueOf(Pad(n, width)) == n
  {
    if width > 0 {
      var rest, d := n / 10, n % 10;
      DropLastDigit(n, Pow10(width - 1));
      ValueOfPad(rest, width - 1);
      var s := Pad(n, width);
      assert s == Pad(rest, width - 1) + [DigitChar(d)];
      assert s[..|s| - 1] == Pad(rest, width - 1);
      assert ValueOf(s) == ValueOf(Pad(rest, width - 1)) * 10 + d;
    }
  }
}
