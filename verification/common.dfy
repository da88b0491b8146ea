/** Shared vocabulary for the whole model: optional values, Go-style
    results carrying an error text, machine integer ranges, ASCII
    character classes and decimal rendering. */
module Common {

  /** A value that may be absent (Go's nil pointer / missing map entry). */
  datatype Option<T> = None | Some(value: T)

  /** The outcome of a Go call returning `(T, error)`: either a value, or
      the text of `err.Error()`. */
  datatype Result<T> = Ok(value: T) | Err(msg: string)

  /** Ranges of Go's fixed-width integers (64-bit platform: `int` is 64 bits). */
  type u64 = x: int | 0 <= x < 0x1_0000_0000_0000_0000
  type i64 = x: int | -0x8000_0000_0000_0000 <= x < 0x8000_0000_0000_0000
  type u32 = x: int | 0 <= x < 0x1_0000_0000

  /** A byte of a Go `[]byte` or of a C `char` buffer. */
  type byte = x: int | 0 <= x < 256

  predicate IsAsciiUpper(c: char) { 'A' <= c <= 'Z' }
  predicate IsDigit(c: char) { '0' <= c <= '9' }

  /** C's `isspace` in the "C" locale. */
  predicate IsSpace(c: char) {
    c == ' ' || c == '\t' || c == '\n' || c == '\r' || c == 11 as char || c == 12 as char
  }

  function ToLowerAscii(c: char): (r: char)
    ensures IsAsciiUpper(c) ==> r as int == c as int + 32
    ensures !IsAsciiUpper(c) ==> r == c
  {
    if IsAsciiUpper(c) then (c as int + 32) as char else c
  }

  /** Lower-cases every ASCII letter of `s` (Go's `strings.ToLower` on ASCII input). */
  function LowerAscii(s: string): (r: string)
    ensures |r| == |s|
    ensures forall i :: 0 <= i < |s| ==> r[i] == ToLowerAscii(s[i])
  {
    seq(|s|, i requires 0 <= i < |s| => ToLowerAscii(s[i]))
  }

  /** Case-insensitive equality of two names, with ASCII case folding
      (Go's `strings.EqualFold` restricted to ASCII letters). */
  predicate EqualFold(a: string, b: string) {
    |a| == |b| && forall i :: 0 <= i < |a| ==> ToLowerAscii(a[i]) == ToLowerAscii(b[i])
  }

  /** Comparing a string case-insensitively against an all-lower-case word
      is the same as lower-casing it first: the two formulations the
      source uses (`EqualFold` in field lookup, `ToLower` for booleans) agree. */
  lemma LowerAsciiMatchesEqualFold(s: string, word: string)
    requires forall i :: 0 <= i < |word| ==> !IsAsciiUpper(word[i])
    ensures LowerAscii(s) == word <==> EqualFold(s, word)
  {
    if EqualFold(s, word) {
      assert forall i :: 0 <= i < |s| ==> LowerAscii(s)[i] == word[i];
    }
  }

  function DigitChar(d: nat): (c: char)
    requires d < 10
    ensures IsDigit(c)
  {
    ('0' as int + d) as char
  }

  /** The base-10 value of a string of decimal digits. */
  function DigitsValue(s: string): (v: nat)
    requires forall i :: 0 <= i < |s| ==> IsDigit(s[i])
    decreases |s|
  {
    if |s| == 0 then 0
    else
      assert IsDigit(s[|s| - 1]);
      DigitsValue(s[..|s| - 1]) * 10 + (s[|s| - 1] as int - '0' as int)
  }

  /** Base-10 rendering of a natural number without leading zeros (Go's `%d`). */
  function NatToString(n: nat): (s: string)
    ensures |s| > 0
    ensures forall i :: 0 <= i < |s| ==> IsDigit(s[i])
    decreases n
  {
    if n < 10 then [DigitChar(n)] else NatToString(n / 10) + [DigitChar(n % 10)]
  }

  /** `%d` of a signed integer. */
  function IntToString(n: int): (s: string)
    ensures |s| > 0
  {
    if n < 0 then "-" + NatToString(-n) else NatToString(n)
  }

  /** Rendering then reading back a decimal number yields the number. */
  lemma {:induction false} DigitsValueOfNatToString(n: nat)
    ensures DigitsValue(NatToString(n)) == n
    decreases n
  {
    if n >= 10 {
      var s := NatToString(n / 10) + [DigitChar(n % 10)];
      assert s[..|s| - 1] == NatToString(n / 10);
      DigitsValueOfNatToString(n / 10);
    }
  }
}
