/** What the text formats share: ASCII characters, digits and the escape for an octet. */
module Ascii {
  import opened Names

  type ascii = x: int | 0 <= x < 128

  const NEWLINE: ascii := 10
  const DOT: ascii := 46
  const ZERO: ascii := 48
  const BACKSLASH: ascii := 92

  predicate IsDigit(c: byte) {
    48 <= c <= 57
  }

  /** "%03d" */
  function ThreeDigits(c: byte): seq<ascii> {
    [48 + c / 100, 48 + c / 10 % 10, 48 + c % 10]
  }
}
