/** Serial number arithmetic of `dns/serial.py`, for 32 bits. */
module Serials {
  type serial = x: int | 0 <= x < 0x1_0000_0000

  const HALF := 0x8000_0000
  const MODULUS := 0x1_0000_0000

  predicate Less(a: serial, b: serial) {
    (a < b && b - a < HALF) || (a > b && a - b > HALF)
  }

  predicate Greater(a: serial, b: serial) {
    (a < b && b - a > HALF) || (a > b && a - b < HALF)
  }

  /** Serials wrap around: a is less than b when b lies 1 to 2^31-1 increments after a, and two
      serials exactly half way round are not comparable. */
  lemma LessMeaning(a: serial, b: serial)
    ensures Less(a, b) <==> 0 < (b - a) % MODULUS < HALF
    ensures Less(a, b) <==> Greater(b, a)
    ensures !Less(a, b) && !Less(b, a) <==> a == b || (b - a) % MODULUS == HALF
  {
  }
}
