/** The one-way function that stands for both HMAC-SHA256 (token
    signatures) and bcrypt's hash: a polynomial checksum modulo 2^32.  The
    model relies only on its being a function of its input. */
module Digest {

  const Modulus: nat := 0x1_0000_0000

  function Checksum(s: string): (h: nat)
    ensures h < Modulus
    decreases |s|
  {
    if |s| == 0 then 0
    else (Checksum(s[..|s| - 1]) * 31 + s[|s| - 1] as int) % Modulus
  }
}
