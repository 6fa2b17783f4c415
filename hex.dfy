/**
 * Lower-case hexadecimal encoding of a byte buffer (`buffer.toString('hex')`)
 * and the multipart boundary built from 14 random bytes.
 */
module Hex {
  import opened Wrappers

  newtype byte = x: int | 0 <= x < 256

  /** Number of random bytes drawn for a boundary. */
  const RANDOM_BYTES: nat := 14
  const BOUNDARY_PREFIX: string := "nm_"
  const HEX_DIGITS: string := "0123456789abcdef"

  predicate IsHexDigit(c: char)
  {
    '0' <= c <= '9' || 'a' <= c <= 'f'
  }

  function HexDigit(n: int): (c: char)
    requires 0 <= n < 16
    ensures IsHexDigit(c)
    ensures n < 10 ==> c as int == '0' as int + n
    ensures 10 <= n ==> c as int == 'a' as int + n - 10
  {
    HEX_DIGITS[n]
  }

  /** Value of one lower-case hexadecimal digit. */
  function DigitValue(c: char): (n: int)
    requires IsHexDigit(c)
    ensures 0 <= n < 16 && HexDigit(n) == c
  {
    if c <= '9' then c as int - '0' as int else c as int - 'a' as int + 10
  }

  /** `Buffer.from(bytes).toString('hex')`: two digits per byte, high nibble first. */
  function Encode(bytes: seq<byte>): (s: string)
    ensures |s| == 2 * |bytes|
    ensures forall i :: 0 <= i < |s| ==> IsHexDigit(s[i])
  {
    if |bytes| == 0 then ""
    else [HexDigit(bytes[0] as int / 16), HexDigit(bytes[0] as int % 16)] + Encode(bytes[1..])
  }

  /** Reads a lower-case hexadecimal string back into bytes. */
  function Decode(s: string): Option<seq<byte>>
    decreases |s|
  {
    if |s| == 0 then Some([])
    else if |s| < 2 || !IsHexDigit(s[0]) || !IsHexDigit(s[1]) then None
    else
      match Decode(s[2..])
      case None => None
      case Some(rest) => Some([(16 * DigitValue(s[0]) + DigitValue(s[1])) as byte] + rest)
  }

  /** Decoding inverts encoding. */
  lemma {:induction false} DecodeEncode(bytes: seq<byte>)
    ensures Decode(Encode(bytes)) == Some(bytes)
  {
    if |bytes| > 0 {
      var s := Encode(bytes);
      assert s[2..] == Encode(bytes[1..]);
      DecodeEncode(bytes[1..]);
      var b := bytes[0] as int;
      assert DigitValue(s[0]) == b / 16 && DigitValue(s[1]) == b % 16;
      assert [bytes[0]] + bytes[1..] == bytes;
    }
  }

  /** `'nm_' + crypto.randomBytes(14).toString('hex')`, with the random bytes
      supplied by the caller. */
  function Boundary(random: seq<byte>): (b: string)
    ensures |b| == |BOUNDARY_PREFIX| + 2 * |random|
    ensures b[..|BOUNDARY_PREFIX|] == BOUNDARY_PREFIX
    ensures forall i :: |BOUNDARY_PREFIX| <= i < |b| ==> IsHexDigit(b[i])
  {
    BOUNDARY_PREFIX + Encode(random)
  }

  /** Recovers the random bytes from a boundary. */
  function BoundaryBytes(b: string): Option<seq<byte>>
  {
    if |b| < |BOUNDARY_PREFIX| || b[..|BOUNDARY_PREFIX|] != BOUNDARY_PREFIX then None
    else Decode(b[|BOUNDARY_PREFIX|..])
  }

  /** The boundary is determined by, and determines, its random bytes: it is
      31 characters long for the 14 bytes drawn, and distinct random draws
      give distinct boundaries. */
  lemma BoundaryRoundTrip(random: seq<byte>)
    requires |random| == RANDOM_BYTES
    ensures |Boundary(random)| == 31
    ensures BoundaryBytes(Boundary(random)) == Some(random)
  {
    var b := Boundary(random);
    assert b[|BOUNDARY_PREFIX|..] == Encode(random);
    DecodeEncode(random);
  }

  lemma BoundaryInjective(r1: seq<byte>, r2: seq<byte>)
    requires Boundary(r1) == Boundary(r2)
    ensures r1 == r2
  {
    var b := Boundary(r1);
    assert b[|BOUNDARY_PREFIX|..] == Encode(r1) == Encode(r2);
    DecodeEncode(r1);
    DecodeEncode(r2);
  }
}
