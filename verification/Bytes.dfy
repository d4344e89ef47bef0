/**
 * Bytes and the unsigned little-endian words of the binary formats. A word is written out byte by byte,
 * as `struct.pack` does, and both round trips are proved: from numbers through bytes, and from any bytes of
 * the right length through numbers. The second one is what makes a parser accept nothing but the encodings
 * it would write itself.
 */
module Bytes {

  type byte = b: int | 0 <= b < 256

  const WORD: int := 0x1_0000_0000

  /** `struct.pack('<I', n)`. */
  function U32(n: int): (s: seq<byte>)
    requires 0 <= n < WORD
    ensures |s| == 4
  {
    [n % 256, n / 256 % 256, n / 65536 % 256, n / 16777216]
  }

  /** `struct.unpack('<I', s)`. */
  function FromU32(s: seq<byte>): (n: int)
    requires |s| == 4
    ensures 0 <= n < WORD
  {
    s[0] as int + 256 * s[1] as int + 65536 * s[2] as int + 16777216 * s[3] as int
  }

  lemma WordRoundTrip(n: int)
    requires 0 <= n < WORD
    ensures FromU32(U32(n)) == n
  {
    assert n / 65536 == n / 256 / 256;
    assert n / 16777216 == n / 65536 / 256;
    assert n == 256 * (n / 256) + n % 256;
    assert n / 256 == 256 * (n / 65536) + n / 256 % 256;
    assert n / 65536 == 256 * (n / 16777216) + n / 65536 % 256;
  }

  lemma WordBytes(s: seq<byte>)
    requires |s| == 4
    ensures U32(FromU32(s)) == s
  {
    var n := FromU32(s);
    assert n / 16777216 == s[3];
    assert n / 65536 == s[2] as int + 256 * s[3] as int;
    assert n / 256 == s[1] as int + 256 * s[2] as int + 65536 * s[3] as int;
  }

  /** `struct.pack('<Q', n)`. */
  function U64(n: int): (s: seq<byte>)
    requires 0 <= n < WORD * WORD
    ensures |s| == 8
  {
    U32(n % WORD) + U32(n / WORD)
  }

  /** `struct.unpack('<Q', s)`. */
  function FromU64(s: seq<byte>): (n: int)
    requires |s| == 8
    ensures 0 <= n < WORD * WORD
  {
    FromU32(s[..4]) + WORD * FromU32(s[4..])
  }

  lemma LongRoundTrip(n: int)
    requires 0 <= n < WORD * WORD
    ensures FromU64(U64(n)) == n
  {
    WordRoundTrip(n % WORD);
    WordRoundTrip(n / WORD);
  }

  lemma LongBytes(s: seq<byte>)
    requires |s| == 8
    ensures U64(FromU64(s)) == s
  {
    var low, high := FromU32(s[..4]), FromU32(s[4..]);
    assert (low + WORD * high) % WORD == low && (low + WORD * high) / WORD == high;
    WordBytes(s[..4]);
    WordBytes(s[4..]);
    assert s == s[..4] + s[4..];
  }
}
