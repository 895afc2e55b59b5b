/**
 * 256-bit hashes (uint256). A hash is modelled as the natural number that its
 * 32 stored bytes spell when read from the first stored byte to the last, so
 * that `<` on the model is uint256's byte-wise comparison, the order of every
 * std::map and database key built from a hash. GetHex prints the stored bytes
 * from the last to the first, two lower-case hex digits each; SetHex reads
 * them back. UintToArith256 reads the same bytes as a little-endian number.
 */
module Hash256 {

  type Byte = x: int | 0 <= x < 256

  const HASH_BYTES: nat := 32

  function Pow256(n: nat): (p: nat)
    ensures p >= 1
  {
    if n == 0 then 1 else 256 * Pow256(n - 1)
  }

  /** Hashes are the numbers below 2^256. */
  predicate IsHash(k: nat) { k < Pow256(HASH_BYTES) }

  /** The n least significant bytes of k, least significant first. */
  function LeBytes(k: nat, n: nat): (bs: seq<Byte>)
    ensures |bs| == n
  {
    if n == 0 then [] else [k % 256] + LeBytes(k / 256, n - 1)
  }

  /** The number a byte string spells with its first byte least significant. */
  function FromLe(bs: seq<Byte>): nat
  {
    if bs == [] then 0 else bs[0] + 256 * FromLe(bs[1..])
  }

  /** The number a byte string spells with its first byte most significant. */
  function FromBe(bs: seq<Byte>): nat
  {
    if bs == [] then 0 else FromBe(bs[..|bs| - 1]) * 256 + bs[|bs| - 1]
  }

  lemma {:induction false} FromLeLeBytes(k: nat, n: nat)
    requires k < Pow256(n)
    ensures FromLe(LeBytes(k, n)) == k
  {
    if n > 0 {
      assert k / 256 < Pow256(n - 1);
      FromLeLeBytes(k / 256, n - 1);
      assert LeBytes(k, n)[1..] == LeBytes(k / 256, n - 1);
    }
  }

  /** UintToArith256: the stored bytes read as a little-endian number. */
  function Arith(k: nat): nat
  {
    FromBe(LeBytes(k, HASH_BYTES))
  }

  predicate IsHexDigit(c: char)
  {
    ('0' <= c <= '9') || ('a' <= c <= 'f') || ('A' <= c <= 'F')
  }

  function HexDigitValue(c: char): (d: nat)
    requires IsHexDigit(c)
    ensures d < 16
  {
    if '0' <= c <= '9' then c as int - '0' as int
    else if 'a' <= c <= 'f' then c as int - 'a' as int + 10
    else c as int - 'A' as int + 10
  }

  function HexChar(d: nat): (c: char)
    requires d < 16
    ensures IsHexDigit(c) && HexDigitValue(c) == d
    ensures !('A' <= c <= 'F')
  {
    if d < 10 then ('0' as int + d) as char else ('a' as int + d - 10) as char
  }

  predicate AllHexDigits(s: string)
  {
    forall i :: 0 <= i < |s| ==> IsHexDigit(s[i])
  }

  /** IsHex: a non-empty, even-length string of hex digits of either case. */
  predicate IsHex(s: string)
  {
    |s| > 0 && |s| % 2 == 0 && AllHexDigits(s)
  }

  /**
   * SetHex applied to 2n hex digits: the first pair of digits is the last
   * stored byte, so in this model it is the least significant byte.
   */
  function FromHex(h: string): nat
    requires |h| % 2 == 0 && AllHexDigits(h)
  {
    if h == [] then 0
    else HexDigitValue(h[0]) * 16 + HexDigitValue(h[1]) + 256 * FromHex(h[2..])
  }

  /** The two lower-case hex digits of one byte. */
  function HexByte(b: Byte): string
  {
    [HexChar(b / 16), HexChar(b % 16)]
  }

  /** GetHex for a value of n bytes. */
  function GetHexN(k: nat, n: nat): (h: string)
    ensures |h| == 2 * n && AllHexDigits(h)
    ensures forall i :: 0 <= i < |h| ==> !('A' <= h[i] <= 'F')
  {
    if n == 0 then [] else HexByte(k % 256) + GetHexN(k / 256, n - 1)
  }

  /** uint256::GetHex: 64 lower-case hex digits. */
  function GetHex(k: nat): (h: string)
    ensures |h| == 64 && IsHex(h)
  {
    GetHexN(k, HASH_BYTES)
  }

  lemma {:induction false} FromHexGetHexN(k: nat, n: nat)
    requires k < Pow256(n)
    ensures FromHex(GetHexN(k, n)) == k
  {
    if n > 0 {
      var low, high := k % 256, k / 256;
      assert k == low + 256 * high;
      assert high < Pow256(n - 1) by {
        assert k < 256 * Pow256(n - 1);
      }
      FromHexGetHexN(high, n - 1);
      FromHexCons(low, GetHexN(high, n - 1));
      assert GetHexN(k, n) == HexByte(low) + GetHexN(high, n - 1);
    }
  }

  /** SetHex reads the first two digits as the least significant byte. */
  lemma FromHexCons(b: Byte, rest: string)
    requires |rest| % 2 == 0 && AllHexDigits(rest)
    ensures AllHexDigits(HexByte(b) + rest)
    ensures FromHex(HexByte(b) + rest) == b + 256 * FromHex(rest)
  {
    var h := HexByte(b) + rest;
    assert h[2..] == rest;
    assert h[0] == HexChar(b / 16) && h[1] == HexChar(b % 16);
  }

  /** SetHex inverts GetHex on every hash. */
  lemma FromHexGetHex(k: nat)
    requires IsHash(k)
    ensures FromHex(GetHex(k)) == k
  {
    FromHexGetHexN(k, HASH_BYTES);
  }

  lemma {:induction false} FromHexBound(h: string)
    requires |h| % 2 == 0 && AllHexDigits(h)
    ensures FromHex(h) < Pow256(|h| / 2)
  {
    if h != [] {
      FromHexBound(h[2..]);
    }
  }
}
