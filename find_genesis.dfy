/**
 * The byte encoders of the genesis-block finder: CScriptNum, script pushes,
 * CompactSize, the compact difficulty target, the coinbase transaction, the
 * --net argument grammar and the nonce/time search of the miner.
 *
 * Python raises on bad input; here the raising operations return a Result
 * whose error says which exception it was. SHA-256 is not modelled: the
 * miner takes the header hash as a function of (time, nonce).
 */
module GenesisTool {
  import opened Wrappers
  import opened Hash256
  import opened Strings

  /** The Python exceptions the tool can raise on its inputs. */
  datatype PyError = ValueError | StructError

  const OP_PUSHDATA1: Byte := 0x4C
  const OP_PUSHDATA2: Byte := 0x4D
  const OP_PUSHDATA4: Byte := 0x4E
  const OP_CHECKSIG: Byte := 0xAC

  const UINT32_LIMIT: nat := 0x1_0000_0000
  const UINT64_LIMIT: nat := 0x1_0000_0000_0000_0000

  /** struct.pack with "<H", "<I" or "<Q": n little-endian bytes, or struct.error. */
  function Pack(v: int, n: nat): (r: Result<seq<Byte>, PyError>)
    ensures r.Success? ==> |r.value| == n && FromLe(r.value) == v
    ensures r.Success? <==> 0 <= v < Pow256(n)
  {
    if 0 <= v < Pow256(n) then
      FromLeLeBytes(v, n);
      Success(LeBytes(v, n))
    else Failure(StructError)
  }

  lemma PowValues()
    ensures Pow256(2) == 0x1_0000 && Pow256(4) == UINT32_LIMIT && Pow256(8) == UINT64_LIMIT
  {
    assert Pow256(1) == 256;
    assert Pow256(2) == 0x1_0000;
    assert Pow256(3) == 0x100_0000;
    assert Pow256(4) == UINT32_LIMIT;
    assert Pow256(6) == 0x1_0000_0000_0000;
    assert Pow256(8) == UINT64_LIMIT;
  }

  // ---------------------------------------------------------------------
  // encode_script_num
  // ---------------------------------------------------------------------

  function Abs(v: int): nat { if v < 0 then -v else v }

  /** The little-endian bytes of m without trailing zero bytes; empty for zero. */
  function MagnitudeBytes(m: nat): (bs: seq<Byte>)
    ensures m == 0 <==> bs == []
    ensures bs != [] ==> bs[|bs| - 1] != 0
  {
    if m == 0 then [] else [m % 256] + MagnitudeBytes(m / 256)
  }

  lemma {:induction false} MagnitudeValue(m: nat)
    ensures FromLe(MagnitudeBytes(m)) == m
  {
    if m > 0 {
      MagnitudeValue(m / 256);
    }
  }

  /**
   * The minimal CScriptNum encoding of v: the magnitude's bytes with the sign
   * in the top bit of the last byte, one more byte when that bit is taken.
   */
  function ScriptNum(v: int): (bs: seq<Byte>)
    ensures v == 0 <==> bs == []
    ensures v != 0 ==> (bs[|bs| - 1] >= 0x80 <==> v < 0)
    ensures |bs| == |MagnitudeBytes(Abs(v))| + (if v != 0 && MagnitudeBytes(Abs(v))[|MagnitudeBytes(Abs(v))| - 1] >= 0x80 then 1 else 0)
  {
    if v == 0 then []
    else
      var mag := MagnitudeBytes(Abs(v));
      var top := mag[|mag| - 1];
      if top >= 0x80 then mag + [if v < 0 then 0x80 else 0x00]
      else if v < 0 then mag[..|mag| - 1] + [top + 0x80]
      else mag
  }

  /** CScriptNum's reading of a byte vector: sign-magnitude, little-endian. */
  function DecodeScriptNum(bs: seq<Byte>): int
  {
    if bs == [] then 0
    else
      var last := bs[|bs| - 1];
      var magnitude := FromLe(bs[..|bs| - 1] + [last % 0x80]);
      if last >= 0x80 then -(magnitude as int) else magnitude
  }

  /** CScriptNum's minimal-encoding rule. */
  predicate IsMinimalScriptNum(bs: seq<Byte>)
  {
    bs == [] || bs[|bs| - 1] % 0x80 != 0 || (|bs| >= 2 && bs[|bs| - 2] >= 0x80)
  }

  lemma {:induction false} FromLeAppendZero(s: seq<Byte>)
    ensures FromLe(s + [0]) == FromLe(s)
  {
    if s == [] {
      assert FromLe([0]) == 0 + 256 * FromLe([]);
    } else {
      assert (s + [0])[1..] == s[1..] + [0];
      FromLeAppendZero(s[1..]);
    }
  }

  /** Every integer is read back from its encoding, and the encoding is minimal. */
  lemma ScriptNumRoundTrip(v: int)
    ensures DecodeScriptNum(ScriptNum(v)) == v
    ensures IsMinimalScriptNum(ScriptNum(v))
  {
    if v != 0 {
      var mag := MagnitudeBytes(Abs(v));
      var top := mag[|mag| - 1];
      var bs := ScriptNum(v);
      MagnitudeValue(Abs(v));
      if top >= 0x80 {
        assert bs[..|bs| - 1] == mag;
        FromLeAppendZero(mag);
      } else if v < 0 {
        assert bs[..|bs| - 1] + [bs[|bs| - 1] % 0x80] == mag;
      } else {
        assert bs[..|bs| - 1] + [bs[|bs| - 1] % 0x80] == mag;
      }
    }
  }

  /** The two numbers the genesis scriptSig pushes. */
  lemma GenesisScriptNums()
    ensures ScriptNum(486604799) == [0xFF, 0xFF, 0x00, 0x1D]
    ensures ScriptNum(4) == [0x04]
  {
    assert MagnitudeBytes(486604799) == [0xFF, 0xFF, 0x00, 0x1D] by {
      assert MagnitudeBytes(0x1D) == [0x1D];
      assert MagnitudeBytes(0x1D00) == [0x00, 0x1D];
      assert MagnitudeBytes(0x1D00FF) == [0xFF, 0x00, 0x1D];
    }
    assert MagnitudeBytes(4) == [4];
  }

  /** encode_script_num: the loop peels the magnitude one low byte at a time. */
  method EncodeScriptNum(value: int) returns (out: seq<Byte>)
    ensures out == ScriptNum(value)
  {
    if value == 0 {
      return [];
    }
    var negative := value < 0;
    var v: nat := Abs(value);
    ghost var magnitude := MagnitudeBytes(v);
    out := [];
    while v != 0
      invariant out + MagnitudeBytes(v) == magnitude
      decreases v
    {
      ghost var rest := MagnitudeBytes(v / 256);
      assert MagnitudeBytes(v) == [v % 256] + rest;
      assert out + [v % 256] + rest == out + ([v % 256] + rest);
      out := out + [v % 256];
      v := v / 256;
    }
    assert out == magnitude;
    var top := out[|out| - 1];
    if top >= 0x80 {
      out := out + [if negative then 0x80 else 0x00];
    } else if negative {
      out := out[..|out| - 1] + [top + 0x80];
    }
  }

  // ---------------------------------------------------------------------
  // push_data
  // ---------------------------------------------------------------------

  /** The bytes push_data puts before the payload. */
  function PushHeaderSize(size: nat): nat
  {
    if size < 0x4C then 1 else if size <= 0xFF then 2 else if size <= 0xFFFF then 3 else 5
  }

  /** push_data: the shortest of the four push forms that holds the payload's size. */
  function PushData(payload: seq<Byte>): (r: Result<seq<Byte>, PyError>)
    ensures r.Success? <==> |payload| < UINT32_LIMIT
    ensures r.Success? ==> |r.value| == PushHeaderSize(|payload|) + |payload|
    ensures r.Success? ==> r.value[PushHeaderSize(|payload|)..] == payload
  {
    PowValues();
    var size := |payload|;
    if size < 0x4C then Success([size as Byte] + payload)
    else if size <= 0xFF then Success([OP_PUSHDATA1, size as Byte] + payload)
    else if size <= 0xFFFF then Success([OP_PUSHDATA2] + Pack(size, 2).value + payload)
    else
      match Pack(size, 4)
      case Success(n) => Success([OP_PUSHDATA4] + n + payload)
      case Failure(e) => Failure(e)
  }

  /**
   * CScript::GetOp on a push opcode: the data it pushes and the rest of the
   * script; None when the first opcode is not a push or the script ends early.
   */
  function ReadPush(s: seq<Byte>): Option<(seq<Byte>, seq<Byte>)>
  {
    if s == [] then None
    else
      var op := s[0];
      var header := if op < 0x4C then 1 else if op == OP_PUSHDATA1 then 2 else if op == OP_PUSHDATA2 then 3 else 5;
      if op > OP_PUSHDATA4 || |s| < header then None
      else
        var size := if op < 0x4C then op else FromLe(s[1..header]);
        if |s| < header + size then None
        else Some((s[header..header + size], s[header + size..]))
  }

  /** A script reader reads back what push_data wrote, and what follows it. */
  lemma ReadPushData(payload: seq<Byte>, rest: seq<Byte>)
    requires PushData(payload).Success?
    ensures ReadPush(PushData(payload).value + rest) == Some((payload, rest))
  {
    PowValues();
    var size := |payload|;
    var s := PushData(payload).value + rest;
    if size < 0x4C {
    } else if size <= 0xFF {
      assert s[1..2] == [size as Byte];
      assert FromLe([size as Byte]) == size + 256 * FromLe([]);
    } else if size <= 0xFFFF {
      assert s[1..3] == Pack(size, 2).value;
    } else {
      assert s[1..5] == Pack(size, 4).value;
    }
    assert s[PushHeaderSize(size)..PushHeaderSize(size) + size] == payload;
    assert s[PushHeaderSize(size) + size..] == rest;
  }

  // ---------------------------------------------------------------------
  // encode_varint (CompactSize)
  // ---------------------------------------------------------------------

  /** encode_varint; bytes([v]) rejects negative values, struct.pack values of 2^64 and more. */
  function EncodeVarint(v: int): (r: Result<seq<Byte>, PyError>)
    ensures v < 0 ==> r == Failure(ValueError)
    ensures v >= UINT64_LIMIT ==> r == Failure(StructError)
    ensures 0 <= v < UINT64_LIMIT ==> r.Success?
    ensures r.Success? ==> |r.value| == (if v < 0xFD then 1 else if v <= 0xFFFF then 3 else if v <= 0xFFFF_FFFF then 5 else 9)
  {
    PowValues();
    if v < 0xFD then (if v < 0 then Failure(ValueError) else Success([v as Byte]))
    else if v <= 0xFFFF then Success([0xFD] + Pack(v, 2).value)
    else if v <= 0xFFFF_FFFF then Success([0xFE] + Pack(v, 4).value)
    else
      match Pack(v, 8)
      case Success(b) => Success([0xFF] + b)
      case Failure(e) => Failure(e)
  }

  /**
   * ReadCompactSize: the value and the rest of the input, refusing a value
   * written in a longer form than it needs.
   */
  function DecodeVarint(s: seq<Byte>): Option<(nat, seq<Byte>)>
  {
    if s == [] then None
    else if s[0] < 0xFD then Some((s[0], s[1..]))
    else
      var width := if s[0] == 0xFD then 2 else if s[0] == 0xFE then 4 else 8;
      var least := if s[0] == 0xFD then 0xFD else if s[0] == 0xFE then 0x1_0000 else 0x1_0000_0000;
      if |s| < 1 + width then None
      else
        var v := FromLe(s[1..1 + width]);
        if v < least then None else Some((v, s[1 + width..]))
  }

  lemma DecodeEncodeVarint(v: int, rest: seq<Byte>)
    requires 0 <= v < UINT64_LIMIT
    ensures DecodeVarint(EncodeVarint(v).value + rest) == Some((v, rest))
  {
    PowValues();
    var s := EncodeVarint(v).value + rest;
    if v >= 0xFD {
      var width := if v <= 0xFFFF then 2 else if v <= 0xFFFF_FFFF then 4 else 8;
      assert s[1..1 + width] == Pack(v, width).value;
      assert s[1 + width..] == rest;
    }
  }

  // ---------------------------------------------------------------------
  // bits_to_target
  // ---------------------------------------------------------------------

  function Pow2(n: nat): (p: nat)
    ensures p >= 1
  {
    if n == 0 then 1 else 2 * Pow2(n - 1)
  }

  lemma {:induction false} Pow2Bytes(k: nat)
    ensures Pow2(8 * k) == Pow256(k)
  {
    if k > 0 {
      Pow2Bytes(k - 1);
      assert Pow2(8 * k) == 256 * Pow2(8 * (k - 1)) by {
        var n := 8 * (k - 1);
        assert Pow2(n + 8) == 2 * Pow2(n + 7) == 4 * Pow2(n + 6) == 8 * Pow2(n + 5) == 16 * Pow2(n + 4);
        assert Pow2(n + 4) == 2 * Pow2(n + 3) == 4 * Pow2(n + 2) == 8 * Pow2(n + 1) == 16 * Pow2(n);
      }
    }
  }

  /**
   * bits_to_target: exponent bits >> 24 (floor), mantissa bits & 0xFFFFFF,
   * mantissa << 8 * (exponent - 3); Python refuses the negative shift of an
   * exponent below 3.
   */
  function BitsToTarget(bits: int): (r: Result<nat, PyError>)
    ensures r.Failure? <==> bits / 0x100_0000 < 3
    ensures r.Failure? ==> r.error == ValueError
  {
    var exponent := bits / 0x100_0000;
    var mantissa := bits % 0x100_0000;
    if exponent < 3 then Failure(ValueError) else Success(mantissa * Pow2(8 * (exponent - 3)))
  }

  /** The target is the 3-byte mantissa placed in the top bytes of an exponent-byte number. */
  lemma BitsToTargetMeaning(bits: int)
    requires BitsToTarget(bits).Success?
    ensures BitsToTarget(bits).value == (bits % 0x100_0000) * Pow256(bits / 0x100_0000 - 3)
    ensures BitsToTarget(bits).value < Pow256(bits / 0x100_0000)
  {
    var e := bits / 0x100_0000;
    var low := Pow256(e - 3);
    Pow2Bytes(e - 3);
    assert Pow256(e) == 0x100_0000 * low by {
      assert Pow256(e) == 256 * Pow256(e - 1);
      assert Pow256(e - 1) == 256 * Pow256(e - 2);
      assert Pow256(e - 2) == 256 * low;
    }
    assert 0x100_0000 * low - (bits % 0x100_0000) * low == (0x100_0000 - bits % 0x100_0000) * low;
  }

  // ---------------------------------------------------------------------
  // parse_network_args
  // ---------------------------------------------------------------------

  /** One --net value: name:time:bits[:nonce]. */
  datatype NetworkSpec = NetworkSpec(name: string, startTime: int, bits: int, startNonce: int)

  predicate IsDigitOf(c: char, base: nat)
  {
    IsHexDigit(c) && HexDigitValue(c) < base
  }

  /** The value of a non-empty string of base-`base` digits, most significant first. */
  function DigitsValue(s: string, base: nat): nat
    requires forall i :: 0 <= i < |s| ==> IsDigitOf(s[i], base)
  {
    if s == [] then 0
    else
      var init := s[..|s| - 1];
      assert forall i :: 0 <= i < |init| ==> init[i] == s[i];
      assert IsDigitOf(s[|s| - 1], base);
      var last := HexDigitValue(s[|s| - 1]);
      var high := DigitsValue(init, base);
      assert high * base >= 0 by { MulNonNegative(high, base); }
      high * base + last
  }

  lemma MulNonNegative(a: nat, b: nat)
    ensures a * b >= 0
  {
  }

  /**
   * Digits of the base with single '_' separators between them, as Python's
   * integer literals allow: it starts and ends with a digit, and every '_'
   * is followed by a digit.
   */
  predicate IsGroupedDigits(s: string, base: nat)
  {
    && |s| > 0 && IsDigitOf(s[0], base) && IsDigitOf(s[|s| - 1], base)
    && (forall i :: 0 <= i < |s| ==> IsDigitOf(s[i], base) || s[i] == '_')
    && (forall i :: 0 <= i < |s| - 1 && s[i] == '_' ==> IsDigitOf(s[i + 1], base))
  }

  /** The digits with the '_' separators removed. */
  function DropUnderscores(s: string, base: nat): (r: string)
    requires forall i :: 0 <= i < |s| ==> IsDigitOf(s[i], base) || s[i] == '_'
    ensures forall i :: 0 <= i < |r| ==> IsDigitOf(r[i], base)
  {
    if s == [] then []
    else
      assert forall i :: 0 <= i < |s| - 1 ==> s[1..][i] == s[i + 1];
      (if s[0] == '_' then [] else [s[0]]) + DropUnderscores(s[1..], base)
  }

  function ParseDigits(s: string, base: nat): Option<nat>
  {
    if IsGroupedDigits(s, base) then Some(DigitsValue(DropUnderscores(s, base), base)) else None
  }

  /** The digits after a 0x/0o/0b prefix, which may begin with one '_'. */
  function ParsePrefixed(s: string, base: nat): Option<nat>
  {
    if |s| > 0 && s[0] == '_' then ParseDigits(s[1..], base) else ParseDigits(s, base)
  }

  predicate AllZeros(s: string)
  {
    forall i :: 0 <= i < |s| ==> s[i] == '0'
  }

  /**
   * int(s, 0) without a sign: 0x/0o/0b prefixed digits, or a decimal literal
   * that is all zeros or has no leading zero; '_' may separate digits.
   */
  function ParseUnsignedBase0(s: string): Option<nat>
  {
    if |s| >= 2 && s[0] == '0' && (s[1] == 'x' || s[1] == 'X') then ParsePrefixed(s[2..], 16)
    else if |s| >= 2 && s[0] == '0' && (s[1] == 'o' || s[1] == 'O') then ParsePrefixed(s[2..], 8)
    else if |s| >= 2 && s[0] == '0' && (s[1] == 'b' || s[1] == 'B') then ParsePrefixed(s[2..], 2)
    else if IsGroupedDigits(s, 10) && (s[0] != '0' || AllZeros(DropUnderscores(s, 10))) then
      Some(DigitsValue(DropUnderscores(s, 10), 10))
    else None
  }

  /**
   * The characters int() ignores at either end of its argument: ASCII tab to
   * carriage return (0x09-0x0D) and space, and the Unicode whitespace above
   * ASCII. The ASCII separators 0x1C-0x1F, which str.isspace() also accepts,
   * are not among them: int() rejects a number they surround.
   */
  predicate IsPySpace(c: char)
  {
    var k := c as int;
    || k == 0x20 || 0x09 <= k <= 0x0D || k == 0x85 || k == 0xA0 || k == 0x1680
    || 0x2000 <= k <= 0x200A || k == 0x2028 || k == 0x2029 || k == 0x202F || k == 0x205F || k == 0x3000
  }

  /** s without its leading and trailing whitespace. */
  function Strip(s: string): (r: string)
    ensures |r| > 0 ==> !IsPySpace(r[0]) && !IsPySpace(r[|r| - 1])
    decreases |s|
  {
    if |s| > 0 && IsPySpace(s[0]) then Strip(s[1..])
    else if |s| > 0 && IsPySpace(s[|s| - 1]) then Strip(s[..|s| - 1])
    else s
  }

  /** int(s, 0) after the whitespace is stripped: an optional sign, then the literal. */
  function ParseSignedBase0(s: string): (r: Option<int>)
    ensures r.Some? ==> |s| > 0
    ensures r.Some? && s[0] == '-' ==> r.value <= 0
    ensures r.Some? && s[0] != '-' ==> r.value >= 0
  {
    if |s| >= 1 && (s[0] == '+' || s[0] == '-') then
      match ParseUnsignedBase0(s[1..])
      case Some(m) => Some(if s[0] == '-' then -(m as int) else m)
      case None => None
    else
      ParseUnsignedBase0(s)
  }

  /** int(s, 0): whitespace stripped, an optional sign; None where Python raises ValueError, except for its limit on the number of decimal digits. */
  function ParseIntBase0(str: string): (r: Option<int>)
    ensures r.Some? ==> |Strip(str)| > 0
    ensures r.Some? && Strip(str)[0] == '-' ==> r.value <= 0
    ensures r.Some? && Strip(str)[0] != '-' ==> r.value >= 0
  {
    ParseSignedBase0(Strip(str))
  }

  function ParseNetworkSpec(item: string): (r: Result<NetworkSpec, PyError>)
    ensures |Split(item, ':')| < 3 ==> r == Failure(ValueError)
    ensures r.Failure? ==> r.error == ValueError
    ensures r.Success? && |Split(item, ':')| == 3 ==> r.value.startNonce == 0
    ensures r.Success? ==> r.value.name == Split(item, ':')[0]
    ensures var parts := Split(item, ':');
      r.Success? <==>
        && |parts| >= 3 && ParseIntBase0(parts[1]).Some? && ParseIntBase0(parts[2]).Some?
        && (|parts| > 3 ==> ParseIntBase0(parts[3]).Some?)
    ensures var parts := Split(item, ':');
      r.Success? ==>
        && Some(r.value.startTime) == ParseIntBase0(parts[1])
        && Some(r.value.bits) == ParseIntBase0(parts[2])
        && (|parts| > 3 ==> Some(r.value.startNonce) == ParseIntBase0(parts[3]))
  {
    var parts := Split(item, ':');
    if |parts| < 3 then Failure(ValueError)
    else
      match (ParseIntBase0(parts[1]), ParseIntBase0(parts[2]))
      case (Some(time), Some(bits)) =>
        if |parts| > 3 then
          match ParseIntBase0(parts[3])
          case Some(nonce) => Success(NetworkSpec(parts[0], time, bits, nonce))
          case None => Failure(ValueError)
        else Success(NetworkSpec(parts[0], time, bits, 0))
      case _ => Failure(ValueError)
  }

  /** A generator of parse results consumed to the end: every item parsed, or the first error. */
  function ParseEach<T>(values: seq<string>, parse: string -> Result<T, PyError>): (r: Result<seq<T>, PyError>)
    ensures r.Success? ==> |r.value| == |values|
    ensures r.Success? ==> forall i :: 0 <= i < |values| ==> parse(values[i]) == Success(r.value[i])
    ensures r.Failure? <==> exists i :: 0 <= i < |values| && parse(values[i]).Failure?
  {
    if values == [] then Success([])
    else
      var head := parse(values[0]);
      var tail := ParseEach(values[1..], parse);
      assert forall i :: 1 <= i < |values| ==> values[i] == values[1..][i - 1];
      if head.Failure? then Failure(head.error)
      else if tail.Failure? then
        ghost var i :| 0 <= i < |values[1..]| && parse(values[1..][i]).Failure?;
        assert parse(values[i + 1]).Failure?;
        Failure(tail.error)
      else
        Success([head.value] + tail.value)
  }

  /** parse_network_args, consumed to the end: every item parsed, or the first error. */
  function ParseNetworkArgs(values: seq<string>): (r: Result<seq<NetworkSpec>, PyError>)
    ensures r.Success? ==> |r.value| == |values|
    ensures r.Success? ==> forall i :: 0 <= i < |values| ==> ParseNetworkSpec(values[i]) == Success(r.value[i])
    ensures r.Failure? <==> exists i :: 0 <= i < |values| && ParseNetworkSpec(values[i]).Failure?
  {
    ParseEach(values, ParseNetworkSpec)
  }

  /** "name:time:bits:nonce" with the numbers in decimal. */
  function FormatNetworkSpec(spec: NetworkSpec): string
    requires spec.startTime >= 0 && spec.bits >= 0 && spec.startNonce >= 0
  {
    Join([spec.name, NatToDecimal(spec.startTime), NatToDecimal(spec.bits), NatToDecimal(spec.startNonce)], ':')
  }

  /** A spec with a ':'-free name and non-negative numbers is read back from its text. */
  lemma ParseFormatNetworkSpec(spec: NetworkSpec)
    requires ':' !in spec.name
    requires spec.startTime >= 0 && spec.bits >= 0 && spec.startNonce >= 0
    ensures ParseNetworkSpec(FormatNetworkSpec(spec)) == Success(spec)
  {
    var parts := [spec.name, NatToDecimal(spec.startTime), NatToDecimal(spec.bits), NatToDecimal(spec.startNonce)];
    forall i | 0 <= i < |parts|
      ensures ':' !in parts[i]
    {
      if i > 0 {
        assert AllDigits(parts[i]);
      }
    }
    SplitJoin(parts, ':');
    ParseDecimalBase0(spec.startTime);
    ParseDecimalBase0(spec.bits);
    ParseDecimalBase0(spec.startNonce);
  }

  /** A string of ASCII digits is read by DigitsValue as by DecimalValue. */
  lemma {:induction false} DecimalDigitsValue(s: string)
    requires AllDigits(s)
    ensures forall i :: 0 <= i < |s| ==> IsDigitOf(s[i], 10)
    ensures DigitsValue(s, 10) == DecimalValue(s)
  {
    if s != [] {
      var init := s[..|s| - 1];
      assert forall i :: 0 <= i < |init| ==> init[i] == s[i];
      DecimalDigitsValue(init);
    }
  }

  /** Dropping separators from a string with none changes nothing. */
  lemma {:induction false} DropNoUnderscores(s: string)
    requires AllDigits(s)
    requires forall i :: 0 <= i < |s| ==> IsDigitOf(s[i], 10)
    ensures DropUnderscores(s, 10) == s
  {
    if s != [] {
      DropNoUnderscores(s[1..]);
      assert [s[0]] + s[1..] == s;
    }
  }

  /** A decimal rendering is read back by the unsigned literal parser. */
  lemma UnsignedDecimalBase0(n: nat)
    ensures ParseUnsignedBase0(NatToDecimal(n)) == Some(n)
  {
    DecimalRoundTrip(n);
    var s := NatToDecimal(n);
    DecimalDigitsValue(s);
    DropNoUnderscores(s);
    assert IsGroupedDigits(s, 10);
    if |s| == 1 && s[0] == '0' {
      assert AllZeros(s);
    }
  }

  lemma ParseDecimalBase0(n: nat)
    ensures ParseIntBase0(NatToDecimal(n)) == Some(n)
  {
    var s := NatToDecimal(n);
    StripBare(s);
    UnsignedDecimalBase0(n);
  }

  /** A string that neither starts nor ends with whitespace is its own strip. */
  lemma StripBare(t: string)
    requires |t| > 0 && !IsPySpace(t[0]) && !IsPySpace(t[|t| - 1])
    ensures Strip(t) == t
  {
  }

  lemma {:induction false} StripTrailingSpace(t: string, c: char)
    requires IsPySpace(c)
    ensures Strip(t + [c]) == Strip(t)
    decreases |t|
  {
    if t == [] {
      assert (t + [c])[1..] == [];
    } else if IsPySpace(t[0]) {
      assert (t + [c])[1..] == t[1..] + [c];
      StripTrailingSpace(t[1..], c);
    } else {
      assert (t + [c])[..|t|] == t;
    }
  }

  /** A whitespace character before or after the number does not change what int(s, 0) reads. */
  lemma SpaceAroundIgnored(c: char, t: string)
    requires IsPySpace(c)
    ensures ParseIntBase0([c] + t) == ParseIntBase0(t)
    ensures ParseIntBase0(t + [c]) == ParseIntBase0(t)
  {
    assert ([c] + t)[1..] == t;
    StripTrailingSpace(t, c);
  }

  /** int(s, 0) ignores whitespace around the number. */
  lemma ParseIntBase0Spaces()
    ensures ParseIntBase0(" 1") == Some(1)
  {
    SpaceAroundIgnored(' ', "1");
    assert [' '] + "1" == " 1";
    StripBare("1");
    assert ParseUnsignedBase0("1") == Some(1) by {
      assert IsGroupedDigits("1", 10);
      assert DropUnderscores("1", 10) == "1";
    }
  }

  /** An ASCII separator character (0x1C-0x1F) before a number is not stripped, so the number is refused. */
  lemma ParseIntBase0RefusesSeparator(c: char)
    requires 0x1C <= c as int <= 0x1F
    ensures ParseIntBase0([c, '1']) == None
  {
    StripBare([c, '1']);
  }

  /** After the 0x prefix, one '_' may come first and more may separate digits; trailing whitespace is ignored. */
  lemma ParseIntBase0Prefixed()
    ensures ParseIntBase0("0x_1_f\n") == Some(0x1f)
  {
    SpaceAroundIgnored('\n', "0x_1_f");
    assert "0x_1_f" + ['\n'] == "0x_1_f\n";
    StripBare("0x_1_f");
    assert ParseIntBase0("0x_1_f") == ParseUnsignedBase0("0x_1_f");
    assert ParseUnsignedBase0("0x_1_f") == ParsePrefixed("_1_f", 16) by {
      assert "0x_1_f"[2..] == "_1_f";
    }
    assert ParsePrefixed("_1_f", 16) == ParseDigits("1_f", 16) by {
      assert "_1_f"[1..] == "1_f";
    }
    assert IsGroupedDigits("1_f", 16);
    assert DropUnderscores("1_f", 16) == "1f" && DigitsValue("1f", 16) == 0x1f by {
      assert DropUnderscores("f", 16) == "f";
      assert "1f"[..1] == "1" && "1"[..0] == "";
      assert DigitsValue("1", 16) == 1;
    }
  }

  /** A decimal literal may group its digits with '_'. */
  lemma ParseIntBase0Grouped()
    ensures ParseIntBase0("1_000") == Some(1000)
  {
    StripBare("1_000");
    assert IsGroupedDigits("1_000", 10);
    assert DropUnderscores("1_000", 10) == "1000" && DigitsValue("1000", 10) == 1000 by {
      assert DropUnderscores("000", 10) == "000";
      assert "1000"[..3] == "100" && "100"[..2] == "10" && "10"[..1] == "1";
      assert DigitsValue("1", 10) == 1;
      assert DigitsValue("10", 10) == 10;
      assert DigitsValue("100", 10) == 100;
    }
  }

  /** A doubled separator is refused. */
  lemma ParseIntBase0RefusesDoubled()
    ensures ParseIntBase0("1__0") == None
  {
    StripBare("1__0");
    assert !IsGroupedDigits("1__0", 10) by {
      assert "1__0"[1] == '_' && "1__0"[2] == '_';
    }
  }

  /** A trailing separator is refused. */
  lemma ParseIntBase0RefusesTrailing()
    ensures ParseIntBase0("1_") == None
  {
    StripBare("1_");
  }

  /** A leading zero before a non-zero digit is refused, separator or not. */
  lemma ParseIntBase0RefusesLeadingZero()
    ensures ParseIntBase0("0_1") == None
  {
    StripBare("0_1");
    assert IsGroupedDigits("0_1", 10);
    assert DropUnderscores("0_1", 10) == "01" by {
      assert DropUnderscores("1", 10) == "1";
    }
    assert !AllZeros("01") by {
      assert "01"[1] == '1';
    }
  }

  // ---------------------------------------------------------------------
  // mine_genesis
  // ---------------------------------------------------------------------

  /** The (n_time, nonce) pair of one header. */
  datatype Candidate = Candidate(time: int, nonce: int)

  /** The search step: the nonce advances modulo 2^32, the time when the nonce wraps to 0. */
  function Next(c: Candidate): (n: Candidate)
    ensures 0 <= n.nonce < UINT32_LIMIT
    ensures n.time == (if n.nonce == 0 then c.time + 1 else c.time)
    ensures 0 <= c.nonce < UINT32_LIMIT ==> n.nonce == (if c.nonce == UINT32_LIMIT - 1 then 0 else c.nonce + 1)
  {
    var nonce := (c.nonce + 1) % UINT32_LIMIT;
    Candidate(if nonce == 0 then c.time + 1 else c.time, nonce)
  }

  /** The k-th header tried. */
  function Attempt(start: Candidate, k: nat): Candidate
  {
    if k == 0 then start else Next(Attempt(start, k - 1))
  }

  /** The time advances once per 2^32 headers tried from a nonce of 0. */
  lemma {:induction false} AttemptFromZeroNonce(time: int, k: nat)
    ensures Attempt(Candidate(time, 0), k) == Candidate(time + k / UINT32_LIMIT, k % UINT32_LIMIT)
  {
    if k > 0 {
      AttemptFromZeroNonce(time, k - 1);
    }
  }

  /** Every field of the header fits struct.pack("<I"). */
  predicate Packable(c: Candidate, bits: int)
  {
    0 <= c.time < UINT32_LIMIT && 0 <= c.nonce < UINT32_LIMIT && 0 <= bits < UINT32_LIMIT
  }

  /** The attempts before the k-th were all packable and above the target. */
  ghost predicate MissedBefore(spec: NetworkSpec, hash: (int, int) -> nat, target: nat, k: nat)
  {
    forall j :: 0 <= j < k ==>
      Packable(Attempt(Candidate(spec.startTime, spec.startNonce), j), spec.bits)
      && hash(Attempt(Candidate(spec.startTime, spec.startNonce), j).time,
              Attempt(Candidate(spec.startTime, spec.startNonce), j).nonce) > target
  }

  datatype MineOutcome = Found(time: int, nonce: int, hash: nat) | Raised(error: PyError) | GaveUp

  /**
   * mine_genesis, trying at most maxAttempts headers: the first header, in
   * search order, whose hash does not exceed the target.
   */
  method MineGenesis(spec: NetworkSpec, hash: (int, int) -> nat, maxAttempts: nat) returns (out: MineOutcome, attempts: nat)
    ensures BitsToTarget(spec.bits).Failure? ==> out == Raised(ValueError) && attempts == 0
    ensures BitsToTarget(spec.bits).Success? ==> attempts <= maxAttempts && MissedBefore(spec, hash, BitsToTarget(spec.bits).value, attempts)
    ensures out.Found? ==>
      && BitsToTarget(spec.bits).Success?
      && Attempt(Candidate(spec.startTime, spec.startNonce), attempts) == Candidate(out.time, out.nonce)
      && Packable(Candidate(out.time, out.nonce), spec.bits)
      && out.hash == hash(out.time, out.nonce) <= BitsToTarget(spec.bits).value
    ensures out.Raised? && BitsToTarget(spec.bits).Success? ==>
      out.error == StructError && !Packable(Attempt(Candidate(spec.startTime, spec.startNonce), attempts), spec.bits)
    ensures out.GaveUp? ==> attempts == maxAttempts
  {
    var t := BitsToTarget(spec.bits);
    if t.Failure? {
      return Raised(ValueError), 0;
    }
    var target := t.value;
    var c := Candidate(spec.startTime, spec.startNonce);
    attempts := 0;
    while attempts < maxAttempts
      invariant attempts <= maxAttempts
      invariant c == Attempt(Candidate(spec.startTime, spec.startNonce), attempts)
      invariant MissedBefore(spec, hash, target, attempts)
    {
      if !Packable(c, spec.bits) {
        return Raised(StructError), attempts;
      }
      var h := hash(c.time, c.nonce);
      if h <= target {
        return Found(c.time, c.nonce, h), attempts;
      }
      c := Next(c);
      attempts := attempts + 1;
    }
    return GaveUp, attempts;
  }

  // ---------------------------------------------------------------------
  // build_coinbase
  // ---------------------------------------------------------------------

  /** The fields a coinbase transaction carries beyond its fixed layout. */
  datatype CoinbaseFields = CoinbaseFields(scriptSig: seq<Byte>, value: nat, scriptPubKey: seq<Byte>)

  /** The 32 zero bytes of the null prevout hash. */
  const NULL_HASH: seq<Byte> := [0, 0, 0, 0, 0, 0, 0, 0, 0, 0, 0, 0, 0, 0, 0, 0,
                                 0, 0, 0, 0, 0, 0, 0, 0, 0, 0, 0, 0, 0, 0, 0, 0]

  /** Reads a CompactSize length and that many bytes. */
  function ReadScript(s: seq<Byte>): Option<(seq<Byte>, seq<Byte>)>
  {
    match DecodeVarint(s)
    case None => None
    case Some((n, rest)) => if |rest| < n then None else Some((rest[..n], rest[n..]))
  }

  lemma ReadScriptWritten(script: seq<Byte>, rest: seq<Byte>)
    requires |script| < UINT64_LIMIT
    ensures ReadScript(EncodeVarint(|script|).value + script + rest) == Some((script, rest))
  {
    DecodeEncodeVarint(|script|, script + rest);
    assert EncodeVarint(|script|).value + script + rest == EncodeVarint(|script|).value + (script + rest);
    assert (script + rest)[..|script|] == script;
    assert (script + rest)[|script|..] == rest;
  }

  /**
   * A one-input, one-output transaction: version 1, a null prevout (32 zero
   * bytes, index 0xFFFFFFFF), sequence 0xFFFFFFFF and lock time 0.
   */
  function ParseCoinbase(tx: seq<Byte>): Option<CoinbaseFields>
  {
    if |tx| < 41 || tx[..4] != [1, 0, 0, 0] || tx[4] != 1 || tx[5..37] != NULL_HASH || tx[37..41] != [0xFF, 0xFF, 0xFF, 0xFF] then None
    else
      match ReadScript(tx[41..])
      case None => None
      case Some((sig, rest)) =>
        if |rest| < 13 || rest[..4] != [0xFF, 0xFF, 0xFF, 0xFF] || rest[4] != 1 then None
        else
          var value := FromLe(rest[5..13]);
          match ReadScript(rest[13..])
          case None => None
          case Some((spk, tail)) =>
            if tail != [0, 0, 0, 0] then None else Some(CoinbaseFields(sig, value, spk))
  }

  /** The pushes of the nBits number 486604799 and of the number 4 that open the genesis script_sig. */
  const GENESIS_SIG_HEAD: seq<Byte> := [0x04, 0xFF, 0xFF, 0x00, 0x1D, 0x01, 0x04]

  lemma GenesisSigHead()
    ensures PushData(ScriptNum(486604799)).Success? && PushData(ScriptNum(4)).Success?
    ensures PushData(ScriptNum(486604799)).value + PushData(ScriptNum(4)).value == GENESIS_SIG_HEAD
  {
    GenesisScriptNums();
  }

  /** script_sig of the genesis coinbase: the two fixed pushes, then the timestamp pushed. */
  function GenesisScriptSig(timestamp: seq<Byte>): seq<Byte>
    requires |timestamp| < UINT32_LIMIT
  {
    GENESIS_SIG_HEAD + PushData(timestamp).value
  }

  /** The script_sig expression of build_coinbase. */
  method BuildScriptSig(timestamp: seq<Byte>) returns (r: Result<seq<Byte>, PyError>)
    ensures r.Success? <==> |timestamp| < UINT32_LIMIT
    ensures r.Failure? ==> r.error == StructError
    ensures r.Success? ==> r.value == GenesisScriptSig(timestamp)
  {
    var number := EncodeScriptNum(486604799);
    var four := EncodeScriptNum(4);
    var pushedTimestamp := PushData(timestamp);
    if pushedTimestamp.Failure? {
      return Failure(StructError);
    }
    GenesisSigHead();
    return Success(PushData(number).value + PushData(four).value + pushedTimestamp.value);
  }

  /**
   * build_coinbase, without the merkle hash: struct.error for a timestamp or
   * public key too long to push, or a reward outside 0 .. 2^64 - 1, checked
   * in the order the script meets them.
   */
  method BuildCoinbase(timestamp: seq<Byte>, pubkey: seq<Byte>, reward: int) returns (r: Result<seq<Byte>, PyError>)
    ensures r.Success? <==> |timestamp| < UINT32_LIMIT && |pubkey| < UINT32_LIMIT && 0 <= reward < UINT64_LIMIT
    ensures r.Failure? ==> r.error == StructError
    ensures r.Success? ==> ParseCoinbase(r.value) == Some(CoinbaseFields(GenesisScriptSig(timestamp), reward, PushData(pubkey).value + [OP_CHECKSIG]))
  {
    var sig := BuildScriptSig(timestamp);
    if sig.Failure? {
      return Failure(StructError);
    }
    if !(0 <= reward < UINT64_LIMIT) {
      // struct.pack("<Q", reward) raises before the public key is pushed.
      return Failure(StructError);
    }
    var pushedKey := PushData(pubkey);
    if pushedKey.Failure? {
      return Failure(StructError);
    }
    var tx := AssembleCoinbase(sig.value, reward, pushedKey.value + [OP_CHECKSIG]);
    return Success(tx);
  }

  /** The constant fields build_coinbase packs, and the packed reward. */
  lemma CoinbasePieces()
    ensures Pack(1, 4).Success? && Pack(1, 4).value == [1, 0, 0, 0]
    ensures EncodeVarint(1).Success? && EncodeVarint(1).value == [1]
    ensures Pack(0xFFFF_FFFF, 4).Success? && Pack(0xFFFF_FFFF, 4).value == [0xFF, 0xFF, 0xFF, 0xFF]
    ensures Pack(0, 4).Success? && Pack(0, 4).value == [0, 0, 0, 0]
    ensures forall v :: 0 <= v < UINT64_LIMIT ==> Pack(v, 8).Success? && Pack(v, 8).value == LeBytes(v, 8)
  {
    PowValues();
    assert LeBytes(0, 4) == [0, 0, 0, 0];
    assert LeBytes(0, 3) == [0, 0, 0];
    assert LeBytes(1, 4) == [1] + LeBytes(0, 3);
    assert LeBytes(0xFFFF_FFFF, 4) == [0xFF] + LeBytes(0xFF_FFFF, 3);
    assert LeBytes(0xFF_FFFF, 3) == [0xFF] + LeBytes(0xFFFF, 2);
    assert LeBytes(0xFFFF, 2) == [0xFF, 0xFF];
  }

  /** The byte layout build_coinbase appends once every field is packable. */
  method AssembleCoinbase(scriptSig: seq<Byte>, reward: nat, scriptPubKey: seq<Byte>) returns (tx: seq<Byte>)
    requires |scriptSig| < UINT64_LIMIT && reward < UINT64_LIMIT && |scriptPubKey| < UINT64_LIMIT
    ensures ParseCoinbase(tx) == Some(CoinbaseFields(scriptSig, reward, scriptPubKey))
  {
    CoinbasePieces();
    var version := Pack(1, 4).value;
    var inputs := EncodeVarint(1).value;
    var prevIndex := Pack(0xFFFF_FFFF, 4).value;
    var sigLength := EncodeVarint(|scriptSig|).value;
    var sequence := Pack(0xFFFF_FFFF, 4).value;
    var outputs := EncodeVarint(1).value;
    var value := Pack(reward, 8).value;
    var keyLength := EncodeVarint(|scriptPubKey|).value;
    var lockTime := Pack(0, 4).value;
    tx := [];
    tx := tx + version;
    tx := tx + inputs;
    tx := tx + NULL_HASH;
    tx := tx + prevIndex;
    tx := tx + sigLength + scriptSig;
    tx := tx + sequence;
    tx := tx + outputs;
    tx := tx + value;
    tx := tx + keyLength + scriptPubKey;
    tx := tx + lockTime;
    CoinbaseLayout(tx, scriptSig, reward, scriptPubKey, version, inputs, prevIndex, sequence, outputs, value, lockTime);
  }

  /** Regroups the appended fields of AssembleCoinbase into the form CoinbaseParses reads. */
  lemma CoinbaseLayout(tx: seq<Byte>, scriptSig: seq<Byte>, reward: nat, scriptPubKey: seq<Byte>,
                       version: seq<Byte>, inputs: seq<Byte>, prevIndex: seq<Byte>, sequence: seq<Byte>,
                       outputs: seq<Byte>, value: seq<Byte>, lockTime: seq<Byte>)
    requires |scriptSig| < UINT64_LIMIT && reward < UINT64_LIMIT && |scriptPubKey| < UINT64_LIMIT
    requires version == [1, 0, 0, 0] && inputs == [1] && prevIndex == [0xFF, 0xFF, 0xFF, 0xFF]
    requires sequence == [0xFF, 0xFF, 0xFF, 0xFF] && outputs == [1] && value == LeBytes(reward, 8) && lockTime == [0, 0, 0, 0]
    requires tx == [] + version + inputs + NULL_HASH + prevIndex
                 + EncodeVarint(|scriptSig|).value + scriptSig
                 + sequence + outputs + value
                 + EncodeVarint(|scriptPubKey|).value + scriptPubKey + lockTime
    ensures ParseCoinbase(tx) == Some(CoinbaseFields(scriptSig, reward, scriptPubKey))
  {
    var sigLength := EncodeVarint(|scriptSig|).value;
    var keyLength := EncodeVarint(|scriptPubKey|).value;
    Regroup(version, inputs, NULL_HASH, prevIndex, sigLength, scriptSig, sequence, outputs, value, keyLength, scriptPubKey, lockTime);
    assert version + inputs + NULL_HASH + prevIndex == COINBASE_HEAD;
    CoinbaseParses(tx, scriptSig, reward, scriptPubKey);
  }

  lemma Regroup<T>(a: seq<T>, b: seq<T>, c: seq<T>, d: seq<T>, e: seq<T>, f: seq<T>,
                   g: seq<T>, h: seq<T>, i: seq<T>, j: seq<T>, k: seq<T>, l: seq<T>)
    ensures [] + a + b + c + d + e + f + g + h + i + j + k + l
         == (a + b + c + d) + (e + f + ((g + h + i) + (j + k + l)))
  {
  }

  /** The fixed fields in front of the scriptSig: version 1, one input, the null prevout. */
  const COINBASE_HEAD: seq<Byte> := [1, 0, 0, 0] + [1] + NULL_HASH + [0xFF, 0xFF, 0xFF, 0xFF]

  lemma CoinbaseParses(tx: seq<Byte>, scriptSig: seq<Byte>, reward: nat, scriptPubKey: seq<Byte>)
    requires |scriptSig| < UINT64_LIMIT && |scriptPubKey| < UINT64_LIMIT && reward < UINT64_LIMIT
    requires tx == COINBASE_HEAD + (EncodeVarint(|scriptSig|).value + scriptSig
                 + (([0xFF, 0xFF, 0xFF, 0xFF] + [1] + LeBytes(reward, 8))
                 + (EncodeVarint(|scriptPubKey|).value + scriptPubKey + [0, 0, 0, 0])))
    ensures ParseCoinbase(tx) == Some(CoinbaseFields(scriptSig, reward, scriptPubKey))
  {
    PowValues();
    var middle := [0xFF, 0xFF, 0xFF, 0xFF] + [1] + LeBytes(reward, 8);
    var tail := EncodeVarint(|scriptPubKey|).value + scriptPubKey + [0, 0, 0, 0];
    var rest := middle + tail;
    assert |COINBASE_HEAD| == 41;
    assert tx[..41] == COINBASE_HEAD;
    assert tx[..4] == [1, 0, 0, 0] && tx[4] == 1 && tx[5..37] == NULL_HASH && tx[37..41] == [0xFF, 0xFF, 0xFF, 0xFF];
    assert tx[41..] == EncodeVarint(|scriptSig|).value + scriptSig + rest;
    ReadScriptWritten(scriptSig, rest);
    assert |middle| == 13;
    assert rest[..4] == [0xFF, 0xFF, 0xFF, 0xFF] && rest[4] == 1;
    assert rest[5..13] == LeBytes(reward, 8);
    FromLeLeBytes(reward, 8);
    assert rest[13..] == tail;
    ReadScriptWritten(scriptPubKey, [0, 0, 0, 0]);
  }
}
