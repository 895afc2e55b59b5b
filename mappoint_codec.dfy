/**
 * The map-point payload grammar carried in OP_RETURN outputs.
 *
 * A point payload is "ORINMAP1:<lat>:<lon>" with both coordinates written as
 * decimal int64 values in millionths of a degree; a transfer payload is
 * "ORINMAPX:<txid>" with the origin transaction id in 64 hex digits.
 */
module MapPointCodec {
  import opened Wrappers
  import Hash256
  import opened Strings

  const MAP_POINT_PREFIX: string := "ORINMAP1"
  const MAP_POINT_TRANSFER_PREFIX: string := "ORINMAPX"
  const SEPARATOR: char := ':'

  /** sizeof of either prefix array: its eight letters and the terminating NUL. */
  const PREFIX_SIZEOF: nat := |MAP_POINT_PREFIX| + 1

  /** MAX_LATITUDE * COORD_SCALE and MAX_LONGITUDE * COORD_SCALE, both exact. */
  const MAX_ENCODED_LATITUDE: int := 90_000_000
  const MAX_ENCODED_LONGITUDE: int := 180_000_000

  const INT64_MIN: int := -0x8000_0000_0000_0000
  const INT64_MAX: int := 0x7FFF_FFFF_FFFF_FFFF

  predicate IsInt64(v: int) { INT64_MIN <= v <= INT64_MAX }

  function Abs(v: int): nat { if v < 0 then -v else v }

  /** Encoded coordinates of a point. */
  datatype Coordinates = Coordinates(lat: int, lon: int)

  predicate InRange(c: Coordinates)
  {
    Abs(c.lat) <= MAX_ENCODED_LATITUDE && Abs(c.lon) <= MAX_ENCODED_LONGITUDE
  }

  /** strprintf("%d", v). */
  function FormatInt(v: int): (s: string)
    ensures SEPARATOR !in s
  {
    if v < 0 then "-" + NatToDecimal(-v) else NatToDecimal(v)
  }

  /**
   * std::from_chars for int64: an optional '-', then at least one decimal
   * digit, the whole string consumed, the value within int64.
   */
  function FromChars(s: string): Option<int>
  {
    var negative := |s| >= 1 && s[0] == '-';
    var digits := if negative then s[1..] else s;
    if |digits| == 0 || !AllDigits(digits) then None
    else
      var v: int := if negative then 0 - DecimalValue(digits) else DecimalValue(digits);
      if IsInt64(v) then Some(v) else None
  }

  /**
   * ParseInt64: from_chars after an optional leading '+', where "+-" is
   * refused. No whitespace is accepted anywhere.
   */
  function ParseInt64(s: string): (r: Option<int>)
    ensures r.Some? ==> IsInt64(r.value)
  {
    if |s| >= 2 && s[0] == '+' && s[1] == '-' then None
    else FromChars(if |s| >= 1 && s[0] == '+' then s[1..] else s)
  }

  /** ParseInt64 reads back every int64 that "%d" writes. */
  lemma ParseFormatInt(v: int)
    requires IsInt64(v)
    ensures ParseInt64(FormatInt(v)) == Some(v)
  {
    var s := FormatInt(v);
    if v < 0 {
      var digits := NatToDecimal(-v);
      DecimalRoundTrip(-v);
      assert s == "-" + digits;
      assert s[0] == '-' && s[1..] == digits;
      assert FromChars(s) == Some(0 - (-v));
    } else {
      DecimalRoundTrip(v);
      assert s[0] != '+' && s[0] != '-';
      assert FromChars(s) == Some(v);
    }
  }

  // ---------------------------------------------------------------------
  // Point payloads
  // ---------------------------------------------------------------------

  /** BuildPayload: "ORINMAP1:<lat>:<lon>". */
  function BuildPayload(c: Coordinates): (payload: string)
    requires IsInt64(c.lat) && IsInt64(c.lon)
  {
    MAP_POINT_PREFIX + [SEPARATOR] + FormatInt(c.lat) + [SEPARATOR] + FormatInt(c.lon)
  }

  /**
   * The shape checks of ParsePayload: long enough, three parts, the prefix,
   * and two int64 values. The range checks follow.
   */
  function ParseFields(payload: string): (r: Option<Coordinates>)
    ensures r.Some? ==> IsInt64(r.value.lat) && IsInt64(r.value.lon)
    ensures r.Some? ==> |Split(payload, SEPARATOR)| == 3
    ensures r.Some? ==> |payload| > |MAP_POINT_PREFIX| && payload[..|MAP_POINT_PREFIX| + 1] == MAP_POINT_PREFIX + [SEPARATOR]
  {
    if |payload| < PREFIX_SIZEOF then None
    else
      var parts := Split(payload, SEPARATOR);
      if |parts| != 3 then None
      else if parts[0] != MAP_POINT_PREFIX then None
      else
        match (ParseInt64(parts[1]), ParseInt64(parts[2]))
        case (Some(lat), Some(lon)) =>
          assert payload == parts[0] + [SEPARATOR] + Join(parts[1..], SEPARATOR);
          Some(Coordinates(lat, lon))
        case _ => None
  }

  /**
   * ParsePayload with the bound check the source intends: None where the
   * source returns false, and also for a coordinate of INT64_MIN, which
   * the source's llabs lets through (ParsePayloadAsWritten).
   */
  function ParsePayload(payload: string): (r: Option<Coordinates>)
    ensures r.Some? ==> InRange(r.value)
    ensures r.Some? ==> |Split(payload, SEPARATOR)| == 3
    ensures r.Some? ==> |payload| > |MAP_POINT_PREFIX| && payload[..|MAP_POINT_PREFIX| + 1] == MAP_POINT_PREFIX + [SEPARATOR]
  {
    match ParseFields(payload)
    case Some(c) =>
      if Abs(c.lat) > MAX_ENCODED_LATITUDE then None
      else if Abs(c.lon) > MAX_ENCODED_LONGITUDE then None
      else Some(c)
    case None => None
  }

  /**
   * std::llabs on int64 as two's-complement hardware computes it: the
   * negation of INT64_MIN overflows (undefined behaviour) and wraps back to
   * INT64_MIN.
   */
  function Llabs(v: int): int
    requires IsInt64(v)
  {
    if v == INT64_MIN then INT64_MIN else Abs(v)
  }

  /** ParsePayload as written, with the range checks done through llabs. */
  function ParsePayloadAsWritten(payload: string): Option<Coordinates>
  {
    match ParseFields(payload)
    case Some(c) =>
      if Llabs(c.lat) > MAX_ENCODED_LATITUDE then None
      else if Llabs(c.lon) > MAX_ENCODED_LONGITUDE then None
      else Some(c)
    case None => None
  }

  /**
   * "ORINMAP1:-9223372036854775808:0" passes the range checks as written,
   * with a latitude far outside the bounds; ParsePayload refuses it.
   */
  lemma LlabsAdmitsInt64Min()
    ensures ParsePayloadAsWritten(BuildPayload(Coordinates(INT64_MIN, 0))) == Some(Coordinates(INT64_MIN, 0))
    ensures !InRange(Coordinates(INT64_MIN, 0))
    ensures ParsePayload(BuildPayload(Coordinates(INT64_MIN, 0))) == None
  {
    ParseFieldsBuild(Coordinates(INT64_MIN, 0));
  }

  /** Apart from INT64_MIN the two range checks agree. */
  lemma AsWrittenAgreesAwayFromInt64Min(payload: string)
    requires ParseFields(payload).Some? ==> ParseFields(payload).value.lat != INT64_MIN && ParseFields(payload).value.lon != INT64_MIN
    ensures ParsePayloadAsWritten(payload) == ParsePayload(payload)
  {
  }

  lemma BuildPayloadParts(c: Coordinates)
    requires IsInt64(c.lat) && IsInt64(c.lon)
    ensures Split(BuildPayload(c), SEPARATOR) == [MAP_POINT_PREFIX, FormatInt(c.lat), FormatInt(c.lon)]
  {
    var parts := [MAP_POINT_PREFIX, FormatInt(c.lat), FormatInt(c.lon)];
    assert parts[1..] == [FormatInt(c.lat), FormatInt(c.lon)];
    assert parts[1..][1..] == [FormatInt(c.lon)];
    assert Join(parts[1..], SEPARATOR) == FormatInt(c.lat) + [SEPARATOR] + FormatInt(c.lon);
    assert Join(parts, SEPARATOR) == BuildPayload(c);
    SplitJoin(parts, SEPARATOR);
  }

  /**
   * The round trip, with the acceptance condition in both directions: the
   * payload built from two int64 values parses, to the same two values,
   * exactly when both lie within the inclusive bounds.
   */
  lemma ParseBuildPayload(c: Coordinates)
    requires IsInt64(c.lat) && IsInt64(c.lon)
    ensures InRange(c) ==> ParsePayload(BuildPayload(c)) == Some(c)
    ensures !InRange(c) ==> ParsePayload(BuildPayload(c)) == None
  {
    ParseFieldsBuild(c);
  }

  /** The shape checks accept every built payload and read back both values. */
  lemma ParseFieldsBuild(c: Coordinates)
    requires IsInt64(c.lat) && IsInt64(c.lon)
    ensures ParseFields(BuildPayload(c)) == Some(c)
  {
    BuildPayloadParts(c);
    ParseFormatInt(c.lat);
    ParseFormatInt(c.lon);
  }

  /** The bounds are inclusive: 90,000,000 and 180,000,000 pass, one more fails. */
  lemma BoundsInclusive()
    ensures ParsePayload(BuildPayload(Coordinates(MAX_ENCODED_LATITUDE, 0))).Some?
    ensures ParsePayload(BuildPayload(Coordinates(-MAX_ENCODED_LATITUDE, MAX_ENCODED_LONGITUDE))).Some?
    ensures ParsePayload(BuildPayload(Coordinates(MAX_ENCODED_LATITUDE + 1, 0))).None?
    ensures ParsePayload(BuildPayload(Coordinates(0, -MAX_ENCODED_LONGITUDE - 1))).None?
  {
    ParseBuildPayload(Coordinates(MAX_ENCODED_LATITUDE, 0));
    ParseBuildPayload(Coordinates(-MAX_ENCODED_LATITUDE, MAX_ENCODED_LONGITUDE));
    ParseBuildPayload(Coordinates(MAX_ENCODED_LATITUDE + 1, 0));
    ParseBuildPayload(Coordinates(0, -MAX_ENCODED_LONGITUDE - 1));
  }

  /** Parsing is idempotent through BuildPayload: the canonical form of an accepted payload parses to the same point. */
  lemma ParsedPayloadCanonical(payload: string)
    requires ParsePayload(payload).Some?
    ensures ParsePayload(BuildPayload(ParsePayload(payload).value)) == ParsePayload(payload)
  {
    var c := ParsePayload(payload).value;
    ParseBuildPayload(c);
  }

  /** Payloads shorter than sizeof("ORINMAP1") are refused. */
  lemma ShortPayloadRejected(payload: string)
    requires |payload| < PREFIX_SIZEOF
    ensures ParsePayload(payload).None?
    ensures ParseTransferPayload(payload).None?
  {
  }

  // ---------------------------------------------------------------------
  // Transfer payloads
  // ---------------------------------------------------------------------

  /** The wallet's producer: "ORINMAPX:" followed by GetHex of the origin txid. */
  function BuildTransferPayload(origin: nat): string
  {
    MAP_POINT_TRANSFER_PREFIX + [SEPARATOR] + Hash256.GetHex(origin)
  }

  /** ParseTransferPayload; None where the source returns false. */
  function ParseTransferPayload(payload: string): (r: Option<nat>)
    ensures r.Some? ==> Hash256.IsHash(r.value)
    ensures r.Some? ==> |payload| == |MAP_POINT_TRANSFER_PREFIX| + 1 + 64
    ensures r.Some? ==> payload[..|MAP_POINT_TRANSFER_PREFIX| + 1] == MAP_POINT_TRANSFER_PREFIX + [SEPARATOR]
    ensures r.Some? ==> Hash256.IsHex(payload[|MAP_POINT_TRANSFER_PREFIX| + 1..])
  {
    if |payload| <= PREFIX_SIZEOF then None
    else
      var parts := Split(payload, SEPARATOR);
      if |parts| != 2 || parts[0] != MAP_POINT_TRANSFER_PREFIX then None
      else if |parts[1]| != 64 || !Hash256.IsHex(parts[1]) then None
      else
        SplitTwo(payload, SEPARATOR);
        assert payload[|MAP_POINT_TRANSFER_PREFIX| + 1..] == parts[1];
        Hash256.FromHexBound(parts[1]);
        Some(Hash256.FromHex(parts[1]))
  }

  /** Every string of the form "ORINMAPX:" + 64 hex digits is accepted, with the txid SetHex gives. */
  lemma TransferPayloadAccepted(hex: string)
    requires |hex| == 64 && Hash256.IsHex(hex)
    ensures ParseTransferPayload(MAP_POINT_TRANSFER_PREFIX + [SEPARATOR] + hex) == Some(Hash256.FromHex(hex))
  {
    var parts := [MAP_POINT_TRANSFER_PREFIX, hex];
    assert SEPARATOR !in hex by {
      assert !Hash256.IsHexDigit(SEPARATOR);
    }
    assert Join(parts, SEPARATOR) == MAP_POINT_TRANSFER_PREFIX + [SEPARATOR] + hex;
    SplitJoin(parts, SEPARATOR);
  }

  /** The wallet's transfer payload parses back to the txid it names. */
  lemma ParseBuildTransferPayload(origin: nat)
    requires Hash256.IsHash(origin)
    ensures ParseTransferPayload(BuildTransferPayload(origin)) == Some(origin)
  {
    TransferPayloadAccepted(Hash256.GetHex(origin));
    Hash256.FromHexGetHex(origin);
  }

  /** No payload is both a point and a transfer. */
  lemma PayloadKindsDisjoint(payload: string)
    ensures !(ParsePayload(payload).Some? && ParseTransferPayload(payload).Some?)
  {
  }
}
