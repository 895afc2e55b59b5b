/**
 * The map-point RPC commands getmappoint, listmappoints and
 * getaddresspoints: argument handling, the ordering of the listed points,
 * and which fields of a point the reply carries.
 *
 * JSON parameters are modelled by the Json datatype. UniValue's own
 * failures (a height that is not a number or does not fit an int, an
 * address that is not a string) are the WrongType error, whose JSON-RPC code
 * is decided outside this model. The latitude and longitude in degrees
 * (floating point) are not part of a reply here.
 */
module MapPointRpc {
  import opened Wrappers
  import opened Ordering
  import opened MapPointRecords
  import opened MapPointDB
  import opened MapPointIndex

  const INT_MIN: int := -0x8000_0000
  const INT_MAX: int := 0x7FFF_FFFF

  const RPC_MISC_ERROR: int := -1
  const RPC_INVALID_PARAMETER: int := -8
  const RPC_INVALID_ADDRESS_OR_KEY: int := -5

  datatype Json = Null | Number(n: int) | Str(s: string) | Array(items: seq<Json>) | Object

  datatype RpcError = MiscError | InvalidParameter | InvalidAddressOrKey | WrongType

  /** The JSON-RPC error code a handler raises; None for UniValue's own exceptions. */
  function Code(e: RpcError): Option<int>
  {
    match e
    case MiscError => Some(RPC_MISC_ERROR)
    case InvalidParameter => Some(RPC_INVALID_PARAMETER)
    case InvalidAddressOrKey => Some(RPC_INVALID_ADDRESS_OR_KEY)
    case WrongType => None
  }

  // ---------------------------------------------------------------------
  // Ordering of the listed points
  // ---------------------------------------------------------------------

  /** std::string's operator<: lexicographic by character code. */
  predicate StringLess(a: string, b: string)
    decreases |a|
  {
    if a == [] then b != []
    else if b == [] then false
    else if a[0] != b[0] then a[0] < b[0]
    else StringLess(a[1..], b[1..])
  }

  lemma {:induction false} StringLessIrreflexive(a: string)
    ensures !StringLess(a, a)
    decreases |a|
  {
    if a != [] {
      StringLessIrreflexive(a[1..]);
    }
  }

  lemma {:induction false} StringLessTransitive(a: string, b: string, c: string)
    requires StringLess(a, b) && StringLess(b, c)
    ensures StringLess(a, c)
    decreases |a|
  {
    if a != [] && a[0] == b[0] && b[0] == c[0] {
      StringLessTransitive(a[1..], b[1..], c[1..]);
    }
  }

  lemma {:induction false} StringLessTotal(a: string, b: string)
    requires a != b
    ensures StringLess(a, b) || StringLess(b, a)
    decreases |a|
  {
    if a != [] && b != [] && a[0] == b[0] {
      assert a == [a[0]] + a[1..] && b == [b[0]] + b[1..];
      StringLessTotal(a[1..], b[1..]);
    }
  }

  /** SortPoints' comparator: origin height, then current owner, then origin txid. */
  predicate PointLess(a: PointInfo, b: PointInfo)
  {
    if a.originHeight != b.originHeight then a.originHeight < b.originHeight
    else if a.currentOwner != b.currentOwner then StringLess(a.currentOwner, b.currentOwner)
    else a.originTxid < b.originTxid
  }

  /** The order std::sort leaves the points in. */
  predicate PointLe(a: PointInfo, b: PointInfo)
  {
    !PointLess(b, a)
  }

  lemma StringLessAsymmetric(a: string, b: string)
    ensures !(StringLess(a, b) && StringLess(b, a))
  {
    if StringLess(a, b) && StringLess(b, a) {
      StringLessTransitive(a, b, a);
      StringLessIrreflexive(a);
    }
  }

  /** The comparator is a strict weak order, so PointLe is a total preorder. */
  lemma PointLeTotal()
    ensures TotalPreorder(PointLe)
  {
    forall a: PointInfo, b: PointInfo ensures PointLe(a, b) || PointLe(b, a) {
      StringLessAsymmetric(a.currentOwner, b.currentOwner);
    }
    forall a: PointInfo, b: PointInfo, c: PointInfo | PointLe(a, b) && PointLe(b, c) ensures PointLe(a, c) {
      if a.originHeight == b.originHeight == c.originHeight {
        PointOwnersOrdered(a.currentOwner, b.currentOwner, c.currentOwner);
      }
    }
  }

  /** Not-less on owners is transitive, and an owner equal to both ends of such a chain is the middle one. */
  lemma PointOwnersOrdered(x: string, y: string, z: string)
    ensures !StringLess(y, x) && !StringLess(z, y) ==> !StringLess(z, x)
    ensures !StringLess(y, x) && !StringLess(z, y) && x != y && y != z ==> x != z
  {
    StringLessIrreflexive(x);
    if x != y { StringLessTotal(x, y); }
    if y != z { StringLessTotal(y, z); }
    if StringLess(x, y) && StringLess(y, z) { StringLessTransitive(x, y, z); }
    if StringLess(z, x) && StringLess(x, y) { StringLessTransitive(z, x, y); }
    if StringLess(y, z) && StringLess(z, x) { StringLessTransitive(y, z, x); }
  }

  /** SortPoints: the points rearranged in place into (height, owner, txid) order. */
  method SortPoints(a: array<PointInfo>)
    modifies a
    ensures SortedBy(a[..], PointLe)
    ensures multiset(a[..]) == multiset(old(a[..]))
    ensures forall i, j :: 0 <= i < j < a.Length ==> a[i].originHeight <= a[j].originHeight
  {
    PointLeTotal();
    InsertionSort(a, PointLe);
    forall i, j | 0 <= i < j < a.Length ensures a[i].originHeight <= a[j].originHeight {
      assert PointLe(a[..][i], a[..][j]);
    }
  }

  /** The vector a handler sorts: a copy of pts, sorted. */
  method SortedPoints(pts: seq<PointInfo>) returns (out: seq<PointInfo>)
    ensures SortedBy(out, PointLe)
    ensures multiset(out) == multiset(pts)
  {
    var a := new PointInfo[|pts|](i requires 0 <= i < |pts| => pts[i]);
    assert a[..] == pts;
    SortPoints(a);
    out := a[..];
  }

  // ---------------------------------------------------------------------
  // Replies
  // ---------------------------------------------------------------------

  /** The fields of a point MapPointToJSON writes; transfers only when asked for. */
  datatype PointJson = PointJson(originTxid: Txid, originHeight: int, originOwner: string, currentOwner: string,
                                 encLat: int, encLon: int, transfers: Option<seq<TransferInfo>>)

  function MapPointToJson(info: PointInfo, includeTransfers: bool): (j: PointJson)
    ensures j.transfers.Some? <==> includeTransfers
    ensures includeTransfers ==> j.transfers.value == info.transfers
  {
    PointJson(info.originTxid, info.originHeight, info.originOwner, info.currentOwner, info.lat, info.lon,
              if includeTransfers then Some(info.transfers) else None)
  }

  /** A list reply: every point without its transfers. */
  function ListJson(pts: seq<PointInfo>): (js: seq<PointJson>)
    ensures |js| == |pts| && forall i :: 0 <= i < |pts| ==> js[i] == MapPointToJson(pts[i], false) && js[i].transfers.None?
  {
    seq(|pts|, i requires 0 <= i < |pts| => MapPointToJson(pts[i], false))
  }

  // ---------------------------------------------------------------------
  // Arguments
  // ---------------------------------------------------------------------

  /** UniValue::getInt<int>. */
  function ParamInt(p: Json): (r: Result<int, RpcError>)
    ensures r.Success? <==> p.Number? && INT_MIN <= p.n <= INT_MAX
    ensures r.Success? ==> r.value == p.n
    ensures r.Failure? ==> r.error == WrongType
  {
    if p.Number? && INT_MIN <= p.n <= INT_MAX then Success(p.n) else Failure(WrongType)
  }

  /** Parameter i as an int, or d when it is missing or null. */
  function HeightParam(params: seq<Json>, i: nat, d: int): Result<int, RpcError>
  {
    if i < |params| && !params[i].Null? then ParamInt(params[i]) else Success(d)
  }

  /** ParseHeightParams: the (from, to) heights at offset, defaulting to 0 and INT_MAX. */
  function ParseHeightParams(params: seq<Json>, offset: nat): Result<(int, int), RpcError>
  {
    match HeightParam(params, offset, 0)
    case Failure(e) => Failure(e)
    case Success(from) =>
      match HeightParam(params, offset + 1, INT_MAX)
      case Failure(e) => Failure(e)
      case Success(to) => if to < from then Failure(InvalidParameter) else Success((from, to))
  }

  /** Missing or null heights default to 0 and INT_MAX. */
  lemma ParseHeightDefaults(params: seq<Json>, offset: nat)
    requires |params| <= offset || params[offset].Null?
    requires |params| <= offset + 1 || params[offset + 1].Null?
    ensures ParseHeightParams(params, offset) == Success((0, INT_MAX))
  {
  }

  /**
   * When both heights are ints, ParseHeightParams fails with
   * RPC_INVALID_PARAMETER exactly when to < from, and otherwise returns them.
   */
  lemma ParseHeightOrder(params: seq<Json>, offset: nat, from: int, to: int)
    requires HeightParam(params, offset, 0) == Success(from) && HeightParam(params, offset + 1, INT_MAX) == Success(to)
    ensures ParseHeightParams(params, offset).Failure? <==> to < from
    ensures ParseHeightParams(params, offset).Failure? ==> Code(ParseHeightParams(params, offset).error) == Some(RPC_INVALID_PARAMETER)
    ensures ParseHeightParams(params, offset).Success? ==> ParseHeightParams(params, offset).value == (from, to)
  {
  }

  /** The owner list an addresses argument names: a string, or an array of strings in order. */
  function Addresses(param: Json): (owners: Option<seq<string>>)
    ensures param.Str? ==> owners == Some([param.s])
    ensures param.Array? && (forall i :: 0 <= i < |param.items| ==> param.items[i].Str?) ==>
              owners.Some? && |owners.value| == |param.items| && forall i :: 0 <= i < |param.items| ==> owners.value[i] == param.items[i].s
    ensures owners.Some? ==> param.Str? || (param.Array? && forall i :: 0 <= i < |param.items| ==> param.items[i].Str?)
  {
    if param.Str? then Some([param.s])
    else if param.Array? && forall i :: 0 <= i < |param.items| ==> param.items[i].Str? then
      Some(seq(|param.items|, i requires 0 <= i < |param.items| && param.items[i].Str? => param.items[i].s))
    else None
  }

  /**
   * getaddresspoints' owners loop: the named owners; an array element that
   * is not a string is UniValue's type error, any other argument
   * RPC_INVALID_PARAMETER.
   */
  method ParseOwners(param: Json) returns (r: Result<seq<string>, RpcError>)
    ensures r.Success? <==> Addresses(param).Some?
    ensures r.Success? ==> r.value == Addresses(param).value
    ensures r.Failure? && param.Array? ==> r.error == WrongType
    ensures r.Failure? && !param.Array? ==> Code(r.error) == Some(RPC_INVALID_PARAMETER)
  {
    if param.Str? {
      return Success([param.s]);
    }
    if !param.Array? {
      return Failure(InvalidParameter);
    }
    var owners: seq<string> := [];
    var i := 0;
    while i < |param.items|
      invariant 0 <= i <= |param.items|
      invariant |owners| == i && forall j :: 0 <= j < i ==> param.items[j].Str? && owners[j] == param.items[j].s
    {
      if !param.items[i].Str? {
        return Failure(WrongType);
      }
      owners := owners + [param.items[i].s];
      i := i + 1;
    }
    return Success(owners);
  }

  /** request.params[0]; a missing parameter reads as null. */
  function FirstParam(params: seq<Json>): Json
  {
    if |params| > 0 then params[0] else Null
  }

  // ---------------------------------------------------------------------
  // Handlers
  // ---------------------------------------------------------------------

  /**
   * GetMapPointIndex: RPC_MISC_ERROR when the node runs without the index
   * (a null g_mappoint_index), otherwise the index itself.
   */
  function IndexOrError(index: MapPointIndex?): (r: Result<MapPointIndex, RpcError>)
    ensures r.Failure? <==> index == null
    ensures r.Failure? ==> Code(r.error) == Some(RPC_MISC_ERROR)
    ensures r.Success? ==> r.value == index
  {
    if index == null then Failure(MiscError) else Success(index)
  }

  /**
   * getmappoint: RPC_MISC_ERROR without the index; otherwise the point with
   * its own transfers, or RPC_INVALID_ADDRESS_OR_KEY when it is not indexed.
   */
  method GetMapPoint(index: MapPointIndex?, txid: Txid) returns (r: Result<PointJson, RpcError>)
    ensures index == null ==> r == Failure(MiscError)
    ensures index != null ==> (r.Failure? <==> txid !in index.db.points)
    ensures index != null && r.Failure? ==> Code(r.error) == Some(RPC_INVALID_ADDRESS_OR_KEY)
    ensures r.Success? ==> index != null && r.value.transfers.Some? && SortedBy(r.value.transfers.value, TransferInfoLe)
    ensures r.Success? ==> index != null && multiset(r.value.transfers.value) == multiset(TransferInfos(index.db.transfers, txid, TransferWalk(index.db.State(), txid)))
    ensures r.Success? ==> index != null && MapPointToJson(MakeInfo(txid, index.db.points[txid]), false) == r.value.(transfers := None)
  {
    var idx := IndexOrError(index);
    if idx.Failure? {
      return Failure(idx.error);
    }
    var info := idx.value.GetPoint(txid);
    if info.None? {
      return Failure(InvalidAddressOrKey);
    }
    return Success(MapPointToJson(info.value, true));
  }

  /** listmappoints: RPC_MISC_ERROR without the index; otherwise the points in the height range, sorted, without transfers. */
  method ListMapPoints(index: MapPointIndex?, params: seq<Json>) returns (r: Result<seq<PointJson>, RpcError>)
    ensures index == null ==> r == Failure(MiscError)
    ensures index != null ==> (r.Failure? <==> ParseHeightParams(params, 0).Failure?)
    ensures index != null && r.Failure? ==> r.error == ParseHeightParams(params, 0).error
    ensures r.Success? ==>
              && index != null
              && var (from, to) := ParseHeightParams(params, 0).value;
                 exists pts :: && SortedBy(pts, PointLe)
                               && multiset(pts) == multiset(HeightInfos(index.db.points, HeightWalk(index.db.State(), HeightFrom(from), HeightTo(to))))
                               && r.value == ListJson(pts)
  {
    var idx := IndexOrError(index);
    if idx.Failure? {
      return Failure(idx.error);
    }
    var heights := ParseHeightParams(params, 0);
    if heights.Failure? {
      return Failure(heights.error);
    }
    var (from, to) := heights.value;
    var points := idx.value.GetPointsInHeightRange(from, to);
    var sorted := SortedPoints(points);
    return Success(ListJson(sorted));
  }

  /**
   * getaddresspoints: RPC_MISC_ERROR without the index; otherwise the points
   * of the given owners in the height range, sorted, without transfers; an
   * empty owner list answers [] before the heights are read.
   */
  method GetAddressPoints(index: MapPointIndex?, params: seq<Json>) returns (r: Result<seq<PointJson>, RpcError>)
    ensures index == null ==> r == Failure(MiscError)
    ensures var owners := Addresses(FirstParam(params));
            index != null ==>
            && (owners.None? ==> r.Failure?)
            && (owners == Some([]) ==> r == Success([]))
            && (owners.Some? && owners.value != [] ==> (r.Failure? <==> ParseHeightParams(params, 1).Failure?))
    ensures var owners := Addresses(FirstParam(params));
            r.Success? && owners.Some? && owners.value != [] ==>
              && index != null
              && var (from, to) := ParseHeightParams(params, 1).value;
                 exists pts :: && SortedBy(pts, PointLe)
                               && multiset(pts) == multiset(OwnersRead(index.db.State(), owners.value, HeightFrom(from), HeightTo(to)))
                               && r.value == ListJson(pts)
  {
    var idx := IndexOrError(index);
    if idx.Failure? {
      return Failure(idx.error);
    }
    var owners := ParseOwners(FirstParam(params));
    if owners.Failure? {
      return Failure(owners.error);
    }
    if owners.value == [] {
      return Success([]);
    }
    var heights := ParseHeightParams(params, 1);
    if heights.Failure? {
      return Failure(heights.error);
    }
    var (from, to) := heights.value;
    var points := idx.value.GetPointsForOwner(owners.value, from, to);
    var sorted := SortedPoints(points);
    return Success(ListJson(sorted));
  }
}
