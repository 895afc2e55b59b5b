/**
 * The records and keys of the map-point chain index, the database key
 * orders, and the reading of map-point payloads out of transactions.
 *
 * Scripts are modelled as the sequence of operations CScript::GetOp yields,
 * with Malformed standing for the place where GetOp fails; an output's
 * address (ExtractDestination followed by EncodeDestination) is an opaque
 * optional string carried by the output.
 */
module MapPointRecords {
  import opened Wrappers
  import opened Hash256
  import opened Ordering
  import MapPointCodec

  /** A transaction id, as the memcmp key of package Hash256. */
  type Txid = nat

  const UINT32_LIMIT: nat := 0x1_0000_0000
  const UINT32_MAX: nat := 0xFFFF_FFFF

  type Uint32 = x: nat | x < UINT32_LIMIT

  /** static_cast<uint32_t> of an int: reduction modulo 2^32. */
  function ToUint32(x: int): (h: Uint32)
    ensures 0 <= x < UINT32_LIMIT ==> h == x
    ensures (h - x) % UINT32_LIMIT == 0
  {
    x % UINT32_LIMIT
  }

  /** height + 1 in uint32_t arithmetic: the largest height wraps to 0. */
  function Uint32Succ(h: Uint32): (s: Uint32)
    ensures h < UINT32_MAX ==> s == h + 1
    ensures h == UINT32_MAX ==> s == 0
  {
    if h == UINT32_MAX then 0 else h + 1
  }

  /** static_cast<int> of a uint32 on a two's-complement target. */
  function AsInt(h: Uint32): (v: int)
    ensures -0x8000_0000 <= v < 0x8000_0000
    ensures h < 0x8000_0000 ==> v == h
  {
    if h < 0x8000_0000 then h else h - UINT32_LIMIT
  }

  /** MapPointIndex::Record: the value stored under a point's origin txid. */
  datatype Record = Record(height: Uint32, originOwner: string, currentOwner: string, lat: int, lon: int)

  /** MapPointIndex::TransferRecord: the value stored under a transfer key. */
  datatype TransferRecord = TransferRecord(height: Uint32, newOwner: string, previousOwner: string)

  datatype HeightKey = HeightKey(height: Uint32, txid: Txid)
  datatype OwnerKey = OwnerKey(owner: string, txid: Txid)
  datatype TransferKey = TransferKey(origin: Txid, transfer: Txid)
  datatype TransferHeightKey = TransferHeightKey(height: Uint32, origin: Txid, transfer: Txid)

  /** MapPointTransferInfo. */
  datatype TransferInfo = TransferInfo(transferTxid: Txid, height: int, newOwner: string)

  /** MapPointInfo. */
  datatype PointInfo = PointInfo(originTxid: Txid, originHeight: int, originOwner: string, currentOwner: string,
                                 lat: int, lon: int, transfers: seq<TransferInfo>)

  /** DB::MakeInfo: the record's fields, no transfers. */
  function MakeInfo(txid: Txid, r: Record): (info: PointInfo)
    ensures info.originTxid == txid && info.originHeight == AsInt(r.height) && info.transfers == []
    ensures info.originOwner == r.originOwner && info.currentOwner == r.currentOwner
    ensures info.lat == r.lat && info.lon == r.lon
  {
    PointInfo(txid, AsInt(r.height), r.originOwner, r.currentOwner, r.lat, r.lon, [])
  }

  // ---------------------------------------------------------------------
  // Key orders
  // ---------------------------------------------------------------------

  /** Height keys by height, then txid: the order of a big-endian height encoding. */
  predicate HeightKeyLess(a: HeightKey, b: HeightKey)
  {
    a.height < b.height || (a.height == b.height && a.txid < b.txid)
  }

  predicate TransferHeightKeyLess(a: TransferHeightKey, b: TransferHeightKey)
  {
    || a.height < b.height
    || (a.height == b.height && a.origin < b.origin)
    || (a.height == b.height && a.origin == b.origin && a.transfer < b.transfer)
  }

  lemma HeightKeyOrder()
    ensures StrictTotalOrder(HeightKeyLess)
  {
  }

  lemma TransferHeightKeyOrder()
    ensures StrictTotalOrder(TransferHeightKeyLess)
  {
  }

  /** The comparator ReadTransfers hands to std::sort. */
  predicate TransferInfoLess(a: TransferInfo, b: TransferInfo)
  {
    if a.height == b.height then a.transferTxid < b.transferTxid else a.height < b.height
  }

  /** The total preorder of that comparator, as std::sort leaves the elements. */
  predicate TransferInfoLe(a: TransferInfo, b: TransferInfo)
  {
    !TransferInfoLess(b, a)
  }

  lemma TransferInfoLeTotal()
    ensures TotalPreorder(TransferInfoLe)
  {
  }

  // ---------------------------------------------------------------------
  // Transactions
  // ---------------------------------------------------------------------

  const OP_RETURN: nat := 0x6a
  const OP_PUSHDATA4: nat := 0x4e

  /** One CScript::GetOp result: an opcode with its pushed data, or a failure. */
  datatype ScriptOp = Op(opcode: nat, data: seq<Byte>) | Malformed

  /**
   * An output: its script as GetOp sees it, whether the script exceeds
   * MAX_SCRIPT_SIZE, and the encoded address ExtractDestination finds.
   */
  datatype TxOut = TxOut(script: seq<ScriptOp>, oversized: bool, destination: Option<string>)

  /** A transaction: hash, coinbase flag, number of inputs and outputs. */
  datatype Transaction = Transaction(hash: Txid, isCoinbase: bool, inputCount: nat, vout: seq<TxOut>)

  /** CScript::IsUnspendable: starts with OP_RETURN, or is oversized. */
  predicate IsUnspendable(out: TxOut)
  {
    (|out.script| > 0 && out.script[0] == Op(OP_RETURN, [])) || out.oversized
  }

  function BytesToString(data: seq<Byte>): (s: string)
    ensures |s| == |data|
  {
    seq(|data|, i requires 0 <= i < |data| => data[i] as char)
  }

  /**
   * ExtractOpReturnData: the first operation is OP_RETURN and the second is
   * a push (opcode up to OP_PUSHDATA4) of at least one byte.
   */
  function ExtractOpReturnData(script: seq<ScriptOp>): (r: Option<string>)
    ensures r.Some? ==> r.value != []
    ensures r.Some? <==> |script| >= 2 && script[0].Op? && script[0].opcode == OP_RETURN
                         && script[1].Op? && script[1].opcode <= OP_PUSHDATA4 && script[1].data != []
  {
    if |script| == 0 || script[0].Malformed? || script[0].opcode != OP_RETURN then None
    else if |script| < 2 || script[1].Malformed? then None
    else if script[1].opcode > OP_PUSHDATA4 || script[1].data == [] then None
    else Some(BytesToString(script[1].data))
  }

  /** An output that yields a payload: unspendable and with OP_RETURN data. */
  predicate CarriesPayload(out: TxOut)
  {
    IsUnspendable(out) && ExtractOpReturnData(out.script).Some?
  }

  /** The payload of the first output that carries one; empty when none does. */
  function FirstPayload(vout: seq<TxOut>): (payload: string)
  {
    if vout == [] then []
    else if CarriesPayload(vout[0]) then ExtractOpReturnData(vout[0].script).value
    else FirstPayload(vout[1..])
  }

  /** FirstPayload is the payload of the first output that carries one, and empty exactly when none does. */
  lemma {:induction false} FirstPayloadIsFirst(vout: seq<TxOut>)
    ensures FirstPayload(vout) == [] <==> forall i :: 0 <= i < |vout| ==> !CarriesPayload(vout[i])
    ensures forall i :: 0 <= i < |vout| && CarriesPayload(vout[i]) && (forall j :: 0 <= j < i ==> !CarriesPayload(vout[j]))
                        ==> FirstPayload(vout) == ExtractOpReturnData(vout[i].script).value
  {
    if vout != [] {
      FirstPayloadIsFirst(vout[1..]);
      assert forall i :: 1 <= i < |vout| ==> vout[i] == vout[1..][i - 1];
    }
  }

  /**
   * The payload loop of ExtractRecord and WriteBlock: skip spendable
   * outputs, stop at the first OP_RETURN output with data.
   */
  method FindPayload(vout: seq<TxOut>) returns (payload: string)
    ensures payload == FirstPayload(vout)
  {
    payload := [];
    var i := 0;
    while i < |vout|
      invariant 0 <= i <= |vout|
      invariant payload == [] && FirstPayload(vout) == FirstPayload(vout[i..])
    {
      assert vout[i..][1..] == vout[i + 1..];
      if !IsUnspendable(vout[i]) {
        i := i + 1;
        continue;
      }
      var data := ExtractOpReturnData(vout[i].script);
      if data.Some? {
        payload := data.value;
        return;
      }
      i := i + 1;
    }
  }

  /** An output ExtractOwnerAddress accepts: spendable, with an address. */
  predicate PaysAddress(out: TxOut)
  {
    !IsUnspendable(out) && out.destination.Some?
  }

  /** The address of the first spendable output that has one. */
  function FirstOwner(vout: seq<TxOut>): Option<string>
  {
    if vout == [] then None
    else if PaysAddress(vout[0]) then vout[0].destination
    else FirstOwner(vout[1..])
  }

  lemma {:induction false} FirstOwnerIsFirst(vout: seq<TxOut>)
    ensures FirstOwner(vout).None? <==> forall i :: 0 <= i < |vout| ==> !PaysAddress(vout[i])
    ensures forall i :: 0 <= i < |vout| && PaysAddress(vout[i]) && (forall j :: 0 <= j < i ==> !PaysAddress(vout[j]))
                        ==> FirstOwner(vout) == vout[i].destination
  {
    if vout != [] {
      FirstOwnerIsFirst(vout[1..]);
      assert forall i :: 1 <= i < |vout| ==> vout[i] == vout[1..][i - 1];
    }
  }

  /** ExtractOwnerAddress. */
  method ExtractOwnerAddress(vout: seq<TxOut>) returns (owner: Option<string>)
    ensures owner == FirstOwner(vout)
  {
    var i := 0;
    while i < |vout|
      invariant 0 <= i <= |vout|
      invariant FirstOwner(vout) == FirstOwner(vout[i..])
    {
      assert vout[i..][1..] == vout[i + 1..];
      if !IsUnspendable(vout[i]) && vout[i].destination.Some? {
        return vout[i].destination;
      }
      i := i + 1;
    }
    return None;
  }

  /** The record a point-creating transaction holds, before WriteBlock sets its height. */
  function RecordOf(tx: Transaction): (r: Option<Record>)
    ensures r.Some? ==> !tx.isCoinbase
    ensures r.Some? ==> MapPointCodec.ParsePayload(FirstPayload(tx.vout)) == Some(MapPointCodec.Coordinates(r.value.lat, r.value.lon))
    ensures r.Some? ==> Some(r.value.originOwner) == FirstOwner(tx.vout) && r.value.currentOwner == r.value.originOwner
  {
    if tx.isCoinbase then None
    else
      var payload := FirstPayload(tx.vout);
      if payload == [] then None
      else
        match MapPointCodec.ParsePayload(payload)
        case None => None
        case Some(c) =>
          match FirstOwner(tx.vout)
          case None => None
          case Some(owner) => Some(Record(0, owner, owner, c.lat, c.lon))
  }

  /** MapPointIndex::ExtractRecord. */
  method ExtractRecord(tx: Transaction) returns (r: Option<Record>)
    ensures r == RecordOf(tx)
  {
    if tx.isCoinbase {
      return None;
    }
    var payload := FindPayload(tx.vout);
    if payload == [] {
      return None;
    }
    var coordinates := MapPointCodec.ParsePayload(payload);
    if coordinates.None? {
      return None;
    }
    var owner := ExtractOwnerAddress(tx.vout);
    if owner.None? {
      return None;
    }
    return Some(Record(0, owner.value, owner.value, coordinates.value.lat, coordinates.value.lon));
  }

  /** A coinbase transaction never creates a point. */
  lemma CoinbaseCreatesNothing(tx: Transaction)
    requires tx.isCoinbase
    ensures RecordOf(tx).None?
  {
  }

  /** Some input among the first inputCount spends a spendable output paying owner. */
  predicate OwnsInput(inputCount: nat, prevouts: seq<TxOut>, owner: string)
  {
    exists i :: 0 <= i < inputCount && i < |prevouts| && !IsUnspendable(prevouts[i]) && prevouts[i].destination == Some(owner)
  }

  /** The owns_input loop of WriteBlock. */
  method CheckOwnsInput(inputCount: nat, prevouts: seq<TxOut>, owner: string) returns (owns: bool)
    ensures owns <==> OwnsInput(inputCount, prevouts, owner)
  {
    var i := 0;
    while i < inputCount && i < |prevouts|
      invariant 0 <= i
      invariant i <= inputCount && i <= |prevouts|
      invariant forall j :: 0 <= j < i && j < inputCount && j < |prevouts| ==> !(!IsUnspendable(prevouts[j]) && prevouts[j].destination == Some(owner))
    {
      if !IsUnspendable(prevouts[i]) && prevouts[i].destination == Some(owner) {
        return true;
      }
      i := i + 1;
    }
    return false;
  }
}
