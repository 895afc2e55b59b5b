/**
 * MapPointIndex: the block-connected side of the map-point index.
 *
 * WriteBlock works in two phases. The first walks the block's transactions
 * and gathers the points they create and the transfers they make into
 * pending_points and pending_transfers, reading (never writing) the
 * database; Collect below is that walk as a function. The second writes the
 * pending points in key order and then applies each pending transfer to the
 * stored record. Rewind undoes the transfers above a height, restores the
 * owners they replaced, and erases the points above that height with all of
 * their transfers.
 *
 * The undo data of a block (the outputs each non-coinbase transaction
 * spends) is a field of Block: None stands for a block whose undo position
 * is null or whose undo file cannot be read.
 */
module MapPointIndex {
  import opened Wrappers
  import opened Ordering
  import opened MapPointRecords
  import opened MapPointDB
  import MapPointCodec

  datatype PendingTransfer = PendingTransfer(origin: Txid, transferTxid: Txid, height: Uint32, newOwner: string, prevOwner: string)

  /** pending_points (keyed by txid) and pending_transfers (in block order). */
  datatype Pending = Pending(points: map<Txid, Record>, transfers: seq<PendingTransfer>)

  /** A block: its transactions, pindex->nHeight, and the undo records vtxundo. */
  datatype Block = Block(vtx: seq<Transaction>, height: int, undo: Option<seq<seq<TxOut>>>)

  const NO_PENDING: Pending := Pending(map[], [])

  // ---------------------------------------------------------------------
  // Phase one: what the transactions of a block create and transfer
  // ---------------------------------------------------------------------

  /** The origin a transaction transfers: its first payload, when that parses as a transfer payload. */
  function TransferOrigin(tx: Transaction): Option<Txid>
  {
    if tx.isCoinbase then None
    else
      var payload := FirstPayload(tx.vout);
      if payload == [] then None else MapPointCodec.ParseTransferPayload(payload)
  }

  /** A transaction for which WriteBlock needs the block's undo data. */
  predicate NeedsUndo(tx: Transaction)
  {
    RecordOf(tx).None? && TransferOrigin(tx).Some?
  }

  /**
   * What WriteBlock's first loop extracts from a transaction without looking
   * at the database or the undo data: the record it creates, or the origin
   * it transfers together with the address ExtractOwnerAddress finds.
   */
  datatype TxKind = Creates(record: Record) | Transfers(origin: Txid, newOwner: Option<string>) | Plain

  function Classify(tx: Transaction): (k: TxKind)
    ensures k.Creates? <==> RecordOf(tx).Some?
    ensures k.Creates? ==> RecordOf(tx) == Some(k.record)
    ensures k.Transfers? <==> NeedsUndo(tx)
    ensures k.Transfers? ==> TransferOrigin(tx) == Some(k.origin) && k.newOwner == FirstOwner(tx.vout)
  {
    match RecordOf(tx)
    case Some(r) => Creates(r)
    case None =>
      match TransferOrigin(tx)
      case None => Plain
      case Some(origin) => Transfers(origin, FirstOwner(tx.vout))
  }

  function Kinds(vtx: seq<Transaction>): (ks: seq<TxKind>)
    ensures |ks| == |vtx|
  {
    seq(|vtx|, i requires 0 <= i < |vtx| => Classify(vtx[i]))
  }

  /** The owner a transfer of origin replaces: the pending record's, else the stored record's. */
  function PrevOwner(stored: map<Txid, Record>, pendingPoints: map<Txid, Record>, origin: Txid): Option<string>
  {
    if origin in pendingPoints then Some(pendingPoints[origin].currentOwner)
    else if origin in stored then Some(stored[origin].currentOwner)
    else None
  }

  /**
   * The (previous, new) owners of a transfer of origin to newOwner by a
   * transaction with inputCount inputs spending prevouts; None when
   * WriteBlock skips the transaction.
   */
  function DetectTransfer(stored: map<Txid, Record>, pendingPoints: map<Txid, Record>, origin: Txid, newOwner: Option<string>,
                          inputCount: nat, prevouts: seq<TxOut>): Option<(string, string)>
  {
    match PrevOwner(stored, pendingPoints, origin)
    case None => None
    case Some(prev) =>
      if prev == [] || !OwnsInput(inputCount, prevouts, prev) then None
      else if newOwner.None? || newOwner.value == [] || newOwner.value == prev then None
      else Some((prev, newOwner.value))
  }

  /**
   * The body of WriteBlock's first loop for transaction i, of the given
   * kind; None is the early return when the undo data is needed and cannot
   * be loaded.
   */
  function TxStep(stored: map<Txid, Record>, p: Pending, block: Block, kind: TxKind, i: nat): Option<Pending>
    requires i < |block.vtx|
  {
    var tx := block.vtx[i];
    var height := ToUint32(block.height);
    match kind
    case Creates(r) =>
      // std::map::emplace leaves an existing entry in place
      Some(p.(points := if tx.hash in p.points then p.points else p.points[tx.hash := r.(height := height)]))
    case Plain => Some(p)
    case Transfers(origin, newOwner) =>
      if block.undo.None? then None
      else if i == 0 || i - 1 >= |block.undo.value| then Some(p)
      else
        match DetectTransfer(stored, p.points, origin, newOwner, tx.inputCount, block.undo.value[i - 1])
        case None => Some(p)
        case Some(owners) =>
          var points := if origin in p.points then p.points[origin := p.points[origin].(currentOwner := owners.1)] else p.points;
          Some(Pending(points, p.transfers + [PendingTransfer(origin, tx.hash, height, owners.1, owners.0)]))
  }

  /** WriteBlock's first loop over the first n transactions, of the given kinds. */
  function Collect(stored: map<Txid, Record>, block: Block, kinds: seq<TxKind>, n: nat): Option<Pending>
    requires n <= |block.vtx| == |kinds|
    decreases n
  {
    if n == 0 then Some(NO_PENDING)
    else
      match Collect(stored, block, kinds, n - 1)
      case None => None
      case Some(p) => TxStep(stored, p, block, kinds[n - 1], n - 1)
  }

  /** WriteBlock's first loop over the whole block. */
  function CollectBlock(stored: map<Txid, Record>, block: Block): Option<Pending>
  {
    Collect(stored, block, Kinds(block.vtx), |block.vtx|)
  }

  /** One more transaction of the loop is one TxStep from where it stood. */
  lemma CollectStep(stored: map<Txid, Record>, block: Block, i: nat, p: Pending)
    requires i < |block.vtx| && Collect(stored, block, Kinds(block.vtx), i) == Some(p)
    ensures Collect(stored, block, Kinds(block.vtx), i + 1) == TxStep(stored, p, block, Classify(block.vtx[i]), i)
  {
  }

  /** Once the loop has returned early it stays returned. */
  lemma {:induction false} CollectFailStays(stored: map<Txid, Record>, block: Block, kinds: seq<TxKind>, i: nat, n: nat)
    requires i <= n <= |block.vtx| == |kinds| && Collect(stored, block, kinds, i).None?
    ensures Collect(stored, block, kinds, n).None?
    decreases n - i
  {
    if n > i {
      CollectFailStays(stored, block, kinds, i, n - 1);
    }
  }

  lemma {:induction false} CollectFails(stored: map<Txid, Record>, block: Block, kinds: seq<TxKind>, n: nat)
    requires n <= |block.vtx| == |kinds|
    ensures Collect(stored, block, kinds, n).None? <==> block.undo.None? && exists i :: 0 <= i < n && kinds[i].Transfers?
    decreases n
  {
    if n > 0 {
      CollectFails(stored, block, kinds, n - 1);
    }
  }

  /**
   * WriteBlock's first loop fails exactly when the undo data is missing and
   * some transaction that creates no point carries a transfer payload.
   */
  lemma CollectBlockFailsIff(stored: map<Txid, Record>, block: Block)
    ensures CollectBlock(stored, block).None? <==> block.undo.None? && exists i :: 0 <= i < |block.vtx| && NeedsUndo(block.vtx[i])
  {
    var kinds := Kinds(block.vtx);
    CollectFails(stored, block, kinds, |block.vtx|);
    if exists i :: 0 <= i < |block.vtx| && NeedsUndo(block.vtx[i]) {
      var i :| 0 <= i < |block.vtx| && NeedsUndo(block.vtx[i]);
      assert kinds[i].Transfers?;
    }
  }

  lemma {:induction false} CollectPointKeys(stored: map<Txid, Record>, block: Block, kinds: seq<TxKind>, n: nat)
    requires n <= |block.vtx| == |kinds| && Collect(stored, block, kinds, n).Some?
    ensures var p := Collect(stored, block, kinds, n).value;
            forall x :: x in p.points <==> exists i :: 0 <= i < n && block.vtx[i].hash == x && kinds[i].Creates?
    decreases n
  {
    if n > 0 {
      CollectPointKeys(stored, block, kinds, n - 1);
      var p := Collect(stored, block, kinds, n - 1).value;
      var p' := Collect(stored, block, kinds, n).value;
      forall x ensures x in p'.points <==> exists i :: 0 <= i < n && block.vtx[i].hash == x && kinds[i].Creates? {
        if exists i :: 0 <= i < n - 1 && block.vtx[i].hash == x && kinds[i].Creates? {
          var i :| 0 <= i < n - 1 && block.vtx[i].hash == x && kinds[i].Creates?;
          assert x in p.points;
        }
      }
    }
  }

  lemma {:induction false} CollectPointRecords(stored: map<Txid, Record>, block: Block, kinds: seq<TxKind>, n: nat)
    requires n <= |block.vtx| == |kinds| && Collect(stored, block, kinds, n).Some?
    ensures var p := Collect(stored, block, kinds, n).value;
            forall x :: x in p.points ==>
              exists i :: 0 <= i < n && block.vtx[i].hash == x && kinds[i].Creates?
                          && p.points[x].(currentOwner := kinds[i].record.currentOwner) == kinds[i].record.(height := ToUint32(block.height))
    decreases n
  {
    if n > 0 {
      CollectPointRecords(stored, block, kinds, n - 1);
      var p := Collect(stored, block, kinds, n - 1).value;
      var p' := Collect(stored, block, kinds, n).value;
      var h := ToUint32(block.height);
      forall x | x in p'.points
        ensures exists i :: 0 <= i < n && block.vtx[i].hash == x && kinds[i].Creates?
                            && p'.points[x].(currentOwner := kinds[i].record.currentOwner) == kinds[i].record.(height := h)
      {
        if x in p.points {
          var i :| 0 <= i < n - 1 && block.vtx[i].hash == x && kinds[i].Creates?
                   && p.points[x].(currentOwner := kinds[i].record.currentOwner) == kinds[i].record.(height := h);
          assert p'.points[x].(currentOwner := kinds[i].record.currentOwner) == p.points[x].(currentOwner := kinds[i].record.currentOwner);
        } else {
          assert block.vtx[n - 1].hash == x && kinds[n - 1].Creates?;
        }
      }
    }
  }

  /**
   * The pending points are exactly the txids of the transactions that
   * create a point, each holding its creator's record at the block's
   * height, up to its current owner.
   */
  lemma CollectBlockPoints(stored: map<Txid, Record>, block: Block)
    requires CollectBlock(stored, block).Some?
    ensures var p := CollectBlock(stored, block).value;
            forall x :: x in p.points <==> exists i :: 0 <= i < |block.vtx| && block.vtx[i].hash == x && RecordOf(block.vtx[i]).Some?
    ensures var p := CollectBlock(stored, block).value;
            forall x :: x in p.points ==>
              exists i :: 0 <= i < |block.vtx| && block.vtx[i].hash == x && RecordOf(block.vtx[i]).Some?
                          && p.points[x].(currentOwner := RecordOf(block.vtx[i]).value.currentOwner)
                             == RecordOf(block.vtx[i]).value.(height := ToUint32(block.height))
  {
    var kinds := Kinds(block.vtx);
    var n := |block.vtx|;
    CollectPointKeys(stored, block, kinds, n);
    CollectPointRecords(stored, block, kinds, n);
    var p := CollectBlock(stored, block).value;
    forall x ensures x in p.points <==> exists i :: 0 <= i < n && block.vtx[i].hash == x && RecordOf(block.vtx[i]).Some? {
      if exists i :: 0 <= i < n && block.vtx[i].hash == x && RecordOf(block.vtx[i]).Some? {
        var i :| 0 <= i < n && block.vtx[i].hash == x && RecordOf(block.vtx[i]).Some?;
        assert kinds[i].Creates?;
      }
    }
    forall x | x in p.points
      ensures exists i :: 0 <= i < n && block.vtx[i].hash == x && RecordOf(block.vtx[i]).Some?
                          && p.points[x].(currentOwner := RecordOf(block.vtx[i]).value.currentOwner)
                             == RecordOf(block.vtx[i]).value.(height := ToUint32(block.height))
    {
      var i :| 0 <= i < n && block.vtx[i].hash == x && kinds[i].Creates?
               && p.points[x].(currentOwner := kinds[i].record.currentOwner) == kinds[i].record.(height := ToUint32(block.height));
      assert RecordOf(block.vtx[i]) == Some(kinds[i].record);
    }
  }

  /** The facts about transaction i that let WriteBlock record pt. */
  ghost predicate KindJustifies(block: Block, kinds: seq<TxKind>, i: int, pt: PendingTransfer)
  {
    && 0 <= i < |block.vtx| && i < |kinds|
    && 0 < i && block.vtx[i].hash == pt.transferTxid
    && kinds[i] == Transfers(pt.origin, Some(pt.newOwner))
    && block.undo.Some? && i - 1 < |block.undo.value|
    && pt.prevOwner != [] && OwnsInput(block.vtx[i].inputCount, block.undo.value[i - 1], pt.prevOwner)
    && pt.newOwner != [] && pt.newOwner != pt.prevOwner
    && pt.height == ToUint32(block.height)
  }

  ghost predicate KindMade(block: Block, kinds: seq<TxKind>, n: nat, pt: PendingTransfer)
  {
    exists i :: 0 <= i < n && KindJustifies(block, kinds, i, pt)
  }

  lemma {:induction false} CollectTransfers(stored: map<Txid, Record>, block: Block, kinds: seq<TxKind>, n: nat)
    requires n <= |block.vtx| == |kinds| && Collect(stored, block, kinds, n).Some?
    ensures var ts := Collect(stored, block, kinds, n).value.transfers;
            forall j :: 0 <= j < |ts| ==> KindMade(block, kinds, n, ts[j])
    decreases n
  {
    if n > 0 {
      CollectTransfers(stored, block, kinds, n - 1);
      var ts := Collect(stored, block, kinds, n - 1).value.transfers;
      var ts' := Collect(stored, block, kinds, n).value.transfers;
      forall j | 0 <= j < |ts'| ensures KindMade(block, kinds, n, ts'[j]) {
        if j < |ts| {
          assert ts'[j] == ts[j];
          assert KindMade(block, kinds, n - 1, ts[j]);
        } else {
          assert KindJustifies(block, kinds, n - 1, ts'[j]);
        }
      }
    }
  }

  /** pending_transfers entry pt was made by a transaction of the block that meets every rule of WriteBlock. */
  ghost predicate Justified(block: Block, i: int, pt: PendingTransfer)
    requires 0 <= i < |block.vtx|
  {
    && 0 < i && block.vtx[i].hash == pt.transferTxid
    && RecordOf(block.vtx[i]).None? && TransferOrigin(block.vtx[i]) == Some(pt.origin)
    && block.undo.Some? && i - 1 < |block.undo.value|
    && pt.prevOwner != [] && OwnsInput(block.vtx[i].inputCount, block.undo.value[i - 1], pt.prevOwner)
    && FirstOwner(block.vtx[i].vout) == Some(pt.newOwner)
    && pt.newOwner != [] && pt.newOwner != pt.prevOwner
    && pt.height == ToUint32(block.height)
  }

  /**
   * A transfer is recorded only for a transaction (never the coinbase at
   * index 0) that creates no point and carries a transfer payload, when the
   * origin's owner is non-empty and paid by one of the spent outputs and the
   * new owner is non-empty and different.
   */
  ghost predicate MadeIn(block: Block, pt: PendingTransfer)
  {
    exists i :: 0 <= i < |block.vtx| && Justified(block, i, pt)
  }

  lemma CollectBlockTransfers(stored: map<Txid, Record>, block: Block)
    requires CollectBlock(stored, block).Some?
    ensures var ts := CollectBlock(stored, block).value.transfers;
            forall j :: 0 <= j < |ts| ==> MadeIn(block, ts[j])
  {
    var kinds := Kinds(block.vtx);
    CollectTransfers(stored, block, kinds, |block.vtx|);
    var ts := CollectBlock(stored, block).value.transfers;
    forall j | 0 <= j < |ts| ensures MadeIn(block, ts[j]) {
      assert KindMade(block, kinds, |block.vtx|, ts[j]);
      var i :| 0 <= i < |block.vtx| && KindJustifies(block, kinds, i, ts[j]);
      assert kinds[i] == Classify(block.vtx[i]);
      assert Justified(block, i, ts[j]);
    }
  }

  predicate DistinctHashes(block: Block)
  {
    forall i, j :: 0 <= i < j < |block.vtx| ==> block.vtx[i].hash != block.vtx[j].hash
  }

  /** Every pending transfer's txid is the hash of one of the first n transactions, and no two coincide. */
  lemma {:induction false} CollectTransferTxids(stored: map<Txid, Record>, block: Block, kinds: seq<TxKind>, n: nat)
    requires n <= |block.vtx| == |kinds| && Collect(stored, block, kinds, n).Some? && DistinctHashes(block)
    ensures var ts := Collect(stored, block, kinds, n).value.transfers;
            forall j :: 0 <= j < |ts| ==> exists i :: 0 <= i < n && block.vtx[i].hash == ts[j].transferTxid
    ensures var ts := Collect(stored, block, kinds, n).value.transfers;
            forall j, k :: 0 <= j < k < |ts| ==> ts[j].transferTxid != ts[k].transferTxid
    decreases n
  {
    if n > 0 {
      CollectTransferTxids(stored, block, kinds, n - 1);
      var ts := Collect(stored, block, kinds, n - 1).value.transfers;
      var ts' := Collect(stored, block, kinds, n).value.transfers;
      if |ts'| > |ts| {
        forall j | 0 <= j < |ts| ensures ts'[j].transferTxid != ts'[|ts|].transferTxid {
          var i :| 0 <= i < n - 1 && block.vtx[i].hash == ts[j].transferTxid;
          assert ts'[j] == ts[j];
        }
      }
    }
  }

  /** The new owner of the last transfer of x in ts, or d when ts has none. */
  function LastNewOwner(ts: seq<PendingTransfer>, x: Txid, d: string): (owner: string)
    decreases |ts|
  {
    if ts == [] then d
    else if ts[|ts| - 1].origin == x then ts[|ts| - 1].newOwner
    else LastNewOwner(ts[..|ts| - 1], x, d)
  }

  lemma {:induction false} LastNewOwnerNone(ts: seq<PendingTransfer>, x: Txid, d: string)
    requires forall j :: 0 <= j < |ts| ==> ts[j].origin != x
    ensures LastNewOwner(ts, x, d) == d
    decreases |ts|
  {
    if ts != [] {
      LastNewOwnerNone(ts[..|ts| - 1], x, d);
    }
  }

  lemma LastNewOwnerSnoc(ts: seq<PendingTransfer>, pt: PendingTransfer, x: Txid, d: string)
    ensures LastNewOwner(ts + [pt], x, d) == if pt.origin == x then pt.newOwner else LastNewOwner(ts, x, d)
  {
    assert (ts + [pt])[..|ts|] == ts;
  }

  /**
   * When no transaction of the block re-creates a stored txid, a pending
   * point's current owner is the new owner of its last pending transfer, or
   * its origin owner when it has none, and every pending transfer's origin
   * is pending or stored.
   */
  lemma {:induction false} CollectPendingOwner(stored: map<Txid, Record>, block: Block, kinds: seq<TxKind>, n: nat)
    requires n <= |block.vtx| == |kinds| && Collect(stored, block, kinds, n).Some?
    requires forall i :: 0 <= i < |block.vtx| ==> block.vtx[i].hash !in stored
    requires forall i :: 0 <= i < |kinds| && kinds[i].Creates? ==> kinds[i].record.currentOwner == kinds[i].record.originOwner
    ensures var p := Collect(stored, block, kinds, n).value;
            forall x :: x in p.points ==> p.points[x].currentOwner == LastNewOwner(p.transfers, x, p.points[x].originOwner)
    ensures var p := Collect(stored, block, kinds, n).value;
            forall j :: 0 <= j < |p.transfers| ==> p.transfers[j].origin in p.points || p.transfers[j].origin in stored
    decreases n
  {
    if n > 0 {
      CollectPendingOwner(stored, block, kinds, n - 1);
      var p := Collect(stored, block, kinds, n - 1).value;
      var p' := Collect(stored, block, kinds, n).value;
      var tx := block.vtx[n - 1];
      if kinds[n - 1].Creates? {
        assert p'.transfers == p.transfers;
        if tx.hash !in p.points {
          assert tx.hash !in stored;
          LastNewOwnerNone(p.transfers, tx.hash, kinds[n - 1].record.originOwner);
        }
      } else if |p'.transfers| > |p.transfers| {
        var pt := p'.transfers[|p.transfers|];
        assert p'.transfers == p.transfers + [pt];
        forall x | x in p'.points ensures p'.points[x].currentOwner == LastNewOwner(p'.transfers, x, p'.points[x].originOwner) {
          LastNewOwnerSnoc(p.transfers, pt, x, p.points[x].originOwner);
        }
      } else {
        assert p' == p;
      }
    }
  }

  /**
   * When no transaction of the block re-creates a stored txid, a point
   * created in the block and transferred later in it is written with the new
   * owner of its last transfer in the block.
   */
  lemma CollectBlockPendingOwner(stored: map<Txid, Record>, block: Block)
    requires CollectBlock(stored, block).Some?
    requires forall i :: 0 <= i < |block.vtx| ==> block.vtx[i].hash !in stored
    ensures var p := CollectBlock(stored, block).value;
            forall x :: x in p.points ==> p.points[x].currentOwner == LastNewOwner(p.transfers, x, p.points[x].originOwner)
    ensures var p := CollectBlock(stored, block).value;
            forall j :: 0 <= j < |p.transfers| ==> p.transfers[j].origin in p.points || p.transfers[j].origin in stored
  {
    CollectPendingOwner(stored, block, Kinds(block.vtx), |block.vtx|);
  }

  // ---------------------------------------------------------------------
  // Phase two: writing what the block created and transferred
  // ---------------------------------------------------------------------

  /** The (txid, record) pairs of pending_points in the map's key order. */
  ghost function Creations(p: Pending): (cs: seq<(Txid, Record)>)
    ensures forall j :: 0 <= j < |cs| ==> cs[j].0 in p.points && cs[j].1 == p.points[cs[j].0]
    ensures forall j, k :: 0 <= j < k < |cs| ==> cs[j].0 < cs[k].0
    ensures |cs| == |p.points.Keys|
  {
    NatOrder();
    var keys := SortedSeq(p.points.Keys, NatLess);
    assert forall j :: 0 <= j < |keys| ==> keys[j] in keys;
    seq(|keys|, j requires 0 <= j < |keys| => (keys[j], p.points[keys[j]]))
  }

  /** Every pending point is among the creations. */
  lemma CreationsCover(p: Pending, x: Txid)
    requires x in p.points
    ensures exists j :: 0 <= j < |Creations(p)| && Creations(p)[j].0 == x
  {
    NatOrder();
    var keys := SortedSeq(p.points.Keys, NatLess);
    var j :| 0 <= j < |keys| && keys[j] == x;
    assert Creations(p)[j].0 == x;
  }

  /** The second loop's body: move the stored point to its new owner and record the transfer, unless the point is missing. */
  function ApplyTransfer(t: Tables, pt: PendingTransfer): Tables
  {
    if pt.origin !in t.points then t
    else WriteTransferSpec(SetOwner(t, pt.origin, pt.newOwner), TransferKey(pt.origin, pt.transferTxid),
                           TransferRecord(pt.height, pt.newOwner, pt.prevOwner))
  }

  function ApplyTransfers(t: Tables, ts: seq<PendingTransfer>): Tables
    decreases |ts|
  {
    if ts == [] then t else ApplyTransfer(ApplyTransfers(t, ts[..|ts| - 1]), ts[|ts| - 1])
  }

  /** What a successful WriteBlock leaves in the database. */
  ghost function ApplyBlock(t: Tables, p: Pending): Tables
  {
    ApplyTransfers(WritePointsSpec(t, Creations(p)), p.transfers)
  }

  /** Some transfer of ts has txid x. */
  ghost predicate UsesTxid(ts: seq<PendingTransfer>, x: Txid)
  {
    exists j :: 0 <= j < |ts| && ts[j].transferTxid == x
  }

  /** No transfer of ts reuses a recorded transfer txid, and no two share one. */
  ghost predicate FreshTransfers(t: Tables, ts: seq<PendingTransfer>)
  {
    && (forall k :: k in t.transfers ==> !UsesTxid(ts, k.transfer))
    && (forall j, k :: 0 <= j < k < |ts| ==> ts[j].transferTxid != ts[k].transferTxid)
  }

  /** Applying fresh transfers keeps the index invariant and the set of points. */
  lemma {:induction false} ApplyTransfersConsistent(t: Tables, ts: seq<PendingTransfer>)
    requires Consistent(t) && FreshTransfers(t, ts)
    ensures Consistent(ApplyTransfers(t, ts))
    ensures ApplyTransfers(t, ts).points.Keys == t.points.Keys
    ensures forall k :: k in ApplyTransfers(t, ts).transfers ==> k in t.transfers || UsesTxid(ts, k.transfer)
    decreases |ts|
  {
    if ts != [] {
      var init := ts[..|ts| - 1];
      var last := ts[|ts| - 1];
      forall x | UsesTxid(init, x) ensures UsesTxid(ts, x) {
        var j :| 0 <= j < |init| && init[j].transferTxid == x;
        assert ts[j] == init[j];
      }
      ApplyTransfersConsistent(t, init);
      var t1 := ApplyTransfers(t, init);
      if last.origin in t1.points {
        SetOwnerConsistent(t1, last.origin, last.newOwner);
        var t2 := SetOwner(t1, last.origin, last.newOwner);
        var key := TransferKey(last.origin, last.transferTxid);
        assert !UsesTxid(init, last.transferTxid) by {
          forall j | 0 <= j < |init| ensures init[j].transferTxid != last.transferTxid {
            assert ts[j] == init[j];
          }
        }
        assert UsesTxid(ts, last.transferTxid) by {
          assert ts[|ts| - 1].transferTxid == last.transferTxid;
        }
        WriteTransferConsistent(t2, key, TransferRecord(last.height, last.newOwner, last.prevOwner));
      }
    }
  }

  /** The hashes of the block's transactions are new to the database. */
  ghost predicate FreshBlock(t: Tables, block: Block)
  {
    && DistinctHashes(block)
    && (forall i :: 0 <= i < |block.vtx| ==> block.vtx[i].hash !in t.points)
    && (forall i, k :: 0 <= i < |block.vtx| && k in t.transfers ==> k.transfer != block.vtx[i].hash)
  }

  /**
   * A successful WriteBlock of a block whose transaction hashes are new
   * keeps the index invariant: it adds exactly the created points, and every
   * transfer and owner key it writes agrees with the stored records.
   */
  lemma WriteBlockConsistent(t: Tables, block: Block)
    requires Consistent(t) && FreshBlock(t, block) && CollectBlock(t.points, block).Some?
    ensures Consistent(ApplyBlock(t, CollectBlock(t.points, block).value))
    ensures ApplyBlock(t, CollectBlock(t.points, block).value).points.Keys == t.points.Keys + CollectBlock(t.points, block).value.points.Keys
  {
    var p := CollectBlock(t.points, block).value;
    var cs := Creations(p);
    CreationsFresh(t, block);
    WritePointsConsistent(t, cs);
    PendingTransfersFresh(t, block);
    ApplyTransfersConsistent(WritePointsSpec(t, cs), p.transfers);
    CreatedKeys(t, block);
  }

  lemma CreationsFresh(t: Tables, block: Block)
    requires FreshBlock(t, block) && CollectBlock(t.points, block).Some?
    ensures FreshRecords(t, Creations(CollectBlock(t.points, block).value))
  {
    var p := CollectBlock(t.points, block).value;
    CollectBlockPoints(t.points, block);
    var cs := Creations(p);
    forall j | 0 <= j < |cs| ensures cs[j].0 !in t.points {
      var i :| 0 <= i < |block.vtx| && block.vtx[i].hash == cs[j].0 && RecordOf(block.vtx[i]).Some?;
    }
  }

  lemma PendingTransfersFresh(t: Tables, block: Block)
    requires Consistent(t) && FreshBlock(t, block) && CollectBlock(t.points, block).Some?
    ensures var p := CollectBlock(t.points, block).value;
            FreshTransfers(WritePointsSpec(t, Creations(p)), p.transfers)
  {
    var p := CollectBlock(t.points, block).value;
    CreationsFresh(t, block);
    WritePointsConsistent(t, Creations(p));
    var t1 := WritePointsSpec(t, Creations(p));
    CollectTransferTxids(t.points, block, Kinds(block.vtx), |block.vtx|);
    forall k | k in t1.transfers ensures !UsesTxid(p.transfers, k.transfer) {
      forall j | 0 <= j < |p.transfers| ensures p.transfers[j].transferTxid != k.transfer {
        var i :| 0 <= i < |block.vtx| && block.vtx[i].hash == p.transfers[j].transferTxid;
        assert k in t.transfers;
      }
    }
  }

  lemma CreatedKeys(t: Tables, block: Block)
    requires FreshBlock(t, block) && CollectBlock(t.points, block).Some?
    ensures var p := CollectBlock(t.points, block).value;
            WritePointsSpec(t, Creations(p)).points.Keys == t.points.Keys + p.points.Keys
  {
    var p := CollectBlock(t.points, block).value;
    var cs := Creations(p);
    CreationsFresh(t, block);
    WritePointsPoints(t, cs);
    var t1 := WritePointsSpec(t, cs);
    forall x ensures x in t1.points <==> x in t.points || x in p.points {
      if x in p.points {
        CreationsCover(p, x);
        var j :| 0 <= j < |cs| && cs[j].0 == x;
      }
    }
  }

  // ---------------------------------------------------------------------
  // Rewind
  // ---------------------------------------------------------------------

  /** Rewind's first loop: move each stored origin to the owner its update names, in order. */
  function ApplyOwnerUpdates(t: Tables, us: seq<(Txid, string)>): Tables
    decreases |us|
  {
    if us == [] then t else SetOwner(ApplyOwnerUpdates(t, us[..|us| - 1]), us[|us| - 1].0, us[|us| - 1].1)
  }

  /** The owner of the last update of x in us, or d when us has none. */
  function LastUpdate(us: seq<(Txid, string)>, x: Txid, d: string): string
    decreases |us|
  {
    if us == [] then d
    else if us[|us| - 1].0 == x then us[|us| - 1].1
    else LastUpdate(us[..|us| - 1], x, d)
  }

  lemma {:induction false} LastUpdateAt(us: seq<(Txid, string)>, x: Txid, d: string, j: nat)
    requires j < |us| && us[j].0 == x
    requires forall i :: j < i < |us| ==> us[i].0 != x
    ensures LastUpdate(us, x, d) == us[j].1
    decreases |us|
  {
    if j < |us| - 1 {
      var init := us[..|us| - 1];
      assert init[j] == us[j];
      LastUpdateAt(init, x, d, j);
    }
  }

  lemma {:induction false} LastUpdateNone(us: seq<(Txid, string)>, x: Txid, d: string)
    requires forall i :: 0 <= i < |us| ==> us[i].0 != x
    ensures LastUpdate(us, x, d) == d
    decreases |us|
  {
    if us != [] {
      LastUpdateNone(us[..|us| - 1], x, d);
    }
  }

  /**
   * The owner updates keep the index invariant, the set of points, every
   * field but the current owner, and the transfer tables; each point ends
   * with the owner of its last update.
   */
  lemma {:induction false} ApplyOwnerUpdatesSpec(t: Tables, us: seq<(Txid, string)>)
    requires Consistent(t)
    ensures var t' := ApplyOwnerUpdates(t, us);
            && Consistent(t')
            && t'.points.Keys == t.points.Keys
            && t'.transfers == t.transfers && t'.transferHeights == t.transferHeights
            && forall x :: x in t.points ==> t'.points[x] == t.points[x].(currentOwner := LastUpdate(us, x, t.points[x].currentOwner))
    decreases |us|
  {
    if us != [] {
      var init := us[..|us| - 1];
      ApplyOwnerUpdatesSpec(t, init);
      SetOwnerConsistent(ApplyOwnerUpdates(t, init), us[|us| - 1].0, us[|us| - 1].1);
    }
  }

  /** Transfer-height keys of origin x. */
  function OfOrigin(x: Txid): TransferHeightKey -> bool
  {
    (k: TransferHeightKey) => k.origin == x
  }

  /**
   * The owner Rewind to height h gives a point: the previous owner of its
   * earliest transfer above h (least in (height, origin, transfer) order),
   * or its current owner when no transfer of it lies above h.
   */
  ghost function RestoredOwner(t: Tables, h: Uint32, x: Txid): string
    requires TransferHeightIndexed(t) && x in t.points
  {
    TransferHeightKeyOrder();
    var s := Where(Where(t.transferHeights, AboveTransferHeight(h)), OfOrigin(x));
    if s == {} then t.points[x].currentOwner
    else
      var k := Least(s, TransferHeightKeyLess);
      assert k in t.transferHeights;
      t.transfers[TransferKeyOf(k)].previousOwner
  }

  /** The first index of a key of origin x in w, given some index i of one. */
  lemma {:induction false} FirstOfOrigin(w: seq<TransferHeightKey>, x: Txid, i: nat) returns (f: nat)
    requires i < |w| && w[i].origin == x
    ensures f <= i && w[f].origin == x && forall j :: 0 <= j < f ==> w[j].origin != x
    decreases i
  {
    if exists j :: 0 <= j < i && w[j].origin == x {
      var j :| 0 <= j < i && w[j].origin == x;
      f := FirstOfOrigin(w, x, j);
    } else {
      f := i;
    }
  }

  /** The reversed owner updates of RemoveTransfersAboveHeight leave each point with its restored owner. */
  lemma RestoredOwnerIs(t: Tables, h: Uint32, x: Txid)
    requires TransferHeightIndexed(t) && h < UINT32_MAX && x in t.points
    ensures LastUpdate(Reverse(OwnerUpdates(t.transfers, TransferHeightWalk(t, h))), x, t.points[x].currentOwner) == RestoredOwner(t, h, x)
  {
    var w := TransferHeightWalk(t, h);
    if exists i :: 0 <= i < |w| && w[i].origin == x {
      var i0 :| 0 <= i0 < |w| && w[i0].origin == x;
      var i := FirstOfOrigin(w, x, i0);
      RestoredOwnerAt(t, h, x, i);
    } else {
      RestoredOwnerNone(t, h, x);
    }
  }

  /** The reversed updates of a walk end, for x, with the previous owner of x's first key in the walk. */
  lemma ReversedUpdatesFirst(transfers: map<TransferKey, TransferRecord>, w: seq<TransferHeightKey>, x: Txid, d: string, i: nat)
    requires forall k :: 0 <= k < |w| ==> TransferKeyOf(w[k]) in transfers
    requires i < |w| && w[i].origin == x && forall j :: 0 <= j < i ==> w[j].origin != x
    ensures LastUpdate(Reverse(OwnerUpdates(transfers, w)), x, d) == transfers[TransferKeyOf(w[i])].previousOwner
  {
    var us := Reverse(OwnerUpdates(transfers, w));
    OwnerUpdatesAll(transfers, w);
    var j := |w| - 1 - i;
    forall j' | j < j' < |us| ensures us[j'].0 != x {
      assert us[j'].0 == w[|w| - 1 - j'].origin;
    }
    LastUpdateAt(us, x, d, j);
  }

  /** The reversed updates of a walk with no key of x leave x's owner alone. */
  lemma ReversedUpdatesNone(transfers: map<TransferKey, TransferRecord>, w: seq<TransferHeightKey>, x: Txid, d: string)
    requires forall k :: 0 <= k < |w| ==> TransferKeyOf(w[k]) in transfers
    requires forall j :: 0 <= j < |w| ==> w[j].origin != x
    ensures LastUpdate(Reverse(OwnerUpdates(transfers, w)), x, d) == d
  {
    var us := Reverse(OwnerUpdates(transfers, w));
    OwnerUpdatesAll(transfers, w);
    forall j | 0 <= j < |us| ensures us[j].0 != x {
      assert us[j].0 == w[|w| - 1 - j].origin;
    }
    LastUpdateNone(us, x, d);
  }

  lemma RestoredOwnerAt(t: Tables, h: Uint32, x: Txid, i: nat)
    requires TransferHeightIndexed(t) && h < UINT32_MAX && x in t.points
    requires i < |TransferHeightWalk(t, h)| && TransferHeightWalk(t, h)[i].origin == x
    requires forall j :: 0 <= j < i ==> TransferHeightWalk(t, h)[j].origin != x
    ensures LastUpdate(Reverse(OwnerUpdates(t.transfers, TransferHeightWalk(t, h))), x, t.points[x].currentOwner) == RestoredOwner(t, h, x)
  {
    var w := TransferHeightWalk(t, h);
    TransferHeightWalkMembers(t, h);
    ReversedUpdatesFirst(t.transfers, w, x, t.points[x].currentOwner, i);
    TransferHeightWalkIsAbove(t, h);
    var above := Where(t.transferHeights, AboveTransferHeight(h));
    SortedFirstWhere(above, TransferHeightKeyLess, OfOrigin(x), i);
  }

  lemma RestoredOwnerNone(t: Tables, h: Uint32, x: Txid)
    requires TransferHeightIndexed(t) && h < UINT32_MAX && x in t.points
    requires forall j :: 0 <= j < |TransferHeightWalk(t, h)| ==> TransferHeightWalk(t, h)[j].origin != x
    ensures LastUpdate(Reverse(OwnerUpdates(t.transfers, TransferHeightWalk(t, h))), x, t.points[x].currentOwner) == RestoredOwner(t, h, x)
  {
    var w := TransferHeightWalk(t, h);
    TransferHeightWalkMembers(t, h);
    ReversedUpdatesNone(t.transfers, w, x, t.points[x].currentOwner);
    var above := Where(t.transferHeights, AboveTransferHeight(h));
    forall k | k in above ensures !OfOrigin(x)(k) {
      assert k in w;
    }
    assert Where(above, OfOrigin(x)) == {};
  }

  /** Rewind's first two steps: RemoveTransfersAboveHeight and the owner updates it reports. */
  ghost function UndoTransfers(t: Tables, h: Uint32): Tables
  {
    var w := TransferHeightWalk(t, h);
    ApplyOwnerUpdates(RemoveTransfersBatch(t, w), Reverse(OwnerUpdates(t.transfers, w)))
  }

  /**
   * Undoing the transfers above h keeps the index invariant and every
   * point, restores each point's owner, and keeps exactly the transfers at
   * or below h.
   */
  lemma UndoTransfersSpec(t: Tables, h: Uint32)
    requires Consistent(t) && h < UINT32_MAX
    ensures var t' := UndoTransfers(t, h);
            && Consistent(t')
            && t'.points.Keys == t.points.Keys
            && (forall x :: x in t.points ==> t'.points[x] == t.points[x].(currentOwner := RestoredOwner(t, h, x)))
            && (forall k :: k in t'.transfers <==> k in t.transfers && t.transfers[k].height <= h)
            && (forall k :: k in t'.transfers ==> t'.transfers[k] == t.transfers[k])
  {
    var w := TransferHeightWalk(t, h);
    var t1 := RemoveTransfersBatch(t, w);
    RemoveTransfersAboveHeightLeaves(t, h);
    assert Consistent(t1);
    ApplyOwnerUpdatesSpec(t1, Reverse(OwnerUpdates(t.transfers, w)));
    forall x | x in t.points {
      RestoredOwnerIs(t, h, x);
    }
  }

  /** Rewind's last loop: RemoveAllTransfersForOrigin for each origin in turn. */
  ghost function RemoveOrigins(t: Tables, origins: seq<Txid>): Tables
    decreases |origins|
  {
    if origins == [] then t
    else
      var t1 := RemoveOrigins(t, origins[..|origins| - 1]);
      RemoveOriginBatch(t1, origins[|origins| - 1], TransferWalk(t1, origins[|origins| - 1]))
  }

  lemma {:induction false} RemoveOriginsSpec(t: Tables, origins: seq<Txid>)
    requires TransferHeightIndexed(t)
    ensures var t' := RemoveOrigins(t, origins);
            && (forall k :: k in t'.transfers <==> k in t.transfers && k.origin !in origins)
            && (forall k :: k in t'.transfers ==> t'.transfers[k] == t.transfers[k])
            && TransferHeightIndexed(t')
            && t'.points == t.points && t'.heightIndex == t.heightIndex && t'.ownerIndex == t.ownerIndex
    decreases |origins|
  {
    if origins != [] {
      var init := origins[..|origins| - 1];
      var o := origins[|origins| - 1];
      assert forall y :: y in origins <==> y in init || y == o;
      RemoveOriginsSpec(t, init);
      RemoveAllTransfersForOriginSpec(RemoveOrigins(t, init), o);
    }
  }

  /** The database after ErasePointsAboveHeight, Rewind's third step. */
  ghost function ErasedStage(t: Tables, h: Uint32): Tables
  {
    var t2 := UndoTransfers(t, h);
    ErasePointsBatch(t2, EraseWalk(t2, h))
  }

  /** The origins ErasePointsAboveHeight reports. */
  ghost function ErasedOrigins(t: Tables, h: Uint32): seq<Txid>
  {
    var t2 := UndoTransfers(t, h);
    PresentTxids(t2.points, EraseWalk(t2, h))
  }

  /** The database after Rewind to height h. */
  ghost function RewindSpec(t: Tables, h: Uint32): Tables
  {
    RemoveOrigins(ErasedStage(t, h), ErasedOrigins(t, h))
  }

  lemma RewindErases(t: Tables, h: Uint32)
    requires Consistent(t) && h < UINT32_MAX
    ensures var t2 := UndoTransfers(t, h); var t3 := ErasedStage(t, h);
            && (forall x :: x in t3.points <==> x in t2.points && t2.points[x].height <= h)
            && (forall x :: x in t3.points ==> t3.points[x] == t2.points[x])
            && HeightIndexed(t3) && OwnerIndexed(t3)
            && t3.transfers == t2.transfers && t3.transferHeights == t2.transferHeights
            && (forall x :: x in ErasedOrigins(t, h) <==> x in t2.points && t2.points[x].height > h)
  {
    var t2 := UndoTransfers(t, h);
    UndoTransfersSpec(t, h);
    ErasePointsAboveHeightLeaves(t2, h);
    ErasedAbove(t2, h);
  }

  lemma RewindRemoves(t: Tables, h: Uint32)
    requires Consistent(t) && h < UINT32_MAX
    ensures var t3 := ErasedStage(t, h); var t' := RewindSpec(t, h);
            && (forall k :: k in t'.transfers <==> k in t3.transfers && k.origin !in ErasedOrigins(t, h))
            && (forall k :: k in t'.transfers ==> t'.transfers[k] == t3.transfers[k])
            && TransferHeightIndexed(t')
            && t'.points == t3.points && t'.heightIndex == t3.heightIndex && t'.ownerIndex == t3.ownerIndex
  {
    UndoTransfersSpec(t, h);
    RewindErases(t, h);
    RemoveOriginsSpec(ErasedStage(t, h), ErasedOrigins(t, h));
  }

  /** Rewind keeps the index invariant. */
  lemma RewindConsistent(t: Tables, h: Uint32)
    requires Consistent(t) && h < UINT32_MAX
    ensures Consistent(RewindSpec(t, h))
  {
    UndoTransfersSpec(t, h);
    RewindErases(t, h);
    RewindRemoves(t, h);
  }

  /**
   * After Rewind to h the points are exactly those created at or below h,
   * each with the owner it had before its earliest transfer above h.
   */
  lemma RewindPoints(t: Tables, h: Uint32)
    requires Consistent(t) && h < UINT32_MAX
    ensures var t' := RewindSpec(t, h);
            && (forall x :: x in t'.points <==> x in t.points && t.points[x].height <= h)
            && (forall x :: x in t'.points ==> t'.points[x] == t.points[x].(currentOwner := RestoredOwner(t, h, x)))
  {
    UndoTransfersSpec(t, h);
    RewindErases(t, h);
    RewindRemoves(t, h);
    KeptPoints(t, UndoTransfers(t, h), ErasedStage(t, h), RewindSpec(t, h), h);
  }

  /** The point bookkeeping behind RewindPoints, over the stages as plain values. */
  lemma KeptPoints(t: Tables, t2: Tables, t3: Tables, t': Tables, h: Uint32)
    requires TransferHeightIndexed(t) && t2.points.Keys == t.points.Keys
    requires forall x :: x in t.points ==> t2.points[x] == t.points[x].(currentOwner := RestoredOwner(t, h, x))
    requires forall x :: x in t3.points <==> x in t2.points && t2.points[x].height <= h
    requires forall x :: x in t3.points ==> t3.points[x] == t2.points[x]
    requires t'.points == t3.points
    ensures forall x :: x in t'.points <==> x in t.points && t.points[x].height <= h
    ensures forall x :: x in t'.points ==> t'.points[x] == t.points[x].(currentOwner := RestoredOwner(t, h, x))
  {
  }

  /**
   * After Rewind to h the transfers are exactly those made at or below h of
   * points created at or below h, unchanged.
   */
  lemma RewindTransfers(t: Tables, h: Uint32)
    requires Consistent(t) && h < UINT32_MAX
    ensures var t' := RewindSpec(t, h);
            && (forall k :: k in t'.transfers <==>
                  k in t.transfers && t.transfers[k].height <= h && k.origin in t.points && t.points[k.origin].height <= h)
            && (forall k :: k in t'.transfers ==> t'.transfers[k] == t.transfers[k])
  {
    UndoTransfersSpec(t, h);
    RewindErases(t, h);
    RewindRemoves(t, h);
    var t2 := UndoTransfers(t, h);
    KeptTransfers(t, t2, RewindSpec(t, h), h, ErasedOrigins(t, h));
  }

  /** The transfer bookkeeping behind RewindTransfers, over the stages as plain values. */
  lemma KeptTransfers(t: Tables, t2: Tables, t': Tables, h: Uint32, removed: seq<Txid>)
    requires OriginsStored(t2) && t2.points.Keys == t.points.Keys
    requires forall x :: x in t.points ==> t2.points[x].height == t.points[x].height
    requires forall k :: k in t2.transfers <==> k in t.transfers && t.transfers[k].height <= h
    requires forall k :: k in t2.transfers ==> t2.transfers[k] == t.transfers[k]
    requires forall x :: x in removed <==> x in t2.points && t2.points[x].height > h
    requires forall k :: k in t'.transfers <==> k in t2.transfers && k.origin !in removed
    requires forall k :: k in t'.transfers ==> t'.transfers[k] == t2.transfers[k]
    ensures forall k :: k in t'.transfers <==>
              k in t.transfers && t.transfers[k].height <= h && k.origin in t.points && t.points[k.origin].height <= h
    ensures forall k :: k in t'.transfers ==> t'.transfers[k] == t.transfers[k]
  {
    forall k ensures k in t'.transfers <==>
                     k in t.transfers && t.transfers[k].height <= h && k.origin in t.points && t.points[k.origin].height <= h
    {
      if k in t2.transfers {
        assert k.origin in t2.points;
      }
    }
  }

  // ---------------------------------------------------------------------
  // Query arguments
  // ---------------------------------------------------------------------

  /** std::max(0, from_height) converted to uint32_t. */
  function HeightFrom(fromHeight: int): (h: Uint32)
    ensures 0 <= fromHeight < UINT32_LIMIT ==> h == fromHeight
    ensures fromHeight <= 0 ==> h == 0
  {
    if fromHeight < 0 then 0 else ToUint32(fromHeight)
  }

  /** A negative to_height means no upper bound; otherwise it is converted to uint32_t. */
  function HeightTo(toHeight: int): (h: Uint32)
    ensures toHeight < 0 ==> h == UINT32_MAX
    ensures 0 <= toHeight < UINT32_LIMIT ==> h == toHeight
  {
    if toHeight < 0 then UINT32_MAX else ToUint32(toHeight)
  }

  // ---------------------------------------------------------------------
  // The index object
  // ---------------------------------------------------------------------

  class MapPointIndex {
    const db: DB

    /** An index over a freshly wiped database. */
    constructor()
      ensures fresh(db) && db.State() == EMPTY
    {
      db := new DB();
    }

    /** The body of WriteBlock's first loop for transaction i. */
    method TxPending(p: Pending, block: Block, i: nat) returns (r: Option<Pending>)
      requires i < |block.vtx|
      ensures r == TxStep(db.points, p, block, Classify(block.vtx[i]), i)
    {
      var tx := block.vtx[i];
      var height := ToUint32(block.height);
      var record := ExtractRecord(tx);
      if record.Some? {
        if tx.hash in p.points {
          return Some(p);
        }
        return Some(p.(points := p.points[tx.hash := record.value.(height := height)]));
      }
      if tx.isCoinbase {
        return Some(p);
      }
      var payload := FindPayload(tx.vout);
      if payload == [] {
        return Some(p);
      }
      var origin := MapPointCodec.ParseTransferPayload(payload);
      if origin.None? {
        return Some(p);
      }
      if block.undo.None? {
        return None;
      }
      if i == 0 || i - 1 >= |block.undo.value| {
        return Some(p);
      }
      var prev: string;
      if origin.value in p.points {
        prev := p.points[origin.value].currentOwner;
      } else {
        var existing := db.ReadPoint(origin.value);
        if existing.None? {
          return Some(p);
        }
        prev := existing.value.currentOwner;
      }
      if prev == [] {
        return Some(p);
      }
      var owns := CheckOwnsInput(tx.inputCount, block.undo.value[i - 1], prev);
      if !owns {
        return Some(p);
      }
      var newOwner := ExtractOwnerAddress(tx.vout);
      if newOwner.None? || newOwner.value == [] || newOwner.value == prev {
        return Some(p);
      }
      var points := p.points;
      if origin.value in points {
        points := points[origin.value := points[origin.value].(currentOwner := newOwner.value)];
      }
      return Some(Pending(points, p.transfers + [PendingTransfer(origin.value, tx.hash, height, newOwner.value, prev)]));
    }

    /** One iteration of WriteBlock's first loop. */
    method CollectNext(p: Pending, block: Block, i: nat) returns (r: Option<Pending>)
      requires i < |block.vtx| && Collect(db.points, block, Kinds(block.vtx), i) == Some(p)
      ensures r == Collect(db.points, block, Kinds(block.vtx), i + 1)
      ensures r.None? ==> CollectBlock(db.points, block).None?
    {
      r := TxPending(p, block, i);
      CollectStep(db.points, block, i, p);
      if r.None? {
        CollectFailStays(db.points, block, Kinds(block.vtx), i + 1, |block.vtx|);
      }
    }

    /** WriteBlock's first loop; None when the undo data is needed and missing. */
    method CollectPending(block: Block) returns (r: Option<Pending>)
      ensures r == CollectBlock(db.points, block)
    {
      r := Some(NO_PENDING);
      var i := 0;
      while i < |block.vtx| && r.Some?
        invariant 0 <= i <= |block.vtx|
        invariant r.Some? ==> Collect(db.points, block, Kinds(block.vtx), i) == r
        invariant r.None? ==> CollectBlock(db.points, block).None?
      {
        r := CollectNext(r.value, block, i);
        i := i + 1;
      }
    }

    /** pending_points copied into a vector in the map's key order. */
    static method CreationsOf(p: Pending) returns (cs: seq<(Txid, Record)>)
      ensures cs == Creations(p)
    {
      NatOrder();
      var keys := Ascending(p.points.Keys, NatLess);
      assert forall j :: 0 <= j < |keys| ==> keys[j] in keys;
      cs := seq(|keys|, j requires 0 <= j < |keys| => (keys[j], p.points[keys[j]]));
    }

    /**
     * MapPointIndex::WriteBlock: fails, leaving the database as it was,
     * exactly when the first loop needs the missing undo data; otherwise
     * writes the block's points and then its transfers.
     */
    method WriteBlock(block: Block) returns (ok: bool)
      modifies db
      ensures ok <==> CollectBlock(old(db.points), block).Some?
      ensures ok ==> db.State() == ApplyBlock(old(db.State()), CollectBlock(old(db.points), block).value)
      ensures !ok ==> db.State() == old(db.State())
    {
      var pending := CollectPending(block);
      if pending.None? {
        return false;
      }
      var p := pending.value;
      var creations := CreationsOf(p);
      if |p.points| != 0 {
        db.WritePoints(creations);
      } else {
        assert creations == [];
      }
      WriteTransfers(p.transfers);
      return true;
    }

    /** WriteBlock's second loop. */
    method WriteTransfers(ts: seq<PendingTransfer>)
      modifies db
      ensures db.State() == ApplyTransfers(old(db.State()), ts)
    {
      ghost var t := db.State();
      var i := 0;
      while i < |ts|
        invariant 0 <= i <= |ts|
        invariant db.State() == ApplyTransfers(t, ts[..i])
      {
        PrefixStep(ts, i);
        WriteTransfer(ts[i]);
        i := i + 1;
      }
      PrefixAll(ts, i);
    }

    /** One pending transfer: skipped when the point is missing, otherwise the new owner and the transfer record. */
    method WriteTransfer(pt: PendingTransfer)
      modifies db
      ensures db.State() == ApplyTransfer(old(db.State()), pt)
    {
      var record := db.ReadPoint(pt.origin);
      if record.Some? {
        SetOwner(pt.origin, record.value, pt.newOwner);
        db.WriteTransfer(TransferKey(pt.origin, pt.transferTxid), TransferRecord(pt.height, pt.newOwner, pt.prevOwner));
      }
    }

    /** WriteRecord with the new owner, then UpdateOwnerIndex from the owner it replaces. */
    method SetOwner(origin: Txid, record: Record, owner: string)
      requires origin in db.points && db.points[origin] == record
      modifies db
      ensures db.State() == MapPointDB.SetOwner(old(db.State()), origin, owner)
    {
      var currentOwner := record.currentOwner;
      db.WriteRecord(origin, record.(currentOwner := owner));
      db.UpdateOwnerIndex(currentOwner, owner, origin);
    }

    /**
     * MapPointIndex::Rewind to a new tip at newTipHeight: undo the transfers
     * above it, restore the owners they replaced, erase the points above it
     * and every transfer of those points.
     */
    method Rewind(newTipHeight: int)
      modifies db
      ensures db.State() == RewindSpec(old(db.State()), ToUint32(newTipHeight))
    {
      var h := ToUint32(newTipHeight);
      ghost var t := db.State();
      var updates := db.RemoveTransfersAboveHeight(h);
      RestoreOwners(updates);
      assert db.State() == UndoTransfers(t, h);
      var removed := db.ErasePointsAboveHeight(h);
      RemoveTransfersOf(removed);
    }

    /** Rewind's first loop. */
    method RestoreOwners(updates: seq<(Txid, string)>)
      modifies db
      ensures db.State() == ApplyOwnerUpdates(old(db.State()), updates)
    {
      ghost var t := db.State();
      var i := 0;
      while i < |updates|
        invariant 0 <= i <= |updates|
        invariant db.State() == ApplyOwnerUpdates(t, updates[..i])
      {
        PrefixStep(updates, i);
        var (origin, owner) := updates[i];
        var record := db.ReadPoint(origin);
        if record.Some? {
          SetOwner(origin, record.value, owner);
        }
        i := i + 1;
      }
      PrefixAll(updates, i);
    }

    /** Rewind's last loop. */
    method RemoveTransfersOf(origins: seq<Txid>)
      modifies db
      ensures db.State() == RemoveOrigins(old(db.State()), origins)
    {
      ghost var t := db.State();
      var j := 0;
      while j < |origins|
        invariant 0 <= j <= |origins|
        invariant db.State() == RemoveOrigins(t, origins[..j])
      {
        PrefixStep(origins, j);
        db.RemoveAllTransfersForOrigin(origins[j]);
        j := j + 1;
      }
      PrefixAll(origins, j);
    }

    /** MapPointIndex::GetPoint: the stored point with its transfers, or None. */
    method GetPoint(txid: Txid) returns (r: Option<PointInfo>)
      ensures r.Some? <==> txid in db.points
      ensures r.Some? ==> r.value.(transfers := []) == MakeInfo(txid, db.points[txid])
      ensures r.Some? ==> SortedBy(r.value.transfers, TransferInfoLe)
      ensures r.Some? ==> multiset(r.value.transfers) == multiset(TransferInfos(db.transfers, txid, TransferWalk(db.State(), txid)))
    {
      var record := db.ReadPoint(txid);
      if record.None? {
        return None;
      }
      var transfers := GetTransfers(txid);
      return Some(MakeInfo(txid, record.value).(transfers := transfers));
    }

    /** MapPointIndex::GetTransfers: the point's transfers in ReadTransfers' order. */
    method GetTransfers(txid: Txid) returns (out: seq<TransferInfo>)
      ensures SortedBy(out, TransferInfoLe)
      ensures multiset(out) == multiset(TransferInfos(db.transfers, txid, TransferWalk(db.State(), txid)))
    {
      out := db.ReadTransfers(txid);
    }

    /** MapPointIndex::GetPointsForOwner: nothing for no owners, else ReadOwners over the clamped heights. */
    method GetPointsForOwner(owners: seq<string>, fromHeight: int, toHeight: int) returns (out: seq<PointInfo>)
      ensures owners == [] ==> out == []
      ensures out == OwnersRead(db.State(), owners, HeightFrom(fromHeight), HeightTo(toHeight))
    {
      if owners == [] {
        return [];
      }
      out := db.ReadOwners(owners, HeightFrom(fromHeight), HeightTo(toHeight));
    }

    /** MapPointIndex::GetPointsInHeightRange: ReadByHeight over the clamped heights. */
    method GetPointsInHeightRange(fromHeight: int, toHeight: int) returns (out: seq<PointInfo>)
      ensures out == HeightInfos(db.points, HeightWalk(db.State(), HeightFrom(fromHeight), HeightTo(toHeight)))
    {
      out := db.ReadByHeight(HeightFrom(fromHeight), HeightTo(toHeight));
    }
  }
}
