/**
 * MapPointIndex::DB: the five LevelDB tables of the map-point index and the
 * operations over them.
 *
 * Each table is a field: the point table maps an origin txid to its Record,
 * the transfer table maps a (origin, transfer) key to its TransferRecord, and
 * the three key-only tables (height index, owner index, transfer-height
 * index) are sets of keys. A cursor walk from a seek key is the ascending
 * walk (Ordering.Ascending) of the keys at or after that key. A CDBBatch
 * reads nothing it has not committed: the loops below read the fields, which
 * they leave unchanged, collect what the batch erases, and the method
 * assigns the fields once the loop is over.
 *
 * Keys are ordered numerically by height here; the byte order LevelDB
 * actually gives a little-endian height is the subject of module
 * MapPointKeyBytes.
 */
module MapPointDB {
  import opened Wrappers
  import opened Ordering
  import opened MapPointRecords

  datatype Tables = Tables(points: map<Txid, Record>, heightIndex: set<HeightKey>, ownerIndex: set<OwnerKey>,
                           transfers: map<TransferKey, TransferRecord>, transferHeights: set<TransferHeightKey>)

  const EMPTY: Tables := Tables(map[], {}, {}, map[], {})

  // ---------------------------------------------------------------------
  // The index invariant
  // ---------------------------------------------------------------------

  /** The height index holds exactly one key per point, at the point's height. */
  ghost predicate HeightIndexed(t: Tables)
  {
    forall k: HeightKey {:trigger k in t.heightIndex} :: k in t.heightIndex <==> k.txid in t.points && t.points[k.txid].height == k.height
  }

  /** The owner index lists each point under its current owner, unless that owner is empty. */
  ghost predicate OwnerIndexed(t: Tables)
  {
    forall k: OwnerKey {:trigger k in t.ownerIndex} :: k in t.ownerIndex <==> k.txid in t.points && k.owner != [] && t.points[k.txid].currentOwner == k.owner
  }

  /** The transfer-height index holds exactly one key per transfer, at the transfer's height. */
  ghost predicate TransferHeightIndexed(t: Tables)
  {
    forall k: TransferHeightKey {:trigger k in t.transferHeights} :: k in t.transferHeights <==>
      TransferKey(k.origin, k.transfer) in t.transfers && t.transfers[TransferKey(k.origin, k.transfer)].height == k.height
  }

  ghost predicate OriginsStored(t: Tables)
  {
    forall k :: k in t.transfers ==> k.origin in t.points
  }

  ghost predicate Consistent(t: Tables)
  {
    HeightIndexed(t) && OwnerIndexed(t) && TransferHeightIndexed(t) && OriginsStored(t)
  }

  lemma EmptyConsistent()
    ensures Consistent(EMPTY)
  {
  }

  // ---------------------------------------------------------------------
  // Point writes and the owner index
  // ---------------------------------------------------------------------

  /** The three writes WritePoints batches for one record. */
  function WritePoint(t: Tables, txid: Txid, r: Record): Tables
  {
    t.(points := t.points[txid := r],
       heightIndex := t.heightIndex + {HeightKey(r.height, txid)},
       ownerIndex := if r.currentOwner == [] then t.ownerIndex else t.ownerIndex + {OwnerKey(r.currentOwner, txid)})
  }

  function WritePointsSpec(t: Tables, records: seq<(Txid, Record)>): Tables
    decreases |records|
  {
    if records == [] then t
    else
      var last := records[|records| - 1];
      WritePoint(WritePointsSpec(t, records[..|records| - 1]), last.0, last.1)
  }

  /** Writing a new point keeps the index invariant and changes no other point. */
  lemma WritePointConsistent(t: Tables, txid: Txid, r: Record)
    requires Consistent(t) && txid !in t.points
    ensures Consistent(WritePoint(t, txid, r))
    ensures WritePoint(t, txid, r).points == t.points[txid := r]
    ensures WritePoint(t, txid, r).transfers == t.transfers
  {
  }

  predicate FreshRecords(t: Tables, records: seq<(Txid, Record)>)
  {
    && (forall i :: 0 <= i < |records| ==> records[i].0 !in t.points)
    && (forall i, j :: 0 <= i < j < |records| ==> records[i].0 != records[j].0)
  }

  /** WritePoints of distinct new txids keeps the index invariant and touches no transfer. */
  lemma {:induction false} WritePointsConsistent(t: Tables, records: seq<(Txid, Record)>)
    requires Consistent(t) && FreshRecords(t, records)
    ensures Consistent(WritePointsSpec(t, records))
    ensures WritePointsSpec(t, records).transfers == t.transfers
    decreases |records|
  {
    if records != [] {
      var init := records[..|records| - 1];
      var last := records[|records| - 1];
      assert FreshRecords(t, init);
      WritePointsConsistent(t, init);
      WritePointsPoints(t, init);
      WritePointConsistent(WritePointsSpec(t, init), last.0, last.1);
    }
  }

  /** WritePoints of distinct new txids adds exactly those points and keeps every stored one. */
  lemma {:induction false} WritePointsPoints(t: Tables, records: seq<(Txid, Record)>)
    requires FreshRecords(t, records)
    ensures forall x :: x in t.points ==> x in WritePointsSpec(t, records).points && WritePointsSpec(t, records).points[x] == t.points[x]
    ensures forall i :: 0 <= i < |records| ==> records[i].0 in WritePointsSpec(t, records).points
                                               && WritePointsSpec(t, records).points[records[i].0] == records[i].1
    ensures forall x :: x in WritePointsSpec(t, records).points ==> x in t.points || exists i :: 0 <= i < |records| && records[i].0 == x
    decreases |records|
  {
    if records != [] {
      var init := records[..|records| - 1];
      var last := records[|records| - 1];
      assert FreshRecords(t, init);
      WritePointsPoints(t, init);
      forall x | x in WritePointsSpec(t, records).points
        ensures x in t.points || exists i :: 0 <= i < |records| && records[i].0 == x
      {
        if x != last.0 && x !in t.points {
          var i :| 0 <= i < |init| && init[i].0 == x;
          assert records[i].0 == x;
        }
      }
    }
  }

  /** UpdateOwnerIndex's batch: erase (old, origin) unless old is empty, then write (new, origin) unless new is empty. */
  function OwnerIndexUpdate(s: set<OwnerKey>, oldOwner: string, newOwner: string, origin: Txid): (r: set<OwnerKey>)
    ensures newOwner != [] ==> OwnerKey(newOwner, origin) in r
    ensures oldOwner != [] && oldOwner != newOwner ==> OwnerKey(oldOwner, origin) !in r
    ensures forall k: OwnerKey :: k.txid != origin || (k.owner != oldOwner && k.owner != newOwner) ==> (k in r <==> k in s)
    ensures oldOwner == [] && newOwner == [] ==> r == s
  {
    (if oldOwner != [] then s - {OwnerKey(oldOwner, origin)} else s) + (if newOwner != [] then {OwnerKey(newOwner, origin)} else {})
  }

  /** WriteRecord with a new current owner followed by UpdateOwnerIndex from the stored owner. */
  function SetOwner(t: Tables, origin: Txid, owner: string): Tables
  {
    if origin !in t.points then t
    else
      var r := t.points[origin];
      t.(points := t.points[origin := r.(currentOwner := owner)],
         ownerIndex := OwnerIndexUpdate(t.ownerIndex, r.currentOwner, owner, origin))
  }

  /**
   * Moving a stored point to a new owner keeps the index invariant, and the
   * owner index then lists the point under exactly its new owner.
   */
  lemma SetOwnerConsistent(t: Tables, origin: Txid, owner: string)
    requires Consistent(t)
    ensures Consistent(SetOwner(t, origin, owner))
    ensures SetOwner(t, origin, owner).points.Keys == t.points.Keys
    ensures SetOwner(t, origin, owner).transfers == t.transfers
    ensures origin in t.points ==> forall o :: OwnerKey(o, origin) in SetOwner(t, origin, owner).ownerIndex <==> o == owner && o != []
  {
    if origin in t.points {
      var t' := SetOwner(t, origin, owner);
      forall k: OwnerKey ensures k in t'.ownerIndex <==> k.txid in t'.points && k.owner != [] && t'.points[k.txid].currentOwner == k.owner {
        if k.txid == origin {
          assert k in t'.ownerIndex <==> k.owner != [] && k.owner == owner;
        }
      }
    }
  }

  // ---------------------------------------------------------------------
  // Reads
  // ---------------------------------------------------------------------

  /** The MakeInfo results for the keys whose point ReadPoint finds. */
  function HeightInfos(points: map<Txid, Record>, keys: seq<HeightKey>): seq<PointInfo>
    decreases |keys|
  {
    if keys == [] then []
    else
      var k := keys[|keys| - 1];
      HeightInfos(points, keys[..|keys| - 1]) + (if k.txid in points then [MakeInfo(k.txid, points[k.txid])] else [])
  }

  lemma {:induction false} HeightInfosAll(points: map<Txid, Record>, keys: seq<HeightKey>)
    requires forall i :: 0 <= i < |keys| ==> keys[i].txid in points
    ensures |HeightInfos(points, keys)| == |keys|
    ensures forall i :: 0 <= i < |keys| ==> HeightInfos(points, keys)[i] == MakeInfo(keys[i].txid, points[keys[i].txid])
    decreases |keys|
  {
    if keys != [] {
      HeightInfosAll(points, keys[..|keys| - 1]);
    }
  }

  function AtLeastHeight(start: Uint32): HeightKey -> bool
  {
    (k: HeightKey) => k.height >= start
  }

  function AtMostHeight(stop: Uint32): HeightKey -> bool
  {
    (k: HeightKey) => k.height <= stop
  }

  function HeightBetween(start: Uint32, stop: Uint32): HeightKey -> bool
  {
    (k: HeightKey) => start <= k.height <= stop
  }

  /** ReadByHeight's walk: seek (start, 0), stop at the first key above stop. */
  ghost function HeightWalk(t: Tables, start: Uint32, stop: Uint32): seq<HeightKey>
  {
    HeightKeyOrder();
    TakeWhile(SortedSeq(Where(t.heightIndex, AtLeastHeight(start)), HeightKeyLess), AtMostHeight(stop))
  }

  /** The walk visits exactly the height keys from start to stop, in (height, txid) order. */
  lemma HeightWalkIsRange(t: Tables, start: Uint32, stop: Uint32)
    ensures StrictTotalOrder(HeightKeyLess)
    ensures HeightWalk(t, start, stop) == SortedSeq(Where(t.heightIndex, HeightBetween(start, stop)), HeightKeyLess)
  {
    HeightKeyOrder();
    SortedTakeWhile(Where(t.heightIndex, AtLeastHeight(start)), HeightKeyLess, AtMostHeight(stop));
    HeightRangeSet(t.heightIndex, start, stop);
  }

  lemma HeightRangeSet(keys: set<HeightKey>, start: Uint32, stop: Uint32)
    ensures Where(Where(keys, AtLeastHeight(start)), AtMostHeight(stop)) == Where(keys, HeightBetween(start, stop))
  {
  }

  /**
   * On a consistent index, ReadByHeight returns one entry per point whose
   * height lies from start to stop, ascending by (height, txid), each entry
   * being MakeInfo of the stored record.
   */
  lemma ReadByHeightIsRange(t: Tables, start: Uint32, stop: Uint32)
    requires Consistent(t)
    ensures var w := HeightWalk(t, start, stop);
            && StrictlySorted(w, HeightKeyLess)
            && (forall k :: k in w <==> k.txid in t.points && k.height == t.points[k.txid].height && start <= k.height <= stop)
            && |HeightInfos(t.points, w)| == |w|
            && (forall i :: 0 <= i < |w| ==> HeightInfos(t.points, w)[i] == MakeInfo(w[i].txid, t.points[w[i].txid]))
  {
    HeightWalkMembers(t, start, stop);
    HeightWalkStored(t, start, stop);
    HeightInfosAll(t.points, HeightWalk(t, start, stop));
  }

  lemma HeightWalkMembers(t: Tables, start: Uint32, stop: Uint32)
    requires HeightIndexed(t)
    ensures StrictlySorted(HeightWalk(t, start, stop), HeightKeyLess)
    ensures forall k :: k in HeightWalk(t, start, stop) <==> k.txid in t.points && k.height == t.points[k.txid].height && start <= k.height <= stop
  {
    HeightWalkIsRange(t, start, stop);
  }

  lemma HeightWalkStored(t: Tables, start: Uint32, stop: Uint32)
    requires HeightIndexed(t)
    ensures forall i :: 0 <= i < |HeightWalk(t, start, stop)| ==> HeightWalk(t, start, stop)[i].txid in t.points
  {
    HeightWalkMembers(t, start, stop);
    var w := HeightWalk(t, start, stop);
    assert forall i :: 0 <= i < |w| ==> w[i] in w;
  }

  /** A point a ReadOwners query keeps: stored, with its height from start to stop. */
  function InRange(points: map<Txid, Record>, start: Uint32, stop: Uint32): Txid -> bool
  {
    x => x in points && start <= points[x].height <= stop
  }

  /** MakeInfo of each txid's stored record. */
  function Infos(points: map<Txid, Record>, txids: seq<Txid>): seq<PointInfo>
    decreases |txids|
  {
    if txids == [] then []
    else
      var x := txids[|txids| - 1];
      Infos(points, txids[..|txids| - 1]) + (if x in points then [MakeInfo(x, points[x])] else [])
  }

  /** The origin txids the owner index lists under owner. */
  function OwnerTxids(ownerIndex: set<OwnerKey>, owner: string): (r: set<Txid>)
    ensures forall x :: x in r <==> OwnerKey(owner, x) in ownerIndex
  {
    set k | k in ownerIndex && k.owner == owner :: k.txid
  }

  /** The origin txids ReadOwners' cursor visits for one owner: seek (owner, 0), stop at another owner. */
  ghost function OwnerWalk(t: Tables, owner: string): seq<Txid>
  {
    NatOrder();
    SortedSeq(OwnerTxids(t.ownerIndex, owner), NatLess)
  }

  ghost function OwnerRead(t: Tables, owner: string, start: Uint32, stop: Uint32): seq<PointInfo>
  {
    Infos(t.points, Filter(OwnerWalk(t, owner), InRange(t.points, start, stop)))
  }

  /** ReadOwners: the owners in the order given, each with its points in range. */
  ghost function OwnersRead(t: Tables, owners: seq<string>, start: Uint32, stop: Uint32): seq<PointInfo>
    decreases |owners|
  {
    if owners == [] then []
    else OwnersRead(t, owners[..|owners| - 1], start, stop) + OwnerRead(t, owners[|owners| - 1], start, stop)
  }

  /** The points currently owned by a non-empty owner, with their height from start to stop. */
  function OwnedInRange(points: map<Txid, Record>, owner: string, start: Uint32, stop: Uint32): (r: set<Txid>)
    ensures forall x :: x in r <==> x in points && owner != [] && points[x].currentOwner == owner && start <= points[x].height <= stop
  {
    set x | x in points && owner != [] && points[x].currentOwner == owner && start <= points[x].height <= stop
  }

  /**
   * On a consistent index, the points ReadOwners returns for one owner are
   * exactly the points now owned by that (non-empty) owner whose height lies
   * from start to stop, ascending by txid.
   */
  lemma ReadOwnerIsRange(t: Tables, owner: string, start: Uint32, stop: Uint32)
    requires Consistent(t)
    ensures StrictTotalOrder(NatLess)
    ensures Filter(OwnerWalk(t, owner), InRange(t.points, start, stop)) == SortedSeq(OwnedInRange(t.points, owner, start, stop), NatLess)
  {
    NatOrder();
    SortedFilter(OwnerTxids(t.ownerIndex, owner), NatLess, InRange(t.points, start, stop));
    assert Where(OwnerTxids(t.ownerIndex, owner), InRange(t.points, start, stop)) == OwnedInRange(t.points, owner, start, stop);
  }

  // ---------------------------------------------------------------------
  // Erasing points above a height
  // ---------------------------------------------------------------------

  /** The txids of the keys whose point ReadPoint finds, in walk order. */
  function PresentTxids(points: map<Txid, Record>, keys: seq<HeightKey>): (r: seq<Txid>)
    decreases |keys|
  {
    if keys == [] then []
    else
      var k := keys[|keys| - 1];
      PresentTxids(points, keys[..|keys| - 1]) + (if k.txid in points then [k.txid] else [])
  }

  lemma {:induction false} PresentTxidsAll(points: map<Txid, Record>, keys: seq<HeightKey>)
    requires forall i :: 0 <= i < |keys| ==> keys[i].txid in points
    ensures |PresentTxids(points, keys)| == |keys|
    ensures forall i :: 0 <= i < |keys| ==> PresentTxids(points, keys)[i] == keys[i].txid
    decreases |keys|
  {
    if keys != [] {
      PresentTxidsAll(points, keys[..|keys| - 1]);
    }
  }

  /** The owner keys ErasePointsAboveHeight's batch erases: each found point under its current owner. */
  function ErasedOwnerKeys(points: map<Txid, Record>, keys: seq<HeightKey>): (r: set<OwnerKey>)
    ensures forall o :: o in r <==> o.txid in points && o.owner != [] && points[o.txid].currentOwner == o.owner
                                    && exists k :: k in keys && k.txid == o.txid
    decreases |keys|
  {
    if keys == [] then {}
    else
      var init := keys[..|keys| - 1];
      var k := keys[|keys| - 1];
      assert forall j :: j in keys <==> j in init || j == k;
      ErasedOwnerKeys(points, init)
      + (if k.txid in points && points[k.txid].currentOwner != [] then {OwnerKey(points[k.txid].currentOwner, k.txid)} else {})
  }

  /** The batch of ErasePointsAboveHeight over the walked height keys. */
  function ErasePointsBatch(t: Tables, keys: seq<HeightKey>): Tables
  {
    t.(points := t.points - Elements(PresentTxids(t.points, keys)),
       heightIndex := t.heightIndex - Elements(keys),
       ownerIndex := t.ownerIndex - ErasedOwnerKeys(t.points, keys))
  }

  /** ErasePointsAboveHeight's walk: seek height + 1 in uint32 arithmetic, then every later height key. */
  ghost function EraseWalk(t: Tables, height: Uint32): seq<HeightKey>
  {
    HeightKeyOrder();
    SortedSeq(Where(t.heightIndex, AtLeastHeight(Uint32Succ(height))), HeightKeyLess)
  }

  function AboveHeight(height: Uint32): HeightKey -> bool
  {
    (k: HeightKey) => k.height > height
  }

  /** Below the largest height the seek key is height + 1, so the walk is every key above height. */
  lemma EraseWalkIsAbove(t: Tables, height: Uint32)
    requires height < UINT32_MAX
    ensures StrictTotalOrder(HeightKeyLess)
    ensures EraseWalk(t, height) == SortedSeq(Where(t.heightIndex, AboveHeight(height)), HeightKeyLess)
  {
    HeightKeyOrder();
    AboveHeightSet(t.heightIndex, height);
  }

  lemma AboveHeightSet(keys: set<HeightKey>, height: Uint32)
    requires height < UINT32_MAX
    ensures Where(keys, AtLeastHeight(Uint32Succ(height))) == Where(keys, AboveHeight(height))
  {
  }

  /**
   * On a consistent index and below the largest height, ErasePointsAboveHeight
   * leaves exactly the points at or below height, unchanged, with their
   * height and owner keys, and touches no transfer.
   */
  lemma ErasePointsAboveHeightLeaves(t: Tables, height: Uint32)
    requires Consistent(t) && height < UINT32_MAX
    ensures var t' := ErasePointsBatch(t, EraseWalk(t, height));
            && (forall x :: x in t'.points <==> x in t.points && t.points[x].height <= height)
            && (forall x :: x in t'.points ==> t'.points[x] == t.points[x])
            && HeightIndexed(t') && OwnerIndexed(t')
            && t'.transfers == t.transfers && t'.transferHeights == t.transferHeights
  {
    ErasedAbove(t, height);
  }

  /**
   * ErasePointsAboveHeight reports the txid of every point above height,
   * each once, in (height, txid) order.
   */
  lemma ErasePointsAboveHeightReports(t: Tables, height: Uint32)
    requires HeightIndexed(t) && height < UINT32_MAX
    ensures var w := EraseWalk(t, height); var removed := PresentTxids(t.points, w);
            && |removed| == |w| && (forall i :: 0 <= i < |w| ==> removed[i] == w[i].txid)
            && StrictlySorted(w, HeightKeyLess)
            && (forall k :: k in w <==> k.txid in t.points && k.height == t.points[k.txid].height && k.height > height)
  {
    EraseWalkMembers(t, height);
    EraseWalkStored(t, height);
    PresentTxidsAll(t.points, EraseWalk(t, height));
  }

  /** The points the walk reaches are exactly the points above height. */
  lemma ErasedAbove(t: Tables, height: Uint32)
    requires HeightIndexed(t) && height < UINT32_MAX
    ensures forall x :: (exists k :: k in EraseWalk(t, height) && k.txid == x) <==> x in t.points && t.points[x].height > height
    ensures forall x :: x in Elements(PresentTxids(t.points, EraseWalk(t, height))) <==> x in t.points && t.points[x].height > height
  {
    EraseWalkMembers(t, height);
    EraseWalkStored(t, height);
    var w := EraseWalk(t, height);
    PresentTxidsAll(t.points, w);
    forall x | x in t.points && t.points[x].height > height
      ensures HeightKey(t.points[x].height, x) in w
    {
    }
    forall x | x in PresentTxids(t.points, w) ensures exists k :: k in w && k.txid == x {
      var i :| 0 <= i < |w| && PresentTxids(t.points, w)[i] == x;
      assert w[i] in w;
    }
    forall x | x in t.points && t.points[x].height > height ensures x in PresentTxids(t.points, w) {
      assert HeightKey(t.points[x].height, x) in w;
      var i :| 0 <= i < |w| && w[i] == HeightKey(t.points[x].height, x);
      assert PresentTxids(t.points, w)[i] == x;
    }
  }

  lemma EraseWalkMembers(t: Tables, height: Uint32)
    requires HeightIndexed(t) && height < UINT32_MAX
    ensures forall k :: k in EraseWalk(t, height) <==> k.txid in t.points && k.height == t.points[k.txid].height && k.height > height
  {
    EraseWalkIsAbove(t, height);
  }

  lemma EraseWalkStored(t: Tables, height: Uint32)
    requires HeightIndexed(t) && height < UINT32_MAX
    ensures forall i :: 0 <= i < |EraseWalk(t, height)| ==> EraseWalk(t, height)[i].txid in t.points
  {
    EraseWalkMembers(t, height);
    var w := EraseWalk(t, height);
    assert forall i :: 0 <= i < |w| ==> w[i] in w;
  }

  /** At the largest height the seek key wraps to height 0 and the walk erases every point. */
  lemma EraseAtLargestHeightErasesAll(t: Tables)
    requires HeightIndexed(t)
    ensures ErasePointsBatch(t, EraseWalk(t, UINT32_MAX)).points == map[]
  {
    EraseWalkAll(t);
    var w := EraseWalk(t, UINT32_MAX);
    PresentTxidsAll(t.points, w);
    forall x | x in t.points ensures x in Elements(PresentTxids(t.points, w)) {
      assert HeightKey(t.points[x].height, x) in t.heightIndex;
      var i :| 0 <= i < |w| && w[i] == HeightKey(t.points[x].height, x);
      assert PresentTxids(t.points, w)[i] == x;
    }
  }

  lemma EraseWalkAll(t: Tables)
    requires HeightIndexed(t)
    ensures forall k :: k in EraseWalk(t, UINT32_MAX) <==> k in t.heightIndex
    ensures forall i :: 0 <= i < |EraseWalk(t, UINT32_MAX)| ==> EraseWalk(t, UINT32_MAX)[i].txid in t.points
  {
    HeightKeyOrder();
    assert Uint32Succ(UINT32_MAX) == 0;
    AllHeightsSet(t.heightIndex);
    var w := EraseWalk(t, UINT32_MAX);
    assert forall i :: 0 <= i < |w| ==> w[i] in w;
  }

  lemma AllHeightsSet(keys: set<HeightKey>)
    ensures Where(keys, AtLeastHeight(0)) == keys
  {
  }

  // ---------------------------------------------------------------------
  // Transfers
  // ---------------------------------------------------------------------

  function TransferHeightKeyOf(key: TransferKey, r: TransferRecord): TransferHeightKey
  {
    TransferHeightKey(r.height, key.origin, key.transfer)
  }

  /** The two writes of WriteTransfer's batch. */
  function WriteTransferSpec(t: Tables, key: TransferKey, r: TransferRecord): Tables
  {
    t.(transfers := t.transfers[key := r], transferHeights := t.transferHeights + {TransferHeightKeyOf(key, r)})
  }

  /** Recording a new transfer of a stored point keeps the index invariant. */
  lemma WriteTransferConsistent(t: Tables, key: TransferKey, r: TransferRecord)
    requires Consistent(t) && key !in t.transfers && key.origin in t.points
    ensures Consistent(WriteTransferSpec(t, key, r))
    ensures WriteTransferSpec(t, key, r).points == t.points
  {
  }

  /** The transfer txids recorded for origin. */
  function TransferTxids(transfers: map<TransferKey, TransferRecord>, origin: Txid): (r: set<Txid>)
    ensures forall x :: x in r <==> TransferKey(origin, x) in transfers
  {
    set k | k in transfers && k.origin == origin :: k.transfer
  }

  /** The transfer txids ReadTransfers' cursor visits: seek (origin, 0), stop at another origin. */
  ghost function TransferWalk(t: Tables, origin: Txid): seq<Txid>
  {
    NatOrder();
    SortedSeq(TransferTxids(t.transfers, origin), NatLess)
  }

  function TransferInfoOf(transfer: Txid, r: TransferRecord): TransferInfo
  {
    TransferInfo(transfer, AsInt(r.height), r.newOwner)
  }

  /** The MapPointTransferInfo of each visited transfer, in walk order. */
  function TransferInfos(transfers: map<TransferKey, TransferRecord>, origin: Txid, txids: seq<Txid>): (r: seq<TransferInfo>)
    ensures forall info :: info in r ==> exists x :: x in txids && TransferKey(origin, x) in transfers
                                                   && info == TransferInfoOf(x, transfers[TransferKey(origin, x)])
    ensures forall x :: x in txids && TransferKey(origin, x) in transfers ==> TransferInfoOf(x, transfers[TransferKey(origin, x)]) in r
    decreases |txids|
  {
    if txids == [] then []
    else
      var init := txids[..|txids| - 1];
      var x := txids[|txids| - 1];
      var key := TransferKey(origin, x);
      assert forall y :: y in txids <==> y in init || y == x;
      TransferInfos(transfers, origin, init) + (if key in transfers then [TransferInfoOf(x, transfers[key])] else [])
  }

  /** ReadTransfers lists each transfer of origin once, and nothing else. */
  lemma ReadTransfersAll(t: Tables, origin: Txid)
    ensures forall info :: info in TransferInfos(t.transfers, origin, TransferWalk(t, origin)) <==>
              exists k :: k in t.transfers && k.origin == origin && info == TransferInfoOf(k.transfer, t.transfers[k])
  {
    var w := TransferWalk(t, origin);
    forall info ensures info in TransferInfos(t.transfers, origin, w) <==>
              exists k :: k in t.transfers && k.origin == origin && info == TransferInfoOf(k.transfer, t.transfers[k])
    {
      if exists k :: k in t.transfers && k.origin == origin && info == TransferInfoOf(k.transfer, t.transfers[k]) {
        var k :| k in t.transfers && k.origin == origin && info == TransferInfoOf(k.transfer, t.transfers[k]);
        assert k == TransferKey(origin, k.transfer);
        assert k.transfer in w;
      }
    }
  }

  function AtLeastTransferHeight(start: Uint32): TransferHeightKey -> bool
  {
    (k: TransferHeightKey) => k.height >= start
  }

  function AboveTransferHeight(height: Uint32): TransferHeightKey -> bool
  {
    (k: TransferHeightKey) => k.height > height
  }

  /** RemoveTransfersAboveHeight's walk: seek height + 1 in uint32 arithmetic, stop at a key at or below height. */
  ghost function TransferHeightWalk(t: Tables, height: Uint32): seq<TransferHeightKey>
  {
    TransferHeightKeyOrder();
    TakeWhile(SortedSeq(Where(t.transferHeights, AtLeastTransferHeight(Uint32Succ(height))), TransferHeightKeyLess),
              AboveTransferHeight(height))
  }

  function TransferKeyOf(k: TransferHeightKey): TransferKey
  {
    TransferKey(k.origin, k.transfer)
  }

  /** The transfer keys the batch erases: those of the walked keys that are recorded. */
  function PresentTransfers(transfers: map<TransferKey, TransferRecord>, keys: seq<TransferHeightKey>): (r: set<TransferKey>)
    ensures forall tk :: tk in r <==> tk in transfers && exists k :: k in keys && TransferKeyOf(k) == tk
    decreases |keys|
  {
    if keys == [] then {}
    else
      var init := keys[..|keys| - 1];
      var k := keys[|keys| - 1];
      assert forall j :: j in keys <==> j in init || j == k;
      PresentTransfers(transfers, init) + (if TransferKeyOf(k) in transfers then {TransferKeyOf(k)} else {})
  }

  /** The owner updates in walk order: each recorded transfer's origin with its previous owner. */
  function OwnerUpdates(transfers: map<TransferKey, TransferRecord>, keys: seq<TransferHeightKey>): seq<(Txid, string)>
    decreases |keys|
  {
    if keys == [] then []
    else
      var k := keys[|keys| - 1];
      OwnerUpdates(transfers, keys[..|keys| - 1])
      + (if TransferKeyOf(k) in transfers then [(k.origin, transfers[TransferKeyOf(k)].previousOwner)] else [])
  }

  lemma {:induction false} OwnerUpdatesAll(transfers: map<TransferKey, TransferRecord>, keys: seq<TransferHeightKey>)
    requires forall i :: 0 <= i < |keys| ==> TransferKeyOf(keys[i]) in transfers
    ensures |OwnerUpdates(transfers, keys)| == |keys|
    ensures forall i :: 0 <= i < |keys| ==>
              OwnerUpdates(transfers, keys)[i] == (keys[i].origin, transfers[TransferKeyOf(keys[i])].previousOwner)
    decreases |keys|
  {
    if keys != [] {
      OwnerUpdatesAll(transfers, keys[..|keys| - 1]);
    }
  }

  /** One cursor step of RemoveTransfersAboveHeight's batch. */
  lemma TransferErasureStep(transfers: map<TransferKey, TransferRecord>, keys: seq<TransferHeightKey>, i: nat)
    requires i < |keys|
    ensures var k := keys[i]; var tk := TransferKeyOf(k);
            && OwnerUpdates(transfers, keys[..i + 1])
               == OwnerUpdates(transfers, keys[..i]) + (if tk in transfers then [(k.origin, transfers[tk].previousOwner)] else [])
            && PresentTransfers(transfers, keys[..i + 1])
               == PresentTransfers(transfers, keys[..i]) + (if tk in transfers then {tk} else {})
            && Elements(keys[..i + 1]) == Elements(keys[..i]) + {k}
  {
    PrefixStep(keys, i);
  }

  /** The batch of RemoveTransfersAboveHeight over the walked keys. */
  function RemoveTransfersBatch(t: Tables, keys: seq<TransferHeightKey>): Tables
  {
    t.(transfers := t.transfers - PresentTransfers(t.transfers, keys), transferHeights := t.transferHeights - Elements(keys))
  }

  /** Below the largest height the walk is every transfer-height key above height. */
  lemma TransferHeightWalkIsAbove(t: Tables, height: Uint32)
    requires height < UINT32_MAX
    ensures StrictTotalOrder(TransferHeightKeyLess)
    ensures TransferHeightWalk(t, height) == SortedSeq(Where(t.transferHeights, AboveTransferHeight(height)), TransferHeightKeyLess)
  {
    TransferHeightKeyOrder();
    var s := Where(t.transferHeights, AtLeastTransferHeight(Uint32Succ(height)));
    SortedTakeWhile(s, TransferHeightKeyLess, AboveTransferHeight(height));
    TransferHeightRangeSet(t.transferHeights, height);
  }

  lemma TransferHeightRangeSet(keys: set<TransferHeightKey>, height: Uint32)
    requires height < UINT32_MAX
    ensures Where(Where(keys, AtLeastTransferHeight(Uint32Succ(height))), AboveTransferHeight(height))
            == Where(keys, AboveTransferHeight(height))
  {
  }

  lemma TransferHeightWalkMembers(t: Tables, height: Uint32)
    requires TransferHeightIndexed(t) && height < UINT32_MAX
    ensures StrictlySorted(TransferHeightWalk(t, height), TransferHeightKeyLess)
    ensures forall k :: k in TransferHeightWalk(t, height) <==> k in t.transferHeights && k.height > height
    ensures forall i :: 0 <= i < |TransferHeightWalk(t, height)| ==> TransferKeyOf(TransferHeightWalk(t, height)[i]) in t.transfers
  {
    TransferHeightWalkIsAbove(t, height);
    var w := TransferHeightWalk(t, height);
    assert forall i :: 0 <= i < |w| ==> w[i] in w;
  }

  /**
   * On a consistent index and below the largest height,
   * RemoveTransfersAboveHeight keeps exactly the transfers at or below
   * height, unchanged, with their height keys, and touches no point.
   */
  lemma RemoveTransfersAboveHeightLeaves(t: Tables, height: Uint32)
    requires Consistent(t) && height < UINT32_MAX
    ensures var t' := RemoveTransfersBatch(t, TransferHeightWalk(t, height));
            && (forall k :: k in t'.transfers <==> k in t.transfers && t.transfers[k].height <= height)
            && (forall k :: k in t'.transfers ==> t'.transfers[k] == t.transfers[k])
            && TransferHeightIndexed(t')
            && t'.points == t.points && t'.heightIndex == t.heightIndex && t'.ownerIndex == t.ownerIndex
  {
    TransferHeightWalkMembers(t, height);
    var w := TransferHeightWalk(t, height);
    forall tk | tk in t.transfers && t.transfers[tk].height > height
      ensures TransferHeightKeyOf(tk, t.transfers[tk]) in w
    {
    }
  }

  /**
   * RemoveTransfersAboveHeight reports one owner update per removed
   * transfer (its origin and previous owner) in descending
   * (height, origin, transfer) order.
   */
  lemma RemoveTransfersAboveHeightReports(t: Tables, height: Uint32)
    requires TransferHeightIndexed(t) && height < UINT32_MAX
    ensures var w := TransferHeightWalk(t, height); var updates := Reverse(OwnerUpdates(t.transfers, w));
            && |updates| == |w|
            && (forall i :: 0 <= i < |w| ==>
                  TransferKeyOf(w[|w| - 1 - i]) in t.transfers
                  && updates[i] == (w[|w| - 1 - i].origin, t.transfers[TransferKeyOf(w[|w| - 1 - i])].previousOwner))
  {
    TransferHeightWalkMembers(t, height);
    OwnerUpdatesAll(t.transfers, TransferHeightWalk(t, height));
  }

  /** The height keys RemoveAllTransfersForOrigin's batch erases. */
  function OriginHeightKeys(transfers: map<TransferKey, TransferRecord>, origin: Txid, txids: seq<Txid>): (r: set<TransferHeightKey>)
    ensures forall k :: k in r <==> k.origin == origin && k.transfer in txids && TransferKeyOf(k) in transfers
                                    && transfers[TransferKeyOf(k)].height == k.height
    decreases |txids|
  {
    if txids == [] then {}
    else
      var init := txids[..|txids| - 1];
      var x := txids[|txids| - 1];
      var key := TransferKey(origin, x);
      assert forall y :: y in txids <==> y in init || y == x;
      OriginHeightKeys(transfers, origin, init) + (if key in transfers then {TransferHeightKeyOf(key, transfers[key])} else {})
  }

  /** The transfer keys RemoveAllTransfersForOrigin's batch erases. */
  function OriginKeys(origin: Txid, txids: seq<Txid>): (r: set<TransferKey>)
    ensures forall k :: k in r <==> k.origin == origin && k.transfer in txids
    decreases |txids|
  {
    if txids == [] then {}
    else
      var init := txids[..|txids| - 1];
      var x := txids[|txids| - 1];
      assert forall y :: y in txids <==> y in init || y == x;
      OriginKeys(origin, init) + {TransferKey(origin, x)}
  }

  /** The batch of RemoveAllTransfersForOrigin over the visited transfer txids. */
  function RemoveOriginBatch(t: Tables, origin: Txid, txids: seq<Txid>): Tables
  {
    t.(transfers := t.transfers - OriginKeys(origin, txids),
       transferHeights := t.transferHeights - OriginHeightKeys(t.transfers, origin, txids))
  }

  /** RemoveAllTransfersForOrigin drops exactly origin's transfers and their height keys. */
  lemma RemoveAllTransfersForOriginSpec(t: Tables, origin: Txid)
    requires TransferHeightIndexed(t)
    ensures var t' := RemoveOriginBatch(t, origin, TransferWalk(t, origin));
            && (forall k :: k in t'.transfers <==> k in t.transfers && k.origin != origin)
            && (forall k :: k in t'.transfers ==> t'.transfers[k] == t.transfers[k])
            && TransferHeightIndexed(t')
            && t'.points == t.points && t'.heightIndex == t.heightIndex && t'.ownerIndex == t.ownerIndex
  {
    var w := TransferWalk(t, origin);
    forall k | k in t.transfers && k.origin == origin ensures k.transfer in w {
      assert k == TransferKey(origin, k.transfer);
    }
  }

  // ---------------------------------------------------------------------
  // The database object
  // ---------------------------------------------------------------------

  class DB {
    var points: map<Txid, Record>
    var heightIndex: set<HeightKey>
    var ownerIndex: set<OwnerKey>
    var transfers: map<TransferKey, TransferRecord>
    var transferHeights: set<TransferHeightKey>

    function State(): Tables
      reads this
    {
      Tables(points, heightIndex, ownerIndex, transfers, transferHeights)
    }

    /** A freshly wiped index. */
    constructor()
      ensures State() == EMPTY
    {
      points, heightIndex, ownerIndex, transfers, transferHeights := map[], {}, {}, map[], {};
    }

    method WritePoints(records: seq<(Txid, Record)>)
      modifies this
      ensures State() == WritePointsSpec(old(State()), records)
    {
      if records == [] {
        return;
      }
      var i := 0;
      while i < |records|
        invariant 0 <= i <= |records|
        invariant State() == WritePointsSpec(old(State()), records[..i])
      {
        PrefixStep(records, i);
        var (txid, record) := records[i];
        points := points[txid := record];
        heightIndex := heightIndex + {HeightKey(record.height, txid)};
        if record.currentOwner != [] {
          ownerIndex := ownerIndex + {OwnerKey(record.currentOwner, txid)};
        }
        i := i + 1;
      }
      PrefixAll(records, i);
    }

    method WriteRecord(txid: Txid, record: Record)
      modifies this
      ensures State() == old(State()).(points := old(points)[txid := record])
    {
      points := points[txid := record];
    }

    method ReadPoint(txid: Txid) returns (r: Option<Record>)
      ensures r.Some? <==> txid in points
      ensures r.Some? ==> r.value == points[txid]
    {
      if txid in points {
        return Some(points[txid]);
      }
      return None;
    }

    method UpdateOwnerIndex(oldOwner: string, newOwner: string, origin: Txid)
      modifies this
      ensures State() == old(State()).(ownerIndex := OwnerIndexUpdate(old(ownerIndex), oldOwner, newOwner, origin))
    {
      if oldOwner != [] {
        ownerIndex := ownerIndex - {OwnerKey(oldOwner, origin)};
      }
      if newOwner != [] {
        ownerIndex := ownerIndex + {OwnerKey(newOwner, origin)};
      }
    }

    method ReadByHeight(start: Uint32, stop: Uint32) returns (out: seq<PointInfo>)
      ensures out == HeightInfos(points, HeightWalk(State(), start, stop))
    {
      HeightKeyOrder();
      var keys := Ascending(Where(heightIndex, AtLeastHeight(start)), HeightKeyLess);
      out := ReadHeightKeys(keys, stop);
    }

    /** The cursor loop of ReadByHeight over the keys from the seek key on. */
    method ReadHeightKeys(keys: seq<HeightKey>, stop: Uint32) returns (out: seq<PointInfo>)
      ensures out == HeightInfos(points, TakeWhile(keys, AtMostHeight(stop)))
    {
      out := [];
      var i := 0;
      while i < |keys|
        invariant 0 <= i <= |keys|
        invariant forall j :: 0 <= j < i ==> keys[j].height <= stop
        invariant out == HeightInfos(points, keys[..i])
      {
        if keys[i].height > stop {
          break;
        }
        PrefixStep(keys, i);
        var record := ReadPoint(keys[i].txid);
        if record.Some? {
          out := out + [MakeInfo(keys[i].txid, record.value)];
        }
        i := i + 1;
      }
      TakeWhileExact(keys, AtMostHeight(stop), i);
    }

    /** The inner cursor loop of ReadOwners, for one owner. */
    method ReadOwner(owner: string, start: Uint32, stop: Uint32) returns (out: seq<PointInfo>)
      ensures out == OwnerRead(State(), owner, start, stop)
    {
      NatOrder();
      var txids := Ascending(OwnerTxids(ownerIndex, owner), NatLess);
      out := ReadInRange(txids, start, stop);
    }

    method ReadInRange(txids: seq<Txid>, start: Uint32, stop: Uint32) returns (out: seq<PointInfo>)
      ensures out == Infos(points, Filter(txids, InRange(points, start, stop)))
    {
      ghost var keep := InRange(points, start, stop);
      out := [];
      var i := 0;
      while i < |txids|
        invariant 0 <= i <= |txids|
        invariant out == Infos(points, Filter(txids[..i], keep))
      {
        PrefixStep(txids, i);
        var record := ReadPoint(txids[i]);
        if record.Some? && start <= record.value.height <= stop {
          out := out + [MakeInfo(txids[i], record.value)];
        }
        i := i + 1;
      }
      PrefixAll(txids, i);
    }

    method ReadOwners(owners: seq<string>, start: Uint32, stop: Uint32) returns (out: seq<PointInfo>)
      ensures out == OwnersRead(State(), owners, start, stop)
    {
      ghost var t := State();
      out := [];
      var i := 0;
      while i < |owners|
        invariant 0 <= i <= |owners|
        invariant out == OwnersRead(t, owners[..i], start, stop)
      {
        PrefixStep(owners, i);
        var part := ReadOwner(owners[i], start, stop);
        out := out + part;
        i := i + 1;
      }
      PrefixAll(owners, i);
    }

    /** ErasePointsAboveHeight: the walk's keys, the found points and their owner keys go in one batch. */
    method ErasePointsAboveHeight(height: Uint32) returns (removed: seq<Txid>)
      modifies this
      ensures removed == PresentTxids(old(points), EraseWalk(old(State()), height))
      ensures State() == ErasePointsBatch(old(State()), EraseWalk(old(State()), height))
    {
      ghost var t := State();
      HeightKeyOrder();
      var keys := Ascending(Where(heightIndex, AtLeastHeight(Uint32Succ(height))), HeightKeyLess);
      assert keys == EraseWalk(t, height);
      var erasedPoints, erasedKeys, erasedOwners;
      removed, erasedPoints, erasedKeys, erasedOwners := CollectPointErasures(keys);
      points, heightIndex, ownerIndex := points - erasedPoints, heightIndex - erasedKeys, ownerIndex - erasedOwners;
    }

    /** The cursor loop of ErasePointsAboveHeight, filling the batch. */
    method CollectPointErasures(keys: seq<HeightKey>)
      returns (removed: seq<Txid>, erasedPoints: set<Txid>, erasedKeys: set<HeightKey>, erasedOwners: set<OwnerKey>)
      ensures removed == PresentTxids(points, keys)
      ensures erasedPoints == Elements(removed)
      ensures erasedKeys == Elements(keys)
      ensures erasedOwners == ErasedOwnerKeys(points, keys)
    {
      removed, erasedPoints, erasedKeys, erasedOwners := [], {}, {}, {};
      var i := 0;
      while i < |keys|
        invariant 0 <= i <= |keys|
        invariant removed == PresentTxids(points, keys[..i])
        invariant erasedPoints == Elements(removed)
        invariant erasedKeys == Elements(keys[..i])
        invariant erasedOwners == ErasedOwnerKeys(points, keys[..i])
      {
        PrefixStep(keys, i);
        var record := ReadPoint(keys[i].txid);
        if record.Some? {
          erasedPoints := erasedPoints + {keys[i].txid};
          if record.value.currentOwner != [] {
            erasedOwners := erasedOwners + {OwnerKey(record.value.currentOwner, keys[i].txid)};
          }
          ElementsSnoc(removed, keys[i].txid);
          removed := removed + [keys[i].txid];
        }
        erasedKeys := erasedKeys + {keys[i]};
        i := i + 1;
      }
      PrefixAll(keys, i);
    }

    method WriteTransfer(key: TransferKey, record: TransferRecord)
      modifies this
      ensures State() == WriteTransferSpec(old(State()), key, record)
    {
      transfers := transfers[key := record];
      transferHeights := transferHeights + {TransferHeightKey(record.height, key.origin, key.transfer)};
    }

    /** ReadTransfers: origin's transfers, then std::sort by (height, transfer txid). */
    method ReadTransfers(origin: Txid) returns (out: seq<TransferInfo>)
      ensures SortedBy(out, TransferInfoLe)
      ensures multiset(out) == multiset(TransferInfos(transfers, origin, TransferWalk(State(), origin)))
    {
      NatOrder();
      var txids := Ascending(TransferTxids(transfers, origin), NatLess);
      var infos := ReadTransferTxids(origin, txids);
      out := SortTransferInfos(infos);
    }

    /** The std::sort call of ReadTransfers, on an array copy of the collected list. */
    static method SortTransferInfos(infos: seq<TransferInfo>) returns (out: seq<TransferInfo>)
      ensures SortedBy(out, TransferInfoLe)
      ensures multiset(out) == multiset(infos)
    {
      var a := new TransferInfo[|infos|](i requires 0 <= i < |infos| => infos[i]);
      assert a[..] == infos;
      TransferInfoLeTotal();
      InsertionSort(a, TransferInfoLe);
      out := a[..];
    }

    /** The cursor loop of ReadTransfers over origin's transfer txids. */
    method ReadTransferTxids(origin: Txid, txids: seq<Txid>) returns (out: seq<TransferInfo>)
      ensures out == TransferInfos(transfers, origin, txids)
    {
      out := [];
      var i := 0;
      while i < |txids|
        invariant 0 <= i <= |txids|
        invariant out == TransferInfos(transfers, origin, txids[..i])
      {
        PrefixStep(txids, i);
        var key := TransferKey(origin, txids[i]);
        if key in transfers {
          out := out + [TransferInfoOf(txids[i], transfers[key])];
        }
        i := i + 1;
      }
      PrefixAll(txids, i);
    }

    /**
     * RemoveTransfersAboveHeight: erases the walked transfers and their height
     * keys in one batch and returns the owner updates, reversed.
     */
    method RemoveTransfersAboveHeight(height: Uint32) returns (updates: seq<(Txid, string)>)
      modifies this
      ensures updates == Reverse(OwnerUpdates(old(transfers), TransferHeightWalk(old(State()), height)))
      ensures State() == RemoveTransfersBatch(old(State()), TransferHeightWalk(old(State()), height))
    {
      TransferHeightKeyOrder();
      var keys := Ascending(Where(transferHeights, AtLeastTransferHeight(Uint32Succ(height))), TransferHeightKeyLess);
      var collected, erasedTransfers, erasedKeys := CollectTransferErasures(keys, height);
      transfers := transfers - erasedTransfers;
      transferHeights := transferHeights - erasedKeys;
      updates := Reverse(collected);
    }

    /** The cursor loop of RemoveTransfersAboveHeight, stopping at the first key at or below height. */
    method CollectTransferErasures(keys: seq<TransferHeightKey>, height: Uint32)
      returns (collected: seq<(Txid, string)>, erasedTransfers: set<TransferKey>, erasedKeys: set<TransferHeightKey>)
      ensures collected == OwnerUpdates(transfers, TakeWhile(keys, AboveTransferHeight(height)))
      ensures erasedTransfers == PresentTransfers(transfers, TakeWhile(keys, AboveTransferHeight(height)))
      ensures erasedKeys == Elements(TakeWhile(keys, AboveTransferHeight(height)))
    {
      collected, erasedTransfers, erasedKeys := [], {}, {};
      var i := 0;
      while i < |keys| && keys[i].height > height
        invariant 0 <= i <= |keys|
        invariant forall j :: 0 <= j < i ==> AboveTransferHeight(height)(keys[j])
        invariant collected == OwnerUpdates(transfers, keys[..i])
        invariant erasedTransfers == PresentTransfers(transfers, keys[..i])
        invariant erasedKeys == Elements(keys[..i])
      {
        PrefixStep(keys, i);
        TransferErasureStep(transfers, keys, i);
        var key := TransferKeyOf(keys[i]);
        if key in transfers {
          erasedTransfers := erasedTransfers + {key};
          collected := collected + [(keys[i].origin, transfers[key].previousOwner)];
        }
        erasedKeys := erasedKeys + {keys[i]};
        i := i + 1;
      }
      TakeWhileExact(keys, AboveTransferHeight(height), i);
    }

    /** RemoveAllTransfersForOrigin: erases origin's transfers and their height keys in one batch. */
    method RemoveAllTransfersForOrigin(origin: Txid)
      modifies this
      ensures State() == RemoveOriginBatch(old(State()), origin, TransferWalk(old(State()), origin))
    {
      NatOrder();
      var txids := Ascending(TransferTxids(transfers, origin), NatLess);
      var erasedTransfers, erasedKeys := CollectOriginErasures(origin, txids);
      transfers := transfers - erasedTransfers;
      transferHeights := transferHeights - erasedKeys;
    }

    /** The cursor loop of RemoveAllTransfersForOrigin, filling the batch. */
    method CollectOriginErasures(origin: Txid, txids: seq<Txid>)
      returns (erasedTransfers: set<TransferKey>, erasedKeys: set<TransferHeightKey>)
      ensures erasedTransfers == OriginKeys(origin, txids)
      ensures erasedKeys == OriginHeightKeys(transfers, origin, txids)
    {
      erasedTransfers, erasedKeys := {}, {};
      var i := 0;
      while i < |txids|
        invariant 0 <= i <= |txids|
        invariant erasedTransfers == OriginKeys(origin, txids[..i])
        invariant erasedKeys == OriginHeightKeys(transfers, origin, txids[..i])
      {
        PrefixStep(txids, i);
        var key := TransferKey(origin, txids[i]);
        if key in transfers {
          erasedKeys := erasedKeys + {TransferHeightKeyOf(key, transfers[key])};
        }
        erasedTransfers := erasedTransfers + {key};
        i := i + 1;
      }
      PrefixAll(txids, i);
    }
  }
}
