/**
 * The byte encoding of the map-point index's height keys, and the order in
 * which LevelDB's cursor visits them.
 *
 * LevelDB compares keys byte by byte (a proper prefix sorts first). A
 * (prefix, HeightKey) pair is stored as the prefix byte 'h', the height as
 * four bytes least significant first (the serialization of every uint32_t),
 * and the txid's 32 stored bytes. Everywhere else the model walks height keys
 * in (height, txid) order, which is the order of a big-endian height; this
 * module shows that a big-endian height gives exactly that order, and that the
 * little-endian height as written does not, with an input on which
 * ReadByHeight and ErasePointsAboveHeight then go wrong.
 */
module MapPointKeyBytes {
  import opened Hash256
  import opened Ordering
  import opened MapPointRecords
  import opened MapPointDB

  const DB_HEIGHT: Byte := 0x68
  const DB_TRANSFER_HEIGHT: Byte := 0x79

  /** LevelDB's bytewise comparator. */
  predicate ByteLess(a: seq<Byte>, b: seq<Byte>)
    decreases |a|
  {
    if a == [] then b != []
    else if b == [] then false
    else if a[0] != b[0] then a[0] < b[0]
    else ByteLess(a[1..], b[1..])
  }

  /** Comparing two keys with equally long heads compares the heads first, then the tails. */
  lemma {:induction false} ByteLessAppend(p: seq<Byte>, q: seq<Byte>, s: seq<Byte>, u: seq<Byte>)
    requires |p| == |q|
    ensures ByteLess(p + s, q + u) <==> ByteLess(p, q) || (p == q && ByteLess(s, u))
    decreases |p|
  {
    if p == [] {
      assert p + s == s && q + u == u;
    } else {
      assert (p + s)[0] == p[0] && (q + u)[0] == q[0];
      assert (p + s)[1..] == p[1..] + s && (q + u)[1..] == q[1..] + u;
      ByteLessAppend(p[1..], q[1..], s, u);
      assert p == [p[0]] + p[1..] && q == [q[0]] + q[1..];
    }
  }

  /** The n least significant bytes of k, most significant first. */
  function BeBytes(k: nat, n: nat): (bs: seq<Byte>)
    ensures |bs| == n
  {
    if n == 0 then [] else BeBytes(k / 256, n - 1) + [k % 256]
  }

  /** A big-endian encoding orders numbers below 256^n by value, and tells them apart. */
  lemma {:induction false} BeBytesOrder(x: nat, y: nat, n: nat)
    requires x < Pow256(n) && y < Pow256(n)
    ensures ByteLess(BeBytes(x, n), BeBytes(y, n)) <==> x < y
    ensures BeBytes(x, n) == BeBytes(y, n) <==> x == y
    decreases n
  {
    if n > 0 {
      var p, q := BeBytes(x / 256, n - 1), BeBytes(y / 256, n - 1);
      BeBytesOrder(x / 256, y / 256, n - 1);
      ByteLessAppend(p, q, [x % 256], [y % 256]);
      assert (p + [x % 256])[..n - 1] == p && (q + [y % 256])[..n - 1] == q;
      assert (p + [x % 256])[n - 1] == x % 256 && (q + [y % 256])[n - 1] == y % 256;
      assert x == x / 256 * 256 + x % 256 && y == y / 256 * 256 + y % 256;
    }
  }

  lemma Pow256Four()
    ensures Pow256(4) == UINT32_LIMIT
  {
    assert Pow256(2) == 0x1_0000;
  }

  // ---------------------------------------------------------------------
  // The height order a big-endian encoding would give
  // ---------------------------------------------------------------------

  function BigEndianHeightKey(k: HeightKey): seq<Byte>
  {
    [DB_HEIGHT] + BeBytes(k.height, 4) + BeBytes(k.txid, HASH_BYTES)
  }

  function BigEndianTransferHeightKey(k: TransferHeightKey): seq<Byte>
  {
    [DB_TRANSFER_HEIGHT] + BeBytes(k.height, 4) + BeBytes(k.origin, HASH_BYTES) + BeBytes(k.transfer, HASH_BYTES)
  }

  /**
   * With the height stored big-endian, LevelDB's byte order on height keys is
   * exactly HeightKeyLess, the (height, txid) order of every height walk.
   */
  lemma BigEndianHeightKeyOrder(a: HeightKey, b: HeightKey)
    requires IsHash(a.txid) && IsHash(b.txid)
    ensures ByteLess(BigEndianHeightKey(a), BigEndianHeightKey(b)) <==> HeightKeyLess(a, b)
  {
    Pow256Four();
    BeBytesOrder(a.height, b.height, 4);
    BeBytesOrder(a.txid, b.txid, HASH_BYTES);
    ByteLessAppend([DB_HEIGHT], [DB_HEIGHT], BeBytes(a.height, 4), BeBytes(b.height, 4));
    ByteLessAppend([DB_HEIGHT] + BeBytes(a.height, 4), [DB_HEIGHT] + BeBytes(b.height, 4),
                   BeBytes(a.txid, HASH_BYTES), BeBytes(b.txid, HASH_BYTES));
    assert ([DB_HEIGHT] + BeBytes(a.height, 4) == [DB_HEIGHT] + BeBytes(b.height, 4)) <==> BeBytes(a.height, 4) == BeBytes(b.height, 4) by {
      if [DB_HEIGHT] + BeBytes(a.height, 4) == [DB_HEIGHT] + BeBytes(b.height, 4) {
        assert ([DB_HEIGHT] + BeBytes(a.height, 4))[1..] == BeBytes(a.height, 4);
        assert ([DB_HEIGHT] + BeBytes(b.height, 4))[1..] == BeBytes(b.height, 4);
      }
    }
  }

  /** Byte order on three fields of fixed width is their lexicographic order. */
  lemma ByteLessThree(x: seq<Byte>, x': seq<Byte>, y: seq<Byte>, y': seq<Byte>, z: seq<Byte>, z': seq<Byte>)
    requires |x| == |x'| && |y| == |y'|
    ensures ByteLess(x + y + z, x' + y' + z') <==>
      ByteLess(x, x') || (x == x' && ByteLess(y, y')) || (x == x' && y == y' && ByteLess(z, z'))
  {
    ByteLessAppend(x, x', y, y');
    ByteLessAppend(x + y, x' + y', z, z');
    assert x + y == x' + y' <==> x == x' && y == y' by {
      if x + y == x' + y' {
        assert (x + y)[..|x|] == x && (x' + y')[..|x|] == x';
        assert (x + y)[|x|..] == y && (x' + y')[|x|..] == y';
      }
    }
  }

  /** The tag byte followed by a big-endian height orders as the height. */
  lemma TaggedHeightOrder(tag: Byte, h: nat, h': nat)
    requires h < Pow256(4) && h' < Pow256(4)
    ensures ByteLess([tag] + BeBytes(h, 4), [tag] + BeBytes(h', 4)) <==> h < h'
    ensures [tag] + BeBytes(h, 4) == [tag] + BeBytes(h', 4) <==> h == h'
  {
    BeBytesOrder(h, h', 4);
    ByteLessAppend([tag], [tag], BeBytes(h, 4), BeBytes(h', 4));
    if [tag] + BeBytes(h, 4) == [tag] + BeBytes(h', 4) {
      assert ([tag] + BeBytes(h, 4))[1..] == BeBytes(h, 4);
      assert ([tag] + BeBytes(h', 4))[1..] == BeBytes(h', 4);
    }
  }

  /** The same holds for the transfer-height keys and TransferHeightKeyLess. */
  lemma BigEndianTransferHeightKeyOrder(a: TransferHeightKey, b: TransferHeightKey)
    requires IsHash(a.origin) && IsHash(b.origin) && IsHash(a.transfer) && IsHash(b.transfer)
    ensures ByteLess(BigEndianTransferHeightKey(a), BigEndianTransferHeightKey(b)) <==> TransferHeightKeyLess(a, b)
  {
    Pow256Four();
    TaggedHeightOrder(DB_TRANSFER_HEIGHT, a.height, b.height);
    BeBytesOrder(a.origin, b.origin, HASH_BYTES);
    BeBytesOrder(a.transfer, b.transfer, HASH_BYTES);
    ByteLessThree([DB_TRANSFER_HEIGHT] + BeBytes(a.height, 4), [DB_TRANSFER_HEIGHT] + BeBytes(b.height, 4),
                  BeBytes(a.origin, HASH_BYTES), BeBytes(b.origin, HASH_BYTES),
                  BeBytes(a.transfer, HASH_BYTES), BeBytes(b.transfer, HASH_BYTES));
  }

  // ---------------------------------------------------------------------
  // The encoding as written
  // ---------------------------------------------------------------------

  /** The stored bytes of a (DB_HEIGHT, HeightKey) pair: the height least significant byte first. */
  function StoredHeightKey(k: HeightKey): seq<Byte>
  {
    [DB_HEIGHT] + LeBytes(k.height, 4) + BeBytes(k.txid, HASH_BYTES)
  }

  predicate StoredLess(a: HeightKey, b: HeightKey)
  {
    ByteLess(StoredHeightKey(a), StoredHeightKey(b))
  }

  /** Stored height keys compare by their height bytes first, then by their txid bytes. */
  lemma StoredLessParts(a: HeightKey, b: HeightKey)
    ensures StoredLess(a, b) <==> ByteLess(LeBytes(a.height, 4), LeBytes(b.height, 4))
                                  || (LeBytes(a.height, 4) == LeBytes(b.height, 4) && ByteLess(BeBytes(a.txid, HASH_BYTES), BeBytes(b.txid, HASH_BYTES)))
  {
    ByteLessAppend([DB_HEIGHT], [DB_HEIGHT], LeBytes(a.height, 4), LeBytes(b.height, 4));
    ByteLessAppend([DB_HEIGHT] + LeBytes(a.height, 4), [DB_HEIGHT] + LeBytes(b.height, 4),
                   BeBytes(a.txid, HASH_BYTES), BeBytes(b.txid, HASH_BYTES));
    if [DB_HEIGHT] + LeBytes(a.height, 4) == [DB_HEIGHT] + LeBytes(b.height, 4) {
      assert ([DB_HEIGHT] + LeBytes(a.height, 4))[1..] == LeBytes(a.height, 4);
      assert ([DB_HEIGHT] + LeBytes(b.height, 4))[1..] == LeBytes(b.height, 4);
    }
  }

  /** cursor->Seek over height keys listed in cursor order: the keys from the first one not below seek. */
  function Seek(keys: seq<HeightKey>, seek: HeightKey): (r: seq<HeightKey>)
    ensures |r| <= |keys| && r == keys[|keys| - |r|..]
    ensures r != [] ==> !StoredLess(r[0], seek)
    ensures forall i :: 0 <= i < |keys| - |r| ==> StoredLess(keys[i], seek)
  {
    if keys == [] || !StoredLess(keys[0], seek) then keys else Seek(keys[1..], seek)
  }

  /** ReadByHeight as written, over the stored height keys in cursor order. */
  function ReadByHeightAsWritten(points: map<Txid, Record>, keys: seq<HeightKey>, start: Uint32, stop: Uint32): seq<PointInfo>
  {
    HeightInfos(points, TakeWhile(Seek(keys, HeightKey(start, 0)), AtMostHeight(stop)))
  }

  /** ErasePointsAboveHeight as written: every height key from the seek key to the end of the prefix. */
  function ErasePointsAboveHeightAsWritten(t: Tables, keys: seq<HeightKey>, height: Uint32): Tables
  {
    ErasePointsBatch(t, Seek(keys, HeightKey(Uint32Succ(height), 0)))
  }

  /** Heights 1 and 256 sort in the reverse of their numeric order once stored. */
  lemma LittleEndianHeightsOutOfOrder()
    ensures HeightKeyLess(HeightKey(1, 1), HeightKey(256, 2))
    ensures StoredLess(HeightKey(256, 2), HeightKey(1, 1))
  {
    StoredLessParts(HeightKey(256, 2), HeightKey(1, 1));
    assert LeBytes(256, 4)[0] == 0 && LeBytes(1, 4)[0] == 1;
  }

  const POINT_AT_1: Record := Record(1, "", "", 0, 0)
  const POINT_AT_2: Record := Record(2, "", "", 0, 0)
  const POINT_AT_256: Record := Record(256, "", "", 0, 0)
  const POINT_AT_512: Record := Record(512, "", "", 0, 0)

  /** Points a and b at heights 1 and 256. */
  function ReadTables(a: Txid, b: Txid): Tables
  {
    Tables(map[a := POINT_AT_1, b := POINT_AT_256], {HeightKey(1, a), HeightKey(256, b)}, {}, map[], {})
  }

  /** Their height keys in cursor order. */
  function ReadKeys(a: Txid, b: Txid): seq<HeightKey>
  {
    [HeightKey(256, b), HeightKey(1, a)]
  }

  /** Points a and b at heights 2 and 512. */
  function EraseTables(a: Txid, b: Txid): Tables
  {
    Tables(map[a := POINT_AT_2, b := POINT_AT_512], {HeightKey(2, a), HeightKey(512, b)}, {}, map[], {})
  }

  function EraseKeys(a: Txid, b: Txid): seq<HeightKey>
  {
    [HeightKey(512, b), HeightKey(2, a)]
  }

  lemma ReadExampleStored(a: Txid, b: Txid)
    requires a != b
    ensures Consistent(ReadTables(a, b))
    ensures StrictlySorted(ReadKeys(a, b), StoredLess) && Elements(ReadKeys(a, b)) == ReadTables(a, b).heightIndex
  {
    StoredLessParts(HeightKey(256, b), HeightKey(1, a));
    assert LeBytes(256, 4)[0] == 0 && LeBytes(1, 4)[0] == 1;
    assert Elements(ReadKeys(a, b)) == ReadTables(a, b).heightIndex;
  }

  lemma ReadExampleAsWritten(a: Txid, b: Txid)
    ensures ReadByHeightAsWritten(ReadTables(a, b).points, ReadKeys(a, b), 0, 100) == []
  {
    StoredLessParts(HeightKey(256, b), HeightKey(0, 0));
    assert LeBytes(256, 4) == [0, 1, 0, 0] && LeBytes(0, 4) == [0, 0, 0, 0];
    assert Seek(ReadKeys(a, b), HeightKey(0, 0)) == ReadKeys(a, b);
  }

  lemma ReadExampleRange(a: Txid, b: Txid)
    ensures Where(ReadTables(a, b).heightIndex, HeightBetween(0, 100)) == {HeightKey(1, a)}
  {
  }

  lemma ReadExampleWalk(a: Txid, b: Txid)
    ensures HeightWalk(ReadTables(a, b), 0, 100) == [HeightKey(1, a)]
  {
    HeightWalkIsRange(ReadTables(a, b), 0, 100);
    ReadExampleRange(a, b);
    var w := HeightWalk(ReadTables(a, b), 0, 100);
    assert |w| == 1 && w[0] in w;
  }

  lemma ReadExampleIntended(a: Txid, b: Txid)
    requires a != b
    ensures HeightInfos(ReadTables(a, b).points, HeightWalk(ReadTables(a, b), 0, 100)) == [MakeInfo(a, POINT_AT_1)]
  {
    ReadExampleWalk(a, b);
    assert [HeightKey(1, a)][..0] == [];
  }

  /**
   * Points at heights 1 and 256: the cursor meets the key at height 256
   * first, so ReadByHeight from 0 to 100 stops at once and returns nothing,
   * while the point at height 1 lies in the range.
   */
  lemma ReadByHeightMissesPoint(a: Txid, b: Txid)
    requires a != b
    ensures Consistent(ReadTables(a, b))
    ensures StrictlySorted(ReadKeys(a, b), StoredLess) && Elements(ReadKeys(a, b)) == ReadTables(a, b).heightIndex
    ensures ReadByHeightAsWritten(ReadTables(a, b).points, ReadKeys(a, b), 0, 100) == []
    ensures HeightInfos(ReadTables(a, b).points, HeightWalk(ReadTables(a, b), 0, 100)) == [MakeInfo(a, POINT_AT_1)]
  {
    ReadExampleStored(a, b);
    ReadExampleAsWritten(a, b);
    ReadExampleIntended(a, b);
  }

  lemma EraseExampleStored(a: Txid, b: Txid)
    requires a != b
    ensures Consistent(EraseTables(a, b))
    ensures StrictlySorted(EraseKeys(a, b), StoredLess) && Elements(EraseKeys(a, b)) == EraseTables(a, b).heightIndex
  {
    StoredLessParts(HeightKey(512, b), HeightKey(2, a));
    assert LeBytes(512, 4)[0] == 0 && LeBytes(2, 4)[0] == 2;
    assert Elements(EraseKeys(a, b)) == EraseTables(a, b).heightIndex;
  }

  lemma EraseExampleSeek(a: Txid, b: Txid)
    ensures Seek(EraseKeys(a, b), HeightKey(257, 0)) == [HeightKey(2, a)]
  {
    var seek := HeightKey(257, 0);
    assert LeBytes(512, 4) == [0, 2, 0, 0] && LeBytes(2, 4) == [2, 0, 0, 0] && LeBytes(257, 4) == [1, 1, 0, 0];
    StoredLessParts(HeightKey(512, b), seek);
    StoredLessParts(HeightKey(2, a), seek);
    assert EraseKeys(a, b)[1..] == [HeightKey(2, a)];
  }

  lemma EraseExampleRemoved(a: Txid, b: Txid)
    ensures Elements(PresentTxids(EraseTables(a, b).points, [HeightKey(2, a)])) == {a}
  {
    assert [HeightKey(2, a)][..0] == [];
    assert PresentTxids(EraseTables(a, b).points, [HeightKey(2, a)]) == [a];
  }

  lemma EraseExampleAsWritten(a: Txid, b: Txid)
    requires a != b
    ensures ErasePointsAboveHeightAsWritten(EraseTables(a, b), EraseKeys(a, b), 256).points == map[b := POINT_AT_512]
  {
    var t := EraseTables(a, b);
    EraseExampleSeek(a, b);
    assert Seek(EraseKeys(a, b), HeightKey(Uint32Succ(256), 0)) == [HeightKey(2, a)];
    EraseExampleRemoved(a, b);
    assert ErasePointsAboveHeightAsWritten(t, EraseKeys(a, b), 256).points == t.points - {a};
    EraseExampleLeft(a, b);
  }

  lemma EraseExampleLeft(a: Txid, b: Txid)
    requires a != b
    ensures EraseTables(a, b).points - {a} == map[b := POINT_AT_512]
  {
    var m := EraseTables(a, b).points - {a};
    assert m.Keys == {b};
  }

  /** What the intended erase keeps, by the property proved of it. */
  lemma EraseExampleKept(t: Tables, t': Tables, a: Txid, b: Txid)
    requires t.points == map[a := POINT_AT_2, b := POINT_AT_512] && a != b
    requires forall x :: x in t'.points <==> x in t.points && t.points[x].height <= 256
    requires forall x :: x in t'.points ==> t'.points[x] == t.points[x]
    ensures t'.points == map[a := POINT_AT_2]
  {
    assert t'.points.Keys == {a};
  }

  lemma EraseExampleIntended(a: Txid, b: Txid)
    requires a != b
    ensures ErasePointsBatch(EraseTables(a, b), EraseWalk(EraseTables(a, b), 256)).points == map[a := POINT_AT_2]
  {
    var t := EraseTables(a, b);
    EraseExampleStored(a, b);
    ErasePointsAboveHeightLeaves(t, 256);
    EraseExampleKept(t, ErasePointsBatch(t, EraseWalk(t, 256)), a, b);
  }

  /**
   * Points at heights 2 and 512, rewound to height 256: the seek key for
   * height 257 stores below the key at height 2 and above the key at height
   * 512, so the erase removes the point at height 2 and keeps the one at 512,
   * the reverse of what a rewind to 256 must do.
   */
  lemma ErasePointsAboveHeightErasesWrongPoint(a: Txid, b: Txid)
    requires a != b
    ensures Consistent(EraseTables(a, b))
    ensures StrictlySorted(EraseKeys(a, b), StoredLess) && Elements(EraseKeys(a, b)) == EraseTables(a, b).heightIndex
    ensures ErasePointsAboveHeightAsWritten(EraseTables(a, b), EraseKeys(a, b), 256).points == map[b := POINT_AT_512]
    ensures ErasePointsBatch(EraseTables(a, b), EraseWalk(EraseTables(a, b), 256)).points == map[a := POINT_AT_2]
  {
    EraseExampleStored(a, b);
    EraseExampleAsWritten(a, b);
    EraseExampleIntended(a, b);
  }
}
