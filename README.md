# Orin map points and governance, modelled in Dafny

This project models five parts of the Orin node and proves properties about each.

- **Governance object store and vote engine** (`CGovernanceManager` and its `GovernanceStore`). The model is a class `Manager.GovernanceManager` whose fields are the manager's maps:
  - the known objects and the postponed objects;
  - the tombstones of erased objects;
  - the requested hashes;
  - the vote index, the invalid-vote cache and the orphan-vote cache;
  - the superblock triggers;
  - the per-masternode rate records.

  Each operation is a method that changes those fields. Its new state is specified by a function over a `Governance.Store` value. The lemmas in `Governance` state what that function does: one-shot acceptance, no overwrite on insert, tombstone lifetimes, the rate limiter's decision, strict-maximum superblock selection and the proposal threshold and order. The store invariant (`StoreValid`) is kept by every operation.
- **Map-point chain index** (`MapPointIndex`).
  - The LevelDB store is a class `MapPointDB.DB` holding five tables: points, the height index, the owner index, transfers and the transfer-height index.
  - The cursor walks over a key prefix are ascending enumerations of sets of keys.
  - `MapPointIndex.MapPointIndex` models `WriteBlock`, `Rewind` and the queries.
- **Payload codec** (`MapPointCodec`): `BuildPayload`, `ParsePayload` and `ParseTransferPayload`.
- **RPC helpers** (`MapPointRpc`): the point order and its in-place sort, height-parameter parsing, owner-parameter normalisation, and the three RPC bodies over the index.
- **Genesis tool encoders** (`GenesisTool`): CScriptNum, push opcodes, CompactSize varints, compact nBits, network-argument parsing, the coinbase byte layout, and the mining loop with the hash function as a parameter.

Modelling conventions:
- A uint256 is a `nat`: the value of its 32 stored bytes read in memory order. So `<` on the model is `uint256::operator<`, a byte-wise comparison.
- Heights are `Uint32`, a subtype of `nat`. Where the source wraps a uint32 or casts it to `int`, the model writes the wrap or the cast out (`Uint32Succ`, `ToUint32`, `AsInt`).
- Things the code asks of classes outside the modelled files are oracle parameters:
  - governance object validity and collateral;
  - a vote file's verdict;
  - superblock parsing and expiry;
  - yes counts;
  - the rate buffer's `GetRate` comparison;
  - block-undo data;
  - address extraction.
- Clocks and sync flags are parameters (`Governance.Env`).

In these places the model follows the code rather than what its comments and names suggest:
- Replaying an orphan vote in `CheckOrphanVotes` does not add it to the vote index. Only `ProcessVote` indexes votes.
- `AddNewTrigger` inserts the trigger first and then returns whether it is still unexpired. A trigger can therefore stay registered while its object is marked for deletion.
- A second transfer of the same stored point within one block is checked against the owner stored before the block.
- The height-ordered LevelDB keys are serialised little-endian, so a cursor scan does not visit them in height order (see Findings). The main model uses the intended numeric order.
- `ParsePayload` bounds the coordinates with `std::llabs`, which lets INT64_MIN through (see Findings). The main model, and so `ExtractRecord` and `WriteBlock`, uses the intended bound check: a payload carrying INT64_MIN creates no point, where the code as written would create one. `ParsePayloadAsWritten` keeps the code's behaviour.

## Model

| member | source | states |
|---|---|---|
| GenesisTool.Pack | contrib/genesis/find_genesis.py:73-84 | `struct.pack` of an n-byte little-endian unsigned field succeeds iff the value fits; it then yields exactly n bytes that read back as the value |
| GenesisTool.ScriptNum | contrib/genesis/find_genesis.py:30-43 | the encoding of 0 is empty; for nonzero v the last byte's 0x80 bit is set iff v < 0; one extra byte is added exactly when the magnitude's top byte already has 0x80 set |
| GenesisTool.ScriptNumRoundTrip | contrib/genesis/find_genesis.py:30-43 | decoding the sign-magnitude bytes gives back v, and the encoding is minimal |
| GenesisTool.GenesisScriptNums | contrib/genesis/find_genesis.py:30-43 | the numbers in the genesis scriptSig encode as FF FF 00 1D and 04 |
| GenesisTool.EncodeScriptNum | contrib/genesis/find_genesis.py:30-43 | the loop that peels off magnitude bytes and folds in the sign produces `ScriptNum(value)` |
| GenesisTool.PushData | contrib/genesis/find_genesis.py:46-54 | the push succeeds iff the payload is below 2^32 bytes; it is a length header of the size its range demands followed by the unchanged payload |
| GenesisTool.ReadPushData | contrib/genesis/find_genesis.py:46-54 | a script reader recovers the payload and the rest from any push followed by more bytes |
| GenesisTool.EncodeVarint | contrib/genesis/find_genesis.py:57-64 | a negative value raises ValueError and a value of 2^64 or more raises struct.error; otherwise the encoding has 1, 3, 5 or 9 bytes by value range |
| GenesisTool.DecodeEncodeVarint | contrib/genesis/find_genesis.py:57-64 | a CompactSize reader recovers each value below 2^64 and the remaining bytes |
| GenesisTool.BitsToTarget | contrib/genesis/find_genesis.py:90-93 | fails with ValueError exactly when the exponent is below 3, which is where Python rejects the negative shift |
| GenesisTool.BitsToTargetMeaning | contrib/genesis/find_genesis.py:90-93 | the target is mantissa times 256^(exponent-3), and it is below 256^exponent |
| GenesisTool.ParseNetworkSpec | contrib/genesis/find_genesis.py:125-134 | fewer than three ':' parts raise ValueError; every failure is ValueError; the name is the first part; the start nonce defaults to 0 when there is no fourth part; it succeeds exactly when there are at least three parts and `ParseIntBase0` reads the second, the third and any fourth part, and then the time, bits and nonce are those readings |
| GenesisTool.ParseSignedBase0 | contrib/genesis/find_genesis.py:131-133 | an optional sign then the literal; a result exists only for a non-empty string, is at most 0 after '-' and at least 0 otherwise |
| GenesisTool.ParseIntBase0 | contrib/genesis/find_genesis.py:131-133 | `int(s, 0)`: the whitespace `int()` strips is ignored at both ends, then an optional sign and a 0x/0o/0b-prefixed or decimal literal with single '_' separators; a result exists only for a non-blank string and has the sign's direction |
| GenesisTool.Strip | contrib/genesis/find_genesis.py:131-133 | the stripped string neither starts nor ends with a character `int()` strips: ASCII 0x09-0x0D, space, or Unicode whitespace above ASCII; the separators 0x1C-0x1F are kept |
| GenesisTool.StripTrailingSpace | contrib/genesis/find_genesis.py:131-133 | a trailing character that `int()` strips (ASCII 0x09-0x0D, space, or Unicode whitespace above ASCII) is removed |
| GenesisTool.SpaceAroundIgnored | contrib/genesis/find_genesis.py:131-133 | one character that `int()` strips (ASCII 0x09-0x0D, space, or Unicode whitespace above ASCII), before or after the number, does not change what `int(s, 0)` reads |
| GenesisTool.ParseIntBase0Spaces | contrib/genesis/find_genesis.py:131-133 | " 1" reads as 1 |
| GenesisTool.ParseIntBase0Prefixed | contrib/genesis/find_genesis.py:131-133 | "0x_1_f" followed by a newline reads as 31 |
| GenesisTool.ParseIntBase0Grouped | contrib/genesis/find_genesis.py:131-133 | "1_000" reads as 1000 |
| GenesisTool.ParseIntBase0RefusesSeparator | contrib/genesis/find_genesis.py:131-133 | a character 0x1C-0x1F before "1" is not stripped, so the string raises ValueError |
| GenesisTool.ParseIntBase0RefusesDoubled | contrib/genesis/find_genesis.py:131-133 | "1__0" raises ValueError |
| GenesisTool.ParseIntBase0RefusesTrailing | contrib/genesis/find_genesis.py:131-133 | "1_" raises ValueError |
| GenesisTool.ParseIntBase0RefusesLeadingZero | contrib/genesis/find_genesis.py:131-133 | "0_1" raises ValueError: a decimal literal starting with 0 must be all zeros |
| GenesisTool.ParseEach | contrib/genesis/find_genesis.py:125-134 | consuming a generator of parses yields one value per item, each that item's parse, or fails exactly when some item fails |
| GenesisTool.ParseNetworkArgs | contrib/genesis/find_genesis.py:125-134 | consuming the generator either yields one spec per value, each the parse of that value, or fails exactly when some value fails to parse |
| GenesisTool.ParseDecimalBase0 | contrib/genesis/find_genesis.py:131-133 | `int(s, 0)` reads every decimal rendering of a natural number back |
| GenesisTool.ParseFormatNetworkSpec | contrib/genesis/find_genesis.py:125-134 | a spec with a ':'-free name and non-negative numbers is parsed back to itself from its `name:time:bits:nonce` text |
| GenesisTool.Next | contrib/genesis/find_genesis.py:119-122 | the nonce advances modulo 2^32, and the time increases by one exactly when the nonce wraps to 0 |
| GenesisTool.AttemptFromZeroNonce | contrib/genesis/find_genesis.py:117-122 | after k steps from nonce 0 the candidate is (time + k div 2^32, k mod 2^32) |
| GenesisTool.MineGenesis | contrib/genesis/find_genesis.py:104-122 | a bad nBits raises before any attempt; every candidate tried before the result hashed above the target; a result found is the candidate reached after that many steps, with its hash at most the target; struct.error is raised at the first candidate whose time, nonce or bits does not fit in an unsigned 32-bit field |
| GenesisTool.GenesisSigHead | contrib/genesis/find_genesis.py:68-70 | the two fixed pushes of the scriptSig are the bytes 04 FF FF 00 1D 01 04 |
| GenesisTool.BuildScriptSig | contrib/genesis/find_genesis.py:68-72 | the scriptSig is built iff the timestamp is below 2^32 bytes, and is then the two fixed pushes followed by the push of the timestamp |
| GenesisTool.CoinbasePieces | contrib/genesis/find_genesis.py:74-81 | the constant fields of the coinbase are the bytes the layout needs, and an 8-byte pack is the little-endian value |
| GenesisTool.CoinbaseLayout | contrib/genesis/find_genesis.py:73-84 | the version/input/output/lock-time layout with varint-prefixed scripts parses back into its scriptSig, reward and scriptPubKey |
| GenesisTool.CoinbaseParses | contrib/genesis/find_genesis.py:73-84 | the regrouped coinbase bytes parse back into their three variable fields |
| GenesisTool.ReadScriptWritten | contrib/genesis/find_genesis.py:78-83 | a varint-prefixed script is read back with the rest of the bytes |
| GenesisTool.AssembleCoinbase | contrib/genesis/find_genesis.py:73-84 | the bytearray appends produce a transaction that parses into exactly the given scriptSig, reward and scriptPubKey |
| GenesisTool.BuildCoinbase | contrib/genesis/find_genesis.py:67-84 | building succeeds iff the timestamp and key fit a push and the reward fits 8 bytes; every failure is struct.error; a result parses into the genesis scriptSig, the reward and push(pubkey) plus OP_CHECKSIG |
| MapPointCodec.FormatInt | src/util/mappoint.cpp:45-48 | a formatted integer never contains the ':' separator |
| MapPointCodec.ParseInt64 | src/util/mappoint.cpp:66-69 | an accepted field is a value in the int64 range |
| MapPointCodec.ParseFormatInt | src/util/mappoint.cpp:45-69 | every int64 is parsed back from its decimal rendering |
| MapPointCodec.ParseFields | src/util/mappoint.cpp:50-70 | accepted payloads have exactly three parts and start with "ORINMAP1:", and both fields are int64 |
| MapPointCodec.ParsePayload | src/util/mappoint.cpp:50-78 | an accepted payload has three parts, starts with "ORINMAP1:", and carries coordinates within the inclusive latitude and longitude bounds |
| MapPointCodec.BuildPayload | src/util/mappoint.cpp:45-48 | `ORINMAP1:<lat>:<lon>` with decimal int64 fields; its meaning is fixed by `BuildPayloadParts` and `ParseBuildPayload` |
| MapPointCodec.BuildPayloadParts | src/util/mappoint.cpp:45-48 | splitting a built payload at ':' gives the prefix and the two rendered integers |
| MapPointCodec.ParseFieldsBuild | src/util/mappoint.cpp:45-70 | the fields of a built payload are read back unchanged |
| MapPointCodec.ParseBuildPayload | src/util/mappoint.cpp:45-78 | a built payload parses back to the same coordinates iff they are within the bounds, and is rejected otherwise |
| MapPointCodec.BoundsInclusive | src/util/mappoint.cpp:71-76 | plus or minus 90,000,000 latitude and 180,000,000 longitude are accepted; one more is rejected |
| MapPointCodec.ParsedPayloadCanonical | src/util/mappoint.cpp:45-78 | any accepted payload has the same coordinates as the canonical payload built from them |
| MapPointCodec.ShortPayloadRejected | src/util/mappoint.cpp:54-56 | a payload shorter than `sizeof("ORINMAP1")` is rejected by both parsers |
| MapPointCodec.LlabsAdmitsInt64Min | src/util/mappoint.cpp:71-76 | as written, a latitude of INT64_MIN passes the bound check although it is out of range; the corrected parser rejects it |
| MapPointCodec.AsWrittenAgreesAwayFromInt64Min | src/util/mappoint.cpp:71-76 | the code as written and the corrected parser agree on every payload that does not carry INT64_MIN |
| MapPointCodec.ParseTransferPayload | src/util/mappoint.cpp:80-97 | an accepted transfer payload is exactly "ORINMAPX:" followed by 64 hex characters, and the result is a uint256 |
| MapPointCodec.TransferPayloadAccepted | src/util/mappoint.cpp:80-97 | "ORINMAPX:" followed by any 64 hex characters is accepted, giving the hash those characters denote |
| MapPointCodec.ParseBuildTransferPayload | src/wallet/rpc/mappoint.cpp:209 | the wallet's "ORINMAPX:" plus GetHex payload parses back to the origin txid |
| MapPointCodec.PayloadKindsDisjoint | src/util/mappoint.cpp:58-91 | no string is both a point payload and a transfer payload |
| MapPointRecords.ToUint32 | src/index/mappointindex.cpp:385 | the cast to uint32 keeps values in range and is congruent modulo 2^32 |
| MapPointRecords.Uint32Succ | src/index/mappointindex.cpp:243 | height + 1 in uint32 is the successor below UINT32_MAX and wraps to 0 at UINT32_MAX |
| MapPointRecords.AsInt | src/index/mappointindex.cpp:144 | the cast of a stored height to int is a 32-bit signed value and keeps every height below 2^31 |
| MapPointRecords.MakeInfo | src/index/mappointindex.cpp:140-150 | the point info carries the txid, owners and coordinates of the record and no transfers |
| MapPointRecords.HeightKeyOrder | src/index/mappointindex.cpp:35-53 | the intended order on height keys, by height then txid, is a strict total order |
| MapPointRecords.TransferHeightKeyOrder | src/index/mappointindex.cpp:55-74 | the intended order on transfer-height keys, by height, origin and transfer txid, is a strict total order |
| MapPointRecords.TransferInfoLeTotal | src/index/mappointindex.cpp:294-297 | the transfer comparator, by height then transfer txid, is a total preorder |
| MapPointRecords.BytesToString | src/index/mappointindex.cpp:89 | the payload string has one character per pushed byte |
| MapPointRecords.ExtractOpReturnData | src/index/mappointindex.cpp:76-92 | data is found iff the script starts with OP_RETURN followed by a non-empty push, and the data is then non-empty |
| MapPointRecords.FirstPayloadIsFirst | src/index/mappointindex.cpp:541-549 | the payload is empty iff no output carries one; otherwise it is the data of the first output that does |
| MapPointRecords.FindPayload | src/index/mappointindex.cpp:541-549 | the loop over outputs returns the first payload |
| MapPointRecords.FirstOwnerIsFirst | src/index/mappointindex.cpp:94-107 | no owner iff no output pays an address; otherwise the owner is the first paying output's destination |
| MapPointRecords.ExtractOwnerAddress | src/index/mappointindex.cpp:94-107 | the loop over outputs returns the first owner |
| MapPointRecords.RecordOf | src/index/mappointindex.cpp:536-567 | a record comes only from a non-coinbase transaction whose first payload parses, and has origin owner equal to current owner equal to the first owner |
| MapPointRecords.ExtractRecord | src/index/mappointindex.cpp:536-567 | the method returns the record `RecordOf` defines |
| MapPointRecords.CoinbaseCreatesNothing | src/index/mappointindex.cpp:538-540 | a coinbase transaction never creates a point |
| MapPointRecords.CheckOwnsInput | src/index/mappointindex.cpp:436-447 | the loop over inputs is true iff some spent output pays the owner |
| MapPointDB.DB.constructor | src/index/mappointindex.cpp:136-138 | a new database holds empty tables |
| MapPointDB.EmptyConsistent | src/index/mappointindex.cpp:136-138 | the empty tables satisfy the index invariants |
| MapPointDB.WritePointConsistent | src/index/mappointindex.cpp:152-167 | writing a fresh point keeps the indexes consistent, stores the record and leaves transfers alone |
| MapPointDB.WritePointsConsistent | src/index/mappointindex.cpp:152-167 | a batch of fresh points keeps the indexes consistent and leaves transfers alone |
| MapPointDB.WritePointsPoints | src/index/mappointindex.cpp:152-167 | after the batch every old point is unchanged, every written point holds its record, and nothing else exists |
| MapPointDB.DB.WritePoints | src/index/mappointindex.cpp:152-167 | the batch writes each point, its height key and, for a non-empty owner, its owner key |
| MapPointDB.DB.WriteRecord | src/index/mappointindex.cpp:169-172 | only the point's record is replaced |
| MapPointDB.DB.ReadPoint | src/index/mappointindex.cpp:174-177 | a point is found iff it is stored, and the stored record is returned |
| MapPointDB.OwnerIndexUpdate | src/index/mappointindex.cpp:179-189 | the new owner's key is added when non-empty, the old owner's key is gone when non-empty and different, and every other key is unchanged |
| MapPointDB.DB.UpdateOwnerIndex | src/index/mappointindex.cpp:179-189 | the owner index becomes the update above and nothing else changes |
| MapPointDB.SetOwnerConsistent | src/index/mappointindex.cpp:479-490 | setting a new owner keeps the invariants and the point set, and the point is then indexed under exactly its new non-empty owner |
| MapPointDB.HeightInfosAll | src/index/mappointindex.cpp:195-208 | the read produces one info per walked key, built from that key's stored record |
| MapPointDB.HeightWalkIsRange | src/index/mappointindex.cpp:191-210 | the cursor walk from the start key, stopped past stop, is the height keys within [start, stop] in ascending order |
| MapPointDB.HeightRangeSet | src/index/mappointindex.cpp:194-202 | keys at least start and at most stop are the keys between start and stop |
| MapPointDB.ReadByHeightIsRange | src/index/mappointindex.cpp:191-210 | the read is sorted by height and txid, contains exactly the stored points with start <= height <= stop, and gives each one's info |
| MapPointDB.HeightWalkMembers | src/index/mappointindex.cpp:191-210 | the walk is sorted and holds exactly the indexed points within the range |
| MapPointDB.HeightWalkStored | src/index/mappointindex.cpp:191-210 | every walked key names a stored point |
| MapPointDB.DB.ReadByHeight | src/index/mappointindex.cpp:191-210 | the method returns the infos of the height walk |
| MapPointDB.DB.ReadHeightKeys | src/index/mappointindex.cpp:195-208 | the cursor loop returns the infos of the keys up to the first one above stop |
| MapPointDB.OwnerTxids | src/index/mappointindex.cpp:215-224 | the owner prefix scan yields exactly the txids indexed under that owner |
| MapPointDB.OwnedInRange | src/index/mappointindex.cpp:225-232 | the points read for an owner are the stored points currently owned by that non-empty owner within the height range |
| MapPointDB.ReadOwnerIsRange | src/index/mappointindex.cpp:212-238 | the owner walk filtered by height is exactly those points in ascending txid order |
| MapPointDB.DB.ReadOwner | src/index/mappointindex.cpp:215-234 | the method returns the in-range infos of one owner walk |
| MapPointDB.DB.ReadInRange | src/index/mappointindex.cpp:225-232 | the loop keeps exactly the stored points within the height range, in walk order |
| MapPointDB.DB.ReadOwners | src/index/mappointindex.cpp:212-238 | the reads for each owner are concatenated in owner order |
| MapPointDB.PresentTxidsAll | src/index/mappointindex.cpp:247-257 | every walked key of a stored point is reported as removed, in walk order |
| MapPointDB.ErasedOwnerKeys | src/index/mappointindex.cpp:251-254 | the owner keys erased are exactly the current non-empty owners of the walked points |
| MapPointDB.EraseWalkIsAbove | src/index/mappointindex.cpp:240-262 | below UINT32_MAX, the walk from height + 1 is the height keys above the height in ascending order |
| MapPointDB.AboveHeightSet | src/index/mappointindex.cpp:243 | keys at least height + 1 are the keys above the height |
| MapPointDB.ErasePointsAboveHeightLeaves | src/index/mappointindex.cpp:240-262 | exactly the points at or below the height remain, unchanged, with the height and owner indexes consistent and the transfers untouched |
| MapPointDB.ErasePointsAboveHeightReports | src/index/mappointindex.cpp:240-262 | the removed list holds the txid of each walked key, in height order, and the walk holds exactly the points above the height |
| MapPointDB.ErasedAbove | src/index/mappointindex.cpp:240-262 | a txid is reported removed iff its stored point is above the height |
| MapPointDB.EraseWalkMembers | src/index/mappointindex.cpp:240-262 | the walk holds exactly the indexed points above the height |
| MapPointDB.EraseWalkStored | src/index/mappointindex.cpp:240-262 | every walked key names a stored point |
| MapPointDB.EraseAtLargestHeightErasesAll | src/index/mappointindex.cpp:243 | at height UINT32_MAX the seek key wraps to height 0, so every point is erased |
| MapPointDB.EraseWalkAll | src/index/mappointindex.cpp:243 | the wrapped walk visits every height key |
| MapPointDB.AllHeightsSet | src/index/mappointindex.cpp:243 | every key is at least height 0 |
| MapPointDB.DB.ErasePointsAboveHeight | src/index/mappointindex.cpp:240-262 | the method reports the removed txids and erases their points, height keys and owner keys as one batch |
| MapPointDB.DB.CollectPointErasures | src/index/mappointindex.cpp:247-257 | the cursor loop gathers the removed txids, the points, the height keys and the owner keys to erase |
| MapPointDB.WriteTransferConsistent | src/index/mappointindex.cpp:264-270 | writing a fresh transfer of a stored point keeps the invariants and the points |
| MapPointDB.DB.WriteTransfer | src/index/mappointindex.cpp:264-270 | the batch writes the transfer record and its height key |
| MapPointDB.TransferTxids | src/index/mappointindex.cpp:275-282 | the origin prefix scan yields exactly the transfer txids stored for that origin |
| MapPointDB.TransferInfos | src/index/mappointindex.cpp:283-293 | the infos read are exactly those of the stored transfers named by the walk |
| MapPointDB.ReadTransfersAll | src/index/mappointindex.cpp:272-299 | an info is read iff it is the info of a stored transfer of that origin |
| MapPointDB.DB.ReadTransfers | src/index/mappointindex.cpp:272-299 | the result is a permutation of the origin's transfers, sorted by height then transfer txid |
| MapPointDB.DB.SortTransferInfos | src/index/mappointindex.cpp:294-297 | `std::sort` yields a sorted permutation |
| MapPointDB.DB.ReadTransferTxids | src/index/mappointindex.cpp:283-293 | the loop reads the transfer of each walked txid |
| MapPointDB.PresentTransfers | src/index/mappointindex.cpp:307-321 | the transfers erased are exactly the stored ones named by the walk |
| MapPointDB.OwnerUpdatesAll | src/index/mappointindex.cpp:307-321 | each walked transfer contributes its origin and previous owner, in walk order |
| MapPointDB.TransferErasureStep | src/index/mappointindex.cpp:307-321 | one cursor step appends one owner update and one erasure exactly when the transfer is stored |
| MapPointDB.TransferHeightWalkIsAbove | src/index/mappointindex.cpp:301-326 | below UINT32_MAX, the walk is the transfer-height keys above the height in ascending order |
| MapPointDB.TransferHeightRangeSet | src/index/mappointindex.cpp:304-312 | keys at least height + 1 and above the height are the keys above the height |
| MapPointDB.TransferHeightWalkMembers | src/index/mappointindex.cpp:301-326 | the walk is sorted, holds exactly the indexed transfers above the height, and each names a stored transfer |
| MapPointDB.RemoveTransfersAboveHeightLeaves | src/index/mappointindex.cpp:301-326 | exactly the transfers at or below the height remain, unchanged, and the point tables are untouched |
| MapPointDB.RemoveTransfersAboveHeightReports | src/index/mappointindex.cpp:301-326 | the owner updates are the removed transfers' origins and previous owners in reverse key order |
| MapPointDB.DB.RemoveTransfersAboveHeight | src/index/mappointindex.cpp:301-326 | the method reports the reversed owner updates and erases the walked transfers and their height keys |
| MapPointDB.DB.CollectTransferErasures | src/index/mappointindex.cpp:307-321 | the cursor loop stops at the first key at or below the height, gathering the updates and erasures before it |
| MapPointDB.OriginHeightKeys | src/index/mappointindex.cpp:331-345 | the height keys erased are exactly those of the origin's walked and stored transfers |
| MapPointDB.OriginKeys | src/index/mappointindex.cpp:331-345 | the transfer keys erased are exactly the origin's walked ones |
| MapPointDB.RemoveAllTransfersForOriginSpec | src/index/mappointindex.cpp:328-349 | exactly the other origins' transfers remain, unchanged, and the point tables are untouched |
| MapPointDB.DB.RemoveAllTransfersForOrigin | src/index/mappointindex.cpp:328-349 | the batch erases every transfer of the origin and its height key |
| MapPointDB.DB.CollectOriginErasures | src/index/mappointindex.cpp:331-345 | the cursor loop gathers the origin's transfer keys and height keys |
| MapPointKeyBytes.ByteLessAppend | src/index/mappointindex.cpp:35-74 | comparing equal-length prefixes then suffixes is LevelDB's byte-wise order on the concatenation |
| MapPointKeyBytes.BeBytes | src/index/mappointindex.cpp:35-74 | a big-endian field has the requested width |
| MapPointKeyBytes.BeBytesOrder | src/index/mappointindex.cpp:35-74 | big-endian fields of equal width compare byte-wise as their values do |
| MapPointKeyBytes.BigEndianHeightKeyOrder | src/index/mappointindex.cpp:35-53 | with a big-endian height, the stored key order would be height then txid |
| MapPointKeyBytes.ByteLessThree | src/index/mappointindex.cpp:55-74 | the byte-wise order of three concatenated fields is lexicographic over the fields |
| MapPointKeyBytes.TaggedHeightOrder | src/index/mappointindex.cpp:55-74 | a tag byte followed by a big-endian height compares as the height does |
| MapPointKeyBytes.BigEndianTransferHeightKeyOrder | src/index/mappointindex.cpp:55-74 | with a big-endian height, the stored transfer-height key order would be height, origin, transfer |
| MapPointKeyBytes.StoredLessParts | src/index/mappointindex.cpp:35-53 | as written, stored height keys compare by the little-endian height bytes first |
| MapPointKeyBytes.Seek | src/index/mappointindex.cpp:194 | the cursor seek skips exactly the keys stored before the seek key |
| MapPointKeyBytes.LittleEndianHeightsOutOfOrder | src/index/mappointindex.cpp:35-53 | height 1 is below height 256 but its stored key sorts after it |
| MapPointKeyBytes.ReadByHeightAsWritten | src/index/mappointindex.cpp:191-210 | the height scan over the keys in their stored byte order, stopping at the first key above the height; `ReadByHeightMissesPoint` exhibits it |
| MapPointKeyBytes.ReadByHeightMissesPoint | src/index/mappointindex.cpp:191-210 | on two points at heights 1 and 256, the scan as written for [0, 100] returns nothing; the intended read returns the point at height 1 |
| MapPointKeyBytes.ErasePointsAboveHeightErasesWrongPoint | src/index/mappointindex.cpp:240-262 | on two points at heights 2 and 512, erasing above 256 as written keeps the point at 512 and erases the one at 2; the intended erase does the reverse |
| MapPointIndex.Classify | src/index/mappointindex.cpp:383-407 | a transaction creates a point iff it carries a record; it is a transfer candidate iff it creates none and its payload parses as a transfer |
| MapPointIndex.Kinds | src/index/mappointindex.cpp:383-407 | one classification per transaction |
| MapPointIndex.PrevOwner | src/index/mappointindex.cpp:422-431 | the owner a transfer replaces: the pending point's owner, else the stored point's, else none; used by the `CollectTransfers` contract |
| MapPointIndex.TxStep | src/index/mappointindex.cpp:383-464 | one transaction of the first loop: a creation is emplaced, a valid transfer appended and its pending owner moved, missing undo data fails; characterised by `CollectPointRecords` and `CollectTransfers` |
| MapPointIndex.Collect | src/index/mappointindex.cpp:380-465 | the first loop over a prefix of the block; `CollectFails`, `CollectPointKeys` and `CollectTransfers` state its result |
| MapPointIndex.CollectBlock | src/index/mappointindex.cpp:380-465 | the first loop over the whole block; `CollectBlockFailsIff`, `CollectBlockPoints` and `CollectBlockTransfers` state its result |
| MapPointIndex.CollectStep | src/index/mappointindex.cpp:380-465 | one loop iteration over the block applies one transaction step |
| MapPointIndex.CollectFailStays | src/index/mappointindex.cpp:409-413 | once the block's undo data is missing for a transfer, the block fails |
| MapPointIndex.CollectFails | src/index/mappointindex.cpp:409-413 | a prefix fails iff the undo data is missing and the prefix holds a transfer candidate |
| MapPointIndex.CollectBlockFailsIff | src/index/mappointindex.cpp:409-413 | `WriteBlock` fails iff the undo data is missing and some transaction needs it |
| MapPointIndex.CollectPointKeys | src/index/mappointindex.cpp:384-387 | the pending points are exactly the block's creating transactions |
| MapPointIndex.CollectPointRecords | src/index/mappointindex.cpp:384-387 | each pending point is its transaction's record at the block height, up to its current owner |
| MapPointIndex.CollectBlockPoints | src/index/mappointindex.cpp:384-387 | the same two facts for the whole block |
| MapPointIndex.CollectTransfers | src/index/mappointindex.cpp:405-464 | every pending transfer comes from a non-creating transaction with a transfer payload whose origin has a non-empty owner, has an input paying that owner, and moves it to a different non-empty new owner |
| MapPointIndex.CollectBlockTransfers | src/index/mappointindex.cpp:405-464 | the same for the whole block |
| MapPointIndex.CollectTransferTxids | src/index/mappointindex.cpp:464 | each pending transfer is a transaction of the block, and no transaction is recorded twice |
| MapPointIndex.LastNewOwnerNone | src/index/mappointindex.cpp:460-462 | a point with no pending transfer keeps its owner |
| MapPointIndex.LastNewOwnerSnoc | src/index/mappointindex.cpp:460-462 | a new transfer of a point sets its pending owner |
| MapPointIndex.CollectPendingOwner | src/index/mappointindex.cpp:423-424 | a pending point's current owner is the new owner of its last pending transfer, and every transfer's origin is pending or stored |
| MapPointIndex.CollectBlockPendingOwner | src/index/mappointindex.cpp:423-424 | the same for the whole block |
| MapPointIndex.Creations | src/index/mappointindex.cpp:467-476 | the pending points in strictly ascending txid order, one per point |
| MapPointIndex.CreationsCover | src/index/mappointindex.cpp:467-476 | every pending point is written |
| MapPointIndex.ApplyTransfersConsistent | src/index/mappointindex.cpp:478-495 | writing fresh transfers keeps the invariants and the point set, and adds only the transfers written |
| MapPointIndex.WriteBlockConsistent | src/index/mappointindex.cpp:372-498 | writing a block keeps the invariants, and the points become the old ones plus the block's |
| MapPointIndex.CreationsFresh | src/index/mappointindex.cpp:467-476 | the block's points are fresh in the database |
| MapPointIndex.PendingTransfersFresh | src/index/mappointindex.cpp:478-495 | after the points are written, the block's transfers are fresh and their origins stored |
| MapPointIndex.CreatedKeys | src/index/mappointindex.cpp:467-476 | writing the points adds exactly the block's points |
| MapPointIndex.MapPointIndex.constructor | src/index/mappointindex.cpp:351-356 | the index starts with an empty database |
| MapPointIndex.MapPointIndex.TxPending | src/index/mappointindex.cpp:383-464 | one transaction's step of the first loop |
| MapPointIndex.MapPointIndex.CollectNext | src/index/mappointindex.cpp:383-464 | the next prefix's pending state; a failure here fails the block |
| MapPointIndex.MapPointIndex.CollectPending | src/index/mappointindex.cpp:380-465 | the first loop builds the pending points and transfers of the whole block |
| MapPointIndex.MapPointIndex.CreationsOf | src/index/mappointindex.cpp:467-476 | the pending points become the batch to write |
| MapPointIndex.MapPointIndex.WriteBlock | src/index/mappointindex.cpp:372-498 | a block is written iff its pending state can be built; it then writes the points and the transfers, and otherwise changes nothing |
| MapPointIndex.MapPointIndex.WriteTransfers | src/index/mappointindex.cpp:478-495 | the second loop applies each pending transfer in order |
| MapPointIndex.MapPointIndex.WriteTransfer | src/index/mappointindex.cpp:478-495 | one transfer: its record, its height key and the origin's new owner |
| MapPointIndex.MapPointIndex.SetOwner | src/index/mappointindex.cpp:483-490 | the point's current owner and the owner index move to the new owner |
| MapPointIndex.LastUpdateAt | src/index/mappointindex.cpp:506-519 | the owner restored for a point is the last update naming it |
| MapPointIndex.LastUpdateNone | src/index/mappointindex.cpp:506-519 | a point with no update keeps its owner |
| MapPointIndex.ApplyOwnerUpdatesSpec | src/index/mappointindex.cpp:506-519 | applying the updates keeps the invariants and the point set, and leaves each point its last update's owner |
| MapPointIndex.FirstOfOrigin | src/index/mappointindex.cpp:301-326 | among walked transfers of one origin there is a first |
| MapPointIndex.ReversedUpdatesFirst | src/index/mappointindex.cpp:324 | after the reversal, the last update of a point is the previous owner of its first walked transfer |
| MapPointIndex.ReversedUpdatesNone | src/index/mappointindex.cpp:324 | a point with no walked transfer is not updated |
| MapPointIndex.RestoredOwner | src/index/mappointindex.cpp:503-519 | the owner a rewound point ends with; `RestoredOwnerAt` and `RestoredOwnerNone` say which |
| MapPointIndex.RestoredOwnerAt | src/index/mappointindex.cpp:503-519 | a point with walked transfers ends with the previous owner of its lowest removed transfer |
| MapPointIndex.RestoredOwnerNone | src/index/mappointindex.cpp:503-519 | a point with no removed transfer keeps its owner |
| MapPointIndex.RestoredOwnerIs | src/index/mappointindex.cpp:503-519 | the owner after restoration is `RestoredOwner` in both cases |
| MapPointIndex.UndoTransfersSpec | src/index/mappointindex.cpp:503-519 | undoing keeps the invariants, restores each owner, and keeps exactly the transfers at or below the height |
| MapPointIndex.RemoveOriginsSpec | src/index/mappointindex.cpp:525-529 | exactly the transfers of the other origins remain |
| MapPointIndex.RewindErases | src/index/mappointindex.cpp:520-524 | after undoing, exactly the points at or below the height remain, and the erased origins are the points above it |
| MapPointIndex.RewindRemoves | src/index/mappointindex.cpp:525-529 | the erased points' transfers are removed and nothing else changes |
| MapPointIndex.RewindSpec | src/index/mappointindex.cpp:500-532 | the tables after a rewind; `RewindErases`, `RewindRemoves`, `RewindConsistent`, `RewindPoints` and `RewindTransfers` state what they hold |
| MapPointIndex.RewindConsistent | src/index/mappointindex.cpp:500-532 | rewinding keeps the invariants |
| MapPointIndex.RewindPoints | src/index/mappointindex.cpp:500-532 | after rewinding, exactly the points at or below the height remain, each with its restored owner |
| MapPointIndex.KeptPoints | src/index/mappointindex.cpp:500-532 | the two stages compose into that point set |
| MapPointIndex.RewindTransfers | src/index/mappointindex.cpp:500-532 | exactly the transfers at or below the height whose origin also survives remain, unchanged |
| MapPointIndex.KeptTransfers | src/index/mappointindex.cpp:500-532 | the stages compose into that transfer set |
| MapPointIndex.MapPointIndex.Rewind | src/index/mappointindex.cpp:500-532 | the database becomes the rewind of the old one to the new tip's height |
| MapPointIndex.MapPointIndex.RestoreOwners | src/index/mappointindex.cpp:506-519 | the loop applies each owner update in order |
| MapPointIndex.MapPointIndex.RemoveTransfersOf | src/index/mappointindex.cpp:525-529 | the loop removes the transfers of each erased origin |
| MapPointIndex.HeightFrom | src/index/mappointindex.cpp:588-589 | a negative from-height is clamped to 0 and others are kept |
| MapPointIndex.HeightTo | src/index/mappointindex.cpp:588-589 | a negative to-height becomes UINT32_MAX and others are kept |
| MapPointIndex.MapPointIndex.GetPoint | src/index/mappointindex.cpp:569-578 | a point is found iff stored; its info carries its record and the sorted permutation of its transfers |
| MapPointIndex.MapPointIndex.GetTransfers | src/index/mappointindex.cpp:604-609 | the origin's transfers, sorted, as a permutation |
| MapPointIndex.MapPointIndex.GetPointsForOwner | src/index/mappointindex.cpp:580-592 | an empty owner list gives nothing; otherwise the owners' reads over the clamped range |
| MapPointIndex.MapPointIndex.GetPointsInHeightRange | src/index/mappointindex.cpp:594-602 | the height read over the clamped range |
| MapPointRpc.StringLessIrreflexive | src/rpc/mappoint.cpp:53-60 | no owner string sorts before itself |
| MapPointRpc.StringLessTransitive | src/rpc/mappoint.cpp:53-60 | the string order is transitive |
| MapPointRpc.StringLessTotal | src/rpc/mappoint.cpp:53-60 | any two different strings are ordered |
| MapPointRpc.StringLessAsymmetric | src/rpc/mappoint.cpp:53-60 | no two strings sort before each other |
| MapPointRpc.PointLeTotal | src/rpc/mappoint.cpp:53-60 | the three-key order (origin height, current owner, origin txid) is a total preorder |
| MapPointRpc.PointOwnersOrdered | src/rpc/mappoint.cpp:53-60 | the non-strict owner comparison is transitive |
| MapPointRpc.SortPoints | src/rpc/mappoint.cpp:53-60 | the in-place sort leaves a permutation sorted by the three keys, so heights ascend |
| MapPointRpc.SortedPoints | src/rpc/mappoint.cpp:53-60 | a sorted permutation of the points |
| MapPointRpc.MapPointToJson | src/rpc/mappoint.cpp:28-51 | the transfers list is present iff asked for, and then holds the info's transfers |
| MapPointRpc.ListJson | src/rpc/mappoint.cpp:159-162 | one object per point, in order, none with transfers |
| MapPointRpc.HeightParam | src/rpc/mappoint.cpp:107-116 | one optional height: the default when missing or null, otherwise `ParamInt`; `ParseHeightDefaults` states it |
| MapPointRpc.ParseHeightParams | src/rpc/mappoint.cpp:105-120 | both heights and the order check; `ParseHeightDefaults` and `ParseHeightOrder` state it |
| MapPointRpc.ParamInt | src/rpc/mappoint.cpp:108-113 | a parameter is read iff it is a number within int, and is otherwise a type error |
| MapPointRpc.ParseHeightDefaults | src/rpc/mappoint.cpp:107-116 | missing or null heights default to 0 and INT_MAX |
| MapPointRpc.ParseHeightOrder | src/rpc/mappoint.cpp:117-119 | the pair is refused with RPC_INVALID_PARAMETER iff to < from; equal values are accepted |
| MapPointRpc.Addresses | src/rpc/mappoint.cpp:196-207 | a string becomes one owner, an array of strings its elements in order, and nothing else is accepted |
| MapPointRpc.ParseOwners | src/rpc/mappoint.cpp:196-210 | the loop yields those owners; an array element that is not a string is a type error; any other parameter is RPC_INVALID_PARAMETER |
| MapPointRpc.IndexOrError | src/rpc/mappoint.cpp:19-26 | RPC_MISC_ERROR exactly when the index is not enabled, otherwise the index |
| MapPointRpc.GetMapPoint | src/rpc/mappoint.cpp:94-102 | RPC_MISC_ERROR without the index; an unknown txid is RPC_INVALID_ADDRESS_OR_KEY; a known one is its info with a sorted permutation of exactly its own stored transfers |
| MapPointRpc.ListMapPoints | src/rpc/mappoint.cpp:152-164 | RPC_MISC_ERROR without the index; otherwise fails iff the height parameters fail; otherwise the range read, sorted, without transfers |
| MapPointRpc.GetAddressPoints | src/rpc/mappoint.cpp:194-221 | RPC_MISC_ERROR without the index; otherwise bad owners fail; an empty list gives an empty array; otherwise the owners' read, sorted, fails iff the height parameters fail |
| Governance.PrepareDeletion | src/governance/governance.cpp:431-435 | the object is marked deleted, keeping its first deletion time |
| Governance.EmptyStoreValid | src/governance/governance.cpp:56-65 | the empty store satisfies the invariant |
| Governance.EmplaceNeverOverwrites | src/governance/governance.cpp:419-424 | `emplace` adds a new key and never replaces an existing value |
| Governance.ConfirmRequest | src/governance/governance.cpp:670-711 | `ConfirmInventoryRequest`'s new store; `HandshakeAcceptsOnce` and `ConfirmRequestRefusesHeld` state it |
| Governance.AcceptRequest | src/governance/governance.cpp:1195-1207 | `AcceptMessage` forgets the hash; `HandshakeAcceptsOnce` states that it accepts once |
| Governance.HandshakeAcceptsOnce | src/governance/governance.cpp:670-711 | a wanted inventory is recorded with deadline now + 60 s unless a deadline exists, and accepting it removes the hash |
| Governance.ConfirmRequestRefusesHeld | src/governance/governance.cpp:680-710 | only the requested map changes; a held object, an indexed vote or an unknown type changes nothing |
| Governance.RateDecide | src/governance/governance.cpp:841-903 | the rate check's verdict and bypass flag; `RateCheckPasses` and `ForcedCheckTestsRate` state it |
| Governance.RateCheck | src/governance/governance.cpp:841-903 | the rate check's new store; `RateCheckKeepsBuffers` states it |
| Governance.RateCheckPasses | src/governance/governance.cpp:841-903 | the check passes iff not synced, disabled, not a trigger, or a timestamp in the window with no record, an OK status without force, or a rate below the maximum; it is bypassed iff the status is OK without force |
| Governance.RateCheckKeepsBuffers | src/governance/governance.cpp:841-903 | the rate buffers never change; a status flag only goes from OK to not OK, on a failed check that asked to update it |
| Governance.ForcedCheckTestsRate | src/governance/governance.cpp:877-893 | a forced check of a bypassed object tests the rate |
| Governance.RateUpdate | src/governance/governance.cpp:810-832 | only the rate records and the relay set change |
| Governance.RateUpdateThenBypassed | src/governance/governance.cpp:810-832 | after an update the masternode's next trigger is bypassed, and the buffer has gained the timestamp |
| Governance.RateUpdateRelays | src/governance/governance.cpp:810-832 | a non-trigger changes nothing; for a trigger the status turns good, and its hash is in the additional-relay set afterwards iff it was before or its creation time is later than now + 3600 - 60; no other hash joins the set |
| Governance.ProcessVoteIndexesAccepted | src/governance/governance.cpp:916-969 | a vote succeeds iff it is new, not known invalid, its parent is held and neither deleted nor expired, and the object accepts it; only a success is indexed; an unknown parent stores an orphan expiring at now + 600 s |
| Governance.ProcessVoteResult | src/governance/governance.cpp:916-969 | `ProcessVote`'s verdict; `ProcessVoteIndexesAccepted` states when it succeeds |
| Governance.ProcessVoteStore | src/governance/governance.cpp:916-969 | `ProcessVote`'s new store; `ProcessVoteIndexesAccepted` and `ProcessVoteValid` state it |
| Governance.ProcessVoteTwice | src/governance/governance.cpp:923-930 | the same vote a second time fails with no penalty and changes nothing |
| Governance.AddInvalid | src/governance/governance.cpp:1072-1076 | the vote's hash joins the invalid-vote cache; `AddInvalidPenalises` states it |
| Governance.AddInvalidPenalises | src/governance/governance.cpp:1072-1076 | marking a vote invalid keeps the invariant and changes only the cache; the vote, unless already indexed, is then refused with score 20 and changes nothing |
| Governance.ProcessVoteValid | src/governance/governance.cpp:916-969 | processing a vote keeps the invariant |
| Governance.ReplayOrphans | src/governance/governance.cpp:363-390 | exactly the orphans of the object that are expired, or that the object accepts, are removed, and nothing else changes |
| Governance.CleanOrphans | src/governance/governance.cpp:1389-1405 | exactly the expired orphans are removed |
| Governance.OrphanReplayedOnArrival | src/governance/governance.cpp:363-390 | a vote stored as an orphan is replayed when its parent arrives, without being indexed |
| Governance.AddTrigger | src/governance/governance.cpp:1461-1492 | only the trigger map changes |
| Governance.AddTriggerRegisters | src/governance/governance.cpp:1461-1492 | a registered hash fails with no change; otherwise the parsed superblock is registered Valid, and the result is true iff it is unexpired |
| Governance.SweepTriggerStep | src/governance/governance.cpp:1500-1561 | one trigger step changes only triggers and objects, never adding either |
| Governance.SweepTriggersOver | src/governance/governance.cpp:1500-1561 | the same for a sequence of triggers |
| Governance.SweepTriggers | src/governance/governance.cpp:1500-1561 | the same for the whole trigger map |
| Governance.SweepTriggersExact | src/governance/governance.cpp:1500-1561 | a trigger stays iff its fate is Keep, and its object is then marked deleted or expired as that fate says |
| Governance.SweptTriggerObjectHash | src/governance/governance.cpp:1517-1558 | a swept trigger's object keeps its hash, is deleted unless kept, and is expired iff it was or its fate is expiry |
| Governance.RegisterIfTrigger | src/governance/governance.cpp:429-436 | only the trigger map changes |
| Governance.FinishAdd | src/governance/governance.cpp:431-450 | a failed registration marks the stored object deleted |
| Governance.AddObject | src/governance/governance.cpp:392-451 | `AddGovernanceObject`'s new store; the `AddObject…` lemmas state it |
| Governance.AddObjectNeverOverwrites | src/governance/governance.cpp:392-451 | an admitted object is added as itself or as deleted, and no existing object changes |
| Governance.AddObjectFrame | src/governance/governance.cpp:392-451 | adding changes only objects, triggers, rate records, relays and orphans |
| Governance.AddObjectObjects | src/governance/governance.cpp:392-451 | the object map after adding |
| Governance.AddObjectAt | src/governance/governance.cpp:392-451 | a hash is held after adding iff it was or it is the admitted object's |
| Governance.AddObjectFailedTrigger | src/governance/governance.cpp:429-436 | a trigger whose registration fails stays stored but marked deleted, and is not relayed |
| Governance.AddObjectStored | src/governance/governance.cpp:392-451 | an admitted non-trigger is stored as itself and its orphans are replayed |
| Governance.AddObjectValid | src/governance/governance.cpp:392-451 | adding keeps the invariant |
| Governance.ObjectMessage | src/governance/governance.cpp:249-316 | the object branch of `ProcessMessage`; the `ObjectMessage…` lemmas state it |
| Governance.ObjectMessageErasesInventory | src/governance/governance.cpp:256-262 | every object message, synced or not, returns the object's inventory to erase and no inventory to send; before the blockchain is synced the store is unchanged and there is no error |
| Governance.ObjectMessageDropsDuplicate | src/governance/governance.cpp:276-280 | a known, postponed or erased object is dropped with no penalty |
| Governance.ObjectMessageUnrequested | src/governance/governance.cpp:269-272 | an unrequested object is ignored without change or penalty |
| Governance.ObjectMessagePenalty | src/governance/governance.cpp:300-312 | the penalty is 20 exactly for an invalid object without missing confirmations; one with missing confirmations is postponed |
| Governance.ObjectMessageAdmits | src/governance/governance.cpp:314 | a valid fresh object is added |
| Governance.TombstoneBlocksObject | src/governance/governance.cpp:276-280 | an erased object is not re-added and its tombstone stays |
| Governance.ObjectMessageValid | src/governance/governance.cpp:249-316 | the object message keeps the invariant |
| Governance.VoteMessage | src/governance/governance.cpp:319-358 | the vote branch of `ProcessMessage`; `VoteMessageOutcome` states it |
| Governance.VoteMessageErasesInventory | src/governance/governance.cpp:325-331 | every vote message, synced or not, returns the vote's inventory to erase and no inventory to send; before the blockchain is synced the store is unchanged and there is no error |
| Governance.VoteMessageOutcome | src/governance/governance.cpp:319-358 | a requested vote is accepted once and processed; a penalty is reported iff processing fails with one while synced |
| Governance.KeptObject | src/governance/governance.cpp:539-548 | a kept object keeps its hash |
| Governance.DropVotesFor | src/governance/governance.cpp:512-523 | exactly the votes pointing at the hash are dropped |
| Governance.SweepObjectStep | src/governance/governance.cpp:485-549 | one object step changes only objects, votes and tombstones, never adding objects or votes |
| Governance.SweepObjectsOver | src/governance/governance.cpp:485-549 | the same for a sequence of objects |
| Governance.SweepObjects | src/governance/governance.cpp:485-549 | the same for the whole object map |
| Governance.SweepObjectsExact | src/governance/governance.cpp:485-549 | each object is erased with its votes and tombstoned exactly when due, and votes of other objects stay |
| Governance.ForgetExpired | src/governance/governance.cpp:552-569 | exactly the entries that have expired are forgotten |
| Governance.GarbageCollected | src/governance/governance.cpp:453-573 | `CheckAndRemove`'s new store; `CheckAndRemoveObjects`, `CheckAndRemoveVotes` and `CheckAndRemoveValid` state it |
| Governance.CheckAndRemoveObjects | src/governance/governance.cpp:453-573 | an object stays iff not due for removal; tombstones are the kept old ones and new ones with expiry INT64_MAX for proposals or creation + 2 cycles + 600 s; requested hashes expire; nothing else changes |
| Governance.CheckAndRemoveVotes | src/governance/governance.cpp:507-523 | a vote stays iff its object is not removed |
| Governance.CheckAndRemoveValid | src/governance/governance.cpp:453-573 | the sweep keeps the invariant |
| Governance.SweptTriggerHash | src/governance/governance.cpp:1500-1561 | the trigger sweep keeps objects under their hashes |
| Governance.OfferFrame | src/governance/governance.cpp:988-994 | promoting one object changes only the fields adding does |
| Governance.OfferAt | src/governance/governance.cpp:988-994 | a promoted object is added and no held object changes |
| Governance.PromoteStepFrame | src/governance/governance.cpp:980-1003 | one postponed step removes at most that hash from the postponed map |
| Governance.PromoteOver | src/governance/governance.cpp:980-1003 | promoting only shrinks the postponed map and keeps tombstones, votes and requests |
| Governance.PromotePostponed | src/governance/governance.cpp:980-1003 | the same for the whole postponed map |
| Governance.PromotePostponedExact | src/governance/governance.cpp:980-1003 | each postponed object is promoted or kept as its own step decides |
| Governance.RelayPass | src/governance/governance.cpp:1006-1037 | exactly the relay entries whose object is still in the time window and not yet ready stay |
| Governance.RelayedNow | src/governance/governance.cpp:1006-1037 | the objects relayed are exactly those ready now |
| Governance.RelayPartition | src/governance/governance.cpp:1006-1037 | a relayed object leaves the set, and one that is neither relayed nor kept is missing or outside the window |
| Governance.CheckPostponed | src/governance/governance.cpp:971-1038 | `CheckPostponedObjects`' new store; `PromotePostponedExact`, `RelayPartition` and `CheckPostponedValid` state it |
| Governance.CheckPostponedValid | src/governance/governance.cpp:971-1038 | the postponed pass keeps the invariant |
| Governance.BestOverMax | src/governance/governance.cpp:1652-1683 | the running maximum under a strict `>` is the largest yes count, first reached in iteration order |
| Governance.BestSuperblock | src/governance/governance.cpp:1652-1683 | `GetBestSuperblock`'s answer; `BestSuperblockCorrect` states it |
| Governance.BestSuperblockCorrect | src/governance/governance.cpp:1652-1683 | true iff the height is valid and some candidate has a positive count; the winner has the largest count and beats every lower hash |
| Governance.Threshold | src/governance/governance.cpp:1768-1769 | the threshold is the larger of the minimum quorum and a tenth of the weighted count |
| Governance.ProposalOrderTotal | src/governance/governance.cpp:1782-1786 | yes count descending then hash descending is a total preorder |
| Governance.ObjectsAt | src/governance/governance.cpp:1772-1779 | the objects found under the hashes, in order |
| Governance.PassingInStep | src/governance/governance.cpp:1772-1779 | a step appends an object iff it passes |
| Governance.PassingInFiltered | src/governance/governance.cpp:1772-1779 | the loop's result is those objects at the passing hashes |
| Governance.PassingIncluded | src/governance/governance.cpp:1772-1779 | every passing proposal is returned |
| Governance.PassingOnly | src/governance/governance.cpp:1772-1779 | every returned object is a held passing proposal |
| Governance.PassingProposalsExact | src/governance/governance.cpp:1758-1789 | the passing proposals exactly, once each |
| Governance.ObjectInvs | src/governance/governance.cpp:784-800 | one object inventory per hash, in order |
| Governance.LiveInStep | src/governance/governance.cpp:784-800 | a step adds an inventory iff the object is neither deleted nor expired |
| Governance.LiveInFiltered | src/governance/governance.cpp:784-800 | the loop's inventory is that of the live hashes |
| Governance.SyncInventoryMembers | src/governance/governance.cpp:784-800 | an inventory is sent iff it names a live held object |
| Governance.SyncReply | src/governance/governance.cpp:763-808 | `SyncObjects`' reply; `SyncInventoryMembers` and `SyncInventoryExact` state it |
| Governance.SyncInventoryExact | src/governance/governance.cpp:763-808 | the inventory lists each live object once, in map order, and nothing else |
| Manager.GovernanceManager.constructor | src/governance/governance.cpp:56-65 | the store starts empty and valid |
| Manager.GovernanceManager.ConfirmInventoryRequest | src/governance/governance.cpp:670-711 | returns whether the inventory is wanted, and records its deadline |
| Manager.GovernanceManager.AcceptMessage | src/governance/governance.cpp:1195-1207 | accepts iff the hash was requested, and then forgets it; otherwise nothing changes |
| Manager.GovernanceManager.MasternodeRateCheck | src/governance/governance.cpp:841-903 | returns the rate decision and whether it was bypassed; only the status flags may change |
| Manager.GovernanceManager.MasternodeRateUpdate | src/governance/governance.cpp:810-832 | the new state is `RateUpdate` of the old: a trigger's time joins its masternode's buffer and the status turns good, and the hash is scheduled for additional relay only when its creation time is later than now + 3600 - 60 (`RateUpdateRelays`); a non-trigger changes nothing |
| Manager.GovernanceManager.ProcessVote | src/governance/governance.cpp:916-969 | the vote's result and the new store as specified |
| Manager.GovernanceManager.CheckOrphanVotes | src/governance/governance.cpp:363-390 | the orphan loop replays the object's orphans |
| Manager.GovernanceManager.CleanOrphanObjects | src/governance/governance.cpp:1389-1405 | the loop drops the expired orphans |
| Manager.GovernanceManager.AddNewTrigger | src/governance/governance.cpp:1461-1492 | registers the trigger and returns whether it is unexpired |
| Manager.GovernanceManager.AddGovernanceObject | src/governance/governance.cpp:392-451 | the object is added as specified |
| Manager.GovernanceManager.AddPostponedObject | src/governance/governance.cpp:204-214 | the object is emplaced in the postponed map |
| Manager.GovernanceManager.AddInvalidVote | src/governance/governance.cpp:1072-1076 | the new state is `AddInvalid`: only the invalid-vote cache gains the hash |
| Manager.GovernanceManager.ProcessObjectMessage | src/governance/governance.cpp:249-316 | the object branch's new store and result |
| Manager.GovernanceManager.ProcessVoteMessage | src/governance/governance.cpp:319-358 | the vote branch's new store and result |
| Manager.GovernanceManager.CleanAndRemoveTriggers | src/governance/governance.cpp:1500-1561 | the trigger sweep over the whole map |
| Manager.GovernanceManager.CleanTriggers | src/governance/governance.cpp:1507-1560 | the iterator loop sweeps the listed triggers |
| Manager.GovernanceManager.CleanTrigger | src/governance/governance.cpp:1509-1559 | one trigger's fate |
| Manager.GovernanceManager.DropVoteReferences | src/governance/governance.cpp:512-523 | the loop drops the votes pointing at the object |
| Manager.GovernanceManager.EraseDueObjects | src/governance/governance.cpp:485-549 | the object sweep over the whole map |
| Manager.GovernanceManager.EraseDueAmong | src/governance/governance.cpp:485-549 | the loop sweeps the listed objects |
| Manager.GovernanceManager.EraseIfDue | src/governance/governance.cpp:486-548 | one object's removal or flag refresh |
| Manager.GovernanceManager.ForgetErased | src/governance/governance.cpp:552-560 | the loop forgets expired tombstones |
| Manager.GovernanceManager.ForgetRequests | src/governance/governance.cpp:561-569 | the loop forgets expired requests |
| Manager.GovernanceManager.CheckAndRemove | src/governance/governance.cpp:453-573 | the whole sweep as `GarbageCollected` |
| Manager.GovernanceManager.CheckPostponedObjects | src/governance/governance.cpp:971-1038 | nothing when not synced; otherwise promotion then the relay pass, returning the objects relayed |
| Manager.GovernanceManager.PromotePostponedObjects | src/governance/governance.cpp:980-1003 | the promotion loop over the whole postponed map |
| Manager.GovernanceManager.PromoteAmong | src/governance/governance.cpp:980-1003 | the loop over the listed postponed objects |
| Manager.GovernanceManager.PromoteOne | src/governance/governance.cpp:981-1002 | one postponed object's step |
| Manager.GovernanceManager.PerformAdditionalRelays | src/governance/governance.cpp:1006-1037 | the relay loop and the objects it relays |
| Manager.GovernanceManager.GetBestSuperblock | src/governance/governance.cpp:1652-1683 | the selection as `BestSuperblock` |
| Manager.GovernanceManager.BestAmong | src/governance/governance.cpp:1661-1680 | the running-maximum loop over the triggers |
| Manager.GovernanceManager.GetApprovedProposals | src/governance/governance.cpp:1758-1789 | a permutation of the passing proposals at the threshold, sorted by yes count then hash, both descending |
| Manager.GovernanceManager.CollectPassing | src/governance/governance.cpp:1772-1779 | the filter loop over all objects |
| Manager.GovernanceManager.CollectPassingOver | src/governance/governance.cpp:1772-1779 | the filter loop over the listed objects |
| Manager.GovernanceManager.SyncObjects | src/governance/governance.cpp:763-808 | nothing when not synced; a ban score of 20 when asked before; otherwise the live objects' inventory |

## Left out

- Networking and sync plumbing: message pushes, inventory relays, the relay queues, Bloom filters, `RequestGovernanceObject`, `RequestGovernanceObjectVotes`, `SyncSingleObjVotes` and the vote part of the sync reply. Where the manager requests a parent object, the model returns that as part of the result or lets the request go.
- `Schedule`, `LoadCache`, the persistence on destruction, `RebuildIndexes`, `AddCachedTriggers`, `InitOnLoad`, `Clear`, `ToString`, `ToJson` and `UpdatedBlockTip`. They are not part of the object and vote rules.
- Locks and critical sections. The store is modelled as one sequential value.
- Object validity, signatures, collateral, the vote file (`CGovernanceObject::ProcessVote`), `GetAbsoluteYesCount`, `CSuperblock` parsing and expiry, `IsValidBlockHeight`, proposal validation and the deterministic masternode list. These are oracle parameters; object.cpp and the superblock classes are not part of this model.
- `PrepareDeletion` models the object method only by its effect on the flags the manager reads.
- `CRateCheckBuffer`: its bounded size, and `GetRate` with its floating-point comparison against 2 x 1.1 / cycle. The comparison is the oracle `rateBelowMax`, and the buffer is a sequence of timestamps.
- `RemoveInvalidVotes`, `ClearMasternodeVotes`, `UpdateSentinelVariables` and the dirty-cache revalidation in the sweep. They depend on masternode-list diffs and classes outside this model. The sweep's `fDirtyCache` refresh only updates cached flags, which the oracles stand in for.
- The cache-size bounds of `CacheMap` and `CacheMultiMap`. The vote index and the orphans are unbounded maps and sets in the model.
- The branch of `GetBestSuperblockInternal` that skips a trigger with no superblock object. A registered trigger always holds a parsed superblock in the model.
- The assertion in `CheckPostponedObjects` that a postponed object is never a trigger.
- `netfulfilledman`: whether the peer already asked for a full sync is the `alreadyAsked` parameter of `SyncObjects`.
- CheckAndRemoveObjects: the tombstone expiry creation + 2 cycles + 600 s is an unbounded integer, with no int64 overflow.
- ReplayOrphans: the orphan replay acts on the store's own object, not on a caller's copy; its votes reach the object only through the vote oracle.
- The loops over maps (`CleanTriggers`, `EraseDueAmong`, `PromoteAmong`, `BestAmong`, `CollectPassingOver`) visit the keys in ascending order, as `std::map` does; the unordered `CacheMultiMap` orphan loop is a set comprehension.
- LevelDB: every `CDBBatch` is one atomic update of the table sets, and a failing `WriteBatch` or `Read` is not modelled. The cursors are ascending enumerations of the keys at or after the seek key.
- `UndoReadFromDisk`: the block's undo data is an `Option` field of the block, `None` where reading fails.
- `ExtractDestination` and `EncodeDestination`: each output carries its destination string, empty where there is none.
- `CScript::GetOp`: scripts are sequences of decoded operations.
- `Rebuild`, the `BaseIndex` lifecycle and the destructor are not modelled.
- `EncodeCoordinate`, `EncodeCoordinates` and `DecodeCoordinate` work in floating point and are not modelled. The JSON `lat`/`lon` doubles are represented by the encoded integers.
- `rebuildmappointindex`, RPC registration and help texts are not modelled.
- `GetMapPointIndex` blocks until the index has caught up with the chain (`BlockUntilSyncedToCurrentChain`). The handlers read the index as it stands when they are called; waiting for the sync is not modelled.
- `ParseHashV` in `getmappoint`: the txid arrives already parsed, so a malformed hex argument is not modelled.
- ParseInt64: `ParseInt64` and `SplitString` from util/strencodings are modelled from their documented behaviour; strencodings.cpp is not part of this model.
- SHA-256 is not modelled; the header hash is an oracle parameter of `MineGenesis`, and the header bytes are not built.
- MineGenesis: the Python loop runs until it finds a hash; the model stops after `maxAttempts` candidates and then reports `GaveUp`.
- GenesisTool.ParseIntBase0: `int(s, 0)` also accepts decimal digits outside ASCII (Arabic-Indic digits, full-width digits and the rest of Unicode's Nd category); the model reads ASCII digits only, so `ParseNetworkSpec` rejects such numbers. The model has no digit limit: from Python 3.11 (and 3.10.7) `int(s, 0)` raises ValueError for a decimal literal longer than `sys.get_int_max_str_digits()` digits (4300 by default), where the model returns the number. The whitespace `int()` strips (ASCII 0x09-0x0D and space, and the Unicode whitespace above ASCII) is modelled exactly.
- `main`, argparse, printing and the floating-point `--reward` of the genesis tool are not modelled.
- ErasePointsAboveHeightLeaves: stated for heights below UINT32_MAX; at UINT32_MAX the seek wraps, which `EraseAtLargestHeightErasesAll` states separately.
- RemoveTransfersAboveHeightLeaves: stated for heights below UINT32_MAX only.
- RewindPoints, RewindTransfers and UndoTransfersSpec: stated for new-tip heights below UINT32_MAX only; `MapPointIndex.Rewind` itself is specified for every height.
- The transfer-height keys have the same little-endian height as the point height keys (Findings). Only the point scans are given counterexamples.

## Findings

| source | as written | input that shows it | evidently intended | confidence | as-written member | corrected member |
|---|---|---|---|---|---|---|
| src/index/mappointindex.cpp:35-53, 191-262 | `HeightKey` serialises its uint32 height with `ser_writedata32`, which is little-endian. LevelDB orders keys byte-wise, so the height cursors do not visit keys in height order. `ReadByHeight` stops at the first key above `stop`, and `ErasePointsAboveHeight` erases everything after its seek key | points at heights 1 and 256: `ReadByHeight(0, 100)` returns nothing. Points at heights 2 and 512: `ErasePointsAboveHeight(256)` erases the point at 2 and keeps the one at 512 | heights stored big-endian, so key order is height then txid and the scans return the points in [start, stop] and erase exactly those above the height | not executed | MapPointKeyBytes.ReadByHeightMissesPoint, MapPointKeyBytes.ErasePointsAboveHeightErasesWrongPoint | MapPointKeyBytes.BigEndianHeightKeyOrder, MapPointDB.ReadByHeightIsRange, MapPointDB.ErasePointsAboveHeightLeaves |
| src/util/mappoint.cpp:71-76 | the bound checks use `std::llabs`, which has no int64 result for INT64_MIN; on two's-complement targets it returns INT64_MIN, which is below the bound | the payload `ORINMAP1:-9223372036854775808:0` is accepted | reject any coordinate whose magnitude exceeds the bound, INT64_MIN included | not executed | MapPointCodec.LlabsAdmitsInt64Min | MapPointCodec.ParseBuildPayload |
