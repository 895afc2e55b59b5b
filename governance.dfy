/**
 * The governance object store and vote engine (CGovernanceManager with its
 * GovernanceStore): a sequential state machine over the maps that hold the
 * known objects, the postponed objects, the tombstones of erased objects, the
 * requested hashes, the vote index, the invalid and orphan vote caches, the
 * superblock triggers and the per-masternode rate records.
 *
 * Everything the manager asks of classes outside this file (object validity,
 * collateral, a vote file's verdict on a vote, superblock parsing and expiry,
 * yes counts, the rate buffer's GetRate, proposal validation) is an oracle,
 * a field of Oracles. The clocks and the sync state are the fields of Env.
 */
module Governance {
  import opened Wrappers
  import opened Ordering
  import opened Hash256

  type Hash = nat
  type Outpoint = nat

  const GOVERNANCE_DELETION_DELAY: int := 600
  const GOVERNANCE_ORPHAN_EXPIRATION_TIME: int := 600
  const MAX_TIME_FUTURE_DEVIATION: int := 3600
  const RELIABLE_PROPAGATION_TIME: int := 60
  const INT64_MAX: int := 0x7FFF_FFFF_FFFF_FFFF
  /** The ban score for an invalid object, a known-invalid vote and a repeated full sync request. */
  const MISBEHAVING_SCORE: int := 20

  // ---------------------------------------------------------------------
  // Entities
  // ---------------------------------------------------------------------

  datatype ObjectType = Proposal | Trigger | Other

  /** A governance object as far as the manager looks at it: its identity and cached flags. */
  datatype GovObject = GovObject(hash: Hash, objectType: ObjectType, creationTime: int, masternode: Outpoint,
                                 cachedDelete: bool, expired: bool, deletionTime: int)

  /** CGovernanceObject::PrepareDeletion: set the delete flag; the first deletion time sticks. */
  function PrepareDeletion(o: GovObject, now: int): (r: GovObject)
    ensures r.cachedDelete && r.expired == o.expired
    ensures r.deletionTime == (if o.deletionTime == 0 then now else o.deletionTime)
    ensures r.hash == o.hash && r.objectType == o.objectType && r.creationTime == o.creationTime && r.masternode == o.masternode
  {
    o.(cachedDelete := true, deletionTime := if o.deletionTime == 0 then now else o.deletionTime)
  }

  function SetExpired(o: GovObject): GovObject
  {
    o.(expired := true)
  }

  datatype Vote = Vote(hash: Hash, parent: Hash)

  /** An entry of cmmapOrphanVotes: keyed by the vote's parent hash, with its expiry time. */
  datatype OrphanVote = OrphanVote(vote: Vote, expiry: int)

  datatype SeenStatus = Valid | ErrorInvalid | Executed | Unknown

  /** A registered trigger: its status and the superblock height it pays at. */
  datatype Superblock = Superblock(status: SeenStatus, blockHeight: int)

  /** An entry of mapLastMasternodeObject: the status flag and the trigger timestamps of the rate buffer. */
  datatype RateRecord = RateRecord(statusOK: bool, buffer: seq<int>)

  datatype InvKind = ObjectInv | VoteInv | OtherInv
  datatype Inv = Inv(kind: InvKind, hash: Hash)

  /** MessageProcessingResult: a ban score, inventory to relay, and the request to forget. */
  datatype MessageResult = MessageResult(error: Option<int>, inventory: seq<Inv>, toErase: Option<Inv>)

  const NO_RESULT: MessageResult := MessageResult(None, [], None)

  /** GetTime, GetAdjustedTime, the sync state and the chain parameters the manager reads. */
  datatype Env = Env(now: int, adjustedNow: int, synced: bool, blockchainSynced: bool, cycleSeconds: int, cachedHeight: int)

  datatype VoteOutcome = Accepted | Rejected(penalty: int)

  datatype Oracles = Oracles(
    validLocally: (GovObject, bool) -> bool,          // IsValidLocally, with or without the collateral check
    missingConfirmations: GovObject -> bool,          // the collateral lacks confirmations
    collateralValid: GovObject -> bool,               // IsCollateralValid
    processVote: (GovObject, Vote) -> VoteOutcome,    // CGovernanceObject::ProcessVote
    superblockHeight: GovObject -> Option<int>,       // CSuperblock's constructor; None where it throws
    superblockExpired: (int, int) -> bool,            // CSuperblock::IsExpired at a cached height
    rateBelowMax: seq<int> -> bool,                   // CRateCheckBuffer::GetRate() < 2 * 1.1 / cycle seconds
    proposalValid: GovObject -> bool,                 // CProposalValidator::Validate
    validBlockHeight: int -> bool,                    // CSuperblock::IsValidBlockHeight
    yesCount: GovObject -> int)                       // GetAbsoluteYesCount(VOTE_SIGNAL_FUNDING)

  /** The manager's maps. voteToObject maps a vote hash to the hash of the object it points at. */
  datatype Store = Store(objects: map<Hash, GovObject>, postponed: map<Hash, GovObject>, erased: map<Hash, int>,
                         requested: map<Hash, int>, voteToObject: map<Hash, Hash>, invalidVotes: set<Hash>,
                         orphans: set<OrphanVote>, triggers: map<Hash, Superblock>,
                         rateRecords: map<Outpoint, RateRecord>, additionalRelay: set<Hash>, rateChecksEnabled: bool)

  const EMPTY_STORE: Store := Store(map[], map[], map[], map[], map[], {}, {}, map[], map[], {}, true)

  /**
   * The store's invariant: every object sits under its own hash; no hash is
   * at once active, postponed or tombstoned; every indexed vote points at an
   * active object.
   */
  ghost predicate StoreValid(s: Store)
  {
    && (forall h :: h in s.objects ==> s.objects[h].hash == h)
    && (forall h :: h in s.postponed ==> s.postponed[h].hash == h)
    && (forall h :: h in s.objects ==> h !in s.postponed && h !in s.erased)
    && (forall h :: h in s.postponed ==> h !in s.erased)
    && (forall v :: v in s.voteToObject ==> s.voteToObject[v] in s.objects)
  }

  lemma EmptyStoreValid()
    ensures StoreValid(EMPTY_STORE)
  {
  }

  /** std::map::emplace and insert: a new key gets v, an existing key keeps its value. */
  function Emplace<K, V>(m: map<K, V>, k: K, v: V): map<K, V>
  {
    if k in m then m else m[k := v]
  }

  lemma EmplaceNeverOverwrites<K, V>(m: map<K, V>, k: K, v: V)
    ensures Emplace(m, k, v).Keys == m.Keys + {k}
    ensures forall j :: j in m ==> Emplace(m, k, v)[j] == m[j]
    ensures k !in m ==> Emplace(m, k, v)[k] == v
  {
  }

  // ---------------------------------------------------------------------
  // The requested-hash handshake
  // ---------------------------------------------------------------------

  /** ConfirmInventoryRequest's verdict: synced, a known kind, and not already held. */
  predicate WantsInventory(s: Store, inv: Inv, env: Env)
  {
    && env.blockchainSynced
    && match inv.kind
       case ObjectInv => inv.hash !in s.objects && inv.hash !in s.postponed
       case VoteInv => inv.hash !in s.voteToObject
       case OtherInv => false
  }

  function ConfirmRequest(s: Store, inv: Inv, env: Env): Store
  {
    if WantsInventory(s, inv, env) then s.(requested := Emplace(s.requested, inv.hash, env.now + RELIABLE_PROPAGATION_TIME))
    else s
  }

  /** AcceptMessage's effect: a requested hash is consumed. */
  function AcceptRequest(s: Store, h: Hash): Store
  {
    s.(requested := s.requested - {h})
  }

  /**
   * A confirmed request is recorded with deadline now + 60 s unless one is
   * already pending, is accepted once, and a second push of the same hash is
   * refused.
   */
  lemma HandshakeAcceptsOnce(s: Store, inv: Inv, env: Env)
    requires WantsInventory(s, inv, env)
    ensures var s1 := ConfirmRequest(s, inv, env);
            && inv.hash in s1.requested
            && s1.requested[inv.hash] == (if inv.hash in s.requested then s.requested[inv.hash] else env.now + RELIABLE_PROPAGATION_TIME)
            && inv.hash !in AcceptRequest(s1, inv.hash).requested
  {
  }

  /** Nothing but the requested hashes changes, and no held object or vote is requested. */
  lemma ConfirmRequestRefusesHeld(s: Store, inv: Inv, env: Env)
    ensures ConfirmRequest(s, inv, env) == s.(requested := ConfirmRequest(s, inv, env).requested)
    ensures inv.kind == ObjectInv && (inv.hash in s.objects || inv.hash in s.postponed) ==> ConfirmRequest(s, inv, env) == s
    ensures inv.kind == VoteInv && inv.hash in s.voteToObject ==> ConfirmRequest(s, inv, env) == s
    ensures inv.kind == OtherInv ==> ConfirmRequest(s, inv, env) == s
  {
  }

  // ---------------------------------------------------------------------
  // The rate limiter
  // ---------------------------------------------------------------------

  /** Where MasternodeRateCheck returns. */
  datatype RateDecision = Unchecked | TooOld | TooNew | NoRecord | Bypassed | BelowRate | RateTooHigh

  function RateDecide(s: Store, o: GovObject, force: bool, env: Env, or: Oracles): RateDecision
  {
    if !env.synced || !s.rateChecksEnabled then Unchecked
    else if o.objectType != Trigger then Unchecked
    else if o.creationTime < env.adjustedNow - 2 * env.cycleSeconds then TooOld
    else if o.creationTime > env.adjustedNow + MAX_TIME_FUTURE_DEVIATION then TooNew
    else if o.masternode !in s.rateRecords then NoRecord
    else if s.rateRecords[o.masternode].statusOK && !force then Bypassed
    else if or.rateBelowMax(s.rateRecords[o.masternode].buffer + [o.creationTime]) then BelowRate
    else RateTooHigh
  }

  predicate RatePasses(d: RateDecision)
  {
    d != TooOld && d != TooNew && d != RateTooHigh
  }

  /** The check's effect: only a failed rate test, and only with fUpdateFailStatus, clears the status flag. */
  function RateCheck(s: Store, o: GovObject, updateFailStatus: bool, force: bool, env: Env, or: Oracles): Store
  {
    if RateDecide(s, o, force, env, or) == RateTooHigh && updateFailStatus then
      s.(rateRecords := s.rateRecords[o.masternode := s.rateRecords[o.masternode].(statusOK := false)])
    else s
  }

  /**
   * The check passes when not synced, when checks are off, or for
   * non-triggers; otherwise it needs a timestamp from cycle·2 in the past to
   * an hour ahead, and then no record, a good status without force, or a rate
   * below the maximum once the timestamp is added to a copy of the buffer.
   */
  lemma RateCheckPasses(s: Store, o: GovObject, force: bool, env: Env, or: Oracles)
    ensures var d := RateDecide(s, o, force, env, or);
            RatePasses(d) <==>
              || !env.synced || !s.rateChecksEnabled || o.objectType != Trigger
              || (&& env.adjustedNow - 2 * env.cycleSeconds <= o.creationTime <= env.adjustedNow + MAX_TIME_FUTURE_DEVIATION
                  && (|| o.masternode !in s.rateRecords
                      || (s.rateRecords[o.masternode].statusOK && !force)
                      || or.rateBelowMax(s.rateRecords[o.masternode].buffer + [o.creationTime])))
    ensures RateDecide(s, o, force, env, or) == Bypassed <==>
              && env.synced && s.rateChecksEnabled && o.objectType == Trigger && !force
              && env.adjustedNow - 2 * env.cycleSeconds <= o.creationTime <= env.adjustedNow + MAX_TIME_FUTURE_DEVIATION
              && o.masternode in s.rateRecords && s.rateRecords[o.masternode].statusOK
  {
  }

  /**
   * The check never changes a rate buffer or the set of records; a status
   * flag can only go from true to false, only with fUpdateFailStatus, and
   * only when the check fails.
   */
  lemma RateCheckKeepsBuffers(s: Store, o: GovObject, updateFailStatus: bool, force: bool, env: Env, or: Oracles)
    ensures var s' := RateCheck(s, o, updateFailStatus, force, env, or);
            && s'.rateRecords.Keys == s.rateRecords.Keys
            && (forall m :: m in s.rateRecords ==> s'.rateRecords[m].buffer == s.rateRecords[m].buffer)
            && (forall m :: m in s.rateRecords && s'.rateRecords[m].statusOK != s.rateRecords[m].statusOK ==>
                  && updateFailStatus && !RatePasses(RateDecide(s, o, force, env, or))
                  && s.rateRecords[m].statusOK && !s'.rateRecords[m].statusOK)
            && s' == s.(rateRecords := s'.rateRecords)
  {
  }

  /** A bypassed check, repeated with force, really tests the rate. */
  lemma ForcedCheckTestsRate(s: Store, o: GovObject, env: Env, or: Oracles)
    requires RateDecide(s, o, false, env, or) == Bypassed
    ensures RateDecide(s, o, true, env, or) == BelowRate || RateDecide(s, o, true, env, or) == RateTooHigh
  {
  }

  /** MasternodeRateUpdate: a trigger's timestamp joins its masternode's buffer and the status turns good. */
  function RateUpdate(s: Store, o: GovObject, env: Env): (r: Store)
    ensures r == s.(rateRecords := r.rateRecords, additionalRelay := r.additionalRelay)
  {
    if o.objectType != Trigger then s
    else
      var buffer := if o.masternode in s.rateRecords then s.rateRecords[o.masternode].buffer else [];
      s.(rateRecords := s.rateRecords[o.masternode := RateRecord(true, buffer + [o.creationTime])],
         additionalRelay := if o.creationTime > env.now + MAX_TIME_FUTURE_DEVIATION - RELIABLE_PROPAGATION_TIME
                            then s.additionalRelay + {o.hash} else s.additionalRelay)
  }

  /** After an update, the next unforced check of a trigger by the same masternode within the window is bypassed. */
  lemma RateUpdateThenBypassed(s: Store, o: GovObject, o2: GovObject, env: Env, or: Oracles)
    requires o.objectType == Trigger && o2.objectType == Trigger && o2.masternode == o.masternode
    requires env.synced && s.rateChecksEnabled
    requires env.adjustedNow - 2 * env.cycleSeconds <= o2.creationTime <= env.adjustedNow + MAX_TIME_FUTURE_DEVIATION
    ensures RateDecide(RateUpdate(s, o, env), o2, false, env, or) == Bypassed
    ensures RateUpdate(s, o, env).rateRecords[o.masternode].buffer
            == (if o.masternode in s.rateRecords then s.rateRecords[o.masternode].buffer else []) + [o.creationTime]
  {
  }

  /**
   * Only a trigger is recorded, and its hash is scheduled for additional relay
   * exactly when its timestamp is within RELIABLE_PROPAGATION_TIME of the
   * future-deviation bound.
   */
  lemma RateUpdateRelays(s: Store, o: GovObject, env: Env)
    ensures o.objectType != Trigger ==> RateUpdate(s, o, env) == s
    ensures o.objectType == Trigger ==>
              (o.hash in RateUpdate(s, o, env).additionalRelay
               <==> o.hash in s.additionalRelay
                    || o.creationTime > env.now + MAX_TIME_FUTURE_DEVIATION - RELIABLE_PROPAGATION_TIME)
    ensures RateUpdate(s, o, env).additionalRelay - s.additionalRelay <= {o.hash}
    ensures s.additionalRelay <= RateUpdate(s, o, env).additionalRelay
    ensures o.objectType == Trigger ==> RateUpdate(s, o, env).rateRecords[o.masternode].statusOK
  {
  }

  // ---------------------------------------------------------------------
  // Votes
  // ---------------------------------------------------------------------

  /** ProcessVote's verdict: accepted, the ban score of a rejection, and whether the parent is to be requested. */
  datatype VoteResult = VoteResult(ok: bool, penalty: int, requestParent: bool)

  function ProcessVoteResult(s: Store, vote: Vote, env: Env, or: Oracles): VoteResult
  {
    if vote.hash in s.voteToObject then VoteResult(false, 0, false)
    else if vote.hash in s.invalidVotes then VoteResult(false, MISBEHAVING_SCORE, false)
    else if vote.parent !in s.objects then
      VoteResult(false, 0, OrphanVote(vote, env.now + GOVERNANCE_ORPHAN_EXPIRATION_TIME) !in s.orphans)
    else if s.objects[vote.parent].cachedDelete || s.objects[vote.parent].expired then VoteResult(false, 0, false)
    else match or.processVote(s.objects[vote.parent], vote)
      case Accepted => VoteResult(true, 0, false)
      case Rejected(p) => VoteResult(false, p, false)
  }

  function ProcessVoteStore(s: Store, vote: Vote, env: Env, or: Oracles): Store
  {
    if vote.hash in s.voteToObject || vote.hash in s.invalidVotes then s
    else if vote.parent !in s.objects then
      s.(orphans := s.orphans + {OrphanVote(vote, env.now + GOVERNANCE_ORPHAN_EXPIRATION_TIME)})
    else if ProcessVoteResult(s, vote, env, or).ok then s.(voteToObject := s.voteToObject[vote.hash := vote.parent])
    else s
  }

  /**
   * Only a vote the live parent accepts is indexed, and it points at that
   * parent; a vote for an unknown parent is buffered as an orphan for ten
   * minutes; nothing else changes.
   */
  lemma ProcessVoteIndexesAccepted(s: Store, vote: Vote, env: Env, or: Oracles)
    ensures var s' := ProcessVoteStore(s, vote, env, or); var r := ProcessVoteResult(s, vote, env, or);
            && (r.ok <==> vote.hash !in s.voteToObject && vote.hash !in s.invalidVotes && vote.parent in s.objects
                          && !s.objects[vote.parent].cachedDelete && !s.objects[vote.parent].expired
                          && or.processVote(s.objects[vote.parent], vote) == Accepted)
            && s'.voteToObject == (if r.ok then s.voteToObject[vote.hash := vote.parent] else s.voteToObject)
            && s'.orphans == (if vote.hash !in s.voteToObject && vote.hash !in s.invalidVotes && vote.parent !in s.objects
                              then s.orphans + {OrphanVote(vote, env.now + GOVERNANCE_ORPHAN_EXPIRATION_TIME)} else s.orphans)
            && s' == s.(voteToObject := s'.voteToObject, orphans := s'.orphans)
  {
  }

  /** An accepted vote is refused the second time, without penalty and without change. */
  lemma ProcessVoteTwice(s: Store, vote: Vote, env: Env, or: Oracles)
    requires ProcessVoteResult(s, vote, env, or).ok
    ensures var s' := ProcessVoteStore(s, vote, env, or);
            && ProcessVoteResult(s', vote, env, or) == VoteResult(false, 0, false)
            && ProcessVoteStore(s', vote, env, or) == s'
  {
  }

  /** Processing a vote keeps the store's invariant. */
  lemma ProcessVoteValid(s: Store, vote: Vote, env: Env, or: Oracles)
    requires StoreValid(s)
    ensures StoreValid(ProcessVoteStore(s, vote, env, or))
  {
    ProcessVoteIndexesAccepted(s, vote, env, or);
    var s' := ProcessVoteStore(s, vote, env, or);
    if ProcessVoteResult(s, vote, env, or).ok {
      ValidWithVote(s, vote.hash, vote.parent);
    } else {
      ValidWithOrphans(s, s'.orphans);
    }
  }

  /** AddInvalidVote: the vote's hash joins the invalid-vote cache. */
  function AddInvalid(s: Store, vote: Vote): Store
  {
    s.(invalidVotes := s.invalidVotes + {vote.hash})
  }

  /**
   * Marking a vote invalid keeps the invariant and changes nothing else;
   * from then on the vote, unless already indexed, is refused with the
   * misbehaviour score and leaves the store as it is.
   */
  lemma AddInvalidPenalises(s: Store, vote: Vote, env: Env, or: Oracles)
    requires StoreValid(s)
    ensures var s' := AddInvalid(s, vote);
            && StoreValid(s')
            && vote.hash in s'.invalidVotes && s' == s.(invalidVotes := s'.invalidVotes)
            && s'.invalidVotes == s.invalidVotes + {vote.hash}
            && ProcessVoteResult(s', vote, env, or)
               == (if vote.hash in s.voteToObject then VoteResult(false, 0, false) else VoteResult(false, MISBEHAVING_SCORE, false))
            && ProcessVoteStore(s', vote, env, or) == s'
  {
  }

  /** The invariant does not look at the orphan cache. */
  lemma ValidWithOrphans(s: Store, orphans: set<OrphanVote>)
    requires StoreValid(s)
    ensures StoreValid(s.(orphans := orphans))
  {
  }

  /** The invariant does not look at the requests. */
  lemma ValidWithRequests(s: Store, requested: map<Hash, int>)
    requires StoreValid(s)
    ensures StoreValid(s.(requested := requested))
  {
  }

  /** The invariant does not look at the rate records. */
  lemma ValidWithRates(s: Store, rates: map<Outpoint, RateRecord>)
    requires StoreValid(s)
    ensures StoreValid(s.(rateRecords := rates))
  {
  }

  /** Postponing an object that is neither held nor tombstoned keeps the invariant. */
  lemma ValidWithPostponed(s: Store, o: GovObject)
    requires StoreValid(s) && o.hash !in s.objects && o.hash !in s.erased
    ensures StoreValid(s.(postponed := Emplace(s.postponed, o.hash, o)))
  {
  }

  /** Indexing a vote that points at an active object keeps the invariant. */
  lemma ValidWithVote(s: Store, v: Hash, h: Hash)
    requires StoreValid(s) && h in s.objects
    ensures StoreValid(s.(voteToObject := s.voteToObject[v := h]))
  {
  }

  /** An orphan that CheckOrphanVotes drops: its parent arrived and it expired or the parent accepted it. */
  predicate Replayed(o: GovObject, env: Env, or: Oracles, e: OrphanVote)
  {
    e.vote.parent == o.hash && (e.expiry < env.adjustedNow || or.processVote(o, e.vote) == Accepted)
  }

  function ReplayOrphans(s: Store, o: GovObject, env: Env, or: Oracles): (s': Store)
    ensures forall e :: e in s'.orphans <==> e in s.orphans && !Replayed(o, env, or, e)
    ensures s' == s.(orphans := s'.orphans)
  {
    s.(orphans := set e | e in s.orphans && !Replayed(o, env, or, e))
  }

  /** CleanOrphanObjects: orphans whose expiry is past are forgotten. */
  function CleanOrphans(s: Store, env: Env): (s': Store)
    ensures forall e :: e in s'.orphans <==> e in s.orphans && e.expiry >= env.now
    ensures s' == s.(orphans := s'.orphans)
  {
    s.(orphans := set e | e in s.orphans && e.expiry >= env.now)
  }

  /** A buffered orphan is removed once its parent arrives and accepts it, and never indexed. */
  lemma OrphanReplayedOnArrival(s: Store, vote: Vote, o: GovObject, env: Env, or: Oracles)
    requires vote.parent !in s.objects && vote.hash !in s.voteToObject && vote.hash !in s.invalidVotes
    requires o.hash == vote.parent && or.processVote(o, vote) == Accepted
    ensures var s1 := ProcessVoteStore(s, vote, env, or);
            && OrphanVote(vote, env.now + GOVERNANCE_ORPHAN_EXPIRATION_TIME) in s1.orphans
            && OrphanVote(vote, env.now + GOVERNANCE_ORPHAN_EXPIRATION_TIME) !in ReplayOrphans(s1, o, env, or).orphans
            && ReplayOrphans(s1, o, env, or).voteToObject == s.voteToObject
  {
  }

  // ---------------------------------------------------------------------
  // Triggers
  // ---------------------------------------------------------------------

  /** AddNewTrigger: the new store and the returned flag (registered and not already expired). */
  function AddTrigger(s: Store, h: Hash, env: Env, or: Oracles): (r: (Store, bool))
    ensures r.0 == s.(triggers := r.0.triggers)
  {
    if h in s.triggers || h !in s.objects then (s, false)
    else match or.superblockHeight(s.objects[h])
      case None => (s, false)
      case Some(height) => (s.(triggers := s.triggers[h := Superblock(Valid, height)]),
                            !or.superblockExpired(height, env.cachedHeight))
  }

  /**
   * A hash already registered fails without change; a registration that
   * succeeds records status Valid at the parsed height and touches nothing
   * else; the flag is true only for a fresh, unexpired superblock.
   */
  lemma AddTriggerRegisters(s: Store, h: Hash, env: Env, or: Oracles)
    ensures var (s', ok) := AddTrigger(s, h, env, or);
            && (h in s.triggers ==> s' == s && !ok)
            && (h !in s.triggers && h in s.objects && or.superblockHeight(s.objects[h]).Some? ==>
                  s' == s.(triggers := s.triggers[h := Superblock(Valid, or.superblockHeight(s.objects[h]).value)]))
            && (ok <==> h !in s.triggers && h in s.objects && or.superblockHeight(s.objects[h]).Some?
                        && !or.superblockExpired(or.superblockHeight(s.objects[h]).value, env.cachedHeight))
            && s' == s.(triggers := s'.triggers)
  {
  }

  datatype TriggerFate = Keep | DropInvalid | DropExpired

  /**
   * What CleanAndRemoveTriggers does with a registered trigger: a missing or
   * non-trigger object forces ErrorInvalid; ErrorInvalid and Unknown entries
   * go; Valid and Executed entries go once the superblock is expired.
   */
  function FateOf(s: Store, h: Hash, env: Env, or: Oracles): TriggerFate
    requires h in s.triggers
  {
    if h !in s.objects || s.objects[h].objectType != Trigger then DropInvalid
    else match s.triggers[h].status
      case ErrorInvalid => DropInvalid
      case Unknown => DropInvalid
      case _ => if or.superblockExpired(s.triggers[h].blockHeight, env.cachedHeight) then DropExpired else Keep
  }

  /** The backing object after the sweep's decision: marked for deletion, and expired too for an expired superblock. */
  function SweptTriggerObject(o: GovObject, fate: TriggerFate, now: int): GovObject
  {
    match fate
    case Keep => o
    case DropInvalid => PrepareDeletion(o, now)
    case DropExpired => PrepareDeletion(SetExpired(o), now)
  }

  function SweepTriggerStep(s: Store, h: Hash, env: Env, or: Oracles): (r: Store)
    ensures r == s.(triggers := r.triggers, objects := r.objects)
    ensures r.objects.Keys == s.objects.Keys && r.triggers.Keys <= s.triggers.Keys
  {
    if h !in s.triggers then s
    else
      var fate := FateOf(s, h, env, or);
      if fate == Keep then s
      else s.(triggers := s.triggers - {h},
              objects := if h in s.objects then s.objects[h := SweptTriggerObject(s.objects[h], fate, env.now)] else s.objects)
  }

  /** The trigger sweep over the keys ks, in order. */
  function SweepTriggersOver(s: Store, ks: seq<Hash>, env: Env, or: Oracles): (r: Store)
    ensures r == s.(triggers := r.triggers, objects := r.objects)
    ensures r.objects.Keys == s.objects.Keys && r.triggers.Keys <= s.triggers.Keys
    decreases |ks|
  {
    if ks == [] then s else SweepTriggersOver(SweepTriggerStep(s, ks[0], env, or), ks[1..], env, or)
  }

  /** CleanAndRemoveTriggers: the sweep over the registered hashes in map order. */
  ghost function SweepTriggers(s: Store, env: Env, or: Oracles): (r: Store)
    ensures r == s.(triggers := r.triggers, objects := r.objects)
    ensures r.objects.Keys == s.objects.Keys && r.triggers.Keys <= s.triggers.Keys
  {
    NatOrder();
    SweepTriggersOver(s, SortedSeq(s.triggers.Keys, NatLess), env, or)
  }

  ghost predicate Distinct<K>(ks: seq<K>)
  {
    forall i, j :: 0 <= i < j < |ks| ==> ks[i] != ks[j]
  }

  lemma DistinctTail<K>(ks: seq<K>)
    requires ks != [] && Distinct(ks)
    ensures Distinct(ks[1..]) && ks[0] !in ks[1..]
  {
  }

  /**
   * Over distinct keys, the sweep decides each registered trigger once, on the
   * store as it was: a trigger stays exactly when its fate is Keep and no
   * object is added or removed.
   */
  /** The trigger and the object under x are the same in both stores. */
  ghost predicate SameTriggerAt(s: Store, t: Store, x: Hash)
  {
    && (x in t.triggers <==> x in s.triggers) && (x in t.triggers ==> t.triggers[x] == s.triggers[x])
    && (x in t.objects <==> x in s.objects) && (x in t.objects ==> t.objects[x] == s.objects[x])
  }

  /** Sweeping one trigger leaves every other hash alone. */
  lemma TriggerStepOther(s: Store, h: Hash, env: Env, or: Oracles, x: Hash)
    requires x != h
    ensures SameTriggerAt(s, SweepTriggerStep(s, h, env, or), x)
  {
    var t := SweepTriggerStep(s, h, env, or);
    if h in s.triggers && FateOf(s, h, env, or) != Keep {
      assert t.triggers == s.triggers - {h};
      assert t.objects.Keys == s.objects.Keys;
    } else {
      assert t == s;
    }
  }

  /** Equal entries at x give x the same fate. */
  lemma SameTriggerSameFate(s: Store, t: Store, env: Env, or: Oracles, x: Hash)
    requires SameTriggerAt(s, t, x) && x in s.triggers
    ensures FateOf(t, x, env, or) == FateOf(s, x, env, or)
  {
  }

  /** A hash that is not among ks is untouched by the sweep over ks. */
  lemma {:induction false} SweepTriggersOverOutside(s: Store, ks: seq<Hash>, env: Env, or: Oracles, x: Hash)
    requires x !in ks
    ensures SameTriggerAt(s, SweepTriggersOver(s, ks, env, or), x)
    decreases |ks|
  {
    if ks != [] {
      var s1 := SweepTriggerStep(s, ks[0], env, or);
      TriggerStepOther(s, ks[0], env, or, x);
      SweepTriggersOverOutside(s1, ks[1..], env, or, x);
    }
  }

  /** The result of the sweep at x when x's own step runs on a store agreeing with s at x. */
  ghost predicate SweptAt(s: Store, r: Store, env: Env, or: Oracles, x: Hash)
  {
    && (x in r.triggers <==> x in s.triggers && FateOf(s, x, env, or) == Keep)
    && (x in r.triggers ==> r.triggers[x] == s.triggers[x])
    && (x in r.objects <==> x in s.objects)
    && (x in r.objects ==> r.objects[x] == if x in s.triggers then SweptTriggerObject(s.objects[x], FateOf(s, x, env, or), env.now)
                                           else s.objects[x])
  }

  lemma TriggerStepSelf(s: Store, env: Env, or: Oracles, x: Hash)
    ensures SweptAt(s, SweepTriggerStep(s, x, env, or), env, or, x)
  {
  }

  /**
   * Over distinct keys, the sweep decides each listed trigger once, on the
   * store as it was, and leaves the others alone.
   */
  lemma {:induction false} SweepTriggersOverExact(s: Store, ks: seq<Hash>, env: Env, or: Oracles, x: Hash)
    requires Distinct(ks) && x in ks
    ensures SweptAt(s, SweepTriggersOver(s, ks, env, or), env, or, x)
    decreases |ks|
  {
    DistinctTail(ks);
    var s1 := SweepTriggerStep(s, ks[0], env, or);
    var r := SweepTriggersOver(s, ks, env, or);
    if x == ks[0] {
      TriggerStepSelf(s, env, or, x);
      SweepTriggersOverOutside(s1, ks[1..], env, or, x);
      SweptAtTransfer(s, s1, r, env, or, x);
    } else {
      TriggerStepOther(s, ks[0], env, or, x);
      if x in s.triggers {
        SameTriggerSameFate(s, s1, env, or, x);
      }
      SweepTriggersOverExact(s1, ks[1..], env, or, x);
      SweptAtAgree(s, s1, r, env, or, x);
    }
  }

  /** A later stretch that leaves x alone keeps the swept result at x. */
  lemma SweptAtTransfer(s: Store, s1: Store, r: Store, env: Env, or: Oracles, x: Hash)
    requires SweptAt(s, s1, env, or, x) && SameTriggerAt(s1, r, x)
    ensures SweptAt(s, r, env, or, x)
  {
  }

  /** A first step that leaves x alone does not change what the sweep makes of x. */
  lemma SweptAtAgree(s: Store, s1: Store, r: Store, env: Env, or: Oracles, x: Hash)
    requires SameTriggerAt(s, s1, x) && SweptAt(s1, r, env, or, x)
    requires x in s.triggers ==> FateOf(s1, x, env, or) == FateOf(s, x, env, or)
    ensures SweptAt(s, r, env, or, x)
  {
  }

  /**
   * CleanAndRemoveTriggers keeps exactly the triggers whose fate is Keep;
   * it marks the object of every removed trigger for deletion (and expired,
   * for an expired superblock) and changes nothing else.
   */
  lemma SweepTriggersExact(s: Store, env: Env, or: Oracles, x: Hash)
    ensures var r := SweepTriggers(s, env, or);
            && (x in r.triggers <==> x in s.triggers && FateOf(s, x, env, or) == Keep)
            && (x in r.triggers ==> r.triggers[x] == s.triggers[x])
            && (x in r.objects <==> x in s.objects)
            && (x in r.objects ==> r.objects[x] == if x in s.triggers then SweptTriggerObject(s.objects[x], FateOf(s, x, env, or), env.now)
                                                   else s.objects[x])
            && r == s.(triggers := r.triggers, objects := r.objects)
  {
    NatOrder();
    var ks := SortedSeq(s.triggers.Keys, NatLess);
    if x in ks {
      SweepTriggersOverExact(s, ks, env, or, x);
    } else {
      SweepTriggersOverOutside(s, ks, env, or, x);
    }
  }

  /** A swept trigger object keeps its hash: the sweep changes only flags. */
  lemma SweptTriggerObjectHash(o: GovObject, fate: TriggerFate, now: int)
    ensures SweptTriggerObject(o, fate, now).hash == o.hash
    ensures fate != Keep ==> SweptTriggerObject(o, fate, now).cachedDelete
    ensures SweptTriggerObject(o, fate, now).expired <==> o.expired || fate == DropExpired
  {
  }

  // ---------------------------------------------------------------------
  // Object admission
  // ---------------------------------------------------------------------

  /**
   * AddGovernanceObject: a locally valid object that is not yet held is
   * stored; a trigger whose registration fails stays stored but marked for
   * deletion and goes no further; otherwise the rate record is updated and
   * the object's orphan votes are replayed against it.
   */
  function AddObject(s: Store, o: GovObject, env: Env, or: Oracles): Store
  {
    if !Admits(s, o, or) then s
    else
      var p := RegisterIfTrigger(s.(objects := s.objects[o.hash := o]), o, env, or);
      FinishAdd(p.0, p.1, o, env, or)
  }

  /** The trigger registration step of AddGovernanceObject; other objects count as registered. */
  function RegisterIfTrigger(s: Store, o: GovObject, env: Env, or: Oracles): (r: (Store, bool))
    ensures r.0 == s.(triggers := r.0.triggers)
  {
    if o.objectType == Trigger then AddTrigger(s, o.hash, env, or) else (s, true)
  }

  /** The end of AddGovernanceObject: undo a failed trigger, or update the rate record and replay the orphans. */
  function FinishAdd(s: Store, registered: bool, o: GovObject, env: Env, or: Oracles): (r: Store)
    ensures r == s.(objects := r.objects, rateRecords := r.rateRecords, additionalRelay := r.additionalRelay, orphans := r.orphans)
    ensures r.objects == if registered then s.objects else s.objects[o.hash := PrepareDeletion(o, env.now)]
  {
    if !registered then s.(objects := s.objects[o.hash := PrepareDeletion(o, env.now)])
    else ReplayOrphans(RateUpdate(s, o, env), o, env, or)
  }

  /** Whether AddGovernanceObject stores o. */
  predicate Admits(s: Store, o: GovObject, or: Oracles)
  {
    or.validLocally(o, true) && o.hash !in s.objects
  }

  /**
   * AddGovernanceObject never overwrites a held object, adds at most o's
   * hash, and touches neither the postponed objects, the tombstones, the
   * requests nor the vote caches.
   */
  lemma AddObjectNeverOverwrites(s: Store, o: GovObject, env: Env, or: Oracles)
    ensures var r := AddObject(s, o, env, or);
            && r.objects.Keys == s.objects.Keys + (if Admits(s, o, or) then {o.hash} else {})
            && (forall h :: h in s.objects ==> r.objects[h] == s.objects[h])
            && (Admits(s, o, or) ==> r.objects[o.hash] == o || r.objects[o.hash] == PrepareDeletion(o, env.now))
            && r.postponed == s.postponed && r.erased == s.erased && r.requested == s.requested
            && r.voteToObject == s.voteToObject && r.invalidVotes == s.invalidVotes
            && r.rateChecksEnabled == s.rateChecksEnabled
  {
    AddObjectFrame(s, o, env, or);
    AddObjectObjects(s, o, env, or);
  }

  /** AddGovernanceObject changes only the objects, the triggers, the rate records, the relay set and the orphans. */
  lemma AddObjectFrame(s: Store, o: GovObject, env: Env, or: Oracles)
    ensures var r := AddObject(s, o, env, or);
            r == s.(objects := r.objects, triggers := r.triggers, rateRecords := r.rateRecords,
                    additionalRelay := r.additionalRelay, orphans := r.orphans)
  {
    if Admits(s, o, or) {
      var s1 := s.(objects := s.objects[o.hash := o]);
      var p := RegisterIfTrigger(s1, o, env, or);
      assert p.0 == s1.(triggers := p.0.triggers);
      var r := FinishAdd(p.0, p.1, o, env, or);
      assert r == p.0.(objects := r.objects, rateRecords := r.rateRecords, additionalRelay := r.additionalRelay, orphans := r.orphans);
    }
  }

  /** The objects after AddGovernanceObject: o, or o marked for deletion, joins under its hash when admitted. */
  lemma AddObjectObjects(s: Store, o: GovObject, env: Env, or: Oracles)
    ensures var r := AddObject(s, o, env, or);
            r.objects == if !Admits(s, o, or) then s.objects
                         else s.objects[o.hash := if r.objects[o.hash] == o then o else PrepareDeletion(o, env.now)]
  {
  }

  /** AddGovernanceObject at one hash: only o's own hash can join, and nothing held changes. */
  lemma AddObjectAt(s: Store, o: GovObject, env: Env, or: Oracles, x: Hash)
    ensures var r := AddObject(s, o, env, or);
            && (x in r.objects <==> x in s.objects || (x == o.hash && Admits(s, o, or)))
            && (x in s.objects ==> r.objects[x] == s.objects[x])
            && (x == o.hash && Admits(s, o, or) ==> r.objects[x].hash == x)
  {
    AddObjectObjects(s, o, env, or);
  }

  /** A trigger whose registration fails is kept, marked for deletion, with no rate update and no orphan replay. */
  lemma AddObjectFailedTrigger(s: Store, o: GovObject, env: Env, or: Oracles)
    requires Admits(s, o, or) && o.objectType == Trigger
    requires !AddTrigger(s.(objects := s.objects[o.hash := o]), o.hash, env, or).1
    ensures var r := AddObject(s, o, env, or);
            && r.objects == s.objects[o.hash := PrepareDeletion(o, env.now)]
            && r.rateRecords == s.rateRecords && r.additionalRelay == s.additionalRelay && r.orphans == s.orphans
  {
  }

  /** An admitted object that is no failed trigger is stored as is, rate-updated, and its orphans are replayed. */
  lemma AddObjectStored(s: Store, o: GovObject, env: Env, or: Oracles)
    requires Admits(s, o, or)
    requires o.objectType != Trigger
    ensures var r := AddObject(s, o, env, or);
            && r.objects == s.objects[o.hash := o]
            && r.rateRecords == s.rateRecords
            && (forall e :: e in r.orphans <==> e in s.orphans && !Replayed(o, env, or, e))
  {
  }

  /** Admitting an object that is neither postponed nor tombstoned keeps the store's invariant. */
  lemma AddObjectValid(s: Store, o: GovObject, env: Env, or: Oracles)
    requires StoreValid(s) && o.hash !in s.postponed && o.hash !in s.erased
    ensures StoreValid(AddObject(s, o, env, or))
  {
    AddObjectNeverOverwrites(s, o, env, or);
    ValidAfterObjectsGrow(s, AddObject(s, o, env, or), o.hash);
  }

  /** The invariant survives a store that grows its objects by h alone, with h's object under its own hash. */
  lemma ValidAfterObjectsGrow(s: Store, r: Store, h: Hash)
    requires StoreValid(s) && h !in s.postponed && h !in s.erased
    requires r.objects.Keys <= s.objects.Keys + {h}
    requires s.objects.Keys <= r.objects.Keys
    requires forall x :: x in s.objects ==> r.objects[x] == s.objects[x]
    requires h in r.objects ==> r.objects[h].hash == h
    requires r.postponed == s.postponed && r.erased == s.erased && r.voteToObject == s.voteToObject
    ensures StoreValid(r)
  {
  }

  /** The MNGOVERNANCEOBJECT reply, set before any test: the peer manager forgets the object's inventory request. */
  function ObjectReply(o: GovObject): MessageResult
  {
    MessageResult(None, [], Some(Inv(ObjectInv, o.hash)))
  }

  /**
   * The MNGOVERNANCEOBJECT branch of ProcessMessage: accept only a requested
   * hash; drop a held, postponed or tombstoned one; apply the rate check
   * (and again with force when it was bypassed and the object is valid);
   * postpone an object lacking confirmations, penalise another invalid one,
   * and admit the rest.
   */
  function ObjectMessage(s: Store, o: GovObject, env: Env, or: Oracles): (Store, MessageResult)
  {
    if !env.blockchainSynced then (s, ObjectReply(o))
    else if o.hash !in s.requested then (s, ObjectReply(o))
    else
      var s1 := AcceptRequest(s, o.hash);
      if o.hash in s1.objects || o.hash in s1.postponed || o.hash in s1.erased then (s1, ObjectReply(o))
      else
        var first := RateDecide(s1, o, false, env, or);
        var s2 := RateCheck(s1, o, true, false, env, or);
        if !RatePasses(first) then (s2, ObjectReply(o))
        else
          var valid := or.validLocally(o, true);
          if first == Bypassed && valid && !RatePasses(RateDecide(s2, o, true, env, or)) then
            (RateCheck(s2, o, true, true, env, or), ObjectReply(o))
          else if !valid then
            if or.missingConfirmations(o) then (s2.(postponed := Emplace(s2.postponed, o.hash, o)), ObjectReply(o))
            else (s2, ObjectReply(o).(error := Some(MISBEHAVING_SCORE)))
          else (AddObject(s2, o, env, or), ObjectReply(o))
  }

  /** The object reaches the checks past the duplicate test. */
  predicate FreshRequested(s: Store, o: GovObject)
  {
    o.hash in s.requested && o.hash !in s.objects && o.hash !in s.postponed && o.hash !in s.erased
  }

  /** Both rate checks of the branch let the object through. */
  predicate RateAdmits(s: Store, o: GovObject, env: Env, or: Oracles)
  {
    var s1 := AcceptRequest(s, o.hash);
    var first := RateDecide(s1, o, false, env, or);
    RatePasses(first) && !(first == Bypassed && or.validLocally(o, true) && !RatePasses(RateDecide(s1, o, true, env, or)))
  }

  /**
   * Every object message, on every path, asks the peer manager to erase the
   * object's inventory request; before the blockchain is synced nothing else happens.
   */
  lemma ObjectMessageErasesInventory(s: Store, o: GovObject, env: Env, or: Oracles)
    ensures ObjectMessage(s, o, env, or).1.toErase == Some(Inv(ObjectInv, o.hash))
    ensures ObjectMessage(s, o, env, or).1.inventory == []
    ensures !env.blockchainSynced ==> ObjectMessage(s, o, env, or) == (s, MessageResult(None, [], Some(Inv(ObjectInv, o.hash))))
  {
  }

  /** A pushed object already held, postponed or tombstoned is dropped with no penalty; only its request is consumed. */
  lemma ObjectMessageDropsDuplicate(s: Store, o: GovObject, env: Env, or: Oracles)
    requires env.blockchainSynced && o.hash in s.requested
    requires o.hash in s.objects || o.hash in s.postponed || o.hash in s.erased
    ensures ObjectMessage(s, o, env, or) == (AcceptRequest(s, o.hash), ObjectReply(o))
  {
  }

  /** An unrequested object is refused with no change and no penalty. */
  lemma ObjectMessageUnrequested(s: Store, o: GovObject, env: Env, or: Oracles)
    requires o.hash !in s.requested
    ensures ObjectMessage(s, o, env, or).0 == s && ObjectMessage(s, o, env, or).1.error == None
  {
  }

  /**
   * The ban score 20 is given exactly to a fresh, requested object that
   * passes the rate checks, is invalid and does not merely lack
   * confirmations; one that lacks them is postponed instead.
   */
  lemma ObjectMessagePenalty(s: Store, o: GovObject, env: Env, or: Oracles)
    ensures var (r, res) := ObjectMessage(s, o, env, or);
            && (res.error.Some? <==> env.blockchainSynced && FreshRequested(s, o) && RateAdmits(s, o, env, or)
                                     && !or.validLocally(o, true) && !or.missingConfirmations(o))
            && (res.error.Some? ==> res.error == Some(MISBEHAVING_SCORE))
            && (env.blockchainSynced && FreshRequested(s, o) && RateAdmits(s, o, env, or)
                && !or.validLocally(o, true) && or.missingConfirmations(o) ==>
                  r.postponed == s.postponed[o.hash := o] && r.objects == s.objects)
  {
  }

  /** A valid fresh requested object that passes the rate checks is admitted by AddGovernanceObject. */
  lemma ObjectMessageAdmits(s: Store, o: GovObject, env: Env, or: Oracles)
    requires env.blockchainSynced && FreshRequested(s, o) && RateAdmits(s, o, env, or) && or.validLocally(o, true)
    ensures ObjectMessage(s, o, env, or).0 == AddObject(AcceptRequest(s, o.hash), o, env, or)
    ensures o.hash in ObjectMessage(s, o, env, or).0.objects
  {
  }

  /** A tombstoned hash is never brought back by an object message. */
  lemma TombstoneBlocksObject(s: Store, o: GovObject, env: Env, or: Oracles)
    requires o.hash in s.erased && o.hash !in s.objects
    ensures o.hash !in ObjectMessage(s, o, env, or).0.objects
    ensures ObjectMessage(s, o, env, or).0.erased == s.erased
  {
  }

  /** An object message keeps the store's invariant. */
  lemma ObjectMessageValid(s: Store, o: GovObject, env: Env, or: Oracles)
    requires StoreValid(s)
    ensures StoreValid(ObjectMessage(s, o, env, or).0)
  {
    var r := ObjectMessage(s, o, env, or).0;
    var s1 := AcceptRequest(s, o.hash);
    ValidWithRequests(s, s1.requested);
    if env.blockchainSynced && FreshRequested(s, o) {
      RateCheckKeepsBuffers(s1, o, true, false, env, or);
      var s2 := RateCheck(s1, o, true, false, env, or);
      ValidWithRates(s1, s2.rateRecords);
      if RatePasses(RateDecide(s1, o, false, env, or)) {
        assert s2 == s1;
        var valid := or.validLocally(o, true);
        if RateDecide(s1, o, false, env, or) == Bypassed && valid && !RatePasses(RateDecide(s2, o, true, env, or)) {
          RateCheckKeepsBuffers(s1, o, true, true, env, or);
          ValidWithRates(s1, r.rateRecords);
        } else if !valid {
          if or.missingConfirmations(o) {
            ValidWithPostponed(s1, o);
          }
        } else {
          AddObjectValid(s1, o, env, or);
        }
      }
    }
  }

  /** The MNGOVERNANCEOBJECTVOTE branch of ProcessMessage. */
  function VoteMessage(s: Store, vote: Vote, env: Env, or: Oracles): (Store, MessageResult)
  {
    var reply := MessageResult(None, [], Some(Inv(VoteInv, vote.hash)));
    if !env.blockchainSynced then (s, reply)
    else if vote.hash !in s.requested then (s, reply)
    else
      var s1 := AcceptRequest(s, vote.hash);
      var r := ProcessVoteResult(s1, vote, env, or);
      (ProcessVoteStore(s1, vote, env, or),
       if !r.ok && r.penalty != 0 && env.synced then reply.(error := Some(r.penalty)) else reply)
  }

  /** A requested vote is processed once; the peer is penalised only for a rejection with a score, once synced. */
  lemma VoteMessageOutcome(s: Store, vote: Vote, env: Env, or: Oracles)
    requires env.blockchainSynced && vote.hash in s.requested
    ensures var (r, res) := VoteMessage(s, vote, env, or); var v := ProcessVoteResult(AcceptRequest(s, vote.hash), vote, env, or);
            && r == ProcessVoteStore(AcceptRequest(s, vote.hash), vote, env, or)
            && vote.hash !in r.requested
            && (res.error.Some? <==> !v.ok && v.penalty != 0 && env.synced)
            && (res.error.Some? ==> res.error == Some(v.penalty))
            && res.toErase == Some(Inv(VoteInv, vote.hash))
  {
  }

  /**
   * Every vote message, on every path, asks the peer manager to erase the
   * vote's inventory request; before the blockchain is synced nothing else happens.
   */
  lemma VoteMessageErasesInventory(s: Store, vote: Vote, env: Env, or: Oracles)
    ensures VoteMessage(s, vote, env, or).1.toErase == Some(Inv(VoteInv, vote.hash))
    ensures VoteMessage(s, vote, env, or).1.inventory == []
    ensures !env.blockchainSynced ==> VoteMessage(s, vote, env, or) == (s, MessageResult(None, [], Some(Inv(VoteInv, vote.hash))))
  {
  }

  // ---------------------------------------------------------------------
  // The garbage-collection sweep
  // ---------------------------------------------------------------------

  /** An object marked deleted or expired whose deletion time is at least the deletion delay ago. */
  predicate DueForRemoval(o: GovObject, now: int)
  {
    (o.cachedDelete || o.expired) && now - o.deletionTime >= GOVERNANCE_DELETION_DELAY
  }

  /** When a tombstone is forgotten: never for a proposal, else two cycles and the delay after creation. */
  function TombstoneExpiry(o: GovObject, cycleSeconds: int): int
  {
    if o.objectType == Proposal then INT64_MAX else o.creationTime + 2 * cycleSeconds + GOVERNANCE_DELETION_DELAY
  }

  /** An object the sweep keeps: a proposal that fails validation is marked for deletion. */
  function KeptObject(o: GovObject, env: Env, or: Oracles): (r: GovObject)
    ensures r.hash == o.hash
  {
    if o.objectType == Proposal && !or.proposalValid(o) then PrepareDeletion(o, env.now) else o
  }

  /** The vote index without the votes that point at h. */
  function DropVotesFor(votes: map<Hash, Hash>, h: Hash): (r: map<Hash, Hash>)
    ensures forall v :: v in r <==> v in votes && votes[v] != h
    ensures forall v :: v in r ==> r[v] == votes[v]
  {
    map v | v in votes && votes[v] != h :: votes[v]
  }

  function SweepObjectStep(s: Store, h: Hash, env: Env, or: Oracles): (r: Store)
    ensures r == s.(objects := r.objects, voteToObject := r.voteToObject, erased := r.erased)
    ensures r.objects.Keys <= s.objects.Keys && r.voteToObject.Keys <= s.voteToObject.Keys
  {
    if h !in s.objects then s
    else
      var o := s.objects[h];
      if DueForRemoval(o, env.now) then
        s.(objects := s.objects - {h}, voteToObject := DropVotesFor(s.voteToObject, h),
           erased := Emplace(s.erased, h, TombstoneExpiry(o, env.cycleSeconds)))
      else s.(objects := s.objects[h := KeptObject(o, env, or)])
  }

  function SweepObjectsOver(s: Store, ks: seq<Hash>, env: Env, or: Oracles): (r: Store)
    ensures r == s.(objects := r.objects, voteToObject := r.voteToObject, erased := r.erased)
    ensures r.objects.Keys <= s.objects.Keys && r.voteToObject.Keys <= s.voteToObject.Keys
    decreases |ks|
  {
    if ks == [] then s else SweepObjectsOver(SweepObjectStep(s, ks[0], env, or), ks[1..], env, or)
  }

  /** The object loop of CheckAndRemove, over the held hashes in map order. */
  ghost function SweepObjects(s: Store, env: Env, or: Oracles): (r: Store)
    ensures r == s.(objects := r.objects, voteToObject := r.voteToObject, erased := r.erased)
    ensures r.objects.Keys <= s.objects.Keys && r.voteToObject.Keys <= s.voteToObject.Keys
  {
    NatOrder();
    SweepObjectsOver(s, SortedSeq(s.objects.Keys, NatLess), env, or)
  }

  /** The object and the tombstone under x are the same in both stores. */
  ghost predicate SameObjectAt(s: Store, t: Store, x: Hash)
  {
    && (x in t.objects <==> x in s.objects) && (x in t.objects ==> t.objects[x] == s.objects[x])
    && (x in t.erased <==> x in s.erased) && (x in t.erased ==> t.erased[x] == s.erased[x])
  }

  /** What the sweep makes of the object under x. */
  ghost predicate SweptObjectAt(s: Store, r: Store, env: Env, or: Oracles, x: Hash)
  {
    && (x in r.objects <==> x in s.objects && !DueForRemoval(s.objects[x], env.now))
    && (x in r.objects ==> r.objects[x] == KeptObject(s.objects[x], env, or))
    && (x in r.erased <==> x in s.erased || (x in s.objects && DueForRemoval(s.objects[x], env.now)))
    && (x in r.erased ==> r.erased[x] == if x in s.erased then s.erased[x] else TombstoneExpiry(s.objects[x], env.cycleSeconds))
  }

  lemma ObjectStepOther(s: Store, h: Hash, env: Env, or: Oracles, x: Hash)
    requires x != h
    ensures SameObjectAt(s, SweepObjectStep(s, h, env, or), x)
  {
    if h in s.objects && DueForRemoval(s.objects[h], env.now) {
      EmplaceNeverOverwrites(s.erased, h, TombstoneExpiry(s.objects[h], env.cycleSeconds));
    }
  }

  lemma ObjectStepSelf(s: Store, env: Env, or: Oracles, x: Hash)
    ensures SweptObjectAt(s, SweepObjectStep(s, x, env, or), env, or, x)
  {
  }

  lemma {:induction false} SweepObjectsOverOutside(s: Store, ks: seq<Hash>, env: Env, or: Oracles, x: Hash)
    requires x !in ks
    ensures SameObjectAt(s, SweepObjectsOver(s, ks, env, or), x)
    decreases |ks|
  {
    if ks != [] {
      ObjectStepOther(s, ks[0], env, or, x);
      SweepObjectsOverOutside(SweepObjectStep(s, ks[0], env, or), ks[1..], env, or, x);
    }
  }

  lemma SweptObjectTransfer(s: Store, s1: Store, r: Store, env: Env, or: Oracles, x: Hash)
    requires SweptObjectAt(s, s1, env, or, x) && SameObjectAt(s1, r, x)
    ensures SweptObjectAt(s, r, env, or, x)
  {
  }

  lemma SweptObjectAgree(s: Store, s1: Store, r: Store, env: Env, or: Oracles, x: Hash)
    requires SameObjectAt(s, s1, x) && SweptObjectAt(s1, r, env, or, x)
    ensures SweptObjectAt(s, r, env, or, x)
  {
  }

  /** Over distinct keys, each listed object is decided once, on the object as it was. */
  lemma {:induction false} SweepObjectsOverExact(s: Store, ks: seq<Hash>, env: Env, or: Oracles, x: Hash)
    requires Distinct(ks) && x in ks
    ensures SweptObjectAt(s, SweepObjectsOver(s, ks, env, or), env, or, x)
    decreases |ks|
  {
    DistinctTail(ks);
    var s1 := SweepObjectStep(s, ks[0], env, or);
    var r := SweepObjectsOver(s, ks, env, or);
    if x == ks[0] {
      ObjectStepSelf(s, env, or, x);
      SweepObjectsOverOutside(s1, ks[1..], env, or, x);
      SweptObjectTransfer(s, s1, r, env, or, x);
    } else {
      ObjectStepOther(s, ks[0], env, or, x);
      SweepObjectsOverExact(s1, ks[1..], env, or, x);
      SweptObjectAgree(s, s1, r, env, or, x);
    }
  }

  /** The vote v, with its target, is the same in both stores. */
  ghost predicate SameVoteAt(s: Store, t: Store, v: Hash)
  {
    (v in t.voteToObject <==> v in s.voteToObject) && (v in t.voteToObject ==> t.voteToObject[v] == s.voteToObject[v])
  }

  /** What the sweep makes of the vote v: it goes exactly when its object is removed. */
  ghost predicate SweptVoteAt(s: Store, r: Store, env: Env, v: Hash)
    requires v in s.voteToObject
  {
    var g := s.voteToObject[v];
    && (v in r.voteToObject <==> !(g in s.objects && DueForRemoval(s.objects[g], env.now)))
    && (v in r.voteToObject ==> r.voteToObject[v] == g)
  }

  lemma VoteStepOther(s: Store, h: Hash, env: Env, or: Oracles, v: Hash)
    requires v in s.voteToObject ==> s.voteToObject[v] != h
    ensures SameVoteAt(s, SweepObjectStep(s, h, env, or), v)
  {
  }

  /** The step for a vote's own object keeps that object's entry apart from flags. */
  lemma VoteStepSelf(s: Store, env: Env, or: Oracles, v: Hash)
    requires v in s.voteToObject
    ensures SweptVoteAt(s, SweepObjectStep(s, s.voteToObject[v], env, or), env, v)
  {
  }

  lemma {:induction false} SweepVotesOutside(s: Store, ks: seq<Hash>, env: Env, or: Oracles, v: Hash)
    requires v in s.voteToObject ==> s.voteToObject[v] !in ks
    ensures SameVoteAt(s, SweepObjectsOver(s, ks, env, or), v)
    decreases |ks|
  {
    if ks != [] {
      VoteStepOther(s, ks[0], env, or, v);
      SweepVotesOutside(SweepObjectStep(s, ks[0], env, or), ks[1..], env, or, v);
    }
  }

  /** Over distinct keys that list a vote's object, the vote goes exactly when its object is removed. */
  lemma {:induction false} SweepVotesExact(s: Store, ks: seq<Hash>, env: Env, or: Oracles, v: Hash)
    requires Distinct(ks) && v in s.voteToObject && s.voteToObject[v] in ks
    ensures SweptVoteAt(s, SweepObjectsOver(s, ks, env, or), env, v)
    decreases |ks|
  {
    DistinctTail(ks);
    var g := s.voteToObject[v];
    var s1 := SweepObjectStep(s, ks[0], env, or);
    if g == ks[0] {
      VoteStepSelf(s, env, or, v);
      SweepVotesOutside(s1, ks[1..], env, or, v);
    } else {
      VoteStepOther(s, ks[0], env, or, v);
      ObjectStepOther(s, ks[0], env, or, g);
      SweepVotesExact(s1, ks[1..], env, or, v);
    }
  }

  /**
   * The object loop of CheckAndRemove removes exactly the objects due for
   * removal, tombstones each with its expiry (an existing tombstone is kept),
   * keeps the rest with failing proposals marked for deletion, drops exactly
   * the votes that point at a removed object, and changes nothing else.
   */
  lemma SweepObjectsExact(s: Store, env: Env, or: Oracles, x: Hash)
    ensures SweptObjectAt(s, SweepObjects(s, env, or), env, or, x)
    ensures x in s.voteToObject ==> SweptVoteAt(s, SweepObjects(s, env, or), env, x)
    ensures x !in s.voteToObject ==> x !in SweepObjects(s, env, or).voteToObject
    ensures var r := SweepObjects(s, env, or); r == s.(objects := r.objects, voteToObject := r.voteToObject, erased := r.erased)
  {
    NatOrder();
    var ks := SortedSeq(s.objects.Keys, NatLess);
    if x in ks {
      SweepObjectsOverExact(s, ks, env, or, x);
    } else {
      SweepObjectsOverOutside(s, ks, env, or, x);
    }
    if x in s.voteToObject {
      if s.voteToObject[x] in ks {
        SweepVotesExact(s, ks, env, or, x);
      } else {
        SweepVotesOutside(s, ks, env, or, x);
      }
    }
  }

  /** The entries of m whose time is not before now: the forgetting loops of CheckAndRemove. */
  function ForgetExpired(m: map<Hash, int>, now: int): (r: map<Hash, int>)
    ensures forall h :: h in r <==> h in m && m[h] >= now
    ensures forall h :: h in r ==> r[h] == m[h]
  {
    map h | h in m && m[h] >= now :: m[h]
  }

  /** The store as the sweeps of CheckAndRemove see it: rate checks switched off for their duration. */
  function Unguarded(s: Store): Store
  {
    s.(rateChecksEnabled := false)
  }

  /**
   * CheckAndRemove: once the blockchain is synced, switch rate checks off,
   * sweep the triggers, then the objects, then forget expired tombstones and
   * requests, and restore the rate-check flag.
   */
  ghost function GarbageCollected(s: Store, env: Env, or: Oracles): Store
  {
    if !env.blockchainSynced then s
    else
      var s2 := SweepObjects(SweepTriggers(Unguarded(s), env, or), env, or);
      s2.(erased := ForgetExpired(s2.erased, env.now), requested := ForgetExpired(s2.requested, env.now),
          rateChecksEnabled := s.rateChecksEnabled)
  }

  /**
   * After CheckAndRemove an object is gone exactly when it was due for removal
   * once the triggers were swept, its tombstone stays while unexpired, and no
   * hash is added to the objects or the vote index.
   */
  lemma CheckAndRemoveObjects(s: Store, env: Env, or: Oracles, x: Hash)
    requires env.blockchainSynced
    ensures var t := SweepTriggers(Unguarded(s), env, or); var r := GarbageCollected(s, env, or);
            && (x in r.objects <==> x in s.objects && !DueForRemoval(t.objects[x], env.now))
            && (x in r.objects ==> r.objects[x] == KeptObject(t.objects[x], env, or))
            && (x in r.erased <==> (x in s.erased || (x in s.objects && DueForRemoval(t.objects[x], env.now)))
                                   && (if x in s.erased then s.erased[x] else TombstoneExpiry(t.objects[x], env.cycleSeconds)) >= env.now)
            && (x in r.requested <==> x in s.requested && s.requested[x] >= env.now)
            && r.postponed == s.postponed && r.invalidVotes == s.invalidVotes && r.orphans == s.orphans
            && r.rateRecords == s.rateRecords && r.additionalRelay == s.additionalRelay
  {
    SweepTriggersExact(Unguarded(s), env, or, x);
    var t := SweepTriggers(Unguarded(s), env, or);
    SweepObjectsExact(t, env, or, x);
  }

  /** A vote survives CheckAndRemove exactly when its object was not removed. */
  lemma CheckAndRemoveVotes(s: Store, env: Env, or: Oracles, v: Hash)
    requires env.blockchainSynced && v in s.voteToObject
    ensures var t := SweepTriggers(Unguarded(s), env, or); var r := GarbageCollected(s, env, or); var g := s.voteToObject[v];
            && (v in r.voteToObject <==> !(g in s.objects && DueForRemoval(t.objects[g], env.now)))
            && (v in r.voteToObject ==> r.voteToObject[v] == g)
  {
    SweepTriggersExact(Unguarded(s), env, or, s.voteToObject[v]);
    var t := SweepTriggers(Unguarded(s), env, or);
    SweepObjectsExact(t, env, or, v);
  }

  /** CheckAndRemove keeps the store's invariant. */
  lemma CheckAndRemoveValid(s: Store, env: Env, or: Oracles)
    requires StoreValid(s)
    ensures StoreValid(GarbageCollected(s, env, or))
  {
    if env.blockchainSynced {
      var t := SweepTriggers(Unguarded(s), env, or);
      var r := GarbageCollected(s, env, or);
      forall x | x in r.objects
        ensures r.objects[x].hash == x && x !in r.postponed && x !in r.erased
      {
        CheckAndRemoveObjects(s, env, or, x);
        SweepTriggersExact(Unguarded(s), env, or, x);
        SweptTriggerHash(Unguarded(s), env, or, x);
      }
      forall x | x in r.postponed
        ensures x !in r.erased
      {
        CheckAndRemoveObjects(s, env, or, x);
      }
      forall v | v in r.voteToObject
        ensures r.voteToObject[v] in r.objects
      {
        SweepTriggersExact(Unguarded(s), env, or, v);
        SweepObjectsExact(t, env, or, v);
        CheckAndRemoveVotes(s, env, or, v);
        CheckAndRemoveObjects(s, env, or, s.voteToObject[v]);
      }
    }
  }

  /** The trigger sweep keeps every object under its own hash. */
  lemma SweptTriggerHash(s: Store, env: Env, or: Oracles, x: Hash)
    requires x in s.objects && s.objects[x].hash == x
    ensures x in SweepTriggers(s, env, or).objects && SweepTriggers(s, env, or).objects[x].hash == x
  {
    SweepTriggersExact(s, env, or, x);
    if x in s.triggers {
      SweptTriggerObjectHash(s.objects[x], FateOf(s, x, env, or), env.now);
    }
  }

  // ---------------------------------------------------------------------
  // Postponed objects and additional relays
  // ---------------------------------------------------------------------

  /** Every postponed object sits under its own hash. */
  ghost predicate PostponedKeyed(s: Store)
  {
    forall h :: h in s.postponed ==> s.postponed[h].hash == h
  }

  /**
   * One postponed object in CheckPostponedObjects: with valid collateral it
   * is offered to AddGovernanceObject when valid without the collateral check,
   * and leaves the queue either way; lacking confirmations it waits; otherwise
   * it leaves the queue.
   */
  function PromoteStep(s: Store, h: Hash, env: Env, or: Oracles): Store
  {
    if h !in s.postponed then s
    else Dequeue(Offer(s, s.postponed[h], env, or), h, s.postponed[h], or)
  }

  /** A postponed object with valid collateral that is valid without the collateral check goes to AddGovernanceObject. */
  function Offer(s: Store, o: GovObject, env: Env, or: Oracles): Store
  {
    if or.collateralValid(o) && or.validLocally(o, false) then AddObject(s, o, env, or) else s
  }

  /** The queue entry goes unless the collateral only lacks confirmations. */
  function Dequeue(s: Store, h: Hash, o: GovObject, or: Oracles): Store
  {
    if Waits(o, or) then s else s.(postponed := s.postponed - {h})
  }

  lemma OfferFrame(s: Store, o: GovObject, env: Env, or: Oracles)
    ensures var r := Offer(s, o, env, or);
            r == s.(objects := r.objects, triggers := r.triggers, rateRecords := r.rateRecords,
                    additionalRelay := r.additionalRelay, orphans := r.orphans)
  {
    AddObjectFrame(s, o, env, or);
  }

  lemma OfferAt(s: Store, o: GovObject, env: Env, or: Oracles, x: Hash)
    ensures var r := Offer(s, o, env, or);
            && (x in r.objects <==> x in s.objects || (x == o.hash && Promotes(o, or)))
            && (x in s.objects ==> r.objects[x] == s.objects[x])
            && (x == o.hash && x !in s.objects && x in r.objects ==> r.objects[x].hash == x)
  {
    AddObjectAt(s, o, env, or, x);
  }

  /** Promotion changes the postponed queue only by dropping the stepped hash. */
  lemma PromoteStepFrame(s: Store, h: Hash, env: Env, or: Oracles)
    ensures var r := PromoteStep(s, h, env, or);
            && r == s.(objects := r.objects, triggers := r.triggers, rateRecords := r.rateRecords,
                       additionalRelay := r.additionalRelay, orphans := r.orphans, postponed := r.postponed)
            && (r.postponed == s.postponed || r.postponed == s.postponed - {h})
  {
    if h in s.postponed {
      OfferFrame(s, s.postponed[h], env, or);
    }
  }

  function PromoteOver(s: Store, ks: seq<Hash>, env: Env, or: Oracles): (r: Store)
    ensures r.erased == s.erased && r.voteToObject == s.voteToObject && r.requested == s.requested
    ensures r.invalidVotes == s.invalidVotes && r.rateChecksEnabled == s.rateChecksEnabled
    ensures r.postponed.Keys <= s.postponed.Keys
    decreases |ks|
  {
    if ks == [] then s
    else
      PromoteStepFrame(s, ks[0], env, or);
      PromoteOver(PromoteStep(s, ks[0], env, or), ks[1..], env, or)
  }

  /** The postponed loop of CheckPostponedObjects, over the postponed hashes in map order. */
  ghost function PromotePostponed(s: Store, env: Env, or: Oracles): (r: Store)
    ensures r.erased == s.erased && r.voteToObject == s.voteToObject && r.requested == s.requested
    ensures r.invalidVotes == s.invalidVotes && r.rateChecksEnabled == s.rateChecksEnabled
    ensures r.postponed.Keys <= s.postponed.Keys
  {
    NatOrder();
    PromoteOver(s, SortedSeq(s.postponed.Keys, NatLess), env, or)
  }

  /** Whether the postponed object o is promoted: valid collateral, valid with and without the collateral check. */
  predicate Promotes(o: GovObject, or: Oracles)
  {
    or.collateralValid(o) && or.validLocally(o, false) && or.validLocally(o, true)
  }

  /** Whether the postponed object o stays queued: its collateral only lacks confirmations. */
  predicate Waits(o: GovObject, or: Oracles)
  {
    !or.collateralValid(o) && or.missingConfirmations(o)
  }

  /** The postponed and the held object under x are the same in both stores. */
  ghost predicate SamePostponedAt(s: Store, t: Store, x: Hash)
  {
    && (x in t.postponed <==> x in s.postponed) && (x in t.postponed ==> t.postponed[x] == s.postponed[x])
    && (x in t.objects <==> x in s.objects) && (x in t.objects ==> t.objects[x] == s.objects[x])
  }

  /** What promotion makes of the postponed object under x. */
  ghost predicate PromotedAt(s: Store, r: Store, or: Oracles, x: Hash)
    requires x in s.postponed
  {
    var o := s.postponed[x];
    && (x in r.postponed <==> Waits(o, or))
    && (x in r.postponed ==> r.postponed[x] == o)
    && (x in r.objects <==> x in s.objects || Promotes(o, or))
    && (x in s.objects ==> r.objects[x] == s.objects[x])
    && (x in r.objects && x !in s.objects ==> r.objects[x].hash == x)
  }

  lemma PromoteStepOther(s: Store, h: Hash, env: Env, or: Oracles, x: Hash)
    requires x != h && (h in s.postponed ==> s.postponed[h].hash == h)
    ensures SamePostponedAt(s, PromoteStep(s, h, env, or), x)
  {
    if h in s.postponed {
      OfferFrame(s, s.postponed[h], env, or);
      OfferAt(s, s.postponed[h], env, or, x);
    }
  }

  lemma PromoteStepSelf(s: Store, env: Env, or: Oracles, x: Hash)
    requires x in s.postponed && s.postponed[x].hash == x
    ensures PromotedAt(s, PromoteStep(s, x, env, or), or, x)
  {
    OfferFrame(s, s.postponed[x], env, or);
    OfferAt(s, s.postponed[x], env, or, x);
  }

  lemma PromoteStepKeyed(s: Store, h: Hash, env: Env, or: Oracles)
    requires PostponedKeyed(s)
    ensures PostponedKeyed(PromoteStep(s, h, env, or))
  {
    PromoteStepFrame(s, h, env, or);
  }

  lemma {:induction false} PromoteOverOutside(s: Store, ks: seq<Hash>, env: Env, or: Oracles, x: Hash)
    requires x !in ks && PostponedKeyed(s)
    ensures SamePostponedAt(s, PromoteOver(s, ks, env, or), x)
    decreases |ks|
  {
    if ks != [] {
      PromoteStepOther(s, ks[0], env, or, x);
      PromoteStepKeyed(s, ks[0], env, or);
      PromoteOverOutside(PromoteStep(s, ks[0], env, or), ks[1..], env, or, x);
    }
  }

  lemma PromotedTransfer(s: Store, s1: Store, r: Store, or: Oracles, x: Hash)
    requires x in s.postponed && PromotedAt(s, s1, or, x) && SamePostponedAt(s1, r, x)
    ensures PromotedAt(s, r, or, x)
  {
  }

  lemma PromotedAgree(s: Store, s1: Store, r: Store, or: Oracles, x: Hash)
    requires x in s.postponed && SamePostponedAt(s, s1, x) && PromotedAt(s1, r, or, x)
    ensures PromotedAt(s, r, or, x)
  {
  }

  /** Over distinct keys, each listed postponed object is decided once. */
  lemma {:induction false} PromoteOverExact(s: Store, ks: seq<Hash>, env: Env, or: Oracles, x: Hash)
    requires Distinct(ks) && x in ks && x in s.postponed && PostponedKeyed(s)
    ensures PromotedAt(s, PromoteOver(s, ks, env, or), or, x)
    decreases |ks|
  {
    DistinctTail(ks);
    var s1 := PromoteStep(s, ks[0], env, or);
    var r := PromoteOver(s, ks, env, or);
    PromoteStepKeyed(s, ks[0], env, or);
    if x == ks[0] {
      PromoteStepSelf(s, env, or, x);
      PromoteOverOutside(s1, ks[1..], env, or, x);
      PromotedTransfer(s, s1, r, or, x);
    } else {
      PromoteStepOther(s, ks[0], env, or, x);
      PromoteOverExact(s1, ks[1..], env, or, x);
      PromotedAgree(s, s1, r, or, x);
    }
  }

  /**
   * The postponed loop leaves an object queued exactly when its collateral
   * only lacks confirmations, and stores it exactly when it is valid with
   * valid collateral (or was already held); hashes outside the queue keep
   * their objects.
   */
  lemma PromotePostponedExact(s: Store, env: Env, or: Oracles, x: Hash)
    requires PostponedKeyed(s)
    ensures x in s.postponed ==> PromotedAt(s, PromotePostponed(s, env, or), or, x)
    ensures x !in s.postponed ==> SamePostponedAt(s, PromotePostponed(s, env, or), x)
  {
    NatOrder();
    var ks := SortedSeq(s.postponed.Keys, NatLess);
    if x in ks {
      PromoteOverExact(s, ks, env, or, x);
    } else {
      PromoteOverOutside(s, ks, env, or, x);
    }
  }

  /** fValid && !fReady in the relay loop: inside the acceptance window but too far ahead to relay yet. */
  predicate RelayPending(o: GovObject, env: Env)
  {
    && o.creationTime <= env.adjustedNow + MAX_TIME_FUTURE_DEVIATION
    && o.creationTime >= env.adjustedNow - 2 * env.cycleSeconds
    && o.creationTime > env.adjustedNow + MAX_TIME_FUTURE_DEVIATION - RELIABLE_PROPAGATION_TIME
  }

  /** fValid && fReady: relayed now. */
  predicate RelayReady(o: GovObject, env: Env)
  {
    && o.creationTime >= env.adjustedNow - 2 * env.cycleSeconds
    && o.creationTime <= env.adjustedNow + MAX_TIME_FUTURE_DEVIATION - RELIABLE_PROPAGATION_TIME
  }

  /** The relay loop keeps exactly the entries whose object is held and pending. */
  function RelayPass(s: Store, env: Env): (r: Store)
    ensures forall h :: h in r.additionalRelay <==> h in s.additionalRelay && h in s.objects && RelayPending(s.objects[h], env)
    ensures r == s.(additionalRelay := r.additionalRelay)
  {
    s.(additionalRelay := set h | h in s.additionalRelay && h in s.objects && RelayPending(s.objects[h], env))
  }

  /** The hashes the relay loop relays. */
  function RelayedNow(s: Store, env: Env): (r: set<Hash>)
    ensures forall h :: h in r <==> h in s.additionalRelay && h in s.objects && RelayReady(s.objects[h], env)
  {
    set h | h in s.additionalRelay && h in s.objects && RelayReady(s.objects[h], env)
  }

  /**
   * Every scheduled relay is either relayed now, kept for later, or dropped
   * because its object is gone or outside the window; never both relayed and
   * kept.
   */
  lemma RelayPartition(s: Store, env: Env, h: Hash)
    requires h in s.additionalRelay
    ensures h in RelayedNow(s, env) ==> h !in RelayPass(s, env).additionalRelay
    ensures h !in RelayedNow(s, env) && h !in RelayPass(s, env).additionalRelay <==>
              h !in s.objects || s.objects[h].creationTime < env.adjustedNow - 2 * env.cycleSeconds
              || s.objects[h].creationTime > env.adjustedNow + MAX_TIME_FUTURE_DEVIATION
  {
  }

  /** CheckPostponedObjects: once synced, the postponed loop and then the relay loop. */
  ghost function CheckPostponed(s: Store, env: Env, or: Oracles): Store
  {
    if !env.synced then s else RelayPass(PromotePostponed(s, env, or), env)
  }

  /** CheckPostponedObjects keeps the store's invariant. */
  lemma CheckPostponedValid(s: Store, env: Env, or: Oracles)
    requires StoreValid(s)
    ensures StoreValid(CheckPostponed(s, env, or))
  {
    if env.synced {
      assert PostponedKeyed(s);
      var p := PromotePostponed(s, env, or);
      forall x | x in p.objects
        ensures p.objects[x].hash == x && x !in p.postponed && x !in p.erased
      {
        PromotePostponedExact(s, env, or, x);
      }
      forall x | x in p.postponed
        ensures x !in p.erased && p.postponed[x].hash == x
      {
        PromotePostponedExact(s, env, or, x);
      }
      forall v | v in p.voteToObject
        ensures p.voteToObject[v] in p.objects
      {
        PromotePostponedExact(s, env, or, s.voteToObject[v]);
      }
      assert StoreValid(p);
      ValidWithRelay(p, RelayPass(p, env).additionalRelay);
    }
  }

  /** The invariant does not look at the relay set. */
  lemma ValidWithRelay(s: Store, relay: set<Hash>)
    requires StoreValid(s)
    ensures StoreValid(s.(additionalRelay := relay))
  {
  }

  // ---------------------------------------------------------------------
  // Selection: the best superblock, approved proposals, the sync inventory
  // ---------------------------------------------------------------------

  /** A trigger GetBestSuperblockInternal weighs: its object is held and it pays at exactly that height. */
  predicate Candidate(s: Store, h: Hash, height: int)
  {
    h in s.triggers && h in s.objects && s.triggers[h].blockHeight == height
  }

  function Yes(s: Store, h: Hash, or: Oracles): int
    requires h in s.objects
  {
    or.yesCount(s.objects[h])
  }

  /** The running maximum of the selection loop over ks, starting from count and best. */
  function BestOver(s: Store, ks: seq<Hash>, height: int, or: Oracles, count: int, best: Option<Hash>): (int, Option<Hash>)
    decreases |ks|
  {
    if ks == [] then (count, best)
    else if Candidate(s, ks[0], height) && Yes(s, ks[0], or) > count then
      BestOver(s, ks[1..], height, or, Yes(s, ks[0], or), Some(ks[0]))
    else BestOver(s, ks[1..], height, or, count, best)
  }

  /**
   * Over ascending keys the running maximum bounds every candidate's count,
   * and either nothing beat the starting count or the winner is a candidate
   * with that count that beats every earlier candidate strictly.
   */
  lemma {:induction false} BestOverMax(s: Store, ks: seq<Hash>, height: int, or: Oracles, count: int, best: Option<Hash>)
    requires StrictlySorted(ks, NatLess)
    ensures var r := BestOver(s, ks, height, or, count, best);
            && r.0 >= count
            && (forall h: Hash :: h in ks && Candidate(s, h, height) ==> Yes(s, h, or) <= r.0)
            && (|| (r.0 == count && r.1 == best)
                || (&& r.1.Some? && r.1.value in ks && Candidate(s, r.1.value, height) && Yes(s, r.1.value, or) == r.0 && r.0 > count
                    && forall h: Hash :: h in ks && Candidate(s, h, height) && h < r.1.value ==> Yes(s, h, or) < r.0))
    decreases |ks|
  {
    if ks != [] {
      var tail := ks[1..];
      assert StrictlySorted(tail, NatLess) by {
        forall i, j | 0 <= i < j < |tail| ensures NatLess(tail[i], tail[j]) {
          assert tail[i] == ks[i + 1] && tail[j] == ks[j + 1];
        }
      }
      assert forall h: Hash :: h in ks <==> h == ks[0] || h in tail;
      assert forall h :: h in tail ==> ks[0] < h by {
        forall h | h in tail ensures ks[0] < h {
          var j :| 0 <= j < |tail| && tail[j] == h;
          assert NatLess(ks[0], ks[j + 1]);
        }
      }
      if Candidate(s, ks[0], height) && Yes(s, ks[0], or) > count {
        BestOverMax(s, tail, height, or, Yes(s, ks[0], or), Some(ks[0]));
      } else {
        BestOverMax(s, tail, height, or, count, best);
      }
    }
  }

  /** GetBestSuperblockInternal: whether some trigger wins at height, and which. */
  ghost function BestSuperblock(s: Store, height: int, or: Oracles): (bool, Option<Hash>)
  {
    if !or.validBlockHeight(height) then (false, None)
    else
      NatOrder();
      var r := BestOver(s, SortedSeq(s.triggers.Keys, NatLess), height, or, 0, None);
      (r.0 > 0, r.1)
  }

  /**
   * There is a best superblock exactly when the height is valid and some
   * candidate has a positive count; the winner has the largest count, and
   * under the strict comparison every candidate iterated before it (a
   * smaller hash) has a strictly smaller one.
   */
  lemma BestSuperblockCorrect(s: Store, height: int, or: Oracles)
    ensures var (found, best) := BestSuperblock(s, height, or);
            && (found <==> or.validBlockHeight(height) && exists h: Hash :: Candidate(s, h, height) && Yes(s, h, or) > 0)
            && (!found ==> best == None)
            && (found ==> && best.Some? && Candidate(s, best.value, height)
                          && (forall h: Hash :: Candidate(s, h, height) ==> Yes(s, h, or) <= Yes(s, best.value, or))
                          && (forall h: Hash :: Candidate(s, h, height) && h < best.value ==> Yes(s, h, or) < Yes(s, best.value, or)))
  {
    if or.validBlockHeight(height) {
      NatOrder();
      var ks := SortedSeq(s.triggers.Keys, NatLess);
      BestOverMax(s, ks, height, or, 0, None);
      assert forall h: Hash :: Candidate(s, h, height) ==> h in ks;
    }
  }

  /** nAbsVoteReq: the larger of the minimum quorum and a tenth of the weighted masternode count, rounded down. */
  function Threshold(minQuorum: int, weightedCount: nat): (t: int)
    ensures t >= minQuorum && t >= weightedCount / 10
    ensures t == minQuorum || t == weightedCount / 10
  {
    if minQuorum > weightedCount / 10 then minQuorum else weightedCount / 10
  }

  /** A proposal whose yes count reaches the threshold. */
  predicate Passing(o: GovObject, threshold: int, or: Oracles)
  {
    o.objectType == Proposal && or.yesCount(o) >= threshold
  }

  /** The order of the sorted result: more yes votes first, and among equal counts the larger UintToArith256 first. */
  function ProposalOrder(or: Oracles): (GovObject, GovObject) -> bool
  {
    (a: GovObject, b: GovObject) =>
      or.yesCount(a) > or.yesCount(b) || (or.yesCount(a) == or.yesCount(b) && Arith(a.hash) >= Arith(b.hash))
  }

  lemma ProposalOrderTotal(or: Oracles)
    ensures TotalPreorder(ProposalOrder(or))
  {
  }

  /** The held hashes whose objects pass. */
  function PassingKey(s: Store, threshold: int, or: Oracles): Hash -> bool
  {
    h => h in s.objects && Passing(s.objects[h], threshold, or)
  }

  /** The objects held under the keys ks. */
  function ObjectsAt(s: Store, ks: seq<Hash>): (r: seq<GovObject>)
    requires forall h: Hash :: h in ks ==> h in s.objects
    ensures |r| == |ks| && forall i :: 0 <= i < |ks| ==> r[i] == s.objects[ks[i]]
    decreases |ks|
  {
    if ks == [] then [] else ObjectsAt(s, ks[..|ks| - 1]) + [s.objects[ks[|ks| - 1]]]
  }

  /** The collecting loop of GetApprovedProposals after visiting ks: the passing objects met so far. */
  function PassingIn(s: Store, ks: seq<Hash>, threshold: int, or: Oracles): seq<GovObject>
    decreases |ks|
  {
    if ks == [] then []
    else
      var init := PassingIn(s, ks[..|ks| - 1], threshold, or);
      var h := ks[|ks| - 1];
      if h in s.objects && Passing(s.objects[h], threshold, or) then init + [s.objects[h]] else init
  }

  lemma PassingInStep(s: Store, ks: seq<Hash>, i: nat, threshold: int, or: Oracles)
    requires i < |ks|
    ensures ks[i] in s.objects && Passing(s.objects[ks[i]], threshold, or) ==>
              PassingIn(s, ks[..i + 1], threshold, or) == PassingIn(s, ks[..i], threshold, or) + [s.objects[ks[i]]]
    ensures !(ks[i] in s.objects && Passing(s.objects[ks[i]], threshold, or)) ==>
              PassingIn(s, ks[..i + 1], threshold, or) == PassingIn(s, ks[..i], threshold, or)
  {
    assert ks[..i + 1][..i] == ks[..i];
  }

  /** The loop collects the objects of the passing keys of ks, in the order of ks. */
  lemma {:induction false} PassingInFiltered(s: Store, ks: seq<Hash>, threshold: int, or: Oracles)
    requires forall h :: h in ks ==> h in s.objects
    ensures PassingIn(s, ks, threshold, or) == ObjectsAt(s, Filter(ks, PassingKey(s, threshold, or)))
    decreases |ks|
  {
    if ks != [] {
      var init := ks[..|ks| - 1];
      assert forall h :: h in init ==> h in ks;
      PassingInFiltered(s, init, threshold, or);
      var f := Filter(init, PassingKey(s, threshold, or));
      var h := ks[|ks| - 1];
      if Passing(s.objects[h], threshold, or) {
        assert (f + [h])[..|f|] == f;
      }
    }
  }

  /** The passing proposals in map order, as the collecting loop of GetApprovedProposals finds them. */
  ghost function PassingProposals(s: Store, threshold: int, or: Oracles): seq<GovObject>
  {
    NatOrder();
    ObjectsAt(s, Filter(SortedSeq(s.objects.Keys, NatLess), PassingKey(s, threshold, or)))
  }

  /** Every held passing proposal is collected. */
  lemma PassingIncluded(s: Store, threshold: int, or: Oracles, h: Hash)
    requires h in s.objects && Passing(s.objects[h], threshold, or)
    ensures s.objects[h] in PassingProposals(s, threshold, or)
  {
    NatOrder();
    var f := Filter(SortedSeq(s.objects.Keys, NatLess), PassingKey(s, threshold, or));
    var i :| 0 <= i < |f| && f[i] == h;
    assert PassingProposals(s, threshold, or)[i] == s.objects[h];
  }

  /** Only held passing proposals are collected. */
  lemma PassingOnly(s: Store, threshold: int, or: Oracles, o: GovObject)
    requires o in PassingProposals(s, threshold, or)
    ensures Passing(o, threshold, or) && exists h :: h in s.objects && s.objects[h] == o
  {
    NatOrder();
    var f := Filter(SortedSeq(s.objects.Keys, NatLess), PassingKey(s, threshold, or));
    var ps := PassingProposals(s, threshold, or);
    var i :| 0 <= i < |ps| && ps[i] == o;
    assert f[i] in f;
  }

  /** The collected proposals are exactly the passing ones, each held object once. */
  lemma PassingProposalsExact(s: Store, threshold: int, or: Oracles)
    ensures var ps := PassingProposals(s, threshold, or);
            && (forall h :: h in s.objects && Passing(s.objects[h], threshold, or) ==> s.objects[h] in ps)
            && (forall o :: o in ps ==> Passing(o, threshold, or) && exists h :: h in s.objects && s.objects[h] == o)
            && |ps| == |Where(s.objects.Keys, PassingKey(s, threshold, or))|
  {
    forall h | h in s.objects && Passing(s.objects[h], threshold, or)
      ensures s.objects[h] in PassingProposals(s, threshold, or)
    {
      PassingIncluded(s, threshold, or, h);
    }
    forall o | o in PassingProposals(s, threshold, or)
      ensures Passing(o, threshold, or) && exists h :: h in s.objects && s.objects[h] == o
    {
      PassingOnly(s, threshold, or, o);
    }
    NatOrder();
    SortedFilter(s.objects.Keys, NatLess, PassingKey(s, threshold, or));
  }

  /** A held object that is neither marked for deletion nor expired: SyncObjects offers it. */
  predicate Live(o: GovObject)
  {
    !o.cachedDelete && !o.expired
  }

  function LiveKey(s: Store): Hash -> bool
  {
    h => h in s.objects && Live(s.objects[h])
  }

  function ObjectInvs(ks: seq<Hash>): (r: seq<Inv>)
    ensures |r| == |ks| && forall i :: 0 <= i < |ks| ==> r[i] == Inv(ObjectInv, ks[i])
    decreases |ks|
  {
    if ks == [] then [] else ObjectInvs(ks[..|ks| - 1]) + [Inv(ObjectInv, ks[|ks| - 1])]
  }

  /** The inventory loop of SyncObjects after visiting ks. */
  function LiveIn(s: Store, ks: seq<Hash>): seq<Inv>
    decreases |ks|
  {
    if ks == [] then []
    else
      var init := LiveIn(s, ks[..|ks| - 1]);
      var h := ks[|ks| - 1];
      if h in s.objects && Live(s.objects[h]) then init + [Inv(ObjectInv, h)] else init
  }

  lemma LiveInStep(s: Store, ks: seq<Hash>, i: nat)
    requires i < |ks|
    ensures ks[i] in s.objects && Live(s.objects[ks[i]]) ==> LiveIn(s, ks[..i + 1]) == LiveIn(s, ks[..i]) + [Inv(ObjectInv, ks[i])]
    ensures !(ks[i] in s.objects && Live(s.objects[ks[i]])) ==> LiveIn(s, ks[..i + 1]) == LiveIn(s, ks[..i])
  {
    assert ks[..i + 1][..i] == ks[..i];
  }

  /** The loop lists the live keys of ks, in the order of ks. */
  lemma {:induction false} LiveInFiltered(s: Store, ks: seq<Hash>)
    ensures LiveIn(s, ks) == ObjectInvs(Filter(ks, LiveKey(s)))
    decreases |ks|
  {
    if ks != [] {
      var init := ks[..|ks| - 1];
      LiveInFiltered(s, init);
      var f := Filter(init, LiveKey(s));
      var h := ks[|ks| - 1];
      if h in s.objects && Live(s.objects[h]) {
        assert (f + [h])[..|f|] == f;
      }
    }
  }

  /** The inventory of SyncObjects: the live objects in map order. */
  ghost function SyncInventory(s: Store): seq<Inv>
  {
    NatOrder();
    ObjectInvs(Filter(SortedSeq(s.objects.Keys, NatLess), LiveKey(s)))
  }

  /** SyncObjects' reply: nothing before sync, ban score 20 to a peer that already asked, else the inventory. */
  ghost function SyncReply(s: Store, env: Env, alreadyAsked: bool): MessageResult
  {
    if !env.synced then NO_RESULT
    else if alreadyAsked then MessageResult(Some(MISBEHAVING_SCORE), [], None)
    else MessageResult(None, SyncInventory(s), None)
  }

  /** Every live held object is in the inventory, and the inventory holds nothing else. */
  lemma SyncInventoryMembers(s: Store, i: Inv)
    ensures i in SyncInventory(s) <==> i.kind == ObjectInv && i.hash in s.objects && Live(s.objects[i.hash])
  {
    NatOrder();
    var ks := Filter(SortedSeq(s.objects.Keys, NatLess), LiveKey(s));
    var inv := SyncInventory(s);
    if i in inv {
      var k :| 0 <= k < |inv| && inv[k] == i;
      assert ks[k] in ks;
    }
    if i.kind == ObjectInv && i.hash in s.objects && Live(s.objects[i.hash]) {
      var k :| 0 <= k < |ks| && ks[k] == i.hash;
      assert inv[k] == i;
    }
  }

  /** The inventory lists each live object once, in ascending hash order, and nothing else. */
  lemma SyncInventoryExact(s: Store)
    ensures var inv := SyncInventory(s);
            && (forall i: Inv :: i in inv <==> i.kind == ObjectInv && i.hash in s.objects && Live(s.objects[i.hash]))
            && (forall i, j :: 0 <= i < j < |inv| ==> inv[i].hash < inv[j].hash)
  {
    forall i: Inv ensures i in SyncInventory(s) <==> i.kind == ObjectInv && i.hash in s.objects && Live(s.objects[i.hash]) {
      SyncInventoryMembers(s, i);
    }
    NatOrder();
    var ks := Filter(SortedSeq(s.objects.Keys, NatLess), LiveKey(s));
    FilterSorted(SortedSeq(s.objects.Keys, NatLess), NatLess, LiveKey(s));
    var inv := SyncInventory(s);
    forall i, j | 0 <= i < j < |inv| ensures inv[i].hash < inv[j].hash {
      assert NatLess(ks[i], ks[j]);
    }
  }

}
