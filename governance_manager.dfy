/**
 * CGovernanceManager as an object whose maps the methods update in place.
 * Every method is proved against the internal store semantics of Governance:
 * its new state is the specification function applied to the old state, and
 * what it returns is what that function returns.
 */
module Manager {
  import opened Wrappers
  import opened Ordering
  import opened Governance

  class GovernanceManager {
    var objects: map<Hash, GovObject>            // mapObjects
    var postponed: map<Hash, GovObject>          // mapPostponedObjects
    var erased: map<Hash, int>                   // mapErasedGovernanceObjects
    var requested: map<Hash, int>                // m_requested_hash_time
    var voteToObject: map<Hash, Hash>            // cmapVoteToObject
    var invalidVotes: set<Hash>                  // cmapInvalidVotes
    var orphans: set<OrphanVote>                 // cmmapOrphanVotes
    var triggers: map<Hash, Superblock>          // mapTrigger
    var rateRecords: map<Outpoint, RateRecord>   // mapLastMasternodeObject
    var additionalRelay: set<Hash>               // setAdditionalRelayObjects
    var rateChecksEnabled: bool                  // fRateChecksEnabled

    /** The fields as one store value. */
    function State(): Store
      reads this
    {
      Store(objects, postponed, erased, requested, voteToObject, invalidVotes, orphans, triggers,
            rateRecords, additionalRelay, rateChecksEnabled)
    }

    /** A fresh manager holds nothing and checks rates. */
    constructor ()
      ensures State() == EMPTY_STORE && StoreValid(State())
    {
      objects := map[];
      postponed := map[];
      erased := map[];
      requested := map[];
      voteToObject := map[];
      invalidVotes := {};
      orphans := {};
      triggers := map[];
      rateRecords := map[];
      additionalRelay := {};
      rateChecksEnabled := true;
      EmptyStoreValid();
    }

    // -------------------------------------------------------------------
    // The requested-hash handshake
    // -------------------------------------------------------------------

    method ConfirmInventoryRequest(inv: Inv, env: Env) returns (wanted: bool)
      modifies this
      ensures wanted == WantsInventory(old(State()), inv, env)
      ensures State() == ConfirmRequest(old(State()), inv, env)
    {
      if !env.blockchainSynced {
        return false;
      }
      match inv.kind {
        case ObjectInv =>
          if inv.hash in objects || inv.hash in postponed {
            return false;
          }
        case VoteInv =>
          if inv.hash in voteToObject {
            return false;
          }
        case OtherInv =>
          return false;
      }
      if inv.hash !in requested {
        requested := requested[inv.hash := env.now + RELIABLE_PROPAGATION_TIME];
      }
      return true;
    }

    method AcceptMessage(h: Hash) returns (accepted: bool)
      modifies this
      ensures accepted == (h in old(requested))
      ensures State() == AcceptRequest(old(State()), h)
      ensures !accepted ==> State() == old(State())
    {
      if h !in requested {
        return false;
      }
      requested := requested - {h};
      return true;
    }

    // -------------------------------------------------------------------
    // The rate limiter
    // -------------------------------------------------------------------

    method MasternodeRateCheck(o: GovObject, updateFailStatus: bool, force: bool, env: Env, or: Oracles)
      returns (ok: bool, bypassed: bool)
      modifies this
      ensures ok == RatePasses(RateDecide(old(State()), o, force, env, or))
      ensures bypassed == (RateDecide(old(State()), o, force, env, or) == Bypassed)
      ensures State() == RateCheck(old(State()), o, updateFailStatus, force, env, or)
    {
      if !env.synced || !rateChecksEnabled {
        return true, false;
      }
      if o.objectType != Trigger {
        return true, false;
      }
      if o.creationTime < env.adjustedNow - 2 * env.cycleSeconds {
        return false, false;
      }
      if o.creationTime > env.adjustedNow + MAX_TIME_FUTURE_DEVIATION {
        return false, false;
      }
      if o.masternode !in rateRecords {
        return true, false;
      }
      var record := rateRecords[o.masternode];
      if record.statusOK && !force {
        return true, true;
      }
      if or.rateBelowMax(record.buffer + [o.creationTime]) {
        return true, false;
      }
      if updateFailStatus {
        rateRecords := rateRecords[o.masternode := record.(statusOK := false)];
      }
      return false, false;
    }

    method MasternodeRateUpdate(o: GovObject, env: Env)
      modifies this
      ensures State() == RateUpdate(old(State()), o, env)
    {
      if o.objectType != Trigger {
        return;
      }
      if o.masternode !in rateRecords {
        rateRecords := rateRecords[o.masternode := RateRecord(true, [])];
      }
      var record := rateRecords[o.masternode];
      if o.creationTime > env.now + MAX_TIME_FUTURE_DEVIATION - RELIABLE_PROPAGATION_TIME {
        additionalRelay := additionalRelay + {o.hash};
      }
      rateRecords := rateRecords[o.masternode := RateRecord(true, record.buffer + [o.creationTime])];
    }

    // -------------------------------------------------------------------
    // Votes
    // -------------------------------------------------------------------

    method ProcessVote(vote: Vote, env: Env, or: Oracles) returns (r: VoteResult)
      modifies this
      ensures r == ProcessVoteResult(old(State()), vote, env, or)
      ensures State() == ProcessVoteStore(old(State()), vote, env, or)
    {
      if vote.hash in voteToObject {
        return VoteResult(false, 0, false);
      }
      if vote.hash in invalidVotes {
        return VoteResult(false, MISBEHAVING_SCORE, false);
      }
      if vote.parent !in objects {
        var e := OrphanVote(vote, env.now + GOVERNANCE_ORPHAN_EXPIRATION_TIME);
        var inserted := e !in orphans;
        orphans := orphans + {e};
        return VoteResult(false, 0, inserted);
      }
      var parent := objects[vote.parent];
      if parent.cachedDelete || parent.expired {
        return VoteResult(false, 0, false);
      }
      match or.processVote(parent, vote) {
        case Accepted =>
          voteToObject := voteToObject[vote.hash := vote.parent];
          return VoteResult(true, 0, false);
        case Rejected(p) =>
          return VoteResult(false, p, false);
      }
    }

    /** Replays the orphan votes buffered for o, with rate checks off for the duration. */
    method CheckOrphanVotes(o: GovObject, env: Env, or: Oracles)
      modifies this
      ensures State() == ReplayOrphans(old(State()), o, env, or)
    {
      var pending := set e | e in orphans && e.vote.parent == o.hash;
      var saved := rateChecksEnabled;
      rateChecksEnabled := false;
      while pending != {}
        invariant forall e :: e in orphans <==> e in old(orphans) && (e in pending || !Replayed(o, env, or, e))
        invariant forall e :: e in pending ==> e.vote.parent == o.hash
        invariant State() == old(State()).(orphans := orphans, rateChecksEnabled := false)
        decreases pending
      {
        var e :| e in pending;
        if e.expiry < env.adjustedNow || or.processVote(o, e.vote) == Accepted {
          orphans := orphans - {e};
        }
        pending := pending - {e};
      }
      rateChecksEnabled := saved;
      assert orphans == ReplayOrphans(old(State()), o, env, or).orphans;
    }

    method CleanOrphanObjects(env: Env)
      modifies this
      ensures State() == CleanOrphans(old(State()), env)
    {
      var rest := orphans;
      while rest != {}
        invariant forall e :: e in orphans <==> e in old(orphans) && (e in rest || e.expiry >= env.now)
        invariant State() == old(State()).(orphans := orphans)
        decreases rest
      {
        var e :| e in rest;
        if e.expiry < env.now {
          orphans := orphans - {e};
        }
        rest := rest - {e};
      }
      assert orphans == CleanOrphans(old(State()), env).orphans;
    }

    // -------------------------------------------------------------------
    // Triggers and admission
    // -------------------------------------------------------------------

    method AddNewTrigger(h: Hash, env: Env, or: Oracles) returns (ok: bool)
      modifies this
      ensures (State(), ok) == AddTrigger(old(State()), h, env, or)
    {
      if h in triggers || h !in objects {
        return false;
      }
      match or.superblockHeight(objects[h]) {
        case None =>
          return false;
        case Some(height) =>
          triggers := triggers[h := Superblock(Valid, height)];
          return !or.superblockExpired(height, env.cachedHeight);
      }
    }

    method AddGovernanceObject(o: GovObject, env: Env, or: Oracles)
      modifies this
      ensures State() == AddObject(old(State()), o, env, or)
    {
      if !or.validLocally(o, true) || o.hash in objects {
        return;
      }
      objects := objects[o.hash := o];
      ghost var stored := State();
      var registered := true;
      if o.objectType == Trigger {
        registered := AddNewTrigger(o.hash, env, or);
      }
      assert (State(), registered) == RegisterIfTrigger(stored, o, env, or);
      if !registered {
        objects := objects[o.hash := PrepareDeletion(o, env.now)];
        return;
      }
      MasternodeRateUpdate(o, env);
      CheckOrphanVotes(o, env, or);
    }

    method AddPostponedObject(o: GovObject)
      modifies this
      ensures State() == old(State()).(postponed := Emplace(old(postponed), o.hash, o))
    {
      if o.hash !in postponed {
        postponed := postponed[o.hash := o];
      }
    }

    /** AddInvalidVote: the vote's hash is cached as invalid. */
    method AddInvalidVote(vote: Vote)
      modifies this
      ensures State() == AddInvalid(old(State()), vote)
    {
      invalidVotes := invalidVotes + {vote.hash};
    }

    // -------------------------------------------------------------------
    // ProcessMessage
    // -------------------------------------------------------------------

    /** The MNGOVERNANCEOBJECT branch. */
    method ProcessObjectMessage(o: GovObject, env: Env, or: Oracles) returns (res: MessageResult)
      modifies this
      ensures (State(), res) == ObjectMessage(old(State()), o, env, or)
    {
      res := ObjectReply(o);
      if !env.blockchainSynced {
        return;
      }
      var accepted := AcceptMessage(o.hash);
      if !accepted {
        return;
      }
      if o.hash in objects || o.hash in postponed || o.hash in erased {
        return;
      }
      var ok, bypassed := MasternodeRateCheck(o, true, false, env, or);
      if !ok {
        return;
      }
      var valid := or.validLocally(o, true);
      if bypassed && valid {
        var forcedOk, unused := MasternodeRateCheck(o, true, true, env, or);
        if !forcedOk {
          return;
        }
      }
      if !valid {
        if or.missingConfirmations(o) {
          AddPostponedObject(o);
        } else {
          res := res.(error := Some(MISBEHAVING_SCORE));
        }
        return;
      }
      AddGovernanceObject(o, env, or);
    }

    /** The MNGOVERNANCEOBJECTVOTE branch. */
    method ProcessVoteMessage(vote: Vote, env: Env, or: Oracles) returns (res: MessageResult)
      modifies this
      ensures (State(), res) == VoteMessage(old(State()), vote, env, or)
    {
      res := MessageResult(None, [], Some(Inv(VoteInv, vote.hash)));
      if !env.blockchainSynced {
        return;
      }
      var accepted := AcceptMessage(vote.hash);
      if !accepted {
        return;
      }
      var r := ProcessVote(vote, env, or);
      if !r.ok && r.penalty != 0 && env.synced {
        res := res.(error := Some(r.penalty));
      }
    }

    // -------------------------------------------------------------------
    // CheckAndRemove
    // -------------------------------------------------------------------

    /** Visits the registered hashes in map order and drops invalid and expired triggers. */
    method CleanAndRemoveTriggers(env: Env, or: Oracles)
      modifies this
      ensures State() == SweepTriggers(old(State()), env, or)
    {
      NatOrder();
      var ks := Ascending(triggers.Keys, NatLess);
      CleanTriggers(ks, env, or);
    }

    /** The trigger loop over the keys ks, in the order of ks. */
    method CleanTriggers(ks: seq<Hash>, env: Env, or: Oracles)
      modifies this
      ensures State() == SweepTriggersOver(old(State()), ks, env, or)
    {
      var i := 0;
      while i < |ks|
        invariant 0 <= i <= |ks|
        invariant SweepTriggersOver(State(), ks[i..], env, or) == SweepTriggersOver(old(State()), ks, env, or)
      {
        assert ks[i..][1..] == ks[i + 1..];
        CleanTrigger(ks[i], env, or);
        i := i + 1;
      }
    }

    /** One iteration of CleanAndRemoveTriggers. */
    method CleanTrigger(h: Hash, env: Env, or: Oracles)
      modifies this
      ensures State() == SweepTriggerStep(old(State()), h, env, or)
    {
      if h !in triggers {
        return;
      }
      var superblock := triggers[h];
      if h !in objects || objects[h].objectType != Trigger {
        superblock := superblock.(status := ErrorInvalid);
      }
      var remove := false;
      var expired := false;
      match superblock.status {
        case ErrorInvalid =>
          remove := true;
        case Unknown =>
          remove := true;
        case _ =>
          if or.superblockExpired(superblock.blockHeight, env.cachedHeight) {
            expired := true;
            remove := true;
          }
      }
      if remove {
        if h in objects {
          var o := objects[h];
          if expired {
            o := SetExpired(o);
          }
          objects := objects[h := PrepareDeletion(o, env.now)];
        }
        triggers := triggers - {h};
      }
    }

    /** Removes the vote references to the object h. */
    method DropVoteReferences(h: Hash)
      modifies this
      ensures State() == old(State()).(voteToObject := DropVotesFor(old(voteToObject), h))
    {
      var rest := voteToObject.Keys;
      while rest != {}
        invariant forall v :: v in voteToObject <==> v in old(voteToObject) && (v in rest || old(voteToObject)[v] != h)
        invariant forall v :: v in voteToObject ==> voteToObject[v] == old(voteToObject)[v]
        invariant State() == old(State()).(voteToObject := voteToObject)
        decreases rest
      {
        var v :| v in rest;
        if v in voteToObject && voteToObject[v] == h {
          voteToObject := voteToObject - {v};
        }
        rest := rest - {v};
      }
      assert voteToObject == DropVotesFor(old(voteToObject), h);
    }

    /** The object loop of CheckAndRemove: erase the objects due for removal, mark invalid proposals. */
    method EraseDueObjects(env: Env, or: Oracles)
      modifies this
      ensures State() == SweepObjects(old(State()), env, or)
    {
      NatOrder();
      var ks := Ascending(objects.Keys, NatLess);
      EraseDueAmong(ks, env, or);
    }

    /** The object loop over the keys ks, in the order of ks. */
    method EraseDueAmong(ks: seq<Hash>, env: Env, or: Oracles)
      modifies this
      ensures State() == SweepObjectsOver(old(State()), ks, env, or)
    {
      var i := 0;
      while i < |ks|
        invariant 0 <= i <= |ks|
        invariant SweepObjectsOver(State(), ks[i..], env, or) == SweepObjectsOver(old(State()), ks, env, or)
      {
        assert ks[i..][1..] == ks[i + 1..];
        EraseIfDue(ks[i], env, or);
        i := i + 1;
      }
    }

    /** One iteration of the object loop. */
    method EraseIfDue(h: Hash, env: Env, or: Oracles)
      modifies this
      ensures State() == SweepObjectStep(old(State()), h, env, or)
    {
      if h !in objects {
        return;
      }
      var o := objects[h];
      if DueForRemoval(o, env.now) {
        DropVoteReferences(h);
        if h !in erased {
          erased := erased[h := TombstoneExpiry(o, env.cycleSeconds)];
        }
        objects := objects - {h};
      } else if o.objectType == Proposal && !or.proposalValid(o) {
        objects := objects[h := PrepareDeletion(o, env.now)];
      } else {
        assert objects == objects[h := KeptObject(o, env, or)];
      }
    }

    /** Forget the tombstones whose expiry is past. */
    method ForgetErased(now: int)
      modifies this
      ensures State() == old(State()).(erased := ForgetExpired(old(erased), now))
    {
      var rest := erased.Keys;
      while rest != {}
        invariant forall h :: h in erased <==> h in old(erased) && (h in rest || old(erased)[h] >= now)
        invariant forall h :: h in erased ==> erased[h] == old(erased)[h]
        invariant State() == old(State()).(erased := erased)
        decreases rest
      {
        var h :| h in rest;
        if h in erased && erased[h] < now {
          erased := erased - {h};
        }
        rest := rest - {h};
      }
      assert erased == ForgetExpired(old(erased), now);
    }

    /** Forget the requests whose deadline is past. */
    method ForgetRequests(now: int)
      modifies this
      ensures State() == old(State()).(requested := ForgetExpired(old(requested), now))
    {
      var rest := requested.Keys;
      while rest != {}
        invariant forall h :: h in requested <==> h in old(requested) && (h in rest || old(requested)[h] >= now)
        invariant forall h :: h in requested ==> requested[h] == old(requested)[h]
        invariant State() == old(State()).(requested := requested)
        decreases rest
      {
        var h :| h in rest;
        if h in requested && requested[h] < now {
          requested := requested - {h};
        }
        rest := rest - {h};
      }
      assert requested == ForgetExpired(old(requested), now);
    }

    method CheckAndRemove(env: Env, or: Oracles)
      modifies this
      ensures State() == GarbageCollected(old(State()), env, or)
    {
      if !env.blockchainSynced {
        return;
      }
      var saved := rateChecksEnabled;
      rateChecksEnabled := false;
      CleanAndRemoveTriggers(env, or);
      EraseDueObjects(env, or);
      ForgetErased(env.now);
      ForgetRequests(env.now);
      rateChecksEnabled := saved;
    }

    // -------------------------------------------------------------------
    // CheckPostponedObjects
    // -------------------------------------------------------------------

    method CheckPostponedObjects(env: Env, or: Oracles) returns (relayed: set<Hash>)
      modifies this
      ensures State() == CheckPostponed(old(State()), env, or)
      ensures relayed == if env.synced then RelayedNow(PromotePostponed(old(State()), env, or), env) else {}
    {
      if !env.synced {
        return {};
      }
      PromotePostponedObjects(env, or);
      relayed := PerformAdditionalRelays(env);
    }

    /** The postponed loop, in map order. */
    method PromotePostponedObjects(env: Env, or: Oracles)
      modifies this
      ensures State() == PromotePostponed(old(State()), env, or)
    {
      NatOrder();
      var ks := Ascending(postponed.Keys, NatLess);
      PromoteAmong(ks, env, or);
    }

    /** The postponed loop over the keys ks, in the order of ks. */
    method PromoteAmong(ks: seq<Hash>, env: Env, or: Oracles)
      modifies this
      ensures State() == PromoteOver(old(State()), ks, env, or)
    {
      var i := 0;
      while i < |ks|
        invariant 0 <= i <= |ks|
        invariant PromoteOver(State(), ks[i..], env, or) == PromoteOver(old(State()), ks, env, or)
      {
        assert ks[i..][1..] == ks[i + 1..];
        PromoteOne(ks[i], env, or);
        i := i + 1;
      }
    }

    /** One iteration of the postponed loop. */
    method PromoteOne(h: Hash, env: Env, or: Oracles)
      modifies this
      ensures State() == PromoteStep(old(State()), h, env, or)
    {
      if h !in postponed {
        return;
      }
      var o := postponed[h];
      if or.collateralValid(o) {
        if or.validLocally(o, false) {
          AddGovernanceObject(o, env, or);
        }
      } else if or.missingConfirmations(o) {
        return;
      }
      postponed := postponed - {h};
    }

    /** The relay loop: relay what is ready, keep what is pending, drop the rest. */
    method PerformAdditionalRelays(env: Env) returns (relayed: set<Hash>)
      modifies this
      ensures State() == RelayPass(old(State()), env)
      ensures relayed == RelayedNow(old(State()), env)
    {
      var rest := additionalRelay;
      relayed := {};
      while rest != {}
        invariant rest <= old(additionalRelay)
        invariant forall h :: h in additionalRelay <==>
                    h in old(additionalRelay) && (h in rest || (h in objects && RelayPending(objects[h], env)))
        invariant forall h :: h in relayed <==>
                    h in old(additionalRelay) && h !in rest && h in objects && RelayReady(objects[h], env)
        invariant State() == old(State()).(additionalRelay := additionalRelay)
        decreases rest
      {
        var h :| h in rest;
        var keep := false;
        if h in objects {
          var timestamp := objects[h].creationTime;
          var valid := timestamp <= env.adjustedNow + MAX_TIME_FUTURE_DEVIATION
                       && timestamp >= env.adjustedNow - 2 * env.cycleSeconds;
          var ready := timestamp <= env.adjustedNow + MAX_TIME_FUTURE_DEVIATION - RELIABLE_PROPAGATION_TIME;
          if valid {
            if ready {
              relayed := relayed + {h};
            } else {
              keep := true;
            }
          }
        }
        if !keep {
          additionalRelay := additionalRelay - {h};
        }
        rest := rest - {h};
      }
      assert additionalRelay == RelayPass(old(State()), env).additionalRelay;
    }

    // -------------------------------------------------------------------
    // Selection and sync
    // -------------------------------------------------------------------

    method GetBestSuperblock(height: int, or: Oracles) returns (found: bool, best: Option<Hash>)
      ensures (found, best) == BestSuperblock(State(), height, or)
    {
      if !or.validBlockHeight(height) {
        return false, None;
      }
      NatOrder();
      var ks := Ascending(triggers.Keys, NatLess);
      var count;
      count, best := BestAmong(ks, height, or);
      found := count > 0;
    }

    /** The selection loop over the registered keys ks: the largest yes count and its first holder. */
    method BestAmong(ks: seq<Hash>, height: int, or: Oracles) returns (count: int, best: Option<Hash>)
      ensures (count, best) == BestOver(State(), ks, height, or, 0, None)
    {
      count := 0;
      best := None;
      var i := 0;
      while i < |ks|
        invariant 0 <= i <= |ks|
        invariant BestOver(State(), ks[i..], height, or, count, best) == BestOver(State(), ks, height, or, 0, None)
      {
        assert ks[i..][1..] == ks[i + 1..];
        var h := ks[i];
        if h in triggers && triggers[h].blockHeight == height && h in objects {
          var yes := or.yesCount(objects[h]);
          if yes > count {
            count := yes;
            best := Some(h);
          }
        }
        i := i + 1;
      }
    }

    method GetApprovedProposals(minQuorum: int, weightedCount: nat, or: Oracles) returns (ps: seq<GovObject>)
      ensures SortedBy(ps, ProposalOrder(or))
      ensures multiset(ps) == multiset(PassingProposals(State(), Threshold(minQuorum, weightedCount), or))
    {
      var found := CollectPassing(Threshold(minQuorum, weightedCount), or);
      var a := new GovObject[|found|](j requires 0 <= j < |found| => found[j]);
      assert a[..] == found;
      ProposalOrderTotal(or);
      InsertionSort(a, ProposalOrder(or));
      ps := a[..];
    }

    /** The collecting loop of GetApprovedProposals: the passing proposals in map order. */
    method CollectPassing(threshold: int, or: Oracles) returns (found: seq<GovObject>)
      ensures found == PassingProposals(State(), threshold, or)
    {
      NatOrder();
      var ks := Ascending(objects.Keys, NatLess);
      found := CollectPassingOver(ks, threshold, or);
      PassingInFiltered(State(), ks, threshold, or);
    }

    /** The collecting loop over the held keys ks, in the order of ks. */
    method CollectPassingOver(ks: seq<Hash>, threshold: int, or: Oracles) returns (found: seq<GovObject>)
      requires forall h :: h in ks ==> h in objects
      ensures found == PassingIn(State(), ks, threshold, or)
    {
      found := [];
      var i := 0;
      while i < |ks|
        invariant 0 <= i <= |ks|
        invariant found == PassingIn(State(), ks[..i], threshold, or)
      {
        PassingInStep(State(), ks, i, threshold, or);
        var o := objects[ks[i]];
        if Passing(o, threshold, or) {
          found := found + [o];
        }
        i := i + 1;
      }
      assert ks[..|ks|] == ks;
    }

    method SyncObjects(env: Env, alreadyAsked: bool) returns (res: MessageResult)
      ensures res == SyncReply(State(), env, alreadyAsked)
    {
      if !env.synced {
        return NO_RESULT;
      }
      if alreadyAsked {
        return MessageResult(Some(MISBEHAVING_SCORE), [], None);
      }
      ghost var st := State();
      NatOrder();
      var ks := Ascending(objects.Keys, NatLess);
      var inventory: seq<Inv> := [];
      var i := 0;
      while i < |ks|
        invariant 0 <= i <= |ks|
        invariant inventory == LiveIn(st, ks[..i])
      {
        LiveInStep(st, ks, i);
        var o := objects[ks[i]];
        if !o.cachedDelete && !o.expired {
          inventory := inventory + [Inv(ObjectInv, ks[i])];
        }
        i := i + 1;
      }
      assert ks[..|ks|] == ks;
      LiveInFiltered(st, ks);
      return MessageResult(None, inventory, None);
    }
  }
}
