/** The votes of the compute nodes for the stored block, and of the storage nodes for the block parts. */
module BlockVotes {
  import opened Wrappers
  import opened Ledger
  import opened VoteTally

  /* ---- Compute: src/compute_raft.rs ---- */

  /** What is voted for: the first block's transactions, or a stored block; contents by number. */
  datatype Accumulating =
    | FirstBlock(txs: nat)
    | Block(blockNum: nat, content: nat, shutdown: bool)

  /** Round 0 is the first block; round n + 1 is the vote on block n. */
  function ComputeRound(a: Accumulating): nat {
    if a.FirstBlock? then 0 else a.blockNum + 1
  }

  function ComputeRules(digest: Accumulating -> nat, unanimous: nat, sufficient: nat): Rules<Accumulating> {
    Rules(digest, ComputeRound, n => if n == 0 then unanimous else sufficient)
  }

  lemma ComputeRulesGood(digest: Accumulating -> nat, peersLen: nat)
    requires Injective(digest) && 0 < peersLen
    ensures GoodRules(ComputeRules(digest, peersLen, peersLen / 2 + 1))
  {
  }

  /**
   Over every run of a group of nodes, from before the first block on: a vote for a first block decides
   exactly if no block number is set and, with it, all nodes agree; one for a stored block exactly if its
   number is due and, with it, more than half of them do.
   */
  lemma ComputeDecides(digest: Accumulating -> nat, peersLen: nat, round: nat, events: seq<Event<Accumulating, ()>>, n: nat)
    requires Injective(digest) && 0 < peersLen && n < |events|
    ensures var r, b := ComputeRules(digest, peersLen, peersLen / 2 + 1), Ballot(round, map[]);
            var v, supporters := events[n].vote.v, Supporters(events, PeriodStart(r, b, events, n), n + 1, events[n].vote.v);
            && (v.FirstBlock? ==>
                  (DecidedAt(r, b, events, n).Some? <==> BallotAt(r, b, events, n).round == 0 && |supporters| >= peersLen))
            && (v.Block? ==>
                  (DecidedAt(r, b, events, n).Some? <==> BallotAt(r, b, events, n).round == v.blockNum + 1 && 2 * |supporters| > peersLen))
  {
    hide GoodRules, BallotAt, DecidedAt, Supporters, PeriodStart;
    var r, b := ComputeRules(digest, peersLen, peersLen / 2 + 1), Ballot(round, map[]);
    ComputeRulesGood(digest, peersLen);
    DecidesExactly(r, b, events, n);
  }

  class ComputeVotes {
    const digest: Accumulating -> nat
    const unanimousMajority: nat
    const sufficientMajority: nat
    var currentBlockNum: Option<nat>
    var specialHandling: Option<SpecialHandling>
    var currentBlockStoredInfo: Tally<Accumulating, ()>

    ghost function Rule(): Rules<Accumulating> {
      ComputeRules(digest, unanimousMajority, sufficientMajority)
    }

    ghost function View(): Ballot<Accumulating, ()>
      reads this
    {
      Ballot(if currentBlockNum.Some? then currentBlockNum.value + 1 else 0, currentBlockStoredInfo)
    }

    ghost predicate Valid()
      reads this
    {
      GoodRules(Rule()) && BallotValid(Rule(), View())
    }

    /** With majorities of a raft group of `peersLen` nodes. */
    constructor (digest: Accumulating -> nat, peersLen: nat, blockNum: Option<nat>, special: Option<SpecialHandling>)
      requires Injective(digest) && 0 < peersLen
      ensures Valid() && currentBlockNum == blockNum && specialHandling == special && currentBlockStoredInfo == map[]
      ensures this.digest == digest && unanimousMajority == peersLen && sufficientMajority == peersLen / 2 + 1
    {
      this.digest := digest;
      unanimousMajority, sufficientMajority := peersLen, peersLen / 2 + 1;
      currentBlockNum, specialHandling, currentBlockStoredInfo := blockNum, special, map[];
    }

    method HasBlockStoredInfoReady() returns (ready: bool)
      requires GoodRules(Rule())
      ensures ready <==> !AllBelow(currentBlockStoredInfo, Rule().threshold(View().round))
    {
      var threshold := if currentBlockNum.None? then unanimousMajority else sufficientMajority;
      assert 0 < threshold == Rule().threshold(View().round) by {
        assert 0 < Rule().threshold(View().round);
      }
      var max := MaxAgreeing(currentBlockStoredInfo);
      ReadyMeans(currentBlockStoredInfo, max, threshold);
      ready := max >= threshold;
    }

    /** A shutdown block leaves the number where it is, unless the node just restarted from one. */
    ghost predicate Stays(block: Accumulating)
      reads this
    {
      specialHandling.None? && block.Block? && block.shutdown
    }

    ghost function EventOf(block: Accumulating, proposerId: nat): Event<Accumulating, ()>
      reads this
    {
      Event(Vote(block, proposerId, ()), Stays(block))
    }

    ghost function SpecialAfter(applied: Option<Accumulating>): Option<SpecialHandling>
      reads this
    {
      if applied.Some? && applied.value.Block? then (if Stays(applied.value) then Some(Shutdown) else None) else specialHandling
    }

    /** A committed vote; when it decides, its own content is what is applied. */
    method VoteCommitted(block: Accumulating, proposerId: nat) returns (applied: Option<Accumulating>)
      requires Valid()
      modifies this
      ensures Valid()
      ensures (View(), applied) == Step(Rule(), old(View()), old(EventOf(block, proposerId)))
      ensures specialHandling == old(SpecialAfter(applied))
      ensures applied.None? ==> currentBlockNum == old(currentBlockNum) && specialHandling == old(specialHandling)
      ensures applied.Some? && applied.value.FirstBlock? ==> currentBlockNum == Some(0) && specialHandling == old(specialHandling)
      ensures applied.Some? && applied.value.Block? && old(specialHandling).None? && applied.value.shutdown ==>
                currentBlockNum == old(currentBlockNum) && specialHandling == Some(Shutdown)
      ensures applied.Some? && applied.value.Block? && !(old(specialHandling).None? && applied.value.shutdown) ==>
                currentBlockNum == Some(applied.value.blockNum + 1) && specialHandling == None
    {
      match block {
        case FirstBlock(_) =>
          if currentBlockNum.Some? {
            return None;
          }
        case Block(blockNum, _, _) =>
          if currentBlockNum != Some(blockNum) {
            return None;
          }
      }
      applied := CountVote(block, proposerId);
    }

    method CountVote(block: Accumulating, proposerId: nat) returns (applied: Option<Accumulating>)
      requires Valid() && ComputeRound(block) == View().round
      modifies this
      ensures Valid()
      ensures (View(), applied) == Step(Rule(), old(View()), old(EventOf(block, proposerId)))
      ensures specialHandling == old(SpecialAfter(applied))
      ensures applied.None? ==> currentBlockNum == old(currentBlockNum) && specialHandling == old(specialHandling)
      ensures applied.Some? && applied.value.FirstBlock? ==> currentBlockNum == Some(0) && specialHandling == old(specialHandling)
      ensures applied.Some? && applied.value.Block? && old(specialHandling).None? && applied.value.shutdown ==>
                currentBlockNum == old(currentBlockNum) && specialHandling == Some(Shutdown)
      ensures applied.Some? && applied.value.Block? && !(old(specialHandling).None? && applied.value.shutdown) ==>
                currentBlockNum == Some(applied.value.blockNum + 1) && specialHandling == None
    {
      hide GoodRules, BallotValid, AllBelow, IsWinner, Voted;
      ghost var r, b, e := Rule(), View(), EventOf(block, proposerId);
      VoteOutcome(r, b, e);
      var key := digest(block);
      currentBlockStoredInfo := Voted(currentBlockStoredInfo, key, block, proposerId, ());
      ghost var t := currentBlockStoredInfo;
      var ready := HasBlockStoredInfoReady();
      assert ready <==> !(|t[key].votes| < r.threshold(b.round));
      if ready {
        ghost var winner;
        applied, winner := TakeReadyBlockStoredInfo();
        assert winner == key && applied == Some(block);
        ApplyReady(applied.value);
        assert View() == Ballot(if e.stay then b.round else b.round + 1, map[]);
        assert Step(r, b, e) == (View(), applied);
      } else {
        applied := None;
        assert Step(r, b, e) == (View(), None);
      }
    }

    method TakeReadyBlockStoredInfo() returns (info: Option<Accumulating>, ghost winner: nat)
      requires currentBlockStoredInfo != map[]
      modifies this`currentBlockStoredInfo
      ensures currentBlockStoredInfo == map[]
      ensures IsWinner(old(currentBlockStoredInfo), winner)
      ensures info == Some(old(currentBlockStoredInfo)[winner].info)
    {
      var infos := currentBlockStoredInfo;
      currentBlockStoredInfo := map[];
      var k := TakeMax(infos);
      winner := k;
      info := Some(infos[k].info);
    }

    method ApplyReady(info: Accumulating)
      modifies this`currentBlockNum, this`specialHandling
      ensures info.FirstBlock? ==> currentBlockNum == Some(0) && specialHandling == old(specialHandling)
      ensures info.Block? && old(specialHandling).None? && info.shutdown ==>
                currentBlockNum == old(currentBlockNum) && specialHandling == Some(Shutdown)
      ensures info.Block? && !(old(specialHandling).None? && info.shutdown) ==>
                currentBlockNum == Some(info.blockNum + 1) && specialHandling == None
    {
      match info {
        case FirstBlock(_) =>
          currentBlockNum := Some(0);
        case Block(blockNum, _, shutdown) =>
          if specialHandling.None? && shutdown {
            specialHandling := Some(Shutdown);
            return;
          }
          specialHandling := None;
          currentBlockNum := Some(blockNum + 1);
      }
    }
  }

  /* ---- Storage: src/storage_raft.rs ---- */

  datatype CommonBlockInfo = CommonBlockInfo(bNum: nat, content: nat)

  datatype CompleteBlock = CompleteBlock(common: CommonBlockInfo, shutdown: bool)

  function StorageRules(digest: CommonBlockInfo -> nat, sufficient: nat): Rules<CommonBlockInfo> {
    Rules(digest, (c: CommonBlockInfo) => c.bNum, n => sufficient)
  }

  predicate AllShutdown(perNode: map<nat, bool>) {
    forall p <- perNode :: perNode[p]
  }

  lemma StorageRulesGood(digest: CommonBlockInfo -> nat, peersLen: nat)
    requires Injective(digest)
    ensures GoodRules(StorageRules(digest, peersLen / 2 + 1))
  {
  }

  /**
   Over every run: a part completes a block exactly if its number is due and, with it, more than half of the
   nodes have sent that part since the last block; then it is a shutdown exactly if each of them last said so.
   */
  lemma StorageDecides(digest: CommonBlockInfo -> nat, peersLen: nat, bNum: nat, events: seq<Event<CommonBlockInfo, bool>>, n: nat)
    requires Injective(digest) && n < |events|
    ensures var r, b := StorageRules(digest, peersLen / 2 + 1), Ballot(bNum, map[]);
            var before, vote, start := BallotAt(r, b, events, n), events[n].vote, PeriodStart(r, b, events, n);
            var supporters := Supporters(events, start, n + 1, vote.v);
            && (DecidedAt(r, b, events, n).Some? <==> before.round == vote.v.bNum && 2 * |supporters| > peersLen)
            && (before.round == vote.v.bNum ==>
                  (AllShutdown(Voted(before.tally, digest(vote.v), vote.v, vote.proposer, vote.w)[digest(vote.v)].votes)
                   <==> forall p <- supporters :: LastSaid(events, start, n + 1, vote.v, p) == Some(true)))
  {
    hide GoodRules, BallotAt, DecidedAt, Supporters, PeriodStart, Voted;
    var r, b := StorageRules(digest, peersLen / 2 + 1), Ballot(bNum, map[]);
    StorageRulesGood(digest, peersLen);
    DecidesExactly(r, b, events, n);
    var before, vote, start := BallotAt(r, b, events, n), events[n].vote, PeriodStart(r, b, events, n);
    if before.round == vote.v.bNum {
      PartsAgree(r, b, events, n);
    }
  }

  lemma PartsAgree(r: Rules<CommonBlockInfo>, b: Ballot<CommonBlockInfo, bool>, events: seq<Event<CommonBlockInfo, bool>>, n: nat)
    requires GoodRules(r) && BallotValid(r, b) && b.tally == map[] && n < |events|
    requires r.roundOf(events[n].vote.v) == BallotAt(r, b, events, n).round
    ensures var before, vote, start := BallotAt(r, b, events, n), events[n].vote, PeriodStart(r, b, events, n);
            var supporters := Supporters(events, start, n + 1, vote.v);
            AllShutdown(Voted(before.tally, r.digest(vote.v), vote.v, vote.proposer, vote.w)[r.digest(vote.v)].votes)
            <==> forall p <- supporters :: LastSaid(events, start, n + 1, vote.v, p) == Some(true)
  {
    hide GoodRules, BallotAt, Supporters, PeriodStart, Voted, BallotValid;
    var before, vote, start := BallotAt(r, b, events, n), events[n].vote, PeriodStart(r, b, events, n);
    HeldVotes(r, b, events, n, vote.v);
    SupportersStep(events, start, n, vote.v);
    VotedWords(r, before.tally, vote);
    var votes := Voted(before.tally, r.digest(vote.v), vote.v, vote.proposer, vote.w)[r.digest(vote.v)].votes;
    assert votes.Keys == Supporters(events, start, n + 1, vote.v);
    forall p <- votes ensures LastSaid(events, start, n + 1, vote.v, p) == Some(votes[p]) {
      HeldWords(r, b, events, n, vote.v, p);
    }
  }

  lemma VotedWords(r: Rules<CommonBlockInfo>, t: Tally<CommonBlockInfo, bool>, vote: Vote<CommonBlockInfo, bool>)
    ensures r.digest(vote.v) in Voted(t, r.digest(vote.v), vote.v, vote.proposer, vote.w)
    ensures var votes := Voted(t, r.digest(vote.v), vote.v, vote.proposer, vote.w)[r.digest(vote.v)].votes;
            && votes.Keys == Held(r, t, vote.v) + {vote.proposer}
            && votes[vote.proposer] == vote.w
            && forall p <- votes | p != vote.proposer :: SaidIn(r, t, vote.v, p) == Some(votes[p])
  {
  }

  class StorageConsensused {
    const digest: CommonBlockInfo -> nat
    const sufficientMajority: nat
    var currentBlockNum: nat
    var completedParts: Tally<CommonBlockInfo, bool>

    ghost function Rule(): Rules<CommonBlockInfo> {
      StorageRules(digest, sufficientMajority)
    }

    ghost function View(): Ballot<CommonBlockInfo, bool>
      reads this
    {
      Ballot(currentBlockNum, completedParts)
    }

    ghost predicate Valid()
      reads this
    {
      GoodRules(Rule()) && BallotValid(Rule(), View())
    }

    constructor (digest: CommonBlockInfo -> nat, peersLen: nat, blockNum: nat)
      requires Injective(digest)
      ensures Valid() && View() == Ballot(blockNum, map[])
      ensures this.digest == digest && sufficientMajority == peersLen / 2 + 1
    {
      this.digest := digest;
      sufficientMajority := peersLen / 2 + 1;
      currentBlockNum, completedParts := blockNum, map[];
    }

    method HasBlockReadyToStore() returns (ready: bool)
      requires GoodRules(Rule())
      ensures ready <==> !AllBelow(completedParts, sufficientMajority)
    {
      assert 0 < Rule().threshold(0);
      var max := MaxAgreeing(completedParts);
      ReadyMeans(completedParts, max, sufficientMajority);
      ready := max >= sufficientMajority;
    }

    method GenerateCompleteBlock() returns (block: CompleteBlock, ghost winner: nat)
      requires completedParts != map[]
      modifies this
      ensures View() == Ballot(old(currentBlockNum) + 1, map[])
      ensures IsWinner(old(completedParts), winner)
      ensures block == CompleteBlock(old(completedParts)[winner].info, AllShutdown(old(completedParts)[winner].votes))
    {
      currentBlockNum := currentBlockNum + 1;
      var parts := completedParts;
      completedParts := map[];
      var k := TakeMax(parts);
      winner := k;
      block := CompleteBlock(parts[k].info, AllShutdown(parts[k].votes));
    }

    /** A committed part: ignored unless for the current block; the majority completes the block. */
    method PartBlockCommitted(common: CommonBlockInfo, shutdown: bool, proposerId: nat) returns (complete: Option<CompleteBlock>)
      requires Valid()
      modifies this
      ensures Valid()
      ensures var (next, decided) := Step(Rule(), old(View()), Event(Vote(common, proposerId, shutdown), false));
              && View() == next
              && (complete.Some? <==> decided.Some?)
              && (complete.Some? ==>
                    && complete.value.common == common
                    && common.bNum == old(currentBlockNum) && currentBlockNum == common.bNum + 1
                    && complete.value.shutdown
                       == AllShutdown(Voted(old(completedParts), digest(common), common, proposerId, shutdown)[digest(common)].votes))
    {
      hide GoodRules, BallotValid, IsWinner;
      VoteOutcome(Rule(), View(), Event(Vote(common, proposerId, shutdown), false));
      if common.bNum == currentBlockNum {
        completedParts := Voted(completedParts, digest(common), common, proposerId, shutdown);
      }
      complete := None;
      var ready := HasBlockReadyToStore();
      if ready {
        var block, _ := GenerateCompleteBlock();
        complete := Some(block);
      }
    }
  }
}
