/** The votes of the compute nodes for coordinated commands, src/compute_raft.rs, and the command that is taken. */
module CoordinatedVotes {
  import opened Wrappers
  import opened MachineIntegers
  import opened Collections
  import opened VoteTally

  datatype Command = PauseNodes(bNum: U64) | ResumeNodes | ApplySharedConfig

  /** The order of the commands: by variant, pauses by their block number. */
  function Rank(c: Command): nat {
    match c
    case PauseNodes(bNum) => bNum
    case ResumeNodes => U64_SIZE
    case ApplySharedConfig => U64_SIZE + 1
  }

  /** The rank keeps the order: pauses by their block, then resuming, then applying the shared configuration. */
  lemma RankOrdered(c: Command, d: Command)
    ensures Rank(c) == Rank(d) <==> c == d
    ensures c.PauseNodes? && d.PauseNodes? ==> (Rank(c) < Rank(d) <==> c.bNum < d.bNum)
    ensures c.PauseNodes? && !d.PauseNodes? ==> Rank(c) < Rank(d)
    ensures c.ResumeNodes? && d.ApplySharedConfig? ==> Rank(c) < Rank(d)
  {
  }

  /** All nodes decide; a decision opens the next round of the same votes. */
  function CommandRules(unanimous: nat): Rules<Command> {
    Rules(Rank, (c: Command) => 0, n => unanimous)
  }

  const NO_VOTES: Ballot<Command, ()> := Ballot(0, map[])

  function VoteEvent(cmd: Command, proposerId: nat): Event<Command, ()> {
    Event(Vote(cmd, proposerId, ()), true)
  }

  lemma RulesGood(unanimous: nat)
    requires 0 < unanimous
    ensures GoodRules(CommandRules(unanimous))
  {
  }

  /** The greatest command that has a vote at all. */
  ghost predicate IsGreatest(t: Tally<Command, ()>, k: nat) {
    k in t && t[k].votes != map[] && forall j <- t | t[j].votes != map[] :: j <= k
  }

  class CoordinatedVotes {
    const unanimousMajority: nat
    var storedInfo: Tally<Command, ()>

    ghost function Rule(): Rules<Command> {
      CommandRules(unanimousMajority)
    }

    ghost function View(): Ballot<Command, ()>
      reads this
    {
      Ballot(0, storedInfo)
    }

    ghost predicate Valid()
      reads this
    {
      0 < unanimousMajority && BallotValid(Rule(), View())
    }

    constructor (peersLen: nat)
      requires 0 < peersLen
      ensures Valid() && storedInfo == map[] && unanimousMajority == peersLen
    {
      unanimousMajority, storedInfo := peersLen, map[];
    }

    method HasReady() returns (ready: bool)
      requires 0 < unanimousMajority
      ensures ready <==> !AllBelow(storedInfo, unanimousMajority)
    {
      var max := MaxAgreeing(storedInfo);
      ReadyMeans(storedInfo, max, unanimousMajority);
      ready := max >= unanimousMajority;
    }

    /** The running maximum stays 0: each command that has a vote replaces the one before it. */
    method TakeReady() returns (cmd: Command)
      modifies this
      ensures storedInfo == map[]
      ensures forall k :: IsGreatest(old(storedInfo), k) ==> cmd == old(storedInfo)[k].info
    {
      hide Ascending;
      var infos := storedInfo;
      storedInfo := map[];
      cmd := ResumeNodes;
      var currentMaxVote := 0;
      var ks := Ascending(infos.Keys);
      for i := 0 to |ks|
        invariant currentMaxVote == 0 && storedInfo == map[]
        invariant forall m :: 0 <= m < i && infos[ks[m]].votes != map[] && (forall j :: m < j < i ==> infos[ks[j]].votes == map[]) ==>
                    cmd == infos[ks[m]].info
      {
        if currentMaxVote < |infos[ks[i]].votes| {
          cmd := infos[ks[i]].info;
        }
      }
      forall k | IsGreatest(infos, k) ensures cmd == infos[k].info {
        assert k in ks;
        var m :| 0 <= m < |ks| && ks[m] == k;
        assert forall j :: m < j < |ks| ==> ks[m] < ks[j] && ks[j] in infos;
      }
    }

    /** A committed vote; when it is the last one needed, the greatest command with a vote is taken. */
    method VoteCommitted(cmd: Command, proposerId: nat) returns (taken: Option<Command>)
      requires Valid()
      modifies this
      ensures Valid()
      ensures var (next, decided) := Step(Rule(), old(View()), VoteEvent(cmd, proposerId));
              && View() == next
              && (taken.Some? <==> decided.Some?)
      ensures var t := Voted(old(storedInfo), Rank(cmd), cmd, proposerId, ());
              taken.Some? ==> forall k :: IsGreatest(t, k) ==> taken.value == t[k].info
    {
      hide BallotValid, AllBelow, Voted, IsWinner, IsGreatest;
      RulesGood(unanimousMajority);
      VoteOutcome(Rule(), View(), VoteEvent(cmd, proposerId));
      storedInfo := Voted(storedInfo, Rank(cmd), cmd, proposerId, ());
      taken := None;
      var ready := HasReady();
      if ready {
        var command := TakeReady();
        taken := Some(command);
      }
    }
  }

  /* ---- Which command is taken ---- */

  lemma VotedKeeps(t: Tally<Command, ()>, v: Command, proposer: nat, k: nat)
    ensures var t' := Voted(t, Rank(v), v, proposer, ());
            && (Rank(v) in t' && t'[Rank(v)].votes != map[])
            && (k != Rank(v) ==> (k in t' <==> k in t) && (k in t ==> t'[k] == t[k]))
  {
    var t' := Voted(t, Rank(v), v, proposer, ());
    assert proposer in t'[Rank(v)].votes;
  }

  /** A command holds votes exactly if someone voted for it since the last decision. */
  lemma HasVotes(unanimous: nat, events: seq<Event<Command, ()>>, n: nat, c: Command)
    requires 0 < unanimous && AllStay(events) && n <= |events|
    ensures var r, b := CommandRules(unanimous), NO_VOTES;
            var t, start := BallotAt(r, b, events, n).tally, PeriodStart(r, b, events, n);
            (Rank(c) in t && t[Rank(c)].votes != map[]) <==> exists i :: start <= i < n && events[i].vote.v == c
  {
    hide BallotAt, PeriodStart;
    var r, b := CommandRules(unanimous), NO_VOTES;
    RulesGood(unanimous);
    BallotRound(unanimous, events, n);
    HeldVotes(r, b, events, n, c);
    var t, start := BallotAt(r, b, events, n).tally, PeriodStart(r, b, events, n);
    var supporters := Supporters(events, start, n, c);
    if i :| start <= i < n && events[i].vote.v == c {
      assert events[i].vote.proposer in supporters;
      assert Held(r, t, c) != {};
    }
    if Rank(c) in t && t[Rank(c)].votes != map[] {
      var p :| p in t[Rank(c)].votes;
      assert p in supporters;
    }
  }

  ghost predicate AllStay(events: seq<Event<Command, ()>>) {
    forall i :: 0 <= i < |events| ==> events[i].stay
  }

  lemma {:induction false} BallotRound(unanimous: nat, events: seq<Event<Command, ()>>, n: nat)
    requires AllStay(events) && n <= |events|
    ensures BallotAt(CommandRules(unanimous), NO_VOTES, events, n).round == 0
    decreases n
  {
    if n > 0 {
      BallotRound(unanimous, events, n - 1);
    }
  }

  lemma {:induction false} GreatestExists(t: Tally<Command, ()>, k: nat)
    requires k in t && t[k].votes != map[]
    ensures exists g: nat :: IsGreatest(t, g)
    decreases |set j <- t | k < j|
  {
    if j :| j in t && t[j].votes != map[] && k < j {
      var above, less := set i <- t | k < i, set i <- t | j < i;
      SubsetSize(less, above);
      assert j in above && j !in less;
      GreatestExists(t, j);
    } else {
      assert IsGreatest(t, k);
    }
  }

  /**
   Over every run: when a vote decides, a command is taken; it is the one decided, that all nodes voted
   for, if and only if no greater command got a vote since the last decision.
   */
  lemma TakenIsDecided(unanimous: nat, events: seq<Event<Command, ()>>, n: nat)
    requires 0 < unanimous && AllStay(events) && n < |events|
    requires DecidedAt(CommandRules(unanimous), NO_VOTES, events, n).Some?
    ensures var r, b := CommandRules(unanimous), NO_VOTES;
            var v := events[n].vote.v;
            var t := Voted(BallotAt(r, b, events, n).tally, Rank(v), v, events[n].vote.proposer, ());
            && DecidedAt(r, b, events, n) == Some(v)
            && (exists k: nat :: IsGreatest(t, k))
            && forall k: nat :: IsGreatest(t, k) ==>
                 (t[k].info == v <==> forall i :: PeriodStart(r, b, events, n) <= i < n ==> Rank(events[i].vote.v) <= Rank(v))
  {
    hide BallotAt, PeriodStart, Voted;
    var r, b := CommandRules(unanimous), NO_VOTES;
    var before, v, p := BallotAt(r, b, events, n).tally, events[n].vote.v, events[n].vote.proposer;
    var start, t := PeriodStart(r, b, events, n), Voted(before, Rank(v), v, p, ());
    RulesGood(unanimous);
    DecidedByThreshold(r, b, events, n);
    RunValid(r, b, events, n);
    VotedKeyed(unanimous, before, v, p);
    VotedKeeps(before, v, p, 0);
    GreatestExists(t, Rank(v));
    forall k: nat | IsGreatest(t, k)
      ensures t[k].info == v <==> forall i :: start <= i < n ==> Rank(events[i].vote.v) <= Rank(v)
    {
      forall i | start <= i < n && Rank(v) < Rank(events[i].vote.v) ensures Rank(v) < k {
        HasVotes(unanimous, events, n, events[i].vote.v);
        VotedKeeps(before, v, p, Rank(events[i].vote.v));
      }
      if k != Rank(v) {
        VotedKeeps(before, v, p, k);
        HasVotes(unanimous, events, n, t[k].info);
      }
    }
  }

  lemma VotedKeyed(unanimous: nat, t: Tally<Command, ()>, v: Command, proposer: nat)
    requires Keyed(t, CommandRules(unanimous).digest)
    ensures forall k <- Voted(t, Rank(v), v, proposer, ()) :: Rank(Voted(t, Rank(v), v, proposer, ())[k].info) == k
    ensures Voted(t, Rank(v), v, proposer, ())[Rank(v)].info == v
  {
    RulesGood(1);
  }

  /** A single vote for a greater command is enough for it to be taken instead of the unanimous one. */
  lemma WrongCommandTaken()
    ensures var r, b := CommandRules(2), NO_VOTES;
            var events := [VoteEvent(ApplySharedConfig, 1), VoteEvent(ResumeNodes, 1), VoteEvent(ResumeNodes, 2)];
            var t := Voted(BallotAt(r, b, events, 2).tally, Rank(ResumeNodes), ResumeNodes, 2, ());
            && DecidedAt(r, b, events, 2) == Some(ResumeNodes)
            && IsGreatest(t, Rank(ApplySharedConfig)) && t[Rank(ApplySharedConfig)].info == ApplySharedConfig
  {
    var r, b := CommandRules(2), NO_VOTES;
    var events := [VoteEvent(ApplySharedConfig, 1), VoteEvent(ResumeNodes, 1), VoteEvent(ResumeNodes, 2)];
    var apply, resume := Rank(ApplySharedConfig), Rank(ResumeNodes);
    var t1: Tally<Command, ()> := map[apply := Bucket(ApplySharedConfig, map[1 := ()])];
    var t2 := t1[resume := Bucket(ResumeNodes, map[1 := ()])];
    assert |map[1 := ()]| == 1 && |map[1 := (), 2 := ()]| == 2;
    assert BallotAt(r, b, events, 0) == b;
    assert Step(r, b, events[0]) == (Ballot(0, t1), None);
    assert BallotAt(r, b, events, 1) == Ballot(0, t1);
    assert Step(r, Ballot(0, t1), events[1]) == (Ballot(0, t2), None);
    assert BallotAt(r, b, events, 2) == Ballot(0, t2);
    var t := Voted(t2, resume, ResumeNodes, 2, ());
    assert t[resume].votes == map[1 := (), 2 := ()];
    assert t[apply] == t1[apply];
  }
}
