/** The mining pipeline: participant intake, selection, PoW intake and the vote to halt, src/block_pipeline.rs. */
module BlockPipeline {
  import opened Wrappers
  import opened Collections

  type Addr = nat

  datatype WinningPoWInfo = WinningPoWInfo(nonce: nat, miningTxHash: nat)

  type PowEntry = (Addr, WinningPoWInfo)

  datatype Status = Halted | ParticipantOnlyIntake | AllItemsIntake

  datatype PhaseChange = StartPhasePowIntake | StartPhaseHalted | Reset

  datatype Item =
    | MiningParticipant(addr: Addr, status: Status)
    | CompleteParticipant
    | WinningPoW(addr: Addr, info: WinningPoWInfo)
    | CompleteMining
    | ResetPipeline

  datatype Extra = Extra(proposerId: nat, sufficientMajority: nat, unanimousMajority: nat, partitionFullSize: nat)

  /** The numbers the unicorn yields for its two usages in the pipeline. */
  datatype Prn = Prn(participation: nat, winning: nat)

  /* ---- The shuffle ---- */

  function Swap<T>(s: seq<T>, i: nat, j: nat): (r: seq<T>)
    requires i < |s| && j < |s|
    ensures |r| == |s| && r[i] == s[j] && r[j] == s[i]
    ensures forall k :: 0 <= k < |s| && k != i && k != j ==> r[k] == s[k]
  {
    s[i := s[j]][j := s[i]]
  }

  /** The place the number picks among those from i on. */
  function Pick(n: nat, prn: nat, i: nat): (k: nat)
    requires i < n
    ensures i <= k < n
  {
    i + prn % (n - i)
  }

  /** From position i on, swap each position with the one the number picks at or after it. */
  function Shuffle<T>(s: seq<T>, prn: nat, i: nat): seq<T>
    requires i <= |s|
    decreases |s| - i
  {
    if i == |s| then s else Shuffle(Swap(s, i, Pick(|s|, prn, i)), prn, i + 1)
  }

  lemma SwapPermutes<T>(s: seq<T>, i: nat, j: nat)
    requires i < |s| && j < |s|
    ensures multiset(Swap(s, i, j)) == multiset(s)
  {
  }

  /** The shuffle is a permutation that leaves the positions before its start alone. */
  lemma {:induction false} ShufflePermutes<T>(s: seq<T>, prn: nat, i: nat)
    requires i <= |s|
    ensures var r := Shuffle(s, prn, i);
            |r| == |s| && multiset(r) == multiset(s) && r[..i] == s[..i]
    decreases |s| - i
  {
    if i < |s| {
      var s' := Swap(s, i, Pick(|s|, prn, i));
      SwapPermutes(s, i, Pick(|s|, prn, i));
      ShufflePermutes(s', prn, i + 1);
      var r := Shuffle(s', prn, i + 1);
      assert r[..i] == r[..i + 1][..i] == s'[..i + 1][..i] == s'[..i] == s[..i];
    }
  }

  /** Each position in turn receives the element that the number picks among those still unplaced. */
  lemma ShufflePlaces<T>(s: seq<T>, prn: nat, i: nat)
    requires i < |s|
    ensures |Shuffle(s, prn, i)| == |s|
    ensures Shuffle(s, prn, i)[i] == s[i + prn % (|s| - i)]
  {
    var s' := Swap(s, i, Pick(|s|, prn, i));
    ShufflePermutes(s', prn, i + 1);
    assert Shuffle(s, prn, i)[..i + 1] == s'[..i + 1];
    assert Shuffle(s, prn, i)[i] == Shuffle(s, prn, i)[..i + 1][i];
  }

  /** The items when the first k positions have been filled, one swap after the other. */
  function StageAt<T>(s: seq<T>, prn: nat, k: nat): (r: seq<T>)
    requires k <= |s|
    ensures |r| == |s|
  {
    if k == 0 then s else Swap(StageAt(s, prn, k - 1), k - 1, Pick(|s|, prn, k - 1))
  }

  lemma {:induction false} ShuffleFrom<T>(s: seq<T>, prn: nat, k: nat)
    requires k <= |s|
    ensures Shuffle(s, prn, 0) == Shuffle(StageAt(s, prn, k), prn, k)
    decreases k
  {
    hide Swap, Pick;
    if k > 0 {
      ShuffleFrom(s, prn, k - 1);
    }
  }

  /** Every position ends with the element picked among those unplaced when its turn came. */
  lemma ShuffleStages<T>(s: seq<T>, prn: nat, k: nat)
    requires k < |s|
    ensures |Shuffle(s, prn, 0)| == |s| && Shuffle(s, prn, 0) == StageAt(s, prn, |s|)
    ensures Shuffle(s, prn, 0)[k] == StageAt(s, prn, k)[k + prn % (|s| - k)]
  {
    ShuffleFrom(s, prn, k);
    ShufflePlaces(StageAt(s, prn, k), prn, k);
    ShuffleFrom(s, prn, |s|);
  }

  /* ---- Participants ---- */

  function Keep(s: seq<Addr>, inactive: seq<Addr>): seq<Addr> {
    if s == [] then []
    else Keep(s[..|s| - 1], inactive) + if s[|s| - 1] in inactive then [] else [s[|s| - 1]]
  }

  /** Addresses in the order given, with a set of them for lookup. */
  datatype Participants = Participants(unsorted: seq<Addr>, lookup: set<Addr>) {
    ghost predicate Valid() {
      Distinct(unsorted) && lookup == ToSet(unsorted)
    }

    function Push(k: Addr): Participants {
      if k in lookup then this else Participants(unsorted + [k], lookup + {k})
    }

    function Without(inactive: seq<Addr>): Participants {
      Participants(Keep(unsorted, inactive), set a <- lookup | a !in inactive)
    }

    function Select(prn: nat, size: nat): Participants {
      if |unsorted| <= size then this
      else
        ShufflePermutes(unsorted, prn, 0);
        var chosen := Shuffle(unsorted, prn, 0)[..size];
        Participants(chosen, set a | a in chosen)
    }
  }

  const NO_PARTICIPANTS := Participants([], {})

  lemma PushValid(ps: Participants, k: Addr)
    requires ps.Valid()
    ensures ps.Push(k).Valid() && ps.Push(k).lookup == ps.lookup + {k}
    ensures ps.Push(k).unsorted == ps.unsorted + if k in ps.unsorted then [] else [k]
  {
    if k !in ps.lookup {
      ToSetLast(ps.unsorted + [k]);
    }
  }

  lemma {:induction false} KeepIs(s: seq<Addr>, inactive: seq<Addr>)
    ensures forall a :: a in Keep(s, inactive) <==> a in s && a !in inactive
    ensures Distinct(s) ==> Distinct(Keep(s, inactive))
    decreases |s|
  {
    if s != [] {
      var front := s[..|s| - 1];
      KeepIs(front, inactive);
      assert s == front + [s[|s| - 1]];
      if Distinct(s) {
        assert Distinct(front) && s[|s| - 1] !in front;
      }
    }
  }

  /** Those kept stay in the order given. */
  lemma {:induction false} KeepOrder(s: seq<Addr>, inactive: seq<Addr>, i: nat, j: nat) returns (k: nat, m: nat)
    requires i < j < |Keep(s, inactive)|
    ensures k < m < |s| && s[k] == Keep(s, inactive)[i] && s[m] == Keep(s, inactive)[j]
    decreases |s|
  {
    var n := |s| - 1;
    if j < |Keep(s[..n], inactive)| {
      k, m := KeepOrder(s[..n], inactive, i, j);
    } else {
      m := n;
      KeepIs(s[..n], inactive);
      assert Keep(s[..n], inactive)[i] in Keep(s[..n], inactive);
      k :| k < n && s[..n][k] == Keep(s[..n], inactive)[i];
    }
  }

  lemma WithoutValid(ps: Participants, inactive: seq<Addr>)
    requires ps.Valid()
    ensures ps.Without(inactive).Valid()
    ensures forall a :: a in ps.Without(inactive).lookup <==> a in ps.lookup && a !in inactive
  {
    KeepIs(ps.unsorted, inactive);
  }

  lemma {:induction false} DistinctIffSingle<T>(s: seq<T>)
    ensures Distinct(s) <==> forall x <- s :: multiset(s)[x] == 1
    decreases |s|
  {
    if s != [] {
      var front, last := s[..|s| - 1], s[|s| - 1];
      DistinctIffSingle(front);
      assert s == front + [last];
      assert multiset(s)[last] == multiset(front)[last] + 1;
      if Distinct(s) {
        assert last !in front;
      }
      if forall x <- s :: multiset(s)[x] == 1 {
        assert last in s;
        assert last !in multiset(front);
        assert last !in front;
        forall x | x in front ensures multiset(front)[x] == 1 {
          assert x in s && x != last;
        }
      }
    }
  }

  /** Selection yields the smaller of the partition size and the number of intake miners, all from intake. */
  lemma SelectValid(ps: Participants, prn: nat, size: nat)
    requires ps.Valid()
    ensures var r := ps.Select(prn, size);
            && r.Valid()
            && |r.unsorted| == (if |ps.unsorted| < size then |ps.unsorted| else size)
            && r.lookup <= ps.lookup
  {
    if |ps.unsorted| > size {
      var shuffled := Shuffle(ps.unsorted, prn, 0);
      ShufflePermutes(ps.unsorted, prn, 0);
      DistinctIffSingle(ps.unsorted);
      forall x | x in shuffled ensures x in ps.unsorted {
        assert x in multiset(shuffled);
      }
      DistinctIffSingle(shuffled);
      forall x | x in shuffled[..size] ensures x in ps.lookup {
        assert x in shuffled;
      }
    }
  }

  /** Up to the partition size all are selected as they are; beyond it the number picks each place in turn. */
  lemma SelectPicks(ps: Participants, prn: nat, size: nat, i: nat)
    requires i < |ps.unsorted| && i < size
    ensures var r := ps.Select(prn, size);
            && i < |r.unsorted|
            && (|ps.unsorted| <= size ==> r == ps)
            && (|ps.unsorted| > size ==> r.unsorted[i] == StageAt(ps.unsorted, prn, i)[i + prn % (|ps.unsorted| - i)])
  {
    ShuffleStages(ps.unsorted, prn, i);
  }

  /* ---- Specification of the phase machine ---- */

  datatype State = State(
    intake: map<nat, Participants>,
    mining: map<nat, Participants>,
    lastWinningHashes: set<nat>,
    allWinningPow: seq<PowEntry>,
    winningPow: Option<PowEntry>,
    status: Status,
    timeoutIds: set<nat>,
    resetIds: set<nat>)

  ghost predicate Valid(s: State) {
    (forall p <- s.intake :: s.intake[p].Valid()) && (forall p <- s.mining :: s.mining[p].Valid())
  }

  function At(m: map<nat, Participants>, p: nat): Participants {
    if p in m then m[p] else NO_PARTICIPANTS
  }

  function IntakeStarted(s: State, size: nat, prn: Prn): State {
    State(map[],
          if s.intake == map[] then s.mining else map p | p in s.intake :: s.intake[p].Select(prn.participation, size),
          {}, [], None,
          if s.intake == map[] then ParticipantOnlyIntake else AllItemsIntake,
          {}, {})
  }

  function Halt(s: State, prn: Prn): State {
    var all := s.allWinningPow;
    s.(allWinningPow := [], timeoutIds := {},
       winningPow := if all == [] then None else Some(all[prn.winning % |all|]),
       lastWinningHashes := set w | w in all :: w.1.miningTxHash,
       status := Halted)
  }

  /** The completion vote that counts in a phase. */
  predicate VotesIn(status: Status, item: Item) {
    (status == ParticipantOnlyIntake && item.CompleteParticipant?) || (status == AllItemsIntake && item.CompleteMining?)
  }

  predicate Submits(s: State, item: Item, proposer: nat) {
    s.status == AllItemsIntake && item.WinningPoW? && item.addr in At(s.mining, proposer).lookup
  }

  function Record(s: State, item: Item, proposer: nat): State {
    if item.MiningParticipant? && item.status == s.status && s.status != Halted then
      s.(intake := s.intake[proposer := At(s.intake, proposer).Push(item.addr)])
    else if VotesIn(s.status, item) then s.(timeoutIds := s.timeoutIds + {proposer})
    else if Submits(s, item, proposer) then s.(allWinningPow := s.allWinningPow + [(item.addr, item.info)])
    else if item.ResetPipeline? then s.(resetIds := s.resetIds + {proposer})
    else s
  }

  function Handle(s0: State, item: Item, extra: Extra, prn: Prn): (State, Option<PhaseChange>) {
    var s := Record(s0, item, extra.proposerId);
    if |s.resetIds| >= extra.unanimousMajority then
      (IntakeStarted(s.(intake := map[], mining := map[]), extra.partitionFullSize, prn), Some(Reset))
    else if s.status == ParticipantOnlyIntake && |s.timeoutIds| >= extra.sufficientMajority && |s.intake| >= extra.sufficientMajority then
      (IntakeStarted(s, extra.partitionFullSize, prn), Some(StartPhasePowIntake))
    else if s.status == AllItemsIntake && |s.timeoutIds| >= extra.sufficientMajority && s.allWinningPow != [] then
      (Halt(s, prn), Some(StartPhaseHalted))
    else
      (s, None)
  }

  function Cleaned(m: map<nat, Participants>, inactive: seq<Addr>): map<nat, Participants> {
    map p | p in m :: m[p].Without(inactive)
  }

  /* ---- The code ---- */

  class MiningPipelineInfo {
    var participantsIntake: map<nat, Participants>
    var participantsMining: map<nat, Participants>
    var lastWinningHashes: set<nat>
    var allWinningPow: seq<PowEntry>
    var winningPow: Option<PowEntry>
    var miningPipelineStatus: Status
    var timeoutPeerIds: set<nat>
    var resetPeerIds: set<nat>

    ghost function View(): State
      reads this
    {
      State(participantsIntake, participantsMining, lastWinningHashes, allWinningPow, winningPow,
            miningPipelineStatus, timeoutPeerIds, resetPeerIds)
    }

    constructor ()
      ensures View() == State(map[], map[], {}, [], None, Halted, {}, {})
    {
      participantsIntake, participantsMining, lastWinningHashes, allWinningPow := map[], map[], {}, [];
      winningPow, miningPipelineStatus, timeoutPeerIds, resetPeerIds := None, Halted, {}, {};
    }

    method StartItemsIntake(size: nat, prn: Prn)
      modifies this
      ensures View() == IntakeStarted(old(View()), size, prn)
    {
      if participantsIntake == map[] {
        miningPipelineStatus := ParticipantOnlyIntake;
      } else {
        SelectParticipantsMining(size, prn);
        miningPipelineStatus := AllItemsIntake;
      }
      lastWinningHashes, allWinningPow, winningPow := {}, [], None;
      timeoutPeerIds, resetPeerIds := {}, {};
    }

    method HandleMiningPipelineItem(item: Item, extra: Extra, prn: Prn) returns (change: Option<PhaseChange>)
      modifies this
      ensures (View(), change) == Handle(old(View()), item, extra, prn)
    {
      var status := miningPipelineStatus;
      match (item, status) {
        case (MiningParticipant(addr, ParticipantOnlyIntake), ParticipantOnlyIntake) =>
          AddToParticipants(extra.proposerId, addr);
        case (MiningParticipant(addr, AllItemsIntake), AllItemsIntake) =>
          AddToParticipants(extra.proposerId, addr);
        case (CompleteParticipant, ParticipantOnlyIntake) =>
          timeoutPeerIds := timeoutPeerIds + {extra.proposerId};
        case (WinningPoW(addr, info), AllItemsIntake) =>
          AddToWinningPow(extra.proposerId, (addr, info));
        case (CompleteMining, AllItemsIntake) =>
          timeoutPeerIds := timeoutPeerIds + {extra.proposerId};
        case (ResetPipeline, _) =>
          resetPeerIds := resetPeerIds + {extra.proposerId};
        case _ =>
      }
      assert View() == Record(old(View()), item, extra.proposerId);

      if |resetPeerIds| >= extra.unanimousMajority {
        HandleResetPipeline(extra.partitionFullSize, prn);
        return Some(Reset);
      }
      match status {
        case Halted =>
        case ParticipantOnlyIntake =>
          if |timeoutPeerIds| >= extra.sufficientMajority && |participantsIntake| >= extra.sufficientMajority {
            StartItemsIntake(extra.partitionFullSize, prn);
            return Some(StartPhasePowIntake);
          }
        case AllItemsIntake =>
          if !(|timeoutPeerIds| < extra.sufficientMajority) && allWinningPow != [] {
            StartWinningPowHalted(prn);
            return Some(StartPhaseHalted);
          }
      }
      return None;
    }

    method AddToParticipants(proposerId: nat, participant: Addr)
      modifies this`participantsIntake
      ensures participantsIntake
              == old(participantsIntake)[proposerId := At(old(participantsIntake), proposerId).Push(participant)]
    {
      if proposerId !in participantsIntake {
        participantsIntake := participantsIntake[proposerId := NO_PARTICIPANTS];
      }
      participantsIntake := participantsIntake[proposerId := participantsIntake[proposerId].Push(participant)];
    }

    method AddToWinningPow(proposerId: nat, entry: PowEntry)
      modifies this`allWinningPow
      ensures allWinningPow == old(allWinningPow) + if entry.0 in At(participantsMining, proposerId).lookup then [entry] else []
    {
      var participants := At(participantsMining, proposerId);
      if entry.0 !in participants.lookup {
        return;
      }
      allWinningPow := allWinningPow + [entry];
    }

    method HandleResetPipeline(size: nat, prn: Prn)
      modifies this
      ensures View() == IntakeStarted(old(View()).(intake := map[], mining := map[]), size, prn)
    {
      timeoutPeerIds, resetPeerIds := {}, {};
      participantsIntake, participantsMining := map[], map[];
      StartItemsIntake(size, prn);
    }

    method SelectParticipantsMining(size: nat, prn: Prn)
      modifies this`participantsIntake, this`participantsMining
      ensures participantsIntake == map[]
      ensures participantsMining == map p | p in old(participantsIntake) :: old(participantsIntake)[p].Select(prn.participation, size)
    {
      var participants := participantsIntake;
      participantsIntake := map[];
      var todo := participants.Keys;
      var selected: map<nat, Participants> := map[];
      while todo != {}
        invariant todo <= participants.Keys
        invariant participantsIntake == map[]
        invariant selected == map p | p in participants && p !in todo :: participants[p].Select(prn.participation, size)
      {
        var p :| p in todo;
        var ps := SelectWithUnicorn(participants[p], size, prn);
        selected := selected[p := ps];
        todo := todo - {p};
      }
      participantsMining := selected;
    }

    method StartWinningPowHalted(prn: Prn)
      modifies this
      ensures View() == Halt(old(View()), prn)
    {
      var all := allWinningPow;
      allWinningPow, timeoutPeerIds := [], {};
      if all == [] {
        winningPow := None;
      } else {
        winningPow := Some(all[prn.winning % |all|]);
      }
      lastWinningHashes := set w | w in all :: w.1.miningTxHash;
      miningPipelineStatus := Halted;
    }

    method CleanupParticipantIntake(inactive: seq<Addr>)
      modifies this`participantsIntake
      ensures participantsIntake == Cleaned(old(participantsIntake), inactive)
    {
      participantsIntake := CleanupAll(participantsIntake, inactive);
    }

    method CleanupParticipantsMining(inactive: seq<Addr>)
      modifies this`participantsMining
      ensures participantsMining == Cleaned(old(participantsMining), inactive)
    {
      participantsMining := CleanupAll(participantsMining, inactive);
    }
  }

  method CleanupAll(m: map<nat, Participants>, inactive: seq<Addr>) returns (r: map<nat, Participants>)
    ensures r == Cleaned(m, inactive)
  {
    r := m;
    var todo := m.Keys;
    while todo != {}
      invariant todo <= m.Keys == r.Keys
      invariant forall p <- m :: r[p] == if p in todo then m[p] else m[p].Without(inactive)
    {
      var p :| p in todo;
      r := r[p := r[p].Without(inactive)];
      todo := todo - {p};
    }
  }

  method SelectWithUnicorn(ps: Participants, size: nat, prn: Prn) returns (r: Participants)
    ensures r == ps.Select(prn.participation, size)
  {
    if |ps.unsorted| <= size {
      return ps;
    }
    var items := new Addr[|ps.unsorted|](i requires 0 <= i < |ps.unsorted| => ps.unsorted[i]);
    assert items[..] == ps.unsorted;
    SwapWithUnicorn(prn.participation, items);
    var chosen := items[..size];
    assert chosen == items[..][..size];
    return Participants(chosen, set a | a in chosen);
  }

  /** In place; every index stays in bounds for any number. */
  method SwapWithUnicorn<T>(prn: nat, items: array<T>)
    modifies items
    ensures items[..] == Shuffle(old(items[..]), prn, 0)
    ensures multiset(items[..]) == multiset(old(items[..]))
  {
    for i := 0 to items.Length
      invariant Shuffle(items[..], prn, i) == Shuffle(old(items[..]), prn, 0)
    {
      var selection := i + prn % (items.Length - i);
      ghost var before := items[..];
      items[i], items[selection] := items[selection], items[i];
      assert items[..] == Swap(before, i, selection);
    }
    ShufflePermutes(old(items[..]), prn, 0);
  }

  /* ---- Runs ---- */

  datatype Event =
    | HandleItem(item: Item, extra: Extra, prn: Prn)
    | StartIntake(size: nat, prn: Prn)
    | CleanupIntake(inactive: seq<Addr>)
    | CleanupMining(inactive: seq<Addr>)

  ghost function Step(s: State, e: Event): State {
    match e
    case HandleItem(item, extra, prn) => Handle(s, item, extra, prn).0
    case StartIntake(size, prn) => IntakeStarted(s, size, prn)
    case CleanupIntake(inactive) => s.(intake := Cleaned(s.intake, inactive))
    case CleanupMining(inactive) => s.(mining := Cleaned(s.mining, inactive))
  }

  /** Whether the event opens a new intake phase. */
  ghost predicate StartsPhase(s: State, e: Event) {
    match e
    case HandleItem(item, extra, prn) =>
      var change := Handle(s, item, extra, prn).1;
      change == Some(StartPhasePowIntake) || change == Some(Reset)
    case StartIntake(_, _) => true
    case _ => false
  }

  ghost function StateAt(s: State, events: seq<Event>, k: nat): State
    requires k <= |events|
  {
    if k == 0 then s else Step(StateAt(s, events, k - 1), events[k - 1])
  }

  /** The number of events up to and including the last one that opened a phase. */
  ghost function PhaseStart(s: State, events: seq<Event>, n: nat): (j: nat)
    requires n <= |events|
    ensures j <= n
  {
    if n == 0 then 0
    else if StartsPhase(StateAt(s, events, n - 1), events[n - 1]) then n
    else PhaseStart(s, events, n - 1)
  }

  /** Event k casts the completion vote of `proposer` in the phase it finds. */
  ghost predicate CastsVote(s: State, events: seq<Event>, k: nat, proposer: nat)
    requires k < |events|
  {
    && events[k].HandleItem?
    && events[k].extra.proposerId == proposer
    && VotesIn(StateAt(s, events, k).status, events[k].item)
  }

  ghost predicate CastsReset(events: seq<Event>, k: nat, proposer: nat)
    requires k < |events|
  {
    events[k].HandleItem? && events[k].extra.proposerId == proposer && events[k].item.ResetPipeline?
  }

  /** Event k submits the entry while its address is a selected participant of the proposer. */
  ghost predicate SubmitsEntry(s: State, events: seq<Event>, k: nat, entry: PowEntry)
    requires k < |events|
  {
    && events[k].HandleItem?
    && events[k].item == WinningPoW(entry.0, entry.1)
    && Submits(StateAt(s, events, k), events[k].item, events[k].extra.proposerId)
  }

  ghost predicate Quiet(s: State) {
    Valid(s) && s.timeoutIds == {} && s.resetIds == {} && s.allWinningPow == []
  }

  /** The completion votes held after n events were cast in the current phase. */
  ghost predicate VotesAccounted(s: State, events: seq<Event>, n: nat)
    requires n <= |events|
  {
    forall p <- StateAt(s, events, n).timeoutIds ::
      exists k :: PhaseStart(s, events, n) <= k < n && CastsVote(s, events, k, p)
  }

  ghost predicate ResetsAccounted(s: State, events: seq<Event>, n: nat)
    requires n <= |events|
  {
    forall p <- StateAt(s, events, n).resetIds ::
      exists k :: PhaseStart(s, events, n) <= k < n && CastsReset(events, k, p)
  }

  ghost predicate EntriesAccounted(s: State, events: seq<Event>, n: nat)
    requires n <= |events|
  {
    forall w <- StateAt(s, events, n).allWinningPow ::
      exists k :: PhaseStart(s, events, n) <= k < n && SubmitsEntry(s, events, k, w)
  }

  /** Until it halts, a phase keeps its status. */
  ghost predicate PhaseSteady(s: State, events: seq<Event>, n: nat)
    requires n <= |events|
  {
    StateAt(s, events, n).status != Halted ==>
      forall k :: PhaseStart(s, events, n) <= k <= n ==> StateAt(s, events, k).status == StateAt(s, events, n).status
  }

  ghost predicate Accounted(s: State, events: seq<Event>, n: nat)
    requires n <= |events|
  {
    && Valid(StateAt(s, events, n))
    && VotesAccounted(s, events, n) && ResetsAccounted(s, events, n)
    && EntriesAccounted(s, events, n) && PhaseSteady(s, events, n)
  }

  lemma StepValid(s: State, e: Event)
    requires Valid(s)
    ensures Valid(Step(s, e))
  {
    hide Participants.Push, Participants.Without, Participants.Select;
    match e
    case HandleItem(item, extra, prn) =>
      var r := Record(s, item, extra.proposerId);
      if item.MiningParticipant? {
        PushValid(At(s.intake, extra.proposerId), item.addr);
      }
      assert Valid(r);
      StartValid(r, extra.partitionFullSize, prn);
    case StartIntake(size, prn) =>
      StartValid(s, size, prn);
    case CleanupIntake(inactive) =>
      forall p <- s.intake { WithoutValid(s.intake[p], inactive); }
    case CleanupMining(inactive) =>
      forall p <- s.mining { WithoutValid(s.mining[p], inactive); }
  }

  lemma StartValid(s: State, size: nat, prn: Prn)
    requires Valid(s)
    ensures Valid(IntakeStarted(s, size, prn))
    ensures Valid(IntakeStarted(s.(intake := map[], mining := map[]), size, prn))
  {
    forall p <- s.intake { SelectValid(s.intake[p], prn.participation, size); }
  }

  /** A step that opens no phase only adds the vote or entry of its own event, and keeps the phase or halts. */
  lemma StepWithinPhase(s: State, e: Event)
    requires !StartsPhase(s, e)
    ensures var s' := Step(s, e);
            && (forall p <- s'.timeoutIds :: p in s.timeoutIds || (e.HandleItem? && e.extra.proposerId == p && VotesIn(s.status, e.item)))
            && (forall p <- s'.resetIds :: p in s.resetIds || (e.HandleItem? && e.extra.proposerId == p && e.item.ResetPipeline?))
            && (forall w <- s'.allWinningPow :: w in s.allWinningPow ||
                 (e.HandleItem? && e.item == WinningPoW(w.0, w.1) && Submits(s, e.item, e.extra.proposerId)))
            && (s'.status == s.status || s'.status == Halted)
  {
    hide Handle, Record, IntakeStarted;
    if e.HandleItem? {
      HandleOutcome(s, e.item, e.extra, e.prn);
      RecordAdds(s, e.item, e.extra, e.prn);
    }
  }

  lemma StepOpensPhase(s: State, e: Event)
    requires StartsPhase(s, e)
    ensures var s' := Step(s, e);
            s'.timeoutIds == {} && s'.resetIds == {} && s'.allWinningPow == []
  {
  }

  lemma AccountedStep(s: State, events: seq<Event>, n: nat)
    requires 0 < n <= |events| && !StartsPhase(StateAt(s, events, n - 1), events[n - 1])
    requires VotesAccounted(s, events, n - 1) && ResetsAccounted(s, events, n - 1) && EntriesAccounted(s, events, n - 1)
    ensures VotesAccounted(s, events, n) && ResetsAccounted(s, events, n) && EntriesAccounted(s, events, n)
  {
    hide Step, StartsPhase;
    var m, j := n - 1, PhaseStart(s, events, n);
    var before, now := StateAt(s, events, m), StateAt(s, events, n);
    StepWithinPhase(before, events[m]);
    forall p <- now.timeoutIds ensures exists k :: j <= k < n && CastsVote(s, events, k, p) {
      if p in before.timeoutIds {
        var k :| j <= k < m && CastsVote(s, events, k, p);
      } else {
        assert CastsVote(s, events, m, p);
      }
    }
    forall p <- now.resetIds ensures exists k :: j <= k < n && CastsReset(events, k, p) {
      if p in before.resetIds {
        var k :| j <= k < m && CastsReset(events, k, p);
      } else {
        assert CastsReset(events, m, p);
      }
    }
    forall w <- now.allWinningPow ensures exists k :: j <= k < n && SubmitsEntry(s, events, k, w) {
      if w in before.allWinningPow {
        var k :| j <= k < m && SubmitsEntry(s, events, k, w);
      } else {
        assert SubmitsEntry(s, events, m, w);
      }
    }
  }

  lemma SteadyStep(s: State, events: seq<Event>, n: nat)
    requires 0 < n <= |events| && !StartsPhase(StateAt(s, events, n - 1), events[n - 1])
    requires PhaseSteady(s, events, n - 1)
    ensures PhaseSteady(s, events, n)
  {
    hide Step, StartsPhase;
    StepWithinPhase(StateAt(s, events, n - 1), events[n - 1]);
  }

  lemma PhaseOpened(s: State, events: seq<Event>, n: nat)
    requires 0 < n <= |events| && StartsPhase(StateAt(s, events, n - 1), events[n - 1])
    ensures VotesAccounted(s, events, n) && ResetsAccounted(s, events, n) && EntriesAccounted(s, events, n)
    ensures PhaseSteady(s, events, n)
  {
    hide Step, StartsPhase;
    StepOpensPhase(StateAt(s, events, n - 1), events[n - 1]);
  }

  /** Over every run the votes and entries held were cast in the current phase. */
  lemma {:induction false} RunAccounted(s: State, events: seq<Event>, n: nat)
    requires Quiet(s) && n <= |events|
    ensures Accounted(s, events, n)
    decreases n
  {
    if n > 0 {
      hide Step, StartsPhase, VotesAccounted, ResetsAccounted, EntriesAccounted, PhaseSteady, Valid;
      RunAccounted(s, events, n - 1);
      StepValid(StateAt(s, events, n - 1), events[n - 1]);
      if StartsPhase(StateAt(s, events, n - 1), events[n - 1]) {
        PhaseOpened(s, events, n);
      } else {
        AccountedStep(s, events, n);
        SteadyStep(s, events, n);
      }
    }
  }

  ghost function Voters(s: State, events: seq<Event>, from: nat, to: nat): set<nat>
    requires to <= |events|
  {
    set k | from <= k < to && events[k].HandleItem? && VotesIn(StateAt(s, events, k).status, events[k].item)
      :: events[k].extra.proposerId
  }

  ghost function Resetters(events: seq<Event>, from: nat, to: nat): set<nat>
    requires to <= |events|
  {
    set k | from <= k < to && events[k].HandleItem? && events[k].item.ResetPipeline? :: events[k].extra.proposerId
  }

  /**
   The step that halts the pipeline comes in the PoW phase, after completion votes of a majority of
   distinct proposers cast in that phase; the winner was submitted in that phase by an address that
   was then a selected participant of its proposer.
   */
  lemma HaltedByVotes(s: State, events: seq<Event>, n: nat)
    requires Quiet(s) && n < |events|
    requires StateAt(s, events, n).status != Halted && StateAt(s, events, n + 1).status == Halted
    ensures var j, e, now := PhaseStart(s, events, n), events[n], StateAt(s, events, n + 1);
            && e.HandleItem?
            && (forall k :: j <= k <= n ==> StateAt(s, events, k).status == AllItemsIntake)
            && |Voters(s, events, j, n + 1)| >= e.extra.sufficientMajority
            && now.winningPow.Some?
            && exists k :: j <= k <= n && SubmitsEntry(s, events, k, now.winningPow.value)
  {
    var e := events[n];
    var before, now := StateAt(s, events, n), StateAt(s, events, n + 1);
    RunAccounted(s, events, n);
    StepHalts(before, e);
    var r := Record(before, e.item, e.extra.proposerId);
    VotersCover(s, events, n);
    EntriesCover(s, events, n);
    assert now.winningPow.value in r.allWinningPow;
  }

  lemma StepHalts(s: State, e: Event)
    requires s.status != Halted && Step(s, e).status == Halted
    ensures e.HandleItem? && s.status == AllItemsIntake
    ensures var r := Record(s, e.item, e.extra.proposerId);
            && |r.timeoutIds| >= e.extra.sufficientMajority
            && Step(s, e).winningPow.Some? && Step(s, e).winningPow.value in r.allWinningPow
  {
    var r := Record(s, e.item, e.extra.proposerId);
    assert Step(s, e) == Halt(r, e.prn) && r.allWinningPow != [];
    HaltPicks(r, e.prn);
  }

  /** The votes counted at event n, its own included, are votes of the phase. */
  lemma VotersCover(s: State, events: seq<Event>, n: nat)
    requires n < |events| && VotesAccounted(s, events, n) && events[n].HandleItem?
    ensures var r := Record(StateAt(s, events, n), events[n].item, events[n].extra.proposerId);
            |r.timeoutIds| <= |Voters(s, events, PhaseStart(s, events, n), n + 1)|
  {
    hide StateAt;
    var j, before := PhaseStart(s, events, n), StateAt(s, events, n);
    var r := Record(before, events[n].item, events[n].extra.proposerId);
    forall p <- r.timeoutIds ensures p in Voters(s, events, j, n + 1) {
      if p in before.timeoutIds {
        var k :| j <= k < n && CastsVote(s, events, k, p);
      } else {
        assert CastsVote(s, events, n, p);
      }
    }
    SubsetSize(r.timeoutIds, Voters(s, events, j, n + 1));
  }

  lemma EntriesCover(s: State, events: seq<Event>, n: nat)
    requires n < |events| && EntriesAccounted(s, events, n) && events[n].HandleItem?
    ensures var r := Record(StateAt(s, events, n), events[n].item, events[n].extra.proposerId);
            forall w <- r.allWinningPow :: exists k :: PhaseStart(s, events, n) <= k <= n && SubmitsEntry(s, events, k, w)
  {
    hide StateAt;
    var j, before := PhaseStart(s, events, n), StateAt(s, events, n);
    var r := Record(before, events[n].item, events[n].extra.proposerId);
    forall w <- r.allWinningPow ensures exists k :: j <= k <= n && SubmitsEntry(s, events, k, w) {
      if w in before.allWinningPow {
        var k :| j <= k < n && SubmitsEntry(s, events, k, w);
      } else {
        assert SubmitsEntry(s, events, n, w);
      }
    }
  }

  lemma HaltPicks(s: State, prn: Prn)
    requires s.allWinningPow != []
    ensures Halt(s, prn).winningPow.Some? && Halt(s, prn).winningPow.value in s.allWinningPow
  {
  }

  /**
   A reset takes the votes of all distinct proposers since the phase began, and lands in participant
   intake with no participants, votes or entries.
   */
  lemma ResetLands(s: State, events: seq<Event>, n: nat)
    requires Quiet(s) && n < |events| && events[n].HandleItem?
    requires var e := events[n]; Handle(StateAt(s, events, n), e.item, e.extra, e.prn).1 == Some(Reset)
    ensures var now := StateAt(s, events, n + 1);
            && now.status == ParticipantOnlyIntake
            && now.intake == map[] && now.mining == map[]
            && Quiet(now) && now.winningPow == None
            && |Resetters(events, PhaseStart(s, events, n), n + 1)| >= events[n].extra.unanimousMajority
  {
    var j, e, before := PhaseStart(s, events, n), events[n], StateAt(s, events, n);
    RunAccounted(s, events, n);
    StepValid(before, e);
    var r := Record(before, e.item, e.extra.proposerId);
    forall p <- r.resetIds ensures p in Resetters(events, j, n + 1) {
      if p in before.resetIds {
        var k :| j <= k < n && CastsReset(events, k, p);
      } else {
        assert CastsReset(events, n, p);
      }
    }
    SubsetSize(r.resetIds, Resetters(events, j, n + 1));
  }

  /* ---- What a phase holds, and what ends it ---- */

  /** The entry that the event submits, if it does. */
  function Submitted(s: State, e: Event): seq<PowEntry> {
    if e.HandleItem? && e.item.WinningPoW? && Submits(s, e.item, e.extra.proposerId) then [(e.item.addr, e.item.info)] else []
  }

  /** The entries submitted in the events, in order. */
  ghost function Entries(s: State, events: seq<Event>, from: nat, n: nat): seq<PowEntry>
    requires n <= |events|
    decreases n
  {
    if n <= from then []
    else Entries(s, events, from, n - 1) + Submitted(StateAt(s, events, n - 1), events[n - 1])
  }

  /** Event k brings a participant of the phase it finds. */
  ghost predicate Brings(s: State, events: seq<Event>, k: nat)
    requires k < |events|
  {
    && events[k].HandleItem? && events[k].item.MiningParticipant?
    && events[k].item.status == StateAt(s, events, k).status != Halted
  }

  /** The proposers that brought participants. */
  ghost function Bringers(s: State, events: seq<Event>, from: nat, to: nat): set<nat>
    requires to <= |events|
  {
    set k | from <= k < to && Brings(s, events, k) :: events[k].extra.proposerId
  }

  predicate CleansUp(e: Event, addr: Addr) {
    e.CleanupIntake? && addr in e.inactive
  }

  lemma RecordAdds(s: State, item: Item, extra: Extra, prn: Prn)
    ensures var r := Record(s, item, extra.proposerId);
            && r.status == s.status
            && r.timeoutIds == s.timeoutIds + (if VotesIn(s.status, item) then {extra.proposerId} else {})
            && r.allWinningPow == s.allWinningPow + Submitted(s, HandleItem(item, extra, prn))
            && r.resetIds == s.resetIds + if item.ResetPipeline? then {extra.proposerId} else {}
  {
  }

  lemma HandleOutcome(s: State, item: Item, extra: Extra, prn: Prn)
    ensures var (s', change), r := Handle(s, item, extra, prn), Record(s, item, extra.proposerId);
            && (change == None ==> s' == r)
            && (change == Some(StartPhaseHalted) ==> s' == Halt(r, prn))
            && (change.Some? ==> change.value in {StartPhasePowIntake, StartPhaseHalted, Reset})
  {
    hide Record, Halt, IntakeStarted;
  }

  /** Within a phase a step adds exactly what its event brings, unless it halts the pipeline. */
  lemma StepExact(s: State, e: Event)
    requires !StartsPhase(s, e)
    ensures var s' := Step(s, e);
            && (s'.status != Halted ==>
                  && s'.status == s.status
                  && s'.timeoutIds == s.timeoutIds + (if e.HandleItem? && VotesIn(s.status, e.item) then {e.extra.proposerId} else {})
                  && s'.allWinningPow == s.allWinningPow + Submitted(s, e))
            && s'.resetIds == s.resetIds + (if e.HandleItem? && e.item.ResetPipeline? then {e.extra.proposerId} else {})
  {
    hide Handle, Record, IntakeStarted;
    if e.HandleItem? {
      HandleOutcome(s, e.item, e.extra, e.prn);
      RecordAdds(s, e.item, e.extra, e.prn);
    }
  }

  lemma VotersStep(s: State, events: seq<Event>, from: nat, n: nat)
    requires from <= n < |events|
    ensures var e := events[n];
            && Voters(s, events, from, n + 1)
               == Voters(s, events, from, n) + (if e.HandleItem? && VotesIn(StateAt(s, events, n).status, e.item) then {e.extra.proposerId} else {})
            && Resetters(events, from, n + 1)
               == Resetters(events, from, n) + (if e.HandleItem? && e.item.ResetPipeline? then {e.extra.proposerId} else {})
  {
    hide StateAt;
  }

  lemma NoneYet(s: State, events: seq<Event>, n: nat)
    requires n <= |events|
    ensures Voters(s, events, n, n) == {} && Resetters(events, n, n) == {} && Entries(s, events, n, n) == [] && Bringers(s, events, n, n) == {}
  {
  }

  /** Over every run: the votes and entries held are exactly those cast and submitted in the phase. */
  lemma {:induction false} VotesExact(s: State, events: seq<Event>, n: nat)
    requires Quiet(s) && n <= |events|
    ensures var now, j := StateAt(s, events, n), PhaseStart(s, events, n);
            && (now.status != Halted ==> now.timeoutIds == Voters(s, events, j, n) && now.allWinningPow == Entries(s, events, j, n))
            && now.resetIds == Resetters(events, j, n)
    decreases n
  {
    hide Step, StartsPhase, Voters, Resetters, Submitted;
    if n == 0 {
      NoneYet(s, events, 0);
    } else {
      var before, e := StateAt(s, events, n - 1), events[n - 1];
      if StartsPhase(before, e) {
        StepOpensPhase(before, e);
        NoneYet(s, events, n);
      } else {
        VotesExact(s, events, n - 1);
        StepExact(before, e);
        VotersStep(s, events, PhaseStart(s, events, n - 1), n - 1);
      }
    }
  }

  /** How a step within a phase changes the intake. */
  lemma IntakeStep(s: State, e: Event)
    requires !StartsPhase(s, e)
    ensures var s' := Step(s, e);
            match e
            case HandleItem(item, extra, _) =>
              s'.intake == if item.MiningParticipant? && item.status == s.status != Halted
                           then s.intake[extra.proposerId := At(s.intake, extra.proposerId).Push(item.addr)] else s.intake
            case CleanupIntake(inactive) => s'.intake == Cleaned(s.intake, inactive)
            case _ => s'.intake == s.intake
  {
  }

  lemma IntakeOpened(s: State, e: Event)
    requires StartsPhase(s, e)
    ensures Step(s, e).intake == map[]
  {
  }

  lemma BringersStep(s: State, events: seq<Event>, from: nat, n: nat)
    requires from <= n < |events|
    ensures Bringers(s, events, from, n + 1)
            == Bringers(s, events, from, n) + if Brings(s, events, n) then {events[n].extra.proposerId} else {}
  {
    hide StateAt;
  }

  /** Over every run of a new pipeline: the intake has an entry for exactly the proposers that brought participants in the phase. */
  lemma {:induction false} IntakeProposers(s: State, events: seq<Event>, n: nat)
    requires s.intake == map[] && n <= |events|
    ensures StateAt(s, events, n).intake.Keys == Bringers(s, events, PhaseStart(s, events, n), n)
    decreases n
  {
    hide Step, StartsPhase, Bringers;
    if n == 0 {
      NoneYet(s, events, 0);
    } else {
      var before, e := StateAt(s, events, n - 1), events[n - 1];
      if StartsPhase(before, e) {
        IntakeOpened(before, e);
        NoneYet(s, events, n);
      } else {
        IntakeProposers(s, events, n - 1);
        IntakeStep(before, e);
        BringersStep(s, events, PhaseStart(s, events, n - 1), n - 1);
      }
    }
  }

  /** Event k brings the participant of the proposer. */
  ghost predicate BringsTo(s: State, events: seq<Event>, k: nat, proposer: nat, addr: Addr)
    requires k < |events|
  {
    Brings(s, events, k) && events[k].extra.proposerId == proposer && events[k].item.addr == addr
  }

  lemma PushedLookup(s: State, e: Event, proposer: nat, addr: Addr)
    requires Valid(s) && !StartsPhase(s, e)
    ensures addr in At(Step(s, e).intake, proposer).lookup <==>
              || (e.HandleItem? && e.item.MiningParticipant? && e.item.status == s.status != Halted
                  && e.extra.proposerId == proposer && e.item.addr == addr)
              || (addr in At(s.intake, proposer).lookup && !CleansUp(e, addr))
  {
    hide Step, StartsPhase;
    IntakeStep(s, e);
    if e.CleanupIntake? && proposer in s.intake {
      WithoutValid(s.intake[proposer], e.inactive);
    }
    if e.HandleItem? && e.item.MiningParticipant? && e.item.status == s.status != Halted {
      PushValid(At(s.intake, e.extra.proposerId), e.item.addr);
    }
  }

  /**
   Over every run of a new pipeline: an address is a participant of a proposer in the intake exactly if the
   proposer brought it in the phase and no clean-up named it since.
   */
  lemma {:induction false} IntakeExact(s: State, events: seq<Event>, n: nat, proposer: nat, addr: Addr)
    requires Quiet(s) && s.intake == map[] && n <= |events|
    ensures addr in At(StateAt(s, events, n).intake, proposer).lookup <==>
              exists k :: PhaseStart(s, events, n) <= k < n && BringsTo(s, events, k, proposer, addr)
                          && forall j :: k < j < n ==> !CleansUp(events[j], addr)
    decreases n
  {
    hide Step, StartsPhase, Valid, Accounted, CleansUp;
    if n > 0 {
      var m := n - 1;
      var before, e := StateAt(s, events, m), events[m];
      if StartsPhase(before, e) {
        IntakeOpened(before, e);
      } else {
        IntakeExact(s, events, m, proposer, addr);
        RunAccounted(s, events, m);
        ValidOf(s, events, m);
        PushedLookup(before, e, proposer, addr);
        assert BringsTo(s, events, m, proposer, addr) <==>
                 e.HandleItem? && e.item.MiningParticipant? && e.item.status == before.status != Halted
                 && e.extra.proposerId == proposer && e.item.addr == addr;
      }
    }
  }

  lemma ValidOf(s: State, events: seq<Event>, n: nat)
    requires n <= |events| && Accounted(s, events, n)
    ensures Valid(StateAt(s, events, n))
  {
  }

  /** What event n finds and brings together, in terms of the votes, entries and participants of the phase. */
  lemma RecordedExact(s: State, events: seq<Event>, n: nat)
    requires Quiet(s) && s.intake == map[] && n < |events| && events[n].HandleItem?
    ensures var j, e, before := PhaseStart(s, events, n), events[n], StateAt(s, events, n);
            var r := Record(before, e.item, e.extra.proposerId);
            && r.status == before.status
            && r.resetIds == Resetters(events, j, n + 1)
            && r.intake.Keys == Bringers(s, events, j, n + 1)
            && (before.status != Halted ==> r.timeoutIds == Voters(s, events, j, n + 1) && r.allWinningPow == Entries(s, events, j, n + 1))
  {
    hide StateAt, Voters, Resetters, Bringers, PhaseStart;
    VotesExact(s, events, n);
    IntakeProposers(s, events, n);
    VotersStep(s, events, PhaseStart(s, events, n), n);
    BringersStep(s, events, PhaseStart(s, events, n), n);
  }

  /**
   Over every run of a new pipeline: an event resets the pipeline exactly if with it all distinct proposers,
   as many as unanimity asks for, have voted for that in the phase.
   */
  lemma UnanimousResets(s: State, events: seq<Event>, n: nat)
    requires Quiet(s) && s.intake == map[] && n < |events| && events[n].HandleItem?
    ensures var j, e := PhaseStart(s, events, n), events[n];
            var change := Handle(StateAt(s, events, n), e.item, e.extra, e.prn).1;
            change == Some(Reset) <==> |Resetters(events, j, n + 1)| >= e.extra.unanimousMajority
  {
    hide StateAt, Resetters, PhaseStart;
    RecordedExact(s, events, n);
  }

  /**
   In participant intake, an event that does not reset opens the PoW phase exactly if with it a sufficient
   majority of distinct proposers have voted that the intake is complete and as many have brought participants.
   Then each of these proposers mines with the selection from its intake.
   */
  lemma MajorityOpensPow(s: State, events: seq<Event>, n: nat)
    requires Quiet(s) && s.intake == map[] && n < |events| && events[n].HandleItem?
    requires StateAt(s, events, n).status == ParticipantOnlyIntake
    requires |Resetters(events, PhaseStart(s, events, n), n + 1)| < events[n].extra.unanimousMajority
    ensures var j, e, now := PhaseStart(s, events, n), events[n], StateAt(s, events, n + 1);
            var change := Handle(StateAt(s, events, n), e.item, e.extra, e.prn).1;
            var opens := |Voters(s, events, j, n + 1)| >= e.extra.sufficientMajority && |Bringers(s, events, j, n + 1)| >= e.extra.sufficientMajority;
            && change == (if opens then Some(StartPhasePowIntake) else None)
            && (opens && 0 < e.extra.sufficientMajority ==>
                  && now.status == AllItemsIntake && now.intake == map[]
                  && now.mining.Keys == Bringers(s, events, j, n + 1)
                  && forall p <- now.mining ::
                       var brought := At(Record(StateAt(s, events, n), e.item, e.extra.proposerId).intake, p);
                       now.mining[p] == brought.Select(e.prn.participation, e.extra.partitionFullSize))
            && (!opens ==> now.status == ParticipantOnlyIntake)
  {
    hide Voters, Resetters, Bringers, PhaseStart;
    RecordedExact(s, events, n);
    var e := events[n];
    var r := Record(StateAt(s, events, n), e.item, e.extra.proposerId);
    assert |r.intake| == |r.intake.Keys|;
    assert StateAt(s, events, n + 1) == Step(StateAt(s, events, n), e);
  }

  /**
   In the PoW phase, an event that does not reset halts the pipeline exactly if with it a sufficient majority
   of distinct proposers have voted that mining is complete and an entry has been submitted. The winner is
   the entry, in the order submitted, that the number picks.
   */
  lemma MajorityHalts(s: State, events: seq<Event>, n: nat)
    requires Quiet(s) && s.intake == map[] && n < |events| && events[n].HandleItem?
    requires StateAt(s, events, n).status == AllItemsIntake
    requires |Resetters(events, PhaseStart(s, events, n), n + 1)| < events[n].extra.unanimousMajority
    ensures var j, e, now := PhaseStart(s, events, n), events[n], StateAt(s, events, n + 1);
            var change, entries := Handle(StateAt(s, events, n), e.item, e.extra, e.prn).1, Entries(s, events, j, n + 1);
            var halts := |Voters(s, events, j, n + 1)| >= e.extra.sufficientMajority && entries != [];
            && change == (if halts then Some(StartPhaseHalted) else None)
            && (halts ==>
                  && now.status == Halted
                  && now.winningPow == Some(entries[e.prn.winning % |entries|])
                  && now.lastWinningHashes == set w | w in entries :: w.1.miningTxHash)
            && (!halts ==> now.status == AllItemsIntake)
  {
    hide Voters, Resetters, Bringers, PhaseStart, Entries;
    RecordedExact(s, events, n);
    assert StateAt(s, events, n + 1) == Step(StateAt(s, events, n), events[n]);
  }
}
