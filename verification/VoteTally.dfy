/**
 Votes gathered per content digest until one bucket reaches a threshold: the counting that
 src/compute_raft.rs and src/storage_raft.rs share.
 */
module VoteTally {
  import opened Wrappers
  import opened Collections

  /** What was voted for, and what each proposer said along with the vote. */
  datatype Bucket<V, W> = Bucket(info: V, votes: map<nat, W>)

  /** Buckets under the digest of their content, in digest order. */
  type Tally<V, W> = map<nat, Bucket<V, W>>

  ghost predicate Injective<V(!new)>(digest: V -> nat) {
    forall v, v' :: digest(v) == digest(v') ==> v == v'
  }

  function Voted<V, W>(t: Tally<V, W>, key: nat, v: V, proposer: nat, w: W): Tally<V, W> {
    var bucket := if key in t then t[key] else Bucket(v, map[]);
    t[key := bucket.(votes := bucket.votes[proposer := w])]
  }

  ghost predicate Keyed<V, W>(t: Tally<V, W>, digest: V -> nat) {
    forall k <- t :: digest(t[k].info) == k
  }

  ghost predicate AllBelow<V, W>(t: Tally<V, W>, threshold: nat) {
    forall k <- t :: |t[k].votes| < threshold
  }

  ghost predicate Beats<V, W>(t: Tally<V, W>, k: nat, j: nat) {
    && k in t && j in t
    && (|t[j].votes| < |t[k].votes| || (|t[j].votes| == |t[k].votes| && j <= k))
  }

  /** The last key, in order, among those with the most votes. */
  ghost predicate IsWinner<V, W>(t: Tally<V, W>, k: nat) {
    k in t && forall j <- t :: Beats(t, k, j)
  }

  method MaxAgreeing<V, W>(t: Tally<V, W>) returns (n: nat)
    ensures forall k <- t :: |t[k].votes| <= n
    ensures t == map[] ==> n == 0
    ensures t != map[] ==> exists k <- t :: |t[k].votes| == n
  {
    n := 0;
    var todo := t.Keys;
    while todo != {}
      invariant todo <= t.Keys
      invariant forall k <- t.Keys - todo :: |t[k].votes| <= n
      invariant n == 0 || exists k <- t.Keys - todo :: |t[k].votes| == n
    {
      var k :| k in todo;
      if n < |t[k].votes| {
        n := |t[k].votes|;
        assert k in t.Keys - (todo - {k});
      }
      todo := todo - {k};
    }
    if t != map[] && n == 0 {
      var k :| k in t;
      assert k in t.Keys - todo;
      assert |t[k].votes| == n;
    }
  }

  /** The bucket with most votes, the last in digest order among equals. */
  method TakeMax<V, W>(t: Tally<V, W>) returns (k: nat)
    requires t != map[]
    ensures IsWinner(t, k)
  {
    hide Ascending;
    var ks := Ascending(t.Keys);
    assert ks != [] by {
      var j :| j in t;
      assert j in ks;
    }
    k := ks[0];
    for i := 1 to |ks|
      invariant k in ks[..i]
      invariant forall j <- ks[..i] :: Beats(t, k, j)
    {
      assert ks[..i + 1] == ks[..i] + [ks[i]];
      forall j | j in ks[..i] ensures j < ks[i] {
        var m :| 0 <= m < i && ks[..i][m] == j;
      }
      if |t[ks[i]].votes| >= |t[k].votes| {
        forall j | j in ks[..i] ensures Beats(t, ks[i], j) {
          assert Beats(t, k, j);
        }
        k := ks[i];
      }
    }
    assert ks[..|ks|] == ks;
  }

  lemma OnlyWinner<V, W>(t: Tally<V, W>, key: nat)
    requires key in t && forall k <- t :: k != key ==> |t[k].votes| < |t[key].votes|
    ensures forall k :: IsWinner(t, k) <==> k == key
  {
    forall k | IsWinner(t, k) ensures k == key {
      assert Beats(t, k, key);
    }
  }

  /**
   With every bucket below the threshold, a vote either leaves it so, or brings exactly the bucket
   voted for to the threshold; that one wins, and holds the content voted for.
   */
  lemma VoteDecides<V(!new), W>(t: Tally<V, W>, digest: V -> nat, v: V, proposer: nat, w: W, threshold: nat)
    requires Injective(digest) && Keyed(t, digest) && AllBelow(t, threshold) && 0 < threshold
    ensures var key := digest(v);
            var t' := Voted(t, key, v, proposer, w);
            && Keyed(t', digest)
            && t'[key].info == v
            && (AllBelow(t', threshold) <==> |t'[key].votes| < threshold)
            && (forall k <- t' :: k != key ==> |t'[k].votes| < threshold)
            && |t'[key].votes| <= threshold
            && (|t'[key].votes| == threshold ==> forall k :: IsWinner(t', k) <==> k == key)
  {
    hide IsWinner;
    var key := digest(v);
    var t' := Voted(t, key, v, proposer, w);
    var before: map<nat, W> := if key in t then t[key].votes else map[];
    assert t'[key].votes == before[proposer := w];
    assert |before[proposer := w]| <= |before| + 1 by {
      assert before[proposer := w].Keys == before.Keys + {proposer};
    }
    if |t'[key].votes| == threshold {
      OnlyWinner(t', key);
    }
  }

  /** A ready tally has a bucket at the threshold, and one that is not has none. */
  lemma ReadyMeans<V, W>(t: Tally<V, W>, n: nat, threshold: nat)
    requires 0 < threshold
    requires (forall k <- t :: |t[k].votes| <= n) && (t == map[] ==> n == 0)
    requires t != map[] ==> exists k <- t :: |t[k].votes| == n
    ensures n >= threshold <==> !AllBelow(t, threshold)
  {
  }

  /* ---- Rounds of voting ---- */

  /** One committed vote. */
  datatype Vote<V, W> = Vote(v: V, proposer: nat, w: W)

  /** A committed vote, and whether a decision for it leaves the round where it is. */
  datatype Event<V, W> = Event(vote: Vote<V, W>, stay: bool)

  /** How content is digested, which round it belongs to, and how many votes decide a round. */
  datatype Rules<!V> = Rules(digest: V -> nat, roundOf: V -> nat, threshold: nat -> nat)

  datatype Ballot<V, W> = Ballot(round: nat, tally: Tally<V, W>)

  ghost predicate GoodRules<V(!new)>(r: Rules<V>) {
    Injective(r.digest) && forall n :: 0 < r.threshold(n)
  }

  ghost predicate BallotValid<V, W>(r: Rules<V>, b: Ballot<V, W>) {
    && Keyed(b.tally, r.digest)
    && AllBelow(b.tally, r.threshold(b.round))
    && forall k <- b.tally :: r.roundOf(b.tally[k].info) == b.round
  }

  /** A vote outside the round is ignored; one that completes its bucket decides the round. */
  function Step<V, W>(r: Rules<V>, b: Ballot<V, W>, e: Event<V, W>): (Ballot<V, W>, Option<V>) {
    var v := e.vote.v;
    if r.roundOf(v) != b.round then (b, None)
    else
      var t := Voted(b.tally, r.digest(v), v, e.vote.proposer, e.vote.w);
      if |t[r.digest(v)].votes| < r.threshold(b.round) then (b.(tally := t), None)
      else (Ballot(if e.stay then b.round else b.round + 1, map[]), Some(v))
  }

  lemma StepKeeps<V(!new), W>(r: Rules<V>, b: Ballot<V, W>, e: Event<V, W>)
    requires GoodRules(r) && BallotValid(r, b)
    ensures BallotValid(r, Step(r, b, e).0)
  {
    VoteDecides(b.tally, r.digest, e.vote.v, e.vote.proposer, e.vote.w, r.threshold(b.round));
  }

  /** What a vote of the round does to the tally, in terms of the checks the code makes. */
  lemma VoteOutcome<V(!new), W>(r: Rules<V>, b: Ballot<V, W>, e: Event<V, W>)
    requires GoodRules(r) && BallotValid(r, b)
    ensures 0 < r.threshold(b.round) && AllBelow(b.tally, r.threshold(b.round))
    ensures BallotValid(r, Step(r, b, e).0)
    ensures var v := e.vote.v;
            var key := r.digest(v);
            var t := Voted(b.tally, key, v, e.vote.proposer, e.vote.w);
            && key in t && t[key].info == v
            && (AllBelow(t, r.threshold(b.round)) <==> |t[key].votes| < r.threshold(b.round))
            && (!AllBelow(t, r.threshold(b.round)) ==> forall k :: IsWinner(t, k) <==> k == key)
  {
    StepKeeps(r, b, e);
    VoteDecides(b.tally, r.digest, e.vote.v, e.vote.proposer, e.vote.w, r.threshold(b.round));
  }

  ghost function BallotAt<V, W>(r: Rules<V>, b: Ballot<V, W>, events: seq<Event<V, W>>, n: nat): Ballot<V, W>
    requires n <= |events|
  {
    if n == 0 then b else Step(r, BallotAt(r, b, events, n - 1), events[n - 1]).0
  }

  ghost function DecidedAt<V, W>(r: Rules<V>, b: Ballot<V, W>, events: seq<Event<V, W>>, n: nat): Option<V>
    requires n < |events|
  {
    Step(r, BallotAt(r, b, events, n), events[n]).1
  }

  /** The number of events up to and including the last one that decided a round. */
  ghost function PeriodStart<V, W>(r: Rules<V>, b: Ballot<V, W>, events: seq<Event<V, W>>, n: nat): (j: nat)
    requires n <= |events|
    ensures j <= n
  {
    if n == 0 then 0
    else if DecidedAt(r, b, events, n - 1).Some? then n
    else PeriodStart(r, b, events, n - 1)
  }

  /** The proposers that voted for `v` in events from..to. */
  ghost function Supporters<V, W>(events: seq<Event<V, W>>, from: nat, to: nat, v: V): set<nat>
    requires to <= |events|
  {
    set i | from <= i < to && events[i].vote.v == v :: events[i].vote.proposer
  }

  ghost function Held<V, W>(r: Rules<V>, t: Tally<V, W>, v: V): set<nat> {
    if r.digest(v) in t then t[r.digest(v)].votes.Keys else {}
  }

  lemma {:induction false} RunValid<V(!new), W>(r: Rules<V>, b: Ballot<V, W>, events: seq<Event<V, W>>, n: nat)
    requires GoodRules(r) && BallotValid(r, b) && n <= |events|
    ensures BallotValid(r, BallotAt(r, b, events, n))
    decreases n
  {
    if n > 0 {
      RunValid(r, b, events, n - 1);
      StepKeeps(r, BallotAt(r, b, events, n - 1), events[n - 1]);
    }
  }

  lemma SupportersStep<V, W>(events: seq<Event<V, W>>, from: nat, n: nat, v: V)
    requires from <= n < |events|
    ensures Supporters(events, from, n + 1, v)
            == Supporters(events, from, n, v) + if events[n].vote.v == v then {events[n].vote.proposer} else {}
  {
  }

  lemma NothingHeld<V, W>(r: Rules<V>, events: seq<Event<V, W>>, n: nat, v: V)
    requires n <= |events|
    ensures Held<V, W>(r, map[], v) == Supporters(events, n, n, v) == {}
  {
  }

  lemma StepRound<V(!new), W>(r: Rules<V>, b: Ballot<V, W>, e: Event<V, W>, v: V)
    requires GoodRules(r)
    ensures var (after, decided) := Step(r, b, e);
            && (decided.Some? ==> after.tally == map[])
            && (decided.None? ==> after.round == b.round)
            && (decided.None? && r.roundOf(v) == b.round ==>
                  Held(r, after.tally, v) == Held(r, b.tally, v) + if e.vote.v == v then {e.vote.proposer} else {})
  {
  }

  /** A bucket of the round holds exactly the proposers that voted for its content since the last decision. */
  lemma {:induction false} HeldVotes<V(!new), W>(r: Rules<V>, b: Ballot<V, W>, events: seq<Event<V, W>>, n: nat, v: V)
    requires GoodRules(r) && BallotValid(r, b) && b.tally == map[] && n <= |events|
    requires r.roundOf(v) == BallotAt(r, b, events, n).round
    ensures Held(r, BallotAt(r, b, events, n).tally, v) == Supporters(events, PeriodStart(r, b, events, n), n, v)
    decreases n
  {
    hide GoodRules, BallotValid, Held, Supporters, Step;
    if n > 0 {
      StepRound(r, BallotAt(r, b, events, n - 1), events[n - 1], v);
    }
    if n == 0 || DecidedAt(r, b, events, n - 1).Some? {
      NothingHeld(r, events, n, v);
    } else {
      HeldVotes(r, b, events, n - 1, v);
      SupportersStep(events, PeriodStart(r, b, events, n - 1), n - 1, v);
    }
  }

  /**
   Over every run: when a vote decides, every bucket was below the threshold before it, it is its own
   content that is decided, and exactly as many distinct proposers as the threshold asks for voted
   for that content since the last decision.
   */
  lemma DecidedByThreshold<V(!new), W>(r: Rules<V>, b: Ballot<V, W>, events: seq<Event<V, W>>, n: nat)
    requires GoodRules(r) && BallotValid(r, b) && b.tally == map[] && n < |events|
    requires DecidedAt(r, b, events, n).Some?
    ensures var before, v := BallotAt(r, b, events, n), events[n].vote.v;
            && AllBelow(before.tally, r.threshold(before.round))
            && DecidedAt(r, b, events, n) == Some(v)
            && r.roundOf(v) == before.round
            && |Supporters(events, PeriodStart(r, b, events, n), n + 1, v)| == r.threshold(before.round)
  {
    hide Supporters, BallotAt, PeriodStart;
    var before, e := BallotAt(r, b, events, n), events[n];
    RunValid(r, b, events, n);
    VoteDecides(before.tally, r.digest, e.vote.v, e.vote.proposer, e.vote.w, r.threshold(before.round));
    HeldVotes(r, b, events, n, e.vote.v);
    SupportersStep(events, PeriodStart(r, b, events, n), n, e.vote.v);
    var t := Voted(before.tally, r.digest(e.vote.v), e.vote.v, e.vote.proposer, e.vote.w);
    assert t[r.digest(e.vote.v)].votes.Keys == Held(r, before.tally, e.vote.v) + {e.vote.proposer};
    assert |t[r.digest(e.vote.v)].votes| == |t[r.digest(e.vote.v)].votes.Keys|;
  }

  /**
   Over every run: a vote of the round decides exactly if with it as many distinct proposers as the threshold
   asks for have voted for its content since the last decision; a vote outside the round never does.
   */
  lemma DecidesExactly<V(!new), W>(r: Rules<V>, b: Ballot<V, W>, events: seq<Event<V, W>>, n: nat)
    requires GoodRules(r) && BallotValid(r, b) && b.tally == map[] && n < |events|
    ensures var before, v := BallotAt(r, b, events, n), events[n].vote.v;
            DecidedAt(r, b, events, n).Some? <==>
              r.roundOf(v) == before.round && |Supporters(events, PeriodStart(r, b, events, n), n + 1, v)| >= r.threshold(before.round)
  {
    hide Supporters, BallotAt, PeriodStart;
    var before, e := BallotAt(r, b, events, n), events[n];
    if r.roundOf(e.vote.v) == before.round {
      HeldVotes(r, b, events, n, e.vote.v);
      SupportersStep(events, PeriodStart(r, b, events, n), n, e.vote.v);
      var t := Voted(before.tally, r.digest(e.vote.v), e.vote.v, e.vote.proposer, e.vote.w);
      assert t[r.digest(e.vote.v)].votes.Keys == Held(r, before.tally, e.vote.v) + {e.vote.proposer};
      assert |t[r.digest(e.vote.v)].votes| == |t[r.digest(e.vote.v)].votes.Keys|;
    }
  }

  /** What the proposer said with its last vote for the content in the events. */
  ghost function LastSaid<V, W>(events: seq<Event<V, W>>, from: nat, n: nat, v: V, proposer: nat): Option<W>
    requires n <= |events|
    decreases n
  {
    if n <= from then None
    else if events[n - 1].vote.v == v && events[n - 1].vote.proposer == proposer then Some(events[n - 1].vote.w)
    else LastSaid(events, from, n - 1, v, proposer)
  }

  function SaidIn<V, W>(r: Rules<V>, t: Tally<V, W>, v: V, proposer: nat): Option<W> {
    if r.digest(v) in t && proposer in t[r.digest(v)].votes then Some(t[r.digest(v)].votes[proposer]) else None
  }

  lemma SaidStep<V(!new), W>(r: Rules<V>, b: Ballot<V, W>, e: Event<V, W>, v: V, proposer: nat)
    requires GoodRules(r) && r.roundOf(v) == b.round
    ensures var (after, decided) := Step(r, b, e);
            decided.None? ==>
              SaidIn(r, after.tally, v, proposer)
              == if e.vote.v == v && e.vote.proposer == proposer then Some(e.vote.w) else SaidIn(r, b.tally, v, proposer)
  {
  }

  /** A bucket of the round keeps, for each of its proposers, what it last said along with the vote. */
  lemma {:induction false} HeldWords<V(!new), W>(r: Rules<V>, b: Ballot<V, W>, events: seq<Event<V, W>>, n: nat, v: V, proposer: nat)
    requires GoodRules(r) && b.tally == map[] && n <= |events|
    requires r.roundOf(v) == BallotAt(r, b, events, n).round
    ensures SaidIn(r, BallotAt(r, b, events, n).tally, v, proposer) == LastSaid(events, PeriodStart(r, b, events, n), n, v, proposer)
    decreases n
  {
    hide GoodRules, Step, SaidIn;
    if n == 0 || DecidedAt(r, b, events, n - 1).Some? {
      if n > 0 {
        StepRound(r, BallotAt(r, b, events, n - 1), events[n - 1], v);
      }
      NothingSaid<V, W>(r, v, proposer);
    } else {
      StepRound(r, BallotAt(r, b, events, n - 1), events[n - 1], v);
      HeldWords(r, b, events, n - 1, v, proposer);
      SaidStep(r, BallotAt(r, b, events, n - 1), events[n - 1], v, proposer);
    }
  }

  lemma NothingSaid<V, W>(r: Rules<V>, v: V, proposer: nat)
    ensures SaidIn<V, W>(r, map[], v, proposer) == None
  {
  }

  /** The contents decided in the first n events, in order. */
  ghost function Decisions<V, W>(r: Rules<V>, b: Ballot<V, W>, events: seq<Event<V, W>>, n: nat): seq<V>
    requires n <= |events|
  {
    if n == 0 then []
    else
      Decisions(r, b, events, n - 1) +
      match DecidedAt(r, b, events, n - 1) case Some(v) => [v] case None => []
  }

  lemma StepMoves<V, W>(r: Rules<V>, b: Ballot<V, W>, e: Event<V, W>)
    ensures var (after, decided) := Step(r, b, e);
            && (decided.None? ==> after.round == b.round)
            && (decided.Some? ==> r.roundOf(decided.value) == b.round && (!e.stay ==> after.round == b.round + 1))
  {
  }

  /** When no decision stays, rounds are decided one after the other, each once. */
  lemma {:induction false} DecisionsConsecutive<V(!new), W>(r: Rules<V>, b: Ballot<V, W>, events: seq<Event<V, W>>, n: nat)
    requires n <= |events| && forall i :: 0 <= i < n ==> !events[i].stay
    ensures var ds := Decisions(r, b, events, n);
            && BallotAt(r, b, events, n).round == b.round + |ds|
            && forall i :: 0 <= i < |ds| ==> r.roundOf(ds[i]) == b.round + i
    decreases n
  {
    hide Step;
    if n > 0 {
      DecisionsConsecutive(r, b, events, n - 1);
      StepMoves(r, BallotAt(r, b, events, n - 1), events[n - 1]);
    }
  }
}
