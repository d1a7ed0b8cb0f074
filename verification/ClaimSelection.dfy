/**
 Which eligible jobs one claim takes.

 The in-memory engine walks the candidates in claim order and reserves a rate
 slot for each (`Greedy`). The PostgreSQL engine does it in one set-based
 statement (`SqlSelect`): drop saturated lanes, keep a bounded look-ahead, rank
 every lane, keep the ranks that fit the allowance, cut at the batch limit and
 charge each lane for what was taken. This module relates the two.
 */
module ClaimSelection {
  import opened Basics
  import opened RateLimit

  /** What selection looks at: the job and its execution lane. */
  datatype Candidate = Candidate(id: string, lane: string)

  /** The jobs taken, in claim order, and the rate counters afterwards. */
  datatype Selection = Selection(chosen: seq<Candidate>, rates: Rates)

  ghost predicate ValidRates(rates: Rates) {
    forall lane | lane in rates :: Configured(rates[lane])
  }

  // ------------------------------------------------------ the sequential loop

  /** The loop of `memory.JobStore.Claim`. */
  function Greedy(cands: seq<Candidate>, rates: Rates, now: Instant, limit: nat): Selection {
    if cands == [] then Selection([], rates)
    else
      var earlier := Greedy(Front(cands), rates, now, limit);
      if |earlier.chosen| == limit then earlier
      else
        var (granted, next) := ReserveSlot(earlier.rates, Last(cands).lane, now);
        Selection(if granted then earlier.chosen + [Last(cands)] else earlier.chosen, next)
  }

  // -------------------------------------------------- the set-based statement

  /** A lane whose open window has no slot left. */
  predicate Saturated(rates: Rates, lane: string, now: Instant) {
    lane in rates && !WindowElapsed(rates[lane], now) && rates[lane].count >= rates[lane].max
  }

  function Unsaturated(cands: seq<Candidate>, rates: Rates, now: Instant): seq<Candidate> {
    if cands == [] then []
    else
      Unsaturated(Front(cands), rates, now)
      + if Saturated(rates, Last(cands).lane, now) then [] else [Last(cands)]
  }

  function Take<T>(s: seq<T>, n: nat): seq<T> { if n <= |s| then s[..n] else s }

  /** CTE `locked`. */
  function Locked(cands: seq<Candidate>, rates: Rates, now: Instant, candidateLimit: nat): seq<Candidate> {
    Take(Unsaturated(cands, rates, now), candidateLimit)
  }

  /** CTE `budget`: the slots a lane may still take; none means unlimited. */
  function Allowance(rates: Rates, lane: string, now: Instant): Option<int> {
    if lane !in rates then None
    else if WindowElapsed(rates[lane], now) then Some(rates[lane].max)
    else Some(Max(rates[lane].max - rates[lane].count, 0))
  }

  function CountLane(cands: seq<Candidate>, lane: string): nat {
    if cands == [] then 0
    else CountLane(Front(cands), lane) + if Last(cands).lane == lane then 1 else 0
  }

  /** CTE `ranked`: `row_number()` of the last candidate within its lane. */
  function RankOfLast(cands: seq<Candidate>): nat
    requires cands != []
  {
    CountLane(Front(cands), Last(cands).lane) + 1
  }

  /** CTE `chosen` before its LIMIT: the candidates whose rank fits the allowance. */
  function WithinAllowance(cands: seq<Candidate>, rates: Rates, now: Instant): seq<Candidate> {
    if cands == [] then []
    else
      var allowance := Allowance(rates, Last(cands).lane, now);
      WithinAllowance(Front(cands), rates, now)
      + if allowance == None || RankOfLast(cands) <= allowance.value then [Last(cands)] else []
  }

  /** CTEs `taken` and `reserve`: charge every limited lane for what it gave. */
  function ReserveChosen(rates: Rates, chosen: seq<Candidate>, now: Instant): Rates {
    map lane | lane in rates ::
      var slots := CountLane(chosen, lane);
      if slots == 0 then rates[lane]
      else if WindowElapsed(rates[lane], now) then rates[lane].(started := now, count := slots)
      else rates[lane].(count := rates[lane].count + slots)
  }

  function SqlSelect(cands: seq<Candidate>, rates: Rates, now: Instant, candidateLimit: nat, limit: nat): Selection {
    var locked := Locked(cands, rates, now, candidateLimit);
    var chosen := Take(WithinAllowance(locked, rates, now), limit);
    Selection(chosen, ReserveChosen(rates, chosen, now))
  }

  const MAX_CLAIM_CANDIDATES := 1000

  /** How far `buildClaimStatement` looks ahead for a batch of `limit` jobs. */
  function CandidateLimit(limit: nat): nat {
    Max(Min(4 * limit, MAX_CLAIM_CANDIDATES), limit)
  }

  // ------------------------------------------------- ranking equals the loop

  lemma CountLaneSnoc(cands: seq<Candidate>, c: Candidate, lane: string)
    ensures CountLane(cands + [c], lane) == CountLane(cands, lane) + if c.lane == lane then 1 else 0
  {
    assert Front(cands + [c]) == cands;
  }

  lemma WithinAllowanceStep(cands: seq<Candidate>, rates: Rates, now: Instant)
    requires cands != []
    ensures var allowance := Allowance(rates, Last(cands).lane, now);
            var fitting := WithinAllowance(Front(cands), rates, now);
            WithinAllowance(cands, rates, now)
            == if allowance == None || RankOfLast(cands) <= allowance.value then fitting + [Last(cands)] else fitting
  {
  }

  /** A lane contributes its candidates up to its allowance and no further. */
  lemma {:induction false} LaneShare(cands: seq<Candidate>, rates: Rates, now: Instant, lane: string)
    requires ValidRates(rates)
    ensures var allowance := Allowance(rates, lane, now);
            CountLane(WithinAllowance(cands, rates, now), lane)
            == if allowance == None then CountLane(cands, lane) else Min(CountLane(cands, lane), allowance.value)
  {
    if cands != [] {
      LaneShare(Front(cands), rates, now, lane);
      var fitting := WithinAllowance(Front(cands), rates, now);
      CountLaneSnoc(fitting, Last(cands), lane);
      WithinAllowanceStep(cands, rates, now);
      if Last(cands).lane != lane {
        assert CountLane(cands, lane) == CountLane(Front(cands), lane);
      } else {
        assert CountLane(cands, lane) == RankOfLast(cands);
      }
    }
  }

  /** Reserving one more slot for `c` agrees with charging the longer batch. */
  lemma ReserveNext(rates: Rates, chosen: seq<Candidate>, c: Candidate, now: Instant)
    requires ValidRates(rates) && now != ZERO_TIME
    requires var allowance := Allowance(rates, c.lane, now);
             allowance == None || CountLane(chosen, c.lane) <= allowance.value
    ensures var (granted, next) := ReserveSlot(ReserveChosen(rates, chosen, now), c.lane, now);
            var allowance := Allowance(rates, c.lane, now);
            && (granted <==> allowance == None || CountLane(chosen, c.lane) < allowance.value)
            && next == ReserveChosen(rates, if granted then chosen + [c] else chosen, now)
  {
    forall lane ensures CountLane(chosen + [c], lane) == CountLane(chosen, lane) + if c.lane == lane then 1 else 0 {
      CountLaneSnoc(chosen, c, lane);
    }
  }

  lemma RankDecidesTheSlot(cands: seq<Candidate>, rates: Rates, now: Instant)
    requires cands != [] && ValidRates(rates) && now != ZERO_TIME
    ensures var fitting := WithinAllowance(Front(cands), rates, now);
            var allowance := Allowance(rates, Last(cands).lane, now);
            var fits := allowance == None || RankOfLast(cands) <= allowance.value;
            ReserveSlot(ReserveChosen(rates, fitting, now), Last(cands).lane, now)
            == (fits, ReserveChosen(rates, if fits then fitting + [Last(cands)] else fitting, now))
  {
    LaneShare(Front(cands), rates, now, Last(cands).lane);
    ReserveNext(rates, WithinAllowance(Front(cands), rates, now), Last(cands), now);
  }

  /** Ranking lanes, cutting at the allowance and then at the batch limit selects
      exactly what the sequential loop selects, and leaves the same counters. */
  lemma {:induction false} GreedyIsRanked(cands: seq<Candidate>, rates: Rates, now: Instant, limit: nat)
    requires ValidRates(rates) && now != ZERO_TIME
    ensures var chosen := Take(WithinAllowance(cands, rates, now), limit);
            Greedy(cands, rates, now, limit) == Selection(chosen, ReserveChosen(rates, chosen, now))
  {
    if cands == [] {
      assert ReserveChosen(rates, [], now) == rates;
    } else {
      GreedyIsRanked(Front(cands), rates, now, limit);
      WithinAllowanceStep(cands, rates, now);
      var fitting := WithinAllowance(Front(cands), rates, now);
      if |fitting| < limit {
        RankDecidesTheSlot(cands, rates, now);
        assert Take(fitting, limit) == fitting;
        assert Take(fitting + [Last(cands)], limit) == fitting + [Last(cands)];
      } else {
        assert Take(WithinAllowance(cands, rates, now), limit) == Take(fitting, limit);
      }
    }
  }

  // -------------------------------------- dropping saturated lanes is harmless

  lemma {:induction false} SaturatedLanesStayShut(cands: seq<Candidate>, rates: Rates, now: Instant, limit: nat,
                                                  lane: string)
    requires Saturated(rates, lane, now)
    ensures lane in Greedy(cands, rates, now, limit).rates
    ensures Greedy(cands, rates, now, limit).rates[lane] == rates[lane]
  {
    if cands != [] { SaturatedLanesStayShut(Front(cands), rates, now, limit, lane); }
  }

  lemma {:induction false} DroppingSaturatedLanes(cands: seq<Candidate>, rates: Rates, now: Instant, limit: nat)
    ensures Greedy(Unsaturated(cands, rates, now), rates, now, limit) == Greedy(cands, rates, now, limit)
  {
    if cands != [] {
      DroppingSaturatedLanes(Front(cands), rates, now, limit);
      var kept := Unsaturated(Front(cands), rates, now);
      if Saturated(rates, Last(cands).lane, now) {
        SaturatedLanesStayShut(Front(cands), rates, now, limit, Last(cands).lane);
        assert Unsaturated(cands, rates, now) == kept;
      } else {
        assert Front(kept + [Last(cands)]) == kept;
      }
    }
  }

  // ------------------------------------------------- the bounded look-ahead

  /** More candidates can only append to a selection, and a selection that did not
      grow did not change. */
  lemma {:induction false} GreedyExtends(a: seq<Candidate>, b: seq<Candidate>, rates: Rates, now: Instant, limit: nat)
    ensures Greedy(a, rates, now, limit).chosen <= Greedy(a + b, rates, now, limit).chosen
    ensures |Greedy(a, rates, now, limit).chosen| == |Greedy(a + b, rates, now, limit).chosen| ==>
              Greedy(a, rates, now, limit) == Greedy(a + b, rates, now, limit)
  {
    if b == [] {
      assert a + b == a;
    } else {
      GreedyExtends(a, Front(b), rates, now, limit);
      assert Front(a + b) == a + Front(b);
    }
  }

  /** Candidates past a prefix change nothing exactly when the batch is full or
      their lanes have no slot left. */
  lemma {:induction false} GreedyStops(a: seq<Candidate>, b: seq<Candidate>, rates: Rates, now: Instant, limit: nat)
    ensures var taken := Greedy(a, rates, now, limit);
            taken == Greedy(a + b, rates, now, limit)
            <==> |taken.chosen| == limit || forall c | c in b :: Saturated(taken.rates, c.lane, now)
  {
    if b == [] {
      assert a + b == a;
    } else {
      GreedyStops(a, Front(b), rates, now, limit);
      GreedyExtends(a, Front(b), rates, now, limit);
      assert Front(a + b) == a + Front(b);
      assert forall c :: c in b <==> c in Front(b) || c == Last(b) by { FrontLast(b); }
    }
  }

  /** The set-based statement equals the sequential loop over the look-ahead. */
  lemma SqlIsGreedyOverLookAhead(cands: seq<Candidate>, rates: Rates, now: Instant, candidateLimit: nat, limit: nat)
    requires ValidRates(rates) && now != ZERO_TIME
    ensures SqlSelect(cands, rates, now, candidateLimit, limit)
            == Greedy(Locked(cands, rates, now, candidateLimit), rates, now, limit)
  {
    GreedyIsRanked(Locked(cands, rates, now, candidateLimit), rates, now, limit);
  }

  /** The eligible candidates the look-ahead cuts off. */
  function Beyond(cands: seq<Candidate>, rates: Rates, now: Instant, candidateLimit: nat): seq<Candidate> {
    var eligible := Unsaturated(cands, rates, now);
    if candidateLimit <= |eligible| then eligible[candidateLimit..] else []
  }

  /** PostgreSQL takes a prefix of what the in-memory engine takes. The two agree,
      jobs and counters, if and only if the batch was filled or every candidate
      beyond the look-ahead sits in a lane that is out of slots. */
  lemma SqlRefinesMemory(cands: seq<Candidate>, rates: Rates, now: Instant, candidateLimit: nat, limit: nat)
    requires ValidRates(rates) && now != ZERO_TIME
    ensures var sql := SqlSelect(cands, rates, now, candidateLimit, limit);
            var memory := Greedy(cands, rates, now, limit);
            && sql.chosen <= memory.chosen
            && (sql == memory <==>
                  || |sql.chosen| == limit
                  || forall c | c in Beyond(cands, rates, now, candidateLimit) :: Saturated(sql.rates, c.lane, now))
  {
    hide Greedy, SqlSelect, Unsaturated, Saturated;
    var eligible := Unsaturated(cands, rates, now);
    var locked := Locked(cands, rates, now, candidateLimit);
    var rest := Beyond(cands, rates, now, candidateLimit);
    assert eligible == locked + rest;
    SqlIsGreedyOverLookAhead(cands, rates, now, candidateLimit, limit);
    DroppingSaturatedLanes(cands, rates, now, limit);
    GreedyExtends(locked, rest, rates, now, limit);
    GreedyStops(locked, rest, rates, now, limit);
  }

  /** The lane's share of the candidates uses up its allowance. */
  predicate UsedUp(cands: seq<Candidate>, rates: Rates, now: Instant, lane: string) {
    var allowance := Allowance(rates, lane, now);
    allowance.Some? && CountLane(cands, lane) >= allowance.value
  }

  lemma SaturatedAfter(cands: seq<Candidate>, rates: Rates, now: Instant, lane: string)
    requires ValidRates(rates) && now != ZERO_TIME
    ensures Saturated(ReserveChosen(rates, WithinAllowance(cands, rates, now), now), lane, now)
            <==> UsedUp(cands, rates, now, lane)
  {
    LaneShare(cands, rates, now, lane);
    hide WithinAllowance;
  }

  /** The same condition on what goes in: the engines agree exactly if the look-ahead holds
      enough candidates within their lanes' allowances to fill the batch, or every candidate
      beyond it sits in a lane whose allowance the look-ahead uses up. */
  lemma EnginesAgreeExactly(cands: seq<Candidate>, rates: Rates, now: Instant, candidateLimit: nat, limit: nat)
    requires ValidRates(rates) && now != ZERO_TIME
    ensures var locked := Locked(cands, rates, now, candidateLimit);
            SqlSelect(cands, rates, now, candidateLimit, limit) == Greedy(cands, rates, now, limit)
            <==>
              || |WithinAllowance(locked, rates, now)| >= limit
              || forall c | c in Beyond(cands, rates, now, candidateLimit) :: UsedUp(locked, rates, now, c.lane)
  {
    SqlRefinesMemory(cands, rates, now, candidateLimit, limit);
    var locked := Locked(cands, rates, now, candidateLimit);
    var fitting := WithinAllowance(locked, rates, now);
    hide Greedy, Locked, WithinAllowance, Saturated, UsedUp, ReserveChosen, Beyond;
    if |fitting| < limit {
      assert Take(fitting, limit) == fitting;
      forall lane ensures Saturated(ReserveChosen(rates, fitting, now), lane, now) <==> UsedUp(locked, rates, now, lane)
      {
        SaturatedAfter(locked, rates, now, lane);
      }
    }
  }

  /** When everything eligible fits the look-ahead, four times the batch and at most a
      thousand unless the batch itself is larger, the two engines claim alike. */
  lemma EnginesAgreeWithinLookAhead(cands: seq<Candidate>, rates: Rates, now: Instant, limit: nat)
    requires ValidRates(rates) && now != ZERO_TIME
    requires |Unsaturated(cands, rates, now)| <= Max(Min(4 * limit, 1000), limit)
    ensures SqlSelect(cands, rates, now, CandidateLimit(limit), limit) == Greedy(cands, rates, now, limit)
  {
    SqlRefinesMemory(cands, rates, now, CandidateLimit(limit), limit);
  }

  // ---------------------------------------------------------- the difference

  /** `n` waiting jobs of one lane. */
  function Backlog(lane: string, n: nat): seq<Candidate> {
    if n == 0 then [] else Backlog(lane, n - 1) + [Candidate(JobIdFor(n), lane)]
  }

  lemma {:induction false} BacklogShape(lane: string, n: nat)
    ensures |Backlog(lane, n)| == n
    ensures forall i | 0 <= i < n :: Backlog(lane, n)[i].lane == lane
    ensures CountLane(Backlog(lane, n), lane) == n
  {
    if n > 0 { BacklogShape(lane, n - 1); CountLaneSnoc(Backlog(lane, n - 1), Candidate(JobIdFor(n), lane), lane); }
  }

  /** A lane with one slot left and a long backlog fills the look-ahead, so the
      set-based claim never sees the other lane: for every batch size from two up to
      the claim maximum it returns a single job where the in-memory loop returns more. */
  lemma BusyLaneHidesAnother(busy: string, other: string, window: int, now: Instant, limit: nat)
    requires busy != other && window > 0 && now != ZERO_TIME && 2 <= limit <= MAX_CLAIM_CANDIDATES
    ensures var rates := map[busy := RateState(1, window, ZERO_TIME, 0)];
            var cands := Backlog(busy, CandidateLimit(limit)) + [Candidate(JobIdFor(CandidateLimit(limit) + 1), other)];
            && |SqlSelect(cands, rates, now, CandidateLimit(limit), limit).chosen| == 1
            && |Greedy(cands, rates, now, limit).chosen| > 1
  {
    var rates := map[busy := RateState(1, window, ZERO_TIME, 0)];
    var n := CandidateLimit(limit);
    var backlog := Backlog(busy, n);
    var extra := Candidate(JobIdFor(n + 1), other);
    BacklogShape(busy, n);
    NothingSaturated(backlog + [extra], rates, now);
    assert Locked(backlog + [extra], rates, now, n) == backlog;
    OneSlot(busy, n, rates, now);
    GreedyIsRanked(backlog, rates, now, limit);
    GreedyStops(backlog, [extra], rates, now, limit);
    GreedyExtends(backlog, [extra], rates, now, limit);
  }

  lemma {:induction false} NothingSaturated(cands: seq<Candidate>, rates: Rates, now: Instant)
    requires forall lane :: !Saturated(rates, lane, now)
    ensures Unsaturated(cands, rates, now) == cands
  {
    if cands != [] { NothingSaturated(Front(cands), rates, now); FrontLast(cands); }
  }

  lemma {:induction false} OneSlot(busy: string, n: nat, rates: Rates, now: Instant)
    requires n > 0 && busy in rates && Allowance(rates, busy, now) == Some(1)
    ensures |WithinAllowance(Backlog(busy, n), rates, now)| == 1
  {
    BacklogShape(busy, n);
    BacklogShape(busy, n - 1);
    assert Front(Backlog(busy, n)) == Backlog(busy, n - 1);
    if n > 1 { OneSlot(busy, n - 1, rates, now); }
  }
}
