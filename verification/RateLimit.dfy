/**
 Fixed-window rate limiting of one execution lane, and what it guarantees over
 every history of reservation attempts.
 */
module RateLimit {
  import opened Basics

  /** `queueRateLimitState`: the configured limit and the current window. */
  datatype RateState = RateState(max: int, window: int, started: Instant, count: int)

  ghost predicate Configured(s: RateState) {
    s.max > 0 && s.window > 0
  }

  predicate WindowElapsed(s: RateState, now: Instant) {
    s.started == ZERO_TIME || now >= s.started + s.window
  }

  /** `reserveRateSlot` on a lane that has a limit. */
  function Reserve(s: RateState, now: Instant): (bool, RateState) {
    if WindowElapsed(s, now) then
      (true, s.(started := now, count := 1))
    else if s.count >= s.max then
      (false, s)
    else
      (true, s.(count := s.count + 1))
  }

  type Rates = map<string, RateState>

  /** `reserveRateSlot`: a lane without a limit is always granted. */
  function ReserveSlot(rates: Rates, lane: string, now: Instant): (bool, Rates) {
    if lane !in rates then (true, rates)
    else
      var (granted, next) := Reserve(rates[lane], now);
      (granted, if granted then rates[lane := next] else rates)
  }

  /** `QueueRateLimitTTL`: how long until the lane may claim again. */
  function TTL(rates: Rates, lane: string, now: Instant): int {
    if lane !in rates || rates[lane].count < rates[lane].max || rates[lane].started == ZERO_TIME then 0
    else Max(rates[lane].started + rates[lane].window - now, 0)
  }

  /** The waiting time is exact: zero means a slot is free now, and otherwise the
      lane stays shut up to, and opens precisely at, the announced instant. */
  lemma TTLIsExact(rates: Rates, lane: string, now: Instant)
    ensures TTL(rates, lane, now) >= 0
    ensures TTL(rates, lane, now) == 0 <==> ReserveSlot(rates, lane, now).0
    ensures TTL(rates, lane, now) > 0 ==>
              && (forall t :: t < now + TTL(rates, lane, now) ==> ReserveSlot(rates, lane, t) == (false, rates))
              && ReserveSlot(rates, lane, now + TTL(rates, lane, now)).0
  {
    // the quantified reservation needs its own unfolding
    forall t | TTL(rates, lane, now) > 0 && t < now + TTL(rates, lane, now)
      ensures ReserveSlot(rates, lane, t) == (false, rates)
    {
      assert !WindowElapsed(rates[lane], t);
    }
  }

  // --------------------------------------------------------------- histories

  /** The attempts of one lane, oldest first. */
  ghost predicate NonDecreasing(times: seq<Instant>) {
    forall i, j | 0 <= i < j < |times| :: times[i] <= times[j]
  }

  ghost predicate Clocked(times: seq<Instant>) {
    NonDecreasing(times) && forall i | 0 <= i < |times| :: times[i] != ZERO_TIME
  }

  /** The lane after a sequence of attempts. */
  function After(s: RateState, times: seq<Instant>): RateState {
    if times == [] then s else Reserve(After(s, Front(times)), Last(times)).1
  }

  /** The instants at which an attempt was granted. */
  function Grants(s: RateState, times: seq<Instant>): seq<Instant> {
    if times == [] then []
    else
      var earlier := Grants(s, Front(times));
      if Reserve(After(s, Front(times)), Last(times)).0 then earlier + [Last(times)] else earlier
  }

  /** One rate window: when it opened and what it granted. */
  datatype Window = Window(start: Instant, grants: seq<Instant>)

  /** The windows a history opened, in order. */
  function Windows(s: RateState, times: seq<Instant>): (ws: seq<Window>)
  {
    if times == [] then []
    else
      var ws := Windows(s, Front(times));
      var before := After(s, Front(times));
      var now := Last(times);
      if WindowElapsed(before, now) then ws + [Window(now, [now])]
      else if before.count < before.max && ws != [] then
        Front(ws) + [Window(Last(ws).start, Last(ws).grants + [now])]
      else ws
  }

  function Flatten(ws: seq<Window>): seq<Instant> {
    if ws == [] then [] else Flatten(Front(ws)) + Last(ws).grants
  }

  ghost predicate WindowFits(w: Window, max: int, window: int) {
    && 1 <= |w.grants| <= max && w.grants[0] == w.start
    && forall i | 0 <= i < |w.grants| :: w.start <= w.grants[i] < w.start + window
  }

  /** Consecutive windows open at least one window length apart. */
  ghost predicate Spaced(ws: seq<Window>, window: int) {
    forall i, j | 0 <= i < j < |ws| :: ws[i].start + window <= ws[j].start
  }

  ghost predicate Fresh(s: RateState) {
    Configured(s) && s.started == ZERO_TIME && s.count == 0
  }

  /** After any history the stored counters describe exactly the last window. */
  ghost predicate Describes(s: RateState, ws: seq<Window>) {
    if ws == [] then s.started == ZERO_TIME && s.count == 0
    else s.started == Last(ws).start != ZERO_TIME && s.count == |Last(ws).grants|
  }

  /** Windows of a limit: at most `max` grants each, all inside the window. */
  ghost predicate LimitedWindows(ws: seq<Window>, max: int, window: int) {
    && max > 0 && window > 0
    && Spaced(ws, window)
    && forall i | 0 <= i < |ws| :: WindowFits(ws[i], max, window)
  }

  lemma OpeningAWindow(ws: seq<Window>, max: int, window: int, now: Instant)
    requires LimitedWindows(ws, max, window) && (ws != [] ==> Last(ws).start + window <= now)
    ensures LimitedWindows(ws + [Window(now, [now])], max, window)
  {
    var all := ws + [Window(now, [now])];
    forall i | 0 <= i < |ws| ensures all[i].start + window <= now {
      assert i < |ws| - 1 ==> ws[i].start + window <= Last(ws).start;
    }
  }

  lemma FillingAWindow(ws: seq<Window>, max: int, window: int, now: Instant)
    requires LimitedWindows(ws, max, window) && ws != []
    requires Last(ws).start <= now < Last(ws).start + window && |Last(ws).grants| < max
    ensures LimitedWindows(Front(ws) + [Window(Last(ws).start, Last(ws).grants + [now])], max, window)
  {
    assert WindowFits(Last(ws), max, window);
  }

  /** After any history: every window grants at most `max` slots, all inside it;
      windows open at least one window length apart; and the stored counters
      describe exactly the last window. */
  lemma {:induction false} WindowBounds(s: RateState, times: seq<Instant>)
    requires Fresh(s) && Clocked(times)
    ensures After(s, times).max == s.max && After(s, times).window == s.window
    ensures var ws := Windows(s, times);
            && Describes(After(s, times), ws)
            && LimitedWindows(ws, s.max, s.window)
            && (ws != [] ==> Last(ws).start <= Last(times))
            && (ws == [] <==> times == [])
  {
    if times != [] {
      hide LimitedWindows;
      WindowBounds(s, Front(times));
      assert Front(times) != [] ==> Last(Front(times)) <= Last(times);
      var ws := Windows(s, Front(times));
      var before := After(s, Front(times));
      if WindowElapsed(before, Last(times)) {
        OpeningAWindow(ws, s.max, s.window, Last(times));
      } else if before.count < before.max {
        FillingAWindow(ws, s.max, s.window, Last(times));
      }
    } else {
      assert LimitedWindows([], s.max, s.window);
    }
  }

  lemma FlattenAppend(ws: seq<Window>, w: Window)
    ensures Flatten(ws + [w]) == Flatten(ws) + w.grants
  {
    assert Front(ws + [w]) == ws;
  }

  lemma FlattenExtend(ws: seq<Window>, now: Instant)
    requires ws != []
    ensures Flatten(Front(ws) + [Window(Last(ws).start, Last(ws).grants + [now])]) == Flatten(ws) + [now]
  {
    FlattenAppend(Front(ws), Window(Last(ws).start, Last(ws).grants + [now]));
  }

  lemma {:induction false} GrantsFillTheWindows(s: RateState, times: seq<Instant>)
    requires Fresh(s) && Clocked(times)
    ensures Grants(s, times) == Flatten(Windows(s, times))
  {
    if times != [] {
      GrantsFillTheWindows(s, Front(times));
      WindowBounds(s, Front(times));
      var ws := Windows(s, Front(times));
      var now := Last(times);
      FlattenAppend(ws, Window(now, [now]));
      if ws != [] { FlattenExtend(ws, now); }
    }
  }

  // -------------------------------------------------- bursts in any interval

  function CountIn(times: seq<Instant>, from: Instant, to: Instant): nat {
    if times == [] then 0
    else CountIn(Front(times), from, to) + if from <= Last(times) < to then 1 else 0
  }

  lemma {:induction false} CountInConcat(a: seq<Instant>, b: seq<Instant>, from: Instant, to: Instant)
    ensures CountIn(a + b, from, to) == CountIn(a, from, to) + CountIn(b, from, to)
  {
    if b == [] {
      assert a + b == a;
    } else {
      CountInConcat(a, Front(b), from, to);
      assert Front(a + b) == a + Front(b);
    }
  }

  lemma {:induction false} CountInIsBounded(times: seq<Instant>, from: Instant, to: Instant)
    ensures CountIn(times, from, to) <= |times|
    ensures (forall i | 0 <= i < |times| :: !(from <= times[i] < to)) ==> CountIn(times, from, to) == 0
  {
    if times != [] { CountInIsBounded(Front(times), from, to); }
  }

  lemma {:induction false} NoGrantBefore(ws: seq<Window>, max: int, window: int, from: Instant)
    requires LimitedWindows(ws, max, window)
    requires ws != [] ==> Last(ws).start <= from - window
    ensures CountIn(Flatten(ws), from, from + window) == 0
  {
    if ws != [] {
      assert Front(ws) != [] ==> Last(Front(ws)).start + window <= Last(ws).start;
      NoGrantBefore(Front(ws), max, window, from);
      CountInConcat(Flatten(Front(ws)), Last(ws).grants, from, from + window);
      assert WindowFits(Last(ws), max, window);
      CountInIsBounded(Last(ws).grants, from, from + window);
    }
  }

  lemma {:induction false} CountInSkipsTheFirst(times: seq<Instant>, from: Instant, to: Instant)
    requires times != [] && !(from <= times[0] < to)
    ensures CountIn(times, from, to) <= |times| - 1
  {
    CountInConcat([times[0]], times[1..], from, to);
    assert [times[0]] + times[1..] == times;
    assert Front([times[0]]) == [] && CountIn([times[0]], from, to) == 0;
    CountInIsBounded(times[1..], from, to);
  }

  lemma {:induction false} OneWindowReachesIn(ws: seq<Window>, max: int, window: int, from: Instant)
    requires LimitedWindows(ws, max, window)
    requires ws != [] ==> Last(ws).start < from
    ensures CountIn(Flatten(ws), from, from + window) <= max - 1
  {
    if ws != [] {
      assert Front(ws) != [] ==> Last(Front(ws)).start + window <= Last(ws).start;
      NoGrantBefore(Front(ws), max, window, from);
      CountInConcat(Flatten(Front(ws)), Last(ws).grants, from, from + window);
      assert WindowFits(Last(ws), max, window);
      CountInSkipsTheFirst(Last(ws).grants, from, from + window);
    }
  }

  lemma {:induction false} TwoWindowsAtMost(ws: seq<Window>, max: int, window: int, from: Instant)
    requires LimitedWindows(ws, max, window)
    ensures CountIn(Flatten(ws), from, from + window) <= 2 * max - 1
  {
    if ws != [] {
      assert Front(ws) != [] ==> Last(Front(ws)).start + window <= Last(ws).start;
      CountInConcat(Flatten(Front(ws)), Last(ws).grants, from, from + window);
      assert WindowFits(Last(ws), max, window);
      CountInIsBounded(Last(ws).grants, from, from + window);
      if Last(ws).start < from + window {
        OneWindowReachesIn(Front(ws), max, window, from);
      } else {
        TwoWindowsAtMost(Front(ws), max, window, from);
      }
    }
  }

  /** Whatever the pattern of attempts, an interval as long as the window holds less than
      twice the configured number of grants. */
  lemma BurstIsBounded(s: RateState, times: seq<Instant>, from: Instant)
    requires Fresh(s) && Clocked(times)
    ensures CountIn(Grants(s, times), from, from + s.window) <= 2 * s.max - 1
  {
    hide Grants, Windows, After, LimitedWindows, CountIn;
    WindowBounds(s, times);
    GrantsFillTheWindows(s, times);
    TwoWindowsAtMost(Windows(s, times), s.max, s.window, from);
  }

  // ------------------------------------------------------- the bound is reached

  function Repeat(t: Instant, n: nat): (times: seq<Instant>)
    ensures |times| == n && forall i | 0 <= i < n :: times[i] == t
  {
    if n == 0 then [] else Repeat(t, n - 1) + [t]
  }

  lemma {:induction false} CountRepeat(t: Instant, n: nat, from: Instant, to: Instant)
    ensures CountIn(Repeat(t, n), from, to) == if from <= t < to then n else 0
  {
    if n > 0 {
      CountRepeat(t, n - 1, from, to);
      assert Front(Repeat(t, n)) == Repeat(t, n - 1);
    }
  }

  /** Attempts inside an open window that has room for them are all granted. */
  lemma {:induction false} RoomForAll(s: RateState, times: seq<Instant>, t: Instant, n: nat)
    requires !WindowElapsed(After(s, times), t) && After(s, times).count + n <= After(s, times).max
    ensures After(s, times + Repeat(t, n)) == After(s, times).(count := After(s, times).count + n)
    ensures Grants(s, times + Repeat(t, n)) == Grants(s, times) + Repeat(t, n)
  {
    if n == 0 {
      assert times + Repeat(t, 0) == times;
    } else {
      RoomForAll(s, times, t, n - 1);
      var before := times + Repeat(t, n - 1);
      assert times + Repeat(t, n) == before + [t] && Front(before + [t]) == before;
      assert Grants(s, times) + Repeat(t, n) == Grants(s, times) + Repeat(t, n - 1) + [t];
    }
  }

  lemma NewWindow(s: RateState, times: seq<Instant>, t: Instant)
    requires WindowElapsed(After(s, times), t)
    ensures After(s, times + [t]) == After(s, times).(started := t, count := 1)
    ensures Grants(s, times + [t]) == Grants(s, times) + [t]
  {
    assert Front(times + [t]) == times;
  }

  /** One attempt early in the first window and the rest at its end... */
  function Early(max: nat, window: nat): seq<Instant>
    requires max > 0
  {
    [1] + Repeat(window, max - 1)
  }

  /** ...then a full second window at once. */
  function Late(max: nat, window: nat): seq<Instant>
    requires max > 0
  {
    [window + 1] + Repeat(window + 1, max - 1)
  }

  lemma EarlyGrants(max: nat, window: nat)
    requires max > 0 && window > 1
    ensures var s := RateState(max, window, ZERO_TIME, 0);
            Grants(s, Early(max, window)) == Early(max, window)
              && After(s, Early(max, window)) == RateState(max, window, 1, max)
  {
    var s := RateState(max, window, ZERO_TIME, 0);
    var none: seq<Instant> := [];
    assert none + [1] == [1];
    NewWindow(s, none, 1);
    RoomForAll(s, [1], window, max - 1);
    hide After, Grants, Repeat;
  }

  lemma BurstGrants(max: nat, window: nat)
    requires max > 0 && window > 1
    ensures var all := Early(max, window) + Late(max, window);
            Grants(RateState(max, window, ZERO_TIME, 0), all) == all
  {
    var s := RateState(max, window, ZERO_TIME, 0);
    var first, t := Early(max, window), window + 1;
    EarlyGrants(max, window);
    hide After, Grants, Repeat, Early;
    NewWindow(s, first, t);
    RoomForAll(s, first + [t], t, max - 1);
    assert first + [t] + Repeat(t, max - 1) == first + Late(max, window);
  }

  lemma BurstCount(max: nat, window: nat)
    requires max > 0 && window > 1
    ensures CountIn(Early(max, window) + Late(max, window), window, window + window) == 2 * max - 1
  {
    hide CountIn, Repeat;
    CountInConcat(Early(max, window), Late(max, window), window, window + window);
    CountInConcat([1], Repeat(window, max - 1), window, window + window);
    CountInConcat([window + 1], Repeat(window + 1, max - 1), window, window + window);
    CountRepeat(window, max - 1, window, window + window);
    CountRepeat(window + 1, max - 1, window, window + window);
    CountOne(1, window, window + window);
    CountOne(window + 1, window, window + window);
  }

  lemma CountOne(t: Instant, from: Instant, to: Instant)
    ensures CountIn([t], from, to) == if from <= t < to then 1 else 0
  {
    assert Front([t]) == [];
  }

  /** The bound is sharp for every limit: some history puts exactly 2*max - 1 grants into an
      interval as long as the window. So only a limit of one is a sliding window. */
  lemma LimitIsNotASlidingWindow(max: nat, window: nat)
    requires max > 0 && window > 1
    ensures var s := RateState(max, window, ZERO_TIME, 0);
            var times := Early(max, window) + Late(max, window);
            Fresh(s) && Clocked(times) && CountIn(Grants(s, times), window, window + s.window) == 2 * max - 1
  {
    BurstGrants(max, window);
    BurstCount(max, window);
    BurstIsClocked(max, window);
    hide CountIn, Grants, Repeat, Early, Late, Clocked;
  }

  lemma BurstIsClocked(max: nat, window: nat)
    requires max > 0 && window > 1
    ensures Clocked(Early(max, window) + Late(max, window))
  {
    hide Repeat;
    var times := Early(max, window) + Late(max, window);
    assert forall i | 0 <= i < |times| :: times[i] == if i == 0 then 1 else if i < max then window else window + 1;
  }
}
