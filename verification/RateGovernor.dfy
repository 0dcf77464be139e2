/** The call-rate governor of figment-engine-chain: token bucket and rate steps under every interleaving. */
module RateGovernor {
  import opened Arithmetic

  const FLOOR_RATE: real := 200.0
  const START_RATE: real := 1800.0
  const CEIL_RATE: real := 3200.0
  const STEP_DOWN: real := 100.0
  const STEP_UP: real := 150.0
  const DOWN_WINDOW: nat := 100
  const RECOVER_INTERVAL: nat := 500
  /** The burst ceiling in thousandths of a token. */
  const MAX_BURST: nat := 4000
  const TOKEN: nat := 1000

  /** Where a caller stands between two atomic operations. */
  datatype Caller =
    | Resting
    | Swap(now: nat)
    | LoadRate(now: nat, elapsed: nat)
    | LoadTokens(now: nat, add: real)
    | CasTokens(now: nat, add: real, cur: nat)
    | LoadUp(now: nat)
    | LoadQuiet(now: nat, lastUp: nat)
    | CasUp(now: nat, lastUp: nat)
    | RateUp
    | StoreRate(rate: real, takes: bool)
    | LoadTake
    | CasTake(cur: nat)
    | CountGrant
    | StoreThrottle(now: nat)
    | LoadDown(now: nat)
    | CasDown(now: nat, lastDown: nat)
    | RateDown

  /** The shared atomics, the callers, and the history of applied steps. */
  datatype Governor = Governor(rate: real, tokens: nat, lastRefill: nat, lastDown: nat, lastUp: nat, lastThrottle: nat,
                               acquires: nat, callers: seq<Caller>, downs: seq<nat>, ups: seq<nat>)

  /** A caller starts an operation, or takes its next atomic step; a weak exchange may fail spuriously. */
  datatype Event = TryTake(i: nat, now: nat) | OnThrottle(i: nat, now: nat) | Next(i: nat, spurious: bool)

  function New(callers: nat): Governor {
    Governor(START_RATE, MAX_BURST, 0, 0, 0, 0, 0, seq(callers, _ => Resting), [], [])
  }

  function Clamp(r: real): real {
    if r < FLOOR_RATE then FLOOR_RATE else if r > CEIL_RATE then CEIL_RATE else r
  }

  /** What a stretch of time adds at a rate, in thousandths of a token. */
  function Drawn(elapsedMs: nat, rate: real): real { elapsedMs as real * rate }

  /** Whole thousandths, cut off at the burst ceiling. */
  function Refilled(cur: nat, add: real): nat {
    var sum := (cur as real + add).Floor;
    if sum < 0 then 0 else if sum > MAX_BURST then MAX_BURST else sum
  }

  function Put(g: Governor, i: nat, c: Caller): Governor
    requires i < |g.callers|
  {
    g.(callers := g.callers[i := c])
  }

  function StepRefill(g: Governor, i: nat, spurious: bool): Governor
    requires i < |g.callers|
  {
    match g.callers[i]
    case Swap(now) =>
      Put(g.(lastRefill := now), i, if now > g.lastRefill then LoadRate(now, now - g.lastRefill) else LoadUp(now))
    case LoadRate(now, elapsed) => Put(g, i, LoadTokens(now, Drawn(elapsed, g.rate)))
    case LoadTokens(now, add) => Put(g, i, CasTokens(now, add, g.tokens))
    case CasTokens(now, add, cur) =>
      if cur == g.tokens && !spurious then Put(g.(tokens := Refilled(cur, add)), i, LoadUp(now))
      else Put(g, i, CasTokens(now, add, g.tokens))
    case _ => g
  }

  function StepUp(g: Governor, i: nat): Governor
    requires i < |g.callers|
  {
    match g.callers[i]
    case LoadUp(now) => Put(g, i, LoadQuiet(now, g.lastUp))
    case LoadQuiet(now, lastUp) =>
      Put(g, i, if now >= lastUp + RECOVER_INTERVAL && now >= g.lastThrottle + RECOVER_INTERVAL then CasUp(now, lastUp) else LoadTake)
    case CasUp(now, lastUp) =>
      if g.lastUp == lastUp then Put(g.(lastUp := now, ups := g.ups + [now]), i, RateUp) else Put(g, i, LoadTake)
    case RateUp => Put(g, i, if g.rate < CEIL_RATE then StoreRate(g.rate + STEP_UP, true) else LoadTake)
    case _ => g
  }

  function StepTake(g: Governor, i: nat, spurious: bool): Governor
    requires i < |g.callers|
  {
    match g.callers[i]
    case LoadTake => Put(g, i, if g.tokens < TOKEN then Resting else CasTake(g.tokens))
    case CasTake(cur) =>
      if cur == g.tokens >= TOKEN && !spurious then Put(g.(tokens := cur - TOKEN), i, CountGrant)
      else Put(g, i, if g.tokens < TOKEN then Resting else CasTake(g.tokens))
    case CountGrant => Put(g.(acquires := g.acquires + 1), i, Resting)
    case _ => g
  }

  function StepDown(g: Governor, i: nat): Governor
    requires i < |g.callers|
  {
    match g.callers[i]
    case StoreThrottle(now) => Put(g.(lastThrottle := now), i, LoadDown(now))
    case LoadDown(now) => Put(g, i, if now >= g.lastDown + DOWN_WINDOW then CasDown(now, g.lastDown) else Resting)
    case CasDown(now, lastDown) =>
      if g.lastDown == lastDown then Put(g.(lastDown := now, downs := g.downs + [now]), i, RateDown) else Put(g, i, Resting)
    case RateDown => Put(g, i, StoreRate(g.rate - STEP_DOWN, false))
    case StoreRate(rate, takes) => Put(g.(rate := Clamp(rate)), i, if takes then LoadTake else Resting)
    case _ => g
  }

  function NextStep(g: Governor, i: nat, spurious: bool): Governor
    requires i < |g.callers|
  {
    match g.callers[i]
    case Swap(_) => StepRefill(g, i, spurious)
    case LoadRate(_, _) => StepRefill(g, i, spurious)
    case LoadTokens(_, _) => StepRefill(g, i, spurious)
    case CasTokens(_, _, _) => StepRefill(g, i, spurious)
    case LoadUp(_) => StepUp(g, i)
    case LoadQuiet(_, _) => StepUp(g, i)
    case CasUp(_, _) => StepUp(g, i)
    case RateUp => StepUp(g, i)
    case LoadTake => StepTake(g, i, spurious)
    case CasTake(_) => StepTake(g, i, spurious)
    case CountGrant => StepTake(g, i, spurious)
    case Resting => g
    case _ => StepDown(g, i)
  }

  function Step(g: Governor, e: Event): Governor {
    match e
    case TryTake(i, now) => if i < |g.callers| && g.callers[i] == Resting then Put(g, i, Swap(now)) else g
    case OnThrottle(i, now) => if i < |g.callers| && g.callers[i] == Resting then Put(g, i, StoreThrottle(now)) else g
    case Next(i, spurious) => if i < |g.callers| then NextStep(g, i, spurious) else g
  }

  function Run(callers: nat, events: seq<Event>): Governor {
    if events == [] then New(callers) else Step(Run(callers, events[..|events| - 1]), events[|events| - 1])
  }

  // ---------- The budget ----------

  /** Thousandths of a token a caller has drawn from the clock and not yet put into the bucket, or taken and not yet counted. */
  function Pending(c: Caller): real {
    match c
    case LoadRate(_, elapsed) => Drawn(elapsed, CEIL_RATE)
    case LoadTokens(_, add) => add
    case CasTokens(_, add, _) => add
    case CountGrant => TOKEN as real
    case _ => 0.0
  }

  function PendingTotal(callers: seq<Caller>): real {
    if callers == [] then 0.0 else PendingTotal(callers[..|callers| - 1]) + Pending(callers[|callers| - 1])
  }

  lemma {:induction false} PendingUpdate(callers: seq<Caller>, i: nat, c: Caller)
    requires i < |callers|
    ensures PendingTotal(callers[i := c]) == PendingTotal(callers) - Pending(callers[i]) + Pending(c)
  {
    var last := |callers| - 1;
    if i < last {
      PendingUpdate(callers[..last], i, c);
      assert callers[i := c][..last] == callers[..last][i := c];
    } else {
      assert callers[i := c][..last] == callers[..last];
    }
  }

  lemma {:induction false} RestingOwesNothing(n: nat)
    ensures PendingTotal(seq(n, _ => Resting)) == 0.0
  {
    if n > 0 {
      assert seq(n, _ => Resting)[..n - 1] == seq(n - 1, _ => Resting);
      RestingOwesNothing(n - 1);
    }
  }

  ghost predicate AddsAreFair(callers: seq<Caller>) {
    forall i | 0 <= i < |callers| :: Pending(callers[i]) >= 0.0
  }

  ghost predicate RateBounded(g: Governor) { FLOOR_RATE <= g.rate <= CEIL_RATE }

  function Spent(g: Governor): real {
    (TOKEN * g.acquires + g.tokens) as real + PendingTotal(g.callers)
  }

  function Allowance(ms: nat): real { MAX_BURST as real + CEIL_RATE * ms as real }

  /** How far a swap sets the refill time back: a caller overtaken between its clock and its swap puts an older time in. */
  function SetBack(g: Governor, e: Event): nat {
    if e.Next? && e.i < |g.callers| && g.callers[e.i].Swap? then Minus(g.lastRefill, g.callers[e.i].now) else 0
  }

  /** All set-backs of a run together. */
  function Regress(callers: nat, events: seq<Event>): nat
    decreases |events|
  {
    if events == [] then 0
    else
      var front := events[..|events| - 1];
      Regress(callers, front) + SetBack(Run(callers, front), events[|events| - 1])
  }

  /** Tokens granted, held and under way never exceed the burst and the ceiling rate times the time seen, set-backs included. */
  ghost predicate WithinBudget(g: Governor, regress: nat) {
    && RateBounded(g) && g.tokens <= MAX_BURST && AddsAreFair(g.callers)
    && Spent(g) <= Allowance(g.lastRefill + regress)
  }

  lemma TimesRate(elapsed: nat, rate: real)
    requires FLOOR_RATE <= rate <= CEIL_RATE
    ensures 0.0 <= Drawn(elapsed, rate) <= Drawn(elapsed, CEIL_RATE)
  {}

  lemma RefilledAtMost(cur: nat, add: real)
    requires add >= 0.0
    ensures Refilled(cur, add) <= MAX_BURST && Refilled(cur, add) as real <= cur as real + add
  {}

  lemma AllowanceGrows(last: nat, now: nat)
    requires last <= now
    ensures Allowance(now) == Allowance(last) + Drawn(now - last, CEIL_RATE)
  {}

  /** A step that changes one caller and nothing the budget counts. */
  lemma QuietStep(g: Governor, i: nat, c: Caller, next: Governor, regress: nat)
    requires i < |g.callers| && WithinBudget(g, regress) && 0.0 <= Pending(c) <= Pending(g.callers[i])
    requires next.callers == g.callers[i := c] && next.tokens == g.tokens && next.acquires == g.acquires
    requires next.lastRefill == g.lastRefill && RateBounded(next)
    ensures WithinBudget(next, regress)
  {
    PendingUpdate(g.callers, i, c);
  }

  lemma SwapStep(g: Governor, i: nat, now: nat, regress: nat)
    requires i < |g.callers| && WithinBudget(g, regress) && g.callers[i] == Swap(now)
    ensures WithinBudget(StepRefill(g, i, false), regress + Minus(g.lastRefill, now))
    ensures StepRefill(g, i, true) == StepRefill(g, i, false)
  {
    if now > g.lastRefill {
      PendingUpdate(g.callers, i, LoadRate(now, now - g.lastRefill));
      AllowanceGrows(g.lastRefill + regress, now + regress);
      TimesRate(now - g.lastRefill, CEIL_RATE);
    } else {
      PendingUpdate(g.callers, i, LoadUp(now));
    }
  }

  lemma RefillStep(g: Governor, i: nat, spurious: bool, regress: nat)
    requires i < |g.callers| && WithinBudget(g, regress)
    requires g.callers[i].LoadRate? || g.callers[i].LoadTokens? || g.callers[i].CasTokens?
    ensures WithinBudget(StepRefill(g, i, spurious), regress)
  {
    assert Pending(g.callers[i]) >= 0.0;
    match g.callers[i]
    case LoadRate(now, elapsed) =>
      TimesRate(elapsed, g.rate);
      QuietStep(g, i, LoadTokens(now, Drawn(elapsed, g.rate)), StepRefill(g, i, spurious), regress);
    case LoadTokens(now, add) =>
      QuietStep(g, i, CasTokens(now, add, g.tokens), StepRefill(g, i, spurious), regress);
    case CasTokens(now, add, cur) =>
      if cur == g.tokens && !spurious {
        RefilledAtMost(cur, add);
        PendingUpdate(g.callers, i, LoadUp(now));
      } else {
        QuietStep(g, i, CasTokens(now, add, g.tokens), StepRefill(g, i, spurious), regress);
      }
  }

  lemma TakeStep(g: Governor, i: nat, spurious: bool, regress: nat)
    requires i < |g.callers| && WithinBudget(g, regress)
    requires g.callers[i].LoadTake? || g.callers[i].CasTake? || g.callers[i].CountGrant?
    ensures WithinBudget(StepTake(g, i, spurious), regress)
  {
    var next := StepTake(g, i, spurious);
    match g.callers[i]
    case CountGrant =>
      PendingUpdate(g.callers, i, Resting);
    case CasTake(cur) =>
      if cur == g.tokens >= TOKEN && !spurious {
        PendingUpdate(g.callers, i, CountGrant);
      } else {
        QuietStep(g, i, next.callers[i], next, regress);
      }
    case LoadTake =>
      QuietStep(g, i, next.callers[i], next, regress);
  }

  /** The steps that only look at the rate and its windows. */
  lemma RateStep(g: Governor, i: nat, spurious: bool, regress: nat)
    requires i < |g.callers| && WithinBudget(g, regress) && (Pending(g.callers[i]) == 0.0) && !g.callers[i].Swap?
    requires !(g.callers[i].LoadRate? || g.callers[i].LoadTokens? || g.callers[i].CasTokens?)
    requires !(g.callers[i].LoadTake? || g.callers[i].CasTake? || g.callers[i].CountGrant? || g.callers[i].Resting?)
    ensures WithinBudget(NextStep(g, i, spurious), regress)
  {
    var next := NextStep(g, i, spurious);
    QuietStep(g, i, next.callers[i], next, regress);
  }

  lemma NextStepWithinBudget(g: Governor, i: nat, spurious: bool, regress: nat)
    requires i < |g.callers| && WithinBudget(g, regress)
    ensures WithinBudget(NextStep(g, i, spurious), regress + SetBack(g, Next(i, spurious)))
  {
    var c := g.callers[i];
    if c.Swap? {
      SwapStep(g, i, c.now, regress);
    } else if c.LoadRate? || c.LoadTokens? || c.CasTokens? {
      RefillStep(g, i, spurious, regress);
    } else if c.LoadTake? || c.CasTake? || c.CountGrant? {
      TakeStep(g, i, spurious, regress);
    } else if c != Resting {
      RateStep(g, i, spurious, regress);
    }
  }

  lemma BudgetStep(g: Governor, e: Event, regress: nat)
    requires WithinBudget(g, regress)
    ensures WithinBudget(Step(g, e), regress + SetBack(g, e))
  {
    if e.i < |g.callers| {
      match e
      case TryTake(i, now) => if g.callers[i] == Resting { QuietStep(g, i, Swap(now), Step(g, e), regress); }
      case OnThrottle(i, now) => if g.callers[i] == Resting { QuietStep(g, i, StoreThrottle(now), Step(g, e), regress); }
      case Next(i, spurious) => NextStepWithinBudget(g, i, spurious, regress);
    }
  }

  lemma NewWithinBudget(callers: nat)
    ensures WithinBudget(New(callers), 0)
  {
    RestingOwesNothing(callers);
  }

  lemma {:induction false} RunWithinBudget(callers: nat, events: seq<Event>)
    ensures WithinBudget(Run(callers, events), Regress(callers, events))
    decreases |events|
  {
    if events == [] {
      NewWithinBudget(callers);
    } else {
      RunWithinBudget(callers, events[..|events| - 1]);
      BudgetStep(Run(callers, events[..|events| - 1]), events[|events| - 1], Regress(callers, events[..|events| - 1]));
    }
  }

  lemma {:induction false} PendingNotNegative(callers: seq<Caller>)
    requires AddsAreFair(callers)
    ensures PendingTotal(callers) >= 0.0
  {
    if callers != [] {
      PendingNotNegative(callers[..|callers| - 1]);
    }
  }

  /** Calls granted so far and tokens held, in thousandths, against the burst and so much time at the ceiling rate. */
  predicate WithinTime(g: Governor, ms: int) { TOKEN * g.acquires + g.tokens <= MAX_BURST + 3200 * ms }

  /**
   * Under every interleaving, calls granted so far, in thousandths, stay within the initial burst plus
   * the ceiling rate times the time the refills have seen, where a stretch that a swap set back counts
   * again.
   */
  lemma BudgetTheorem(callers: nat, events: seq<Event>)
    ensures WithinTime(Run(callers, events), Run(callers, events).lastRefill + Regress(callers, events))
    ensures FLOOR_RATE <= Run(callers, events).rate <= CEIL_RATE
  {
    var g, time := Run(callers, events), Run(callers, events).lastRefill + Regress(callers, events);
    RunWithinBudget(callers, events);
    PendingNotNegative(g.callers);
    assert (TOKEN * g.acquires + g.tokens) as real <= (MAX_BURST + 3200 * time) as real;
  }

  // ---------- What a number of callers can draw ----------

  /** The clock readings of a run never run backwards. */
  predicate ClockForward(events: seq<Event>) {
    forall i, j | 0 <= i < j < |events| && !events[i].Next? && !events[j].Next? :: events[i].now <= events[j].now
  }

  function Reading(e: Event): nat { if e.Next? then 0 else e.now }

  /** The latest clock reading. */
  function Latest(events: seq<Event>): nat {
    if events == [] then 0 else Larger(Latest(events[..|events| - 1]), Reading(events[|events| - 1]))
  }

  lemma {:induction false} LatestAtMost(events: seq<Event>, t: nat)
    requires forall i | 0 <= i < |events| :: Reading(events[i]) <= t
    ensures Latest(events) <= t
  {
    if events != [] {
      LatestAtMost(events[..|events| - 1], t);
    }
  }

  lemma ReadingIsLatest(events: seq<Event>, e: Event)
    requires ClockForward(events + [e]) && !e.Next?
    ensures Latest(events) <= e.now
  {
    forall i | 0 <= i < |events| ensures Reading(events[i]) <= e.now {
      assert (events + [e])[i] == events[i] && (events + [e])[|events|] == e;
    }
    LatestAtMost(events, e.now);
  }

  /** By how much a caller in front of its swap may still set back what has been seen up to `high`. */
  function Stale(c: Caller, high: nat): nat { if c.Swap? then Minus(high, c.now) else 0 }

  function StaleTotal(callers: seq<Caller>, high: nat): nat {
    if callers == [] then 0 else StaleTotal(callers[..|callers| - 1], high) + Stale(callers[|callers| - 1], high)
  }

  lemma {:induction false} StaleUpdate(callers: seq<Caller>, i: nat, c: Caller, high: nat)
    requires i < |callers|
    ensures StaleTotal(callers[i := c], high) + Stale(callers[i], high) == StaleTotal(callers, high) + Stale(c, high)
  {
    var last := |callers| - 1;
    if i < last {
      StaleUpdate(callers[..last], i, c, high);
      assert callers[i := c][..last] == callers[..last][i := c];
    } else {
      assert callers[i := c][..last] == callers[..last];
    }
  }

  lemma {:induction false} RestingIsNotStale(n: nat, high: nat)
    ensures StaleTotal(seq(n, _ => Resting), high) == 0
  {
    if n > 0 {
      assert seq(n, _ => Resting)[..n - 1] == seq(n - 1, _ => Resting);
      RestingIsNotStale(n - 1, high);
    }
  }

  lemma OneTimeMore(n: nat, d: nat)
    ensures (n + 1) * d == n * d + d
  {}

  /** When the highest time rises, every caller may lag so much further behind. */
  lemma {:induction false} StaleRises(callers: seq<Caller>, high: nat, d: nat)
    ensures StaleTotal(callers, high + d) <= StaleTotal(callers, high) + |callers| * d
  {
    if callers != [] {
      StaleRises(callers[..|callers| - 1], high, d);
      OneTimeMore(|callers| - 1, d);
    }
  }

  /** Every caller but one that has just swapped. */
  lemma {:induction false} OthersRise(callers: seq<Caller>, i: nat, high: nat, d: nat)
    requires i < |callers| && !callers[i].Swap?
    ensures StaleTotal(callers, high + d) <= StaleTotal(callers, high) + (|callers| - 1) * d
  {
    var last := |callers| - 1;
    if i == last {
      StaleRises(callers[..last], high, d);
    } else {
      OthersRise(callers[..last], i, high, d);
      OneTimeMore(last - 1, d);
    }
  }

  /** What has been set back, and what still may be, is at most the time seen, once for each caller but one. */
  ghost predicate Lagging(g: Governor, regress: nat, high: nat, latest: nat) {
    && g.lastRefill <= high <= latest
    && (forall i | 0 <= i < |g.callers| :: g.callers[i].Swap? ==> g.callers[i].now <= latest)
    && regress + StaleTotal(g.callers, high) <= Minus(|g.callers|, 1) * high
  }

  lemma CallLags(g: Governor, i: nat, c: Caller, regress: nat, high: nat, latest: nat, now: nat)
    requires Lagging(g, regress, high, latest) && i < |g.callers| && g.callers[i] == Resting && latest <= now
    requires c.Swap? ==> c.now == now
    ensures Lagging(Put(g, i, c), regress, high, now)
  {
    StaleUpdate(g.callers, i, c, high);
  }

  lemma LateSwapLags(callers: seq<Caller>, i: nat, c: Caller, regress: nat, high: nat, lastRefill: nat)
    requires i < |callers| && callers[i].Swap? && !c.Swap? && lastRefill <= high
    requires regress + StaleTotal(callers, high) <= (|callers| - 1) * high
    ensures regress + Minus(lastRefill, callers[i].now) + StaleTotal(callers[i := c], high) <= (|callers| - 1) * high
  {
    StaleUpdate(callers, i, c, high);
  }

  lemma FreshSwapLags(callers: seq<Caller>, i: nat, c: Caller, regress: nat, high: nat, now: nat)
    requires i < |callers| && callers[i] == Swap(now) && !c.Swap? && high < now
    requires regress + StaleTotal(callers, high) <= (|callers| - 1) * high
    ensures regress + StaleTotal(callers[i := c], now) <= (|callers| - 1) * now
  {
    StaleUpdate(callers, i, c, high);
    OthersRise(callers[i := c], i, high, now - high);
    Distributes(|callers| - 1, high, now - high);
  }

  lemma Distributes(n: nat, a: nat, b: nat)
    ensures n * (a + b) == n * a + n * b
  {}

  lemma SwapLags(g: Governor, i: nat, spurious: bool, regress: nat, high: nat, latest: nat)
    requires Lagging(g, regress, high, latest) && i < |g.callers| && g.callers[i].Swap?
    ensures var next := StepRefill(g, i, spurious);
      Lagging(next, regress + Minus(g.lastRefill, g.callers[i].now), Larger(high, next.lastRefill), latest)
  {
    var now := g.callers[i].now;
    var next := StepRefill(g, i, spurious);
    if high < now {
      FreshSwapLags(g.callers, i, next.callers[i], regress, high, now);
    } else {
      LateSwapLags(g.callers, i, next.callers[i], regress, high, g.lastRefill);
    }
  }

  /** No other step starts a swap or moves the refill time. */
  lemma OtherStepLags(g: Governor, i: nat, spurious: bool, next: Governor)
    requires i < |g.callers| && !g.callers[i].Swap? && g.callers[i] != Resting && next == NextStep(g, i, spurious)
    ensures |next.callers| == |g.callers| && next.callers == g.callers[i := next.callers[i]] && !next.callers[i].Swap?
    ensures next.lastRefill == g.lastRefill
  {}

  lemma StillLags(g: Governor, i: nat, next: Governor, regress: nat, high: nat, latest: nat)
    requires Lagging(g, regress, high, latest) && i < |g.callers| == |next.callers| && !g.callers[i].Swap?
    requires next.callers == g.callers[i := next.callers[i]] && !next.callers[i].Swap? && next.lastRefill == g.lastRefill
    ensures Lagging(next, regress, high, latest)
  {
    StaleUpdate(g.callers, i, next.callers[i], high);
  }

  lemma NextLags(g: Governor, i: nat, spurious: bool, regress: nat, high: nat, latest: nat)
    requires Lagging(g, regress, high, latest) && i < |g.callers|
    ensures var next := NextStep(g, i, spurious);
      Lagging(next, regress + SetBack(g, Next(i, spurious)), Larger(high, next.lastRefill), latest)
  {
    if g.callers[i].Swap? {
      SwapLags(g, i, spurious, regress, high, latest);
    } else if g.callers[i] != Resting {
      var next := NextStep(g, i, spurious);
      OtherStepLags(g, i, spurious, next);
      StillLags(g, i, next, regress, high, latest);
    }
  }

  lemma StepLags(g: Governor, e: Event, regress: nat, high: nat, latest: nat)
    requires Lagging(g, regress, high, latest) && (!e.Next? ==> latest <= e.now)
    ensures var next := Step(g, e);
      Lagging(next, regress + SetBack(g, e), Larger(high, next.lastRefill), Larger(latest, Reading(e)))
  {
    match e
    case TryTake(i, now) =>
      if i < |g.callers| && g.callers[i] == Resting { CallLags(g, i, Swap(now), regress, high, latest, now); }
    case OnThrottle(i, now) =>
      if i < |g.callers| && g.callers[i] == Resting { CallLags(g, i, StoreThrottle(now), regress, high, latest, now); }
    case Next(i, spurious) =>
      if i < |g.callers| { NextLags(g, i, spurious, regress, high, latest); }
  }

  /** The highest refill time of a run. */
  function High(callers: nat, events: seq<Event>): nat {
    if events == [] then 0 else Larger(High(callers, events[..|events| - 1]), Run(callers, events).lastRefill)
  }

  lemma {:induction false} CallersStay(callers: nat, events: seq<Event>)
    ensures |Run(callers, events).callers| == callers
  {
    if events != [] {
      CallersStay(callers, events[..|events| - 1]);
      StepKeepsCallers(Run(callers, events[..|events| - 1]), events[|events| - 1]);
    }
  }

  lemma StepKeepsCallers(g: Governor, e: Event)
    ensures |Step(g, e).callers| == |g.callers|
  {}

  lemma {:induction false} RunLags(callers: nat, events: seq<Event>)
    requires ClockForward(events)
    ensures Lagging(Run(callers, events), Regress(callers, events), High(callers, events), Latest(events))
    decreases |events|
  {
    if events == [] {
      RestingIsNotStale(callers, 0);
    } else {
      var front, last := events[..|events| - 1], events[|events| - 1];
      RunLags(callers, front);
      assert events == front + [last];
      if !last.Next? {
        ReadingIsLatest(front, last);
      }
      StepLags(Run(callers, front), last, Regress(callers, front), High(callers, front), Latest(front));
    }
  }

  /**
   * On a clock that does not run backwards, `n` callers draw at most `n` times the ceiling rate: each of
   * them but one may once let a stretch of time be drawn again.
   */
  lemma CallersTheorem(callers: nat, events: seq<Event>)
    requires ClockForward(events)
    ensures Regress(callers, events) <= Minus(callers, 1) * Latest(events)
    ensures WithinTime(Run(callers, events), callers * Latest(events))
  {
    var g, high, latest := Run(callers, events), High(callers, events), Latest(events);
    CallersStay(callers, events);
    RunLags(callers, events);
    BudgetTheorem(callers, events);
    if callers == 0 {
      NobodyRefills(events);
    }
    InAll(callers, Regress(callers, events), g.lastRefill, high, latest);
    WithinLater(g, g.lastRefill + Regress(callers, events), callers * latest);
  }

  lemma InAll(n: nat, regress: nat, lastRefill: nat, high: nat, latest: nat)
    requires lastRefill <= high <= latest && regress <= Minus(n, 1) * high && (n == 0 ==> lastRefill == 0)
    ensures regress <= Minus(n, 1) * latest && lastRefill + regress <= n * latest
  {
    Distributes(Minus(n, 1), high, latest - high);
    OneTimeMore(Minus(n, 1), latest);
  }

  lemma WithinLater(g: Governor, a: int, b: int)
    requires WithinTime(g, a) && a <= b
    ensures WithinTime(g, b)
  {}

  lemma {:induction false} NobodyRefills(events: seq<Event>)
    ensures Run(0, events) == New(0)
  {
    if events != [] {
      NobodyRefills(events[..|events| - 1]);
    }
  }

  /** A run without set-backs keeps the plain budget. */
  lemma NoSetBack(callers: nat, events: seq<Event>)
    requires Regress(callers, events) == 0
    ensures WithinTime(Run(callers, events), Run(callers, events).lastRefill)
  {
    BudgetTheorem(callers, events);
  }

  // ---------- When the plain budget fails ----------

  /** A caller reads the clock and takes so many steps. */
  function Try(i: nat, now: nat, steps: nat): seq<Event> { [TryTake(i, now)] + seq(steps, _ => Next(i, false)) }

  function Turns(g: Governor, i: nat, n: nat): Governor
    requires i < |g.callers|
    ensures |Turns(g, i, n).callers| == |g.callers|
    decreases n
  {
    if n == 0 then g else Turns(NextStep(g, i, false), i, n - 1)
  }

  lemma {:induction false} RunOn(callers: nat, events: seq<Event>, g: Governor, i: nat, n: nat)
    requires g == Run(callers, events) && i < |g.callers|
    ensures Run(callers, events + seq(n, _ => Next(i, false))) == Turns(g, i, n)
    decreases n
  {
    if n == 0 {
      assert events + seq(n, _ => Next(i, false)) == events;
    } else {
      var next := NextRuns(callers, events, g, i, n - 1);
      RunOn(callers, events + [Next(i, false)], next, i, n - 1);
      NextsFollow(events, i, n);
    }
  }

  lemma NextRuns(callers: nat, events: seq<Event>, g: Governor, i: nat, n: nat) returns (next: Governor)
    requires g == Run(callers, events) && i < |g.callers|
    ensures next == Run(callers, events + [Next(i, false)]) && i < |next.callers| && Turns(g, i, n + 1) == Turns(next, i, n)
  {
    next := NextStep(g, i, false);
    RunAppend(callers, events, Next(i, false));
  }

  lemma NextsFollow(events: seq<Event>, i: nat, n: nat)
    requires n > 0
    ensures events + seq(n, _ => Next(i, false)) == (events + [Next(i, false)]) + seq(n - 1, _ => Next(i, false))
  {}

  lemma RunAppend(callers: nat, events: seq<Event>, e: Event)
    ensures Run(callers, events + [e]) == Step(Run(callers, events), e)
  {
    assert (events + [e])[..|events|] == events;
  }

  lemma RunTries(callers: nat, events: seq<Event>, g: Governor, i: nat, now: nat, n: nat)
    requires g == Run(callers, events) && i < |g.callers| && g.callers[i] == Resting
    ensures Run(callers, events + Try(i, now, n)) == Turns(Put(g, i, Swap(now)), i, n)
  {
    var called := events + [TryTake(i, now)];
    RunAppend(callers, events, TryTake(i, now));
    RunOn(callers, called, Put(g, i, Swap(now)), i, n);
    assert events + Try(i, now, n) == called + seq(n, _ => Next(i, false));
  }

  /** One turn, whose outcome is `next`. */
  lemma TurnTo(g: Governor, i: nat, next: Governor, n: nat)
    requires i < |g.callers| && next == NextStep(g, i, false)
    ensures Turns(g, i, n + 1) == Turns(next, i, n)
  {}

  /** The caller has been granted a call. */
  function Granted(g: Governor, i: nat): Governor
    requires i < |g.callers| && g.tokens >= TOKEN
  {
    Put(g.(tokens := g.tokens - TOKEN, acquires := g.acquires + 1), i, Resting)
  }

  /** A caller that finds a token takes it. */
  lemma Takes(g: Governor, i: nat, n: nat)
    requires i < |g.callers| && g.callers[i] == LoadTake && g.tokens >= TOKEN
    ensures Turns(g, i, n + 3) == Turns(Granted(g, i), i, n)
  {
    var g1 := Put(g, i, CasTake(g.tokens));
    TurnTo(g, i, g1, n + 2);
    var g2 := Put(g1.(tokens := g.tokens - TOKEN), i, CountGrant);
    TurnTo(g1, i, g2, n + 1);
    var g3 := Put(g2.(acquires := g.acquires + 1), i, Resting);
    TurnTo(g2, i, g3, n);
    assert g3.callers == Granted(g, i).callers;
  }

  /** Too early for a step up, a caller goes on to take. */
  lemma SkipsUp(g: Governor, i: nat, now: nat, n: nat)
    requires i < |g.callers| && g.callers[i] == LoadUp(now) && now < g.lastUp + RECOVER_INTERVAL
    ensures Turns(g, i, n + 2) == Turns(Put(g, i, LoadTake), i, n)
  {
    var g1 := Put(g, i, LoadQuiet(now, g.lastUp));
    TurnTo(g, i, g1, n + 1);
    assert Put(g1, i, LoadTake) == Put(g, i, LoadTake);
    TurnTo(g1, i, Put(g, i, LoadTake), n);
  }

  lemma SkipsAndTakes(g: Governor, i: nat, now: nat, n: nat)
    requires i < |g.callers| && g.callers[i] == LoadUp(now) && g.tokens >= TOKEN && now < g.lastUp + RECOVER_INTERVAL
    ensures Turns(g, i, n + 5) == Turns(Granted(g, i), i, n)
  {
    SkipsUp(g, i, now, n + 3);
    Takes(Put(g, i, LoadTake), i, n);
    assert Granted(Put(g, i, LoadTake), i).callers == Granted(g, i).callers;
  }

  /** A granted call at a time already refilled for. */
  lemma PlainTake(g: Governor, i: nat, n: nat)
    requires i < |g.callers| && g.callers[i] == Resting && g.tokens >= TOKEN && g.lastRefill < g.lastUp + RECOVER_INTERVAL
    ensures Turns(Put(g, i, Swap(g.lastRefill)), i, n + 6) == Turns(Granted(g, i), i, n)
  {
    var called, g1 := Put(g, i, Swap(g.lastRefill)), Put(g, i, LoadUp(g.lastRefill));
    TurnTo(called, i, g1, n + 5);
    SkipsAndTakes(g1, i, g.lastRefill, n);
    assert Granted(g1, i).callers == Granted(g, i).callers;
  }

  /** A caller that finds a millisecond to refill for puts its tokens into the bucket. */
  lemma Refills(g: Governor, i: nat, now: nat, n: nat)
    requires i < |g.callers| && g.callers[i] == Swap(now) && now == g.lastRefill + 1
    requires g.rate == START_RATE && g.tokens <= 2200
    ensures Turns(g, i, n + 4) == Turns(Put(g.(lastRefill := now, tokens := g.tokens + 1800), i, LoadUp(now)), i, n)
  {
    var g1 := Put(g.(lastRefill := now), i, LoadRate(now, 1));
    TurnTo(g, i, g1, n + 3);
    var g2 := Put(g1, i, LoadTokens(now, 1800.0));
    TurnTo(g1, i, g2, n + 2);
    var g3 := Put(g2, i, CasTokens(now, 1800.0, g.tokens));
    TurnTo(g2, i, g3, n + 1);
    var g4 := Put(g3.(tokens := g.tokens + 1800), i, LoadUp(now));
    assert Refilled(g.tokens, 1800.0) == g.tokens + 1800;
    TurnTo(g3, i, g4, n);
    assert g4.callers == g.callers[i := LoadUp(now)];
  }

  /** A granted call that refills for a millisecond first. */
  lemma RefillTake(g: Governor, i: nat, n: nat)
    requires i < |g.callers| && g.callers[i] == Resting && g.rate == START_RATE && g.tokens <= 2200
    requires g.lastRefill + 1 < g.lastUp + RECOVER_INTERVAL
    ensures Turns(Put(g, i, Swap(g.lastRefill + 1)), i, n + 9)
         == Turns(Granted(g.(lastRefill := g.lastRefill + 1, tokens := g.tokens + 1800), i), i, n)
  {
    var now := g.lastRefill + 1;
    var called := Put(g, i, Swap(now));
    var refilled := Put(called.(lastRefill := now, tokens := g.tokens + 1800), i, LoadUp(now));
    Refills(called, i, now, n + 5);
    SkipsAndTakes(refilled, i, now, n);
    assert Granted(refilled, i).callers == g.callers[i := Resting];
  }

  /** Four calls empty the burst. */
  function Emptying(): seq<Event> { Try(1, 0, 6) + Try(1, 0, 6) + Try(1, 0, 6) + Try(1, 0, 6) }

  /** Then caller 0 reads the clock and stalls, caller 1 refills a millisecond later, 0 swaps, and 1 refills again. */
  function Overtaking(): seq<Event> { Emptying() + Try(0, 0, 0) + Try(1, 1, 9) + [Next(0, false)] + Try(1, 1, 9) }

  lemma OneTake(n: nat, events: seq<Event>, g: Governor)
    requires g == Run(n, events) && |g.callers| == n >= 2 && g.callers[1] == Resting && g.tokens >= TOKEN
    requires g.lastRefill == 0
    ensures Run(n, events + Try(1, 0, 6)) == g.(tokens := g.tokens - TOKEN, acquires := g.acquires + 1)
  {
    var rest := 0;
    RunTries(n, events, g, 1, 0, rest + 6);
    PlainTake(g, 1, rest);
    assert Granted(g, 1).callers == g.callers;
  }

  lemma EmptyingRuns(n: nat)
    requires n >= 2
    ensures Run(n, Emptying()) == New(n).(tokens := 0, acquires := 4)
  {
    var one := Try(1, 0, 6);
    OneTake(n, [], New(n));
    assert [] + one == one;
    OneTake(n, one, New(n).(tokens := 3000, acquires := 1));
    OneTake(n, one + one, New(n).(tokens := 2000, acquires := 2));
    OneTake(n, one + one + one, New(n).(tokens := 1000, acquires := 3));
  }

  lemma OneRefillTake(n: nat, events: seq<Event>, g: Governor)
    requires g == Run(n, events) && |g.callers| == n >= 2 && g.callers[1] == Resting && g.rate == START_RATE && g.tokens <= 2200
    requires g.lastRefill == 0 && g.lastUp == 0
    ensures Run(n, events + Try(1, 1, 9)) == g.(lastRefill := 1, tokens := g.tokens + 800, acquires := g.acquires + 1)
  {
    var rest := 0;
    RunTries(n, events, g, 1, 1, rest + 9);
    RefillTake(g, 1, rest);
    assert g.callers[1 := Resting] == g.callers;
  }

  lemma Stalls(n: nat, events: seq<Event>, g: Governor)
    requires g == Run(n, events) && |g.callers| == n >= 2 && g.callers[0] == Resting
    ensures Run(n, events + Try(0, 0, 0)) == g.(callers := g.callers[0 := Swap(0)])
  {
    RunAppend(n, events, TryTake(0, 0));
    assert Try(0, 0, 0) == [TryTake(0, 0)];
  }

  lemma SwapsLate(n: nat, events: seq<Event>, g: Governor)
    requires g == Run(n, events) && |g.callers| == n >= 2 && g.callers[0] == Swap(0)
    ensures Run(n, events + [Next(0, false)]) == g.(lastRefill := 0, callers := g.callers[0 := LoadUp(0)])
  {
    RunAppend(n, events, Next(0, false));
  }

  lemma OvertakingRuns(n: nat)
    requires n >= 2
    ensures var g := Run(n, Overtaking()); g.acquires == 6 && g.tokens == 1600 && g.lastRefill == 1
  {
    EmptyingRuns(n);
    var g := New(n).(tokens := 0, acquires := 4);
    Stalls(n, Emptying(), g);
    var stalled, g1 := Emptying() + Try(0, 0, 0), g.(callers := g.callers[0 := Swap(0)]);
    OneRefillTake(n, stalled, g1);
    var refilled, g2 := stalled + Try(1, 1, 9), g1.(lastRefill := 1, tokens := 800, acquires := 5);
    SwapsLate(n, refilled, g2);
    OneRefillTake(n, refilled + [Next(0, false)], g2.(lastRefill := 0, callers := g2.callers[0 := LoadUp(0)]));
  }

  /**
   * With two callers or more, on a clock that never runs backwards, the plain budget is broken: a caller that is
   * overtaken between reading the clock and its swap lets the same millisecond be drawn twice. The bound
   * is broken against the refill time and against the latest reading.
   */
  lemma OvertakenSwapOverdraws(n: nat)
    requires n >= 2
    ensures ClockForward(Overtaking()) && Latest(Overtaking()) == 1
    ensures !WithinTime(Run(n, Overtaking()), Run(n, Overtaking()).lastRefill)
    ensures !WithinTime(Run(n, Overtaking()), Latest(Overtaking()))
  {
    OvertakingRuns(n);
    ReadingsForward();
  }

  /** The plain budget holds of every run on a clock that never runs backwards if and only if there is at most one caller. */
  lemma PlainBudgetTheorem(callers: nat)
    ensures (forall events | ClockForward(events) :: WithinTime(Run(callers, events), Run(callers, events).lastRefill)) <==> callers <= 1
    ensures (forall events | ClockForward(events) :: WithinTime(Run(callers, events), Latest(events))) <==> callers <= 1
  {
    if callers <= 1 {
      forall events | ClockForward(events)
        ensures WithinTime(Run(callers, events), Run(callers, events).lastRefill) && WithinTime(Run(callers, events), Latest(events))
      {
        CallersTheorem(callers, events);
        NoSetBack(callers, events);
        RunLags(callers, events);
      }
    } else {
      OvertakenSwapOverdraws(callers);
    }
  }

  lemma {:induction false} ReadingsUpTo(events: seq<Event>, i: nat)
    requires i < |events|
    ensures Reading(events[i]) <= Latest(events)
  {
    if i < |events| - 1 {
      ReadingsUpTo(events[..|events| - 1], i);
    }
  }

  lemma ReadingsForward()
    ensures ClockForward(Overtaking()) && Latest(Overtaking()) == 1
  {
    var early := Emptying() + Try(0, 0, 0);
    forall i | 0 <= i < |early| && !early[i].Next? ensures early[i].now == 0 {}
    var late := Try(1, 1, 9) + [Next(0, false)] + Try(1, 1, 9);
    forall i | 0 <= i < |late| && !late[i].Next? ensures late[i].now == 1 {}
    assert Overtaking() == early + late;
    assert late[0].now == 1 && Overtaking()[|early|] == late[0];
    ReadingsUpTo(Overtaking(), |early|);
    forall i | 0 <= i < |Overtaking()| ensures Reading(Overtaking()[i]) <= 1 {}
    LatestAtMost(Overtaking(), 1);
  }

  // ---------- Step windows ----------

  /** Applied steps are at least `gap` apart, the first of them counted from the start of the clock. */
  ghost predicate Spaced(slots: seq<nat>, last: nat, gap: nat) {
    && (if slots == [] then last == 0 else last == slots[|slots| - 1] && slots[0] >= gap)
    && forall k | 0 < k < |slots| :: slots[k - 1] + gap <= slots[k]
  }

  /** A caller about to exchange has seen a window's length since the value it expects. */
  ghost predicate WindowSeen(c: Caller) {
    && (c.CasDown? ==> c.now >= c.lastDown + DOWN_WINDOW)
    && (c.CasUp? ==> c.now >= c.lastUp + RECOVER_INTERVAL)
  }

  ghost predicate StepsSpaced(g: Governor) {
    && Spaced(g.downs, g.lastDown, DOWN_WINDOW) && Spaced(g.ups, g.lastUp, RECOVER_INTERVAL)
    && AllSeen(g.callers)
  }

  ghost predicate AllSeen(callers: seq<Caller>) {
    forall i | 0 <= i < |callers| :: WindowSeen(callers[i])
  }

  lemma SpacedAppend(slots: seq<nat>, last: nat, gap: nat, now: nat)
    requires Spaced(slots, last, gap) && now >= last + gap
    ensures Spaced(slots + [now], now, gap)
  {}

  lemma CallerMoves(callers: seq<Caller>, i: nat, c: Caller)
    requires i < |callers| && WindowSeen(c) && AllSeen(callers)
    ensures AllSeen(callers[i := c])
  {}

  lemma UnspacedStep(g: Governor, i: nat, c: Caller, next: Governor)
    requires i < |g.callers| && StepsSpaced(g) && WindowSeen(c) && next.callers == g.callers[i := c]
    requires next.downs == g.downs && next.lastDown == g.lastDown && next.ups == g.ups && next.lastUp == g.lastUp
    ensures StepsSpaced(next)
  {
    CallerMoves(g.callers, i, c);
  }

  lemma SpacedDown(g: Governor, i: nat, now: nat)
    requires i < |g.callers| && StepsSpaced(g) && g.callers[i] == CasDown(now, g.lastDown)
    ensures StepsSpaced(StepDown(g, i))
  {
    assert WindowSeen(g.callers[i]);
    SpacedAppend(g.downs, g.lastDown, DOWN_WINDOW, now);
    CallerMoves(g.callers, i, RateDown);
  }

  lemma SpacedUp(g: Governor, i: nat, now: nat)
    requires i < |g.callers| && StepsSpaced(g) && g.callers[i] == CasUp(now, g.lastUp)
    ensures StepsSpaced(StepUp(g, i))
  {
    assert WindowSeen(g.callers[i]);
    SpacedAppend(g.ups, g.lastUp, RECOVER_INTERVAL, now);
    CallerMoves(g.callers, i, RateUp);
  }

  /** A step other than a successful exchange of a step time. */
  lemma OtherStep(g: Governor, i: nat, spurious: bool, next: Governor)
    requires i < |g.callers| && g.callers[i] != Resting && next == NextStep(g, i, spurious)
    requires !(g.callers[i].CasDown? && g.lastDown == g.callers[i].lastDown)
    requires !(g.callers[i].CasUp? && g.lastUp == g.callers[i].lastUp)
    ensures |next.callers| == |g.callers| && next.callers == g.callers[i := next.callers[i]] && WindowSeen(next.callers[i])
    ensures next.downs == g.downs && next.lastDown == g.lastDown && next.ups == g.ups && next.lastUp == g.lastUp
  {}

  lemma SpacedNext(g: Governor, i: nat, spurious: bool)
    requires i < |g.callers| && StepsSpaced(g)
    ensures StepsSpaced(NextStep(g, i, spurious))
  {
    var c := g.callers[i];
    if c.CasDown? && g.lastDown == c.lastDown {
      SpacedDown(g, i, c.now);
    } else if c.CasUp? && g.lastUp == c.lastUp {
      SpacedUp(g, i, c.now);
    } else if c != Resting {
      var next := NextStep(g, i, spurious);
      OtherStep(g, i, spurious, next);
      UnspacedStep(g, i, next.callers[i], next);
    }
  }

  lemma SpacedStep(g: Governor, e: Event)
    requires StepsSpaced(g)
    ensures StepsSpaced(Step(g, e))
  {
    if e.i < |g.callers| {
      match e
      case TryTake(i, now) => if g.callers[i] == Resting { UnspacedStep(g, i, Swap(now), Step(g, e)); }
      case OnThrottle(i, now) => if g.callers[i] == Resting { UnspacedStep(g, i, StoreThrottle(now), Step(g, e)); }
      case Next(i, spurious) => SpacedNext(g, i, spurious);
    }
  }

  /** Under every interleaving of loads and exchanges, down steps are 100 ms apart and up slots 500 ms, on any clock. */
  lemma {:induction false} SpacingTheorem(callers: nat, events: seq<Event>)
    ensures StepsSpaced(Run(callers, events))
    decreases |events|
  {
    if events != [] {
      SpacingTheorem(callers, events[..|events| - 1]);
      SpacedStep(Run(callers, events[..|events| - 1]), events[|events| - 1]);
    }
  }
}
