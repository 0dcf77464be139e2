/** What the governor's operations do to rate and tokens: undisturbed, and in every run. */
module RateLaws {
  import opened Arithmetic
  import opened RateGovernor

  // ---------- One operation that nobody disturbs ----------

  /** A caller at rest stays there. */
  lemma {:induction false} Rests(g: Governor, i: nat, n: nat)
    requires i < |g.callers| && g.callers[i] == Resting
    ensures Turns(g, i, n) == g
    decreases n
  {
    if n > 0 {
      Rests(g, i, n - 1);
    }
  }

  /** The governor after a 503 at `now`: one step down of 100, to 200 at the least, unless one was taken within 100 ms. */
  function Throttled(g: Governor, now: nat): Governor {
    if now < g.lastDown + 100 then g.(lastThrottle := now)
    else
      g.(lastThrottle := now, lastDown := now, downs := g.downs + [now],
         rate := if g.rate - 100.0 < 200.0 then 200.0 else g.rate - 100.0)
  }

  lemma BackToRest(callers: seq<Caller>, i: nat, c: Caller)
    requires i < |callers| && callers[i] == Resting
    ensures callers[i := c][i := Resting] == callers
  {}

  lemma StepsDown(g: Governor, i: nat, now: nat, n: nat)
    requires i < |g.callers| && g.callers[i] == LoadDown(now) && now >= g.lastDown + 100 && RateBounded(g)
    ensures Turns(g, i, n + 4) == Turns(Put(Throttled(g, now).(lastThrottle := g.lastThrottle), i, Resting), i, n)
  {
    var g1 := Put(g, i, CasDown(now, g.lastDown));
    TurnTo(g, i, g1, n + 3);
    var g2 := Put(g1.(lastDown := now, downs := g.downs + [now]), i, RateDown);
    TurnTo(g1, i, g2, n + 2);
    var g3 := Put(g2, i, StoreRate(g.rate - STEP_DOWN, false));
    TurnTo(g2, i, g3, n + 1);
    var g4 := Put(g3.(rate := Clamp(g.rate - STEP_DOWN)), i, Resting);
    TurnTo(g3, i, g4, n);
    assert g4.callers == g.callers[i := Resting];
  }

  lemma StaysUp(g: Governor, i: nat, now: nat, n: nat)
    requires i < |g.callers| && g.callers[i] == LoadDown(now) && now < g.lastDown + 100
    ensures Turns(g, i, n + 1) == Turns(Put(g, i, Resting), i, n)
  {
    TurnTo(g, i, Put(g, i, Resting), n);
  }

  /** A call to `on_throttle` that runs to its end does this and nothing else; the tokens stay. */
  lemma ThrottleTheorem(g: Governor, i: nat, now: nat, n: nat)
    requires i < |g.callers| && g.callers[i] == Resting && RateBounded(g) && n >= 5
    ensures Turns(Step(g, OnThrottle(i, now)), i, n) == Throttled(g, now)
  {
    var called, stored := Put(g, i, StoreThrottle(now)), Put(g.(lastThrottle := now), i, LoadDown(now));
    assert Put(called.(lastThrottle := now), i, LoadDown(now)) == stored;
    TurnTo(called, i, stored, n - 1);
    BackToRest(g.callers, i, LoadDown(now));
    if now >= g.lastDown + 100 {
      StepsDown(stored, i, now, n - 5);
    } else {
      StaysUp(stored, i, now, n - 2);
    }
    assert Put(Throttled(g, now), i, Resting) == Throttled(g, now) by {
      BackToRest(g.callers, i, Resting);
    }
    Rests(Throttled(g, now), i, n - 5);
    Rests(Throttled(g, now), i, n - 2);
  }

  /** The bucket after a refill at `now`: what the rate gives for the time since the last one, 4000 at the most. */
  function TokensAt(g: Governor, now: nat): nat {
    if now <= g.lastRefill then g.tokens
    else
      var sum := (g.tokens as real + (now - g.lastRefill) as real * g.rate).Floor;
      if sum < 0 then 0 else if sum > 4000 then 4000 else sum
  }

  function Filled(g: Governor, now: nat): Governor { g.(lastRefill := now, tokens := TokensAt(g, now)) }

  lemma BucketFilled(g: Governor, now: nat, add: real)
    requires now > g.lastRefill && add == Drawn(now - g.lastRefill, g.rate)
    ensures Refilled(g.tokens, add) == TokensAt(g, now)
  {}

  lemma FillsWith(g: Governor, i: nat, now: nat, add: real, n: nat)
    requires i < |g.callers| && g.callers[i] == Swap(now) && now > g.lastRefill && add == Drawn(now - g.lastRefill, g.rate)
    ensures Turns(g, i, n + 3) == Turns(Put(g.(lastRefill := now), i, CasTokens(now, add, g.tokens)), i, n)
  {
    var g1 := Put(g.(lastRefill := now), i, LoadRate(now, now - g.lastRefill));
    TurnTo(g, i, g1, n + 2);
    var g2 := Put(g1, i, LoadTokens(now, add));
    TurnTo(g1, i, g2, n + 1);
    var g3 := Put(g2, i, CasTokens(now, add, g.tokens));
    TurnTo(g2, i, g3, n);
    assert g3.callers == g.callers[i := CasTokens(now, add, g.tokens)];
  }

  lemma FillsBucket(g: Governor, i: nat, now: nat, n: nat)
    requires i < |g.callers| && g.callers[i] == Swap(now) && now > g.lastRefill
    ensures Turns(g, i, n + 4) == Turns(Put(Filled(g, now), i, LoadUp(now)), i, n)
  {
    var add := Drawn(now - g.lastRefill, g.rate);
    FillsWith(g, i, now, add, n + 1);
    BucketFilled(g, now, add);
    StoresTokens(Put(g.(lastRefill := now), i, CasTokens(now, add, g.tokens)), i, now, add, n);
    assert g.callers[i := CasTokens(now, add, g.tokens)][i := LoadUp(now)] == g.callers[i := LoadUp(now)];
  }

  lemma StoresTokens(g: Governor, i: nat, now: nat, add: real, n: nat)
    requires i < |g.callers| && g.callers[i] == CasTokens(now, add, g.tokens)
    ensures Turns(g, i, n + 1) == Turns(Put(g.(tokens := Refilled(g.tokens, add)), i, LoadUp(now)), i, n)
  {
    TurnTo(g, i, Put(g.(tokens := Refilled(g.tokens, add)), i, LoadUp(now)), n);
  }

  lemma LeavesBucket(g: Governor, i: nat, now: nat, n: nat)
    requires i < |g.callers| && g.callers[i] == Swap(now) && now <= g.lastRefill
    ensures Turns(g, i, n + 1) == Turns(Put(Filled(g, now), i, LoadUp(now)), i, n)
  {
    TurnTo(g, i, Put(Filled(g, now), i, LoadUp(now)), n);
  }

  /** Five hundred milliseconds without a throttle and without a step up open the next slot. */
  predicate SlotOpen(g: Governor, now: nat) { now >= g.lastUp + 500 && now >= g.lastThrottle + 500 }

  /** The rate after the slot: 150 more, 3200 at the most. */
  function Raised(g: Governor, now: nat): Governor {
    if !SlotOpen(g, now) then g
    else
      g.(lastUp := now, ups := g.ups + [now],
         rate := if g.rate >= 3200.0 then g.rate else if g.rate + 150.0 > 3200.0 then 3200.0 else g.rate + 150.0)
  }

  lemma StepsUp(g: Governor, i: nat, now: nat, n: nat)
    requires i < |g.callers| && g.callers[i] == LoadUp(now) && SlotOpen(g, now) && RateBounded(g)
    ensures Turns(g, i, n + if g.rate < 3200.0 then 5 else 4) == Turns(Put(Raised(g, now), i, LoadTake), i, n)
  {
    var m := if g.rate < 3200.0 then n + 1 else n;
    var g1 := Put(g, i, LoadQuiet(now, g.lastUp));
    TurnTo(g, i, g1, m + 3);
    var g2 := Put(g1, i, CasUp(now, g.lastUp));
    TurnTo(g1, i, g2, m + 2);
    var g3 := Put(g2.(lastUp := now, ups := g.ups + [now]), i, RateUp);
    TurnTo(g2, i, g3, m + 1);
    if g.rate < 3200.0 {
      var g4 := Put(g3, i, StoreRate(g.rate + STEP_UP, true));
      TurnTo(g3, i, g4, n + 1);
      var g5 := Put(g4.(rate := Clamp(g.rate + STEP_UP)), i, LoadTake);
      TurnTo(g4, i, g5, n);
      assert g5.callers == g.callers[i := LoadTake];
    } else {
      var g4 := Put(g3, i, LoadTake);
      TurnTo(g3, i, g4, n);
      assert g4.callers == g.callers[i := LoadTake];
    }
  }

  lemma KeepsRate(g: Governor, i: nat, now: nat, n: nat)
    requires i < |g.callers| && g.callers[i] == LoadUp(now) && !SlotOpen(g, now)
    ensures Turns(g, i, n + 2) == Turns(Put(g, i, LoadTake), i, n)
  {
    var g1 := Put(g, i, LoadQuiet(now, g.lastUp));
    TurnTo(g, i, g1, n + 1);
    assert Put(g1, i, LoadTake) == Put(g, i, LoadTake);
    TurnTo(g1, i, Put(g, i, LoadTake), n);
  }

  /** A token is granted if and only if the bucket holds one. */
  function Served(g: Governor): Governor {
    if g.tokens >= 1000 then g.(tokens := g.tokens - 1000, acquires := g.acquires + 1) else g
  }

  lemma Serves(g: Governor, i: nat, n: nat)
    requires i < |g.callers| && g.callers[i] == LoadTake && n >= 3
    ensures Turns(g, i, n) == Put(Served(g), i, Resting)
  {
    if g.tokens >= TOKEN {
      Takes(g, i, n - 3);
      Rests(Granted(g, i), i, n - 3);
    } else {
      TurnTo(g, i, Put(g, i, Resting), n - 1);
      Rests(Put(g, i, Resting), i, n - 1);
    }
  }

  /** Everything behind the refill. */
  lemma RaisesAndServes(g: Governor, i: nat, now: nat, n: nat)
    requires i < |g.callers| && g.callers[i] == LoadUp(now) && RateBounded(g) && n >= 8
    ensures Turns(g, i, n) == Put(Served(Raised(g, now)), i, Resting)
  {
    var raised := Put(Raised(g, now), i, LoadTake);
    if SlotOpen(g, now) {
      var m := if g.rate < 3200.0 then 5 else 4;
      StepsUp(g, i, now, n - m);
      Serves(raised, i, n - m);
    } else {
      KeepsRate(g, i, now, n - 2);
      Serves(raised, i, n - 2);
    }
    assert Put(Served(raised), i, Resting).callers == g.callers[i := Resting];
  }

  /** A call to `try_take` that runs to its end refills, may step up, and takes a token if there is one. */
  lemma TryTakeTheorem(g: Governor, i: nat, now: nat, n: nat)
    requires i < |g.callers| && g.callers[i] == Resting && RateBounded(g) && n >= 12
    ensures Turns(Step(g, TryTake(i, now)), i, n) == Served(Raised(Filled(g, now), now))
  {
    var called, filled := Put(g, i, Swap(now)), Put(Filled(g, now), i, LoadUp(now));
    BackToRest(g.callers, i, LoadUp(now));
    assert Put(Filled(called, now), i, LoadUp(now)) == filled;
    if now > g.lastRefill {
      FillsBucket(called, i, now, n - 4);
      RaisesAndServes(filled, i, now, n - 4);
    } else {
      LeavesBucket(called, i, now, n - 1);
      RaisesAndServes(filled, i, now, n - 1);
    }
    assert Put(Served(Raised(filled, now)), i, Resting) == Served(Raised(Filled(g, now), now));
  }

  // ---------- The rate in every run ----------

  /** A step up, or down, that has its slot and is not stored yet. */
  predicate UpUnder(c: Caller) { c.RateUp? || (c.StoreRate? && c.takes) }

  predicate DownUnder(c: Caller) { c.RateDown? || (c.StoreRate? && !c.takes) }

  function Count(callers: seq<Caller>, under: Caller -> bool): nat {
    if callers == [] then 0
    else Count(callers[..|callers| - 1], under) + if under(callers[|callers| - 1]) then 1 else 0
  }

  lemma {:induction false} CountUpdate(callers: seq<Caller>, i: nat, c: Caller, under: Caller -> bool)
    requires i < |callers|
    ensures Count(callers[i := c], under) + (if under(callers[i]) then 1 else 0) == Count(callers, under) + if under(c) then 1 else 0
  {
    var last := |callers| - 1;
    if i < last {
      CountUpdate(callers[..last], i, c, under);
      assert callers[i := c][..last] == callers[..last][i := c];
    } else {
      assert callers[i := c][..last] == callers[..last];
    }
  }

  lemma {:induction false} NoneAtRest(n: nat, under: Caller -> bool)
    requires !under(Resting)
    ensures Count(seq(n, _ => Resting), under) == 0
  {
    if n > 0 {
      assert seq(n, _ => Resting)[..n - 1] == seq(n - 1, _ => Resting);
      NoneAtRest(n - 1, under);
    }
  }

  /** What a rate about to be stored can be, with `u` steps up and `d` steps down stored so far. */
  ghost predicate StoresWithin(c: Caller, u: nat, d: nat) {
    c.StoreRate? ==>
      if c.takes then 1800.0 - 100.0 * d as real <= c.rate <= 1950.0 + 150.0 * u as real
      else 1700.0 - 100.0 * d as real <= c.rate <= 1700.0 + 150.0 * u as real
  }

  /** With `u` steps up and `d` steps down stored. */
  ghost predicate RateWithin(g: Governor, u: nat, d: nat) {
    && |g.ups| == u + Count(g.callers, UpUnder) && |g.downs| == d + Count(g.callers, DownUnder)
    && 1800.0 - 100.0 * d as real <= g.rate <= 1800.0 + 150.0 * u as real
    && (u == 0 && d > 0 ==> g.rate <= 1700.0)
    && AllStoreWithin(g.callers, u, d)
  }

  ghost predicate AllStoreWithin(callers: seq<Caller>, u: nat, d: nat) {
    forall i | 0 <= i < |callers| :: StoresWithin(callers[i], u, d)
  }

  /** Steps that store no rate. */
  lemma NoStore(g: Governor, i: nat, c: Caller, next: Governor, u: nat, d: nat)
    requires RateWithin(g, u, d) && i < |g.callers| && StoresWithin(c, u, d)
    requires next.callers == g.callers[i := c] && next.rate == g.rate
    requires |next.ups| + (if UpUnder(g.callers[i]) then 1 else 0) == |g.ups| + if UpUnder(c) then 1 else 0
    requires |next.downs| + (if DownUnder(g.callers[i]) then 1 else 0) == |g.downs| + if DownUnder(c) then 1 else 0
    ensures RateWithin(next, u, d)
  {
    CountUpdate(g.callers, i, c, UpUnder);
    CountUpdate(g.callers, i, c, DownUnder);
  }

  lemma StoredMore(callers: seq<Caller>, i: nat, c: Caller, u: nat, d: nat, v: nat, e: nat)
    requires u <= v && d <= e && i < |callers| && !c.StoreRate?
    requires AllStoreWithin(callers, u, d)
    ensures AllStoreWithin(callers[i := c], v, e)
  {
    var after := callers[i := c];
    forall k | 0 <= k < |after| ensures StoresWithin(after[k], v, e) {
      assert StoresWithin(callers[k], u, d);
    }
  }

  lemma StoresUp(g: Governor, i: nat, next: Governor, u: nat, d: nat)
    requires RateWithin(g, u, d) && i < |g.callers| && UpUnder(g.callers[i]) && next == NextStep(g, i, false)
    requires g.callers[i].StoreRate? || g.rate >= 3200.0
    ensures RateWithin(next, u + 1, d)
  {
    assert StoresWithin(g.callers[i], u, d);
    CountUpdate(g.callers, i, LoadTake, UpUnder);
    CountUpdate(g.callers, i, LoadTake, DownUnder);
    StoredMore(g.callers, i, LoadTake, u, d, u + 1, d);
  }

  lemma StoresDown(g: Governor, i: nat, next: Governor, u: nat, d: nat)
    requires RateWithin(g, u, d) && i < |g.callers| && g.callers[i].StoreRate? && !g.callers[i].takes && next == NextStep(g, i, false)
    ensures RateWithin(next, u, d + 1)
  {
    assert StoresWithin(g.callers[i], u, d);
    CountUpdate(g.callers, i, Resting, UpUnder);
    CountUpdate(g.callers, i, Resting, DownUnder);
    StoredMore(g.callers, i, Resting, u, d, u, d + 1);
  }

  lemma TakesSlot(g: Governor, i: nat, spurious: bool, next: Governor, u: nat, d: nat)
    requires RateWithin(g, u, d) && i < |g.callers| && next == NextStep(g, i, spurious)
    requires g.callers[i].CasUp? || g.callers[i].CasDown? || g.callers[i].RateDown? || (g.callers[i].RateUp? && g.rate < 3200.0)
    ensures RateWithin(next, u, d)
  {
    NoStore(g, i, next.callers[i], next, u, d);
  }

  lemma OtherTurn(g: Governor, i: nat, spurious: bool, next: Governor)
    requires i < |g.callers| && g.callers[i] != Resting && next == NextStep(g, i, spurious)
    requires !g.callers[i].CasUp? && !g.callers[i].CasDown? && !UpUnder(g.callers[i]) && !DownUnder(g.callers[i])
    ensures |next.callers| == |g.callers| && next.callers == g.callers[i := next.callers[i]]
    ensures !UpUnder(next.callers[i]) && !DownUnder(next.callers[i])
    ensures next.rate == g.rate && next.ups == g.ups && next.downs == g.downs
  {}

  lemma TurnKeepsRate(g: Governor, i: nat, spurious: bool, next: Governor, u: nat, d: nat) returns (v: nat, e: nat)
    requires RateWithin(g, u, d) && i < |g.callers| && next == NextStep(g, i, spurious)
    ensures RateWithin(next, v, e)
  {
    var c := g.callers[i];
    v, e := u, d;
    if c.StoreRate? && !c.takes {
      StoresDown(g, i, next, u, d);
      e := d + 1;
    } else if c.StoreRate? || (c.RateUp? && g.rate >= 3200.0) {
      StoresUp(g, i, next, u, d);
      v := u + 1;
    } else if c.CasUp? || c.CasDown? || c.RateUp? || c.RateDown? {
      TakesSlot(g, i, spurious, next, u, d);
    } else if c != Resting {
      OtherTurn(g, i, spurious, next);
      NoStore(g, i, next.callers[i], next, u, d);
    }
  }

  lemma StepKeepsRate(g: Governor, e: Event, next: Governor, u: nat, d: nat) returns (v: nat, w: nat)
    requires RateWithin(g, u, d) && next == Step(g, e)
    ensures RateWithin(next, v, w)
  {
    v, w := u, d;
    match e
    case TryTake(i, now) => if i < |g.callers| && g.callers[i] == Resting { NoStore(g, i, Swap(now), next, u, d); }
    case OnThrottle(i, now) => if i < |g.callers| && g.callers[i] == Resting { NoStore(g, i, StoreThrottle(now), next, u, d); }
    case Next(i, spurious) => if i < |g.callers| { v, w := TurnKeepsRate(g, i, spurious, next, u, d); }
  }

  /**
   * In every run, under every interleaving: with `u` steps up and `d` steps down stored, the rate is
   * between 1800 - 100 * d and 1800 + 150 * u; without a step up, the first step down takes it to 1700.
   */
  lemma {:induction false} RunRate(callers: nat, events: seq<Event>) returns (u: nat, d: nat)
    ensures RateWithin(Run(callers, events), u, d)
    decreases |events|
  {
    if events == [] {
      u, d := 0, 0;
      NoneAtRest(callers, UpUnder);
      NoneAtRest(callers, DownUnder);
    } else {
      u, d := RunRate(callers, events[..|events| - 1]);
      u, d := StepKeepsRate(Run(callers, events[..|events| - 1]), events[|events| - 1], Run(callers, events), u, d);
    }
  }

  /** The slots bound the rate: at most 150 for every slot up, at most 100 for every slot down. */
  lemma RateTheorem(callers: nat, events: seq<Event>)
    ensures var g := Run(callers, events);
      && 1800.0 - 100.0 * |g.downs| as real <= g.rate <= 1800.0 + 150.0 * |g.ups| as real
      && (g.ups == [] && Count(g.callers, DownUnder) < |g.downs| ==> g.rate <= 1700.0)
  {
    var u, d := RunRate(callers, events);
  }
}
