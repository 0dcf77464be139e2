/** jrodon-v3's fan-out: delegated jobs are dealt to workers round robin, in rounds of capped batches. */
module FanOut {
  import opened Arithmetic

  /** `LAMBDA_WORKER_PART_JOB_MAX_CHUNK_SIZE` */
  const MAX_CHUNK_SIZE: nat := 500

  type Rounds<T> = seq<seq<seq<T>>>

  // ---------- Where each job goes ----------

  /** Jobs are popped from the end: the `k`-th popped job. */
  function Popped<T>(jobs: seq<T>, k: nat): T
    requires k < |jobs|
  {
    jobs[|jobs| - 1 - k]
  }

  lemma RoundSizePositive(workers: nat, cap: nat)
    requires workers > 0 && cap > 0
    ensures workers * cap > 0
  {}

  function RoundOf(k: nat, workers: nat, cap: nat): nat
    requires workers > 0 && cap > 0
  {
    RoundSizePositive(workers, cap);
    k / (workers * cap)
  }

  /** The batch of worker `w` in round `r` after `k` jobs have been dealt. */
  function Batch<T>(jobs: seq<T>, workers: nat, cap: nat, k: nat, r: nat, w: nat): seq<T>
    requires workers > 0 && cap > 0 && k <= |jobs|
  {
    if k == 0 then []
    else
      Batch(jobs, workers, cap, k - 1, r, w)
      + if RoundOf(k - 1, workers, cap) == r && (k - 1) % workers == w then [Popped(jobs, k - 1)] else []
  }

  // ---------- Arithmetic of one position ----------

  /** Slot `c` of worker `w` in round `r`. */
  function Slot(workers: nat, cap: nat, r: nat, c: nat, w: nat): nat {
    (workers * cap) * r + (workers * c + w)
  }

  lemma SlotInRound(workers: nat, cap: nat, c: nat, w: nat)
    requires c < cap && w < workers
    ensures workers * c + w < workers * cap
  {
    MulGap(workers, c, cap);
  }

  /** A slot belongs to its round and its worker. */
  lemma SlotPlace(workers: nat, cap: nat, r: nat, c: nat, w: nat)
    requires c < cap && w < workers
    ensures workers > 0 && cap > 0
    ensures RoundOf(Slot(workers, cap, r, c, w), workers, cap) == r
    ensures Slot(workers, cap, r, c, w) % workers == w
  {
    SlotInRound(workers, cap, c, w);
    Divides(Slot(workers, cap, r, c, w), workers * cap, r, workers * c + w);
    assert (workers * cap) * r == workers * (cap * r);
    assert workers * (cap * r) + (workers * c + w) == workers * (cap * r + c) + w;
    Divides(Slot(workers, cap, r, c, w), workers, cap * r + c, w);
  }

  /** Every job number is exactly one slot. */
  lemma SlotOf(k: nat, workers: nat, cap: nat) returns (c: nat)
    requires workers > 0 && cap > 0
    ensures c < cap && k == Slot(workers, cap, RoundOf(k, workers, cap), c, k % workers)
  {
    RoundSizePositive(workers, cap);
    var size := workers * cap;
    var m := k % size;
    c := m / workers;
    assert k == size * (k / size) + m;
    assert m == workers * c + m % workers;
    if c > cap {
      MulGap(workers, cap, c);
    }
    SlotPlace(workers, cap, k / size, c, m % workers);
  }

  // ---------- The closed form ----------

  /** How many of the first `m` slots of a round belong to worker `w`. */
  function Share(m: nat, workers: nat, w: nat): nat
    requires workers > 0
  {
    m / workers + if w < m % workers then 1 else 0
  }

  function SlotsUsed(k: nat, size: nat, r: nat): nat {
    if k <= size * r then 0 else if k - size * r < size then k - size * r else size
  }

  lemma ShareStep(m: nat, workers: nat, w: nat)
    requires workers > 0 && w < workers
    ensures Share(m + 1, workers, w) == Share(m, workers, w) + if m % workers == w then 1 else 0
  {
    var q, x := m / workers, m % workers;
    assert m == workers * q + x;
    if x + 1 == workers {
      assert m + 1 == workers * (q + 1);
      Divides(m + 1, workers, q + 1, 0);
    } else {
      Divides(m + 1, workers, q, x + 1);
    }
  }

  lemma SameWorker(k: nat, workers: nat, cap: nat, r: nat)
    requires workers > 0 && k >= (workers * cap) * r
    ensures k % workers == (k - (workers * cap) * r) % workers
  {
    var m := k - (workers * cap) * r;
    assert m == workers * (m / workers) + m % workers;
    assert (workers * cap) * r == workers * (cap * r);
    assert k == workers * (cap * r + m / workers) + m % workers;
    Divides(k, workers, cap * r + m / workers, m % workers);
  }

  lemma InRound(k: nat, size: nat, r: nat)
    requires size > 0
    ensures k / size == r <==> size * r <= k < size * r + size
  {
    var x := k % size;
    assert k == size * (k / size) + x;
    if size * r <= k < size * r + size {
      Divides(k, size, r, k - size * r);
    }
  }

  /** The size of a batch: the worker's share of the slots dealt in its round. */
  lemma {:induction false} BatchSize<T>(jobs: seq<T>, workers: nat, cap: nat, k: nat, r: nat, w: nat)
    requires workers > 0 && cap > 0 && k <= |jobs| && w < workers
    ensures |Batch(jobs, workers, cap, k, r, w)| == Share(SlotsUsed(k, workers * cap, r), workers, w)
    decreases k
  {
    RoundSizePositive(workers, cap);
    if k == 0 {
      Divides(0, workers, 0, 0);
      assert (workers * cap) * r >= 0;
    } else {
      BatchSize(jobs, workers, cap, k - 1, r, w);
      InRound(k - 1, workers * cap, r);
      if RoundOf(k - 1, workers, cap) == r {
        SameWorker(k - 1, workers, cap, r);
        ShareStep(SlotsUsed(k - 1, workers * cap, r), workers, w);
      }
    }
  }

  lemma FullShare(workers: nat, cap: nat, w: nat)
    requires workers > 0
    ensures Share(workers * cap, workers, w) == cap
  {
    Divides(workers * cap, workers, cap, 0);
  }

  lemma {:induction false} ShareMonotone(m: nat, n: nat, workers: nat, w: nat)
    requires workers > 0 && w < workers && m <= n
    ensures Share(m, workers, w) <= Share(n, workers, w)
    decreases n
  {
    if m < n {
      ShareMonotone(m, n - 1, workers, w);
      ShareStep(n - 1, workers, w);
    }
  }

  /** No batch exceeds the cap. */
  lemma BatchCapped<T>(jobs: seq<T>, workers: nat, cap: nat, r: nat, w: nat)
    requires workers > 0 && cap > 0 && w < workers
    ensures |Batch(jobs, workers, cap, |jobs|, r, w)| <= cap
  {
    BatchSize(jobs, workers, cap, |jobs|, r, w);
    ShareMonotone(SlotsUsed(|jobs|, workers * cap, r), workers * cap, workers, w);
    FullShare(workers, cap, w);
  }

  lemma ShareOfSlot(workers: nat, c: nat, w: nat)
    requires w < workers
    ensures Share(workers * c + w, workers, w) == c
  {
    Divides(workers * c + w, workers, c, w);
  }

  /** A batch lists its worker's slots in order. */
  lemma {:induction false} BatchAt<T>(jobs: seq<T>, workers: nat, cap: nat, k: nat, r: nat, w: nat, c: nat)
    requires workers > 0 && cap > 0 && k <= |jobs| && w < workers
    requires c < |Batch(jobs, workers, cap, k, r, w)|
    ensures Slot(workers, cap, r, c, w) < k
    ensures Batch(jobs, workers, cap, k, r, w)[c] == Popped(jobs, Slot(workers, cap, r, c, w))
    decreases k
  {
    var before := Batch(jobs, workers, cap, k - 1, r, w);
    if c < |before| {
      BatchAt(jobs, workers, cap, k - 1, r, w, c);
    } else {
      BatchSize(jobs, workers, cap, k - 1, r, w);
      InRound(k - 1, workers * cap, r);
      SameWorker(k - 1, workers, cap, r);
      var m := SlotsUsed(k - 1, workers * cap, r);
      LastOfShare(m, workers, w, c);
    }
  }

  lemma LastOfShare(m: nat, workers: nat, w: nat, c: nat)
    requires workers > 0 && m % workers == w && c == Share(m, workers, w)
    ensures m == workers * c + w
  {}

  // ---------- Exactly once ----------

  /** Every job is dealt: it stands in the batch of its own slot. */
  lemma JobIsDealt<T>(jobs: seq<T>, workers: nat, cap: nat, k: nat) returns (c: nat)
    requires workers > 0 && cap > 0 && k < |jobs|
    ensures c < cap && k == Slot(workers, cap, RoundOf(k, workers, cap), c, k % workers)
    ensures var batch := Batch(jobs, workers, cap, |jobs|, RoundOf(k, workers, cap), k % workers);
      c < |batch| && batch[c] == Popped(jobs, k)
  {
    var r, w := RoundOf(k, workers, cap), k % workers;
    c := SlotOf(k, workers, cap);
    var size := workers * cap;
    SlotInRound(workers, cap, c, w);
    BatchSize(jobs, workers, cap, |jobs|, r, w);
    var m := workers * c + w;
    assert SlotsUsed(|jobs|, size, r) >= m + 1;
    ShareOfSlot(workers, c, w);
    ShareStep(m, workers, w);
    Divides(m, workers, c, w);
    ShareMonotone(m + 1, SlotsUsed(|jobs|, size, r), workers, w);
    BatchAt(jobs, workers, cap, |jobs|, r, w, c);
  }

  /** No job is dealt twice: two places that hold the same popped job are the same place. */
  lemma SlotsDiffer(workers: nat, cap: nat, r: nat, c: nat, w: nat, r2: nat, c2: nat, w2: nat)
    requires c < cap && c2 < cap && w < workers && w2 < workers
    requires Slot(workers, cap, r, c, w) == Slot(workers, cap, r2, c2, w2)
    ensures r == r2 && c == c2 && w == w2
  {
    SlotPlace(workers, cap, r, c, w);
    SlotPlace(workers, cap, r2, c2, w2);
    Quotient(workers, c, w, c2, w2);
  }

  // ---------- Fair shares ----------

  /** All jobs of worker `w`, over the first `rounds` rounds. */
  function WorkerTotal<T>(jobs: seq<T>, workers: nat, cap: nat, k: nat, rounds: nat, w: nat): nat
    requires workers > 0 && cap > 0 && k <= |jobs|
    decreases rounds
  {
    if rounds == 0 then 0
    else WorkerTotal(jobs, workers, cap, k, rounds - 1, w) + |Batch(jobs, workers, cap, k, rounds - 1, w)|
  }

  lemma {:induction false} TotalStep<T>(jobs: seq<T>, workers: nat, cap: nat, k: nat, rounds: nat, w: nat)
    requires workers > 0 && cap > 0 && k < |jobs| && w < workers
    ensures WorkerTotal(jobs, workers, cap, k + 1, rounds, w)
         == WorkerTotal(jobs, workers, cap, k, rounds, w)
          + if RoundOf(k, workers, cap) < rounds && k % workers == w then 1 else 0
    decreases rounds
  {
    if rounds > 0 {
      TotalStep(jobs, workers, cap, k, rounds - 1, w);
    }
  }

  lemma {:induction false} TotalOfNothing<T>(jobs: seq<T>, workers: nat, cap: nat, rounds: nat, w: nat)
    requires workers > 0 && cap > 0
    ensures WorkerTotal(jobs, workers, cap, 0, rounds, w) == 0
    decreases rounds
  {
    if rounds > 0 {
      TotalOfNothing(jobs, workers, cap, rounds - 1, w);
    }
  }

  lemma {:induction false} TotalIsShare<T>(jobs: seq<T>, workers: nat, cap: nat, k: nat, rounds: nat, w: nat)
    requires workers > 0 && cap > 0 && k <= |jobs| && w < workers
    requires k <= (workers * cap) * rounds
    ensures WorkerTotal(jobs, workers, cap, k, rounds, w) == Share(k, workers, w)
    decreases k
  {
    if k == 0 {
      TotalOfNothing(jobs, workers, cap, rounds, w);
      Divides(0, workers, 0, 0);
    } else {
      TotalIsShare(jobs, workers, cap, k - 1, rounds, w);
      TotalStep(jobs, workers, cap, k - 1, rounds, w);
      RoundBelow(k - 1, workers * cap, rounds);
      ShareStep(k - 1, workers, w);
    }
  }

  lemma RoundBelow(k: nat, size: nat, rounds: nat)
    requires size > 0 && k < size * rounds
    ensures k / size < rounds
  {
    if k / size >= rounds {
      assert size * (k / size) >= size * rounds by {
        if k / size > rounds { MulGap(size, rounds, k / size); }
      }
      assert false;
    }
  }

  /** The number of rounds the dealer opens; the last one may stay empty. */
  function RoundCount(n: nat, workers: nat, cap: nat): nat
    requires workers > 0 && cap > 0
  {
    RoundOf(n, workers, cap) + 1
  }

  /** Worker totals differ by at most one. */
  lemma FairTheorem<T>(jobs: seq<T>, workers: nat, cap: nat, v: nat, w: nat)
    requires workers > 0 && cap > 0 && v < workers && w < workers
    ensures var rounds := RoundCount(|jobs|, workers, cap);
      WorkerTotal(jobs, workers, cap, |jobs|, rounds, v) <= WorkerTotal(jobs, workers, cap, |jobs|, rounds, w) + 1
  {
    var rounds := RoundCount(|jobs|, workers, cap);
    RoundSizePositive(workers, cap);
    InRound(|jobs|, workers * cap, rounds - 1);
    assert (workers * cap) * rounds == (workers * cap) * (rounds - 1) + workers * cap;
    TotalIsShare(jobs, workers, cap, |jobs|, rounds, v);
    TotalIsShare(jobs, workers, cap, |jobs|, rounds, w);
  }

  // ---------- The dealer ----------

  ghost predicate DealtRound<T>(round: seq<seq<T>>, jobs: seq<T>, workers: nat, cap: nat, k: nat, r: nat)
    requires workers > 0 && cap > 0 && k <= |jobs|
  {
    |round| == workers && forall w | 0 <= w < workers :: round[w] == Batch(jobs, workers, cap, k, r, w)
  }

  /** The first rounds hold their batches after `k` jobs, and nothing is owed to later rounds. */
  ghost predicate Dealt<T>(rounds: Rounds<T>, jobs: seq<T>, workers: nat, cap: nat, k: nat)
    requires workers > 0 && cap > 0 && k <= |jobs|
  {
    forall r | 0 <= r < |rounds| :: DealtRound(rounds[r], jobs, workers, cap, k, r)
  }

  lemma {:induction false} LaterBatchEmpty<T>(jobs: seq<T>, workers: nat, cap: nat, k: nat, r: nat, w: nat)
    requires workers > 0 && cap > 0 && k <= |jobs| && k <= (workers * cap) * r
    ensures Batch(jobs, workers, cap, k, r, w) == []
    decreases k
  {
    if k > 0 {
      LaterBatchEmpty(jobs, workers, cap, k - 1, r, w);
      RoundBelow(k - 1, workers * cap, r);
    }
  }

  /** A fresh round of empty lists. */
  lemma OpenRound<T>(rounds: Rounds<T>, jobs: seq<T>, workers: nat, cap: nat, k: nat, empty: seq<seq<T>>)
    requires workers > 0 && cap > 0 && k <= |jobs| && Dealt(rounds, jobs, workers, cap, k)
    requires k <= (workers * cap) * |rounds|
    requires |empty| == workers && forall w | 0 <= w < workers :: empty[w] == []
    ensures Dealt(rounds + [empty], jobs, workers, cap, k)
  {
    forall w | 0 <= w < workers ensures empty[w] == Batch(jobs, workers, cap, k, |rounds|, w) {
      LaterBatchEmpty(jobs, workers, cap, k, |rounds|, w);
    }
    forall r | 0 <= r < |rounds + [empty]| ensures DealtRound((rounds + [empty])[r], jobs, workers, cap, k, r) {
      assert r < |rounds| ==> DealtRound(rounds[r], jobs, workers, cap, k, r);
    }
  }

  /** Handing one job to worker `w` of the current round. */
  lemma HandOut<T>(rounds: Rounds<T>, jobs: seq<T>, workers: nat, cap: nat, k: nat, c: nat, w: nat, after: Rounds<T>)
    requires workers > 0 && cap > 0 && k < |jobs| && Dealt(rounds, jobs, workers, cap, k) && rounds != []
    requires w < workers && c < cap && k == Slot(workers, cap, |rounds| - 1, c, w)
    requires |rounds[|rounds| - 1]| == workers
    requires after == rounds[|rounds| - 1 := rounds[|rounds| - 1][w := rounds[|rounds| - 1][w] + [Popped(jobs, k)]]]
    ensures Dealt(after, jobs, workers, cap, k + 1)
  {
    SlotPlace(workers, cap, |rounds| - 1, c, w);
    forall r | 0 <= r < |after| ensures DealtRound(after[r], jobs, workers, cap, k + 1, r) {
      assert DealtRound(rounds[r], jobs, workers, cap, k, r);
    }
  }

  lemma NextSlot(workers: nat, cap: nat, r: nat, c: nat)
    ensures Slot(workers, cap, r, c, workers) == Slot(workers, cap, r, c + 1, 0)
    ensures Slot(workers, cap, r, cap, 0) == Slot(workers, cap, r + 1, 0, 0) == (workers * cap) * (r + 1)
  {
    assert workers * c + workers == workers * (c + 1);
    assert (workers * cap) * r + workers * cap == (workers * cap) * (r + 1);
    assert workers * 0 == 0;
  }

  lemma {:induction false} FullBatch<T>(round: seq<seq<T>>, jobs: seq<T>, workers: nat, cap: nat, r: nat, c: nat)
    requires workers > 0 && cap > 0 && c <= cap && Slot(workers, cap, r, c, 0) <= |jobs|
    requires DealtRound(round, jobs, workers, cap, Slot(workers, cap, r, c, 0), r)
    ensures |round[0]| == c
  {
    var k := Slot(workers, cap, r, c, 0);
    BatchSize(jobs, workers, cap, k, r, 0);
    ShareOfSlot(workers, c, 0);
    if c == cap {
      FullShare(workers, cap, 0);
    } else {
      SlotInRound(workers, cap, c, 0);
    }
  }

  /** What the loops keep: `k` jobs are gone from the end, and all of them stand where they belong. */
  ghost predicate Dealing<T>(rounds: Rounds<T>, left: seq<T>, jobs: seq<T>, workers: nat, cap: nat, k: nat)
    requires workers > 0 && cap > 0
  {
    k <= |jobs| && left == jobs[..|jobs| - k] && Dealt(rounds, jobs, workers, cap, k)
  }

  lemma DealOne<T>(rounds: Rounds<T>, left: seq<T>, jobs: seq<T>, workers: nat, cap: nat, c: nat, w: nat, after: Rounds<T>)
    requires workers > 0 && cap > 0 && rounds != [] && left != [] && w < workers && c < cap
    requires Dealing(rounds, left, jobs, workers, cap, Slot(workers, cap, |rounds| - 1, c, w))
    requires |rounds[|rounds| - 1]| == workers
    requires after == rounds[|rounds| - 1 := rounds[|rounds| - 1][w := rounds[|rounds| - 1][w] + [left[|left| - 1]]]]
    ensures Dealing(after, left[..|left| - 1], jobs, workers, cap, Slot(workers, cap, |rounds| - 1, c, w + 1))
  {
    HandOut(rounds, jobs, workers, cap, Slot(workers, cap, |rounds| - 1, c, w), c, w, after);
  }

  lemma LastRound<T>(rounds: Rounds<T>, left: seq<T>, jobs: seq<T>, workers: nat, cap: nat, k: nat)
    requires workers > 0 && cap > 0 && rounds != [] && Dealing(rounds, left, jobs, workers, cap, k)
    ensures |rounds[|rounds| - 1]| == workers
  {
    assert DealtRound(rounds[|rounds| - 1], jobs, workers, cap, k, |rounds| - 1);
  }

  /** One pass over the workers of the newest round; it stops early when the jobs run out. */
  method DealPass<T>(rounds0: Rounds<T>, left0: seq<T>, ghost jobs: seq<T>, workers: nat, ghost cap: nat, ghost c: nat)
    returns (rounds: Rounds<T>, left: seq<T>, exhausted: bool)
    requires workers > 0 && cap > 0 && rounds0 != [] && c < cap
    requires Dealing(rounds0, left0, jobs, workers, cap, Slot(workers, cap, |rounds0| - 1, c, 0))
    ensures |rounds| == |rounds0|
    ensures exhausted ==> Dealing(rounds, left, jobs, workers, cap, |jobs|) && RoundOf(|jobs|, workers, cap) == |rounds| - 1
    ensures !exhausted ==>
      Dealing(rounds, left, jobs, workers, cap, Slot(workers, cap, |rounds| - 1, c, workers)) && |left| + workers == |left0|
  {
    rounds, left := rounds0, left0;
    var w := 0;
    while w < workers
      invariant 0 <= w <= workers && |rounds| == |rounds0| && |left| + w == |left0|
      invariant Dealing(rounds, left, jobs, workers, cap, Slot(workers, cap, |rounds| - 1, c, w))
    {
      LastRound(rounds, left, jobs, workers, cap, Slot(workers, cap, |rounds| - 1, c, w));
      if |left| == 0 {
        SlotPlace(workers, cap, |rounds| - 1, c, w);
        return rounds, left, true;
      }
      var round := rounds[|rounds| - 1];
      var after := rounds[|rounds| - 1 := round[w := round[w] + [left[|left| - 1]]]];
      DealOne(rounds, left, jobs, workers, cap, c, w, after);
      rounds, left := after, left[..|left| - 1];
      w := w + 1;
    }
    exhausted := false;
  }

  lemma PassEnds<T>(rounds: Rounds<T>, left: seq<T>, jobs: seq<T>, workers: nat, cap: nat, c: nat)
    requires workers > 0 && cap > 0 && rounds != [] && c < cap
    requires Dealing(rounds, left, jobs, workers, cap, Slot(workers, cap, |rounds| - 1, c, workers))
    ensures Dealing(rounds, left, jobs, workers, cap, Slot(workers, cap, |rounds| - 1, c + 1, 0))
    ensures |rounds[|rounds| - 1]| == workers && |rounds[|rounds| - 1][0]| == c + 1
  {
    NextSlot(workers, cap, |rounds| - 1, c);
    var k := Slot(workers, cap, |rounds| - 1, c + 1, 0);
    assert DealtRound(rounds[|rounds| - 1], jobs, workers, cap, k, |rounds| - 1);
    FullBatch(rounds[|rounds| - 1], jobs, workers, cap, |rounds| - 1, c + 1);
  }

  /** Passes over the newest round until its lists reach the cap or the jobs run out. */
  method FillRound<T>(rounds0: Rounds<T>, left0: seq<T>, ghost jobs: seq<T>, workers: nat, cap: nat)
    returns (rounds: Rounds<T>, left: seq<T>, exhausted: bool)
    requires workers > 0 && cap > 0 && rounds0 != []
    requires Dealing(rounds0, left0, jobs, workers, cap, Slot(workers, cap, |rounds0| - 1, 0, 0))
    ensures |rounds| == |rounds0|
    ensures exhausted ==> Dealing(rounds, left, jobs, workers, cap, |jobs|) && RoundOf(|jobs|, workers, cap) == |rounds| - 1
    ensures !exhausted ==> Dealing(rounds, left, jobs, workers, cap, Slot(workers, cap, |rounds|, 0, 0)) && |left| < |left0|
  {
    rounds, left := rounds0, left0;
    ghost var c := 0;
    while true
      invariant c < cap && |rounds| == |rounds0| && |left| + c <= |left0|
      invariant Dealing(rounds, left, jobs, workers, cap, Slot(workers, cap, |rounds| - 1, c, 0))
      decreases |left|
    {
      rounds, left, exhausted := DealPass(rounds, left, jobs, workers, cap, c);
      if exhausted {
        return;
      }
      PassEnds(rounds, left, jobs, workers, cap, c);
      c := c + 1;
      if |rounds[|rounds| - 1][0]| >= cap {
        NextSlot(workers, cap, |rounds| - 1, c);
        return rounds, left, false;
      }
    }
  }

  /**
   * The dispatch loops: a round of empty lists, filled one job per worker at a time until the lists
   * reach the cap or the jobs run out. They end for any number of jobs as soon as there is a worker.
   */
  method Distribute<T>(jobs: seq<T>, workers: nat, cap: nat) returns (rounds: Rounds<T>)
    requires workers > 0 && cap > 0
    ensures |rounds| == RoundCount(|jobs|, workers, cap)
    ensures Dealt(rounds, jobs, workers, cap, |jobs|)
  {
    rounds := [];
    var left := jobs;
    NextSlot(workers, cap, 0, 0);
    var exhausted := false;
    while !exhausted
      invariant !exhausted ==> Dealing(rounds, left, jobs, workers, cap, Slot(workers, cap, |rounds|, 0, 0))
      invariant exhausted ==> Dealing(rounds, left, jobs, workers, cap, |jobs|) && RoundOf(|jobs|, workers, cap) == |rounds| - 1
      decreases |left|, !exhausted
    {
      var empty: seq<seq<T>> := seq(workers, _ => []);
      NextSlot(workers, cap, |rounds|, 0);
      OpenRound(rounds, jobs, workers, cap, Slot(workers, cap, |rounds|, 0, 0), empty);
      rounds, left, exhausted := FillRound(rounds + [empty], left, jobs, workers, cap);
    }
  }

  /** The dispatch task's distribution: no batch is larger than the chunk cap. */
  method Dispatch<T>(jobs: seq<T>, workers: nat) returns (rounds: Rounds<T>)
    requires workers > 0
    ensures Dealt(rounds, jobs, workers, 500, |jobs|) && |rounds| == RoundCount(|jobs|, workers, 500)
    ensures forall r, w | 0 <= r < |rounds| && 0 <= w < |rounds[r]| :: |rounds[r][w]| <= 500
  {
    rounds := Distribute(jobs, workers, MAX_CHUNK_SIZE);
    forall r, w | 0 <= r < |rounds| && 0 <= w < |rounds[r]| ensures |rounds[r][w]| <= MAX_CHUNK_SIZE {
      assert DealtRound(rounds[r], jobs, workers, MAX_CHUNK_SIZE, |jobs|, r);
      BatchCapped(jobs, workers, MAX_CHUNK_SIZE, r, w);
    }
  }

  // ---------- Sending ----------

  /** The batches in the order they are sent. */
  function Flat<T>(rounds: Rounds<T>): seq<seq<T>> {
    if rounds == [] then [] else Flat(rounds[..|rounds| - 1]) + rounds[|rounds| - 1]
  }

  lemma {:induction false} FlatAt<T>(rounds: Rounds<T>, workers: nat, r: nat, w: nat)
    requires (forall q | 0 <= q < |rounds| :: |rounds[q]| == workers) && r < |rounds| && w < workers
    ensures |Flat(rounds)| == workers * |rounds|
    ensures workers * r + w < workers * |rounds| && Flat(rounds)[workers * r + w] == rounds[r][w]
  {
    var last := |rounds| - 1;
    FlatLength(rounds, workers);
    MulGap(workers, r, |rounds|);
    FlatLength(rounds[..last], workers);
    if r < last {
      FlatAt(rounds[..last], workers, r, w);
    }
  }

  lemma {:induction false} FlatLength<T>(rounds: Rounds<T>, workers: nat)
    requires forall q | 0 <= q < |rounds| :: |rounds[q]| == workers
    ensures |Flat(rounds)| == workers * |rounds|
  {
    if rounds != [] {
      FlatLength(rounds[..|rounds| - 1], workers);
      assert workers * |rounds| == workers * (|rounds| - 1) + workers;
    }
  }

  /** Cycling through the workers while sending gives every worker its own lists. */
  lemma CycleTheorem<T>(rounds: Rounds<T>, workers: nat, r: nat, w: nat)
    requires (forall q | 0 <= q < |rounds| :: |rounds[q]| == workers) && r < |rounds| && w < workers
    ensures workers * r + w < |Flat(rounds)| && Flat(rounds)[workers * r + w] == rounds[r][w]
    ensures (workers * r + w) % workers == w
  {
    FlatAt(rounds, workers, r, w);
    Divides(workers * r + w, workers, r, w);
  }
}
