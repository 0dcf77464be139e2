/** The Python archiver's pipeline: downloader threads, a bounded queue, one assembler, and recycled slabs. */
module SlabPool {
  import opened Bytes

  /** A downloaded object; unless it was too large, `body` stands at the front of its slab. */
  datatype Entry = Entry(key: nat, slab: nat, oversized: bool, body: Octets)

  datatype Item = Done(entry: Entry) | Failed

  /** A downloader between two steps of its loop. */
  datatype Worker = Idle | HasKey(key: nat) | Holding(key: nat, slab: nat) | Ready(entry: Entry) | Reporting | Exited

  datatype Assembler = Waiting | Writing(entry: Entry) | Finished | Aborted

  /** What the pipeline works on: the objects behind the keys, the slab size and the queue's bound. */
  datatype Setup = Setup(bodies: seq<Octets>, slabSize: nat, depth: nat)

  datatype Pipe = Pipe(keys: seq<nat>, free: seq<nat>, slabs: seq<Octets>, workers: seq<Worker>, queue: seq<Item>,
                       assembler: Assembler, written: seq<Entry>, stop: bool)

  datatype Step =
    | Take(i: nat)
    | Borrow(i: nat)
    | Scribble(i: nat, bytes: Octets)
    | Download(i: nat)
    | Fail(i: nat)
    | PutItem(i: nat)
    | Get
    | Write
    | WriteFails
    | Finish

  /** The numbers below `n`, in order. */
  function UpTo(n: nat): (s: seq<nat>)
    ensures |s| == n
  {
    if n == 0 then [] else UpTo(n - 1) + [n - 1]
  }

  function Start(setup: Setup, pool: nat, workers: nat): Pipe {
    Pipe(UpTo(|setup.bodies|), UpTo(pool), seq(pool, _ => seq(setup.slabSize, _ => 0)),
         seq(workers, _ => Idle), [], Waiting, [], false)
  }

  // ---------- Steps ----------

  function WithWorker(p: Pipe, i: nat, w: Worker): Pipe
    requires i < |p.workers|
  {
    p.(workers := p.workers[i := w])
  }

  /** The head of the loop: another key, or nothing left to do. */
  function TakeStep(p: Pipe, i: nat): Pipe
    requires i < |p.workers|
  {
    if p.workers[i] != Idle then p
    else if p.stop || p.keys == [] then WithWorker(p, i, Exited)
    else WithWorker(p.(keys := p.keys[1..]), i, HasKey(p.keys[0]))
  }

  function BorrowStep(p: Pipe, i: nat): Pipe
    requires i < |p.workers|
  {
    if !p.workers[i].HasKey? then p
    else if p.stop then WithWorker(p, i, Exited)
    else if p.free == [] then p
    else WithWorker(p.(free := p.free[1..]), i, Holding(p.workers[i].key, p.free[0]))
  }

  /** A download in progress may leave anything in the slab. */
  function ScribbleStep(setup: Setup, p: Pipe, i: nat, bytes: Octets): Pipe
    requires i < |p.workers|
  {
    if p.workers[i].Holding? && p.workers[i].slab < |p.slabs| && |bytes| == setup.slabSize
    then p.(slabs := p.slabs[p.workers[i].slab := bytes]) else p
  }

  /** A finished download: into the slab if the object fits, into fresh memory otherwise. */
  function DownloadStep(setup: Setup, p: Pipe, i: nat): Pipe
    requires i < |p.workers|
  {
    if !p.workers[i].Holding? || p.workers[i].slab >= |p.slabs| || p.workers[i].key >= |setup.bodies| then p
    else
      var slab, key := p.workers[i].slab, p.workers[i].key;
      var body := setup.bodies[key];
      if |body| <= |p.slabs[slab]| then
        WithWorker(p.(slabs := p.slabs[slab := body + p.slabs[slab][|body|..]]), i, Ready(Entry(key, slab, false, body)))
      else WithWorker(p, i, Ready(Entry(key, slab, true, body)))
  }

  /** A failed download gives its slab back and reports. */
  function FailStep(p: Pipe, i: nat): Pipe
    requires i < |p.workers|
  {
    if p.workers[i].Holding? then WithWorker(p.(free := p.free + [p.workers[i].slab]), i, Reporting) else p
  }

  /** Waits for room in the queue; a stop makes the worker give its slab back and leave. */
  function PutStep(setup: Setup, p: Pipe, i: nat): Pipe
    requires i < |p.workers|
  {
    match p.workers[i]
    case Ready(entry) =>
      if p.stop then WithWorker(p.(free := p.free + [entry.slab]), i, Exited)
      else if |p.queue| < setup.depth then WithWorker(p.(queue := p.queue + [Done(entry)]), i, Idle)
      else p
    case Reporting =>
      if p.stop then WithWorker(p, i, Exited)
      else if |p.queue| < setup.depth then WithWorker(p.(queue := p.queue + [Failed]), i, Exited)
      else p
    case _ => p
  }

  function GetStep(setup: Setup, p: Pipe): Pipe {
    if p.assembler != Waiting || p.queue == [] || |p.written| >= |setup.bodies| then p
    else
      match p.queue[0]
      case Done(entry) => p.(queue := p.queue[1..], assembler := Writing(entry))
      case Failed => p.(queue := p.queue[1..], assembler := Aborted, stop := true)
  }

  /** The bytes the assembler reads through the entry's view. */
  function BodyRead(p: Pipe, e: Entry): Octets {
    if e.oversized then e.body
    else if e.slab < |p.slabs| && |e.body| <= |p.slabs[e.slab]| then p.slabs[e.slab][..|e.body|] else []
  }

  /** Copies the body out and recycles the slab. */
  function WriteStep(p: Pipe): Pipe {
    match p.assembler
    case Writing(entry) =>
      p.(written := p.written + [entry.(body := BodyRead(p, entry))], free := p.free + [entry.slab], assembler := Waiting)
    case _ => p
  }

  /** The slab is released even when the write fails. */
  function WriteFailsStep(p: Pipe): Pipe {
    match p.assembler
    case Writing(entry) => p.(free := p.free + [entry.slab], assembler := Aborted, stop := true)
    case _ => p
  }

  function FinishStep(setup: Setup, p: Pipe): Pipe {
    if p.assembler == Waiting && |p.written| >= |setup.bodies| then p.(assembler := Finished, stop := true) else p
  }

  function StepOf(setup: Setup, p: Pipe, s: Step): Pipe {
    match s
    case Take(i) => if i < |p.workers| then TakeStep(p, i) else p
    case Borrow(i) => if i < |p.workers| then BorrowStep(p, i) else p
    case Scribble(i, bytes) => if i < |p.workers| then ScribbleStep(setup, p, i, bytes) else p
    case Download(i) => if i < |p.workers| then DownloadStep(setup, p, i) else p
    case Fail(i) => if i < |p.workers| then FailStep(p, i) else p
    case PutItem(i) => if i < |p.workers| then PutStep(setup, p, i) else p
    case Get => GetStep(setup, p)
    case Write => WriteStep(p)
    case WriteFails => WriteFailsStep(p)
    case Finish => FinishStep(setup, p)
  }

  function Run(setup: Setup, pool: nat, workers: nat, steps: seq<Step>): Pipe {
    if steps == [] then Start(setup, pool, workers)
    else StepOf(setup, Run(setup, pool, workers, steps[..|steps| - 1]), steps[|steps| - 1])
  }

  // ---------- Sums over sequences ----------

  function Sum<T>(xs: seq<T>, f: T -> nat): nat {
    if xs == [] then 0 else f(xs[0]) + Sum(xs[1..], f)
  }

  lemma {:induction false} SumAppend<T>(xs: seq<T>, x: T, f: T -> nat)
    ensures Sum(xs + [x], f) == Sum(xs, f) + f(x)
  {
    if xs == [] {
      assert xs + [x] == [x] && [x][1..] == [];
    } else {
      assert (xs + [x])[1..] == xs[1..] + [x];
      SumAppend(xs[1..], x, f);
    }
  }

  lemma {:induction false} SumUpdate<T>(xs: seq<T>, i: nat, x: T, f: T -> nat)
    requires i < |xs|
    ensures Sum(xs[i := x], f) + f(xs[i]) == Sum(xs, f) + f(x)
  {
    if i == 0 {
      assert xs[0 := x][1..] == xs[1..];
    } else {
      assert xs[i := x][1..] == xs[1..][i - 1 := x];
      SumUpdate(xs[1..], i - 1, x, f);
    }
  }

  lemma {:induction false} SumHas<T>(xs: seq<T>, i: nat, f: T -> nat)
    requires i < |xs|
    ensures Sum(xs, f) >= f(xs[i])
  {
    if i > 0 {
      SumHas(xs[1..], i - 1, f);
    }
  }

  lemma {:induction false} SumHasTwo<T>(xs: seq<T>, i: nat, j: nat, f: T -> nat)
    requires i < j < |xs|
    ensures Sum(xs, f) >= f(xs[i]) + f(xs[j])
  {
    if i == 0 {
      SumHas(xs[1..], j - 1, f);
    } else {
      SumHasTwo(xs[1..], i - 1, j - 1, f);
    }
  }

  lemma {:induction false} SumOfZeros<T>(xs: seq<T>, f: T -> nat)
    requires forall i | 0 <= i < |xs| :: f(xs[i]) == 0
    ensures Sum(xs, f) == 0
  {
    if xs != [] {
      SumOfZeros(xs[1..], f);
    }
  }

  lemma {:induction false} SumOfAll(n: nat, s: nat)
    ensures Sum(UpTo(n), Is(s)) == if s < n then 1 else 0
  {
    if n > 0 {
      SumOfAll(n - 1, s);
      SumAppend<nat>(UpTo(n - 1), n - 1, Is(s));
    }
  }

  // ---------- Where the slabs are ----------

  function Is(s: nat): nat -> nat { (x: nat) => if x == s then 1 else 0 }

  function SlabAtWorker(s: nat): Worker -> nat {
    (w: Worker) => if (w.Holding? && w.slab == s) || (w.Ready? && w.entry.slab == s) then 1 else 0
  }

  function SlabInItem(s: nat): Item -> nat { (item: Item) => if item.Done? && item.entry.slab == s then 1 else 0 }

  function SlabAtAssembler(a: Assembler, s: nat): nat { if a.Writing? && a.entry.slab == s then 1 else 0 }

  /** In how many places a slab is. */
  function Places(p: Pipe, s: nat): nat {
    Sum(p.free, Is(s)) + Sum(p.workers, SlabAtWorker(s)) + Sum(p.queue, SlabInItem(s)) + SlabAtAssembler(p.assembler, s)
  }

  /** Every slab is in exactly one place: the pool, one downloader, the queue or the assembler. */
  ghost predicate OnePlaceEach(p: Pipe) {
    forall s: nat :: Places(p, s) == if s < |p.slabs| then 1 else 0
  }

  /** A worker's step moves its slab between itself and the pool, or into the queue. */
  lemma WorkerMoves(p: Pipe, next: Pipe, i: nat, w: Worker, s: nat)
    requires i < |p.workers| && next.workers == p.workers[i := w] && next.assembler == p.assembler
    requires Sum(next.free, Is(s)) + Sum(next.queue, SlabInItem(s)) + SlabAtWorker(s)(w)
          == Sum(p.free, Is(s)) + Sum(p.queue, SlabInItem(s)) + SlabAtWorker(s)(p.workers[i])
    ensures Places(next, s) == Places(p, s)
  {
    SumUpdate(p.workers, i, w, SlabAtWorker(s));
  }

  lemma TakePlaces(p: Pipe, i: nat, s: nat)
    requires i < |p.workers|
    ensures Places(TakeStep(p, i), s) == Places(p, s)
  {
    if p.workers[i] == Idle {
      WorkerMoves(p, TakeStep(p, i), i, TakeStep(p, i).workers[i], s);
    }
  }

  lemma BorrowPlaces(p: Pipe, i: nat, s: nat)
    requires i < |p.workers|
    ensures Places(BorrowStep(p, i), s) == Places(p, s)
  {
    if p.workers[i].HasKey? && (p.stop || p.free != []) {
      WorkerMoves(p, BorrowStep(p, i), i, BorrowStep(p, i).workers[i], s);
    }
  }

  lemma DownloadPlaces(setup: Setup, p: Pipe, i: nat, s: nat)
    requires i < |p.workers|
    ensures Places(DownloadStep(setup, p, i), s) == Places(p, s)
  {
    var next := DownloadStep(setup, p, i);
    if next != p {
      assert next.workers == p.workers[i := next.workers[i]];
      WorkerMoves(p, next, i, next.workers[i], s);
    }
  }

  lemma FailPlaces(p: Pipe, i: nat, s: nat)
    requires i < |p.workers|
    ensures Places(FailStep(p, i), s) == Places(p, s)
  {
    if p.workers[i].Holding? {
      SumAppend(p.free, p.workers[i].slab, Is(s));
      WorkerMoves(p, FailStep(p, i), i, Reporting, s);
    }
  }

  lemma PutPlaces(setup: Setup, p: Pipe, i: nat, s: nat)
    requires i < |p.workers|
    ensures Places(PutStep(setup, p, i), s) == Places(p, s)
  {
    var next := PutStep(setup, p, i);
    if p.workers[i].Ready? {
      SumAppend(p.free, p.workers[i].entry.slab, Is(s));
      SumAppend(p.queue, Done(p.workers[i].entry), SlabInItem(s));
    }
    SumAppend(p.queue, Failed, SlabInItem(s));
    if next != p {
      assert next.workers == p.workers[i := next.workers[i]];
      WorkerMoves(p, next, i, next.workers[i], s);
    }
  }

  lemma AssemblerPlaces(setup: Setup, p: Pipe, s: nat)
    ensures Places(GetStep(setup, p), s) == Places(p, s)
    ensures Places(WriteStep(p), s) == Places(p, s)
    ensures Places(WriteFailsStep(p), s) == Places(p, s)
  {
    if p.assembler.Writing? {
      SumAppend(p.free, p.assembler.entry.slab, Is(s));
    }
  }

  lemma StepPlaces(setup: Setup, p: Pipe, step: Step, s: nat)
    ensures Places(StepOf(setup, p, step), s) == Places(p, s)
  {
    match step
    case Take(i) => if i < |p.workers| { TakePlaces(p, i, s); }
    case Borrow(i) => if i < |p.workers| { BorrowPlaces(p, i, s); }
    case Scribble(i, bytes) =>
    case Download(i) => if i < |p.workers| { DownloadPlaces(setup, p, i, s); }
    case Fail(i) => if i < |p.workers| { FailPlaces(p, i, s); }
    case PutItem(i) => if i < |p.workers| { PutPlaces(setup, p, i, s); }
    case Get => AssemblerPlaces(setup, p, s);
    case Write => AssemblerPlaces(setup, p, s);
    case WriteFails => AssemblerPlaces(setup, p, s);
    case Finish =>
  }

  lemma StepKeepsPool(setup: Setup, p: Pipe, step: Step)
    ensures |StepOf(setup, p, step).slabs| == |p.slabs|
  {}

  // ---------- Bodies stay what they were ----------

  /** The entry carries its object, and its slab still shows it. */
  ghost predicate Intact(setup: Setup, slabs: seq<Octets>, e: Entry) {
    && e.key < |setup.bodies| && e.body == setup.bodies[e.key]
    && (!e.oversized ==> e.slab < |slabs| && |e.body| <= |slabs[e.slab]| && slabs[e.slab][..|e.body|] == e.body)
  }

  ghost predicate WorkersIntact(setup: Setup, slabs: seq<Octets>, workers: seq<Worker>) {
    forall i | 0 <= i < |workers| :: workers[i].Ready? ==> Intact(setup, slabs, workers[i].entry)
  }

  ghost predicate QueueIntact(setup: Setup, slabs: seq<Octets>, queue: seq<Item>) {
    forall i | 0 <= i < |queue| :: queue[i].Done? ==> Intact(setup, slabs, queue[i].entry)
  }

  ghost predicate AllIntact(setup: Setup, p: Pipe) {
    && WorkersIntact(setup, p.slabs, p.workers)
    && QueueIntact(setup, p.slabs, p.queue)
    && (p.assembler.Writing? ==> Intact(setup, p.slabs, p.assembler.entry))
  }

  /** A downloader's slab shows no finished entry. */
  lemma OwnSlabOnly(p: Pipe, i: nat)
    requires OnePlaceEach(p) && i < |p.workers| && p.workers[i].Holding?
    ensures forall j | 0 <= j < |p.workers| :: p.workers[j].Ready? ==> p.workers[j].entry.slab != p.workers[i].slab
    ensures forall j | 0 <= j < |p.queue| :: p.queue[j].Done? ==> p.queue[j].entry.slab != p.workers[i].slab
    ensures p.assembler.Writing? ==> p.assembler.entry.slab != p.workers[i].slab
  {
    var s := p.workers[i].slab;
    SumHas(p.workers, i, SlabAtWorker(s));
    assert Places(p, s) <= 1;
    forall j | 0 <= j < |p.workers| && p.workers[j].Ready? ensures p.workers[j].entry.slab != s {
      if i < j { SumHasTwo(p.workers, i, j, SlabAtWorker(s)); }
      if j < i { SumHasTwo(p.workers, j, i, SlabAtWorker(s)); }
    }
    forall j | 0 <= j < |p.queue| && p.queue[j].Done? ensures p.queue[j].entry.slab != s {
      SumHas(p.queue, j, SlabInItem(s));
    }
  }

  /** Writing into one downloader's slab leaves every finished entry as it was. */
  lemma OtherSlabsIntact(setup: Setup, p: Pipe, i: nat, bytes: Octets)
    requires OnePlaceEach(p) && AllIntact(setup, p) && i < |p.workers| && p.workers[i].Holding? && p.workers[i].slab < |p.slabs|
    ensures AllIntact(setup, p.(slabs := p.slabs[p.workers[i].slab := bytes]))
  {
    OwnSlabOnly(p, i);
  }

  lemma DownloadIntact(setup: Setup, p: Pipe, i: nat)
    requires OnePlaceEach(p) && AllIntact(setup, p) && i < |p.workers|
    ensures AllIntact(setup, DownloadStep(setup, p, i))
  {
    if p.workers[i].Holding? && p.workers[i].slab < |p.slabs| && p.workers[i].key < |setup.bodies| {
      var slab := p.workers[i].slab;
      var body := setup.bodies[p.workers[i].key];
      if |body| <= |p.slabs[slab]| {
        OtherSlabsIntact(setup, p, i, body + p.slabs[slab][|body|..]);
        assert (body + p.slabs[slab][|body|..])[..|body|] == body;
      }
    }
  }

  lemma MovesIntact(setup: Setup, p: Pipe, i: nat)
    requires AllIntact(setup, p) && i < |p.workers|
    ensures AllIntact(setup, TakeStep(p, i)) && AllIntact(setup, BorrowStep(p, i))
    ensures AllIntact(setup, FailStep(p, i))
  {}

  lemma PutIntact(setup: Setup, p: Pipe, i: nat)
    requires AllIntact(setup, p) && i < |p.workers|
    ensures AllIntact(setup, PutStep(setup, p, i))
  {}

  lemma AssemblerIntact(setup: Setup, p: Pipe)
    requires AllIntact(setup, p)
    ensures AllIntact(setup, GetStep(setup, p)) && AllIntact(setup, WriteStep(p))
    ensures AllIntact(setup, WriteFailsStep(p)) && AllIntact(setup, FinishStep(setup, p))
  {
    if p.queue != [] {
      assert p.queue == [p.queue[0]] + p.queue[1..];
    }
  }

  lemma StepKeepsIntact(setup: Setup, p: Pipe, step: Step)
    requires OnePlaceEach(p) && AllIntact(setup, p)
    ensures AllIntact(setup, StepOf(setup, p, step))
  {
    match step
    case Take(i) => if i < |p.workers| { MovesIntact(setup, p, i); }
    case Borrow(i) => if i < |p.workers| { MovesIntact(setup, p, i); }
    case Scribble(i, bytes) =>
      if i < |p.workers| && p.workers[i].Holding? && p.workers[i].slab < |p.slabs| {
        OtherSlabsIntact(setup, p, i, bytes);
      }
    case Download(i) => if i < |p.workers| { DownloadIntact(setup, p, i); }
    case Fail(i) => if i < |p.workers| { MovesIntact(setup, p, i); }
    case PutItem(i) => if i < |p.workers| { PutIntact(setup, p, i); }
    case Get => AssemblerIntact(setup, p);
    case Write => AssemblerIntact(setup, p);
    case WriteFails => AssemblerIntact(setup, p);
    case Finish => AssemblerIntact(setup, p);
  }

  /** Everything written so far is the object of its key. */
  ghost predicate WrittenRight(setup: Setup, p: Pipe) {
    forall i | 0 <= i < |p.written| :: p.written[i].key < |setup.bodies| && p.written[i].body == setup.bodies[p.written[i].key]
  }

  lemma StepWritesRight(setup: Setup, p: Pipe, step: Step)
    requires AllIntact(setup, p) && WrittenRight(setup, p)
    ensures WrittenRight(setup, StepOf(setup, p, step))
  {}

  lemma StartRight(setup: Setup, pool: nat, workers: nat)
    ensures var p := Start(setup, pool, workers);
      OnePlaceEach(p) && AllIntact(setup, p) && WrittenRight(setup, p)
  {
    var p := Start(setup, pool, workers);
    forall s: nat ensures Places(p, s) == if s < pool then 1 else 0 {
      SumOfAll(pool, s);
      SumOfZeros(p.workers, SlabAtWorker(s));
    }
  }

  /**
   * In every run, with or without failures: each slab is in exactly one place, a queued body is
   * unchanged until the assembler has copied it, and what is written is the object of its key.
   */
  lemma {:induction false} PoolTheorem(setup: Setup, pool: nat, workers: nat, steps: seq<Step>)
    ensures var p := Run(setup, pool, workers, steps);
      |p.slabs| == pool && OnePlaceEach(p) && AllIntact(setup, p) && WrittenRight(setup, p)
  {
    if steps == [] {
      StartRight(setup, pool, workers);
    } else {
      var before, last := Run(setup, pool, workers, steps[..|steps| - 1]), steps[|steps| - 1];
      PoolTheorem(setup, pool, workers, steps[..|steps| - 1]);
      StepKeepsPool(setup, before, last);
      forall s: nat ensures Places(StepOf(setup, before, last), s) == Places(before, s) {
        StepPlaces(setup, before, last, s);
      }
      StepKeepsIntact(setup, before, last);
      StepWritesRight(setup, before, last);
    }
  }

  // ---------- Where the keys are ----------

  function KeyAtWorker(k: nat): Worker -> nat {
    (w: Worker) => if ((w.HasKey? || w.Holding?) && w.key == k) || (w.Ready? && w.entry.key == k) then 1 else 0
  }

  function KeyInItem(k: nat): Item -> nat { (item: Item) => if item.Done? && item.entry.key == k then 1 else 0 }

  function KeyWritten(k: nat): Entry -> nat { (e: Entry) => if e.key == k then 1 else 0 }

  /** How often a key is under way or done. */
  function Occurrences(p: Pipe, k: nat): nat {
    Sum(p.keys, Is(k)) + Sum(p.workers, KeyAtWorker(k)) + Sum(p.queue, KeyInItem(k))
    + (if p.assembler.Writing? && p.assembler.entry.key == k then 1 else 0) + Sum(p.written, KeyWritten(k))
  }

  /** Nothing has failed and nobody has been told to stop. */
  ghost predicate Healthy(p: Pipe) {
    && !p.stop && (p.assembler == Waiting || p.assembler.Writing?)
    && (forall i | 0 <= i < |p.queue| :: p.queue[i].Done?)
    && (forall i | 0 <= i < |p.workers| :: p.workers[i] != Reporting && (p.workers[i] == Exited ==> p.keys == []))
  }

  predicate NoFailure(step: Step) { !step.Fail? && !step.WriteFails? }

  ghost predicate NoFailures(steps: seq<Step>) {
    forall i | 0 <= i < |steps| :: NoFailure(steps[i])
  }

  lemma KeyMoves(p: Pipe, next: Pipe, i: nat, w: Worker, k: nat)
    requires i < |p.workers| && next.workers == p.workers[i := w] && next.assembler == p.assembler && next.written == p.written
    requires Sum(next.keys, Is(k)) + Sum(next.queue, KeyInItem(k)) + KeyAtWorker(k)(w)
          == Sum(p.keys, Is(k)) + Sum(p.queue, KeyInItem(k)) + KeyAtWorker(k)(p.workers[i])
    ensures Occurrences(next, k) == Occurrences(p, k)
  {
    SumUpdate(p.workers, i, w, KeyAtWorker(k));
  }

  lemma WorkerKeys(setup: Setup, p: Pipe, step: Step, i: nat, k: nat)
    requires Healthy(p) && i < |p.workers|
    requires step == Take(i) || step == Borrow(i) || step == Download(i) || step == PutItem(i)
    ensures Occurrences(StepOf(setup, p, step), k) == Occurrences(p, k)
  {
    var next := StepOf(setup, p, step);
    if p.workers[i].Ready? {
      SumAppend(p.queue, Done(p.workers[i].entry), KeyInItem(k));
    }
    if next != p {
      assert next.workers == p.workers[i := next.workers[i]];
      KeyMoves(p, next, i, next.workers[i], k);
    }
  }

  /** Without failures no key is lost or doubled. */
  lemma StepKeys(setup: Setup, p: Pipe, step: Step, k: nat)
    requires Healthy(p) && NoFailure(step)
    ensures Occurrences(StepOf(setup, p, step), k) == Occurrences(p, k)
  {
    match step
    case Take(i) => if i < |p.workers| { WorkerKeys(setup, p, step, i, k); }
    case Borrow(i) => if i < |p.workers| { WorkerKeys(setup, p, step, i, k); }
    case Download(i) => if i < |p.workers| { WorkerKeys(setup, p, step, i, k); }
    case PutItem(i) => if i < |p.workers| { WorkerKeys(setup, p, step, i, k); }
    case Write =>
      if p.assembler.Writing? {
        SumAppend(p.written, WriteStep(p).written[|p.written|], KeyWritten(k));
      }
    case _ =>
  }

  lemma StepHealthy(setup: Setup, p: Pipe, step: Step)
    requires Healthy(p) && NoFailure(step)
    ensures var next := StepOf(setup, p, step); Healthy(next) || next == p.(assembler := Finished, stop := true)
  {
    if p.queue != [] {
      assert p.queue == [p.queue[0]] + p.queue[1..];
    }
  }

  // ---------- Progress ----------

  function Busy(): Worker -> nat { (w: Worker) => if w.HasKey? || w.Holding? || w.Ready? then 1 else 0 }

  /** Keys that are not written yet. */
  function Outstanding(p: Pipe): nat {
    |p.keys| + Sum(p.workers, Busy()) + |p.queue| + if p.assembler.Writing? then 1 else 0
  }

  /** No key is lost: all are outstanding or written, each exactly once. */
  ghost predicate KeysOnce(setup: Setup, p: Pipe) {
    && Outstanding(p) + |p.written| == |setup.bodies|
    && forall k: nat :: Occurrences(p, k) == if k < |setup.bodies| then 1 else 0
  }

  lemma WorkerCounts(setup: Setup, p: Pipe, step: Step, i: nat)
    requires Healthy(p) && i < |p.workers|
    requires step == Take(i) || step == Borrow(i) || step == Download(i) || step == PutItem(i)
    ensures Outstanding(StepOf(setup, p, step)) == Outstanding(p) && StepOf(setup, p, step).written == p.written
  {
    var next := StepOf(setup, p, step);
    if next != p {
      assert next.workers == p.workers[i := next.workers[i]];
      SumUpdate(p.workers, i, next.workers[i], Busy());
    }
  }

  lemma StepCounts(setup: Setup, p: Pipe, step: Step)
    requires Healthy(p) && NoFailure(step)
    ensures var next := StepOf(setup, p, step); Outstanding(next) + |next.written| == Outstanding(p) + |p.written|
  {
    match step
    case Take(i) => if i < |p.workers| { WorkerCounts(setup, p, step, i); }
    case Borrow(i) => if i < |p.workers| { WorkerCounts(setup, p, step, i); }
    case Download(i) => if i < |p.workers| { WorkerCounts(setup, p, step, i); }
    case PutItem(i) => if i < |p.workers| { WorkerCounts(setup, p, step, i); }
    case _ =>
  }

  /** Every key has been written exactly once. */
  ghost predicate Delivered(setup: Setup, p: Pipe) {
    && p.assembler == Finished && |p.written| == |setup.bodies|
    && forall k: nat :: Sum(p.written, KeyWritten(k)) == if k < |setup.bodies| then 1 else 0
  }

  ghost predicate Clean(setup: Setup, p: Pipe) {
    (Healthy(p) && KeysOnce(setup, p)) || Delivered(setup, p)
  }

  lemma {:induction false} NoneBusy(workers: seq<Worker>, i: nat)
    requires Sum(workers, Busy()) == 0 && i < |workers|
    ensures Busy()(workers[i]) == 0
  {
    SumHas(workers, i, Busy());
  }

  /** With nothing outstanding, every key stands in the written ones. */
  lemma NothingOutstanding(setup: Setup, p: Pipe, k: nat)
    requires Outstanding(p) == 0
    ensures Occurrences(p, k) == Sum(p.written, KeyWritten(k))
  {
    forall i | 0 <= i < |p.workers| ensures KeyAtWorker(k)(p.workers[i]) == 0 {
      NoneBusy(p.workers, i);
    }
    SumOfZeros(p.workers, KeyAtWorker(k));
  }

  lemma FinishDelivers(setup: Setup, p: Pipe)
    requires Healthy(p) && KeysOnce(setup, p) && p.assembler == Waiting && |p.written| >= |setup.bodies|
    ensures Delivered(setup, p.(assembler := Finished, stop := true))
  {
    forall k: nat ensures Sum(p.written, KeyWritten(k)) == if k < |setup.bodies| then 1 else 0 {
      NothingOutstanding(setup, p, k);
    }
  }

  lemma StepClean(setup: Setup, p: Pipe, step: Step)
    requires Clean(setup, p) && NoFailure(step)
    ensures Clean(setup, StepOf(setup, p, step))
  {
    if Delivered(setup, p) {
      assert StepOf(setup, p, step).written == p.written;
    } else if step == Finish && p.assembler == Waiting && |p.written| >= |setup.bodies| {
      FinishDelivers(setup, p);
    } else {
      StepHealthy(setup, p, step);
      StepCounts(setup, p, step);
      forall k: nat ensures Occurrences(StepOf(setup, p, step), k) == if k < |setup.bodies| then 1 else 0 {
        StepKeys(setup, p, step, k);
      }
    }
  }

  lemma StartClean(setup: Setup, pool: nat, workers: nat)
    ensures Clean(setup, Start(setup, pool, workers))
  {
    var p := Start(setup, pool, workers);
    SumOfZeros(p.workers, Busy());
    forall k: nat ensures Occurrences(p, k) == if k < |setup.bodies| then 1 else 0 {
      SumOfAll(|setup.bodies|, k);
      SumOfZeros(p.workers, KeyAtWorker(k));
    }
  }

  /** A run without failures loses no key, and once it finishes every object has been written exactly once. */
  lemma {:induction false} CleanRunTheorem(setup: Setup, pool: nat, workers: nat, steps: seq<Step>)
    requires NoFailures(steps)
    ensures Clean(setup, Run(setup, pool, workers, steps))
  {
    if steps == [] {
      StartClean(setup, pool, workers);
    } else {
      CleanRunTheorem(setup, pool, workers, steps[..|steps| - 1]);
      StepClean(setup, Run(setup, pool, workers, steps[..|steps| - 1]), steps[|steps| - 1]);
    }
  }

  /** A step of the pipeline itself that changes something. */
  predicate Moves(setup: Setup, p: Pipe, step: Step) {
    NoFailure(step) && !step.Scribble? && StepOf(setup, p, step) != p
  }

  lemma HolderMoves(setup: Setup, p: Pipe, i: nat)
    requires OnePlaceEach(p) && KeysOnce(setup, p) && Healthy(p) && i < |p.workers| && p.workers[i].Holding?
    ensures Moves(setup, p, Download(i))
  {
    var s, k := p.workers[i].slab, p.workers[i].key;
    SumHas(p.workers, i, SlabAtWorker(s));
    assert Places(p, s) >= 1;
    SumHas(p.workers, i, KeyAtWorker(k));
    assert Occurrences(p, k) >= 1;
    assert DownloadStep(setup, p, i).workers[i].Ready?;
  }

  lemma FreeSlab(p: Pipe)
    requires OnePlaceEach(p) && |p.slabs| > 0 && p.queue == [] && p.assembler == Waiting
    requires forall i | 0 <= i < |p.workers| :: !p.workers[i].Holding? && !p.workers[i].Ready?
    ensures p.free != []
  {
    SumOfZeros(p.workers, SlabAtWorker(0));
    assert Places(p, 0) == 1;
  }

  lemma FreeKey(setup: Setup, p: Pipe)
    requires KeysOnce(setup, p) && |p.written| < |setup.bodies| && p.queue == [] && p.assembler == Waiting
    requires forall i | 0 <= i < |p.workers| :: !p.workers[i].HasKey? && !p.workers[i].Holding? && !p.workers[i].Ready?
    ensures p.keys != []
  {
    SumOfZeros(p.workers, Busy());
  }

  /** With one worker, one slab and room for one item, a run without failures can always move until every key is written. */
  lemma ProgressTheorem(setup: Setup, p: Pipe) returns (step: Step)
    requires Healthy(p) && KeysOnce(setup, p) && OnePlaceEach(p) && |p.written| < |setup.bodies|
    requires setup.depth >= 1 && |p.slabs| >= 1 && |p.workers| >= 1
    ensures Moves(setup, p, step)
  {
    if p.assembler.Writing? {
      step := Write;
    } else if p.queue != [] {
      step := Get;
    } else if i :| 0 <= i < |p.workers| && p.workers[i].Ready? {
      step := PutItem(i);
    } else if i :| 0 <= i < |p.workers| && p.workers[i].Holding? {
      step := Download(i);
      HolderMoves(setup, p, i);
    } else if i :| 0 <= i < |p.workers| && p.workers[i].HasKey? {
      step := Borrow(i);
      FreeSlab(p);
    } else {
      step := Take(0);
      FreeKey(setup, p);
      assert TakeStep(p, 0).workers[0] != p.workers[0];
    }
  }

  /** What is left to do for one worker. */
  function Load(): Worker -> nat {
    (w: Worker) =>
      match w
      case Exited => 0
      case Reporting => 0
      case Idle => 1
      case HasKey(_) => 6
      case Holding(_, _) => 5
      case Ready(_) => 4
  }

  function Work(p: Pipe): nat {
    6 * |p.keys| + Sum(p.workers, Load()) + 2 * |p.queue| + if p.assembler.Writing? then 1 else 0
  }

  lemma WorkerWork(setup: Setup, p: Pipe, step: Step, i: nat)
    requires Healthy(p) && i < |p.workers| && StepOf(setup, p, step) != p
    requires step == Take(i) || step == Borrow(i) || step == Download(i) || step == PutItem(i)
    ensures Work(StepOf(setup, p, step)) < Work(p)
  {
    var next := StepOf(setup, p, step);
    assert next.workers == p.workers[i := next.workers[i]];
    SumUpdate(p.workers, i, next.workers[i], Load());
  }

  /** Every such step leaves less to do, so that a run without failures ends. */
  lemma WorkShrinks(setup: Setup, p: Pipe, step: Step)
    requires Healthy(p) && Moves(setup, p, step) && step != Finish
    ensures Work(StepOf(setup, p, step)) < Work(p)
  {
    match step
    case Take(i) => WorkerWork(setup, p, step, i);
    case Borrow(i) => WorkerWork(setup, p, step, i);
    case Download(i) => WorkerWork(setup, p, step, i);
    case PutItem(i) => WorkerWork(setup, p, step, i);
    case Get =>
    case Write =>
    case _ =>
  }

  lemma {:induction false} WorkersStay(setup: Setup, pool: nat, workers: nat, steps: seq<Step>)
    ensures |Run(setup, pool, workers, steps).workers| == workers
  {
    if steps != [] {
      WorkersStay(setup, pool, workers, steps[..|steps| - 1]);
      WorkersKeep(setup, Run(setup, pool, workers, steps[..|steps| - 1]), steps[|steps| - 1]);
    }
  }

  lemma WorkersKeep(setup: Setup, p: Pipe, step: Step)
    ensures |StepOf(setup, p, step).workers| == |p.workers|
  {}

  lemma AllWrittenWaits(setup: Setup, p: Pipe)
    requires Healthy(p) && KeysOnce(setup, p) && |p.written| >= |setup.bodies|
    ensures p.assembler == Waiting
  {}

  lemma RunAppend(setup: Setup, pool: nat, workers: nat, steps: seq<Step>, step: Step)
    ensures Run(setup, pool, workers, steps + [step]) == StepOf(setup, Run(setup, pool, workers, steps), step)
  {
    assert (steps + [step])[..|steps|] == steps;
  }

  /** A step that leaves less to do, or finishes with every object written exactly once. */
  ghost predicate Nearer(setup: Setup, p: Pipe, next: Pipe) {
    && (|p.written| < |setup.bodies| ==> Work(next) < Work(p))
    && (|p.written| >= |setup.bodies| ==> Delivered(setup, next))
  }

  lemma NearerStep(setup: Setup, p: Pipe) returns (step: Step)
    requires Healthy(p) && KeysOnce(setup, p) && OnePlaceEach(p)
    requires setup.depth >= 1 && |p.slabs| >= 1 && |p.workers| >= 1
    ensures NoFailure(step) && Nearer(setup, p, StepOf(setup, p, step))
  {
    if |p.written| < |setup.bodies| {
      step := ProgressTheorem(setup, p);
      NotYetFinish(setup, p, step);
      WorkShrinks(setup, p, step);
    } else {
      AllWrittenWaits(setup, p);
      FinishDelivers(setup, p);
      step := Finish;
    }
  }

  lemma RunIsClean(setup: Setup, pool: nat, workers: nat, steps: seq<Step>, p: Pipe)
    requires NoFailures(steps) && p == Run(setup, pool, workers, steps)
    ensures Clean(setup, p) && OnePlaceEach(p) && |p.slabs| == pool && |p.workers| == workers
  {
    CleanRunTheorem(setup, pool, workers, steps);
    PoolTheorem(setup, pool, workers, steps);
    WorkersStay(setup, pool, workers, steps);
  }

  /**
   * After every run without failures some step is possible: it leaves less to do, or it finishes with
   * every object written exactly once.
   */
  lemma RunProgressTheorem(setup: Setup, pool: nat, workers: nat, steps: seq<Step>) returns (step: Step)
    requires NoFailures(steps) && !Delivered(setup, Run(setup, pool, workers, steps))
    requires setup.depth >= 1 && pool >= 1 && workers >= 1
    ensures NoFailure(step)
    ensures Nearer(setup, Run(setup, pool, workers, steps), Run(setup, pool, workers, steps + [step]))
  {
    var p := Run(setup, pool, workers, steps);
    RunIsClean(setup, pool, workers, steps, p);
    step := NearerStep(setup, p);
    RunAppend(setup, pool, workers, steps, step);
  }

  lemma NotYetFinish(setup: Setup, p: Pipe, step: Step)
    requires Moves(setup, p, step) && |p.written| < |setup.bodies|
    ensures step != Finish
  {}

  lemma NoneMore(steps: seq<Step>)
    ensures steps + [] == steps
  {}

  lemma OneThenRest(steps: seq<Step>, step: Step, rest: seq<Step>)
    ensures steps + ([step] + rest) == (steps + [step]) + rest
  {}

  lemma NoFailuresJoin(steps: seq<Step>, more: seq<Step>)
    requires NoFailures(steps) && NoFailures(more)
    ensures NoFailures(steps + more)
  {}

  lemma OneStepOn(setup: Setup, pool: nat, workers: nat, steps: seq<Step>, p: Pipe) returns (step: Step, next: Pipe)
    requires NoFailures(steps) && p == Run(setup, pool, workers, steps) && !Delivered(setup, p)
    requires setup.depth >= 1 && pool >= 1 && workers >= 1
    ensures NoFailures([step]) && NoFailures(steps + [step]) && next == Run(setup, pool, workers, steps + [step])
    ensures Delivered(setup, next) || Work(next) < Work(p)
  {
    step := RunProgressTheorem(setup, pool, workers, steps);
    next := Run(setup, pool, workers, steps + [step]);
    NoFailuresJoin(steps, [step]);
  }

  lemma {:induction false} Continues(setup: Setup, pool: nat, workers: nat, steps: seq<Step>, p: Pipe) returns (more: seq<Step>, end: Pipe)
    requires NoFailures(steps) && p == Run(setup, pool, workers, steps)
    requires setup.depth >= 1 && pool >= 1 && workers >= 1
    ensures NoFailures(more) && end == Run(setup, pool, workers, steps + more) && Delivered(setup, end)
    decreases Work(p)
  {
    if Delivered(setup, p) {
      more, end := [], p;
      NoneMore(steps);
    } else {
      var step, next := OneStepOn(setup, pool, workers, steps, p);
      if Delivered(setup, next) {
        more, end := [step], next;
      } else {
        var rest;
        rest, end := Continues(setup, pool, workers, steps + [step], next);
        more := [step] + rest;
        OneThenRest(steps, step, rest);
        NoFailuresJoin([step], rest);
      }
    }
  }

  /** Every run without failures can be continued, without failures, to one that has written every object exactly once. */
  lemma CompletionTheorem(setup: Setup, pool: nat, workers: nat, steps: seq<Step>) returns (more: seq<Step>)
    requires NoFailures(steps) && setup.depth >= 1 && pool >= 1 && workers >= 1
    ensures NoFailures(more) && Delivered(setup, Run(setup, pool, workers, steps + more))
  {
    var end;
    more, end := Continues(setup, pool, workers, steps, Run(setup, pool, workers, steps));
  }
}
