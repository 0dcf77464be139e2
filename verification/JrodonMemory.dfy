/** The memory semaphore of jrodon-v3's local execution: when every job is admitted, and when one never is. */
module JrodonMemory {
  import opened Arithmetic
  import opened Bytes
  import opened JrodonArchive
  import opened JrodonBuilder
  import opened JrodonFormat
  import opened JrodonJobs
  import opened JrodonLayout
  import opened JrodonRun
  import opened Sorting
  import opened ZipReader

  const MAX_PART_JOB_TASKS_MEMORY: nat := 50 * 1024 * 1024
  const COPY_TOKEN: nat := 256 * 1024

  function MemoryBudget(job: PartJob): nat {
    match job
    case Upload(_, partSize, _) => if partSize < MAX32 then partSize else MAX32
    case Copy(_, _, _, _) => COPY_TOKEN
  }

  function Budgets(jobs: seq<PartJob>): (budgets: seq<nat>)
    ensures |budgets| == |jobs|
  {
    seq(|jobs|, i requires 0 <= i < |jobs| => MemoryBudget(jobs[i]))
  }

  // ---------- The semaphore as a state machine ----------

  /** Jobs before `next` have been spawned; `held` are the permits of those still running. */
  datatype Gate = Gate(next: nat, held: seq<nat>)

  datatype Turn = Admit | Finish(i: nat)

  function Sum(held: seq<nat>): nat {
    if held == [] then 0 else Sum(held[..|held| - 1]) + held[|held| - 1]
  }

  predicate Enabled(budgets: seq<nat>, g: Gate, t: Turn) {
    match t
    case Admit => g.next < |budgets| && Sum(g.held) + budgets[g.next] <= MAX_PART_JOB_TASKS_MEMORY
    case Finish(i) => i < |g.held|
  }

  /** A turn that is not enabled waits. */
  function Take(budgets: seq<nat>, g: Gate, t: Turn): Gate {
    if !Enabled(budgets, g, t) then g
    else
      match t
      case Admit => Gate(g.next + 1, g.held + [budgets[g.next]])
      case Finish(i) => Gate(g.next, g.held[..i] + g.held[i + 1..])
  }

  function RunGate(budgets: seq<nat>, turns: seq<Turn>): Gate {
    if turns == [] then Gate(0, []) else Take(budgets, RunGate(budgets, turns[..|turns| - 1]), turns[|turns| - 1])
  }

  predicate AllDone(budgets: seq<nat>, g: Gate) {
    g.next == |budgets| && g.held == []
  }

  predicate AllFit(budgets: seq<nat>) {
    forall k | 0 <= k < |budgets| :: budgets[k] <= 52_428_800
  }

  /** Some turn is possible as long as the next job fits the whole memory. */
  lemma NeverStuck(budgets: seq<nat>, g: Gate)
    requires g.next <= |budgets| && AllFit(budgets)
    ensures AllDone(budgets, g) || Enabled(budgets, g, Admit) || Enabled(budgets, g, Finish(0))
  {}

  /** Every enabled turn brings the run closer to its end. */
  lemma TurnsProgress(budgets: seq<nat>, g: Gate, t: Turn)
    requires g.next <= |budgets| && Enabled(budgets, g, t)
    ensures Take(budgets, g, t).next <= |budgets|
    ensures 2 * (|budgets| - Take(budgets, g, t).next) + |Take(budgets, g, t).held| < 2 * (|budgets| - g.next) + |g.held|
  {}

  /** A job that needs more than the whole memory is never admitted, nor is any job behind it. */
  lemma {:induction false} NeverAdmitted(budgets: seq<nat>, turns: seq<Turn>, k: nat)
    requires k < |budgets| && budgets[k] > MAX_PART_JOB_TASKS_MEMORY
    ensures RunGate(budgets, turns).next <= k
  {
    if turns != [] {
      NeverAdmitted(budgets, turns[..|turns| - 1], k);
    }
  }

  /** One job after the other, each finished before the next starts. */
  function OneByOne(n: nat): seq<Turn> {
    if n == 0 then [] else OneByOne(n - 1) + [Admit] + [Finish(0)]
  }

  lemma {:induction false} OneByOneRuns(budgets: seq<nat>, n: nat)
    requires n <= |budgets| && AllFit(budgets)
    ensures RunGate(budgets, OneByOne(n)) == Gate(n, [])
  {
    if n > 0 {
      OneByOneRuns(budgets, n - 1);
      var before := OneByOne(n - 1);
      assert (before + [Admit])[..|before|] == before;
      assert (before + [Admit] + [Finish(0)])[..|before| + 1] == before + [Admit];
      assert [] + [budgets[n - 1]] == [budgets[n - 1]];
    }
  }

  /** Local execution can finish exactly when every job fits the memory on its own. */
  lemma AdmissionTheorem(budgets: seq<nat>)
    ensures (exists turns :: AllDone(budgets, RunGate(budgets, turns))) <==> AllFit(budgets)
  {
    if AllFit(budgets) {
      OneByOneRuns(budgets, |budgets|);
      assert AllDone(budgets, RunGate(budgets, OneByOne(|budgets|)));
    } else {
      var k :| 0 <= k < |budgets| && budgets[k] > MAX_PART_JOB_TASKS_MEMORY;
      forall turns ensures !AllDone(budgets, RunGate(budgets, turns)) {
        NeverAdmitted(budgets, turns, k);
      }
    }
  }

  // ---------- What runs at the same time ----------

  lemma {:induction false} SumConcat(a: seq<nat>, b: seq<nat>)
    ensures Sum(a + b) == Sum(a) + Sum(b)
  {
    if b == [] {
      assert a + b == a;
    } else {
      assert (a + b)[..|a + b| - 1] == a + b[..|b| - 1];
      SumConcat(a, b[..|b| - 1]);
    }
  }

  lemma OneOut(front: seq<nat>, x: nat, back: seq<nat>)
    ensures Sum(front + [x] + back) == Sum(front + back) + x
    ensures multiset(front + back) <= multiset(front + [x] + back)
  {
    SumConcat(front, [x]);
    SumConcat(front + [x], back);
    SumConcat(front, back);
    assert Sum([x]) == x;
  }

  /** What holds of the running jobs: each was spawned, and together they fit. */
  ghost predicate Holding(budgets: seq<nat>, g: Gate) {
    g.next <= |budgets| && Sum(g.held) <= 52_428_800 && multiset(g.held) <= multiset(budgets[..g.next])
  }

  lemma AdmitHolds(budgets: seq<nat>, g: Gate)
    requires Holding(budgets, g) && g.next < |budgets| && Sum(g.held) + budgets[g.next] <= 52_428_800
    ensures Holding(budgets, Gate(g.next + 1, g.held + [budgets[g.next]]))
  {
    SumConcat(g.held, [budgets[g.next]]);
    assert Sum([budgets[g.next]]) == budgets[g.next];
    assert budgets[..g.next + 1] == budgets[..g.next] + [budgets[g.next]];
    OneMoreEach(g.held, budgets[..g.next], budgets[g.next]);
  }

  lemma OneMoreEach(a: seq<nat>, b: seq<nat>, x: nat)
    requires multiset(a) <= multiset(b)
    ensures multiset(a + [x]) <= multiset(b + [x])
  {}

  lemma FinishHolds(budgets: seq<nat>, next: nat, front: seq<nat>, x: nat, back: seq<nat>)
    requires Holding(budgets, Gate(next, front + [x] + back))
    ensures Holding(budgets, Gate(next, front + back))
  {
    OneOut(front, x, back);
  }

  /** At no time do the running jobs, each spawned once, hold more than 50 MiB. */
  lemma {:induction false} HeldTheorem(budgets: seq<nat>, turns: seq<Turn>)
    ensures var g := RunGate(budgets, turns);
      g.next <= |budgets| && Sum(g.held) <= 52_428_800 && multiset(g.held) <= multiset(budgets[..g.next])
  {
    if turns != [] {
      var g, t := RunGate(budgets, turns[..|turns| - 1]), turns[|turns| - 1];
      HeldTheorem(budgets, turns[..|turns| - 1]);
      TurnHolds(budgets, g, t);
    }
  }

  lemma TurnHolds(budgets: seq<nat>, g: Gate, t: Turn)
    requires Holding(budgets, g)
    ensures Holding(budgets, Take(budgets, g, t))
  {
    if Enabled(budgets, g, t) {
      match t
      case Admit =>
        AdmitHolds(budgets, g);
      case Finish(i) =>
        assert g.held == g.held[..i] + [g.held[i]] + g.held[i + 1..];
        FinishHolds(budgets, g.next, g.held[..i], g.held[i], g.held[i + 1..]);
    }
  }

  lemma {:induction false} SumOfEqual(held: seq<nat>, x: nat)
    requires forall i | 0 <= i < |held| :: held[i] == x
    ensures Sum(held) == x * |held|
  {
    if held != [] {
      SumOfEqual(held[..|held| - 1], x);
    }
  }

  function Admits(m: nat): seq<Turn> {
    if m == 0 then [] else Admits(m - 1) + [Admit]
  }

  lemma NextAdmitted(budgets: seq<nat>, turns: seq<Turn>, g: Gate, n: nat)
    requires g == RunGate(budgets, turns) && g.next == n < |budgets| && Sum(g.held) + budgets[n] <= 52_428_800
    ensures RunGate(budgets, turns + [Admit]) == Gate(n + 1, g.held + [budgets[n]])
  {
    assert (turns + [Admit])[..|turns|] == turns;
  }

  lemma {:induction false} AllAdmitted(budgets: seq<nat>, m: nat)
    requires m <= |budgets| && m <= 200 && forall i | 0 <= i < |budgets| :: budgets[i] == 262_144
    ensures RunGate(budgets, Admits(m)) == Gate(m, budgets[..m])
  {
    if m > 0 {
      AllAdmitted(budgets, m - 1);
      SumOfEqual(budgets[..m - 1], 262_144);
      NextAdmitted(budgets, Admits(m - 1), Gate(m - 1, budgets[..m - 1]), m - 1);
      assert budgets[..m] == budgets[..m - 1] + [budgets[m - 1]];
    }
  }

  lemma EqualHeld(budgets: seq<nat>, g: Gate)
    requires forall i | 0 <= i < |budgets| :: budgets[i] == 262_144
    requires g.next <= |budgets| && Sum(g.held) <= 52_428_800 && multiset(g.held) <= multiset(budgets[..g.next])
    ensures |g.held| <= |budgets| && |g.held| <= 200
  {
    forall i | 0 <= i < |g.held| ensures g.held[i] == 262_144 {
      assert g.held[i] in multiset(g.held);
      assert g.held[i] in budgets[..g.next];
    }
    SumOfEqual(g.held, 262_144);
    assert multiset(budgets[..g.next]) == multiset(g.held) + (multiset(budgets[..g.next]) - multiset(g.held));
    assert |multiset(g.held)| == |g.held| && |multiset(budgets[..g.next])| == g.next;
  }

  /** Copies run up to two hundred at a time, and no more. */
  lemma CopiesTheorem(jobs: seq<PartJob>, m: nat)
    requires forall i | 0 <= i < |jobs| :: jobs[i].Copy?
    ensures (exists turns :: |RunGate(Budgets(jobs), turns).held| == m) <==> m <= |jobs| && m <= 200
  {
    var budgets := Budgets(jobs);
    if m <= |jobs| && m <= 200 {
      AllAdmitted(budgets, m);
      assert |RunGate(budgets, Admits(m)).held| == m;
    }
    forall turns | |RunGate(budgets, turns).held| == m ensures m <= |jobs| && m <= 200 {
      HeldTheorem(budgets, turns);
      EqualHeld(budgets, RunGate(budgets, turns));
    }
  }

  // ---------- How large a planned part can get ----------

  /** The largest local header of a name that fits its length field. */
  const MAX_HEADER: nat := 50 + MAX16

  /** The upload half of a duo before its header and prefix. */
  const MAX_REGULAR: nat := 3 * MIN_PART_SIZE + MAX_HEADER

  ghost predicate Modest(p: ZipLayoutPart) {
    p.Duo? ==> PartSize(p.regular) <= MAX_REGULAR && |p.copy.file.name| <= MAX16
  }

  ghost predicate AllModest(parts: seq<ZipLayoutPart>) {
    forall i | 0 <= i < |parts| :: Modest(parts[i])
  }

  ghost predicate Named(files: seq<FileInfo>) {
    forall i | 0 <= i < |files| :: |files[i].name| <= MAX16
  }

  /** A filler is never larger than the big it serves, and a big that needs fillers is below twice the minimum. */
  lemma {:induction false} PairModest(big: FileInfo, regular: seq<FileInfo>, rest: seq<FileInfo>)
    requires big.Size() >= MIN_PART_SIZE && |big.name| <= MAX16 && Named(rest)
    requires forall i | 0 <= i < |rest| :: rest[i].Size() <= big.Size()
    requires PartSize(regular) <= MAX_REGULAR
    ensures Modest(Pair(big, regular, rest).0)
    decreases |rest|
  {
    if PartSize(regular) < MissingRegular(big) && rest != [] {
      PartSizeAppend(regular, rest[0]);
      PairModest(big, regular + [rest[0]], rest[1..]);
    }
  }

  lemma PairingModest(rest: seq<FileInfo>, n: nat)
    requires SortedBy(SmallerFirst, rest) && Named(rest) && n + 1 == |rest| && rest[n].Size() >= MIN_PART_SIZE
    ensures Modest(Pair(rest[n], [], rest[..n]).0)
    ensures SortedBy(SmallerFirst, Pair(rest[n], [], rest[..n]).1) && Named(Pair(rest[n], [], rest[..n]).1)
  {
    PairLeavesSuffix(rest[n], [], rest[..n]);
    forall i | 0 <= i < n ensures rest[..n][i].Size() <= rest[n].Size() {
      assert SmallerFirst(rest[i], rest[n]);
    }
    PairModest(rest[n], [], rest[..n]);
    SuffixSorted(rest, n, Pair(rest[n], [], rest[..n]).1);
  }

  lemma {:induction false} Pass1Modest(l: Layout)
    requires SortedBy(SmallerFirst, l.rest) && Named(l.rest) && AllModest(l.parts)
    ensures AllModest(Pass1(l).parts) && Named(Pass1(l).rest)
    decreases |l.rest|
  {
    if BigLeft(l.rest) {
      var n := |l.rest| - 1;
      PairShrinks(l.rest[n], [], l.rest[..n]);
      PairingModest(l.rest, n);
      var (part, rest) := Pair(l.rest[n], [], l.rest[..n]);
      Pass1Modest(Layout(l.parts + [part], rest));
    }
  }

  lemma SuffixSorted(all: seq<FileInfo>, n: nat, rest: seq<FileInfo>)
    requires n < |all| && |rest| <= n && rest == all[..n][n - |rest|..]
    requires SortedBy(SmallerFirst, all) && Named(all)
    ensures SortedBy(SmallerFirst, rest) && Named(rest)
  {
    forall i, j | 0 <= i < j < |rest| ensures SmallerFirst(rest[i], rest[j]) {
      assert SmallerFirst(all[n - |rest| + i], all[n - |rest| + j]);
    }
    forall i | 0 <= i < |rest| ensures |rest[i].name| <= MAX16 {
      assert rest[i] == all[n - |rest| + i];
    }
  }

  ghost predicate Supplies(rest: seq<FileInfo>) { BelowMinimum(rest) && Named(rest) }

  lemma SuppliesRest(rest: seq<FileInfo>)
    requires Supplies(rest) && rest != []
    ensures Supplies(rest[1..]) && EntrySize(rest[0]) < MIN_PART_SIZE + MAX_HEADER
  {
    forall i | 0 <= i < |rest| - 1 ensures rest[1..][i].Size() < MIN_PART_SIZE && |rest[1..][i].name| <= MAX16 {
      assert rest[1..][i] == rest[i + 1];
    }
  }

  lemma {:induction false} AbsorbModest(regular: seq<FileInfo>, startByte: nat, rest: seq<FileInfo>)
    requires Supplies(rest)
    ensures Supplies(Absorb(regular, startByte, rest).2)
    ensures PartSize(Absorb(regular, startByte, rest).0) <= PartSize(regular) + startByte + MIN_PART_SIZE + MAX_HEADER
    decreases |rest|
  {
    if startByte > 0 && rest != [] {
      SuppliesRest(rest);
      PartSizeAppend(regular, rest[0]);
      var left := Minus(startByte, EntrySize(rest[0]));
      AbsorbModest(regular + [rest[0]], left, rest[1..]);
      if left == 0 {
        assert Absorb(regular + [rest[0]], left, rest[1..]).0 == regular + [rest[0]];
      }
    }
  }

  lemma PromoteModest(p: ZipLayoutPart, rest: seq<FileInfo>)
    requires Supplies(rest) && DuoSound(p) && Modest(p)
    ensures Modest(Promote(p, rest).0) && Supplies(Promote(p, rest).1)
  {
    if IsPartial(p) {
      AbsorbModest(p.regular, p.copy.startByte, rest);
    }
  }

  lemma {:induction false} FillModest(files: seq<FileInfo>, missing: nat, rest: seq<FileInfo>)
    requires Supplies(rest)
    ensures Supplies(Fill(files, missing, rest).2)
    ensures PartSize(Fill(files, missing, rest).0) <= PartSize(files) + if missing > 0 then missing + MIN_PART_SIZE + MAX_HEADER else 0
    decreases |rest|
  {
    if missing > 0 && rest != [] {
      SuppliesRest(rest);
      PartSizeAppend(files, rest[0]);
      FillModest(files + [rest[0]], Minus(missing, EntrySize(rest[0])), rest[1..]);
    }
  }

  lemma PadModest(p: ZipLayoutPart, rest: seq<FileInfo>)
    requires Supplies(rest) && Modest(p)
    ensures Modest(Pad(p, rest).0) && Supplies(Pad(p, rest).1)
  {
    if p.Duo? {
      FillModest(p.regular, Minus(TARGET_PART_SIZE, PartSize(p.regular)), rest);
    }
  }

  lemma {:induction false} PromoteSweepModest(l: Layout, n: nat)
    requires n <= |l.parts| && Supplies(l.rest) && AllSound(l.parts) && AllModest(l.parts)
    ensures AllModest(SweepTo(Promote, l, n).parts) && Supplies(SweepTo(Promote, l, n).rest)
  {
    if n > 0 {
      PromoteSweepModest(l, n - 1);
      assert DuoSound(l.parts[n - 1]) && Modest(l.parts[n - 1]);
      PromoteModest(l.parts[n - 1], SweepTo(Promote, l, n - 1).rest);
    }
  }

  lemma {:induction false} PadSweepModest(l: Layout, n: nat)
    requires n <= |l.parts| && Supplies(l.rest) && AllModest(l.parts)
    ensures AllModest(SweepTo(Pad, l, n).parts)
    ensures Supplies(SweepTo(Pad, l, n).rest)
  {
    if n > 0 {
      PadSweepModest(l, n - 1);
      assert Modest(l.parts[n - 1]);
      PadModest(l.parts[n - 1], SweepTo(Pad, l, n - 1).rest);
    }
  }

  lemma SortedNamed(files: seq<FileInfo>)
    requires Named(files)
    ensures Named(Sort(SmallerFirst, files)) && SortedBy(SmallerFirst, Sort(SmallerFirst, files))
  {
    assert TotalPreorder(SmallerFirst);
    SortSorts(SmallerFirst, files);
    var sorted := Sort(SmallerFirst, files);
    forall i | 0 <= i < |sorted| ensures |sorted[i].name| <= MAX16 {
      assert sorted[i] in multiset(sorted);
      assert sorted[i] in files;
    }
  }

  lemma SweepsModest(paired: Layout)
    requires BelowMinimum(paired.rest) && Named(paired.rest) && AllSound(paired.parts) && AllModest(paired.parts)
    ensures AllModest(Sweep(Pad, Sweep(Promote, paired)).parts)
  {
    PromoteSweepModest(paired, |paired.parts|);
    PadSweepModest(Sweep(Promote, paired), |paired.parts|);
  }

  lemma PlannedModest(files: seq<FileInfo>)
    requires Named(files)
    ensures AllModest(PlanLayout(files))
  {
    var sorted := Layout([], Sort(SmallerFirst, files));
    var paired := Pass1(sorted);
    SortedNamed(files);
    Pass1Modest(sorted);
    PairingTheorem(files);
    Pass1Sound(sorted);
    SweepsModest(paired);
    Pass4Modest(AfterPadding(files));
  }

  lemma Pass4Modest(l: Layout)
    requires AllModest(l.parts)
    ensures AllModest(Pass4(l).parts)
  {
    Pass4Appends(l);
    forall i | 0 <= i < |Pass4(l).parts| ensures Modest(Pass4(l).parts[i]) {
      if i < |l.parts| {
        assert Pass4(l).parts[i] == Pass4(l).parts[..|l.parts|][i];
      }
    }
  }

  // ---------- Duos first, singles last ----------

  ghost predicate AllDuos(parts: seq<ZipLayoutPart>) {
    forall i | 0 <= i < |parts| :: parts[i].Duo?
  }

  ghost predicate AllSingles(parts: seq<ZipLayoutPart>) {
    forall i | 0 <= i < |parts| :: parts[i].Single?
  }

  /** The first `n` parts are duos and the others singles. */
  ghost predicate Grouped(parts: seq<ZipLayoutPart>, n: nat) {
    n <= |parts| && AllDuos(parts[..n]) && AllSingles(parts[n..])
  }

  /** Pass 1 makes at most one single, as its last part. */
  lemma {:induction false} Pass1Groups(l: Layout) returns (n: nat)
    requires AllDuos(l.parts)
    ensures Grouped(Pass1(l).parts, n) && n + 1 >= |Pass1(l).parts|
    ensures l.rest == [] || !BigLeft(l.rest) ==> n == |l.parts|
    decreases |l.rest|
  {
    n := |l.parts|;
    if BigLeft(l.rest) {
      var m := |l.rest| - 1;
      PairShrinks(l.rest[m], [], l.rest[..m]);
      PairSound(l.rest[m], [], l.rest[..m]);
      var (part, rest) := Pair(l.rest[m], [], l.rest[..m]);
      if part.Duo? {
        n := Pass1Groups(Layout(l.parts + [part], rest));
      } else {
        assert (l.parts + [part])[..n] == l.parts && (l.parts + [part])[n..] == [part];
      }
    } else {
      assert l.parts[..n] == l.parts && l.parts[n..] == [];
    }
  }

  lemma SameKinds(parts: seq<ZipLayoutPart>, after: seq<ZipLayoutPart>, n: nat)
    requires Grouped(parts, n) && |parts| == |after|
    requires forall i | 0 <= i < |parts| :: parts[i].Single? <==> after[i].Single?
    ensures Grouped(after, n)
  {
    forall i | 0 <= i < n ensures after[..n][i].Duo? {
      assert parts[..n][i].Duo?;
    }
    forall i | 0 <= i < |after| - n ensures after[n..][i].Single? {
      assert parts[n..][i].Single?;
    }
  }

  ghost predicate KindAt(step: PartStep, p: ZipLayoutPart, rest: seq<FileInfo>) {
    step(p, rest).0.Single? <==> p.Single?
  }

  lemma {:induction false} SweepKinds(step: PartStep, l: Layout, n: nat, i: nat)
    requires i < n <= |l.parts| && forall p, rest :: KindAt(step, p, rest)
    ensures SweepTo(step, l, n).parts[i].Single? <==> l.parts[i].Single?
  {
    if i < n - 1 {
      SweepKinds(step, l, n - 1, i);
    } else {
      assert KindAt(step, l.parts[i], SweepTo(step, l, n - 1).rest);
    }
  }

  lemma SweepGroups(step: PartStep, l: Layout, n: nat)
    requires Grouped(l.parts, n) && forall p, rest :: KindAt(step, p, rest)
    ensures Grouped(Sweep(step, l).parts, n)
  {
    forall i | 0 <= i < |l.parts| ensures l.parts[i].Single? <==> Sweep(step, l).parts[i].Single? {
      SweepKinds(step, l, |l.parts|, i);
    }
    SameKinds(l.parts, Sweep(step, l).parts, n);
  }

  lemma Pass4Groups(l: Layout, n: nat)
    requires Grouped(l.parts, n)
    ensures Grouped(Pass4(l).parts, n)
  {
    Pass4Appends(l);
    var parts := Pass4(l).parts;
    forall i | 0 <= i < n ensures parts[..n][i].Duo? {
      assert parts[i] == parts[..|l.parts|][i] && l.parts[..n][i].Duo?;
    }
    forall i | 0 <= i < |parts| - n ensures parts[n..][i].Single? {
      if n + i < |l.parts| {
        assert parts[n + i] == parts[..|l.parts|][n + i] && l.parts[n..][i].Single?;
      }
    }
  }

  lemma BothSweepsGroup(l: Layout, n: nat)
    requires Grouped(l.parts, n)
    ensures Grouped(Sweep(Pad, Sweep(Promote, l)).parts, n)
  {
    forall p, rest ensures KindAt(Promote, p, rest) {}
    forall p, rest ensures KindAt(Pad, p, rest) {}
    SweepGroups(Promote, l, n);
    SweepGroups(Pad, Sweep(Promote, l), n);
  }

  lemma PlannedGroups(files: seq<FileInfo>) returns (n: nat)
    ensures Grouped(PlanLayout(files), n)
    ensures BelowMinimum(Sort(SmallerFirst, files)) ==> n == 0
  {
    var sorted := Layout([], Sort(SmallerFirst, files));
    n := Pass1Groups(sorted);
    BothSweepsGroup(Pass1(sorted), n);
    Pass4Groups(AfterPadding(files), n);
  }

  // ---------- Only the last part is unbounded ----------

  ghost predicate Light(jobs: seq<PartJob>) {
    forall i | 0 <= i < |jobs| :: MemoryBudget(jobs[i]) <= MAX_PART_JOB_TASKS_MEMORY
  }

  lemma DuoLight(b: Builder, p: ZipLayoutPart)
    requires p.Duo? && Splittable(p) && DuoSound(p) && Modest(p) && Light(b.parts) && !LastIsUpload(b.parts)
    ensures Light(WithPart(b, p).parts) && !LastIsUpload(WithPart(b, p).parts)
  {
    assert Open(b).parts == b.parts + [Upload(|b.parts| + 1, 0, [])];
    DuoFilled(b, p.regular);
  }

  lemma DuoFilled(b: Builder, regular: seq<FileInfo>)
    requires Light(b.parts) && !LastIsUpload(b.parts)
    ensures var r := WithFiles(b, regular).parts;
      |r| == |b.parts| + 1 && r[..|b.parts|] == b.parts && r[|b.parts|].Upload? && r[|b.parts|].partSize == PartSize(regular)
  {
    EachKeeps(Open(b), regular);
    assert Open(b).parts[..|b.parts|] == b.parts;
  }

  /** Adding files changes only the last part. */
  lemma {:induction false} EachKeeps(b: Builder, files: seq<FileInfo>)
    requires LastIsUpload(b.parts)
    ensures var r := WithEach(b, files).parts;
      && |r| == |b.parts| && r[..|r| - 1] == b.parts[..|b.parts| - 1]
      && LastSize(r) == LastSize(b.parts) + PartSize(files)
  {
    if files != [] {
      EachKeeps(b, files[..|files| - 1]);
    }
  }

  lemma {:induction false} DuosLight(parts: seq<ZipLayoutPart>)
    requires AllDuos(parts) && AllModest(parts) && AllSound(parts) && forall i | 0 <= i < |parts| :: Splittable(parts[i])
    ensures Light(Built(parts).parts) && !LastIsUpload(Built(parts).parts)
  {
    if parts != [] {
      var last := |parts| - 1;
      DuosLight(parts[..last]);
      assert parts[last].Duo? && DuoSound(parts[last]) && Modest(parts[last]);
      DuoLight(Built(parts[..last]), parts[last]);
    }
  }

  /** At most one upload part stands behind `before`. */
  ghost predicate OneBehind(before: seq<PartJob>, after: seq<PartJob>) {
    |after| == |before| + 1 && after[..|before|] == before && LastIsUpload(after)
  }

  lemma SingleAdded(b: Builder, before: seq<PartJob>, files: seq<FileInfo>)
    requires !LastIsUpload(before) && (b.parts == before || OneBehind(before, b.parts))
    ensures OneBehind(before, WithFiles(b, files).parts)
  {
    assert Open(b).parts[..|before|] == before;
    EachKeeps(Open(b), files);
  }

  ghost predicate SinglesBehind(before: seq<PartJob>, after: seq<PartJob>) {
    after == before || OneBehind(before, after)
  }

  lemma SingleStep(b: Builder, p: ZipLayoutPart, before: seq<PartJob>)
    requires p.Single? && !LastIsUpload(before) && SinglesBehind(before, b.parts)
    ensures SinglesBehind(before, WithPart(b, p).parts)
  {
    SingleAdded(b, before, p.files);
  }

  lemma SinglesBehindDuos(parts: seq<ZipLayoutPart>, n: nat)
    requires n <= |parts| && AllSingles(parts[n..])
    ensures forall i | n <= i < |parts| :: parts[i].Single?
  {
    forall i | n <= i < |parts| ensures parts[i].Single? {
      assert parts[i] == parts[n..][i - n];
    }
  }

  /** All singles end up in one upload part behind the duos. */
  lemma {:induction false} SinglesMerge(parts: seq<ZipLayoutPart>, n: nat, before: seq<PartJob>)
    requires n <= |parts| && (forall i | n <= i < |parts| :: parts[i].Single?) && forall i | 0 <= i < |parts| :: Splittable(parts[i])
    requires before == Built(parts[..n]).parts && !LastIsUpload(before)
    ensures SinglesBehind(before, Built(parts).parts)
  {
    if n == |parts| {
      assert parts[..n] == parts;
    } else {
      var front := parts[..|parts| - 1];
      assert front[..n] == parts[..n];
      SinglesMerge(front, n, before);
      SingleStep(Built(front), parts[|parts| - 1], before);
    }
  }

  lemma OnlyLastHeavy(parts: seq<ZipLayoutPart>, n: nat)
    requires Grouped(parts, n) && AllModest(parts) && AllSound(parts) && forall i | 0 <= i < |parts| :: Splittable(parts[i])
    ensures var jobs := IntoPartJobs(parts);
      jobs != [] && Light(jobs[..|jobs| - 1]) && (n == 0 ==> |jobs| == 1)
  {
    forall i | 0 <= i < n ensures parts[..n][i].Duo? && Modest(parts[..n][i]) && DuoSound(parts[..n][i]) && Splittable(parts[..n][i]) {
      assert Modest(parts[i]) && DuoSound(parts[i]);
    }
    DuosLight(parts[..n]);
    SinglesBehindDuos(parts, n);
    SinglesMerge(parts, n, Built(parts[..n]).parts);
    LastAdded(Built(parts), Built(parts[..n]).parts);
  }

  lemma LastAdded(b: Builder, before: seq<PartJob>)
    requires Light(before) && !LastIsUpload(before)
    requires b.parts == before || OneBehind(before, b.parts)
    ensures var jobs := Finished(b); |jobs| == |before| + 1 && jobs[..|before|] == before
  {
    assert Open(b).parts[..|before|] == before;
  }

  lemma FitsIfLastFits(jobs: seq<PartJob>)
    requires jobs != [] && Light(jobs[..|jobs| - 1]) && jobs[|jobs| - 1].Upload?
    ensures AllFit(Budgets(jobs)) <==> jobs[|jobs| - 1].partSize <= MAX_PART_JOB_TASKS_MEMORY
  {
    var last := |jobs| - 1;
    forall k | 0 <= k < last ensures Budgets(jobs)[k] <= MAX_PART_JOB_TASKS_MEMORY {
      assert MemoryBudget(jobs[..last][k]) <= MAX_PART_JOB_TASKS_MEMORY;
    }
    assert Budgets(jobs)[last] == MemoryBudget(jobs[last]);
  }

  function LastPart(files: seq<FileInfo>): PartJob {
    PlannedSound(files);
    PlannedJobs(files)[|PlannedJobs(files)| - 1]
  }

  lemma LastHeavy(files: seq<FileInfo>)
    requires Named(files)
    ensures Light(PlannedJobs(files)[..|PlannedJobs(files)| - 1])
    ensures BelowMinimum(Sort(SmallerFirst, files)) ==> |PlannedJobs(files)| == 1
  {
    var n := PlannedGroups(files);
    PlannedModest(files);
    FloorTheorem(files);
    SoundSplits(PlanLayout(files));
    OnlyLastHeavy(PlanLayout(files), n);
  }

  /**
   * Local execution can finish exactly when the last part, into which every leftover single has been
   * merged, fits the 50 MiB of upload buffers; no other part is ever too large.
   */
  lemma MemoryTheorem(files: seq<FileInfo>)
    requires Named(files)
    ensures (exists turns :: AllDone(Budgets(PlannedJobs(files)), RunGate(Budgets(PlannedJobs(files)), turns)))
       <==> LastPart(files).partSize <= 52_428_800
  {
    PlannedSound(files);
    LastHeavy(files);
    AdmissionTheorem(Budgets(PlannedJobs(files)));
    FitsIfLastFits(PlannedJobs(files));
  }

  lemma {:induction false} PartitionHas(jobs: seq<PartJob>, delegated: bool, job: PartJob)
    ensures job in Partition(jobs, delegated) <==> job in jobs && Delegatable(job) == delegated
  {
    if jobs != [] {
      var last := |jobs| - 1;
      PartitionHas(jobs[..last], delegated, job);
      assert jobs == jobs[..last] + [jobs[last]];
    }
  }

  lemma BudgetsFit(jobs: seq<PartJob>)
    requires forall job | job in jobs :: MemoryBudget(job) <= MAX_PART_JOB_TASKS_MEMORY
    ensures AllFit(Budgets(jobs))
  {
    forall k | 0 <= k < |jobs| ensures Budgets(jobs)[k] <= MAX_PART_JOB_TASKS_MEMORY {
      assert jobs[k] in jobs;
    }
  }

  /** Every job but the last fits; the last does if it is small enough. */
  lemma JobFits(jobs: seq<PartJob>, job: PartJob)
    requires jobs != [] && Light(jobs[..|jobs| - 1]) && job in jobs
    requires job == jobs[|jobs| - 1] ==> MemoryBudget(job) <= MAX_PART_JOB_TASKS_MEMORY
    ensures MemoryBudget(job) <= MAX_PART_JOB_TASKS_MEMORY
  {
    var k :| 0 <= k < |jobs| && jobs[k] == job;
    if k < |jobs| - 1 {
      assert jobs[..|jobs| - 1][k] == job;
    }
  }

  lemma SomeTooLarge(jobs: seq<PartJob>, last: PartJob)
    requires last in jobs && last.Upload? && last.partSize > MAX_PART_JOB_TASKS_MEMORY
    ensures !AllFit(Budgets(jobs))
  {
    var k :| 0 <= k < |jobs| && jobs[k] == last;
    assert Budgets(jobs)[k] == MemoryBudget(last);
  }

  lemma LocalJobsFit(jobs: seq<PartJob>, local: seq<PartJob>)
    requires jobs != [] && Light(jobs[..|jobs| - 1]) && local == Partition(jobs, false)
    requires MemoryBudget(jobs[|jobs| - 1]) <= MAX_PART_JOB_TASKS_MEMORY
    ensures AllFit(Budgets(local))
  {
    forall job | job in local ensures MemoryBudget(job) <= MAX_PART_JOB_TASKS_MEMORY {
      PartitionHas(jobs, false, job);
      JobFits(jobs, job);
    }
    BudgetsFit(local);
  }

  lemma LocalFits(jobs: seq<PartJob>)
    requires jobs != [] && Light(jobs[..|jobs| - 1]) && jobs[|jobs| - 1].Upload? && !Delegatable(jobs[|jobs| - 1])
    ensures AllFit(Budgets(Partition(jobs, false))) <==> jobs[|jobs| - 1].partSize <= MAX_PART_JOB_TASKS_MEMORY
  {
    var last := jobs[|jobs| - 1];
    PartitionHas(jobs, false, last);
    if last.partSize <= MAX_PART_JOB_TASKS_MEMORY {
      LocalJobsFit(jobs, Partition(jobs, false));
    } else {
      SomeTooLarge(Partition(jobs, false), last);
    }
  }

  lemma DelegatedFits(jobs: seq<PartJob>, batch: seq<PartJob>)
    requires jobs != [] && Light(jobs[..|jobs| - 1]) && !Delegatable(jobs[|jobs| - 1])
    requires forall job | job in batch :: job in Partition(jobs, true)
    ensures AllFit(Budgets(batch))
  {
    forall job | job in batch ensures MemoryBudget(job) <= MAX_PART_JOB_TASKS_MEMORY {
      PartitionHas(jobs, true, job);
      JobFits(jobs, job);
    }
    BudgetsFit(batch);
  }

  /**
   * With sub-workers the same condition decides: the local jobs, the last part among them, can finish
   * exactly when that part fits, and whatever batch of delegated jobs a worker is sent can always finish
   * in the worker's own memory.
   */
  lemma FanOutMemoryTheorem(files: seq<FileInfo>, local: seq<PartJob>, batch: seq<PartJob>)
    requires Named(files) && local == Partition(PlannedJobs(files), false)
    requires forall job | job in batch :: job in Partition(PlannedJobs(files), true)
    ensures (exists turns :: AllDone(Budgets(local), RunGate(Budgets(local), turns)))
       <==> LastPart(files).partSize <= 52_428_800
    ensures exists turns :: AllDone(Budgets(batch), RunGate(Budgets(batch), turns))
  {
    PlannedSound(files);
    LastHeavy(files);
    LastStaysLocal(files);
    LocalFits(PlannedJobs(files));
    DelegatedFits(PlannedJobs(files), batch);
    AdmissionTheorem(Budgets(local));
    AdmissionTheorem(Budgets(batch));
  }

  /** Without a big file everything is one part, so that an archive over 50 MiB is never written. */
  lemma SmallFilesBlock(files: seq<FileInfo>, turns: seq<Turn>)
    requires Named(files) && BelowMinimum(files) && |Archive(Planned(files))| > 52_428_800
    ensures !AllDone(Budgets(PlannedJobs(files)), RunGate(Budgets(PlannedJobs(files)), turns))
  {
    SortedSmall(files);
    LastHeavy(files);
    PlannedSound(files);
    SoloPart(PlannedJobs(files), DirectoryFor(Planned(files)));
    MemoryTheorem(files);
  }

  lemma SortedSmall(files: seq<FileInfo>)
    requires BelowMinimum(files)
    ensures BelowMinimum(Sort(SmallerFirst, files))
  {
    var sorted := Sort(SmallerFirst, files);
    forall i | 0 <= i < |sorted| ensures sorted[i].Size() < MIN_PART_SIZE {
      assert sorted[i] in multiset(sorted);
      assert sorted[i] in files;
    }
  }

  lemma SoloPart(jobs: seq<PartJob>, directory: Octets)
    requires |jobs| == 1 && AllSized(directory, jobs)
    ensures jobs[0].partSize == |JobsBytes(directory, jobs)|
  {
    assert SizedAt(directory, jobs[0]);
    assert jobs == [] + [jobs[0]];
    JobsAppend(directory, [], jobs[0]);
  }
}
