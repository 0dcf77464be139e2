/** What jrodon-v3's planner takes from the deque: in which order, and never a file more than a part needs. */
module JrodonSparing {
  import opened Arithmetic
  import opened JrodonArchive
  import opened JrodonFormat
  import opened JrodonLayout
  import opened JrodonLimit
  import opened Sorting

  function Front(files: seq<FileInfo>): seq<FileInfo>
    requires files != []
  {
    files[..|files| - 1]
  }

  function Last(files: seq<FileInfo>): FileInfo
    requires files != []
  {
    files[|files| - 1]
  }

  // ---------- Pass 1: how many fillers a big gets ----------

  /**
   * A single of pass 1 holds a big that could not be paired: all the files it was given fall short of two
   * minimum parts. A duo would fall short of them without its last filler.
   */
  ghost predicate PairedSparingly(p: ZipLayoutPart) {
    match p
    case Single(files) =>
      files != [] && Last(files).Size() >= 5 * 1024 * 1024 && PartSize(files) < 2 * 5 * 1024 * 1024
    case Duo(regular, copy) =>
      && copy.file.Size() >= 5 * 1024 * 1024
      && (regular != [] ==> PartSize(Front(regular)) + HeaderSize(copy.file) + copy.file.Size() < 2 * 5 * 1024 * 1024)
      && PartSize(regular) + HeaderSize(copy.file) + copy.file.Size() >= 2 * 5 * 1024 * 1024
  }

  ghost predicate AllPairedSparingly(parts: seq<ZipLayoutPart>) {
    forall i | 0 <= i < |parts| :: PairedSparingly(parts[i])
  }

  lemma Missing(big: FileInfo, size: nat)
    requires big.Size() >= MIN_PART_SIZE
    ensures size >= MissingRegular(big) <==> size + HeaderSize(big) + big.Size() >= 2 * 5 * 1024 * 1024
  {}

  lemma {:induction false} PairSpares(big: FileInfo, regular: seq<FileInfo>, rest: seq<FileInfo>)
    requires big.Size() >= MIN_PART_SIZE
    requires regular != [] ==> PartSize(Front(regular)) < MissingRegular(big)
    ensures PairedSparingly(Pair(big, regular, rest).0)
    decreases |rest|
  {
    if PartSize(regular) >= MissingRegular(big) {
      Missing(big, PartSize(regular));
      if regular != [] {
        Missing(big, PartSize(Front(regular)));
      }
    } else if rest == [] {
      Missing(big, PartSize(regular));
      PartSizeAppend(regular, big);
    } else {
      assert Front(regular + [rest[0]]) == regular;
      PairSpares(big, regular + [rest[0]], rest[1..]);
    }
  }

  lemma {:induction false} Pass1Spares(l: Layout)
    requires AllPairedSparingly(l.parts)
    ensures AllPairedSparingly(Pass1(l).parts)
    decreases |l.rest|
  {
    if BigLeft(l.rest) {
      var n := |l.rest| - 1;
      PairShrinks(l.rest[n], [], l.rest[..n]);
      PairSpares(l.rest[n], [], l.rest[..n]);
      var (part, rest) := Pair(l.rest[n], [], l.rest[..n]);
      Pass1Spares(Layout(l.parts + [part], rest));
    }
  }

  // ---------- Pass 1: bigs from the back, fillers from the front ----------

  function Reverse(files: seq<FileInfo>): seq<FileInfo> {
    if files == [] then [] else [Last(files)] + Reverse(Front(files))
  }

  function FillersOf(p: ZipLayoutPart): seq<FileInfo> {
    match p
    case Single(files) => if files == [] then [] else Front(files)
    case Duo(regular, _) => regular
  }

  function BigOf(p: ZipLayoutPart): seq<FileInfo> {
    match p
    case Single(files) => if files == [] then [] else [Last(files)]
    case Duo(_, copy) => [copy.file]
  }

  /** All files in front of the bigs, part by part. */
  function Fillers(parts: seq<ZipLayoutPart>): seq<FileInfo> {
    if parts == [] then [] else Fillers(parts[..|parts| - 1]) + FillersOf(parts[|parts| - 1])
  }

  function BigsOf(parts: seq<ZipLayoutPart>): seq<FileInfo> {
    if parts == [] then [] else BigsOf(parts[..|parts| - 1]) + BigOf(parts[|parts| - 1])
  }

  lemma PartAppended(parts: seq<ZipLayoutPart>, p: ZipLayoutPart)
    ensures Fillers(parts + [p]) == Fillers(parts) + FillersOf(p)
    ensures BigsOf(parts + [p]) == BigsOf(parts) + BigOf(p)
  {
    assert (parts + [p])[..|parts|] == parts;
  }

  /** A big takes its fillers one by one from the front. */
  lemma {:induction false} PairTakes(big: FileInfo, regular: seq<FileInfo>, rest: seq<FileInfo>) returns (k: nat)
    requires big.Size() >= MIN_PART_SIZE
    ensures k <= |rest|
    ensures var (part, left) := Pair(big, regular, rest);
      left == rest[k..] && FillersOf(part) == regular + rest[..k] && BigOf(part) == [big]
    decreases |rest|
  {
    if PartSize(regular) >= MissingRegular(big) {
      k := 0;
      assert regular + rest[..0] == regular;
    } else if rest == [] {
      k := 0;
      assert Front(regular + [big]) == regular && regular + rest[..0] == regular;
    } else {
      var j := PairTakes(big, regular + [rest[0]], rest[1..]);
      k := j + 1;
      TakenNext(regular, rest, j);
    }
  }

  lemma TakenNext(regular: seq<FileInfo>, rest: seq<FileInfo>, j: nat)
    requires rest != [] && j < |rest|
    ensures (regular + [rest[0]]) + rest[1..][..j] == regular + rest[..j + 1] && rest[1..][j..] == rest[j + 1..]
  {}

  /** What a stretch of pass 1 has done: the deque, and the fillers and bigs placed. */
  datatype Placing = Placing(rest: seq<FileInfo>, fillers: seq<FileInfo>, bigs: seq<FileInfo>)

  function PlacingOf(l: Layout): Placing { Placing(l.rest, Fillers(l.parts), BigsOf(l.parts)) }

  /** From `p` to `q`, `front` has been taken as fillers and `back`, last first, as bigs. */
  ghost predicate Taken(p: Placing, q: Placing, front: seq<FileInfo>, back: seq<FileInfo>) {
    p.rest == front + q.rest + back && q.fillers == p.fillers + front && q.bigs == p.bigs + Reverse(back)
  }

  lemma NothingTaken(p: Placing)
    ensures Taken(p, p, [], [])
  {
    assert p.rest == [] + p.rest + [] && p.fillers == p.fillers + [] && p.bigs == p.bigs + Reverse([]);
  }

  /** What one big takes, and what is taken from the rest, is taken from the whole. */
  lemma TakenTogether(p: Placing, first: seq<FileInfo>, big: FileInfo, r: Placing, front: seq<FileInfo>, back: seq<FileInfo>, q: Placing)
    requires Taken(p, r, first, [big]) && Taken(r, q, front, back)
    ensures Taken(p, q, first + front, back + [big])
  {
    assert first + (front + q.rest + back) + [big] == (first + front) + q.rest + (back + [big]);
    assert (p.fillers + first) + front == p.fillers + (first + front);
    assert Front(back + [big]) == back && Front([big]) == [];
    assert (p.bigs + [big]) + Reverse(back) == p.bigs + ([big] + Reverse(back));
    assert Reverse([big]) == [big] + Reverse([]) == [big];
  }

  /** One turn of pass 1. */
  lemma Pass1Turn(l: Layout, p: Placing, n: nat) returns (first: seq<FileInfo>, next: Layout, r: Placing)
    requires n + 1 == |l.rest| && l.rest[n].Size() >= MIN_PART_SIZE && p == PlacingOf(l)
    ensures Pass1(l) == Pass1(next) && |next.rest| < |l.rest| && r == PlacingOf(next)
    ensures Taken(p, r, first, [l.rest[n]])
  {
    var k := PairTakes(l.rest[n], [], l.rest[..n]);
    PairShrinks(l.rest[n], [], l.rest[..n]);
    var (part, rest) := Pair(l.rest[n], [], l.rest[..n]);
    first, next := l.rest[..n][..k], Layout(l.parts + [part], rest);
    r := PlacingOf(next);
    PartAppended(l.parts, part);
    SplitAtBig(l.rest, n, k, first, rest);
    NothingBefore(first);
    assert Reverse([l.rest[n]]) == [l.rest[n]] + Reverse([]) == [l.rest[n]];
  }

  lemma SplitAtBig(files: seq<FileInfo>, n: nat, k: nat, first: seq<FileInfo>, rest: seq<FileInfo>)
    requires n + 1 == |files| && k <= n && first == files[..n][..k] && rest == files[..n][k..]
    ensures files == first + rest + [files[n]]
  {
    assert files == files[..n] + [files[n]];
  }

  /** Pass 1 takes bigs from the back of the deque and fillers from the front, and leaves what is in between. */
  lemma {:induction false} Pass1Takes(l: Layout, p: Placing) returns (q: Placing, front: seq<FileInfo>, back: seq<FileInfo>)
    requires p == PlacingOf(l)
    ensures q == PlacingOf(Pass1(l)) && Taken(p, q, front, back)
    decreases |l.rest|
  {
    if BigLeft(l.rest) {
      var n := |l.rest| - 1;
      var first, next, r := Pass1Turn(l, p, n);
      var more, behind;
      q, more, behind := Pass1Takes(next, r);
      TakenTogether(p, first, l.rest[n], r, more, behind, q);
      front, back := first + more, behind + [l.rest[n]];
    } else {
      q, front, back := p, [], [];
      NothingTaken(p);
    }
  }

  /**
   * Pass 1 on a listing: bigs are served largest first, each with the smallest files left, as many as it
   * needs and no more, and a big becomes a single only when all that were left did not suffice.
   */
  lemma Pass1Theorem(files: seq<FileInfo>) returns (front: seq<FileInfo>, back: seq<FileInfo>)
    ensures var sorted := Sort(SmallerFirst, files);
            var paired := Pass1(Layout([], sorted));
      && SortedBy(SmallerFirst, sorted) && multiset(sorted) == multiset(files)
      && sorted == front + paired.rest + back && BelowMinimum(paired.rest)
      && Fillers(paired.parts) == front && BigsOf(paired.parts) == Reverse(back)
      && AllPairedSparingly(paired.parts)
  {
    var start := Layout([], Sort(SmallerFirst, files));
    var q;
    ListingSorted(files);
    q, front, back := Pass1Takes(start, PlacingOf(start));
    Pass1Spares(start);
    PairingTheorem(files);
    NothingBefore(front);
    NothingBefore(Reverse(back));
  }

  lemma ListingSorted(files: seq<FileInfo>)
    ensures SortedBy(SmallerFirst, Sort(SmallerFirst, files))
  {
    assert TotalPreorder(SmallerFirst);
    SortSorts(SmallerFirst, files);
  }

  lemma NothingBefore(files: seq<FileInfo>)
    ensures [] + files == files
  {}

  // ---------- Passes 2 and 3: what a duo takes more ----------

  /** The same part, or the same duo with more fillers, none of which came after `enough` was reached. */
  ghost predicate Grown(before: ZipLayoutPart, after: ZipLayoutPart, short: (ZipLayoutPart, nat) -> bool) {
    || after == before
    || (before.Duo? && after.Duo? && after.copy.file == before.copy.file
        && before.regular < after.regular && short(before, PartSize(Front(after.regular))))
  }

  /** The header and so many bytes leave the upload half below the minimum. */
  function PrefixNeeded(): (ZipLayoutPart, nat) -> bool {
    (p: ZipLayoutPart, size: nat) => p.Duo? && size + HeaderSize(p.copy.file) < 5 * 1024 * 1024
  }

  function BelowTarget(): (ZipLayoutPart, nat) -> bool {
    (p: ZipLayoutPart, size: nat) => size < 10 * 1024 * 1024
  }

  lemma OneTaken(files: seq<FileInfo>, rest: seq<FileInfo>)
    requires rest != []
    ensures (files + [rest[0]]) + rest[1..] == files + rest && files <= files + [rest[0]]
  {}

  lemma {:induction false} AbsorbSpares(regular: seq<FileInfo>, startByte: nat, rest: seq<FileInfo>, size: nat)
    requires PartSize(regular) + startByte == size || startByte == 0
    ensures var (r, s, left) := Absorb(regular, startByte, rest);
      && regular <= r && r + left == regular + rest && (r == regular ==> s == startByte)
      && (regular < r ==> PartSize(Front(r)) < size)
    decreases |rest|
  {
    if startByte > 0 && rest != [] {
      PartSizeAppend(regular, rest[0]);
      assert Front(regular + [rest[0]]) == regular;
      AbsorbSpares(regular + [rest[0]], Minus(startByte, EntrySize(rest[0])), rest[1..], size);
      OneTaken(regular, rest);
      assert Absorb(regular, startByte, rest).0 == regular + [rest[0]] || regular + [rest[0]] < Absorb(regular, startByte, rest).0;
    }
  }

  lemma PromoteGrows(p: ZipLayoutPart, rest: seq<FileInfo>)
    requires DuoSound(p)
    ensures Grown(p, Promote(p, rest).0, PrefixNeeded())
    ensures FillersOf(p) <= FillersOf(Promote(p, rest).0)
    ensures FillersOf(Promote(p, rest).0) + Promote(p, rest).1 == FillersOf(p) + rest
  {
    if IsPartial(p) {
      AbsorbSpares(p.regular, p.copy.startByte, rest, PartSize(p.regular) + p.copy.startByte);
    }
  }

  lemma {:induction false} FillSpares(files: seq<FileInfo>, missing: nat, rest: seq<FileInfo>, size: nat)
    requires PartSize(files) + missing == size || missing == 0
    ensures var (r, _, left) := Fill(files, missing, rest);
      && files <= r && r + left == files + rest
      && (files < r ==> PartSize(Front(r)) < size)
    decreases |rest|
  {
    if missing > 0 && rest != [] {
      PartSizeAppend(files, rest[0]);
      assert Front(files + [rest[0]]) == files;
      FillSpares(files + [rest[0]], Minus(missing, EntrySize(rest[0])), rest[1..], size);
      OneTaken(files, rest);
      assert Fill(files, missing, rest).0 == files + [rest[0]] || files + [rest[0]] < Fill(files, missing, rest).0;
    }
  }

  lemma PadGrows(p: ZipLayoutPart, rest: seq<FileInfo>)
    ensures Grown(p, Pad(p, rest).0, BelowTarget())
    ensures FillersOf(p) <= FillersOf(Pad(p, rest).0)
    ensures FillersOf(Pad(p, rest).0) + Pad(p, rest).1 == FillersOf(p) + rest
  {
    if p.Duo? {
      FillSpares(p.regular, Minus(TARGET_PART_SIZE, PartSize(p.regular)), rest, TARGET_PART_SIZE);
    }
  }

  // ---------- Whole passes ----------

  type Shortfall = (ZipLayoutPart, nat) -> bool

  /** On this part the step only adds fillers from the front of the deque, none after there was enough. */
  ghost predicate StepSpares(step: PartStep, p: ZipLayoutPart, short: Shortfall) {
    forall rest: seq<FileInfo> ::
      && Grown(p, step(p, rest).0, short) && FillersOf(p) <= FillersOf(step(p, rest).0)
      && FillersOf(step(p, rest).0) + step(p, rest).1 == FillersOf(p) + rest
  }

  function Added(before: ZipLayoutPart, after: ZipLayoutPart): seq<FileInfo> {
    if FillersOf(before) <= FillersOf(after) then FillersOf(after)[|FillersOf(before)|..] else []
  }

  /** What the parts in `after` have got more, part by part. */
  function AllAdded(before: seq<ZipLayoutPart>, after: seq<ZipLayoutPart>): seq<FileInfo>
    requires |after| <= |before|
  {
    if after == [] then []
    else AllAdded(before, after[..|after| - 1]) + Added(before[|after| - 1], after[|after| - 1])
  }

  lemma AddedNext(before: seq<ZipLayoutPart>, after: seq<ZipLayoutPart>, p: ZipLayoutPart)
    requires |after| < |before|
    ensures AllAdded(before, after + [p]) == AllAdded(before, after) + Added(before[|after|], p)
  {
    assert (after + [p])[..|after|] == after;
  }

  lemma AddedFront(before: ZipLayoutPart, after: ZipLayoutPart, rest: seq<FileInfo>, left: seq<FileInfo>)
    requires FillersOf(before) <= FillersOf(after) && FillersOf(after) + left == FillersOf(before) + rest
    ensures rest == Added(before, after) + left
  {
    var a, b := FillersOf(before), FillersOf(after);
    assert (b + left)[|a|..] == b[|a|..] + left && (a + rest)[|a|..] == rest;
  }

  ghost predicate AllGrown(before: seq<ZipLayoutPart>, after: seq<ZipLayoutPart>, short: Shortfall) {
    |after| <= |before| && forall i | 0 <= i < |after| :: Grown(before[i], after[i], short)
  }

  lemma OneStepSpares(step: PartStep, p: ZipLayoutPart, rest: seq<FileInfo>, short: Shortfall) returns (part: ZipLayoutPart, left: seq<FileInfo>)
    requires StepSpares(step, p, short)
    ensures (part, left) == step(p, rest) && Grown(p, part, short) && rest == Added(p, part) + left
  {
    part, left := step(p, rest).0, step(p, rest).1;
    AddedFront(p, part, rest, left);
  }

  ghost predicate SweptSparingly(l: Layout, r: Layout, short: Shortfall) {
    AllGrown(l.parts, r.parts, short) && l.rest == AllAdded(l.parts, r.parts) + r.rest
  }

  lemma OneMoreSwept(l: Layout, before: Layout, part: ZipLayoutPart, left: seq<FileInfo>, short: Shortfall)
    requires SweptSparingly(l, before, short) && |before.parts| < |l.parts|
    requires Grown(l.parts[|before.parts|], part, short) && before.rest == Added(l.parts[|before.parts|], part) + left
    ensures SweptSparingly(l, Layout(before.parts + [part], left), short)
  {
    AddedNext(l.parts, before.parts, part);
    Associates(AllAdded(l.parts, before.parts), Added(l.parts[|before.parts|], part), left);
  }

  lemma SweepTurn(step: PartStep, l: Layout, n: nat, before: Layout, short: Shortfall) returns (after: Layout)
    requires 0 < n <= |l.parts| && before == SweepTo(step, l, n - 1) && StepSpares(step, l.parts[n - 1], short)
    requires SweptSparingly(l, before, short)
    ensures after == SweepTo(step, l, n) && SweptSparingly(l, after, short)
  {
    var part, left := OneStepSpares(step, l.parts[n - 1], before.rest, short);
    after := Layout(before.parts + [part], left);
    OneMoreSwept(l, before, part, left, short);
  }

  /** A sweep serves the parts in order, each from the front of what is left. */
  lemma {:induction false} SweepSpares(step: PartStep, l: Layout, n: nat, short: Shortfall) returns (r: Layout)
    requires n <= |l.parts| && forall i | 0 <= i < |l.parts| :: StepSpares(step, l.parts[i], short)
    ensures r == SweepTo(step, l, n) && SweptSparingly(l, r, short)
    decreases n
  {
    if n > 0 {
      var before := SweepSpares(step, l, n - 1, short);
      r := SweepTurn(step, l, n, before, short);
    } else {
      r := Layout([], l.rest);
      NothingBefore(l.rest);
    }
  }

  lemma Associates(x: seq<FileInfo>, y: seq<FileInfo>, z: seq<FileInfo>)
    ensures x + (y + z) == (x + y) + z
  {}

  /** Promotion adds files to a duo only while it would otherwise have to download a prefix. */
  lemma PromotionTheorem(files: seq<FileInfo>)
    ensures var paired, promoted := Pass1(Layout([], Sort(SmallerFirst, files))), AfterPromotion(files);
      && |promoted.parts| == |paired.parts| && AllGrown(paired.parts, promoted.parts, PrefixNeeded())
      && paired.rest == AllAdded(paired.parts, promoted.parts) + promoted.rest
  {
    var paired := Pass1(Layout([], Sort(SmallerFirst, files)));
    Pass1Sound(Layout([], Sort(SmallerFirst, files)));
    forall i | 0 <= i < |paired.parts| ensures StepSpares(Promote, paired.parts[i], PrefixNeeded()) {
      assert DuoSound(paired.parts[i]);
      PromoteSpares(paired.parts[i]);
    }
    var promoted := SweepSpares(Promote, paired, |paired.parts|, PrefixNeeded());
  }

  lemma PromoteSpares(p: ZipLayoutPart)
    requires DuoSound(p)
    ensures StepSpares(Promote, p, PrefixNeeded())
  {
    forall rest: seq<FileInfo>
      ensures Grown(p, Promote(p, rest).0, PrefixNeeded()) && FillersOf(p) <= FillersOf(Promote(p, rest).0)
      ensures FillersOf(Promote(p, rest).0) + Promote(p, rest).1 == FillersOf(p) + rest
    {
      PromoteGrows(p, rest);
    }
  }

  /** Padding adds files to a duo only while its upload half is below 10 MiB. */
  lemma PadsSparingly(files: seq<FileInfo>)
    ensures var promoted, padded := AfterPromotion(files), AfterPadding(files);
      && |padded.parts| == |promoted.parts| && AllGrown(promoted.parts, padded.parts, BelowTarget())
      && promoted.rest == AllAdded(promoted.parts, padded.parts) + padded.rest
  {
    var promoted := AfterPromotion(files);
    forall i | 0 <= i < |promoted.parts| ensures StepSpares(Pad, promoted.parts[i], BelowTarget()) {
      PadSpares(promoted.parts[i]);
    }
    var padded := SweepSpares(Pad, promoted, |promoted.parts|, BelowTarget());
  }

  lemma PadSpares(p: ZipLayoutPart)
    ensures StepSpares(Pad, p, BelowTarget())
  {
    forall rest: seq<FileInfo>
      ensures Grown(p, Pad(p, rest).0, BelowTarget()) && FillersOf(p) <= FillersOf(Pad(p, rest).0)
      ensures FillersOf(Pad(p, rest).0) + Pad(p, rest).1 == FillersOf(p) + rest
    {
      PadGrows(p, rest);
    }
  }

  // ---------- The whole layout ----------

  /**
   * Without its last filler an upload part is below 10 MiB; with a big that is not copied it is below
   * that as a whole.
   */
  ghost predicate Lean(p: ZipLayoutPart) {
    match p
    case Single(files) =>
      && files != [] && PartSize(Front(files)) < 10 * 1024 * 1024
      && ((exists f :: f in files && f.Size() >= 5 * 1024 * 1024) ==> PartSize(files) < 10 * 1024 * 1024)
    case Duo(regular, _) => regular != [] ==> PartSize(Front(regular)) < 10 * 1024 * 1024
  }

  ghost predicate AllLean(parts: seq<ZipLayoutPart>) {
    forall i | 0 <= i < |parts| :: Lean(parts[i])
  }

  lemma PairedIsLean(p: ZipLayoutPart)
    requires PairedSparingly(p)
    ensures Lean(p)
  {
    if p.Single? {
      assert p.files == Front(p.files) + [Last(p.files)];
      PartSizeAppend(Front(p.files), Last(p.files));
    }
  }

  lemma GrownIsLean(before: ZipLayoutPart, after: ZipLayoutPart, short: Shortfall)
    requires Lean(before) && Grown(before, after, short)
    requires forall size: nat :: short(before, size) ==> size < 10 * 1024 * 1024
    ensures Lean(after)
  {}

  lemma {:induction false} Pass4Lean(l: Layout)
    requires AllLean(l.parts) && BelowMinimum(l.rest)
    ensures AllLean(Pass4(l).parts)
    decreases |l.rest|
  {
    if l.rest != [] {
      FillShrinks([], TARGET_PART_SIZE, l.rest);
      FillSpares([], TARGET_PART_SIZE, l.rest, TARGET_PART_SIZE);
      var (files, _, rest) := Fill([], TARGET_PART_SIZE, l.rest);
      SmallSingleIsLean(files, rest, l.rest);
      Pass4Lean(Layout(l.parts + [Single(files)], rest));
    }
  }

  lemma SmallSingleIsLean(files: seq<FileInfo>, rest: seq<FileInfo>, all: seq<FileInfo>)
    requires files + rest == [] + all && BelowMinimum(all) && |rest| < |all|
    requires [] < files ==> PartSize(Front(files)) < TARGET_PART_SIZE
    ensures Lean(Single(files)) && BelowMinimum(rest)
  {
    forall i | 0 <= i < |files| ensures files[i].Size() < MIN_PART_SIZE {
      assert files[i] == (files + rest)[i] == all[i];
    }
    forall i | 0 <= i < |rest| ensures rest[i].Size() < MIN_PART_SIZE {
      assert rest[i] == (files + rest)[|files| + i] == all[|files| + i];
    }
  }

  lemma SuffixBelow(taken: seq<FileInfo>, rest: seq<FileInfo>)
    requires BelowMinimum(taken + rest)
    ensures BelowMinimum(rest)
  {
    forall i | 0 <= i < |rest| ensures rest[i].Size() < MIN_PART_SIZE {
      assert rest[i] == (taken + rest)[|taken| + i];
    }
  }

  lemma AllGrownLean(before: seq<ZipLayoutPart>, after: seq<ZipLayoutPart>, short: Shortfall)
    requires |after| == |before| && AllLean(before) && AllGrown(before, after, short)
    requires forall p: ZipLayoutPart, size: nat :: short(p, size) ==> size < 10 * 1024 * 1024
    ensures AllLean(after)
  {
    forall i | 0 <= i < |after| ensures Lean(after[i]) {
      GrownIsLean(before[i], after[i], short);
    }
  }

  /** No upload part of the layout holds a file more than it needs. */
  lemma LeanTheorem(files: seq<FileInfo>)
    ensures AllLean(PlanLayout(files))
  {
    var paired, promoted, padded := Pass1(Layout([], Sort(SmallerFirst, files))), AfterPromotion(files), AfterPadding(files);
    Pass1Spares(Layout([], Sort(SmallerFirst, files)));
    forall i | 0 <= i < |paired.parts| ensures Lean(paired.parts[i]) {
      PairedIsLean(paired.parts[i]);
    }
    PairingTheorem(files);
    PromotionTheorem(files);
    PadsSparingly(files);
    AllGrownLean(paired.parts, promoted.parts, PrefixNeeded());
    AllGrownLean(promoted.parts, padded.parts, BelowTarget());
    SuffixBelow(AllAdded(paired.parts, promoted.parts), promoted.rest);
    SuffixBelow(AllAdded(promoted.parts, padded.parts), padded.rest);
    Pass4Lean(padded);
  }

  /** What no duo needed follows in the order of the deque. */
  lemma RemainderTheorem(files: seq<FileInfo>)
    ensures LayoutFiles(PlanLayout(files)) == LayoutFiles(AfterPadding(files).parts) + AfterPadding(files).rest
  {
    Pass4KeepsOrder(AfterPadding(files));
  }
}
