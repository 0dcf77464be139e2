/** jrodon-v3's layout planner: four passes over a deque of files, smallest in front. */
module JrodonLayout {
  import opened Arithmetic
  import opened JrodonArchive
  import opened JrodonFormat
  import opened Sorting

  const MIN_PART_SIZE: nat := 5 * 1024 * 1024
  const TARGET_PART_SIZE: nat := 10 * 1024 * 1024

  datatype CopyZipPart = FullCopy(file: FileInfo) | PartialCopy(file: FileInfo, startByte: nat)

  datatype ZipLayoutPart = Single(files: seq<FileInfo>) | Duo(regular: seq<FileInfo>, copy: CopyZipPart)

  /** The parts so far and the files still in the deque. */
  datatype Layout = Layout(parts: seq<ZipLayoutPart>, rest: seq<FileInfo>)

  function HeaderSize(f: FileInfo): nat { PredictLocSize(f.Size(), |f.name|) }

  function EntrySize(f: FileInfo): nat { HeaderSize(f) + f.Size() }

  function PartSize(files: seq<FileInfo>): nat {
    if files == [] then 0 else PartSize(files[..|files| - 1]) + EntrySize(files[|files| - 1])
  }

  predicate SmallerFirst(a: FileInfo, b: FileInfo) { a.Size() <= b.Size() }

  function PartFiles(p: ZipLayoutPart): seq<FileInfo> {
    match p
    case Single(files) => files
    case Duo(regular, copy) => regular + [copy.file]
  }

  /** The files in archive order. */
  function LayoutFiles(parts: seq<ZipLayoutPart>): seq<FileInfo> {
    if parts == [] then [] else LayoutFiles(parts[..|parts| - 1]) + PartFiles(parts[|parts| - 1])
  }

  // ---------- The passes as functions ----------

  /** What the regular half must hold so that both halves can reach the minimum. */
  function MissingRegular(big: FileInfo): nat
    requires big.Size() >= MIN_PART_SIZE
  {
    Minus(Minus(MIN_PART_SIZE, HeaderSize(big)), big.Size() - MIN_PART_SIZE)
  }

  /** The copy half: partial when the regular half is still short of the minimum. */
  function CopyOf(big: FileInfo, regularSize: nat): CopyZipPart {
    var start := Minus(Minus(MIN_PART_SIZE, regularSize), HeaderSize(big));
    if start > 0 then PartialCopy(big, start) else FullCopy(big)
  }

  /** The inner loop of pass 1: takes smalls from the front until the big's regular half is large enough. */
  function Pair(big: FileInfo, regular: seq<FileInfo>, rest: seq<FileInfo>): (ZipLayoutPart, seq<FileInfo>)
    requires big.Size() >= MIN_PART_SIZE
    decreases |rest|
  {
    if PartSize(regular) >= MissingRegular(big) then (Duo(regular, CopyOf(big, PartSize(regular))), rest)
    else if rest == [] then (Single(regular + [big]), [])
    else Pair(big, regular + [rest[0]], rest[1..])
  }

  predicate BigLeft(rest: seq<FileInfo>) {
    rest != [] && rest[|rest| - 1].Size() >= MIN_PART_SIZE
  }

  lemma {:induction false} PairShrinks(big: FileInfo, regular: seq<FileInfo>, rest: seq<FileInfo>)
    requires big.Size() >= MIN_PART_SIZE
    ensures |Pair(big, regular, rest).1| <= |rest|
    decreases |rest|
  {
    if PartSize(regular) < MissingRegular(big) && rest != [] {
      PairShrinks(big, regular + [rest[0]], rest[1..]);
    }
  }

  function Pass1(l: Layout): Layout
    decreases |l.rest|
  {
    if !BigLeft(l.rest) then l
    else
      var n := |l.rest| - 1;
      var big := l.rest[n];
      PairShrinks(big, [], l.rest[..n]);
      var (part, rest) := Pair(big, [], l.rest[..n]);
      Pass1(Layout(l.parts + [part], rest))
  }

  /** The regular half and the start byte while pass 2 absorbs smalls. */
  function Absorb(regular: seq<FileInfo>, startByte: nat, rest: seq<FileInfo>): (seq<FileInfo>, nat, seq<FileInfo>)
    decreases |rest|
  {
    if startByte == 0 || rest == [] then (regular, startByte, rest)
    else Absorb(regular + [rest[0]], Minus(startByte, EntrySize(rest[0])), rest[1..])
  }

  function Promote(p: ZipLayoutPart, rest: seq<FileInfo>): (ZipLayoutPart, seq<FileInfo>) {
    if p.Single? || p.copy.FullCopy? then (p, rest)
    else
      var (regular, startByte, left) := Absorb(p.regular, p.copy.startByte, rest);
      (Duo(regular, if startByte == 0 then FullCopy(p.copy.file) else PartialCopy(p.copy.file, startByte)), left)
  }

  function Fill(files: seq<FileInfo>, missing: nat, rest: seq<FileInfo>): (seq<FileInfo>, nat, seq<FileInfo>)
    decreases |rest|
  {
    if missing == 0 || rest == [] then (files, missing, rest)
    else Fill(files + [rest[0]], Minus(missing, EntrySize(rest[0])), rest[1..])
  }

  function Pad(p: ZipLayoutPart, rest: seq<FileInfo>): (ZipLayoutPart, seq<FileInfo>) {
    if p.Single? then (p, rest)
    else
      var (regular, _, left) := Fill(p.regular, Minus(TARGET_PART_SIZE, PartSize(p.regular)), rest);
      (Duo(regular, p.copy), left)
  }

  type PartStep = (ZipLayoutPart, seq<FileInfo>) -> (ZipLayoutPart, seq<FileInfo>)

  /** The first `n` parts, each having taken what it needs from the front of the deque. */
  function SweepTo(step: PartStep, l: Layout, n: nat): (r: Layout)
    requires n <= |l.parts|
    ensures |r.parts| == n
  {
    if n == 0 then Layout([], l.rest)
    else
      var before := SweepTo(step, l, n - 1);
      var (part, rest) := step(l.parts[n - 1], before.rest);
      Layout(before.parts + [part], rest)
  }

  /** One sweep over all parts. */
  function Sweep(step: PartStep, l: Layout): Layout { SweepTo(step, l, |l.parts|) }

  lemma {:induction false} FillShrinks(files: seq<FileInfo>, missing: nat, rest: seq<FileInfo>)
    ensures |Fill(files, missing, rest).2| <= |rest|
    ensures missing > 0 && rest != [] ==> |Fill(files, missing, rest).2| < |rest|
    decreases |rest|
  {
    if missing > 0 && rest != [] {
      FillShrinks(files + [rest[0]], Minus(missing, EntrySize(rest[0])), rest[1..]);
    }
  }

  function Pass4(l: Layout): Layout
    decreases |l.rest|
  {
    if l.rest == [] then l
    else
      FillShrinks([], TARGET_PART_SIZE, l.rest);
      var (files, _, rest) := Fill([], TARGET_PART_SIZE, l.rest);
      Pass4(Layout(l.parts + [Single(files)], rest))
  }

  function PlanLayout(files: seq<FileInfo>): seq<ZipLayoutPart> {
    var paired := Pass1(Layout([], Sort(SmallerFirst, files)));
    Pass4(Sweep(Pad, Sweep(Promote, paired))).parts
  }

  // ---------- No file is lost or duplicated ----------

  type Bag = multiset<FileInfo>

  ghost function PartBag(p: ZipLayoutPart): Bag {
    match p
    case Single(files) => multiset(files)
    case Duo(regular, copy) => multiset(regular) + multiset{copy.file}
  }

  ghost function LayoutBag(parts: seq<ZipLayoutPart>): Bag {
    if parts == [] then multiset{} else LayoutBag(parts[..|parts| - 1]) + PartBag(parts[|parts| - 1])
  }

  ghost function Held(l: Layout): Bag {
    LayoutBag(l.parts) + multiset(l.rest)
  }

  lemma BagAppend(parts: seq<ZipLayoutPart>, p: ZipLayoutPart)
    ensures LayoutBag(parts + [p]) == LayoutBag(parts) + PartBag(p)
  {
    assert (parts + [p])[..|parts|] == parts;
  }

  lemma TakeFront(files: seq<FileInfo>, rest: seq<FileInfo>)
    requires rest != []
    ensures multiset(files + [rest[0]]) + multiset(rest[1..]) == multiset(files) + multiset(rest)
  {
    assert rest == [rest[0]] + rest[1..];
  }

  lemma TakeBack(rest: seq<FileInfo>)
    requires rest != []
    ensures multiset(rest) == multiset(rest[..|rest| - 1]) + multiset{rest[|rest| - 1]}
  {
    assert rest == rest[..|rest| - 1] + [rest[|rest| - 1]];
  }

  lemma {:induction false} PairHolds(big: FileInfo, regular: seq<FileInfo>, rest: seq<FileInfo>)
    requires big.Size() >= MIN_PART_SIZE
    ensures PartBag(Pair(big, regular, rest).0) + multiset(Pair(big, regular, rest).1)
         == multiset(regular) + multiset(rest) + multiset{big}
    decreases |rest|
  {
    if PartSize(regular) < MissingRegular(big) {
      if rest != [] {
        TakeFront(regular, rest);
        PairHolds(big, regular + [rest[0]], rest[1..]);
      }
    } else {
      Swap(multiset(regular), multiset{big}, multiset(rest));
    }
  }

  lemma Swap(a: Bag, b: Bag, c: Bag)
    ensures a + b + c == a + c + b
  {}

  lemma Gather(done: Bag, part: Bag, left: Bag, front: Bag, big: Bag, rest: Bag)
    requires part + left == multiset{} + front + big && rest == front + big
    ensures done + part + left == done + rest
  {
    assert done + part + left == done + (part + left);
    assert multiset{} + front + big == front + big;
  }

  lemma {:induction false} Pass1Holds(l: Layout)
    ensures Held(Pass1(l)) == Held(l)
    decreases |l.rest|
  {
    if BigLeft(l.rest) {
      var n := |l.rest| - 1;
      var big := l.rest[n];
      PairShrinks(big, [], l.rest[..n]);
      PairHolds(big, [], l.rest[..n]);
      var (part, rest) := Pair(big, [], l.rest[..n]);
      Pass1Holds(Layout(l.parts + [part], rest));
      BagAppend(l.parts, part);
      TakeBack(l.rest);
      Gather(LayoutBag(l.parts), PartBag(part), multiset(rest), multiset(l.rest[..n]), multiset{big}, multiset(l.rest));
    }
  }

  lemma {:induction false} FillHolds(files: seq<FileInfo>, missing: nat, rest: seq<FileInfo>)
    ensures multiset(Fill(files, missing, rest).0) + multiset(Fill(files, missing, rest).2) == multiset(files) + multiset(rest)
    decreases |rest|
  {
    if missing > 0 && rest != [] {
      TakeFront(files, rest);
      FillHolds(files + [rest[0]], Minus(missing, EntrySize(rest[0])), rest[1..]);
    }
  }

  lemma {:induction false} AbsorbHolds(files: seq<FileInfo>, startByte: nat, rest: seq<FileInfo>)
    ensures multiset(Absorb(files, startByte, rest).0) + multiset(Absorb(files, startByte, rest).2) == multiset(files) + multiset(rest)
    decreases |rest|
  {
    if startByte > 0 && rest != [] {
      TakeFront(files, rest);
      AbsorbHolds(files + [rest[0]], Minus(startByte, EntrySize(rest[0])), rest[1..]);
    }
  }

  ghost predicate KeepsAt(step: PartStep, p: ZipLayoutPart, rest: seq<FileInfo>) {
    PartBag(step(p, rest).0) + multiset(step(p, rest).1) == PartBag(p) + multiset(rest)
  }

  lemma MoveAcross(a: Bag, b: Bag, file: Bag, c: Bag, d: Bag)
    requires a + b == c + d
    ensures a + file + b == c + file + d
  {
    assert a + file + b == (a + b) + file;
    assert c + file + d == (c + d) + file;
  }

  lemma PromoteHolds(p: ZipLayoutPart, rest: seq<FileInfo>)
    ensures KeepsAt(Promote, p, rest)
  {
    if p.Duo? && p.copy.PartialCopy? {
      AbsorbHolds(p.regular, p.copy.startByte, rest);
      var absorbed := Absorb(p.regular, p.copy.startByte, rest);
      MoveAcross(multiset(absorbed.0), multiset(absorbed.2), multiset{p.copy.file}, multiset(p.regular), multiset(rest));
    }
  }

  lemma PadHolds(p: ZipLayoutPart, rest: seq<FileInfo>)
    ensures KeepsAt(Pad, p, rest)
  {
    if p.Duo? {
      var missing := Minus(TARGET_PART_SIZE, PartSize(p.regular));
      FillHolds(p.regular, missing, rest);
      var filled := Fill(p.regular, missing, rest);
      MoveAcross(multiset(filled.0), multiset(filled.2), multiset{p.copy.file}, multiset(p.regular), multiset(rest));
    }
  }

  lemma SweepOne(before: Bag, part: Bag, taken: Bag, was: Bag, rest: Bag)
    requires part + taken == was + rest
    ensures before + part + taken == before + was + rest
  {
    assert before + part + taken == before + (part + taken);
    assert before + was + rest == before + (was + rest);
  }

  lemma SweepNext(step: PartStep, before: Layout, parts: seq<ZipLayoutPart>, n: nat, deque: Bag)
    requires n < |parts| && forall p, rest :: KeepsAt(step, p, rest)
    requires LayoutBag(before.parts) + multiset(before.rest) == LayoutBag(parts[..n]) + deque
    ensures var r := step(parts[n], before.rest);
      LayoutBag(before.parts + [r.0]) + multiset(r.1) == LayoutBag(parts[..n + 1]) + deque
  {
    var r := step(parts[n], before.rest);
    assert KeepsAt(step, parts[n], before.rest);
    assert parts[..n + 1] == parts[..n] + [parts[n]];
    BagAppend(parts[..n], parts[n]);
    BagAppend(before.parts, r.0);
    SweepStep(LayoutBag(before.parts), PartBag(r.0), multiset(r.1), PartBag(parts[n]), multiset(before.rest),
              LayoutBag(parts[..n]), deque);
  }

  lemma {:induction false} SweepHolds(step: PartStep, l: Layout, n: nat)
    requires n <= |l.parts| && forall p, rest :: KeepsAt(step, p, rest)
    ensures LayoutBag(SweepTo(step, l, n).parts) + multiset(SweepTo(step, l, n).rest) == LayoutBag(l.parts[..n]) + multiset(l.rest)
    decreases n
  {
    if n > 0 {
      SweepHolds(step, l, n - 1);
      SweepNext(step, SweepTo(step, l, n - 1), l.parts, n - 1, multiset(l.rest));
    }
  }

  lemma SweepStep(done: Bag, part: Bag, left: Bag, was: Bag, rest: Bag, front: Bag, deque: Bag)
    requires part + left == was + rest && done + rest == front + deque
    ensures (done + part) + left == (front + was) + deque
  {
    assert (done + part) + left == done + (part + left);
    assert (done + (was + rest)) == (done + rest) + was;
  }

  lemma {:induction false} Pass4Holds(l: Layout)
    ensures Held(Pass4(l)) == Held(l) && Pass4(l).rest == []
    decreases |l.rest|
  {
    if l.rest != [] {
      FillShrinks([], TARGET_PART_SIZE, l.rest);
      FillHolds([], TARGET_PART_SIZE, l.rest);
      var (files, _, rest) := Fill([], TARGET_PART_SIZE, l.rest);
      BagAppend(l.parts, Single(files));
      Pass4Holds(Layout(l.parts + [Single(files)], rest));
      SweepOne(LayoutBag(l.parts), multiset(files), multiset(rest), multiset([]), multiset(l.rest));
    }
  }

  lemma SweepKeeps(step: PartStep, l: Layout)
    requires forall p, rest :: KeepsAt(step, p, rest)
    ensures Held(Sweep(step, l)) == Held(l)
  {
    SweepHolds(step, l, |l.parts|);
    assert l.parts[..|l.parts|] == l.parts;
  }

  lemma BothKeep(l: Layout)
    ensures Held(Sweep(Pad, Sweep(Promote, l))) == Held(l)
  {
    forall p, rest ensures KeepsAt(Promote, p, rest) { PromoteHolds(p, rest); }
    forall p, rest ensures KeepsAt(Pad, p, rest) { PadHolds(p, rest); }
    SweepKeeps(Promote, l);
    SweepKeeps(Pad, Sweep(Promote, l));
  }

  lemma {:induction false} FilesBag(parts: seq<ZipLayoutPart>)
    ensures multiset(LayoutFiles(parts)) == LayoutBag(parts)
  {
    if parts != [] {
      FilesBag(parts[..|parts| - 1]);
    }
  }

  /** The layout is a rearrangement of the listed files. */
  lemma PermutationTheorem(files: seq<FileInfo>)
    ensures multiset(LayoutFiles(PlanLayout(files))) == multiset(files)
  {
    var sorted := Layout([], Sort(SmallerFirst, files));
    var swept := Sweep(Pad, Sweep(Promote, Pass1(sorted)));
    Pass1Holds(sorted);
    BothKeep(Pass1(sorted));
    Pass4Holds(swept);
    FilesBag(PlanLayout(files));
    assert Pass4(swept).parts == PlanLayout(files);
    NothingLeft(LayoutBag(PlanLayout(files)), multiset(sorted.rest));
  }

  lemma NothingLeft(a: Bag, b: Bag)
    requires a + multiset{} == multiset{} + b
    ensures a == b
  {
    assert a == a + multiset{} && b == multiset{} + b;
  }

  // ---------- Both halves reach the minimum ----------

  /** Upload half and copied remainder each reach the minimum; a partial copy fills its upload half exactly to it. */
  ghost predicate DuoSound(p: ZipLayoutPart) {
    p.Duo? ==>
      var upload := PartSize(p.regular) + HeaderSize(p.copy.file);
      match p.copy
      case FullCopy(file) => upload >= MIN_PART_SIZE && file.Size() >= MIN_PART_SIZE
      case PartialCopy(file, startByte) =>
        startByte > 0 && upload + startByte == MIN_PART_SIZE && startByte + MIN_PART_SIZE <= file.Size()
  }

  ghost predicate AllSound(parts: seq<ZipLayoutPart>) {
    forall i | 0 <= i < |parts| :: DuoSound(parts[i])
  }

  lemma PartSizeAppend(files: seq<FileInfo>, f: FileInfo)
    ensures PartSize(files + [f]) == PartSize(files) + EntrySize(f)
  {
    assert (files + [f])[..|files|] == files;
  }

  lemma {:induction false} PairSound(big: FileInfo, regular: seq<FileInfo>, rest: seq<FileInfo>)
    requires big.Size() >= MIN_PART_SIZE
    ensures DuoSound(Pair(big, regular, rest).0)
    ensures Pair(big, regular, rest).0.Single? ==> Pair(big, regular, rest).1 == []
    decreases |rest|
  {
    if PartSize(regular) < MissingRegular(big) && rest != [] {
      PairSound(big, regular + [rest[0]], rest[1..]);
    }
  }

  lemma {:induction false} Pass1Sound(l: Layout)
    requires AllSound(l.parts)
    ensures AllSound(Pass1(l).parts)
    decreases |l.rest|
  {
    if BigLeft(l.rest) {
      var n := |l.rest| - 1;
      PairShrinks(l.rest[n], [], l.rest[..n]);
      PairSound(l.rest[n], [], l.rest[..n]);
      var (part, rest) := Pair(l.rest[n], [], l.rest[..n]);
      Pass1Sound(Layout(l.parts + [part], rest));
    }
  }

  /** While smalls are absorbed, the upload half stays at the minimum, or has passed it at start byte 0. */
  lemma {:induction false} AbsorbSound(file: FileInfo, regular: seq<FileInfo>, startByte: nat, rest: seq<FileInfo>)
    requires PartSize(regular) + HeaderSize(file) + startByte >= MIN_PART_SIZE
    requires startByte > 0 ==> PartSize(regular) + HeaderSize(file) + startByte == MIN_PART_SIZE
    ensures var (r, s, _) := Absorb(regular, startByte, rest);
      && PartSize(r) + HeaderSize(file) + s >= MIN_PART_SIZE && s <= startByte
      && (s > 0 ==> PartSize(r) + HeaderSize(file) + s == MIN_PART_SIZE)
    decreases |rest|
  {
    if startByte > 0 && rest != [] {
      PartSizeAppend(regular, rest[0]);
      AbsorbSound(file, regular + [rest[0]], Minus(startByte, EntrySize(rest[0])), rest[1..]);
    }
  }

  lemma {:induction false} AbsorbStops(regular: seq<FileInfo>, startByte: nat, rest: seq<FileInfo>)
    ensures var (_, s, left) := Absorb(regular, startByte, rest); s > 0 ==> left == []
    decreases |rest|
  {
    if startByte > 0 && rest != [] {
      AbsorbStops(regular + [rest[0]], Minus(startByte, EntrySize(rest[0])), rest[1..]);
    }
  }

  ghost predicate IsPartial(p: ZipLayoutPart) { p.Duo? && p.copy.PartialCopy? }

  lemma PromoteSound(p: ZipLayoutPart, rest: seq<FileInfo>)
    requires DuoSound(p)
    ensures DuoSound(Promote(p, rest).0)
    ensures IsPartial(Promote(p, rest).0) ==> Promote(p, rest).1 == []
  {
    if IsPartial(p) {
      AbsorbSound(p.copy.file, p.regular, p.copy.startByte, rest);
      AbsorbStops(p.regular, p.copy.startByte, rest);
    }
  }

  ghost predicate NonePartial(parts: seq<ZipLayoutPart>) {
    forall i | 0 <= i < |parts| :: !IsPartial(parts[i])
  }

  lemma {:induction false} PromoteAllSound(l: Layout, n: nat)
    requires AllSound(l.parts) && n <= |l.parts|
    ensures AllSound(SweepTo(Promote, l, n).parts)
    ensures SweepTo(Promote, l, n).rest != [] ==> NonePartial(SweepTo(Promote, l, n).parts)
    decreases n
  {
    if n > 0 {
      PromoteAllSound(l, n - 1);
      PromoteSound(l.parts[n - 1], SweepTo(Promote, l, n - 1).rest);
      if SweepTo(Promote, l, n - 1).rest == [] {
        PromoteIdle(l.parts[n - 1]);
      }
    }
  }

  lemma PromoteIdle(p: ZipLayoutPart)
    ensures DuoSound(p) ==> Promote(p, []) == (p, [])
  {}

  lemma PadIdle(p: ZipLayoutPart)
    ensures Pad(p, []) == (p, [])
  {}

  lemma {:induction false} FillGrows(files: seq<FileInfo>, missing: nat, rest: seq<FileInfo>)
    ensures PartSize(Fill(files, missing, rest).0) >= PartSize(files)
    ensures Fill(files, missing, rest).1 == 0 ==> PartSize(Fill(files, missing, rest).0) >= PartSize(files) + missing
    decreases |rest|
  {
    if missing > 0 && rest != [] {
      PartSizeAppend(files, rest[0]);
      FillGrows(files + [rest[0]], Minus(missing, EntrySize(rest[0])), rest[1..]);
    }
  }

  lemma {:induction false} FillStops(files: seq<FileInfo>, missing: nat, rest: seq<FileInfo>)
    ensures Fill(files, missing, rest).1 > 0 ==> Fill(files, missing, rest).2 == []
    decreases |rest|
  {
    if missing > 0 && rest != [] {
      FillStops(files + [rest[0]], Minus(missing, EntrySize(rest[0])), rest[1..]);
    }
  }

  ghost predicate Padded(p: ZipLayoutPart) { p.Duo? ==> PartSize(p.regular) >= 10_485_760 }

  lemma PadReaches(p: ZipLayoutPart, rest: seq<FileInfo>)
    ensures p.Duo? ==> PartSize(Pad(p, rest).0.regular) >= PartSize(p.regular)
    ensures Pad(p, rest).1 != [] ==> Padded(Pad(p, rest).0)
  {
    if p.Duo? {
      FillGrows(p.regular, Minus(TARGET_PART_SIZE, PartSize(p.regular)), rest);
      FillStops(p.regular, Minus(TARGET_PART_SIZE, PartSize(p.regular)), rest);
    }
  }

  lemma PadSound(p: ZipLayoutPart, rest: seq<FileInfo>)
    requires DuoSound(p) && (IsPartial(p) ==> rest == [])
    ensures DuoSound(Pad(p, rest).0)
    ensures IsPartial(Pad(p, rest).0) <==> IsPartial(p)
  {
    PadReaches(p, rest);
    if rest == [] {
      PadIdle(p);
    }
  }

  ghost predicate AllPadded(parts: seq<ZipLayoutPart>) {
    forall i | 0 <= i < |parts| :: Padded(parts[i])
  }

  lemma PadNext(before: Layout, p: ZipLayoutPart)
    requires AllSound(before.parts) && DuoSound(p) && (IsPartial(p) ==> before.rest == [])
    requires before.rest != [] ==> AllPadded(before.parts)
    ensures var (part, rest) := Pad(p, before.rest);
      && AllSound(before.parts + [part]) && (rest != [] ==> AllPadded(before.parts + [part]))
      && (NonePartial(before.parts) && !IsPartial(p) ==> NonePartial(before.parts + [part]))
  {
    PadSound(p, before.rest);
    PadReaches(p, before.rest);
    if before.rest == [] {
      PadIdle(p);
    }
  }

  lemma {:induction false} PadAllSound(l: Layout, n: nat)
    requires AllSound(l.parts) && (l.rest != [] ==> NonePartial(l.parts)) && n <= |l.parts|
    ensures AllSound(SweepTo(Pad, l, n).parts)
    ensures NonePartial(l.parts) ==> NonePartial(SweepTo(Pad, l, n).parts)
    ensures SweepTo(Pad, l, n).rest != [] ==> AllPadded(SweepTo(Pad, l, n).parts)
    decreases n
  {
    if n > 0 {
      PadAllSound(l, n - 1);
      if l.rest == [] {
        PadNothing(l, n - 1);
      }
      PadNext(SweepTo(Pad, l, n - 1), l.parts[n - 1]);
    }
  }

  /** With an empty deque padding changes nothing. */
  lemma {:induction false} PadNothing(l: Layout, n: nat)
    requires l.rest == [] && n <= |l.parts|
    ensures SweepTo(Pad, l, n) == Layout(l.parts[..n], [])
  {
    if n > 0 {
      PadNothing(l, n - 1);
      PadIdle(l.parts[n - 1]);
      assert l.parts[..n] == l.parts[..n - 1] + [l.parts[n - 1]];
    }
  }

  ghost predicate FullSingle(p: ZipLayoutPart) { p.Single? && PartSize(p.files) >= 10_485_760 }

  /** Pass 4 only appends singles. */
  lemma {:induction false} Pass4Appends(l: Layout)
    ensures |l.parts| <= |Pass4(l).parts| && Pass4(l).parts[..|l.parts|] == l.parts
    ensures forall i | |l.parts| <= i < |Pass4(l).parts| :: Pass4(l).parts[i].Single?
    ensures l.rest == [] ==> Pass4(l) == l
    decreases |l.rest|
  {
    if l.rest != [] {
      FillShrinks([], TARGET_PART_SIZE, l.rest);
      var (files, _, rest) := Fill([], TARGET_PART_SIZE, l.rest);
      var next := Layout(l.parts + [Single(files)], rest);
      Pass4Appends(next);
      assert next.parts[..|l.parts|] == l.parts;
    }
  }

  /** Only the last of the appended singles falls short of the target. */
  lemma {:induction false} Pass4Fills(l: Layout)
    ensures |l.parts| <= |Pass4(l).parts|
    ensures forall i | |l.parts| <= i < |Pass4(l).parts| - 1 :: FullSingle(Pass4(l).parts[i])
    decreases |l.rest|
  {
    if l.rest != [] {
      FillShrinks([], TARGET_PART_SIZE, l.rest);
      FillGrows([], TARGET_PART_SIZE, l.rest);
      FillStops([], TARGET_PART_SIZE, l.rest);
      var (files, _, rest) := Fill([], TARGET_PART_SIZE, l.rest);
      var next := Layout(l.parts + [Single(files)], rest);
      Pass4Fills(next);
      Pass4Appends(next);
      assert Pass4(l).parts[..|next.parts|][|l.parts|] == Single(files);
    }
  }

  lemma Pass4Sound(l: Layout)
    requires AllSound(l.parts)
    ensures AllSound(Pass4(l).parts)
  {
    Pass4Appends(l);
    forall i | 0 <= i < |Pass4(l).parts| ensures DuoSound(Pass4(l).parts[i]) {
      if i < |l.parts| {
        assert Pass4(l).parts[i] == Pass4(l).parts[..|l.parts|][i];
      }
    }
  }

  /** The layout between the passes: after promotion, and after padding. */
  function AfterPromotion(files: seq<FileInfo>): Layout {
    Sweep(Promote, Pass1(Layout([], Sort(SmallerFirst, files))))
  }

  function AfterPadding(files: seq<FileInfo>): Layout { Sweep(Pad, AfterPromotion(files)) }

  lemma PromotedSound(files: seq<FileInfo>)
    ensures AllSound(AfterPromotion(files).parts)
    ensures AfterPromotion(files).rest != [] ==> NonePartial(AfterPromotion(files).parts)
  {
    var sorted := Layout([], Sort(SmallerFirst, files));
    Pass1Sound(sorted);
    PromoteAllSound(Pass1(sorted), |Pass1(sorted).parts|);
  }

  /**
   * Every duo has an upload half and a copied remainder of at least the minimum part size, and a
   * partial copy that survived promotion starts behind byte 0 and fills its upload half exactly.
   */
  lemma FloorTheorem(files: seq<FileInfo>)
    ensures AllSound(PlanLayout(files))
  {
    PromotedSound(files);
    PadAllSound(AfterPromotion(files), |AfterPromotion(files).parts|);
    Pass4Sound(AfterPadding(files));
  }

  lemma NoPartialAppended(l: Layout)
    requires NonePartial(l.parts)
    ensures NonePartial(Pass4(l).parts)
  {
    Pass4Appends(l);
    forall i | 0 <= i < |Pass4(l).parts| ensures !IsPartial(Pass4(l).parts[i]) {
      if i < |l.parts| {
        assert Pass4(l).parts[i] == Pass4(l).parts[..|l.parts|][i];
      }
    }
  }

  /** A partial copy survives only when promotion used up every file, so that passes 3 and 4 change nothing. */
  lemma PartialTheorem(files: seq<FileInfo>)
    ensures NonePartial(PlanLayout(files))
         || (AfterPromotion(files).rest == [] && PlanLayout(files) == AfterPromotion(files).parts)
  {
    var promoted := AfterPromotion(files);
    PromotedSound(files);
    if promoted.rest == [] {
      PadNothing(promoted, |promoted.parts|);
      assert promoted.parts[..|promoted.parts|] == promoted.parts;
    } else {
      PadAllSound(promoted, |promoted.parts|);
      NoPartialAppended(AfterPadding(files));
    }
  }

  /** Files are only left for singles once every duo is padded, and only the last of those singles falls short. */
  lemma PaddingTheorem(files: seq<FileInfo>)
    ensures var padded, parts := AfterPadding(files), PlanLayout(files);
      && |padded.parts| <= |parts| && parts[..|padded.parts|] == padded.parts
      && (padded.rest != [] ==> AllPadded(padded.parts))
      && (forall i | |padded.parts| <= i < |parts| - 1 :: FullSingle(parts[i]))
  {
    PromotedSound(files);
    PadAllSound(AfterPromotion(files), |AfterPromotion(files).parts|);
    Pass4Appends(AfterPadding(files));
    Pass4Fills(AfterPadding(files));
  }

  // ---------- Big files never pad ----------

  lemma {:induction false} PairLeavesSuffix(big: FileInfo, regular: seq<FileInfo>, rest: seq<FileInfo>)
    requires big.Size() >= MIN_PART_SIZE
    ensures var left := Pair(big, regular, rest).1; |left| <= |rest| && left == rest[|rest| - |left|..]
    decreases |rest|
  {
    if PartSize(regular) < MissingRegular(big) && rest != [] {
      PairLeavesSuffix(big, regular + [rest[0]], rest[1..]);
    }
  }

  ghost predicate BelowMinimum(files: seq<FileInfo>) {
    forall i | 0 <= i < |files| :: files[i].Size() < MIN_PART_SIZE
  }

  /** After pass 1 the deque holds only files below the minimum: later passes never download a big file. */
  lemma {:induction false} Pass1LeavesSmalls(l: Layout)
    requires SortedBy(SmallerFirst, l.rest)
    ensures BelowMinimum(Pass1(l).rest)
    decreases |l.rest|
  {
    if BigLeft(l.rest) {
      var n := |l.rest| - 1;
      PairShrinks(l.rest[n], [], l.rest[..n]);
      PairLeavesSuffix(l.rest[n], [], l.rest[..n]);
      var (part, rest) := Pair(l.rest[n], [], l.rest[..n]);
      assert SortedBy(SmallerFirst, rest) by {
        forall i, j | 0 <= i < j < |rest| ensures SmallerFirst(rest[i], rest[j]) {
          assert SmallerFirst(l.rest[n - |rest| + i], l.rest[n - |rest| + j]);
        }
      }
      Pass1LeavesSmalls(Layout(l.parts + [part], rest));
    } else {
      forall i | 0 <= i < |l.rest| ensures l.rest[i].Size() < MIN_PART_SIZE {
        assert i < |l.rest| - 1 ==> SmallerFirst(l.rest[i], l.rest[|l.rest| - 1]);
      }
    }
  }

  lemma PairingTheorem(files: seq<FileInfo>)
    ensures BelowMinimum(Pass1(Layout([], Sort(SmallerFirst, files))).rest)
  {
    assert TotalPreorder(SmallerFirst);
    SortSorts(SmallerFirst, files);
    Pass1LeavesSmalls(Layout([], Sort(SmallerFirst, files)));
  }

  // ---------- The planner's loops ----------

  method PairBig(big: FileInfo, deque: seq<FileInfo>) returns (part: ZipLayoutPart, rest: seq<FileInfo>)
    requires big.Size() >= MIN_PART_SIZE
    ensures (part, rest) == Pair(big, [], deque)
  {
    var minMissing := Minus(Minus(MIN_PART_SIZE, HeaderSize(big)), big.Size() - MIN_PART_SIZE);
    var regular: seq<FileInfo> := [];
    rest := deque;
    while true
      invariant Pair(big, regular, rest) == Pair(big, [], deque)
      decreases |rest|
    {
      var regularSize := PartSize(regular);
      if regularSize >= minMissing {
        var copyStartByte := Minus(Minus(MIN_PART_SIZE, regularSize), HeaderSize(big));
        part := Duo(regular, if copyStartByte > 0 then PartialCopy(big, copyStartByte) else FullCopy(big));
        return;
      }
      if rest != [] {
        regular, rest := regular + [rest[0]], rest[1..];
      } else {
        part := Single(regular + [big]);
        return;
      }
    }
  }

  method PairPass(sorted: seq<FileInfo>) returns (parts: seq<ZipLayoutPart>, rest: seq<FileInfo>)
    ensures Layout(parts, rest) == Pass1(Layout([], sorted))
  {
    parts, rest := [], sorted;
    while rest != [] && rest[|rest| - 1].Size() >= MIN_PART_SIZE
      invariant Pass1(Layout(parts, rest)) == Pass1(Layout([], sorted))
      decreases |rest|
    {
      var big := rest[|rest| - 1];
      PairShrinks(big, [], rest[..|rest| - 1]);
      var part, left := PairBig(big, rest[..|rest| - 1]);
      parts, rest := parts + [part], left;
    }
  }

  /** A sweep that has emptied the deque leaves the remaining parts as they are. */
  lemma {:induction false} SweepIdles(step: PartStep, l: Layout, m: nat, n: nat)
    requires m <= n <= |l.parts| && SweepTo(step, l, m).rest == []
    requires forall i | 0 <= i < |l.parts| :: step(l.parts[i], []) == (l.parts[i], [])
    ensures SweepTo(step, l, n) == Layout(SweepTo(step, l, m).parts + l.parts[m..n], [])
    decreases n - m
  {
    if m < n {
      SweepIdles(step, l, m, n - 1);
      assert l.parts[m..n] == l.parts[m..n - 1] + [l.parts[n - 1]];
    } else {
      assert SweepTo(step, l, m).parts + l.parts[m..n] == SweepTo(step, l, m).parts;
    }
  }

  method AbsorbLoop(regular0: seq<FileInfo>, startByte0: nat, rest0: seq<FileInfo>)
    returns (regular: seq<FileInfo>, startByte: nat, rest: seq<FileInfo>)
    ensures (regular, startByte, rest) == Absorb(regular0, startByte0, rest0)
  {
    regular, startByte, rest := regular0, startByte0, rest0;
    while startByte > 0
      invariant Absorb(regular, startByte, rest) == Absorb(regular0, startByte0, rest0)
      decreases |rest|, startByte
    {
      if rest == [] {
        return;
      }
      startByte := Minus(startByte, EntrySize(rest[0]));
      regular, rest := regular + [rest[0]], rest[1..];
    }
  }

  /** Pass 2: leaves both loops as soon as a partial copy finds the deque empty. */
  method PromotePass(l: Layout) returns (parts: seq<ZipLayoutPart>, rest: seq<FileInfo>)
    requires AllSound(l.parts)
    ensures Layout(parts, rest) == Sweep(Promote, l)
  {
    parts, rest := l.parts, l.rest;
    var i := 0;
    while i < |parts|
      invariant 0 <= i <= |parts| == |l.parts|
      invariant Layout(parts[..i], rest) == SweepTo(Promote, l, i) && parts[i..] == l.parts[i..]
    {
      ghost var before := parts;
      var part := parts[i];
      assert part == l.parts[i..][0] == l.parts[i];
      assert DuoSound(part);
      if part.Duo? && part.copy.PartialCopy? {
        var regular, startByte, left := AbsorbLoop(part.regular, part.copy.startByte, rest);
        AbsorbStops(part.regular, part.copy.startByte, rest);
        parts := parts[i := Duo(regular, if startByte == 0 then FullCopy(part.copy.file) else PartialCopy(part.copy.file, startByte))];
        rest := left;
        SweptOne(Promote, l, i, before, parts, rest);
        if startByte > 0 {
          forall k | 0 <= k < |l.parts| ensures Promote(l.parts[k], []) == (l.parts[k], []) {
            assert DuoSound(l.parts[k]);
            PromoteIdle(l.parts[k]);
          }
          SweepIdles(Promote, l, i + 1, |l.parts|);
          assert parts == parts[..i + 1] + parts[i + 1..];
          return;
        }
      } else {
        SweptOne(Promote, l, i, before, parts, rest);
      }
      i := i + 1;
    }
    assert parts[..i] == parts;
  }

  /** Rewriting part `i` in place is one step of the sweep. */
  lemma SweptOne(step: PartStep, l: Layout, i: nat, before: seq<ZipLayoutPart>, after: seq<ZipLayoutPart>, rest: seq<FileInfo>)
    requires i < |before| == |after| == |l.parts| && before[i..] == l.parts[i..]
    requires before[..i] == SweepTo(step, l, i).parts
    requires after == before[i := step(l.parts[i], SweepTo(step, l, i).rest).0]
    requires rest == step(l.parts[i], SweepTo(step, l, i).rest).1
    ensures Layout(after[..i + 1], rest) == SweepTo(step, l, i + 1) && after[i + 1..] == l.parts[i + 1..]
  {
    assert after[..i + 1] == before[..i] + [after[i]];
    assert after[i + 1..] == before[i..][1..];
    assert l.parts[i + 1..] == l.parts[i..][1..];
  }

  method FillLoop(files0: seq<FileInfo>, missing0: nat, rest0: seq<FileInfo>)
    returns (files: seq<FileInfo>, missing: nat, rest: seq<FileInfo>)
    ensures (files, missing, rest) == Fill(files0, missing0, rest0)
  {
    files, missing, rest := files0, missing0, rest0;
    while missing > 0
      invariant Fill(files, missing, rest) == Fill(files0, missing0, rest0)
      decreases |rest|, missing
    {
      if rest == [] {
        return;
      }
      missing := Minus(missing, EntrySize(rest[0]));
      files, rest := files + [rest[0]], rest[1..];
    }
  }

  /** Pass 3: stops as soon as a duo finds the deque empty. */
  method PadPass(l: Layout) returns (parts: seq<ZipLayoutPart>, rest: seq<FileInfo>)
    ensures Layout(parts, rest) == Sweep(Pad, l)
  {
    parts, rest := l.parts, l.rest;
    var i := 0;
    while i < |parts|
      invariant 0 <= i <= |parts| == |l.parts|
      invariant Layout(parts[..i], rest) == SweepTo(Pad, l, i) && parts[i..] == l.parts[i..]
    {
      ghost var before := parts;
      var part := parts[i];
      assert part == l.parts[i..][0] == l.parts[i];
      if part.Duo? {
        var missing0 := Minus(TARGET_PART_SIZE, PartSize(part.regular));
        var regular, missing, left := FillLoop(part.regular, missing0, rest);
        FillStops(part.regular, missing0, rest);
        parts := parts[i := Duo(regular, part.copy)];
        rest := left;
        SweptOne(Pad, l, i, before, parts, rest);
        if missing > 0 {
          SweepIdles(Pad, l, i + 1, |l.parts|);
          assert parts == parts[..i + 1] + parts[i + 1..];
          return;
        }
      } else {
        SweptOne(Pad, l, i, before, parts, rest);
      }
      i := i + 1;
    }
    assert parts[..i] == parts;
  }

  method RemainderPass(l: Layout) returns (parts: seq<ZipLayoutPart>)
    ensures parts == Pass4(l).parts
  {
    var rest := l.rest;
    parts := l.parts;
    while rest != []
      invariant Pass4(Layout(parts, rest)) == Pass4(l)
      decreases |rest|
    {
      FillShrinks([], TARGET_PART_SIZE, rest);
      var files, _, left := FillLoop([], TARGET_PART_SIZE, rest);
      parts, rest := parts + [Single(files)], left;
    }
  }

  /** `ZipLayout::from_files_info`: the four passes over the sorted deque. */
  method FromFilesInfo(files: seq<FileInfo>) returns (parts: seq<ZipLayoutPart>)
    ensures parts == PlanLayout(files)
  {
    var paired, afterFirst := PairPass(Sort(SmallerFirst, files));
    Pass1Sound(Layout([], Sort(SmallerFirst, files)));
    var promoted, afterSecond := PromotePass(Layout(paired, afterFirst));
    var padded, afterThird := PadPass(Layout(promoted, afterSecond));
    parts := RemainderPass(Layout(padded, afterThird));
  }
}
