/** figment-engine's single-upload planner and the bytes its plan stands for. */
module SinglePlan {
  import opened Arithmetic
  import opened Bytes
  import opened Canonical
  import opened FigmentFormat
  import opened Multipart
  import opened Sorting

  const VIABILITY_MIN_TOTAL: nat := 4 * PART_FLOOR

  type FileId = nat

  /** A listed object together with what S3 holds under its key. */
  datatype SourceFile = SourceFile(id: FileId, name: Octets, body: Octets, crc: nat) {
    function Size(): nat { |body| }

    function Header(): Octets { LocalHeader(name, Size(), crc) }

    function AsItem(): Item { Item(name, body, crc) }
  }

  type Catalog = map<FileId, SourceFile>

  datatype Entry = Entry(id: FileId, name: Octets, size: nat, localHeaderOffset: nat, streamed: bool)

  datatype Segment =
    | StreamedFile(id: FileId)
    | CopiedFileHeader(id: FileId)
    | StreamedBigPrefix(id: FileId, len: nat)
    | CentralDirectory

  datatype PartSpec =
    | Copy(partNumber: nat, id: FileId, copyFrom: nat)
    | Stream(partNumber: nat, segments: seq<Segment>)

  datatype PlanStats = PlanStats(entries: nat, parts: nat, copyParts: nat, streamParts: nat,
                                 foldedBigs: nat, stolenBigs: nat, bigs: nat, smalls: nat)

  datatype Plan = Plan(order: seq<FileId>, entries: map<FileId, Entry>, parts: seq<PartSpec>,
                       copyable: seq<FileId>, stats: PlanStats)

  datatype Routing = SingleMpu(plan: Plan) | Fallback

  // ---------- Listing ----------

  ghost predicate DistinctIds(files: seq<SourceFile>) {
    forall i, j | 0 <= i < j < |files| :: files[i].id != files[j].id
  }

  /** `size_of`: a later file with the same id would replace an earlier one. */
  function CatalogOf(files: seq<SourceFile>): Catalog {
    if files == [] then map[]
    else
      var last := |files| - 1;
      CatalogOf(files[..last])[files[last].id := files[last]]
  }

  /** `size_of[&id]`, with an empty file for an id that was never listed. */
  function FileOf(cat: Catalog, id: FileId): SourceFile {
    if id in cat then cat[id] else SourceFile(id, [], [], 0)
  }

  predicate IsBig(f: SourceFile) {
    f.Size() >= PART_FLOOR
  }

  function Filter(files: seq<SourceFile>, big: bool): (r: seq<SourceFile>)
    ensures forall f | f in r :: f in files && (IsBig(f) <==> big)
  {
    if files == [] then []
    else
      var last := |files| - 1;
      Filter(files[..last], big) + if IsBig(files[last]) == big then [files[last]] else []
  }

  function TotalSize(files: seq<SourceFile>): nat {
    if files == [] then 0 else files[0].Size() + TotalSize(files[1..])
  }

  predicate LargestFirst(a: SourceFile, b: SourceFile) {
    a.Size() > b.Size() || (a.Size() == b.Size() && a.id <= b.id)
  }

  predicate SmallestFirst(a: SourceFile, b: SourceFile) {
    a.Size() < b.Size() || (a.Size() == b.Size() && a.id <= b.id)
  }

  // ---------- What the assembler makes of a plan ----------

  function FilesOf(cat: Catalog, order: seq<FileId>): (files: seq<SourceFile>)
    ensures |files| == |order|
  {
    seq(|order|, i requires 0 <= i < |order| => FileOf(cat, order[i]))
  }

  function ItemsOf(files: seq<SourceFile>): (items: seq<Item>)
    ensures |items| == |files|
  {
    seq(|files|, i requires 0 <= i < |files| => files[i].AsItem())
  }

  /** Header and body of every ordered file, one after the other. */
  function RegionOf(cat: Catalog, order: seq<FileId>): Octets {
    Region(LocalsOf(ItemsOf(FilesOf(cat, order))))
  }

  /** The bytes one segment adds to its part; `directory` stands for the directory segment. */
  function SegmentBytes(cat: Catalog, directory: Octets, segment: Segment): Octets {
    match segment
    case StreamedFile(id) => FileOf(cat, id).Header() + FileOf(cat, id).body
    case CopiedFileHeader(id) => FileOf(cat, id).Header()
    case StreamedBigPrefix(id, len) =>
      if len <= FileOf(cat, id).Size() then FileOf(cat, id).body[..len] else FileOf(cat, id).body
    case CentralDirectory => directory
  }

  function StreamBytes(cat: Catalog, directory: Octets, segments: seq<Segment>): Octets {
    if segments == [] then []
    else
      var last := |segments| - 1;
      StreamBytes(cat, directory, segments[..last]) + SegmentBytes(cat, directory, segments[last])
  }

  function PartBytes(cat: Catalog, directory: Octets, part: PartSpec): Octets {
    match part
    case Copy(_, id, copyFrom) => if copyFrom <= FileOf(cat, id).Size() then FileOf(cat, id).body[copyFrom..] else []
    case Stream(_, segments) => StreamBytes(cat, directory, segments)
  }

  function PartsBytes(cat: Catalog, directory: Octets, parts: seq<PartSpec>): (bytes: seq<Octets>)
    ensures |bytes| == |parts|
  {
    seq(|parts|, i requires 0 <= i < |parts| => PartBytes(cat, directory, parts[i]))
  }

  /** The directory metadata the assembler reads off the plan's entries. */
  function PlanMetas(plan: Plan, cat: Catalog): (metas: seq<EntryMeta>)
    requires forall id | id in plan.order :: id in plan.entries
    ensures |metas| == |plan.order|
  {
    seq(|plan.order|, i requires 0 <= i < |plan.order| =>
      var e := plan.entries[plan.order[i]];
      EntryMeta(e.name, e.size, FileOf(cat, plan.order[i]).crc, e.localHeaderOffset))
  }

  function SumOfEntries(plan: Plan, order: seq<FileId>): nat
    requires forall id | id in order :: id in plan.entries
  {
    if order == [] then 0
    else
      var e := plan.entries[order[|order| - 1]];
      SumOfEntries(plan, order[..|order| - 1]) + LocalHeaderLen(e.name) + e.size
  }

  function DirectoryBytes(plan: Plan, cat: Catalog): Octets
    requires forall id | id in plan.order :: id in plan.entries
  {
    Trailer(PlanMetas(plan, cat), SumOfEntries(plan, plan.order))
  }

  // ---------- Listing facts ----------

  lemma {:induction false} CatalogFinds(files: seq<SourceFile>, i: nat)
    requires DistinctIds(files) && i < |files|
    ensures FileOf(CatalogOf(files), files[i].id) == files[i]
  {
    var last := |files| - 1;
    if i < last {
      CatalogFinds(files[..last], i);
      assert files[..last][i] == files[i];
      assert files[i].id in CatalogOf(files[..last]) by { CatalogHas(files[..last], i); }
    }
  }

  lemma {:induction false} CatalogHas(files: seq<SourceFile>, i: nat)
    requires i < |files|
    ensures files[i].id in CatalogOf(files)
  {
    if i < |files| - 1 {
      CatalogHas(files[..|files| - 1], i);
    }
  }

  /** What both halves of a listing hold together. */
  ghost function Halves(files: seq<SourceFile>): multiset<SourceFile> {
    multiset(Filter(files, true)) + multiset(Filter(files, false))
  }

  lemma JoinLast(bigs: seq<SourceFile>, smalls: seq<SourceFile>, f: SourceFile)
    ensures multiset(bigs + [f]) + multiset(smalls + []) == multiset(bigs) + multiset(smalls) + multiset{f}
    ensures multiset(bigs + []) + multiset(smalls + [f]) == multiset(bigs) + multiset(smalls) + multiset{f}
  {
    assert bigs + [] == bigs && smalls + [] == smalls;
  }

  lemma HalvesLast(files: seq<SourceFile>, f: SourceFile)
    ensures Halves(files + [f]) == Halves(files) + multiset{f}
  {
    FilterAppend(files, f, true);
    FilterAppend(files, f, false);
    JoinLast(Filter(files, true), Filter(files, false), f);
  }

  lemma HalvesNext(front: seq<SourceFile>, f: SourceFile, all: multiset<SourceFile>)
    requires Halves(front) == all
    ensures Halves(front + [f]) == all + multiset{f}
  {
    HalvesLast(front, f);
  }

  lemma {:induction false} FilterPartitions(files: seq<SourceFile>)
    ensures Halves(files) == multiset(files)
  {
    if files != [] {
      var front, f := files[..|files| - 1], files[|files| - 1];
      FilterPartitions(front);
      HalvesNext(front, f, multiset(front));
      assert files == front + [f];
    }
  }

  lemma FilterAppend(files: seq<SourceFile>, f: SourceFile, big: bool)
    ensures Filter(files + [f], big) == Filter(files, big) + if IsBig(f) == big then [f] else []
  {
    assert (files + [f])[..|files|] == files;
  }

  lemma {:induction false} DistinctOnce(files: seq<SourceFile>, f: SourceFile)
    requires DistinctIds(files)
    ensures multiset(files)[f] <= 1
  {
    if files != [] {
      var last := |files| - 1;
      assert files == files[..last] + [files[last]];
      DistinctOnce(files[..last], f);
      if files[last] == f {
        assert f !in files[..last];
      }
    }
  }

  lemma TwicePresent(s: seq<SourceFile>, i: nat, j: nat)
    requires i < j < |s| && s[i] == s[j]
    ensures multiset(s)[s[i]] >= 2
  {
    assert s == s[..j] + s[j..];
    assert s[i] == s[..j][i] && s[j..][0] == s[i];
    assert s[i] in multiset(s[..j]) && s[i] in multiset(s[j..]);
  }

  /** A rearrangement of distinct ids is distinct. */
  lemma DistinctPermutes(files: seq<SourceFile>, order: seq<SourceFile>)
    requires DistinctIds(files) && multiset(files) == multiset(order)
    ensures DistinctIds(order)
  {
    forall i, j | 0 <= i < j < |order| ensures order[i].id != order[j].id {
      assert order[i] in multiset(files) && order[j] in multiset(files);
      var a :| 0 <= a < |files| && files[a] == order[i];
      var b :| 0 <= b < |files| && files[b] == order[j];
      if order[i] == order[j] {
        TwicePresent(order, i, j);
        DistinctOnce(files, order[i]);
        assert false;
      }
    }
  }

  // ---------- One step of each kind ----------

  lemma RegionOfAppend(cat: Catalog, order: seq<FileId>, id: FileId)
    ensures FilesOf(cat, order + [id]) == FilesOf(cat, order) + [FileOf(cat, id)]
    ensures RegionOf(cat, order + [id]) == RegionOf(cat, order) + FileOf(cat, id).Header() + FileOf(cat, id).body
  {
    var files, f := FilesOf(cat, order), FileOf(cat, id);
    assert FilesOf(cat, order + [id]) == files + [f];
    assert ItemsOf(files + [f]) == ItemsOf(files) + [f.AsItem()];
    LocalsAppend(ItemsOf(files), f.AsItem());
  }

  lemma OrderAppend(cat: Catalog, order: seq<FileId>, f: SourceFile)
    requires FileOf(cat, f.id) == f
    ensures FilesOf(cat, order + [f.id]) == FilesOf(cat, order) + [f]
    ensures RegionOf(cat, order + [f.id]) == RegionOf(cat, order) + f.Header() + f.body
  {
    RegionOfAppend(cat, order, f.id);
  }

  lemma StreamAppend(cat: Catalog, directory: Octets, segments: seq<Segment>, s: Segment)
    ensures StreamBytes(cat, directory, segments + [s])
         == StreamBytes(cat, directory, segments) + SegmentBytes(cat, directory, s)
  {
    assert (segments + [s])[..|segments|] == segments;
  }

  lemma PartsAppend(cat: Catalog, directory: Octets, parts: seq<PartSpec>, p: PartSpec)
    ensures PartsBytes(cat, directory, parts + [p]) == PartsBytes(cat, directory, parts) + [PartBytes(cat, directory, p)]
    ensures Flatten(PartsBytes(cat, directory, parts + [p]))
         == Flatten(PartsBytes(cat, directory, parts)) + PartBytes(cat, directory, p)
  {
    assert PartsBytes(cat, directory, parts + [p]) == PartsBytes(cat, directory, parts) + [PartBytes(cat, directory, p)];
    FlattenAppend(PartsBytes(cat, directory, parts), PartBytes(cat, directory, p));
  }

  // ---------- What a good plan is ----------

  predicate Carries(part: PartSpec, s: Segment) {
    part.Stream? && s in part.segments
  }

  ghost predicate Steals(part: PartSpec) {
    exists s :: Carries(part, s) && s.StreamedBigPrefix?
  }

  ghost predicate StreamsSmall(cat: Catalog, part: PartSpec) {
    exists s :: Carries(part, s) && s.StreamedFile? && !IsBig(FileOf(cat, s.id))
  }

  ghost predicate Folds(cat: Catalog, part: PartSpec) {
    exists s :: Carries(part, s) && s.StreamedFile? && IsBig(FileOf(cat, s.id))
  }

  /** A part that is only allowed once no small is left: a fold, or a steal without a small. */
  ghost predicate LastResort(cat: Catalog, part: PartSpec) {
    Folds(cat, part) || (Steals(part) && !StreamsSmall(cat, part))
  }

  /**
   * The cost of part `k`: a stolen prefix brings its part to the floor and no further; a folded big
   * could not have donated enough; and neither a fold nor a bare steal precedes a streamed small.
   */
  ghost predicate Frugal(cat: Catalog, parts: seq<PartSpec>, k: nat)
    requires k < |parts|
  {
    && (Steals(parts[k]) ==> |PartBytes(cat, [], parts[k])| == PART_FLOOR)
    && (Folds(cat, parts[k]) ==> |PartBytes(cat, [], parts[k])| < 2 * PART_FLOOR)
    && (LastResort(cat, parts[k]) ==> forall m | k < m < |parts| :: !StreamsSmall(cat, parts[m]))
  }

  ghost predicate Copied(parts: seq<PartSpec>, id: FileId) {
    exists k :: 0 <= k < |parts| && parts[k].Copy? && parts[k].id == id
  }

  function CopyCount(parts: seq<PartSpec>): nat {
    if parts == [] then 0
    else CopyCount(parts[..|parts| - 1]) + if parts[|parts| - 1].Copy? then 1 else 0
  }

  /** Copies that start behind a stolen prefix. */
  function RangedCount(parts: seq<PartSpec>): nat {
    if parts == [] then 0
    else RangedCount(parts[..|parts| - 1]) + if parts[|parts| - 1].Copy? && parts[|parts| - 1].copyFrom > 0 then 1 else 0
  }

  ghost predicate Numbered(parts: seq<PartSpec>) {
    forall k | 0 <= k < |parts| :: parts[k].partNumber == k + 1
  }

  ghost predicate NoDirectory(part: PartSpec) {
    !Carries(part, CentralDirectory)
  }

  ghost predicate AtLeastFloor(cat: Catalog, part: PartSpec) {
    |PartBytes(cat, [], part)| >= PART_FLOOR
  }

  // ---------- The loop over the bigs ----------

  /** Parts emitted so far and the batch in progress spell out the ordered files. */
  ghost predicate Spelled(cat: Catalog, parts: seq<PartSpec>, segments: seq<Segment>, order: seq<FileId>) {
    Flatten(PartsBytes(cat, [], parts)) + StreamBytes(cat, [], segments) == RegionOf(cat, order)
  }

  ghost predicate Known(cat: Catalog, files: seq<SourceFile>, big: bool) {
    forall f | f in files :: FileOf(cat, f.id) == f && (IsBig(f) <==> big)
  }

  /** The order so far holds exactly the consumed bigs and smalls, each in their sorted order. */
  ghost predicate Consumed(cat: Catalog, order: seq<FileId>, bigs: seq<SourceFile>, smalls: seq<SourceFile>) {
    && Filter(FilesOf(cat, order), true) == bigs
    && Filter(FilesOf(cat, order), false) == smalls
  }

  /** A batch of streamed smalls. */
  ghost predicate Batched(cat: Catalog, segments: seq<Segment>) {
    forall s | s in segments :: s.StreamedFile? && !IsBig(FileOf(cat, s.id))
  }

  lemma HeaderLength(f: SourceFile)
    ensures |f.Header()| == LocalHeaderLen(f.name)
  {
    LocalHeaderLength(f.name, f.Size(), f.crc);
  }

  lemma Consume(cat: Catalog, order: seq<FileId>, bigs: seq<SourceFile>, smalls: seq<SourceFile>, f: SourceFile)
    requires FileOf(cat, f.id) == f && Consumed(cat, order, bigs, smalls)
    ensures IsBig(f) ==> Consumed(cat, order + [f.id], bigs + [f], smalls)
    ensures !IsBig(f) ==> Consumed(cat, order + [f.id], bigs, smalls + [f])
  {
    OrderAppend(cat, order, f);
    FilterAppend(FilesOf(cat, order), f, true);
    FilterAppend(FilesOf(cat, order), f, false);
  }

  lemma Associate(a: Octets, b: Octets, c: Octets, d: Octets)
    ensures a + (b + (c + d)) == (a + b) + c + d
    ensures a + (b + c + d) == (a + b) + c + d
  {}

  lemma SpellFile(cat: Catalog, parts: seq<PartSpec>, segments: seq<Segment>, order: seq<FileId>, f: SourceFile)
    requires FileOf(cat, f.id) == f && Spelled(cat, parts, segments, order)
    ensures Spelled(cat, parts, segments + [StreamedFile(f.id)], order + [f.id])
    ensures |StreamBytes(cat, [], segments + [StreamedFile(f.id)])|
         == |StreamBytes(cat, [], segments)| + LocalHeaderLen(f.name) + f.Size()
  {
    OrderAppend(cat, order, f);
    StreamAppend(cat, [], segments, StreamedFile(f.id));
    HeaderLength(f);
    Associate(Flatten(PartsBytes(cat, [], parts)), StreamBytes(cat, [], segments), f.Header(), f.body);
  }

  /** The stream part in front of a copied big: the batch, the big's header and a stolen prefix. */
  function ChaperonePart(partNumber: nat, segments: seq<Segment>, id: FileId, k: nat): PartSpec {
    Stream(partNumber, segments + [CopiedFileHeader(id)] + if k > 0 then [StreamedBigPrefix(id, k)] else [])
  }

  lemma ChaperoneBytes(cat: Catalog, partNumber: nat, segments: seq<Segment>, f: SourceFile, k: nat)
    requires FileOf(cat, f.id) == f && k <= f.Size()
    ensures PartBytes(cat, [], ChaperonePart(partNumber, segments, f.id, k))
         == StreamBytes(cat, [], segments) + f.Header() + f.body[..k]
  {
    StreamAppend(cat, [], segments, CopiedFileHeader(f.id));
    if k > 0 {
      StreamAppend(cat, [], segments + [CopiedFileHeader(f.id)], StreamedBigPrefix(f.id, k));
    } else {
      assert segments + [CopiedFileHeader(f.id)] + [] == segments + [CopiedFileHeader(f.id)];
    }
  }

  /** Emitting the chaperone part and the copy of the rest of the big. */
  lemma EmitCopy(cat: Catalog, parts: seq<PartSpec>, segments: seq<Segment>, order: seq<FileId>, f: SourceFile, k: nat, n: nat)
    requires FileOf(cat, f.id) == f && k <= f.Size()
    requires Spelled(cat, parts, segments, order)
    ensures Spelled(cat, parts + [ChaperonePart(n, segments, f.id, k)] + [Copy(n + 1, f.id, k)], [], order + [f.id])
  {
    var chaperone, copy := ChaperonePart(n, segments, f.id, k), Copy(n + 1, f.id, k);
    var done, batch := Flatten(PartsBytes(cat, [], parts)), StreamBytes(cat, [], segments);
    OrderAppend(cat, order, f);
    ChaperoneBytes(cat, n, segments, f, k);
    PartsAppend(cat, [], parts, chaperone);
    PartsAppend(cat, [], parts + [chaperone], copy);
    SplitBody(done, batch, f.Header(), f.body, k);
  }

  lemma SplitBody(done: Octets, batch: Octets, header: Octets, body: Octets, k: nat)
    requires k <= |body|
    ensures (done + (batch + header + body[..k])) + body[k..] + [] == (done + batch) + header + body
  {
    assert body == body[..k] + body[k..];
  }

  /** Emitting the batch with the whole big streamed behind it. */
  lemma EmitFold(cat: Catalog, parts: seq<PartSpec>, segments: seq<Segment>, order: seq<FileId>, f: SourceFile, n: nat)
    requires FileOf(cat, f.id) == f
    requires Spelled(cat, parts, segments, order)
    ensures Spelled(cat, parts + [Stream(n, segments + [StreamedFile(f.id)])], [], order + [f.id])
  {
    SpellFile(cat, parts, segments, order, f);
    PartsAppend(cat, [], parts, Stream(n, segments + [StreamedFile(f.id)]));
  }

  /** Invariant of the emitted parts; `exhausted` says that no small is left. */
  ghost predicate Sound(cat: Catalog, parts: seq<PartSpec>, exhausted: bool) {
    && Numbered(parts)
    && forall k | 0 <= k < |parts| ::
      && AtLeastFloor(cat, parts[k]) && NoDirectory(parts[k]) && Frugal(cat, parts, k)
      && (LastResort(cat, parts[k]) ==> exhausted)
  }

  lemma SoundAppend(cat: Catalog, parts: seq<PartSpec>, p: PartSpec, before: bool, after: bool)
    requires Sound(cat, parts, before) && p.partNumber == |parts| + 1
    requires AtLeastFloor(cat, p) && NoDirectory(p)
    requires Steals(p) ==> |PartBytes(cat, [], p)| == PART_FLOOR
    requires Folds(cat, p) ==> |PartBytes(cat, [], p)| < 2 * PART_FLOOR
    requires (before ==> after) && (before ==> !StreamsSmall(cat, p)) && (LastResort(cat, p) ==> after)
    ensures Sound(cat, parts + [p], after)
  {
    var all := parts + [p];
    forall k | 0 <= k < |all|
      ensures AtLeastFloor(cat, all[k]) && NoDirectory(all[k]) && Frugal(cat, all, k)
      ensures LastResort(cat, all[k]) ==> after
    {
      if k < |parts| {
        assert Frugal(cat, parts, k);
      }
    }
  }

  /** A copy part streams nothing; only its size matters. */
  lemma SoundCopy(cat: Catalog, parts: seq<PartSpec>, f: SourceFile, k: nat, exhausted: bool)
    requires Sound(cat, parts, exhausted)
    requires FileOf(cat, f.id) == f && k + PART_FLOOR <= f.Size()
    ensures Sound(cat, parts + [Copy(|parts| + 1, f.id, k)], exhausted)
  {
    SoundAppend(cat, parts, Copy(|parts| + 1, f.id, k), exhausted, exhausted);
  }

  lemma ChaperoneCarries(cat: Catalog, n: nat, segments: seq<Segment>, f: SourceFile, k: nat)
    requires Batched(cat, segments)
    ensures var p := ChaperonePart(n, segments, f.id, k);
      && NoDirectory(p) && !Folds(cat, p)
      && (Steals(p) ==> k > 0)
      && (segments != [] ==> StreamsSmall(cat, p))
      && (segments == [] ==> !StreamsSmall(cat, p))
  {
    var p := ChaperonePart(n, segments, f.id, k);
    if segments != [] {
      assert Carries(p, segments[0]);
    }
  }

  /** The chaperone part clears the floor; if it steals, by exactly what was missing. */
  lemma SoundChaperone(cat: Catalog, parts: seq<PartSpec>, segments: seq<Segment>, f: SourceFile, k: nat, before: bool, after: bool)
    requires Sound(cat, parts, before) && Batched(cat, segments)
    requires FileOf(cat, f.id) == f && k <= f.Size()
    requires var size := |StreamBytes(cat, [], segments)| + LocalHeaderLen(f.name) + k;
      size >= PART_FLOOR && (k > 0 ==> size == PART_FLOOR)
    requires (before ==> segments == [] && after) && (k > 0 && segments == [] ==> after)
    ensures Sound(cat, parts + [ChaperonePart(|parts| + 1, segments, f.id, k)], after)
  {
    ChaperoneBytes(cat, |parts| + 1, segments, f, k);
    HeaderLength(f);
    ChaperoneCarries(cat, |parts| + 1, segments, f, k);
    SoundAppend(cat, parts, ChaperonePart(|parts| + 1, segments, f.id, k), before, after);
  }

  lemma FoldCarries(cat: Catalog, n: nat, segments: seq<Segment>, f: SourceFile)
    requires Batched(cat, segments) && FileOf(cat, f.id) == f && IsBig(f)
    ensures var p := Stream(n, segments + [StreamedFile(f.id)]);
      NoDirectory(p) && !Steals(p) && (segments == [] ==> !StreamsSmall(cat, p))
  {}

  /** A folded part is only emitted with no small left and holds less than two floors. */
  lemma SoundFold(cat: Catalog, parts: seq<PartSpec>, segments: seq<Segment>, f: SourceFile, before: bool)
    requires Sound(cat, parts, before) && Batched(cat, segments)
    requires FileOf(cat, f.id) == f && IsBig(f)
    requires |StreamBytes(cat, [], segments)| + LocalHeaderLen(f.name) + f.Size() < 2 * PART_FLOOR
    requires before ==> segments == []
    ensures Sound(cat, parts + [Stream(|parts| + 1, segments + [StreamedFile(f.id)])], true)
  {
    StreamAppend(cat, [], segments, StreamedFile(f.id));
    HeaderLength(f);
    FoldCarries(cat, |parts| + 1, segments, f);
    SoundAppend(cat, parts, Stream(|parts| + 1, segments + [StreamedFile(f.id)]), before, true);
  }

  // ---------- Counting copies ----------

  lemma CountAppend(parts: seq<PartSpec>, p: PartSpec)
    ensures CopyCount(parts + [p]) == CopyCount(parts) + if p.Copy? then 1 else 0
    ensures RangedCount(parts + [p]) == RangedCount(parts) + if p.Copy? && p.copyFrom > 0 then 1 else 0
  {
    assert (parts + [p])[..|parts|] == parts;
  }

  lemma CopiedAppend(parts: seq<PartSpec>, p: PartSpec, id: FileId)
    ensures Copied(parts + [p], id) <==> Copied(parts, id) || (p.Copy? && p.id == id)
  {
    var all := parts + [p];
    if Copied(parts, id) {
      var k :| 0 <= k < |parts| && parts[k].Copy? && parts[k].id == id;
      assert all[k].Copy? && all[k].id == id;
    }
    if p.Copy? && p.id == id {
      assert all[|parts|].Copy? && all[|parts|].id == id;
    }
    if Copied(all, id) {
      var k :| 0 <= k < |all| && all[k].Copy? && all[k].id == id;
      assert k < |parts| ==> parts[k].Copy? && parts[k].id == id;
    }
  }

  /** Which bigs are copied so far: the placed ones that were not folded. */
  ghost predicate CopiesPlaced(parts: seq<PartSpec>, placed: seq<SourceFile>, folded: set<FileId>) {
    && (forall f | f in placed :: Copied(parts, f.id) <==> f.id !in folded)
    && (forall id | Copied(parts, id) || id in folded :: exists f :: f in placed && f.id == id)
    && CopyCount(parts) + |folded| == |placed|
  }

  lemma PlaceCopy(parts: seq<PartSpec>, stream: PartSpec, copy: PartSpec, placed: seq<SourceFile>, folded: set<FileId>, f: SourceFile)
    requires CopiesPlaced(parts, placed, folded) && stream.Stream? && copy.Copy? && copy.id == f.id
    requires forall g | g in placed :: g.id != f.id
    ensures CopiesPlaced(parts + [stream] + [copy], placed + [f], folded)
  {
    CountAppend(parts, stream);
    CountAppend(parts + [stream], copy);
    forall id ensures Copied(parts + [stream] + [copy], id) <==> Copied(parts, id) || id == f.id {
      CopiedAppend(parts, stream, id);
      CopiedAppend(parts + [stream], copy, id);
    }
    assert f in placed + [f];
    forall g | g in placed ensures g in placed + [f] {}
  }

  lemma PlaceFold(parts: seq<PartSpec>, stream: PartSpec, placed: seq<SourceFile>, folded: set<FileId>, f: SourceFile)
    requires CopiesPlaced(parts, placed, folded) && stream.Stream?
    requires forall g | g in placed :: g.id != f.id
    ensures CopiesPlaced(parts + [stream], placed + [f], folded + {f.id})
  {
    CountAppend(parts, stream);
    forall id ensures Copied(parts + [stream], id) <==> Copied(parts, id) {
      CopiedAppend(parts, stream, id);
    }
    assert f in placed + [f];
    forall g | g in placed ensures g in placed + [f] {}
  }

  // ---------- The planner as a function of the sorted lists ----------

  datatype Batch = Batch(order: seq<FileId>, consumed: nat, segments: seq<Segment>, bytes: nat)

  /** Whether the batch may stop: the header clears the floor, a steal bridges the rest, or no small is left. */
  predicate BatchDone(smalls: seq<SourceFile>, headerBig: nat, maxSteal: nat, b: Batch) {
    || b.bytes + headerBig >= PART_FLOOR
    || (PART_FLOOR - (b.bytes + headerBig) <= maxSteal && (b.segments != [] || b.consumed >= |smalls|))
    || b.consumed >= |smalls|
  }

  function AddSmall(b: Batch, small: SourceFile): Batch {
    Batch(b.order + [small.id], b.consumed + 1, b.segments + [StreamedFile(small.id)],
          b.bytes + LocalHeaderLen(small.name) + small.Size())
  }

  function Pull(smalls: seq<SourceFile>, headerBig: nat, maxSteal: nat, b: Batch): Batch
    decreases |smalls| - b.consumed
  {
    if BatchDone(smalls, headerBig, maxSteal, b) then b
    else Pull(smalls, headerBig, maxSteal, AddSmall(b, smalls[b.consumed]))
  }

  datatype Progress = Progress(order: seq<FileId>, parts: seq<PartSpec>, consumed: nat, folded: set<FileId>, stolen: nat)

  const NOTHING: Progress := Progress([], [], 0, {}, 0)

  function BatchFor(p: Progress, smalls: seq<SourceFile>, big: SourceFile): Batch {
    Pull(smalls, LocalHeaderLen(big.name), Minus(big.Size(), PART_FLOOR), Batch(p.order, p.consumed, [], 0))
  }

  /** The number of body bytes stolen from a big behind a batch. */
  function Stolen(smalls: seq<SourceFile>, big: SourceFile, b: Batch): nat {
    if b.segments != [] || b.consumed >= |smalls|
    then Least(Minus(PART_FLOOR, b.bytes + LocalHeaderLen(big.name)), Minus(big.Size(), PART_FLOOR))
    else 0
  }

  predicate ClearsFloor(smalls: seq<SourceFile>, big: SourceFile, b: Batch) {
    b.bytes + LocalHeaderLen(big.name) + Stolen(smalls, big, b) >= PART_FLOOR
  }

  /** The decision behind a finished batch: steal and copy, or fold. */
  function Emit(p: Progress, smalls: seq<SourceFile>, big: SourceFile, b: Batch): Progress {
    var k := Stolen(smalls, big, b);
    var n := |p.parts| + 1;
    if ClearsFloor(smalls, big, b) then
      Progress(b.order + [big.id],
               p.parts + [ChaperonePart(n, b.segments, big.id, k)] + [Copy(n + 1, big.id, k)],
               b.consumed, p.folded, p.stolen + if k > 0 then 1 else 0)
    else
      Progress(b.order + [big.id], p.parts + [Stream(n, b.segments + [StreamedFile(big.id)])],
               b.consumed, p.folded + {big.id}, p.stolen)
  }

  /** One turn of the loop over the bigs. */
  function PlaceBig(p: Progress, smalls: seq<SourceFile>, big: SourceFile): Progress {
    Emit(p, smalls, big, BatchFor(p, smalls, big))
  }

  function PlaceBigs(bigs: seq<SourceFile>, smalls: seq<SourceFile>): Progress {
    if bigs == [] then NOTHING
    else PlaceBig(PlaceBigs(bigs[..|bigs| - 1], smalls), smalls, bigs[|bigs| - 1])
  }

  // ---------- What a batch keeps ----------

  lemma TakeNext<T>(s: seq<T>, i: nat)
    requires i < |s|
    ensures s[..i] + [s[i]] == s[..i + 1]
  {}

  lemma {:induction false} PullStops(smalls: seq<SourceFile>, headerBig: nat, maxSteal: nat, b: Batch)
    requires b.consumed <= |smalls|
    ensures var r := Pull(smalls, headerBig, maxSteal, b);
      && BatchDone(smalls, headerBig, maxSteal, r)
      && b.consumed <= r.consumed <= |smalls|
      && |r.segments| - |b.segments| == r.consumed - b.consumed
    decreases |smalls| - b.consumed
  {
    if !BatchDone(smalls, headerBig, maxSteal, b) {
      PullStops(smalls, headerBig, maxSteal, AddSmall(b, smalls[b.consumed]));
    }
  }

  lemma {:induction false} PullSpells(cat: Catalog, parts: seq<PartSpec>, smalls: seq<SourceFile>, headerBig: nat, maxSteal: nat, b: Batch)
    requires Known(cat, smalls, false) && b.consumed <= |smalls|
    requires Spelled(cat, parts, b.segments, b.order) && b.bytes == |StreamBytes(cat, [], b.segments)|
    ensures var r := Pull(smalls, headerBig, maxSteal, b);
      Spelled(cat, parts, r.segments, r.order) && r.bytes == |StreamBytes(cat, [], r.segments)|
    decreases |smalls| - b.consumed
  {
    if !BatchDone(smalls, headerBig, maxSteal, b) {
      var small := smalls[b.consumed];
      assert small in smalls;
      SpellFile(cat, parts, b.segments, b.order, small);
      PullSpells(cat, parts, smalls, headerBig, maxSteal, AddSmall(b, small));
    }
  }

  lemma {:induction false} PullConsumes(cat: Catalog, bigs: seq<SourceFile>, smalls: seq<SourceFile>, headerBig: nat, maxSteal: nat, b: Batch)
    requires Known(cat, smalls, false) && b.consumed <= |smalls|
    requires Consumed(cat, b.order, bigs, smalls[..b.consumed]) && Batched(cat, b.segments)
    ensures var r := Pull(smalls, headerBig, maxSteal, b);
      r.consumed <= |smalls| && Consumed(cat, r.order, bigs, smalls[..r.consumed]) && Batched(cat, r.segments)
    decreases |smalls| - b.consumed
  {
    if !BatchDone(smalls, headerBig, maxSteal, b) {
      var small := smalls[b.consumed];
      assert small in smalls;
      TakeNext(smalls, b.consumed);
      Consume(cat, b.order, bigs, smalls[..b.consumed], small);
      PullConsumes(cat, bigs, smalls, headerBig, maxSteal, AddSmall(b, small));
    }
  }

  // ---------- How much a batch draws ----------

  /** Headers and bodies of so many files. */
  function EntriesSize(files: seq<SourceFile>): nat {
    if files == [] then 0
    else EntriesSize(files[..|files| - 1]) + LocalHeaderLen(files[|files| - 1].name) + files[|files| - 1].Size()
  }

  /** The floor is reached by header and smalls alone, or by stealing what the big can spare. */
  predicate Bridges(bytes: nat, headerBig: nat, maxSteal: nat) { bytes + headerBig + maxSteal >= PART_FLOOR }

  /**
   * The smalls from `first` to `last` are as few as serve the big: at least one if there is one and the
   * header does not clear the floor alone, no more than bridge the floor, and fewer only when they run out.
   */
  ghost predicate Fewest(smalls: seq<SourceFile>, headerBig: nat, maxSteal: nat, first: nat, last: nat)
    requires first <= last <= |smalls|
  {
    && (last > first ==> headerBig < PART_FLOOR)
    && (forall j | first < j < last :: !Bridges(EntriesSize(smalls[first..j]), headerBig, maxSteal))
    && (last == |smalls| || headerBig >= PART_FLOOR
        || (last > first && Bridges(EntriesSize(smalls[first..last]), headerBig, maxSteal)))
  }

  lemma EntriesNext(smalls: seq<SourceFile>, first: nat, j: nat)
    requires first <= j < |smalls|
    ensures EntriesSize(smalls[first..j + 1]) == EntriesSize(smalls[first..j]) + LocalHeaderLen(smalls[j].name) + smalls[j].Size()
  {
    assert smalls[first..j + 1][..j - first] == smalls[first..j];
  }

  /** What has been drawn when `b` is reached, without anything having been enough before. */
  ghost predicate Drawing(smalls: seq<SourceFile>, headerBig: nat, maxSteal: nat, first: nat, b: Batch) {
    && first <= b.consumed <= |smalls| && b.bytes == EntriesSize(smalls[first..b.consumed])
    && (b.segments != [] <==> b.consumed > first) && (b.consumed > first ==> headerBig < PART_FLOOR)
    && forall j | first < j < b.consumed :: !Bridges(EntriesSize(smalls[first..j]), headerBig, maxSteal)
  }

  lemma {:induction false} PullDrawsFewest(smalls: seq<SourceFile>, headerBig: nat, maxSteal: nat, first: nat, b: Batch)
    requires Drawing(smalls, headerBig, maxSteal, first, b)
    ensures var r := Pull(smalls, headerBig, maxSteal, b);
      Drawing(smalls, headerBig, maxSteal, first, r) && Fewest(smalls, headerBig, maxSteal, first, r.consumed)
    decreases |smalls| - b.consumed
  {
    if !BatchDone(smalls, headerBig, maxSteal, b) {
      EntriesNext(smalls, first, b.consumed);
      PullDrawsFewest(smalls, headerBig, maxSteal, first, AddSmall(b, smalls[b.consumed]));
    }
  }

  /** The batch of a big draws the fewest smalls from where the last one stopped. */
  lemma BatchDrawsFewest(smalls: seq<SourceFile>, headerBig: nat, maxSteal: nat, order: seq<FileId>, first: nat)
    requires first <= |smalls|
    ensures var r := Pull(smalls, headerBig, maxSteal, Batch(order, first, [], 0));
      && first <= r.consumed <= |smalls| && r.bytes == EntriesSize(smalls[first..r.consumed])
      && Fewest(smalls, headerBig, maxSteal, first, r.consumed)
  {
    assert smalls[first..first] == [];
    PullDrawsFewest(smalls, headerBig, maxSteal, first, Batch(order, first, [], 0));
  }

  // ---------- What one turn keeps ----------

  lemma EmitSpells(cat: Catalog, p: Progress, smalls: seq<SourceFile>, big: SourceFile, b: Batch)
    requires FileOf(cat, big.id) == big && IsBig(big)
    requires Spelled(cat, p.parts, b.segments, b.order)
    ensures Spelled(cat, Emit(p, smalls, big, b).parts, [], Emit(p, smalls, big, b).order)
  {
    EmittedSpells(cat, p.parts, b, big, Stolen(smalls, big, b), |p.parts| + 1);
    EmittedParts(p, smalls, big, b);
  }

  lemma EmittedParts(p: Progress, smalls: seq<SourceFile>, big: SourceFile, b: Batch)
    ensures Emit(p, smalls, big, b).order == b.order + [big.id]
    ensures Emit(p, smalls, big, b).parts
         == if ClearsFloor(smalls, big, b) then CopiedParts(p.parts, b, big, Stolen(smalls, big, b), |p.parts| + 1)
            else FoldedParts(p.parts, b, big, |p.parts| + 1)
  {}

  function CopiedParts(parts: seq<PartSpec>, b: Batch, big: SourceFile, k: nat, n: nat): seq<PartSpec> {
    parts + [ChaperonePart(n, b.segments, big.id, k)] + [Copy(n + 1, big.id, k)]
  }

  function FoldedParts(parts: seq<PartSpec>, b: Batch, big: SourceFile, n: nat): seq<PartSpec> {
    parts + [Stream(n, b.segments + [StreamedFile(big.id)])]
  }

  /** Copied or folded, the big is spelled out behind the batch. */
  lemma EmittedSpells(cat: Catalog, parts: seq<PartSpec>, b: Batch, big: SourceFile, k: nat, n: nat)
    requires FileOf(cat, big.id) == big && k <= big.Size()
    requires Spelled(cat, parts, b.segments, b.order)
    ensures Spelled(cat, CopiedParts(parts, b, big, k, n), [], b.order + [big.id])
    ensures Spelled(cat, FoldedParts(parts, b, big, n), [], b.order + [big.id])
  {
    EmitCopy(cat, parts, b.segments, b.order, big, k, n);
    EmitFold(cat, parts, b.segments, b.order, big, n);
  }

  lemma TurnSpells(cat: Catalog, p: Progress, smalls: seq<SourceFile>, big: SourceFile)
    requires Known(cat, smalls, false) && p.consumed <= |smalls|
    requires FileOf(cat, big.id) == big && IsBig(big)
    requires Spelled(cat, p.parts, [], p.order)
    ensures Spelled(cat, PlaceBig(p, smalls, big).parts, [], PlaceBig(p, smalls, big).order)
  {
    PullSpells(cat, p.parts, smalls, LocalHeaderLen(big.name), Minus(big.Size(), PART_FLOOR), Batch(p.order, p.consumed, [], 0));
    EmitSpells(cat, p, smalls, big, BatchFor(p, smalls, big));
  }

  lemma TurnConsumes(cat: Catalog, p: Progress, bigs: seq<SourceFile>, smalls: seq<SourceFile>, big: SourceFile)
    requires Known(cat, smalls, false) && p.consumed <= |smalls|
    requires FileOf(cat, big.id) == big && IsBig(big)
    requires Consumed(cat, p.order, bigs, smalls[..p.consumed])
    ensures var q := PlaceBig(p, smalls, big);
      q.consumed <= |smalls| && Consumed(cat, q.order, bigs + [big], smalls[..q.consumed])
  {
    var b := BatchFor(p, smalls, big);
    PullConsumes(cat, bigs, smalls, LocalHeaderLen(big.name), Minus(big.Size(), PART_FLOOR), Batch(p.order, p.consumed, [], 0));
    Consume(cat, b.order, bigs, smalls[..b.consumed], big);
  }

  /** How a batch ended, in the terms of the two branches behind it. */
  lemma TurnBatch(cat: Catalog, p: Progress, smalls: seq<SourceFile>, big: SourceFile)
    requires Known(cat, smalls, false) && p.consumed <= |smalls|
    ensures var b := BatchFor(p, smalls, big);
      && p.consumed <= b.consumed <= |smalls| && (b.segments == [] <==> b.consumed == p.consumed)
      && Batched(cat, b.segments) && b.bytes == |StreamBytes(cat, [], b.segments)|
  {
    var headerBig, maxSteal := LocalHeaderLen(big.name), Minus(big.Size(), PART_FLOOR);
    var start := Batch(p.order, p.consumed, [], 0);
    PullStops(smalls, headerBig, maxSteal, start);
    PullBatches(cat, smalls, headerBig, maxSteal, start);
  }

  lemma {:induction false} PullBatches(cat: Catalog, smalls: seq<SourceFile>, headerBig: nat, maxSteal: nat, b: Batch)
    requires Known(cat, smalls, false) && b.consumed <= |smalls|
    requires Batched(cat, b.segments) && b.bytes == |StreamBytes(cat, [], b.segments)|
    ensures var r := Pull(smalls, headerBig, maxSteal, b);
      Batched(cat, r.segments) && r.bytes == |StreamBytes(cat, [], r.segments)|
    decreases |smalls| - b.consumed
  {
    if !BatchDone(smalls, headerBig, maxSteal, b) {
      var small := smalls[b.consumed];
      assert small in smalls;
      StreamAppend(cat, [], b.segments, StreamedFile(small.id));
      HeaderLength(small);
      PullBatches(cat, smalls, headerBig, maxSteal, AddSmall(b, small));
    }
  }

  /** The arithmetic of the decision behind a finished batch. */
  lemma Decision(smalls: seq<SourceFile>, big: SourceFile, b: Batch)
    requires IsBig(big) && BatchDone(smalls, LocalHeaderLen(big.name), Minus(big.Size(), PART_FLOOR), b)
    ensures var k := Stolen(smalls, big, b);
            var size := b.bytes + LocalHeaderLen(big.name) + k;
      && (ClearsFloor(smalls, big, b) ==>
        k + PART_FLOOR <= big.Size() && size >= PART_FLOOR && (k > 0 ==> size == PART_FLOOR)
        && (k > 0 && b.segments == [] ==> b.consumed >= |smalls|))
      && (!ClearsFloor(smalls, big, b) ==>
        b.bytes + LocalHeaderLen(big.name) + big.Size() < 2 * PART_FLOOR && b.consumed >= |smalls|)
  {}

  lemma TurnSound(cat: Catalog, p: Progress, smalls: seq<SourceFile>, big: SourceFile)
    requires Known(cat, smalls, false) && p.consumed <= |smalls|
    requires FileOf(cat, big.id) == big && IsBig(big)
    requires Sound(cat, p.parts, p.consumed == |smalls|)
    ensures Sound(cat, PlaceBig(p, smalls, big).parts, PlaceBig(p, smalls, big).consumed == |smalls|)
  {
    TurnBatch(cat, p, smalls, big);
    PullStops(smalls, LocalHeaderLen(big.name), Minus(big.Size(), PART_FLOOR), Batch(p.order, p.consumed, [], 0));
    EmitSound(cat, p, smalls, big, BatchFor(p, smalls, big));
  }

  lemma EmitSound(cat: Catalog, p: Progress, smalls: seq<SourceFile>, big: SourceFile, b: Batch)
    requires FileOf(cat, big.id) == big && IsBig(big)
    requires Sound(cat, p.parts, p.consumed == |smalls|)
    requires p.consumed <= b.consumed <= |smalls| && (b.segments == [] <==> b.consumed == p.consumed)
    requires Batched(cat, b.segments) && b.bytes == |StreamBytes(cat, [], b.segments)|
    requires BatchDone(smalls, LocalHeaderLen(big.name), Minus(big.Size(), PART_FLOOR), b)
    ensures Sound(cat, Emit(p, smalls, big, b).parts, b.consumed == |smalls|)
  {
    Decision(smalls, big, b);
    if ClearsFloor(smalls, big, b) {
      EmitSoundCopy(cat, p, smalls, big, b);
    } else {
      SoundFold(cat, p.parts, b.segments, big, p.consumed == |smalls|);
    }
  }

  lemma EmitSoundCopy(cat: Catalog, p: Progress, smalls: seq<SourceFile>, big: SourceFile, b: Batch)
    requires FileOf(cat, big.id) == big && IsBig(big)
    requires Sound(cat, p.parts, p.consumed == |smalls|)
    requires p.consumed <= b.consumed <= |smalls| && (b.segments == [] <==> b.consumed == p.consumed)
    requires Batched(cat, b.segments) && b.bytes == |StreamBytes(cat, [], b.segments)|
    requires BatchDone(smalls, LocalHeaderLen(big.name), Minus(big.Size(), PART_FLOOR), b)
    requires ClearsFloor(smalls, big, b)
    ensures Sound(cat, Emit(p, smalls, big, b).parts, b.consumed == |smalls|)
  {
    var k := Stolen(smalls, big, b);
    Decision(smalls, big, b);
    TurnSoundCopy(cat, p.parts, b.segments, big, k, p.consumed == |smalls|, b.consumed == |smalls|);
  }

  lemma TurnSoundCopy(cat: Catalog, parts: seq<PartSpec>, segments: seq<Segment>, f: SourceFile, k: nat, before: bool, after: bool)
    requires Sound(cat, parts, before) && Batched(cat, segments)
    requires FileOf(cat, f.id) == f && k + PART_FLOOR <= f.Size()
    requires var size := |StreamBytes(cat, [], segments)| + LocalHeaderLen(f.name) + k;
      size >= PART_FLOOR && (k > 0 ==> size == PART_FLOOR)
    requires (before ==> segments == [] && after) && (k > 0 && segments == [] ==> after)
    ensures Sound(cat, parts + [ChaperonePart(|parts| + 1, segments, f.id, k)] + [Copy(|parts| + 2, f.id, k)], after)
  {
    SoundChaperone(cat, parts, segments, f, k, before, after);
    SoundCopy(cat, parts + [ChaperonePart(|parts| + 1, segments, f.id, k)], f, k, after);
  }

  lemma TurnCounts(p: Progress, bigs: seq<SourceFile>, smalls: seq<SourceFile>, big: SourceFile)
    requires CopiesPlaced(p.parts, bigs, p.folded) && p.stolen == RangedCount(p.parts)
    requires forall g | g in bigs :: g.id != big.id
    ensures var q := PlaceBig(p, smalls, big);
      CopiesPlaced(q.parts, bigs + [big], q.folded) && q.stolen == RangedCount(q.parts)
  {
    var b := BatchFor(p, smalls, big);
    var k := Stolen(smalls, big, b);
    var n := |p.parts| + 1;
    if ClearsFloor(smalls, big, b) {
      var chaperone, copy := ChaperonePart(n, b.segments, big.id, k), Copy(n + 1, big.id, k);
      PlaceCopy(p.parts, chaperone, copy, bigs, p.folded, big);
      CountAppend(p.parts, chaperone);
      CountAppend(p.parts + [chaperone], copy);
    } else {
      var fold := Stream(n, b.segments + [StreamedFile(big.id)]);
      PlaceFold(p.parts, fold, bigs, p.folded, big);
      CountAppend(p.parts, fold);
    }
  }

  // ---------- The whole loop ----------

  lemma KnownLast(cat: Catalog, bigs: seq<SourceFile>)
    requires Known(cat, bigs, true) && DistinctIds(bigs) && bigs != []
    ensures var last := bigs[|bigs| - 1];
      FileOf(cat, last.id) == last && IsBig(last) && forall g | g in bigs[..|bigs| - 1] :: g.id != last.id
    ensures Known(cat, bigs[..|bigs| - 1], true) && DistinctIds(bigs[..|bigs| - 1])
    ensures bigs == bigs[..|bigs| - 1] + [bigs[|bigs| - 1]]
  {
    assert bigs[|bigs| - 1] in bigs;
  }

  /** The parts and the order built by the loop stand for the same bytes, and use each file once. */
  lemma {:induction false} LoopPlaces(cat: Catalog, bigs: seq<SourceFile>, smalls: seq<SourceFile>)
    requires Known(cat, bigs, true) && Known(cat, smalls, false) && DistinctIds(bigs)
    ensures var p := PlaceBigs(bigs, smalls);
      && p.consumed <= |smalls|
      && Spelled(cat, p.parts, [], p.order)
      && Consumed(cat, p.order, bigs, smalls[..p.consumed])
  {
    if bigs != [] {
      var front, last := bigs[..|bigs| - 1], bigs[|bigs| - 1];
      KnownLast(cat, bigs);
      LoopPlaces(cat, front, smalls);
      TurnSpells(cat, PlaceBigs(front, smalls), smalls, last);
      TurnConsumes(cat, PlaceBigs(front, smalls), front, smalls, last);
    } else {
      assert smalls[..0] == [];
    }
  }

  /** Every emitted part meets the floor and the cost rules, and every big is copied once or folded. */
  lemma {:induction false} LoopSound(cat: Catalog, bigs: seq<SourceFile>, smalls: seq<SourceFile>)
    requires Known(cat, bigs, true) && Known(cat, smalls, false) && DistinctIds(bigs)
    ensures var p := PlaceBigs(bigs, smalls);
      && p.consumed <= |smalls|
      && Sound(cat, p.parts, p.consumed == |smalls|)
      && CopiesPlaced(p.parts, bigs, p.folded) && p.stolen == RangedCount(p.parts)
  {
    if bigs != [] {
      var front, last := bigs[..|bigs| - 1], bigs[|bigs| - 1];
      KnownLast(cat, bigs);
      LoopSound(cat, front, smalls);
      TurnBatch(cat, PlaceBigs(front, smalls), smalls, last);
      TurnSound(cat, PlaceBigs(front, smalls), smalls, last);
      TurnCounts(PlaceBigs(front, smalls), front, smalls, last);
    }
  }

  // ---------- No part draws a small too many ----------

  /** The header of a copied big, or a folded big: what the smalls in front of it were drawn for. */
  predicate Serves(cat: Catalog, s: Segment) {
    s.CopiedFileHeader? || (s.StreamedFile? && IsBig(FileOf(cat, s.id)))
  }

  /** Without its last small a batch of two or more could not have served the big `f`. */
  ghost predicate SparingFor(cat: Catalog, segments: seq<Segment>, n: nat, f: SourceFile)
    requires n <= |segments|
  {
    && (n > 0 ==> LocalHeaderLen(f.name) < PART_FLOOR)
    && forall j | 0 < j < n ::
      |StreamBytes(cat, [], segments[..j])| + LocalHeaderLen(f.name) + Minus(f.Size(), PART_FLOOR) < PART_FLOOR
  }

  ghost predicate Sparing(cat: Catalog, part: PartSpec) {
    part.Stream? ==> forall i | 0 <= i < |part.segments| && Serves(cat, part.segments[i]) ::
      SparingFor(cat, part.segments, i, FileOf(cat, part.segments[i].id))
  }

  ghost predicate AllSparing(cat: Catalog, parts: seq<PartSpec>) {
    forall k | 0 <= k < |parts| :: Sparing(cat, parts[k])
  }

  lemma SameFront(segments: seq<Segment>, s: Segment, j: nat)
    requires j <= |segments|
    ensures (segments + [s])[..j] == segments[..j]
  {}

  lemma SmallNext(cat: Catalog, segments: seq<Segment>, small: SourceFile, f: SourceFile)
    requires SparingFor(cat, segments, |segments|, f) && LocalHeaderLen(f.name) < PART_FLOOR
    requires segments != [] ==> |StreamBytes(cat, [], segments)| + LocalHeaderLen(f.name) + Minus(f.Size(), PART_FLOOR) < PART_FLOOR
    ensures SparingFor(cat, segments + [StreamedFile(small.id)], |segments| + 1, f)
  {
    var all := segments + [StreamedFile(small.id)];
    assert segments[..|segments|] == segments;
    forall j | 0 < j < |all|
      ensures |StreamBytes(cat, [], all[..j])| + LocalHeaderLen(f.name) + Minus(f.Size(), PART_FLOOR) < PART_FLOOR
    {
      SameFront(segments, StreamedFile(small.id), j);
    }
  }

  lemma {:induction false} PullSpares(cat: Catalog, smalls: seq<SourceFile>, f: SourceFile, b: Batch)
    requires Known(cat, smalls, false) && b.consumed <= |smalls|
    requires b.bytes == |StreamBytes(cat, [], b.segments)| && SparingFor(cat, b.segments, |b.segments|, f)
    ensures var r := Pull(smalls, LocalHeaderLen(f.name), Minus(f.Size(), PART_FLOOR), b);
      SparingFor(cat, r.segments, |r.segments|, f)
    decreases |smalls| - b.consumed
  {
    if !BatchDone(smalls, LocalHeaderLen(f.name), Minus(f.Size(), PART_FLOOR), b) {
      var small := smalls[b.consumed];
      assert small in smalls;
      StreamAppend(cat, [], b.segments, StreamedFile(small.id));
      HeaderLength(small);
      SmallNext(cat, b.segments, small, f);
      PullSpares(cat, smalls, f, AddSmall(b, small));
    }
  }

  lemma AtTail(cat: Catalog, segments: seq<Segment>, tail: seq<Segment>, i: nat)
    requires Batched(cat, segments) && tail != [] && forall s | s in tail[1..] :: !Serves(cat, s)
    requires i < |segments + tail| && i != |segments|
    ensures !Serves(cat, (segments + tail)[i])
  {
    if i < |segments| {
      assert (segments + tail)[i] in segments;
    } else {
      assert (segments + tail)[i] in tail[1..];
    }
  }

  /** Behind a batch of smalls only the big they were drawn for is served. */
  lemma TailSpares(cat: Catalog, n: nat, segments: seq<Segment>, tail: seq<Segment>, f: SourceFile)
    requires Batched(cat, segments) && SparingFor(cat, segments, |segments|, f) && FileOf(cat, f.id) == f
    requires tail != [] && Serves(cat, tail[0]) && tail[0].id == f.id
    requires forall s | s in tail[1..] :: !Serves(cat, s)
    ensures Sparing(cat, Stream(n, segments + tail))
  {
    var all := segments + tail;
    forall i | 0 <= i < |all| && i != |segments| ensures !Serves(cat, all[i]) {
      AtTail(cat, segments, tail, i);
    }
    forall j | 0 < j < |segments| ensures all[..j] == segments[..j] {}
  }

  lemma ChaperoneSpares(cat: Catalog, n: nat, segments: seq<Segment>, f: SourceFile, k: nat)
    requires Batched(cat, segments) && SparingFor(cat, segments, |segments|, f) && FileOf(cat, f.id) == f
    ensures Sparing(cat, ChaperonePart(n, segments, f.id, k))
  {
    var tail := [CopiedFileHeader(f.id)] + if k > 0 then [StreamedBigPrefix(f.id, k)] else [];
    assert segments + tail == segments + [CopiedFileHeader(f.id)] + if k > 0 then [StreamedBigPrefix(f.id, k)] else [];
    TailSpares(cat, n, segments, tail, f);
  }

  lemma FoldSpares(cat: Catalog, n: nat, segments: seq<Segment>, f: SourceFile)
    requires Batched(cat, segments) && SparingFor(cat, segments, |segments|, f) && FileOf(cat, f.id) == f && IsBig(f)
    ensures Sparing(cat, Stream(n, segments + [StreamedFile(f.id)]))
  {
    TailSpares(cat, n, segments, [StreamedFile(f.id)], f);
  }

  lemma EmitSpares(cat: Catalog, p: Progress, smalls: seq<SourceFile>, big: SourceFile, b: Batch)
    requires AllSparing(cat, p.parts) && FileOf(cat, big.id) == big && IsBig(big)
    requires Batched(cat, b.segments) && SparingFor(cat, b.segments, |b.segments|, big)
    ensures AllSparing(cat, Emit(p, smalls, big, b).parts)
  {
    EmittedParts(p, smalls, big, b);
    ChaperoneSpares(cat, |p.parts| + 1, b.segments, big, Stolen(smalls, big, b));
    FoldSpares(cat, |p.parts| + 1, b.segments, big);
  }

  lemma TurnSpares(cat: Catalog, p: Progress, smalls: seq<SourceFile>, big: SourceFile)
    requires Known(cat, smalls, false) && p.consumed <= |smalls| && FileOf(cat, big.id) == big && IsBig(big)
    requires AllSparing(cat, p.parts)
    ensures AllSparing(cat, PlaceBig(p, smalls, big).parts)
  {
    TurnBatch(cat, p, smalls, big);
    PullSpares(cat, smalls, big, Batch(p.order, p.consumed, [], 0));
    EmitSpares(cat, p, smalls, big, BatchFor(p, smalls, big));
  }

  lemma {:induction false} LoopSpares(cat: Catalog, bigs: seq<SourceFile>, smalls: seq<SourceFile>)
    requires Known(cat, bigs, true) && Known(cat, smalls, false) && DistinctIds(bigs)
    ensures AllSparing(cat, PlaceBigs(bigs, smalls).parts)
  {
    if bigs != [] {
      var front, last := bigs[..|bigs| - 1], bigs[|bigs| - 1];
      KnownLast(cat, bigs);
      LoopSpares(cat, front, smalls);
      ConsumedBound(front, smalls);
      TurnSpares(cat, PlaceBigs(front, smalls), smalls, last);
    }
  }

  // ---------- The finished plan ----------

  function Ids(files: seq<SourceFile>): (ids: seq<FileId>)
    ensures |ids| == |files|
  {
    if files == [] then [] else Ids(files[..|files| - 1]) + [files[|files| - 1].id]
  }

  function Streamed(files: seq<SourceFile>): (segments: seq<Segment>)
    ensures |segments| == |files|
  {
    if files == [] then [] else Streamed(files[..|files| - 1]) + [StreamedFile(files[|files| - 1].id)]
  }

  /** The running sum behind `compute_offsets`. */
  function RunningTotal(cat: Catalog, order: seq<FileId>): nat {
    if order == [] then 0
    else
      var f := FileOf(cat, order[|order| - 1]);
      RunningTotal(cat, order[..|order| - 1]) + LocalHeaderLen(f.name) + f.Size()
  }

  function ComputeOffsets(cat: Catalog, order: seq<FileId>): (offsets: seq<nat>)
    ensures |offsets| == |order|
  {
    if order == [] then []
    else
      var front := order[..|order| - 1];
      ComputeOffsets(cat, front) + [RunningTotal(cat, front)]
  }

  function EntryFor(cat: Catalog, id: FileId, offset: nat, folded: set<FileId>): Entry {
    var f := FileOf(cat, id);
    Entry(id, f.name, f.Size(), offset, !(IsBig(f) && id !in folded))
  }

  function EntryTable(cat: Catalog, order: seq<FileId>, folded: set<FileId>): map<FileId, Entry> {
    if order == [] then map[]
    else
      var last := |order| - 1;
      EntryTable(cat, order[..last], folded)
        [order[last] := EntryFor(cat, order[last], ComputeOffsets(cat, order)[last], folded)]
  }

  function NotFolded(bigs: seq<SourceFile>, folded: set<FileId>): seq<FileId> {
    if bigs == [] then []
    else
      var id := bigs[|bigs| - 1].id;
      NotFolded(bigs[..|bigs| - 1], folded) + if id in folded then [] else [id]
  }

  function Bigs(files: seq<SourceFile>): seq<SourceFile> {
    Sort(LargestFirst, Filter(files, true))
  }

  function Smalls(files: seq<SourceFile>): seq<SourceFile> {
    Sort(SmallestFirst, Filter(files, false))
  }

  predicate Viable(files: seq<SourceFile>) {
    Bigs(files) != [] && TotalSize(Bigs(files)) + TotalSize(Smalls(files)) >= VIABILITY_MIN_TOTAL
  }

  function FinalParts(p: Progress, leftovers: seq<SourceFile>): seq<PartSpec> {
    p.parts + [Stream(|p.parts| + 1, Streamed(leftovers) + [CentralDirectory])]
  }

  function Finish(cat: Catalog, bigs: seq<SourceFile>, smalls: seq<SourceFile>, p: Progress): Plan
    requires p.consumed <= |smalls|
  {
    var leftovers := smalls[p.consumed..];
    var order := p.order + Ids(leftovers);
    var parts := FinalParts(p, leftovers);
    var copies := CopyCount(parts);
    Plan(order, EntryTable(cat, order, p.folded), parts, NotFolded(bigs, p.folded),
         PlanStats(|order|, |parts|, copies, Minus(|parts|, copies), |p.folded|, p.stolen, |bigs|, |smalls|))
  }

  lemma {:induction false} ConsumedBound(bigs: seq<SourceFile>, smalls: seq<SourceFile>)
    ensures PlaceBigs(bigs, smalls).consumed <= |smalls|
  {
    if bigs != [] {
      var p := PlaceBigs(bigs[..|bigs| - 1], smalls);
      var big := bigs[|bigs| - 1];
      ConsumedBound(bigs[..|bigs| - 1], smalls);
      PullStops(smalls, LocalHeaderLen(big.name), Minus(big.Size(), PART_FLOOR), Batch(p.order, p.consumed, [], 0));
    }
  }

  function PlanOf(files: seq<SourceFile>): Plan {
    ConsumedBound(Bigs(files), Smalls(files));
    Finish(CatalogOf(files), Bigs(files), Smalls(files), PlaceBigs(Bigs(files), Smalls(files)))
  }

  /** The inner loop: pulls smalls into the batch of one big. */
  method FillBatch(smalls: seq<SourceFile>, headerBig: nat, maxSteal: nat, order0: seq<FileId>, next0: nat)
    returns (order: seq<FileId>, next: nat, curSegs: seq<Segment>, curBytes: nat)
    requires next0 <= |smalls|
    ensures Batch(order, next, curSegs, curBytes) == Pull(smalls, headerBig, maxSteal, Batch(order0, next0, [], 0))
    ensures next0 <= next <= |smalls| && (curSegs != [] <==> next > next0)
    ensures curBytes == EntriesSize(smalls[next0..next]) && Fewest(smalls, headerBig, maxSteal, next0, next)
  {
    BatchDrawsFewest(smalls, headerBig, maxSteal, order0, next0);
    order, next, curSegs, curBytes := order0, next0, [], 0;
    var pulledSmall := false;
    while true
      invariant next0 <= next <= |smalls| && (pulledSmall <==> curSegs != []) && (pulledSmall <==> next > next0)
      invariant Pull(smalls, headerBig, maxSteal, Batch(order, next, curSegs, curBytes))
             == Pull(smalls, headerBig, maxSteal, Batch(order0, next0, [], 0))
      decreases |smalls| - next
    {
      var withHeader := curBytes + headerBig;
      if withHeader >= PART_FLOOR {
        break;
      }
      var gap := PART_FLOOR - withHeader;
      var smallsLeft := next < |smalls|;
      if gap <= maxSteal && (pulledSmall || !smallsLeft) {
        break;
      }
      if smallsLeft {
        var small := smalls[next];
        curSegs := curSegs + [StreamedFile(small.id)];
        order := order + [small.id];
        curBytes := curBytes + LocalHeaderLen(small.name) + small.Size();
        next := next + 1;
        pulledSmall := true;
      } else {
        break;
      }
    }
  }

  lemma BigsNext(bigs: seq<SourceFile>, smalls: seq<SourceFile>, i: nat, p: Progress, b: Batch)
    requires i < |bigs| && p == PlaceBigs(bigs[..i], smalls) && b == BatchFor(p, smalls, bigs[i])
    ensures PlaceBigs(bigs[..i + 1], smalls) == Emit(p, smalls, bigs[i], b)
  {
    assert bigs[..i + 1][..i] == bigs[..i];
  }

  /** The loop over the bigs. */
  method EmitParts(bigs: seq<SourceFile>, smalls: seq<SourceFile>) returns (p: Progress)
    ensures p == PlaceBigs(bigs, smalls) && p.consumed <= |smalls|
  {
    var order: seq<FileId>, parts: seq<PartSpec>, partNumber := [], [], 1;
    var next := 0;
    var streamedBigs: set<FileId>, stolenCount := {}, 0;
    var i := 0;
    while i < |bigs|
      invariant 0 <= i <= |bigs| && 0 <= next <= |smalls| && partNumber == |parts| + 1
      invariant Progress(order, parts, next, streamedBigs, stolenCount) == PlaceBigs(bigs[..i], smalls)
    {
      var big := bigs[i];
      var headerBig := LocalHeaderLen(big.name);
      var maxSteal := Minus(big.Size(), PART_FLOOR);
      var nextBefore := next;
      var curSegs, curBytes;
      ghost var before := Progress(order, parts, next, streamedBigs, stolenCount);
      order, next, curSegs, curBytes := FillBatch(smalls, headerBig, maxSteal, order, next);
      ghost var batch := Batch(order, next, curSegs, curBytes);
      BigsNext(bigs, smalls, i, before, batch);
      var withHeader := curBytes + headerBig;
      var smallsLeft := next < |smalls|;
      var k := if next > nextBefore || !smallsLeft then Least(Minus(PART_FLOOR, withHeader), maxSteal) else 0;
      assert k == Stolen(smalls, big, batch);
      order := order + [big.id];
      if withHeader + k >= PART_FLOOR {
        curSegs := curSegs + [CopiedFileHeader(big.id)];
        if k > 0 {
          curSegs := curSegs + [StreamedBigPrefix(big.id, k)];
          stolenCount := stolenCount + 1;
        } else {
          assert curSegs + [] == curSegs;
        }
        parts := parts + [Stream(partNumber, curSegs)];
        partNumber := partNumber + 1;
        parts := parts + [Copy(partNumber, big.id, k)];
        partNumber := partNumber + 1;
      } else {
        curSegs := curSegs + [StreamedFile(big.id)];
        streamedBigs := streamedBigs + {big.id};
        parts := parts + [Stream(partNumber, curSegs)];
        partNumber := partNumber + 1;
      }
      i := i + 1;
    }
    assert bigs[..i] == bigs;
    p := Progress(order, parts, next, streamedBigs, stolenCount);
  }

  method PlaceEntries(cat: Catalog, order: seq<FileId>, streamedBigs: set<FileId>) returns (entries: map<FileId, Entry>)
    ensures entries == EntryTable(cat, order, streamedBigs)
  {
    var offsets := ComputeOffsets(cat, order);
    entries := map[];
    var i := 0;
    while i < |order|
      invariant 0 <= i <= |order|
      invariant entries == EntryTable(cat, order[..i], streamedBigs)
    {
      OffsetsOfPrefix(cat, order, i + 1);
      assert order[..i + 1][..i] == order[..i];
      entries := entries[order[i] := EntryFor(cat, order[i], offsets[i], streamedBigs)];
      i := i + 1;
    }
    assert order[..i] == order;
  }

  /** The smalls no big needed, streamed in the final part. */
  method StreamLeftovers(leftovers: seq<SourceFile>, placed: seq<FileId>) returns (order: seq<FileId>, curSegs: seq<Segment>)
    ensures order == placed + Ids(leftovers) && curSegs == Streamed(leftovers)
  {
    order, curSegs := placed, [];
    var i := 0;
    while i < |leftovers|
      invariant 0 <= i <= |leftovers|
      invariant order == placed + Ids(leftovers[..i]) && curSegs == Streamed(leftovers[..i])
    {
      assert leftovers[..i + 1][..i] == leftovers[..i];
      curSegs := curSegs + [StreamedFile(leftovers[i].id)];
      order := order + [leftovers[i].id];
      i := i + 1;
    }
    assert leftovers[..i] == leftovers;
  }

  /** The planner: sorts the listing, emits the parts, sends the leftovers with the directory, places the entries. */
  method PlanSingleMpu(files: seq<SourceFile>) returns (r: Routing)
    ensures r == if Viable(files) then SingleMpu(PlanOf(files)) else Fallback
  {
    var bigs, smalls := Bigs(files), Smalls(files);
    if bigs == [] || TotalSize(bigs) + TotalSize(smalls) < VIABILITY_MIN_TOTAL {
      return Fallback;
    }
    var p := EmitParts(bigs, smalls);
    var plan := Assemble(CatalogOf(files), bigs, smalls, p);
    r := SingleMpu(plan);
  }

  method Assemble(cat: Catalog, bigs: seq<SourceFile>, smalls: seq<SourceFile>, p: Progress) returns (plan: Plan)
    requires p.consumed <= |smalls|
    ensures plan == Finish(cat, bigs, smalls, p)
  {
    var order, curSegs := StreamLeftovers(smalls[p.consumed..], p.order);
    var parts := p.parts + [Stream(|p.parts| + 1, curSegs + [CentralDirectory])];
    var entries := PlaceEntries(cat, order, p.folded);
    var copies := CopyCount(parts);
    plan := Plan(order, entries, parts, NotFolded(bigs, p.folded),
                 PlanStats(|order|, |parts|, copies, Minus(|parts|, copies), |p.folded|, p.stolen, |bigs|, |smalls|));
  }

  lemma {:induction false} OffsetsOfPrefix(cat: Catalog, order: seq<FileId>, n: nat)
    requires n <= |order|
    ensures ComputeOffsets(cat, order[..n]) == ComputeOffsets(cat, order)[..n]
    decreases |order| - n
  {
    if n < |order| {
      OffsetsOfPrefix(cat, order, n + 1);
      assert order[..n + 1][..n] == order[..n];
    } else {
      assert order[..n] == order;
    }
  }
}
