/** What a single-upload plan is worth: exact bytes, floors, costs, and an archive that reads back. */
module SingleArchive {
  import opened Arithmetic
  import opened Bytes
  import opened Canonical
  import opened ZipReader
  import opened FigmentFormat
  import opened Multipart
  import opened Sorting
  import opened SinglePlan

  // ---------- The sorted lists ----------

  lemma {:induction false} FilterDistinct(files: seq<SourceFile>, big: bool)
    requires DistinctIds(files)
    ensures DistinctIds(Filter(files, big))
  {
    if files != [] {
      var last := |files| - 1;
      FilterDistinct(files[..last], big);
      forall f | f in Filter(files[..last], big) ensures f.id != files[last].id {
        assert f in files[..last];
      }
    }
  }

  lemma SortedKnown(files: seq<SourceFile>, le: (SourceFile, SourceFile) -> bool, big: bool)
    requires DistinctIds(files)
    ensures Known(CatalogOf(files), Sort(le, Filter(files, big)), big) && DistinctIds(Sort(le, Filter(files, big)))
  {
    var sorted := Sort(le, Filter(files, big));
    FilterDistinct(files, big);
    DistinctPermutes(Filter(files, big), sorted);
    forall f | f in sorted ensures FileOf(CatalogOf(files), f.id) == f && (IsBig(f) <==> big) {
      assert f in multiset(sorted);
      assert f in Filter(files, big);
      var i :| 0 <= i < |files| && files[i] == f;
      CatalogFinds(files, i);
    }
  }

  // ---------- The final part ----------

  lemma AppendThird(a: seq<FileId>, b: seq<FileId>, c: FileId)
    ensures a + (b + [c]) == (a + b) + [c]
  {}

  lemma AppendFile(a: seq<SourceFile>, b: seq<SourceFile>)
    requires b != []
    ensures a + b == (a + b[..|b| - 1]) + [b[|b| - 1]]
  {}

  lemma {:induction false} LeftoversSpell(cat: Catalog, parts: seq<PartSpec>, order: seq<FileId>, leftovers: seq<SourceFile>)
    requires Known(cat, leftovers, false) && Spelled(cat, parts, [], order)
    ensures Spelled(cat, parts, Streamed(leftovers), order + Ids(leftovers))
  {
    if leftovers == [] {
      assert order + [] == order;
    } else {
      var front, last := leftovers[..|leftovers| - 1], leftovers[|leftovers| - 1];
      assert last in leftovers;
      LeftoversSpell(cat, parts, order, front);
      AppendThird(order, Ids(front), last.id);
      SpellFile(cat, parts, Streamed(front), order + Ids(front), last);
    }
  }

  lemma {:induction false} LeftoversConsume(cat: Catalog, order: seq<FileId>, bigs: seq<SourceFile>, smalls: seq<SourceFile>, leftovers: seq<SourceFile>)
    requires Known(cat, leftovers, false) && Consumed(cat, order, bigs, smalls)
    ensures Consumed(cat, order + Ids(leftovers), bigs, smalls + leftovers)
  {
    if leftovers == [] {
      assert order + [] == order && smalls + [] == smalls;
    } else {
      var front, last := leftovers[..|leftovers| - 1], leftovers[|leftovers| - 1];
      assert last in leftovers;
      LeftoversConsume(cat, order, bigs, smalls, front);
      AppendThird(order, Ids(front), last.id);
      AppendFile(smalls, leftovers);
      Consume(cat, order + Ids(front), bigs, smalls + front, last);
    }
  }

  lemma {:induction false} StreamedBatched(cat: Catalog, leftovers: seq<SourceFile>)
    requires Known(cat, leftovers, false)
    ensures Batched(cat, Streamed(leftovers))
  {
    if leftovers != [] {
      assert leftovers[|leftovers| - 1] in leftovers;
      StreamedBatched(cat, leftovers[..|leftovers| - 1]);
    }
  }

  lemma RestConsumed(cat: Catalog, order: seq<FileId>, bigs: seq<SourceFile>, smalls: seq<SourceFile>, n: nat)
    requires Known(cat, smalls, false) && n <= |smalls| && Consumed(cat, order, bigs, smalls[..n])
    ensures Consumed(cat, order + Ids(smalls[n..]), bigs, smalls)
  {
    LeftoversConsume(cat, order, bigs, smalls[..n], smalls[n..]);
    assert smalls == smalls[..n] + smalls[n..];
  }

  lemma LoopConsumes(cat: Catalog, bigs: seq<SourceFile>, smalls: seq<SourceFile>)
    requires Known(cat, bigs, true) && Known(cat, smalls, false) && DistinctIds(bigs)
    ensures var p := PlaceBigs(bigs, smalls);
      p.consumed <= |smalls| && Consumed(cat, p.order + Ids(smalls[p.consumed..]), bigs, smalls)
  {
    LoopPlaces(cat, bigs, smalls);
    var p := PlaceBigs(bigs, smalls);
    RestConsumed(cat, p.order, bigs, smalls, p.consumed);
  }

  lemma PlanConsumes(files: seq<SourceFile>)
    requires DistinctIds(files)
    ensures Consumed(CatalogOf(files), PlanOf(files).order, Bigs(files), Smalls(files))
  {
    SortedKnown(files, LargestFirst, true);
    SortedKnown(files, SmallestFirst, false);
    LoopConsumes(CatalogOf(files), Bigs(files), Smalls(files));
  }

  lemma BothOrdersTotal()
    ensures TotalPreorder(LargestFirst) && TotalPreorder(SmallestFirst)
  {}

  /** The order is the bigs, largest first, interleaved with the smalls, smallest first, each used once. */
  lemma OrderTheorem(files: seq<SourceFile>)
    requires DistinctIds(files)
    ensures var ordered := FilesOf(CatalogOf(files), PlanOf(files).order);
      && Filter(ordered, true) == Bigs(files) && SortedBy(LargestFirst, Bigs(files))
      && Filter(ordered, false) == Smalls(files) && SortedBy(SmallestFirst, Smalls(files))
      && multiset(ordered) == multiset(files)
      && DistinctIds(ordered)
  {
    BothOrdersTotal();
    SortSorts(LargestFirst, Filter(files, true));
    SortSorts(SmallestFirst, Filter(files, false));
    PlanConsumes(files);
    Rearranged(files, FilesOf(CatalogOf(files), PlanOf(files).order));
  }

  lemma LargestApart(s: seq<SourceFile>, i: nat, j: nat)
    requires SortedBy(LargestFirst, s) && DistinctIds(s) && i < j < |s|
    ensures |s[i].body| > |s[j].body| || (|s[i].body| == |s[j].body| && s[i].id < s[j].id)
  {
    assert LargestFirst(s[i], s[j]);
  }

  lemma SmallestApart(s: seq<SourceFile>, i: nat, j: nat)
    requires SortedBy(SmallestFirst, s) && DistinctIds(s) && i < j < |s|
    ensures |s[i].body| < |s[j].body| || (|s[i].body| == |s[j].body| && s[i].id < s[j].id)
  {
    assert SmallestFirst(s[i], s[j]);
  }

  /** In which order: bigs with the larger body first, smalls with the smaller, and equal bodies by ascending id. */
  lemma TiesTheorem(files: seq<SourceFile>, bigs: seq<SourceFile>, smalls: seq<SourceFile>)
    requires DistinctIds(files) && bigs == Bigs(files) && smalls == Smalls(files)
    ensures forall i, j | 0 <= i < j < |bigs| ::
              |bigs[i].body| > |bigs[j].body| || (|bigs[i].body| == |bigs[j].body| && bigs[i].id < bigs[j].id)
    ensures forall i, j | 0 <= i < j < |smalls| ::
              |smalls[i].body| < |smalls[j].body| || (|smalls[i].body| == |smalls[j].body| && smalls[i].id < smalls[j].id)
  {
    OrderTheorem(files);
    SortedKnown(files, LargestFirst, true);
    SortedKnown(files, SmallestFirst, false);
    forall i, j | 0 <= i < j < |bigs|
      ensures |bigs[i].body| > |bigs[j].body| || (|bigs[i].body| == |bigs[j].body| && bigs[i].id < bigs[j].id)
    {
      LargestApart(bigs, i, j);
    }
    forall i, j | 0 <= i < j < |smalls|
      ensures |smalls[i].body| < |smalls[j].body| || (|smalls[i].body| == |smalls[j].body| && smalls[i].id < smalls[j].id)
    {
      SmallestApart(smalls, i, j);
    }
  }

  lemma Rearranged(files: seq<SourceFile>, ordered: seq<SourceFile>)
    requires DistinctIds(files)
    requires Filter(ordered, true) == Bigs(files) && Filter(ordered, false) == Smalls(files)
    ensures multiset(ordered) == multiset(files) && DistinctIds(ordered)
  {
    FilterPartitions(ordered);
    FilterPartitions(files);
    DistinctPermutes(files, ordered);
  }

  // ---------- Entries and directory ----------

  lemma {:induction false} RunningTotalIsRegion(cat: Catalog, order: seq<FileId>)
    ensures RunningTotal(cat, order) == |RegionOf(cat, order)|
  {
    if order != [] {
      var front, f := order[..|order| - 1], FileOf(cat, order[|order| - 1]);
      RunningTotalIsRegion(cat, front);
      HeaderLength(f);
      assert order == front + [order[|order| - 1]];
      RegionOfAppend(cat, front, order[|order| - 1]);
    }
  }

  lemma OffsetIsRegion(cat: Catalog, order: seq<FileId>, i: nat)
    requires i <= |order|
    ensures OffsetOf(LocalsOf(ItemsOf(FilesOf(cat, order))), i) == |RegionOf(cat, order[..i])|
  {
    assert LocalsOf(ItemsOf(FilesOf(cat, order)))[..i] == LocalsOf(ItemsOf(FilesOf(cat, order[..i])));
  }

  lemma OffsetsAreTotals(cat: Catalog, order: seq<FileId>, i: nat)
    requires i < |order|
    ensures ComputeOffsets(cat, order)[i] == RunningTotal(cat, order[..i])
  {
    OffsetsOfPrefix(cat, order, i + 1);
    assert order[..i + 1][..i] == order[..i];
    assert ComputeOffsets(cat, order[..i + 1])[i] == RunningTotal(cat, order[..i]);
  }

  /** `compute_offsets` gives each local header's offset in the canonical archive. */
  lemma OffsetsTheorem(cat: Catalog, order: seq<FileId>, i: nat)
    requires i < |order|
    ensures ComputeOffsets(cat, order)[i] == OffsetOf(LocalsOf(ItemsOf(FilesOf(cat, order))), i)
  {
    OffsetsAreTotals(cat, order, i);
    RunningTotalIsRegion(cat, order[..i]);
    OffsetIsRegion(cat, order, i);
  }

  ghost predicate EntryAt(plan: Plan, cat: Catalog, i: nat)
    requires i < |plan.order|
  {
    var id := plan.order[i];
    && id in plan.entries
    && plan.entries[id].id == id
    && plan.entries[id].name == FileOf(cat, id).name && plan.entries[id].size == FileOf(cat, id).Size()
    && plan.entries[id].localHeaderOffset == OffsetOf(LocalsOf(ItemsOf(FilesOf(cat, plan.order))), i)
  }

  lemma {:induction false} TableHolds(cat: Catalog, order: seq<FileId>, folded: set<FileId>, i: nat)
    requires i < |order| && forall a, b | 0 <= a < b < |order| :: order[a] != order[b]
    ensures order[i] in EntryTable(cat, order, folded)
    ensures EntryTable(cat, order, folded)[order[i]] == EntryFor(cat, order[i], ComputeOffsets(cat, order)[i], folded)
  {
    var last := |order| - 1;
    if i < last {
      TableHolds(cat, order[..last], folded, i);
      OffsetsOfPrefix(cat, order, last);
    }
  }

  lemma DistinctOrder(cat: Catalog, order: seq<FileId>)
    requires forall i, j | 0 <= i < j < |order| :: FilesOf(cat, order)[i].id != FilesOf(cat, order)[j].id
    requires forall id | id in order :: FileOf(cat, id).id == id
    ensures forall i, j | 0 <= i < j < |order| :: order[i] != order[j]
  {
    forall i, j | 0 <= i < j < |order| ensures order[i] != order[j] {
      assert FilesOf(cat, order)[i].id != FilesOf(cat, order)[j].id;
    }
  }

  lemma {:induction false} CatalogIds(files: seq<SourceFile>, id: FileId)
    ensures FileOf(CatalogOf(files), id).id == id
  {
    if files != [] {
      CatalogIds(files[..|files| - 1], id);
    }
  }

  /** Every entry carries its file's name and size and the offset where its header lands. */
  lemma EntriesTheorem(files: seq<SourceFile>, i: nat)
    requires DistinctIds(files) && i < |PlanOf(files).order|
    ensures EntryAt(PlanOf(files), CatalogOf(files), i)
  {
    var cat, order := CatalogOf(files), PlanOf(files).order;
    OrderTheorem(files);
    forall id | id in order ensures FileOf(cat, id).id == id {
      CatalogIds(files, id);
    }
    DistinctOrder(cat, order);
    TableHolds(cat, order, PlaceBigs(Bigs(files), Smalls(files)).folded, i);
    OffsetsTheorem(cat, order, i);
  }

  ghost predicate EntriesPlaced(plan: Plan, cat: Catalog) {
    forall i | 0 <= i < |plan.order| :: EntryAt(plan, cat, i)
  }

  lemma AllEntriesPlaced(files: seq<SourceFile>)
    requires DistinctIds(files)
    ensures EntriesPlaced(PlanOf(files), CatalogOf(files))
  {
    forall i | 0 <= i < |PlanOf(files).order| ensures EntryAt(PlanOf(files), CatalogOf(files), i) {
      EntriesTheorem(files, i);
    }
  }

  lemma PlacedHas(plan: Plan, cat: Catalog)
    requires EntriesPlaced(plan, cat)
    ensures forall id | id in plan.order :: id in plan.entries
  {
    forall id | id in plan.order ensures id in plan.entries {
      var i :| 0 <= i < |plan.order| && plan.order[i] == id;
      assert EntryAt(plan, cat, i);
    }
  }

  /** The assembler's directory metadata are the canonical ones. */
  lemma MetasAreCanonical(plan: Plan, cat: Catalog)
    requires EntriesPlaced(plan, cat) && forall id | id in plan.order :: id in plan.entries
    ensures PlanMetas(plan, cat) == MetasOf(ItemsOf(FilesOf(cat, plan.order)))
  {
    var items := ItemsOf(FilesOf(cat, plan.order));
    forall i | 0 <= i < |plan.order| ensures PlanMetas(plan, cat)[i] == MetaOf(items, i) {
      assert EntryAt(plan, cat, i);
    }
  }

  lemma {:induction false} SumIsTotal(plan: Plan, cat: Catalog, n: nat)
    requires EntriesPlaced(plan, cat) && n <= |plan.order| && forall id | id in plan.order :: id in plan.entries
    ensures SumOfEntries(plan, plan.order[..n]) == RunningTotal(cat, plan.order[..n])
  {
    if n > 0 {
      SumIsTotal(plan, cat, n - 1);
      assert plan.order[..n][..n - 1] == plan.order[..n - 1];
      assert EntryAt(plan, cat, n - 1);
    }
  }

  /** `build_central_directory` writes the canonical directory and end records. */
  lemma DirectoryTheorem(plan: Plan, cat: Catalog)
    requires EntriesPlaced(plan, cat) && forall id | id in plan.order :: id in plan.entries
    ensures RegionOf(cat, plan.order) + DirectoryBytes(plan, cat) == Archive(ItemsOf(FilesOf(cat, plan.order)))
  {
    MetasAreCanonical(plan, cat);
    SumIsTotal(plan, cat, |plan.order|);
    assert plan.order[..|plan.order|] == plan.order;
    RunningTotalIsRegion(cat, plan.order);
  }

  // ---------- Bytes ----------

  lemma DirectoryFreeSegment(cat: Catalog, directory: Octets, segment: Segment)
    requires segment != CentralDirectory
    ensures SegmentBytes(cat, directory, segment) == SegmentBytes(cat, [], segment)
  {}

  lemma {:induction false} DirectoryFreeStream(cat: Catalog, directory: Octets, segments: seq<Segment>)
    requires CentralDirectory !in segments
    ensures StreamBytes(cat, directory, segments) == StreamBytes(cat, [], segments)
  {
    if segments != [] {
      var front, last := segments[..|segments| - 1], segments[|segments| - 1];
      DirectoryFreeStream(cat, directory, front);
      DirectoryFreeSegment(cat, directory, last);
    }
  }

  lemma DirectoryFreeParts(cat: Catalog, directory: Octets, parts: seq<PartSpec>)
    requires forall k | 0 <= k < |parts| :: NoDirectory(parts[k])
    ensures PartsBytes(cat, directory, parts) == PartsBytes(cat, [], parts)
  {
    forall k | 0 <= k < |parts| ensures PartBytes(cat, directory, parts[k]) == PartBytes(cat, [], parts[k]) {
      assert NoDirectory(parts[k]);
      if parts[k].Stream? {
        DirectoryFreeStream(cat, directory, parts[k].segments);
      }
    }
  }

  /** Parts, leftovers and directory spell out the region and the directory. */
  lemma FinalPartsBytes(cat: Catalog, directory: Octets, p: Progress, leftovers: seq<SourceFile>)
    requires forall k | 0 <= k < |p.parts| :: NoDirectory(p.parts[k])
    requires Known(cat, leftovers, false) && Spelled(cat, p.parts, [], p.order)
    ensures Flatten(PartsBytes(cat, directory, FinalParts(p, leftovers)))
         == RegionOf(cat, p.order + Ids(leftovers)) + directory
  {
    var last := Stream(|p.parts| + 1, Streamed(leftovers) + [CentralDirectory]);
    LeftoversSpell(cat, p.parts, p.order, leftovers);
    StreamedBatched(cat, leftovers);
    DirectoryFreeStream(cat, directory, Streamed(leftovers));
    StreamAppend(cat, directory, Streamed(leftovers), CentralDirectory);
    DirectoryFreeParts(cat, directory, p.parts);
    PartsAppend(cat, directory, p.parts, last);
    Reassociate(Flatten(PartsBytes(cat, [], p.parts)), StreamBytes(cat, [], Streamed(leftovers)), directory);
  }

  lemma PlanIsSound(files: seq<SourceFile>)
    requires DistinctIds(files)
    ensures var cat, p := CatalogOf(files), PlaceBigs(Bigs(files), Smalls(files));
      && p.consumed <= |Smalls(files)|
      && Known(cat, Smalls(files)[p.consumed..], false)
      && Spelled(cat, p.parts, [], p.order)
      && Sound(cat, p.parts, p.consumed == |Smalls(files)|)
      && CopiesPlaced(p.parts, Bigs(files), p.folded) && p.stolen == RangedCount(p.parts)
  {
    SortedKnown(files, LargestFirst, true);
    SortedKnown(files, SmallestFirst, false);
    LoopPlaces(CatalogOf(files), Bigs(files), Smalls(files));
    LoopSound(CatalogOf(files), Bigs(files), Smalls(files));
  }

  /** The canonical archive of a plan. */
  function PlannedArchive(files: seq<SourceFile>): Octets {
    Archive(ItemsOf(FilesOf(CatalogOf(files), PlanOf(files).order)))
  }

  ghost function PlannedParts(files: seq<SourceFile>): seq<Octets>
    requires DistinctIds(files)
  {
    AllEntriesPlaced(files);
    PlacedHas(PlanOf(files), CatalogOf(files));
    PartsBytes(CatalogOf(files), DirectoryBytes(PlanOf(files), CatalogOf(files)), PlanOf(files).parts)
  }

  /** The planned parts, in part-number order, are exactly the canonical archive. */
  lemma BytesTheorem(files: seq<SourceFile>)
    requires DistinctIds(files)
    ensures Flatten(PlannedParts(files)) == PlannedArchive(files)
  {
    var cat, plan, p := CatalogOf(files), PlanOf(files), PlaceBigs(Bigs(files), Smalls(files));
    AllEntriesPlaced(files);
    PlacedHas(plan, cat);
    PlanIsSound(files);
    FinalPartsBytes(cat, DirectoryBytes(plan, cat), p, Smalls(files)[p.consumed..]);
    DirectoryTheorem(plan, cat);
  }

  lemma FloorOfPrefix(cat: Catalog, directory: Octets, parts: seq<PartSpec>, last: PartSpec, exhausted: bool)
    requires Sound(cat, parts, exhausted)
    ensures MeetsFloor(PartsBytes(cat, directory, parts + [last]))
  {
    DirectoryFreeParts(cat, directory, parts);
    PartsAppend(cat, directory, parts, last);
    forall i | 0 <= i < |parts| ensures |PartsBytes(cat, directory, parts)[i]| >= PART_FLOOR {
      assert AtLeastFloor(cat, parts[i]);
    }
  }

  /** Every part but the last meets S3's floor. */
  lemma FloorTheorem(files: seq<SourceFile>)
    requires DistinctIds(files)
    ensures MeetsFloor(PlannedParts(files))
  {
    var cat, plan, p := CatalogOf(files), PlanOf(files), PlaceBigs(Bigs(files), Smalls(files));
    AllEntriesPlaced(files);
    PlacedHas(plan, cat);
    PlanIsSound(files);
    FloorOfPrefix(cat, DirectoryBytes(plan, cat), p.parts, plan.parts[|plan.parts| - 1], p.consumed == |Smalls(files)|);
  }

  /**
   * Uploads in any order, with any retries, complete to the canonical archive: S3 never refuses a
   * part as too small.
   */
  lemma UploadTheorem(files: seq<SourceFile>, log: seq<PartUpload>, finished: seq<nat>)
    requires DistinctIds(files)
    requires Uploads(log, PlannedParts(files))
    requires multiset(finished) == multiset(Numbers(|PlanOf(files).parts|))
    ensures Complete(Received(log), Sort(AtMost, finished)) == Some(PlannedArchive(files))
  {
    FloorTheorem(files);
    BytesTheorem(files);
    AnyOrderCompletes(log, PlannedParts(files), finished);
  }

  // ---------- Routing ----------

  lemma {:induction false} InsertSize(le: (SourceFile, SourceFile) -> bool, f: SourceFile, files: seq<SourceFile>)
    ensures TotalSize(Insert(le, f, files)) == f.Size() + TotalSize(files)
  {
    if files != [] && !le(f, files[0]) {
      InsertSize(le, f, files[1..]);
    }
  }

  lemma {:induction false} SortSize(le: (SourceFile, SourceFile) -> bool, files: seq<SourceFile>)
    ensures TotalSize(Sort(le, files)) == TotalSize(files)
  {
    if files != [] {
      SortSize(le, files[1..]);
      InsertSize(le, files[0], Sort(le, files[1..]));
    }
  }

  lemma {:induction false} SizeAppend(files: seq<SourceFile>, f: SourceFile)
    ensures TotalSize(files + [f]) == TotalSize(files) + f.Size()
  {
    if files == [] {
      assert [] + [f] == [f];
    } else {
      SizeAppend(files[1..], f);
      assert (files + [f])[1..] == files[1..] + [f];
    }
  }

  lemma {:induction false} FilterSize(files: seq<SourceFile>)
    ensures TotalSize(Filter(files, true)) + TotalSize(Filter(files, false)) == TotalSize(files)
  {
    if files != [] {
      var front, last := files[..|files| - 1], files[|files| - 1];
      FilterSize(front);
      FilterSizeNext(files, front, last, true);
      FilterSizeNext(files, front, last, false);
      SizeOfLast(files, front, last);
    }
  }

  lemma SizeOfLast(files: seq<SourceFile>, front: seq<SourceFile>, last: SourceFile)
    requires files != [] && front == files[..|files| - 1] && last == files[|files| - 1]
    ensures TotalSize(files) == TotalSize(front) + last.Size()
  {
    SizeAppend(front, last);
    assert files == front + [last];
  }

  lemma FilterSizeNext(files: seq<SourceFile>, front: seq<SourceFile>, last: SourceFile, big: bool)
    requires files != [] && front == files[..|files| - 1] && last == files[|files| - 1]
    ensures TotalSize(Filter(files, big)) == TotalSize(Filter(front, big)) + if IsBig(last) == big then last.Size() else 0
  {
    SizeAppend(Filter(front, big), last);
    assert Filter(front, big) + [] == Filter(front, big);
  }

  /** The bodies of a listing, one after the other. */
  function Bodies(files: seq<SourceFile>): (bodies: seq<Octets>)
    ensures |bodies| == |files|
  {
    seq(|files|, i requires 0 <= i < |files| => files[i].body)
  }

  lemma {:induction false} SizeOfBodies(files: seq<SourceFile>)
    ensures TotalSize(files) == |Flatten(Bodies(files))|
  {
    if files != [] {
      SizeOfBodies(files[1..]);
      assert Bodies(files)[1..] == Bodies(files[1..]);
    }
  }

  lemma {:induction false} InFilter(files: seq<SourceFile>, big: bool, f: SourceFile)
    ensures f in Filter(files, big) <==> f in files && IsBig(f) == big
  {
    if files != [] {
      InFilter(files[..|files| - 1], big, f);
    }
  }

  lemma BigsThere(files: seq<SourceFile>)
    ensures Bigs(files) != [] <==> exists f :: f in files && f.Size() >= 5 * 1024 * 1024
  {
    assert |Bigs(files)| == |multiset(Bigs(files))| == |multiset(Filter(files, true))| == |Filter(files, true)|;
    if Filter(files, true) != [] {
      InFilter(files, true, Filter(files, true)[0]);
    }
    forall f | f in files && f.Size() >= 5 * 1024 * 1024 ensures Filter(files, true) != [] {
      InFilter(files, true, f);
    }
  }

  /** A listing is planned exactly when some file reaches 5 MiB and all bodies together reach 20 MiB. */
  lemma RoutingTheorem(files: seq<SourceFile>)
    ensures Viable(files)
       <==> (exists f :: f in files && f.Size() >= 5 * 1024 * 1024) && |Flatten(Bodies(files))| >= 20 * 1024 * 1024
  {
    BigsThere(files);
    SortSize(LargestFirst, Filter(files, true));
    SortSize(SmallestFirst, Filter(files, false));
    FilterSize(files);
    SizeOfBodies(files);
  }

  // ---------- Cost ----------

  lemma FrugalWithLast(cat: Catalog, parts: seq<PartSpec>, last: PartSpec, exhausted: bool)
    requires Sound(cat, parts, exhausted) && (exhausted ==> !StreamsSmall(cat, last))
    ensures forall k | 0 <= k < |parts| :: Frugal(cat, parts + [last], k)
  {
    forall k | 0 <= k < |parts| ensures Frugal(cat, parts + [last], k) {
      assert Frugal(cat, parts, k);
    }
  }

  /**
   * What the plan pays: a stolen prefix only fills its part up to the floor; a big is folded only
   * when its surplus could not, and neither folds nor bare steals come before a streamed small.
   */
  lemma CostTheorem(files: seq<SourceFile>, k: nat)
    requires DistinctIds(files) && k < |PlanOf(files).parts| - 1
    ensures Frugal(CatalogOf(files), PlanOf(files).parts, k)
  {
    var cat, plan, p := CatalogOf(files), PlanOf(files), PlaceBigs(Bigs(files), Smalls(files));
    PlanIsSound(files);
    var leftovers := Smalls(files)[p.consumed..];
    StreamedBatched(cat, leftovers);
    FrugalWithLast(cat, p.parts, plan.parts[|plan.parts| - 1], p.consumed == |Smalls(files)|);
  }

  /**
   * What the plan spares: wherever two or more smalls stand in front of a big, all but the last of them,
   * with the big's header and all it could donate, fall short of the floor; and none stands in front of
   * a big whose header clears the floor alone.
   */
  lemma SparingTheorem(files: seq<SourceFile>, k: nat)
    requires DistinctIds(files) && k < |PlanOf(files).parts|
    ensures Sparing(CatalogOf(files), PlanOf(files).parts[k])
  {
    var cat, p := CatalogOf(files), PlaceBigs(Bigs(files), Smalls(files));
    LoopPartsSpare(files, p);
    FinalPartSpares(files, p);
    PlannedPart(files, p, k);
    EachSpares(cat, p.parts, PlanOf(files).parts[k], k);
  }

  lemma EachSpares(cat: Catalog, parts: seq<PartSpec>, part: PartSpec, k: nat)
    requires AllSparing(cat, parts) && (k < |parts| ==> part == parts[k]) && (k >= |parts| ==> Sparing(cat, part))
    ensures Sparing(cat, part)
  {}

  lemma PlannedPart(files: seq<SourceFile>, p: Progress, k: nat)
    requires p == PlaceBigs(Bigs(files), Smalls(files)) && p.consumed <= |Smalls(files)| && k < |PlanOf(files).parts|
    ensures PlanOf(files).parts[k]
         == if k < |p.parts| then p.parts[k] else Stream(|p.parts| + 1, Streamed(Smalls(files)[p.consumed..]) + [CentralDirectory])
  {}

  lemma LoopPartsSpare(files: seq<SourceFile>, p: Progress)
    requires DistinctIds(files) && p == PlaceBigs(Bigs(files), Smalls(files))
    ensures AllSparing(CatalogOf(files), p.parts)
  {
    SortedKnown(files, LargestFirst, true);
    SortedKnown(files, SmallestFirst, false);
    LoopSpares(CatalogOf(files), Bigs(files), Smalls(files));
  }

  lemma FinalPartSpares(files: seq<SourceFile>, p: Progress)
    requires DistinctIds(files) && p == PlaceBigs(Bigs(files), Smalls(files))
    ensures p.consumed <= |Smalls(files)|
    ensures Sparing(CatalogOf(files), Stream(|p.parts| + 1, Streamed(Smalls(files)[p.consumed..]) + [CentralDirectory]))
  {
    PlanIsSound(files);
    StreamedBatched(CatalogOf(files), Smalls(files)[p.consumed..]);
    LeftoversServe(CatalogOf(files), Smalls(files)[p.consumed..]);
  }

  lemma LeftoversServe(cat: Catalog, leftovers: seq<SourceFile>)
    requires Batched(cat, Streamed(leftovers))
    ensures forall n :: Sparing(cat, Stream(n, Streamed(leftovers) + [CentralDirectory]))
  {
    var segments := Streamed(leftovers) + [CentralDirectory];
    forall i | 0 <= i < |segments| ensures !Serves(cat, segments[i]) {
      assert i < |segments| - 1 ==> segments[i] in Streamed(leftovers);
    }
  }

  ghost predicate DirectoryLast(parts: seq<PartSpec>) {
    var last := |parts| - 1;
    && parts != [] && Numbered(parts)
    && (forall k | 0 <= k < last :: NoDirectory(parts[k]))
    && parts[last].Stream? && parts[last].segments != []
    && (forall i | 0 <= i < |parts[last].segments| ::
      parts[last].segments[i] == CentralDirectory <==> i == |parts[last].segments| - 1)
  }

  lemma FinalPartsNumbered(cat: Catalog, p: Progress, leftovers: seq<SourceFile>, exhausted: bool)
    requires Sound(cat, p.parts, exhausted) && Batched(cat, Streamed(leftovers))
    ensures DirectoryLast(FinalParts(p, leftovers))
  {
    var segments := Streamed(leftovers) + [CentralDirectory];
    forall i | 0 <= i < |segments| ensures segments[i] == CentralDirectory <==> i == |segments| - 1 {
      assert i < |segments| - 1 ==> segments[i] in Streamed(leftovers);
    }
  }

  /** Parts are numbered 1 to n, and the directory is the last segment of the last part and of no other. */
  lemma NumberingTheorem(files: seq<SourceFile>)
    requires DistinctIds(files)
    ensures DirectoryLast(PlanOf(files).parts)
  {
    PlanIsSound(files);
    var p := PlaceBigs(Bigs(files), Smalls(files));
    StreamedBatched(CatalogOf(files), Smalls(files)[p.consumed..]);
    FinalPartsNumbered(CatalogOf(files), p, Smalls(files)[p.consumed..], p.consumed == |Smalls(files)|);
  }

  /** Every big is either copied, by exactly one part, or folded, and the statistics say how many. */
  lemma CountTheorem(files: seq<SourceFile>)
    requires DistinctIds(files)
    ensures var plan := PlanOf(files);
      && plan.stats.copyParts == CopyCount(plan.parts)
      && plan.stats.copyParts + plan.stats.foldedBigs == plan.stats.bigs == |Bigs(files)|
      && plan.stats.stolenBigs == RangedCount(plan.parts)
      && plan.stats.entries == |files| && plan.stats.parts == |plan.parts|
      && plan.stats.streamParts + plan.stats.copyParts == |plan.parts|
  {
    PlanIsSound(files);
    var p, plan := PlaceBigs(Bigs(files), Smalls(files)), PlanOf(files);
    CountAppend(p.parts, plan.parts[|p.parts|]);
    assert plan.parts == p.parts + [plan.parts[|p.parts|]];
    CopiesWithin(plan.parts);
    OrderTheorem(files);
    assert |FilesOf(CatalogOf(files), plan.order)| == |multiset(files)|;
  }

  lemma {:induction false} CopiesWithin(parts: seq<PartSpec>)
    ensures CopyCount(parts) <= |parts|
  {
    if parts != [] {
      CopiesWithin(parts[..|parts| - 1]);
    }
  }

  /** An entry is marked streamed exactly when no part copies it; only copied bigs wait for a CRC. */
  lemma StreamedFlagTheorem(files: seq<SourceFile>, i: nat)
    requires DistinctIds(files) && i < |PlanOf(files).order|
    ensures var plan := PlanOf(files);
      && plan.order[i] in plan.entries
      && (plan.entries[plan.order[i]].streamed <==> !Copied(plan.parts, plan.order[i]))
      && (plan.order[i] in plan.copyable <==> Copied(plan.parts, plan.order[i]))
  {
    var cat, plan, p := CatalogOf(files), PlanOf(files), PlaceBigs(Bigs(files), Smalls(files));
    var id := plan.order[i];
    EntriesTheorem(files, i);
    OrderTheorem(files);
    forall x | x in plan.order ensures FileOf(cat, x).id == x {
      CatalogIds(files, x);
    }
    DistinctOrder(cat, plan.order);
    TableHolds(cat, plan.order, p.folded, i);
    PlanIsSound(files);
    CopiedAppend(p.parts, plan.parts[|p.parts|], id);
    assert plan.parts == p.parts + [plan.parts[|p.parts|]];
    var f := FilesOf(cat, plan.order)[i];
    OnlyBigsCopied(files, id, f);
    NotFoldedMembers(Bigs(files), p.folded, id);
  }

  lemma {:induction false} FilterHas(files: seq<SourceFile>, f: SourceFile)
    requires f in files
    ensures f in Filter(files, IsBig(f))
  {
    var last := |files| - 1;
    if f != files[last] {
      FilterHas(files[..last], f);
    }
  }

  /** Among the placed files, exactly the bigs that were not folded are copied. */
  lemma OnlyBigsCopied(files: seq<SourceFile>, id: FileId, f: SourceFile)
    requires DistinctIds(files) && f in FilesOf(CatalogOf(files), PlanOf(files).order) && f.id == id
    ensures var p := PlaceBigs(Bigs(files), Smalls(files));
      && (IsBig(f) <==> exists g :: g in Bigs(files) && g.id == id)
      && (Copied(p.parts, id) <==> IsBig(f) && id !in p.folded)
  {
    var p := PlaceBigs(Bigs(files), Smalls(files));
    OrderTheorem(files);
    PlanIsSound(files);
    CopiedAmong(FilesOf(CatalogOf(files), PlanOf(files).order), Bigs(files), p.parts, p.folded, f);
  }

  lemma CopiedAmong(ordered: seq<SourceFile>, bigs: seq<SourceFile>, parts: seq<PartSpec>, folded: set<FileId>, f: SourceFile)
    requires DistinctIds(ordered) && Filter(ordered, true) == bigs && CopiesPlaced(parts, bigs, folded) && f in ordered
    ensures IsBig(f) <==> exists g :: g in bigs && g.id == f.id
    ensures Copied(parts, f.id) <==> IsBig(f) && f.id !in folded
  {
    FilterHas(ordered, f);
    if g :| g in bigs && g.id == f.id {
      SameIdSameFile(ordered, f, g);
    }
  }

  lemma SameIdSameFile(ordered: seq<SourceFile>, f: SourceFile, g: SourceFile)
    requires DistinctIds(ordered) && f in ordered && g in Filter(ordered, true) && f.id == g.id
    ensures f == g
  {
    var i :| 0 <= i < |ordered| && ordered[i] == f;
    var j :| 0 <= j < |ordered| && ordered[j] == g;
    assert i == j;
  }

  lemma {:induction false} NotFoldedMembers(bigs: seq<SourceFile>, folded: set<FileId>, id: FileId)
    ensures id in NotFolded(bigs, folded) <==> id !in folded && exists f :: f in bigs && f.id == id
  {
    if bigs != [] {
      var front, last := bigs[..|bigs| - 1], bigs[|bigs| - 1];
      NotFoldedMembers(front, folded, id);
      assert bigs == front + [last];
    }
  }

  // ---------- The assembler ----------

  /** Every id a part mentions is in the order, so the assembler's look-ups succeed. */
  ghost predicate Mentions(parts: seq<PartSpec>, order: seq<FileId>) {
    && (forall k | 0 <= k < |parts| && parts[k].Copy? :: parts[k].id in order)
    && (forall k | 0 <= k < |parts| && parts[k].Stream? :: MentionsAll(parts[k].segments, order))
  }

  ghost predicate MentionsAll(segments: seq<Segment>, order: seq<FileId>) {
    forall s | s in segments :: s == CentralDirectory || s.id in order
  }

  lemma {:induction false} PullMentions(smalls: seq<SourceFile>, headerBig: nat, maxSteal: nat, b: Batch)
    requires MentionsAll(b.segments, b.order)
    ensures var r := Pull(smalls, headerBig, maxSteal, b);
      MentionsAll(r.segments, r.order) && forall id | id in b.order :: id in r.order
    decreases |smalls| - b.consumed
  {
    if !BatchDone(smalls, headerBig, maxSteal, b) {
      PullMentions(smalls, headerBig, maxSteal, AddSmall(b, smalls[b.consumed]));
    }
  }

  lemma MentionsMore(parts: seq<PartSpec>, order: seq<FileId>, wider: seq<FileId>)
    requires Mentions(parts, order) && forall id | id in order :: id in wider
    ensures Mentions(parts, wider)
  {}

  lemma {:induction false} LoopMentions(bigs: seq<SourceFile>, smalls: seq<SourceFile>)
    ensures Mentions(PlaceBigs(bigs, smalls).parts, PlaceBigs(bigs, smalls).order)
  {
    if bigs != [] {
      var p := PlaceBigs(bigs[..|bigs| - 1], smalls);
      var big := bigs[|bigs| - 1];
      LoopMentions(bigs[..|bigs| - 1], smalls);
      PullMentions(smalls, LocalHeaderLen(big.name), Minus(big.Size(), PART_FLOOR), Batch(p.order, p.consumed, [], 0));
      EmitMentions(p, smalls, big, BatchFor(p, smalls, big));
    }
  }

  lemma EmitMentions(p: Progress, smalls: seq<SourceFile>, big: SourceFile, b: Batch)
    requires Mentions(p.parts, p.order) && MentionsAll(b.segments, b.order) && forall id | id in p.order :: id in b.order
    ensures Mentions(Emit(p, smalls, big, b).parts, Emit(p, smalls, big, b).order)
  {
    MentionsMore(p.parts, p.order, b.order + [big.id]);
  }

  lemma {:induction false} LeftoversMention(order: seq<FileId>, leftovers: seq<SourceFile>)
    ensures MentionsAll(Streamed(leftovers), order + Ids(leftovers))
  {
    if leftovers != [] {
      LeftoversMention(order, leftovers[..|leftovers| - 1]);
    }
  }

  lemma FinalMentions(p: Progress, leftovers: seq<SourceFile>)
    requires Mentions(p.parts, p.order)
    ensures Mentions(FinalParts(p, leftovers), p.order + Ids(leftovers))
  {
    LeftoversMention(p.order, leftovers);
    MentionsMore(p.parts, p.order, p.order + Ids(leftovers));
  }

  lemma PlanMentions(files: seq<SourceFile>)
    ensures Mentions(PlanOf(files).parts, PlanOf(files).order)
  {
    var p := PlaceBigs(Bigs(files), Smalls(files));
    LoopMentions(Bigs(files), Smalls(files));
    ConsumedBound(Bigs(files), Smalls(files));
    FinalMentions(p, Smalls(files)[p.consumed..]);
  }

  lemma PlacedEntry(plan: Plan, cat: Catalog, id: FileId)
    requires EntriesPlaced(plan, cat) && id in plan.order
    ensures id in plan.entries
    ensures plan.entries[id].name == FileOf(cat, id).name && plan.entries[id].size == FileOf(cat, id).Size()
  {
    var i :| 0 <= i < |plan.order| && plan.order[i] == id;
    assert EntryAt(plan, cat, i);
  }

  /** The first loop of `build_central_directory`: where the directory starts. */
  method DirectoryOffset(plan: Plan) returns (cdOffset: nat)
    requires forall id | id in plan.order :: id in plan.entries
    ensures cdOffset == SumOfEntries(plan, plan.order)
  {
    cdOffset := 0;
    var i := 0;
    while i < |plan.order|
      invariant 0 <= i <= |plan.order| && cdOffset == SumOfEntries(plan, plan.order[..i])
    {
      var e := plan.entries[plan.order[i]];
      assert plan.order[..i + 1][..i] == plan.order[..i];
      cdOffset := cdOffset + LocalHeaderLen(e.name) + e.size;
      i := i + 1;
    }
    assert plan.order[..i] == plan.order;
  }

  /** `build_central_directory`: one record per ordered entry, then the end records. */
  method BuildCentralDirectory(plan: Plan, cat: Catalog) returns (out: Octets)
    requires EntriesPlaced(plan, cat) && forall id | id in plan.order :: id in plan.entries
    ensures out == DirectoryBytes(plan, cat)
  {
    var cdOffset := DirectoryOffset(plan);
    out := [];
    ghost var records := RecordsOf(PlanMetas(plan, cat));
    var i := 0;
    while i < |plan.order|
      invariant 0 <= i <= |plan.order| && out == Flatten(records[..i])
    {
      var e := plan.entries[plan.order[i]];
      FlattenNext(records, i);
      out := out + CentralDirEntry(EntryMeta(e.name, e.size, FileOf(cat, plan.order[i]).crc, e.localHeaderOffset));
      i := i + 1;
    }
    assert records[..i] == records;
    out := out + EndRecords(|plan.order|, cdOffset, |out|);
  }

  /** The bytes of a segment that stands for one entry. */
  method EntryPiece(plan: Plan, cat: Catalog, segment: Segment) returns (piece: Octets)
    requires EntriesPlaced(plan, cat)
    requires segment != CentralDirectory && segment.id in plan.order
    ensures piece == SegmentBytes(cat, [], segment)
  {
    PlacedEntry(plan, cat, segment.id);
    var entry := plan.entries[segment.id];
    var source := FileOf(cat, segment.id);
    if segment.StreamedBigPrefix? {
      piece := if segment.len <= |source.body| then source.body[..segment.len] else source.body;
    } else {
      piece := LocalHeader(entry.name, entry.size, source.crc);
      if segment.StreamedFile? {
        piece := piece + source.body;
      }
    }
  }

  /** The bytes of any segment; the directory is built when its segment is reached. */
  method SegmentPiece(plan: Plan, cat: Catalog, segment: Segment, ghost directory: Octets) returns (piece: Octets)
    requires EntriesPlaced(plan, cat) && (forall id | id in plan.order :: id in plan.entries)
    requires segment == CentralDirectory || segment.id in plan.order
    requires directory == DirectoryBytes(plan, cat)
    ensures piece == SegmentBytes(cat, directory, segment)
  {
    if segment == CentralDirectory {
      piece := BuildCentralDirectory(plan, cat);
    } else {
      piece := EntryPiece(plan, cat, segment);
      DirectoryFreeSegment(cat, directory, segment);
    }
  }

  /** `build_stream_part_bytes`: appends header, body, prefix or directory for each segment. */
  method BuildStreamPartBytes(plan: Plan, cat: Catalog, segments: seq<Segment>, ghost directory: Octets) returns (buf: Octets)
    requires EntriesPlaced(plan, cat) && (forall id | id in plan.order :: id in plan.entries)
    requires MentionsAll(segments, plan.order) && directory == DirectoryBytes(plan, cat)
    ensures buf == StreamBytes(cat, directory, segments)
  {
    buf := [];
    var i := 0;
    while i < |segments|
      invariant 0 <= i <= |segments|
      invariant buf == StreamBytes(cat, directory, segments[..i])
    {
      var piece := SegmentPiece(plan, cat, segments[i], directory);
      StreamNext(cat, directory, segments, i, buf, piece);
      buf := buf + piece;
      i := i + 1;
    }
    StreamWhole(cat, directory, segments);
  }

  ghost predicate Mentioned(part: PartSpec, order: seq<FileId>) {
    match part
    case Copy(_, id, _) => id in order
    case Stream(_, segments) => MentionsAll(segments, order)
  }

  /** A ranged copy takes its object from the offset to the end. */
  method CopyRange(plan: Plan, cat: Catalog, id: FileId, copyFrom: nat) returns (bytes: Octets)
    requires EntriesPlaced(plan, cat) && id in plan.order
    ensures bytes == if copyFrom <= FileOf(cat, id).Size() then FileOf(cat, id).body[copyFrom..] else []
  {
    PlacedEntry(plan, cat, id);
    var entry, source := plan.entries[id], FileOf(cat, id);
    bytes := if copyFrom <= entry.size then source.body[copyFrom..entry.size] else [];
  }

  /** The bytes of one part: a stream is assembled here, a copy stays on the server. */
  method RealisePart(plan: Plan, cat: Catalog, part: PartSpec, ghost directory: Octets) returns (bytes: Octets)
    requires EntriesPlaced(plan, cat) && (forall id | id in plan.order :: id in plan.entries)
    requires Mentioned(part, plan.order) && directory == DirectoryBytes(plan, cat)
    ensures bytes == PartBytes(cat, directory, part)
  {
    if part.Stream? {
      bytes := BuildStreamPartBytes(plan, cat, part.segments, directory);
    } else {
      bytes := CopyRange(plan, cat, part.id, part.copyFrom);
    }
  }

  /** The assembler can build every planned part, and the part's place is its number. */
  lemma PartReady(files: seq<SourceFile>, plan: Plan, cat: Catalog, k: nat)
    requires DistinctIds(files) && plan == PlanOf(files) && cat == CatalogOf(files) && k < |plan.parts|
    ensures EntriesPlaced(plan, cat) && forall id | id in plan.order :: id in plan.entries
    ensures Mentioned(plan.parts[k], plan.order) && plan.parts[k].partNumber == k + 1
    ensures PlannedParts(files)[k] == PartBytes(cat, DirectoryBytes(plan, cat), plan.parts[k])
  {
    EntriesReady(files, plan, cat);
    PlanMentions(files);
    NumberAt(files, plan, k);
  }

  lemma EntriesReady(files: seq<SourceFile>, plan: Plan, cat: Catalog)
    requires DistinctIds(files) && plan == PlanOf(files) && cat == CatalogOf(files)
    ensures EntriesPlaced(plan, cat) && forall id | id in plan.order :: id in plan.entries
  {
    AllEntriesPlaced(files);
    PlacedHas(plan, cat);
  }

  lemma NumberAt(files: seq<SourceFile>, plan: Plan, k: nat)
    requires DistinctIds(files) && plan == PlanOf(files) && k < |plan.parts|
    ensures plan.parts[k].partNumber == k + 1
  {
    NumberingTheorem(files);
  }

  /** One planned part, ready to be uploaded under its number. */
  method BuildPart(ghost files: seq<SourceFile>, plan: Plan, cat: Catalog, k: nat) returns (part: PartUpload)
    requires DistinctIds(files) && plan == PlanOf(files) && cat == CatalogOf(files) && k < |plan.parts|
    ensures part == PartUpload(k + 1, PlannedParts(files)[k])
  {
    PartReady(files, plan, cat, k);
    var bytes := RealisePart(plan, cat, plan.parts[k], DirectoryBytes(plan, cat));
    part := PartUpload(plan.parts[k].partNumber, bytes);
  }

  lemma StreamWhole(cat: Catalog, directory: Octets, segments: seq<Segment>)
    ensures StreamBytes(cat, directory, segments[..|segments|]) == StreamBytes(cat, directory, segments)
  {
    assert segments[..|segments|] == segments;
  }

  lemma StreamNext(cat: Catalog, directory: Octets, segments: seq<Segment>, i: nat, buf: Octets, piece: Octets)
    requires i < |segments| && buf == StreamBytes(cat, directory, segments[..i]) && piece == SegmentBytes(cat, directory, segments[i])
    ensures buf + piece == StreamBytes(cat, directory, segments[..i + 1])
  {
    assert segments[..i + 1][..i] == segments[..i];
  }

  // ---------- From listing to reader ----------

  /**
   * The round trip: the completed upload reads back as every listed file, under its name, with its
   * size, CRC, header offset and body, as soon as each entry is recoverable from its records.
   */
  lemma RoundTripTheorem(files: seq<SourceFile>, log: seq<PartUpload>, finished: seq<nat>)
    requires DistinctIds(files) && |PlannedArchive(files)| <= MAX64
    requires Uploads(log, PlannedParts(files))
    requires multiset(finished) == multiset(Numbers(|PlanOf(files).parts|))
    ensures var items := ItemsOf(FilesOf(CatalogOf(files), PlanOf(files).order));
            var completed := Complete(Received(log), Sort(AtMost, finished));
      && completed.Some?
      && (ReadDirectory(completed.value) == Some(ListingsOf(MetasOf(items))) <==> AllRecoverable(MetasOf(items)))
      && (AllRecoverable(MetasOf(items)) ==> forall i | 0 <= i < |items| ::
        ReadBody(completed.value, ListingsOf(MetasOf(items))[i]) == Some(items[i].body))
  {
    var items := ItemsOf(FilesOf(CatalogOf(files), PlanOf(files).order));
    UploadTheorem(files, log, finished);
    ReadsBack(items);
  }

  lemma BodyReadsBack(items: seq<Item>, i: nat)
    requires AllRecoverable(MetasOf(items)) && i < |items|
    ensures ReadBody(Archive(items), ListingsOf(MetasOf(items))[i]) == Some(items[i].body)
  {
    assert Recoverable(MetasOf(items)[i]);
    BodyRoundTrip(items, i);
  }

  lemma ReadsBack(items: seq<Item>)
    requires |Archive(items)| <= MAX64
    ensures ReadDirectory(Archive(items)) == Some(ListingsOf(MetasOf(items))) <==> AllRecoverable(MetasOf(items))
    ensures AllRecoverable(MetasOf(items)) ==> forall i | 0 <= i < |items| ::
        ReadBody(Archive(items), ListingsOf(MetasOf(items))[i]) == Some(items[i].body)
  {
    ListingRoundTrip(items);
    if AllRecoverable(MetasOf(items)) {
      forall i | 0 <= i < |items|
        ensures ReadBody(Archive(items), ListingsOf(MetasOf(items))[i]) == Some(items[i].body)
      {
        BodyReadsBack(items, i);
      }
    }
  }
}
