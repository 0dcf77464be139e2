/** Which listings the two figment planners turn into archives that can be read back. */
module FigmentPlanned {
  import opened Arithmetic
  import opened Bytes
  import opened Canonical
  import opened FigmentFormat
  import opened Multipart
  import opened SinglePlan
  import opened Sorting
  import opened ZipReader
  import Chain = ChainPlan
  import ChainStitch
  import Single = SingleArchive

  /** The fields of the file's records hold its name, its checksum and its size. */
  predicate Fits(f: SourceFile) { |f.name| <= MAX16 && f.crc <= MAX32 && f.Size() <= MAX32 }

  predicate Full(f: SourceFile) { f.Size() == MAX32 }

  /** Every file fits, and at most one has a size of all ones. */
  ghost predicate Restorable(files: seq<SourceFile>) {
    && (forall f | f in files :: Fits(f))
    && (forall f, g | f in files && g in files && Full(f) && Full(g) :: f == g)
  }

  lemma SameRestorable(files: seq<SourceFile>, ordered: seq<SourceFile>)
    requires forall f :: f in files <==> f in ordered
    ensures Restorable(files) <==> Restorable(ordered)
  {}

  // ---------- Offsets in an order ----------

  lemma OffsetNext(files: seq<SourceFile>, i: nat)
    requires i < |files|
    ensures OffsetOf(LocalsOf(ItemsOf(files)), i + 1)
         == OffsetOf(LocalsOf(ItemsOf(files)), i) + LocalHeaderLen(files[i].name) + files[i].Size()
  {
    OffsetStep(LocalsOf(ItemsOf(files)), i);
    LocalHeaderLength(files[i].name, files[i].Size(), files[i].crc);
  }

  lemma {:induction false} OffsetsGrow(files: seq<SourceFile>, i: nat, j: nat)
    requires i < j <= |files|
    ensures OffsetOf(LocalsOf(ItemsOf(files)), i) + files[i].Size() < OffsetOf(LocalsOf(ItemsOf(files)), j)
    decreases j
  {
    OffsetRises(files, j - 1);
    if i < j - 1 {
      OffsetsGrow(files, i, j - 1);
    }
  }

  lemma OffsetRises(files: seq<SourceFile>, i: nat)
    requires i < |files|
    ensures OffsetOf(LocalsOf(ItemsOf(files)), i) + files[i].Size() < OffsetOf(LocalsOf(ItemsOf(files)), i + 1)
  {
    OffsetNext(files, i);
  }

  /** Behind a file of all ones another one is lost. */
  lemma SecondIsLost(files: seq<SourceFile>, i: nat, j: nat)
    requires i < j < |files| && Full(files[i]) && Full(files[j])
    ensures !Recoverable(MetasOf(ItemsOf(files))[j])
  {
    OffsetsGrow(files, i, j);
  }

  lemma RecoverableFits(files: seq<SourceFile>)
    requires AllRecoverable(MetasOf(ItemsOf(files)))
    ensures Restorable(files)
  {
    forall f | f in files ensures Fits(f) {
      var i :| 0 <= i < |files| && files[i] == f;
      assert Recoverable(MetasOf(ItemsOf(files))[i]);
    }
    forall f, g | f in files && g in files && Full(f) && Full(g) ensures f == g {
      var i :| 0 <= i < |files| && files[i] == f;
      var j :| 0 <= j < |files| && files[j] == g;
      if i < j {
        SecondIsLost(files, i, j);
      } else if j < i {
        SecondIsLost(files, j, i);
      }
    }
  }

  lemma OffsetFits(files: seq<SourceFile>, i: nat)
    requires i < |files| && |Archive(ItemsOf(files))| <= MAX64
    ensures OffsetOf(LocalsOf(ItemsOf(files)), i) <= MAX64
  {
    RegionAt(LocalsOf(ItemsOf(files)), i);
  }

  lemma FittingRecovers(files: seq<SourceFile>)
    requires |Archive(ItemsOf(files))| <= MAX64 && forall f | f in files :: Fits(f)
    requires forall i | 0 <= i < |files| && Full(files[i]) :: OffsetOf(LocalsOf(ItemsOf(files)), i) <= MAX32
    ensures AllRecoverable(MetasOf(ItemsOf(files)))
  {
    forall i | 0 <= i < |files| ensures Recoverable(MetasOf(ItemsOf(files))[i]) {
      OffsetFits(files, i);
      assert files[i] in files;
    }
  }

  /** Enough that, in a listing that is restorable, a file of all ones starts below 4 GiB. */
  lemma RestorableExactly(files: seq<SourceFile>, ordered: seq<SourceFile>)
    requires |Archive(ItemsOf(ordered))| <= MAX64 && forall f :: f in files <==> f in ordered
    requires Restorable(files) ==> forall i | 0 <= i < |ordered| && Full(ordered[i]) :: OffsetOf(LocalsOf(ItemsOf(ordered)), i) <= MAX32
    ensures AllRecoverable(MetasOf(ItemsOf(ordered))) <==> Restorable(files)
  {
    SameRestorable(files, ordered);
    if AllRecoverable(MetasOf(ItemsOf(ordered))) {
      RecoverableFits(ordered);
    }
    if Restorable(files) {
      FittingRecovers(ordered);
    }
  }

  // ---------- The single plan ----------

  /** In front of a big that can give up a whole floor at most one small is drawn. */
  lemma PullOne(smalls: seq<SourceFile>, headerBig: nat, maxSteal: nat)
    requires maxSteal >= PART_FLOOR
    ensures var b := Pull(smalls, headerBig, maxSteal, Batch([], 0, [], 0));
      b.order == [] || (smalls != [] && b.order == [smalls[0].id])
  {
    var b := Batch([], 0, [], 0);
    if !BatchDone(smalls, headerBig, maxSteal, b) {
      var c := AddSmall(b, smalls[0]);
      assert c.order == [smalls[0].id] && c.segments != [];
      assert BatchDone(smalls, headerBig, maxSteal, c);
    }
  }

  lemma {:induction false} PullExtends(smalls: seq<SourceFile>, headerBig: nat, maxSteal: nat, b: Batch)
    ensures b.order <= Pull(smalls, headerBig, maxSteal, b).order
    decreases |smalls| - b.consumed
  {
    if !BatchDone(smalls, headerBig, maxSteal, b) {
      PullExtends(smalls, headerBig, maxSteal, AddSmall(b, smalls[b.consumed]));
    }
  }

  /** Once the first big is placed, the order only grows. */
  lemma {:induction false} FirstBigStays(bigs: seq<SourceFile>, smalls: seq<SourceFile>)
    requires bigs != []
    ensures PlaceBig(NOTHING, smalls, bigs[0]).order <= PlaceBigs(bigs, smalls).order
  {
    var front, last := bigs[..|bigs| - 1], bigs[|bigs| - 1];
    if front == [] {
      assert PlaceBigs(front, smalls) == NOTHING;
    } else {
      FirstBigStays(front, smalls);
      PlaceExtends(PlaceBigs(front, smalls), smalls, last);
    }
  }

  lemma PlaceExtends(p: Progress, smalls: seq<SourceFile>, big: SourceFile)
    ensures p.order <= PlaceBig(p, smalls, big).order
  {
    PullExtends(smalls, LocalHeaderLen(big.name), Minus(big.Size(), PART_FLOOR), Batch(p.order, p.consumed, [], 0));
    EmittedParts(p, smalls, big, BatchFor(p, smalls, big));
  }

  lemma FullPlaced(smalls: seq<SourceFile>, big: SourceFile) returns (front: seq<FileId>)
    requires Full(big)
    ensures PlaceBig(NOTHING, smalls, big).order == front + [big.id]
    ensures front == [] || (smalls != [] && front == [smalls[0].id])
  {
    PullOne(smalls, LocalHeaderLen(big.name), Minus(big.Size(), PART_FLOOR));
    var b := BatchFor(NOTHING, smalls, big);
    EmittedParts(NOTHING, smalls, big, b);
    front := b.order;
  }

  lemma PlacedFirst(files: seq<SourceFile>)
    ensures PlaceBigs(Bigs(files), Smalls(files)).order <= PlanOf(files).order
  {}

  lemma InPrefix(order: seq<FileId>, front: seq<FileId>, id: FileId)
    requires front + [id] <= order
    ensures |front| < |order| && order[|front|] == id && (front != [] ==> order[0] == front[0])
  {
    assert (front + [id])[|front|] == id;
  }

  /** A largest file of all ones stands first, or behind the first small. */
  lemma FullStandsInFront(files: seq<SourceFile>, bigs: seq<SourceFile>, smalls: seq<SourceFile>, order: seq<FileId>) returns (k: nat)
    requires bigs == Bigs(files) && smalls == Smalls(files) && order == PlanOf(files).order && bigs != [] && Full(bigs[0])
    ensures k < |order| && order[k] == bigs[0].id && (k == 0 || (k == 1 && smalls != [] && order[0] == smalls[0].id))
  {
    var front := FullPlaced(smalls, bigs[0]);
    FirstBigStays(bigs, smalls);
    PlacedFirst(files);
    InPrefix(order, front, bigs[0].id);
    k := |front|;
  }

  lemma SortedMembers(files: seq<SourceFile>, sorted: seq<SourceFile>, f: SourceFile)
    requires multiset(sorted) == multiset(files)
    ensures f in sorted <==> f in files
  {
    assert f in multiset(sorted) <==> f in multiset(files);
  }

  /** The first of the bigs is the largest file. */
  lemma LargestFirstBig(files: seq<SourceFile>, f: SourceFile)
    requires f in files && IsBig(f)
    ensures Bigs(files) != [] && Bigs(files)[0] in files && f.Size() <= Bigs(files)[0].Size()
  {
    var bigs := Bigs(files);
    Single.BothOrdersTotal();
    SortSorts(LargestFirst, Filter(files, true));
    Single.InFilter(files, true, f);
    SortedMembers(Filter(files, true), bigs, f);
    var i :| 0 <= i < |bigs| && bigs[i] == f;
    assert i > 0 ==> LargestFirst(bigs[0], bigs[i]);
    SortedMembers(Filter(files, true), bigs, bigs[0]);
    Single.InFilter(files, true, bigs[0]);
  }

  lemma SmallIsSmall(files: seq<SourceFile>)
    requires Smalls(files) != []
    ensures Smalls(files)[0] in files && !IsBig(Smalls(files)[0])
  {
    SortedMembers(Filter(files, false), Smalls(files), Smalls(files)[0]);
    Single.InFilter(files, false, Smalls(files)[0]);
  }

  /** The only file of all ones is the first of the bigs. */
  lemma FullIsFirst(files: seq<SourceFile>, f: SourceFile)
    requires Restorable(files) && f in files && Full(f)
    ensures Bigs(files) != [] && f == Bigs(files)[0]
  {
    LargestFirstBig(files, f);
    OnlyFull(files, f, Bigs(files)[0]);
  }

  lemma OnlyFull(files: seq<SourceFile>, f: SourceFile, g: SourceFile)
    requires Restorable(files) && f in files && g in files && Full(f) && f.Size() <= g.Size()
    ensures f == g
  {
    assert Fits(g);
    assert Full(g);
  }

  lemma FullOffset(files: seq<SourceFile>, ordered: seq<SourceFile>, i: nat)
    requires DistinctIds(files) && Restorable(files) && ordered == FilesOf(CatalogOf(files), PlanOf(files).order)
    requires multiset(ordered) == multiset(files) && DistinctIds(ordered) && i < |ordered| && Full(ordered[i])
    ensures OffsetOf(LocalsOf(ItemsOf(ordered)), i) <= MAX32
  {
    IdOfOrdered(files, ordered, i);
    FullIsFirst(files, ordered[i]);
    var k := FullStandsInFront(files, Bigs(files), Smalls(files), PlanOf(files).order);
    IdOfOrdered(files, ordered, k);
    SamePlace(ordered, i, k);
    if k == 1 {
      SmallIsSmall(files);
      IdOfOrdered(files, ordered, 0);
      ListedOnce(files, ordered[0], Smalls(files)[0]);
      BehindSmall(files, ordered);
    }
  }

  lemma SamePlace(ordered: seq<SourceFile>, i: nat, k: nat)
    requires DistinctIds(ordered) && i < |ordered| && k < |ordered| && ordered[i].id == ordered[k].id
    ensures i == k
  {}

  lemma BehindSmall(files: seq<SourceFile>, ordered: seq<SourceFile>)
    requires Restorable(files) && ordered != [] && ordered[0] in files && !IsBig(ordered[0])
    ensures OffsetOf(LocalsOf(ItemsOf(ordered)), 1) <= MAX32
  {
    assert Fits(ordered[0]);
    OffsetNext(ordered, 0);
  }

  lemma IdOfOrdered(files: seq<SourceFile>, ordered: seq<SourceFile>, i: nat)
    requires DistinctIds(files) && ordered == FilesOf(CatalogOf(files), PlanOf(files).order) && i < |ordered|
    requires multiset(ordered) == multiset(files)
    ensures ordered[i].id == PlanOf(files).order[i] && ordered[i] in files
  {
    SortedMembers(files, ordered, ordered[i]);
    CatalogKeepsIds(files, PlanOf(files).order[i]);
  }

  lemma {:induction false} CatalogKeepsIds(files: seq<SourceFile>, id: FileId)
    ensures FileOf(CatalogOf(files), id).id == id
  {
    if files != [] {
      CatalogKeepsIds(files[..|files| - 1], id);
    }
  }

  lemma ListedOnce(files: seq<SourceFile>, f: SourceFile, g: SourceFile)
    requires DistinctIds(files) && f in files && g in files && f.id == g.id
    ensures f == g
  {
    var i :| 0 <= i < |files| && files[i] == f;
    var j :| 0 <= j < |files| && files[j] == g;
    assert i == j;
  }

  /**
   * Every entry of the single plan's archive can be read back if and only if every file fits its fields
   * and at most one has a size of 0xFFFFFFFF.
   */
  lemma SinglePlanTheorem(files: seq<SourceFile>)
    requires DistinctIds(files) && |Single.PlannedArchive(files)| <= MAX64
    ensures AllRecoverable(MetasOf(ItemsOf(FilesOf(CatalogOf(files), PlanOf(files).order)))) <==> Restorable(files)
  {
    var ordered := FilesOf(CatalogOf(files), PlanOf(files).order);
    Single.OrderTheorem(files);
    AllMembers(files, ordered);
    if Restorable(files) {
      FullOffsets(files, ordered);
    }
    RestorableExactly(files, ordered);
  }

  lemma AllMembers(files: seq<SourceFile>, ordered: seq<SourceFile>)
    requires multiset(ordered) == multiset(files)
    ensures forall f :: f in files <==> f in ordered
  {
    forall f ensures f in files <==> f in ordered {
      SortedMembers(files, ordered, f);
    }
  }

  lemma FullOffsets(files: seq<SourceFile>, ordered: seq<SourceFile>)
    requires DistinctIds(files) && Restorable(files) && ordered == FilesOf(CatalogOf(files), PlanOf(files).order)
    requires multiset(ordered) == multiset(files) && DistinctIds(ordered)
    ensures forall i | 0 <= i < |ordered| && Full(ordered[i]) :: OffsetOf(LocalsOf(ItemsOf(ordered)), i) <= MAX32
  {
    forall i | 0 <= i < |ordered| && Full(ordered[i]) ensures OffsetOf(LocalsOf(ItemsOf(ordered)), i) <= MAX32 {
      FullOffset(files, ordered, i);
    }
  }

  // ---------- The chain plan ----------

  lemma {:induction false} OrderStarts(buckets: Chain.Buckets, n: nat)
    requires 0 < n <= |buckets| && buckets[0] != []
    ensures Chain.OrderOf(buckets, n) != [] && Chain.OrderOf(buckets, n)[0] == buckets[0][0]
  {
    if n > 1 {
      OrderStarts(buckets, n - 1);
    } else {
      assert Chain.OrderOf(buckets, 0) == [];
    }
  }

  lemma ChainStartsWithFirst(files: seq<SourceFile>)
    requires Bigs(files) != []
    ensures Chain.ChainPlanOf(files).order != [] && Chain.ChainPlanOf(files).order[0] == Bigs(files)[0].id
  {
    var buckets := Chain.Spread(Bigs(files), Chain.ChainSmalls(files));
    OrderStarts(buckets, |buckets|);
  }

  lemma ChainIds(files: seq<SourceFile>, ordered: seq<SourceFile>, order: seq<FileId>)
    requires Bigs(files) != [] && order == Chain.ChainPlanOf(files).order && ordered == FilesOf(Chain.ChainCatalog(files), order)
    ensures forall i | 0 <= i < |ordered| :: ordered[i].id == order[i]
  {
    forall i | 0 <= i < |ordered| ensures ordered[i].id == order[i] {
      CatalogKeepsIds(Bigs(files) + Chain.ChainSmalls(files), order[i]);
    }
  }

  lemma ChainHas(files: seq<SourceFile>, ordered: seq<SourceFile>, order: seq<FileId>, f: SourceFile)
    requires DistinctIds(files) && Bigs(files) != [] && f in files
    requires order == Chain.ChainPlanOf(files).order && ordered == FilesOf(Chain.ChainCatalog(files), order)
    ensures f in ordered
  {
    var all := Bigs(files) + Chain.ChainSmalls(files);
    Chain.SortedListing(files);
    Chain.OrderTheorem(files);
    SortedMembers(files, all, f);
    Chain.ListingFound(files, f);
    IdInBag(all, f);
    assert f.id in multiset(order);
    var i :| 0 <= i < |order| && order[i] == f.id;
    assert ordered[i] == f;
  }

  lemma ChainHasOnly(files: seq<SourceFile>, ordered: seq<SourceFile>, order: seq<FileId>, i: nat)
    requires DistinctIds(files) && Bigs(files) != [] && i < |ordered|
    requires order == Chain.ChainPlanOf(files).order && ordered == FilesOf(Chain.ChainCatalog(files), order)
    ensures ordered[i] in files
  {
    var all := Bigs(files) + Chain.ChainSmalls(files);
    Chain.SortedListing(files);
    Chain.OrderTheorem(files);
    CatalogListed(all, order[i]);
    SortedMembers(files, all, ordered[i]);
  }

  lemma ChainDistinct(files: seq<SourceFile>, ordered: seq<SourceFile>, order: seq<FileId>)
    requires DistinctIds(files) && Bigs(files) != [] && order == Chain.ChainPlanOf(files).order && |ordered| == |order|
    requires forall i | 0 <= i < |ordered| :: ordered[i].id == order[i]
    ensures DistinctIds(ordered)
  {
    Chain.OrderTheorem(files);
  }

  /** The chain's order names every listed file, and nothing else. */
  lemma ChainMembers(files: seq<SourceFile>, ordered: seq<SourceFile>, order: seq<FileId>)
    requires DistinctIds(files) && Bigs(files) != []
    requires order == Chain.ChainPlanOf(files).order && ordered == FilesOf(Chain.ChainCatalog(files), order)
    ensures forall f :: f in files <==> f in ordered
    ensures forall i | 0 <= i < |ordered| :: ordered[i].id == order[i]
    ensures DistinctIds(ordered)
  {
    ChainIds(files, ordered, order);
    ChainDistinct(files, ordered, order);
    forall f | f in files ensures f in ordered {
      ChainHas(files, ordered, order, f);
    }
    forall f | f in ordered ensures f in files {
      var i :| 0 <= i < |ordered| && ordered[i] == f;
      ChainHasOnly(files, ordered, order, i);
    }
  }

  lemma {:induction false} IdInBag(files: seq<SourceFile>, f: SourceFile)
    requires f in files
    ensures f.id in Chain.IdBag(files)
  {
    if f != files[|files| - 1] {
      IdInBag(files[..|files| - 1], f);
    }
  }

  lemma {:induction false} CatalogListed(files: seq<SourceFile>, id: FileId)
    requires id in CatalogOf(files)
    ensures CatalogOf(files)[id] in files
  {
    if id != files[|files| - 1].id {
      CatalogListed(files[..|files| - 1], id);
    }
  }

  lemma ChainFullOffset(files: seq<SourceFile>, ordered: seq<SourceFile>, i: nat)
    requires DistinctIds(ordered) && Restorable(files) && i < |ordered| && Full(ordered[i]) && ordered[i] in files && Bigs(files) != []
    requires |ordered| == |Chain.ChainPlanOf(files).order| && ordered[0].id == Chain.ChainPlanOf(files).order[0]
    ensures OffsetOf(LocalsOf(ItemsOf(ordered)), i) == 0
  {
    FullIsFirst(files, ordered[i]);
    ChainStartsWithFirst(files);
    SamePlace(ordered, i, 0);
  }

  /** The same of the chain plan, which starts with the largest file. */
  lemma ChainPlanTheorem(files: seq<SourceFile>)
    requires DistinctIds(files) && Bigs(files) != [] && |ChainStitch.ChainArchiveOf(files)| <= MAX64
    ensures AllRecoverable(MetasOf(ItemsOf(FilesOf(Chain.ChainCatalog(files), Chain.ChainPlanOf(files).order)))) <==> Restorable(files)
  {
    var ordered := FilesOf(Chain.ChainCatalog(files), Chain.ChainPlanOf(files).order);
    ChainMembers(files, ordered, Chain.ChainPlanOf(files).order);
    if Restorable(files) {
      forall i | 0 <= i < |ordered| && Full(ordered[i]) ensures OffsetOf(LocalsOf(ItemsOf(ordered)), i) <= MAX32 {
        ChainFullOffset(files, ordered, i);
      }
    }
    RestorableExactly(files, ordered);
  }

  // ---------- What a reader gets ----------

  /** The listing and every body of the single plan's archive are read back if and only if the listing is restorable. */
  lemma SingleReadsBack(files: seq<SourceFile>, items: seq<Item>)
    requires DistinctIds(files) && items == ItemsOf(FilesOf(CatalogOf(files), PlanOf(files).order)) && |Archive(items)| <= MAX64
    ensures ReadDirectory(Archive(items)) == Some(ListingsOf(MetasOf(items))) <==> Restorable(files)
    ensures Restorable(files) ==> forall i | 0 <= i < |items| :: ReadBody(Archive(items), ListingsOf(MetasOf(items))[i]) == Some(items[i].body)
  {
    SinglePlanTheorem(files);
    Single.ReadsBack(items);
  }

  lemma ChainReadsBack(files: seq<SourceFile>, items: seq<Item>)
    requires DistinctIds(files) && Bigs(files) != []
    requires items == ItemsOf(FilesOf(Chain.ChainCatalog(files), Chain.ChainPlanOf(files).order)) && |Archive(items)| <= MAX64
    ensures ReadDirectory(Archive(items)) == Some(ListingsOf(MetasOf(items))) <==> Restorable(files)
    ensures Restorable(files) ==> forall i | 0 <= i < |items| :: ReadBody(Archive(items), ListingsOf(MetasOf(items))[i]) == Some(items[i].body)
  {
    ChainPlanTheorem(files);
    Single.ReadsBack(items);
  }

  // ---------- A listing that is lost ----------

  /** Two files of all ones. */
  function TwoFull(a: FileId, b: FileId): seq<SourceFile> {
    [SourceFile(a, [97], seq(MAX32, _ => 0), 0), SourceFile(b, [98], seq(MAX32, _ => 0), 0)]
  }

  lemma TwoRecords(ordered: seq<SourceFile>)
    requires |ordered| == 2 && forall i | 0 <= i < 2 :: |ordered[i].name| == 1
    ensures |Flatten(RecordsOf(MetasOf(ItemsOf(ordered))))| <= 118
  {
    var metas := MetasOf(ItemsOf(ordered));
    forall i | 0 <= i < 2 ensures |RecordsOf(metas)[i]| <= 59 {
      CentralDirEntryLength(metas[i]);
    }
    FlattenAtMost(RecordsOf(metas), 59);
  }

  lemma ArchiveLength(items: seq<Item>)
    ensures |Archive(items)| == |Region(LocalsOf(items))| + |Flatten(RecordsOf(MetasOf(items)))| + 98
  {
    EndRecordsLength(|MetasOf(items)|, |Region(LocalsOf(items))|, |Flatten(RecordsOf(MetasOf(items)))|);
  }

  lemma RegionNext(files: seq<SourceFile>, f: SourceFile)
    ensures |Region(LocalsOf(ItemsOf(files + [f])))| == |Region(LocalsOf(ItemsOf(files)))| + LocalHeaderLen(f.name) + f.Size()
  {
    assert ItemsOf(files + [f]) == ItemsOf(files) + [f.AsItem()];
    LocalsAppend(ItemsOf(files), f.AsItem());
    LocalHeaderLength(f.name, f.Size(), f.crc);
  }

  lemma TwoRegion(ordered: seq<SourceFile>)
    requires |ordered| == 2 && forall i | 0 <= i < 2 :: |ordered[i].name| == 1 && Full(ordered[i])
    ensures |Region(LocalsOf(ItemsOf(ordered)))| == 2 * (31 + MAX32)
  {
    RegionNext(ordered[..1], ordered[1]);
    RegionNext([], ordered[0]);
    assert ordered == ordered[..1] + [ordered[1]] && ordered[..1] == [] + [ordered[0]];
  }

  lemma TwoFullLength(ordered: seq<SourceFile>)
    requires |ordered| == 2 && forall i | 0 <= i < 2 :: |ordered[i].name| == 1 && Full(ordered[i])
    ensures |Archive(ItemsOf(ordered))| <= MAX64
  {
    TwoRegion(ordered);
    TwoRecords(ordered);
    ArchiveLength(ItemsOf(ordered));
  }

  lemma TwoOrdered(files: seq<SourceFile>, ordered: seq<SourceFile>, a: FileId, b: FileId)
    requires files == TwoFull(a, b) && multiset(ordered) == multiset(files)
    ensures |ordered| == 2 && forall i | 0 <= i < 2 :: |ordered[i].name| == 1 && Full(ordered[i])
  {
    assert |multiset(ordered)| == |ordered| && |multiset(files)| == |files|;
    forall i | 0 <= i < |ordered| ensures |ordered[i].name| == 1 && Full(ordered[i]) {
      SortedMembers(files, ordered, ordered[i]);
    }
  }

  lemma TwoFullDiffer(files: seq<SourceFile>, a: FileId, b: FileId)
    requires a != b && files == TwoFull(a, b)
    ensures DistinctIds(files) && !Restorable(files)
  {
    assert files[0] in files && files[1] in files && Full(files[0]) && Full(files[1]) && files[0] != files[1];
  }

  /** The planner accepts both files, and its archive does not read back. */
  lemma TwoFullAreLost(files: seq<SourceFile>, ordered: seq<SourceFile>, a: FileId, b: FileId)
    requires a != b && files == TwoFull(a, b) && ordered == FilesOf(CatalogOf(files), PlanOf(files).order)
    ensures DistinctIds(files) && multiset(ordered) == multiset(files)
    ensures ReadDirectory(Archive(ItemsOf(ordered))) != Some(ListingsOf(MetasOf(ItemsOf(ordered))))
  {
    TwoFullDiffer(files, a, b);
    Single.OrderTheorem(files);
    TwoOrdered(files, ordered, a, b);
    TwoFullLength(ordered);
    SingleReadsBack(files, ItemsOf(ordered));
  }
}
