/** figment-engine-chain's planner: one chain of tiny uploads per big, small files spread over the chains. */
module ChainPlan {
  import opened Arithmetic
  import opened Bytes
  import opened FigmentFormat
  import opened Multipart
  import opened SinglePlan
  import opened Sorting
  import opened ZipReader

  datatype Entry = ChainEntry(id: FileId, name: Octets, size: nat, localHeaderOffset: nat)

  /** What one link appends: a generated header or a copied body. */
  datatype Piece = Header(id: FileId) | Body(id: FileId)

  datatype Link =
    | Bootstrap(anchor: FileId, stealLen: nat)
    | AnchorOnly(anchor: FileId)
    | AnchorThenAppend(anchor: FileId, piece: Piece)
    | ForwardThenAppend(piece: Piece)

  datatype Segment = Segment(anchor: FileId, index: nat, links: seq<Link>, objectLen: nat)

  datatype ChainStats = ChainStats(entries: nat, segments: nat, bigs: nat, smalls: nat, links: nat, maxChainDepth: nat)

  datatype Plan = ChainPlan(order: seq<FileId>, entries: map<FileId, Entry>, segments: seq<Segment>,
                       cdOffset: nat, cdSize: nat, stats: ChainStats)

  datatype Planned = Planned(plan: Plan) | NoBigs(smalls: nat)

  type Buckets = seq<seq<FileId>>

  predicate ById(a: SourceFile, b: SourceFile) { a.id <= b.id }

  // ---------- The planner as functions ----------

  /** One bucket per big; small `i` joins bucket `i % n`. */
  function Spread(bigs: seq<SourceFile>, smalls: seq<SourceFile>): (buckets: Buckets)
    requires bigs != []
    ensures |buckets| == |bigs|
    ensures forall k | 0 <= k < |bigs| :: buckets[k] != [] && buckets[k][0] == bigs[k].id
  {
    if smalls == [] then seq(|bigs|, k requires 0 <= k < |bigs| => [bigs[k].id])
    else
      var last := |smalls| - 1;
      var before := Spread(bigs, smalls[..last]);
      before[last % |bigs| := before[last % |bigs|] + [smalls[last].id]]
  }

  ghost predicate Anchored(buckets: Buckets) {
    forall k | 0 <= k < |buckets| :: buckets[k] != []
  }

  function HeaderLen(cat: Catalog, id: FileId): nat { LocalHeaderLen(FileOf(cat, id).name) }

  function BodyLen(cat: Catalog, id: FileId): nat { FileOf(cat, id).Size() }

  function PieceLen(cat: Catalog, p: Piece): nat {
    match p
    case Header(id) => HeaderLen(cat, id)
    case Body(id) => BodyLen(cat, id)
  }

  function PiecesLen(cat: Catalog, pieces: seq<Piece>): nat {
    if pieces == [] then 0 else PiecesLen(cat, pieces[..|pieces| - 1]) + PieceLen(cat, pieces[|pieces| - 1])
  }

  function SmallPieces(smalls: seq<FileId>): (pieces: seq<Piece>)
    ensures |pieces| == 2 * |smalls|
  {
    if smalls == [] then []
    else
      var last := |smalls| - 1;
      SmallPieces(smalls[..last]) + [Header(smalls[last]), Body(smalls[last])]
  }

  function NextBig(buckets: Buckets, k: nat): (next: Option<FileId>)
    requires Anchored(buckets) && k < |buckets|
  {
    if k + 1 < |buckets| then Some(buckets[k + 1][0]) else None
  }

  /** The pieces of a segment: its smalls, then the header of the next segment's big. */
  function PiecesOf(smalls: seq<FileId>, next: Option<FileId>): seq<Piece> {
    SmallPieces(smalls) + if next.Some? then [Header(next.value)] else []
  }

  function Forwards(pieces: seq<Piece>): (links: seq<Link>)
    ensures |links| == |pieces|
  {
    seq(|pieces|, i requires 0 <= i < |pieces| => ForwardThenAppend(pieces[i]))
  }

  function LinksOf(cat: Catalog, first: bool, anchor: FileId, pieces: seq<Piece>): seq<Link> {
    if first then [Bootstrap(anchor, Minus(PART_FLOOR, HeaderLen(cat, anchor)))] + Forwards(pieces)
    else if pieces == [] then [AnchorOnly(anchor)]
    else [AnchorThenAppend(anchor, pieces[0])] + Forwards(pieces[1..])
  }

  function ObjectLen(cat: Catalog, first: bool, anchor: FileId, pieces: seq<Piece>): nat {
    (if first then HeaderLen(cat, anchor) + BodyLen(cat, anchor) else BodyLen(cat, anchor)) + PiecesLen(cat, pieces)
  }

  function SegmentAt(cat: Catalog, buckets: Buckets, k: nat): Segment
    requires Anchored(buckets) && k < |buckets|
  {
    var anchor := buckets[k][0];
    var pieces := PiecesOf(buckets[k][1..], NextBig(buckets, k));
    Segment(anchor, k, LinksOf(cat, k == 0, anchor, pieces), ObjectLen(cat, k == 0, anchor, pieces))
  }

  function SegmentsOf(cat: Catalog, buckets: Buckets, n: nat): (segments: seq<Segment>)
    requires Anchored(buckets) && n <= |buckets|
    ensures |segments| == n
  {
    seq(n, k requires 0 <= k < n => SegmentAt(cat, buckets, k))
  }

  /** The archive order: the first `n` buckets, one after the other. */
  function OrderOf(buckets: Buckets, n: nat): seq<FileId>
    requires n <= |buckets|
  {
    if n == 0 then [] else OrderOf(buckets, n - 1) + buckets[n - 1]
  }

  function LinkTotal(segments: seq<Segment>): nat {
    if segments == [] then 0 else LinkTotal(segments[..|segments| - 1]) + |segments[|segments| - 1].links|
  }

  function Deepest(segments: seq<Segment>): nat {
    if segments == [] then 0 else Larger(Deepest(segments[..|segments| - 1]), |segments[|segments| - 1].links|)
  }

  function EntryFor(cat: Catalog, id: FileId, offset: nat): Entry {
    ChainEntry(id, FileOf(cat, id).name, FileOf(cat, id).Size(), offset)
  }

  function EntryTable(cat: Catalog, order: seq<FileId>): map<FileId, Entry> {
    if order == [] then map[]
    else
      var last := |order| - 1;
      EntryTable(cat, order[..last])[order[last] := EntryFor(cat, order[last], ComputeOffsets(cat, order)[last])]
  }

  /** The directory record of an entry, as long as it will be once its CRC is known. */
  function RecordLen(cat: Catalog, id: FileId, offset: nat): nat {
    CentralDirEntryLen(EntryMeta(FileOf(cat, id).name, FileOf(cat, id).Size(), 0, offset))
  }

  function DirectoryLen(cat: Catalog, order: seq<FileId>): nat {
    if order == [] then 0
    else
      var last := |order| - 1;
      DirectoryLen(cat, order[..last]) + RecordLen(cat, order[last], ComputeOffsets(cat, order)[last])
  }

  function PlanFrom(cat: Catalog, bigs: seq<SourceFile>, smalls: seq<SourceFile>): Plan
    requires bigs != []
  {
    var buckets := Spread(bigs, smalls);
    var order, segments := OrderOf(buckets, |buckets|), SegmentsOf(cat, buckets, |buckets|);
    ChainPlan(order, EntryTable(cat, order), segments, RunningTotal(cat, order), DirectoryLen(cat, order),
         ChainStats(|order|, |segments|, |bigs|, |smalls|, LinkTotal(segments), Deepest(segments)))
  }

  function ChainSmalls(files: seq<SourceFile>): seq<SourceFile> {
    Sort(ById, Filter(files, false))
  }

  /** `size_of`, filled from the bigs and then the smalls. */
  function ChainCatalog(files: seq<SourceFile>): Catalog {
    CatalogOf(Bigs(files) + ChainSmalls(files))
  }

  function ChainPlanOf(files: seq<SourceFile>): Plan
    requires Bigs(files) != []
  {
    PlanFrom(ChainCatalog(files), Bigs(files), ChainSmalls(files))
  }

  // ---------- The listing and the buckets ----------

  lemma SortedListing(files: seq<SourceFile>)
    requires DistinctIds(files)
    ensures var all := Bigs(files) + ChainSmalls(files);
      && multiset(all) == multiset(files) && DistinctIds(all)
      && (forall f | f in Bigs(files) :: IsBig(f)) && (forall f | f in ChainSmalls(files) :: !IsBig(f))
  {
    var bigs, smalls := Bigs(files), ChainSmalls(files);
    assert multiset(bigs) == multiset(Filter(files, true)) && multiset(smalls) == multiset(Filter(files, false));
    FilterPartitions(files);
    DistinctPermutes(files, bigs + smalls);
    forall f | f in bigs ensures IsBig(f) { assert f in multiset(bigs); }
    forall f | f in smalls ensures !IsBig(f) { assert f in multiset(smalls); }
  }

  lemma ListingFound(files: seq<SourceFile>, f: SourceFile)
    requires DistinctIds(files) && (f in Bigs(files) || f in ChainSmalls(files))
    ensures f.id in ChainCatalog(files) && FileOf(ChainCatalog(files), f.id) == f
  {
    var all := Bigs(files) + ChainSmalls(files);
    SortedListing(files);
    assert f in all;
    var i :| 0 <= i < |all| && all[i] == f;
    CatalogFinds(all, i);
    CatalogHas(all, i);
  }

  function IdBag(files: seq<SourceFile>): multiset<FileId> {
    if files == [] then multiset{} else IdBag(files[..|files| - 1]) + multiset{files[|files| - 1].id}
  }

  function BucketBag(buckets: Buckets, n: nat): multiset<FileId>
    requires n <= |buckets|
  {
    if n == 0 then multiset{} else BucketBag(buckets, n - 1) + multiset(buckets[n - 1])
  }

  lemma {:induction false} OrderBag(buckets: Buckets, n: nat)
    requires n <= |buckets|
    ensures multiset(OrderOf(buckets, n)) == BucketBag(buckets, n)
  {
    if n > 0 {
      OrderBag(buckets, n - 1);
    }
  }

  lemma OneIdMore(bag: multiset<FileId>, bucket: seq<FileId>, id: FileId)
    ensures bag + multiset(bucket + [id]) == (bag + multiset(bucket)) + multiset{id}
  {}

  lemma {:induction false} GrowBag(buckets: Buckets, j: nat, id: FileId, n: nat)
    requires j < |buckets| && n <= |buckets|
    ensures BucketBag(buckets[j := buckets[j] + [id]], n)
         == BucketBag(buckets, n) + if j < n then multiset{id} else multiset{}
  {
    if n > 0 {
      GrowBag(buckets, j, id, n - 1);
      if n - 1 == j {
        OneIdMore(BucketBag(buckets, n - 1), buckets[j], id);
      }
    }
  }

  lemma {:induction false} SoloBag(bigs: seq<SourceFile>, buckets: Buckets, n: nat)
    requires n <= |bigs| == |buckets| && forall k | 0 <= k < |bigs| :: buckets[k] == [bigs[k].id]
    ensures BucketBag(buckets, n) == IdBag(bigs[..n])
  {
    if n > 0 {
      SoloBag(bigs, buckets, n - 1);
      IdBagNext(bigs, n - 1);
    }
  }

  lemma IdBagNext(files: seq<SourceFile>, n: nat)
    requires n < |files|
    ensures IdBag(files[..n + 1]) == IdBag(files[..n]) + multiset([files[n].id])
  {
    assert files[..n + 1][..n] == files[..n];
  }

  lemma {:induction false} SpreadBag(bigs: seq<SourceFile>, smalls: seq<SourceFile>)
    requires bigs != []
    ensures BucketBag(Spread(bigs, smalls), |bigs|) == IdBag(bigs) + IdBag(smalls)
  {
    if smalls == [] {
      SoloBag(bigs, Spread(bigs, []), |bigs|);
      assert bigs[..|bigs|] == bigs;
    } else {
      var last := |smalls| - 1;
      SpreadBag(bigs, smalls[..last]);
      GrowBag(Spread(bigs, smalls[..last]), last % |bigs|, smalls[last].id, |bigs|);
    }
  }

  /** The archive order holds the id of every big and every small, each as often as it is listed. */
  lemma OrderHoldsAll(bigs: seq<SourceFile>, smalls: seq<SourceFile>)
    requires bigs != []
    ensures var buckets := Spread(bigs, smalls);
      multiset(OrderOf(buckets, |buckets|)) == IdBag(bigs) + IdBag(smalls)
  {
    OrderBag(Spread(bigs, smalls), |bigs|);
    SpreadBag(bigs, smalls);
  }

  /** Round robin: bucket `k` holds its big and the smalls `k`, `k + n`, `k + 2n`, and so on. */
  lemma {:induction false} BucketSize(bigs: seq<SourceFile>, smalls: seq<SourceFile>, k: nat)
    requires k < |bigs|
    ensures |Spread(bigs, smalls)[k]| == 1 + |smalls| / |bigs| + if k < |smalls| % |bigs| then 1 else 0
  {
    if smalls != [] {
      BucketSize(bigs, smalls[..|smalls| - 1], k);
      DivStep(|smalls| - 1, |bigs|);
    } else {
      DivZero(|bigs|);
    }
  }

  lemma DivZero(n: nat)
    requires n > 0
    ensures 0 / n == 0 && 0 % n == 0
  {}

  /** Which small lands where: the `t`-th small of bucket `k` is small number `k + t * n`. */
  lemma {:induction false} BucketMember(bigs: seq<SourceFile>, smalls: seq<SourceFile>, i: nat)
    requires bigs != [] && i < |smalls|
    ensures var b := Spread(bigs, smalls)[i % |bigs|];
      1 + i / |bigs| < |b| && b[1 + i / |bigs|] == smalls[i].id
  {
    var last := |smalls| - 1;
    BucketSize(bigs, smalls[..last], i % |bigs|);
    if i < last {
      BucketMember(bigs, smalls[..last], i);
    } else {
      assert last / |bigs| == |smalls[..last]| / |bigs|;
    }
  }

  lemma ByIdIsTotal()
    ensures TotalPreorder(ById)
  {}

  lemma DistinctTail(a: seq<SourceFile>, b: seq<SourceFile>)
    requires DistinctIds(a + b)
    ensures DistinctIds(b)
  {
    forall i, j | 0 <= i < j < |b| ensures b[i].id != b[j].id {
      assert (a + b)[|a| + i] == b[i] && (a + b)[|a| + j] == b[j];
    }
  }

  lemma SmallsSorted(files: seq<SourceFile>)
    requires DistinctIds(files)
    ensures SortedBy(ById, ChainSmalls(files)) && DistinctIds(ChainSmalls(files))
  {
    ByIdIsTotal();
    SortSorts(ById, Filter(files, false));
    SortedListing(files);
    DistinctTail(Bigs(files), ChainSmalls(files));
  }

  lemma PlaceInRange(m: nat, n: nat, k: nat, t: nat) returns (i: nat)
    requires k < n && t < m / n + if k < m % n then 1 else 0
    ensures i < m && i % n == k && i / n == t
  {
    i := k + t * n;
    Divides(i, n, t, k);
    if t < m / n {
      MulGap(n, t, m / n);
    }
  }

  lemma LaterPlace(n: nat, i: nat, j: nat)
    requires n > 0 && i / n < j / n
    ensures i < j
  {
    MulGap(n, i / n, j / n);
  }

  /** Which small stands at place `a` of bucket `k`. */
  lemma BucketSource(bigs: seq<SourceFile>, smalls: seq<SourceFile>, bucket: seq<FileId>, k: nat, a: nat) returns (i: nat)
    requires k < |bigs| && bucket == Spread(bigs, smalls)[k] && 1 <= a < |bucket|
    ensures i < |smalls| && i / |bigs| == a - 1 && bucket[a] == smalls[i].id
  {
    BucketSize(bigs, smalls, k);
    i := PlaceInRange(|smalls|, |bigs|, k, a - 1);
    BucketMember(bigs, smalls, i);
  }

  lemma BucketAscends(bigs: seq<SourceFile>, smalls: seq<SourceFile>, bucket: seq<FileId>, k: nat, a: nat, b: nat)
    requires SortedBy(ById, smalls) && DistinctIds(smalls)
    requires k < |bigs| && bucket == Spread(bigs, smalls)[k] && 1 <= a < b < |bucket|
    ensures bucket[a] < bucket[b]
  {
    var i := BucketSource(bigs, smalls, bucket, k, a);
    var j := BucketSource(bigs, smalls, bucket, k, b);
    LaterPlace(|bigs|, i, j);
    assert ById(smalls[i], smalls[j]);
  }

  /** The smalls are spread in the order of their ids: behind its big, every bucket's ids ascend. */
  lemma BucketsAscend(files: seq<SourceFile>, bucket: seq<FileId>, k: nat, a: nat, b: nat)
    requires DistinctIds(files) && k < |Bigs(files)| && bucket == Spread(Bigs(files), ChainSmalls(files))[k]
    requires 1 <= a < b < |bucket|
    ensures bucket[a] < bucket[b]
  {
    SmallsSorted(files);
    BucketAscends(Bigs(files), ChainSmalls(files), bucket, k, a, b);
  }

  /** Bucket sizes differ by at most one. */
  lemma BucketsBalanced(bigs: seq<SourceFile>, smalls: seq<SourceFile>, j: nat, k: nat)
    requires j < |bigs| && k < |bigs|
    ensures |Spread(bigs, smalls)[j]| <= |Spread(bigs, smalls)[k]| + 1
  {
    BucketSize(bigs, smalls, j);
    BucketSize(bigs, smalls, k);
  }

  // ---------- Link counts ----------

  function LinksAt(buckets: Buckets, k: nat): nat
    requires Anchored(buckets) && k < |buckets|
  {
    2 * (|buckets[k]| - 1) + if k == 0 then (if |buckets| > 1 then 2 else 1)
                             else if k + 1 < |buckets| || |buckets[k]| == 1 then 1 else 0
  }

  lemma LinkCount(cat: Catalog, buckets: Buckets, k: nat)
    requires Anchored(buckets) && k < |buckets|
    ensures |SegmentAt(cat, buckets, k).links| == LinksAt(buckets, k)
  {}

  lemma SegmentAppend(cat: Catalog, buckets: Buckets, k: nat, segments: seq<Segment>, s: Segment)
    requires Anchored(buckets) && k < |buckets| && segments == SegmentsOf(cat, buckets, k) && s == SegmentAt(cat, buckets, k)
    ensures segments + [s] == SegmentsOf(cat, buckets, k + 1)
    ensures LinkTotal(segments + [s]) == LinkTotal(segments) + |s.links|
    ensures Deepest(segments + [s]) == Larger(Deepest(segments), |s.links|)
  {
    assert (segments + [s])[..k] == segments;
  }

  lemma LinksNext(cat: Catalog, buckets: Buckets, k: nat)
    requires Anchored(buckets) && k < |buckets|
    ensures LinkTotal(SegmentsOf(cat, buckets, k + 1)) == LinkTotal(SegmentsOf(cat, buckets, k)) + LinksAt(buckets, k)
  {
    SegmentAppend(cat, buckets, k, SegmentsOf(cat, buckets, k), SegmentAt(cat, buckets, k));
    LinkCount(cat, buckets, k);
  }

  /** Running totals of link counts. */
  lemma {:induction false} LinksSoFar(buckets: Buckets, totals: seq<nat>, n: nat)
    requires Anchored(buckets) && n <= |buckets| < |totals| && totals[0] == 0
    requires forall k | 0 <= k < |buckets| :: totals[k + 1] == totals[k] + LinksAt(buckets, k)
    ensures totals[n] == 2 * (|OrderOf(buckets, n)| - n) + n
                       + (if n > 0 && |buckets| > 1 then 1 else 0)
                       - (if n == |buckets| > 1 && |buckets[n - 1]| > 1 then 1 else 0)
  {
    if n > 0 {
      LinksSoFar(buckets, totals, n - 1);
      assert totals[n - 1 + 1] == totals[n - 1] + LinksAt(buckets, n - 1);
      assert buckets[n - 1] != [];
    }
  }

  lemma RunningTotals(cat: Catalog, buckets: Buckets) returns (totals: seq<nat>)
    requires Anchored(buckets)
    ensures |totals| == |buckets| + 1 && totals[0] == 0
    ensures totals[|buckets|] == LinkTotal(SegmentsOf(cat, buckets, |buckets|))
    ensures forall k | 0 <= k < |buckets| :: totals[k + 1] == totals[k] + LinksAt(buckets, k)
  {
    totals := seq(|buckets| + 1, k requires 0 <= k <= |buckets| => LinkTotal(SegmentsOf(cat, buckets, k)));
    forall k | 0 <= k < |buckets| ensures totals[k + 1] == totals[k] + LinksAt(buckets, k) {
      LinksNext(cat, buckets, k);
    }
  }

  lemma LinksAltogether(cat: Catalog, buckets: Buckets)
    requires Anchored(buckets) && buckets != []
    ensures LinkTotal(SegmentsOf(cat, buckets, |buckets|))
         == 2 * (|OrderOf(buckets, |buckets|)| - |buckets|) + |buckets|
          + (if |buckets| > 1 && |buckets[|buckets| - 1]| == 1 then 1 else 0)
  {
    var totals := RunningTotals(cat, buckets);
    LinksSoFar(buckets, totals, |buckets|);
  }

  lemma {:induction false} BagSize(files: seq<SourceFile>)
    ensures |IdBag(files)| == |files|
  {
    if files != [] {
      BagSize(files[..|files| - 1]);
    }
  }

  lemma OrderSize(bigs: seq<SourceFile>, smalls: seq<SourceFile>)
    requires bigs != []
    ensures |OrderOf(Spread(bigs, smalls), |bigs|)| == |bigs| + |smalls|
  {
    OrderHoldsAll(bigs, smalls);
    BagSize(bigs);
    BagSize(smalls);
    assert |multiset(OrderOf(Spread(bigs, smalls), |bigs|))| == |OrderOf(Spread(bigs, smalls), |bigs|)|;
  }

  /** The number of links: two per small and one per big, one more when the last of several bigs stands alone. */
  lemma LinkTheorem(cat: Catalog, bigs: seq<SourceFile>, smalls: seq<SourceFile>)
    requires bigs != []
    ensures var plan := PlanFrom(cat, bigs, smalls);
      plan.stats.links == 2 * |smalls| + |bigs| + if |bigs| >= 2 && |smalls| < |bigs| then 1 else 0
  {
    var buckets := Spread(bigs, smalls);
    LinksAltogether(cat, buckets);
    OrderSize(bigs, smalls);
    BucketSize(bigs, smalls, |bigs| - 1);
    LastBucket(|smalls|, |bigs|);
  }

  lemma LastBucket(m: nat, n: nat)
    requires n > 0
    ensures m / n + (if n - 1 < m % n then 1 else 0) == 0 <==> m < n
  {}

  lemma {:induction false} DeepestBounds(cat: Catalog, buckets: Buckets, n: nat, most: nat)
    requires Anchored(buckets) && n <= |buckets| && forall k | 0 <= k < n :: |buckets[k]| <= 1 + most
    ensures Deepest(SegmentsOf(cat, buckets, n)) <= 2 * most + 2
  {
    if n > 0 {
      DeepestBounds(cat, buckets, n - 1, most);
      LinkCount(cat, buckets, n - 1);
      SegmentAppend(cat, buckets, n - 1, SegmentsOf(cat, buckets, n - 1), SegmentAt(cat, buckets, n - 1));
    }
  }

  lemma {:induction false} DeepestIs(segments: seq<Segment>)
    ensures forall k | 0 <= k < |segments| :: |segments[k].links| <= Deepest(segments)
  {
    if segments != [] {
      DeepestIs(segments[..|segments| - 1]);
    }
  }

  lemma {:induction false} DeepestAt(segments: seq<Segment>) returns (k: nat)
    requires segments != []
    ensures k < |segments| && |segments[k].links| == Deepest(segments)
  {
    k := |segments| - 1;
    if |segments| > 1 && Deepest(segments[..|segments| - 1]) > |segments[k].links| {
      k := DeepestAt(segments[..|segments| - 1]);
    } else if |segments| == 1 {
      assert Deepest(segments[..0]) == 0;
    }
  }

  /** The depth counted is that of the longest chain, and it grows only with the ratio of smalls to bigs. */
  lemma DepthTheorem(cat: Catalog, bigs: seq<SourceFile>, smalls: seq<SourceFile>)
    requires bigs != []
    ensures var plan := PlanFrom(cat, bigs, smalls);
      && (forall k | 0 <= k < |plan.segments| :: |plan.segments[k].links| <= plan.stats.maxChainDepth)
      && (exists k :: 0 <= k < |plan.segments| && |plan.segments[k].links| == plan.stats.maxChainDepth)
      && plan.stats.maxChainDepth <= 2 * (|smalls| / |bigs| + 1) + 2
  {
    DeepestIs(PlanFrom(cat, bigs, smalls).segments);
    var longest := DeepestAt(PlanFrom(cat, bigs, smalls).segments);
    var buckets := Spread(bigs, smalls);
    forall k | 0 <= k < |buckets| ensures |buckets[k]| <= 1 + (|smalls| / |bigs| + 1) {
      BucketSize(bigs, smalls, k);
    }
    DeepestBounds(cat, buckets, |buckets|, |smalls| / |bigs| + 1);
  }

  // ---------- The planner's loops ----------

  method SpreadSmalls(bigs: seq<SourceFile>, smalls: seq<SourceFile>) returns (buckets: Buckets)
    requires bigs != []
    ensures buckets == Spread(bigs, smalls)
  {
    buckets := seq(|bigs|, k requires 0 <= k < |bigs| => [bigs[k].id]);
    var i := 0;
    while i < |smalls|
      invariant 0 <= i <= |smalls|
      invariant buckets == Spread(bigs, smalls[..i])
    {
      assert smalls[..i + 1][..i] == smalls[..i];
      buckets := buckets[i % |bigs| := buckets[i % |bigs|] + [smalls[i].id]];
      i := i + 1;
    }
    assert smalls[..i] == smalls;
  }

  lemma TotalAppend(cat: Catalog, order: seq<FileId>, id: FileId)
    ensures RunningTotal(cat, order + [id]) == RunningTotal(cat, order) + HeaderLen(cat, id) + BodyLen(cat, id)
  {
    assert (order + [id])[..|order|] == order;
  }

  /** Pushes a bucket's ids and advances the body offset. */
  method PlaceBucket(cat: Catalog, placed: seq<FileId>, start: nat, bucket: seq<FileId>) returns (order: seq<FileId>, offset: nat)
    requires start == RunningTotal(cat, placed)
    ensures order == placed + bucket && offset == RunningTotal(cat, order)
  {
    order, offset := placed, start;
    var i := 0;
    while i < |bucket|
      invariant 0 <= i <= |bucket|
      invariant order == placed + bucket[..i] && offset == RunningTotal(cat, order)
    {
      TotalAppend(cat, order, bucket[i]);
      order := order + [bucket[i]];
      offset := offset + HeaderLen(cat, bucket[i]) + BodyLen(cat, bucket[i]);
      i := i + 1;
    }
    assert bucket[..i] == bucket;
  }

  method CollectPieces(smalls: seq<FileId>, next: Option<FileId>) returns (pieces: seq<Piece>)
    ensures pieces == PiecesOf(smalls, next)
  {
    pieces := [];
    var i := 0;
    while i < |smalls|
      invariant 0 <= i <= |smalls|
      invariant pieces == SmallPieces(smalls[..i])
    {
      assert smalls[..i + 1][..i] == smalls[..i];
      pieces := pieces + [Header(smalls[i]), Body(smalls[i])];
      i := i + 1;
    }
    assert smalls[..i] == smalls;
    if next.Some? {
      pieces := pieces + [Header(next.value)];
    }
  }

  /** Appends one copy-forward link per piece, counting the object's length along. */
  method ForwardPieces(cat: Catalog, pieces: seq<Piece>, links0: seq<Link>, len0: nat) returns (links: seq<Link>, objectLen: nat)
    ensures links == links0 + Forwards(pieces) && objectLen == len0 + PiecesLen(cat, pieces)
  {
    links, objectLen := links0, len0;
    var i := 0;
    while i < |pieces|
      invariant 0 <= i <= |pieces|
      invariant links == links0 + Forwards(pieces[..i]) && objectLen == len0 + PiecesLen(cat, pieces[..i])
    {
      assert pieces[..i + 1][..i] == pieces[..i];
      assert Forwards(pieces[..i + 1]) == Forwards(pieces[..i]) + [ForwardThenAppend(pieces[i])];
      objectLen := objectLen + PieceLen(cat, pieces[i]);
      links := links + [ForwardThenAppend(pieces[i])];
      i := i + 1;
    }
    assert pieces[..i] == pieces;
  }

  lemma {:induction false} PiecesLenSplit(cat: Catalog, pieces: seq<Piece>)
    requires pieces != []
    ensures PiecesLen(cat, pieces) == PieceLen(cat, pieces[0]) + PiecesLen(cat, pieces[1..])
  {
    var front := pieces[..|pieces| - 1];
    if front != [] {
      PiecesLenSplit(cat, front);
      assert pieces[1..][..|pieces| - 2] == front[1..];
    }
  }

  method ChainLinks(cat: Catalog, first: bool, anchor: FileId, pieces: seq<Piece>) returns (links: seq<Link>, objectLen: nat)
    ensures links == LinksOf(cat, first, anchor, pieces) && objectLen == ObjectLen(cat, first, anchor, pieces)
  {
    if first {
      var stealLen := Minus(PART_FLOOR, HeaderLen(cat, anchor));
      links, objectLen := ForwardPieces(cat, pieces, [Bootstrap(anchor, stealLen)], HeaderLen(cat, anchor) + BodyLen(cat, anchor));
    } else if pieces == [] {
      links, objectLen := [AnchorOnly(anchor)], BodyLen(cat, anchor);
    } else {
      PiecesLenSplit(cat, pieces);
      links, objectLen := ForwardPieces(cat, pieces[1..], [AnchorThenAppend(anchor, pieces[0])],
                                        BodyLen(cat, anchor) + PieceLen(cat, pieces[0]));
    }
  }

  method ChainSegment(cat: Catalog, buckets: Buckets, k: nat) returns (segment: Segment)
    requires Anchored(buckets) && k < |buckets|
    ensures segment == SegmentAt(cat, buckets, k)
  {
    var anchor := buckets[k][0];
    var pieces := CollectPieces(buckets[k][1..], NextBig(buckets, k));
    var links, objectLen := ChainLinks(cat, k == 0, anchor, pieces);
    segment := Segment(anchor, k, links, objectLen);
  }

  /** The loop over the buckets. */
  method ChainSegments(cat: Catalog, buckets: Buckets)
    returns (order: seq<FileId>, segments: seq<Segment>, offset: nat, totalLinks: nat, maxDepth: nat)
    requires Anchored(buckets)
    ensures order == OrderOf(buckets, |buckets|) && segments == SegmentsOf(cat, buckets, |buckets|)
    ensures offset == RunningTotal(cat, order)
    ensures totalLinks == LinkTotal(segments) && maxDepth == Deepest(segments)
  {
    order, segments, offset, totalLinks, maxDepth := [], [], 0, 0, 0;
    var k := 0;
    while k < |buckets|
      invariant 0 <= k <= |buckets|
      invariant order == OrderOf(buckets, k) && segments == SegmentsOf(cat, buckets, k)
      invariant offset == RunningTotal(cat, order)
      invariant totalLinks == LinkTotal(segments) && maxDepth == Deepest(segments)
    {
      order, offset := PlaceBucket(cat, order, offset, buckets[k]);
      var segment := ChainSegment(cat, buckets, k);
      SegmentAppend(cat, buckets, k, segments, segment);
      totalLinks := totalLinks + |segment.links|;
      maxDepth := Larger(maxDepth, |segment.links|);
      segments := segments + [segment];
      k := k + 1;
    }
  }

  /** Offsets become entries; every id is taken out of `size_of` exactly once. */
  method PlaceEntries(cat: Catalog, order: seq<FileId>) returns (entries: map<FileId, Entry>, cdSize: nat)
    requires forall i, j | 0 <= i < j < |order| :: order[i] != order[j]
    requires forall i | 0 <= i < |order| :: order[i] in cat
    ensures entries == EntryTable(cat, order) && cdSize == DirectoryLen(cat, order)
  {
    var offsets := ComputeOffsets(cat, order);
    var sizeOf := cat;
    entries, cdSize := map[], 0;
    var i := 0;
    while i < |order|
      invariant 0 <= i <= |order|
      invariant forall j | i <= j < |order| :: order[j] in sizeOf && sizeOf[order[j]] == cat[order[j]]
      invariant entries == EntryTable(cat, order[..i]) && cdSize == DirectoryLen(cat, order[..i])
    {
      var id := order[i];
      var file := sizeOf[id];
      sizeOf := sizeOf - {id};
      OffsetsOfPrefix(cat, order, i + 1);
      assert order[..i + 1][..i] == order[..i];
      cdSize := cdSize + CentralDirEntryLen(EntryMeta(file.name, file.Size(), 0, offsets[i]));
      entries := entries[id := ChainEntry(id, file.name, file.Size(), offsets[i])];
      i := i + 1;
    }
    assert order[..i] == order;
  }

  lemma {:induction false} BagHas(files: seq<SourceFile>, id: FileId)
    requires id in IdBag(files)
    ensures exists f :: f in files && f.id == id
  {
    var last := |files| - 1;
    if files[last].id == id {
      assert files[last] in files;
    } else {
      BagHas(files[..last], id);
      var f :| f in files[..last] && f.id == id;
      assert f in files;
    }
  }

  lemma {:induction false} NotInBag(files: seq<SourceFile>, id: FileId)
    requires forall i | 0 <= i < |files| :: files[i].id != id
    ensures id !in IdBag(files)
  {
    if files != [] {
      NotInBag(files[..|files| - 1], id);
    }
  }

  lemma {:induction false} DistinctBag(files: seq<SourceFile>, id: FileId)
    requires DistinctIds(files)
    ensures IdBag(files)[id] <= 1
  {
    if files != [] {
      var last := |files| - 1;
      DistinctBag(files[..last], id);
      if id == files[last].id {
        NotInBag(files[..last], id);
      }
    }
  }

  lemma {:induction false} BagConcat(a: seq<SourceFile>, b: seq<SourceFile>)
    ensures IdBag(a + b) == IdBag(a) + IdBag(b)
  {
    if b == [] {
      assert a + b == a;
    } else {
      assert (a + b)[..|a + b| - 1] == a + b[..|b| - 1];
      BagConcat(a, b[..|b| - 1]);
    }
  }

  lemma BagIndices(order: seq<FileId>, i: nat, j: nat)
    requires i < j < |order| && order[i] == order[j]
    ensures multiset(order)[order[i]] >= 2
  {
    assert order == order[..j] + order[j..];
    assert order[..j][i] == order[i] && order[j..][0] == order[i];
    assert order[i] in multiset(order[..j]) && order[i] in multiset(order[j..]);
  }

  /** The order lists the id of every file exactly once. */
  lemma OrderTheorem(files: seq<SourceFile>)
    requires DistinctIds(files) && Bigs(files) != []
    ensures var order := ChainPlanOf(files).order;
      && multiset(order) == IdBag(Bigs(files) + ChainSmalls(files))
      && (forall i, j | 0 <= i < j < |order| :: order[i] != order[j])
      && (forall i | 0 <= i < |order| :: order[i] in ChainCatalog(files))
  {
    var bigs, smalls, order := Bigs(files), ChainSmalls(files), ChainPlanOf(files).order;
    SortedListing(files);
    OrderHoldsAll(bigs, smalls);
    BagConcat(bigs, smalls);
    forall i, j | 0 <= i < j < |order| ensures order[i] != order[j] {
      DistinctBag(bigs + smalls, order[i]);
      if order[i] == order[j] {
        BagIndices(order, i, j);
        assert false;
      }
    }
    forall i | 0 <= i < |order| ensures order[i] in ChainCatalog(files) {
      assert order[i] in multiset(order);
      BagHas(bigs + smalls, order[i]);
      var f: SourceFile :| f in bigs + smalls && f.id == order[i];
      ListingFound(files, f);
    }
  }

  /** The planner; it fails exactly when no file reaches the floor. */
  method PlanSegmentChain(files: seq<SourceFile>) returns (r: Planned)
    requires DistinctIds(files)
    ensures r == if Bigs(files) == [] then NoBigs(|files|) else Planned(ChainPlanOf(files))
  {
    var bigs, smalls := Bigs(files), ChainSmalls(files);
    if bigs == [] {
      NoBigsCount(files);
      return NoBigs(|smalls|);
    }
    var cat := CatalogOf(bigs + smalls);
    var buckets := SpreadSmalls(bigs, smalls);
    var order, segments, offset, totalLinks, maxDepth := ChainSegments(cat, buckets);
    OrderTheorem(files);
    var entries, cdSize := PlaceEntries(cat, order);
    r := Planned(ChainPlan(order, entries, segments, offset, cdSize,
                      ChainStats(|order|, |buckets|, |bigs|, |smalls|, totalLinks, maxDepth)));
  }

  lemma NoBigsCount(files: seq<SourceFile>)
    requires Bigs(files) == []
    ensures |ChainSmalls(files)| == |files|
  {
    FilterPartitions(files);
    assert multiset(ChainSmalls(files)) == multiset(Filter(files, false));
    assert multiset(Bigs(files)) == multiset(Filter(files, true));
    assert multiset(ChainSmalls(files)) == multiset(files);
    assert |multiset(ChainSmalls(files))| == |ChainSmalls(files)| && |multiset(files)| == |files|;
  }

  lemma {:induction false} FilterEmpty(files: seq<SourceFile>)
    ensures Filter(files, true) == [] <==> forall f | f in files :: !IsBig(f)
  {
    if files != [] {
      var last := |files| - 1;
      FilterEmpty(files[..last]);
      assert files == files[..last] + [files[last]];
    }
  }

  /** Planning fails exactly when no file reaches the floor. */
  lemma NoBigsTheorem(files: seq<SourceFile>)
    ensures Bigs(files) == [] <==> forall f | f in files :: f.Size() < PART_FLOOR
  {
    FilterEmpty(files);
    assert |multiset(Bigs(files))| == |Bigs(files)| && |multiset(Filter(files, true))| == |Filter(files, true)|;
  }

  /** How many files reach the floor, counted in the listing. */
  function BigCount(files: seq<SourceFile>): nat {
    if files == [] then 0 else BigCount(files[..|files| - 1]) + if |files[|files| - 1].body| >= 5_242_880 then 1 else 0
  }

  lemma {:induction false} BigsCounted(files: seq<SourceFile>)
    ensures |Filter(files, true)| == BigCount(files) <= |files| && |Filter(files, false)| == |files| - BigCount(files)
  {
    if files != [] {
      BigsCounted(files[..|files| - 1]);
    }
  }

  lemma SameSize<T>(a: seq<T>, b: seq<T>)
    requires multiset(a) == multiset(b)
    ensures |a| == |b|
  {
    assert |multiset(a)| == |a| && |multiset(b)| == |b|;
  }

  /** The statistics count the listing: its files, those that reach the floor, one segment for each, and the rest. */
  lemma StatsTheorem(files: seq<SourceFile>)
    requires Bigs(files) != []
    ensures var plan, bigs := ChainPlanOf(files), BigCount(files);
      && plan.stats.entries == |plan.order| == |files| && plan.stats.bigs == bigs <= |files|
      && plan.stats.segments == |plan.segments| == bigs && plan.stats.smalls == |files| - bigs
  {
    BigsCounted(files);
    SameSize(Bigs(files), Filter(files, true));
    SameSize(ChainSmalls(files), Filter(files, false));
    OrderSize(Bigs(files), ChainSmalls(files));
  }
}
