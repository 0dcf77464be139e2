/** All segments at once: CRC arrivals, link builds and stitch copies in any interleaving. */
module ChainStitch {
  import opened Bytes
  import opened Canonical
  import opened ChainArchive
  import opened ChainPlan
  import opened ChainRun
  import opened FigmentFormat
  import opened Multipart
  import opened SinglePlan
  import opened Sorting
  import opened ZipReader
  import Single = SingleArchive

  /** `done[k]` links of segment `k` are complete; `log` holds the parts copied into the stitch upload. */
  datatype Run = Run(store: Store, done: seq<nat>, crcs: CrcStore, log: seq<PartUpload>, failed: bool)

  datatype Event = CrcArrives(id: FileId) | Advance(k: nat)

  function Start(segments: Segments): Run {
    Run(map[], seq(|segments|, _ => 0), map[], [], false)
  }

  /** The gate in front of a segment's first link. */
  predicate Gated(links: seq<Link>, crcs: CrcStore) {
    !(SegmentCrcIds(links) <= crcs.Keys)
  }

  function Previous(run: Run, segment: ChainPlan.Segment, d: nat): Option<Octets> {
    if d == 0 then None else Get(run.store, OutKey(segment.links, segment.index, d - 1))
  }

  /** The next link of the `k`-th segment; where it is kept depends on the index the segment carries. */
  function BuildNext(source: Source, run: Run, segment: ChainPlan.Segment, k: nat): Run
    requires k < |run.done| && run.done[k] < |segment.links|
  {
    var d := run.done[k];
    match RunLink(source, segment.links[d], Previous(run, segment, d))
    case None => run.(failed := true)
    case Some(bytes) =>
      run.(store := run.store[OutKey(segment.links, segment.index, d) := bytes], done := run.done[k := d + 1])
  }

  /** Copies a finished object into the stitch upload under the number its index gives; retries repeat this. */
  function StitchCopy(run: Run, segment: ChainPlan.Segment): Run {
    match Get(run.store, FinishedObject(segment.index))
    case None => run.(failed := true)
    case Some(bytes) => run.(log := run.log + [PartUpload(segment.index + 1, bytes)])
  }

  function AdvanceStep(cat: Catalog, run: Run, segment: ChainPlan.Segment, k: nat): Run
    requires k < |run.done|
  {
    if run.done[k] == 0 && Gated(segment.links, run.crcs) then run
    else if run.done[k] < |segment.links| then BuildNext(SourceOf(cat, run.crcs), run, segment, k)
    else StitchCopy(run, segment)
  }

  function Step(cat: Catalog, segments: Segments, run: Run, e: Event): Run {
    match e
    case CrcArrives(id) => run.(crcs := run.crcs[id := FileOf(cat, id).crc])
    case Advance(k) => if k < |segments| && k < |run.done| then AdvanceStep(cat, run, segments[k], k) else run
  }

  function RunAll(cat: Catalog, segments: Segments, events: seq<Event>): Run {
    if events == [] then Start(segments)
    else Step(cat, segments, RunAll(cat, segments, events[..|events| - 1]), events[|events| - 1])
  }

  // ---------- The invariant ----------

  /** Segment `k` is as far as its counter says, and its last object is in the store. */
  ghost predicate Built(c: Contents, links: seq<Link>, k: nat, d: nat, store: Store, crcs: CrcStore) {
    && d <= |links|
    && (d > 0 ==> !Gated(links, crcs) && Get(store, OutKey(links, k, d - 1)) == Before(c, links, d))
  }

  ghost predicate Copied(c: Contents, segments: Segments, done: seq<nat>, up: PartUpload) {
    && 1 <= up.number <= |segments| && up.number <= |done|
    && done[up.number - 1] == |segments[up.number - 1].links|
    && up.bytes == ObjectBytes(c, segments[up.number - 1].links)
  }

  /** Every segment carries its own position, and its links can run. */
  ghost predicate AllChained(c: Contents, segments: Segments) {
    forall k | 0 <= k < |segments| :: segments[k].index == k && Chained(c, segments[k].links)
  }

  ghost predicate Inv(cat: Catalog, c: Contents, segments: Segments, run: Run) {
    && !run.failed && |run.done| == |segments| && Honest(cat, run.crcs)
    && (forall k | 0 <= k < |segments| :: Built(c, segments[k].links, k, run.done[k], run.store, run.crcs))
    && (forall i | 0 <= i < |run.log| :: Copied(c, segments, run.done, run.log[i]))
  }

  lemma StartInv(cat: Catalog, c: Contents, segments: Segments)
    ensures Inv(cat, c, segments, Start(segments))
  {}

  lemma CrcKeeps(cat: Catalog, c: Contents, segments: Segments, run: Run, id: FileId)
    requires Inv(cat, c, segments, run)
    ensures Inv(cat, c, segments, run.(crcs := run.crcs[id := FileOf(cat, id).crc]))
  {
    var crcs := run.crcs[id := FileOf(cat, id).crc];
    forall k | 0 <= k < |segments| ensures Built(c, segments[k].links, k, run.done[k], run.store, crcs) {
      assert Built(c, segments[k].links, k, run.done[k], run.store, run.crcs);
    }
  }

  /** Segment `k` one link further. */
  function LinkBuilt(c: Contents, run: Run, links: seq<Link>, k: nat): Run
    requires k < |run.done| && run.done[k] < |links|
  {
    var d := run.done[k];
    run.(store := run.store[OutKey(links, k, d) := ObjectBytes(c, links[..d + 1])], done := run.done[k := d + 1])
  }

  /** The next link runs on the object its predecessor left. */
  lemma NextLinkRuns(source: Source, c: Contents, run: Run, segment: ChainPlan.Segment, k: nat)
    requires segment.index == k && Chained(c, segment.links) && Provides(source, c, SegmentCrcIds(segment.links))
    requires k < |run.done| && run.done[k] < |segment.links|
    requires Built(c, segment.links, k, run.done[k], run.store, run.crcs)
    ensures BuildNext(source, run, segment, k) == LinkBuilt(c, run, segment.links, k)
  {
    LinkStep(source, c, segment.links, run.done[k]);
  }

  /** An open gate and an honest store give a link all the headers it needs. */
  lemma SegmentMoves(cat: Catalog, c: Contents, run: Run, segment: ChainPlan.Segment, k: nat)
    requires c == ContentsOf(cat) && Honest(cat, run.crcs)
    requires segment.index == k && Chained(c, segment.links) && !Gated(segment.links, run.crcs)
    requires k < |run.done| && run.done[k] < |segment.links|
    requires Built(c, segment.links, k, run.done[k], run.store, run.crcs)
    ensures AdvanceStep(cat, run, segment, k) == LinkBuilt(c, run, segment.links, k)
  {
    SourceProvides(cat, run.crcs, SegmentCrcIds(segment.links));
    NextLinkRuns(SourceOf(cat, run.crcs), c, run, segment, k);
  }

  lemma BuiltElsewhere(c: Contents, links: seq<Link>, j: nat, d: nat, store: Store, crcs: CrcStore, key: Key, bytes: Octets)
    requires Built(c, links, j, d, store, crcs) && key.index != j
    ensures Built(c, links, j, d, store[key := bytes], crcs)
  {}

  lemma BuiltHere(c: Contents, links: seq<Link>, k: nat, d: nat, store: Store, crcs: CrcStore)
    requires d < |links| && !Gated(links, crcs)
    ensures Built(c, links, k, d + 1, store[OutKey(links, k, d) := ObjectBytes(c, links[..d + 1])], crcs)
  {}

  lemma CopiedStill(c: Contents, segments: Segments, done: seq<nat>, k: nat, up: PartUpload)
    requires Copied(c, segments, done, up) && k < |done| && k < |segments| && done[k] < |segments[k].links|
    ensures Copied(c, segments, done[k := done[k] + 1], up)
  {}

  lemma BuildKeeps(cat: Catalog, c: Contents, segments: Segments, run: Run, k: nat)
    requires Inv(cat, c, segments, run) && k < |segments|
    requires run.done[k] < |segments[k].links| && !Gated(segments[k].links, run.crcs)
    ensures Inv(cat, c, segments, LinkBuilt(c, run, segments[k].links, k))
  {
    var links, d := segments[k].links, run.done[k];
    var next := LinkBuilt(c, run, links, k);
    forall j | 0 <= j < |segments| ensures Built(c, segments[j].links, j, next.done[j], next.store, run.crcs) {
      assert Built(c, segments[j].links, j, run.done[j], run.store, run.crcs);
      if j == k {
        BuiltHere(c, links, k, d, run.store, run.crcs);
      } else {
        BuiltElsewhere(c, segments[j].links, j, run.done[j], run.store, run.crcs, OutKey(links, k, d), ObjectBytes(c, links[..d + 1]));
      }
    }
    forall i | 0 <= i < |run.log| ensures Copied(c, segments, next.done, run.log[i]) {
      CopiedStill(c, segments, run.done, k, run.log[i]);
    }
  }

  lemma StitchKeeps(cat: Catalog, c: Contents, segments: Segments, run: Run, k: nat)
    requires Inv(cat, c, segments, run) && AllChained(c, segments)
    requires k < |segments| && run.done[k] == |segments[k].links|
    ensures StitchCopy(run, segments[k]) == run.(log := run.log + [PartUpload(k + 1, ObjectBytes(c, segments[k].links))])
    ensures Inv(cat, c, segments, StitchCopy(run, segments[k]))
  {
    var links := segments[k].links;
    assert Chained(c, links) && Built(c, links, k, |links|, run.store, run.crcs);
    assert links[..|links|] == links;
  }

  lemma AdvanceKeeps(cat: Catalog, c: Contents, segments: Segments, run: Run, k: nat)
    requires c == ContentsOf(cat) && AllChained(c, segments) && Inv(cat, c, segments, run) && k < |segments|
    ensures Inv(cat, c, segments, AdvanceStep(cat, run, segments[k], k))
  {
    var links, d := segments[k].links, run.done[k];
    assert Built(c, links, k, d, run.store, run.crcs) && Chained(c, links);
    if !(d == 0 && Gated(links, run.crcs)) {
      if d < |links| {
        SegmentMoves(cat, c, run, segments[k], k);
        BuildKeeps(cat, c, segments, run, k);
      } else {
        StitchKeeps(cat, c, segments, run, k);
      }
    }
  }

  lemma StepKeeps(cat: Catalog, c: Contents, segments: Segments, run: Run, e: Event)
    requires c == ContentsOf(cat) && AllChained(c, segments) && Inv(cat, c, segments, run)
    ensures Inv(cat, c, segments, Step(cat, segments, run, e))
  {
    match e
    case CrcArrives(id) =>
      CrcKeeps(cat, c, segments, run, id);
    case Advance(k) =>
      if k < |segments| {
        AdvanceKeeps(cat, c, segments, run, k);
      }
  }

  /** No schedule fails, and every copied part is its segment's whole object. */
  lemma {:induction false} RunSafe(cat: Catalog, c: Contents, segments: Segments, events: seq<Event>)
    requires c == ContentsOf(cat) && AllChained(c, segments)
    ensures Inv(cat, c, segments, RunAll(cat, segments, events))
  {
    if events == [] {
      StartInv(cat, c, segments);
    } else {
      RunSafe(cat, c, segments, events[..|events| - 1]);
      StepKeeps(cat, c, segments, RunAll(cat, segments, events[..|events| - 1]), events[|events| - 1]);
    }
  }

  lemma OpenGateAdvances(cat: Catalog, segments: Segments, run: Run, next: Run, k: nat)
    requires k < |segments| && k < |run.done| && AdvanceStep(cat, run, segments[k], k) == next
    ensures Step(cat, segments, run, Advance(k)) == next
  {}

  lemma BuiltSoFar(cat: Catalog, c: Contents, segments: Segments, run: Run, k: nat)
    requires AllChained(c, segments) && Inv(cat, c, segments, run) && k < |segments|
    ensures Built(c, segments[k].links, k, run.done[k], run.store, run.crcs)
    ensures segments[k].index == k && Chained(c, segments[k].links)
  {}

  /** Once its CRCs are there, a segment completes one more link at every turn. */
  lemma LinkCompletes(cat: Catalog, c: Contents, segments: Segments, run: Run, k: nat)
    requires c == ContentsOf(cat) && AllChained(c, segments) && Inv(cat, c, segments, run)
    requires k < |segments| && !Gated(segments[k].links, run.crcs) && run.done[k] < |segments[k].links|
    ensures Step(cat, segments, run, Advance(k)) == LinkBuilt(c, run, segments[k].links, k)
  {
    BuiltSoFar(cat, c, segments, run, k);
    SegmentMoves(cat, c, run, segments[k], k);
    OpenGateAdvances(cat, segments, run, LinkBuilt(c, run, segments[k].links, k), k);
  }

  /** A finished segment is copied into the stitch upload at its next turn. */
  lemma CopyCompletes(cat: Catalog, c: Contents, segments: Segments, run: Run, k: nat)
    requires c == ContentsOf(cat) && AllChained(c, segments) && Inv(cat, c, segments, run)
    requires k < |segments| && run.done[k] == |segments[k].links|
    ensures var next := Step(cat, segments, run, Advance(k));
      next.crcs == run.crcs && next.done == run.done && Sent(next.log, k + 1)
  {
    assert Chained(c, segments[k].links);
    StitchKeeps(cat, c, segments, run, k);
    assert StitchCopy(run, segments[k]).log[|run.log|].number == k + 1;
  }

  // ---------- The archive ----------

  lemma {:induction false} SmallPieceIds(smalls: seq<FileId>, i: nat)
    requires i < |SmallPieces(smalls)|
    ensures SmallPieces(smalls)[i].id in smalls
  {
    if i < 2 * (|smalls| - 1) {
      SmallPieceIds(smalls[..|smalls| - 1], i);
    }
  }

  lemma {:induction false} CrcIdsAre(links: seq<Link>, ids: set<FileId>)
    requires forall i | 0 <= i < |links| :: LinkIds(links[i]) <= ids
    ensures SegmentCrcIds(links) <= ids
  {
    if links != [] {
      CrcIdsAre(links[..|links| - 1], ids);
    }
  }

  lemma {:induction false} InOrder(buckets: Buckets, n: nat, k: nat, id: FileId)
    requires k < n <= |buckets| && id in buckets[k]
    ensures id in OrderOf(buckets, n)
  {
    if k < n - 1 {
      InOrder(buckets, n - 1, k, id);
    }
  }

  /** A segment waits only for CRCs the paced stream of the order delivers, the next big's included. */
  lemma GateOpens(cat: Catalog, buckets: Buckets, k: nat, i: nat)
    requires Anchored(buckets) && k < |buckets| && i < |SegmentAt(cat, buckets, k).links|
    ensures forall id | id in LinkIds(SegmentAt(cat, buckets, k).links[i]) :: id in OrderOf(buckets, |buckets|)
  {
    var n := |buckets|;
    var smalls := buckets[k][1..];
    var pieces := PiecesOf(smalls, NextBig(buckets, k));
    InOrder(buckets, n, k, buckets[k][0]);
    forall j | 0 <= j < |pieces| ensures pieces[j].id in OrderOf(buckets, n) {
      if j < |SmallPieces(smalls)| {
        SmallPieceIds(smalls, j);
        InOrder(buckets, n, k, pieces[j].id);
      } else {
        InOrder(buckets, n, k + 1, buckets[k + 1][0]);
      }
    }
  }

  /** When every CRC of the order has arrived, no gate is closed. */
  lemma AllGatesOpen(cat: Catalog, buckets: Buckets, crcs: CrcStore, k: nat)
    requires Anchored(buckets) && k < |buckets|
    requires forall id | id in OrderOf(buckets, |buckets|) :: id in crcs
    ensures !Gated(SegmentAt(cat, buckets, k).links, crcs)
  {
    var links := SegmentAt(cat, buckets, k).links;
    forall i | 0 <= i < |links| ensures LinkIds(links[i]) <= crcs.Keys {
      GateOpens(cat, buckets, k, i);
    }
    CrcIdsAre(links, crcs.Keys);
  }

  /** Every segment's object has been copied into the stitch upload. */
  ghost predicate AllStitched(segments: Segments, run: Run) {
    forall n | n in Numbers(|segments|) :: Sent(run.log, n)
  }

  /** The stitch upload with the directory as its last part. */
  function StitchParts(c: Contents, segments: Segments, directory: Octets): seq<Octets> {
    Objects(c, segments) + [directory]
  }

  lemma StitchMeetsFloor(c: Contents, segments: Segments, directory: Octets)
    requires AllChained(c, segments)
    ensures MeetsFloor(StitchParts(c, segments, directory))
  {
    forall k | 0 <= k < |segments| ensures |Objects(c, segments)[k]| >= PART_FLOOR {
      var links := segments[k].links;
      assert Chained(c, links);
      ObjectReachesFloor(c, links, |links|);
      assert links[..|links|] == links;
    }
  }

  lemma CarriesPlanned(c: Contents, segments: Segments, done: seq<nat>, log: seq<PartUpload>, directory: Octets, parts: seq<Octets>)
    requires parts == StitchParts(c, segments, directory)
    requires forall i | 0 <= i < |log| :: Copied(c, segments, done, log[i])
    ensures forall i | 0 <= i < |log| :: 1 <= log[i].number <= |segments| && log[i].bytes == parts[log[i].number - 1]
  {
    forall i | 0 <= i < |log| ensures 1 <= log[i].number <= |segments| && log[i].bytes == parts[log[i].number - 1] {
      assert Copied(c, segments, done, log[i]);
    }
  }

  lemma OneMorePart(log: seq<PartUpload>, parts: seq<Octets>, last: Octets)
    requires forall i | 0 <= i < |log| :: 1 <= log[i].number <= |parts| && log[i].bytes == (parts + [last])[log[i].number - 1]
    requires forall n | n in Numbers(|parts|) :: Sent(log, n)
    ensures Uploads(log + [PartUpload(|parts| + 1, last)], parts + [last])
  {
    var all := log + [PartUpload(|parts| + 1, last)];
    forall n | n in Numbers(|parts| + 1) ensures Sent(all, n) {
      if n == |parts| + 1 {
        assert all[|log|].number == n;
      } else {
        assert Numbers(|parts|)[n - 1] == n;
        assert n in Numbers(|parts|) && Sent(log, n);
        var i :| 0 <= i < |log| && log[i].number == n;
        assert all[i].number == n;
      }
    }
  }

  lemma StitchUploads(cat: Catalog, c: Contents, segments: Segments, run: Run, directory: Octets)
    requires Inv(cat, c, segments, run) && AllStitched(segments, run)
    ensures Uploads(run.log + [PartUpload(|segments| + 1, directory)], StitchParts(c, segments, directory))
  {
    CarriesPlanned(c, segments, run.done, run.log, directory, StitchParts(c, segments, directory));
    LastPartAdded(c, segments, run.log, directory);
  }

  lemma LastPartAdded(c: Contents, segments: Segments, log: seq<PartUpload>, directory: Octets)
    requires forall n | n in Numbers(|segments|) :: Sent(log, n)
    requires forall i | 0 <= i < |log| ::
               1 <= log[i].number <= |segments| && log[i].bytes == StitchParts(c, segments, directory)[log[i].number - 1]
    ensures Uploads(log + [PartUpload(|segments| + 1, directory)], StitchParts(c, segments, directory))
  {
    OneMorePart(log, Objects(c, segments), directory);
  }

  /**
   * Whatever the interleaving, once every segment has been copied the stitch upload completes to the
   * body region followed by the directory.
   */
  lemma StitchCompletes(cat: Catalog, c: Contents, segments: Segments, events: seq<Event>, directory: Octets, finished: seq<nat>)
    requires c == ContentsOf(cat) && AllChained(c, segments)
    requires AllStitched(segments, RunAll(cat, segments, events))
    requires multiset(finished) == multiset(Numbers(|segments| + 1))
    ensures Complete(Received(RunAll(cat, segments, events).log + [PartUpload(|segments| + 1, directory)]), Sort(AtMost, finished))
         == Some(Flatten(Objects(c, segments)) + directory)
  {
    var run := RunAll(cat, segments, events);
    RunSafe(cat, c, segments, events);
    StitchUploads(cat, c, segments, run, directory);
    StitchMeetsFloor(c, segments, directory);
    AnyOrderCompletes(run.log + [PartUpload(|segments| + 1, directory)], StitchParts(c, segments, directory), finished);
    FlattenAppend(Objects(c, segments), directory);
  }

  // ---------- The directory ----------

  ghost predicate EntryAt(plan: ChainPlan.Plan, cat: Catalog, i: nat)
    requires i < |plan.order|
  {
    var id := plan.order[i];
    && id in plan.entries
    && plan.entries[id] == ChainEntry(id, FileOf(cat, id).name, FileOf(cat, id).Size(),
                                      OffsetOf(LocalsOf(ItemsOf(FilesOf(cat, plan.order))), i))
  }

  lemma {:induction false} TableHolds(cat: Catalog, order: seq<FileId>, i: nat)
    requires i < |order| && forall a, b | 0 <= a < b < |order| :: order[a] != order[b]
    ensures order[i] in ChainPlan.EntryTable(cat, order)
    ensures ChainPlan.EntryTable(cat, order)[order[i]] == ChainPlan.EntryFor(cat, order[i], ComputeOffsets(cat, order)[i])
  {
    var last := |order| - 1;
    if i < last {
      TableHolds(cat, order[..last], i);
      OffsetsOfPrefix(cat, order, last);
    }
  }

  /** Every entry carries its file's name and size and the offset where its header lands. */
  lemma EntriesTheorem(files: seq<SourceFile>, i: nat)
    requires DistinctIds(files) && Bigs(files) != [] && i < |ChainPlanOf(files).order|
    ensures EntryAt(ChainPlanOf(files), ChainCatalog(files), i)
  {
    ChainPlan.OrderTheorem(files);
    TableHolds(ChainCatalog(files), ChainPlanOf(files).order, i);
    Single.OffsetsTheorem(ChainCatalog(files), ChainPlanOf(files).order, i);
  }

  /** Directory metadata of the first `n` entries, or `None` (a bad CRC) while a CRC is missing. */
  function MetasFrom(plan: ChainPlan.Plan, crcs: CrcStore, n: nat): (metas: Option<seq<EntryMeta>>)
    requires n <= |plan.order|
    ensures metas.Some? ==> |metas.value| == n
  {
    if n == 0 then Some([])
    else
      var id := plan.order[n - 1];
      match MetasFrom(plan, crcs, n - 1)
      case None => None
      case Some(before) =>
        if id !in crcs || id !in plan.entries then None
        else
          var e := plan.entries[id];
          Some(before + [EntryMeta(e.name, e.size, crcs[id], e.localHeaderOffset)])
  }

  /** The finished directory part. */
  function DirectoryFrom(plan: ChainPlan.Plan, crcs: CrcStore): Option<Octets> {
    match MetasFrom(plan, crcs, |plan.order|)
    case None => None
    case Some(metas) => Some(Trailer(metas, plan.cdOffset))
  }

  lemma {:induction false} MissingStays(plan: ChainPlan.Plan, crcs: CrcStore, n: nat, m: nat)
    requires n <= m <= |plan.order| && MetasFrom(plan, crcs, n).None?
    ensures MetasFrom(plan, crcs, m).None?
  {
    if n < m {
      MissingStays(plan, crcs, n, m - 1);
    }
  }

  lemma TrailerIs(metas: seq<EntryMeta>, cdOffset: nat, bytes: Octets)
    requires bytes == Flatten(RecordsOf(metas))
    ensures bytes + EndRecords(|metas|, cdOffset, |bytes|) == Trailer(metas, cdOffset)
  {}

  lemma RecordNext(metas: seq<EntryMeta>, m: EntryMeta, bytes: Octets, rec: Octets)
    requires bytes == Flatten(RecordsOf(metas)) && rec == CentralDirEntry(m)
    ensures bytes + rec == Flatten(RecordsOf(metas + [m]))
  {
    FlattenAppend(RecordsOf(metas), CentralDirEntry(m));
    assert RecordsOf(metas + [m]) == RecordsOf(metas) + [CentralDirEntry(m)];
  }

  /** Appends the record of entry `i`. */
  method AppendRecord(plan: ChainPlan.Plan, crcs: CrcStore, i: nat, ghost metas: seq<EntryMeta>, bytes: Octets)
    returns (out: Octets, ghost next: seq<EntryMeta>)
    requires i < |plan.order| && plan.order[i] in crcs && plan.order[i] in plan.entries
    requires MetasFrom(plan, crcs, i) == Some(metas) && bytes == Flatten(RecordsOf(metas))
    ensures MetasFrom(plan, crcs, i + 1) == Some(next) && out == Flatten(RecordsOf(next))
  {
    var e := plan.entries[plan.order[i]];
    var meta := EntryMeta(e.name, e.size, crcs[plan.order[i]], e.localHeaderOffset);
    var rec := CentralDirEntry(meta);
    RecordNext(metas, meta, bytes, rec);
    out := bytes + rec;
    next := metas + [meta];
  }

  method CloseDirectory(plan: ChainPlan.Plan, ghost metas: seq<EntryMeta>, bytes: Octets) returns (out: Octets)
    requires |metas| == |plan.order| && bytes == Flatten(RecordsOf(metas))
    ensures out == Trailer(metas, plan.cdOffset)
  {
    TrailerIs(metas, plan.cdOffset, bytes);
    out := bytes + EndRecords(|plan.order|, plan.cdOffset, |bytes|);
  }

  /** `build_central_directory`: records in plan order, then the end records at the planned offset. */
  method BuildCentralDirectory(plan: ChainPlan.Plan, crcs: CrcStore) returns (out: Option<Octets>)
    requires forall id | id in plan.order :: id in plan.entries
    ensures out == DirectoryFrom(plan, crcs)
  {
    var bytes: Octets, i := [], 0;
    ghost var metas: seq<EntryMeta> := [];
    while i < |plan.order|
      invariant 0 <= i <= |plan.order|
      invariant MetasFrom(plan, crcs, i) == Some(metas) && bytes == Flatten(RecordsOf(metas))
    {
      if plan.order[i] !in crcs {
        MissingStays(plan, crcs, i + 1, |plan.order|);
        return None;
      }
      bytes, metas := AppendRecord(plan, crcs, i, metas, bytes);
      i := i + 1;
    }
    bytes := CloseDirectory(plan, metas, bytes);
    out := Some(bytes);
  }

  ghost predicate MetaAt(plan: ChainPlan.Plan, crcs: CrcStore, i: nat, m: EntryMeta)
    requires i < |plan.order|
  {
    var id := plan.order[i];
    && id in crcs && id in plan.entries
    && m == EntryMeta(plan.entries[id].name, plan.entries[id].size, crcs[id], plan.entries[id].localHeaderOffset)
  }

  lemma {:induction false} MetasCollect(plan: ChainPlan.Plan, crcs: CrcStore, metas: seq<EntryMeta>, n: nat)
    requires n <= |plan.order| == |metas| && forall i | 0 <= i < |metas| :: MetaAt(plan, crcs, i, metas[i])
    ensures MetasFrom(plan, crcs, n) == Some(metas[..n])
  {
    if n > 0 {
      MetasCollect(plan, crcs, metas, n - 1);
      assert MetaAt(plan, crcs, n - 1, metas[n - 1]);
      assert metas[..n] == metas[..n - 1] + [metas[n - 1]];
    } else {
      assert metas[..0] == [];
    }
  }

  lemma MetaIsCanonical(plan: ChainPlan.Plan, cat: Catalog, crcs: CrcStore, items: seq<Item>, i: nat)
    requires i < |plan.order| && Honest(cat, crcs) && plan.order[i] in crcs && EntryAt(plan, cat, i)
    requires items == ItemsOf(FilesOf(cat, plan.order))
    ensures MetaAt(plan, crcs, i, MetaOf(items, i))
  {}

  /** With every CRC in the store the directory metadata are the canonical ones. */
  lemma MetasAreCanonical(plan: ChainPlan.Plan, cat: Catalog, crcs: CrcStore, items: seq<Item>)
    requires Honest(cat, crcs) && forall id | id in plan.order :: id in crcs
    requires forall i | 0 <= i < |plan.order| :: EntryAt(plan, cat, i)
    requires items == ItemsOf(FilesOf(cat, plan.order))
    ensures MetasFrom(plan, crcs, |plan.order|) == Some(MetasOf(items))
  {
    var metas := MetasOf(items);
    forall i | 0 <= i < |metas| ensures MetaAt(plan, crcs, i, metas[i]) {
      assert EntryAt(plan, cat, i);
      MetaIsCanonical(plan, cat, crcs, items, i);
    }
    MetasCollect(plan, crcs, metas, |metas|);
    assert metas[..|metas|] == metas;
  }

  lemma RecordLength(cat: Catalog, order: seq<FileId>, i: nat)
    requires i < |order|
    ensures |CentralDirEntry(MetaOf(ItemsOf(FilesOf(cat, order)), i))|
         == RecordLen(cat, order[i], ComputeOffsets(cat, order)[i])
  {
    CentralDirEntryLength(MetaOf(ItemsOf(FilesOf(cat, order)), i));
    Single.OffsetsTheorem(cat, order, i);
  }

  lemma {:induction false} LengthsOfRecords(cat: Catalog, order: seq<FileId>, records: seq<Octets>, n: nat)
    requires |records| == |order| && n <= |order|
    requires forall i | 0 <= i < |order| :: |records[i]| == RecordLen(cat, order[i], ComputeOffsets(cat, order)[i])
    ensures DirectoryLen(cat, order[..n]) == |Flatten(records[..n])|
  {
    if n > 0 {
      LengthsOfRecords(cat, order, records, n - 1);
      FlattenNext(records, n - 1);
      OffsetsOfPrefix(cat, order, n);
      assert order[..n][..n - 1] == order[..n - 1];
    }
  }

  /** The planner's `cd_size` is the length the directory has once it is written. */
  lemma DirectorySizeTheorem(files: seq<SourceFile>)
    requires DistinctIds(files) && Bigs(files) != []
    ensures var plan := ChainPlanOf(files);
      plan.cdSize == |Flatten(RecordsOf(MetasOf(ItemsOf(FilesOf(ChainCatalog(files), plan.order)))))|
  {
    DirectoryLength(ChainCatalog(files), ChainPlanOf(files).order);
    PlannedDirectoryLen(files);
  }

  lemma PlannedDirectoryLen(files: seq<SourceFile>)
    requires DistinctIds(files) && Bigs(files) != []
    ensures ChainPlanOf(files).cdSize == DirectoryLen(ChainCatalog(files), ChainPlanOf(files).order)
  {}

  lemma RecordLengths(cat: Catalog, order: seq<FileId>, records: seq<Octets>)
    requires records == RecordsOf(MetasOf(ItemsOf(FilesOf(cat, order))))
    ensures |records| == |order|
    ensures forall i | 0 <= i < |order| :: |records[i]| == RecordLen(cat, order[i], ComputeOffsets(cat, order)[i])
  {
    forall i | 0 <= i < |order| ensures |records[i]| == RecordLen(cat, order[i], ComputeOffsets(cat, order)[i]) {
      RecordLength(cat, order, i);
    }
  }

  lemma DirectoryLength(cat: Catalog, order: seq<FileId>)
    ensures DirectoryLen(cat, order) == |Flatten(RecordsOf(MetasOf(ItemsOf(FilesOf(cat, order)))))|
  {
    var records := RecordsOf(MetasOf(ItemsOf(FilesOf(cat, order))));
    RecordLengths(cat, order, records);
    LengthsOfRecords(cat, order, records, |order|);
    WholeSlices(order, records);
  }

  lemma WholeSlices(order: seq<FileId>, records: seq<Octets>)
    ensures order[..|order|] == order && records[..|records|] == records
  {}

  // ---------- From listing to reader ----------

  lemma SegmentChained(files: seq<SourceFile>, c: Contents, k: nat)
    requires DistinctIds(files) && k < |Bigs(files)| && c == ContentsOf(ChainCatalog(files))
    requires forall f | f in files :: |f.name| <= MAX16
    ensures Chained(c, ChainPlanOf(files).segments[k].links)
  {
    var cat, buckets := ChainCatalog(files), Spread(Bigs(files), ChainSmalls(files));
    ContentsLengths(cat);
    SortedListing(files);
    BigListed(files, k);
    LinksChained(cat, c, k == 0, Bigs(files)[k].id, PiecesOf(buckets[k][1..], NextBig(buckets, k)));
  }

  lemma SegmentIndex(files: seq<SourceFile>, k: nat)
    requires k < |Bigs(files)|
    ensures |ChainPlanOf(files).segments| == |Bigs(files)| && ChainPlanOf(files).segments[k].index == k
  {}

  /** The segments of a listing are well-formed chains when every name fits its 16-bit length field. */
  lemma PlanChained(files: seq<SourceFile>)
    requires DistinctIds(files) && Bigs(files) != [] && forall f | f in files :: |f.name| <= MAX16
    ensures AllChained(ContentsOf(ChainCatalog(files)), ChainPlanOf(files).segments)
  {
    forall k | 0 <= k < |Bigs(files)|
      ensures |ChainPlanOf(files).segments| == |Bigs(files)| && ChainPlanOf(files).segments[k].index == k
      ensures Chained(ContentsOf(ChainCatalog(files)), ChainPlanOf(files).segments[k].links)
    {
      SegmentIndex(files, k);
      SegmentChained(files, ContentsOf(ChainCatalog(files)), k);
    }
  }

  lemma BigListed(files: seq<SourceFile>, k: nat)
    requires DistinctIds(files) && k < |Bigs(files)|
    ensures Bigs(files)[k] in files && FileOf(ChainCatalog(files), Bigs(files)[k].id) == Bigs(files)[k]
  {
    SortedListing(files);
    assert Bigs(files)[k] in multiset(Bigs(files) + ChainSmalls(files));
    ListingFound(files, Bigs(files)[k]);
  }

  /** The canonical archive of a chain plan. */
  function ChainArchiveOf(files: seq<SourceFile>): Octets
    requires Bigs(files) != []
  {
    Archive(ItemsOf(FilesOf(ChainCatalog(files), ChainPlanOf(files).order)))
  }

  lemma AllEntriesPlaced(files: seq<SourceFile>)
    requires DistinctIds(files) && Bigs(files) != []
    ensures forall i | 0 <= i < |ChainPlanOf(files).order| :: EntryAt(ChainPlanOf(files), ChainCatalog(files), i)
  {
    forall i | 0 <= i < |ChainPlanOf(files).order| ensures EntryAt(ChainPlanOf(files), ChainCatalog(files), i) {
      EntriesTheorem(files, i);
    }
  }

  lemma TrailerCloses(plan: ChainPlan.Plan, cat: Catalog, crcs: CrcStore, items: seq<Item>, region: Octets)
    requires MetasFrom(plan, crcs, |plan.order|) == Some(MetasOf(items)) && plan.cdOffset == |region|
    requires region == Region(LocalsOf(items))
    ensures DirectoryFrom(plan, crcs).Some? && region + DirectoryFrom(plan, crcs).value == Archive(items)
  {}

  /** The directory written from a complete store closes the archive. */
  lemma DirectoryCloses(files: seq<SourceFile>, crcs: CrcStore)
    requires DistinctIds(files) && Bigs(files) != [] && Honest(ChainCatalog(files), crcs)
    requires forall id | id in ChainPlanOf(files).order :: id in crcs
    ensures var plan := ChainPlanOf(files);
      && DirectoryFrom(plan, crcs).Some?
      && RegionOf(ChainCatalog(files), plan.order) + DirectoryFrom(plan, crcs).value == ChainArchiveOf(files)
  {
    AllEntriesPlaced(files);
    CloseFrom(ChainPlanOf(files), ChainCatalog(files), crcs);
  }

  lemma CloseFrom(plan: ChainPlan.Plan, cat: Catalog, crcs: CrcStore)
    requires forall i | 0 <= i < |plan.order| :: EntryAt(plan, cat, i)
    requires Honest(cat, crcs) && forall id | id in plan.order :: id in crcs
    requires plan.cdOffset == RunningTotal(cat, plan.order)
    ensures DirectoryFrom(plan, crcs).Some?
    ensures RegionOf(cat, plan.order) + DirectoryFrom(plan, crcs).value == Archive(ItemsOf(FilesOf(cat, plan.order)))
  {
    var items := ItemsOf(FilesOf(cat, plan.order));
    MetasAreCanonical(plan, cat, crcs, items);
    Single.RunningTotalIsRegion(cat, plan.order);
    TrailerCloses(plan, cat, crcs, items, RegionOf(cat, plan.order));
  }

  /** In no interleaving of CRC arrivals, link builds, stitch copies and retries does anything fail. */
  lemma SafetyTheorem(files: seq<SourceFile>, events: seq<Event>)
    requires DistinctIds(files) && Bigs(files) != [] && forall f | f in files :: |f.name| <= MAX16
    ensures Inv(ChainCatalog(files), ContentsOf(ChainCatalog(files)), ChainPlanOf(files).segments,
                RunAll(ChainCatalog(files), ChainPlanOf(files).segments, events))
  {
    PlanChained(files);
    RunSafe(ChainCatalog(files), ContentsOf(ChainCatalog(files)), ChainPlanOf(files).segments, events);
  }

  /** Completing the stitch upload with the directory as its last part. */
  function FinishStitch(plan: ChainPlan.Plan, run: Run, finished: seq<nat>): Option<Octets> {
    match DirectoryFrom(plan, run.crcs)
    case None => None
    case Some(directory) =>
      Complete(Received(run.log + [PartUpload(|plan.segments| + 1, directory)]), Sort(AtMost, finished))
  }

  lemma StitchedRegion(files: seq<SourceFile>, c: Contents)
    requires Bigs(files) != [] && c == ContentsOf(ChainCatalog(files))
    ensures Flatten(Objects(c, ChainPlanOf(files).segments)) == RegionOf(ChainCatalog(files), ChainPlanOf(files).order)
  {
    StitchTheorem(ChainCatalog(files), Spread(Bigs(files), ChainSmalls(files)));
  }

  /**
   * Once every CRC has arrived and every segment has been copied, in whatever interleaving, the
   * finished stitch upload is the canonical archive, whatever order its parts finished in.
   */
  lemma ArchiveTheorem(files: seq<SourceFile>, events: seq<Event>, finished: seq<nat>)
    requires DistinctIds(files) && Bigs(files) != [] && forall f | f in files :: |f.name| <= MAX16
    requires var run := RunAll(ChainCatalog(files), ChainPlanOf(files).segments, events);
      && AllStitched(ChainPlanOf(files).segments, run)
      && forall id | id in ChainPlanOf(files).order :: id in run.crcs
    requires multiset(finished) == multiset(Numbers(|ChainPlanOf(files).segments| + 1))
    ensures FinishStitch(ChainPlanOf(files), RunAll(ChainCatalog(files), ChainPlanOf(files).segments, events), finished)
         == Some(ChainArchiveOf(files))
  {
    var plan, cat := ChainPlanOf(files), ChainCatalog(files);
    var run := RunAll(cat, plan.segments, events);
    PlanChained(files);
    SafetyTheorem(files, events);
    DirectoryCloses(files, run.crcs);
    StitchCompletes(cat, ContentsOf(cat), plan.segments, events, DirectoryFrom(plan, run.crcs).value, finished);
    StitchedRegion(files, ContentsOf(cat));
  }

  // ---------- Every run can be finished ----------

  lemma StepAppended(cat: Catalog, segments: Segments, events: seq<Event>, e: Event)
    ensures RunAll(cat, segments, events + [e]) == Step(cat, segments, RunAll(cat, segments, events), e)
  {
    assert (events + [e])[..|events|] == events;
  }

  lemma EventsJoin(events: seq<Event>, more: seq<Event>, rest: seq<Event>)
    ensures events + (more + rest) == (events + more) + rest
    ensures events + [] == events
  {}

  /** Later than another run: no CRC and no copied part is gone. */
  ghost predicate Later(segments: Segments, run: Run, next: Run) {
    && run.crcs.Keys <= next.crcs.Keys
    && forall n | n in Numbers(|segments|) && Sent(run.log, n) :: Sent(next.log, n)
  }

  lemma SentStill(log: seq<PartUpload>, next: seq<PartUpload>, n: nat)
    requires Sent(log, n) && log <= next
    ensures Sent(next, n)
  {
    var i :| 0 <= i < |log| && log[i].number == n;
    assert next[i].number == n;
  }

  lemma StepIsLater(cat: Catalog, segments: Segments, run: Run, e: Event)
    ensures Later(segments, run, Step(cat, segments, run, e))
  {
    var next := Step(cat, segments, run, e);
    assert run.log <= next.log;
    forall n | n in Numbers(|segments|) && Sent(run.log, n) ensures Sent(next.log, n) {
      SentStill(run.log, next.log, n);
    }
  }

  lemma {:induction false} CrcsArrive(cat: Catalog, segments: Segments, events: seq<Event>, run: Run, ids: seq<FileId>)
      returns (more: seq<Event>, end: Run)
    requires run == RunAll(cat, segments, events)
    ensures end == RunAll(cat, segments, events + more) && forall id | id in ids :: id in end.crcs
    ensures run.crcs.Keys <= end.crcs.Keys
    decreases |ids|
  {
    if ids == [] {
      more, end := [], run;
      EventsJoin(events, [], []);
    } else {
      var e := CrcArrives(ids[0]);
      StepAppended(cat, segments, events, e);
      var next := Step(cat, segments, run, e);
      var rest;
      rest, end := CrcsArrive(cat, segments, events + [e], next, ids[1..]);
      more := [e] + rest;
      EventsJoin(events, [e], rest);
      assert forall id | id in ids :: id == ids[0] || id in ids[1..];
    }
  }

  ghost predicate GatesOpen(segments: Segments, crcs: CrcStore) {
    forall k | 0 <= k < |segments| :: !Gated(segments[k].links, crcs)
  }

  lemma GatesStayOpen(segments: Segments, crcs: CrcStore, next: CrcStore)
    requires GatesOpen(segments, crcs) && crcs.Keys <= next.Keys
    ensures GatesOpen(segments, next)
  {
    forall k | 0 <= k < |segments| ensures !Gated(segments[k].links, next) {
      assert !Gated(segments[k].links, crcs);
    }
  }

  /** With open gates, turns of one segment alone build it and copy it. */
  lemma {:induction false} SegmentFinishes(cat: Catalog, c: Contents, segments: Segments, events: seq<Event>, run: Run, k: nat)
      returns (more: seq<Event>, end: Run)
    requires c == ContentsOf(cat) && AllChained(c, segments) && run == RunAll(cat, segments, events)
    requires k < |segments| && GatesOpen(segments, run.crcs) && Inv(cat, c, segments, run)
    ensures end == RunAll(cat, segments, events + more) && Later(segments, run, end) && Sent(end.log, k + 1)
    decreases |segments[k].links| - run.done[k]
  {
    BuiltSoFar(cat, c, segments, run, k);
    var next := Step(cat, segments, run, Advance(k));
    StepAppended(cat, segments, events, Advance(k));
    StepIsLater(cat, segments, run, Advance(k));
    if run.done[k] == |segments[k].links| {
      CopyCompletes(cat, c, segments, run, k);
      more, end := [Advance(k)], next;
    } else {
      LinkCompletes(cat, c, segments, run, k);
      StepKeeps(cat, c, segments, run, Advance(k));
      var rest;
      rest, end := SegmentFinishes(cat, c, segments, events + [Advance(k)], next, k);
      more := [Advance(k)] + rest;
      EventsJoin(events, [Advance(k)], rest);
    }
  }

  lemma LaterStill(segments: Segments, run: Run, next: Run, end: Run, k: nat)
    requires Later(segments, run, next) && Later(segments, next, end) && k < |segments| && Sent(next.log, k + 1)
    ensures Later(segments, run, end) && Sent(end.log, k + 1)
  {
    assert Numbers(|segments|)[k] == k + 1;
  }

  lemma {:induction false} SegmentsFinish(cat: Catalog, c: Contents, segments: Segments, events: seq<Event>, run: Run, k: nat)
      returns (more: seq<Event>, end: Run)
    requires c == ContentsOf(cat) && AllChained(c, segments) && run == RunAll(cat, segments, events)
    requires k <= |segments| && GatesOpen(segments, run.crcs)
    ensures end == RunAll(cat, segments, events + more) && Later(segments, run, end)
    ensures forall n | k < n <= |segments| :: Sent(end.log, n)
    decreases |segments| - k
  {
    if k == |segments| {
      more, end := [], run;
      EventsJoin(events, [], []);
    } else {
      RunSafe(cat, c, segments, events);
      var first, next := SegmentFinishes(cat, c, segments, events, run, k);
      GatesStayOpen(segments, run.crcs, next.crcs);
      var rest;
      rest, end := SegmentsFinish(cat, c, segments, events + first, next, k + 1);
      more := first + rest;
      EventsJoin(events, first, rest);
      LaterStill(segments, run, next, end, k);
    }
  }

  lemma PlanGatesOpen(files: seq<SourceFile>, crcs: CrcStore)
    requires DistinctIds(files) && Bigs(files) != [] && forall id | id in ChainPlanOf(files).order :: id in crcs
    ensures GatesOpen(ChainPlanOf(files).segments, crcs)
  {
    var buckets := Spread(Bigs(files), ChainSmalls(files));
    forall k | 0 <= k < |ChainPlanOf(files).segments| ensures !Gated(ChainPlanOf(files).segments[k].links, crcs) {
      AllGatesOpen(ChainCatalog(files), buckets, crcs, k);
    }
  }

  lemma AllNumbersSent(segments: Segments, run: Run)
    requires forall n | 0 < n <= |segments| :: Sent(run.log, n)
    ensures AllStitched(segments, run)
  {
    forall n | n in Numbers(|segments|) ensures Sent(run.log, n) {
      var i :| 0 <= i < |segments| && Numbers(|segments|)[i] == n;
    }
  }

  /** Whatever has happened so far, every run of a plan can be continued to one that finishes with the canonical archive. */
  lemma CompletionTheorem(files: seq<SourceFile>, events: seq<Event>, finished: seq<nat>) returns (more: seq<Event>)
    requires DistinctIds(files) && Bigs(files) != [] && forall f | f in files :: |f.name| <= MAX16
    requires multiset(finished) == multiset(Numbers(|ChainPlanOf(files).segments| + 1))
    ensures var run := RunAll(ChainCatalog(files), ChainPlanOf(files).segments, events + more);
      FinishStitch(ChainPlanOf(files), run, finished) == Some(ChainArchiveOf(files))
  {
    var plan, cat := ChainPlanOf(files), ChainCatalog(files);
    PlanChained(files);
    var arrivals, ready := CrcsArrive(cat, plan.segments, events, RunAll(cat, plan.segments, events), plan.order);
    PlanGatesOpen(files, ready.crcs);
    var turns, end := SegmentsFinish(cat, ContentsOf(cat), plan.segments, events + arrivals, ready, 0);
    more := arrivals + turns;
    EventsJoin(events, arrivals, turns);
    AllNumbersSent(plan.segments, end);
    ArchiveTheorem(files, events + more, finished);
  }

  /** The archive of a chain plan reads back as every listed file, exactly when each entry is recoverable. */
  lemma RoundTripTheorem(files: seq<SourceFile>)
    requires Bigs(files) != [] && |ChainArchiveOf(files)| <= MAX64
    ensures var items := ItemsOf(FilesOf(ChainCatalog(files), ChainPlanOf(files).order));
      && (ReadDirectory(ChainArchiveOf(files)) == Some(ListingsOf(MetasOf(items))) <==> AllRecoverable(MetasOf(items)))
      && (AllRecoverable(MetasOf(items)) ==> forall i | 0 <= i < |items| ::
        ReadBody(ChainArchiveOf(files), ListingsOf(MetasOf(items))[i]) == Some(items[i].body))
  {
    Single.ReadsBack(ItemsOf(FilesOf(ChainCatalog(files), ChainPlanOf(files).order)));
  }
}
