/** What the finished job list is: numbered, alternating, exactly sized, above the floor, and the archive. */
module JrodonJobs {
  import opened Bytes
  import opened Canonical
  import opened JrodonArchive
  import opened JrodonBuilder
  import opened JrodonFormat
  import opened JrodonLayout
  import opened ZipReader

  // ---------- Shape: numbers and alternation ----------

  /** Jobs are numbered from 1 and alternate between upload and copy, starting with an upload. */
  ghost predicate Alternating(jobs: seq<PartJob>) {
    forall i | 0 <= i < |jobs| :: jobs[i].partNumber == i + 1 && (jobs[i].Upload? <==> i % 2 == 0)
  }

  lemma OpenAlternates(b: Builder)
    requires Alternating(b.parts)
    ensures Alternating(Open(b).parts)
  {
    if !LastIsUpload(b.parts) && b.parts != [] {
      assert b.parts[|b.parts| - 1].Copy?;
    }
  }

  lemma CopyAlternates(b: Builder, f: FileInfo, start: Option<nat>)
    requires LastIsUpload(b.parts) && StartOf(start) <= f.Size() && Alternating(b.parts)
    ensures Alternating(WithCopy(b, f, start).parts)
  {
    assert b.parts[|b.parts| - 1].Upload?;
  }

  lemma {:induction false} EachAlternates(b: Builder, files: seq<FileInfo>)
    requires LastIsUpload(b.parts) && Alternating(b.parts)
    ensures Alternating(WithEach(b, files).parts)
  {
    if files != [] {
      EachAlternates(b, files[..|files| - 1]);
    }
  }

  lemma PartAlternates(b: Builder, p: ZipLayoutPart)
    requires Splittable(p) && Alternating(b.parts)
    ensures Alternating(WithPart(b, p).parts)
  {
    OpenAlternates(b);
    match p
    case Single(files) =>
      EachAlternates(Open(b), files);
    case Duo(regular, copy) =>
      EachAlternates(Open(b), regular);
      CopyAlternates(WithFiles(b, regular), copy.file, StartByte(copy));
  }

  lemma {:induction false} BuiltAlternates(parts: seq<ZipLayoutPart>)
    requires forall i | 0 <= i < |parts| :: Splittable(parts[i])
    ensures Alternating(Built(parts).parts)
  {
    if parts != [] {
      BuiltAlternates(parts[..|parts| - 1]);
      PartAlternates(Built(parts[..|parts| - 1]), parts[|parts| - 1]);
    }
  }

  // ---------- Sizes: what a part announces is what it holds ----------

  /** Every element fills exactly the space it asks for. */
  ghost predicate ElementsSized(directory: Octets, elements: seq<Element>) {
    forall k | 0 <= k < |elements| :: |ElementBytes(directory, elements[k])| == ElemSize(elements[k])
  }

  ghost predicate SizedAt(directory: Octets, job: PartJob) {
    job.partSize == |JobBytes(directory, job)| && (job.Upload? ==> ElementsSized(directory, job.elements))
  }

  ghost predicate AllSized(directory: Octets, jobs: seq<PartJob>) {
    forall i | 0 <= i < |jobs| :: SizedAt(directory, jobs[i])
  }

  lemma MoreSized(directory: Octets, elements: seq<Element>, e: Element)
    requires ElementsSized(directory, elements) && |ElementBytes(directory, e)| == ElemSize(e)
    ensures ElementsSized(directory, elements + [e])
  {}

  lemma ExtendSized(directory: Octets, jobs: seq<PartJob>, e: Element)
    requires LastIsUpload(jobs) && AllSized(directory, jobs) && |ElementBytes(directory, e)| == ElemSize(e)
    ensures AllSized(directory, Extend(jobs, e))
  {
    var last := jobs[|jobs| - 1];
    assert SizedAt(directory, last);
    ElementsAppend(directory, last.elements, e);
    MoreSized(directory, last.elements, e);
    forall i | 0 <= i < |jobs| ensures SizedAt(directory, Extend(jobs, e)[i]) {
      assert i < |jobs| - 1 ==> SizedAt(directory, jobs[i]);
    }
  }

  lemma EntrySized(directory: Octets, f: FileInfo, offset: nat, operation: Operation)
    requires operation.PartialGet? ==> operation.size <= f.Size()
    ensures |ElementBytes(directory, EntryFromS3(f.LocAt(offset), operation, f))| == ElemSize(EntryFromS3(f.LocAt(offset), operation, f))
  {
    EntryBytes(directory, f, offset, operation);
  }

  lemma OpenSized(directory: Octets, b: Builder)
    requires AllSized(directory, b.parts)
    ensures AllSized(directory, Open(b).parts)
  {
    forall i | 0 <= i < |Open(b).parts| ensures SizedAt(directory, Open(b).parts[i]) {
      assert i < |b.parts| ==> SizedAt(directory, b.parts[i]);
    }
  }

  lemma CopySized(directory: Octets, b: Builder, f: FileInfo, start: Option<nat>)
    requires LastIsUpload(b.parts) && StartOf(start) <= f.Size() && AllSized(directory, b.parts)
    ensures AllSized(directory, WithCopy(b, f, start).parts)
  {
    var operation := if start.Some? then PartialGet(start.value) else HeadObject;
    EntrySized(directory, f, b.offset, operation);
    ExtendSized(directory, b.parts, EntryFromS3(f.LocAt(b.offset), operation, f));
    PrefixAndRest(f.body, start);
    OneMoreSized(directory, Extend(b.parts, EntryFromS3(f.LocAt(b.offset), operation, f)),
                 Copy(|b.parts| + 1, f.Size() - StartOf(start), f, start));
  }

  lemma OneMoreSized(directory: Octets, jobs: seq<PartJob>, job: PartJob)
    requires AllSized(directory, jobs) && SizedAt(directory, job)
    ensures AllSized(directory, jobs + [job])
  {
    forall i | 0 <= i < |jobs + [job]| ensures SizedAt(directory, (jobs + [job])[i]) {
      assert i < |jobs| ==> SizedAt(directory, jobs[i]);
    }
  }

  lemma {:induction false} EachSized(directory: Octets, b: Builder, files: seq<FileInfo>)
    requires LastIsUpload(b.parts) && AllSized(directory, b.parts)
    ensures AllSized(directory, WithEach(b, files).parts)
  {
    if files != [] {
      var before, f := WithEach(b, files[..|files| - 1]), files[|files| - 1];
      EachSized(directory, b, files[..|files| - 1]);
      EntrySized(directory, f, before.offset, GetObject);
      ExtendSized(directory, before.parts, EntryFromS3(f.LocAt(before.offset), GetObject, f));
    }
  }

  lemma PartSized(directory: Octets, b: Builder, p: ZipLayoutPart)
    requires Splittable(p) && AllSized(directory, b.parts)
    ensures AllSized(directory, WithPart(b, p).parts)
  {
    OpenSized(directory, b);
    match p
    case Single(files) =>
      EachSized(directory, Open(b), files);
    case Duo(regular, copy) =>
      EachSized(directory, Open(b), regular);
      CopySized(directory, WithFiles(b, regular), copy.file, StartByte(copy));
  }

  lemma {:induction false} BuiltSized(directory: Octets, parts: seq<ZipLayoutPart>)
    requires forall i | 0 <= i < |parts| :: Splittable(parts[i])
    ensures AllSized(directory, Built(parts).parts)
  {
    if parts != [] {
      BuiltSized(directory, parts[..|parts| - 1]);
      PartSized(directory, Built(parts[..|parts| - 1]), parts[|parts| - 1]);
    }
  }

  // ---------- Floors ----------

  /** Every part that is, or will be, followed by another reaches the minimum. */
  ghost predicate Floored(jobs: seq<PartJob>) {
    forall i | 0 <= i < |jobs| :: i < |jobs| - 1 || jobs[i].Copy? ==> jobs[i].partSize >= MIN_PART_SIZE
  }

  function LastSize(jobs: seq<PartJob>): nat
    requires jobs != []
  {
    jobs[|jobs| - 1].partSize
  }

  lemma OpenFloored(b: Builder)
    requires Floored(b.parts)
    ensures Floored(Open(b).parts)
  {
    if !LastIsUpload(b.parts) && b.parts != [] {
      assert b.parts[|b.parts| - 1].Copy?;
    }
  }

  lemma {:induction false} EachFloored(b: Builder, files: seq<FileInfo>)
    requires LastIsUpload(b.parts) && Floored(b.parts)
    ensures Floored(WithEach(b, files).parts)
    ensures LastSize(WithEach(b, files).parts) == LastSize(b.parts) + PartSize(files)
  {
    if files != [] {
      EachFloored(b, files[..|files| - 1]);
    }
  }

  lemma CopyFloored(b: Builder, f: FileInfo, start: Option<nat>)
    requires LastIsUpload(b.parts) && Floored(b.parts) && StartOf(start) + MIN_PART_SIZE <= f.Size()
    requires LastSize(b.parts) + HeaderSize(f) + StartOf(start) >= MIN_PART_SIZE
    ensures Floored(WithCopy(b, f, start).parts)
  {}

  lemma PartFloored(b: Builder, p: ZipLayoutPart)
    requires Splittable(p) && DuoSound(p) && Floored(b.parts)
    ensures Floored(WithPart(b, p).parts)
  {
    OpenFloored(b);
    match p
    case Single(files) =>
      EachFloored(Open(b), files);
    case Duo(regular, copy) =>
      EachFloored(Open(b), regular);
      CopyFloored(WithFiles(b, regular), copy.file, StartByte(copy));
  }

  lemma {:induction false} BuiltFloored(parts: seq<ZipLayoutPart>)
    requires AllSound(parts) && forall i | 0 <= i < |parts| :: Splittable(parts[i])
    ensures Floored(Built(parts).parts)
  {
    if parts != [] {
      var last := |parts| - 1;
      BuiltFloored(parts[..last]);
      assert DuoSound(parts[last]);
      PartFloored(Built(parts[..last]), parts[last]);
    }
  }

  /** `into_part_jobs` never subtracts past zero on a planned layout. */
  lemma SoundSplits(parts: seq<ZipLayoutPart>)
    requires AllSound(parts)
    ensures forall i | 0 <= i < |parts| :: Splittable(parts[i])
  {
    forall i | 0 <= i < |parts| ensures Splittable(parts[i]) {
      assert DuoSound(parts[i]);
    }
  }

  // ---------- Directory headers in layout order ----------

  /** The header an entry sends to the directory once its CRC is known. */
  function HeaderOf(e: Element): seq<Cdfh> {
    match e
    case EntryFromS3(loc, _, file) => [Cdfh(loc, file.crc)]
    case CentralDirectory(_, _) => []
  }

  function HeadersIn(elements: seq<Element>): seq<Cdfh> {
    if elements == [] then [] else HeadersIn(elements[..|elements| - 1]) + HeaderOf(elements[|elements| - 1])
  }

  function JobHeaders(job: PartJob): seq<Cdfh> {
    if job.Upload? then HeadersIn(job.elements) else []
  }

  function HeadersOf(jobs: seq<PartJob>): seq<Cdfh> {
    if jobs == [] then [] else HeadersOf(jobs[..|jobs| - 1]) + JobHeaders(jobs[|jobs| - 1])
  }

  /** The directory headers of the files, each at the offset where its local header lands. */
  function HeadersFor(files: seq<FileInfo>): (headers: seq<Cdfh>)
    ensures |headers| == |files|
  {
    if files == [] then []
    else
      var front, f := files[..|files| - 1], files[|files| - 1];
      HeadersFor(front) + [Cdfh(f.LocAt(|Spell(front)|), f.crc)]
  }

  function SizesFor(files: seq<FileInfo>): (sizes: seq<nat>)
    ensures |sizes| == |files|
  {
    if files == [] then []
    else
      var front, f := files[..|files| - 1], files[|files| - 1];
      SizesFor(front) + [Predicted(f, |Spell(front)|)]
  }

  lemma ExtendHeaders(jobs: seq<PartJob>, e: Element)
    requires LastIsUpload(jobs)
    ensures HeadersOf(Extend(jobs, e)) == HeadersOf(jobs) + HeaderOf(e)
  {
    var front, last := jobs[..|jobs| - 1], jobs[|jobs| - 1];
    var grown := Upload(last.partNumber, last.partSize + ElemSize(e), last.elements + [e]);
    assert Extend(jobs, e)[..|jobs| - 1] == front;
    assert (last.elements + [e])[..|last.elements|] == last.elements;
    assert HeadersOf(front) + (HeadersIn(last.elements) + HeaderOf(e)) == (HeadersOf(front) + HeadersIn(last.elements)) + HeaderOf(e);
  }

  lemma EmptyJobHeaders(jobs: seq<PartJob>, job: PartJob)
    requires JobHeaders(job) == []
    ensures HeadersOf(jobs + [job]) == HeadersOf(jobs)
  {
    assert (jobs + [job])[..|jobs|] == jobs;
    assert HeadersOf(jobs) + [] == HeadersOf(jobs);
  }

  /** The builder has announced exactly the files' headers and predicted exactly their sizes. */
  ghost predicate Announced(b: Builder, files: seq<FileInfo>) {
    HeadersOf(b.parts) == HeadersFor(files) && b.cdfhSizes == SizesFor(files) && b.offset == |Spell(files)|
  }

  lemma OpenAnnounced(b: Builder, files: seq<FileInfo>)
    requires Announced(b, files)
    ensures Announced(Open(b), files)
  {
    if !LastIsUpload(b.parts) {
      EmptyJobHeaders(b.parts, Upload(|b.parts| + 1, 0, []));
    }
  }

  lemma OneMoreHeader(files: seq<FileInfo>, f: FileInfo)
    ensures HeadersFor(files + [f]) == HeadersFor(files) + [Cdfh(f.LocAt(|Spell(files)|), f.crc)]
    ensures SizesFor(files + [f]) == SizesFor(files) + [Predicted(f, |Spell(files)|)]
  {
    assert (files + [f])[..|files|] == files;
  }

  lemma AddAnnounced(b: Builder, files: seq<FileInfo>, f: FileInfo)
    requires LastIsUpload(b.parts) && Announced(b, files)
    ensures Announced(WithFile(b, f), files + [f])
  {
    ExtendHeaders(b.parts, EntryFromS3(f.LocAt(b.offset), GetObject, f));
    OneMoreHeader(files, f);
    RegionGrows(files, f);
  }

  lemma CopyAnnounced(b: Builder, files: seq<FileInfo>, f: FileInfo, start: Option<nat>)
    requires LastIsUpload(b.parts) && StartOf(start) <= f.Size() && Announced(b, files)
    ensures Announced(WithCopy(b, f, start), files + [f])
  {
    CopyHeaders(b, f, start);
    OneMoreHeader(files, f);
    RegionGrows(files, f);
  }

  lemma CopyHeaders(b: Builder, f: FileInfo, start: Option<nat>)
    requires LastIsUpload(b.parts) && StartOf(start) <= f.Size()
    ensures HeadersOf(WithCopy(b, f, start).parts) == HeadersOf(b.parts) + [Cdfh(f.LocAt(b.offset), f.crc)]
  {
    var operation := if start.Some? then PartialGet(start.value) else HeadObject;
    var extended := Extend(b.parts, EntryFromS3(f.LocAt(b.offset), operation, f));
    ExtendHeaders(b.parts, EntryFromS3(f.LocAt(b.offset), operation, f));
    EmptyJobHeaders(extended, Copy(|extended| + 1, f.Size() - StartOf(start), f, start));
  }

  lemma {:induction false} EachAnnounced(b: Builder, files: seq<FileInfo>, more: seq<FileInfo>)
    requires LastIsUpload(b.parts) && Announced(b, files)
    ensures Announced(WithEach(b, more), files + more)
  {
    if more == [] {
      NoMore(files);
    } else {
      EachAnnounced(b, files, more[..|more| - 1]);
      LastOne(files, more);
      AddAnnounced(WithEach(b, more[..|more| - 1]), files + more[..|more| - 1], more[|more| - 1]);
    }
  }

  lemma FilesAnnounced(b: Builder, files: seq<FileInfo>, more: seq<FileInfo>)
    requires Announced(b, files)
    ensures Announced(WithFiles(b, more), files + more)
  {
    OpenAnnounced(b, files);
    EachAnnounced(Open(b), files, more);
  }

  lemma ThenOne(files: seq<FileInfo>, regular: seq<FileInfo>, f: FileInfo)
    ensures files + (regular + [f]) == (files + regular) + [f]
  {}

  lemma PartAnnounced(b: Builder, files: seq<FileInfo>, p: ZipLayoutPart)
    requires Splittable(p) && Announced(b, files)
    ensures Announced(WithPart(b, p), files + PartFiles(p))
  {
    match p
    case Single(more) =>
      FilesAnnounced(b, files, more);
    case Duo(regular, copy) =>
      FilesAnnounced(b, files, regular);
      ThenOne(files, regular, copy.file);
      CopyAnnounced(WithFiles(b, regular), files + regular, copy.file, StartByte(copy));
  }

  lemma {:induction false} BuiltAnnounced(parts: seq<ZipLayoutPart>)
    requires forall i | 0 <= i < |parts| :: Splittable(parts[i])
    ensures Announced(Built(parts), LayoutFiles(parts))
  {
    if parts != [] {
      BuiltAnnounced(parts[..|parts| - 1]);
      PartAnnounced(Built(parts[..|parts| - 1]), LayoutFiles(parts[..|parts| - 1]), parts[|parts| - 1]);
    }
  }

  // ---------- The directory part ----------

  lemma SpellOffset(files: seq<FileInfo>, i: nat)
    requires i <= |files|
    ensures |Spell(files[..i])| == OffsetOf(LocalsOf(files), i)
  {
    SpellIsRegion(files[..i]);
    assert LocalsOf(files)[..i] == LocalsOf(files[..i]);
  }

  lemma CdfhsNext(files: seq<FileInfo>, i: nat)
    requires i < |files|
    ensures CdfhsOf(files)[..i + 1] == CdfhsOf(files)[..i] + [CdfhAt(files, i)]
  {}

  lemma {:induction false} HeadersAreCanonical(files: seq<FileInfo>, n: nat)
    requires n <= |files|
    ensures HeadersFor(files[..n]) == CdfhsOf(files)[..n]
  {
    if n > 0 {
      HeadersAreCanonical(files, n - 1);
      assert files[..n][..n - 1] == files[..n - 1];
      SpellOffset(files, n - 1);
      CdfhsNext(files, n - 1);
    }
  }

  lemma HeadersForAll(files: seq<FileInfo>)
    ensures HeadersFor(files) == CdfhsOf(files)
  {
    HeadersAreCanonical(files, |files|);
    assert files[..|files|] == files && CdfhsOf(files)[..|files|] == CdfhsOf(files);
  }

  lemma RecordsAppend(headers: seq<Cdfh>, c: Cdfh)
    ensures Flatten(RecordsOf(headers + [c])) == Flatten(RecordsOf(headers)) + CdfhBytes(c)
  {
    FlattenAppend(RecordsOf(headers), CdfhBytes(c));
    assert RecordsOf(headers + [c]) == RecordsOf(headers) + [CdfhBytes(c)];
  }

  /** The predicted header sizes add up to the directory's length. */
  lemma {:induction false} PredictedTotal(files: seq<FileInfo>)
    ensures Total(SizesFor(files)) == |Flatten(RecordsOf(HeadersFor(files)))|
  {
    if files != [] {
      var front, f := files[..|files| - 1], files[|files| - 1];
      var c := Cdfh(f.LocAt(|Spell(front)|), f.crc);
      PredictedTotal(front);
      CdfhLength(c);
      RecordsAppend(HeadersFor(front), c);
    }
  }

  /** The end facts the builder computes are those of the directory that will be written. */
  lemma DirectoryPredicted(b: Builder, files: seq<FileInfo>)
    requires Announced(b, files)
    ensures Total(b.cdfhSizes) == |Flatten(RecordsOf(CdfhsOf(files)))|
    ensures EndInfo(|b.cdfhSizes|, Total(b.cdfhSizes), b.offset, b.offset + Total(b.cdfhSizes)) == EndOf(files)
    ensures |DirectoryPart(CdfhsOf(files), |BodyRegion(files)|)|
         == Total(b.cdfhSizes) + PredictEndSize(Total(b.cdfhSizes), b.offset, |b.cdfhSizes|)
  {
    PredictedTotal(files);
    HeadersForAll(files);
    SpellIsRegion(files);
    EndLength(EndOf(files));
  }

  /** The directory part of a list of files. */
  function DirectoryFor(files: seq<FileInfo>): Octets { DirectoryPart(CdfhsOf(files), |BodyRegion(files)|) }

  predicate EndsWith(jobs: seq<PartJob>, e: Element)
    requires LastIsUpload(jobs)
  {
    var elements := jobs[|jobs| - 1].elements;
    elements != [] && elements[|elements| - 1] == e
  }

  /** What the finished job list promises. */
  ghost predicate JobsFit(jobs: seq<PartJob>, directory: Octets, end: EndInfo, headers: seq<Cdfh>, archive: Octets) {
    && LastIsUpload(jobs) && Alternating(jobs)
    && (forall i | 0 <= i < |jobs| - 1 :: jobs[i].partSize >= MIN_PART_SIZE)
    && AllSized(directory, jobs)
    && JobsBytes(directory, jobs) == archive
    && HeadersOf(jobs) == headers
    && EndsWith(jobs, CentralDirectory(|directory|, end))
  }

  ghost predicate JobsSound(jobs: seq<PartJob>, files: seq<FileInfo>) {
    JobsFit(jobs, DirectoryFor(files), EndOf(files), CdfhsOf(files), Archive(files))
  }

  lemma FinalBytes(directory: Octets, b: Builder, files: seq<FileInfo>, e: Element)
    requires Holds(directory, b, files) && e.CentralDirectory?
    ensures JobsBytes(directory, Extend(Open(b).parts, e)) == Spell(files) + directory
  {
    OpenBytes(directory, b);
    ExtendBytes(directory, Open(b).parts, e);
  }

  lemma FinalShape(b: Builder, e: Element)
    requires Alternating(b.parts) && Floored(b.parts)
    ensures Alternating(Extend(Open(b).parts, e))
    ensures forall i | 0 <= i < |Extend(Open(b).parts, e)| - 1 :: Extend(Open(b).parts, e)[i].partSize >= MIN_PART_SIZE
  {
    OpenAlternates(b);
    OpenFloored(b);
  }

  lemma FinalHeaders(b: Builder, files: seq<FileInfo>, e: Element)
    requires Announced(b, files) && e.CentralDirectory?
    ensures HeadersOf(Extend(Open(b).parts, e)) == HeadersFor(files)
  {
    OpenAnnounced(b, files);
    ExtendHeaders(Open(b).parts, e);
    assert HeadersFor(files) + [] == HeadersFor(files);
  }

  lemma FinalSized(directory: Octets, b: Builder, e: Element)
    requires AllSized(directory, b.parts) && e.CentralDirectory? && e.totalSize == |directory|
    ensures AllSized(directory, Extend(Open(b).parts, e))
  {
    OpenSized(directory, b);
    ExtendSized(directory, Open(b).parts, e);
  }

  /**
   * Every planned layout becomes a sound job list: numbered 1 to n, alternating from upload to upload,
   * each part exactly as large as announced and, but for the last, at least the minimum; together
   * they are the canonical archive, ending in the directory.
   */
  lemma JobsTheorem(parts: seq<ZipLayoutPart>)
    requires AllSound(parts) && forall i | 0 <= i < |parts| :: Splittable(parts[i])
    ensures JobsSound(IntoPartJobs(parts), LayoutFiles(parts))
  {
    var b, files := Built(parts), LayoutFiles(parts);
    BuiltAlternates(parts);
    BuiltFloored(parts);
    BuiltSized(DirectoryFor(files), parts);
    BuiltHolds(DirectoryFor(files), parts);
    BuiltAnnounced(parts);
    FinalizeSound(b, files);
  }

  lemma FinalizeFits(b: Builder, files: seq<FileInfo>, directory: Octets, e: Element)
    requires Alternating(b.parts) && Floored(b.parts) && AllSized(directory, b.parts)
    requires Holds(directory, b, files) && Announced(b, files)
    requires e.CentralDirectory? && e.totalSize == |directory|
    ensures JobsFit(Extend(Open(b).parts, e), directory, e.end, HeadersFor(files), Spell(files) + directory)
  {
    FinalShape(b, e);
    FinalBytes(directory, b, files, e);
    FinalSized(directory, b, e);
    FinalHeaders(b, files, e);
  }

  lemma ArchiveIs(files: seq<FileInfo>)
    ensures Spell(files) + DirectoryFor(files) == Archive(files) && HeadersFor(files) == CdfhsOf(files)
  {
    SpellIsRegion(files);
    HeadersForAll(files);
  }

  lemma FinalizeIs(b: Builder, directory: Octets, end: EndInfo)
    requires end == EndInfo(|b.cdfhSizes|, Total(b.cdfhSizes), b.offset, b.offset + Total(b.cdfhSizes))
    requires |directory| == Total(b.cdfhSizes) + PredictEndSize(Total(b.cdfhSizes), b.offset, |b.cdfhSizes|)
    ensures Finished(b) == Extend(Open(b).parts, CentralDirectory(|directory|, end))
  {}

  lemma FinalizeSound(b: Builder, files: seq<FileInfo>)
    requires Alternating(b.parts) && Floored(b.parts) && AllSized(DirectoryFor(files), b.parts)
    requires Holds(DirectoryFor(files), b, files) && Announced(b, files)
    ensures JobsSound(Finished(b), files)
  {
    DirectoryPredicted(b, files);
    FinalizeIs(b, DirectoryFor(files), EndOf(files));
    FinalizeFits(b, files, DirectoryFor(files), CentralDirectory(|DirectoryFor(files)|, EndOf(files)));
    FitsSound(Finished(b), files);
  }

  lemma FitsSound(jobs: seq<PartJob>, files: seq<FileInfo>)
    requires JobsFit(jobs, DirectoryFor(files), EndOf(files), HeadersFor(files), Spell(files) + DirectoryFor(files))
    ensures JobsSound(jobs, files)
  {
    ArchiveIs(files);
  }

  /** What the jobs announce together. */
  function SumOfSizes(jobs: seq<PartJob>): nat {
    if jobs == [] then 0 else SumOfSizes(jobs[..|jobs| - 1]) + jobs[|jobs| - 1].partSize
  }

  /** The announced sizes add up to the bytes of the jobs. */
  lemma {:induction false} SizesAddUp(directory: Octets, jobs: seq<PartJob>)
    requires AllSized(directory, jobs)
    ensures SumOfSizes(jobs) == |JobsBytes(directory, jobs)|
  {
    if jobs != [] {
      SizesAddUp(directory, jobs[..|jobs| - 1]);
      assert SizedAt(directory, jobs[|jobs| - 1]);
    }
  }

  /** The builder's running offset is the sum of the part sizes so far. */
  lemma OffsetTheorem(parts: seq<ZipLayoutPart>)
    requires forall i | 0 <= i < |parts| :: Splittable(parts[i])
    ensures var b := Built(parts); b.offset == SumOfSizes(b.parts)
  {
    var b := Built(parts);
    BuiltSized([], parts);
    BuiltHolds([], parts);
    SizesAddUp([], b.parts);
  }
}
