/** jrodon-v3's part builder: layout parts become numbered upload and copy jobs with a running offset. */
module JrodonBuilder {
  import opened Bytes
  import opened Canonical
  import opened JrodonArchive
  import opened JrodonFormat
  import opened JrodonLayout
  import opened ZipReader

  // ---------- Jobs and their bytes ----------

  datatype Operation = GetObject | PartialGet(size: nat) | HeadObject

  /** An element of an upload part; `file` stands for the object named by bucket and key. */
  datatype Element =
    | EntryFromS3(loc: Loc, operation: Operation, file: FileInfo)
    | CentralDirectory(totalSize: nat, end: EndInfo)

  datatype PartJob =
    | Upload(partNumber: nat, partSize: nat, elements: seq<Element>)
    | Copy(partNumber: nat, partSize: nat, source: FileInfo, start: Option<nat>)

  function ElemSize(e: Element): nat {
    match e
    case EntryFromS3(loc, GetObject, _) => LocSize(loc) + loc.fileSize
    case EntryFromS3(loc, PartialGet(size), _) => LocSize(loc) + size
    case EntryFromS3(loc, HeadObject, _) => LocSize(loc)
    case CentralDirectory(totalSize, _) => totalSize
  }

  function SizeOf(elements: seq<Element>): nat {
    if elements == [] then 0 else SizeOf(elements[..|elements| - 1]) + ElemSize(elements[|elements| - 1])
  }

  /** What S3 returns for the operation, cut short like a ranged read of a short object. */
  function Downloaded(operation: Operation, body: Octets): Octets {
    match operation
    case GetObject => body
    case PartialGet(size) => if size <= |body| then body[..size] else body
    case HeadObject => []
  }

  /** The bytes of an element; `directory` stands for the directory element. */
  function ElementBytes(directory: Octets, e: Element): Octets {
    match e
    case EntryFromS3(loc, operation, file) => LocBytes(loc, file.crc) + Downloaded(operation, file.body)
    case CentralDirectory(_, _) => directory
  }

  function ElementsBytes(directory: Octets, elements: seq<Element>): Octets {
    if elements == [] then []
    else ElementsBytes(directory, elements[..|elements| - 1]) + ElementBytes(directory, elements[|elements| - 1])
  }

  function CopiedFrom(body: Octets, start: Option<nat>): Octets {
    match start
    case None => body
    case Some(n) => if n <= |body| then body[n..] else []
  }

  function JobBytes(directory: Octets, job: PartJob): Octets {
    match job
    case Upload(_, _, elements) => ElementsBytes(directory, elements)
    case Copy(_, _, source, start) => CopiedFrom(source.body, start)
  }

  function JobsBytes(directory: Octets, jobs: seq<PartJob>): Octets {
    if jobs == [] then [] else JobsBytes(directory, jobs[..|jobs| - 1]) + JobBytes(directory, jobs[|jobs| - 1])
  }

  // ---------- The builder's steps ----------

  datatype Builder = Builder(offset: nat, cdfhSizes: seq<nat>, parts: seq<PartJob>)

  predicate LastIsUpload(parts: seq<PartJob>) {
    parts != [] && parts[|parts| - 1].Upload?
  }

  /** Adds an element to the last upload part. */
  function Extend(parts: seq<PartJob>, e: Element): seq<PartJob>
    requires LastIsUpload(parts)
  {
    var last := parts[|parts| - 1];
    parts[..|parts| - 1] + [Upload(last.partNumber, last.partSize + ElemSize(e), last.elements + [e])]
  }

  /** An upload part is ready unless the last part already is one; it may stay empty. */
  function Open(b: Builder): (r: Builder)
    ensures LastIsUpload(r.parts)
  {
    if LastIsUpload(b.parts) then b else b.(parts := b.parts + [Upload(|b.parts| + 1, 0, [])])
  }

  function Predicted(f: FileInfo, offset: nat): nat { PredictCdfhSize(f.Size(), |f.name|, offset) }

  function WithFile(b: Builder, f: FileInfo): Builder
    requires LastIsUpload(b.parts)
  {
    Builder(b.offset + HeaderSize(f) + f.Size(), b.cdfhSizes + [Predicted(f, b.offset)],
            Extend(b.parts, EntryFromS3(f.LocAt(b.offset), GetObject, f)))
  }

  function WithEach(b: Builder, files: seq<FileInfo>): (r: Builder)
    requires LastIsUpload(b.parts)
    ensures LastIsUpload(r.parts)
  {
    if files == [] then b else WithFile(WithEach(b, files[..|files| - 1]), files[|files| - 1])
  }

  function WithFiles(b: Builder, files: seq<FileInfo>): (r: Builder)
    ensures LastIsUpload(r.parts)
  {
    WithEach(Open(b), files)
  }

  function StartOf(start: Option<nat>): nat { if start.Some? then start.value else 0 }

  /** The header (and any downloaded prefix) joins the last upload; the rest becomes a copy part. */
  function WithCopy(b: Builder, f: FileInfo, start: Option<nat>): Builder
    requires LastIsUpload(b.parts) && StartOf(start) <= f.Size()
  {
    var operation := if start.Some? then PartialGet(start.value) else HeadObject;
    var extended := Extend(b.parts, EntryFromS3(f.LocAt(b.offset), operation, f));
    Builder(b.offset + HeaderSize(f) + f.Size(), b.cdfhSizes + [Predicted(f, b.offset)],
            extended + [Copy(|extended| + 1, f.Size() - StartOf(start), f, start)])
  }

  function Total(sizes: seq<nat>): nat {
    if sizes == [] then 0 else Total(sizes[..|sizes| - 1]) + sizes[|sizes| - 1]
  }

  function Finished(b: Builder): seq<PartJob> {
    var size := Total(b.cdfhSizes);
    var end := EndInfo(|b.cdfhSizes|, size, b.offset, b.offset + size);
    Extend(Open(b).parts, CentralDirectory(size + PredictEndSize(size, b.offset, |b.cdfhSizes|), end))
  }

  function StartByte(c: CopyZipPart): Option<nat> {
    match c
    case FullCopy(_) => None
    case PartialCopy(_, startByte) => Some(startByte)
  }

  predicate Splittable(p: ZipLayoutPart) {
    p.Duo? ==> StartOf(StartByte(p.copy)) <= p.copy.file.Size()
  }

  function WithPart(b: Builder, p: ZipLayoutPart): Builder
    requires Splittable(p)
  {
    match p
    case Single(files) => WithFiles(b, files)
    case Duo(regular, copy) => WithCopy(WithFiles(b, regular), copy.file, StartByte(copy))
  }

  function Built(parts: seq<ZipLayoutPart>): Builder
    requires forall i | 0 <= i < |parts| :: Splittable(parts[i])
  {
    if parts == [] then Builder(0, [], []) else WithPart(Built(parts[..|parts| - 1]), parts[|parts| - 1])
  }

  function IntoPartJobs(parts: seq<ZipLayoutPart>): seq<PartJob>
    requires forall i | 0 <= i < |parts| :: Splittable(parts[i])
  {
    Finished(Built(parts))
  }

  // ---------- Sequences of jobs ----------

  lemma JobsAppend(directory: Octets, jobs: seq<PartJob>, job: PartJob)
    ensures JobsBytes(directory, jobs + [job]) == JobsBytes(directory, jobs) + JobBytes(directory, job)
  {
    assert (jobs + [job])[..|jobs|] == jobs;
  }

  lemma SizeAppend(elements: seq<Element>, e: Element)
    ensures SizeOf(elements + [e]) == SizeOf(elements) + ElemSize(e)
  {
    assert (elements + [e])[..|elements|] == elements;
  }

  lemma ElementsAppend(directory: Octets, elements: seq<Element>, e: Element)
    ensures ElementsBytes(directory, elements + [e]) == ElementsBytes(directory, elements) + ElementBytes(directory, e)
  {
    assert (elements + [e])[..|elements|] == elements;
  }

  lemma FrontAndLast(jobs: seq<PartJob>)
    requires jobs != []
    ensures jobs == jobs[..|jobs| - 1] + [jobs[|jobs| - 1]]
  {}

  /** Extending the last upload appends the element's bytes to the whole. */
  lemma ExtendBytes(directory: Octets, jobs: seq<PartJob>, e: Element)
    requires LastIsUpload(jobs)
    ensures JobsBytes(directory, Extend(jobs, e)) == JobsBytes(directory, jobs) + ElementBytes(directory, e)
  {
    var front, last := jobs[..|jobs| - 1], jobs[|jobs| - 1];
    FrontAndLast(jobs);
    JobsAppend(directory, front, last);
    JobsAppend(directory, front, Upload(last.partNumber, last.partSize + ElemSize(e), last.elements + [e]));
    ElementsAppend(directory, last.elements, e);
    Reassociate(JobsBytes(directory, front), ElementsBytes(directory, last.elements), ElementBytes(directory, e));
  }

  lemma OpenBytes(directory: Octets, b: Builder)
    ensures JobsBytes(directory, Open(b).parts) == JobsBytes(directory, b.parts)
  {
    if !LastIsUpload(b.parts) {
      JobsAppend(directory, b.parts, Upload(|b.parts| + 1, 0, []));
      assert JobsBytes(directory, b.parts) + [] == JobsBytes(directory, b.parts);
    }
  }

  // ---------- The bytes are the canonical region ----------

  /** Header and body of every file, in order. */
  function Spell(files: seq<FileInfo>): Octets {
    if files == [] then []
    else Spell(files[..|files| - 1]) + files[|files| - 1].Header() + files[|files| - 1].body
  }

  lemma {:induction false} SpellIsRegion(files: seq<FileInfo>)
    ensures Spell(files) == BodyRegion(files)
  {
    if files == [] {
      assert LocalsOf([]) == [];
    } else {
      var front, f := files[..|files| - 1], files[|files| - 1];
      SpellIsRegion(front);
      LocalsAppend(front, f);
      assert files == front + [f];
    }
  }

  /** The builder's jobs hold the files so far, header and body, and the offset is where they end. */
  ghost predicate Holds(directory: Octets, b: Builder, files: seq<FileInfo>) {
    JobsBytes(directory, b.parts) == Spell(files) && b.offset == |Spell(files)|
  }

  lemma EntryBytes(directory: Octets, f: FileInfo, offset: nat, operation: Operation)
    ensures ElementBytes(directory, EntryFromS3(f.LocAt(offset), operation, f)) == f.Header() + Downloaded(operation, f.body)
    ensures |f.Header()| == HeaderSize(f)
  {
    HeaderAnywhere(f, offset);
  }

  lemma RegionGrows(files: seq<FileInfo>, f: FileInfo)
    ensures Spell(files + [f]) == Spell(files) + f.Header() + f.body
    ensures |Spell(files + [f])| == |Spell(files)| + HeaderSize(f) + f.Size()
  {
    assert (files + [f])[..|files|] == files;
    HeaderAnywhere(f, 0);
  }

  lemma AddHolds(directory: Octets, b: Builder, files: seq<FileInfo>, f: FileInfo)
    requires LastIsUpload(b.parts) && Holds(directory, b, files)
    ensures Holds(directory, WithFile(b, f), files + [f])
  {
    ExtendBytes(directory, b.parts, EntryFromS3(f.LocAt(b.offset), GetObject, f));
    EntryBytes(directory, f, b.offset, GetObject);
    RegionGrows(files, f);
    Reassociate(Spell(files), f.Header(), f.body);
  }

  lemma SplitBody(region: Octets, header: Octets, body: Octets, n: nat)
    requires n <= |body|
    ensures (region + (header + body[..n])) + body[n..] == region + header + body
  {
    assert body[..n] + body[n..] == body;
  }

  lemma CopyBytes(directory: Octets, b: Builder, f: FileInfo, start: Option<nat>)
    requires LastIsUpload(b.parts) && StartOf(start) <= f.Size()
    ensures JobsBytes(directory, WithCopy(b, f, start).parts)
         == (JobsBytes(directory, b.parts) + (f.Header() + f.body[..StartOf(start)])) + f.body[StartOf(start)..]
  {
    var operation := if start.Some? then PartialGet(start.value) else HeadObject;
    var e := EntryFromS3(f.LocAt(b.offset), operation, f);
    var extended := Extend(b.parts, e);
    ExtendBytes(directory, b.parts, e);
    EntryBytes(directory, f, b.offset, operation);
    JobsAppend(directory, extended, Copy(|extended| + 1, f.Size() - StartOf(start), f, start));
    PrefixAndRest(f.body, start);
  }

  lemma CopyHolds(directory: Octets, b: Builder, files: seq<FileInfo>, f: FileInfo, start: Option<nat>)
    requires LastIsUpload(b.parts) && Holds(directory, b, files) && StartOf(start) <= f.Size()
    ensures Holds(directory, WithCopy(b, f, start), files + [f])
  {
    CopyBytes(directory, b, f, start);
    RegionGrows(files, f);
    SplitBody(Spell(files), f.Header(), f.body, StartOf(start));
  }

  lemma PrefixAndRest(body: Octets, start: Option<nat>)
    requires StartOf(start) <= |body|
    ensures Downloaded(if start.Some? then PartialGet(start.value) else HeadObject, body) == body[..StartOf(start)]
    ensures CopiedFrom(body, start) == body[StartOf(start)..]
  {}

  lemma NoMore(files: seq<FileInfo>)
    ensures files + [] == files
  {}

  lemma LastOne(files: seq<FileInfo>, more: seq<FileInfo>)
    requires more != []
    ensures files + more == (files + more[..|more| - 1]) + [more[|more| - 1]]
  {}

  lemma {:induction false} AddEachHolds(directory: Octets, b: Builder, files: seq<FileInfo>, more: seq<FileInfo>)
    requires LastIsUpload(b.parts) && Holds(directory, b, files)
    ensures Holds(directory, WithEach(b, more), files + more)
  {
    if more == [] {
      NoMore(files);
    } else {
      AddEachHolds(directory, b, files, more[..|more| - 1]);
      LastOne(files, more);
      AddHolds(directory, WithEach(b, more[..|more| - 1]), files + more[..|more| - 1], more[|more| - 1]);
    }
  }

  lemma AddFilesHolds(directory: Octets, b: Builder, files: seq<FileInfo>, more: seq<FileInfo>)
    requires Holds(directory, b, files)
    ensures Holds(directory, WithFiles(b, more), files + more)
  {
    OpenBytes(directory, b);
    AddEachHolds(directory, Open(b), files, more);
  }

  lemma AddPartHolds(directory: Octets, b: Builder, files: seq<FileInfo>, p: ZipLayoutPart)
    requires Splittable(p) && Holds(directory, b, files)
    ensures Holds(directory, WithPart(b, p), files + PartFiles(p))
  {
    match p
    case Single(more) =>
      AddFilesHolds(directory, b, files, more);
    case Duo(regular, copy) =>
      AddFilesHolds(directory, b, files, regular);
      CopyHolds(directory, WithFiles(b, regular), files + regular, copy.file, StartByte(copy));
      CopiedLast(files, regular, copy.file);
  }

  lemma CopiedLast(files: seq<FileInfo>, regular: seq<FileInfo>, copied: FileInfo)
    ensures files + (regular + [copied]) == (files + regular) + [copied]
  {}

  /** Through every step the jobs spell out the canonical region of the files in layout order. */
  lemma {:induction false} BuiltHolds(directory: Octets, parts: seq<ZipLayoutPart>)
    requires forall i | 0 <= i < |parts| :: Splittable(parts[i])
    ensures Holds(directory, Built(parts), LayoutFiles(parts))
  {
    if parts != [] {
      BuiltHolds(directory, parts[..|parts| - 1]);
      AddPartHolds(directory, Built(parts[..|parts| - 1]), LayoutFiles(parts[..|parts| - 1]), parts[|parts| - 1]);
    }
  }

  // ---------- The builder object ----------

  /** Adds several elements to the last upload part. */
  function ExtendAll(parts: seq<PartJob>, elements: seq<Element>): seq<PartJob>
    requires LastIsUpload(parts)
  {
    var last := parts[|parts| - 1];
    parts[..|parts| - 1] + [Upload(last.partNumber, last.partSize + SizeOf(elements), last.elements + elements)]
  }

  lemma ExtendAllNext(parts: seq<PartJob>, elements: seq<Element>, e: Element)
    requires LastIsUpload(parts)
    ensures Extend(ExtendAll(parts, elements), e) == ExtendAll(parts, elements + [e])
  {
    var last := parts[|parts| - 1];
    SizeAppend(elements, e);
    UploadExtended(parts[..|parts| - 1], last.partNumber, last.partSize + SizeOf(elements), last.elements + elements, e);
    OneElementMore(last.elements, elements, e);
  }

  lemma UploadExtended(front: seq<PartJob>, number: nat, size: nat, elements: seq<Element>, e: Element)
    ensures Extend(front + [Upload(number, size, elements)], e) == front + [Upload(number, size + ElemSize(e), elements + [e])]
  {
    assert (front + [Upload(number, size, elements)])[..|front|] == front;
  }

  lemma OneElementMore(first: seq<Element>, elements: seq<Element>, e: Element)
    ensures (first + elements) + [e] == first + (elements + [e])
  {}

  lemma ExtendNone(parts: seq<PartJob>)
    requires LastIsUpload(parts)
    ensures ExtendAll(parts, []) == parts
  {
    FrontAndLast(parts);
    assert parts[|parts| - 1].elements + [] == parts[|parts| - 1].elements;
  }

  lemma {:induction false} SizeConcat(a: seq<Element>, b: seq<Element>)
    ensures SizeOf(a + b) == SizeOf(a) + SizeOf(b)
  {
    if b == [] {
      assert a + b == a;
    } else {
      SizeConcat(a, b[..|b| - 1]);
      assert (a + b)[..|a + b| - 1] == a + b[..|b| - 1];
    }
  }

  /** Upload parts carry the sum of their elements' sizes. */
  ghost predicate Summed(parts: seq<PartJob>) {
    forall i | 0 <= i < |parts| :: parts[i].Upload? ==> parts[i].partSize == SizeOf(parts[i].elements)
  }

  lemma ExtendAllSummed(parts: seq<PartJob>, elements: seq<Element>)
    requires LastIsUpload(parts) && Summed(parts)
    ensures Summed(ExtendAll(parts, elements))
  {
    SizeConcat(parts[|parts| - 1].elements, elements);
  }

  /** The last part's size may be summed afresh. */
  lemma JoinLast(parts: seq<PartJob>, elements: seq<Element>)
    requires LastIsUpload(parts) && Summed(parts)
    ensures var last := parts[|parts| - 1];
      ExtendAll(parts, elements)
      == parts[..|parts| - 1] + [Upload(last.partNumber, SizeOf(last.elements + elements), last.elements + elements)]
    ensures Summed(ExtendAll(parts, elements))
  {
    SizeConcat(parts[|parts| - 1].elements, elements);
    ExtendAllSummed(parts, elements);
  }

  lemma SummedAppend(parts: seq<PartJob>, part: PartJob)
    requires Summed(parts) && (part.Upload? ==> part.partSize == SizeOf(part.elements))
    ensures Summed(parts + [part])
  {}

  lemma JoinFresh(b: Builder, elements: seq<Element>)
    requires !LastIsUpload(b.parts) && Summed(b.parts)
    ensures ExtendAll(Open(b).parts, elements) == b.parts + [Upload(|b.parts| + 1, SizeOf(elements), elements)]
    ensures Summed(ExtendAll(Open(b).parts, elements))
  {
    ExtendFresh(b.parts, Upload(|b.parts| + 1, 0, []), elements);
    SummedAppend(b.parts, Upload(|b.parts| + 1, SizeOf(elements), elements));
  }

  /** Extending an empty upload part fills it. */
  lemma ExtendFresh(parts: seq<PartJob>, empty: PartJob, elements: seq<Element>)
    requires empty.Upload? && empty.partSize == 0 && empty.elements == []
    ensures ExtendAll(parts + [empty], elements) == parts + [Upload(empty.partNumber, SizeOf(elements), elements)]
  {
    assert (parts + [empty])[..|parts|] == parts;
    assert [] + elements == elements;
  }

  lemma ExtendSummed(parts: seq<PartJob>, e: Element)
    requires LastIsUpload(parts) && Summed(parts)
    ensures Summed(Extend(parts, e))
  {
    var front, last := parts[..|parts| - 1], parts[|parts| - 1];
    SummedSplits(parts, front, last);
    LastExtended(front, last, e);
  }

  lemma SummedSplits(parts: seq<PartJob>, front: seq<PartJob>, last: PartJob)
    requires LastIsUpload(parts) && Summed(parts) && front == parts[..|parts| - 1] && last == parts[|parts| - 1]
    ensures Summed(front) && last.partSize == SizeOf(last.elements)
  {}

  lemma LastExtended(front: seq<PartJob>, last: PartJob, e: Element)
    requires Summed(front) && last.Upload? && last.partSize == SizeOf(last.elements)
    ensures Summed(front + [Upload(last.partNumber, last.partSize + ElemSize(e), last.elements + [e])])
  {
    SizeAppend(last.elements, e);
    SummedAppend(front, Upload(last.partNumber, last.partSize + ElemSize(e), last.elements + [e]));
  }

  lemma CopySummed(b: Builder, f: FileInfo, start: Option<nat>)
    requires LastIsUpload(b.parts) && Summed(b.parts) && StartOf(start) <= f.Size()
    ensures Summed(WithCopy(b, f, start).parts)
  {
    var operation := if start.Some? then PartialGet(start.value) else HeadObject;
    ExtendSummed(b.parts, EntryFromS3(f.LocAt(b.offset), operation, f));
  }

  lemma EachNext(b: Builder, files: seq<FileInfo>, i: nat)
    requires LastIsUpload(b.parts) && i < |files|
    ensures WithEach(b, files[..i + 1]) == WithFile(WithEach(b, files[..i]), files[i])
  {
    assert files[..i + 1][..i] == files[..i];
  }

  /** One file more has been registered. */
  lemma FileRegistered(b: Builder, f: FileInfo, parts: seq<PartJob>, elements: seq<Element>, e: Element)
    requires LastIsUpload(parts) && b.parts == ExtendAll(parts, elements)
    requires e == EntryFromS3(f.LocAt(b.offset), GetObject, f)
    ensures WithFile(b, f) == Builder(b.offset + HeaderSize(f) + f.Size(), b.cdfhSizes + [Predicted(f, b.offset)],
                                      ExtendAll(parts, elements + [e]))
  {
    ExtendAllNext(parts, elements, e);
  }

  lemma BuiltNext(layout: seq<ZipLayoutPart>, i: nat)
    requires i < |layout| && forall k | 0 <= k < |layout| :: Splittable(layout[k])
    ensures Built(layout[..i + 1]) == WithPart(Built(layout[..i]), layout[i])
  {
    assert layout[..i + 1][..i] == layout[..i];
  }

  class PartJobsBuilder {
    var currentArchiveOffset: nat
    var cdfhSizes: seq<nat>
    var parts: seq<PartJob>

    function View(): Builder
      reads this
    {
      Builder(currentArchiveOffset, cdfhSizes, parts)
    }

    ghost predicate Valid()
      reads this
    {
      Summed(parts)
    }

    constructor ()
      ensures Valid() && View() == Builder(0, [], [])
    {
      currentArchiveOffset, cdfhSizes, parts := 0, [], [];
    }

    /** Registers one file that is downloaded whole, and returns its element. */
    method RegisterFile(f: FileInfo) returns (e: Element)
      modifies this`currentArchiveOffset, this`cdfhSizes
      ensures e == EntryFromS3(f.LocAt(old(currentArchiveOffset)), GetObject, f)
      ensures currentArchiveOffset == old(currentArchiveOffset) + HeaderSize(f) + f.Size()
      ensures cdfhSizes == old(cdfhSizes) + [Predicted(f, old(currentArchiveOffset))]
    {
      var loc := Loc(currentArchiveOffset, f.name, f.Size());
      cdfhSizes := cdfhSizes + [PredictCdfhSize(f.Size(), |f.name|, loc.offset)];
      currentArchiveOffset := currentArchiveOffset + LocSize(loc) + f.Size();
      e := EntryFromS3(loc, GetObject, f);
    }

    /** The elements join the last upload part, or form a new one behind a copy. */
    method AppendElements(elements: seq<Element>)
      requires Valid()
      modifies this`parts
      ensures Valid() && parts == ExtendAll(Open(old(View())).parts, elements)
    {
      if parts != [] && parts[|parts| - 1].Upload? {
        var last := parts[|parts| - 1];
        var all := last.elements + elements;
        JoinLast(parts, elements);
        parts := parts[..|parts| - 1] + [Upload(last.partNumber, SizeOf(all), all)];
      } else {
        JoinFresh(View(), elements);
        parts := parts + [Upload(|parts| + 1, SizeOf(elements), elements)];
      }
    }

    method AddFiles(fileInfos: seq<FileInfo>)
      requires Valid()
      modifies this
      ensures Valid() && View() == WithFiles(old(View()), fileInfos)
    {
      var elements: seq<Element> := [];
      ghost var ready := Open(View());
      ExtendNone(ready.parts);
      var i := 0;
      while i < |fileInfos|
        modifies this`currentArchiveOffset, this`cdfhSizes
        invariant 0 <= i <= |fileInfos|
        invariant WithEach(ready, fileInfos[..i]) == Builder(currentArchiveOffset, cdfhSizes, ExtendAll(ready.parts, elements))
      {
        ghost var before := WithEach(ready, fileInfos[..i]);
        var e := RegisterFile(fileInfos[i]);
        EachNext(ready, fileInfos, i);
        FileRegistered(before, fileInfos[i], ready.parts, elements, e);
        elements := elements + [e];
        i := i + 1;
      }
      assert fileInfos[..i] == fileInfos;
      AppendElements(elements);
    }

    /** Registers the header and the downloaded prefix of a copied file, and returns its element. */
    method RegisterCopy(f: FileInfo, start: Option<nat>) returns (e: Element)
      modifies this`currentArchiveOffset, this`cdfhSizes
      ensures e == EntryFromS3(f.LocAt(old(currentArchiveOffset)), if start.Some? then PartialGet(start.value) else HeadObject, f)
      ensures currentArchiveOffset == old(currentArchiveOffset) + HeaderSize(f) + StartOf(start)
      ensures cdfhSizes == old(cdfhSizes) + [Predicted(f, old(currentArchiveOffset))]
    {
      var loc := Loc(currentArchiveOffset, f.name, f.Size());
      cdfhSizes := cdfhSizes + [PredictCdfhSize(f.Size(), |f.name|, loc.offset)];
      currentArchiveOffset := currentArchiveOffset + LocSize(loc);
      var operation := HeadObject;
      if start.Some? {
        currentArchiveOffset := currentArchiveOffset + start.value;
        operation := PartialGet(start.value);
      }
      e := EntryFromS3(loc, operation, f);
    }

    /** Needs an upload part in front; a copy right after a copy would panic. */
    method InternalCopyFile(f: FileInfo, start: Option<nat>)
      requires Valid() && LastIsUpload(parts) && StartOf(start) <= f.Size()
      modifies this
      ensures Valid() && View() == WithCopy(old(View()), f, start)
    {
      CopySummed(View(), f, start);
      var e := RegisterCopy(f, start);
      var last := parts[|parts| - 1];
      parts := parts[..|parts| - 1] + [Upload(last.partNumber, last.partSize + ElemSize(e), last.elements + [e])];
      var partSize := if start.Some? then f.Size() - start.value else f.Size();
      parts := parts + [Copy(|parts| + 1, partSize, f, start)];
      currentArchiveOffset := currentArchiveOffset + partSize;
    }

    method CopyFile(f: FileInfo)
      requires Valid() && LastIsUpload(parts)
      modifies this
      ensures Valid() && View() == WithCopy(old(View()), f, None)
    {
      InternalCopyFile(f, None);
    }

    method PartialCopyFile(f: FileInfo, startByte: nat)
      requires Valid() && LastIsUpload(parts) && startByte <= f.Size()
      modifies this
      ensures Valid() && View() == WithCopy(old(View()), f, Some(startByte))
    {
      InternalCopyFile(f, Some(startByte));
    }

    method Finalize() returns (jobs: seq<PartJob>)
      requires Valid()
      modifies this
      ensures jobs == Finished(old(View()))
    {
      var recordCount := |cdfhSizes|;
      var size := Total(cdfhSizes);
      var end := EndInfo(recordCount, size, currentArchiveOffset, currentArchiveOffset + size);
      var e := CentralDirectory(size + PredictEndSize(size, currentArchiveOffset, recordCount), end);
      if parts != [] && parts[|parts| - 1].Upload? {
        var last := parts[|parts| - 1];
        parts := parts[..|parts| - 1] + [Upload(last.partNumber, last.partSize + ElemSize(e), last.elements + [e])];
      } else {
        assert (parts + [Upload(|parts| + 1, 0, [])])[..|parts|] == parts;
        assert [] + [e] == [e];
        parts := parts + [Upload(|parts| + 1, ElemSize(e), [e])];
      }
      jobs := parts;
    }
  }

  /** `into_part_jobs`: no layout part ever asks for a copy without an upload in front of it. */
  method ConvertLayout(layout: seq<ZipLayoutPart>) returns (jobs: seq<PartJob>)
    requires forall i | 0 <= i < |layout| :: Splittable(layout[i])
    ensures jobs == IntoPartJobs(layout)
  {
    var builder := new PartJobsBuilder();
    var i := 0;
    while i < |layout|
      invariant 0 <= i <= |layout|
      invariant builder.Valid() && fresh(builder)
      invariant builder.View() == Built(layout[..i])
    {
      BuiltNext(layout, i);
      match layout[i] {
        case Single(files) =>
          builder.AddFiles(files);
        case Duo(regular, copy) =>
          builder.AddFiles(regular);
          match copy {
            case FullCopy(file) => builder.CopyFile(file);
            case PartialCopy(file, startByte) => builder.PartialCopyFile(file, startByte);
          }
      }
      i := i + 1;
    }
    assert layout[..i] == layout;
    jobs := builder.Finalize();
  }
}
