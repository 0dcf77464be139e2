/** From planned jobs to the finished upload: carving, delegation and completion. */
module JrodonRun {
  import opened Bytes
  import opened Canonical
  import opened JrodonArchive
  import opened JrodonBuilder
  import opened JrodonExec
  import opened JrodonFormat
  import opened JrodonJobs
  import opened JrodonLayout
  import opened Multipart
  import opened Sorting
  import opened ZipReader

  // ---------- One upload part ----------

  function Contents(directory: Octets, elements: seq<Element>): (contents: seq<Octets>)
    ensures |contents| == |elements|
  {
    seq(|elements|, i requires 0 <= i < |elements| => ElementBytes(directory, elements[i]))
  }

  lemma ContentsAppend(directory: Octets, elements: seq<Element>, e: Element)
    ensures Contents(directory, elements + [e]) == Contents(directory, elements) + [ElementBytes(directory, e)]
  {}

  lemma {:induction false} ContentsFlatten(directory: Octets, elements: seq<Element>)
    ensures Flatten(Contents(directory, elements)) == ElementsBytes(directory, elements)
  {
    if elements != [] {
      var front, last := elements[..|elements| - 1], elements[|elements| - 1];
      ContentsFlatten(directory, front);
      ContentsAppend(directory, front, last);
      assert elements == front + [last];
      FlattenAppend(Contents(directory, front), ElementBytes(directory, last));
    }
  }

  lemma {:induction false} SizesAreStarts(directory: Octets, elements: seq<Element>, i: nat)
    requires ElementsSized(directory, elements) && i <= |elements|
    ensures SizeOf(elements[..i]) == StartAt(Contents(directory, elements), i)
  {
    if i > 0 {
      SizesAreStarts(directory, elements, i - 1);
      SizePrefix(elements, i - 1);
      StartNext(Contents(directory, elements), i - 1);
    } else {
      assert Contents(directory, elements)[..0] == [];
    }
  }

  /** The carved slices are disjoint, cover the part, and each is exactly what its element writes. */
  lemma CarveTheorem(directory: Octets, elements: seq<Element>, slices: seq<BufSlice>, i: nat)
    requires ElementsSized(directory, elements) && i < |elements| == |slices|
    requires forall k | 0 <= k < |elements| :: slices[k] == BufSlice(SizeOf(elements[..k]), ElemSize(elements[k]))
    ensures slices[i] == BufSlice(StartAt(Contents(directory, elements), i), |Contents(directory, elements)[i]|)
    ensures slices[i].startAt + slices[i].length == if i + 1 < |slices| then slices[i + 1].startAt else SizeOf(elements)
  {
    SizesAreStarts(directory, elements, i);
    SizePrefix(elements, i);
    if i + 1 == |elements| {
      assert elements[..i + 1] == elements;
    }
  }

  /** An upload part written by concurrent tasks holds the bytes the plan gave it. */
  lemma PartTheorem(directory: Octets, job: PartJob, buf: Octets, writes: seq<Write>)
    requires job.Upload? && SizedAt(directory, job) && |buf| == job.partSize
    requires var contents := Contents(directory, job.elements);
      AllWritten(contents, WriteAll(contents, Start(contents, buf), writes))
    ensures var contents := Contents(directory, job.elements);
      WriteAll(contents, Start(contents, buf), writes).buf == JobBytes(directory, job)
  {
    ContentsFlatten(directory, job.elements);
    BufferTheorem(Contents(directory, job.elements), buf, writes);
  }

  // ---------- The finished upload ----------

  function PartsOf(directory: Octets, jobs: seq<PartJob>): (parts: seq<Octets>)
    ensures |parts| == |jobs|
  {
    seq(|jobs|, i requires 0 <= i < |jobs| => JobBytes(directory, jobs[i]))
  }

  lemma PartsAppend(directory: Octets, jobs: seq<PartJob>, job: PartJob)
    ensures PartsOf(directory, jobs + [job]) == PartsOf(directory, jobs) + [JobBytes(directory, job)]
  {}

  lemma {:induction false} PartsFlatten(directory: Octets, jobs: seq<PartJob>)
    ensures Flatten(PartsOf(directory, jobs)) == JobsBytes(directory, jobs)
  {
    if jobs != [] {
      var front, last := jobs[..|jobs| - 1], jobs[|jobs| - 1];
      PartsFlatten(directory, front);
      PartsAppend(directory, front, last);
      assert jobs == front + [last];
      FlattenAppend(PartsOf(directory, front), JobBytes(directory, last));
    }
  }

  lemma PartsMeetFloor(jobs: seq<PartJob>, directory: Octets)
    requires AllSized(directory, jobs) && forall i | 0 <= i < |jobs| - 1 :: jobs[i].partSize >= MIN_PART_SIZE
    ensures MeetsFloor(PartsOf(directory, jobs))
  {
    forall i | 0 <= i < |jobs| - 1 ensures |PartsOf(directory, jobs)[i]| >= PART_FLOOR {
      assert SizedAt(directory, jobs[i]);
    }
  }

  lemma SoundUpload(jobs: seq<PartJob>, directory: Octets, archive: Octets, log: seq<PartUpload>, finished: seq<nat>)
    requires jobs != [] && AllSized(directory, jobs) && JobsBytes(directory, jobs) == archive
    requires forall i | 0 <= i < |jobs| - 1 :: jobs[i].partSize >= MIN_PART_SIZE
    requires Uploads(log, PartsOf(directory, jobs)) && multiset(finished) == multiset(Numbers(|jobs|))
    ensures Complete(Received(log), Sort(AtMost, finished)) == Some(archive)
  {
    PartsMeetFloor(jobs, directory);
    PartsFlatten(directory, jobs);
    AnyOrderCompletes(log, PartsOf(directory, jobs), finished);
  }

  function PlannedJobs(files: seq<FileInfo>): seq<PartJob> {
    FloorTheorem(files);
    SoundSplits(PlanLayout(files));
    IntoPartJobs(PlanLayout(files))
  }

  function Planned(files: seq<FileInfo>): seq<FileInfo> { LayoutFiles(PlanLayout(files)) }

  lemma PlannedSound(files: seq<FileInfo>)
    ensures JobsSound(PlannedJobs(files), Planned(files))
  {
    FloorTheorem(files);
    SoundSplits(PlanLayout(files));
    JobsTheorem(PlanLayout(files));
  }

  /**
   * Whatever order the directory headers arrive in and whatever order the parts finish in, the
   * completed upload is the canonical archive of the planned files.
   */
  lemma UploadTheorem(files: seq<FileInfo>, jobs: seq<PartJob>, arrived: seq<Cdfh>, log: seq<PartUpload>, finished: seq<nat>)
    requires jobs == PlannedJobs(files) && multiset(arrived) == multiset(CdfhsOf(Planned(files)))
    requires Uploads(log, PartsOf(DirectoryWritten(arrived, EndOf(Planned(files))), jobs))
    requires multiset(finished) == multiset(Numbers(|jobs|))
    ensures Complete(Received(log), Sort(AtMost, finished)) == Some(Archive(Planned(files)))
  {
    PlannedSound(files);
    DirectoryTheorem(Planned(files), arrived);
    SoundUpload(jobs, DirectoryFor(Planned(files)), Archive(Planned(files)), log, finished);
  }

  /** The headers that arrive are those the elements of the jobs send: one per planned file, at its final offset. */
  lemma HeadersTheorem(files: seq<FileInfo>)
    ensures HeadersOf(PlannedJobs(files)) == CdfhsOf(Planned(files))
  {
    PlannedSound(files);
  }

  /**
   * The upload reads back as every listed file, exactly when each entry is recoverable; its directory
   * is found unless a reader is led astray.
   */
  lemma RoundTripTheorem(files: seq<FileInfo>)
    requires |Archive(Planned(files))| <= MAX64
    ensures multiset(Planned(files)) == multiset(files)
    ensures var archive, headers := Archive(Planned(files)), CdfhsOf(Planned(files));
      && (!Astray(Planned(files)) ==>
        (ReadDirectory(archive) == Some(ListingsOf(headers)) <==> AllRecoverable(headers)))
      && (AllRecoverable(headers) ==> forall i | 0 <= i < |headers| ::
        ReadBody(archive, ListingsOf(headers)[i]) == Some(Planned(files)[i].body))
  {
    PermutationTheorem(files);
    if !Astray(Planned(files)) {
      ListingRoundTrip(Planned(files));
    }
    if AllRecoverable(CdfhsOf(Planned(files))) {
      forall i | 0 <= i < |Planned(files)|
        ensures ReadBody(Archive(Planned(files)), ListingsOf(CdfhsOf(Planned(files)))[i]) == Some(Planned(files)[i].body)
      {
        BodyReadsBack(Planned(files), i);
      }
    }
  }

  lemma BodyReadsBack(files: seq<FileInfo>, i: nat)
    requires AllRecoverable(CdfhsOf(files)) && i < |files|
    ensures ReadBody(Archive(files), ListingsOf(CdfhsOf(files))[i]) == Some(files[i].body)
  {
    assert Recoverable(CdfhsOf(files)[i]);
    BodyRoundTrip(files, i);
  }

  // ---------- Delegation ----------

  /** An entry as it travels to a sub-worker. */
  datatype SerializableEntry = SerializableEntry(loc: Loc, operation: Operation, file: FileInfo)

  datatype DelegatedPartJob = DelegatedPartJob(partNumber: nat, partSize: nat, entries: seq<SerializableEntry>)

  datatype Conversion = Converted(job: DelegatedPartJob) | InvalidConversion(rejected: PartJob)

  predicate AllEntries(elements: seq<Element>) {
    forall k | 0 <= k < |elements| :: elements[k].EntryFromS3?
  }

  function Serialize(e: Element): SerializableEntry
    requires e.EntryFromS3?
  {
    SerializableEntry(e.loc, e.operation, e.file)
  }

  function Restore(e: SerializableEntry): Element {
    EntryFromS3(e.loc, e.operation, e.file)
  }

  function SerializeAll(elements: seq<Element>): (entries: seq<SerializableEntry>)
    requires AllEntries(elements)
    ensures |entries| == |elements|
  {
    seq(|elements|, i requires 0 <= i < |elements| => Serialize(elements[i]))
  }

  /** `new_from_part_job`: the last entry is taken off for its channel and chained back behind the others. */
  function NewFromPartJob(job: PartJob): Conversion {
    if !job.Upload? || !AllEntries(job.elements) then InvalidConversion(job)
    else if job.elements == [] then InvalidConversion(job)
    else
      var last := |job.elements| - 1;
      Converted(DelegatedPartJob(job.partNumber, job.partSize,
                                 SerializeAll(job.elements[..last]) + [Serialize(job.elements[last])]))
  }

  /** `PartJob::new` in the sub-worker. */
  function FromDelegated(d: DelegatedPartJob): PartJob {
    Upload(d.partNumber, d.partSize, seq(|d.entries|, i requires 0 <= i < |d.entries| => Restore(d.entries[i])))
  }

  /** Conversion succeeds exactly for non-empty parts of plain entries, and the sub-worker gets the same job back. */
  lemma ConversionRoundTrip(job: PartJob)
    ensures NewFromPartJob(job).Converted? <==> job.Upload? && AllEntries(job.elements) && job.elements != []
    ensures NewFromPartJob(job).Converted? ==> FromDelegated(NewFromPartJob(job).job) == job
  {
    if NewFromPartJob(job).Converted? {
      assert FromDelegated(NewFromPartJob(job).job).elements == job.elements;
    }
  }

  /** A delegated job converts back to itself. */
  lemma DelegatedRoundTrip(d: DelegatedPartJob)
    requires d.entries != []
    ensures NewFromPartJob(FromDelegated(d)) == Converted(d)
  {
    var elements := FromDelegated(d).elements;
    assert SerializeAll(elements[..|elements| - 1]) + [Serialize(elements[|elements| - 1])] == d.entries;
  }

  predicate Delegatable(job: PartJob) {
    job.Upload? && AllEntries(job.elements)
  }

  /** The stable partition into delegated and local jobs. */
  function Partition(jobs: seq<PartJob>, delegated: bool): seq<PartJob> {
    if jobs == [] then []
    else
      var last := |jobs| - 1;
      Partition(jobs[..last], delegated) + if Delegatable(jobs[last]) == delegated then [jobs[last]] else []
  }

  lemma {:induction false} PartitionCovers(jobs: seq<PartJob>)
    ensures multiset(Partition(jobs, true)) + multiset(Partition(jobs, false)) == multiset(jobs)
  {
    if jobs != [] {
      var front, job := jobs[..|jobs| - 1], jobs[|jobs| - 1];
      PartitionCovers(front);
      OneJobMore(Partition(front, true), Partition(front, false), front, job);
      PartitionNext(jobs, front, job);
    }
  }

  /** The last job joins one of the two sides. */
  lemma PartitionNext(jobs: seq<PartJob>, front: seq<PartJob>, job: PartJob)
    requires jobs != [] && front == jobs[..|jobs| - 1] && job == jobs[|jobs| - 1]
    ensures jobs == front + [job]
    ensures Partition(jobs, true) == Partition(front, true) + if Delegatable(job) then [job] else []
    ensures Partition(jobs, false) == Partition(front, false) + if Delegatable(job) then [] else [job]
  {}

  lemma OneJobMore(a: seq<PartJob>, b: seq<PartJob>, all: seq<PartJob>, job: PartJob)
    requires multiset(a) + multiset(b) == multiset(all)
    ensures multiset(a + [job]) + multiset(b + []) == multiset(all + [job])
    ensures multiset(a + []) + multiset(b + [job]) == multiset(all + [job])
  {
    assert a + [] == a && b + [] == b;
    assert multiset(all + [job]) == multiset(all) + multiset{job};
  }

  lemma {:induction false} PartitionKind(jobs: seq<PartJob>, delegated: bool)
    ensures forall j | j in Partition(jobs, delegated) :: j in jobs && (Delegatable(j) <==> delegated)
  {
    if jobs != [] {
      PartitionKind(jobs[..|jobs| - 1], delegated);
      assert jobs == jobs[..|jobs| - 1] + [jobs[|jobs| - 1]];
    }
  }

  /** An empty upload part would fail its conversion; no planned part but the last could be empty, and that holds the directory. */
  lemma PlannedConverts(files: seq<FileInfo>, i: nat)
    requires i < |PlannedJobs(files)| && Delegatable(PlannedJobs(files)[i])
    ensures NewFromPartJob(PlannedJobs(files)[i]).Converted?
    ensures FromDelegated(NewFromPartJob(PlannedJobs(files)[i]).job) == PlannedJobs(files)[i]
  {
    PlannedSound(files);
    var jobs := PlannedJobs(files);
    NonEmptyParts(jobs, DirectoryFor(Planned(files)), i);
    ConversionRoundTrip(jobs[i]);
  }

  lemma NonEmptyParts(jobs: seq<PartJob>, directory: Octets, i: nat)
    requires i < |jobs| && AllSized(directory, jobs) && jobs[i].Upload?
    requires i < |jobs| - 1 ==> jobs[i].partSize >= MIN_PART_SIZE
    requires i == |jobs| - 1 ==> jobs[i].elements != []
    ensures jobs[i].elements != []
  {
    assert SizedAt(directory, jobs[i]);
  }

  /** The directory part stays local: exactly the copies and the last part are not delegated. */
  lemma LastStaysLocal(files: seq<FileInfo>)
    ensures !Delegatable(PlannedJobs(files)[|PlannedJobs(files)| - 1])
  {
    PlannedSound(files);
  }

  /** `execute_with_lambda_subworkers`: converts every delegated job, the last one first, in order. */
  method ConvertAll(toDelegate: seq<PartJob>) returns (r: Option<seq<DelegatedPartJob>>)
    ensures r.Some? <==> forall k | 0 <= k < |toDelegate| :: NewFromPartJob(toDelegate[k]).Converted?
    ensures r.Some? ==> |r.value| == |toDelegate| && forall k | 0 <= k < |toDelegate| ::
      NewFromPartJob(toDelegate[k]) == Converted(r.value[k]) && FromDelegated(r.value[k]) == toDelegate[k]
  {
    if toDelegate == [] {
      return Some([]);
    }
    var n := |toDelegate| - 1;
    var last := NewFromPartJob(toDelegate[n]);
    if last.InvalidConversion? {
      return None;
    }
    ConversionRoundTrip(toDelegate[n]);
    var converted: seq<DelegatedPartJob> := [];
    var i := 0;
    while i < n
      invariant 0 <= i <= n && |converted| == i
      invariant forall k | 0 <= k < i ::
        NewFromPartJob(toDelegate[k]) == Converted(converted[k]) && FromDelegated(converted[k]) == toDelegate[k]
    {
      var next := NewFromPartJob(toDelegate[i]);
      if next.InvalidConversion? {
        return None;
      }
      ConversionRoundTrip(toDelegate[i]);
      converted := converted + [next.job];
      i := i + 1;
    }
    r := Some(converted + [last.job]);
  }

  /** Delegated and local jobs together are the planned jobs, and every delegated one survives its journey. */
  lemma DelegationTheorem(files: seq<FileInfo>)
    ensures var jobs := PlannedJobs(files);
      && multiset(Partition(jobs, true)) + multiset(Partition(jobs, false)) == multiset(jobs)
      && (forall j | j in Partition(jobs, true) :: NewFromPartJob(j).Converted? && FromDelegated(NewFromPartJob(j).job) == j)
  {
    var jobs := PlannedJobs(files);
    PartitionCovers(jobs);
    PartitionKind(jobs, true);
    forall j | j in Partition(jobs, true) ensures NewFromPartJob(j).Converted? && FromDelegated(NewFromPartJob(j).job) == j {
      var i :| 0 <= i < |jobs| && jobs[i] == j;
      PlannedConverts(files, i);
    }
  }

  // ---------- Which jobs are delegated ----------

  /** Uploads of entries only. */
  ghost predicate Plain(jobs: seq<PartJob>) {
    forall i | 0 <= i < |jobs| && jobs[i].Upload? :: AllEntries(jobs[i].elements)
  }

  lemma {:induction false} EachPlain(b: Builder, files: seq<FileInfo>)
    requires LastIsUpload(b.parts) && Plain(b.parts)
    ensures Plain(WithEach(b, files).parts)
  {
    if files != [] {
      EachPlain(b, files[..|files| - 1]);
    }
  }

  lemma CopyPlain(b: Builder, f: FileInfo, start: Option<nat>)
    requires LastIsUpload(b.parts) && Plain(b.parts) && StartOf(start) <= f.Size()
    ensures Plain(WithCopy(b, f, start).parts)
  {}

  lemma PartPlain(b: Builder, p: ZipLayoutPart)
    requires Splittable(p) && Plain(b.parts)
    ensures Plain(WithPart(b, p).parts)
  {
    match p
    case Single(files) =>
      EachPlain(Open(b), files);
    case Duo(regular, copy) =>
      EachPlain(Open(b), regular);
      CopyPlain(WithFiles(b, regular), copy.file, StartByte(copy));
  }

  lemma {:induction false} BuiltPlain(parts: seq<ZipLayoutPart>)
    requires forall i | 0 <= i < |parts| :: Splittable(parts[i])
    ensures Plain(Built(parts).parts)
  {
    if parts != [] {
      BuiltPlain(parts[..|parts| - 1]);
      PartPlain(Built(parts[..|parts| - 1]), parts[|parts| - 1]);
    }
  }

  lemma FinishedPlain(b: Builder)
    requires Plain(b.parts)
    ensures Finished(b) != [] && Plain(Finished(b)[..|Finished(b)| - 1])
  {
    assert Finished(b)[..|Finished(b)| - 1] == Open(b).parts[..|Finished(b)| - 1];
  }

  /** The uploads, or the copies, in order. */
  function OfKind(jobs: seq<PartJob>, uploads: bool): seq<PartJob> {
    if jobs == [] then []
    else
      var last := |jobs| - 1;
      OfKind(jobs[..last], uploads) + if jobs[last].Upload? == uploads then [jobs[last]] else []
  }

  lemma {:induction false} PlainPartition(jobs: seq<PartJob>, delegated: bool)
    requires Plain(jobs)
    ensures Partition(jobs, delegated) == OfKind(jobs, delegated)
  {
    if jobs != [] {
      PlainPartition(jobs[..|jobs| - 1], delegated);
    }
  }

  lemma LastKeptBack(jobs: seq<PartJob>, n: nat)
    requires n == |jobs| - 1 && Plain(jobs[..n]) && !Delegatable(jobs[n])
    ensures Partition(jobs, true) == OfKind(jobs[..n], true)
    ensures Partition(jobs, false) == OfKind(jobs[..n], false) + [jobs[n]]
  {
    PlainPartition(jobs[..n], true);
    PlainPartition(jobs[..n], false);
  }

  lemma PlannedPlain(files: seq<FileInfo>)
    ensures PlannedJobs(files) != [] && Plain(PlannedJobs(files)[..|PlannedJobs(files)| - 1])
  {
    FloorTheorem(files);
    SoundSplits(PlanLayout(files));
    BuiltPlain(PlanLayout(files));
    FinishedPlain(Built(PlanLayout(files)));
  }

  /**
   * Every planned upload in front of the last part is delegated, and nothing else: what stays are the
   * copies and the part with the directory.
   */
  lemma ShareTheorem(files: seq<FileInfo>)
    ensures var jobs, n := PlannedJobs(files), |PlannedJobs(files)| - 1;
      && n >= 0
      && Partition(jobs, true) == OfKind(jobs[..n], true)
      && Partition(jobs, false) == OfKind(jobs[..n], false) + [jobs[n]]
  {
    PlannedPlain(files);
    LastStaysLocal(files);
    LastKeptBack(PlannedJobs(files), |PlannedJobs(files)| - 1);
  }
}
