/** What the planner makes of large files: no planned archive has an entry that cannot be read back. */
module JrodonPlanned {
  import opened Arithmetic
  import opened Bytes
  import opened Canonical
  import opened JrodonArchive
  import opened JrodonFormat
  import opened JrodonLayout
  import opened JrodonMemory
  import opened JrodonRun
  import opened Sorting
  import opened ZipReader

  // ---------- The largest file leads ----------

  /** The first part copies `big`. */
  predicate Leads(parts: seq<ZipLayoutPart>, big: FileInfo) {
    parts != [] && parts[0].Duo? && parts[0].copy.file == big
  }

  lemma {:induction false} Pass1Leads(l: Layout, big: FileInfo)
    requires Leads(l.parts, big)
    ensures Leads(Pass1(l).parts, big)
    decreases |l.rest|
  {
    if BigLeft(l.rest) {
      var n := |l.rest| - 1;
      PairShrinks(l.rest[n], [], l.rest[..n]);
      var (part, rest) := Pair(l.rest[n], [], l.rest[..n]);
      Pass1Leads(Layout(l.parts + [part], rest), big);
    }
  }

  /** A file of at least twice the minimum needs no fillers. */
  lemma LargestPairs(rest: seq<FileInfo>, n: nat)
    requires n + 1 == |rest| && rest[n].Size() > MAX32
    ensures Leads(Pass1(Layout([], rest)).parts, rest[n])
  {
    var big := rest[n];
    assert MissingRegular(big) == 0;
    var part := Duo([], CopyOf(big, 0));
    assert Pair(big, [], rest[..n]) == (part, rest[..n]);
    assert [] + [part] == [part];
    Pass1Leads(Layout([part], rest[..n]), big);
  }

  ghost predicate KeepsCopy(step: PartStep) {
    forall p: ZipLayoutPart, rest: seq<FileInfo> :: p.Duo? ==> step(p, rest).0.Duo? && step(p, rest).0.copy.file == p.copy.file
  }

  lemma {:induction false} SweepLeads(step: PartStep, l: Layout, n: nat, big: FileInfo)
    requires KeepsCopy(step) && Leads(l.parts, big) && 0 < n <= |l.parts|
    ensures Leads(SweepTo(step, l, n).parts, big)
    decreases n
  {
    if n > 1 {
      SweepLeads(step, l, n - 1, big);
    } else {
      assert SweepTo(step, l, 0).parts == [];
    }
  }

  /** A file over 4 GiB, when there is one, leads the archive, and no file is larger. */
  lemma PlannedLeads(files: seq<FileInfo>, f: FileInfo) returns (big: FileInfo)
    requires f in files && f.Size() > MAX32
    ensures Leads(PlanLayout(files), big) && big.Size() > MAX32
  {
    var sorted := Sort(SmallerFirst, files);
    var n := |sorted| - 1;
    LargestIsLast(files, f, sorted);
    big := sorted[n];
    LargestPairs(sorted, n);
    var paired := Pass1(Layout([], sorted));
    SweepLeads(Promote, paired, |paired.parts|, big);
    SweepLeads(Pad, Sweep(Promote, paired), |paired.parts|, big);
    Pass4Appends(AfterPadding(files));
    assert Pass4(AfterPadding(files)).parts[0] == Pass4(AfterPadding(files)).parts[..|paired.parts|][0];
  }

  lemma LargestIsLast(files: seq<FileInfo>, f: FileInfo, sorted: seq<FileInfo>)
    requires f in files && sorted == Sort(SmallerFirst, files)
    ensures sorted != [] && f.Size() <= sorted[|sorted| - 1].Size()
  {
    assert TotalPreorder(SmallerFirst);
    SortSorts(SmallerFirst, files);
    SameMembers(files, sorted, f);
    LastIsLargest(sorted, f);
  }

  lemma SameMembers(files: seq<FileInfo>, sorted: seq<FileInfo>, f: FileInfo)
    requires multiset(sorted) == multiset(files) && f in files
    ensures f in sorted
  {
    assert f in multiset(sorted);
  }

  lemma LastIsLargest(sorted: seq<FileInfo>, f: FileInfo)
    requires SortedBy(SmallerFirst, sorted) && f in sorted
    ensures f.Size() <= sorted[|sorted| - 1].Size()
  {
    var i :| 0 <= i < |sorted| && sorted[i] == f;
    assert i < |sorted| - 1 ==> SmallerFirst(sorted[i], sorted[|sorted| - 1]);
  }

  lemma {:induction false} LayoutFront(parts: seq<ZipLayoutPart>)
    requires parts != []
    ensures PartFiles(parts[0]) <= LayoutFiles(parts)
  {
    if |parts| > 1 {
      LayoutFront(parts[..|parts| - 1]);
    } else {
      assert parts[..0] == [];
    }
  }

  // ---------- Where the headers land ----------

  lemma {:induction false} RegionIsPartSize(files: seq<FileInfo>)
    ensures |BodyRegion(files)| == PartSize(files)
  {
    if files != [] {
      var front, last := files[..|files| - 1], files[|files| - 1];
      RegionIsPartSize(front);
      assert files == front + [last];
      LocalsAppend(front, last);
      HeaderAnywhere(last, 0);
    }
  }

  lemma OffsetIsPartSize(files: seq<FileInfo>, i: nat)
    requires i <= |files|
    ensures OffsetOf(LocalsOf(files), i) == PartSize(files[..i])
  {
    assert LocalsOf(files)[..i] == LocalsOf(files[..i]);
    RegionIsPartSize(files[..i]);
  }

  lemma {:induction false} SizesGrow(files: seq<FileInfo>, i: nat, j: nat)
    requires i <= j <= |files|
    ensures PartSize(files[..i]) <= PartSize(files[..j])
    ensures i < j ==> PartSize(files[..i]) + EntrySize(files[i]) <= PartSize(files[..j])
    decreases j
  {
    if i < j {
      assert files[..j] == files[..j - 1] + [files[j - 1]];
      PartSizeAppend(files[..j - 1], files[j - 1]);
      SizesGrow(files, i, j - 1);
    }
  }

  /** A planned archive with a file over 4 GiB begins with a few small files and such a file. */
  lemma PlannedFront(files: seq<FileInfo>, f: FileInfo) returns (regular: seq<FileInfo>, big: FileInfo)
    requires Named(files) && f in files && f.Size() > MAX32
    ensures regular + [big] <= Planned(files) && PartSize(regular) <= MAX_REGULAR && big.Size() > MAX32
  {
    big := PlannedLeads(files, f);
    var first := PlanLayout(files)[0];
    regular := first.regular;
    PlannedModest(files);
    assert Modest(first);
    LayoutFront(PlanLayout(files));
  }

  /** Up to the leading file every offset is small, and behind it every offset is beyond 4 GiB. */
  lemma OffsetsAround(planned: seq<FileInfo>, regular: seq<FileInfo>, big: FileInfo, i: nat)
    requires regular + [big] <= planned && PartSize(regular) <= MAX_REGULAR && big.Size() > MAX32 && i < |planned|
    ensures PartSize(planned[..i]) <= MAX_REGULAR || PartSize(planned[..i]) > MAX32
  {
    var r := |regular|;
    assert planned[..r] == regular && planned[r] == big;
    if i <= r {
      SizesGrow(planned, i, r);
    } else {
      SizesGrow(planned, r, i);
    }
  }

  lemma OffsetMissesLimit(files: seq<FileInfo>, planned: seq<FileInfo>, i: nat)
    requires Named(files) && planned == Planned(files) && i < |planned| && planned[i] in files && planned[i].Size() > MAX32
    ensures OffsetOf(LocalsOf(planned), i) != MAX32
  {
    var regular, big := PlannedFront(files, planned[i]);
    OffsetsAround(planned, regular, big, i);
    OffsetIsPartSize(planned, i);
  }

  // ---------- Every planned entry is recoverable ----------

  ghost predicate Checked(files: seq<FileInfo>) {
    forall i | 0 <= i < |files| :: files[i].crc <= MAX32
  }

  lemma EntryFits(files: seq<FileInfo>, i: nat)
    requires i < |files| && |Archive(files)| <= MAX64
    ensures files[i].Size() <= MAX64 && OffsetOf(LocalsOf(files), i) <= MAX64
  {
    OffsetIsPartSize(files, i);
    SizesGrow(files, i, |files|);
    assert files[..|files|] == files;
    RegionIsPartSize(files);
  }

  /**
   * The record form that cannot be read back, a file over 4 GiB at exactly 0xFFFFFFFF, never occurs in a
   * planned archive: the largest file leads it behind a few small ones, and all others start beyond.
   */
  lemma PlannedRecoverable(files: seq<FileInfo>)
    requires Named(files) && Checked(files) && |Archive(Planned(files))| <= MAX64
    ensures AllRecoverable(CdfhsOf(Planned(files)))
  {
    var planned := Planned(files);
    PermutationTheorem(files);
    forall i | 0 <= i < |planned| ensures Recoverable(CdfhsOf(planned)[i]) {
      SameMembers(planned, files, planned[i]);
      EntryFits(planned, i);
      if planned[i].Size() > MAX32 {
        OffsetMissesLimit(files, planned, i);
      }
    }
  }

  /** Every upload reads back as every listed file with its body, unless a reader is led astray. */
  lemma PlannedRoundTrip(files: seq<FileInfo>)
    requires Named(files) && Checked(files) && |Archive(Planned(files))| <= MAX64
    ensures multiset(Planned(files)) == multiset(files)
    ensures var archive, headers := Archive(Planned(files)), CdfhsOf(Planned(files));
      && (!Astray(Planned(files)) ==> ReadDirectory(archive) == Some(ListingsOf(headers)))
      && forall i | 0 <= i < |headers| :: ReadBody(archive, ListingsOf(headers)[i]) == Some(Planned(files)[i].body)
  {
    PlannedRecoverable(files);
    RoundTripTheorem(files);
  }
}
