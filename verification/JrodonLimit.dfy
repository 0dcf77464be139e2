/** A listing exactly at a limit of the classic end record, whose archive is misread. */
module JrodonLimit {
  import opened Arithmetic
  import opened Bytes
  import opened Canonical
  import Crc32
  import opened JrodonArchive
  import opened JrodonFormat
  import opened JrodonLayout
  import opened JrodonRun
  import opened Sorting
  import opened ZipReader

  /** The checksum of a body, as the executor computes it while it streams. */
  function ChecksumOf(body: Octets): (c: nat)
    ensures c <= MAX32
  {
    Crc32.Checksum(seq(|body|, i requires 0 <= i < |body| => body[i] as bv8)) as nat
  }

  /** The prefix under which the bucket is listed. */
  const PREFIX: Octets := [97, 47]

  function Stored(name: Octets, body: Octets): FileInfo { FileInfo(name, PREFIX + name, body, ChecksumOf(body)) }

  /** The byte order of keys, which is the order of a listing; it is strict. */
  predicate Before(a: Octets, b: Octets) {
    b != [] && (a == [] || a[0] < b[0] || (a[0] == b[0] && Before(a[1..], b[1..])))
  }

  predicate Ascii(name: Octets) {
    forall k | 0 <= k < |name| :: name[k] < 128
  }

  /** What a listing can hold: non-empty ASCII names in strictly ascending order under the prefix, each with its own checksum. */
  ghost predicate Listable(files: seq<FileInfo>) {
    && (forall i | 0 <= i < |files| :: files[i] == Stored(files[i].name, files[i].body) && files[i].name != [] && Ascii(files[i].name))
    && (forall i, j | 0 <= i < j < |files| :: Before(files[i].name, files[j].name))
  }

  lemma {:induction false} NeverBeforeItself(a: Octets)
    ensures !Before(a, a)
  {
    if a != [] {
      NeverBeforeItself(a[1..]);
    }
  }

  predicate Differ(f: FileInfo, g: FileInfo) { f.name != g.name && f.key != g.key }

  ghost predicate AllDiffer(files: seq<FileInfo>) {
    forall i, j | 0 <= i < j < |files| :: Differ(files[i], files[j])
  }

  lemma ListableAllDiffer(files: seq<FileInfo>)
    requires Listable(files)
    ensures AllDiffer(files)
  {
    forall i, j | 0 <= i < j < |files| ensures Differ(files[i], files[j]) {
      ListableDiffer(files, i, j);
    }
  }

  /** No two listed files share a name or a key. */
  lemma ListableDiffer(files: seq<FileInfo>, i: nat, j: nat)
    requires Listable(files) && i < j < |files|
    ensures Differ(files[i], files[j])
  {
    NeverBeforeItself(files[i].name);
    assert Before(files[i].name, files[j].name);
    assert (PREFIX + files[i].name)[2..] == files[i].name && (PREFIX + files[j].name)[2..] == files[j].name;
  }

  // ---------- The full listing ----------

  function Digit(d: nat): byte
    requires d < 16
  {
    48 + d
  }

  /** The last `w` digits of a number, in base 16. */
  function Digits(i: nat, w: nat): (name: Octets)
    ensures |name| == w
    decreases w
  {
    if w == 0 then [] else Digits(i / 16, w - 1) + [Digit(i % 16)]
  }

  function Numbered(i: nat): (name: Octets)
    ensures |name| == 4
  {
    Digits(i, 4)
  }

  /** The end facts of an empty directory at offset 0. */
  function Nowhere(at: nat): EndInfo { EndInfo(0, 0, 0, at) }

  /** A file that contains a ZIP64 end record and is named like a locator of what stands at `at`. */
  function Lookalike(at: nat): FileInfo { Stored(LocatorBytes(Nowhere(at)), seq(18, _ => 0) + End64Bytes(Nowhere(0))) }

  function Blanks(n: nat): (files: seq<FileInfo>)
    ensures |files| == n
  {
    seq(n, i requires 0 <= i < n => Stored(Numbered(i), []))
  }

  /** Where the record in the last file stands behind `n` empty files. */
  function RecordPlace(n: nat): nat { 34 * n + 68 }

  /** So many empty files, and a last one named after a place in its own body. */
  function FullListing(n: nat): seq<FileInfo> { Blanks(n) + [Lookalike(RecordPlace(n))] }

  // ---------- It can be listed ----------

  lemma {:induction false} LastDecides(a: Octets, b: Octets, x: byte, y: byte)
    requires |a| == |b| && (Before(a, b) || (a == b && x < y))
    ensures Before(a + [x], b + [y])
  {
    if a != [] {
      if a[0] == b[0] {
        LastDecides(a[1..], b[1..], x, y);
      }
      assert (a + [x])[1..] == a[1..] + [x] && (b + [y])[1..] == b[1..] + [y];
    }
  }

  function Pow16(w: nat): nat { if w == 0 then 1 else 16 * Pow16(w - 1) }

  lemma {:induction false} DigitsAscend(i: nat, j: nat, w: nat)
    requires i < j < Pow16(w)
    ensures Before(Digits(i, w), Digits(j, w))
    decreases w
  {
    if i / 16 < j / 16 {
      DigitsAscend(i / 16, j / 16, w - 1);
    }
    LastDecides(Digits(i / 16, w - 1), Digits(j / 16, w - 1), Digit(i % 16), Digit(j % 16));
  }

  lemma {:induction false} DigitsAreAscii(i: nat, w: nat)
    ensures forall k | 0 <= k < w :: 48 <= Digits(i, w)[k] < 64
    decreases w
  {
    if w > 0 {
      DigitsAreAscii(i / 16, w - 1);
    }
  }

  lemma ZeroBytes(w: nat)
    ensures Ascii(LittleEndian(0, w))
  {}

  /** Behind 65534 files the place has no byte above 127. */
  lemma PlaceIsAscii(at: nat)
    requires at == 0x22_0000
    ensures Ascii(LittleEndian(at, 8))
  {
    ZeroBytes(5);
    assert LittleEndian(0x22, 6) == [0x22] + LittleEndian(0, 5);
    assert LittleEndian(0x2200, 7) == [0] + LittleEndian(0x22, 6);
    assert LittleEndian(at, 8) == [0] + LittleEndian(0x2200, 7);
  }

  lemma PackHead(ws: seq<nat>, vs: seq<nat>, restWs: seq<nat>, restVs: seq<nat>)
    requires |ws| == |vs| > 0 && restWs == ws[1..] && restVs == vs[1..]
    ensures Pack(ws, vs) == LittleEndian(vs[0], ws[0]) + Pack(restWs, restVs)
  {}

  lemma PackTwo(b: nat, c: nat, y: nat, z: nat)
    ensures Pack([b, c], [y, z]) == LittleEndian(y, b) + LittleEndian(z, c)
  {
    PackHead([c], [z], [], []);
    PackHead([b, c], [y, z], [c], [z]);
    Nothing(LittleEndian(z, c));
  }

  lemma PackThree(a: nat, b: nat, c: nat, x: nat, y: nat, z: nat)
    ensures Pack([a, b] + [c], [x, y, z]) == LittleEndian(x, a) + (LittleEndian(y, b) + LittleEndian(z, c))
  {
    PackTwo(b, c, y, z);
    Tails([a, b] + [c], a, b, c);
    Tails([x, y, z], x, y, z);
    PackHead([a, b] + [c], [x, y, z], [b, c], [y, z]);
  }

  lemma Tails(s: seq<nat>, a: nat, b: nat, c: nat)
    requires s == [a, b, c]
    ensures s != [] && s[0] == a && s[1..] == [b, c]
  {}

  lemma LocatorSpelled(at: nat)
    ensures LocatorBytes(Nowhere(at)) == [0x50, 0x4B, 6, 7] + (LittleEndian(0, 4) + (LittleEndian(at, 8) + LittleEndian(0, 4)))
  {
    FourBytes(0x50, 0x4B, 6, 7);
    PackThree(4, 8, 4, 0, at, 0);
  }

  lemma LocatorIsAscii(at: nat)
    requires at == 0x22_0000
    ensures var name := LocatorBytes(Nowhere(at)); name != [] && name[0] == 0x50 && Ascii(name)
  {
    PlaceIsAscii(at);
    ZeroBytes(4);
    LocatorSpelled(at);
  }

  lemma FullListingIsListable(n: nat)
    requires n + 1 == MAX16
    ensures Listable(FullListing(n))
  {
    var files := FullListing(n);
    LocatorIsAscii(RecordPlace(n));
    forall i | 0 <= i < |files|
      ensures files[i] == Stored(files[i].name, files[i].body) && files[i].name != [] && Ascii(files[i].name)
    {
      DigitsAreAscii(i, 4);
    }
    forall i, j | 0 <= i < j < |files| ensures Before(files[i].name, files[j].name) {
      DigitsAreAscii(i, 4);
      if j < n {
        DigitsAscend(i, j, 4);
      }
    }
  }

  // ---------- The archive of the full listing ----------

  lemma BlankHeader(i: nat)
    ensures |Stored(Numbered(i), []).Header()| == 34
  {
    HeaderAnywhere(Stored(Numbered(i), []), 0);
  }

  lemma BlanksNext(n: nat)
    ensures Blanks(n + 1) == Blanks(n) + [Stored(Numbered(n), [])]
  {}

  lemma RegionGrows(files: seq<FileInfo>, f: FileInfo)
    ensures |BodyRegion(files + [f])| == |BodyRegion(files)| + |f.Header()| + f.Size()
  {
    LocalsAppend(files, f);
  }

  lemma {:induction false} BlankRegion(n: nat)
    ensures |BodyRegion(Blanks(n))| == 34 * n
  {
    if n > 0 {
      BlankRegion(n - 1);
      BlanksNext(n - 1);
      BlankHeader(n - 1);
      RegionGrows(Blanks(n - 1), Stored(Numbered(n - 1), []));
    }
  }

  lemma LookalikeSizes(at: nat)
    ensures |Lookalike(at).name| == 20 && Lookalike(at).Size() == 74 && |Lookalike(at).Header()| == 50
  {
    LocatorIsRecord(Nowhere(at));
    End64IsRecord(Nowhere(0));
    HeaderAnywhere(Lookalike(at), 0);
  }

  lemma BehindThree(a: Octets, b: Octets, c: Octets, d: Octets)
    ensures (a + b + (c + d))[|a| + |b| + |c|..] == d
  {}

  /** The record in the last file stands where the file's name says. */
  lemma FullListingRegion(n: nat)
    ensures |BodyRegion(FullListing(n))| == 34 * n + 124
    ensures BodyRegion(FullListing(n))[RecordPlace(n)..] == End64Bytes(Nowhere(0))
  {
    var last := Lookalike(RecordPlace(n));
    BlankRegion(n);
    LookalikeSizes(RecordPlace(n));
    LocalsAppend(Blanks(n), last);
    BehindThree(BodyRegion(Blanks(n)), last.Header(), seq(18, _ => 0), End64Bytes(Nowhere(0)));
  }

  lemma FullListingOffset(n: nat, i: nat)
    requires i <= n
    ensures OffsetOf(LocalsOf(FullListing(n)), i) <= 34 * n + 124
  {
    RegionAt(LocalsOf(FullListing(n)), i);
    FullListingRegion(n);
  }

  lemma FullListingHeader(n: nat, i: nat)
    requires i <= n <= MAX16
    ensures var c := CdfhsOf(FullListing(n))[i];
      && |c.loc.name| <= 20 && c.crc <= MAX32 && c.loc.fileSize <= 74 && c.loc.offset <= MAX32
      && Recoverable(c) && |CdfhBytes(c)| <= 94
  {
    var c := CdfhsOf(FullListing(n))[i];
    LookalikeSizes(RecordPlace(n));
    FullListingOffset(n, i);
    CdfhLength(c);
  }

  lemma FullListingDirectory(n: nat)
    requires n <= MAX16
    ensures |Flatten(RecordsOf(CdfhsOf(FullListing(n))))| <= 94 * (n + 1)
    ensures AllRecoverable(CdfhsOf(FullListing(n)))
  {
    var headers := CdfhsOf(FullListing(n));
    forall i | 0 <= i < |headers| ensures |RecordsOf(headers)[i]| <= 94 && Recoverable(headers[i]) {
      FullListingHeader(n, i);
    }
    FlattenAtMost(RecordsOf(headers), 94);
  }

  /** With 65535 files the end facts are at the limit, and the last name passes for a locator. */
  lemma FullListingIsExposed(n: nat, headers: seq<Cdfh>, name: Octets)
    requires n + 1 == MAX16 && headers == CdfhsOf(FullListing(n)) && name == LocatorBytes(Nowhere(RecordPlace(n)))
    ensures Exposed(headers, |BodyRegion(FullListing(n))|) && LastTail(headers) == name && Target(name) == RecordPlace(n)
  {
    FullListingRegion(n);
    FullListingDirectory(n);
    FullListingHeader(n, n);
    LookalikeSizes(RecordPlace(n));
    NameDecides(headers, headers[n]);
    LocatorLocates(Nowhere(RecordPlace(n)));
  }

  lemma LocatorLocates(e: EndInfo)
    requires e.endOffset <= MAX64
    ensures |LocatorBytes(e)| == 20 && Locates(LocatorBytes(e)) && Target(LocatorBytes(e)) == e.endOffset
  {
    var end := EndFixed(e);
    LocatorIsRecord(e);
    EndIsRecord(e);
    LocatorSeen(e, end);
    TailSeen(LocatorBytes(e), end);
  }

  lemma RecordStands(s: Octets, at: nat, e: EndInfo, rest: Octets)
    requires at <= |s| && s[at..] == End64Bytes(e) + rest && e.count <= MAX64 && e.offset <= MAX64 && e.size <= MAX64
    ensures RecordAt(s, at) == Some(DirectoryOf(e))
  {
    Record64Seen(e, rest);
  }

  lemma EmptyListing(s: Octets)
    requires ReadEnd(s) == Some(Directory(0, 0, 0))
    ensures ReadDirectory(s) == Some([])
  {}

  /**
   * 65535 listable files with recoverable entries whose archive reads as empty: the code writes no ZIP64
   * records for them, and a reader takes the last file's name and content for such records.
   */
  lemma FullListingIsMisread(n: nat)
    requires n + 1 == MAX16
    ensures |FullListing(n)| == MAX16 && Listable(FullListing(n)) && AllDiffer(FullListing(n))
    ensures AllRecoverable(CdfhsOf(FullListing(n)))
    ensures ReadDirectory(Archive(FullListing(n))) == Some([]) != Some(ListingsOf(CdfhsOf(FullListing(n))))
  {
    var headers, region, archive := CdfhsOf(FullListing(n)), BodyRegion(FullListing(n)), Archive(FullListing(n));
    var part := DirectoryPart(headers, |region|);
    FullListingIsListable(n);
    ListableAllDiffer(FullListing(n));
    FullListingRegion(n);
    FullListingDirectory(n);
    FullListingLength(n);
    FullListingIsExposed(n, headers, LocatorBytes(Nowhere(RecordPlace(n))));
    BehindRegion(region, RecordPlace(n), part);
    RecordStands(archive, RecordPlace(n), Nowhere(0), part);
    EndRoundTrip(FullListing(n));
    EmptyListing(archive);
  }

  lemma BehindRegion(region: Octets, at: nat, part: Octets)
    requires at <= |region|
    ensures (region + part)[at..] == region[at..] + part
  {}

  lemma FullListingLength(n: nat)
    requires n <= MAX16
    ensures |Archive(FullListing(n))| <= MAX64
  {
    FullListingRegion(n);
    FullListingDirectory(n);
    EndLength(EndOf(FullListing(n)));
  }

  // ---------- The planner keeps the full listing ----------

  lemma {:induction false} SortedStays(s: seq<FileInfo>)
    requires SortedBy(SmallerFirst, s)
    ensures Sort(SmallerFirst, s) == s
  {
    if s != [] {
      SortedStays(s[1..]);
      FrontStays(s, s[0], s[1..]);
    }
  }

  lemma FrontStays(s: seq<FileInfo>, first: FileInfo, rest: seq<FileInfo>)
    requires s != [] && SortedBy(SmallerFirst, s) && first == s[0] && rest == s[1..]
    ensures Insert(SmallerFirst, first, rest) == s
  {
    assert s == [first] + rest;
    assert rest != [] ==> rest[0] == s[1];
  }

  lemma {:induction false} FillKeepsOrder(files: seq<FileInfo>, missing: nat, rest: seq<FileInfo>)
    ensures Fill(files, missing, rest).0 + Fill(files, missing, rest).2 == files + rest
    decreases |rest|
  {
    if missing > 0 && rest != [] {
      FillKeepsOrder(files + [rest[0]], Minus(missing, EntrySize(rest[0])), rest[1..]);
      assert (files + [rest[0]]) + rest[1..] == files + rest;
    }
  }

  lemma {:induction false} Pass4KeepsOrder(l: Layout)
    ensures LayoutFiles(Pass4(l).parts) == LayoutFiles(l.parts) + l.rest
    decreases |l.rest|
  {
    if l.rest != [] {
      FillShrinks([], TARGET_PART_SIZE, l.rest);
      FillKeepsOrder([], TARGET_PART_SIZE, l.rest);
      var (files, _, rest) := Fill([], TARGET_PART_SIZE, l.rest);
      var parts := l.parts + [Single(files)];
      Pass4KeepsOrder(Layout(parts, rest));
      assert parts[..|parts| - 1] == l.parts;
      assert [] + l.rest == l.rest;
    }
  }

  /** Without a big file the archive holds the files in ascending order of size. */
  lemma SmallsKeepOrder(files: seq<FileInfo>)
    requires SortedBy(SmallerFirst, files) && BelowMinimum(files)
    ensures Planned(files) == files
  {
    SortedStays(files);
    var l := Layout([], files);
    assert Pass1(l) == l;
    assert Sweep(Promote, l) == l && Sweep(Pad, l) == l;
    Pass4KeepsOrder(l);
  }

  lemma FullListingAscends(n: nat)
    ensures SortedBy(SmallerFirst, FullListing(n)) && BelowMinimum(FullListing(n))
  {
    LookalikeSizes(RecordPlace(n));
  }

  /** The planner writes just this archive. */
  lemma PlannedFullListingIsMisread(n: nat)
    requires n + 1 == MAX16
    ensures Listable(FullListing(n)) && AllDiffer(FullListing(n)) && Planned(FullListing(n)) == FullListing(n)
    ensures ReadDirectory(Archive(Planned(FullListing(n)))) == Some([])
  {
    FullListingIsMisread(n);
    FullListingAscends(n);
    SmallsKeepOrder(FullListing(n));
  }
}
