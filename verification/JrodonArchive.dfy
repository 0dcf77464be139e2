/** The archive jrodon-v3 aims at, and what a reader recovers from it. */
module JrodonArchive {
  import opened Bytes
  import opened Canonical
  import opened JrodonFormat
  import opened ZipReader

  /** A listed object with what S3 holds under its key; planning reads only the name and the size. */
  datatype FileInfo = FileInfo(name: Octets, key: Octets, body: Octets, crc: nat) {
    function Size(): nat { |body| }

    function LocAt(offset: nat): Loc { Loc(offset, name, Size()) }

    /** The local header's bytes do not depend on where it stands. */
    function Header(): Octets { LocBytes(LocAt(0), crc) }

    function AsLocal(): Local { Local(Header(), body) }
  }

  function LocalsOf(files: seq<FileInfo>): (locals: seq<Local>)
    ensures |locals| == |files|
  {
    seq(|files|, i requires 0 <= i < |files| => files[i].AsLocal())
  }

  function CdfhAt(files: seq<FileInfo>, i: nat): Cdfh
    requires i < |files|
  {
    Cdfh(files[i].LocAt(OffsetOf(LocalsOf(files), i)), files[i].crc)
  }

  function CdfhsOf(files: seq<FileInfo>): (headers: seq<Cdfh>)
    ensures |headers| == |files|
  {
    seq(|files|, i requires 0 <= i < |files| => CdfhAt(files, i))
  }

  function RecordsOf(headers: seq<Cdfh>): (records: seq<Octets>)
    ensures |records| == |headers|
  {
    seq(|headers|, i requires 0 <= i < |headers| => CdfhBytes(headers[i]))
  }

  function BodyRegion(files: seq<FileInfo>): Octets { Region(LocalsOf(files)) }

  function DirectoryEnd(headers: seq<Cdfh>, offset: nat): EndInfo {
    var size := |Flatten(RecordsOf(headers))|;
    EndInfo(|headers|, size, offset, offset + size)
  }

  /** Central directory and end records behind a body region of `offset` bytes. */
  function DirectoryPart(headers: seq<Cdfh>, offset: nat): Octets {
    Flatten(RecordsOf(headers)) + EndBytes(DirectoryEnd(headers, offset))
  }

  /** The archive a sequential writer would produce. */
  function Archive(files: seq<FileInfo>): Octets {
    BodyRegion(files) + DirectoryPart(CdfhsOf(files), |BodyRegion(files)|)
  }

  lemma LocalsAppend(files: seq<FileInfo>, f: FileInfo)
    ensures LocalsOf(files + [f]) == LocalsOf(files) + [f.AsLocal()]
    ensures BodyRegion(files + [f]) == BodyRegion(files) + f.Header() + f.body
  {
    assert LocalsOf(files + [f]) == LocalsOf(files) + [f.AsLocal()];
    RegionAppend(LocalsOf(files), f.AsLocal());
  }

  lemma HeaderAnywhere(f: FileInfo, offset: nat)
    ensures LocBytes(f.LocAt(offset), f.crc) == f.Header()
    ensures |f.Header()| == PredictLocSize(f.Size(), |f.name|)
  {
    LocLength(f.LocAt(0), f.crc);
  }

  // ---------- The end records ----------

  /** A value that is exactly all ones in the classic end record looks like a reference to ZIP64 records. */
  predicate AtLimit(e: EndInfo) {
    !NeedEnd64(e.size, e.offset, e.count) && (e.size == MAX32 || e.offset == MAX32 || e.count == MAX16)
  }

  function DirectoryOf(e: EndInfo): Directory { Directory(e.count, e.size, e.offset) }

  /** Twenty bytes that a reader takes for a ZIP64 locator. */
  predicate Locates(tail: Octets) { |tail| == 20 && Number(tail[..4]) == LOCATOR_SIGNATURE && Number(tail[4..8]) == 0 }

  /** Where such a locator points. */
  function Target(tail: Octets): nat
    requires |tail| == 20
  {
    Number(tail[8..16])
  }

  /** The end of the last directory record, which stands right in front of a classic end record. */
  function LastTail(headers: seq<Cdfh>): (tail: Octets)
    requires headers != []
    ensures |tail| == 20
  {
    CdfhLength(headers[|headers| - 1]);
    var last := CdfhBytes(headers[|headers| - 1]);
    last[|last| - 20..]
  }

  /** The end facts are exactly at a limit, and the last directory record ends like a ZIP64 locator. */
  predicate Exposed(headers: seq<Cdfh>, offset: nat) {
    headers != [] && AtLimit(DirectoryEnd(headers, offset)) && Locates(LastTail(headers))
  }

  lemma EndStarts(e: EndInfo)
    ensures |EndFixed(e)| == 22 == Width(END_FIELDS)
    ensures Field(END_FIELDS, EndFixed(e), 0) == END_SIGNATURE && Field(END_FIELDS, EndFixed(e), 7) == 0
    ensures OnePiece(Field(END_FIELDS, EndFixed(e), 1), Field(END_FIELDS, EndFixed(e), 2))
    ensures Field(END_FIELDS, EndFixed(e), 3) == Field(END_FIELDS, EndFixed(e), 4)
  {
    EndIsRecord(e);
    EndWidth();
    Widths();
    EndField(e, 0);
    FitsIn(END_SIGNATURE, 4);
    EndField(e, 7);
    FitsIn(0, 2);
    FitsIn(MAX16, 2);
    EndField(e, 1);
    EndField(e, 2);
    EndField(e, 3);
    EndField(e, 4);
  }

  lemma EndSeen(e: EndInfo)
    ensures |EndFixed(e)| == 22 == Width(END_FIELDS)
    ensures Field(END_FIELDS, EndFixed(e), 0) == END_SIGNATURE && Field(END_FIELDS, EndFixed(e), 7) == 0
    ensures OnePiece(Field(END_FIELDS, EndFixed(e), 1), Field(END_FIELDS, EndFixed(e), 2))
    ensures Field(END_FIELDS, EndFixed(e), 3) == Field(END_FIELDS, EndFixed(e), 4)
    ensures !NeedEnd64(e.size, e.offset, e.count) ==>
      && Field(END_FIELDS, EndFixed(e), 4) == e.count
      && Field(END_FIELDS, EndFixed(e), 5) == e.size
      && Field(END_FIELDS, EndFixed(e), 6) == e.offset
    ensures NeedEnd64(e.size, e.offset, e.count) ==> Field(END_FIELDS, EndFixed(e), 4) == MAX16
  {
    EndStarts(e);
    EndIsRecord(e);
    Widths();
    EndField(e, 4);
    EndField(e, 5);
    EndField(e, 6);
    if NeedEnd64(e.size, e.offset, e.count) {
      FitsIn(MAX16, 2);
    } else {
      FitsIn(e.count, 2);
      FitsIn(e.size, 4);
      FitsIn(e.offset, 4);
    }
  }

  lemma EndField(e: EndInfo, i: nat)
    requires i < 8
    ensures |EndFixed(e)| == Width(END_FIELDS)
    ensures Field(END_FIELDS, EndFixed(e), i) == Number(LittleEndian(([END_SIGNATURE] + EndValues(e))[i], END_FIELDS[i]))
  {
    EndIsRecord(e);
    EndWidth();
    assert EndFixed(e) + [] == EndFixed(e);
    FieldOfPack(END_FIELDS, [END_SIGNATURE] + EndValues(e), [], i);
  }

  lemma LocatorSeen(e: EndInfo, rest: Octets)
    requires e.endOffset <= MAX64
    ensures |LocatorBytes(e) + rest| >= 20 == Width(LOCATOR_FIELDS)
    ensures Field(LOCATOR_FIELDS, LocatorBytes(e) + rest, 0) == LOCATOR_SIGNATURE
    ensures Field(LOCATOR_FIELDS, LocatorBytes(e) + rest, 1) == 0
    ensures Field(LOCATOR_FIELDS, LocatorBytes(e) + rest, 2) == e.endOffset
  {
    var vs := [LOCATOR_SIGNATURE] + [0, e.endOffset, 0];
    LocatorIsRecord(e);
    LocatorWidth();
    Widths();
    FieldOfPack(LOCATOR_FIELDS, vs, rest, 0);
    FitsIn(LOCATOR_SIGNATURE, 4);
    FieldOfPack(LOCATOR_FIELDS, vs, rest, 1);
    FitsIn(0, 4);
    FieldOfPack(LOCATOR_FIELDS, vs, rest, 2);
    FitsIn(e.endOffset, 8);
  }

  lemma End64InOnePiece(e: EndInfo, rest: Octets)
    ensures |End64Bytes(e) + rest| >= 56 == Width(END64_FIELDS)
    ensures var r := End64Bytes(e) + rest;
      && Field(END64_FIELDS, r, 1) == 44 && Field(END64_FIELDS, r, 3) <= 45
      && Field(END64_FIELDS, r, 4) == Field(END64_FIELDS, r, 5) == 0
  {
    var vs := [END64_SIGNATURE] + ([44, MIN_VER, MIN_VER, 0, 0] + [e.count, e.count, e.size, e.offset]);
    End64IsRecord(e);
    End64Width();
    Widths();
    FieldOfPack(END64_FIELDS, vs, rest, 1);
    FitsIn(44, 8);
    FieldOfPack(END64_FIELDS, vs, rest, 3);
    FitsIn(MIN_VER, 2);
    FieldOfPack(END64_FIELDS, vs, rest, 4);
    FieldOfPack(END64_FIELDS, vs, rest, 5);
    FitsIn(0, 4);
  }

  lemma End64Seen(e: EndInfo, rest: Octets)
    requires e.count <= MAX64 && e.offset <= MAX64 && e.size <= MAX64
    ensures |End64Bytes(e) + rest| >= 56 == Width(END64_FIELDS)
    ensures var r := End64Bytes(e) + rest;
      && Field(END64_FIELDS, r, 0) == END64_SIGNATURE && Field(END64_FIELDS, r, 6) == Field(END64_FIELDS, r, 7) == e.count
      && Field(END64_FIELDS, r, 8) == e.size && Field(END64_FIELDS, r, 9) == e.offset
  {
    var vs := [END64_SIGNATURE] + ([44, MIN_VER, MIN_VER, 0, 0] + [e.count, e.count, e.size, e.offset]);
    End64IsRecord(e);
    End64Width();
    Widths();
    FieldOfPack(END64_FIELDS, vs, rest, 0);
    FitsIn(END64_SIGNATURE, 4);
    FieldOfPack(END64_FIELDS, vs, rest, 6);
    FieldOfPack(END64_FIELDS, vs, rest, 7);
    FitsIn(e.count, 8);
    FieldOfPack(END64_FIELDS, vs, rest, 8);
    FitsIn(e.size, 8);
    FieldOfPack(END64_FIELDS, vs, rest, 9);
    FitsIn(e.offset, 8);
  }

  lemma LastBytes(before: Octets, end: Octets)
    requires |end| == 22
    ensures (before + end)[|before + end| - 22..] == end
  {}

  /** An end record of all ones sends the reader through the locator to the ZIP64 record. */
  lemma ReadsThrough(before: Octets, a: Octets, b: Octets, c: Octets, e: Directory)
    requires |a| == 56 && |b| == 20 && |c| == 22
    requires Width(END_FIELDS) == 22 && Width(LOCATOR_FIELDS) == 20 && Width(END64_FIELDS) == 56
    requires Field(END_FIELDS, c, 0) == END_SIGNATURE && Field(END_FIELDS, c, 7) == 0
    requires OnePiece(Field(END_FIELDS, c, 1), Field(END_FIELDS, c, 2)) && Field(END_FIELDS, c, 3) == Field(END_FIELDS, c, 4) == MAX16
    requires Field(LOCATOR_FIELDS, b + c, 0) == LOCATOR_SIGNATURE && Field(LOCATOR_FIELDS, b + c, 1) == 0
    requires Field(LOCATOR_FIELDS, b + c, 2) == |before|
    requires Record64(a + (b + c), e)
    ensures ReadEnd(before + (a + b + c)) == Some(e)
  {
    TailSlices(before, a, b, c);
  }

  /** A ZIP64 end record of an archive in one piece that says `e`. */
  predicate Record64(r: Octets, e: Directory) {
    && |r| >= 56 == Width(END64_FIELDS)
    && Field(END64_FIELDS, r, 0) == END64_SIGNATURE && Field(END64_FIELDS, r, 1) == 44 && Field(END64_FIELDS, r, 3) <= 45
    && Field(END64_FIELDS, r, 4) == Field(END64_FIELDS, r, 5) == 0
    && Field(END64_FIELDS, r, 6) == Field(END64_FIELDS, r, 7) == e.count
    && Field(END64_FIELDS, r, 8) == e.size && Field(END64_FIELDS, r, 9) == e.offset
  }

  lemma Record64Seen(e: EndInfo, rest: Octets)
    requires e.count <= MAX64 && e.offset <= MAX64 && e.size <= MAX64
    ensures Record64(End64Bytes(e) + rest, DirectoryOf(e))
  {
    End64Seen(e, rest);
    End64InOnePiece(e, rest);
  }

  lemma End64RoundTrip(before: Octets, e: EndInfo)
    requires NeedEnd64(e.size, e.offset, e.count)
    requires e.count <= MAX64 && |before| == e.endOffset == e.offset + e.size <= MAX64
    ensures ReadEnd(before + (End64Bytes(e) + LocatorBytes(e) + EndFixed(e))) == Some(DirectoryOf(e))
  {
    EndSeen(e);
    ReadsWide(before, e, EndFixed(e));
  }

  /** ZIP64 records in front of an end record with an all-ones count decide what is read. */
  lemma ReadsWide(before: Octets, e: EndInfo, end: Octets)
    requires e.count <= MAX64 && |before| == e.endOffset <= MAX64 && e.offset <= MAX64 && e.size <= MAX64
    requires |end| == 22 == Width(END_FIELDS)
    requires Field(END_FIELDS, end, 0) == END_SIGNATURE && Field(END_FIELDS, end, 7) == 0
    requires OnePiece(Field(END_FIELDS, end, 1), Field(END_FIELDS, end, 2)) && Field(END_FIELDS, end, 3) == Field(END_FIELDS, end, 4) == MAX16
    ensures ReadEnd(before + (End64Bytes(e) + LocatorBytes(e) + end)) == Some(DirectoryOf(e))
  {
    End64IsRecord(e);
    LocatorIsRecord(e);
    LocatorSeen(e, end);
    Record64Seen(e, LocatorBytes(e) + end);
    ReadsThrough(before, End64Bytes(e), LocatorBytes(e), end, DirectoryOf(e));
  }

  /** What a reader takes the bytes in front of the end record for. */
  lemma TailSeen(tail: Octets, end: Octets)
    requires |tail| == 20 && |end| == 22
    ensures |tail + end| >= 20 == Width(LOCATOR_FIELDS)
    ensures Field(LOCATOR_FIELDS, tail + end, 0) == Number(tail[..4])
    ensures Field(LOCATOR_FIELDS, tail + end, 1) == Number(tail[4..8])
    ensures Field(LOCATOR_FIELDS, tail + end, 2) == Target(tail)
  {
    LocatorWidth();
    assert LOCATOR_FIELDS[..2] == [4, 4] && [4, 4][1..] == [4] && [4][1..] == [];
    assert LOCATOR_FIELDS[..1] == [4];
    assert (tail + end)[..4] == tail[..4] && (tail + end)[4..8] == tail[4..8] && (tail + end)[8..16] == tail[8..16];
  }

  lemma LocatorTried(before: Octets, tail: Octets, end: Octets)
    requires |tail| == 20 && |end| == 22
    ensures var s := (before + tail) + end;
      ReadEnd64(s) == if Locates(tail) then RecordAt(s, Target(tail)) else None
  {
    var s := (before + tail) + end;
    assert s[|s| - 42..] == tail + end;
    TailSeen(tail, end);
  }

  /** What a classic end record leads to: the directory, or a record that a locator-like tail points at. */
  lemma ClassicRead(before: Octets, tail: Octets, e: EndInfo)
    requires !NeedEnd64(e.size, e.offset, e.count) && |tail| == 20
    ensures var s := (before + tail) + EndFixed(e);
      ReadEnd(s)
      == if AtLimit(e) && Locates(tail) && RecordAt(s, Target(tail)).Some? then RecordAt(s, Target(tail))
         else Some(DirectoryOf(e))
  {
    EndSeen(e);
    LastBytes(before + tail, EndFixed(e));
    LocatorTried(before, tail, EndFixed(e));
  }

  // ---------- The whole archive ----------

  predicate AllRecoverable(headers: seq<Cdfh>) {
    forall i | 0 <= i < |headers| :: Recoverable(headers[i])
  }

  function ListingsOf(headers: seq<Cdfh>): (l: seq<Listed>)
    ensures |l| == |headers|
  {
    seq(|headers|, i requires 0 <= i < |headers| => ListingOf(headers[i]))
  }

  lemma RecordReadsAs(c: Cdfh)
    ensures |CdfhBytes(c)| > 0
    ensures RecordReads(CdfhBytes(c), ListingOf(c), Recoverable(c))
  {
    CdfhLength(c);
    forall rest: Octets
      ensures Recoverable(c) ==> ReadCentral(CdfhBytes(c) + rest) == Some((ListingOf(c), rest))
      ensures !Recoverable(c) ==>
        (ReadCentral(CdfhBytes(c) + rest).None? || ReadCentral(CdfhBytes(c) + rest).value.0 != ListingOf(c))
    {
      CdfhRoundTrip(c, rest);
    }
  }

  ghost predicate AllRead(records: seq<Octets>, headers: seq<Cdfh>) {
    && |records| == |headers|
    && forall i | 0 <= i < |records| ::
      |records[i]| > 0 && RecordReads(records[i], ListingOf(headers[i]), Recoverable(headers[i]))
  }

  lemma RecordsAllRead(headers: seq<Cdfh>)
    ensures AllRead(RecordsOf(headers), headers)
  {
    forall i | 0 <= i < |headers|
      ensures |RecordsOf(headers)[i]| > 0
      ensures RecordReads(RecordsOf(headers)[i], ListingOf(headers[i]), Recoverable(headers[i]))
    {
      RecordReadsAs(headers[i]);
    }
  }

  lemma RecordsRead(records: seq<Octets>, headers: seq<Cdfh>)
    requires AllRead(records, headers)
    ensures |headers| <= |Flatten(records)|
    ensures ReadEntries(Flatten(records), |headers|) == Some(ListingsOf(headers)) <==> AllRecoverable(headers)
  {
    var sound := seq(|headers|, i requires 0 <= i < |headers| => Recoverable(headers[i]));
    FlattenAtLeast(records);
    DirectoryReads(records, ListingsOf(headers), sound);
    assert AllRecoverable(headers) <==> forall i | 0 <= i < |sound| :: sound[i];
  }

  function EndOf(files: seq<FileInfo>): EndInfo { DirectoryEnd(CdfhsOf(files), |BodyRegion(files)|) }

  lemma TailOfFlatten(records: seq<Octets>, last: Octets)
    requires records != [] && last == records[|records| - 1] && |last| >= 20
    ensures |Flatten(records)| >= 20 && Flatten(records)[|Flatten(records)| - 20..] == last[|last| - 20..]
  {
    assert records == records[..|records| - 1] + [last];
    FlattenAppend(records[..|records| - 1], last);
  }

  lemma SplitTail(region: Octets, directory: Octets, end: Octets)
    requires |directory| >= 20
    ensures region + (directory + end)
         == ((region + directory[..|directory| - 20]) + directory[|directory| - 20..]) + end
  {}

  lemma WideEnd(region: Octets, directory: Octets, e: EndInfo, archive: Octets)
    requires NeedEnd64(e.size, e.offset, e.count) && archive == region + (directory + EndBytes(e))
    requires e.size == |directory| && e.offset == |region| && e.endOffset == e.offset + e.size <= MAX64 && e.count <= MAX64
    ensures ReadEnd(archive) == Some(DirectoryOf(e))
  {
    DirectoryLies(region, directory, EndBytes(e));
    End64RoundTrip(region + directory, e);
  }

  lemma ClassicEnd(region: Octets, directory: Octets, tail: Octets, e: EndInfo, archive: Octets)
    requires !NeedEnd64(e.size, e.offset, e.count) && archive == region + (directory + EndBytes(e))
    requires |directory| >= 20 && tail == directory[|directory| - 20..]
    ensures ReadEnd(archive)
         == if AtLimit(e) && Locates(tail) && RecordAt(archive, Target(tail)).Some? then RecordAt(archive, Target(tail))
            else Some(DirectoryOf(e))
  {
    SplitTail(region, directory, EndFixed(e));
    ClassicRead(region + directory[..|directory| - 20], tail, e);
  }

  lemma EmptyEnd(e: EndInfo)
    requires e.size == e.offset == e.count == 0
    ensures ReadEnd(EndBytes(e)) == Some(DirectoryOf(e))
  {
    EndSeen(e);
    assert EndFixed(e)[0..] == EndFixed(e);
  }

  lemma LastTailIs(headers: seq<Cdfh>)
    requires headers != []
    ensures var directory := Flatten(RecordsOf(headers));
      |directory| >= 20 && directory[|directory| - 20..] == LastTail(headers)
  {
    CdfhLength(headers[|headers| - 1]);
    TailOfFlatten(RecordsOf(headers), CdfhBytes(headers[|headers| - 1]));
  }

  /** What a reader finds behind the body region: the directory, or what an exposed tail points at. */
  lemma EndFound(region: Octets, headers: seq<Cdfh>, archive: Octets)
    requires archive == region + DirectoryPart(headers, |region|) && |archive| <= MAX64 && (headers == [] ==> region == [])
    requires |headers| <= |Flatten(RecordsOf(headers))|
    ensures ReadEnd(archive)
         == if Exposed(headers, |region|) && RecordAt(archive, Target(LastTail(headers))).Some?
            then RecordAt(archive, Target(LastTail(headers)))
            else Some(DirectoryOf(DirectoryEnd(headers, |region|)))
  {
    var directory, e := Flatten(RecordsOf(headers)), DirectoryEnd(headers, |region|);
    if NeedEnd64(e.size, e.offset, e.count) {
      WideEnd(region, directory, e, archive);
    } else if headers == [] {
      EmptyEnd(e);
      Nothing(EndBytes(e));
      assert archive == EndBytes(e);
    } else {
      LastTailIs(headers);
      ClassicEnd(region, directory, LastTail(headers), e, archive);
    }
  }

  /** The listing is exposed, and a ZIP64 record stands where its last tail points. */
  predicate Astray(files: seq<FileInfo>) {
    && Exposed(CdfhsOf(files), |BodyRegion(files)|)
    && RecordAt(Archive(files), Target(LastTail(CdfhsOf(files)))).Some?
  }

  /**
   * The end records lead a reader to the directory exactly when no other ZIP64 record is found through
   * an exposed listing: the code writes ZIP64 records only past the limits, so that at a limit the last
   * record's own end may speak for them.
   */
  lemma EndRoundTrip(files: seq<FileInfo>)
    requires |Archive(files)| <= MAX64
    ensures ReadEnd(Archive(files))
         == if Astray(files) then RecordAt(Archive(files), Target(LastTail(CdfhsOf(files)))) else Some(DirectoryOf(EndOf(files)))
  {
    RecordsAllRead(CdfhsOf(files));
    RecordsRead(RecordsOf(CdfhsOf(files)), CdfhsOf(files));
    EndFound(BodyRegion(files), CdfhsOf(files), Archive(files));
  }

  /** The end records lead to exactly the directory's bytes. */
  lemma DirectoryRead(region: Octets, headers: seq<Cdfh>, archive: Octets)
    requires archive == region + DirectoryPart(headers, |region|)
    requires ReadEnd(archive) == Some(DirectoryOf(DirectoryEnd(headers, |region|)))
    ensures ReadDirectory(archive) == ReadEntries(Flatten(RecordsOf(headers)), |headers|)
  {
    var directory, e := Flatten(RecordsOf(headers)), DirectoryEnd(headers, |region|);
    DirectoryLies(region, directory, EndBytes(e));
    SlicesAgree(region, directory, EndBytes(e), archive, DirectoryOf(e));
  }

  /**
   * A reader that starts from the end records recovers every entry's name, size, CRC and header
   * offset exactly when every entry is recoverable, unless it is led astray.
   */
  lemma ListingRoundTrip(files: seq<FileInfo>)
    requires |Archive(files)| <= MAX64 && !Astray(files)
    ensures ReadDirectory(Archive(files)) == Some(ListingsOf(CdfhsOf(files))) <==> AllRecoverable(CdfhsOf(files))
  {
    EndRoundTrip(files);
    RecordsAllRead(CdfhsOf(files));
    RecordsRead(RecordsOf(CdfhsOf(files)), CdfhsOf(files));
    DirectoryRead(BodyRegion(files), CdfhsOf(files), Archive(files));
  }

  /** At a limit an entry has no ZIP64 block, so that a long name alone decides whether it is exposed. */
  lemma NameDecides(headers: seq<Cdfh>, last: Cdfh)
    requires headers != [] && last == headers[|headers| - 1] && |last.loc.name| >= 20
    requires !BigFile(last.loc) && !FarOffset(last.loc)
    ensures LastTail(headers) == last.loc.name[|last.loc.name| - 20..]
  {
    CdfhIsRecord(last);
    var name := last.loc.name;
    assert CdfhBytes(last) == CdfhFixed(last) + name;
  }

  lemma LocField(loc: Loc, crc: nat, rest: Octets, i: nat, v: nat)
    requires i < 11 && v == ([LOCAL_SIGNATURE] + LocValues(loc, crc))[i] && v < Pow256(LOCAL_FIELDS[i])
    ensures |LocBytes(loc, crc) + rest| >= Width(LOCAL_FIELDS)
    ensures Field(LOCAL_FIELDS, LocBytes(loc, crc) + rest, i) == v
  {
    LocIsRecord(loc, crc);
    LocalWidth();
    FieldOfPack(LOCAL_FIELDS, [LOCAL_SIGNATURE] + LocValues(loc, crc), loc.name + LocExtra(loc) + rest, i);
    Regroup(LocFixed(loc, crc), loc.name, LocExtra(loc), rest);
    FitsIn(v, LOCAL_FIELDS[i]);
  }

  lemma LocValuesAt(loc: Loc, crc: nat)
    ensures var vs := [LOCAL_SIGNATURE] + LocValues(loc, crc);
      && vs[0] == LOCAL_SIGNATURE && vs[1] == MIN_VER && vs[2] == vs[3] == 0 && vs[6] == crc && vs[7] == vs[8] == LocSizeField(loc) && vs[9] == |loc.name|
      && vs[10] == if BigFile(loc) then 20 else 0
  {}

  lemma LocOpens(loc: Loc, crc: nat, rest: Octets)
    ensures |LocBytes(loc, crc) + rest| >= Width(LOCAL_FIELDS)
    ensures var h := LocBytes(loc, crc) + rest; Opens(Field(LOCAL_FIELDS, h, 1), Field(LOCAL_FIELDS, h, 2), Field(LOCAL_FIELDS, h, 3))
  {
    Widths();
    LocValuesAt(loc, crc);
    LocField(loc, crc, rest, 1, MIN_VER);
    LocField(loc, crc, rest, 2, 0);
    LocField(loc, crc, rest, 3, 0);
  }

  lemma LocSeen(loc: Loc, crc: nat, rest: Octets)
    requires |loc.name| <= MAX16 && crc <= MAX32
    ensures HeaderFields(LocBytes(loc, crc) + rest, |loc.name|, crc, LocSizeField(loc), |LocExtra(loc)|)
  {
    LocalWidth();
    Widths();
    BlockLengths(loc.fileSize, loc.offset);
    LocValuesAt(loc, crc);
    LocField(loc, crc, rest, 0, LOCAL_SIGNATURE);
    LocOpens(loc, crc, rest);
    LocField(loc, crc, rest, 6, crc);
    LocField(loc, crc, rest, 7, LocSizeField(loc));
    LocField(loc, crc, rest, 8, LocSizeField(loc));
    LocField(loc, crc, rest, 9, |loc.name|);
    LocField(loc, crc, rest, 10, |LocExtra(loc)|);
  }

  /** A local header is recognised, with its ZIP64 block when it has one. */
  lemma LocReads(loc: Loc, crc: nat)
    requires |loc.name| <= MAX16 && crc <= MAX32
    ensures HeaderReads(LocBytes(loc, crc), loc.name, crc, LocSizeField(loc), LocExtra(loc))
  {
    LocIsRecord(loc, crc);
    VariableParts(LocFixed(loc, crc), loc.name, LocExtra(loc), []);
    assert LocFixed(loc, crc) + loc.name + LocExtra(loc) + [] == LocBytes(loc, crc);
    forall rest: Octets ensures HeaderFields(LocBytes(loc, crc) + rest, |loc.name|, crc, LocSizeField(loc), |LocExtra(loc)|) {
      LocSeen(loc, crc, rest);
    }
  }

  /** The size field, or the block behind an all-ones one, says the size as long as 64 bits can. */
  lemma LocSizes(loc: Loc)
    ensures SizesSay(LocSizeField(loc), LocSizeField(loc), LocExtra(loc), loc.fileSize) <==> loc.fileSize <= MAX64
  {
    if BigFile(loc) {
      var s := LittleEndian(loc.fileSize, 8);
      SizesBlock(loc.fileSize);
      WidenFront(s, s);
      assert s == s + [];
      WidenFront(s, []);
      Widths();
      NumberSurvives(loc.fileSize, 8);
    }
  }

  /** Every body is found again through its listing exactly when its size fits 64 bits. */
  lemma BodyRoundTrip(files: seq<FileInfo>, i: nat)
    requires i < |files| && |files[i].name| <= MAX16 && files[i].crc <= MAX32
    ensures ReadBody(Archive(files), ListingOf(CdfhAt(files, i))) == Some(files[i].body) <==> files[i].Size() <= MAX64
  {
    var locals := LocalsOf(files);
    var trailer := DirectoryPart(CdfhsOf(files), |BodyRegion(files)|);
    RegionAt(locals, i);
    RegionThenTrailer(Region(locals), OffsetOf(locals, i), locals[i].header, files[i].body, Region(locals[i + 1..]), trailer);
    LocReads(files[i].LocAt(0), files[i].crc);
    BodyReads(Archive(files), ListingOf(CdfhAt(files, i)), LocSizeField(files[i].LocAt(0)), LocExtra(files[i].LocAt(0)),
              locals[i].header, files[i].body, Region(locals[i + 1..]) + trailer);
    LocSizes(files[i].LocAt(0));
  }
}
