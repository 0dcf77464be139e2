/** The record builders of figment-engine's `zip_format.rs`, read back by `ZipReader`. */
module FigmentFormat {
  import opened Bytes
  import opened Canonical
  import opened ZipReader

  datatype EntryMeta = EntryMeta(name: Octets, size: nat, crc: nat, localHeaderOffset: nat)

  const VERSION: nat := 45
  const ZIP64_OFFSET_FIELDS: seq<nat> := [2, 2, 8]

  // ---------- The writer ----------

  function LocalHeader(name: Octets, size: nat, crc: nat): Octets {
    Pack(LOCAL_FIELDS, [LOCAL_SIGNATURE, VERSION, 0, 0, 0, 0, crc, size, size, |name|, 0]) + name
  }

  function LocalHeaderLen(name: Octets): nat {
    30 + |name|
  }

  predicate NeedsZip64Offset(e: EntryMeta) {
    e.localHeaderOffset > MAX32
  }

  function CentralValues(e: EntryMeta): (vs: seq<nat>)
    ensures |vs| == |CENTRAL_FIELDS|
  {
    [CENTRAL_SIGNATURE, VERSION, VERSION, 0, 0, 0, 0, e.crc, e.size] +
    [e.size, |e.name|, if NeedsZip64Offset(e) then 12 else 0, 0, 0, 0, 0,
     if NeedsZip64Offset(e) then MAX32 else e.localHeaderOffset]
  }

  function CentralExtra(e: EntryMeta): Octets {
    if NeedsZip64Offset(e) then Pack(ZIP64_OFFSET_FIELDS, [ZIP64_TAG, 8, e.localHeaderOffset]) else []
  }

  function CentralDirEntry(e: EntryMeta): Octets {
    Pack(CENTRAL_FIELDS, CentralValues(e)) + e.name + CentralExtra(e)
  }

  function CentralDirEntryLen(e: EntryMeta): nat {
    46 + |e.name| + if NeedsZip64Offset(e) then 12 else 0
  }

  function EndRecord64(count: nat, cdOffset: nat, cdSize: nat): Octets {
    Pack(END64_FIELDS, [END64_SIGNATURE, 44, VERSION, VERSION, 0, 0, count, count, cdSize, cdOffset])
  }

  function Locator(cdOffset: nat, cdSize: nat): Octets {
    Pack(LOCATOR_FIELDS, [LOCATOR_SIGNATURE, 0, cdOffset + cdSize, 1])
  }

  function Capped(v: nat, max: nat): nat {
    if v >= max then max else v
  }

  function EndRecord(count: nat, cdOffset: nat, cdSize: nat): Octets {
    Pack(END_FIELDS, [END_SIGNATURE, 0, 0, Capped(count, MAX16), Capped(count, MAX16),
                      Capped(cdSize, MAX32), Capped(cdOffset, MAX32), 0])
  }

  function EndRecords(count: nat, cdOffset: nat, cdSize: nat): Octets {
    EndRecord64(count, cdOffset, cdSize) + Locator(cdOffset, cdSize) + EndRecord(count, cdOffset, cdSize)
  }

  /** The length functions predict the records without building them. */
  lemma LocalHeaderLength(name: Octets, size: nat, crc: nat)
    ensures |LocalHeader(name, size, crc)| == LocalHeaderLen(name)
  {
    LocalWidth();
  }

  lemma CentralDirEntryLength(e: EntryMeta)
    ensures |CentralDirEntry(e)| == CentralDirEntryLen(e)
  {
    CentralWidth();
    if NeedsZip64Offset(e) {
      Zip64OffsetBlock(e);
    }
  }

  lemma EndRecordsLength(count: nat, cdOffset: nat, cdSize: nat)
    ensures |EndRecord64(count, cdOffset, cdSize)| == 56 && |Locator(cdOffset, cdSize)| == 20
    ensures |EndRecord(count, cdOffset, cdSize)| == 22 && |EndRecords(count, cdOffset, cdSize)| == 98
  {
    End64Width();
    LocatorWidth();
    EndWidth();
  }

  // ---------- One directory record ----------

  /** When a reader can recover the entry: every value fits, and an all-ones size never meets a ZIP64 block. */
  predicate Recoverable(e: EntryMeta) {
    && |e.name| <= MAX16
    && e.crc <= MAX32
    && e.size <= MAX32
    && e.localHeaderOffset < 0x1_0000_0000_0000_0000
    && (e.size == MAX32 ==> e.localHeaderOffset <= MAX32)
  }

  function ListingOf(e: EntryMeta): Listed {
    Listed(e.name, e.size, e.crc, e.localHeaderOffset)
  }

  lemma CentralFields(e: EntryMeta, rest: Octets, i: nat)
    requires i < |CENTRAL_FIELDS|
    ensures |CentralDirEntry(e) + rest| >= Width(CENTRAL_FIELDS)
    ensures Field(CENTRAL_FIELDS, CentralDirEntry(e) + rest, i)
         == Number(LittleEndian(CentralValues(e)[i], CENTRAL_FIELDS[i]))
  {
    FieldOfPack(CENTRAL_FIELDS, CentralValues(e), e.name + CentralExtra(e) + rest, i);
    assert CentralDirEntry(e) + rest
        == Pack(CENTRAL_FIELDS, CentralValues(e)) + (e.name + CentralExtra(e) + rest);
  }

  lemma ShortNumber(v: nat, w: nat)
    ensures Number(LittleEndian(v, w)) < Pow256(w)
  {
    NumberRange(LittleEndian(v, w));
  }

  lemma Zip64OffsetBlock(e: EntryMeta)
    requires NeedsZip64Offset(e)
    ensures |CentralExtra(e)| == 12
    ensures Zip64Block(CentralExtra(e)) == Some(LittleEndian(e.localHeaderOffset, 8))
  {
    Widths();
    FitsIn(ZIP64_TAG, 2);
    FitsIn(8, 2);
    PackThree(ZIP64_TAG, 8, e.localHeaderOffset);
    BlockFound(LittleEndian(ZIP64_TAG, 2), LittleEndian(8, 2), LittleEndian(e.localHeaderOffset, 8));
  }

  lemma PackThree(a: nat, b: nat, c: nat)
    ensures Pack(ZIP64_OFFSET_FIELDS, [a, b, c]) == LittleEndian(a, 2) + (LittleEndian(b, 2) + LittleEndian(c, 8))
  {
    assert ZIP64_OFFSET_FIELDS[1..] == [2, 8] && [2, 8][1..] == [8] && [8][1..] == [];
    assert [a, b, c][1..] == [b, c] && [b, c][1..] == [c] && [c][1..] == [];
    assert Pack([8], [c]) == LittleEndian(c, 8);
    assert Pack([2, 8], [b, c]) == LittleEndian(b, 2) + LittleEndian(c, 8);
  }

  /** A reader opens the entry: no flag, no method, a version it knows, on the only disk. */
  lemma CentralOpens(e: EntryMeta, rest: Octets)
    ensures |CentralDirEntry(e) + rest| >= Width(CENTRAL_FIELDS)
    ensures var d := CentralDirEntry(e) + rest;
      && Opens(Field(CENTRAL_FIELDS, d, 2), Field(CENTRAL_FIELDS, d, 3), Field(CENTRAL_FIELDS, d, 4))
      && Field(CENTRAL_FIELDS, d, 13) == 0
  {
    Widths();
    FitsIn(VERSION, 2);
    FitsIn(0, 2);
    CentralFields(e, rest, 2);
    CentralFields(e, rest, 3);
    CentralFields(e, rest, 4);
    CentralFields(e, rest, 13);
  }

  /** The fixed fields a reader sees, whatever the values. */
  lemma CentralFixed(e: EntryMeta, rest: Octets)
    ensures |CentralDirEntry(e) + rest| >= 46 == Width(CENTRAL_FIELDS)
    ensures var d := CentralDirEntry(e) + rest;
      && Field(CENTRAL_FIELDS, d, 0) == CENTRAL_SIGNATURE
      && Field(CENTRAL_FIELDS, d, 7) == Number(LittleEndian(e.crc, 4))
      && Field(CENTRAL_FIELDS, d, 8) == Field(CENTRAL_FIELDS, d, 9) == Number(LittleEndian(e.size, 4))
      && Field(CENTRAL_FIELDS, d, 10) == Number(LittleEndian(|e.name|, 2))
      && Field(CENTRAL_FIELDS, d, 11) == |CentralExtra(e)|
      && Field(CENTRAL_FIELDS, d, 12) == 0
      && Field(CENTRAL_FIELDS, d, 16) == if NeedsZip64Offset(e) then MAX32 else e.localHeaderOffset
  {
    CentralWidth();
    Widths();
    var vs := CentralValues(e);
    CentralFields(e, rest, 0);
    FitsIn(CENTRAL_SIGNATURE, 4);
    FitsIn(0, 2);
    CentralFields(e, rest, 7);
    CentralFields(e, rest, 8);
    CentralFields(e, rest, 9);
    CentralFields(e, rest, 10);
    CentralFields(e, rest, 11);
    FitsIn(12, 2);
    if NeedsZip64Offset(e) { Zip64OffsetBlock(e); }
    CentralFields(e, rest, 12);
    CentralFields(e, rest, 16);
    FitsIn(vs[16], 4);
  }

  /** What the reader makes of the size and offset fields, for a record whose extra field it can find. */
  lemma CentralSizes(e: EntryMeta)
    ensures var low := Number(LittleEndian(e.size, 4));
            var wide := Number(LittleEndian(e.localHeaderOffset, 8));
      WidenSizes(Sizes(low, low, if NeedsZip64Offset(e) then MAX32 else e.localHeaderOffset), CentralExtra(e))
      == if !NeedsZip64Offset(e) then Some(Sizes(low, low, e.localHeaderOffset))
         else if low == MAX32 then None
         else Some(Sizes(low, low, wide))
  {
    if NeedsZip64Offset(e) {
      Zip64OffsetBlock(e);
      var block := LittleEndian(e.localHeaderOffset, 8);
      assert block[..8] == block && block[8..] == [];
    }
  }

  lemma CentralParses(e: EntryMeta, rest: Octets)
    requires |e.name| <= MAX16
    ensures var low := Number(LittleEndian(e.size, 4));
            var crc := Number(LittleEndian(e.crc, 4));
            var wide := Number(LittleEndian(e.localHeaderOffset, 8));
      ReadCentral(CentralDirEntry(e) + rest)
      == if !NeedsZip64Offset(e) then Some((Listed(e.name, low, crc, e.localHeaderOffset), rest))
         else if low == MAX32 then None
         else Some((Listed(e.name, low, crc, wide), rest))
  {
    var d := CentralDirEntry(e) + rest;
    CentralWidth();
    Widths();
    CentralFixed(e, rest);
    CentralOpens(e, rest);
    FitsIn(|e.name|, 2);
    CentralSizes(e);
    var low := Number(LittleEndian(e.size, 4));
    CentralReads(d, Pack(CENTRAL_FIELDS, CentralValues(e)), e.name, CentralExtra(e), rest, Number(LittleEndian(e.crc, 4)),
                 Sizes(low, low, if NeedsZip64Offset(e) then MAX32 else e.localHeaderOffset));
  }

  /**
   * The directory record of an entry reads back as that entry exactly when it is recoverable. The
   * failing family is real: a size of 0xFFFFFFFF next to an offset past 4 GiB writes a size that a
   * reader must look up in a ZIP64 block that only holds the offset.
   */
  lemma CentralRoundTrip(e: EntryMeta, rest: Octets)
    ensures ReadCentral(CentralDirEntry(e) + rest) == Some((ListingOf(e), rest)) <==> Recoverable(e)
    ensures var r := ReadCentral(CentralDirEntry(e) + rest);
      r.Some? && r.value.0 == ListingOf(e) ==> Recoverable(e)
  {
    if |e.name| <= MAX16 {
      Widths();
      NumberSurvives(e.size, 4);
      NumberSurvives(e.crc, 4);
      NumberSurvives(e.localHeaderOffset, 8);
      ShortNumber(e.size, 4);
      CentralParses(e, rest);
    } else {
      LongNameIsCut(e, rest);
    }
  }

  lemma LongNameIsCut(e: EntryMeta, rest: Octets)
    ensures var r := ReadCentral(CentralDirEntry(e) + rest);
      r.Some? ==> |r.value.0.name| <= MAX16
  {
    Widths();
    CentralWidth();
    CentralFixed(e, rest);
    ShortNumber(|e.name|, 2);
  }

  // ---------- The end records ----------

  lemma EndFields(count: nat, cdOffset: nat, cdSize: nat)
    ensures var e := EndRecord(count, cdOffset, cdSize);
      && |e| == 22 == Width(END_FIELDS)
      && Field(END_FIELDS, e, 0) == END_SIGNATURE
      && OnePiece(Field(END_FIELDS, e, 1), Field(END_FIELDS, e, 2))
      && Field(END_FIELDS, e, 3) == Field(END_FIELDS, e, 4) == Capped(count, MAX16)
      && Field(END_FIELDS, e, 5) == Capped(cdSize, MAX32)
      && Field(END_FIELDS, e, 6) == Capped(cdOffset, MAX32)
      && Field(END_FIELDS, e, 7) == 0
  {
    var vs := [END_SIGNATURE, 0, 0, Capped(count, MAX16), Capped(count, MAX16),
               Capped(cdSize, MAX32), Capped(cdOffset, MAX32), 0];
    EndWidth();
    Widths();
    assert Pack(END_FIELDS, vs) + [] == Pack(END_FIELDS, vs);
    FieldOfPack(END_FIELDS, vs, [], 0);
    FitsIn(END_SIGNATURE, 4);
    FieldOfPack(END_FIELDS, vs, [], 1);
    FieldOfPack(END_FIELDS, vs, [], 2);
    FieldOfPack(END_FIELDS, vs, [], 3);
    FieldOfPack(END_FIELDS, vs, [], 4);
    FitsIn(Capped(count, MAX16), 2);
    FieldOfPack(END_FIELDS, vs, [], 5);
    FitsIn(Capped(cdSize, MAX32), 4);
    FieldOfPack(END_FIELDS, vs, [], 6);
    FitsIn(Capped(cdOffset, MAX32), 4);
    FieldOfPack(END_FIELDS, vs, [], 7);
    FitsIn(0, 2);
  }

  lemma LocatorFields(cdOffset: nat, cdSize: nat, rest: Octets)
    requires cdOffset + cdSize <= MAX64
    ensures var l := Locator(cdOffset, cdSize) + rest;
      && |l| >= 20 == Width(LOCATOR_FIELDS)
      && Field(LOCATOR_FIELDS, l, 0) == LOCATOR_SIGNATURE && Field(LOCATOR_FIELDS, l, 1) == 0
      && Field(LOCATOR_FIELDS, l, 2) == cdOffset + cdSize
  {
    var vs := [LOCATOR_SIGNATURE, 0, cdOffset + cdSize, 1];
    LocatorWidth();
    Widths();
    FieldOfPack(LOCATOR_FIELDS, vs, rest, 0);
    FitsIn(LOCATOR_SIGNATURE, 4);
    FieldOfPack(LOCATOR_FIELDS, vs, rest, 1);
    FitsIn(0, 4);
    FieldOfPack(LOCATOR_FIELDS, vs, rest, 2);
    FitsIn(cdOffset + cdSize, 8);
  }

  lemma End64InOnePiece(count: nat, cdOffset: nat, cdSize: nat, rest: Octets)
    ensures var r := EndRecord64(count, cdOffset, cdSize) + rest;
      && |r| >= 56 == Width(END64_FIELDS)
      && Field(END64_FIELDS, r, 1) == 44 && Field(END64_FIELDS, r, 3) <= 45
      && Field(END64_FIELDS, r, 4) == Field(END64_FIELDS, r, 5) == 0
  {
    var vs := [END64_SIGNATURE, 44, VERSION, VERSION, 0, 0, count, count, cdSize, cdOffset];
    End64Width();
    Widths();
    FieldOfPack(END64_FIELDS, vs, rest, 1);
    FitsIn(44, 8);
    FieldOfPack(END64_FIELDS, vs, rest, 3);
    FitsIn(VERSION, 2);
    FieldOfPack(END64_FIELDS, vs, rest, 4);
    FieldOfPack(END64_FIELDS, vs, rest, 5);
    FitsIn(0, 4);
  }

  lemma End64Fields(count: nat, cdOffset: nat, cdSize: nat, rest: Octets)
    requires count <= MAX64 && cdOffset <= MAX64 && cdSize <= MAX64
    ensures var r := EndRecord64(count, cdOffset, cdSize) + rest;
      && |r| >= 56 == Width(END64_FIELDS)
      && Field(END64_FIELDS, r, 0) == END64_SIGNATURE
      && Field(END64_FIELDS, r, 6) == Field(END64_FIELDS, r, 7) == count
      && Field(END64_FIELDS, r, 8) == cdSize
      && Field(END64_FIELDS, r, 9) == cdOffset
  {
    var vs := [END64_SIGNATURE, 44, VERSION, VERSION, 0, 0, count, count, cdSize, cdOffset];
    End64Width();
    Widths();
    FieldOfPack(END64_FIELDS, vs, rest, 0);
    FitsIn(END64_SIGNATURE, 4);
    FieldOfPack(END64_FIELDS, vs, rest, 6);
    FieldOfPack(END64_FIELDS, vs, rest, 7);
    FitsIn(count, 8);
    FieldOfPack(END64_FIELDS, vs, rest, 8);
    FitsIn(cdSize, 8);
    FieldOfPack(END64_FIELDS, vs, rest, 9);
    FitsIn(cdOffset, 8);
  }

  lemma End64RoundTrip(before: Octets, count: nat, cdOffset: nat, cdSize: nat)
    requires count <= MAX64 && |before| == cdOffset + cdSize <= MAX64
    ensures ReadEnd64(before + EndRecords(count, cdOffset, cdSize)) == Some(Directory(count, cdSize, cdOffset))
  {
    EndRecordsLength(count, cdOffset, cdSize);
    var a, b, c := EndRecord64(count, cdOffset, cdSize), Locator(cdOffset, cdSize), EndRecord(count, cdOffset, cdSize);
    TailSlices(before, a, b, c);
    LocatorFields(cdOffset, cdSize, c);
    End64Fields(count, cdOffset, cdSize, b + c);
    End64InOnePiece(count, cdOffset, cdSize, b + c);
  }

  /** The trailer leads a reader to the directory, below and above every ZIP64 limit. */
  lemma EndRoundTrip(before: Octets, count: nat, cdOffset: nat, cdSize: nat)
    requires count <= MAX64 && |before| == cdOffset + cdSize <= MAX64
    ensures ReadEnd(before + EndRecords(count, cdOffset, cdSize)) == Some(Directory(count, cdSize, cdOffset))
  {
    EndRecordsLength(count, cdOffset, cdSize);
    TailSlices(before, EndRecord64(count, cdOffset, cdSize), Locator(cdOffset, cdSize), EndRecord(count, cdOffset, cdSize));
    EndFields(count, cdOffset, cdSize);
    End64RoundTrip(before, count, cdOffset, cdSize);
  }

  // ---------- The whole archive ----------

  /** A file as it goes into the archive. */
  datatype Item = Item(name: Octets, body: Octets, crc: nat)

  function LocalOf(item: Item): Local {
    Local(LocalHeader(item.name, |item.body|, item.crc), item.body)
  }

  function LocalsOf(items: seq<Item>): (locals: seq<Local>)
    ensures |locals| == |items|
  {
    seq(|items|, i requires 0 <= i < |items| => LocalOf(items[i]))
  }

  lemma LocalsAppend(items: seq<Item>, x: Item)
    ensures LocalsOf(items + [x]) == LocalsOf(items) + [LocalOf(x)]
    ensures Region(LocalsOf(items + [x])) == Region(LocalsOf(items)) + LocalOf(x).header + x.body
  {
    assert LocalsOf(items + [x]) == LocalsOf(items) + [LocalOf(x)];
    RegionAppend(LocalsOf(items), LocalOf(x));
  }

  function MetaOf(items: seq<Item>, i: nat): EntryMeta
    requires i < |items|
  {
    EntryMeta(items[i].name, |items[i].body|, items[i].crc, OffsetOf(LocalsOf(items), i))
  }

  function MetasOf(items: seq<Item>): (metas: seq<EntryMeta>)
    ensures |metas| == |items|
  {
    seq(|items|, i requires 0 <= i < |items| => MetaOf(items, i))
  }

  function RecordsOf(metas: seq<EntryMeta>): (records: seq<Octets>)
    ensures |records| == |metas|
  {
    seq(|metas|, i requires 0 <= i < |metas| => CentralDirEntry(metas[i]))
  }

  /** Central directory and end records behind a body region of `cdOffset` bytes. */
  function Trailer(metas: seq<EntryMeta>, cdOffset: nat): Octets {
    var directory := Flatten(RecordsOf(metas));
    directory + EndRecords(|metas|, cdOffset, |directory|)
  }

  /** The archive a sequential writer would produce. */
  function Archive(items: seq<Item>): Octets {
    Region(LocalsOf(items)) + Trailer(MetasOf(items), |Region(LocalsOf(items))|)
  }

  function ListingsOf(metas: seq<EntryMeta>): (l: seq<Listed>)
    ensures |l| == |metas|
  {
    seq(|metas|, i requires 0 <= i < |metas| => ListingOf(metas[i]))
  }

  predicate AllRecoverable(metas: seq<EntryMeta>) {
    forall i | 0 <= i < |metas| :: Recoverable(metas[i])
  }

  lemma RecordReadsAs(e: EntryMeta)
    ensures |CentralDirEntry(e)| > 0
    ensures RecordReads(CentralDirEntry(e), ListingOf(e), Recoverable(e))
  {
    CentralDirEntryLength(e);
    forall rest: Octets
      ensures Recoverable(e) ==> ReadCentral(CentralDirEntry(e) + rest) == Some((ListingOf(e), rest))
      ensures !Recoverable(e) ==>
        (ReadCentral(CentralDirEntry(e) + rest).None? || ReadCentral(CentralDirEntry(e) + rest).value.0 != ListingOf(e))
    {
      CentralRoundTrip(e, rest);
    }
  }

  ghost predicate AllRead(records: seq<Octets>, metas: seq<EntryMeta>) {
    && |records| == |metas|
    && forall i | 0 <= i < |records| ::
      |records[i]| > 0 && RecordReads(records[i], ListingOf(metas[i]), Recoverable(metas[i]))
  }

  lemma RecordsAllRead(metas: seq<EntryMeta>)
    ensures AllRead(RecordsOf(metas), metas)
  {
    forall i | 0 <= i < |metas|
      ensures |RecordsOf(metas)[i]| > 0
      ensures RecordReads(RecordsOf(metas)[i], ListingOf(metas[i]), Recoverable(metas[i]))
    {
      RecordReadsAs(metas[i]);
    }
  }

  lemma RecordsRead(records: seq<Octets>, metas: seq<EntryMeta>)
    requires AllRead(records, metas)
    ensures |metas| <= |Flatten(records)|
    ensures ReadEntries(Flatten(records), |metas|) == Some(ListingsOf(metas)) <==> AllRecoverable(metas)
  {
    var sound := seq(|metas|, i requires 0 <= i < |metas| => Recoverable(metas[i]));
    FlattenAtLeast(records);
    DirectoryReads(records, ListingsOf(metas), sound);
    assert AllRecoverable(metas) <==> forall i | 0 <= i < |sound| :: sound[i];
  }

  lemma DirectoryFound(region: Octets, directory: Octets, count: nat, archive: Octets)
    requires archive == region + (directory + EndRecords(count, |region|, |directory|))
    requires |archive| <= MAX64 && count <= MAX64
    ensures ReadDirectory(archive) == ReadEntries(directory, count)
  {
    var end := EndRecords(count, |region|, |directory|);
    DirectoryLies(region, directory, end);
    EndRoundTrip(region + directory, count, |region|, |directory|);
    SlicesAgree(region, directory, end, archive, Directory(count, |directory|, |region|));
  }

  lemma DirectoryRead(region: Octets, metas: seq<EntryMeta>, archive: Octets)
    requires archive == region + Trailer(metas, |region|) && |archive| <= MAX64
    requires |metas| <= |Flatten(RecordsOf(metas))|
    ensures ReadDirectory(archive) == ReadEntries(Flatten(RecordsOf(metas)), |metas|)
  {
    DirectoryFound(region, Flatten(RecordsOf(metas)), |metas|, archive);
  }

  /**
   * A reader that starts from the end records recovers every entry's name, size, CRC and header
   * offset, on both sides of the ZIP64 limits, exactly when every entry is recoverable.
   */
  lemma ListingRoundTrip(items: seq<Item>)
    requires |Archive(items)| <= MAX64
    ensures ReadDirectory(Archive(items)) == Some(ListingsOf(MetasOf(items))) <==> AllRecoverable(MetasOf(items))
  {
    RecordsAllRead(MetasOf(items));
    RecordsRead(RecordsOf(MetasOf(items)), MetasOf(items));
    DirectoryRead(Region(LocalsOf(items)), MetasOf(items), Archive(items));
  }

  lemma LocalHeaderReads(name: Octets, size: nat, crc: nat, field: nat)
    requires |name| <= MAX16 && crc <= MAX32 && field == Number(LittleEndian(size, 4))
    ensures HeaderReads(LocalHeader(name, size, crc), name, crc, field, [])
  {
    LocalHeaderLength(name, size, crc);
    assert LocalHeader(name, size, crc)[30..] == name by {
      LocalWidth();
    }
    forall rest: Octets ensures HeaderFields(LocalHeader(name, size, crc) + rest, |name|, crc, field, 0) {
      LocalFields(name, size, crc, field, rest);
    }
  }

  /** A record followed by a name and whatever comes next keeps its fields. */
  lemma NamedField(ws: seq<nat>, vs: seq<nat>, name: Octets, rest: Octets, i: nat)
    requires |ws| == |vs| && i < |ws|
    ensures |(Pack(ws, vs) + name) + rest| >= Width(ws)
    ensures Field(ws, (Pack(ws, vs) + name) + rest, i) == Number(LittleEndian(vs[i], ws[i]))
  {
    FieldOfPack(ws, vs, name + rest, i);
    assert (Pack(ws, vs) + name) + rest == Pack(ws, vs) + (name + rest);
  }

  lemma NamedValue(ws: seq<nat>, vs: seq<nat>, name: Octets, rest: Octets, i: nat)
    requires |ws| == |vs| && i < |ws| && vs[i] < Pow256(ws[i])
    ensures |(Pack(ws, vs) + name) + rest| >= Width(ws)
    ensures Field(ws, (Pack(ws, vs) + name) + rest, i) == vs[i]
  {
    NamedField(ws, vs, name, rest, i);
    FitsIn(vs[i], ws[i]);
  }

  lemma FieldsOf(vs: seq<nat>, name: Octets, crc: nat, field: nat, rest: Octets)
    requires |vs| == |LOCAL_FIELDS| && |name| <= MAX16 && crc <= MAX32
    requires vs[0] == LOCAL_SIGNATURE && Opens(vs[1], vs[2], vs[3]) && vs[6] == crc && vs[9] == |name| && vs[10] == 0
    requires vs[7] == vs[8] && field == Number(LittleEndian(vs[7], 4))
    ensures HeaderFields((Pack(LOCAL_FIELDS, vs) + name) + rest, |name|, crc, field, 0)
  {
    LocalWidth();
    Widths();
    NamedValue(LOCAL_FIELDS, vs, name, rest, 0);
    NamedValue(LOCAL_FIELDS, vs, name, rest, 1);
    NamedValue(LOCAL_FIELDS, vs, name, rest, 2);
    NamedValue(LOCAL_FIELDS, vs, name, rest, 3);
    NamedValue(LOCAL_FIELDS, vs, name, rest, 6);
    NamedField(LOCAL_FIELDS, vs, name, rest, 7);
    NamedField(LOCAL_FIELDS, vs, name, rest, 8);
    NamedValue(LOCAL_FIELDS, vs, name, rest, 9);
    NamedValue(LOCAL_FIELDS, vs, name, rest, 10);
  }

  lemma LocalFields(name: Octets, size: nat, crc: nat, field: nat, rest: Octets)
    requires |name| <= MAX16 && crc <= MAX32 && field == Number(LittleEndian(size, 4))
    ensures HeaderFields(LocalHeader(name, size, crc) + rest, |name|, crc, field, 0)
  {
    FieldsOf([LOCAL_SIGNATURE, VERSION, 0, 0, 0, 0, crc, size, size, |name|, 0], name, crc, field, rest);
  }

  /**
   * Every body is found again through its listing exactly when its size fits the local header's 32 bits:
   * a larger one is cut there, and no ZIP64 block makes up for it.
   */
  lemma BodyRoundTrip(items: seq<Item>, i: nat)
    requires i < |items| && |items[i].name| <= MAX16 && items[i].crc <= MAX32
    ensures ReadBody(Archive(items), ListingOf(MetaOf(items, i))) == Some(items[i].body) <==> |items[i].body| <= MAX32
  {
    var locals := LocalsOf(items);
    var trailer := Trailer(MetasOf(items), |Region(locals)|);
    var field := Number(LittleEndian(|items[i].body|, 4));
    RegionAt(locals, i);
    RegionThenTrailer(Region(locals), OffsetOf(locals, i), locals[i].header, items[i].body, Region(locals[i + 1..]), trailer);
    LocalHeaderReads(items[i].name, |items[i].body|, items[i].crc, field);
    BodyReads(Archive(items), ListingOf(MetaOf(items, i)), field, [], locals[i].header, items[i].body,
              Region(locals[i + 1..]) + trailer);
    PlainSizes(|items[i].body|, field);
  }

  /** Without a ZIP64 block the 32-bit field has to hold the size. */
  lemma PlainSizes(size: nat, field: nat)
    requires field == Number(LittleEndian(size, 4))
    ensures SizesSay(field, field, [], size) <==> size <= MAX32
  {
    Widths();
    NumberSurvives(size, 4);
  }

  /** The corner a reader cannot recover: an all-ones size behind a 4 GiB offset. */
  lemma AllOnesSizeIsLost(name: Octets, crc: nat, offset: nat, rest: Octets)
    requires offset > MAX32
    ensures ReadCentral(CentralDirEntry(EntryMeta(name, MAX32, crc, offset)) + rest)
         != Some((Listed(name, MAX32, crc, offset), rest))
  {
    CentralRoundTrip(EntryMeta(name, MAX32, crc, offset), rest);
  }
}
