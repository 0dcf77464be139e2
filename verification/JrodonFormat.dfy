/** The records of jrodon-v3's `zip_format.rs`: predicted sizes, bytes, and what a reader makes of them. */
module JrodonFormat {
  import opened Bytes
  import opened Canonical
  import opened ZipReader

  const MIN_VER: nat := 10

  /** A local file header before its CRC is known. */
  datatype Loc = Loc(offset: nat, name: Octets, fileSize: nat)

  /** A central directory header: a local header with its CRC. */
  datatype Cdfh = Cdfh(loc: Loc, crc: nat)

  // ---------- Predicted sizes ----------

  function PredictLocSize(fileSize: nat, nameLen: nat): nat {
    if fileSize > MAX32 then 30 + 20 + nameLen else 30 + nameLen
  }

  function PredictCdfhSize(fileSize: nat, nameLen: nat, locOffset: nat): nat {
    if locOffset > MAX32 then 46 + 28 + nameLen
    else if fileSize > MAX32 then 46 + 20 + nameLen
    else 46 + nameLen
  }

  function LocSize(loc: Loc): nat { PredictLocSize(loc.fileSize, |loc.name|) }

  predicate NeedEnd64(size: nat, offset: nat, count: nat) {
    size > MAX32 || offset > MAX32 || count > MAX16
  }

  function PredictEndSize(size: nat, offset: nat, count: nat): nat {
    if NeedEnd64(size, offset, count) then 22 + 56 + 20 else 22
  }

  // ---------- Bytes ----------

  /** Signatures are written big-endian. */
  function BigEndian(v: nat, w: nat): (s: Octets)
    ensures |s| == w
    decreases w
  {
    if w == 0 then [] else BigEndian(v / 256, w - 1) + [v % 256]
  }

  function Magic(v: nat): Octets { BigEndian(v, 4) }

  /** The big-endian signatures are the little-endian numbers of the specification. */
  lemma Signatures()
    ensures Magic(0x504B_0304) == LittleEndian(LOCAL_SIGNATURE, 4)
    ensures Magic(0x504B_0102) == LittleEndian(CENTRAL_SIGNATURE, 4)
    ensures Magic(0x504B_0506) == LittleEndian(END_SIGNATURE, 4)
    ensures Magic(0x504B_0606) == LittleEndian(END64_SIGNATURE, 4)
    ensures Magic(0x504B_0607) == LittleEndian(LOCATOR_SIGNATURE, 4)
  {
    FourBytes(0x50, 0x4B, 0x03, 0x04);
    FourBytes(0x50, 0x4B, 0x01, 0x02);
    FourBytes(0x50, 0x4B, 0x05, 0x06);
    FourBytes(0x50, 0x4B, 0x06, 0x06);
    FourBytes(0x50, 0x4B, 0x06, 0x07);
  }

  lemma FourBytes(a: byte, b: byte, c: byte, d: byte)
    ensures Magic(((a * 256 + b) * 256 + c) * 256 + d) == [a, b, c, d]
    ensures LittleEndian(((d * 256 + c) * 256 + b) * 256 + a, 4) == [a, b, c, d]
  {
    BigFour(a, b, c, d);
    LittleFour(a, b, c, d);
  }

  lemma BigFour(a: byte, b: byte, c: byte, d: byte)
    ensures Magic(((a * 256 + b) * 256 + c) * 256 + d) == [a, b, c, d]
  {
    BigStep((a * 256 + b) * 256 + c, d, 4);
    BigStep(a * 256 + b, c, 3);
    BigStep(a, b, 2);
    BigStep(0, a, 1);
  }

  lemma LittleFour(a: byte, b: byte, c: byte, d: byte)
    ensures LittleEndian(((d * 256 + c) * 256 + b) * 256 + a, 4) == [a, b, c, d]
  {
    LittleStep((d * 256 + c) * 256 + b, a, 4);
    LittleStep(d * 256 + c, b, 3);
    LittleStep(d, c, 2);
    LittleStep(0, d, 1);
  }

  lemma BigStep(v: nat, b: byte, w: nat)
    requires w > 0
    ensures BigEndian(v * 256 + b, w) == BigEndian(v, w - 1) + [b]
  {
    assert (v * 256 + b) / 256 == v && (v * 256 + b) % 256 == b;
  }

  lemma LittleStep(v: nat, b: byte, w: nat)
    requires w > 0
    ensures LittleEndian(v * 256 + b, w) == [b] + LittleEndian(v, w - 1)
  {
    assert (v * 256 + b) / 256 == v && (v * 256 + b) % 256 == b;
  }

  const SIZES_BLOCK: seq<nat> := [2, 2, 8, 8]
  const OFFSET_BLOCK: seq<nat> := [2, 2, 8, 8, 8]

  predicate BigFile(loc: Loc) { loc.fileSize > MAX32 }

  predicate FarOffset(loc: Loc) { loc.offset > MAX32 }

  /** The ZIP64 block with both sizes. */
  function SizesExtra(size: nat): Octets { Pack(SIZES_BLOCK, [ZIP64_TAG, 16, size, size]) }

  /** The ZIP64 block with both sizes and the header offset. */
  function OffsetExtra(size: nat, offset: nat): Octets { Pack(OFFSET_BLOCK, [ZIP64_TAG, 24, size, size, offset]) }

  function LocExtra(loc: Loc): Octets { if BigFile(loc) then SizesExtra(loc.fileSize) else [] }

  function LocSizeField(loc: Loc): nat { if BigFile(loc) then MAX32 else loc.fileSize }

  function LocValues(loc: Loc, crc: nat): (vs: seq<nat>)
    ensures |vs| == 10
  {
    [MIN_VER, 0, 0, 0, 0, crc] + [LocSizeField(loc), LocSizeField(loc), |loc.name|, if BigFile(loc) then 20 else 0]
  }

  /** The fixed fields behind the signature; casts to a field's width truncate. */
  function LocFixed(loc: Loc, crc: nat): Octets {
    Magic(0x504B_0304) + Pack([2, 2, 2, 2, 2, 4] + [4, 4, 2, 2], LocValues(loc, crc))
  }

  function LocBytes(loc: Loc, crc: nat): Octets {
    LocFixed(loc, crc) + loc.name + LocExtra(loc)
  }

  function CdfhExtra(loc: Loc): Octets {
    if FarOffset(loc) then OffsetExtra(loc.fileSize, loc.offset)
    else if BigFile(loc) then SizesExtra(loc.fileSize)
    else []
  }

  function CdfhSizeField(loc: Loc): nat { if FarOffset(loc) || BigFile(loc) then MAX32 else loc.fileSize }

  function CdfhOffsetField(loc: Loc): nat { if FarOffset(loc) then MAX32 else loc.offset }

  function CdfhExtraLen(loc: Loc): nat { if FarOffset(loc) then 28 else if BigFile(loc) then 20 else 0 }

  function CdfhValues(c: Cdfh): (vs: seq<nat>)
    ensures |vs| == 16
  {
    [MIN_VER, MIN_VER, 0, 0, 0, 0, c.crc, CdfhSizeField(c.loc)] +
    [CdfhSizeField(c.loc), |c.loc.name|, CdfhExtraLen(c.loc), 0, 0, 0, 0, CdfhOffsetField(c.loc)]
  }

  function CdfhFixed(c: Cdfh): Octets {
    Magic(0x504B_0102) + Pack([2, 2, 2, 2, 2, 2, 4, 4] + [4, 2, 2, 2, 2, 2, 4, 4], CdfhValues(c))
  }

  function CdfhBytes(c: Cdfh): Octets {
    CdfhFixed(c) + c.loc.name + CdfhExtra(c.loc)
  }

  /** End-of-directory facts; `endOffset` is where the end records start. */
  datatype EndInfo = EndInfo(count: nat, size: nat, offset: nat, endOffset: nat)

  function End64Bytes(e: EndInfo): Octets {
    Magic(0x504B_0606) + Pack([8, 2, 2, 4, 4] + [8, 8, 8, 8], [44, MIN_VER, MIN_VER, 0, 0] + [e.count, e.count, e.size, e.offset])
  }

  function LocatorBytes(e: EndInfo): Octets {
    Magic(0x504B_0607) + Pack([4, 8] + [4], [0, e.endOffset, 0])
  }

  /** With ZIP64 records every field is all ones, the disk numbers included. */
  function EndValues(e: EndInfo): (vs: seq<nat>)
    ensures |vs| == 7
  {
    if NeedEnd64(e.size, e.offset, e.count) then [MAX16, MAX16, MAX16, MAX16, MAX32, MAX32, 0]
    else [0, 0, e.count, e.count, e.size, e.offset, 0]
  }

  function EndFixed(e: EndInfo): Octets {
    Magic(0x504B_0506) + Pack([2, 2, 2, 2] + [4, 4, 2], EndValues(e))
  }

  function EndBytes(e: EndInfo): Octets {
    if NeedEnd64(e.size, e.offset, e.count) then End64Bytes(e) + LocatorBytes(e) + EndFixed(e) else EndFixed(e)
  }

  // ---------- A signature in front of a record ----------

  lemma Headed(signature: nat, ws: seq<nat>, vs: seq<nat>)
    requires |ws| == |vs|
    ensures LittleEndian(signature, 4) + Pack(ws, vs) == Pack([4] + ws, [signature] + vs)
  {
    assert ([4] + ws)[1..] == ws && ([signature] + vs)[1..] == vs;
  }

  lemma LocIsRecord(loc: Loc, crc: nat)
    ensures LocFixed(loc, crc) == Pack(LOCAL_FIELDS, [LOCAL_SIGNATURE] + LocValues(loc, crc))
    ensures |LocFixed(loc, crc)| == 30
  {
    Signatures();
    LocalWidth();
    Headed(LOCAL_SIGNATURE, [2, 2, 2, 2, 2, 4] + [4, 4, 2, 2], LocValues(loc, crc));
    assert LOCAL_FIELDS == [4] + ([2, 2, 2, 2, 2, 4] + [4, 4, 2, 2]);
  }

  lemma CdfhIsRecord(c: Cdfh)
    ensures CdfhFixed(c) == Pack(CENTRAL_FIELDS, [CENTRAL_SIGNATURE] + CdfhValues(c))
    ensures |CdfhFixed(c)| == 46
  {
    var ws := [2, 2, 2, 2, 2, 2, 4, 4] + [4, 2, 2, 2, 2, 2, 4, 4];
    Signatures();
    CentralWidth();
    Headed(CENTRAL_SIGNATURE, ws, CdfhValues(c));
    assert CENTRAL_FIELDS == [4] + ws;
  }

  lemma EndIsRecord(e: EndInfo)
    ensures EndFixed(e) == Pack(END_FIELDS, [END_SIGNATURE] + EndValues(e))
    ensures |EndFixed(e)| == 22
  {
    Signatures();
    EndWidth();
    Headed(END_SIGNATURE, [2, 2, 2, 2] + [4, 4, 2], EndValues(e));
    assert END_FIELDS == [4] + ([2, 2, 2, 2] + [4, 4, 2]);
  }

  lemma End64IsRecord(e: EndInfo)
    ensures End64Bytes(e)
         == Pack(END64_FIELDS, [END64_SIGNATURE] + ([44, MIN_VER, MIN_VER, 0, 0] + [e.count, e.count, e.size, e.offset]))
    ensures |End64Bytes(e)| == 56
  {
    Signatures();
    End64Width();
    Headed(END64_SIGNATURE, [8, 2, 2, 4, 4] + [8, 8, 8, 8], [44, MIN_VER, MIN_VER, 0, 0] + [e.count, e.count, e.size, e.offset]);
    assert END64_FIELDS == [4] + ([8, 2, 2, 4, 4] + [8, 8, 8, 8]);
  }

  lemma LocatorIsRecord(e: EndInfo)
    ensures LocatorBytes(e) == Pack(LOCATOR_FIELDS, [LOCATOR_SIGNATURE] + [0, e.endOffset, 0])
    ensures |LocatorBytes(e)| == 20
  {
    Signatures();
    LocatorWidth();
    Headed(LOCATOR_SIGNATURE, [4, 8] + [4], [0, e.endOffset, 0]);
    assert LOCATOR_FIELDS == [4] + ([4, 8] + [4]);
  }

  // ---------- Written sizes are the predicted sizes ----------

  lemma BlockLengths(size: nat, offset: nat)
    ensures |SizesExtra(size)| == 20 && |OffsetExtra(size, offset)| == 28
  {}

  lemma LocLength(loc: Loc, crc: nat)
    ensures |LocBytes(loc, crc)| == LocSize(loc)
  {
    LocIsRecord(loc, crc);
    BlockLengths(loc.fileSize, loc.offset);
  }

  lemma CdfhLength(c: Cdfh)
    ensures |CdfhBytes(c)| == PredictCdfhSize(c.loc.fileSize, |c.loc.name|, c.loc.offset)
  {
    CdfhIsRecord(c);
    BlockLengths(c.loc.fileSize, c.loc.offset);
  }

  lemma EndLength(e: EndInfo)
    ensures |EndBytes(e)| == PredictEndSize(e.size, e.offset, e.count)
  {
    EndIsRecord(e);
    End64IsRecord(e);
    LocatorIsRecord(e);
  }

  // ---------- Reading a directory header ----------

  lemma PackFour(a: nat, b: nat, c: nat, d: nat)
    ensures Pack(SIZES_BLOCK, [a, b, c, d])
         == LittleEndian(a, 2) + (LittleEndian(b, 2) + (LittleEndian(c, 8) + LittleEndian(d, 8)))
  {
    assert SIZES_BLOCK[1..] == [2, 8, 8] && [2, 8, 8][1..] == [8, 8] && [8, 8][1..] == [8] && [8][1..] == [];
    assert [a, b, c, d][1..] == [b, c, d] && [b, c, d][1..] == [c, d] && [c, d][1..] == [d] && [d][1..] == [];
    assert Pack([8], [d]) == LittleEndian(d, 8);
    assert Pack([8, 8], [c, d]) == LittleEndian(c, 8) + LittleEndian(d, 8);
    assert Pack([2, 8, 8], [b, c, d]) == LittleEndian(b, 2) + (LittleEndian(c, 8) + LittleEndian(d, 8));
  }

  lemma PackFive(a: nat, b: nat, c: nat, d: nat, e: nat)
    ensures Pack(OFFSET_BLOCK, [a, b, c, d, e])
         == LittleEndian(a, 2) + (LittleEndian(b, 2) + (LittleEndian(c, 8) + (LittleEndian(d, 8) + LittleEndian(e, 8))))
  {
    assert OFFSET_BLOCK[1..] == [2, 8, 8, 8] && [2, 8, 8, 8][1..] == [8, 8, 8] && [8, 8, 8][1..] == [8, 8];
    assert [8, 8][1..] == [8] && [8][1..] == [];
    assert [a, b, c, d, e][1..] == [b, c, d, e] && [b, c, d, e][1..] == [c, d, e] && [c, d, e][1..] == [d, e];
    assert [d, e][1..] == [e] && [e][1..] == [];
    assert Pack([8], [e]) == LittleEndian(e, 8);
    assert Pack([8, 8], [d, e]) == LittleEndian(d, 8) + LittleEndian(e, 8);
    assert Pack([8, 8, 8], [c, d, e]) == LittleEndian(c, 8) + (LittleEndian(d, 8) + LittleEndian(e, 8));
    assert Pack([2, 8, 8, 8], [b, c, d, e])
        == LittleEndian(b, 2) + (LittleEndian(c, 8) + (LittleEndian(d, 8) + LittleEndian(e, 8)));
  }

  lemma SizesBlock(size: nat)
    ensures Zip64Block(SizesExtra(size)) == Some(LittleEndian(size, 8) + LittleEndian(size, 8))
  {
    Widths();
    FitsIn(ZIP64_TAG, 2);
    FitsIn(16, 2);
    PackFour(ZIP64_TAG, 16, size, size);
    BlockFound(LittleEndian(ZIP64_TAG, 2), LittleEndian(16, 2), LittleEndian(size, 8) + LittleEndian(size, 8));
  }

  lemma OffsetBlock(size: nat, offset: nat)
    ensures Zip64Block(OffsetExtra(size, offset))
         == Some(LittleEndian(size, 8) + (LittleEndian(size, 8) + LittleEndian(offset, 8)))
  {
    Widths();
    FitsIn(ZIP64_TAG, 2);
    FitsIn(24, 2);
    PackFive(ZIP64_TAG, 24, size, size, offset);
    BlockFound(LittleEndian(ZIP64_TAG, 2), LittleEndian(24, 2),
               LittleEndian(size, 8) + (LittleEndian(size, 8) + LittleEndian(offset, 8)));
  }

  lemma WidenFront(x: Octets, rest: Octets)
    requires |x| == 8
    ensures Widen(MAX32, x + rest) == Some((Number(x), rest))
  {
    assert (x + rest)[..8] == x && (x + rest)[8..] == rest;
  }

  /** What a reader makes of the size and offset fields. */
  lemma CdfhSizes(loc: Loc, size: nat, offset: nat)
    requires size == Number(LittleEndian(loc.fileSize, 8)) && offset == Number(LittleEndian(loc.offset, 8))
    ensures WidenSizes(Sizes(CdfhSizeField(loc), CdfhSizeField(loc), CdfhOffsetField(loc)), CdfhExtra(loc))
         == if FarOffset(loc) then Some(Sizes(size, size, offset))
            else if !BigFile(loc) then Some(Sizes(loc.fileSize, loc.fileSize, loc.offset))
            else if loc.offset == MAX32 then None
            else Some(Sizes(size, size, loc.offset))
  {
    var s, o := LittleEndian(loc.fileSize, 8), LittleEndian(loc.offset, 8);
    if FarOffset(loc) {
      OffsetBlock(loc.fileSize, loc.offset);
      WidenFront(s, s + o);
      WidenFront(s, o);
      assert o == o + [];
      WidenFront(o, []);
    } else if BigFile(loc) {
      SizesBlock(loc.fileSize);
      WidenFront(s, s);
      assert s == s + [];
      WidenFront(s, []);
    }
  }

  lemma CdfhFields(c: Cdfh, rest: Octets, i: nat)
    requires i < |CENTRAL_FIELDS|
    ensures |CdfhBytes(c) + rest| >= Width(CENTRAL_FIELDS)
    ensures Field(CENTRAL_FIELDS, CdfhBytes(c) + rest, i)
         == Number(LittleEndian(([CENTRAL_SIGNATURE] + CdfhValues(c))[i], CENTRAL_FIELDS[i]))
  {
    CdfhIsRecord(c);
    FieldOfPack(CENTRAL_FIELDS, [CENTRAL_SIGNATURE] + CdfhValues(c), c.loc.name + CdfhExtra(c.loc) + rest, i);
    Regroup(CdfhFixed(c), c.loc.name, CdfhExtra(c.loc), rest);
  }

  lemma Regroup(a: Octets, b: Octets, c: Octets, d: Octets)
    ensures a + b + c + d == a + (b + c + d)
  {}

  lemma ValuesAt(c: Cdfh)
    ensures var vs := [CENTRAL_SIGNATURE] + CdfhValues(c);
      && vs[2] == MIN_VER && vs[3] == vs[4] == vs[13] == 0 && vs[7] == c.crc && vs[8] == vs[9] == CdfhSizeField(c.loc)
      && vs[10] == |c.loc.name| && vs[11] == CdfhExtraLen(c.loc) && vs[12] == 0 && vs[16] == CdfhOffsetField(c.loc)
  {}

  lemma FieldValue(c: Cdfh, rest: Octets, i: nat, v: nat)
    requires i < |CENTRAL_FIELDS| && v == ([CENTRAL_SIGNATURE] + CdfhValues(c))[i] && v < Pow256(CENTRAL_FIELDS[i])
    ensures |CdfhBytes(c) + rest| >= Width(CENTRAL_FIELDS)
    ensures Field(CENTRAL_FIELDS, CdfhBytes(c) + rest, i) == v
  {
    CdfhFields(c, rest, i);
    FitsIn(v, CENTRAL_FIELDS[i]);
  }

  /** A reader opens the entry: no flag, no method, a version it knows, on the only disk. */
  lemma CdfhOpens(c: Cdfh, rest: Octets)
    ensures |CdfhBytes(c) + rest| >= Width(CENTRAL_FIELDS)
    ensures var d := CdfhBytes(c) + rest;
      && Opens(Field(CENTRAL_FIELDS, d, 2), Field(CENTRAL_FIELDS, d, 3), Field(CENTRAL_FIELDS, d, 4))
      && Field(CENTRAL_FIELDS, d, 13) == 0
  {
    Widths();
    ValuesAt(c);
    FieldValue(c, rest, 2, MIN_VER);
    FieldValue(c, rest, 3, 0);
    FieldValue(c, rest, 4, 0);
    FieldValue(c, rest, 13, 0);
  }

  /** The fixed fields a reader sees. */
  lemma CdfhSeen(c: Cdfh, rest: Octets)
    ensures |CdfhBytes(c) + rest| >= 46 == Width(CENTRAL_FIELDS)
    ensures var d := CdfhBytes(c) + rest;
      && Field(CENTRAL_FIELDS, d, 0) == CENTRAL_SIGNATURE
      && Field(CENTRAL_FIELDS, d, 7) == Number(LittleEndian(c.crc, 4))
      && Field(CENTRAL_FIELDS, d, 8) == Field(CENTRAL_FIELDS, d, 9) == CdfhSizeField(c.loc)
      && Field(CENTRAL_FIELDS, d, 10) == Number(LittleEndian(|c.loc.name|, 2))
      && Field(CENTRAL_FIELDS, d, 11) == |CdfhExtra(c.loc)|
      && Field(CENTRAL_FIELDS, d, 12) == 0
      && Field(CENTRAL_FIELDS, d, 16) == CdfhOffsetField(c.loc)
  {
    CentralWidth();
    Widths();
    ValuesAt(c);
    BlockLengths(c.loc.fileSize, c.loc.offset);
    FieldValue(c, rest, 0, CENTRAL_SIGNATURE);
    CdfhFields(c, rest, 7);
    FieldValue(c, rest, 8, CdfhSizeField(c.loc));
    FieldValue(c, rest, 9, CdfhSizeField(c.loc));
    CdfhFields(c, rest, 10);
    FieldValue(c, rest, 11, CdfhExtraLen(c.loc));
    FieldValue(c, rest, 12, 0);
    FieldValue(c, rest, 16, CdfhOffsetField(c.loc));
  }

  /** When a reader can recover an entry: its values fit, and a big file does not start at 0xFFFFFFFF. */
  predicate Recoverable(c: Cdfh) {
    && |c.loc.name| <= MAX16 && c.crc <= MAX32
    && c.loc.fileSize <= MAX64 && c.loc.offset <= MAX64
    && !(c.loc.fileSize > MAX32 && c.loc.offset == MAX32)
  }

  function ListingOf(c: Cdfh): Listed {
    Listed(c.loc.name, c.loc.fileSize, c.crc, c.loc.offset)
  }

  lemma CdfhParses(c: Cdfh, rest: Octets, size: nat, offset: nat, crc: nat)
    requires |c.loc.name| <= MAX16
    requires size == Number(LittleEndian(c.loc.fileSize, 8)) && offset == Number(LittleEndian(c.loc.offset, 8))
    requires crc == Number(LittleEndian(c.crc, 4))
    ensures ReadCentral(CdfhBytes(c) + rest)
         == if FarOffset(c.loc) then Some((Listed(c.loc.name, size, crc, offset), rest))
            else if !BigFile(c.loc) then Some((Listed(c.loc.name, c.loc.fileSize, crc, c.loc.offset), rest))
            else if c.loc.offset == MAX32 then None
            else Some((Listed(c.loc.name, size, crc, c.loc.offset), rest))
  {
    CdfhSeen(c, rest);
    CdfhOpens(c, rest);
    Widths();
    FitsIn(|c.loc.name|, 2);
    CdfhSizes(c.loc, size, offset);
    CdfhIsRecord(c);
    CentralReads(CdfhBytes(c) + rest, CdfhFixed(c), c.loc.name, CdfhExtra(c.loc), rest, crc,
                 Sizes(CdfhSizeField(c.loc), CdfhSizeField(c.loc), CdfhOffsetField(c.loc)));
  }

  lemma LongNameIsCut(c: Cdfh, rest: Octets)
    ensures var r := ReadCentral(CdfhBytes(c) + rest);
      r.Some? ==> |r.value.0.name| <= MAX16
  {
    Widths();
    CentralWidth();
    CdfhSeen(c, rest);
    NumberRange(LittleEndian(|c.loc.name|, 2));
  }

  lemma Survivals(c: Cdfh)
    ensures Number(LittleEndian(c.loc.fileSize, 8)) == c.loc.fileSize <==> c.loc.fileSize <= MAX64
    ensures Number(LittleEndian(c.loc.offset, 8)) == c.loc.offset <==> c.loc.offset <= MAX64
    ensures Number(LittleEndian(c.crc, 4)) == c.crc <==> c.crc <= MAX32
  {
    Widths();
    NumberSurvives(c.loc.fileSize, 8);
    NumberSurvives(c.loc.offset, 8);
    NumberSurvives(c.crc, 4);
  }

  /**
   * A directory header reads back as its entry exactly when it is recoverable. The failing family is
   * real: a file over 4 GiB whose header starts at 0xFFFFFFFF has an offset field a reader must look
   * up in a ZIP64 block that holds only the sizes.
   */
  lemma CdfhRoundTrip(c: Cdfh, rest: Octets)
    ensures ReadCentral(CdfhBytes(c) + rest) == Some((ListingOf(c), rest)) <==> Recoverable(c)
    ensures var r := ReadCentral(CdfhBytes(c) + rest);
      r.Some? && r.value.0 == ListingOf(c) ==> Recoverable(c)
  {
    if |c.loc.name| <= MAX16 {
      Survivals(c);
      CdfhParses(c, rest, Number(LittleEndian(c.loc.fileSize, 8)), Number(LittleEndian(c.loc.offset, 8)),
                 Number(LittleEndian(c.crc, 4)));
    } else {
      LongNameIsCut(c, rest);
    }
  }

  /** The corner a reader cannot recover. */
  lemma AllOnesOffsetIsLost(name: Octets, size: nat, crc: nat, rest: Octets)
    requires size > MAX32
    ensures ReadCentral(CdfhBytes(Cdfh(Loc(MAX32, name, size), crc)) + rest) != Some((Listed(name, size, crc, MAX32), rest))
  {
    CdfhRoundTrip(Cdfh(Loc(MAX32, name, size), crc), rest);
  }
}
