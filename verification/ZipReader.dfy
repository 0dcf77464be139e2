/** A reader of STORED ZIP archives, written from APPNOTE.TXT and not from any of the writers. */
module ZipReader {
  import opened Bytes

  datatype Option<+T> = None | Some(value: T)

  // Field widths of sections 4.3.7, 4.3.12, 4.3.14, 4.3.15 and 4.3.16.
  const LOCAL_FIELDS: seq<nat> := [4, 2, 2, 2, 2, 2, 4, 4, 4, 2, 2]
  const CENTRAL_FIELDS: seq<nat> := [4, 2, 2, 2, 2, 2, 2, 4, 4] + [4, 2, 2, 2, 2, 2, 4, 4]
  const END64_FIELDS: seq<nat> := [4, 8, 2, 2, 4, 4, 8, 8, 8, 8]
  const LOCATOR_FIELDS: seq<nat> := [4, 4, 8, 4]
  const END_FIELDS: seq<nat> := [4, 2, 2, 2, 2, 4, 4, 2]

  const LOCAL_SIGNATURE: nat := 0x0403_4b50
  const CENTRAL_SIGNATURE: nat := 0x0201_4b50
  const END64_SIGNATURE: nat := 0x0606_4b50
  const LOCATOR_SIGNATURE: nat := 0x0706_4b50
  const END_SIGNATURE: nat := 0x0605_4b50

  const MAX16: nat := 0xFFFF
  const MAX32: nat := 0xFFFF_FFFF
  const MAX64: nat := 0xFFFF_FFFF_FFFF_FFFF
  const ZIP64_TAG: nat := 1

  lemma LocalWidth()
    ensures Width(LOCAL_FIELDS) == 30
  {}

  lemma CentralWidth()
    ensures Width(CENTRAL_FIELDS) == 46
  {
    var front, back := [4, 2, 2, 2, 2, 2, 2, 4, 4], [4, 2, 2, 2, 2, 2, 4, 4];
    WidthConcat(front, back);
  }

  lemma End64Width()
    ensures Width(END64_FIELDS) == 56
  {}

  lemma LocatorWidth()
    ensures Width(LOCATOR_FIELDS) == 20
  {}

  lemma EndWidth()
    ensures Width(END_FIELDS) == 22
  {}

  /** What the central directory says of one entry. */
  datatype Listed = Listed(name: Octets, size: nat, crc: nat, offset: nat)

  // ---------- ZIP64 extended information, section 4.5.3 ----------

  /** The data of the ZIP64 block of an extra field. */
  function Zip64Block(extra: Octets): Option<Octets> {
    if |extra| < 4 then None
    else
      var n := Number(extra[2..4]);
      if |extra| < 4 + n then None
      else if Number(extra[..2]) == ZIP64_TAG then Some(extra[4..4 + n])
      else Zip64Block(extra[4 + n..])
  }

  lemma BlockParts(x: Octets, tag: Octets, len: Octets, data: Octets)
    requires x == tag + (len + data) && |tag| == 2 && |len| == 2
    ensures |x| == 4 + |data| && x[..2] == tag && x[2..4] == len && x[4..4 + |data|] == data
  {}

  lemma BlockInFront(x: Octets, n: nat)
    requires |x| >= 4 + n && Number(x[..2]) == ZIP64_TAG && Number(x[2..4]) == n
    ensures Zip64Block(x) == Some(x[4..4 + n])
  {}

  lemma BlockFound(tag: Octets, len: Octets, data: Octets)
    requires |tag| == 2 && |len| == 2 && Number(tag) == ZIP64_TAG && Number(len) == |data|
    ensures Zip64Block(tag + (len + data)) == Some(data)
  {
    BlockParts(tag + (len + data), tag, len, data);
    BlockInFront(tag + (len + data), |data|);
  }

  /** A field whose 32 bits are all ones is taken from the block, if there is one. */
  function Widen(field: nat, block: Octets): Option<(nat, Octets)> {
    if field != MAX32 then Some((field, block))
    else if |block| < 8 then None
    else Some((Number(block[..8]), block[8..]))
  }

  datatype Sizes = Sizes(uncompressed: nat, compressed: nat, offset: nat)

  function WidenSizes(fields: Sizes, extra: Octets): Option<Sizes> {
    match Zip64Block(extra)
    case None => Some(fields)
    case Some(block) =>
      match Widen(fields.uncompressed, block)
      case None => None
      case Some((uncompressed, afterFirst)) =>
        match Widen(fields.compressed, afterFirst)
        case None => None
        case Some((compressed, afterSecond)) =>
          match Widen(fields.offset, afterSecond)
          case None => None
          case Some((offset, _)) => Some(Sizes(uncompressed, compressed, offset))
  }

  /** Which entries the reader opens: version 4.5 at most, stored, and no flag but the one for UTF-8 names (section 4.4.4). */
  predicate Opens(version: nat, flags: nat, compression: nat) { version <= 45 && (flags == 0 || flags == 0x800) && compression == 0 }

  // ---------- The central directory ----------

  /** Reads the record at the front of `d` and returns what follows it. */
  function ReadCentral(d: Octets): Option<(Listed, Octets)> {
    CentralWidth();
    if |d| < 46 then None
    else
      var nameEnd := 46 + Field(CENTRAL_FIELDS, d, 10);
      var extraEnd := nameEnd + Field(CENTRAL_FIELDS, d, 11);
      var end := extraEnd + Field(CENTRAL_FIELDS, d, 12);
      if Field(CENTRAL_FIELDS, d, 0) != CENTRAL_SIGNATURE || Field(CENTRAL_FIELDS, d, 13) != 0 || |d| < end then None
      else if !Opens(Field(CENTRAL_FIELDS, d, 2), Field(CENTRAL_FIELDS, d, 3), Field(CENTRAL_FIELDS, d, 4)) then None
      else
        var fields := Sizes(Field(CENTRAL_FIELDS, d, 9), Field(CENTRAL_FIELDS, d, 8), Field(CENTRAL_FIELDS, d, 16));
        match WidenSizes(fields, d[nameEnd..extraEnd])
        case None => None
        case Some(z) =>
          if z.uncompressed != z.compressed then None
          else Some((Listed(d[46..nameEnd], z.uncompressed, Field(CENTRAL_FIELDS, d, 7), z.offset), d[end..]))
  }

  /** Reads `count` records and requires them to fill `d`. */
  function ReadEntries(d: Octets, count: nat): Option<seq<Listed>>
    decreases count
  {
    if count == 0 then if d == [] then Some([]) else None
    else
      match ReadCentral(d)
      case None => None
      case Some((entry, rest)) =>
        match ReadEntries(rest, count - 1)
        case None => None
        case Some(entries) => Some([entry] + entries)
  }

  // ---------- The end records ----------

  datatype Directory = Directory(count: nat, size: nat, offset: nat)

  /** The ZIP64 end record of an archive in one piece at a place, if one stands there. */
  function RecordAt(s: Octets, at: nat): Option<Directory> {
    End64Width();
    if |s| < at + 56 then None
    else
      var r := s[at..];
      if Field(END64_FIELDS, r, 0) != END64_SIGNATURE || Field(END64_FIELDS, r, 1) != 44 || Field(END64_FIELDS, r, 3) > 45 then None
      else if Field(END64_FIELDS, r, 4) != 0 || Field(END64_FIELDS, r, 5) != 0 then None
      else if Field(END64_FIELDS, r, 6) != Field(END64_FIELDS, r, 7) then None
      else Some(Directory(Field(END64_FIELDS, r, 7), Field(END64_FIELDS, r, 8), Field(END64_FIELDS, r, 9)))
  }

  /** The ZIP64 end record named by the locator in front of the end record. */
  function ReadEnd64(s: Octets): Option<Directory> {
    LocatorWidth();
    if |s| < 42 then None
    else
      var locator := s[|s| - 42..];
      if Field(LOCATOR_FIELDS, locator, 0) != LOCATOR_SIGNATURE || Field(LOCATOR_FIELDS, locator, 1) != 0 then None
      else RecordAt(s, Field(LOCATOR_FIELDS, locator, 2))
  }

  /** The disk numbers of an archive in one piece; all ones refer to the ZIP64 record. */
  predicate OnePiece(disk: nat, directoryDisk: nat) { disk == directoryDisk && (disk == 0 || disk == MAX16) }

  /** The end record; fields of all ones refer to the ZIP64 record when one is found. */
  function ReadEnd(s: Octets): Option<Directory> {
    EndWidth();
    if |s| < 22 then None
    else
      var e := s[|s| - 22..];
      if Field(END_FIELDS, e, 0) != END_SIGNATURE || Field(END_FIELDS, e, 7) != 0 then None
      else if Field(END_FIELDS, e, 3) != Field(END_FIELDS, e, 4) || !OnePiece(Field(END_FIELDS, e, 1), Field(END_FIELDS, e, 2)) then None
      else
        var classic := Directory(Field(END_FIELDS, e, 4), Field(END_FIELDS, e, 5), Field(END_FIELDS, e, 6));
        if classic.count == MAX16 || classic.size == MAX32 || classic.offset == MAX32 then
          match ReadEnd64(s)
          case None => Some(classic)
          case Some(wide) => Some(wide)
        else Some(classic)
  }

  function ReadDirectory(s: Octets): Option<seq<Listed>> {
    match ReadEnd(s)
    case None => None
    case Some(end) =>
      if |s| < end.offset + end.size then None
      else ReadEntries(s[end.offset..end.offset + end.size], end.count)
  }

  // ---------- Entry contents ----------

  /** What a local header's size fields, widened by its extra field, have to say of an entry. */
  predicate SizesSay(compressed: nat, uncompressed: nat, extra: Octets, size: nat) {
    WidenSizes(Sizes(uncompressed, compressed, 0), extra) == Some(Sizes(size, size, 0))
  }

  /** The body behind the local header at the front of `h`, if the header agrees with the directory in every field. */
  function BodyBehind(h: Octets, entry: Listed): Option<Octets>
    requires |h| >= 30
  {
    LocalWidth();
    var nameEnd := 30 + Field(LOCAL_FIELDS, h, 9);
    var start := nameEnd + Field(LOCAL_FIELDS, h, 10);
    if Field(LOCAL_FIELDS, h, 0) != LOCAL_SIGNATURE then None
    else if !Opens(Field(LOCAL_FIELDS, h, 1), Field(LOCAL_FIELDS, h, 2), Field(LOCAL_FIELDS, h, 3)) then None
    else if Field(LOCAL_FIELDS, h, 6) != entry.crc || |h| < start + entry.size then None
    else if h[30..nameEnd] != entry.name then None
    else if !SizesSay(Field(LOCAL_FIELDS, h, 7), Field(LOCAL_FIELDS, h, 8), h[nameEnd..start], entry.size) then None
    else Some(h[start..start + entry.size])
  }

  function ReadBody(s: Octets, entry: Listed): Option<Octets> {
    if |s| < entry.offset + 30 then None else BodyBehind(s[entry.offset..], entry)
  }

  // ---------- What a writer has to provide ----------

  /** A directory record reads as `listed` when `sound` holds, and never otherwise. */
  ghost predicate RecordReads(record: Octets, listed: Listed, sound: bool) {
    forall rest: Octets ::
      && (sound ==> ReadCentral(record + rest) == Some((listed, rest)))
      && (!sound ==> ReadCentral(record + rest).None? || ReadCentral(record + rest).value.0 != listed)
  }

  lemma ReadEntriesCons(d: Octets, first: Listed, rest: Octets, others: seq<Listed>, sound: bool)
    requires sound ==> ReadCentral(d) == Some((first, rest))
    requires !sound ==> ReadCentral(d).None? || ReadCentral(d).value.0 != first
    ensures ReadEntries(d, |others| + 1) == Some([first] + others)
       <==> sound && ReadEntries(rest, |others|) == Some(others)
  {
    if ReadCentral(d).Some? {
      var (entry, after) := ReadCentral(d).value;
      var tail := ReadEntries(after, |others|);
      if tail.Some? && [entry] + tail.value == [first] + others {
        assert ([entry] + tail.value)[0] == first && ([entry] + tail.value)[1..] == others;
        assert tail.value == others;
      }
    }
  }

  predicate AllTrue(sound: seq<bool>) {
    forall i | 0 <= i < |sound| :: sound[i]
  }

  lemma AllTrueSplits(sound: seq<bool>)
    requires |sound| > 0
    ensures AllTrue(sound) <==> sound[0] && AllTrue(sound[1..])
  {
    assert forall i | 0 < i < |sound| :: sound[i] == sound[1..][i - 1];
  }

  lemma RecordReadsCons(d: Octets, record: Octets, rest: Octets, first: Listed, others: seq<Listed>, sound: bool)
    requires RecordReads(record, first, sound) && d == record + rest
    ensures ReadEntries(d, |others| + 1) == Some([first] + others)
       <==> sound && ReadEntries(rest, |others|) == Some(others)
  {
    ReadEntriesCons(record + rest, first, rest, others, sound);
  }

  /** A directory of such records reads as the full listing exactly when all of them are sound. */
  lemma {:induction false} DirectoryReads(records: seq<Octets>, listings: seq<Listed>, sound: seq<bool>)
    requires |records| == |listings| == |sound|
    requires forall i | 0 <= i < |records| :: RecordReads(records[i], listings[i], sound[i])
    ensures ReadEntries(Flatten(records), |records|) == Some(listings)
       <==> AllTrue(sound)
  {
    if records != [] {
      DirectoryReads(records[1..], listings[1..], sound[1..]);
      assert listings == [listings[0]] + listings[1..];
      RecordReadsCons(Flatten(records), records[0], Flatten(records[1..]), listings[0], listings[1..], sound[0]);
      AllTrueSplits(sound);
    }
  }

  /** A local header announces `name`, `crc` and the size field twice, with `extra` between the name and the body. */
  ghost predicate HeaderReads(header: Octets, name: Octets, crc: nat, size: nat, extra: Octets) {
    && |header| == 30 + |name| + |extra|
    && header[30..30 + |name|] == name && header[30 + |name|..] == extra
    && forall rest: Octets :: HeaderFields(header + rest, |name|, crc, size, |extra|)
  }

  ghost predicate HeaderFields(h: Octets, nameLen: nat, crc: nat, size: nat, extraLen: nat) {
    && Width(LOCAL_FIELDS) == 30 <= |h|
    && Field(LOCAL_FIELDS, h, 0) == LOCAL_SIGNATURE
    && Opens(Field(LOCAL_FIELDS, h, 1), Field(LOCAL_FIELDS, h, 2), Field(LOCAL_FIELDS, h, 3))
    && Field(LOCAL_FIELDS, h, 6) == crc
    && Field(LOCAL_FIELDS, h, 7) == Field(LOCAL_FIELDS, h, 8) == size
    && Field(LOCAL_FIELDS, h, 9) == nameLen
    && Field(LOCAL_FIELDS, h, 10) == extraLen
  }

  /** A listed entry's body is found behind its local header exactly when the header's sizes say so. */
  lemma BodyReads(s: Octets, listed: Listed, size: nat, extra: Octets, header: Octets, body: Octets, rest: Octets)
    requires listed.offset <= |s| && s[listed.offset..] == header + (body + rest)
    requires HeaderReads(header, listed.name, listed.crc, size, extra) && listed.size == |body|
    ensures ReadBody(s, listed) == Some(body) <==> SizesSay(size, size, extra, |body|)
  {
    var h := header + (body + rest);
    assert HeaderFields(h, |listed.name|, listed.crc, size, |extra|);
    HeaderParts(header, |listed.name|, body, rest);
    BodySeen(h, listed, size, extra, body);
  }

  lemma BodySeen(h: Octets, listed: Listed, size: nat, extra: Octets, body: Octets)
    requires HeaderFields(h, |listed.name|, listed.crc, size, |extra|) && listed.size == |body|
    requires var start := 30 + |listed.name| + |extra|;
      && start + |body| <= |h| && h[30..30 + |listed.name|] == listed.name
      && h[30 + |listed.name|..start] == extra && h[start..start + |body|] == body
    ensures BodyBehind(h, listed) == Some(body) <==> SizesSay(size, size, extra, |body|)
  {}

  lemma HeaderParts(header: Octets, nameLen: nat, body: Octets, rest: Octets)
    requires 30 + nameLen <= |header|
    ensures (header + (body + rest))[30..30 + nameLen] == header[30..30 + nameLen]
    ensures (header + (body + rest))[30 + nameLen..|header|] == header[30 + nameLen..]
    ensures (header + (body + rest))[|header|..|header| + |body|] == body
  {}

  // ---------- Where things lie in an archive ----------

  /** Where the variable parts of a record lie. */
  lemma VariableParts(fixed: Octets, name: Octets, extra: Octets, rest: Octets)
    ensures var d := fixed + name + extra + rest;
            var nameEnd := |fixed| + |name|;
            var end := nameEnd + |extra|;
      d[|fixed|..nameEnd] == name && d[nameEnd..end] == extra && d[end..] == rest
  {}

  /** What a directory record reads as, once its fixed fields are known. */
  lemma CentralReads(d: Octets, fixed: Octets, name: Octets, extra: Octets, rest: Octets, crc: nat, fields: Sizes)
    requires d == fixed + name + extra + rest && |fixed| == 46 == Width(CENTRAL_FIELDS) <= |d|
    requires Field(CENTRAL_FIELDS, d, 0) == CENTRAL_SIGNATURE && Field(CENTRAL_FIELDS, d, 13) == 0
    requires Opens(Field(CENTRAL_FIELDS, d, 2), Field(CENTRAL_FIELDS, d, 3), Field(CENTRAL_FIELDS, d, 4))
    requires Field(CENTRAL_FIELDS, d, 10) == |name| && Field(CENTRAL_FIELDS, d, 11) == |extra| && Field(CENTRAL_FIELDS, d, 12) == 0
    requires Field(CENTRAL_FIELDS, d, 7) == crc
    requires fields == Sizes(Field(CENTRAL_FIELDS, d, 9), Field(CENTRAL_FIELDS, d, 8), Field(CENTRAL_FIELDS, d, 16))
    ensures ReadCentral(d)
         == match WidenSizes(fields, extra)
            case None => None
            case Some(z) =>
              if z.uncompressed != z.compressed then None
              else Some((Listed(name, z.uncompressed, crc, z.offset), rest))
  {
    VariableParts(fixed, name, extra, rest);
  }

  lemma TailSlices(before: Octets, a: Octets, b: Octets, c: Octets)
    requires |a| == 56 && |b| == 20 && |c| == 22
    ensures var s := before + (a + b + c);
      && s[|s| - 22..] == c && s[|s| - 42..] == b + c && s[|before|..] == a + (b + c)
  {}

  lemma DirectoryLies(region: Octets, directory: Octets, end: Octets)
    ensures (region + (directory + end))[|region|..|region| + |directory|] == directory
    ensures region + (directory + end) == (region + directory) + end
  {}

  /** End records that name the directory lead the reader to exactly its bytes. */
  lemma SlicesAgree(region: Octets, directory: Octets, end: Octets, archive: Octets, e: Directory)
    requires archive == region + (directory + end) && e.offset == |region| && e.size == |directory|
    requires ReadEnd((region + directory) + end) == Some(e)
    ensures ReadDirectory(archive) == ReadEntries(directory, e.count)
  {
    DirectoryLies(region, directory, end);
  }

  lemma RegionThenTrailer(region: Octets, at: nat, header: Octets, body: Octets, rest: Octets, trailer: Octets)
    requires at <= |region| && region[at..] == header + body + rest
    ensures (region + trailer)[at..] == header + (body + (rest + trailer))
  {
    assert (region + trailer)[at..] == region[at..] + trailer;
  }
}
