/** The links of a chain plan on a store: each upload builds on the object its predecessor left. */
module ChainRun {
  import opened Bytes
  import opened Canonical
  import opened ChainArchive
  import opened ChainPlan
  import opened FigmentFormat
  import opened Multipart
  import opened SinglePlan
  import opened Sorting
  import opened ZipReader

  type Segments = seq<ChainPlan.Segment>

  // ---------- What a link can obtain ----------

  type CrcStore = map<FileId, nat>

  /** A header can be written once its CRC is known; bodies are always there. */
  datatype Source = Source(header: FileId -> Option<Octets>, body: FileId -> Octets)

  function SourceOf(cat: Catalog, crcs: CrcStore): Source {
    Source((id: FileId) => if id in crcs then Some(LocalHeader(FileOf(cat, id).name, FileOf(cat, id).Size(), crcs[id])) else None,
           (id: FileId) => FileOf(cat, id).body)
  }

  /** The CRCs in the store are the files' own. */
  ghost predicate Honest(cat: Catalog, crcs: CrcStore) {
    forall id | id in crcs :: crcs[id] == FileOf(cat, id).crc
  }

  ghost predicate Provides(source: Source, c: Contents, ids: set<FileId>) {
    && (forall id | id in ids :: source.header(id) == Some(c.header(id)))
    && (forall id | id in ids :: source.body(id) == c.body(id))
  }

  lemma SourceProvides(cat: Catalog, crcs: CrcStore, ids: set<FileId>)
    requires Honest(cat, crcs) && ids <= crcs.Keys
    ensures Provides(SourceOf(cat, crcs), ContentsOf(cat), ids)
  {}

  function LinkIds(link: Link): set<FileId> {
    match link
    case Bootstrap(anchor, _) => {anchor}
    case AnchorOnly(anchor) => {anchor}
    case AnchorThenAppend(anchor, piece) => {anchor, piece.id}
    case ForwardThenAppend(piece) => {piece.id}
  }

  /** `segment_crc_ids`: what a segment waits for before it builds. */
  function SegmentCrcIds(links: seq<Link>): set<FileId> {
    if links == [] then {} else SegmentCrcIds(links[..|links| - 1]) + LinkIds(links[|links| - 1])
  }

  lemma {:induction false} LinkIdsCovered(links: seq<Link>, i: nat)
    requires i < |links|
    ensures LinkIds(links[i]) <= SegmentCrcIds(links)
  {
    if i < |links| - 1 {
      LinkIdsCovered(links[..|links| - 1], i);
    }
  }

  // ---------- One link as its own multipart upload ----------

  function PieceFrom(source: Source, p: Piece): Option<Octets> {
    match p
    case Header(id) => source.header(id)
    case Body(id) => Some(source.body(id))
  }

  /** A non-last part and the piece behind it. */
  function ThenPiece(source: Source, first: Octets, p: Piece): Option<seq<Octets>> {
    match PieceFrom(source, p)
    case None => None
    case Some(bytes) => Some([first, bytes])
  }

  /** The two parts of the first link; a range that is empty or leaves nothing is refused. */
  function BootstrapParts(header: Option<Octets>, body: Octets, stealLen: nat): Option<seq<Octets>> {
    if header.None? || stealLen == 0 || stealLen >= |body| then None
    else Some([header.value + body[..stealLen], body[stealLen..]])
  }

  /** The parts of one link; `None` for an unknown CRC, a refused range or a missing previous object. */
  function LinkParts(source: Source, link: Link, prev: Option<Octets>): Option<seq<Octets>> {
    match link
    case Bootstrap(anchor, stealLen) => BootstrapParts(source.header(anchor), source.body(anchor), stealLen)
    case AnchorOnly(anchor) => Some([source.body(anchor)])
    case AnchorThenAppend(anchor, piece) => ThenPiece(source, source.body(anchor), piece)
    case ForwardThenAppend(piece) => if prev.None? then None else ThenPiece(source, prev.value, piece)
  }

  /** The uploads of a list of parts, numbered from one. */
  function UploadsOf(parts: seq<Octets>): (log: seq<PartUpload>)
    ensures |log| == |parts|
  {
    seq(|parts|, i requires 0 <= i < |parts| => PartUpload(i + 1, parts[i]))
  }

  /** What completing an upload of these parts yields. */
  function Uploaded(parts: Option<seq<Octets>>): Option<Octets> {
    if parts.None? then None else Complete(Received(UploadsOf(parts.value)), Numbers(|parts.value|))
  }

  function RunLink(source: Source, link: Link, prev: Option<Octets>): Option<Octets> {
    Uploaded(LinkParts(source, link, prev))
  }

  lemma UploadsComplete(parts: seq<Octets>)
    requires parts != []
    ensures Uploaded(Some(parts)) == if MeetsFloor(parts) then Some(Flatten(parts)) else None
  {
    var log := UploadsOf(parts);
    forall n | n in Numbers(|parts|) ensures Sent(log, n) {
      assert log[n - 1].number == n;
    }
    forall i | 0 <= i < |parts| ensures Holds(Received(log), parts, i) {
      HeldAfter(log, parts, i);
    }
    CompletePlanned(Received(log), parts);
  }

  lemma FlattenPair(a: Octets, b: Octets)
    ensures Flatten([a, b]) == a + b && Flatten([a]) == a
  {
    assert [a, b] == [a] + [b] && [a] == [] + [a];
    FlattenAppend([a], b);
    FlattenAppend([], a);
  }

  lemma PairCompletes(a: Octets, b: Octets)
    requires |a| >= PART_FLOOR
    ensures Uploaded(Some([a, b])) == Some(a + b)
  {
    UploadsComplete([a, b]);
    FlattenPair(a, b);
  }

  lemma SoloCompletes(a: Octets)
    ensures Uploaded(Some([a])) == Some(a)
  {
    UploadsComplete([a]);
    FlattenPair(a, []);
  }

  // ---------- Well-formed chains ----------

  ghost predicate FirstLinkSound(c: Contents, link: Link) {
    && !link.ForwardThenAppend?
    && |c.body(link.anchor)| >= PART_FLOOR
    && (link.Bootstrap? ==> StealSound(|c.header(link.anchor)|, |c.body(link.anchor)|, link.stealLen))
  }

  /** The stolen prefix is not empty, leaves something to copy, and fills the part to the floor exactly. */
  ghost predicate StealSound(header: nat, body: nat, stealLen: nat) {
    0 < stealLen < body && header + stealLen == PART_FLOOR
  }

  ghost predicate Chained(c: Contents, links: seq<Link>) {
    && links != [] && FirstLinkSound(c, links[0])
    && forall i | 0 < i < |links| :: links[i].ForwardThenAppend?
  }

  /** A name that fits its 16-bit length leaves something to steal; a big leaves something to copy. */
  lemma LinksChained(cat: Catalog, c: Contents, first: bool, anchor: FileId, pieces: seq<Piece>)
    requires LengthsAgree(cat, c) && IsBig(FileOf(cat, anchor)) && |FileOf(cat, anchor).name| <= MAX16
    ensures Chained(c, LinksOf(cat, first, anchor, pieces))
  {
    assert |c.header(anchor)| == HeaderLen(cat, anchor);
    assert |c.body(anchor)| == BodyLen(cat, anchor);
  }

  lemma BootstrapRuns(header: Octets, body: Octets, stealLen: nat)
    requires StealSound(|header|, |body|, stealLen)
    ensures Uploaded(BootstrapParts(Some(header), body, stealLen)) == Some(header + body)
  {
    PairCompletes(header + body[..stealLen], body[stealLen..]);
    assert (header + body[..stealLen]) + body[stealLen..] == header + body;
  }

  lemma FirstLinkRuns(source: Source, c: Contents, link: Link)
    requires Provides(source, c, LinkIds(link)) && FirstLinkSound(c, link)
    ensures RunLink(source, link, None) == Some(LinkBytes(c, link))
  {
    match link
    case Bootstrap(anchor, n) =>
      BootstrapRuns(c.header(anchor), c.body(anchor), n);
    case AnchorOnly(anchor) =>
      SoloCompletes(c.body(anchor));
    case AnchorThenAppend(anchor, piece) =>
      PairCompletes(c.body(anchor), PieceBytes(c, piece));
  }

  lemma ForwardRuns(source: Source, c: Contents, piece: Piece, prev: Octets)
    requires Provides(source, c, {piece.id}) && |prev| >= PART_FLOOR
    ensures RunLink(source, ForwardThenAppend(piece), Some(prev)) == Some(prev + PieceBytes(c, piece))
  {
    PairCompletes(prev, PieceBytes(c, piece));
  }

  lemma ObjectStep(c: Contents, links: seq<Link>, d: nat)
    requires d < |links|
    ensures ObjectBytes(c, links[..d + 1]) == ObjectBytes(c, links[..d]) + LinkBytes(c, links[d])
  {
    assert links[..d + 1] == links[..d] + [links[d]];
    ObjectAppend(c, links[..d], links[d]);
  }

  lemma {:induction false} ObjectReachesFloor(c: Contents, links: seq<Link>, d: nat)
    requires Chained(c, links) && 0 < d <= |links|
    ensures |ObjectBytes(c, links[..d])| >= PART_FLOOR
  {
    ObjectStep(c, links, d - 1);
    if d > 1 {
      ObjectReachesFloor(c, links, d - 1);
    }
  }

  lemma ProvidesFewer(source: Source, c: Contents, ids: set<FileId>, fewer: set<FileId>)
    requires Provides(source, c, ids) && fewer <= ids
    ensures Provides(source, c, fewer)
  {}

  /** The object a link starts from. */
  ghost function Before(c: Contents, links: seq<Link>, d: nat): Option<Octets>
    requires d <= |links|
  {
    if d == 0 then None else Some(ObjectBytes(c, links[..d]))
  }

  /** Each link of a chain succeeds on the object before it and leaves the object one link longer. */
  lemma LinkStep(source: Source, c: Contents, links: seq<Link>, d: nat)
    requires Chained(c, links) && d < |links| && Provides(source, c, SegmentCrcIds(links))
    ensures RunLink(source, links[d], Before(c, links, d)) == Some(ObjectBytes(c, links[..d + 1]))
  {
    LinkIdsCovered(links, d);
    ProvidesFewer(source, c, SegmentCrcIds(links), LinkIds(links[d]));
    ObjectStep(c, links, d);
    if d == 0 {
      FirstLinkRuns(source, c, links[0]);
      Nothing(LinkBytes(c, links[0]));
    } else {
      ObjectReachesFloor(c, links, d);
      ForwardRuns(source, c, links[d].piece, ObjectBytes(c, links[..d]));
    }
  }

  // ---------- Objects in S3 ----------

  /** Every link writes to a key of its own, so no copy reads the object it writes. */
  datatype Key = FinishedObject(index: nat) | LinkTemp(index: nat, link: nat)

  function OutKey(links: seq<Link>, index: nat, link: nat): Key {
    if link + 1 == |links| then FinishedObject(index) else LinkTemp(index, link)
  }

  type Store = map<Key, Octets>

  function Get(store: Store, key: Key): Option<Octets> {
    if key in store then Some(store[key]) else None
  }

  class S3 {
    var objects: Store

    constructor ()
      ensures objects == map[]
    {
      objects := map[];
    }

    /** One link: create, upload one or two parts, complete. */
    method BuildOneLink(source: Source, link: Link, prev: Option<Key>, out: Key) returns (ok: bool)
      modifies this
      ensures var built := RunLink(source, link, if prev.None? then None else Get(old(objects), prev.value));
        && ok == built.Some?
        && objects == if ok then old(objects)[out := built.value] else old(objects)
    {
      var parts := LinkParts(source, link, if prev.None? then None else Get(objects, prev.value));
      if parts.None? {
        return false;
      }
      var log: seq<PartUpload> := [];
      while |log| < |parts.value|
        invariant |log| <= |parts.value|
        invariant log == UploadsOf(parts.value)[..|log|]
      {
        log := log + [PartUpload(|log| + 1, parts.value[|log|])];
      }
      assert log == UploadsOf(parts.value);
      var completed := Complete(Received(log), Numbers(|parts.value|));
      if completed.None? {
        return false;
      }
      objects := objects[out := completed.value];
      ok := true;
    }

    /** Walks a segment's links, each copying the object of the link before it forward. */
    method BuildSegmentObject(source: Source, ghost c: Contents, index: nat, links: seq<Link>) returns (ok: bool)
      requires Chained(c, links) && Provides(source, c, SegmentCrcIds(links))
      modifies this
      ensures ok
      ensures FinishedObject(index) in objects && objects[FinishedObject(index)] == ObjectBytes(c, links)
      ensures forall key: Key | key.index != index :: Get(objects, key) == Get(old(objects), key)
    {
      var prev: Option<Key> := None;
      var i := 0;
      ok := true;
      while i < |links|
        invariant 0 <= i <= |links| && ok
        invariant prev == if i == 0 then None else Some(OutKey(links, index, i - 1))
        invariant i > 0 ==> Get(objects, OutKey(links, index, i - 1)) == Before(c, links, i)
        invariant forall key: Key | key.index != index :: Get(objects, key) == Get(old(objects), key)
      {
        LinkStep(source, c, links, i);
        ok := BuildOneLink(source, links[i], prev, OutKey(links, index, i));
        if !ok {
          return;
        }
        prev := Some(OutKey(links, index, i));
        i := i + 1;
      }
      assert links[..i] == links;
    }
  }
}
