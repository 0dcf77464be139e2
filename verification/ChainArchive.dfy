/** What a chain plan builds in S3: one object per segment, link by link, stitched into the archive. */
module ChainArchive {
  import opened Arithmetic
  import opened Bytes
  import opened Canonical
  import opened ChainPlan
  import opened FigmentFormat
  import opened Multipart
  import opened SinglePlan
  import opened Sorting
  import opened ZipReader
  import Single = SingleArchive

  // ---------- The meaning of links ----------

  /** The two byte strings a plan can name: a file's local header and its body. */
  datatype Contents = Contents(header: FileId -> Octets, body: FileId -> Octets)

  function ContentsOf(cat: Catalog): Contents {
    Contents((id: FileId) => FileOf(cat, id).Header(), (id: FileId) => FileOf(cat, id).body)
  }

  function PieceBytes(c: Contents, p: Piece): Octets {
    match p
    case Header(id) => c.header(id)
    case Body(id) => c.body(id)
  }

  function PiecesBytes(c: Contents, pieces: seq<Piece>): Octets {
    if pieces == [] then []
    else PiecesBytes(c, pieces[..|pieces| - 1]) + PieceBytes(c, pieces[|pieces| - 1])
  }

  /** What a link adds to its segment's object. */
  function LinkBytes(c: Contents, link: Link): Octets {
    match link
    case Bootstrap(anchor, _) => c.header(anchor) + c.body(anchor)
    case AnchorOnly(anchor) => c.body(anchor)
    case AnchorThenAppend(anchor, piece) => c.body(anchor) + PieceBytes(c, piece)
    case ForwardThenAppend(piece) => PieceBytes(c, piece)
  }

  /** The object after a chain of links. */
  function ObjectBytes(c: Contents, links: seq<Link>): Octets {
    if links == [] then []
    else ObjectBytes(c, links[..|links| - 1]) + LinkBytes(c, links[|links| - 1])
  }

  /** Header and body of every ordered file. */
  function Spell(c: Contents, order: seq<FileId>): Octets {
    if order == [] then []
    else Spell(c, order[..|order| - 1]) + c.header(order[|order| - 1]) + c.body(order[|order| - 1])
  }

  /** `region` grows by one header and one body with every file. */
  ghost predicate GrowsBy(c: Contents, region: seq<FileId> -> Octets, front: seq<FileId>, id: FileId) {
    region(front + [id]) == region(front) + c.header(id) + c.body(id)
  }

  lemma {:induction false} SpellIsOnly(c: Contents, region: seq<FileId> -> Octets, order: seq<FileId>)
    requires region([]) == [] && forall front, id :: GrowsBy(c, region, front, id)
    ensures Spell(c, order) == region(order)
  {
    if order != [] {
      var front, last := order[..|order| - 1], order[|order| - 1];
      SpellIsOnly(c, region, front);
      assert GrowsBy(c, region, front, last) && order == front + [last];
    }
  }

  lemma SpellIsRegion(cat: Catalog, order: seq<FileId>)
    ensures Spell(ContentsOf(cat), order) == RegionOf(cat, order)
  {
    var c, region := ContentsOf(cat), (o: seq<FileId>) => RegionOf(cat, o);
    forall front, id ensures GrowsBy(c, region, front, id) {
      RegionOfAppend(cat, front, id);
    }
    SpellIsOnly(c, region, order);
  }

  // ---------- One segment's object ----------

  lemma ObjectAppend(c: Contents, links: seq<Link>, link: Link)
    ensures ObjectBytes(c, links + [link]) == ObjectBytes(c, links) + LinkBytes(c, link)
  {
    assert (links + [link])[..|links|] == links;
  }

  lemma PiecesAppend(c: Contents, pieces: seq<Piece>, p: Piece)
    ensures PiecesBytes(c, pieces + [p]) == PiecesBytes(c, pieces) + PieceBytes(c, p)
  {
    assert (pieces + [p])[..|pieces|] == pieces;
  }

  lemma SpellAppend(c: Contents, order: seq<FileId>, id: FileId)
    ensures Spell(c, order + [id]) == Spell(c, order) + c.header(id) + c.body(id)
  {
    assert (order + [id])[..|order|] == order;
  }

  lemma ForwardsLast(first: Link, pieces: seq<Piece>)
    requires pieces != []
    ensures [first] + Forwards(pieces)
         == ([first] + Forwards(pieces[..|pieces| - 1])) + [ForwardThenAppend(pieces[|pieces| - 1])]
  {}

  lemma SoloObject(c: Contents, first: Link)
    ensures ObjectBytes(c, [first]) == LinkBytes(c, first)
  {
    ObjectAppend(c, [], first);
    assert [] + [first] == [first];
    Nothing(LinkBytes(c, first));
  }

  lemma {:induction false} ForwardBytes(c: Contents, first: Link, pieces: seq<Piece>)
    ensures ObjectBytes(c, [first] + Forwards(pieces)) == LinkBytes(c, first) + PiecesBytes(c, pieces)
  {
    if pieces == [] {
      assert [first] + Forwards(pieces) == [first];
      SoloObject(c, first);
      Nothing(LinkBytes(c, first));
    } else {
      var front, p := pieces[..|pieces| - 1], pieces[|pieces| - 1];
      ForwardBytes(c, first, front);
      ForwardsLast(first, pieces);
      ObjectAppend(c, [first] + Forwards(front), ForwardThenAppend(p));
      Reassociate(LinkBytes(c, first), PiecesBytes(c, front), PieceBytes(c, p));
    }
  }

  lemma {:induction false} PiecesSplit(c: Contents, first: Piece, rest: seq<Piece>)
    ensures PiecesBytes(c, [first] + rest) == PieceBytes(c, first) + PiecesBytes(c, rest)
  {
    if rest == [] {
      PiecesAppend(c, [], first);
      assert [] + [first] == [first] + rest;
      Nothing(PieceBytes(c, first));
    } else {
      var front, p := rest[..|rest| - 1], rest[|rest| - 1];
      PiecesSplit(c, first, front);
      assert [first] + rest == ([first] + front) + [p];
      PiecesAppend(c, [first] + front, p);
      Reassociate(PieceBytes(c, first), PiecesBytes(c, front), PieceBytes(c, p));
    }
  }

  lemma FirstObject(c: Contents, anchor: FileId, stealLen: nat, pieces: seq<Piece>)
    ensures ObjectBytes(c, [Bootstrap(anchor, stealLen)] + Forwards(pieces))
         == c.header(anchor) + c.body(anchor) + PiecesBytes(c, pieces)
  {
    ForwardBytes(c, Bootstrap(anchor, stealLen), pieces);
  }

  lemma LaterObject(c: Contents, anchor: FileId, first: Piece, rest: seq<Piece>)
    ensures ObjectBytes(c, [AnchorThenAppend(anchor, first)] + Forwards(rest))
         == c.body(anchor) + PiecesBytes(c, [first] + rest)
  {
    ForwardBytes(c, AnchorThenAppend(anchor, first), rest);
    PiecesSplit(c, first, rest);
    Reassociate(c.body(anchor), PieceBytes(c, first), PiecesBytes(c, rest));
  }

  lemma HeadAndTail(pieces: seq<Piece>)
    requires pieces != []
    ensures pieces == [pieces[0]] + pieces[1..]
  {}

  /** A segment's object: the big (with its header only in the first segment) and the segment's pieces. */
  lemma SegmentObject(cat: Catalog, c: Contents, first: bool, anchor: FileId, pieces: seq<Piece>)
    ensures ObjectBytes(c, LinksOf(cat, first, anchor, pieces))
         == (if first then c.header(anchor) else []) + c.body(anchor) + PiecesBytes(c, pieces)
  {
    Nothing(c.body(anchor));
    if first {
      FirstObject(c, anchor, Minus(PART_FLOOR, HeaderLen(cat, anchor)), pieces);
    } else if pieces == [] {
      SoloObject(c, AnchorOnly(anchor));
    } else {
      LaterObject(c, anchor, pieces[0], pieces[1..]);
      HeadAndTail(pieces);
    }
  }

  // ---------- The objects tile the body region ----------

  /** The finished object of every segment. */
  function Objects(c: Contents, segments: seq<ChainPlan.Segment>): (objects: seq<Octets>)
    ensures |objects| == |segments|
  {
    seq(|segments|, k requires 0 <= k < |segments| => ObjectBytes(c, segments[k].links))
  }

  /** The header that has already ridden the tail of the object before segment `k`. */
  function Lead(c: Contents, buckets: Buckets, k: nat): Octets
    requires Anchored(buckets)
  {
    if 0 < k < |buckets| then c.header(buckets[k][0]) else []
  }

  lemma AppendTwo(pieces: seq<Piece>, a: Piece, b: Piece)
    ensures pieces + [a, b] == (pieces + [a]) + [b]
  {}

  lemma TwoPieces(c: Contents, pieces: seq<Piece>, id: FileId)
    ensures PiecesBytes(c, pieces + [Header(id), Body(id)]) == PiecesBytes(c, pieces) + c.header(id) + c.body(id)
  {
    PiecesAppend(c, pieces, Header(id));
    PiecesAppend(c, pieces + [Header(id)], Body(id));
    AppendTwo(pieces, Header(id), Body(id));
  }

  lemma ReassociateFile(a: Octets, b: Octets, header: Octets, body: Octets)
    ensures (a + b) + header + body == a + (b + header + body)
  {}

  lemma {:induction false} SmallsSpell(c: Contents, order: seq<FileId>, smalls: seq<FileId>)
    ensures Spell(c, order + smalls) == Spell(c, order) + PiecesBytes(c, SmallPieces(smalls))
  {
    if smalls == [] {
      assert order + smalls == order;
      Nothing(Spell(c, order));
    } else {
      var front, last := smalls[..|smalls| - 1], smalls[|smalls| - 1];
      SmallsSpell(c, order, front);
      SpellAppend(c, order + front, last);
      assert order + smalls == (order + front) + [last];
      TwoPieces(c, SmallPieces(front), last);
      ReassociateFile(Spell(c, order), PiecesBytes(c, SmallPieces(front)), c.header(last), c.body(last));
    }
  }

  lemma BucketSpells(c: Contents, order: seq<FileId>, anchor: FileId, smalls: seq<FileId>)
    ensures Spell(c, order + ([anchor] + smalls))
         == Spell(c, order) + (c.header(anchor) + c.body(anchor)) + PiecesBytes(c, SmallPieces(smalls))
  {
    SpellAppend(c, order, anchor);
    Reassociate(Spell(c, order), c.header(anchor), c.body(anchor));
    SmallsSpell(c, order + [anchor], smalls);
    assert order + ([anchor] + smalls) == (order + [anchor]) + smalls;
  }

  lemma PiecesWithNext(c: Contents, buckets: Buckets, k: nat, smalls: seq<FileId>)
    requires Anchored(buckets) && k < |buckets|
    ensures PiecesBytes(c, PiecesOf(smalls, NextBig(buckets, k)))
         == PiecesBytes(c, SmallPieces(smalls)) + Lead(c, buckets, k + 1)
  {
    if k + 1 < |buckets| {
      PiecesAppend(c, SmallPieces(smalls), Header(buckets[k + 1][0]));
    } else {
      assert SmallPieces(smalls) + [] == SmallPieces(smalls);
      Nothing(PiecesBytes(c, SmallPieces(smalls)));
    }
  }

  lemma TileStep(done: Octets, whole: Octets, region: Octets, lead: Octets, own: Octets, file: Octets, smalls: Octets, next: Octets)
    requires done == region + lead && whole == own + (smalls + next)
    requires lead + own == file
    ensures done + whole == (region + file + smalls) + next
  {
    assert done + own == region + file;
    assert done + whole == (done + own) + smalls + next;
  }

  /** The object of segment `k`, with the header that rides ahead at its end. */
  lemma ObjectAt(cat: Catalog, c: Contents, buckets: Buckets, k: nat, anchor: FileId, smalls: seq<FileId>)
    requires Anchored(buckets) && k < |buckets| && buckets[k] == [anchor] + smalls
    ensures ObjectBytes(c, SegmentAt(cat, buckets, k).links)
         == ((if k == 0 then c.header(anchor) else []) + c.body(anchor))
          + (PiecesBytes(c, SmallPieces(smalls)) + Lead(c, buckets, k + 1))
  {
    assert buckets[k][1..] == smalls;
    SegmentObject(cat, c, k == 0, anchor, PiecesOf(smalls, NextBig(buckets, k)));
    PiecesWithNext(c, buckets, k, smalls);
  }

  lemma LeadAndOwn(header: Octets, body: Octets)
    ensures [] + (header + body) == header + body && header + ([] + body) == header + body
  {}

  lemma BucketSplits(buckets: Buckets, k: nat)
    requires Anchored(buckets) && k < |buckets|
    ensures buckets[k] == [buckets[k][0]] + buckets[k][1..]
  {}

  lemma OrderSpells(c: Contents, buckets: Buckets, k: nat)
    requires Anchored(buckets) && k < |buckets|
    ensures Spell(c, OrderOf(buckets, k + 1))
         == Spell(c, OrderOf(buckets, k)) + (c.header(buckets[k][0]) + c.body(buckets[k][0]))
          + PiecesBytes(c, SmallPieces(buckets[k][1..]))
  {
    BucketSplits(buckets, k);
    BucketSpells(c, OrderOf(buckets, k), buckets[k][0], buckets[k][1..]);
  }

  /** What object `k` must hold: its own bucket, less the header before it, plus the header after it. */
  ghost predicate Holding(c: Contents, buckets: Buckets, k: nat, whole: Octets)
    requires Anchored(buckets) && k < |buckets|
  {
    var anchor := buckets[k][0];
    whole == ((if k == 0 then c.header(anchor) else []) + c.body(anchor))
             + (PiecesBytes(c, SmallPieces(buckets[k][1..])) + Lead(c, buckets, k + 1))
  }

  lemma SegmentHolds(cat: Catalog, c: Contents, buckets: Buckets, k: nat)
    requires Anchored(buckets) && k < |buckets|
    ensures Holding(c, buckets, k, ObjectBytes(c, SegmentAt(cat, buckets, k).links))
  {
    BucketSplits(buckets, k);
    ObjectAt(cat, c, buckets, k, buckets[k][0], buckets[k][1..]);
  }

  /** One more object is one more bucket of the region. */
  lemma TileNext(c: Contents, buckets: Buckets, k: nat, done: Octets, region: Octets, whole: Octets)
    requires Anchored(buckets) && k < |buckets| && done == region + Lead(c, buckets, k)
    requires Holding(c, buckets, k, whole)
    ensures done + whole
         == (region + (c.header(buckets[k][0]) + c.body(buckets[k][0])) + PiecesBytes(c, SmallPieces(buckets[k][1..])))
          + Lead(c, buckets, k + 1)
  {
    var anchor, smalls := buckets[k][0], buckets[k][1..];
    LeadAndOwn(c.header(anchor), c.body(anchor));
    TileStep(done, whole, region, Lead(c, buckets, k),
             (if k == 0 then c.header(anchor) else []) + c.body(anchor), c.header(anchor) + c.body(anchor),
             PiecesBytes(c, SmallPieces(smalls)), Lead(c, buckets, k + 1));
  }

  lemma ObjectTiles(c: Contents, buckets: Buckets, objects: seq<Octets>, k: nat)
    requires Anchored(buckets) && k < |buckets| == |objects| && Holding(c, buckets, k, objects[k])
    requires Flatten(objects[..k]) == Spell(c, OrderOf(buckets, k)) + Lead(c, buckets, k)
    ensures Flatten(objects[..k + 1]) == Spell(c, OrderOf(buckets, k + 1)) + Lead(c, buckets, k + 1)
  {
    FlattenNext(objects, k);
    OrderSpells(c, buckets, k);
    TileNext(c, buckets, k, Flatten(objects[..k]), Spell(c, OrderOf(buckets, k)), objects[k]);
  }

  /**
   * The first `k` objects hold the canonical region of the first `k` buckets, plus the header that
   * rides ahead for the next big.
   */
  lemma {:induction false} ObjectsTile(c: Contents, buckets: Buckets, objects: seq<Octets>, k: nat)
    requires Anchored(buckets) && k <= |buckets| == |objects|
    requires forall j | 0 <= j < |buckets| :: Holding(c, buckets, j, objects[j])
    ensures Flatten(objects[..k]) == Spell(c, OrderOf(buckets, k)) + Lead(c, buckets, k)
  {
    if k == 0 {
      Nothing([]);
    } else {
      ObjectsTile(c, buckets, objects, k - 1);
      ObjectTiles(c, buckets, objects, k - 1);
    }
  }

  lemma ObjectsHold(cat: Catalog, c: Contents, buckets: Buckets, objects: seq<Octets>)
    requires Anchored(buckets) && objects == Objects(c, SegmentsOf(cat, buckets, |buckets|))
    ensures forall j | 0 <= j < |buckets| :: Holding(c, buckets, j, objects[j])
  {
    forall j | 0 <= j < |buckets| ensures Holding(c, buckets, j, objects[j]) {
      SegmentHolds(cat, c, buckets, j);
    }
  }

  lemma AllTiled(c: Contents, buckets: Buckets, objects: seq<Octets>)
    requires Anchored(buckets) && |buckets| == |objects|
    requires forall j | 0 <= j < |buckets| :: Holding(c, buckets, j, objects[j])
    ensures Flatten(objects) == Spell(c, OrderOf(buckets, |buckets|))
  {
    ObjectsTile(c, buckets, objects, |buckets|);
    assert objects[..|buckets|] == objects;
    Nothing(Spell(c, OrderOf(buckets, |buckets|)));
  }

  lemma StitchSpells(cat: Catalog, c: Contents, buckets: Buckets)
    requires Anchored(buckets)
    ensures Flatten(Objects(c, SegmentsOf(cat, buckets, |buckets|))) == Spell(c, OrderOf(buckets, |buckets|))
  {
    var objects := Objects(c, SegmentsOf(cat, buckets, |buckets|));
    ObjectsHold(cat, c, buckets, objects);
    AllTiled(c, buckets, objects);
  }

  /** Stitched in index order, the segment objects are the canonical body region. */
  lemma StitchTheorem(cat: Catalog, buckets: Buckets)
    requires Anchored(buckets)
    ensures Flatten(Objects(ContentsOf(cat), SegmentsOf(cat, buckets, |buckets|))) == RegionOf(cat, OrderOf(buckets, |buckets|))
  {
    StitchSpells(cat, ContentsOf(cat), buckets);
    SpellIsRegion(cat, OrderOf(buckets, |buckets|));
  }

  // ---------- Planned lengths ----------

  ghost predicate LengthsAgree(cat: Catalog, c: Contents) {
    && (forall id :: |c.header(id)| == HeaderLen(cat, id))
    && (forall id :: |c.body(id)| == BodyLen(cat, id))
  }

  lemma ContentsLengths(cat: Catalog)
    ensures LengthsAgree(cat, ContentsOf(cat))
  {
    forall id: FileId ensures |ContentsOf(cat).header(id)| == HeaderLen(cat, id) {
      HeaderLength(FileOf(cat, id));
    }
  }

  lemma {:induction false} PiecesLength(cat: Catalog, c: Contents, pieces: seq<Piece>)
    requires LengthsAgree(cat, c)
    ensures |PiecesBytes(c, pieces)| == PiecesLen(cat, pieces)
  {
    if pieces != [] {
      PiecesLength(cat, c, pieces[..|pieces| - 1]);
    }
  }

  /** `object_len` is the length of the object the links build. */
  lemma ObjectLength(cat: Catalog, c: Contents, buckets: Buckets, k: nat)
    requires LengthsAgree(cat, c) && Anchored(buckets) && k < |buckets|
    ensures |ObjectBytes(c, SegmentAt(cat, buckets, k).links)| == SegmentAt(cat, buckets, k).objectLen
  {
    var pieces := PiecesOf(buckets[k][1..], NextBig(buckets, k));
    SegmentObject(cat, c, k == 0, buckets[k][0], pieces);
    PiecesLength(cat, c, pieces);
  }

  function LengthTotal(segments: seq<ChainPlan.Segment>): nat {
    if segments == [] then 0 else LengthTotal(segments[..|segments| - 1]) + segments[|segments| - 1].objectLen
  }

  lemma {:induction false} LengthsAdd(segments: seq<ChainPlan.Segment>, objects: seq<Octets>)
    requires |segments| == |objects| && forall k | 0 <= k < |segments| :: |objects[k]| == segments[k].objectLen
    ensures LengthTotal(segments) == |Flatten(objects)|
  {
    if segments != [] {
      var last := |segments| - 1;
      LengthsAdd(segments[..last], objects[..last]);
      FlattenNext(objects, last);
      assert objects[..last + 1] == objects;
    }
  }

  /** The planned object lengths add up to the directory's offset. */
  lemma TilingTheorem(cat: Catalog, bigs: seq<SourceFile>, smalls: seq<SourceFile>)
    requires bigs != []
    ensures var plan := PlanFrom(cat, bigs, smalls);
      LengthTotal(plan.segments) == plan.cdOffset == |RegionOf(cat, plan.order)|
  {
    var buckets := Spread(bigs, smalls);
    ContentsLengths(cat);
    var c, segments := ContentsOf(cat), SegmentsOf(cat, buckets, |buckets|);
    forall k | 0 <= k < |segments| ensures |Objects(c, segments)[k]| == segments[k].objectLen {
      ObjectLength(cat, c, buckets, k);
    }
    LengthsAdd(segments, Objects(c, segments));
    StitchTheorem(cat, buckets);
    Single.RunningTotalIsRegion(cat, OrderOf(buckets, |buckets|));
  }
}
