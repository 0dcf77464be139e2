/** The Python sink that cuts a byte stream into multipart parts, as a list of chunks. */
module MultipartSink {
  import opened Bytes
  import opened Multipart
  import opened Sorting
  import opened ZipReader

  const UPLOAD_PART_SIZE: nat := 8 * 1024 * 1024

  /** The bytes of the dispatched parts, in dispatch order. */
  function PartBytes(parts: seq<PartUpload>): seq<Octets> {
    seq(|parts|, i requires 0 <= i < |parts| => parts[i].bytes)
  }

  lemma MoveHead(pieces: seq<Octets>, chunks: seq<Octets>)
    requires chunks != []
    ensures Flatten(pieces + [chunks[0]]) + Flatten(chunks[1..]) == Flatten(pieces) + Flatten(chunks)
  {
    FlattenAppend(pieces, chunks[0]);
  }

  lemma SplitHead(pieces: seq<Octets>, chunks: seq<Octets>, n: nat)
    requires chunks != [] && n <= |chunks[0]|
    ensures Flatten(pieces + [chunks[0][..n]]) + Flatten(chunks[0 := chunks[0][n..]]) == Flatten(pieces) + Flatten(chunks)
  {
    FlattenAppend(pieces, chunks[0][..n]);
    HeadReplaced(chunks, chunks[0][n..]);
    CutRejoins(Flatten(pieces), chunks[0], Flatten(chunks[1..]), n);
  }

  lemma HeadReplaced(chunks: seq<Octets>, head: Octets)
    requires chunks != []
    ensures Flatten(chunks[0 := head]) == head + Flatten(chunks[1..])
  {
    assert chunks[0 := head][1..] == chunks[1..];
  }

  lemma CutRejoins(before: Octets, chunk: Octets, after: Octets, n: nat)
    requires n <= |chunk|
    ensures (before + chunk[..n]) + (chunk[n..] + after) == before + (chunk + after)
  {}

  /** Cutting the first `n` bytes off a list of chunks: at most one chunk is split. */
  method TakeFront(chunks0: seq<Octets>, size: nat) returns (part: Octets, chunks: seq<Octets>)
    requires 0 < size <= |Flatten(chunks0)| && forall i | 0 <= i < |chunks0| :: chunks0[i] != []
    ensures part == Flatten(chunks0)[..size] && Flatten(chunks) == Flatten(chunks0)[size..]
    ensures forall i | 0 <= i < |chunks| :: chunks[i] != []
  {
    var needed := size;
    var pieces: seq<Octets> := [];
    chunks := chunks0;
    while needed > 0
      invariant 0 <= needed <= size && |Flatten(pieces)| == size - needed && (needed < size ==> pieces != [])
      invariant Flatten(pieces) + Flatten(chunks) == Flatten(chunks0)
      invariant forall i | 0 <= i < |chunks| :: chunks[i] != []
    {
      assert chunks != [];
      var head := chunks[0];
      if |head| <= needed {
        MoveHead(pieces, chunks);
        FlattenAppend(pieces, head);
        pieces := pieces + [head];
        needed := needed - |head|;
        chunks := chunks[1..];
      } else {
        SplitHead(pieces, chunks, needed);
        FlattenAppend(pieces, head[..needed]);
        pieces := pieces + [head[..needed]];
        chunks := chunks[0 := head[needed..]];
        needed := 0;
      }
    }
    assert Flatten(chunks0)[..size] == Flatten(pieces) && Flatten(chunks0)[size..] == Flatten(chunks) by {
      assert Flatten(chunks0) == Flatten(pieces) + Flatten(chunks);
    }
    if |pieces| == 1 {
      FlattenSingle(pieces[0]);
      assert pieces == [pieces[0]];
      part := pieces[0];
    } else {
      part := Flatten(pieces);
    }
  }

  /** Every part is exactly 8 MiB, except that the last one of a closed sink may be smaller. */
  ghost predicate SizedAt(parts: seq<PartUpload>, closed: bool, i: nat)
    requires i < |parts|
  {
    var size := |parts[i].bytes|;
    if closed && i == |parts| - 1 then 0 < size <= 8_388_608 else size == 8_388_608
  }

  class Sink {
    const backlogDepth: nat
    var chunks: seq<Octets>
    var buffered: nat
    var partNumber: nat
    var closed: bool
    /** Every part handed to the executor, in order. */
    var dispatched: seq<PartUpload>
    /** The numbers of the parts that are dispatched and not finished. */
    var inFlight: set<nat>
    ghost var written: Octets

    /** Dispatched parts and pending chunks are what was written; at most the backlog depth is in flight. */
    ghost predicate Valid()
      reads this
    {
      && backlogDepth >= 1 && |inFlight| <= backlogDepth
      && Flatten(PartBytes(dispatched)) + Flatten(chunks) == written
      && buffered == |Flatten(chunks)|
      && partNumber == |dispatched| + 1
      && (forall i | 0 <= i < |chunks| :: chunks[i] != [])
      && (forall i | 0 <= i < |dispatched| :: dispatched[i].number == i + 1)
      && (forall i | 0 <= i < |dispatched| :: SizedAt(dispatched, closed, i))
      && (closed ==> chunks == [])
    }

    constructor (depth: nat)
      requires depth >= 1
      ensures Valid() && written == [] && !closed && dispatched == []
    {
      backlogDepth := depth;
      chunks, buffered, partNumber, closed := [], 0, 1, false;
      dispatched, inFlight, written := [], {}, [];
    }

    /** Cuts one part of `size` bytes off the front of the chunks. */
    method Emit(size: nat)
      requires Valid() && !closed && 0 < size <= buffered
      requires size == UPLOAD_PART_SIZE || (size == buffered < UPLOAD_PART_SIZE)
      modifies this
      ensures backlogDepth >= 1 && |inFlight| <= backlogDepth
      ensures |dispatched| == |old(dispatched)| + 1 && dispatched[..|old(dispatched)|] == old(dispatched)
      ensures dispatched[|old(dispatched)|].number == old(partNumber) && |dispatched[|old(dispatched)|].bytes| == size
      ensures partNumber == old(partNumber) + 1 && buffered == old(buffered) - size == |Flatten(chunks)|
      ensures forall i | 0 <= i < |chunks| :: chunks[i] != []
      ensures Flatten(PartBytes(dispatched)) + Flatten(chunks) == written == old(written)
      ensures !closed
    {
      var part, rest := TakeFront(chunks, size);
      ghost var before := Flatten(chunks);
      EmitOrder(dispatched, part, rest, before, size, partNumber);
      if size < UPLOAD_PART_SIZE {
        EmptyRest(rest, before, size);
      }
      chunks := rest;
      buffered := buffered - size;
      var pn := partNumber;
      partNumber := partNumber + 1;
      Acquire();
      dispatched := dispatched + [PartUpload(pn, part)];
      inFlight := inFlight + {pn};
    }

    /** Blocks until fewer than the backlog depth are in flight; any of them may have finished by then. */
    method Acquire()
      requires backlogDepth >= 1 && |inFlight| <= backlogDepth
      modifies this`inFlight
      ensures |inFlight| < backlogDepth && inFlight <= old(inFlight)
    {
      assert inFlight - inFlight == {};
      var finished :| finished <= inFlight && |inFlight - finished| < backlogDepth;
      inFlight := inFlight - finished;
    }

    /** Appends to the stream; whole parts leave at once. */
    method Write(b: Octets) returns (n: nat)
      requires Valid() && !closed && buffered < UPLOAD_PART_SIZE
      modifies this
      ensures Valid() && !closed && buffered < UPLOAD_PART_SIZE
      ensures n == |b| && written == old(written) + b
    {
      n := |b|;
      if n == 0 {
        assert written == written + b;
        return;
      }
      FlattenAppend(chunks, b);
      Reassociate(Flatten(PartBytes(dispatched)), Flatten(chunks), b);
      chunks := chunks + [b];
      buffered := buffered + n;
      written := written + b;
      while buffered >= UPLOAD_PART_SIZE
        invariant Valid() && !closed && written == old(written) + b
        decreases buffered
      {
        label before:
        Emit(UPLOAD_PART_SIZE);
        forall i | 0 <= i < |dispatched| ensures dispatched[i].number == i + 1 && SizedAt(dispatched, closed, i) {
          if i < |dispatched| - 1 {
            assert dispatched[i] == old@before(dispatched)[i];
            assert SizedAt(old@before(dispatched), false, i);
          }
        }
      }
    }

    /** `tell`: parts of the full size, and what is buffered; the length of the stream while the sink is open. */
    method Tell() returns (offset: nat)
      requires Valid()
      ensures !closed ==> offset == |written|
      ensures closed ==> offset % 8_388_608 == 0 && |written| <= offset < |written| + 8_388_608
    {
      offset := (partNumber - 1) * UPLOAD_PART_SIZE + buffered;
      TellIs(dispatched, closed, Flatten(PartBytes(dispatched)));
      assert |written| == |Flatten(PartBytes(dispatched))| + buffered;
    }

    /** The rest of the stream becomes the last part. */
    method Close()
      requires Valid() && buffered < UPLOAD_PART_SIZE
      modifies this
      ensures Valid() && closed && written == old(written) && buffered < UPLOAD_PART_SIZE
      ensures Closed(dispatched, written)
    {
      if !closed {
        label before:
        if buffered > 0 {
          Emit(buffered);
          forall i | 0 <= i < |dispatched| - 1 ensures dispatched[i].number == i + 1 && |dispatched[i].bytes| == UPLOAD_PART_SIZE {
            assert dispatched[i] == old@before(dispatched)[i];
            assert SizedAt(old@before(dispatched), false, i);
          }
        } else {
          forall i | 0 <= i < |dispatched| ensures |dispatched[i].bytes| == UPLOAD_PART_SIZE {
            assert SizedAt(dispatched, closed, i);
          }
        }
        NothingLeft(chunks);
        closed := true;
      }
      assert Flatten([]) == [];
      assert written == Flatten(PartBytes(dispatched)) + [];
    }
  }

  /** Moving a part from the chunks to the dispatched parts leaves the stream as it was. */
  lemma EmitOrder(dispatched: seq<PartUpload>, part: Octets, rest: seq<Octets>, before: Octets, size: nat, pn: nat)
    requires size <= |before| && part == before[..size] && Flatten(rest) == before[size..]
    ensures Flatten(PartBytes(dispatched + [PartUpload(pn, part)])) + Flatten(rest) == Flatten(PartBytes(dispatched)) + before
  {
    FlattenAppend(PartBytes(dispatched), part);
    assert PartBytes(dispatched + [PartUpload(pn, part)]) == PartBytes(dispatched) + [part];
    assert before == part + Flatten(rest);
  }

  lemma EmptyRest(rest: seq<Octets>, before: Octets, size: nat)
    requires size == |before| && Flatten(rest) == before[size..]
    ensures Flatten(rest) == []
  {}

  lemma NotEmpty(chunks: seq<Octets>)
    requires chunks != [] && chunks[0] != []
    ensures Flatten(chunks) != []
  {}

  /** Chunks are never empty, so nothing buffered means no chunk. */
  lemma NothingLeft(chunks: seq<Octets>)
    requires Flatten(chunks) == [] && forall i | 0 <= i < |chunks| :: chunks[i] != []
    ensures chunks == []
  {
    if chunks != [] {
      NotEmpty(chunks);
    }
  }

  /** Full parts make up the stream; a short last part of a closed sink counts as a full one. */
  lemma TellIs(parts: seq<PartUpload>, closed: bool, stream: Octets)
    requires stream == Flatten(PartBytes(parts)) && forall i | 0 <= i < |parts| :: SizedAt(parts, closed, i)
    ensures !closed ==> |stream| == |parts| * UPLOAD_PART_SIZE
    ensures closed ==> |stream| <= |parts| * UPLOAD_PART_SIZE < |stream| + UPLOAD_PART_SIZE
  {
    var n := if closed && parts != [] then |parts| - 1 else |parts|;
    forall i | 0 <= i < n ensures |parts[i].bytes| == UPLOAD_PART_SIZE {
      assert SizedAt(parts, closed, i);
    }
    FullParts(parts, n);
    if n < |parts| {
      assert SizedAt(parts, closed, n);
      assert PartBytes(parts) == PartBytes(parts[..n]) + [parts[n].bytes];
      FlattenAppend(PartBytes(parts[..n]), parts[n].bytes);
      Multiple(n, |parts[n].bytes|);
    } else {
      assert parts[..n] == parts;
      Multiple(n, 0);
    }
  }

  lemma Multiple(n: nat, last: nat)
    requires last <= UPLOAD_PART_SIZE
    ensures (n * UPLOAD_PART_SIZE + last) % UPLOAD_PART_SIZE == if last == UPLOAD_PART_SIZE then 0 else last
  {}

  // ---------- What the parts are worth ----------

  /** What a closed sink leaves behind: numbered parts that spell out the stream. */
  ghost predicate Closed(dispatched: seq<PartUpload>, written: Octets) {
    && Flatten(PartBytes(dispatched)) == written
    && (forall i | 0 <= i < |dispatched| :: dispatched[i].number == i + 1 && SizedAt(dispatched, true, i))
  }

  lemma ClosedMeetsFloor(dispatched: seq<PartUpload>, written: Octets)
    requires Closed(dispatched, written)
    ensures MeetsFloor(PartBytes(dispatched))
  {
    forall i | 0 <= i < |dispatched| - 1 ensures |PartBytes(dispatched)[i]| >= PART_FLOOR {
      assert SizedAt(dispatched, true, i);
    }
  }

  /** Finished in any order and with any retries, the parts complete to exactly the written stream. */
  lemma SinkUploadTheorem(dispatched: seq<PartUpload>, written: Octets, log: seq<PartUpload>, finished: seq<nat>)
    requires Closed(dispatched, written) && dispatched != []
    requires Uploads(log, PartBytes(dispatched)) && multiset(finished) == multiset(Numbers(|dispatched|))
    ensures Complete(Received(log), Sort(AtMost, finished)) == Some(written)
  {
    ClosedMeetsFloor(dispatched, written);
    AnyOrderCompletes(log, PartBytes(dispatched), finished);
  }

  /** Full parts hold their number of part sizes. */
  lemma {:induction false} FullParts(parts: seq<PartUpload>, n: nat)
    requires n <= |parts| && forall i | 0 <= i < n :: |parts[i].bytes| == UPLOAD_PART_SIZE
    ensures |Flatten(PartBytes(parts[..n]))| == n * UPLOAD_PART_SIZE
  {
    if n > 0 {
      FullParts(parts, n - 1);
      assert PartBytes(parts[..n]) == PartBytes(parts[..n - 1]) + [parts[n - 1].bytes];
      FlattenAppend(PartBytes(parts[..n - 1]), parts[n - 1].bytes);
    }
  }
}
