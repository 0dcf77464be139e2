/** Running jrodon-v3's jobs: carved buffers, directory headers in any arrival order, parts in any order. */
module JrodonExec {
  import opened Bytes
  import opened Canonical
  import opened JrodonArchive
  import opened JrodonBuilder
  import opened JrodonFormat
  import opened JrodonJobs
  import opened JrodonLayout
  import opened Sorting
  import opened ZipReader

  // ---------- Carving the part buffer ----------

  /** A view of the shared buffer. */
  datatype BufSlice = BufSlice(startAt: nat, length: nat)

  function Split(slice: BufSlice, at: nat): (BufSlice, BufSlice)
    requires at <= slice.length
  {
    (BufSlice(slice.startAt, at), BufSlice(slice.startAt + at, slice.length - at))
  }

  lemma {:induction false} SizePrefix(elements: seq<Element>, i: nat)
    requires i < |elements|
    ensures SizeOf(elements[..i + 1]) == SizeOf(elements[..i]) + ElemSize(elements[i])
    ensures SizeOf(elements[..i + 1]) <= SizeOf(elements)
    decreases |elements| - i
  {
    assert elements[..i + 1][..i] == elements[..i];
    if i + 1 < |elements| {
      SizePrefix(elements, i + 1);
    } else {
      assert elements[..i + 1] == elements;
    }
  }

  /** The carving loop: one slice per element, exactly its size, and nothing left over. */
  method Carve(elements: seq<Element>, partSize: nat) returns (slices: seq<BufSlice>, remain: BufSlice)
    requires SizeOf(elements) == partSize
    ensures |slices| == |elements| && remain == BufSlice(partSize, 0)
    ensures forall i | 0 <= i < |elements| :: slices[i] == BufSlice(SizeOf(elements[..i]), ElemSize(elements[i]))
  {
    slices, remain := [], BufSlice(0, partSize);
    var i := 0;
    while i < |elements|
      invariant 0 <= i <= |elements| && |slices| == i
      invariant SizeOf(elements[..i]) <= partSize
      invariant remain == BufSlice(SizeOf(elements[..i]), partSize - SizeOf(elements[..i]))
      invariant forall j | 0 <= j < i :: slices[j] == BufSlice(SizeOf(elements[..j]), ElemSize(elements[j]))
    {
      SizePrefix(elements, i);
      var (buf, rest) := Split(remain, ElemSize(elements[i]));
      remain := rest;
      slices := slices + [buf];
      i := i + 1;
    }
    assert elements[..i] == elements;
  }

  // ---------- Tasks writing side by side ----------

  /** Where content `i` starts in the whole. */
  function StartAt(contents: seq<Octets>, i: nat): nat
    requires i <= |contents|
  {
    |Flatten(contents[..i])|
  }

  /** The shared buffer, and how much of its content each task has written. */
  datatype Writing = Writing(buf: Octets, progress: seq<nat>)

  /** Task `i` writes its next `n` bytes. */
  datatype Write = Write(i: nat, n: nat)

  predicate CanWrite(contents: seq<Octets>, s: Writing, w: Write) {
    w.i < |contents| && w.i < |s.progress| && s.progress[w.i] + w.n <= |contents[w.i]|
    && StartAt(contents, w.i) + s.progress[w.i] + w.n <= |s.buf|
  }

  function WriteStep(contents: seq<Octets>, s: Writing, w: Write): Writing {
    if CanWrite(contents, s, w) then
      var p := s.progress[w.i];
      Writing(Put(s.buf, StartAt(contents, w.i) + p, contents[w.i][p..p + w.n]), s.progress[w.i := p + w.n])
    else s
  }

  function WriteAll(contents: seq<Octets>, s: Writing, writes: seq<Write>): Writing {
    if writes == [] then s
    else WriteStep(contents, WriteAll(contents, s, writes[..|writes| - 1]), writes[|writes| - 1])
  }

  /** What task `i` has written stands in its own slice. */
  ghost predicate WrittenAt(contents: seq<Octets>, s: Writing, i: nat)
    requires i < |contents| == |s.progress|
  {
    var start := StartAt(contents, i);
    s.progress[i] <= |contents[i]| && start + |contents[i]| <= |s.buf|
    && s.buf[start..start + s.progress[i]] == contents[i][..s.progress[i]]
  }

  ghost predicate WritingInv(contents: seq<Octets>, s: Writing) {
    |s.progress| == |contents| && forall i | 0 <= i < |contents| :: WrittenAt(contents, s, i)
  }

  lemma StartNext(contents: seq<Octets>, i: nat)
    requires i < |contents|
    ensures StartAt(contents, i + 1) == StartAt(contents, i) + |contents[i]|
  {
    assert contents[..i + 1] == contents[..i] + [contents[i]];
    FlattenAppend(contents[..i], contents[i]);
  }

  /** Slices do not overlap. */
  lemma {:induction false} StartsApart(contents: seq<Octets>, i: nat, j: nat)
    requires i < j <= |contents|
    ensures StartAt(contents, i) + |contents[i]| <= StartAt(contents, j)
    decreases j
  {
    StartNext(contents, j - 1);
    if i < j - 1 {
      StartsApart(contents, i, j - 1);
    }
  }

  lemma WriteKeeps(contents: seq<Octets>, s: Writing, w: Write)
    requires WritingInv(contents, s)
    ensures WritingInv(contents, WriteStep(contents, s, w))
  {
    if CanWrite(contents, s, w) {
      var next := WriteStep(contents, s, w);
      forall j | 0 <= j < |contents| ensures WrittenAt(contents, next, j) {
        if j == w.i { WriteKeepsOwn(contents, s, w, next); } else { WriteKeepsOther(contents, s, w, next, j); }
      }
    }
  }

  /** A write in one slice leaves what stands in another. */
  lemma WriteElsewhere(buf: Octets, at: nat, bytes: Octets, start: nat, content: Octets, p: nat)
    requires at + |bytes| <= |buf| && p <= |content| && start + |content| <= |buf| && buf[start..start + p] == content[..p]
    requires start + |content| <= at || at + |bytes| <= start
    ensures Put(buf, at, bytes)[start..start + p] == content[..p]
  {
    PutElsewhere(buf, at, bytes, start, start + p);
  }

  lemma WriteKeepsOwn(contents: seq<Octets>, s: Writing, w: Write, next: Writing)
    requires WritingInv(contents, s) && CanWrite(contents, s, w) && next == WriteStep(contents, s, w)
    ensures WrittenAt(contents, next, w.i)
  {
    assert WrittenAt(contents, s, w.i);
    PutNext(s.buf, StartAt(contents, w.i), s.progress[w.i], contents[w.i], w.n);
  }

  lemma WriteKeepsOther(contents: seq<Octets>, s: Writing, w: Write, next: Writing, j: nat)
    requires WritingInv(contents, s) && CanWrite(contents, s, w) && next == WriteStep(contents, s, w)
    requires j < |contents| && j != w.i
    ensures WrittenAt(contents, next, j)
  {
    var p := s.progress[w.i];
    assert WrittenAt(contents, s, j) && WrittenAt(contents, s, w.i);
    EntriesApart(contents, w.i, j);
    WriteElsewhere(s.buf, StartAt(contents, w.i) + p, contents[w.i][p..p + w.n], StartAt(contents, j), contents[j], s.progress[j]);
  }

  lemma EntriesApart(contents: seq<Octets>, i: nat, j: nat)
    requires i < |contents| && j < |contents| && i != j
    ensures StartAt(contents, i) + |contents[i]| <= StartAt(contents, j) || StartAt(contents, j) + |contents[j]| <= StartAt(contents, i)
  {
    if j < i { StartsApart(contents, j, i); } else { StartsApart(contents, i, j); }
  }

  lemma {:induction false} AllWritesKeep(contents: seq<Octets>, s: Writing, writes: seq<Write>)
    requires WritingInv(contents, s)
    ensures WritingInv(contents, WriteAll(contents, s, writes))
    ensures |WriteAll(contents, s, writes).buf| == |s.buf|
  {
    if writes != [] {
      AllWritesKeep(contents, s, writes[..|writes| - 1]);
      WriteKeeps(contents, WriteAll(contents, s, writes[..|writes| - 1]), writes[|writes| - 1]);
    }
  }

  function Start(contents: seq<Octets>, buf: Octets): Writing {
    Writing(buf, seq(|contents|, _ => 0))
  }

  lemma StartInv(contents: seq<Octets>, buf: Octets)
    requires |buf| == |Flatten(contents)|
    ensures WritingInv(contents, Start(contents, buf))
  {
    forall i | 0 <= i < |contents| ensures WrittenAt(contents, Start(contents, buf), i) {
      StartsApart(contents, i, |contents|);
      assert contents[..|contents|] == contents;
    }
  }

  lemma {:induction false} SlicesMakeWhole(contents: seq<Octets>, buf: Octets, n: nat)
    requires n <= |contents|
    requires forall i | 0 <= i < |contents| :: WrittenWhole(contents, buf, i)
    ensures StartAt(contents, n) <= |buf| && buf[..StartAt(contents, n)] == Flatten(contents[..n])
  {
    if n > 0 {
      SlicesMakeWhole(contents, buf, n - 1);
      StartNext(contents, n - 1);
      assert WrittenWhole(contents, buf, n - 1);
      assert contents[..n] == contents[..n - 1] + [contents[n - 1]];
      FlattenAppend(contents[..n - 1], contents[n - 1]);
      var a, b := StartAt(contents, n - 1), StartAt(contents, n);
      assert buf[..b] == buf[..a] + buf[a..b];
    }
  }

  ghost predicate WrittenWhole(contents: seq<Octets>, buf: Octets, i: nat)
    requires i < |contents|
  {
    var start := StartAt(contents, i);
    start + |contents[i]| <= |buf| && buf[start..start + |contents[i]|] == contents[i]
  }

  predicate AllWritten(contents: seq<Octets>, s: Writing) {
    |s.progress| == |contents| && forall i | 0 <= i < |contents| :: s.progress[i] == |contents[i]|
  }

  /** Whatever the interleaving of the tasks' writes, once all are done the buffer is the contents in order. */
  lemma BufferTheorem(contents: seq<Octets>, buf: Octets, writes: seq<Write>)
    requires |buf| == |Flatten(contents)|
    requires AllWritten(contents, WriteAll(contents, Start(contents, buf), writes))
    ensures WriteAll(contents, Start(contents, buf), writes).buf == Flatten(contents)
  {
    var s := WriteAll(contents, Start(contents, buf), writes);
    StartInv(contents, buf);
    AllWritesKeep(contents, Start(contents, buf), writes);
    forall i | 0 <= i < |contents| ensures WrittenWhole(contents, s.buf, i) {
      assert WrittenAt(contents, s, i);
      assert contents[i][..|contents[i]|] == contents[i];
    }
    SlicesMakeWhole(contents, s.buf, |contents|);
    assert contents[..|contents|] == contents;
    assert s.buf[..|s.buf|] == s.buf;
  }

  // ---------- Collecting the directory headers ----------

  ghost predicate ByOffset(headers: seq<Cdfh>) {
    forall i, j | 0 <= i < j < |headers| :: headers[i].loc.offset < headers[j].loc.offset
  }

  /** Insertion into a map ordered by offset; a header at a known offset replaces the old one. */
  function Insert(entries: seq<Cdfh>, c: Cdfh): seq<Cdfh> {
    if entries == [] || c.loc.offset < entries[0].loc.offset then [c] + entries
    else if c.loc.offset == entries[0].loc.offset then [c] + entries[1..]
    else [entries[0]] + Insert(entries[1..], c)
  }

  lemma InFront(head: Cdfh, entries: seq<Cdfh>, c: Cdfh, inserted: seq<Cdfh>)
    requires ByOffset([head] + entries) && ByOffset(inserted) && head.loc.offset < c.loc.offset
    requires forall x :: x in inserted <==> x == c || (x in entries && x.loc.offset != c.loc.offset)
    ensures ByOffset([head] + inserted)
    ensures forall x :: x in [head] + inserted <==> x == c || (x in [head] + entries && x.loc.offset != c.loc.offset)
  {
    forall i | 0 <= i < |inserted| ensures head.loc.offset < inserted[i].loc.offset {
      assert inserted[i] in inserted;
      if inserted[i] in entries {
        var k :| 0 <= k < |entries| && entries[k] == inserted[i];
        assert ([head] + entries)[0] == head && ([head] + entries)[k + 1] == entries[k];
      }
    }
  }

  lemma {:induction false} InsertKeeps(entries: seq<Cdfh>, c: Cdfh)
    requires ByOffset(entries)
    ensures ByOffset(Insert(entries, c))
    ensures forall x :: x in Insert(entries, c) <==> x == c || (x in entries && x.loc.offset != c.loc.offset)
  {
    if entries != [] {
      assert entries == [entries[0]] + entries[1..];
      if c.loc.offset > entries[0].loc.offset {
        InsertKeeps(entries[1..], c);
        InFront(entries[0], entries[1..], c, Insert(entries[1..], c));
      }
    }
  }

  /** The receive loop; it stops listening once `count` entries are there. */
  function Collect(arrived: seq<Cdfh>, count: nat): seq<Cdfh> {
    if arrived == [] then []
    else
      var front := arrived[..|arrived| - 1];
      var before := Collect(front, count);
      if front != [] && |before| == count then before else Insert(before, arrived[|arrived| - 1])
  }

  method CollectHeaders(arrived: seq<Cdfh>, count: nat) returns (entries: seq<Cdfh>)
    ensures entries == Collect(arrived, count)
  {
    entries := [];
    var i := 0;
    while i < |arrived|
      invariant 0 <= i <= |arrived| && entries == Collect(arrived[..i], count)
      invariant i > 0 ==> |entries| != count
    {
      assert arrived[..i + 1][..i] == arrived[..i];
      entries := Insert(entries, arrived[i]);
      i := i + 1;
      if |entries| == count {
        StopsListening(arrived, i, count, |arrived|);
        break;
      }
    }
    assert arrived[..|arrived|] == arrived;
  }

  lemma {:induction false} StopsListening(arrived: seq<Cdfh>, i: nat, count: nat, n: nat)
    requires 0 < i <= n <= |arrived| && |Collect(arrived[..i], count)| == count
    ensures Collect(arrived[..n], count) == Collect(arrived[..i], count)
  {
    if i < n {
      StopsListening(arrived, i, count, n - 1);
      assert arrived[..n][..n - 1] == arrived[..n - 1];
    }
  }

  /** Ordered headers drawn from others are no more than those, and the same if as many. */
  lemma {:induction false} OrderedSubset(a: seq<Cdfh>, b: seq<Cdfh>)
    requires ByOffset(a) && ByOffset(b) && forall x | x in a :: x in b
    ensures |a| <= |b| && (|a| == |b| ==> a == b)
    decreases |b|
  {
    if a != [] {
      assert a[0] in a && a[0] in b;
      assert a == [a[0]] + a[1..] && b == [b[0]] + b[1..];
      if a[0] == b[0] {
        forall x | x in a[1..] ensures x in b[1..] {
          assert x in a && x in b;
        }
        OrderedSubset(a[1..], b[1..]);
      } else {
        forall x | x in a ensures x in b[1..] {
          assert x in b;
        }
        OrderedSubset(a, b[1..]);
      }
    }
  }

  /** What has been collected so far: ordered headers, and every arrived one unless listening has stopped. */
  lemma {:induction false} CollectsAll(arrived: seq<Cdfh>, headers: seq<Cdfh>)
    requires ByOffset(headers) && forall x | x in arrived :: x in headers
    ensures var entries := Collect(arrived, |headers|);
      && ByOffset(entries) && (forall x | x in entries :: x in headers)
      && (|entries| == |headers| || forall x | x in arrived :: x in entries)
  {
    if arrived != [] {
      var front, c := arrived[..|arrived| - 1], arrived[|arrived| - 1];
      assert arrived == front + [c];
      assert c in arrived && forall x | x in front :: x in arrived;
      CollectsAll(front, headers);
      InsertKeeps(Collect(front, |headers|), c);
      if front == [] || |Collect(front, |headers|)| != |headers| {
        forall x | x in arrived ensures x in Collect(arrived, |headers|) {
          SameOffset(headers, x, c);
        }
      }
    }
  }

  lemma SameOffset(headers: seq<Cdfh>, x: Cdfh, c: Cdfh)
    requires ByOffset(headers) && x in headers && c in headers
    ensures x.loc.offset == c.loc.offset ==> x == c
  {
    var i :| 0 <= i < |headers| && headers[i] == x;
    var j :| 0 <= j < |headers| && headers[j] == c;
  }

  /** Every arrival order of the headers collects to the same list, the one in layout order. */
  lemma ArrivalTheorem(arrived: seq<Cdfh>, headers: seq<Cdfh>)
    requires ByOffset(headers) && multiset(arrived) == multiset(headers)
    ensures Collect(arrived, |headers|) == headers
  {
    forall x ensures x in arrived <==> x in headers {
      assert x in multiset(arrived) <==> x in multiset(headers);
    }
    CollectsAll(arrived, headers);
    var entries := Collect(arrived, |headers|);
    OrderedSubset(entries, headers);
    if |entries| != |headers| {
      OrderedSubset(headers, entries);
    }
  }

  /** Headers are at least 30 bytes long, so offsets strictly grow. */
  lemma {:induction false} OffsetsGrow(files: seq<FileInfo>, i: nat, j: nat)
    requires i < j < |files|
    ensures OffsetOf(LocalsOf(files), i) < OffsetOf(LocalsOf(files), j)
    decreases j
  {
    OffsetStep(LocalsOf(files), j - 1);
    HeaderAnywhere(files[j - 1], 0);
    if i < j - 1 {
      OffsetsGrow(files, i, j - 1);
    }
  }

  lemma CanonicalByOffset(files: seq<FileInfo>)
    ensures ByOffset(CdfhsOf(files))
  {
    forall i, j | 0 <= i < j < |files| ensures CdfhsOf(files)[i].loc.offset < CdfhsOf(files)[j].loc.offset {
      OffsetsGrow(files, i, j);
    }
  }

  /** The directory element: the collected headers, then the end records. */
  method WriteDirectory(entries: seq<Cdfh>, end: EndInfo) returns (written: Octets)
    ensures written == Flatten(RecordsOf(entries)) + EndBytes(end)
  {
    written := [];
    var i := 0;
    while i < |entries|
      invariant 0 <= i <= |entries| && written == Flatten(RecordsOf(entries[..i]))
    {
      RecordsAppend(entries[..i], entries[i]);
      assert entries[..i + 1] == entries[..i] + [entries[i]];
      written := written + CdfhBytes(entries[i]);
      i := i + 1;
    }
    assert entries[..i] == entries;
    written := written + EndBytes(end);
  }

  /** What the directory element writes after a series of arrivals. */
  function DirectoryWritten(arrived: seq<Cdfh>, end: EndInfo): Octets {
    Flatten(RecordsOf(Collect(arrived, end.count))) + EndBytes(end)
  }

  /** Whatever order the headers arrive in, the directory part has the same bytes. */
  lemma DirectoryTheorem(files: seq<FileInfo>, arrived: seq<Cdfh>)
    requires multiset(arrived) == multiset(CdfhsOf(files))
    ensures DirectoryWritten(arrived, EndOf(files)) == DirectoryFor(files)
  {
    CanonicalByOffset(files);
    ArrivalTheorem(arrived, CdfhsOf(files));
  }
}
