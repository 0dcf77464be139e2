/** The benchmark's S3 object reader: a window cache with prefetching over a FIFO fetcher. */
module ObjectReader {
  import opened Arithmetic
  import opened Bytes
  import opened ZipReader

  const MIN_WINDOW_SIZE: nat := 16 * 1024 * 1024
  const MAX_WINDOW_SIZE: nat := 256 * 1024 * 1024

  datatype WindowRange = WindowRange(start: nat, end: nat) {
    predicate Contains(position: nat) { start <= position < end }

    predicate Covers(other: WindowRange) { start <= other.start && other.end <= end }

    /** The order of the set: by start, then by end. */
    predicate Before(other: WindowRange) { start < other.start || (start == other.start && end < other.end) }

    function Len(): nat { if end >= start then end - start else 0 }
  }

  // ---------- The ordered set and its two probes ----------

  ghost predicate Ordered(s: seq<WindowRange>) {
    forall i, j | 0 <= i < j < |s| :: s[i].Before(s[j])
  }

  /** `range(..q).next_back()` */
  function Predecessor(s: seq<WindowRange>, q: WindowRange): Option<WindowRange> {
    if s == [] then None
    else if s[|s| - 1].Before(q) then Some(s[|s| - 1])
    else Predecessor(s[..|s| - 1], q)
  }

  /** `range(q..).next()` */
  function Successor(s: seq<WindowRange>, q: WindowRange): Option<WindowRange> {
    if s == [] then None
    else if !s[0].Before(q) then Some(s[0])
    else Successor(s[1..], q)
  }

  function GetPositionCover(s: seq<WindowRange>, position: nat): Option<WindowRange> {
    var q := WindowRange(position, position + 1);
    var left, right := Predecessor(s, q), Successor(s, q);
    if left.Some? && left.value.Contains(position) then left
    else if right.Some? && right.value.Contains(position) then right
    else None
  }

  function GetRangeCover(s: seq<WindowRange>, range: WindowRange): Option<WindowRange> {
    var left, right := Predecessor(s, range), Successor(s, range);
    if left.Some? && left.value.Covers(range) then left
    else if right.Some? && right.value.Covers(range) then right
    else None
  }

  lemma {:induction false} PredecessorIn(s: seq<WindowRange>, q: WindowRange)
    ensures Predecessor(s, q).Some? ==> Predecessor(s, q).value in s
  {
    if s != [] && !s[|s| - 1].Before(q) {
      PredecessorIn(s[..|s| - 1], q);
    }
  }

  lemma {:induction false} SuccessorIn(s: seq<WindowRange>, q: WindowRange)
    ensures Successor(s, q).Some? ==> Successor(s, q).value in s
  {
    if s != [] && s[0].Before(q) {
      SuccessorIn(s[1..], q);
    }
  }

  /** The probes never report a range that is not there or does not cover. */
  lemma ProbesSound(s: seq<WindowRange>, position: nat, range: WindowRange)
    ensures var p := GetPositionCover(s, position); p.Some? ==> p.value in s && p.value.Contains(position)
    ensures var r := GetRangeCover(s, range); r.Some? ==> r.value in s && r.value.Covers(range)
  {
    PredecessorIn(s, WindowRange(position, position + 1));
    SuccessorIn(s, WindowRange(position, position + 1));
    PredecessorIn(s, range);
    SuccessorIn(s, range);
  }

  // ---------- When two neighbours are enough ----------

  predicate NonEmpty(s: seq<WindowRange>) {
    forall i | 0 <= i < |s| :: s[i].start < s[i].end
  }

  /** A position some range contains is found. */
  ghost predicate FindsPositions(s: seq<WindowRange>) {
    forall e, position: nat | e in s && e.Contains(position) :: GetPositionCover(s, position).Some?
  }

  /** A non-empty range that some range covers is found. */
  ghost predicate FindsRanges(s: seq<WindowRange>) {
    forall e, range: WindowRange | e in s && e.Covers(range) && range.start < range.end :: GetRangeCover(s, range).Some?
  }

  /** Behind the end of `s[j]`, where `s[i]` goes on, the next range has begun. */
  predicate Bridged(s: seq<WindowRange>, i: nat, j: nat)
    requires i < j < |s|
  {
    s[i].end > s[j].end ==> j + 1 < |s| && s[j + 1].start <= s[j].end
  }

  /** Where `s[i]` reaches further than `s[j]`, the next range starts where `s[j]` does. */
  predicate Shadowed(s: seq<WindowRange>, i: nat, j: nat)
    requires i < j < |s|
  {
    s[i].end > s[j].end ==> j + 1 < |s| && s[j + 1].start == s[j].start
  }

  predicate AllBridged(s: seq<WindowRange>) {
    forall i, j | 0 <= i < j < |s| :: Bridged(s, i, j)
  }

  predicate AllShadowed(s: seq<WindowRange>) {
    forall i, j | 0 <= i < j < |s| :: Shadowed(s, i, j)
  }

  /** The probes' two neighbours, by index: `k` elements are before `q`. */
  predicate SplitsAt(s: seq<WindowRange>, q: WindowRange, k: nat) {
    && k <= |s|
    && (forall i | 0 <= i < k :: s[i].Before(q))
    && (forall i | k <= i < |s| :: !s[i].Before(q))
  }

  lemma {:induction false} PredecessorAt(s: seq<WindowRange>, q: WindowRange, k: nat)
    requires SplitsAt(s, q, k)
    ensures Predecessor(s, q) == if k == 0 then None else Some(s[k - 1])
  {
    if s != [] && k < |s| {
      PredecessorAt(s[..|s| - 1], q, k);
    }
  }

  lemma {:induction false} SuccessorAt(s: seq<WindowRange>, q: WindowRange, k: nat)
    requires SplitsAt(s, q, k)
    ensures Successor(s, q) == if k == |s| then None else Some(s[k])
  {
    if k > 0 {
      SuccessorAt(s[1..], q, k - 1);
    }
  }

  lemma {:induction false} SomeSplit(s: seq<WindowRange>, q: WindowRange) returns (k: nat)
    requires Ordered(s)
    ensures SplitsAt(s, q, k)
    decreases |s|
  {
    if s == [] || s[|s| - 1].Before(q) {
      k := |s|;
    } else {
      k := SomeSplit(s[..|s| - 1], q);
    }
  }

  /** On a bridged set a range that contains the position is never hidden. */
  lemma PositionIsFound(s: seq<WindowRange>, position: nat, i: nat)
    requires Ordered(s) && NonEmpty(s) && AllBridged(s) && i < |s| && s[i].Contains(position)
    ensures GetPositionCover(s, position).Some?
  {
    var q := WindowRange(position, position + 1);
    var k := SomeSplit(s, q);
    PredecessorAt(s, q, k);
    SuccessorAt(s, q, k);
    if i + 1 < k {
      assert Bridged(s, i, k - 1);
    }
  }

  /** An unbridged pair hides the position right behind the shorter range. */
  lemma PositionIsMissed(s: seq<WindowRange>, i: nat, j: nat)
    requires Ordered(s) && NonEmpty(s) && i < j < |s| && !Bridged(s, i, j)
    ensures s[i].Contains(s[j].end) && GetPositionCover(s, s[j].end).None?
  {
    var q := WindowRange(s[j].end, s[j].end + 1);
    assert SplitsAt(s, q, j + 1);
    PredecessorAt(s, q, j + 1);
    SuccessorAt(s, q, j + 1);
  }

  /** The position probe is complete on exactly the bridged sets. */
  lemma PositionProbeTheorem(s: seq<WindowRange>)
    requires Ordered(s) && NonEmpty(s)
    ensures FindsPositions(s) <==> AllBridged(s)
  {
    if AllBridged(s) {
      forall e, position: nat | e in s && e.Contains(position) ensures GetPositionCover(s, position).Some? {
        var i :| 0 <= i < |s| && s[i] == e;
        PositionIsFound(s, position, i);
      }
    } else {
      var i, j :| 0 <= i < j < |s| && !Bridged(s, i, j);
      PositionIsMissed(s, i, j);
      assert s[i] in s && s[i].Contains(s[j].end);
    }
  }

  lemma RangeIsFound(s: seq<WindowRange>, range: WindowRange, i: nat)
    requires Ordered(s) && NonEmpty(s) && AllShadowed(s) && i < |s|
    requires s[i].Covers(range) && range.start < range.end
    ensures GetRangeCover(s, range).Some?
  {
    var k := SomeSplit(s, range);
    PredecessorAt(s, range, k);
    SuccessorAt(s, range, k);
    if i + 1 < k {
      assert Shadowed(s, i, k - 1);
    }
  }

  /** A pair out of the other's shadow hides what the longer range covers from the shorter one's start on. */
  lemma RangeIsMissed(s: seq<WindowRange>, i: nat, j: nat)
    requires Ordered(s) && NonEmpty(s) && i < j < |s| && !Shadowed(s, i, j)
    ensures var range := WindowRange(s[j].start, s[i].end);
      range.start < range.end && s[i].Covers(range) && GetRangeCover(s, range).None?
  {
    var range := WindowRange(s[j].start, s[i].end);
    assert SplitsAt(s, range, j + 1);
    PredecessorAt(s, range, j + 1);
    SuccessorAt(s, range, j + 1);
  }

  /** The range probe is complete on exactly the shadowed sets. */
  lemma RangeProbeTheorem(s: seq<WindowRange>)
    requires Ordered(s) && NonEmpty(s)
    ensures FindsRanges(s) <==> AllShadowed(s)
  {
    if AllShadowed(s) {
      forall e, range: WindowRange | e in s && e.Covers(range) && range.start < range.end ensures GetRangeCover(s, range).Some? {
        var i :| 0 <= i < |s| && s[i] == e;
        RangeIsFound(s, range, i);
      }
    } else {
      var i, j :| 0 <= i < j < |s| && !Shadowed(s, i, j);
      RangeIsMissed(s, i, j);
      assert s[i] in s && s[i].Covers(WindowRange(s[j].start, s[i].end));
    }
  }

  /** A range that is already in the set is always found, so that it is never requested twice. */
  lemma MemberIsFound(s: seq<WindowRange>, range: WindowRange)
    requires Ordered(s) && range in s
    ensures GetRangeCover(s, range).Some?
  {
    var k := SomeSplit(s, range);
    SuccessorAt(s, range, k);
    assert !range.Before(range);
    var i :| 0 <= i < |s| && s[i] == range;
    assert k <= i;
  }

  // ---------- Insertion and removal ----------

  function Insert(s: seq<WindowRange>, r: WindowRange): seq<WindowRange> {
    if s == [] || r.Before(s[0]) then [r] + s
    else if r == s[0] then s
    else [s[0]] + Insert(s[1..], r)
  }

  function Remove(s: seq<WindowRange>, r: WindowRange): seq<WindowRange> {
    if s == [] then [] else if s[0] == r then s[1..] else [s[0]] + Remove(s[1..], r)
  }

  lemma {:induction false} InsertKeeps(s: seq<WindowRange>, r: WindowRange)
    requires Ordered(s)
    ensures Ordered(Insert(s, r))
    ensures forall x :: x in Insert(s, r) <==> x == r || x in s
  {
    if s != [] && !r.Before(s[0]) && r != s[0] {
      InsertKeeps(s[1..], r);
      assert s == [s[0]] + s[1..];
      var t := Insert(s[1..], r);
      forall j | 0 <= j < |t| ensures s[0].Before(t[j]) {
        assert t[j] in t;
      }
    }
  }

  lemma {:induction false} RemoveKeeps(s: seq<WindowRange>, r: WindowRange)
    requires Ordered(s)
    ensures Ordered(Remove(s, r))
    ensures forall x :: x in Remove(s, r) <==> x in s && x != r
  {
    if s != [] {
      assert s == [s[0]] + s[1..];
      if s[0] != r {
        RemoveKeeps(s[1..], r);
        var t := Remove(s[1..], r);
        forall j | 0 <= j < |t| ensures s[0].Before(t[j]) {
          assert t[j] in t;
        }
      }
    }
  }

  // ---------- Windows ----------

  /** The range asked for, clamped to the object with a last window near its end. */
  function RangeFor(objectSize: nat, offset: nat, size: nat): WindowRange {
    if offset + size > objectSize then
      if objectSize >= offset + MIN_WINDOW_SIZE then WindowRange(offset, objectSize)
      else
        var start := if objectSize >= MIN_WINDOW_SIZE then objectSize - MIN_WINDOW_SIZE else 0;
        WindowRange(start, start + MIN_WINDOW_SIZE)
    else WindowRange(offset, offset + size)
  }

  /** S3 can serve the range, and it ends with the object unless the object is smaller than a window. */
  predicate Servable(objectSize: nat, r: WindowRange) {
    r.start < objectSize && r.start + MIN_WINDOW_SIZE <= r.end && (r.end <= objectSize || (r.start == 0 && objectSize < MIN_WINDOW_SIZE))
  }

  /** Every range the reader asks for can be served. */
  lemma AskedIsServable(objectSize: nat, offset: nat, size: nat)
    requires objectSize > 0 && size >= MIN_WINDOW_SIZE
    ensures Servable(objectSize, RangeFor(objectSize, offset, size))
  {}

  /** The window asked for at a position holds the next 16 MiB, or all that is left, and is no longer than that. */
  lemma AskedContains(objectSize: nat, position: nat)
    requires position < objectSize
    ensures RangeFor(objectSize, position, MIN_WINDOW_SIZE).Contains(position)
    ensures RangeFor(objectSize, position, MIN_WINDOW_SIZE).Len() == 16_777_216
    ensures forall p | position <= p < objectSize && p < position + 16_777_216 ::
              RangeFor(objectSize, position, MIN_WINDOW_SIZE).Contains(p)
  {}

  datatype Window = Window(range: WindowRange, buf: Octets)

  /** What a ranged read returns; a range past the end is cut short. */
  function Fetch(body: Octets, r: WindowRange): Octets {
    if r.start > |body| then [] else if r.end <= |body| && r.start <= r.end then body[r.start..r.end] else body[r.start..]
  }

  ghost predicate Exact(body: Octets, w: Window) {
    Servable(|body|, w.range) && w.buf == Fetch(body, w.range)
  }

  /**
   * Where a read can be answered: some window that can be asked for contains the position, and its
   * buffer reaches that far. Beyond the object this is only the very end of an object smaller than a
   * window; everywhere else past the end the reader waits for ever or indexes outside its buffer.
   */
  lemma AnswerableTheorem(body: Octets, position: nat)
    requires body != []
    ensures (exists offset, size :: AnswersAt(body, offset, size, position))
       <==> position < |body| || (position == |body| && |body| < MIN_WINDOW_SIZE)
  {
    if position < |body| || (position == |body| && |body| < MIN_WINDOW_SIZE) {
      assert AnswersAt(body, position, MIN_WINDOW_SIZE, position);
    }
    forall offset, size | AnswersAt(body, offset, size, position)
      ensures position < |body| || (position == |body| && |body| < MIN_WINDOW_SIZE)
    {
      AskedIsServable(|body|, offset, size);
    }
  }

  predicate AnswersAt(body: Octets, offset: nat, size: nat, position: nat) {
    var r := RangeFor(|body|, offset, size);
    size >= MIN_WINDOW_SIZE && r.Contains(position) && position - r.start <= |Fetch(body, r)|
  }

  /** The window behind the current one, twice as long up to the limit. */
  function NextRange(objectSize: nat, current: WindowRange): WindowRange {
    RangeFor(objectSize, current.end, if current.Len() * 2 < MAX_WINDOW_SIZE then current.Len() * 2 else MAX_WINDOW_SIZE)
  }

  /** How far behind the current window the prefetch reaches: twice its length, 256 MiB at most. */
  predicate Ahead(objectSize: nat, current: WindowRange, p: nat) {
    current.end <= p < objectSize && p < current.end + 2 * (current.end - current.start) && p < current.end + 268_435_456
  }

  lemma NextReaches(objectSize: nat, current: WindowRange, p: nat)
    requires Servable(objectSize, current) && Ahead(objectSize, current, p)
    ensures NextRange(objectSize, current).Contains(p)
  {}

  // ---------- Waiting for a window ----------

  /** How many windows arrive before one that contains the position; past the queue when none does. */
  function Waiting(queue: seq<WindowRange>, position: nat): nat {
    if queue == [] then 1
    else if queue[0].Contains(position) then 0
    else 1 + Waiting(queue[1..], position)
  }

  lemma {:induction false} WaitingBound(queue: seq<WindowRange>, position: nat)
    ensures Waiting(queue, position) <= |queue| + 1
    ensures (exists r :: r in queue && r.Contains(position)) <==> Waiting(queue, position) < |queue|
    ensures (forall r | r in queue :: !r.Contains(position)) ==> Waiting(queue, position) == |queue| + 1
  {
    if queue != [] {
      assert queue == [queue[0]] + queue[1..];
      WaitingBound(queue[1..], position);
    }
  }

  /** Asking for a window that contains the position puts it at the end of the queue at the latest. */
  lemma {:induction false} WaitingAfterAsk(queue: seq<WindowRange>, r: WindowRange, position: nat)
    ensures Waiting(queue + [r], position) <= Waiting(queue, position) + 1
    ensures r.Contains(position) ==> Waiting(queue + [r], position) <= |queue|
    ensures (exists x :: x in queue && x.Contains(position)) ==> Waiting(queue + [r], position) == Waiting(queue, position)
  {
    if queue != [] {
      assert (queue + [r])[1..] == queue[1..] + [r];
      assert queue == [queue[0]] + queue[1..];
      WaitingAfterAsk(queue[1..], r, position);
    }
  }

  ghost predicate NoDuplicates(queue: seq<WindowRange>) {
    forall i, j | 0 <= i < j < |queue| :: queue[i] != queue[j]
  }

  datatype SeekFrom = FromStart(offset: nat) | FromEnd(delta: int) | FromCurrent(delta: int)

  /** The largest `usize`. */
  const USIZE_MAX: nat := 0xFFFF_FFFF_FFFF_FFFF

  /** Two different elements take up two places. */
  lemma TwoNeedTwo(s: seq<WindowRange>, queue: seq<WindowRange>)
    requires Ordered(s) && |s| > 1 && s[0] in queue && s[1] in queue
    ensures |queue| > 1
  {
    var i :| 0 <= i < |queue| && queue[i] == s[0];
    var j :| 0 <= j < |queue| && queue[j] == s[1];
    assert s[0].Before(s[1]) && i != j;
  }

  class S3ObjectReader {
    /** What S3 holds; only ranged reads of it reach the reader. */
    const body: Octets
    const objectSize: nat
    var currentWindow: Option<Window>
    var position: nat
    /** Requests sent to the fetcher and not yet received, in order. */
    var queue: seq<WindowRange>
    var incomingWindows: seq<WindowRange>

    /** The in-flight set is exactly the requests under way, each of them once, and windows hold the object's bytes. */
    ghost predicate Consistent()
      reads this
    {
      && objectSize == |body| && objectSize > 0
      && Ordered(incomingWindows) && NoDuplicates(queue)
      && (forall r :: r in incomingWindows <==> r in queue)
      && (forall r | r in queue :: Servable(objectSize, r))
      && (currentWindow.Some? ==> Exact(body, currentWindow.value))
    }

    /** Between two calls nothing is in flight but, at most, the window behind the current one. */
    ghost predicate AtRest()
      reads this
    {
      queue == [] || (currentWindow.Some? && queue == [NextRange(objectSize, currentWindow.value.range)])
    }

    ghost predicate Valid()
      reads this
    {
      Consistent() && AtRest()
    }

    predicate HasPosition()
      reads this
    {
      currentWindow.Some? && currentWindow.value.range.Contains(position)
    }

    /** Some request under way, or the current window, covers the range. */
    ghost predicate Covered(range: WindowRange)
      reads this
    {
      (currentWindow.Some? && currentWindow.value.range.Covers(range)) || exists r :: r in queue && r.Covers(range)
    }

    ghost predicate UnderWay(p: nat)
      reads this
    {
      exists r :: r in queue && r.Contains(p)
    }

    /** Everything the prefetch reaches behind the current window is under way. */
    ghost predicate Prefetched()
      reads this
    {
      currentWindow.Some? && forall p | Ahead(objectSize, currentWindow.value.range, p) :: UnderWay(p)
    }

    ghost function Remaining(): nat
      reads this
    {
      if HasPosition() then 0 else 1 + Waiting(queue, position)
    }

    constructor (contents: Octets)
      requires contents != []
      ensures Valid() && body == contents && position == 0
    {
      body := contents;
      objectSize := |contents|;
      currentWindow := None;
      position := 0;
      queue := [];
      incomingWindows := [];
    }

    /** With one request under way at most, the probes find whatever there is to find. */
    lemma ProbesNeverMiss()
      requires Consistent() && |queue| <= 1
      ensures NonEmpty(incomingWindows) && FindsPositions(incomingWindows) && FindsRanges(incomingWindows)
    {
      forall i | 0 <= i < |incomingWindows| ensures incomingWindows[i].start < incomingWindows[i].end {
        assert incomingWindows[i] in queue;
      }
      if |incomingWindows| > 1 {
        TwoNeedTwo(incomingWindows, queue);
      }
      PositionProbeTheorem(incomingWindows);
      RangeProbeTheorem(incomingWindows);
    }

    /** Sends a clamped request unless the current window or an in-flight one covers it. */
    method AskWindow(offset: nat, size: nat)
      requires Consistent() && |queue| <= 1 && size >= MIN_WINDOW_SIZE
      modifies this`queue, this`incomingWindows
      ensures Consistent()
      ensures var range := RangeFor(objectSize, offset, size);
        queue == if old(Covered(range)) then old(queue) else old(queue) + [range]
    {
      var range := RangeFor(objectSize, offset, size);
      AskedIsServable(objectSize, offset, size);
      ProbesNeverMiss();
      ProbesSound(incomingWindows, 0, range);
      if exists r :: r in queue && r.Covers(range) {
        var r :| r in queue && r.Covers(range);
        assert r in incomingWindows;
      }
      var coveredNow := currentWindow.Some? && currentWindow.value.range.Covers(range);
      if !coveredNow && GetRangeCover(incomingWindows, range).None? {
        assert range !in queue by {
          if range in queue {
            assert range in incomingWindows && range.Covers(range);
          }
        }
        InsertKeeps(incomingWindows, range);
        incomingWindows := Insert(incomingWindows, range);
        queue := queue + [range];
      }
    }

    method AskPositionWindow()
      requires Consistent() && |queue| <= 1 && position < objectSize
      requires !HasPosition() && forall r | r in queue :: !r.Contains(position)
      modifies this`queue, this`incomingWindows
      ensures Consistent() && queue == old(queue) + [RangeFor(objectSize, position, MIN_WINDOW_SIZE)]
      ensures RangeFor(objectSize, position, MIN_WINDOW_SIZE).Contains(position)
    {
      AskedContains(objectSize, position);
      AskWindow(position, MIN_WINDOW_SIZE);
    }

    /** Prefetches what follows the current window, unless that is already at hand or under way. */
    method AskNextWindow()
      requires Valid() && HasPosition()
      modifies this`queue, this`incomingWindows
      ensures Valid()
      ensures var next := NextRange(objectSize, currentWindow.value.range);
        queue == if currentWindow.value.range.Covers(next) then old(queue) else [next]
      ensures Prefetched()
    {
      var range := currentWindow.value.range;
      assert queue != [] ==> queue[0] in queue && queue[0].Covers(queue[0]);
      AskWindow(range.end, if range.Len() * 2 < MAX_WINDOW_SIZE then range.Len() * 2 else MAX_WINDOW_SIZE);
      forall p | Ahead(objectSize, range, p) ensures UnderWay(p) {
        NextReaches(objectSize, range, p);
      }
    }

    /** Takes the next window off the channel; it becomes current only if it contains the position. */
    method ReceiveWindow()
      requires Consistent() && queue != []
      modifies this`queue, this`incomingWindows, this`currentWindow
      ensures Consistent() && queue == old(queue)[1..]
      ensures currentWindow.Some? <==> old(queue)[0].Contains(position)
      ensures currentWindow.Some? ==> HasPosition()
    {
      var range := queue[0];
      RemoveKeeps(incomingWindows, range);
      incomingWindows := Remove(incomingWindows, range);
      assert queue == [range] + queue[1..];
      queue := queue[1..];
      currentWindow := if range.Contains(position) then Some(Window(range, Fetch(body, range))) else None;
    }

    /** Waits for the next window, after asking for one if none under way contains the position. */
    method AwaitWindow()
      requires Consistent() && |queue| <= 1 && position < objectSize && !HasPosition()
      modifies this`queue, this`incomingWindows, this`currentWindow
      ensures Consistent() && |queue| <= 1 && (HasPosition() ==> queue == [])
      ensures Remaining() < old(Remaining())
    {
      WaitingBound(queue, position);
      ProbesNeverMiss();
      ProbesSound(incomingWindows, position, WindowRange(0, 0));
      forall r | r in queue && r.Contains(position) ensures GetPositionCover(incomingWindows, position).Some? {
        assert r in incomingWindows;
      }
      if GetPositionCover(incomingWindows, position).None? {
        ghost var before := queue;
        AskPositionWindow();
        WaitingWhenAsked(before, queue[|before|], position);
      }
      ReceiveWindow();
    }

    /**
     * Finds the window for the position: takes whatever has arrived, and blocks only while something
     * is in flight. It ends because the first window that contains the position comes closer with
     * every window received.
     */
    method CurrentWindow()
      requires Valid() && position < objectSize
      modifies this`queue, this`incomingWindows, this`currentWindow
      ensures Valid() && HasPosition() && Prefetched()
    {
      while !HasPosition()
        invariant Consistent() && |queue| <= 1
        invariant HasPosition() ==> AtRest()
        decreases Remaining()
      {
        var arrived: bool := *;
        if arrived && queue != [] {
          WaitingBound(queue, position);
          ReceiveWindow();
        } else {
          AwaitWindow();
        }
      }
      AskNextWindow();
    }

    /** Reads at most one window's worth, from the cursor on. */
    method Read(n: nat) returns (bytes: Octets)
      requires Valid() && position < objectSize
      modifies this
      ensures Valid() && Prefetched()
      ensures position == old(position) + |bytes| <= objectSize && |bytes| <= n
      ensures bytes == body[old(position)..position]
      ensures |bytes| < n ==> position == Least(currentWindow.value.range.end, objectSize)
      ensures n > 0 ==> bytes != []
    {
      CurrentWindow();
      var window := currentWindow.value;
      var from := position - window.range.start;
      var available := window.buf[from..];
      bytes := if |available| <= n then available else available[..n];
      position := position + |bytes|;
    }

    /**
     * Moves only the cursor: to an offset, to so many bytes in front of the end (its start at most,
     * never past the end), or so many bytes on, stopped at either end of the machine's range.
     */
    method Seek(target: SeekFrom)
      requires Valid() && position <= USIZE_MAX && objectSize <= USIZE_MAX
      requires target.FromStart? ==> target.offset <= USIZE_MAX
      modifies this`position
      ensures Valid() && position <= USIZE_MAX
      ensures target.FromStart? ==> position == target.offset
      ensures target.FromEnd? ==> position <= objectSize
      ensures target.FromEnd? ==> (target.delta < 0 <==> position < objectSize)
      ensures target.FromEnd? && 0 < position < objectSize ==> objectSize - position == -target.delta
      ensures target.FromEnd? && position == 0 ==> -target.delta >= objectSize
      ensures target.FromCurrent? && 0 < position < USIZE_MAX ==> position - old(position) == target.delta
      ensures target.FromCurrent? && position == 0 ==> old(position) + target.delta <= 0
      ensures target.FromCurrent? && position == USIZE_MAX ==> old(position) + target.delta >= USIZE_MAX
    {
      match target
      case FromStart(offset) =>
        position := offset;
      case FromEnd(delta) =>
        position := if delta >= 0 then objectSize else Minus(objectSize, -delta);
      case FromCurrent(delta) =>
        position := if delta < 0 then Minus(position, -delta) else Least(position + delta, USIZE_MAX);
    }
  }

  /** A window that is asked for because none under way contains the position does not lengthen the wait. */
  lemma WaitingWhenAsked(before: seq<WindowRange>, asked: WindowRange, position: nat)
    requires asked.Contains(position) && forall r | r in before :: !r.Contains(position)
    ensures Waiting(before + [asked], position) < Waiting(before, position)
  {
    WaitingBound(before, position);
    WaitingAfterAsk(before, asked, position);
  }
}
