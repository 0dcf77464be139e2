/** The slab ring of the jrodon contender: writer, reader and lease drops as interleaved steps. */
module SlabRing {
  import opened Arithmetic
  import opened Bytes

  datatype SlabState = Free | Filling | Ready

  /** A sealed slab handed to the consumer; `bytes` remembers what it held when it was sealed. */
  datatype Lease = Lease(slab: nat, length: nat, bytes: Octets)

  /** Where the writer stands: `rest` are the bytes of the current call that are still to be copied. */
  datatype Control =
    | Idle
    | Top(rest: Octets)
    | Seal(rest: Octets)
    | Send(rest: Octets)
    | Search(rest: Octets, candidate: nat)
    | Claim(rest: Octets, next: nat)
    | FlushSeal
    | FlushSend

  /**
   * `received` and `sent` are histories, `given` is everything handed to `write` so far, and `lost` counts
   * the bytes copied into a slab that was not being filled any more. `orphans` are the slabs that a swap
   * found free and made ready without a lease.
   */
  datatype Ring = Ring(slabSize: nat, buf: Octets, states: seq<SlabState>, idx: nat, offset: nat, control: Control,
                       chan: seq<Lease>, live: seq<Lease>, received: seq<Octets>, sent: seq<Octets>, given: Octets,
                       lost: nat, orphans: set<nat>, flushed: bool, failed: bool)

  // ---------- Slabs in the buffer ----------

  function SlabStart(slabSize: nat, slab: nat): nat { slabSize * slab }

  lemma SlabInside(slabSize: nat, slab: nat, count: nat)
    requires slab < count
    ensures SlabStart(slabSize, slab) + slabSize <= slabSize * count
  {
    MulGap(slabSize, slab, count);
  }

  /** Different slabs do not overlap. */
  lemma SlabsApart(slabSize: nat, a: nat, b: nat)
    requires a < b
    ensures SlabStart(slabSize, a) + slabSize <= SlabStart(slabSize, b)
  {
    SlabInside(slabSize, a, b);
  }

  function SlabBytes(r: Ring, slab: nat, length: nat): Octets {
    if SlabStart(r.slabSize, slab) + length <= |r.buf|
    then r.buf[SlabStart(r.slabSize, slab)..SlabStart(r.slabSize, slab) + length] else []
  }

  // ---------- Steps ----------

  function Create(slabSize: nat, slabCount: nat): Ring {
    Ring(slabSize, seq(slabSize * slabCount, _ => 0),
         seq(slabCount, i => if i == 0 then Filling else Free), 0, 0, Idle, [], [], [], [], [], 0, {}, false, false)
  }

  datatype Step = CallWrite(bytes: Octets) | CallFlush | Advance | Receive | Drop(i: nat)

  /** One turn of the copy loop: either the slab is full, or as much as fits is copied. */
  function CopyTurn(r: Ring, rest: Octets): Ring {
    if rest == [] then r.(control := Idle)
    else if r.offset >= r.slabSize then r.(control := Seal(rest))
    else
      var n := Least(|rest|, r.slabSize - r.offset);
      var at := SlabStart(r.slabSize, r.idx) + r.offset;
      if r.idx >= |r.states| || at + n > |r.buf| then r.(failed := true)
      else r.(buf := Put(r.buf, at, rest[..n]), offset := r.offset + n, control := Top(rest[n..]),
              lost := r.lost + if r.states[r.idx] == Filling then 0 else n)
  }

  /** The swap in `seal`: a lease follows only if the slab was being filled. */
  function SealSwap(r: Ring, sealed: Control, otherwise: Control): Ring {
    if r.idx >= |r.states| then r.(failed := true)
    else if r.states[r.idx] == Filling then r.(states := r.states[r.idx := Ready], control := sealed)
    else r.(states := r.states[r.idx := Ready], control := otherwise,
            orphans := r.orphans + if r.states[r.idx] == Free then {r.idx} else {})
  }

  function SendLease(r: Ring, after: Control): Ring {
    var bytes := SlabBytes(r, r.idx, r.offset);
    r.(chan := r.chan + [Lease(r.idx, r.offset, bytes)], sent := r.sent + [bytes], control := after)
  }

  /** The next candidate; coming round to the current slab means waiting and starting over. */
  function SearchTurn(r: Ring, rest: Octets, candidate: nat): Ring {
    if |r.states| == 0 then r.(failed := true)
    else
      var next := (candidate + 1) % |r.states|;
      if next == r.idx then r.(control := Search(rest, r.idx))
      else if r.states[next] == Free then r.(control := Claim(rest, next))
      else r.(control := Search(rest, next))
  }

  /** The claiming swap; a slab that is not free any more is the writer's `unreachable!`. */
  function ClaimSwap(r: Ring, rest: Octets, next: nat): Ring {
    if next >= |r.states| || r.states[next] != Free then r.(failed := true)
    else r.(states := r.states[next := Filling], idx := next, offset := 0, control := Top(rest))
  }

  function AdvanceWriter(r: Ring): Ring {
    match r.control
    case Idle => r
    case Top(rest) => CopyTurn(r, rest)
    case Seal(rest) => SealSwap(r, Send(rest), Search(rest, r.idx))
    case Send(rest) => SendLease(r, Search(rest, r.idx))
    case Search(rest, candidate) => SearchTurn(r, rest, candidate)
    case Claim(rest, next) => ClaimSwap(r, rest, next)
    case FlushSeal => SealSwap(r, FlushSend, Idle).(flushed := true)
    case FlushSend => SendLease(r, Idle)
  }

  /** Dropping a lease frees its slab; any other state is the lease's `unreachable!`. */
  function DropLease(r: Ring, i: nat): Ring
    requires i < |r.live|
  {
    var slab := r.live[i].slab;
    if slab >= |r.states| || r.states[slab] != Ready then r.(failed := true)
    else r.(states := r.states[slab := Free], live := r.live[..i] + r.live[i + 1..])
  }

  function StepOf(r: Ring, s: Step): Ring {
    match s
    case CallWrite(bytes) => if r.control == Idle then r.(control := Top(bytes), given := r.given + bytes) else r
    case CallFlush => if r.control == Idle && r.offset > 0 then r.(control := FlushSeal) else r
    case Advance => AdvanceWriter(r)
    case Receive =>
      if r.chan == [] then r
      else r.(chan := r.chan[1..], live := r.live + [r.chan[0]], received := r.received + [r.chan[0].bytes])
    case Drop(i) => if i < |r.live| then DropLease(r, i) else r
  }

  function Run(slabSize: nat, slabCount: nat, steps: seq<Step>): Ring {
    if steps == [] then Create(slabSize, slabCount)
    else StepOf(Run(slabSize, slabCount, steps[..|steps| - 1]), steps[|steps| - 1])
  }

  // ---------- The invariant ----------

  function Leases(r: Ring): seq<Lease> { r.chan + r.live }

  predicate Sending(r: Ring) { r.control.Send? || r.control.FlushSend? }

  predicate Geometry(r: Ring) {
    && r.slabSize > 0 && |r.states| >= 2 && |r.buf| == r.slabSize * |r.states|
    && r.idx < |r.states| && r.offset <= r.slabSize && !r.failed
  }

  /** The writer's slab has been sealed and its lease sent. */
  predicate Handed(r: Ring)
    requires Geometry(r)
  {
    r.states[r.idx] != Filling && !Sending(r)
  }

  /** What the position of the writer says about its slab. */
  predicate Positioned(r: Ring)
    requires Geometry(r)
  {
    && (Sending(r) ==> r.states[r.idx] == Ready)
    && (r.control.Search? || r.control.Claim? ==> Handed(r))
    && (r.control.Claim? ==> r.control.next < |r.states| && r.control.next != r.idx && r.states[r.control.next] == Free)
    && (r.control.Search? ==> r.control.candidate < |r.states|)
    && (r.control.Seal? || r.control.Send? || r.control.Search? || r.control.Claim? ==> r.control.rest != [])
    && (r.control.Seal? || r.control.Send? ==> r.offset == r.slabSize)
    && (r.control.FlushSeal? || r.control.FlushSend? ==> r.offset > 0)
  }

  /** A lease holds a ready slab; behind it the writer may go on in its own slab once that has been handed over. */
  ghost predicate LeaseFits(r: Ring, l: Lease)
    requires Geometry(r)
  {
    && l.slab < |r.states| && r.states[l.slab] == Ready && (l.slab == r.idx ==> Handed(r) && l.length <= r.offset)
    && l.length <= r.slabSize && SlabBytes(r, l.slab, l.length) == l.bytes
  }

  ghost predicate Distinct(leases: seq<Lease>) {
    forall i, j | 0 <= i < j < |leases| :: leases[i].slab != leases[j].slab
  }

  ghost predicate LeasesFit(r: Ring)
    requires Geometry(r)
  {
    (forall l | l in Leases(r) :: LeaseFits(r, l)) && Distinct(Leases(r))
  }

  ghost predicate OnlyWriterFills(r: Ring) {
    forall s | 0 <= s < |r.states| :: r.states[s] == Filling ==> s == r.idx
  }

  function BytesOf(leases: seq<Lease>): (bytes: seq<Octets>)
    ensures |bytes| == |leases|
  {
    seq(|leases|, i requires 0 <= i < |leases| => leases[i].bytes)
  }

  /** What stands in the writer's slab and has not been sent. */
  function Pending(r: Ring): Octets
    requires Geometry(r)
  {
    if Handed(r) then [] else SlabBytes(r, r.idx, r.offset)
  }

  function Rest(c: Control): Octets {
    match c
    case Top(rest) => rest
    case Seal(rest) => rest
    case Send(rest) => rest
    case Search(rest, _) => rest
    case Claim(rest, _) => rest
    case _ => []
  }

  /** Sent, pending and still to come are what was given, but for the bytes that were lost. */
  predicate Balanced(sent: Octets, pending: Octets, rest: Octets, lost: nat, given: Octets) {
    |sent| + |pending| + |rest| + lost == |given| && (lost == 0 ==> sent + pending + rest == given)
  }

  predicate InOrder(r: Ring)
    requires Geometry(r)
  {
    r.received + BytesOf(r.chan) == r.sent && Balanced(Flatten(r.sent), Pending(r), Rest(r.control), r.lost, r.given)
  }

  /** No lease is empty or larger than a slab. */
  ghost predicate SizesFit(r: Ring) {
    forall i | 0 <= i < |r.sent| :: 0 < |r.sent[i]| <= r.slabSize
  }

  ghost predicate Placed(r: Ring) { Geometry(r) && Positioned(r) }

  ghost predicate Inv(r: Ring) {
    Placed(r) && LeasesFit(r) && OnlyWriterFills(r) && InOrder(r) && SizesFit(r)
  }

  // ---------- Preservation ----------

  lemma CreateInv(slabSize: nat, slabCount: nat)
    requires slabSize > 0 && slabCount >= 2
    ensures Inv(Create(slabSize, slabCount))
  {}

  /** What a step that touches neither leases nor slabs has to keep. */
  lemma SameLeases(r: Ring, next: Ring)
    requires Geometry(r) && LeasesFit(r) && Geometry(next) && Sending(next) == Sending(r)
    requires next.slabSize == r.slabSize && next.buf == r.buf && next.states == r.states
    requires next.idx == r.idx && next.offset == r.offset && next.chan == r.chan && next.live == r.live
    ensures LeasesFit(next)
  {
    forall l | l in Leases(next) ensures LeaseFits(next, l) {
      assert LeaseFits(r, l);
    }
  }

  lemma CallWriteKeeps(r: Ring, bytes: Octets)
    requires Inv(r) && r.control == Idle
    ensures Inv(r.(control := Top(bytes), given := r.given + bytes))
  {
    SameLeases(r, r.(control := Top(bytes), given := r.given + bytes));
    MoreGiven(Flatten(r.sent), Pending(r), r.lost, r.given, bytes);
  }

  lemma MoreGiven(sent: Octets, pending: Octets, lost: nat, given: Octets, bytes: Octets)
    requires Balanced(sent, pending, [], lost, given)
    ensures Balanced(sent, pending, bytes, lost, given + bytes)
  {
    assert sent + pending + [] == sent + pending;
  }

  lemma ControlOrder(r: Ring, next: Ring)
    requires Placed(r) && Placed(next) && InOrder(r) && next == r.(control := next.control)
    requires !Sending(r) && !Sending(next) && Rest(next.control) == Rest(r.control)
    ensures InOrder(next)
  {}

  lemma ControlRest(r: Ring, next: Ring)
    requires OnlyWriterFills(r) && SizesFit(r) && next == r.(control := next.control)
    ensures OnlyWriterFills(next) && SizesFit(next)
  {}

  /** A step that only moves the writer on. */
  lemma ControlKeeps(r: Ring, next: Ring)
    requires Inv(r) && next == r.(control := next.control) && Positioned(next)
    requires !Sending(r) && !Sending(next) && Rest(next.control) == Rest(r.control)
    ensures Inv(next)
  {
    SameLeases(r, next);
    ControlOrder(r, next);
    ControlRest(r, next);
  }

  /** Copying behind a lease, or into another slab, leaves the lease's bytes alone. */
  lemma CopyLeavesLease(r: Ring, bytes: Octets, l: Lease)
    requires Geometry(r) && LeaseFits(r, l)
    requires r.offset + |bytes| <= r.slabSize && SlabStart(r.slabSize, r.idx) + r.slabSize <= |r.buf|
    ensures SlabBytes(r.(buf := Put(r.buf, SlabStart(r.slabSize, r.idx) + r.offset, bytes)), l.slab, l.length) == l.bytes
  {
    SlabInside(r.slabSize, l.slab, |r.states|);
    if l.slab < r.idx {
      SlabsApart(r.slabSize, l.slab, r.idx);
    } else if l.slab > r.idx {
      SlabsApart(r.slabSize, r.idx, l.slab);
    }
    PutElsewhere(r.buf, SlabStart(r.slabSize, r.idx) + r.offset, bytes, SlabStart(r.slabSize, l.slab),
                 SlabStart(r.slabSize, l.slab) + l.length);
  }

  lemma PutAppends(buf: Octets, start: nat, offset: nat, bytes: Octets)
    requires start + offset + |bytes| <= |buf|
    ensures Put(buf, start + offset, bytes)[start..start + offset + |bytes|] == buf[start..start + offset] + bytes
  {
    var after := Put(buf, start + offset, bytes);
    assert after[start..start + offset] == buf[start..start + offset];
    assert after[start + offset..start + offset + |bytes|] == bytes;
    assert after[start..start + offset + |bytes|] == after[start..start + offset] + after[start + offset..start + offset + |bytes|];
  }

  lemma CopyBalances(sent: Octets, pending: Octets, rest: Octets, n: nat, lost: nat, given: Octets)
    requires n <= |rest| && Balanced(sent, pending, rest, lost, given)
    ensures Balanced(sent, pending + rest[..n], rest[n..], lost, given)
  {
    assert rest == rest[..n] + rest[n..];
    assert sent + (pending + rest[..n]) + rest[n..] == sent + pending + rest;
  }

  /** What one copy turn does, once the slab is known to lie inside the buffer. */
  lemma CopyTurnIs(r: Ring, rest: Octets, n: nat)
    requires Geometry(r) && rest != [] && r.offset < r.slabSize && n == Least(|rest|, r.slabSize - r.offset)
    ensures SlabStart(r.slabSize, r.idx) + r.slabSize <= |r.buf|
    ensures CopyTurn(r, rest)
         == r.(buf := Put(r.buf, SlabStart(r.slabSize, r.idx) + r.offset, rest[..n]), offset := r.offset + n, control := Top(rest[n..]),
               lost := r.lost + if r.states[r.idx] == Filling then 0 else n)
  {
    SlabInside(r.slabSize, r.idx, |r.states|);
  }

  ghost predicate Copied(r: Ring, bytes: Octets, next: Ring)
    requires Geometry(r)
  {
    && r.control.Top? && next.control.Top? && r.offset + |bytes| <= r.slabSize
    && SlabStart(r.slabSize, r.idx) + r.slabSize <= |r.buf|
    && next == r.(buf := Put(r.buf, SlabStart(r.slabSize, r.idx) + r.offset, bytes), offset := r.offset + |bytes|,
                  control := next.control, lost := next.lost)
  }

  lemma CopyKeepsLeases(r: Ring, bytes: Octets, next: Ring)
    requires Geometry(r) && LeasesFit(r) && Copied(r, bytes, next)
    ensures Geometry(next) && LeasesFit(next)
  {
    forall l | l in Leases(next) ensures LeaseFits(next, l) {
      assert LeaseFits(r, l);
      CopyLeavesLease(r, bytes, l);
    }
  }

  lemma CopyPends(r: Ring, bytes: Octets, next: Ring)
    requires Geometry(r) && Copied(r, bytes, next) && Geometry(next)
    ensures Pending(next) == if r.states[r.idx] == Filling then Pending(r) + bytes else []
  {
    PutAppends(r.buf, SlabStart(r.slabSize, r.idx), r.offset, bytes);
  }

  lemma CopyKeeps(r: Ring, rest: Octets, n: nat, next: Ring)
    requires Inv(r) && r.control == Top(rest) && 0 < n <= |rest| && next.control == Top(rest[n..])
    requires Copied(r, rest[..n], next) && next.lost == r.lost + if r.states[r.idx] == Filling then 0 else n
    ensures Inv(next)
  {
    CopyKeepsLeases(r, rest[..n], next);
    CopyPends(r, rest[..n], next);
    if r.states[r.idx] == Filling {
      CopyBalances(Flatten(r.sent), Pending(r), rest, n, r.lost, r.given);
    }
  }

  lemma TopKeeps(r: Ring, rest: Octets, next: Ring)
    requires Inv(r) && r.control == Top(rest) && next == CopyTurn(r, rest)
    ensures Inv(next)
  {
    if rest == [] || r.offset >= r.slabSize {
      ControlKeeps(r, next);
    } else {
      var n := Least(|rest|, r.slabSize - r.offset);
      CopyTurnIs(r, rest, n);
      CopyKeeps(r, rest, n, next);
    }
  }

  // ---------- Sealing ----------

  lemma SealKeepsLeases(r: Ring, next: Ring)
    requires Geometry(r) && LeasesFit(r) && !Sending(r)
    requires next == r.(states := r.states[r.idx := Ready], control := next.control, orphans := next.orphans, flushed := next.flushed)
    requires Geometry(next) && (Sending(next) <==> r.states[r.idx] == Filling)
    ensures LeasesFit(next)
  {
    forall l | l in Leases(next) ensures LeaseFits(next, l) {
      assert LeaseFits(r, l);
    }
  }

  /** Sealing moves no byte: a slab that was being filled is about to be sent, any other stays as it was. */
  lemma SealKeeps(r: Ring, next: Ring)
    requires Inv(r) && !Sending(r)
    requires next == r.(states := r.states[r.idx := Ready], control := next.control, orphans := next.orphans, flushed := next.flushed)
    requires Geometry(next) && Positioned(next) && (Sending(next) <==> r.states[r.idx] == Filling)
    requires Rest(next.control) == Rest(r.control)
    ensures Inv(next)
  {
    SealKeepsLeases(r, next);
    assert Pending(next) == Pending(r);
  }

  // ---------- Sending a lease ----------

  lemma SlabLength(r: Ring)
    requires Geometry(r)
    ensures |SlabBytes(r, r.idx, r.offset)| == r.offset
  {
    SlabInside(r.slabSize, r.idx, |r.states|);
  }

  lemma LeaseJoins(chan: seq<Lease>, live: seq<Lease>, l: Lease)
    requires Distinct(chan + live) && forall x | x in chan + live :: x.slab != l.slab
    ensures Distinct((chan + [l]) + live)
    ensures forall x :: x in (chan + [l]) + live <==> x == l || x in chan + live
  {
    var all, now := chan + live, (chan + [l]) + live;
    forall i, j | 0 <= i < j < |now| ensures now[i].slab != now[j].slab {
      var a := if i < |chan| then i else i - 1;
      var b := if j < |chan| then j else j - 1;
      if i == |chan| {
        assert now[j] == all[b] && all[b] in all;
      } else if j == |chan| {
        assert now[i] == all[a] && all[a] in all;
      } else {
        assert now[i] == all[a] && now[j] == all[b];
      }
    }
  }

  lemma SendKeepsLeases(r: Ring, next: Ring, l: Lease)
    requires Placed(r) && LeasesFit(r) && Sending(r) && l == Lease(r.idx, r.offset, SlabBytes(r, r.idx, r.offset))
    requires next == r.(chan := r.chan + [l], sent := r.sent + [l.bytes], control := next.control)
    requires !Sending(next)
    ensures LeasesFit(next)
  {
    forall x | x in Leases(r) ensures x.slab != l.slab {
      assert LeaseFits(r, x);
    }
    LeaseJoins(r.chan, r.live, l);
    forall x | x in Leases(next) ensures LeaseFits(next, x) {
      assert x != l ==> LeaseFits(r, x);
    }
  }

  lemma SendBalances(sent: seq<Octets>, bytes: Octets, rest: Octets, lost: nat, given: Octets)
    requires Balanced(Flatten(sent), bytes, rest, lost, given)
    ensures Balanced(Flatten(sent + [bytes]), [], rest, lost, given)
  {
    FlattenAppend(sent, bytes);
    Nothing(Flatten(sent) + bytes);
  }

  lemma ChannelGrows(received: seq<Octets>, chan: seq<Lease>, l: Lease)
    ensures received + BytesOf(chan + [l]) == (received + BytesOf(chan)) + [l.bytes]
  {
    assert BytesOf(chan + [l]) == BytesOf(chan) + [l.bytes];
  }

  lemma SendKeepsSizes(r: Ring, next: Ring, bytes: Octets)
    requires SizesFit(r) && next.slabSize == r.slabSize && next.sent == r.sent + [bytes] && 0 < |bytes| <= r.slabSize
    ensures SizesFit(next)
  {}

  lemma SendKeeps(r: Ring, next: Ring)
    requires Inv(r) && Sending(r) && r.offset > 0 && next == SendLease(r, next.control)
    requires !Sending(next) && Rest(next.control) == Rest(r.control) && Placed(next)
    ensures Inv(next)
  {
    var l := Lease(r.idx, r.offset, SlabBytes(r, r.idx, r.offset));
    SlabLength(r);
    SendKeepsLeases(r, next, l);
    SendBalances(r.sent, l.bytes, Rest(r.control), r.lost, r.given);
    ChannelGrows(r.received, r.chan, l);
    SendKeepsSizes(r, next, l.bytes);
  }

  // ---------- Searching and claiming ----------

  lemma NextCandidateIn(candidate: nat, count: nat)
    requires count > 0
    ensures (candidate + 1) % count < count
  {}

  lemma SearchMoves(r: Ring, rest: Octets, candidate: nat, next: Ring)
    requires Placed(r) && r.control == Search(rest, candidate) && next == SearchTurn(r, rest, candidate)
    ensures Placed(next) && next == r.(control := next.control)
    ensures !Sending(r) && !Sending(next) && Rest(next.control) == rest && !next.control.Top?
  {
    NextCandidateIn(candidate, |r.states|);
  }

  lemma SearchKeeps(r: Ring, rest: Octets, candidate: nat, next: Ring)
    requires Inv(r) && r.control == Search(rest, candidate) && next == SearchTurn(r, rest, candidate)
    ensures Inv(next)
  {
    SearchMoves(r, rest, candidate, next);
    ControlKeeps(r, next);
  }

  lemma ClaimKeepsLeases(r: Ring, next: Ring)
    requires Placed(r) && LeasesFit(r) && r.control.Claim? && next == ClaimSwap(r, r.control.rest, r.control.next)
    ensures Geometry(next) && LeasesFit(next)
  {
    forall l | l in Leases(next) ensures LeaseFits(next, l) {
      assert LeaseFits(r, l);
    }
  }

  lemma ClaimKeeps(r: Ring, next: Ring)
    requires Inv(r) && r.control.Claim? && next == ClaimSwap(r, r.control.rest, r.control.next)
    ensures Inv(next)
  {
    ClaimKeepsLeases(r, next);
    SlabLength(next);
    assert Pending(next) == [];
  }

  // ---------- The consumer ----------

  lemma DistinctRotates(leases: seq<Lease>)
    requires leases != [] && Distinct(leases)
    ensures Distinct(leases[1..] + [leases[0]])
    ensures forall x :: x in leases[1..] + [leases[0]] <==> x in leases
  {
    assert leases == [leases[0]] + leases[1..];
  }

  /** A step of the consumer that keeps only leases there were. */
  lemma FewerLeases(r: Ring, next: Ring)
    requires Geometry(r) && LeasesFit(r) && Geometry(next) && Distinct(Leases(next))
    requires next.slabSize == r.slabSize && next.buf == r.buf && next.idx == r.idx && next.offset == r.offset
    requires next.control == r.control && (r.states[r.idx] == Filling <==> next.states[next.idx] == Filling)
    requires |next.states| == |r.states| && forall l | l in Leases(next) :: l in Leases(r) && next.states[l.slab] == r.states[l.slab]
    ensures LeasesFit(next)
  {
    forall l | l in Leases(next) ensures LeaseFits(next, l) {
      assert LeaseFits(r, l);
    }
  }

  lemma ReceivedStill(received: seq<Octets>, chan: seq<Lease>)
    requires chan != []
    ensures (received + [chan[0].bytes]) + BytesOf(chan[1..]) == received + BytesOf(chan)
  {}

  lemma ReceiveKeeps(r: Ring, next: Ring)
    requires Inv(r) && r.chan != []
    requires next == r.(chan := r.chan[1..], live := r.live + [r.chan[0]], received := r.received + [r.chan[0].bytes])
    ensures Inv(next)
  {
    DistinctRotates(Leases(r));
    assert Leases(next) == Leases(r)[1..] + [Leases(r)[0]];
    forall l | l in Leases(next) ensures l in Leases(r) && l.slab < |r.states| {
      assert LeaseFits(r, l);
    }
    FewerLeases(r, next);
    ReceivedStill(r.received, r.chan);
  }

  lemma DistinctWithout(leases: seq<Lease>, k: nat)
    requires k < |leases| && Distinct(leases)
    ensures Distinct(leases[..k] + leases[k + 1..])
    ensures forall x :: x in leases[..k] + leases[k + 1..] <==> x in leases && x.slab != leases[k].slab
  {
    var less := leases[..k] + leases[k + 1..];
    forall i, j | 0 <= i < j < |less| ensures less[i].slab != less[j].slab {
      assert less[i] == leases[if i < k then i else i + 1];
      assert less[j] == leases[if j < k then j else j + 1];
    }
    forall x ensures x in less <==> x in leases && x.slab != leases[k].slab {
      if x in less {
        var i :| 0 <= i < |less| && less[i] == x;
        assert x == leases[if i < k then i else i + 1];
      }
      if x in leases && x.slab != leases[k].slab {
        var i :| 0 <= i < |leases| && leases[i] == x;
        assert x == less[if i < k then i else i - 1];
      }
    }
  }

  lemma LeaseAt(chan: seq<Lease>, live: seq<Lease>, i: nat)
    requires i < |live|
    ensures (chan + live)[|chan| + i] == live[i]
    ensures chan + (live[..i] + live[i + 1..]) == (chan + live)[..|chan| + i] + (chan + live)[|chan| + i + 1..]
  {}

  lemma LeaseLeaves(chan: seq<Lease>, live: seq<Lease>, i: nat)
    requires i < |live| && Distinct(chan + live)
    ensures Distinct(chan + (live[..i] + live[i + 1..]))
    ensures forall x :: x in chan + (live[..i] + live[i + 1..]) <==> x in chan + live && x.slab != live[i].slab
  {
    LeaseAt(chan, live, i);
    DistinctWithout(chan + live, |chan| + i);
  }

  lemma DropFound(r: Ring, i: nat)
    requires Geometry(r) && LeasesFit(r) && i < |r.live|
    ensures r.live[i] in Leases(r) && LeaseFits(r, r.live[i])
    ensures Distinct(Leases(DropLease(r, i)))
    ensures forall x :: x in Leases(DropLease(r, i)) <==> x in Leases(r) && x.slab != r.live[i].slab
  {
    assert r.live[i] in Leases(r);
    LeaseLeaves(r.chan, r.live, i);
  }

  lemma DropKeeps(r: Ring, i: nat, next: Ring)
    requires Inv(r) && i < |r.live| && next == DropLease(r, i)
    ensures Inv(next)
  {
    DropFound(r, i);
    DropKeepsRest(r, r.live[i], next);
  }

  lemma DropKeepsLeases(r: Ring, dropped: Lease, next: Ring)
    requires Geometry(r) && LeasesFit(r) && LeaseFits(r, dropped)
    requires next == r.(states := r.states[dropped.slab := Free], live := next.live)
    requires Distinct(Leases(next)) && forall x :: x in Leases(next) <==> x in Leases(r) && x.slab != dropped.slab
    ensures Geometry(next) && LeasesFit(next)
  {
    forall l | l in Leases(next) ensures l in Leases(r) && l.slab < |r.states| && next.states[l.slab] == r.states[l.slab] {
      assert LeaseFits(r, l);
    }
    FewerLeases(r, next);
  }

  lemma DropKeepsPlace(r: Ring, dropped: Lease, next: Ring)
    requires Placed(r) && LeaseFits(r, dropped)
    requires next == r.(states := r.states[dropped.slab := Free], live := next.live)
    ensures Placed(next) && Pending(next) == Pending(r) && (OnlyWriterFills(r) ==> OnlyWriterFills(next))
    ensures r.states[r.idx] == Filling <==> next.states[next.idx] == Filling
  {}

  lemma DropKeepsOrder(r: Ring, next: Ring)
    requires Placed(r) && Placed(next) && InOrder(r) && SizesFit(r) && Pending(next) == Pending(r)
    requires next == r.(states := next.states, live := next.live)
    ensures InOrder(next) && SizesFit(next)
  {}

  lemma DropKeepsRest(r: Ring, dropped: Lease, next: Ring)
    requires Inv(r) && LeaseFits(r, dropped)
    requires next == r.(states := r.states[dropped.slab := Free], live := next.live)
    requires Distinct(Leases(next)) && forall x :: x in Leases(next) <==> x in Leases(r) && x.slab != dropped.slab
    ensures Inv(next)
  {
    DropKeepsLeases(r, dropped, next);
    DropKeepsPlace(r, dropped, next);
    DropKeepsOrder(r, next);
  }

  // ---------- Every run ----------

  lemma SealMoves(r: Ring, next: Ring)
    requires Placed(r) && (r.control.Seal? || r.control.FlushSeal?) && next == AdvanceWriter(r)
    ensures next == r.(states := r.states[r.idx := Ready], control := next.control, orphans := next.orphans, flushed := next.flushed)
    ensures Placed(next) && (Sending(next) <==> r.states[r.idx] == Filling) && Rest(next.control) == Rest(r.control)
  {}

  lemma SendMoves(r: Ring, next: Ring)
    requires Placed(r) && Sending(r) && next == AdvanceWriter(r)
    ensures next == SendLease(r, next.control)
    ensures Placed(next) && !Sending(next) && Rest(next.control) == Rest(r.control)
  {}

  lemma AdvanceKeeps(r: Ring, next: Ring)
    requires Inv(r) && next == AdvanceWriter(r)
    ensures Inv(next)
  {
    if r.control.Seal? || r.control.FlushSeal? {
      SealMoves(r, next);
      SealKeeps(r, next);
    } else if Sending(r) {
      SendMoves(r, next);
      SendKeeps(r, next);
    } else {
      match r.control
      case Idle =>
      case Top(rest) => TopKeeps(r, rest, next);
      case Search(rest, candidate) => SearchKeeps(r, rest, candidate, next);
      case Claim(_, _) => ClaimKeeps(r, next);
    }
  }

  lemma StepKeeps(r: Ring, s: Step, next: Ring)
    requires Inv(r) && next == StepOf(r, s)
    ensures Inv(next)
  {
    match s
    case CallWrite(bytes) => if r.control == Idle { CallWriteKeeps(r, bytes); }
    case CallFlush => if r.control == Idle && r.offset > 0 { ControlKeeps(r, next); }
    case Advance => AdvanceKeeps(r, next);
    case Receive => if r.chan != [] { ReceiveKeeps(r, next); }
    case Drop(i) => if i < |r.live| { DropKeeps(r, i, next); }
  }

  lemma {:induction false} RunKeeps(slabSize: nat, slabCount: nat, steps: seq<Step>)
    requires slabSize > 0 && slabCount >= 2
    ensures Inv(Run(slabSize, slabCount, steps))
    decreases |steps|
  {
    if steps == [] {
      CreateInv(slabSize, slabCount);
    } else {
      var front := steps[..|steps| - 1];
      RunKeeps(slabSize, slabCount, front);
      StepKeeps(Run(slabSize, slabCount, front), steps[|steps| - 1], Run(slabSize, slabCount, steps));
    }
  }

  /** The bytes a lease was sealed with still stand in its slab, which nobody else leases or fills. */
  ghost predicate LeaseLasts(r: Ring, l: Lease) {
    && l.slab < |r.states| && r.states[l.slab] == Ready && |r.buf| == r.slabSize * |r.states|
    && l.length <= r.slabSize && SlabBytes(r, l.slab, l.length) == l.bytes
  }

  /**
   * In every interleaving of writer, receiver and drops, whatever is called when: no `unreachable!` is
   * reached; the received leases, those under way, the slab being filled and the bytes to come are the
   * bytes given, in order, but for those counted as lost; no lease is empty or larger than a slab; and
   * a lease's bytes never change while it is alive.
   */
  lemma RingTheorem(slabSize: nat, slabCount: nat, steps: seq<Step>)
    requires slabSize > 0 && slabCount >= 2
    ensures var r := Run(slabSize, slabCount, steps);
      && Geometry(r) && InOrder(r) && SizesFit(r)
      && Distinct(Leases(r)) && forall l | l in Leases(r) :: LeaseLasts(r, l)
  {
    RunKeeps(slabSize, slabCount, steps);
    LeasesLast(Run(slabSize, slabCount, steps));
  }

  lemma LeasesLast(r: Ring)
    requires Inv(r)
    ensures forall l | l in Leases(r) :: LeaseLasts(r, l)
  {
    forall l | l in Leases(r) ensures LeaseLasts(r, l) {
      assert LeaseFits(r, l);
    }
  }

  // ---------- Every ready slab ----------

  ghost predicate LeasedSlab(r: Ring, slab: nat) {
    exists l :: l in Leases(r) && l.slab == slab
  }

  /** Slab `s` is ready, and nobody will ever free it. */
  ghost predicate Orphan(r: Ring, s: nat) {
    s < |r.states| && r.states[s] == Ready && !LeasedSlab(r, s) && !(s == r.idx && Sending(r))
  }

  /** The orphans are exactly the ready slabs without a lease and without one about to be sent. */
  ghost predicate Accounted(r: Ring) {
    forall s: nat :: s in r.orphans <==> Orphan(r, s)
  }

  lemma LeasedSame(r: Ring, next: Ring, s: nat)
    requires forall l :: l in Leases(next) && l.slab == s <==> l in Leases(r) && l.slab == s
    ensures LeasedSlab(next, s) <==> LeasedSlab(r, s)
  {
    if LeasedSlab(r, s) {
      var l :| l in Leases(r) && l.slab == s;
      assert l in Leases(next);
    }
    if LeasedSlab(next, s) {
      var l :| l in Leases(next) && l.slab == s;
      assert l in Leases(r);
    }
  }

  /** A step that leaves states, leases and sending alone. */
  lemma StillAccounted(r: Ring, next: Ring)
    requires Accounted(r) && next.orphans == r.orphans && next.states == r.states && next.idx == r.idx && Sending(next) == Sending(r)
    requires forall l :: l in Leases(next) <==> l in Leases(r)
    ensures Accounted(next)
  {
    forall s: nat ensures s in next.orphans <==> Orphan(next, s) {
      LeasedSame(r, next, s);
    }
  }

  lemma SealAccounts(r: Ring, next: Ring)
    requires Placed(r) && LeasesFit(r) && Accounted(r) && (r.control.Seal? || r.control.FlushSeal?) && next == AdvanceWriter(r)
    ensures Accounted(next)
  {
    forall s: nat ensures s in next.orphans <==> Orphan(next, s) {
      LeasedSame(r, next, s);
      if s == r.idx && LeasedSlab(r, s) {
        var l :| l in Leases(r) && l.slab == s;
        assert LeaseFits(r, l);
      }
    }
  }

  lemma SendAccounts(r: Ring, next: Ring)
    requires Placed(r) && Accounted(r) && Sending(r) && next == AdvanceWriter(r)
    ensures Accounted(next)
  {
    var sent := Lease(r.idx, r.offset, SlabBytes(r, r.idx, r.offset));
    SendMoves(r, next);
    assert forall l :: l in Leases(next) <==> l == sent || l in Leases(r);
    forall s: nat ensures s in next.orphans <==> Orphan(next, s) {
      if s == r.idx {
        assert sent in Leases(next);
      } else {
        LeasedSame(r, next, s);
      }
    }
  }

  lemma ClaimAccounts(r: Ring, next: Ring)
    requires Placed(r) && Accounted(r) && r.control.Claim? && next == AdvanceWriter(r)
    ensures Accounted(next)
  {
    forall s: nat ensures s in next.orphans <==> Orphan(next, s) {
      LeasedSame(r, next, s);
    }
  }

  lemma TopMoves(r: Ring, next: Ring)
    requires Placed(r) && r.control.Top? && next == AdvanceWriter(r)
    ensures next.orphans == r.orphans && next.states == r.states && next.idx == r.idx && Leases(next) == Leases(r)
    ensures !Sending(next) && next.chan == r.chan && next.live == r.live
  {}

  lemma AdvanceAccounts(r: Ring, next: Ring)
    requires Placed(r) && LeasesFit(r) && Accounted(r) && next == AdvanceWriter(r)
    ensures Accounted(next)
  {
    if r.control.Seal? || r.control.FlushSeal? {
      SealAccounts(r, next);
    } else if Sending(r) {
      SendAccounts(r, next);
    } else {
      match r.control
      case Idle =>
      case Top(_) =>
        TopMoves(r, next);
        StillAccounted(r, next);
      case Search(rest, candidate) =>
        SearchMoves(r, rest, candidate, next);
        StillAccounted(r, next);
      case Claim(_, _) => ClaimAccounts(r, next);
    }
  }

  lemma DropAccounts(r: Ring, i: nat, next: Ring)
    requires Geometry(r) && LeasesFit(r) && Accounted(r) && i < |r.live| && next == DropLease(r, i)
    ensures Accounted(next)
  {
    DropFound(r, i);
    forall s: nat ensures s in next.orphans <==> Orphan(next, s) {
      if s == r.live[i].slab {
        assert LeasedSlab(r, s);
      } else {
        LeasedSame(r, next, s);
      }
    }
  }

  lemma ReceiveAccounts(r: Ring, next: Ring)
    requires Accounted(r) && r.chan != [] && next == StepOf(r, Receive)
    ensures Accounted(next)
  {
    assert Leases(r) == [r.chan[0]] + r.chan[1..] + r.live;
    assert Leases(next) == r.chan[1..] + (r.live + [r.chan[0]]);
    StillAccounted(r, next);
  }

  lemma StepAccounts(r: Ring, s: Step, next: Ring)
    requires Inv(r) && Accounted(r) && next == StepOf(r, s)
    ensures Accounted(next)
  {
    match s
    case Advance => AdvanceAccounts(r, next);
    case Drop(i) => if i < |r.live| { DropAccounts(r, i, next); }
    case Receive => if r.chan != [] { ReceiveAccounts(r, next); }
    case _ => StillAccounted(r, next);
  }

  lemma {:induction false} RunAccounts(slabSize: nat, slabCount: nat, steps: seq<Step>)
    requires slabSize > 0 && slabCount >= 2
    ensures Accounted(Run(slabSize, slabCount, steps))
    decreases |steps|
  {
    if steps != [] {
      var front := steps[..|steps| - 1];
      RunKeeps(slabSize, slabCount, front);
      RunAccounts(slabSize, slabCount, front);
      StepAccounts(Run(slabSize, slabCount, front), steps[|steps| - 1], Run(slabSize, slabCount, steps));
    }
  }

  // ---------- When bytes are lost ----------

  /** A flush has sealed the writer's slab before it was full. */
  predicate SealedShort(r: Ring) {
    r.idx < |r.states| && r.states[r.idx] != Filling && r.offset < r.slabSize
  }

  /** No bytes are written where a flush has sealed the slab before it was full. */
  ghost predicate Careful(slabSize: nat, slabCount: nat, steps: seq<Step>)
    decreases |steps|
  {
    steps == [] ||
    var front, last := steps[..|steps| - 1], steps[|steps| - 1];
    Careful(slabSize, slabCount, front) && CarefulStep(Run(slabSize, slabCount, front), last)
  }

  predicate CarefulStep(r: Ring, s: Step) {
    !(s.CallWrite? && s.bytes != [] && r.control == Idle && SealedShort(r))
  }

  /** The writer is about to copy into a slab that was sealed short. */
  predicate Losing(r: Ring) { r.control.Top? && r.control.rest != [] && SealedShort(r) }

  lemma CopyTurnLoses(r: Ring, rest: Octets, next: Ring)
    requires Placed(r) && r.control == Top(rest) && next == CopyTurn(r, rest)
    ensures Losing(r) <==> next.lost > r.lost
    ensures next.lost == r.lost ==> !Losing(next)
    ensures next.lost >= r.lost
  {
    if rest != [] && r.offset < r.slabSize {
      CopyTurnIs(r, rest, Least(|rest|, r.slabSize - r.offset));
    }
  }

  /** Bytes are lost by a copying turn in a slab that was sealed short, and by no other. */
  lemma TurnLoses(r: Ring, next: Ring)
    requires Placed(r) && next == AdvanceWriter(r)
    ensures Losing(r) <==> next.lost > r.lost
    ensures next.lost == r.lost ==> !Losing(next)
    ensures next.lost >= r.lost
  {
    match r.control
    case Top(rest) => CopyTurnLoses(r, rest, next);
    case Search(rest, candidate) => SearchMoves(r, rest, candidate, next);
    case _ =>
  }

  /** No other step loses bytes, and only a careless call is about to. */
  lemma OtherStepLoses(r: Ring, s: Step, next: Ring)
    requires Inv(r) && next == StepOf(r, s) && !s.Advance?
    ensures next.lost == r.lost && (Losing(next) <==> Losing(r) || !CarefulStep(r, s))
  {
    match s
    case Drop(i) =>
      if i < |r.live| {
        DropFound(r, i);
        DropKeepsPlace(r, r.live[i], next);
      }
    case _ =>
  }

  lemma StepLoses(r: Ring, s: Step, next: Ring)
    requires Inv(r) && next == StepOf(r, s)
    ensures Losing(next) || next.lost > 0 <==> Losing(r) || r.lost > 0 || !CarefulStep(r, s)
  {
    if s.Advance? {
      TurnLoses(r, next);
    } else {
      OtherStepLoses(r, s, next);
    }
  }

  /** A run is careful exactly when nothing has been lost and nothing is about to be. */
  lemma {:induction false} CarefulIsSafe(slabSize: nat, slabCount: nat, steps: seq<Step>)
    requires slabSize > 0 && slabCount >= 2
    ensures var r := Run(slabSize, slabCount, steps);
      Careful(slabSize, slabCount, steps) <==> !Losing(r) && r.lost == 0
    decreases |steps|
  {
    if steps != [] {
      var front, last := steps[..|steps| - 1], steps[|steps| - 1];
      var r := Run(slabSize, slabCount, front);
      RunKeeps(slabSize, slabCount, front);
      CarefulIsSafe(slabSize, slabCount, front);
      StepLoses(r, last, StepOf(r, last));
    }
  }

  /** Nothing is left to be sent or received. */
  predicate Quiet(r: Ring)
    requires Geometry(r)
  {
    r.control == Idle && r.chan == [] && (Handed(r) || r.offset == 0)
  }

  lemma QuietHolds(r: Ring)
    requires Inv(r) && Quiet(r)
    ensures r.received == r.sent && (Flatten(r.received) == r.given <==> r.lost == 0)
  {
    SlabLength(r);
    assert BytesOf([]) == [] && r.received + [] == r.received;
    Nothing(Flatten(r.sent));
  }

  /**
   * Once everything is flushed and received, the consumer holds exactly what was written if and only if
   * nothing was ever written into a slab that a flush had sealed short.
   */
  lemma DeliveryTheorem(slabSize: nat, slabCount: nat, steps: seq<Step>)
    requires slabSize > 0 && slabCount >= 2
    ensures var r := Run(slabSize, slabCount, steps);
      Geometry(r) && (Quiet(r) ==> (Flatten(r.received) == r.given <==> Careful(slabSize, slabCount, steps)))
  {
    var r := Run(slabSize, slabCount, steps);
    RunKeeps(slabSize, slabCount, steps);
    CarefulIsSafe(slabSize, slabCount, steps);
    if Quiet(r) {
      QuietHolds(r);
    }
  }

  lemma {:induction false} NeverCarefulAgain(slabSize: nat, slabCount: nat, steps: seq<Step>, more: seq<Step>)
    requires !Careful(slabSize, slabCount, steps)
    ensures !Careful(slabSize, slabCount, steps + more)
    decreases |more|
  {
    if more == [] {
      assert steps + more == steps;
    } else {
      NeverCarefulAgain(slabSize, slabCount, steps, more[..|more| - 1]);
      assert (steps + more)[..|steps + more| - 1] == steps + more[..|more| - 1];
    }
  }

  /**
   * After a flush that sealed a slab short, whatever is written next is missing from then on: once that
   * write has ended, what is sent and what is pending never again are what was given.
   */
  lemma LostAfterFlush(slabSize: nat, slabCount: nat, steps: seq<Step>, bytes: Octets, more: seq<Step>)
    requires slabSize > 0 && slabCount >= 2 && bytes != []
    requires Run(slabSize, slabCount, steps).control == Idle && SealedShort(Run(slabSize, slabCount, steps))
    ensures var r := Run(slabSize, slabCount, steps + [CallWrite(bytes)] + more);
      Geometry(r) && (r.control == Idle ==> Flatten(r.sent) + Pending(r) != r.given)
  {
    var called := steps + [CallWrite(bytes)];
    var r := Run(slabSize, slabCount, called + more);
    assert called[..|called| - 1] == steps;
    NeverCarefulAgain(slabSize, slabCount, called, more);
    RunKeeps(slabSize, slabCount, called + more);
    CarefulIsSafe(slabSize, slabCount, called + more);
  }

  // ---------- The protocol ----------

  /** The writer's protocol: nothing is called after a flush that sealed a slab. */
  predicate Allowed(r: Ring, s: Step) {
    s.CallWrite? || s.CallFlush? ==> !r.flushed
  }

  /** The run follows the protocol: writes, then at most one flush that seals. */
  ghost predicate Follows(slabSize: nat, slabCount: nat, steps: seq<Step>)
    decreases |steps|
  {
    steps == [] ||
    var front := steps[..|steps| - 1];
    Follows(slabSize, slabCount, front) && Allowed(Run(slabSize, slabCount, front), steps[|steps| - 1])
  }

  /** A sealed slab is left for a new one, unless the flush has sealed the last. */
  predicate Orderly(r: Ring)
    requires Geometry(r)
  {
    && (Handed(r) ==> r.control.Search? || r.control.Claim? || (r.flushed && r.control == Idle))
    && (r.flushed ==> r.control == Idle || r.control == FlushSend) && (r.control == FlushSend ==> r.flushed)
  }

  /** Every lease is a full slab, except the one the flush sends last. */
  ghost predicate SlabsFull(r: Ring) {
    forall i | 0 <= i < |r.sent| :: |r.sent[i]| == r.slabSize || (r.flushed && r.control == Idle && i == |r.sent| - 1)
  }

  lemma OrderlyStep(r: Ring, s: Step, next: Ring)
    requires Placed(r) && Orderly(r) && Allowed(r, s) && next == StepOf(r, s) && Placed(next)
    requires s.Drop? ==> (r.states[r.idx] == Filling <==> next.states[next.idx] == Filling)
    ensures Orderly(next)
  {}

  lemma FullStep(r: Ring, s: Step, next: Ring)
    requires Placed(r) && Orderly(r) && SlabsFull(r) && Allowed(r, s) && next == StepOf(r, s) && Placed(next)
    ensures SlabsFull(next)
  {
    SlabLength(r);
  }

  /** A seal meets a slab that is being filled, so that it leaves no orphan. */
  lemma NoOrphanStep(r: Ring, s: Step, next: Ring)
    requires Placed(r) && Orderly(r) && next == StepOf(r, s)
    ensures next.orphans == r.orphans
  {}

  ghost predicate Kept(r: Ring) { Inv(r) && Orderly(r) && Accounted(r) && r.orphans == {} && SlabsFull(r) }

  /** Under the protocol every lease is a full slab but for the flush's, and no ready slab is an orphan. */
  lemma {:induction false} ProtocolTheorem(slabSize: nat, slabCount: nat, steps: seq<Step>)
    requires slabSize > 0 && slabCount >= 2 && Follows(slabSize, slabCount, steps)
    ensures Kept(Run(slabSize, slabCount, steps)) && Run(slabSize, slabCount, steps).lost == 0
    decreases |steps|
  {
    RunKeeps(slabSize, slabCount, steps);
    if steps != [] {
      var front, last := steps[..|steps| - 1], steps[|steps| - 1];
      var r, next := Run(slabSize, slabCount, front), Run(slabSize, slabCount, steps);
      ProtocolTheorem(slabSize, slabCount, front);
      ProtocolStep(r, last, next);
    }
  }

  lemma ProtocolStep(r: Ring, s: Step, next: Ring)
    requires Kept(r) && r.lost == 0 && Allowed(r, s) && next == StepOf(r, s) && Inv(next)
    ensures Kept(next) && next.lost == 0
  {
    if s.Drop? && s.i < |r.live| {
      DropFound(r, s.i);
      DropKeepsPlace(r, r.live[s.i], next);
    }
    OrderlyStep(r, s, next);
    NoOrphanStep(r, s, next);
    StepAccounts(r, s, next);
    FullStep(r, s, next);
    StepLoses(r, s, next);
  }

  // ---------- Progress ----------

  /** How many candidates the search still has to pass to reach slab `f`. */
  function Distance(candidate: nat, f: nat, count: nat): nat
    requires candidate < count && f < count
  {
    if f > candidate then f - candidate else f + count - candidate
  }

  function Stage(r: Ring, f: nat): nat
    requires Geometry(r) && Positioned(r) && f < |r.states|
  {
    match r.control
    case Top(_) => if r.offset >= r.slabSize then |r.states| + 5 else 1
    case Seal(_) => |r.states| + 4
    case Send(_) => |r.states| + 3
    case Search(_, candidate) => 2 + Distance(candidate, f, |r.states|)
    case Claim(_, _) => 2
    case FlushSeal => 2
    case FlushSend => 1
    case Idle => 0
  }

  /** The bytes still to copy, then how far the writer is from copying again. */
  predicate Closer(r: Ring, next: Ring, f: nat)
    requires Geometry(r) && Positioned(r) && Geometry(next) && Positioned(next) && f < |r.states| && f < |next.states|
  {
    || |Rest(next.control)| < |Rest(r.control)|
    || (|Rest(next.control)| == |Rest(r.control)| && Stage(next, f) < Stage(r, f))
  }

  lemma NextCandidate(candidate: nat, f: nat, count: nat)
    requires candidate < count && f < count
    ensures var next := (candidate + 1) % count;
      next < count && (next == f || Distance(next, f, count) < Distance(candidate, f, count))
  {
    if candidate + 1 < count {
      assert (candidate + 1) % count == candidate + 1;
    } else {
      assert (candidate + 1) % count == 0;
    }
  }

  /**
   * A write ends: every step of the writer brings it closer, lexicographically in bytes left and
   * stage, as long as a searching writer has some free slab other than its own.
   */
  lemma WriterProgress(r: Ring, f: nat, next: Ring)
    requires Inv(r) && r.control != Idle && next == AdvanceWriter(r) && Inv(next)
    requires f < |r.states| && f != r.idx && (r.control.Search? ==> r.states[f] == Free)
    ensures f < |next.states| && Closer(r, next, f)
  {
    TurnIsCloser(r, f, next);
  }

  lemma SearchIsCloser(r: Ring, rest: Octets, candidate: nat, f: nat, next: Ring)
    requires Placed(r) && r.control == Search(rest, candidate) && next == SearchTurn(r, rest, candidate)
    requires f < |r.states| && f != r.idx && r.states[f] == Free
    ensures Placed(next) && next.states == r.states && Closer(r, next, f)
  {
    SearchMoves(r, rest, candidate, next);
    NextCandidate(candidate, f, |r.states|);
  }

  lemma TurnIsCloser(r: Ring, f: nat, next: Ring)
    requires Geometry(r) && Positioned(r) && Geometry(next) && Positioned(next)
    requires r.control != Idle && next == AdvanceWriter(r)
    requires f < |r.states| && f != r.idx && (r.control.Search? ==> r.states[f] == Free)
    ensures f < |next.states| && Closer(r, next, f)
  {
    match r.control
    case Search(rest, candidate) => SearchIsCloser(r, rest, candidate, f, next);
    case _ =>
  }

  /** A writer that finds no free slab waits for the consumer, who holds or can receive a lease of another slab. */
  lemma ConsumerCanMove(r: Ring)
    requires Kept(r) && r.control.Search?
    requires forall s | 0 <= s < |r.states| && s != r.idx :: r.states[s] != Free
    ensures exists l :: (l in r.chan || l in r.live) && l.slab != r.idx
  {
    var s := if r.idx == 0 then 1 else 0;
    assert r.states[s] == Ready && s !in r.orphans;
    assert LeasedSlab(r, s);
    var l :| l in Leases(r) && l.slab == s;
  }

  /** Dropping a lease of another slab gives a waiting writer what it needs. */
  lemma DropFrees(r: Ring, i: nat)
    requires Inv(r) && i < |r.live|
    ensures var next := DropLease(r, i); r.live[i].slab < |next.states| && next.states[r.live[i].slab] == Free
  {
    assert r.live[i] in Leases(r) && LeaseFits(r, r.live[i]);
  }
}
