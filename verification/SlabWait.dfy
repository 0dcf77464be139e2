/** When the writer of the slab ring waits for ever: for every run, and for every sequence of calls. */
module SlabWait {
  import opened Arithmetic
  import opened Bytes
  import opened SlabRing

  // ---------- One run ----------

  /** A searching writer has a free slab before it, or a lease that the consumer holds or can receive and drop. */
  ghost predicate CanGoOn(r: Ring) {
    || (exists s :: 0 <= s < |r.states| && s != r.idx && r.states[s] == Free)
    || (exists l :: l in Leases(r) && l.slab != r.idx)
  }

  ghost predicate Starved(r: Ring) { r.control.Search? && !CanGoOn(r) }

  /** Every slab but the writer's own is an orphan. */
  predicate AllOrphans(r: Ring) {
    forall s | 0 <= s < |r.states| && s != r.idx :: s in r.orphans
  }

  lemma OthersOrphaned(r: Ring)
    requires Accounted(r) && AllOrphans(r)
    ensures forall s | 0 <= s < |r.states| && s != r.idx :: r.states[s] == Ready && !LeasedSlab(r, s)
  {
    forall s | 0 <= s < |r.states| && s != r.idx ensures r.states[s] == Ready && !LeasedSlab(r, s) {
      assert s in r.orphans;
      assert Orphan(r, s);
    }
  }

  lemma StarvedIs(r: Ring)
    requires Inv(r) && Accounted(r) && r.control.Search?
    ensures CanGoOn(r) <==> !AllOrphans(r)
  {
    if AllOrphans(r) {
      OthersOrphaned(r);
      forall l | l in Leases(r) ensures l.slab == r.idx {
        assert LeaseFits(r, l);
        assert LeasedSlab(r, l.slab);
      }
    } else {
      var s :| 0 <= s < |r.states| && s != r.idx && s !in r.orphans;
      if r.states[s] == Ready {
        assert LeasedSlab(r, s);
      }
    }
  }

  /** In every run, a searching writer can go on exactly as long as some other slab is no orphan. */
  lemma WaitTheorem(slabSize: nat, slabCount: nat, steps: seq<Step>)
    requires slabSize > 0 && slabCount >= 2
    ensures var r := Run(slabSize, slabCount, steps);
      r.control.Search? ==> (CanGoOn(r) <==> exists s :: 0 <= s < slabCount && s != r.idx && s !in r.orphans)
  {
    var r := Run(slabSize, slabCount, steps);
    RunKeeps(slabSize, slabCount, steps);
    RunAccounts(slabSize, slabCount, steps);
    CountStays(slabSize, slabCount, steps);
    if r.control.Search? {
      StarvedIs(r);
    }
  }

  lemma {:induction false} CountStays(slabSize: nat, slabCount: nat, steps: seq<Step>)
    ensures |Run(slabSize, slabCount, steps).states| == slabCount && Run(slabSize, slabCount, steps).slabSize == slabSize
    decreases |steps|
  {
    if steps != [] {
      CountStays(slabSize, slabCount, steps[..|steps| - 1]);
      StepKeepsCount(Run(slabSize, slabCount, steps[..|steps| - 1]), steps[|steps| - 1]);
    }
  }

  lemma AdvanceKeepsCount(r: Ring)
    ensures |AdvanceWriter(r).states| == |r.states| && AdvanceWriter(r).slabSize == r.slabSize
  {}

  lemma StepKeepsCount(r: Ring, s: Step)
    ensures |StepOf(r, s).states| == |r.states| && StepOf(r, s).slabSize == r.slabSize
  {
    if s.Advance? {
      AdvanceKeepsCount(r);
    }
  }

  lemma RunStep(slabSize: nat, slabCount: nat, steps: seq<Step>, s: Step)
    ensures Run(slabSize, slabCount, steps + [s]) == StepOf(Run(slabSize, slabCount, steps), s)
  {
    assert (steps + [s])[..|steps|] == steps;
  }

  /** Waiting for nothing, with so many bytes of the call still to come. */
  ghost predicate Lost(r: Ring, rest: Octets) { r.control.Search? && r.control.rest == rest && AllOrphans(r) }

  lemma LostStays(r: Ring, s: Step, next: Ring, rest: Octets)
    requires Inv(r) && Accounted(r) && Lost(r, rest) && next == StepOf(r, s)
    ensures Lost(next, rest) && next.sent == r.sent && next.given == r.given
  {
    match s
    case Advance =>
      SearchMoves(r, rest, r.control.candidate, next);
      LostSearches(r, rest, r.control.candidate, next);
    case Drop(i) =>
      if i < |r.live| {
        DropFound(r, i);
      }
    case _ =>
  }

  lemma LostSearches(r: Ring, rest: Octets, candidate: nat, next: Ring)
    requires Placed(r) && Accounted(r) && AllOrphans(r) && r.control == Search(rest, candidate)
    requires next == SearchTurn(r, rest, candidate)
    ensures next.control.Search? && next.control.rest == rest
  {
    NextCandidateIn(candidate, |r.states|);
    OthersOrphaned(r);
  }

  /** A writer that waits for nothing waits for ever: whatever happens later, its call never ends and no byte more is sent. */
  lemma {:induction false} StarvedForEver(slabSize: nat, slabCount: nat, steps: seq<Step>, more: seq<Step>)
    requires slabSize > 0 && slabCount >= 2 && Starved(Run(slabSize, slabCount, steps))
    ensures var r, later := Run(slabSize, slabCount, steps), Run(slabSize, slabCount, steps + more);
      Starved(later) && later.control.rest == r.control.rest && later.sent == r.sent && later.given == r.given
    decreases |more|
  {
    if more == [] {
      assert steps + more == steps;
    } else {
      var front, last := more[..|more| - 1], more[|more| - 1];
      StarvedForEver(slabSize, slabCount, steps, front);
      assert steps + more == (steps + front) + [last];
      StarvedStays(slabSize, slabCount, steps + front, last);
    }
  }

  lemma StarvedStays(slabSize: nat, slabCount: nat, steps: seq<Step>, s: Step)
    requires slabSize > 0 && slabCount >= 2 && Starved(Run(slabSize, slabCount, steps))
    ensures var r, next := Run(slabSize, slabCount, steps), Run(slabSize, slabCount, steps + [s]);
      Starved(next) && next.control.rest == r.control.rest && next.sent == r.sent && next.given == r.given
  {
    var r := Run(slabSize, slabCount, steps);
    RunKeeps(slabSize, slabCount, steps);
    RunAccounts(slabSize, slabCount, steps);
    StarvedIs(r);
    RunStep(slabSize, slabCount, steps, s);
    LostStays(r, s, StepOf(r, s), r.control.rest);
    RunKeeps(slabSize, slabCount, steps + [s]);
    RunAccounts(slabSize, slabCount, steps + [s]);
    StarvedIs(StepOf(r, s));
  }

  // ---------- What the calls alone decide ----------

  /**
   * Where the calls put the writer: its place in the slab, whether a flush has sealed that slab, how many
   * slabs it has left that a flush had sealed before, and whether it may have met only such slabs.
   */
  datatype Outlook = Outlook(offset: nat, flushed: bool, spoiled: nat, starves: bool)

  /** A write goes on in a new slab. */
  function Leave(o: Outlook, slabCount: nat): Outlook {
    Outlook(0, false, o.spoiled + if o.flushed then 1 else 0, o.starves || o.spoiled + 1 >= slabCount)
  }

  function AfterBytes(slabSize: nat, slabCount: nat, o: Outlook, n: nat): Outlook
    requires slabSize > 0
    decreases n, if o.offset >= slabSize then 1 else 0
  {
    if n == 0 then o
    else if o.offset >= slabSize then AfterBytes(slabSize, slabCount, Leave(o, slabCount), n)
    else AfterBytes(slabSize, slabCount, o.(offset := o.offset + Least(n, slabSize - o.offset)), n - Least(n, slabSize - o.offset))
  }

  predicate IsCall(s: Step) { s.CallWrite? || s.CallFlush? }

  function AfterCall(slabSize: nat, slabCount: nat, o: Outlook, call: Step): Outlook
    requires slabSize > 0
  {
    match call
    case CallWrite(bytes) => AfterBytes(slabSize, slabCount, o, |bytes|)
    case CallFlush => if o.offset > 0 then o.(flushed := true) else o
    case _ => o
  }

  function AfterCalls(slabSize: nat, slabCount: nat, calls: seq<Step>): Outlook
    requires slabSize > 0
  {
    if calls == [] then Outlook(0, false, 0, false)
    else AfterCall(slabSize, slabCount, AfterCalls(slabSize, slabCount, calls[..|calls| - 1]), calls[|calls| - 1])
  }

  /** The calls that a run has accepted. */
  function Calls(slabSize: nat, slabCount: nat, steps: seq<Step>): seq<Step> {
    if steps == [] then []
    else
      var front, last := steps[..|steps| - 1], steps[|steps| - 1];
      Calls(slabSize, slabCount, front) + if IsCall(last) && Run(slabSize, slabCount, front).control == Idle then [last] else []
  }

  lemma {:induction false} StarvesOn(slabSize: nat, slabCount: nat, o: Outlook, n: nat)
    requires slabSize > 0 && o.starves
    ensures AfterBytes(slabSize, slabCount, o, n).starves
    decreases n, if o.offset >= slabSize then 1 else 0
  {
    if n > 0 {
      if o.offset >= slabSize {
        StarvesOn(slabSize, slabCount, Leave(o, slabCount), n);
      } else {
        StarvesOn(slabSize, slabCount, o.(offset := o.offset + Least(n, slabSize - o.offset)), n - Least(n, slabSize - o.offset));
      }
    }
  }

  lemma {:induction false} StarvesLater(slabSize: nat, slabCount: nat, first: seq<Step>, calls: seq<Step>)
    requires slabSize > 0 && first <= calls && AfterCalls(slabSize, slabCount, first).starves
    ensures AfterCalls(slabSize, slabCount, calls).starves
    decreases |calls|
  {
    if |first| < |calls| {
      var front, last := calls[..|calls| - 1], calls[|calls| - 1];
      StarvesLater(slabSize, slabCount, first, front);
      if last.CallWrite? {
        StarvesOn(slabSize, slabCount, AfterCalls(slabSize, slabCount, front), |last.bytes|);
      }
    } else {
      assert first == calls;
    }
  }

  // ---------- No run starves unless its calls say so ----------

  /** The outlook agrees with the ring, or says more slabs are spoiled than are. */
  ghost predicate Tracks(r: Ring, o: Outlook)
    requires Geometry(r)
  {
    && r.offset == o.offset && |r.orphans - {r.idx}| <= o.spoiled && (r.idx in r.orphans ==> o.flushed)
    && (r.control.Idle? || r.control.Top? || r.control.Seal? || r.control.FlushSeal? ==> (r.states[r.idx] == Filling <==> !o.flushed))
    && (r.control.FlushSend? ==> o.flushed) && (r.control.Search? || r.control.Claim? ==> r.offset == r.slabSize)
  }

  /** The outlook when the call under way has ended. */
  function Target(slabCount: nat, r: Ring, o: Outlook): Outlook
    requires r.slabSize > 0
  {
    if r.control.FlushSeal? then o.(flushed := true) else AfterBytes(r.slabSize, slabCount, o, |Rest(r.control)|)
  }

  lemma WithoutOwn(orphans: set<nat>, i: nat)
    ensures (orphans + {i}) - {i} == orphans - {i}
    ensures |orphans| == |orphans - {i}| + if i in orphans then 1 else 0
  {
    if i in orphans {
      assert orphans == (orphans - {i}) + {i};
    } else {
      assert orphans == orphans - {i};
    }
  }

  lemma TopTracks(slabCount: nat, r: Ring, rest: Octets, o: Outlook, next: Ring) returns (p: Outlook)
    requires Placed(r) && Tracks(r, o) && r.control == Top(rest) && next == CopyTurn(r, rest)
    ensures Placed(next) && Tracks(next, p) && Target(slabCount, next, p) == Target(slabCount, r, o)
  {
    p := o;
    if rest != [] && r.offset < r.slabSize {
      var n := Least(|rest|, r.slabSize - r.offset);
      CopyTurnIs(r, rest, n);
      p := o.(offset := o.offset + n);
    }
  }

  lemma SealTracks(slabCount: nat, r: Ring, o: Outlook, next: Ring) returns (p: Outlook)
    requires Placed(r) && Tracks(r, o) && (r.control.Seal? || r.control.FlushSeal?) && next == AdvanceWriter(r)
    ensures Placed(next) && Tracks(next, p) && Target(slabCount, next, p) == Target(slabCount, r, o)
  {
    SealMoves(r, next);
    WithoutOwn(r.orphans, r.idx);
    p := if r.control.FlushSeal? then o.(flushed := true) else o;
  }

  lemma SendTracks(slabCount: nat, r: Ring, o: Outlook, next: Ring)
    requires Placed(r) && Tracks(r, o) && Sending(r) && next == AdvanceWriter(r)
    ensures Placed(next) && Tracks(next, o) && Target(slabCount, next, o) == Target(slabCount, r, o)
  {
    SendMoves(r, next);
  }

  lemma SearchTracks(slabCount: nat, r: Ring, o: Outlook, next: Ring)
    requires Placed(r) && Tracks(r, o) && r.control.Search? && next == AdvanceWriter(r)
    ensures Placed(next) && Tracks(next, o) && Target(slabCount, next, o) == Target(slabCount, r, o)
  {
    SearchMoves(r, r.control.rest, r.control.candidate, next);
  }

  lemma ClaimPlaces(r: Ring, next: Ring)
    requires Placed(r) && Accounted(r) && r.control.Claim? && next == AdvanceWriter(r)
    ensures Placed(next) && !Orphan(r, next.idx)
  {}

  lemma ClaimTracks(slabCount: nat, r: Ring, o: Outlook, next: Ring)
    requires Placed(r) && Accounted(r) && Tracks(r, o) && r.control.Claim? && next == AdvanceWriter(r)
    ensures Placed(next) && Tracks(next, Leave(o, slabCount))
    ensures Target(slabCount, next, Leave(o, slabCount)) == Target(slabCount, r, o)
  {
    ClaimPlaces(r, next);
    WithoutOwn(r.orphans, r.idx);
    WithoutOwn(r.orphans, next.idx);
  }

  lemma AdvanceTracks(slabCount: nat, r: Ring, o: Outlook, next: Ring) returns (p: Outlook)
    requires Placed(r) && Accounted(r) && Tracks(r, o) && next == AdvanceWriter(r)
    ensures Placed(next) && Tracks(next, p) && Target(slabCount, next, p) == Target(slabCount, r, o)
  {
    p := o;
    if r.control.Top? {
      p := TopTracks(slabCount, r, r.control.rest, o, next);
    } else if r.control.Seal? || r.control.FlushSeal? {
      p := SealTracks(slabCount, r, o, next);
    } else if Sending(r) {
      SendTracks(slabCount, r, o, next);
    } else if r.control.Search? {
      SearchTracks(slabCount, r, o, next);
    } else if r.control.Claim? {
      ClaimTracks(slabCount, r, o, next);
      p := Leave(o, slabCount);
    }
  }

  lemma CallTracks(slabCount: nat, r: Ring, o: Outlook, call: Step, next: Ring)
    requires Placed(r) && Tracks(r, o) && IsCall(call) && r.control == Idle && next == StepOf(r, call)
    ensures Placed(next) && Tracks(next, o) && Target(slabCount, next, o) == AfterCall(r.slabSize, slabCount, Target(slabCount, r, o), call)
  {}

  /** Receptions and drops leave alone what the outlook is about. */
  lemma ConsumerTracks(slabCount: nat, r: Ring, o: Outlook, next: Ring)
    requires Placed(r) && Tracks(r, o) && Placed(next)
    requires next.offset == r.offset && next.idx == r.idx && next.orphans == r.orphans && next.control == r.control
    requires next.slabSize == r.slabSize && (r.states[r.idx] == Filling <==> next.states[next.idx] == Filling)
    ensures Tracks(next, o) && Target(slabCount, next, o) == Target(slabCount, r, o)
  {}

  lemma StepTracks(slabCount: nat, r: Ring, o: Outlook, s: Step, next: Ring) returns (p: Outlook)
    requires Inv(r) && Accounted(r) && Tracks(r, o) && next == StepOf(r, s)
    ensures Placed(next) && Tracks(next, p)
    ensures Target(slabCount, next, p)
         == if IsCall(s) && r.control == Idle then AfterCall(r.slabSize, slabCount, Target(slabCount, r, o), s) else Target(slabCount, r, o)
  {
    p := o;
    if s.Advance? {
      p := AdvanceTracks(slabCount, r, o, next);
    } else if IsCall(s) {
      if r.control == Idle {
        CallTracks(slabCount, r, o, s, next);
      }
    } else {
      if s.Drop? && s.i < |r.live| {
        DropFound(r, s.i);
        DropKeepsPlace(r, r.live[s.i], next);
      }
      ConsumerTracks(slabCount, r, o, next);
    }
  }

  lemma {:induction false} RunTracks(slabSize: nat, slabCount: nat, steps: seq<Step>) returns (o: Outlook)
    requires slabSize > 0 && slabCount >= 2
    ensures Placed(Run(slabSize, slabCount, steps)) && Tracks(Run(slabSize, slabCount, steps), o)
    ensures Target(slabCount, Run(slabSize, slabCount, steps), o)
         == AfterCalls(slabSize, slabCount, Calls(slabSize, slabCount, steps))
    decreases |steps|
  {
    RunKeeps(slabSize, slabCount, steps);
    if steps == [] {
      o := Outlook(0, false, 0, false);
    } else {
      var front, last := steps[..|steps| - 1], steps[|steps| - 1];
      var before := RunTracks(slabSize, slabCount, front);
      RunKeeps(slabSize, slabCount, front);
      RunAccounts(slabSize, slabCount, front);
      CountStays(slabSize, slabCount, front);
      o := StepTracks(slabCount, Run(slabSize, slabCount, front), before, last, Run(slabSize, slabCount, steps));
      CallsGrow(slabSize, slabCount, Calls(slabSize, slabCount, front), last);
    }
  }

  lemma CallsGrow(slabSize: nat, slabCount: nat, calls: seq<Step>, call: Step)
    requires slabSize > 0
    ensures AfterCalls(slabSize, slabCount, calls + [call])
         == AfterCall(slabSize, slabCount, AfterCalls(slabSize, slabCount, calls), call)
    ensures calls + [] == calls
  {
    assert (calls + [call])[..|calls|] == calls;
  }

  lemma {:induction false} SizeUpTo(n: nat, s: set<nat>)
    requires forall i | i in s :: i < n
    ensures |s| <= n
    ensures (forall i | 0 <= i < n :: i in s) ==> |s| == n
  {
    if n > 0 {
      SizeUpTo(n - 1, s - {n - 1});
      WithoutOwn(s, n - 1);
    } else {
      assert s == {};
    }
  }

  /** All other slabs are orphans exactly when there are so many. */
  lemma OrphanCount(r: Ring)
    requires Geometry(r) && Accounted(r)
    ensures AllOrphans(r) <==> |r.orphans - {r.idx}| + 1 >= |r.states|
  {
    var all := r.orphans + {r.idx};
    forall i | i in all ensures i < |r.states| {
      assert i in r.orphans ==> Orphan(r, i);
    }
    SizeUpTo(|r.states|, all);
    WithoutOwn(all, r.idx);
    WithoutOwn(r.orphans, r.idx);
    if !AllOrphans(r) {
      var s :| 0 <= s < |r.states| && s != r.idx && s !in r.orphans;
      SizeUpTo(|r.states|, all + {s});
      WithoutOwn(all + {s}, s);
      assert (all + {s}) - {s} == all;
    }
  }

  lemma StarvedWasForeseen(slabCount: nat, r: Ring, o: Outlook)
    requires Inv(r) && Accounted(r) && Tracks(r, o) && Starved(r) && |r.states| == slabCount
    ensures Target(slabCount, r, o).starves
  {
    StarvedIs(r);
    OrphanCount(r);
    StarvesOn(r.slabSize, slabCount, Leave(o, slabCount), |Rest(r.control)|);
  }

  lemma RunForesees(slabSize: nat, slabCount: nat, steps: seq<Step>, calls: seq<Step>)
    requires slabSize > 0 && slabCount >= 2 && Starved(Run(slabSize, slabCount, steps))
    requires Calls(slabSize, slabCount, steps) <= calls
    ensures AfterCalls(slabSize, slabCount, calls).starves
  {
    var o := RunTracks(slabSize, slabCount, steps);
    RunKeeps(slabSize, slabCount, steps);
    RunAccounts(slabSize, slabCount, steps);
    CountStays(slabSize, slabCount, steps);
    StarvedWasForeseen(slabCount, Run(slabSize, slabCount, steps), o);
    StarvesLater(slabSize, slabCount, Calls(slabSize, slabCount, steps), calls);
  }

  // ---------- A consumer that is quick enough to starve the writer ----------

  /** A state that some run reaches after these calls. */
  ghost predicate Reached(slabSize: nat, slabCount: nat, r: Ring, calls: seq<Step>) {
    exists steps :: Run(slabSize, slabCount, steps) == r && Calls(slabSize, slabCount, steps) == calls
  }

  lemma ReachedSound(slabSize: nat, slabCount: nat, r: Ring, calls: seq<Step>)
    requires slabSize > 0 && slabCount >= 2 && Reached(slabSize, slabCount, r, calls)
    ensures Inv(r) && Accounted(r) && |r.states| == slabCount && r.slabSize == slabSize
  {
    var steps :| Run(slabSize, slabCount, steps) == r && Calls(slabSize, slabCount, steps) == calls;
    RunKeeps(slabSize, slabCount, steps);
    RunAccounts(slabSize, slabCount, steps);
    CountStays(slabSize, slabCount, steps);
  }

  lemma CallsNext(slabSize: nat, slabCount: nat, steps: seq<Step>, s: Step)
    ensures Calls(slabSize, slabCount, steps + [s])
         == Calls(slabSize, slabCount, steps) + if IsCall(s) && Run(slabSize, slabCount, steps).control == Idle then [s] else []
  {
    assert (steps + [s])[..|steps|] == steps;
  }

  lemma ReachedNext(slabSize: nat, slabCount: nat, r: Ring, calls: seq<Step>, s: Step) returns (next: Ring)
    requires slabSize > 0 && slabCount >= 2 && Reached(slabSize, slabCount, r, calls)
    ensures next == StepOf(r, s)
    ensures Reached(slabSize, slabCount, next, if IsCall(s) && r.control == Idle then calls + [s] else calls)
    ensures Inv(next) && Accounted(next) && |next.states| == slabCount && next.slabSize == slabSize
  {
    var steps :| Run(slabSize, slabCount, steps) == r && Calls(slabSize, slabCount, steps) == calls;
    next := StepOf(r, s);
    RunStep(slabSize, slabCount, steps, s);
    CallsNext(slabSize, slabCount, steps, s);
    assert calls + [] == calls;
    ReachedSound(slabSize, slabCount, next, if IsCall(s) && r.control == Idle then calls + [s] else calls);
  }

  /** The consumer has nothing. */
  predicate Alone(r: Ring) { r.chan == [] && r.live == [] }

  /** The outlook says exactly how many slabs are spoiled. */
  ghost predicate Even(r: Ring, o: Outlook) {
    && Geometry(r) && Alone(r) && r.offset == o.offset && |r.orphans - {r.idx}| == o.spoiled && !o.starves
    && (r.states[r.idx] == Filling <==> !o.flushed)
  }

  lemma SendAlone(r: Ring, next: Ring)
    requires Sending(r) && Alone(r) && next == StepOf(r, Advance)
    ensures next == r.(control := next.control, chan := [Lease(r.idx, r.offset, SlabBytes(r, r.idx, r.offset))], sent := next.sent)
    ensures next.control == if r.control.Send? then Search(r.control.rest, r.idx) else Idle
  {}

  lemma ReceiveAlone(r: Ring, lease: Lease, next: Ring)
    requires r.chan == [lease] && r.live == [] && next == StepOf(r, Receive)
    ensures next == r.(chan := [], live := [lease], received := next.received)
  {}

  lemma DropAlone(r: Ring, lease: Lease, next: Ring)
    requires r.chan == [] && r.live == [lease] && lease.slab < |r.states| && next == StepOf(r, Drop(0)) && !next.failed
    ensures next == r.(states := r.states[lease.slab := Free], live := [])
  {
    assert [lease][..0] + [lease][1..] == [];
  }

  /** A lease is sent, received and dropped at once. */
  lemma SendsAndDrops(slabSize: nat, slabCount: nat, r: Ring, calls: seq<Step>) returns (end: Ring)
    requires slabSize > 0 && slabCount >= 2 && Reached(slabSize, slabCount, r, calls)
    requires Sending(r) && Alone(r) && r.idx < |r.states|
    ensures Reached(slabSize, slabCount, end, calls) && Inv(end) && Accounted(end) && |end.states| == slabCount
    ensures end == r.(control := end.control, states := r.states[r.idx := Free], sent := end.sent, received := end.received)
    ensures end.control == if r.control.Send? then Search(r.control.rest, r.idx) else Idle
  {
    var lease := Lease(r.idx, r.offset, SlabBytes(r, r.idx, r.offset));
    var sent := ReachedNext(slabSize, slabCount, r, calls, Advance);
    SendAlone(r, sent);
    var received := ReachedNext(slabSize, slabCount, sent, calls, Receive);
    ReceiveAlone(sent, lease, received);
    end := ReachedNext(slabSize, slabCount, received, calls, Drop(0));
    DropAlone(received, lease, end);
  }

  function AfterSeal(c: Control, filling: bool, idx: nat): Control {
    if c.Seal? then (if filling then Send(c.rest) else Search(c.rest, idx)) else if filling then FlushSend else Idle
  }

  /** What a seal does in a slab that is being filled, and in one that has been sealed before. */
  lemma SealShape(r: Ring, next: Ring)
    requires Placed(r) && (r.control.Seal? || r.control.FlushSeal?) && next == AdvanceWriter(r)
    ensures next == r.(states := r.states[r.idx := Ready], control := AfterSeal(r.control, r.states[r.idx] == Filling, r.idx),
                       orphans := r.orphans + if r.states[r.idx] == Free then {r.idx} else {}, flushed := next.flushed)
  {}

  lemma SealOrphans(r: Ring, next: Ring)
    requires Geometry(r) && Alone(r) && Accounted(r) && !Sending(r) && !Sending(next) && r.states[r.idx] != Filling
    requires next.orphans == r.orphans + if r.states[r.idx] == Free then {r.idx} else {}
    ensures r.idx in next.orphans && next.orphans - {r.idx} == r.orphans - {r.idx}
  {
    assert r.states[r.idx] == Ready ==> Orphan(r, r.idx);
  }

  lemma FillingIsNoOrphan(r: Ring)
    requires Geometry(r) && Accounted(r) && r.states[r.idx] == Filling
    ensures r.idx !in r.orphans
  {
    assert !Orphan(r, r.idx);
  }

  /** A seal, and the lease it may send, with a consumer that drops at once. */
  lemma Seals(slabSize: nat, slabCount: nat, r: Ring, calls: seq<Step>) returns (end: Ring)
    requires slabSize > 0 && slabCount >= 2 && Reached(slabSize, slabCount, r, calls) && Alone(r)
    requires Inv(r) && Accounted(r) && (r.control.Seal? || r.control.FlushSeal?)
    ensures Reached(slabSize, slabCount, end, calls) && Inv(end) && Accounted(end) && |end.states| == slabCount
    ensures end.idx == r.idx && end.offset == r.offset && Alone(end) && end.lost == r.lost && end.states[end.idx] != Filling
    ensures end.control == if r.control.Seal? then Search(r.control.rest, r.idx) else Idle
    ensures (end.idx in end.orphans <==> r.states[r.idx] != Filling) && end.orphans - {end.idx} == r.orphans - {r.idx}
  {
    end := ReachedNext(slabSize, slabCount, r, calls, Advance);
    SealShape(r, end);
    if r.states[r.idx] == Filling {
      FillingIsNoOrphan(r);
      end := SendsAndDrops(slabSize, slabCount, end, calls);
    } else {
      SealOrphans(r, end);
    }
  }

  /** Turn by turn the search comes to a free slab and claims it. */
  lemma {:induction false} EagerSearch(slabSize: nat, slabCount: nat, r: Ring, calls: seq<Step>, f: nat) returns (end: Ring)
    requires slabSize > 0 && slabCount >= 2 && Reached(slabSize, slabCount, r, calls) && Alone(r)
    requires Inv(r) && (r.control.Search? || r.control.Claim?) && f < |r.states| && f != r.idx && r.states[f] == Free
    ensures Reached(slabSize, slabCount, end, calls) && Inv(end) && Accounted(end) && |end.states| == slabCount
    ensures end.control == Top(r.control.rest) && end.offset == 0 && end.states[end.idx] == Filling
    ensures end.orphans == r.orphans && Alone(end) && end.lost == r.lost
    decreases Stage(r, f)
  {
    var next := ReachedNext(slabSize, slabCount, r, calls, Advance);
    if r.control.Claim? {
      end := next;
    } else {
      SearchMoves(r, r.control.rest, r.control.candidate, next);
      SearchIsCloser(r, r.control.rest, r.control.candidate, f, next);
      end := EagerSearch(slabSize, slabCount, next, calls, f);
    }
  }

  /** Leaving a full slab: either every other slab is spoiled, or the writer goes on in a new one. */
  lemma EagerLeave(slabSize: nat, slabCount: nat, r: Ring, calls: seq<Step>, o: Outlook) returns (end: Ring)
    requires slabSize > 0 && slabCount >= 2 && Reached(slabSize, slabCount, r, calls) && r.control.Seal? && Even(r, o)
    ensures Reached(slabSize, slabCount, end, calls) && end.lost == r.lost
    ensures if o.spoiled + 1 >= slabCount then Starved(end) else end.control == Top(r.control.rest) && Even(end, Leave(o, slabCount))
  {
    ReachedSound(slabSize, slabCount, r, calls);
    var sealed := Seals(slabSize, slabCount, r, calls);
    OrphanCount(sealed);
    StarvedIs(sealed);
    if o.spoiled + 1 >= slabCount {
      end := sealed;
    } else {
      var f :| 0 <= f < |sealed.states| && f != sealed.idx && f !in sealed.orphans;
      FreeWhenAlone(sealed, f);
      end := EagerSearch(slabSize, slabCount, sealed, calls, f);
      assert !Orphan(end, end.idx);
      WithoutOwn(sealed.orphans, sealed.idx);
      WithoutOwn(end.orphans, end.idx);
    }
  }

  lemma FreeWhenAlone(r: Ring, f: nat)
    requires Inv(r) && Accounted(r) && Alone(r) && !Sending(r) && f < |r.states| && f != r.idx && f !in r.orphans
    ensures r.states[f] == Free
  {
    assert !LeasedSlab(r, f);
    assert !Orphan(r, f);
  }

  /** No byte of a write falls into a slab sealed short. */
  predicate WritesSafely(slabSize: nat, o: Outlook, n: nat) { n == 0 || !o.flushed || o.offset >= slabSize }

  lemma CopyStaysEven(r: Ring, rest: Octets, o: Outlook, n: nat, next: Ring)
    requires Inv(r) && r.control == Top(rest) && Even(r, o) && rest != [] && r.offset < r.slabSize
    requires n == Least(|rest|, r.slabSize - r.offset) && next == StepOf(r, Advance)
    ensures next.control == Top(rest[n..]) && Even(next, o.(offset := o.offset + n))
    ensures !o.flushed ==> next.lost == r.lost
  {
    CopyTurnIs(r, rest, n);
  }

  lemma Copies(slabSize: nat, slabCount: nat, r: Ring, calls: seq<Step>, o: Outlook, rest: Octets, n: nat) returns (end: Ring)
    requires slabSize > 0 && slabCount >= 2 && Reached(slabSize, slabCount, r, calls) && r.control == Top(rest) && Even(r, o)
    requires rest != [] && o.offset < slabSize && n == Least(|rest|, slabSize - o.offset)
    ensures Reached(slabSize, slabCount, end, calls) && end.control == Top(rest[n..]) && Even(end, o.(offset := o.offset + n))
    ensures !o.flushed ==> end.lost == r.lost
  {
    ReachedSound(slabSize, slabCount, r, calls);
    end := ReachedNext(slabSize, slabCount, r, calls, Advance);
    CopyStaysEven(r, rest, o, n, end);
  }

  lemma TopEnds(slabSize: nat, slabCount: nat, r: Ring, calls: seq<Step>, o: Outlook) returns (end: Ring)
    requires slabSize > 0 && slabCount >= 2 && Reached(slabSize, slabCount, r, calls) && r.control.Top? && Even(r, o)
    requires r.control.rest == [] || o.offset >= slabSize
    ensures Reached(slabSize, slabCount, end, calls) && Even(end, o) && end.lost == r.lost
    ensures end.control == if r.control.rest == [] then Idle else Seal(r.control.rest)
  {
    ReachedSound(slabSize, slabCount, r, calls);
    end := ReachedNext(slabSize, slabCount, r, calls, Advance);
  }

  /** The outlook of a write, turn by turn. */
  lemma BytesTurn(slabSize: nat, slabCount: nat, o: Outlook, n: nat)
    requires slabSize > 0 && n > 0
    ensures AfterBytes(slabSize, slabCount, o, n)
         == if o.offset >= slabSize then AfterBytes(slabSize, slabCount, Leave(o, slabCount), n)
            else AfterBytes(slabSize, slabCount, o.(offset := o.offset + Least(n, slabSize - o.offset)), n - Least(n, slabSize - o.offset))
    ensures o.offset >= slabSize && o.spoiled + 1 >= slabCount ==> AfterBytes(slabSize, slabCount, o, n).starves
  {
    if o.spoiled + 1 >= slabCount {
      StarvesOn(slabSize, slabCount, Leave(o, slabCount), n);
    }
  }

  /** A call has ended as the outlook says. */
  ghost predicate Ends(r: Ring, p: Outlook) {
    if p.starves then Starved(r) else r.control == Idle && Even(r, p)
  }

  /** The writer stands at the top of its loop, with so much to copy that the call will end as said. */
  ghost predicate Copying(slabSize: nat, slabCount: nat, r: Ring, o: Outlook, rest: Octets, p: Outlook)
    requires slabSize > 0
  {
    r.control == Top(rest) && Even(r, o) && p == AfterBytes(slabSize, slabCount, o, |rest|)
  }

  lemma EagerFull(slabSize: nat, slabCount: nat, r: Ring, calls: seq<Step>, o: Outlook, rest: Octets, p: Outlook) returns (end: Ring)
    requires slabSize > 0 && slabCount >= 2 && Reached(slabSize, slabCount, r, calls) && Copying(slabSize, slabCount, r, o, rest, p)
    requires rest != [] && o.offset >= slabSize
    ensures Reached(slabSize, slabCount, end, calls) && end.lost == r.lost
    ensures if o.spoiled + 1 >= slabCount then Ends(end, p) else Copying(slabSize, slabCount, end, Leave(o, slabCount), rest, p)
  {
    BytesTurn(slabSize, slabCount, o, |rest|);
    end := TopEnds(slabSize, slabCount, r, calls, o);
    end := EagerLeave(slabSize, slabCount, end, calls, o);
  }

  lemma EagerCopy(slabSize: nat, slabCount: nat, r: Ring, calls: seq<Step>, o: Outlook, rest: Octets, n: nat, p: Outlook) returns (end: Ring)
    requires slabSize > 0 && slabCount >= 2 && Reached(slabSize, slabCount, r, calls) && Copying(slabSize, slabCount, r, o, rest, p)
    requires rest != [] && o.offset < slabSize && n == Least(|rest|, slabSize - o.offset)
    ensures Reached(slabSize, slabCount, end, calls) && (!o.flushed ==> end.lost == r.lost)
    ensures Copying(slabSize, slabCount, end, o.(offset := o.offset + n), rest[n..], p)
  {
    CopyTarget(slabSize, slabCount, o, |rest|, n, |rest[n..]|, p);
    end := Copies(slabSize, slabCount, r, calls, o, rest, n);
  }

  lemma CopyTarget(slabSize: nat, slabCount: nat, o: Outlook, n: nat, k: nat, left: nat, p: Outlook)
    requires 0 < n && o.offset < slabSize && k == Least(n, slabSize - o.offset) && left == n - k
    requires p == AfterBytes(slabSize, slabCount, o, n)
    ensures p == AfterBytes(slabSize, slabCount, o.(offset := o.offset + k), left)
  {}

  lemma {:induction false} EagerWrite(slabSize: nat, slabCount: nat, r: Ring, calls: seq<Step>, o: Outlook, rest: Octets, p: Outlook)
      returns (end: Ring)
    requires slabSize > 0 && slabCount >= 2 && Reached(slabSize, slabCount, r, calls) && Copying(slabSize, slabCount, r, o, rest, p)
    ensures Reached(slabSize, slabCount, end, calls) && Ends(end, p)
    ensures WritesSafely(slabSize, o, |rest|) ==> end.lost == r.lost
    decreases |rest|, if o.offset >= slabSize then 1 else 0
  {
    if rest == [] {
      end := TopEnds(slabSize, slabCount, r, calls, o);
    } else if o.offset >= slabSize {
      end := EagerFull(slabSize, slabCount, r, calls, o, rest, p);
      if o.spoiled + 1 < slabCount {
        end := EagerWrite(slabSize, slabCount, end, calls, Leave(o, slabCount), rest, p);
      }
    } else {
      var n := Least(|rest|, slabSize - o.offset);
      end := EagerCopy(slabSize, slabCount, r, calls, o, rest, n, p);
      end := EagerWrite(slabSize, slabCount, end, calls, o.(offset := o.offset + n), rest[n..], p);
    }
  }

  lemma EagerFlush(slabSize: nat, slabCount: nat, r: Ring, calls: seq<Step>, o: Outlook) returns (end: Ring)
    requires slabSize > 0 && slabCount >= 2 && Reached(slabSize, slabCount, r, calls) && r.control == FlushSeal && Even(r, o)
    ensures Reached(slabSize, slabCount, end, calls) && end.control == Idle && Even(end, o.(flushed := true)) && end.lost == r.lost
  {
    ReachedSound(slabSize, slabCount, r, calls);
    end := Seals(slabSize, slabCount, r, calls);
  }

  lemma EagerCall(slabSize: nat, slabCount: nat, r: Ring, calls: seq<Step>, o: Outlook, call: Step) returns (end: Ring)
    requires slabSize > 0 && slabCount >= 2 && Reached(slabSize, slabCount, r, calls) && r.control == Idle && Even(r, o) && IsCall(call)
    ensures Reached(slabSize, slabCount, end, calls + [call])
    ensures var p := AfterCall(slabSize, slabCount, o, call);
      if p.starves then Starved(end) else end.control == Idle && Even(end, p)
    ensures (call.CallWrite? ==> WritesSafely(slabSize, o, |call.bytes|)) ==> end.lost == r.lost
  {
    ReachedSound(slabSize, slabCount, r, calls);
    var called := ReachedNext(slabSize, slabCount, r, calls, call);
    if call.CallWrite? {
      end := EagerWrite(slabSize, slabCount, called, calls + [call], o, call.bytes, AfterCall(slabSize, slabCount, o, call));
    } else if o.offset > 0 {
      end := EagerFlush(slabSize, slabCount, called, calls + [call], o);
    } else {
      end := called;
    }
  }

  predicate AreCalls(calls: seq<Step>) {
    forall i | 0 <= i < |calls| :: IsCall(calls[i])
  }

  /** No write of the calls falls into a slab that a flush has sealed short. */
  predicate SafeCalls(slabSize: nat, slabCount: nat, calls: seq<Step>)
    requires slabSize > 0
  {
    calls == [] ||
    var front, last := calls[..|calls| - 1], calls[|calls| - 1];
    && SafeCalls(slabSize, slabCount, front)
    && (last.CallWrite? ==> WritesSafely(slabSize, AfterCalls(slabSize, slabCount, front), |last.bytes|))
  }

  lemma Begun(slabSize: nat, slabCount: nat) returns (r: Ring)
    requires slabSize > 0 && slabCount >= 2
    ensures Reached(slabSize, slabCount, r, []) && r.control == Idle && r.lost == 0 && Even(r, AfterCalls(slabSize, slabCount, []))
  {
    r := Create(slabSize, slabCount);
    CreateInv(slabSize, slabCount);
    assert Run(slabSize, slabCount, []) == r && Calls(slabSize, slabCount, []) == [];
    assert r.orphans - {r.idx} == {};
  }

  /** With a consumer that drops at once, the calls run to their end, or to where they starve the writer. */
  lemma {:induction false} EagerRun(slabSize: nat, slabCount: nat, calls: seq<Step>) returns (end: Ring, accepted: seq<Step>)
    requires slabSize > 0 && slabCount >= 2 && AreCalls(calls)
    ensures Reached(slabSize, slabCount, end, accepted) && accepted <= calls
    ensures var o := AfterCalls(slabSize, slabCount, calls);
      if o.starves then Starved(end) else accepted == calls && end.control == Idle && Even(end, o)
    ensures SafeCalls(slabSize, slabCount, calls) ==> end.lost == 0
    decreases |calls|
  {
    if calls == [] {
      end := Begun(slabSize, slabCount);
      accepted := [];
    } else {
      var front, last := calls[..|calls| - 1], calls[|calls| - 1];
      end, accepted := EagerRun(slabSize, slabCount, front);
      var o := AfterCalls(slabSize, slabCount, front);
      CallsGrow(slabSize, slabCount, front, last);
      assert calls == front + [last];
      if o.starves {
        StarvesLater(slabSize, slabCount, front, calls);
      } else {
        end := EagerCall(slabSize, slabCount, end, front, o, last);
        accepted := calls;
      }
    }
  }

  /**
   * For every sequence of calls: some run of it, or of its first calls, leaves the writer waiting for
   * nothing if and only if a write goes on behind a slab when so many slabs as there are others have each
   * been sealed by a flush and left by a later write.
   */
  lemma StarvationTheorem(slabSize: nat, slabCount: nat, calls: seq<Step>)
    requires slabSize > 0 && slabCount >= 2 && AreCalls(calls)
    ensures (exists steps :: Calls(slabSize, slabCount, steps) <= calls && Starved(Run(slabSize, slabCount, steps)))
       <==> AfterCalls(slabSize, slabCount, calls).starves
  {
    if AfterCalls(slabSize, slabCount, calls).starves {
      var end, accepted := EagerRun(slabSize, slabCount, calls);
      var steps :| Run(slabSize, slabCount, steps) == end && Calls(slabSize, slabCount, steps) == accepted;
      assert Calls(slabSize, slabCount, steps) <= calls;
    }
    forall steps | Calls(slabSize, slabCount, steps) <= calls && Starved(Run(slabSize, slabCount, steps))
      ensures AfterCalls(slabSize, slabCount, calls).starves
    {
      RunForesees(slabSize, slabCount, steps, calls);
    }
  }

  /** Two slabs of one byte: the slab flushed when it was exactly full is left by the next write. */
  function FullFlush(a: byte, b: byte, c: byte): seq<Step> { [CallWrite([a]), CallFlush, CallWrite([b, c])] }

  lemma FillsSlab(slabSize: nat, slabCount: nat, o: Outlook, n: nat)
    requires 0 < n && o.offset + n <= slabSize
    ensures AfterBytes(slabSize, slabCount, o, n) == o.(offset := o.offset + n)
  {
    BytesTurn(slabSize, slabCount, o, n);
  }

  lemma FullFlushOutlook(a: byte, b: byte, c: byte, size: nat, count: nat)
    requires size == 1 && count == 2
    ensures var calls := FullFlush(a, b, c); AfterCalls(size, count, calls).starves && SafeCalls(size, count, calls)
  {
    var second := [CallWrite([a]), CallFlush];
    FlushedOutlook(a, size, count);
    TwoBytesStarve(size, count, Outlook(1, true, 0, false));
    OneCallMore(size, count, second, CallWrite([b, c]));
    assert FullFlush(a, b, c) == second + [CallWrite([b, c])];
  }

  lemma OneCallMore(size: nat, count: nat, calls: seq<Step>, call: Step)
    requires size > 0
    ensures AfterCalls(size, count, calls + [call]) == AfterCall(size, count, AfterCalls(size, count, calls), call)
    ensures SafeCalls(size, count, calls + [call])
       <==> SafeCalls(size, count, calls) && (call.CallWrite? ==> WritesSafely(size, AfterCalls(size, count, calls), |call.bytes|))
  {
    assert (calls + [call])[..|calls|] == calls;
  }

  lemma FlushedOutlook(a: byte, size: nat, count: nat)
    requires size == 1 && count == 2
    ensures var calls := [CallWrite([a]), CallFlush];
      AfterCalls(size, count, calls) == Outlook(1, true, 0, false) && SafeCalls(size, count, calls)
  {
    var first := [CallWrite([a])];
    FillsSlab(size, count, Outlook(0, false, 0, false), 1);
    OneCallMore(size, count, [], CallWrite([a]));
    OneCallMore(size, count, first, CallFlush);
    assert first == [] + first && [CallWrite([a]), CallFlush] == first + [CallFlush];
  }

  lemma TwoBytesStarve(size: nat, count: nat, o: Outlook)
    requires size == 1 && count == 2 && o == Outlook(1, true, 0, false)
    ensures AfterBytes(size, count, o, 2).starves
  {
    BytesTurn(size, count, o, 2);
    var left := Leave(o, count);
    BytesTurn(size, count, left, 2);
    BytesTurn(size, count, left.(offset := 1), 1);
  }

  /** A flush of an exactly full slab loses no byte by itself, but two calls later the writer waits for ever. */
  lemma FullFlushStarves(a: byte, b: byte, c: byte) returns (steps: seq<Step>)
    ensures Calls(1, 2, steps) <= FullFlush(a, b, c) && Careful(1, 2, steps) && Starved(Run(1, 2, steps))
  {
    FullFlushOutlook(a, b, c, 1, 2);
    var end, accepted := EagerRun(1, 2, FullFlush(a, b, c));
    steps :| Run(1, 2, steps) == end && Calls(1, 2, steps) == accepted;
    CarefulIsSafe(1, 2, steps);
  }
}
