/** What holds in every reachable state of the lock driver, and where its assumptions are needed. */
module UmplockTheorems {
  import opened Options
  import opened Sums
  import opened UmplockTables
  import opened UmplockAccounting
  import opened UmplockProtocol
  import opened UmplockCounting
  import opened UmplockExclusion

  /** The state after a run, or None if some step is not enabled when its turn comes. */
  function Run(orderly: bool, s: State, steps: seq<Step>): Option<State>
    decreases |steps|
  {
    if steps == [] then Some(s)
    else if Shaped(s.dev) && Enabled(orderly, s, steps[0]) then Run(orderly, Apply(s, steps[0]), steps[1..])
    else None
  }

  /** States reachable from freshly initialised tables. */
  ghost predicate Reachable(orderly: bool, maxItems: nat, maxPids: nat, s: State) {
    exists steps :: Run(orderly, Init(maxItems, maxPids), steps) == Some(s)
  }

  lemma {:induction false} RunCounted(orderly: bool, s: CountedState, steps: seq<Step>, s': State)
    requires Run(orderly, s, steps) == Some(s')
    ensures Counted(s')
    decreases |steps|
  {
    if steps != [] {
      var n := StepCounted(orderly, s, steps[0]);
      RunCounted(orderly, n, steps[1..], s');
    }
  }

  lemma {:induction false} RunExclusive(s: ExclusiveState, steps: seq<Step>, s': State)
    requires Run(true, s, steps) == Some(s')
    ensures Counted(s') && ExclusiveIn(s')
    decreases |steps|
  {
    if steps != [] {
      var n := StepCounted(true, s, steps[0]);
      StepExclusive(s, steps[0]);
      RunExclusive(n, steps[1..], s');
    }
  }

  lemma ReachableCounted(orderly: bool, maxItems: nat, maxPids: nat, s: State)
    requires Reachable(orderly, maxItems, maxPids, s)
    ensures Counted(s)
  {
    var steps :| Run(orderly, Init(maxItems, maxPids), steps) == Some(s);
    InitCounted(maxItems, maxPids);
    RunCounted(orderly, Init(maxItems, maxPids), steps, s);
  }

  lemma ReachableExclusive(maxItems: nat, maxPids: nat, s: State)
    requires Reachable(true, maxItems, maxPids, s)
    ensures Counted(s) && ExclusiveIn(s)
  {
    var steps :| Run(true, Init(maxItems, maxPids), steps) == Some(s);
    InitCounted(maxItems, maxPids);
    InitExclusive(maxItems, maxPids);
    RunExclusive(Init(maxItems, maxPids), steps, s);
  }

  lemma {:induction false} RunAppend(orderly: bool, s: State, steps: seq<Step>, s': State, step: Step)
    requires Run(orderly, s, steps) == Some(s')
    requires Shaped(s'.dev) && Enabled(orderly, s', step)
    ensures Run(orderly, s, steps + [step]) == Some(Apply(s', step))
    decreases |steps|
  {
    if steps == [] {
      assert (steps + [step])[1..] == [];
    } else {
      assert (steps + [step])[1..] == steps[1..] + [step];
      RunAppend(orderly, Apply(s, steps[0]), steps[1..], s', step);
    }
  }

  /** One more step of a reachable state. */
  lemma ReachableStep(orderly: bool, maxItems: nat, maxPids: nat, s: State, step: Step)
    requires Reachable(orderly, maxItems, maxPids, s) && Shaped(s.dev) && Enabled(orderly, s, step)
    ensures Reachable(orderly, maxItems, maxPids, Apply(s, step))
  {
    var steps :| Run(orderly, Init(maxItems, maxPids), steps) == Some(s);
    RunAppend(orderly, Init(maxItems, maxPids), steps, s, step);
  }

  // ---------------------------------------------------------------- orderly runs

  /** At most one process holds a secure id, and it is the owner of the item. */
  lemma MutualExclusion(maxItems: nat, maxPids: nat, s: State, sid: nat, k: nat, l: nat)
    requires Reachable(true, maxItems, maxPids, s) && sid != 0
    requires k < |s.threads| && l < |s.threads|
    requires s.threads[k].Held(sid) > 0 && s.threads[l].Held(sid) > 0
    ensures s.threads[k].pid == s.threads[l].pid
    ensures exists i :: 0 <= i < |s.dev.items| && s.dev.items[i].sid == sid && s.dev.items[i].owner == s.threads[k].pid
  {
    ReachableExclusive(maxItems, maxPids, s);
    assert HoldOk(s.dev.items, s.threads[k]) && HoldOk(s.dev.items, s.threads[l]);
    assert ThreadOk(s.dev, s.open, s.threads[k]);
    var i := FindItem(s.dev.items, sid);
    assert s.dev.items[i].sid == sid;
  }

  /** The permit of every live item is in one place, and a free item has no owner and no slot. */
  lemma PermitConservation(maxItems: nat, maxPids: nat, s: State, i: nat)
    requires Reachable(true, maxItems, maxPids, s) && i < |s.dev.items|
    ensures var item := s.dev.items[i];
            if item.sid != 0
            then item.sem + Permits(s.threads, i) + (if item.owner != 0 then 1 else 0) == 1 && item.sem >= 0
            else item.owner == 0 && item.idRef == 0
                 && forall j :: 0 <= j < |item.refs| ==> item.refs[j].pid == 0 && item.refs[j].refCount == 0
  {
    ReachableExclusive(maxItems, maxPids, s);
    assert PermitOk(s.dev.items[i], Permits(s.threads, i));
    if s.dev.items[i].sid == 0 { FreeItemIsEmpty(s.dev.items[i]); }
  }

  /** No wake-up is lost: when a call waits and nobody holds or is about to, it can take the permit. */
  lemma NoLostWakeup(maxItems: nat, maxPids: nat, s: State, t: nat)
    requires Reachable(true, maxItems, maxPids, s) && t < |s.threads| && s.threads[t].pc.Waiting?
    requires forall k :: 0 <= k < |s.threads| ==>
               s.threads[k].Held(s.threads[t].pc.sid) == 0
               && !(s.threads[k].pc.Permitted? && s.threads[k].pc.i == s.threads[t].pc.i)
    ensures Enabled(true, s, TakePermit(t)) && s.dev.items[s.threads[t].pc.i].sem == 1
  {
    ReachableExclusive(maxItems, maxPids, s);
    var pc := s.threads[t].pc;
    CallOwner(s, t);
    var item := s.dev.items[pc.i];
    assert PermitOk(item, Permits(s.threads, pc.i));
    SumZero(Marks(s.threads, pc.i));
    if item.owner != 0 {
      var k := OwnerHolds(s, pc.i);
    }
  }

  /** A process owns every item it has a slot in and no call in flight on, so that the deletion of
      that client meets only references it can release. */
  lemma IdleProcessOwnsItsItems(maxItems: nat, maxPids: nat, s: State, pid: nat, i: nat, j: nat)
    requires Reachable(true, maxItems, maxPids, s) && pid != 0
    requires Indexed(s.dev, i, j) && s.dev.items[i].refs[j].pid == pid && NoneCalling(s.threads, pid, s.dev.items[i].sid)
    ensures s.dev.items[i].owner == pid
  {
    ReachableExclusive(maxItems, maxPids, s);
    SlotCounts(s, i, j);
    NoWaits(s.threads, pid, s.dev.items[i].sid);
    var k := HoldWitness(s.threads, pid, s.dev.items[i].sid);
    assert HoldOk(s.dev.items, s.threads[k]);
  }

  /** The down count of a slot is its process's calls in flight, and one more if it owns the item. */
  lemma DownCountsWaits(maxItems: nat, maxPids: nat, s: State, i: nat, j: nat)
    requires Reachable(true, maxItems, maxPids, s) && Indexed(s.dev, i, j) && s.dev.items[i].refs[j].pid != 0
    ensures var item, r := s.dev.items[i], s.dev.items[i].refs[j];
            r.down == Waits(s.threads, r.pid, item.sid) + if item.owner == r.pid then 1 else 0
  {
    ReachableExclusive(maxItems, maxPids, s);
    assert DownOk(s.dev.items[i], s.threads);
  }

  /** The permits of an item: in its semaphore, on their way to ownership, and with its owner. */
  function PermitTotal(item: Item, permits: int): int {
    item.sem + permits + if item.owner != 0 then 1 else 0
  }

  /** Which releases the orderly runs must leave out, exactly: the release of something held keeps the
      one permit if and only if no thread of the process is in a call on the id at that moment;
      otherwise there are two permits. */
  lemma ReleaseKeepsPermitIff(maxItems: nat, maxPids: nat, s: State, pid: nat, sid: nat, holder: nat)
    requires Reachable(true, maxItems, maxPids, s) && Gives(s.threads, pid, sid, holder)
    requires Release(s.dev, pid, sid).1.Released?
    ensures var i := Release(s.dev, pid, sid).1.i;
            && i < |s.dev.items| == |Release(s.dev, pid, sid).0.items|
            && PermitTotal(s.dev.items[i], Permits(s.threads, i)) == 1
            && PermitTotal(Release(s.dev, pid, sid).0.items[i], Permits(s.threads, i)) ==
               if NoneCalling(s.threads, pid, sid) then 1 else 2
  {
    ReachableExclusive(maxItems, maxPids, s);
    assert pid != 0 by { assert ThreadOk(s.dev, s.open, s.threads[holder]); }
    ReleaseCounts(s.dev, pid, sid);
    var i, j := Release(s.dev, pid, sid).1.i, Release(s.dev, pid, sid).1.j;
    ReleasedSlot(s, i, j, holder);
    WaitsZeroIff(s.threads, pid, sid);
    PermitAfterRelease(s.dev.items[i], j, Permits(s.threads, i), Waits(s.threads, pid, sid));
  }

  /** The slot from which a thread of the owner releases. */
  lemma ReleasedSlot(s: ExclusiveState, i: nat, j: nat, holder: nat)
    requires Indexed(s.dev, i, j) && s.dev.items[i].refs[j].pid != 0 && s.dev.items[i].owner == s.dev.items[i].refs[j].pid
    requires Gives(s.threads, s.dev.items[i].owner, s.dev.items[i].sid, holder)
    ensures var item := s.dev.items[i];
            && item.sid != 0 && ItemOk(item) && PermitTotal(item, Permits(s.threads, i)) == 1
            && item.refs[j].down == Waits(s.threads, item.owner, item.sid) + 1 <= item.refs[j].refCount
  {
    var item := s.dev.items[i];
    SlotCounts(s, i, j);
    assert PermitOk(item, Permits(s.threads, i)) && DownOk(item, s.threads);
    MoreCallsThanWaits(s.threads, holder, item.owner, item.sid);
  }

  lemma PermitAfterRelease(item: Item, j: nat, permits: int, waits: nat)
    requires j < |item.refs| && item.owner == item.refs[j].pid != 0
    requires item.refs[j].down == waits + 1 <= item.refs[j].refCount
    ensures PermitTotal(Unlock(item, j), permits) == PermitTotal(item, permits) + if waits == 0 then 0 else 1
  {
  }

  lemma WaitsZeroIff(threads: seq<Thread>, pid: nat, sid: nat)
    ensures 0 <= Waits(threads, pid, sid)
    ensures Waits(threads, pid, sid) == 0 <==> NoneCalling(threads, pid, sid)
  {
    WaitsAreCalls(threads, pid, sid);
    if NoneCalling(threads, pid, sid) {
      NoWaits(threads, pid, sid);
    } else {
      var k :| 0 <= k < |threads| && threads[k].pid == pid && threads[k].pc.InCall() && threads[k].pc.sid == sid;
      WaitsDominate(threads, k);
    }
  }

  /** A thread that holds makes the calls more than those in flight. */
  lemma {:induction false} MoreCallsThanWaits(threads: seq<Thread>, holder: nat, pid: nat, sid: nat)
    requires Gives(threads, pid, sid, holder)
    ensures Calls(threads, pid, sid) > Waits(threads, pid, sid)
  {
    var loads := Loads(threads, pid, sid);
    var lower := loads[holder := loads[holder] - 1];
    SumMonotone(WaitList(threads, pid, sid), lower);
    SumUpdate(loads, holder, loads[holder] - 1);
  }

  // ---------------------------------------------------------------- any number of threads

  /** Each reference count is the process's held plus waiting calls, the item's count is the sum
      over its slots, and an item is live exactly when that sum is positive. */
  lemma ReferenceAccounting(orderly: bool, maxItems: nat, maxPids: nat, s: State, i: nat)
    requires Reachable(orderly, maxItems, maxPids, s) && i < |s.dev.items|
    ensures var item := s.dev.items[i];
            && item.idRef == Sum(RefCounts(item.refs))
            && (item.sid != 0 <==> item.idRef > 0)
            && (forall j :: 0 <= j < |item.refs| && item.refs[j].pid != 0 ==>
                  item.refs[j].refCount == Calls(s.threads, item.refs[j].pid, item.sid) > 0)
            && (item.sid != 0 ==> forall p | p != 0 :: Calls(s.threads, p, item.sid) == SlotCount(item, p))
  {
    ReachableCounted(orderly, maxItems, maxPids, s);
    var item := s.dev.items[i];
    SumNonNegative(RefCounts(item.refs));
    if item.sid != 0 {
      forall p | p != 0 ensures Calls(s.threads, p, item.sid) == SlotCount(item, p) {
        CountLive(s.dev, i, p);
      }
    }
    forall j | 0 <= j < |item.refs| && item.refs[j].pid != 0
      ensures item.refs[j].refCount == Calls(s.threads, item.refs[j].pid, item.sid) > 0
    {
      CountInSlot(item, j);
      TotalCoversSlots(item, j);
      CountLive(s.dev, i, item.refs[j].pid);
    }
  }

  /** The tables stand for a map from ids and processes to counts: in every reachable state they are
      consistent, the map counts the held plus waiting calls, and the two searches answer exactly the
      map, with the slot that has the count. */
  lemma TablesRefineMap(orderly: bool, maxItems: nat, maxPids: nat, s: State, sid: nat, pid: nat)
    requires Reachable(orderly, maxItems, maxPids, s) && sid != 0 && pid != 0
    ensures Consistent(s.dev) && Count(s.dev.items, sid, pid) == Calls(s.threads, pid, sid) >= 0
    ensures match Locate(s.dev.items, pid, sid)
            case None => Count(s.dev.items, sid, pid) == 0
            case Some((i, j)) => s.dev.items[i].refs[j].refCount == Count(s.dev.items, sid, pid) > 0 && Registered(s.dev.pids, pid)
  {
    ReachableCounted(orderly, maxItems, maxPids, s);
    LocateAnswersCount(s.dev, pid, sid);
    var at := Locate(s.dev.items, pid, sid);
    if at.Some? {
      assert Registered(s.dev.pids, s.dev.items[at.value.0].refs[at.value.1].pid);
    }
  }

  /** The indices saved before the wait still name the call's own item and slot when it wakes. */
  lemma IndexStability(orderly: bool, maxItems: nat, maxPids: nat, s: State, t: nat)
    requires Reachable(orderly, maxItems, maxPids, s) && t < |s.threads| && s.threads[t].pc.InCall()
    ensures var pc := s.threads[t].pc;
            && Locate(s.dev.items, s.threads[t].pid, pc.sid) == Some((pc.i, pc.j))
            && s.dev.items[pc.i].refs[pc.j].refCount > 0
  {
    ReachableCounted(orderly, maxItems, maxPids, s);
    CallOwner(s, t);
    CountInSlot(s.dev.items[s.threads[t].pc.i], s.threads[t].pc.j);
  }

  /** Only the semaphore of a free item is initialised, and there is a zap only when no call is in
      flight: nobody's semaphore is re-initialised while it waits. */
  lemma NoResetUnderWaiter(orderly: bool, maxItems: nat, maxPids: nat, s: State, step: Step, t: nat)
    requires Reachable(orderly, maxItems, maxPids, s) && t < |s.threads| && s.threads[t].pc.InCall()
    requires step.Process? || step.EndSession?
    requires Enabled(orderly, s, step) && Shaped(s.dev)
    ensures s.threads[t].pc.i < |s.dev.items| == |Apply(s, step).dev.items|
    ensures Apply(s, step).dev.items[s.threads[t].pc.i].sem == s.dev.items[s.threads[t].pc.i].sem
  {
    ReachableCounted(orderly, maxItems, maxPids, s);
    CallOwner(s, t);
    assert ThreadOk(s.dev, s.open, s.threads[t]) && ThreadOk(s.dev, s.open, s.threads[step.t]);
    if step.Process? {
      BookSparesLive(s.dev, s.threads[step.t].pid, step.sid, step.usage, s.threads[t].pc.i);
    } else {
      assert s.threads[t].pid != s.threads[step.t].pid;
      assert {s.threads[t].pid, s.threads[step.t].pid} <= s.open;
      assert |s.open - {s.threads[step.t].pid}| > 0 by {
        assert s.threads[t].pid in s.open - {s.threads[step.t].pid};
      }
    }
  }

  lemma BookSparesLive(d: Device, pid: nat, sid: nat, usage: nat, i: nat)
    requires Consistent(d) && pid != 0 && i < |d.items| && d.items[i].sid != 0
    ensures |Book(d, pid, sid, usage).0.items| == |d.items|
    ensures Book(d, pid, sid, usage).0.items[i].sem == d.items[i].sem
  {
    if Accepts(d, pid, sid) {
      var k, j := BookLands(d, pid, sid, usage);
    } else {
      BookRefuses(d, pid, sid, usage);
    }
  }

  // ---------------------------------------------------------------- where order matters

  /** An interrupted wait leaves a free item that still names an owner if and only if the item has no
      reference but this one and an owner. */
  lemma InterruptedFreesOwnedIff(maxItems: nat, maxPids: nat, s: State, t: nat)
    requires Reachable(false, maxItems, maxPids, s) && t < |s.threads| && s.threads[t].pc.Interrupted?
    ensures s.threads[t].pc.i < |s.dev.items| == |AfterGiveUp(s, t).dev.items|
    ensures var i := s.threads[t].pc.i;
            var item, item' := s.dev.items[i], AfterGiveUp(s, t).dev.items[i];
            item'.sid == 0 && item'.owner != 0 <==> item.idRef == 1 && item.owner != 0
  {
    ReachableCounted(false, maxItems, maxPids, s);
    CallOwner(s, t);
    TotalCoversSlots(s.dev.items[s.threads[t].pc.i], s.threads[t].pc.j);
    CountInSlot(s.dev.items[s.threads[t].pc.i], s.threads[t].pc.j);
  }

  // ---------------------------------------------------------------- the deletion loop

  /** The tables after `n` releases of `sid` by `pid`: what the inner loop of the deletion does. */
  function Releases(d: Device, pid: nat, sid: nat, n: nat): Device
    decreases n
  {
    if n == 0 then d else Releases(Release(d, pid, sid).0, pid, sid, n - 1)
  }

  /** The slot is empty after `n` releases. */
  ghost predicate EmptiedBy(d: Device, pid: nat, sid: nat, n: nat, i: nat, j: nat) {
    Indexed(Releases(d, pid, sid, n), i, j) && Releases(d, pid, sid, n).items[i].refs[j].refCount == 0
  }

  /** The loop drains a slot if and only if the process owns the item; otherwise it spins for ever. */
  lemma DrainEndsIffOwner(d: Device, pid: nat, sid: nat, i: nat, j: nat)
    requires Consistent(d) && pid != 0 && Locate(d.items, pid, sid) == Some((i, j)) && d.items[i].sid != 0
    ensures (exists n: nat :: EmptiedBy(d, pid, sid, n, i, j)) <==> d.items[i].owner == pid
  {
    CountInSlot(d.items[i], j);
    if d.items[i].owner == pid {
      var n: nat := d.items[i].refs[j].refCount;
      DrainCountsDown(d, pid, sid, i, j, n);
    } else {
      forall n: nat ensures Releases(d, pid, sid, n) == d { RefusedReleases(d, pid, sid, n); }
    }
  }

  lemma {:induction false} RefusedReleases(d: Device, pid: nat, sid: nat, n: nat)
    requires Release(d, pid, sid).0 == d
    ensures Releases(d, pid, sid, n) == d
  {
    if n > 0 { RefusedReleases(d, pid, sid, n - 1); }
  }

  /** Slot `j` of item `i` has `left` references that `pid` can release as the owner. */
  ghost predicate Drainable(d: Device, pid: nat, sid: nat, i: nat, j: nat, left: nat) {
    && Consistent(d) && pid != 0 && sid != 0 && Indexed(d, i, j) && d.items[i].refs[j].refCount == left
    && (left > 0 ==> d.items[i].owner == pid && d.items[i].sid == sid && d.items[i].refs[j].pid == pid)
  }

  lemma {:induction false} DrainCountsDown(d: Device, pid: nat, sid: nat, i: nat, j: nat, left: nat)
    requires Drainable(d, pid, sid, i, j, left)
    ensures EmptiedBy(d, pid, sid, left, i, j)
    decreases left
  {
    if left > 0 {
      var d' := DrainOnce(d, pid, sid, i, j, left);
      DrainCountsDown(d', pid, sid, i, j, left - 1);
    }
  }

  lemma DrainOnce(d: Device, pid: nat, sid: nat, i: nat, j: nat, left: nat) returns (d': Device)
    requires Drainable(d, pid, sid, i, j, left) && left > 0
    ensures d' == Release(d, pid, sid).0 && Drainable(d', pid, sid, i, j, left - 1)
  {
    OwnerReleases(d, pid, sid, i, j, left);
    ReleaseCounts(d, pid, sid);
    d' := Release(d, pid, sid).0;
    assert d'.items[i] == Unlock(d.items[i], j);
  }

  lemma OwnerReleases(d: Device, pid: nat, sid: nat, i: nat, j: nat, left: nat)
    requires Drainable(d, pid, sid, i, j, left) && left > 0
    ensures Release(d, pid, sid) == (d.(items := d.items[i := Unlock(d.items[i], j)]), Released(i, j))
  {
    LocateAnswersCount(d, pid, sid);
    assert Registered(d.pids, d.items[i].refs[j].pid);
  }
}
