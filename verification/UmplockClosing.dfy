/** A process that closes while nobody else moves: exactly when its walk ends, and that the tables are
    then those without the client.  This ties the walk of the protocol to the deletion as one
    uninterrupted call. */
module UmplockClosing {
  import opened Options
  import opened UmplockTables
  import opened UmplockAccounting
  import opened UmplockProtocol
  import opened UmplockCounting
  import opened UmplockExclusion
  import opened UmplockTheorems
  import opened UmplockDeletion

  // ---------------------------------------------------------------- what the deletion does not see

  lemma ForgottenAfterUnlock(item: Item, j: nat, pid: nat)
    requires ItemOk(item) && j < |item.refs| && item.refs[j].pid == pid != 0
    ensures Forgotten(Unlock(item, j), pid) == Forgotten(item, pid)
  {
    var item' := Unlock(item, j);
    CountInSlot(item, j);
    forall k | 0 <= k < |item.refs| && k != j ensures item'.refs[k].pid != pid {
      assert item'.refs[k] == item.refs[k];
    }
    if item.refs[j].refCount == 1 {
      assert item'.refs[j].pid == 0;
      assert FindRef(item'.refs, pid) < 0 && Drained(item', j) == item';
    } else {
      assert item'.refs[j].pid == pid;
      assert FindRef(item'.refs, pid) >= 0;
      assert FindRef(item'.refs, pid) == j;
    }
    assert Drained(item, j) == Drained(item', j);
  }

  /** Releasing one of its references first makes no difference to the deletion of a client. */
  lemma DeletedAfterRelease(d: Device, pid: nat, i: nat, j: nat)
    requires Consistent(d) && pid != 0 && i < |d.items| && j < |d.items[i].refs| && d.items[i].refs[j].pid == pid
    ensures Deleted(d.(items := d.items[i := Unlock(d.items[i], j)]), pid) == Deleted(d, pid)
  {
    ForgottenAfterUnlock(d.items[i], j, pid);
    var d' := d.(items := d.items[i := Unlock(d.items[i], j)]);
    assert DeletedUpTo(d', pid, |d.items|).items == DeletedUpTo(d, pid, |d.items|).items;
  }

  /** With no slot left, the deletion only removes the pid. */
  lemma DeletedWithoutSlots(d: Device, pid: nat, p: nat)
    requires Consistent(d) && pid != 0 && p < |d.pids| && d.pids[p] == pid
    requires forall i :: 0 <= i < |d.items| ==> NoSlotIn(d.items[i], pid)
    ensures Deleted(d, pid) == d.(pids := d.pids[p := 0])
  {
    forall i | 0 <= i < |d.items| ensures Forgotten(d.items[i], pid) == d.items[i] {
      assert NoSlotIn(d.items[i], pid);
    }
    assert DeletedUpTo(d, pid, |d.items|).items == d.items;
  }

  // ---------------------------------------------------------------- the walk

  /** Thread `t` drains a slot of its process that still has references. */
  ghost predicate AtSlot(s: State, t: nat) {
    && t < |s.threads| && s.threads[t].pc.Draining?
    && var pc := s.threads[t].pc;
       && Indexed(s.dev, pc.i, pc.j) && s.dev.items[pc.i].refs[pc.j].pid == s.threads[t].pid
       && s.dev.items[pc.i].refs[pc.j].refCount > 0 && s.dev.items[pc.i].sid == pc.sid
  }

  ghost predicate Gone(s: State, t: nat, d: Device) {
    t < |s.threads| && s.threads[t].pc == Closed && s.dev == d
  }

  /** A walk stops at a slot behind `from`, or the client is gone. */
  lemma WalkLeads(s: CountedState, t: nat, p: nat, from: nat)
    requires MayWalk(s, t, p) && s.threads[t].pid != 0 && AbsentBelow(s.dev.items, s.threads[t].pid, from)
    ensures var w := Walk(s, t, p, from);
            || Gone(w, t, Deleted(s.dev, s.threads[t].pid))
            || (AtSlot(w, t) && w.dev == s.dev && w.threads[t].pc.i >= from && w.threads[t].pid == s.threads[t].pid)
  {
    var pid := s.threads[t].pid;
    assert WalkedFrom(s.dev.items, pid, from) by {
      forall k | 0 <= k < |s.dev.items| ensures LocatesSelf(s.dev.items, pid, k) { LocateSelf(s.dev, pid, k); }
      WalkFinds(s.dev.items, pid, from);
    }
    if NextHeld(s.dev.items, pid, from).Clear? {
      forall i | 0 <= i < |s.dev.items| ensures NoSlotIn(s.dev.items[i], pid) {
        assert i < from ==> NoSlotIn(s.dev.items[i], pid);
      }
      DeletedWithoutSlots(s.dev, pid, p);
    }
  }

  /** The process of thread `t` owns every item it has a slot in. */
  ghost predicate Owns(s: State, t: nat) {
    t < |s.threads| && OwnsWhatItHolds(s.dev.items, s.threads[t].pid)
  }

  /** Some thread of the process holds what it drains. */
  lemma HolderOf(s: CountedState, t: nat) returns (holder: nat)
    requires AtSlot(s, t)
    ensures s.threads[t].pid != 0 && s.threads[t].pc.sid != 0
    ensures Gives(s.threads, s.threads[t].pid, s.threads[t].pc.sid, holder)
    ensures Locate(s.dev.items, s.threads[t].pid, s.threads[t].pc.sid) == Some((s.threads[t].pc.i, s.threads[t].pc.j))
    ensures Registered(s.dev.pids, s.threads[t].pid)
    ensures FindRef(s.dev.items[s.threads[t].pc.i].refs, s.threads[t].pid) == s.threads[t].pc.j
  {
    var pc, pid := s.threads[t].pc, s.threads[t].pid;
    assert ThreadOk(s.dev, s.open, s.threads[t]);
    SlotCounts(s, pc.i, pc.j);
    holder := WitnessOf(s, t);
    assert Registered(s.dev.pids, s.dev.items[pc.i].refs[pc.j].pid);
  }

  /** With only a closing thread active, the calls of its process are held. */
  lemma WitnessOf(s: CountedState, t: nat) returns (holder: nat)
    requires t < |s.threads| && s.threads[t].pc.InWalk() && Calls(s.threads, s.threads[t].pid, s.threads[t].pc.sid) > 0
    ensures Gives(s.threads, s.threads[t].pid, s.threads[t].pc.sid, holder)
  {
    holder := CallsWitness(s.threads, s.threads[t].pid, s.threads[t].pc.sid);
    WalkerIsAlone(s, t);
  }

  /** A release leaves the process owner of what it still has a slot in. */
  lemma OwnedAfterRelease(d: Device, pid: nat, i: nat, j: nat)
    requires Consistent(d) && pid != 0 && i < |d.items| && j < |d.items[i].refs| && d.items[i].refs[j].pid == pid
    requires OwnsWhatItHolds(d.items, pid)
    ensures OwnsWhatItHolds(d.items[i := Unlock(d.items[i], j)], pid)
  {
    var item, item' := d.items[i], Unlock(d.items[i], j);
    CountInSlot(item, j);
    if item.refs[j].refCount == 1 {
      assert FindRef(item'.refs, pid) < 0 by {
        assert forall k :: 0 <= k < |item.refs| && k != j ==> item'.refs[k] == item.refs[k];
      }
    }
  }

  /** One release of the walk: one reference less, and the deletion still to come is the same. */
  lemma DrainLeads(orderly: bool, s: CountedState, t: nat) returns (holder: nat, s1: CountedState)
    requires AtSlot(s, t) && Owns(s, t)
    ensures s.threads[t].pid != 0 && Enabled(orderly, s, Drain(t, holder)) && s1 == Apply(s, Drain(t, holder))
    ensures var pc := s.threads[t].pc;
            && Owns(s1, t) && s1.threads[t].pc == Rechecking(pc.p, pc.i, pc.j, pc.sid)
            && s1.threads[t].pid == s.threads[t].pid && Indexed(s1.dev, pc.i, pc.j) && |s1.dev.items| == |s.dev.items|
            && s1.dev.items[pc.i] == Unlock(s.dev.items[pc.i], pc.j)
            && Deleted(s1.dev, s.threads[t].pid) == Deleted(s.dev, s.threads[t].pid)
  {
    var pc, pid := s.threads[t].pc, s.threads[t].pid;
    holder := HolderOf(s, t);
    s1 := StepCounted(orderly, s, Drain(t, holder));
    assert Release(s.dev, pid, pc.sid) == (s.dev.(items := s.dev.items[pc.i := Unlock(s.dev.items[pc.i], pc.j)]), Released(pc.i, pc.j));
    DeletedAfterRelease(s.dev, pid, pc.i, pc.j);
    OwnedAfterRelease(s.dev, pid, pc.i, pc.j);
  }

  /** What the walk finds at its slot: gone, at a later slot, or still at the same one. */
  ghost predicate MovesOn(s: State, t: nat, s1: State)
    requires t < |s.threads| && s.threads[t].pc.InWalk()
  {
    var pc, pid := s.threads[t].pc, s.threads[t].pid;
    || Gone(s1, t, Deleted(s.dev, pid))
    || (AtSlot(s1, t) && s1.dev == s.dev && s1.threads[t].pid == pid
        && (s1.threads[t].pc.i > pc.i || s1.threads[t].pc == Draining(pc.p, pc.i, pc.j, pc.sid)))
  }

  lemma StaysAtSlot(s: State, t: nat)
    requires t < |s.threads| && s.threads[t].pc.Rechecking?
    requires var pc := s.threads[t].pc;
             && Indexed(s.dev, pc.i, pc.j) && s.dev.items[pc.i].refs[pc.j].refCount > 0
             && s.dev.items[pc.i].refs[pc.j].pid == s.threads[t].pid && s.dev.items[pc.i].sid == pc.sid
    ensures MovesOn(s, t, AfterRecheck(s, t))
  {
  }

  lemma LeavesSlot(s: CountedState, t: nat)
    requires t < |s.threads| && s.threads[t].pc.Rechecking? && s.threads[t].pid != 0
    requires Indexed(s.dev, s.threads[t].pc.i, s.threads[t].pc.j)
    requires s.dev.items[s.threads[t].pc.i].refs[s.threads[t].pc.j].refCount == 0
    ensures MovesOn(s, t, AfterRecheck(s, t))
  {
    var pc := s.threads[t].pc;
    assert MayWalk(s, t, pc.p) by { WalkerIsAlone(s, t); }
    assert AbsentBelow(s.dev.items, s.threads[t].pid, pc.i + 1) by {
      WalkerIndexed(s, t);
      DrainedPasses(s.dev, s.threads[t]);
    }
    assert AfterRecheck(s, t) == Walk(s, t, pc.p, pc.i + 1);
    WalkLeads(s, t, pc.p, pc.i + 1);
  }

  /** After a release the walk looks at the slot again: it stays there, moves on, or is done. */
  lemma RecheckMovesOn(s: CountedState, t: nat)
    requires t < |s.threads| && s.threads[t].pc.Rechecking? && s.threads[t].pid != 0
    requires var pc := s.threads[t].pc;
             Indexed(s.dev, pc.i, pc.j) && s.dev.items[pc.i].refs[pc.j].refCount > 0 ==>
               s.dev.items[pc.i].refs[pc.j].pid == s.threads[t].pid && s.dev.items[pc.i].sid == pc.sid
    ensures MovesOn(s, t, AfterRecheck(s, t))
  {
    var pc := s.threads[t].pc;
    assert Indexed(s.dev, pc.i, pc.j) by { WalkerIndexed(s, t); }
    assert s.dev.items[pc.i].refs[pc.j].refCount >= 0 by { assert ItemOk(s.dev.items[pc.i]); }
    if s.dev.items[pc.i].refs[pc.j].refCount == 0 {
      LeavesSlot(s, t);
    } else {
      StaysAtSlot(s, t);
    }
  }

  // ---------------------------------------------------------------- the whole close

  predicate OwnStep(t: nat, step: Step) {
    match step
    case Close(k) => k == t
    case Drain(k, _) => k == t
    case Recheck(k) => k == t
    case _ => false
  }

  lemma RunOne(orderly: bool, s: State, a: Step, rest: seq<Step>, s': State)
    requires Shaped(s.dev) && Enabled(orderly, s, a) && Run(orderly, Apply(s, a), rest) == Some(s')
    ensures Run(orderly, s, [a] + rest) == Some(s')
  {
    assert ([a] + rest)[1..] == rest;
  }

  /** The items behind the walk's slot, and the references left in it. */
  ghost function Left(s: State, t: nat): (r: (int, int))
    requires AtSlot(s, t)
    ensures r.0 >= 0 && r.1 >= 0
  {
    var pc := s.threads[t].pc;
    (|s.dev.items| - pc.i, s.dev.items[pc.i].refs[pc.j].refCount)
  }

  ghost predicate Before(a: (int, int), b: (int, int)) {
    a.0 < b.0 || (a.0 == b.0 && a.1 < b.1)
  }

  /** The steps of thread `t` alone lead from `s` to the end of its close, with the deletion's tables. */
  ghost predicate Ends(orderly: bool, s: State, t: nat, steps: seq<Step>, s': State) {
    && t < |s.threads| && Run(orderly, s, steps) == Some(s') && (forall k :: 0 <= k < |steps| ==> OwnStep(t, steps[k]))
    && Gone(s', t, Deleted(s.dev, s.threads[t].pid))
  }

  lemma EndsLater(orderly: bool, s: State, t: nat, a: Step, s1: State, rest: seq<Step>, s': State) returns (steps: seq<Step>)
    requires t < |s.threads| && Shaped(s.dev) && Enabled(orderly, s, a) && s1 == Apply(s, a) && OwnStep(t, a)
    requires Ends(orderly, s1, t, rest, s') && Deleted(s1.dev, s1.threads[t].pid) == Deleted(s.dev, s.threads[t].pid)
    ensures Ends(orderly, s, t, steps, s')
  {
    steps := [a] + rest;
    RunOne(orderly, s, a, rest, s');
  }

  lemma EndsNow(orderly: bool, s: State, t: nat, a: Step, s1: State)
    requires t < |s.threads| && Shaped(s.dev) && Enabled(orderly, s, a) && s1 == Apply(s, a) && OwnStep(t, a)
    requires Gone(s1, t, Deleted(s.dev, s.threads[t].pid))
    ensures Ends(orderly, s, t, [a], s1)
  {
    RunOne(orderly, s, a, [], s1);
  }

  /** The second look ends the close, or leads to a slot to be drained, with the tables as they were. */
  lemma RecheckLeads(orderly: bool, s: CountedState, t: nat) returns (s1: CountedState)
    requires Owns(s, t) && s.threads[t].pc.Rechecking? && s.threads[t].pid != 0
    requires var pc := s.threads[t].pc;
             Indexed(s.dev, pc.i, pc.j) && s.dev.items[pc.i].refs[pc.j].refCount > 0 ==>
               s.dev.items[pc.i].refs[pc.j].pid == s.threads[t].pid && s.dev.items[pc.i].sid == pc.sid
    ensures s1 == AfterRecheck(s, t)
    ensures || Gone(s1, t, Deleted(s.dev, s.threads[t].pid))
            || (AtSlot(s1, t) && Owns(s1, t) && s1.dev == s.dev && s1.threads[t].pid == s.threads[t].pid
                && (s1.threads[t].pc.i > s.threads[t].pc.i
                    || (s1.threads[t].pc.i == s.threads[t].pc.i && s1.threads[t].pc.j == s.threads[t].pc.j)))
  {
    s1 := RecheckCounted(s, t);
    RecheckMovesOn(s, t);
  }

  /** One round of releasing and looking again. */
  lemma RoundLeads(orderly: bool, s: CountedState, t: nat) returns (holder: nat, s1: CountedState, s2: CountedState)
    requires AtSlot(s, t) && Owns(s, t)
    ensures Enabled(orderly, s, Drain(t, holder)) && s1 == Apply(s, Drain(t, holder))
    ensures Enabled(orderly, s1, Recheck(t)) && s2 == Apply(s1, Recheck(t))
    ensures t < |s1.threads| && s1.threads[t].pid == s.threads[t].pid
    ensures Deleted(s1.dev, s.threads[t].pid) == Deleted(s.dev, s.threads[t].pid)
    ensures || Gone(s2, t, Deleted(s1.dev, s.threads[t].pid))
            || (AtSlot(s2, t) && Owns(s2, t) && s2.threads[t].pid == s.threads[t].pid && Before(Left(s2, t), Left(s, t))
                && s2.dev == s1.dev)
  {
    holder, s1 := DrainLeads(orderly, s, t);
    s2 := RecheckLeads(orderly, s1, t);
  }

  /** From a slot on, the walk ends: by the items left, then by the references left in the slot. */
  lemma {:induction false} WalkEndsAlone(orderly: bool, s: CountedState, t: nat) returns (steps: seq<Step>, s': State)
    requires AtSlot(s, t) && Owns(s, t)
    ensures Ends(orderly, s, t, steps, s')
    decreases Left(s, t).0, Left(s, t).1
  {
    var holder, s1, s2 := RoundLeads(orderly, s, t);
    var rest: seq<Step>;
    if Gone(s2, t, Deleted(s1.dev, s.threads[t].pid)) {
      rest, s' := [Recheck(t)], s2;
      EndsNow(orderly, s1, t, Recheck(t), s2);
    } else {
      rest, s' := WalkEndsAlone(orderly, s2, t);
      rest := EndsLater(orderly, s1, t, Recheck(t), s2, rest, s');
    }
    steps := EndsLater(orderly, s, t, Drain(t, holder), s1, rest, s');
  }

  lemma CloseLeads(orderly: bool, s: CountedState, t: nat) returns (s1: CountedState)
    requires Enabled(orderly, s, Close(t))
    ensures s1 == Apply(s, Close(t)) && t < |s1.threads| && s1.threads[t].pid == s.threads[t].pid
    ensures || Gone(s1, t, Deleted(s.dev, s.threads[t].pid))
            || (AtSlot(s1, t) && s1.dev == s.dev)
  {
    s1 := StepCounted(orderly, s, Close(t));
    assert ThreadOk(s.dev, s.open, s.threads[t]);
    var p := FindClient(s.dev.pids, s.threads[t].pid);
    if p >= 0 { WalkLeads(s, t, p, 0); }
  }

  /** The close of a process that owns what it has a slot in ends by itself. */
  lemma CloseEnds(orderly: bool, s: CountedState, t: nat) returns (steps: seq<Step>, s': State)
    requires Enabled(orderly, s, Close(t)) && Owns(s, t)
    ensures Ends(orderly, s, t, steps, s')
  {
    var s1 := CloseLeads(orderly, s, t);
    if Gone(s1, t, Deleted(s.dev, s.threads[t].pid)) {
      steps, s' := [Close(t)], s1;
      EndsNow(orderly, s, t, Close(t), s1);
    } else {
      steps, s' := WalkEndsAlone(orderly, s1, t);
      steps := EndsLater(orderly, s, t, Close(t), s1, steps, s');
    }
  }

  /** On orderly runs a process that may close owns every item it has a slot in. */
  lemma CloserOwns(maxItems: nat, maxPids: nat, s: State, t: nat)
    requires Reachable(true, maxItems, maxPids, s) && Enabled(true, s, Close(t))
    ensures Consistent(s.dev) && OwnsWhatItHolds(s.dev.items, s.threads[t].pid)
  {
    ReachableExclusive(maxItems, maxPids, s);
    var pid := s.threads[t].pid;
    assert ThreadOk(s.dev, s.open, s.threads[t]);
    forall i | 0 <= i < |s.dev.items| && FindRef(s.dev.items[i].refs, pid) >= 0 ensures s.dev.items[i].owner == pid {
      IdleProcessOwnsItsItems(maxItems, maxPids, s, pid, i, FindRef(s.dev.items[i].refs, pid));
    }
  }

  /** So on orderly runs a close that nobody interferes with always ends, and leaves exactly the tables
      of the deletion. */
  lemma CloseUndisturbed(maxItems: nat, maxPids: nat, s: State, t: nat) returns (steps: seq<Step>, s': State)
    requires Reachable(true, maxItems, maxPids, s) && Enabled(true, s, Close(t))
    ensures Ends(true, s, t, steps, s')
  {
    ReachableCounted(true, maxItems, maxPids, s);
    CloserOwns(maxItems, maxPids, s, t);
    steps, s' := CloseEnds(true, s, t);
  }

  // ---------------------------------------------------------------- exactly when a walk ends by itself

  /** The saved slot is empty, or still the process's own. */
  ghost predicate SlotIsOwn(s: State, t: nat)
    requires t < |s.threads| && s.threads[t].pc.InWalk()
  {
    var pc := s.threads[t].pc;
    Indexed(s.dev, pc.i, pc.j)
    && (s.dev.items[pc.i].refs[pc.j].refCount == 0 || s.dev.items[pc.i].refs[pc.j].pid == s.threads[t].pid)
  }

  /** The run `steps` of thread `t` alone brings it to the end of its close. */
  ghost predicate ClosesBy(orderly: bool, s: State, t: nat, steps: seq<Step>) {
    && (forall k :: 0 <= k < |steps| ==> OwnStep(t, steps[k]))
    && var r := Run(orderly, s, steps);
       r.Some? && t < |r.value.threads| && r.value.threads[t].pc == Closed
  }

  /** A walk that will not end by itself: somebody else has taken the saved slot over, or owns an item
      in which the process still has a slot. */
  ghost predicate Stuck(s: State, t: nat) {
    t < |s.threads| && s.threads[t].pc.InWalk() && !(SlotIsOwn(s, t) && Owns(s, t))
  }

  /** What a walk knows of its slot. */
  lemma WalkKnows(s: CountedState, t: nat)
    requires t < |s.threads| && s.threads[t].pc.InWalk()
    ensures var pc, pid := s.threads[t].pc, s.threads[t].pid;
            && pid != 0 && pc.sid != 0 && Indexed(s.dev, pc.i, pc.j) && OnlyIn(s.dev.items, pid, pc.sid, pc.i)
            && var r := s.dev.items[pc.i].refs[pc.j];
               && r.refCount >= 0 && (r.pid == 0 <==> r.refCount == 0)
               && (r.pid == pid ==> s.dev.items[pc.i].sid == pc.sid)
               && (r.pid != pid ==> NoSlotIn(s.dev.items[pc.i], pid))
  {
    WalkerIndexed(s, t);
    assert ItemOk(s.dev.items[s.threads[t].pc.i]);
  }

  lemma NothingToRelease(d: Device, pid: nat, sid: nat, i: nat)
    requires i < |d.items| && NoSlotIn(d.items[i], pid) && sid != 0 && OnlyIn(d.items, pid, sid, i)
    ensures Release(d, pid, sid).0 == d && Release(d, pid, sid).1.Failed?
  {
    assert Locate(d.items, pid, sid) == None;
  }

  /** A release changes no item of another owner. */
  lemma ReleaseKeepsForeign(d: Device, pid: nat, sid: nat)
    requires Consistent(d) && pid != 0 && !OwnsWhatItHolds(d.items, pid)
    ensures !OwnsWhatItHolds(Release(d, pid, sid).0.items, pid)
  {
    var k :| 0 <= k < |d.items| && FindRef(d.items[k].refs, pid) >= 0 && d.items[k].owner != pid;
    ReleaseCounts(d, pid, sid);
    assert Release(d, pid, sid).0.items[k] == d.items[k];
  }

  lemma DrainStuck(s: CountedState, t: nat, holder: nat)
    requires Stuck(s, t) && s.threads[t].pc.Draining?
    ensures Stuck(AfterDrain(s, t, holder), t)
  {
    if SlotIsOwn(s, t) {
      DrainStaysForeign(s, t, holder);
    } else {
      DrainFindsNothing(s, t, holder);
    }
  }

  lemma DrainFindsNothing(s: CountedState, t: nat, holder: nat)
    requires t < |s.threads| && s.threads[t].pc.Draining? && !SlotIsOwn(s, t)
    ensures var s1 := AfterDrain(s, t, holder); t < |s1.threads| && s1.threads[t].pc.InWalk() && !SlotIsOwn(s1, t)
  {
    WalkKnows(s, t);
    NothingToRelease(s.dev, s.threads[t].pid, s.threads[t].pc.sid, s.threads[t].pc.i);
  }

  lemma DrainStaysForeign(s: CountedState, t: nat, holder: nat)
    requires t < |s.threads| && s.threads[t].pc.Draining? && !Owns(s, t)
    ensures var s1 := AfterDrain(s, t, holder); t < |s1.threads| && s1.threads[t].pc.InWalk() && !Owns(s1, t)
  {
    WalkerIndexed(s, t);
    ReleaseKeepsForeign(s.dev, s.threads[t].pid, s.threads[t].pc.sid);
  }

  /** With a slot of the process left, a walk stops at one. */
  lemma WalkStopsAgain(s: CountedState, t: nat, p: nat, from: nat, k: nat)
    requires MayWalk(s, t, p) && s.threads[t].pid != 0 && AbsentBelow(s.dev.items, s.threads[t].pid, from)
    requires k < |s.dev.items| && FindRef(s.dev.items[k].refs, s.threads[t].pid) >= 0
    ensures var w := Walk(s, t, p, from);
            w.dev == s.dev && w.threads[t].pid == s.threads[t].pid && w.threads[t].pc.Draining?
  {
    var pid := s.threads[t].pid;
    assert WalkedFrom(s.dev.items, pid, from) by {
      forall k | 0 <= k < |s.dev.items| ensures LocatesSelf(s.dev.items, pid, k) { LocateSelf(s.dev, pid, k); }
      WalkFinds(s.dev.items, pid, from);
    }
    assert !NoSlotIn(s.dev.items[k], pid);
  }

  lemma RecheckStuck(s: CountedState, t: nat)
    requires Stuck(s, t) && s.threads[t].pc.Rechecking?
    ensures Stuck(AfterRecheck(s, t), t)
  {
    var pc, pid := s.threads[t].pc, s.threads[t].pid;
    WalkKnows(s, t);
    if s.dev.items[pc.i].refs[pc.j].refCount == 0 {
      var k :| 0 <= k < |s.dev.items| && FindRef(s.dev.items[k].refs, pid) >= 0 && s.dev.items[k].owner != pid;
      RecheckStops(s, t, k);
    } else {
      assert AfterRecheck(s, t).dev == s.dev;
    }
  }

  lemma RecheckStops(s: CountedState, t: nat, k: nat)
    requires t < |s.threads| && s.threads[t].pc.Rechecking? && s.threads[t].pid != 0
    requires Indexed(s.dev, s.threads[t].pc.i, s.threads[t].pc.j)
    requires s.dev.items[s.threads[t].pc.i].refs[s.threads[t].pc.j].refCount == 0
    requires k < |s.dev.items| && FindRef(s.dev.items[k].refs, s.threads[t].pid) >= 0
    ensures var w := AfterRecheck(s, t);
            && w.dev == s.dev && t < |w.threads| && w.threads[t].pid == s.threads[t].pid && w.threads[t].pc.Draining?
  {
    var pc := s.threads[t].pc;
    assert MayWalk(s, t, pc.p) by { WalkerIsAlone(s, t); }
    assert AbsentBelow(s.dev.items, s.threads[t].pid, pc.i + 1) by {
      WalkerIndexed(s, t);
      DrainedPasses(s.dev, s.threads[t]);
    }
    WalkStopsAgain(s, t, pc.p, pc.i + 1, k);
  }

  lemma ClosesLater(orderly: bool, s: State, t: nat, steps: seq<Step>, s1: State)
    requires steps != [] && Shaped(s.dev) && Enabled(orderly, s, steps[0]) && s1 == Apply(s, steps[0])
    ensures Run(orderly, s, steps) == Run(orderly, s1, steps[1..])
    ensures ClosesBy(orderly, s, t, steps) ==> OwnStep(t, steps[0]) && ClosesBy(orderly, s1, t, steps[1..])
  {
  }

  lemma {:induction false} StuckForEver(orderly: bool, s: CountedState, t: nat, steps: seq<Step>)
    requires Stuck(s, t)
    ensures !ClosesBy(orderly, s, t, steps)
    decreases |steps|
  {
    if steps != [] && OwnStep(t, steps[0]) && Enabled(orderly, s, steps[0]) {
      var s1 := StepCounted(orderly, s, steps[0]);
      if steps[0].Drain? { DrainStuck(s, t, steps[0].holder); } else { RecheckStuck(s, t); }
      ClosesLater(orderly, s, t, steps, s1);
      StuckForEver(orderly, s1, t, steps[1..]);
    }
  }

  /** About to look again at a slot that is empty or its own, the walk ends. */
  lemma RecheckEnds(orderly: bool, s: CountedState, t: nat) returns (steps: seq<Step>, s': State)
    requires t < |s.threads| && s.threads[t].pc.Rechecking? && SlotIsOwn(s, t) && Owns(s, t)
    ensures Ends(orderly, s, t, steps, s')
  {
    WalkKnows(s, t);
    var s1 := RecheckLeads(orderly, s, t);
    if Gone(s1, t, Deleted(s.dev, s.threads[t].pid)) {
      steps, s' := [Recheck(t)], s1;
      EndsNow(orderly, s, t, Recheck(t), s1);
    } else {
      steps, s' := WalkEndsAlone(orderly, s1, t);
      steps := EndsLater(orderly, s, t, Recheck(t), s1, steps, s');
    }
  }

  /** A release that finds nothing leaves the tables alone. */
  lemma IdleDrain(orderly: bool, s: CountedState, t: nat) returns (holder: nat, s1: CountedState)
    requires t < |s.threads| && s.threads[t].pc.Draining? && SlotIsOwn(s, t)
    requires s.dev.items[s.threads[t].pc.i].refs[s.threads[t].pc.j].refCount == 0
    ensures Enabled(orderly, s, Drain(t, holder)) && s1 == Apply(s, Drain(t, holder))
    ensures s1.dev == s.dev && t < |s1.threads| && s1.threads[t].pid == s.threads[t].pid
    ensures var pc := s.threads[t].pc; s1.threads[t].pc == Rechecking(pc.p, pc.i, pc.j, pc.sid)
  {
    var pc, pid := s.threads[t].pc, s.threads[t].pid;
    WalkKnows(s, t);
    NothingToRelease(s.dev, pid, pc.sid, pc.i);
    holder := |s.threads|;
    if k: nat :| Gives(s.threads, pid, pc.sid, k) {
      holder := k;
    } else {
      assert NoneHeld(s.threads, pid, pc.sid) by {
        forall k | 0 <= k < |s.threads| && s.threads[k].pid == pid ensures s.threads[k].Held(pc.sid) == 0 {
          assert !Gives(s.threads, pid, pc.sid, k);
        }
      }
    }
    s1 := StepCounted(orderly, s, Drain(t, holder));
  }

  lemma WalkEndsIfOwn(orderly: bool, s: CountedState, t: nat) returns (steps: seq<Step>, s': State)
    requires t < |s.threads| && s.threads[t].pc.InWalk() && SlotIsOwn(s, t) && Owns(s, t)
    ensures Ends(orderly, s, t, steps, s')
  {
    var pc := s.threads[t].pc;
    WalkKnows(s, t);
    if pc.Rechecking? {
      steps, s' := RecheckEnds(orderly, s, t);
    } else if s.dev.items[pc.i].refs[pc.j].refCount > 0 {
      steps, s' := WalkEndsAlone(orderly, s, t);
    } else {
      var holder, s1 := IdleDrain(orderly, s, t);
      steps, s' := RecheckEnds(orderly, s1, t);
      steps := EndsLater(orderly, s, t, Drain(t, holder), s1, steps, s');
    }
  }

  /** A process in its walk that is left alone gets out of it if and only if the slot it saved is empty
      or still its own, and it owns every item in which it still has a slot. */
  lemma ClosesAloneIff(orderly: bool, maxItems: nat, maxPids: nat, s: State, t: nat)
    requires Reachable(orderly, maxItems, maxPids, s) && t < |s.threads| && s.threads[t].pc.InWalk()
    ensures (exists steps :: ClosesBy(orderly, s, t, steps))
            <==> SlotIsOwn(s, t) && OwnsWhatItHolds(s.dev.items, s.threads[t].pid)
  {
    ReachableCounted(orderly, maxItems, maxPids, s);
    if SlotIsOwn(s, t) && Owns(s, t) {
      var steps, s' := WalkEndsIfOwn(orderly, s, t);
      assert ClosesBy(orderly, s, t, steps);
    } else {
      forall steps ensures !ClosesBy(orderly, s, t, steps) { StuckForEver(orderly, s, t, steps); }
    }
  }

  /** A close that is left alone ends if and only if the process owns every item it has a slot in. */
  lemma CloseEndsIff(orderly: bool, maxItems: nat, maxPids: nat, s: State, t: nat)
    requires Reachable(orderly, maxItems, maxPids, s) && Enabled(orderly, s, Close(t))
    ensures (exists steps :: ClosesBy(orderly, s, t, steps)) <==> OwnsWhatItHolds(s.dev.items, s.threads[t].pid)
  {
    ReachableCounted(orderly, maxItems, maxPids, s);
    if Owns(s, t) {
      var steps, s' := CloseEnds(orderly, s, t);
      assert ClosesBy(orderly, s, t, steps);
    } else {
      forall steps ensures !ClosesBy(orderly, s, t, steps) { NeverCloses(orderly, s, t, steps); }
    }
  }

  lemma NeverCloses(orderly: bool, s: CountedState, t: nat, steps: seq<Step>)
    requires Enabled(orderly, s, Close(t)) && !Owns(s, t)
    ensures !ClosesBy(orderly, s, t, steps)
  {
    if steps != [] && OwnStep(t, steps[0]) && Enabled(orderly, s, steps[0]) {
      var s1 := CloseLeads(orderly, s, t);
      StartsStuck(s, t);
      ClosesLater(orderly, s, t, steps, s1);
      StuckForEver(orderly, s1, t, steps[1..]);
    }
  }

  lemma StartsStuck(s: CountedState, t: nat)
    requires Enabled(true, s, Close(t)) && !Owns(s, t)
    ensures Stuck(AfterClose(s, t), t)
  {
    var pid := s.threads[t].pid;
    var k :| 0 <= k < |s.dev.items| && FindRef(s.dev.items[k].refs, pid) >= 0 && s.dev.items[k].owner != pid;
    assert ThreadOk(s.dev, s.open, s.threads[t]);
    assert Registered(s.dev.pids, s.dev.items[k].refs[FindRef(s.dev.items[k].refs, pid)].pid);
    WalkStopsAgain(s, t, FindClient(s.dev.pids, pid), 0, k);
  }

  // ---------------------------------------------------------------- what a close leaves

  /** A step of a close ends it with the deletion's tables, or leaves the deletion still to come as it is. */
  ghost predicate Deletes(s: State, t: nat, s1: State)
    requires t < |s.threads|
  {
    && t < |s1.threads| && s1.threads[t].pid == s.threads[t].pid
    && (Gone(s1, t, Deleted(s.dev, s.threads[t].pid))
        || (s1.threads[t].pc.InWalk() && Deleted(s1.dev, s.threads[t].pid) == Deleted(s.dev, s.threads[t].pid)))
  }

  lemma OwnStepDeletes(orderly: bool, s: CountedState, t: nat, step: Step)
    requires t < |s.threads| && OwnStep(t, step) && Enabled(orderly, s, step)
    ensures Deletes(s, t, Apply(s, step))
  {
    match step
    case Close(_) => var s1 := CloseLeads(orderly, s, t);
    case Drain(_, holder) => DrainDeletes(s, t, holder);
    case Recheck(_) => RecheckDeletes(s, t);
  }

  lemma DrainDeletes(s: CountedState, t: nat, holder: nat)
    requires t < |s.threads| && s.threads[t].pc.Draining?
    ensures Deletes(s, t, AfterDrain(s, t, holder))
  {
    var pc, pid := s.threads[t].pc, s.threads[t].pid;
    WalkKnows(s, t);
    ReleaseCounts(s.dev, pid, pc.sid);
    var r := Release(s.dev, pid, pc.sid).1;
    if r.Released? { DeletedAfterRelease(s.dev, pid, r.i, r.j); }
  }

  lemma RecheckDeletes(s: CountedState, t: nat)
    requires t < |s.threads| && s.threads[t].pc.Rechecking?
    ensures Deletes(s, t, AfterRecheck(s, t))
  {
    WalkKnows(s, t);
    if s.dev.items[s.threads[t].pc.i].refs[s.threads[t].pc.j].refCount == 0 { LeavesSlot(s, t); }
  }

  lemma NothingAfterClose(orderly: bool, s: State, t: nat, step: Step)
    requires t < |s.threads| && s.threads[t].pc == Closed && OwnStep(t, step)
    ensures !Enabled(orderly, s, step)
  {
  }

  /** Whatever own steps end a close, it ends with exactly the tables of the deletion. */
  lemma {:induction false} ClosesAsDeleted(orderly: bool, s: CountedState, t: nat, steps: seq<Step>)
    requires t < |s.threads| && s.threads[t].pc != Closed && ClosesBy(orderly, s, t, steps)
    ensures Run(orderly, s, steps).value.dev == Deleted(s.dev, s.threads[t].pid)
    decreases |steps|
  {
    assert OwnStep(t, steps[0]);
    OwnStepDeletes(orderly, s, t, steps[0]);
    var s1 := StepCounted(orderly, s, steps[0]);
    ClosesLater(orderly, s, t, steps, s1);
    if s1.threads[t].pc == Closed {
      forall step | OwnStep(t, step) ensures !Enabled(orderly, s1, step) { NothingAfterClose(orderly, s1, t, step); }
    } else {
      ClosesAsDeleted(orderly, s1, t, steps[1..]);
    }
  }
}
