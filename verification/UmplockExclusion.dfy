/** Runs in which no process releases an id while another of its threads is in a call on it: the lock
    excludes, its permit is conserved, and nothing is left when the last session ends. */
module UmplockExclusion {
  import opened Sums
  import opened UmplockTables
  import opened UmplockAccounting
  import opened UmplockProtocol
  import opened UmplockCounting

  // ---------------------------------------------------------------- the invariant

  function Mark(t: Thread, i: nat): int {
    if t.pc.Permitted? && t.pc.i == i then 1 else 0
  }

  function Marks(threads: seq<Thread>, i: nat): (s: seq<int>)
    ensures |s| == |threads| && forall k :: 0 <= k < |s| ==> s[k] == Mark(threads[k], i)
  {
    seq(|threads|, k requires 0 <= k < |threads| => Mark(threads[k], i))
  }

  /** The calls that took a permit of item `i` and have not become its owner yet. */
  function Permits(threads: seq<Thread>, i: nat): int {
    Sum(Marks(threads, i))
  }

  function Wait(t: Thread, pid: nat, sid: nat): int {
    if t.pid == pid && t.pc.InCall() && t.pc.sid == sid then 1 else 0
  }

  function WaitList(threads: seq<Thread>, pid: nat, sid: nat): (s: seq<int>)
    ensures |s| == |threads| && forall k :: 0 <= k < |s| ==> s[k] == Wait(threads[k], pid, sid)
  {
    seq(|threads|, k requires 0 <= k < |threads| => Wait(threads[k], pid, sid))
  }

  /** The calls of a process in flight on a secure id. */
  function Waits(threads: seq<Thread>, pid: nat, sid: nat): int {
    Sum(WaitList(threads, pid, sid))
  }

  function OwnerOf(items: seq<Item>, sid: nat): nat {
    var i := FindItem(items, sid);
    if i < 0 then 0 else items[i].owner
  }

  function Flag(owner: nat, pid: nat): int {
    if owner == pid then 1 else 0
  }

  /** The one permit of a live item is in its semaphore, with a call on its way, or with the owner; and
      the owner has more references than calls in flight. */
  ghost predicate PermitOk(item: Item, permits: int) {
    && (item.sid == 0 ==> item.owner == 0)
    && (item.sid != 0 ==> item.sem >= 0 && item.sem + permits + (if item.owner != 0 then 1 else 0) == 1)
    && (item.owner != 0 ==>
          exists j :: 0 <= j < |item.refs| && item.refs[j].pid == item.owner && item.refs[j].refCount >= item.refs[j].down)
  }

  /** A slot's down count is its process's calls in flight, and one more for the owner. */
  ghost predicate DownOk(item: Item, threads: seq<Thread>) {
    forall j :: 0 <= j < |item.refs| && item.refs[j].pid != 0 ==>
      item.refs[j].down == Waits(threads, item.refs[j].pid, item.sid) + Flag(item.owner, item.refs[j].pid)
  }

  /** Who holds a secure id owns its item. */
  ghost predicate HoldOk(items: seq<Item>, t: Thread) {
    forall sid | sid != 0 :: t.Held(sid) > 0 ==> OwnerOf(items, sid) == t.pid
  }

  ghost predicate PermitsOk(items: seq<Item>, threads: seq<Thread>) {
    forall i :: 0 <= i < |items| ==> PermitOk(items[i], Permits(threads, i))
  }

  ghost predicate DownsOk(items: seq<Item>, threads: seq<Thread>) {
    forall i :: 0 <= i < |items| ==> DownOk(items[i], threads)
  }

  ghost predicate HoldsOk(items: seq<Item>, threads: seq<Thread>) {
    forall k :: 0 <= k < |threads| ==> HoldOk(items, threads[k])
  }

  ghost predicate Exclusive(items: seq<Item>, threads: seq<Thread>) {
    && PermitsOk(items, threads)
    && DownsOk(items, threads)
    && HoldsOk(items, threads)
  }

  ghost predicate ExclusiveIn(s: State) {
    Exclusive(s.dev.items, s.threads)
  }

  type ExclusiveState = s: CountedState | ExclusiveIn(s)
    ghost witness (InitCounted(0, 0); InitExclusive(0, 0); Init(0, 0))

  lemma InitExclusive(maxItems: nat, maxPids: nat)
    ensures ExclusiveIn(Init(maxItems, maxPids))
  {
  }

  // ---------------------------------------------------------------- counting permits and calls

  lemma PermitsUpdate(threads: seq<Thread>, k: nat, t: Thread)
    requires k < |threads|
    ensures forall i :: Permits(threads[k := t], i) == Permits(threads, i) - Mark(threads[k], i) + Mark(t, i)
  {
    forall i ensures Permits(threads[k := t], i) == Permits(threads, i) - Mark(threads[k], i) + Mark(t, i) {
      assert Marks(threads[k := t], i) == Marks(threads, i)[k := Mark(t, i)];
      SumUpdate(Marks(threads, i), k, Mark(t, i));
    }
  }

  lemma PermitsAppend(threads: seq<Thread>, t: Thread)
    requires t.pc == Idle
    ensures forall i :: Permits(threads + [t], i) == Permits(threads, i)
  {
    forall i ensures Permits(threads + [t], i) == Permits(threads, i) {
      assert Marks(threads + [t], i) == Marks(threads, i) + [0];
      SumAppend(Marks(threads, i), 0);
    }
  }

  lemma PermitsDominate(threads: seq<Thread>, k: nat, i: nat)
    requires k < |threads|
    ensures Permits(threads, i) >= Mark(threads[k], i)
  {
    SumDominates(Marks(threads, i), k);
  }

  lemma PermitsNonNegative(threads: seq<Thread>, i: nat)
    ensures Permits(threads, i) >= 0
  {
    SumNonNegative(Marks(threads, i));
  }

  lemma WaitsUpdate(threads: seq<Thread>, k: nat, t: Thread)
    requires k < |threads|
    ensures forall p, x :: Waits(threads[k := t], p, x) == Waits(threads, p, x) - Wait(threads[k], p, x) + Wait(t, p, x)
  {
    forall p, x ensures Waits(threads[k := t], p, x) == Waits(threads, p, x) - Wait(threads[k], p, x) + Wait(t, p, x) {
      assert WaitList(threads[k := t], p, x) == WaitList(threads, p, x)[k := Wait(t, p, x)];
      SumUpdate(WaitList(threads, p, x), k, Wait(t, p, x));
    }
  }

  lemma WaitsAppend(threads: seq<Thread>, t: Thread)
    requires t.pc == Idle
    ensures forall p, x :: Waits(threads + [t], p, x) == Waits(threads, p, x)
  {
    forall p, x ensures Waits(threads + [t], p, x) == Waits(threads, p, x) {
      assert WaitList(threads + [t], p, x) == WaitList(threads, p, x) + [0];
      SumAppend(WaitList(threads, p, x), 0);
    }
  }

  /** Calls in flight are among the calls that are accounted for. */
  lemma WaitsAreCalls(threads: seq<Thread>, pid: nat, sid: nat)
    ensures 0 <= Waits(threads, pid, sid) <= Calls(threads, pid, sid)
  {
    SumNonNegative(WaitList(threads, pid, sid));
    SumMonotone(WaitList(threads, pid, sid), Loads(threads, pid, sid));
  }

  lemma WaitsDominate(threads: seq<Thread>, k: nat)
    requires k < |threads| && threads[k].pc.InCall()
    ensures Waits(threads, threads[k].pid, threads[k].pc.sid) >= 1
  {
    SumDominates(WaitList(threads, threads[k].pid, threads[k].pc.sid), k);
  }

  lemma NoWaits(threads: seq<Thread>, pid: nat, sid: nat)
    requires NoneCalling(threads, pid, sid)
    ensures Waits(threads, pid, sid) == 0
  {
    SumZero(WaitList(threads, pid, sid));
  }

  /** With more calls than are in flight, some thread of the process holds. */
  lemma {:induction false} HoldWitness(threads: seq<Thread>, pid: nat, sid: nat) returns (k: nat)
    requires Calls(threads, pid, sid) > Waits(threads, pid, sid)
    ensures k < |threads| && threads[k].pid == pid && threads[k].Held(sid) > 0
  {
    var loads, waits := Loads(threads, pid, sid), WaitList(threads, pid, sid);
    var n := |threads| - 1;
    if loads[n] > waits[n] {
      k := n;
    } else {
      assert Loads(threads[..n], pid, sid) == loads[..n] && WaitList(threads[..n], pid, sid) == waits[..n];
      k := HoldWitness(threads[..n], pid, sid);
    }
  }

  /** Nobody has a permit of a free item: calls are placed in live ones. */
  lemma FreeItemNoPermit(s: CountedState, i: nat)
    requires i < |s.dev.items| && s.dev.items[i].sid == 0
    ensures Permits(s.threads, i) == 0
  {
    forall k | 0 <= k < |s.threads| ensures Marks(s.threads, i)[k] == 0 {
      assert ThreadOk(s.dev, s.open, s.threads[k]);
    }
    SumZero(Marks(s.threads, i));
  }

  lemma CallOwner(s: CountedState, k: nat)
    requires k < |s.threads| && s.threads[k].pc.InCall()
    ensures var pc := s.threads[k].pc;
            && pc.sid != 0 && Indexed(s.dev, pc.i, pc.j) && FindItem(s.dev.items, pc.sid) == pc.i
            && s.dev.items[pc.i].sid == pc.sid && s.dev.items[pc.i].refs[pc.j].pid == s.threads[k].pid
            && FindRef(s.dev.items[pc.i].refs, s.threads[k].pid) == pc.j
            && OwnerOf(s.dev.items, pc.sid) == s.dev.items[pc.i].owner
            && s.threads[k].pid != 0
  {
    assert ThreadOk(s.dev, s.open, s.threads[k]);
    CountInSlot(s.dev.items[s.threads[k].pc.i], s.threads[k].pc.j);
  }

  /** A slot counts its process's calls, in flight or held. */
  lemma SlotCounts(s: CountedState, i: nat, j: nat)
    requires Indexed(s.dev, i, j) && s.dev.items[i].refs[j].pid != 0
    ensures var item, pid := s.dev.items[i], s.dev.items[i].refs[j].pid;
            && item.sid != 0 && FindItem(s.dev.items, item.sid) == i && FindRef(item.refs, pid) == j
            && item.refs[j].refCount == Calls(s.threads, pid, item.sid) > 0
            && 0 <= Waits(s.threads, pid, item.sid) <= item.refs[j].refCount
  {
    var item, pid := s.dev.items[i], s.dev.items[i].refs[j].pid;
    CountInSlot(item, j);
    TotalCoversSlots(item, j);
    CountLive(s.dev, i, pid);
    assert Count(s.dev.items, item.sid, pid) == Calls(s.threads, pid, item.sid);
    WaitsAreCalls(s.threads, pid, item.sid);
  }

  /** The owner of a live item has a slot in it, and some thread of it holds. */
  lemma OwnerHolds(s: ExclusiveState, i: nat) returns (k: nat)
    requires i < |s.dev.items| && s.dev.items[i].sid != 0 && s.dev.items[i].owner != 0
    ensures k < |s.threads| && s.threads[k].pid == s.dev.items[i].owner && s.threads[k].Held(s.dev.items[i].sid) > 0
  {
    var item := s.dev.items[i];
    assert PermitOk(item, Permits(s.threads, i)) && DownOk(item, s.threads);
    var j :| 0 <= j < |item.refs| && item.refs[j].pid == item.owner && item.refs[j].refCount >= item.refs[j].down;
    SlotCounts(s, i, j);
    k := HoldWitness(s.threads, item.owner, item.sid);
  }

  // ---------------------------------------------------------------- steps that leave the items alone

  lemma PermitsReplaced(items: seq<Item>, threads: seq<Thread>, i: nat, item': Item, t: nat, t': Thread)
    requires PermitsOk(items, threads) && i < |items| && t < |threads|
    requires PermitOk(item', Permits(threads, i) - Mark(threads[t], i) + Mark(t', i))
    requires forall k :: 0 <= k < |items| && k != i ==> Mark(threads[t], k) == Mark(t', k)
    ensures PermitsOk(items[i := item'], threads[t := t'])
  {
    PermitsUpdate(threads, t, t');
  }

  lemma PermitsMoved(items: seq<Item>, threads: seq<Thread>, t: nat, t': Thread)
    requires PermitsOk(items, threads) && t < |threads|
    requires forall k :: Mark(threads[t], k) == Mark(t', k)
    ensures PermitsOk(items, threads[t := t'])
  {
    PermitsUpdate(threads, t, t');
  }

  lemma DownsMoved(items: seq<Item>, threads: seq<Thread>, t: nat, t': Thread)
    requires DownsOk(items, threads) && t < |threads|
    requires forall p, x :: Wait(threads[t], p, x) == Wait(t', p, x)
    ensures DownsOk(items, threads[t := t'])
  {
    WaitsUpdate(threads, t, t');
    forall i | 0 <= i < |items| ensures DownOk(items[i], threads[t := t']) {
      assert DownOk(items[i], threads);
    }
  }

  lemma MovedExclusive(items: seq<Item>, threads: seq<Thread>, t: nat, pc: Pc)
    requires Exclusive(items, threads) && t < |threads|
    requires threads[t].pc.InCall() <==> pc.InCall()
    requires pc.InCall() ==> pc.sid == threads[t].pc.sid
    requires pc.Permitted? <==> threads[t].pc.Permitted?
    requires pc.Permitted? ==> pc.i == threads[t].pc.i
    ensures Exclusive(items, Goto(threads, t, pc))
  {
    var t' := threads[t].(pc := pc);
    PermitsMoved(items, threads, t, t');
    DownsMoved(items, threads, t, t');
    assert HoldOk(items, t') by { assert HoldOk(items, threads[t]); }
  }

  /** A walk leaves the items alone and moves its own thread within the session. */
  lemma WalkMoves(s: State, t: nat, p: nat, from: nat) returns (pc: Pc)
    requires t < |s.threads| && !s.threads[t].pc.InCall()
    ensures Walk(s, t, p, from).dev.items == s.dev.items && !pc.InCall()
    ensures Walk(s, t, p, from).threads == Goto(s.threads, t, pc)
  {
    pc := match NextHeld(s.dev.items, s.threads[t].pid, from)
          case Found(i, j, sid) => Draining(p, i, j, sid)
          case Clear => Closed
          case Loops => s.threads[t].pc;
  }

  lemma RecheckMoves(s: State, t: nat) returns (pc: Pc)
    requires t < |s.threads| && s.threads[t].pc.Rechecking?
    ensures AfterRecheck(s, t).dev.items == s.dev.items && !pc.InCall()
    ensures AfterRecheck(s, t).threads == Goto(s.threads, t, pc)
  {
    var at := s.threads[t].pc;
    if Indexed(s.dev, at.i, at.j) && s.dev.items[at.i].refs[at.j].refCount != 0 {
      pc := Draining(at.p, at.i, at.j, at.sid);
    } else {
      pc := WalkMoves(s, t, at.p, at.i + 1);
    }
  }

  lemma CloseMoves(s: State, t: nat) returns (pc: Pc)
    requires t < |s.threads| && !s.threads[t].pc.InCall()
    ensures AfterClose(s, t).dev.items == s.dev.items && !pc.InCall()
    ensures AfterClose(s, t).threads == Goto(s.threads, t, pc)
  {
    var p := FindClient(s.dev.pids, s.threads[t].pid);
    if p < 0 { pc := Closed; } else { pc := WalkMoves(s, t, p, 0); }
  }

  lemma SpawnExclusive(s: ExclusiveState, pid: nat)
    ensures ExclusiveIn(AfterSpawn(s, pid))
  {
    PermitsAppend(s.threads, Thread(pid, Idle, map[]));
    WaitsAppend(s.threads, Thread(pid, Idle, map[]));
    var n := AfterSpawn(s, pid);
    forall i | 0 <= i < |n.dev.items| ensures PermitOk(n.dev.items[i], Permits(n.threads, i)) && DownOk(n.dev.items[i], n.threads) {
      assert PermitOk(s.dev.items[i], Permits(s.threads, i)) && DownOk(s.dev.items[i], s.threads);
    }
  }

  /** Ending the last session zaps tables in which nothing is live and nobody owns. */
  lemma EndSessionExclusive(s: ExclusiveState, t: nat)
    requires t < |s.threads| && s.threads[t].pc == Closed
    ensures ExclusiveIn(AfterEndSession(s, t))
  {
    MovedExclusive(s.dev.items, s.threads, t, Idle);
    if s.dev.sessions - 1 == 0 {
      forall i | 0 <= i < |s.dev.items| ensures s.dev.items[i].owner == 0 { NobodyLeftOwns(s, t, i); }
      var s1 := EndSessionCounted(s, t);
      assert s1.open == {};
      forall k, sid | 0 <= k < |s1.threads| && sid != 0 ensures s1.threads[k].Held(sid) == 0 { NothingHeld(s1, k); }
      ZappedExclusive(s.dev, s1.threads);
    }
  }

  lemma ZappedExclusive(d: Device, threads: seq<Thread>)
    requires forall i :: 0 <= i < |d.items| ==> d.items[i].owner == 0
    requires forall k, sid | 0 <= k < |threads| && sid != 0 :: threads[k].Held(sid) == 0
    ensures Exclusive(Zap(d).items, threads)
  {
  }

  /** With the session of `t` the only one, every item is free, so nobody owns one. */
  lemma NobodyLeftOwns(s: ExclusiveState, t: nat, i: nat)
    requires t < |s.threads| && s.threads[t].pc == Closed && s.dev.sessions == 1 && i < |s.dev.items|
    ensures s.dev.items[i].owner == 0
  {
    assert ThreadOk(s.dev, s.open, s.threads[t]);
    assert s.open == {s.threads[t].pid} by {
      assert |s.open - {s.threads[t].pid}| == 0;
    }
    OwnerIsOpen(s, i);
  }

  /** An owner has a slot, and so is a client with an open session. */
  lemma OwnerIsOpen(s: ExclusiveState, i: nat)
    requires i < |s.dev.items|
    ensures s.dev.items[i].owner != 0 ==>
              Registered(s.dev.pids, s.dev.items[i].owner) && s.dev.items[i].owner in s.open
  {
    var item := s.dev.items[i];
    assert PermitOk(item, Permits(s.threads, i));
    if item.owner != 0 {
      var j :| 0 <= j < |item.refs| && item.refs[j].pid == item.owner;
      assert Registered(s.dev.pids, item.refs[j].pid);
      var p := FindPid(s.dev.pids, item.owner);
      assert s.dev.pids[p] in s.open;
    }
  }

  lemma NothingHeld(s: CountedState, k: nat)
    requires s.open == {} && k < |s.threads|
    ensures s.threads[k].pc == Idle && forall sid | sid != 0 :: s.threads[k].Held(sid) == 0
  {
    var t := s.threads[k];
    assert ThreadOk(s.dev, s.open, t);
    forall sid | sid != 0 ensures t.Held(sid) == 0 {
      CallsDominate(s.threads, k, t.pid, sid);
      LocateAnswersCount(s.dev, t.pid, sid);
      NothingLeft(s);
      assert Count(s.dev.items, sid, t.pid) == Calls(s.threads, t.pid, sid);
    }
  }

  // ---------------------------------------------------------------- steps on one item

  lemma OwnersReplaced(d: Device, i: nat, item': Item)
    requires Consistent(d) && i < |d.items| && item'.sid == d.items[i].sid != 0
    ensures forall sid | sid != 0 ::
              OwnerOf(d.items[i := item'], sid) == if sid == item'.sid then item'.owner else OwnerOf(d.items, sid)
  {
    var items' := d.items[i := item'];
    forall sid | sid != 0
      ensures OwnerOf(items', sid) == if sid == item'.sid then item'.owner else OwnerOf(d.items, sid)
    {
      var k := FindItem(d.items, sid);
      assert items'[i] == item';
      if sid != item'.sid && k >= 0 { assert items'[k] == d.items[k]; }
    }
  }

  /** Only item `i` is or becomes live under `sid`, and only calls on `sid` start or end. */
  lemma DownsReplaced(d: Device, threads: seq<Thread>, threads': seq<Thread>, i: nat, item': Item, sid: nat)
    requires Consistent(d) && i < |d.items| && DownsOk(d.items, threads) && DownOk(item', threads')
    requires forall k :: 0 <= k < |d.items| && k != i ==> d.items[k].sid != sid || d.items[k].sid == 0
    requires forall p, x | x != 0 && x != sid :: Waits(threads', p, x) == Waits(threads, p, x)
    ensures DownsOk(d.items[i := item'], threads')
  {
    forall k | 0 <= k < |d.items| && k != i ensures DownOk(d.items[k], threads') {
      assert DownOk(d.items[k], threads);
      if d.items[k].sid == 0 { FreeItemIsEmpty(d.items[k]); }
    }
  }

  lemma TakePermitExclusive(s: ExclusiveState, t: nat)
    requires t < |s.threads| && Enabled(true, s, TakePermit(t))
    ensures ExclusiveIn(AfterTakePermit(s, t))
  {
    var pc := s.threads[t].pc;
    var item := s.dev.items[pc.i];
    var item' := item.(sem := item.sem - 1);
    var t' := s.threads[t].(pc := Permitted(pc.sid, pc.i, pc.j));
    CallOwner(s, t);
    PermitTaken(s, t, item', t');
    DownTaken(s.dev.items, s.threads, t, pc.i, item', t');
    assert HoldsOk(s.dev.items[pc.i := item'], s.threads[t := t']) by {
      OwnersReplaced(s.dev, pc.i, item');
      HoldsCarried(s.dev.items, s.dev.items[pc.i := item'], s.threads, t, t');
    }
  }

  lemma PermitTaken(s: ExclusiveState, t: nat, item': Item, t': Thread)
    requires t < |s.threads| && s.threads[t].pc.Waiting? && s.threads[t].pc.i < |s.dev.items|
    requires s.dev.items[s.threads[t].pc.i].sid != 0 && s.dev.items[s.threads[t].pc.i].sem > 0
    requires item' == s.dev.items[s.threads[t].pc.i].(sem := s.dev.items[s.threads[t].pc.i].sem - 1)
    requires t'.pc.Permitted? && t'.pc.i == s.threads[t].pc.i
    ensures PermitsOk(s.dev.items[t'.pc.i := item'], s.threads[t := t'])
  {
    var i := t'.pc.i;
    assert PermitOk(item', Permits(s.threads, i) + 1) by {
      assert PermitOk(s.dev.items[i], Permits(s.threads, i));
      PermitsNonNegative(s.threads, i);
    }
    PermitsReplaced(s.dev.items, s.threads, i, item', t, t');
  }

  lemma DownTaken(items: seq<Item>, threads: seq<Thread>, t: nat, i: nat, item': Item, t': Thread)
    requires DownsOk(items, threads) && t < |threads| && i < |items|
    requires item'.refs == items[i].refs && item'.sid == items[i].sid && item'.owner == items[i].owner
    requires forall p, x :: Wait(threads[t], p, x) == Wait(t', p, x)
    ensures DownsOk(items[i := item'], threads[t := t'])
  {
    DownsMoved(items, threads, t, t');
    assert DownOk(items[i], threads[t := t']);
  }

  /** Owners being the same, a thread that holds what it held. */
  lemma HoldsCarried(items: seq<Item>, items': seq<Item>, threads: seq<Thread>, t: nat, t': Thread)
    requires HoldsOk(items, threads) && t < |threads| && t'.pid == threads[t].pid
    requires forall x | x != 0 :: OwnerOf(items', x) == OwnerOf(items, x)
    requires forall x | x != 0 && t'.Held(x) > 0 :: threads[t].Held(x) > 0 || OwnerOf(items, x) == t'.pid
    ensures HoldsOk(items', threads[t := t'])
  {
    var threads' := threads[t := t'];
    forall k | 0 <= k < |threads'| ensures HoldOk(items', threads'[k]) {
      assert HoldOk(items, threads[k]);
    }
  }

  lemma SetOwnerExclusive(s: ExclusiveState, t: nat)
    requires t < |s.threads| && s.threads[t].pc.Permitted?
    ensures ExclusiveIn(AfterSetOwner(s, t))
  {
    var pc, pid := s.threads[t].pc, s.threads[t].pid;
    CallOwner(s, t);
    var item' := s.dev.items[pc.i].(owner := pid);
    var t' := s.threads[t].Hold(pc.sid).(pc := Idle);
    OwnedPermits(s, t, item', t');
    OwnedDowns(s, t, item', t');
    assert HoldsOk(s.dev.items[pc.i := item'], s.threads[t := t']) by {
      OwnersReplaced(s.dev, pc.i, item');
      HoldsGained(s.dev.items, s.dev.items[pc.i := item'], s.threads, t, pc.sid);
    }
  }

  lemma OwnedPermits(s: ExclusiveState, t: nat, item': Item, t': Thread)
    requires t < |s.threads| && s.threads[t].pc.Permitted? && s.threads[t].pc.i < |s.dev.items|
    requires item' == s.dev.items[s.threads[t].pc.i].(owner := s.threads[t].pid)
    requires t' == s.threads[t].Hold(s.threads[t].pc.sid).(pc := Idle)
    ensures PermitsOk(s.dev.items[s.threads[t].pc.i := item'], s.threads[t := t'])
    ensures s.dev.items[s.threads[t].pc.i].owner == 0
  {
    var pc := s.threads[t].pc;
    var item := s.dev.items[pc.i];
    CallOwner(s, t);
    assert item.owner == 0 && PermitOk(item', Permits(s.threads, pc.i) - 1) by {
      assert PermitOk(item, Permits(s.threads, pc.i));
      PermitsDominate(s.threads, t, pc.i);
      OwnerSlot(s, t);
    }
    PermitsReplaced(s.dev.items, s.threads, pc.i, item', t, t');
  }

  /** While nobody owns the item, its slot counts no more calls in flight than references. */
  lemma OwnerSlot(s: ExclusiveState, t: nat)
    requires t < |s.threads| && s.threads[t].pc.InCall() && s.threads[t].pc.i < |s.dev.items|
    ensures var pc := s.threads[t].pc;
            Indexed(s.dev, pc.i, pc.j)
            && (s.dev.items[pc.i].owner == 0 ==> s.dev.items[pc.i].refs[pc.j].refCount >= s.dev.items[pc.i].refs[pc.j].down)
  {
    CallOwner(s, t);
    SlotCounts(s, s.threads[t].pc.i, s.threads[t].pc.j);
    assert DownOk(s.dev.items[s.threads[t].pc.i], s.threads);
  }

  lemma OwnedDowns(s: ExclusiveState, t: nat, item': Item, t': Thread)
    requires t < |s.threads| && s.threads[t].pc.Permitted? && s.threads[t].pc.i < |s.dev.items|
    requires s.dev.items[s.threads[t].pc.i].owner == 0 && s.dev.items[s.threads[t].pc.i].sid == s.threads[t].pc.sid != 0
    requires item' == s.dev.items[s.threads[t].pc.i].(owner := s.threads[t].pid)
    requires t' == s.threads[t].Hold(s.threads[t].pc.sid).(pc := Idle)
    ensures DownsOk(s.dev.items[s.threads[t].pc.i := item'], s.threads[t := t'])
  {
    OwnedDown(s, t, item', t');
    WaitsUpdate(s.threads, t, t');
    DownsReplaced(s.dev, s.threads, s.threads[t := t'], s.threads[t].pc.i, item', s.threads[t].pc.sid);
  }

  lemma OwnedDown(s: ExclusiveState, t: nat, item': Item, t': Thread)
    requires t < |s.threads| && s.threads[t].pc.Permitted? && s.threads[t].pc.i < |s.dev.items|
    requires s.dev.items[s.threads[t].pc.i].owner == 0 && s.dev.items[s.threads[t].pc.i].sid == s.threads[t].pc.sid
    requires item' == s.dev.items[s.threads[t].pc.i].(owner := s.threads[t].pid)
    requires t' == s.threads[t].Hold(s.threads[t].pc.sid).(pc := Idle)
    ensures DownOk(item', s.threads[t := t'])
  {
    assert DownOk(s.dev.items[s.threads[t].pc.i], s.threads);
    WaitsUpdate(s.threads, t, t');
  }

  /** The thread becomes the owner of `sid`, which nobody owned, and holds it. */
  lemma HoldsGained(items: seq<Item>, items': seq<Item>, threads: seq<Thread>, t: nat, sid: nat)
    requires HoldsOk(items, threads) && t < |threads| && sid != 0 && OwnerOf(items, sid) == 0
    requires forall k :: 0 <= k < |threads| ==> threads[k].pid != 0
    requires OwnerOf(items', sid) == threads[t].pid
    requires forall x | x != 0 && x != sid :: OwnerOf(items', x) == OwnerOf(items, x)
    ensures HoldsOk(items', threads[t := threads[t].Hold(sid).(pc := Idle)])
  {
    var t' := threads[t].Hold(sid).(pc := Idle);
    var threads' := threads[t := t'];
    forall k | 0 <= k < |threads'| ensures HoldOk(items', threads'[k]) {
      assert HoldOk(items, threads[k]);
      assert forall x :: t'.Held(x) == threads[t].Hold(sid).Held(x);
    }
  }

  // ---------------------------------------------------------------- PROCESS

  lemma ProcessExclusive(s: ExclusiveState, t: nat, sid: nat, usage: nat)
    requires MayCall(s, t)
    ensures ExclusiveIn(AfterProcess(s, t, sid, usage))
  {
    var pid := s.threads[t].pid;
    assert ThreadOk(s.dev, s.open, s.threads[t]);
    if !Accepts(s.dev, pid, sid) {
      BookRefuses(s.dev, pid, sid, usage);
      assert AfterProcess(s, t, sid, usage) == s;
    } else {
      var i, j := BookLands(s.dev, pid, sid, usage);
      BookedExclusive(s, t, sid, usage, i, j);
    }
  }

  /** Where a booking of `sid` by `pid` may land. */
  ghost predicate Lands(d: Device, pid: nat, sid: nat, i: nat, j: nat) {
    && pid != 0 && sid != 0 && Registered(d.pids, pid) && i < |d.items| && j < |d.pids|
    && Consistent(d)
    && (FindItem(d.items, sid) == i || (FindItem(d.items, sid) < 0 && d.items[i].sid == 0))
    && (FindRef(d.items[i].refs, pid) == j || (FindRef(d.items[i].refs, pid) < 0 && d.items[i].refs[j].pid == 0))
  }

  /** Thread `t` after booking slot `j` of item `i`. */
  function Booker(s: State, t: nat, sid: nat, i: nat, j: nat): Thread
    requires t < |s.threads| && i < |s.dev.items|
  {
    Booked(s.threads[t], sid, if s.dev.items[i].owner == s.threads[t].pid then AlreadyOwner(i, j) else MustWait(i, j))
  }

  lemma BookedExclusive(s: ExclusiveState, t: nat, sid: nat, usage: nat, i: nat, j: nat)
    requires t < |s.threads| && s.threads[t].pc == Idle && Lands(s.dev, s.threads[t].pid, sid, i, j)
    ensures Exclusive(s.dev.items[i := BookedItem(s.dev.items[i], j, s.threads[t].pid, sid, usage)],
                      s.threads[t := Booker(s, t, sid, i, j)])
  {
    BookedPermits(s, t, sid, usage, i, j);
    BookedDowns(s, t, sid, usage, i, j);
    BookedHolds(s, t, sid, usage, i, j);
  }

  lemma BookedPermits(s: ExclusiveState, t: nat, sid: nat, usage: nat, i: nat, j: nat)
    requires t < |s.threads| && s.threads[t].pc == Idle && Lands(s.dev, s.threads[t].pid, sid, i, j)
    ensures PermitsOk(s.dev.items[i := BookedItem(s.dev.items[i], j, s.threads[t].pid, sid, usage)],
                      s.threads[t := Booker(s, t, sid, i, j)])
  {
    BookedPermit(s, i, j, s.threads[t].pid, sid, usage);
    PermitsReplaced(s.dev.items, s.threads, i, BookedItem(s.dev.items[i], j, s.threads[t].pid, sid, usage),
                    t, Booker(s, t, sid, i, j));
  }

  lemma BookedDowns(s: ExclusiveState, t: nat, sid: nat, usage: nat, i: nat, j: nat)
    requires t < |s.threads| && s.threads[t].pc == Idle && Lands(s.dev, s.threads[t].pid, sid, i, j)
    ensures DownsOk(s.dev.items[i := BookedItem(s.dev.items[i], j, s.threads[t].pid, sid, usage)],
                    s.threads[t := Booker(s, t, sid, i, j)])
  {
    var t' := Booker(s, t, sid, i, j);
    BookedDown(s, t, sid, usage, i, j);
    WaitsUpdate(s.threads, t, t');
    DownsReplaced(s.dev, s.threads, s.threads[t := t'], i, BookedItem(s.dev.items[i], j, s.threads[t].pid, sid, usage), sid);
  }

  lemma BookedHolds(s: ExclusiveState, t: nat, sid: nat, usage: nat, i: nat, j: nat)
    requires t < |s.threads| && s.threads[t].pc == Idle && Lands(s.dev, s.threads[t].pid, sid, i, j)
    ensures HoldsOk(s.dev.items[i := BookedItem(s.dev.items[i], j, s.threads[t].pid, sid, usage)],
                    s.threads[t := Booker(s, t, sid, i, j)])
  {
    var item, pid, t' := s.dev.items[i], s.threads[t].pid, Booker(s, t, sid, i, j);
    var item' := BookedItem(item, j, pid, sid, usage);
    assert item.sid == 0 ==> item.owner == 0 by { assert PermitOk(item, Permits(s.threads, i)); }
    BookedOwners(s.dev.items, i, item');
    HoldsCarried(s.dev.items, s.dev.items[i := item'], s.threads, t, t');
  }

  /** The permit of the booked item, a new item's included. */
  lemma BookedPermit(s: ExclusiveState, i: nat, j: nat, pid: nat, sid: nat, usage: nat)
    requires Lands(s.dev, pid, sid, i, j)
    ensures PermitOk(BookedItem(s.dev.items[i], j, pid, sid, usage), Permits(s.threads, i))
  {
    var item := s.dev.items[i];
    var item' := BookedItem(item, j, pid, sid, usage);
    assert PermitOk(item, Permits(s.threads, i));
    if item.sid == 0 { FreeItemNoPermit(s, i); }
    if item.owner != 0 {
      var l :| 0 <= l < |item.refs| && item.refs[l].pid == item.owner && item.refs[l].refCount >= item.refs[l].down;
      assert item'.refs[l].pid == item.owner && item'.refs[l].refCount >= item'.refs[l].down;
    }
  }

  lemma BookedDown(s: ExclusiveState, t: nat, sid: nat, usage: nat, i: nat, j: nat)
    requires t < |s.threads| && s.threads[t].pc == Idle && Lands(s.dev, s.threads[t].pid, sid, i, j)
    ensures DownOk(BookedItem(s.dev.items[i], j, s.threads[t].pid, sid, usage), s.threads[t := Booker(s, t, sid, i, j)])
  {
    var item, pid, t' := s.dev.items[i], s.threads[t].pid, Booker(s, t, sid, i, j);
    assert DownOk(item, s.threads) && ItemOk(item);
    if item.sid == 0 { FreeItemIsEmpty(item); }
    if item.refs[j].pid == 0 { NewcomerWaitsNowhere(s, pid, sid, i); }
    assert forall p :: Waits(s.threads[t := t'], p, sid) == Waits(s.threads, p, sid) + if p == pid && item.owner != pid then 1 else 0 by {
      WaitsUpdate(s.threads, t, t');
    }
    BookedSlots(item, j, pid, sid, usage, s.threads, s.threads[t := t']);
  }

  lemma BookedSlots(item: Item, j: nat, pid: nat, sid: nat, usage: nat, threads: seq<Thread>, threads': seq<Thread>)
    requires DownOk(item, threads) && j < |item.refs| && pid != 0 && item.sid in {0, sid}
    requires forall l :: 0 <= l < |item.refs| && l != j && item.refs[l].pid != 0 ==> item.refs[l].pid != pid && item.sid == sid
    requires if item.refs[j].pid == 0 then Waits(threads, pid, sid) == 0 && item.owner != pid
             else item.refs[j].pid == pid && item.sid == sid
    requires forall p :: Waits(threads', p, sid) == Waits(threads, p, sid) + if p == pid && item.owner != pid then 1 else 0
    ensures DownOk(BookedItem(item, j, pid, sid, usage), threads')
  {
  }

  /** A process without a slot has no call in flight on the id, and does not own it. */
  lemma NewcomerWaitsNowhere(s: ExclusiveState, pid: nat, sid: nat, i: nat)
    requires pid != 0 && sid != 0 && i < |s.dev.items| && FindRef(s.dev.items[i].refs, pid) < 0
    requires FindItem(s.dev.items, sid) == i || (FindItem(s.dev.items, sid) < 0 && s.dev.items[i].sid == 0)
    ensures Waits(s.threads, pid, sid) == 0 && s.dev.items[i].owner != pid
  {
    assert PermitOk(s.dev.items[i], Permits(s.threads, i));
    assert Count(s.dev.items, sid, pid) == 0;
    assert Count(s.dev.items, sid, pid) == Calls(s.threads, pid, sid);
    WaitsAreCalls(s.threads, pid, sid);
  }

  lemma BookedOwners(items: seq<Item>, i: nat, item': Item)
    requires i < |items| && item'.sid != 0 && item'.owner == items[i].owner
    requires FindItem(items, item'.sid) == i || (FindItem(items, item'.sid) < 0 && items[i].sid == 0 && items[i].owner == 0)
    ensures forall sid | sid != 0 :: OwnerOf(items[i := item'], sid) == OwnerOf(items, sid)
    ensures OwnerOf(items, item'.sid) == item'.owner
  {
    var items' := items[i := item'];
    forall sid | sid != 0 ensures OwnerOf(items', sid) == OwnerOf(items, sid) {
      if sid != item'.sid || items[i].sid == sid {
        assert items[i].sid == sid || items[i].sid == 0 || items[i].sid == item'.sid;
        FindItemStable(items, items', sid);
      } else {
        assert items'[i].sid == sid;
        assert FindItem(items', sid) == i;
      }
    }
  }

  lemma FindItemStable(items: seq<Item>, items': seq<Item>, sid: nat)
    requires |items| == |items'|
    requires forall k :: 0 <= k < |items| ==> (items'[k].sid == sid <==> items[k].sid == sid)
    ensures FindItem(items', sid) == FindItem(items, sid)
  {
  }

  // ---------------------------------------------------------------- giving references back

  /** Owners after a reference is given back: unchanged, except that of the item itself. */
  lemma OwnersAfterUnref(d: Device, i: nat, item': Item)
    requires Consistent(d) && i < |d.items| && d.items[i].sid != 0
    requires item'.sid == d.items[i].sid || (item'.sid == 0 && item'.owner == 0)
    ensures forall sid | sid != 0 ::
              OwnerOf(d.items[i := item'], sid) == if sid == d.items[i].sid then item'.owner else OwnerOf(d.items, sid)
  {
    var items' := d.items[i := item'];
    forall sid | sid != 0
      ensures OwnerOf(items', sid) == if sid == d.items[i].sid then item'.owner else OwnerOf(d.items, sid)
    {
      var k := FindItem(d.items, sid);
      assert items'[i] == item';
      if k >= 0 && k != i { assert items'[k] == d.items[k]; }
    }
  }

  /** An interrupted wait gives its reference up: the permit stays where it was, and the item is freed
      only when nobody owns it. */
  lemma GiveUpItem(s: ExclusiveState, t: nat)
    requires t < |s.threads| && s.threads[t].pc.Interrupted?
    ensures var pc := s.threads[t].pc;
            && Indexed(s.dev, pc.i, pc.j)
            && s.dev.items[pc.i].sid == pc.sid != 0
            && PermitOk(Restore(s.dev.items[pc.i], pc.j), Permits(s.threads, pc.i))
            && DownOk(Restore(s.dev.items[pc.i], pc.j), Goto(s.threads, t, Idle))
  {
    var pc, pid := s.threads[t].pc, s.threads[t].pid;
    CallOwner(s, t);
    SlotCounts(s, pc.i, pc.j);
    WaitsDominate(s.threads, t);
    var item := s.dev.items[pc.i];
    assert PermitOk(item, Permits(s.threads, pc.i)) && DownOk(item, s.threads);
    RestoredPermit(item, pc.j, Permits(s.threads, pc.i));
    RestoredDown(item, pc.j, s.threads, t);
  }

  lemma RestoredPermit(item: Item, j: nat, permits: int)
    requires ItemOk(item) && PermitOk(item, permits) && j < |item.refs| && item.refs[j].pid != 0
    requires item.owner == item.refs[j].pid ==> item.refs[j].down >= 2
    ensures PermitOk(Restore(item, j), permits)
  {
    var item' := Restore(item, j);
    TotalCoversSlots(item, j);
    if item.owner != 0 {
      var l :| 0 <= l < |item.refs| && item.refs[l].pid == item.owner && item.refs[l].refCount >= item.refs[l].down;
      assert item'.refs[l].pid == item.owner && item'.refs[l].refCount >= item'.refs[l].down;
    }
  }

  lemma RestoredDown(item: Item, j: nat, threads: seq<Thread>, t: nat)
    requires ItemOk(item) && DownOk(item, threads) && j < |item.refs| && t < |threads| && threads[t].pc.InCall()
    requires item.refs[j].pid == threads[t].pid && item.sid == threads[t].pc.sid != 0
    ensures DownOk(Restore(item, j), Goto(threads, t, Idle))
  {
    WaitsUpdate(threads, t, threads[t].(pc := Idle));
    TotalCoversSlots(item, j);
    var item' := Restore(item, j);
    forall l | 0 <= l < |item'.refs| && item'.refs[l].pid != 0
      ensures item'.sid == item.sid && (l != j ==> item'.refs[l] == item.refs[l] && item.refs[l].pid != item.refs[j].pid)
    {
    }
  }

  lemma GiveUpExclusive(s: ExclusiveState, t: nat)
    requires t < |s.threads| && s.threads[t].pc.Interrupted?
    ensures ExclusiveIn(AfterGiveUp(s, t))
  {
    var pc := s.threads[t].pc;
    GiveUpItem(s, t);
    CallOwner(s, t);
    var item' := Restore(s.dev.items[pc.i], pc.j);
    var t' := s.threads[t].(pc := Idle);
    PermitsReplaced(s.dev.items, s.threads, pc.i, item', t, t');
    WaitsUpdate(s.threads, t, t');
    DownsReplaced(s.dev, s.threads, s.threads[t := t'], pc.i, item', pc.sid);
    OwnersAfterUnref(s.dev, pc.i, item');
    HoldsCarried(s.dev.items, s.dev.items[pc.i := item'], s.threads, t, t');
  }

  /** The owner gives one reference back while none of its calls is in flight; with the last one it
      gives up the lock and its permit. */
  lemma UnlockItem(item: Item, j: nat, permits: int)
    requires ItemOk(item) && j < |item.refs| && item.refs[j].pid == item.owner != 0 && item.refs[j].down == 1
    requires PermitOk(item, permits)
    ensures var item' := Unlock(item, j);
            && PermitOk(item', permits)
            && (item.refs[j].refCount == 1 ==> item'.owner == 0 && item'.sem == item.sem + 1)
            && (item.refs[j].refCount != 1 ==> item'.owner == item.owner && item'.sem == item.sem)
            && (item'.sid == item.sid || (item'.sid == 0 && item'.owner == 0))
  {
    var item' := Unlock(item, j);
    TotalCoversSlots(item, j);
    if item.refs[j].refCount != 1 {
      assert item'.refs[j].pid == item.owner && item'.refs[j].refCount >= item'.refs[j].down;
    }
  }

  lemma UnlockedDown(item: Item, j: nat, threads: seq<Thread>)
    requires ItemOk(item) && DownOk(item, threads) && j < |item.refs|
    requires item.refs[j].pid == item.owner != 0 && item.refs[j].down == 1
    ensures DownOk(Unlock(item, j), threads)
  {
    TotalCoversSlots(item, j);
    var item' := Unlock(item, j);
    forall l | 0 <= l < |item'.refs| && item'.refs[l].pid != 0
      ensures item'.sid == item.sid && (l != j ==> item'.refs[l] == item.refs[l] && item.refs[l].pid != item.owner)
    {
    }
  }

  /** A release that succeeds, and what it succeeds on. */
  ghost predicate Unlocks(s: State, pid: nat, sid: nat, holder: nat, i: nat, j: nat) {
    && pid != 0 && sid != 0 && Gives(s.threads, pid, sid, holder) && NoneCalling(s.threads, pid, sid) && Indexed(s.dev, i, j)
    && s.dev.items[i].sid == sid && s.dev.items[i].refs[j].pid == pid && s.dev.items[i].owner == pid
    && Release(s.dev, pid, sid) == (SetItem(s.dev, i, Unlock(s.dev.items[i], j)), Released(i, j))
  }

  lemma UnlockingExclusive(s: ExclusiveState, pid: nat, sid: nat, holder: nat)
    requires pid != 0 && NoneCalling(s.threads, pid, sid)
    requires Gives(s.threads, pid, sid, holder) || Release(s.dev, pid, sid).1.Failed?
    ensures ExclusiveIn(AfterUnlocking(s, pid, sid, holder))
  {
    var (d, r) := Release(s.dev, pid, sid);
    ReleaseCounts(s.dev, pid, sid);
    if r.Released? {
      assert Unlocks(s, pid, sid, holder, r.i, r.j);
      ReleasedExclusive(s, pid, sid, holder, r.i, r.j);
    } else {
      assert AfterUnlocking(s, pid, sid, holder) == s;
    }
  }

  lemma ReleasedExclusive(s: ExclusiveState, pid: nat, sid: nat, holder: nat, i: nat, j: nat)
    requires Unlocks(s, pid, sid, holder, i, j)
    ensures Exclusive(s.dev.items[i := Unlock(s.dev.items[i], j)], GiveBack(s.threads, holder, sid))
  {
    var item := s.dev.items[i];
    var item' := Unlock(item, j);
    var t' := s.threads[holder].Unhold(sid);
    assert PermitOk(item, Permits(s.threads, i)) && DownOk(item, s.threads);
    NoWaits(s.threads, pid, sid);
    UnlockItem(item, j, Permits(s.threads, i));
    UnlockedDown(item, j, s.threads);
    PermitsReplaced(s.dev.items, s.threads, i, item', holder, t');
    assert DownsOk(s.dev.items[i := item'], s.threads);
    DownsMoved(s.dev.items[i := item'], s.threads, holder, t');
    HoldsReleased(s, pid, sid, holder, i, j);
  }

  lemma HoldsReleased(s: ExclusiveState, pid: nat, sid: nat, holder: nat, i: nat, j: nat)
    requires Unlocks(s, pid, sid, holder, i, j)
    requires var item' := Unlock(s.dev.items[i], j);
             (item'.sid == sid || (item'.sid == 0 && item'.owner == 0)) && (s.dev.items[i].refs[j].refCount != 1 ==> item'.owner == pid)
    ensures HoldsOk(s.dev.items[i := Unlock(s.dev.items[i], j)], GiveBack(s.threads, holder, sid))
  {
    var item', threads' := Unlock(s.dev.items[i], j), GiveBack(s.threads, holder, sid);
    OwnersAfterUnref(s.dev, i, item');
    forall k | 0 <= k < |threads'| ensures HoldOk(s.dev.items[i := item'], threads'[k]) {
      assert HoldOk(s.dev.items, s.threads[k]);
      if threads'[k].Held(sid) > 0 { StillOwned(s, pid, sid, holder, i, j, k); }
    }
  }

  /** If somebody still holds after a release, it was not the last reference. */
  lemma StillOwned(s: ExclusiveState, pid: nat, sid: nat, holder: nat, i: nat, j: nat, k: nat)
    requires Unlocks(s, pid, sid, holder, i, j) && k < |s.threads| && GiveBack(s.threads, holder, sid)[k].Held(sid) > 0
    ensures s.dev.items[i].refs[j].refCount != 1 && OwnerOf(s.dev.items, sid) == pid && s.threads[k].pid == pid
  {
    var threads' := GiveBack(s.threads, holder, sid);
    assert HoldOk(s.dev.items, s.threads[k]);
    SlotCounts(s, i, j);
    CallsUpdate(s.threads, holder, s.threads[holder].Unhold(sid));
    CallsDominate(threads', k, pid, sid);
  }

  lemma StepExclusive(s: ExclusiveState, step: Step)
    requires Enabled(true, s, step)
    ensures ExclusiveIn(Apply(s, step))
  {
    match step
    case Spawn(pid) => SpawnExclusive(s, pid);
    case Open(t) => MovedExclusive(s.dev.items, s.threads, t, Opening);
    case Enlist(t) => MovedExclusive(s.dev.items, s.threads, t, Idle);
    case Process(t, sid, usage) => ProcessExclusive(s, t, sid, usage);
    case TakePermit(t) => TakePermitExclusive(s, t);
    case Signal(t) => MovedExclusive(s.dev.items, s.threads, t, Interrupted(s.threads[t].pc.sid, s.threads[t].pc.i, s.threads[t].pc.j));
    case SetOwner(t) => SetOwnerExclusive(s, t);
    case GiveUp(t) => GiveUpExclusive(s, t);
    case Unlocking(t, sid, holder) =>
      assert ThreadOk(s.dev, s.open, s.threads[t]);
      if !Gives(s.threads, s.threads[t].pid, sid, holder) { StrayRelease(s, s.threads[t].pid, sid); }
      UnlockingExclusive(s, s.threads[t].pid, sid, holder);
    case Close(t) =>
      var pc := CloseMoves(s, t);
      MovedExclusive(s.dev.items, s.threads, t, pc);
    case Drain(t, holder) => DrainExclusive(s, t, holder);
    case Recheck(t) =>
      var pc := RecheckMoves(s, t);
      MovedExclusive(s.dev.items, s.threads, t, pc);
    case EndSession(t) => EndSessionExclusive(s, t);
  }

  lemma DrainExclusive(s: ExclusiveState, t: nat, holder: nat)
    requires Enabled(true, s, Drain(t, holder))
    ensures ExclusiveIn(AfterDrain(s, t, holder))
  {
    var pc, pid := s.threads[t].pc, s.threads[t].pid;
    DrainReleases(s, t, holder);
    UnlockingExclusive(s, pid, pc.sid, holder);
    RecheckNextExclusive(AfterUnlocking(s, pid, pc.sid, holder), t, Rechecking(pc.p, pc.i, pc.j, pc.sid));
  }

  lemma DrainReleases(s: CountedState, t: nat, holder: nat)
    requires Enabled(true, s, Drain(t, holder))
    ensures s.threads[t].pid != 0 && NoneCalling(s.threads, s.threads[t].pid, s.threads[t].pc.sid)
    ensures Gives(s.threads, s.threads[t].pid, s.threads[t].pc.sid, holder)
            || Release(s.dev, s.threads[t].pid, s.threads[t].pc.sid).1.Failed?
  {
    var pc, pid := s.threads[t].pc, s.threads[t].pid;
    assert ThreadOk(s.dev, s.open, s.threads[t]);
    assert NoneCalling(s.threads, pid, pc.sid);
    if !Gives(s.threads, pid, pc.sid, holder) { StrayRelease(s, pid, pc.sid); }
  }

  lemma RecheckNextExclusive(s: State, t: nat, pc: Pc)
    requires ExclusiveIn(s) && t < |s.threads| && s.threads[t].pc.Draining? && pc.Rechecking?
    ensures ExclusiveIn(s.(threads := Goto(s.threads, t, pc)))
  {
    MovedExclusive(s.dev.items, s.threads, t, pc);
  }
}
