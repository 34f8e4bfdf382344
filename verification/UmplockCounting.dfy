/** Reference accounting over all runs, for any number of threads per process: the tables count
    exactly the calls that hold or wait, and the indices a waiting call saved stay its own. */
module UmplockCounting {
  import opened Sums
  import opened UmplockTables
  import opened UmplockAccounting
  import opened UmplockProtocol

  // ---------------------------------------------------------------- counting calls

  /** The references thread `t` accounts for: what it holds, and the call it is in. */
  function Load(t: Thread, pid: nat, sid: nat): int {
    if t.pid != pid then 0 else t.Held(sid) + if t.pc.InCall() && t.pc.sid == sid then 1 else 0
  }

  function Loads(threads: seq<Thread>, pid: nat, sid: nat): (s: seq<int>)
    ensures |s| == |threads| && forall k :: 0 <= k < |s| ==> s[k] == Load(threads[k], pid, sid)
  {
    seq(|threads|, k requires 0 <= k < |threads| => Load(threads[k], pid, sid))
  }

  /** The held plus waiting calls of a process on a secure id. */
  function Calls(threads: seq<Thread>, pid: nat, sid: nat): int {
    Sum(Loads(threads, pid, sid))
  }

  lemma CallsUpdate(threads: seq<Thread>, k: nat, t: Thread)
    requires k < |threads|
    ensures forall p, s ::
              Calls(threads[k := t], p, s) == Calls(threads, p, s) - Load(threads[k], p, s) + Load(t, p, s)
  {
    forall p, s
      ensures Calls(threads[k := t], p, s) == Calls(threads, p, s) - Load(threads[k], p, s) + Load(t, p, s)
    {
      assert Loads(threads[k := t], p, s) == Loads(threads, p, s)[k := Load(t, p, s)];
      SumUpdate(Loads(threads, p, s), k, Load(t, p, s));
    }
  }

  lemma CallsAppend(threads: seq<Thread>, t: Thread)
    ensures forall p, s :: Calls(threads + [t], p, s) == Calls(threads, p, s) + Load(t, p, s)
  {
    forall p, s ensures Calls(threads + [t], p, s) == Calls(threads, p, s) + Load(t, p, s) {
      assert Loads(threads + [t], p, s) == Loads(threads, p, s) + [Load(t, p, s)];
      SumAppend(Loads(threads, p, s), Load(t, p, s));
    }
  }

  lemma CallsDominate(threads: seq<Thread>, k: nat, pid: nat, sid: nat)
    requires k < |threads|
    ensures Calls(threads, pid, sid) >= Load(threads[k], pid, sid)
  {
    SumDominates(Loads(threads, pid, sid), k);
  }

  lemma CallsWitness(threads: seq<Thread>, pid: nat, sid: nat) returns (k: nat)
    requires Calls(threads, pid, sid) > 0
    ensures k < |threads| && threads[k].pid == pid && Load(threads[k], pid, sid) > 0
  {
    k := SumWitness(Loads(threads, pid, sid));
  }

  // ---------------------------------------------------------------- the invariant

  /** The abstract map is the number of held plus waiting calls. */
  ghost predicate Accounted(items: seq<Item>, threads: seq<Thread>) {
    forall sid, pid | sid != 0 && pid != 0 :: Count(items, sid, pid) == Calls(threads, pid, sid)
  }

  /** The indices saved by a call name its own item and its own process's slot. */
  ghost predicate Placed(items: seq<Item>, t: Thread) {
    t.pc.InCall() ==>
      && t.pc.sid != 0 && t.pc.i < |items| && t.pc.j < |items[t.pc.i].refs|
      && items[t.pc.i].sid == t.pc.sid && items[t.pc.i].refs[t.pc.j].pid == t.pid
  }

  ghost predicate NoSlotIn(item: Item, pid: nat) {
    forall l :: 0 <= l < |item.refs| ==> item.refs[l].pid != pid
  }

  /** No slot of `pid` lies before index `i`, and none but slot `j` in item `i`. */
  ghost predicate Passed(items: seq<Item>, pid: nat, i: nat, j: nat) {
    && i < |items| && j < |items[i].refs|
    && (forall k :: 0 <= k < i ==> NoSlotIn(items[k], pid))
    && (forall l :: 0 <= l < |items[i].refs| && l != j ==> items[i].refs[l].pid != pid)
  }

  /** A slot of `pid` in an item that is live under `sid` lies in item `i`. */
  ghost predicate OnlyIn(items: seq<Item>, pid: nat, sid: nat, i: nat) {
    forall k, l :: 0 <= k < |items| && 0 <= l < |items[k].refs| && items[k].refs[l].pid == pid && items[k].sid == sid ==> k == i
  }

  /** The progress of a closing process. */
  ghost predicate Walked(d: Device, t: Thread) {
    t.pc.InWalk() ==>
      && t.pc.p < |d.pids| && d.pids[t.pc.p] == t.pid
      && Passed(d.items, t.pid, t.pc.i, t.pc.j)
      && (d.items[t.pc.i].refs[t.pc.j].pid == t.pid ==> d.items[t.pc.i].sid == t.pc.sid)
      && t.pc.sid != 0 && OnlyIn(d.items, t.pid, t.pc.sid, t.pc.i)
  }

  ghost predicate ThreadOk(d: Device, open: set<nat>, t: Thread) {
    && t.pid != 0
    && (t.pc != Idle ==> t.pid in open)
    && Placed(d.items, t)
    && Walked(d, t)
    && (t.pc == Closed ==> !Registered(d.pids, t.pid))
  }

  ghost predicate ThreadsOk(d: Device, open: set<nat>, threads: seq<Thread>) {
    forall k :: 0 <= k < |threads| ==> ThreadOk(d, open, threads[k])
  }

  /** While a thread opens or closes the device, its process is in no other call. */
  ghost predicate SessionsExclusive(threads: seq<Thread>) {
    forall k, l :: 0 <= k < |threads| && 0 <= l < |threads| && k != l ==>
      threads[k].pc.InSession() && threads[k].pid == threads[l].pid ==> threads[l].pc == Idle
  }

  /** Sessions are counted, and only open processes are clients. */
  ghost predicate SessionsOk(d: Device, open: set<nat>) {
    && d.sessions == |open|
    && (forall p :: 0 <= p < |d.pids| && d.pids[p] != 0 ==> d.pids[p] in open)
  }

  ghost predicate Counted(s: State) {
    && Consistent(s.dev)
    && Accounted(s.dev.items, s.threads)
    && ThreadsOk(s.dev, s.open, s.threads)
    && SessionsExclusive(s.threads)
    && SessionsOk(s.dev, s.open)
  }

  type CountedState = s: State | Counted(s) ghost witness (InitCounted(0, 0); Init(0, 0))

  lemma InitCounted(maxItems: nat, maxPids: nat)
    ensures Counted(Init(maxItems, maxPids))
  {
    var s := Init(maxItems, maxPids);
    forall i | 0 <= i < maxItems ensures ItemOk(s.dev.items[i]) {
      SumZero(RefCounts(s.dev.items[i].refs));
    }
  }

  // ---------------------------------------------------------------- steps outside the tables

  /** A device step by process `q`, seen from a thread that is in no walk of `q`. */
  lemma ThreadFramed(s: State, s': State, t: Thread, q: nat)
    requires ThreadOk(s.dev, s.open, t) && Shaped(s.dev) && Shaped(s'.dev)
    requires Placed(s'.dev.items, t)
    requires t.pc.InWalk() || t.pc == Closed ==> t.pid != q
    requires NoNewSlots(s.dev.items, s'.dev.items, q) && |s'.dev.pids| == |s.dev.pids|
    requires forall p :: 0 <= p < |s.dev.pids| && s'.dev.pids[p] != s.dev.pids[p] ==> s.dev.pids[p] == 0 && s'.dev.pids[p] == q
    requires t.pc != Idle ==> t.pid in s'.open
    ensures ThreadOk(s'.dev, s'.open, t)
  {
  }

  lemma PlacedFramed(old': seq<Item>, new': seq<Item>, t: Thread)
    requires Placed(old', t) && SlotsKept(old', new') && t.pid != 0
    ensures Placed(new', t)
  {
  }

  /** A step of thread `t` that keeps every occupied slot and changes the map by what it changes
      in the thread's own account. */
  lemma Advanced(s: CountedState, t: nat, d: Device, t': Thread) returns (s': CountedState)
    requires t < |s.threads| && t'.pid == s.threads[t].pid && t'.pid in s.open
    requires Consistent(d) && d.sessions == s.dev.sessions && d.pids == s.dev.pids
    requires SlotsKept(s.dev.items, d.items) && NoNewSlots(s.dev.items, d.items, t'.pid)
    requires Placed(d.items, t') && !t'.pc.InSession()
    requires forall k :: 0 <= k < |s.threads| && s.threads[k].pid == t'.pid ==> !s.threads[k].pc.InSession()
    requires forall x, p | x != 0 && p != 0 ::
               Count(d.items, x, p) - Count(s.dev.items, x, p) == Load(t', p, x) - Load(s.threads[t], p, x)
    ensures s' == s.(dev := d, threads := s.threads[t := t'])
  {
    var n := s.(dev := d, threads := s.threads[t := t']);
    forall k | 0 <= k < |s.threads| && k != t ensures ThreadOk(d, s.open, n.threads[k]) {
      PlacedFramed(s.dev.items, d.items, s.threads[k]);
      ThreadFramed(s, n, s.threads[k], t'.pid);
    }
    assert ThreadOk(d, s.open, t') by { assert ThreadOk(s.dev, s.open, s.threads[t]); }
    AccountMoved(s.dev.items, d.items, s.threads, t, t');
    s' := n;
  }

  lemma AccountMoved(items: seq<Item>, items': seq<Item>, threads: seq<Thread>, t: nat, t': Thread)
    requires Accounted(items, threads) && t < |threads|
    requires forall x, p | x != 0 && p != 0 ::
               Count(items', x, p) - Count(items, x, p) == Load(t', p, x) - Load(threads[t], p, x)
    ensures Accounted(items', threads[t := t'])
  {
    CallsUpdate(threads, t, t');
    forall x, p | x != 0 && p != 0 ensures Count(items', x, p) == Calls(threads[t := t'], p, x) {}
  }

  /** Moving one thread that is in no PROCESS call leaves the accounts as they are. */
  lemma OnlyPc(threads: seq<Thread>, t: nat, pc: Pc)
    requires t < |threads| && !threads[t].pc.InCall() && !pc.InCall()
    ensures forall p, s :: Calls(Goto(threads, t, pc), p, s) == Calls(threads, p, s)
    ensures forall items :: Accounted(items, threads) ==> Accounted(items, Goto(threads, t, pc))
  {
    CallsUpdate(threads, t, threads[t].(pc := pc));
  }

  /** Moving one thread to a place that is right for it, outside PROCESS calls. */
  lemma Moved(s: CountedState, t: nat, pc: Pc) returns (s': CountedState)
    requires t < |s.threads| && !s.threads[t].pc.InCall() && !pc.InCall()
    requires ThreadOk(s.dev, s.open, s.threads[t].(pc := pc))
    requires SessionsExclusive(Goto(s.threads, t, pc))
    ensures s' == s.(threads := Goto(s.threads, t, pc))
  {
    OnlyPc(s.threads, t, pc);
    s' := s.(threads := Goto(s.threads, t, pc));
  }

  lemma SpawnCounted(s: CountedState, pid: nat) returns (s': CountedState)
    requires pid != 0
    ensures s' == AfterSpawn(s, pid)
  {
    CallsAppend(s.threads, Thread(pid, Idle, map[]));
    s' := AfterSpawn(s, pid);
  }

  lemma OpenCounted(s: CountedState, t: nat) returns (s': CountedState)
    requires Enabled(false, s, Open(t))
    ensures s' == AfterOpen(s, t)
  {
    var pid := s.threads[t].pid;
    var s1 := s.(dev := s.dev.(sessions := s.dev.sessions + 1), open := s.open + {pid});
    forall k | 0 <= k < |s.threads| ensures ThreadOk(s1.dev, s1.open, s1.threads[k]) {
      assert ThreadOk(s.dev, s.open, s.threads[k]);
    }
    s' := Moved(s1, t, Opening);
  }

  lemma EnlistCounted(s: CountedState, t: nat) returns (s': CountedState)
    requires Enabled(false, s, Enlist(t))
    ensures s' == AfterEnlist(s, t)
  {
    var pid := s.threads[t].pid;
    var d := ClientAdd(s.dev, pid);
    if d.Some? {
      AddedPid(s.dev, pid);
      var s1 := s.(dev := d.value);
      forall k | 0 <= k < |s.threads| ensures ThreadOk(s1.dev, s1.open, s1.threads[k]) {
        ThreadFramed(s, s1, s.threads[k], pid);
      }
      s' := Moved(s1, t, Idle);
    } else {
      s' := Moved(s, t, Idle);
    }
  }

  lemma AddedPid(d: Device, pid: nat)
    requires Consistent(d) && pid != 0 && ClientAdd(d, pid).Some?
    ensures Consistent(ClientAdd(d, pid).value)
  {
    var d' := ClientAdd(d, pid).value;
    forall x | Registered(d.pids, x) && x != 0 ensures Registered(d'.pids, x) {
      assert d'.pids[FindPid(d.pids, x)] == x;
    }
  }

  lemma SignalCounted(s: CountedState, t: nat) returns (s': CountedState)
    requires Enabled(false, s, Signal(t))
    ensures s' == AfterSignal(s, t)
  {
    var pc := s.threads[t].pc;
    CallerIsAlone(s.threads, t);
    s' := Advanced(s, t, s.dev, s.threads[t].(pc := Interrupted(pc.sid, pc.i, pc.j)));
  }

  // ---------------------------------------------------------------- steps on the tables

  lemma ProcessCounted(orderly: bool, s: CountedState, t: nat, sid: nat, usage: nat) returns (s': CountedState)
    requires Enabled(orderly, s, Process(t, sid, usage))
    ensures s' == AfterProcess(s, t, sid, usage)
  {
    var (d, b) := Book(s.dev, s.threads[t].pid, sid, usage);
    BookCounts(s.dev, s.threads[t].pid, sid, usage);
    s' := BookedCounted(s, t, sid, d, b);
  }

  lemma BookedCounted(s: CountedState, t: nat, sid: nat, d: Device, b: Booking) returns (s': CountedState)
    requires t < |s.threads| && s.threads[t].pc == Idle && s.threads[t].pid in s.open
    requires forall k :: 0 <= k < |s.threads| && s.threads[k].pid == s.threads[t].pid ==> !s.threads[k].pc.InSession()
    requires BookEffect(s.dev, d, b, s.threads[t].pid, sid)
    ensures s' == s.(dev := d, threads := s.threads[t := Booked(s.threads[t], sid, b)])
  {
    BookedThread(s.dev, d, b, s.threads[t], sid);
    s' := Advanced(s, t, d, Booked(s.threads[t], sid, b));
  }

  /** A booking keeps its own account and place. */
  lemma BookedThread(d: Device, d': Device, b: Booking, t: Thread, sid: nat)
    requires BookEffect(d, d', b, t.pid, sid) && t.pc == Idle
    ensures var t' := Booked(t, sid, b);
            && t'.pid == t.pid && Placed(d'.items, t') && !t'.pc.InSession()
            && forall x, p | x != 0 && p != 0 :: Count(d'.items, x, p) - Count(d.items, x, p) == Load(t', p, x) - Load(t, p, x)
  {
  }

  /** A wait that is over, or has its permit: the call becomes a hold or stays in flight. */
  lemma MarkedCounted(s: CountedState, t: nat, d: Device, t': Thread) returns (s': CountedState)
    requires t < |s.threads| && s.threads[t].pc.InCall() && MapKept(s.dev, d)
    requires var pc := s.threads[t].pc;
             t' == s.threads[t].(pc := Permitted(pc.sid, pc.i, pc.j)) || t' == s.threads[t].Hold(pc.sid).(pc := Idle)
    ensures s' == s.(dev := d, threads := s.threads[t := t'])
  {
    CallerIsAlone(s.threads, t);
    ThreadStays(s, t, d, t');
    s' := Advanced(s, t, d, t');
  }

  lemma CallerIsAlone(threads: seq<Thread>, t: nat)
    requires SessionsExclusive(threads) && t < |threads| && threads[t].pc.InCall()
    ensures forall k :: 0 <= k < |threads| && threads[k].pid == threads[t].pid ==> !threads[k].pc.InSession()
  {
  }

  lemma ThreadStays(s: State, t: nat, d: Device, t': Thread)
    requires ThreadsOk(s.dev, s.open, s.threads) && t < |s.threads| && s.threads[t].pc.InCall() && MapKept(s.dev, d)
    requires var pc := s.threads[t].pc;
             t' == s.threads[t].(pc := Permitted(pc.sid, pc.i, pc.j)) || t' == s.threads[t].Hold(pc.sid).(pc := Idle)
    ensures Placed(d.items, t') && t'.pid in s.open && t'.pid == s.threads[t].pid
    ensures NoNewSlots(s.dev.items, d.items, t'.pid)
    ensures forall x, p | x != 0 && p != 0 :: Load(t', p, x) == Load(s.threads[t], p, x)
  {
    assert ThreadOk(s.dev, s.open, s.threads[t]);
    PlacedFramed(s.dev.items, d.items, s.threads[t]);
  }

  lemma TakePermitCounted(s: CountedState, t: nat) returns (s': CountedState)
    requires Enabled(false, s, TakePermit(t))
    ensures s' == AfterTakePermit(s, t)
  {
    var pc := s.threads[t].pc;
    var item' := s.dev.items[pc.i].(sem := s.dev.items[pc.i].sem - 1);
    MarksDoNotCount(s.dev, pc.i, item');
    s' := MarkedCounted(s, t, SetItem(s.dev, pc.i, item'), s.threads[t].(pc := Permitted(pc.sid, pc.i, pc.j)));
  }

  lemma SetOwnerCounted(s: CountedState, t: nat) returns (s': CountedState)
    requires Enabled(false, s, SetOwner(t))
    ensures s' == AfterSetOwner(s, t)
  {
    var pc := s.threads[t].pc;
    assert ThreadOk(s.dev, s.open, s.threads[t]);
    var item' := s.dev.items[pc.i].(owner := s.threads[t].pid);
    MarksDoNotCount(s.dev, pc.i, item');
    s' := MarkedCounted(s, t, SetItem(s.dev, pc.i, item'), s.threads[t].Hold(pc.sid).(pc := Idle));
  }

  /** After a reference of slot (i, j) is given back, every call that stays in flight is still
      placed: if it uses that very slot, it accounts for a reference that is left. */
  lemma UnrefCounted(s: State, n: State, i: nat, j: nat) returns (s': CountedState)
    requires Consistent(s.dev) && Accounted(s.dev.items, s.threads) && SessionsOk(s.dev, s.open)
    requires i < |s.dev.items| && j < |s.dev.pids| && s.dev.items[i].refs[j].pid != 0
    requires UnrefEffect(s.dev, n.dev, i, j)
    requires n.open == s.open && OneCallLess(s.threads, n.threads, s.dev.items[i].refs[j].pid, s.dev.items[i].sid)
    requires ThreadsOk(s.dev, s.open, n.threads) && SessionsExclusive(n.threads)
    ensures s' == n
  {
    forall k | 0 <= k < |n.threads| ensures ThreadOk(n.dev, n.open, n.threads[k]) {
      assert ThreadOk(s.dev, s.open, n.threads[k]);
      UnrefPlaced(s, n, i, j, k);
      ThreadFramed(s, n, n.threads[k], 0);
    }
    assert Accounted(n.dev.items, n.threads) by {
      forall x, p | x != 0 && p != 0 ensures Count(n.dev.items, x, p) == Calls(n.threads, p, x) {}
    }
    s' := n;
  }

  /** One call less of the process on the id, held or in flight, and no others. */
  ghost predicate OneCallLess(threads: seq<Thread>, threads': seq<Thread>, pid: nat, sid: nat) {
    && |threads'| == |threads|
    && forall p, x | p != 0 && x != 0 :: Calls(threads', p, x) == Calls(threads, p, x) - At(x, p, sid, pid)
  }

  lemma UnrefPlaced(s: State, n: State, i: nat, j: nat, k: nat)
    requires Consistent(s.dev) && Accounted(s.dev.items, s.threads)
    requires i < |s.dev.items| && j < |s.dev.pids| && s.dev.items[i].refs[j].pid != 0
    requires UnrefEffect(s.dev, n.dev, i, j)
    requires OneCallLess(s.threads, n.threads, s.dev.items[i].refs[j].pid, s.dev.items[i].sid)
    requires k < |n.threads| && n.threads[k].pid != 0 && Placed(s.dev.items, n.threads[k])
    ensures Placed(n.dev.items, n.threads[k])
  {
    var t, pid, sid := n.threads[k], s.dev.items[i].refs[j].pid, s.dev.items[i].sid;
    if t.pc.InCall() && (t.pc.i, t.pc.j) == (i, j) {
      CountInSlot(s.dev.items[i], j);
      CountLive(s.dev, i, pid);
      CallsDominate(n.threads, k, pid, sid);
      assert Calls(s.threads, pid, sid) == Count(s.dev.items, sid, pid);
    }
  }

  lemma GiveUpCounted(s: CountedState, t: nat) returns (s': CountedState)
    requires Enabled(false, s, GiveUp(t))
    ensures s' == AfterGiveUp(s, t)
  {
    var pc := s.threads[t].pc;
    assert ThreadOk(s.dev, s.open, s.threads[t]);
    var item' := Restore(s.dev.items[pc.i], pc.j);
    UnrefCounts(s.dev, pc.i, pc.j, s.dev.items[pc.i].refs[pc.j].down - 1, item');
    s' := GivenUpCounted(s, t, SetItem(s.dev, pc.i, item'));
  }

  lemma GivenUpCounted(s: CountedState, t: nat, d: Device) returns (s': CountedState)
    requires t < |s.threads| && s.threads[t].pc.Interrupted?
    requires Indexed(s.dev, s.threads[t].pc.i, s.threads[t].pc.j)
    requires UnrefEffect(s.dev, d, s.threads[t].pc.i, s.threads[t].pc.j)
    ensures s' == s.(dev := d, threads := Goto(s.threads, t, Idle))
  {
    CallsUpdate(s.threads, t, s.threads[t].(pc := Idle));
    s' := UnrefCounted(s, s.(dev := d, threads := Goto(s.threads, t, Idle)), s.threads[t].pc.i, s.threads[t].pc.j);
  }

  /** A successful RELEASE gives up one reference of the slot it located. */
  lemma ReleaseCounts(d: Device, pid: nat, sid: nat)
    requires Consistent(d) && pid != 0
    ensures var (d', r) := Release(d, pid, sid);
            if r.Released? then
              && sid != 0 && r.i < |d.items| && r.j < |d.items[r.i].refs|
              && d.items[r.i].sid == sid && d.items[r.i].refs[r.j].pid == pid && d.items[r.i].owner == pid
              && d' == d.(items := d.items[r.i := Unlock(d.items[r.i], r.j)])
              && UnrefEffect(d, d', r.i, r.j)
            else d' == d
  {
    var (d', r) := Release(d, pid, sid);
    if r.Released? {
      var item, item' := d.items[r.i], Unlock(d.items[r.i], r.j);
      UnrefCounts(d, r.i, r.j, item'.refs[r.j].down, item');
    }
  }

  /** A release attributed to a holder of the same process, or one that finds nothing to release. */
  lemma ReleaseCounted(s: CountedState, pid: nat, sid: nat, holder: nat, d: Device, r: Releasing) returns (s': CountedState)
    requires pid != 0 && Release(s.dev, pid, sid) == (d, r)
    requires r.Released? ==> Gives(s.threads, pid, sid, holder)
    ensures s' == s.(dev := d, threads := if r.Released? then GiveBack(s.threads, holder, sid) else s.threads)
  {
    ReleaseCounts(s.dev, pid, sid);
    if r.Released? {
      s' := GivenBackCounted(s, holder, sid, d, r.i, r.j);
    } else {
      s' := s;
    }
  }

  lemma GivenBackCounted(s: CountedState, holder: nat, sid: nat, d: Device, i: nat, j: nat) returns (s': CountedState)
    requires Indexed(s.dev, i, j) && UnrefEffect(s.dev, d, i, j)
    requires s.dev.items[i].sid == sid && s.dev.items[i].refs[j].pid != 0
    requires Gives(s.threads, s.dev.items[i].refs[j].pid, sid, holder)
    ensures s' == s.(dev := d, threads := GiveBack(s.threads, holder, sid))
  {
    HolderGivesBack(s, holder, sid);
    s' := UnrefCounted(s, s.(dev := d, threads := GiveBack(s.threads, holder, sid)), i, j);
  }

  lemma HolderGivesBack(s: CountedState, holder: nat, sid: nat)
    requires holder < |s.threads| && s.threads[holder].Held(sid) > 0
    ensures var threads' := GiveBack(s.threads, holder, sid);
            && OneCallLess(s.threads, threads', s.threads[holder].pid, sid)
            && ThreadsOk(s.dev, s.open, threads') && SessionsExclusive(threads')
  {
    CallsUpdate(s.threads, holder, s.threads[holder].Unhold(sid));
    assert ThreadOk(s.dev, s.open, s.threads[holder]);
  }

  /** A process that holds nothing and waits for nothing on `sid` has no slot to release. */
  lemma StrayRelease(s: CountedState, pid: nat, sid: nat)
    requires pid != 0 && NoneHeld(s.threads, pid, sid)
    requires NoneCalling(s.threads, pid, sid)
    ensures Release(s.dev, pid, sid).1.Failed?
  {
    if sid != 0 {
      if Calls(s.threads, pid, sid) > 0 {
        var k := CallsWitness(s.threads, pid, sid);
        assert false;
      }
      LocateAnswersCount(s.dev, pid, sid);
    }
  }

  lemma UnlockingCounted(orderly: bool, s: CountedState, t: nat, sid: nat, holder: nat) returns (s': CountedState)
    requires Enabled(orderly, s, Unlocking(t, sid, holder))
    ensures s' == AfterUnlocking(s, s.threads[t].pid, sid, holder)
  {
    var pid := s.threads[t].pid;
    if !Gives(s.threads, pid, sid, holder) {
      StrayRelease(s, pid, sid);
    }
    var (d, r) := Release(s.dev, pid, sid);
    s' := ReleaseCounted(s, pid, sid, holder, d, r);
  }

  // ---------------------------------------------------------------- closing and opening

  ghost predicate OnlySlot(item: Item, pid: nat, j: nat) {
    j < |item.refs| && item.refs[j].pid == pid && forall l :: 0 <= l < |item.refs| && l != j ==> item.refs[l].pid != pid
  }

  /** Looking up an item's own secure id comes back to that item, or finds no slot of the pid in it. */
  ghost predicate LocatesSelf(items: seq<Item>, pid: nat, k: nat)
    requires k < |items|
  {
    match Locate(items, pid, items[k].sid)
    case None => NoSlotIn(items[k], pid)
    case Some((i, j)) => i == k && items[k].sid != 0 && items[k].refs[j].refCount > 0 && OnlySlot(items[k], pid, j)
  }

  /** In consistent tables the walk's loop index is never moved by the lookup. */
  lemma LocateSelf(d: Device, pid: nat, k: nat)
    requires Consistent(d) && pid != 0 && k < |d.items|
    ensures LocatesSelf(d.items, pid, k)
  {
    var i := FindItem(d.items, d.items[k].sid);
    if d.items[k].sid == 0 {
      FreeItemIsEmpty(d.items[k]);
      FreeItemIsEmpty(d.items[i]);
    } else {
      assert i == k;
      assert ItemOk(d.items[k]);
    }
  }

  /** The walk from `from` stops at the first reference of the pid, or has passed them all. */
  ghost predicate WalkedFrom(items: seq<Item>, pid: nat, from: nat) {
    match NextHeld(items, pid, from)
    case Loops => false
    case Clear => forall i :: from <= i < |items| ==> NoSlotIn(items[i], pid)
    case Found(i, j, sid) =>
      && from <= i < |items| && items[i].sid == sid != 0 && OnlySlot(items[i], pid, j)
      && items[i].refs[j].refCount > 0
      && forall k :: from <= k < i ==> NoSlotIn(items[k], pid)
  }

  lemma {:induction false} WalkFinds(items: seq<Item>, pid: nat, from: nat)
    requires forall k :: 0 <= k < |items| ==> LocatesSelf(items, pid, k)
    ensures WalkedFrom(items, pid, from)
    decreases |items| - from
  {
    if from < |items| {
      assert LocatesSelf(items, pid, from);
      if Locate(items, pid, items[from].sid).None? {
        WalkFinds(items, pid, from + 1);
      }
    }
  }

  /** Thread `t` is the only one of its process in a call, and may walk the items from `from`. */
  ghost predicate MayWalk(s: State, t: nat, p: nat) {
    && t < |s.threads| && (s.threads[t].pc == Idle || s.threads[t].pc.InWalk())
    && p < |s.dev.pids| && s.dev.pids[p] == s.threads[t].pid && s.threads[t].pid in s.open
    && forall k :: 0 <= k < |s.threads| && k != t && s.threads[k].pid == s.threads[t].pid ==> s.threads[k].pc == Idle
  }

  ghost predicate AbsentBelow(items: seq<Item>, pid: nat, from: nat) {
    forall i :: 0 <= i < from && i < |items| ==> NoSlotIn(items[i], pid)
  }

  lemma WalkCounted(s: CountedState, t: nat, p: nat, from: nat) returns (s': CountedState)
    requires MayWalk(s, t, p) && AbsentBelow(s.dev.items, s.threads[t].pid, from)
    ensures s' == Walk(s, t, p, from)
  {
    var pid := s.threads[t].pid;
    assert WalkedFrom(s.dev.items, pid, from) by {
      forall k | 0 <= k < |s.dev.items| ensures LocatesSelf(s.dev.items, pid, k) { LocateSelf(s.dev, pid, k); }
      WalkFinds(s.dev.items, pid, from);
    }
    match NextHeld(s.dev.items, pid, from) {
      case Clear =>
        assert AbsentBelow(s.dev.items, pid, |s.dev.items|);
        s' := WalkEnds(s, t, p);
      case Found(i, j, sid) =>
        assert Passed(s.dev.items, pid, i, j);
        s' := WalkStops(s, t, Draining(p, i, j, sid));
    }
  }

  lemma WalkStops(s: CountedState, t: nat, pc: Pc) returns (s': CountedState)
    requires pc.Draining? && MayWalk(s, t, pc.p)
    requires Passed(s.dev.items, s.threads[t].pid, pc.i, pc.j) && s.dev.items[pc.i].sid == pc.sid != 0
    ensures s' == s.(threads := Goto(s.threads, t, pc))
  {
    assert ThreadOk(s.dev, s.open, s.threads[t]);
    s' := Moved(s, t, pc);
  }

  lemma WalkEnds(s: CountedState, t: nat, p: nat) returns (s': CountedState)
    requires MayWalk(s, t, p) && AbsentBelow(s.dev.items, s.threads[t].pid, |s.dev.items|)
    ensures s' == State(s.dev.(pids := s.dev.pids[p := 0]), Goto(s.threads, t, Closed), s.open)
  {
    var d' := s.dev.(pids := s.dev.pids[p := 0]);
    OnlyPc(s.threads, t, Closed);
    RemovedPid(s.dev, p);
    forall k | 0 <= k < |s.threads| && k != t ensures ThreadOk(d', s.open, s.threads[k]) {
      var u := s.threads[k];
      assert ThreadOk(s.dev, s.open, u);
      assert u.pc != Idle ==> u.pid != s.threads[t].pid;
      RemovedOther(s.dev.pids, p, u.pid);
    }
    assert ThreadOk(d', s.open, s.threads[t].(pc := Closed));
    s' := State(d', Goto(s.threads, t, Closed), s.open);
  }

  lemma RemovedOther(pids: seq<nat>, p: nat, pid: nat)
    requires p < |pids|
    ensures pid != 0 && !Registered(pids, pid) ==> !Registered(pids[p := 0], pid)
  {
  }

  /** Removing a client that has no slot left keeps the tables consistent. */
  lemma RemovedPid(d: Device, p: nat)
    requires Consistent(d) && p < |d.pids| && d.pids[p] != 0
    requires forall i, j :: 0 <= i < |d.items| && 0 <= j < |d.items[i].refs| ==> d.items[i].refs[j].pid != d.pids[p]
    ensures Consistent(d.(pids := d.pids[p := 0]))
    ensures !Registered(d.pids[p := 0], d.pids[p])
  {
    var pids' := d.pids[p := 0];
    forall x | Registered(d.pids, x) && x != 0 && x != d.pids[p] ensures Registered(pids', x) {
      assert pids'[FindPid(d.pids, x)] == x;
    }
  }

  lemma CloseCounted(s: CountedState, t: nat) returns (s': CountedState)
    requires Enabled(false, s, Close(t))
    ensures s' == AfterClose(s, t)
  {
    var p := FindClient(s.dev.pids, s.threads[t].pid);
    if p >= 0 {
      s' := WalkCounted(s, t, p, 0);
    } else {
      s' := Moved(s, t, Closed);
    }
  }

  lemma DrainCounted(s: CountedState, t: nat, holder: nat) returns (s': CountedState)
    requires Enabled(false, s, Drain(t, holder))
    ensures s' == AfterDrain(s, t, holder)
  {
    var pc := s.threads[t].pc;
    var pid := s.threads[t].pid;
    if !Gives(s.threads, pid, pc.sid, holder) {
      StrayRelease(s, pid, pc.sid);
    }
    var (d, r) := Release(s.dev, pid, pc.sid);
    var s1 := ReleaseCounted(s, pid, pc.sid, holder, d, r);
    s' := WalkOn(s1, t, Rechecking(pc.p, pc.i, pc.j, pc.sid));
  }

  lemma RecheckCounted(s: CountedState, t: nat) returns (s': CountedState)
    requires Enabled(false, s, Recheck(t))
    ensures s' == AfterRecheck(s, t)
  {
    var pc := s.threads[t].pc;
    WalkerIndexed(s, t);
    if s.dev.items[pc.i].refs[pc.j].refCount != 0 {
      s' := WalkOn(s, t, Draining(pc.p, pc.i, pc.j, pc.sid));
    } else {
      assert AbsentBelow(s.dev.items, s.threads[t].pid, pc.i + 1) by { DrainedPasses(s.dev, s.threads[t]); }
      assert MayWalk(s, t, pc.p) by { WalkerIsAlone(s, t); }
      s' := WalkCounted(s, t, pc.p, pc.i + 1);
    }
  }

  lemma WalkerIndexed(s: State, t: nat)
    requires ThreadsOk(s.dev, s.open, s.threads) && t < |s.threads| && s.threads[t].pc.InWalk()
    ensures Indexed(s.dev, s.threads[t].pc.i, s.threads[t].pc.j) && Walked(s.dev, s.threads[t]) && s.threads[t].pid != 0
  {
    assert ThreadOk(s.dev, s.open, s.threads[t]);
  }

  lemma WalkerIsAlone(s: State, t: nat)
    requires ThreadsOk(s.dev, s.open, s.threads) && SessionsExclusive(s.threads)
    requires t < |s.threads| && s.threads[t].pc.InWalk()
    ensures MayWalk(s, t, s.threads[t].pc.p)
  {
    assert ThreadOk(s.dev, s.open, s.threads[t]);
  }

  /** Going between releasing and rechecking the same slot. */
  lemma WalkOn(s: CountedState, t: nat, pc: Pc) returns (s': CountedState)
    requires t < |s.threads| && s.threads[t].pc.InWalk() && pc.InWalk()
    requires pc.p == s.threads[t].pc.p && pc.i == s.threads[t].pc.i && pc.j == s.threads[t].pc.j && pc.sid == s.threads[t].pc.sid
    ensures s' == s.(threads := Goto(s.threads, t, pc))
  {
    assert ThreadOk(s.dev, s.open, s.threads[t]);
    s' := Moved(s, t, pc);
  }

  /** Once the saved slot has no references, the process has no slot up to that item. */
  lemma DrainedPasses(d: Device, t: Thread)
    requires t.pc.InWalk() && Walked(d, t) && t.pid != 0 && ItemOk(d.items[t.pc.i])
    requires d.items[t.pc.i].refs[t.pc.j].refCount == 0
    ensures AbsentBelow(d.items, t.pid, t.pc.i + 1)
  {
    assert NoSlotIn(d.items[t.pc.i], t.pid);
  }

  /** With no session left there is no client, so no slot, so no live item. */
  lemma NothingLeft(s: CountedState)
    requires s.open == {}
    ensures forall p :: 0 <= p < |s.dev.pids| ==> s.dev.pids[p] == 0
    ensures forall i :: 0 <= i < |s.dev.items| ==> s.dev.items[i].sid == 0 && s.dev.items[i].idRef == 0
    ensures forall i, j :: 0 <= i < |s.dev.items| && 0 <= j < |s.dev.pids| ==>
              s.dev.items[i].refs[j].pid == 0 && s.dev.items[i].refs[j].refCount == 0
  {
    forall i | 0 <= i < |s.dev.items| ensures s.dev.items[i].sid == 0 {
      SumZero(RefCounts(s.dev.items[i].refs));
    }
  }

  lemma ZapConsistent(d: Device)
    requires Shaped(d) && forall i :: 0 <= i < |d.items| ==> d.items[i].idRef == 0
    ensures Consistent(Zap(d))
    ensures forall s, p | s != 0 && p != 0 :: Count(Zap(d).items, s, p) == 0
  {
    var d' := Zap(d);
    forall i | 0 <= i < |d'.items| ensures ItemOk(d'.items[i]) {
      SumZero(RefCounts(d'.items[i].refs));
    }
  }

  lemma SessionEndedCounted(s: CountedState, t: nat) returns (s': CountedState)
    requires Enabled(false, s, EndSession(t))
    ensures s' == SessionEnded(s, t)
  {
    var s0 := Moved(s, t, Idle);
    s' := SessionEnded(s, t);
    forall k | 0 <= k < |s'.threads| ensures ThreadOk(s'.dev, s'.open, s'.threads[k]) {
      assert ThreadOk(s.dev, s.open, s.threads[k]) && ThreadOk(s.dev, s.open, s.threads[t]);
    }
  }

  lemma EndSessionCounted(s: CountedState, t: nat) returns (s': CountedState)
    requires Enabled(false, s, EndSession(t))
    ensures s' == AfterEndSession(s, t)
  {
    s' := SessionEndedCounted(s, t);
    if s'.dev.sessions == 0 {
      assert s'.open == {};
      s' := ZappedCounted(s');
    }
  }

  lemma ZappedCounted(s: CountedState) returns (s': CountedState)
    requires s.open == {}
    ensures s' == s.(dev := Zap(s.dev))
  {
    NothingLeft(s);
    ZapConsistent(s.dev);
    var d := Zap(s.dev);
    forall x, p | x != 0 && p != 0 ensures Count(d.items, x, p) == Calls(s.threads, p, x) {
      assert Count(s.dev.items, x, p) == 0;
    }
    forall k | 0 <= k < |s.threads| ensures ThreadOk(d, s.open, s.threads[k]) {
      assert ThreadOk(s.dev, s.open, s.threads[k]);
    }
    s' := s.(dev := d);
  }

  lemma StepCounted(orderly: bool, s: CountedState, step: Step) returns (s': CountedState)
    requires Enabled(orderly, s, step)
    ensures s' == Apply(s, step)
  {
    match step
    case Spawn(pid) => s' := SpawnCounted(s, pid);
    case Open(t) => s' := OpenCounted(s, t);
    case Enlist(t) => s' := EnlistCounted(s, t);
    case Process(t, sid, usage) => s' := ProcessCounted(orderly, s, t, sid, usage);
    case TakePermit(t) => s' := TakePermitCounted(s, t);
    case Signal(t) => s' := SignalCounted(s, t);
    case SetOwner(t) => s' := SetOwnerCounted(s, t);
    case GiveUp(t) => s' := GiveUpCounted(s, t);
    case Unlocking(t, sid, holder) => s' := UnlockingCounted(orderly, s, t, sid, holder);
    case Close(t) => s' := CloseCounted(s, t);
    case Drain(t, holder) => s' := DrainCounted(s, t, holder);
    case Recheck(t) => s' := RecheckCounted(s, t);
    case EndSession(t) => s' := EndSessionCounted(s, t);
  }
}
