/** Why releases must be orderly: every release that orderly runs leave out can be continued until two
    processes hold the secure id at once. */
module UmplockDisorder {
  import opened Options
  import opened UmplockTables
  import opened UmplockAccounting
  import opened UmplockProtocol
  import opened UmplockCounting
  import opened UmplockExclusion
  import opened UmplockTheorems
  import opened UmplockClosing

  // ---------------------------------------------------------------- a live item has room for every client

  function Pids(refs: seq<Ref>): set<nat> {
    set r | r in refs :: r.pid
  }

  lemma {:induction false} PidsOfDistinct(refs: seq<Ref>)
    requires forall j, k :: 0 <= j < k < |refs| ==> refs[j].pid != refs[k].pid
    ensures |Pids(refs)| == |refs|
  {
    if refs != [] {
      var n := |refs| - 1;
      PidsOfDistinct(refs[..n]);
      assert refs == refs[..n] + [refs[n]];
      assert Pids(refs) == Pids(refs[..n]) + {refs[n].pid};
    }
  }

  function Clients(pids: seq<nat>): set<nat> {
    set p | p in pids
  }

  lemma {:induction false} ClientsAtMost(pids: seq<nat>)
    ensures |Clients(pids)| <= |pids|
  {
    if pids != [] {
      var n := |pids| - 1;
      ClientsAtMost(pids[..n]);
      assert pids == pids[..n] + [pids[n]];
      assert Clients(pids) == Clients(pids[..n]) + {pids[n]};
    }
  }

  lemma Fewer(a: set<nat>, b: set<nat>)
    requires a <= b
    ensures |a| <= |b|
  {
    assert b == a + (b - a);
  }

  /** An item has one slot per client, so a client that has none finds an empty one. */
  lemma RoomForClient(d: Device, i: nat, pid: nat)
    requires Consistent(d) && i < |d.items| && pid != 0 && Registered(d.pids, pid)
    ensures FindRef(d.items[i].refs, pid) >= 0 || FindRef(d.items[i].refs, 0) >= 0
  {
    var refs := d.items[i].refs;
    if FindRef(refs, pid) < 0 && FindRef(refs, 0) < 0 {
      assert ItemOk(d.items[i]);
      PidsOfDistinct(refs);
      FullItemHasAll(refs, d.pids, pid);
    }
  }

  lemma FullItemHasAll(refs: seq<Ref>, pids: seq<nat>, pid: nat)
    requires |Pids(refs)| == |refs| == |pids| && pid in pids
    requires forall j :: 0 <= j < |refs| ==> refs[j].pid in pids
    ensures exists j :: 0 <= j < |refs| && refs[j].pid == pid
  {
    assert pid in Clients(pids) && Pids(refs) <= Clients(pids);
    ClientsAtMost(pids);
    if pid !in Pids(refs) { Fewer(Pids(refs), Clients(pids) - {pid}); }
  }

  /** A client is never refused a live secure id. */
  lemma LiveItemAccepts(d: Device, pid: nat, sid: nat)
    requires Consistent(d) && pid != 0 && Registered(d.pids, pid) && sid != 0 && FindItem(d.items, sid) >= 0
    ensures Accepts(d, pid, sid)
  {
    RoomForClient(d, FindItem(d.items, sid), pid);
  }

  // ---------------------------------------------------------------- the steps to two holders

  /** Thread `t` may call, and its process owns the live item `i` of `sid`, in which thread `u` of
      another process has nothing in flight yet or is under way. */
  ghost predicate Facing(s: State, t: nat, u: nat, sid: nat, i: nat) {
    && MayCall(s, t) && u < |s.threads| && s.threads[u].pid != s.threads[t].pid
    && Registered(s.dev.pids, s.threads[t].pid) && Registered(s.dev.pids, s.threads[u].pid)
    && sid != 0 && FindItem(s.dev.items, sid) == i && s.dev.items[i].owner == s.threads[t].pid
  }

  /** A booking of the live item by the other process waits. */
  lemma OtherBooks(s: CountedState, t: nat, u: nat, sid: nat, i: nat) returns (s1: CountedState)
    requires Facing(s, t, u, sid, i) && MayCall(s, u)
    ensures s1 == Apply(s, Process(u, sid, 0)) && Facing(s1, t, u, sid, i)
    ensures s1.threads[u].pc.Waiting? && s1.threads[u].pc.i == i && s1.threads[u].pc.sid == sid
    ensures s1.dev.items[i].sem == s.dev.items[i].sem
  {
    assert ThreadOk(s.dev, s.open, s.threads[u]);
    LiveItemAccepts(s.dev, s.threads[u].pid, sid);
    var k, j := BookLands(s.dev, s.threads[u].pid, sid, 0);
    s1 := StepCounted(false, s, Process(u, sid, 0));
    BookedStaysFound(s.dev.items, i, BookedItem(s.dev.items[i], j, s.threads[u].pid, sid, 0), sid);
    MayStillCall(s, s1, t, u);
  }

  /** What thread `u` of another process does leaves thread `t` free to call. */
  lemma MayStillCall(s: State, s1: State, t: nat, u: nat)
    requires MayCall(s, t) && u < |s.threads| && s.threads[u].pid != s.threads[t].pid && s1.open == s.open
    requires |s1.threads| == |s.threads| && s1.threads == s.threads[u := s1.threads[u]] && s1.threads[u].pid == s.threads[u].pid
    ensures MayCall(s1, t) && s1.threads[t].pid == s.threads[t].pid
  {
  }

  lemma BookedStaysFound(items: seq<Item>, i: nat, item': Item, sid: nat)
    requires i < |items| && FindItem(items, sid) == i && item'.sid == sid
    ensures FindItem(items[i := item'], sid) == i
  {
    FindItemStable(items, items[i := item'], sid);
  }

  lemma OtherTakesPermit(s: CountedState, t: nat, u: nat, sid: nat, i: nat) returns (s1: CountedState)
    requires Facing(s, t, u, sid, i) && s.threads[u].pc.Waiting? && s.threads[u].pc.i == i && s.threads[u].pc.sid == sid
    requires s.dev.items[i].sem > 0
    ensures Enabled(false, s, TakePermit(u)) && s1 == Apply(s, TakePermit(u)) && Facing(s1, t, u, sid, i)
    ensures s1.threads[u].pc.Permitted? && s1.threads[u].pc.i == i && s1.threads[u].pc.sid == sid
  {
    s1 := StepCounted(false, s, TakePermit(u));
    MayStillCall(s, s1, t, u);
    BookedStaysFound(s.dev.items, i, s.dev.items[i].(sem := s.dev.items[i].sem - 1), sid);
  }

  /** The old owner still gets in at once. */
  lemma OwnerBooks(s: CountedState, t: nat, u: nat, sid: nat, i: nat) returns (s1: CountedState)
    requires Facing(s, t, u, sid, i) && s.threads[u].pc.Permitted? && s.threads[u].pc.i == i && s.threads[u].pc.sid == sid
    ensures s1 == Apply(s, Process(t, sid, 0))
    ensures |s1.threads| == |s.threads| && s1.threads[u] == s.threads[u] && s1.threads[t] == s.threads[t].Hold(sid)
    ensures i < |s1.dev.items|
  {
    assert ThreadOk(s.dev, s.open, s.threads[t]);
    LiveItemAccepts(s.dev, s.threads[t].pid, sid);
    var k, j := BookLands(s.dev, s.threads[t].pid, sid, 0);
    s1 := StepCounted(false, s, Process(t, sid, 0));
  }

  /** Two threads of different processes hold `sid`. */
  ghost predicate BothHold(s: State, t: nat, u: nat, sid: nat) {
    && t < |s.threads| && u < |s.threads| && s.threads[t].pid != s.threads[u].pid
    && s.threads[t].Held(sid) > 0 && s.threads[u].Held(sid) > 0
  }

  /** With the permit taken, the old owner gets in, and then the new one. */
  lemma PermittedBreaks(s: CountedState, t: nat, u: nat, sid: nat, i: nat) returns (steps: seq<Step>, s': State)
    requires Facing(s, t, u, sid, i) && s.threads[u].pc.Permitted? && s.threads[u].pc.i == i && s.threads[u].pc.sid == sid
    ensures Run(false, s, steps) == Some(s') && BothHold(s', t, u, sid)
  {
    var s1 := OwnerBooks(s, t, u, sid, i);
    s' := AfterSetOwner(s1, u);
    RunOne(false, s1, SetOwner(u), [], s');
    RunOne(false, s, Process(t, sid, 0), [SetOwner(u)], s');
    steps := [Process(t, sid, 0)] + [SetOwner(u)];
  }

  lemma WaitingBreaks(s: CountedState, t: nat, u: nat, sid: nat, i: nat) returns (steps: seq<Step>, s': State)
    requires Facing(s, t, u, sid, i) && s.threads[u].pc.Waiting? && s.threads[u].pc.i == i && s.threads[u].pc.sid == sid
    requires s.dev.items[i].sem > 0
    ensures Run(false, s, steps) == Some(s') && BothHold(s', t, u, sid)
  {
    var s1 := OtherTakesPermit(s, t, u, sid, i);
    steps, s' := PermittedBreaks(s1, t, u, sid, i);
    RunOne(false, s, TakePermit(u), steps, s');
    steps := [TakePermit(u)] + steps;
  }

  /** With a permit in the semaphore of an item that is owned, two processes come to hold. */
  lemma SecondPermitBreaks(s: CountedState, t: nat, u: nat, sid: nat, i: nat) returns (steps: seq<Step>, s': State)
    requires Facing(s, t, u, sid, i) && MayCall(s, u) && s.dev.items[i].sem > 0
    ensures Run(false, s, steps) == Some(s') && BothHold(s', t, u, sid)
  {
    var s1 := OtherBooks(s, t, u, sid, i);
    steps, s' := WaitingBreaks(s1, t, u, sid, i);
    RunOne(false, s, Process(u, sid, 0), steps, s');
    steps := [Process(u, sid, 0)] + steps;
  }

  // ---------------------------------------------------------------- every disorderly release

  /** What is held can be released: it succeeds on the item that the process owns. */
  lemma HeldReleases(s: ExclusiveState, pid: nat, sid: nat, holder: nat) returns (i: nat, j: nat)
    requires sid != 0 && Gives(s.threads, pid, sid, holder)
    ensures pid != 0 && Registered(s.dev.pids, pid) && Indexed(s.dev, i, j) && FindItem(s.dev.items, sid) == i
    ensures Release(s.dev, pid, sid) == (SetItem(s.dev, i, Unlock(s.dev.items[i], j)), Released(i, j))
    ensures s.dev.items[i].sid == sid && s.dev.items[i].owner == s.dev.items[i].refs[j].pid == pid
  {
    assert pid != 0 by { assert ThreadOk(s.dev, s.open, s.threads[holder]); }
    CallsDominate(s.threads, holder, pid, sid);
    assert Count(s.dev.items, sid, pid) == Calls(s.threads, pid, sid);
    LocateAnswersCount(s.dev, pid, sid);
    i, j := Locate(s.dev.items, pid, sid).value.0, Locate(s.dev.items, pid, sid).value.1;
    assert OwnerOf(s.dev.items, sid) == pid by { assert HoldOk(s.dev.items, s.threads[holder]); }
    SlotCounts(s, i, j);
    assert Registered(s.dev.pids, s.dev.items[i].refs[j].pid);
  }

  /** After a release with a call of the process in flight the item is still owned, and has a permit. */
  lemma DisorderlyRelease(s: ExclusiveState, t: nat, u: nat, sid: nat, holder: nat) returns (i: nat, s1: CountedState)
    requires MayCall(s, t) && sid != 0 && Gives(s.threads, s.threads[t].pid, sid, holder)
    requires !NoneCalling(s.threads, s.threads[t].pid, sid)
    requires MayCall(s, u) && s.threads[u].pid != s.threads[t].pid && Registered(s.dev.pids, s.threads[u].pid)
    ensures s1 == AfterUnlocking(s, s.threads[t].pid, sid, holder)
    ensures Facing(s1, t, u, sid, i) && MayCall(s1, u) && s1.dev.items[i].sem > 0
  {
    var pid := s.threads[t].pid;
    var j;
    i, j := HeldReleases(s, pid, sid, holder);
    s1 := StepCounted(false, s, Unlocking(t, sid, holder));
    assert s.dev.items[i].sem >= 0 by { assert PermitOk(s.dev.items[i], Permits(s.threads, i)); }
    ReleasedSlot(s, i, j, holder);
    WaitsZeroIff(s.threads, pid, sid);
    StillLive(s.dev.items[i], j);
    BookedStaysFound(s.dev.items, i, Unlock(s.dev.items[i], j), sid);
    SameThreads(s, s1, holder, sid, t);
    SameThreads(s, s1, holder, sid, u);
  }

  lemma StillLive(item: Item, j: nat)
    requires ItemOk(item) && j < |item.refs| && item.refs[j].refCount >= item.refs[j].down >= 2
    ensures var item' := Unlock(item, j); item'.sid == item.sid && item'.owner == item.owner && item'.sem == item.sem + 1
  {
  }

  lemma SameThreads(s: State, s1: State, holder: nat, sid: nat, k: nat)
    requires MayCall(s, k) && s1.threads == GiveBack(s.threads, holder, sid) && s1.open == s.open
    ensures MayCall(s1, k) && s1.threads[k].pid == s.threads[k].pid
  {
    assert forall l :: 0 <= l < |s.threads| ==> s1.threads[l].pid == s.threads[l].pid && s1.threads[l].pc == s.threads[l].pc;
  }

  /** A call in flight is never on secure id 0. */
  lemma CallsName(s: CountedState, pid: nat, sid: nat)
    requires !NoneCalling(s.threads, pid, sid)
    ensures sid != 0
  {
    var k :| 0 <= k < |s.threads| && s.threads[k].pid == pid && s.threads[k].pc.InCall() && s.threads[k].pc.sid == sid;
    assert ThreadOk(s.dev, s.open, s.threads[k]);
  }

  /** The run ends with two threads of different processes holding `sid`. */
  ghost predicate EndsWithBoth(s: State, steps: seq<Step>, t: nat, u: nat, sid: nat) {
    var r := Run(false, s, steps);
    r.Some? && BothHold(r.value, t, u, sid)
  }

  /** Every release that orderly runs leave out breaks exclusion, as soon as a thread of another client
      may call: from any state of an orderly run some steps that begin with it end with two holders. */
  lemma DisorderBreaksExclusion(maxItems: nat, maxPids: nat, s: State, t: nat, sid: nat, holder: nat, u: nat)
    requires Reachable(true, maxItems, maxPids, s)
    requires Enabled(false, s, Unlocking(t, sid, holder)) && !Enabled(true, s, Unlocking(t, sid, holder))
    requires MayCall(s, u) && s.threads[u].pid != s.threads[t].pid && Registered(s.dev.pids, s.threads[u].pid)
    ensures exists rest :: EndsWithBoth(s, [Unlocking(t, sid, holder)] + rest, t, u, sid)
  {
    ReachableExclusive(maxItems, maxPids, s);
    CallsName(s, s.threads[t].pid, sid);
    var i, s1 := DisorderlyRelease(s, t, u, sid, holder);
    var rest, s' := SecondPermitBreaks(s1, t, u, sid, i);
    RunOne(false, s, Unlocking(t, sid, holder), rest, s');
    assert EndsWithBoth(s, [Unlocking(t, sid, holder)] + rest, t, u, sid);
  }

  /** No thread of the other client need exist yet: it is enough that the client has the device open, and
      is neither opening nor closing it. */
  lemma AnyClientBreaksExclusion(maxItems: nat, maxPids: nat, s: State, t: nat, sid: nat, holder: nat, q: nat)
    requires Reachable(true, maxItems, maxPids, s)
    requires Enabled(false, s, Unlocking(t, sid, holder)) && !Enabled(true, s, Unlocking(t, sid, holder))
    requires q != 0 && q != s.threads[t].pid && q in s.open && Registered(s.dev.pids, q)
    requires forall k :: 0 <= k < |s.threads| && s.threads[k].pid == q ==> !s.threads[k].pc.InSession()
    ensures exists rest :: EndsWithBoth(s, [Spawn(q)] + ([Unlocking(t, sid, holder)] + rest), t, |s.threads|, sid)
  {
    ReachableCounted(true, maxItems, maxPids, s);
    var n := AfterSpawn(s, q);
    ReachableStep(true, maxItems, maxPids, s, Spawn(q));
    SpawnedSame(s, q, t, sid, holder);
    DisorderBreaksExclusion(maxItems, maxPids, n, t, sid, holder, |s.threads|);
    var rest :| EndsWithBoth(n, [Unlocking(t, sid, holder)] + rest, t, |s.threads|, sid);
    var steps := [Unlocking(t, sid, holder)] + rest;
    RunOne(false, s, Spawn(q), steps, Run(false, n, steps).value);
    assert EndsWithBoth(s, [Spawn(q)] + steps, t, |s.threads|, sid);
  }

  lemma SpawnedSame(s: State, q: nat, t: nat, sid: nat, holder: nat)
    requires Enabled(false, s, Unlocking(t, sid, holder)) && !Enabled(true, s, Unlocking(t, sid, holder)) && q != s.threads[t].pid
    ensures Enabled(false, AfterSpawn(s, q), Unlocking(t, sid, holder))
    ensures !Enabled(true, AfterSpawn(s, q), Unlocking(t, sid, holder))
  {
    var n, pid := AfterSpawn(s, q), s.threads[t].pid;
    var k :| 0 <= k < |s.threads| && s.threads[k].pid == pid && s.threads[k].pc.InCall() && s.threads[k].pc.sid == sid;
    assert n.threads[k] == s.threads[k];
  }
}
