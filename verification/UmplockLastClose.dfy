/** The zap on the last close: the tables are already empty when the session count reaches zero, and
    no later run can tell whether they were zapped. */
module UmplockLastClose {
  import opened Options
  import opened UmplockTables
  import opened UmplockAccounting
  import opened UmplockProtocol
  import opened UmplockCounting
  import opened UmplockExclusion
  import opened UmplockTheorems

  /** When the last session ends nothing is live and no client is left, before anything is zapped;
      on orderly runs nobody is left as an owner either. */
  lemma LastCloseLeavesNothing(orderly: bool, maxItems: nat, maxPids: nat, s: State, t: nat)
    requires Reachable(orderly, maxItems, maxPids, s) && Enabled(orderly, s, EndSession(t)) && s.dev.sessions == 1
    ensures var d := SessionEnded(s, t).dev;
            && d == s.dev.(sessions := 0)
            && (forall p :: 0 <= p < |d.pids| ==> d.pids[p] == 0)
            && (forall i :: 0 <= i < |d.items| ==> d.items[i].sid == 0 && d.items[i].idRef == 0)
            && (forall i: nat, j: nat :: Indexed(d, i, j) ==> d.items[i].refs[j].pid == 0 && d.items[i].refs[j].refCount == 0)
            && (orderly ==> forall i :: 0 <= i < |d.items| ==> d.items[i].owner == 0)
  {
    ReachableCounted(orderly, maxItems, maxPids, s);
    var n := SessionEndedCounted(s, t);
    assert n.open == {};
    NothingLeft(n);
    forall i: nat, j: nat | Indexed(n.dev, i, j) ensures n.dev.items[i].refs[j].refCount == 0 {
      assert ItemOk(n.dev.items[i]);
    }
    if orderly {
      ReachableExclusive(maxItems, maxPids, s);
      forall i | 0 <= i < |n.dev.items| ensures n.dev.items[i].owner == 0 { NobodyLeftOwns(s, t, i); }
    }
  }

  // ---------------------------------------------------------------- tables that are alike

  /** Two tables that differ only in fields that are written again before they are read. */
  ghost predicate Alike(a: Device, b: Device) {
    && a.pids == b.pids && a.sessions == b.sessions && |a.items| == |b.items|
    && forall i :: 0 <= i < |a.items| ==> AlikeItem(a.items[i], b.items[i])
  }

  ghost predicate AlikeItem(x: Item, y: Item) {
    && x.sid == y.sid && x.idRef == y.idRef && x.owner == y.owner && |x.refs| == |y.refs|
    && (x.sid != 0 ==> x.usage == y.usage && x.sem == y.sem)
    && forall j :: 0 <= j < |x.refs| ==> AlikeRef(x.refs[j], y.refs[j])
  }

  ghost predicate AlikeRef(x: Ref, y: Ref) {
    x.pid == y.pid && x.refCount == y.refCount && (x.pid != 0 ==> x.down == y.down)
  }

  /** The same threads, in the same places, over alike tables. */
  ghost predicate AlikeStates(a: State, b: State) {
    a.threads == b.threads && a.open == b.open && Alike(a.dev, b.dev)
  }

  lemma AlikeSearches(a: Device, b: Device, pid: nat, sid: nat)
    requires Alike(a, b)
    ensures FindItem(a.items, sid) == FindItem(b.items, sid)
    ensures forall i :: 0 <= i < |a.items| ==> FindRef(a.items[i].refs, pid) == FindRef(b.items[i].refs, pid)
    ensures Locate(a.items, pid, sid) == Locate(b.items, pid, sid)
  {
    FindItemStable(a.items, b.items, sid);
    forall i | 0 <= i < |a.items| ensures FindRef(a.items[i].refs, pid) == FindRef(b.items[i].refs, pid) {
      assert AlikeItem(a.items[i], b.items[i]);
      FindRefStable(a.items[i].refs, b.items[i].refs, pid);
    }
  }

  lemma FindRefStable(a: seq<Ref>, b: seq<Ref>, pid: nat)
    requires |a| == |b| && forall k :: 0 <= k < |a| ==> AlikeRef(a[k], b[k])
    ensures FindRef(a, pid) == FindRef(b, pid)
  {
  }

  /** RELEASE answers the same on alike tables and leaves them alike. */
  lemma AlikeRelease(a: Device, b: Device, pid: nat, sid: nat)
    requires Alike(a, b) && pid != 0
    ensures Release(a, pid, sid).1 == Release(b, pid, sid).1
    ensures Alike(Release(a, pid, sid).0, Release(b, pid, sid).0)
  {
    AlikeSearches(a, b, pid, sid);
    var r := Release(a, pid, sid).1;
    var here := Locate(a.items, pid, sid);
    if here.Some? {
      var (i, j) := here.value;
      assert AlikeItem(a.items[i], b.items[i]) && AlikeRef(a.items[i].refs[j], b.items[i].refs[j]);
      if r.Released? {
        assert AlikeItem(Unlock(a.items[i], j), Unlock(b.items[i], j));
      }
    }
  }

  lemma AlikeReplaced(a: Device, b: Device, i: nat, x: Item, y: Item)
    requires Alike(a, b) && i < |a.items| && AlikeItem(x, y)
    ensures Alike(a.(items := a.items[i := x]), b.(items := b.items[i := y]))
  {
  }

  /** PROCESS answers the same on alike tables and leaves them alike. */
  lemma AlikeBook(a: Device, b: Device, pid: nat, sid: nat, usage: nat)
    requires Alike(a, b) && pid != 0 && Consistent(a) && Consistent(b)
    ensures Book(a, pid, sid, usage).1 == Book(b, pid, sid, usage).1
    ensures Alike(Book(a, pid, sid, usage).0, Book(b, pid, sid, usage).0)
  {
    assert Landing(a.items, pid, sid) == Landing(b.items, pid, sid) by {
      AlikeSearches(a, b, pid, sid);
      AlikeSearches(a, b, 0, 0);
    }
    if Accepts(a, pid, sid) {
      var i, j := BookLands(a, pid, sid, usage);
      var k, l := BookLands(b, pid, sid, usage);
      AlikeBooked(a.items[i], b.items[i], j, pid, sid, usage);
      AlikeReplaced(a, b, i, BookedItem(a.items[i], j, pid, sid, usage), BookedItem(b.items[i], j, pid, sid, usage));
      assert a.items[i].owner == b.items[i].owner by { assert AlikeItem(a.items[i], b.items[i]); }
    } else {
      BookRefuses(a, pid, sid, usage);
      BookRefuses(b, pid, sid, usage);
    }
  }

  lemma AlikeBooked(x: Item, y: Item, j: nat, pid: nat, sid: nat, usage: nat)
    requires AlikeItem(x, y) && j < |x.refs| && pid != 0 && sid != 0
    ensures AlikeItem(BookedItem(x, j, pid, sid, usage), BookedItem(y, j, pid, sid, usage))
  {
    assert AlikeRef(x.refs[j], y.refs[j]);
  }

  // ---------------------------------------------------------------- every step, and every run

  /** What the walk asks at item `k` is answered the same. */
  ghost predicate SameAt(a: seq<Item>, b: seq<Item>, pid: nat, k: nat)
    requires k < |a| == |b|
  {
    && a[k].sid == b[k].sid && Locate(a, pid, a[k].sid) == Locate(b, pid, b[k].sid)
    && match Locate(a, pid, a[k].sid)
       case None => true
       case Some((i, j)) => a[i].refs[j].refCount == b[i].refs[j].refCount
  }

  lemma {:induction false} AlikeNextHeld(a: seq<Item>, b: seq<Item>, pid: nat, from: nat)
    requires |a| == |b| && forall k :: 0 <= k < |a| ==> SameAt(a, b, pid, k)
    ensures NextHeld(a, pid, from) == NextHeld(b, pid, from)
    decreases |a| - from
  {
    if from < |a| {
      assert SameAt(a, b, pid, from);
      match Locate(a, pid, a[from].sid)
      case None => AlikeNextHeld(a, b, pid, from + 1);
      case Some((i, j)) =>
        if a[i].refs[j].refCount == 0 && i >= from { AlikeNextHeld(a, b, pid, i + 1); }
    }
  }

  lemma AlikeWalk(a: State, b: State, t: nat, p: nat, from: nat)
    requires AlikeStates(a, b) && t < |a.threads|
    ensures AlikeStates(Walk(a, t, p, from), Walk(b, t, p, from))
  {
    var pid, x, y := a.threads[t].pid, a.dev.items, b.dev.items;
    forall k | 0 <= k < |x| ensures SameAt(x, y, pid, k) {
      assert AlikeItem(x[k], y[k]);
      AlikeSearches(a.dev, b.dev, pid, x[k].sid);
      var at := Locate(x, pid, x[k].sid);
      if at.Some? {
        assert AlikeItem(x[at.value.0], y[at.value.0]);
        assert AlikeRef(x[at.value.0].refs[at.value.1], y[at.value.0].refs[at.value.1]);
      }
    }
    AlikeNextHeld(x, y, pid, from);
  }

  /** A call in flight has its slot in a live item, so semaphore and down count are the same. */
  lemma AlikeCall(a: CountedState, b: State, t: nat)
    requires AlikeStates(a, b) && t < |a.threads| && a.threads[t].pc.InCall()
    ensures var pc := a.threads[t].pc;
            && Indexed(a.dev, pc.i, pc.j) && Indexed(b.dev, pc.i, pc.j)
            && AlikeItem(a.dev.items[pc.i], b.dev.items[pc.i]) && a.dev.items[pc.i].sem == b.dev.items[pc.i].sem
            && a.dev.items[pc.i].refs[pc.j] == b.dev.items[pc.i].refs[pc.j]
  {
    var pc := a.threads[t].pc;
    assert ThreadOk(a.dev, a.open, a.threads[t]);
    assert AlikeItem(a.dev.items[pc.i], b.dev.items[pc.i]);
    assert AlikeRef(a.dev.items[pc.i].refs[pc.j], b.dev.items[pc.i].refs[pc.j]);
  }

  /** The steps of a call in flight. */
  lemma AlikeCallStep(orderly: bool, a: CountedState, b: State, step: Step)
    requires AlikeStates(a, b) && Shaped(b.dev) && Enabled(orderly, a, step)
    requires step.TakePermit? || step.SetOwner? || step.GiveUp?
    ensures Enabled(orderly, b, step) && AlikeStates(Apply(a, step), Apply(b, step))
  {
    AlikeCall(a, b, step.t);
    var pc := a.threads[step.t].pc;
    match step
    case TakePermit(t) => AlikeTakePermit(a, b, t, pc.i);
    case SetOwner(t) => AlikeSetOwner(a, b, t, pc.i);
    case GiveUp(t) => AlikeGiveUp(a, b, t, pc.i, pc.j);
  }

  lemma AlikeTakePermit(a: State, b: State, t: nat, i: nat)
    requires AlikeStates(a, b) && t < |a.threads| && a.threads[t].pc.Waiting? && a.threads[t].pc.i == i < |a.dev.items|
    requires a.dev.items[i].sem == b.dev.items[i].sem
    ensures AlikeStates(AfterTakePermit(a, t), AfterTakePermit(b, t))
  {
    var x, y := a.dev.items[i], b.dev.items[i];
    AlikeReplaced(a.dev, b.dev, i, x.(sem := x.sem - 1), y.(sem := y.sem - 1));
  }

  lemma AlikeSetOwner(a: State, b: State, t: nat, i: nat)
    requires AlikeStates(a, b) && t < |a.threads| && a.threads[t].pc.Permitted? && a.threads[t].pc.i == i < |a.dev.items|
    requires a.dev.items[i].sem == b.dev.items[i].sem
    ensures AlikeStates(AfterSetOwner(a, t), AfterSetOwner(b, t))
  {
    var pid := a.threads[t].pid;
    AlikeReplaced(a.dev, b.dev, i, a.dev.items[i].(owner := pid), b.dev.items[i].(owner := pid));
  }

  lemma AlikeGiveUp(a: State, b: State, t: nat, i: nat, j: nat)
    requires AlikeStates(a, b) && t < |a.threads| && a.threads[t].pc.Interrupted?
    requires a.threads[t].pc.i == i && a.threads[t].pc.j == j && Indexed(a.dev, i, j) && Indexed(b.dev, i, j)
    requires a.dev.items[i].sem == b.dev.items[i].sem && a.dev.items[i].refs[j] == b.dev.items[i].refs[j]
    ensures AlikeStates(AfterGiveUp(a, t), AfterGiveUp(b, t))
  {
    AlikeRestored(a.dev.items[i], b.dev.items[i], j);
    AlikeReplaced(a.dev, b.dev, i, Restore(a.dev.items[i], j), Restore(b.dev.items[i], j));
  }

  lemma AlikeRestored(x: Item, y: Item, j: nat)
    requires AlikeItem(x, y) && x.sem == y.sem && j < |x.refs| && x.refs[j] == y.refs[j]
    ensures AlikeItem(Restore(x, j), Restore(y, j))
  {
  }

  lemma AlikeUnlocking(a: State, b: State, pid: nat, sid: nat, holder: nat)
    requires AlikeStates(a, b) && pid != 0
    ensures AlikeStates(AfterUnlocking(a, pid, sid, holder), AfterUnlocking(b, pid, sid, holder))
  {
    AlikeRelease(a.dev, b.dev, pid, sid);
  }

  lemma AlikeRecheck(a: State, b: State, t: nat)
    requires AlikeStates(a, b) && t < |a.threads| && a.threads[t].pc.Rechecking?
    ensures AlikeStates(AfterRecheck(a, t), AfterRecheck(b, t))
  {
    var pc := a.threads[t].pc;
    AlikeSlot(a.dev, b.dev, pc.i, pc.j);
    AlikeMove(a, b, t, Draining(pc.p, pc.i, pc.j, pc.sid));
    if !(Indexed(a.dev, pc.i, pc.j) && a.dev.items[pc.i].refs[pc.j].refCount != 0) {
      var a', b' := Walk(a, t, pc.p, pc.i + 1), Walk(b, t, pc.p, pc.i + 1);
      assert AfterRecheck(a, t) == a' && AfterRecheck(b, t) == b';
      AlikeWalk(a, b, t, pc.p, pc.i + 1);
    }
  }

  lemma AlikeMove(a: State, b: State, t: nat, pc: Pc)
    requires AlikeStates(a, b) && t < |a.threads|
    ensures AlikeStates(a.(threads := Goto(a.threads, t, pc)), b.(threads := Goto(b.threads, t, pc)))
  {
  }

  lemma AlikeSlot(a: Device, b: Device, i: nat, j: nat)
    requires Alike(a, b)
    ensures Indexed(a, i, j) <==> Indexed(b, i, j)
    ensures Indexed(a, i, j) ==> a.items[i].refs[j].refCount == b.items[i].refs[j].refCount
  {
    if i < |a.items| { assert AlikeItem(a.items[i], b.items[i]); }
    if Indexed(a, i, j) { assert AlikeRef(a.items[i].refs[j], b.items[i].refs[j]); }
  }

  lemma AlikeEndSession(a: State, b: State, t: nat)
    requires AlikeStates(a, b) && t < |a.threads|
    ensures AlikeStates(AfterEndSession(a, t), AfterEndSession(b, t))
  {
    var d, e := SessionEnded(a, t).dev, SessionEnded(b, t).dev;
    if d.sessions == 0 {
      forall i | 0 <= i < |d.items| ensures AlikeItem(Zap(d).items[i], Zap(e).items[i]) {
        assert AlikeItem(a.dev.items[i], b.dev.items[i]);
      }
    }
  }

  /** The steps that open, close, and start calls. */
  lemma AlikeSessionStep(orderly: bool, a: CountedState, b: CountedState, step: Step)
    requires AlikeStates(a, b) && Enabled(orderly, a, step)
    requires !step.TakePermit? && !step.SetOwner? && !step.GiveUp?
    ensures Enabled(orderly, b, step) && AlikeStates(Apply(a, step), Apply(b, step))
  {
    if !step.Spawn? { assert ThreadOk(a.dev, a.open, a.threads[step.t]); }
    match step
    case Spawn(_) =>
    case Open(_) =>
    case Enlist(_) =>
    case Signal(_) =>
    case Process(t, sid, usage) => AlikeBook(a.dev, b.dev, a.threads[t].pid, sid, usage);
    case Unlocking(t, sid, holder) => AlikeUnlocking(a, b, a.threads[t].pid, sid, holder);
    case Close(t) =>
      var p := FindClient(a.dev.pids, a.threads[t].pid);
      if p >= 0 { AlikeWalk(a, b, t, p, 0); }
    case Drain(t, holder) => AlikeUnlocking(a, b, a.threads[t].pid, a.threads[t].pc.sid, holder);
    case Recheck(t) => AlikeRecheck(a, b, t);
    case EndSession(t) => AlikeEndSession(a, b, t);
  }

  /** No step can tell alike tables apart. */
  lemma AlikeStep(orderly: bool, a: CountedState, b: CountedState, step: Step)
    requires AlikeStates(a, b) && Enabled(orderly, a, step)
    ensures Enabled(orderly, b, step) && AlikeStates(Apply(a, step), Apply(b, step))
  {
    if step.TakePermit? || step.SetOwner? || step.GiveUp? {
      AlikeCallStep(orderly, a, b, step);
    } else {
      AlikeSessionStep(orderly, a, b, step);
    }
  }

  /** No run can: the same steps are possible, and lead to the same threads over alike tables. */
  lemma {:induction false} AlikeRuns(orderly: bool, a: CountedState, b: CountedState, steps: seq<Step>)
    requires AlikeStates(a, b)
    ensures match Run(orderly, a, steps)
            case None => Run(orderly, b, steps) == None
            case Some(a') => Run(orderly, b, steps).Some? && AlikeStates(a', Run(orderly, b, steps).value)
    decreases |steps|
  {
    if steps != [] {
      if Enabled(orderly, a, steps[0]) {
        AlikeStep(orderly, a, b, steps[0]);
        var a' := StepCounted(orderly, a, steps[0]);
        var b' := StepCounted(orderly, b, steps[0]);
        AlikeRuns(orderly, a', b', steps[1..]);
      } else if Enabled(orderly, b, steps[0]) {
        AlikeStep(orderly, b, a, steps[0]);
      }
    }
  }

  /** The zap of the last close changes nothing observable: the tables just before it are alike the
      zapped ones, and every run goes on the same from both. */
  lemma ZapIsInvisible(orderly: bool, maxItems: nat, maxPids: nat, s: State, t: nat, steps: seq<Step>)
    requires Reachable(orderly, maxItems, maxPids, s) && Enabled(orderly, s, EndSession(t)) && s.dev.sessions == 1
    ensures var unzapped, zapped := SessionEnded(s, t), AfterEndSession(s, t);
            && zapped == unzapped.(dev := Zap(unzapped.dev)) && AlikeStates(unzapped, zapped)
            && match Run(orderly, unzapped, steps)
               case None => Run(orderly, zapped, steps) == None
               case Some(u) => Run(orderly, zapped, steps).Some? && AlikeStates(u, Run(orderly, zapped, steps).value)
  {
    ReachableCounted(orderly, maxItems, maxPids, s);
    var unzapped := SessionEndedCounted(s, t);
    var zapped := EndSessionCounted(s, t);
    ZappedAlike(orderly, maxItems, maxPids, s, t);
    AlikeRuns(orderly, unzapped, zapped, steps);
  }

  lemma ZappedAlike(orderly: bool, maxItems: nat, maxPids: nat, s: State, t: nat)
    requires Reachable(orderly, maxItems, maxPids, s) && Enabled(orderly, s, EndSession(t)) && s.dev.sessions == 1
    ensures AlikeStates(SessionEnded(s, t), AfterEndSession(s, t))
  {
    LastCloseLeavesNothing(orderly, maxItems, maxPids, s, t);
    var d := SessionEnded(s, t).dev;
    forall i | 0 <= i < |d.items| ensures AlikeItem(d.items[i], Zap(d).items[i]) {
      forall j: nat | j < |d.items[i].refs| ensures AlikeRef(d.items[i].refs[j], Zap(d).items[i].refs[j]) {
        assert Indexed(d, i, j);
      }
    }
  }
}
