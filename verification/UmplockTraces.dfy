/** Runs that show which assumptions the lock protocol lives on: when a process releases an id while
    another of its threads waits for it, the lock does not exclude and leaves a stale owner behind;
    and even without that a process that closes can spin on a slot that somebody else has taken over. */
module UmplockTraces {
  import opened Options
  import opened Sums
  import opened UmplockTables
  import opened UmplockAccounting
  import opened UmplockProtocol
  import opened UmplockTheorems
  import opened UmplockDeletion
  import opened UmplockClosing

  /** One more step of a reachable state. */
  lemma Go(orderly: bool, s: State, step: Step, s': State)
    requires Reachable(orderly, 1, 2, s) && Shaped(s.dev) && Enabled(orderly, s, step)
    requires Apply(s, step) == s'
    ensures Reachable(orderly, 1, 2, s')
  {
    ReachableStep(orderly, 1, 2, s, step);
  }

  /** Two processes. */
  ghost predicate Two(p: nat, q: nat) {
    p != 0 && q != 0 && p != q
  }

  /** One item of two slots, two clients, and two threads of process `p` with one of process `q`. */
  function One(p: nat, q: nat, item: Item, a: Thread, b: Thread, c: Thread): State {
    State(Device([item], [p, q], 2), [a, b, c], {p, q})
  }

  function Slots(sid: nat, owner: nat, x: Ref, y: Ref, sem: int): Item {
    Item(sid, x.refCount + y.refCount, owner, 0, [x, y], sem)
  }

  lemma Searches(p: nat, q: nat, x: Ref, y: Ref, sid: nat, owner: nat, sem: int, wanted: nat, pid: nat)
    ensures FindItem([Slots(sid, owner, x, y, sem)], wanted) == if sid == wanted then 0 else -1
    ensures FindRef([x, y], pid) == if x.pid == pid then 0 else if y.pid == pid then 1 else -1
    ensures FindPid([p, q], pid) == if pid == p then 0 else if pid == q then 1 else -1
    ensures Locate([Slots(sid, owner, x, y, sem)], pid, wanted) ==
            if sid != wanted then None else if x.pid == pid then Some((0, 0)) else if y.pid == pid then Some((0, 1)) else None
  {
    assert [Slots(sid, owner, x, y, sem)][0].sid == sid;
    assert [x, y][0] == x && [x, y][1] == y;
    assert [p, q][0] == p && [p, q][1] == q;
  }

  /** Slot `j` of the only item is the one that a booking of `wanted` by `pid` lands in. */
  ghost predicate SlotFor(x: Ref, y: Ref, sid: nat, pid: nat, wanted: nat, j: nat) {
    && (x.pid == 0 ==> x.refCount == 0) && (y.pid == 0 ==> y.refCount == 0)
    && if sid == 0 then j == 0 && x.pid == 0 && y == NoRef
       else sid == wanted && if x.pid == pid then j == 0 else j == 1 && x.pid != 0 && (y.pid == pid || y.pid == 0)
  }

  lemma LandsInOne(p: nat, q: nat, item: Item, x: Ref, y: Ref, sid: nat, owner: nat, sem: int, pid: nat, wanted: nat, j: nat)
    requires Two(p, q) && (pid == p || pid == q) && wanted != 0 && SlotFor(x, y, sid, pid, wanted, j)
    requires item == Slots(sid, owner, x, y, sem)
    ensures LandsAt(Device([item], [p, q], 2), pid, wanted, 0, 0, j)
  {
    var d := Device([item], [p, q], 2);
    Searches(p, q, x, y, sid, owner, sem, wanted, pid);
    Searches(p, q, x, y, sid, owner, sem, 0, 0);
    if sid == 0 {
      SumZero(RefCounts(item.refs));
      BookNewItem(d, pid, wanted, 0);
    } else if x.pid != pid && y.pid != pid {
      BookNewSlot(d, pid, wanted, 0);
    }
  }

  /** A booking of the only item, in slot `j`. */
  lemma Books(p: nat, q: nat, x: Ref, y: Ref, sid: nat, owner: nat, sem: int, pid: nat, wanted: nat, j: nat, x': Ref, y': Ref, sem': int)
    requires Two(p, q) && (pid == p || pid == q) && wanted != 0 && SlotFor(x, y, sid, pid, wanted, j)
    requires sem' == if sid == 0 then 1 else sem
    requires var w := if owner == pid then 0 else 1;
             var r := if j == 0 then x else y;
             var r' := if r.pid == pid then Ref(r.refCount + 1, pid, r.down + w) else Ref(1, pid, w);
             x' == (if j == 0 then r' else x) && y' == (if j == 0 then y else r')
    ensures Book(Device([Slots(sid, owner, x, y, sem)], [p, q], 2), pid, wanted, 0) ==
            (Device([Slots(wanted, owner, x', y', sem')], [p, q], 2),
             if owner == pid then AlreadyOwner(0, j) else MustWait(0, j))
  {
    var item := Slots(sid, owner, x, y, sem);
    var d := Device([item], [p, q], 2);
    LandsInOne(p, q, item, x, y, sid, owner, sem, pid, wanted, j);
    var item' := BookedItem(item, j, pid, wanted, 0);
    assert item'.refs == [x', y'];
    assert d.items[0 := item'] == [item'];
  }

  /** A release of slot 0 by its owner. */
  lemma Unlocks(p: nat, q: nat, x: Ref, y: Ref, sid: nat, sem: int)
    requires Two(p, q) && x.pid == p && x.refCount > 0 && sid != 0
    ensures Release(Device([Slots(sid, p, x, y, sem)], [p, q], 2), p, sid) ==
            (Device([Unlock(Slots(sid, p, x, y, sem), 0)], [p, q], 2), Released(0, 0))
    ensures Unlock(Slots(sid, p, x, y, sem), 0).refs == [Unlock(Slots(sid, p, x, y, sem), 0).refs[0], y]
  {
    Searches(p, q, x, y, sid, p, sem, sid, p);
    var item := Slots(sid, p, x, y, sem);
    assert [item][0 := Unlock(item, 0)] == [Unlock(item, 0)];
    assert [x, y][0 := Unlock(item, 0).refs[0]] == [Unlock(item, 0).refs[0], y];
  }

  /** Updates of the small lists, and of what a thread holds of `sid`. */
  lemma Lists(a: Thread, b: Thread, c: Thread, d: Thread, x: Item, y: Item, sid: nat)
    ensures [a, b, c][0 := d] == [d, b, c] && [a, b, c][1 := d] == [a, d, c] && [a, b, c][2 := d] == [a, b, d]
    ensures [x][0 := y] == [y]
    ensures forall v: nat, w: nat :: map[sid := v][sid := w] == map[sid := w]
  {
  }

  lemma ThreeThreads(orderly: bool, p: nat, q: nat)
    requires Two(p, q)
    ensures Reachable(orderly, 1, 2, Init(1, 2).(threads := [Thread(p, Idle, map[]), Thread(p, Idle, map[]), Thread(q, Idle, map[])]))
  {
    var t1, t2 := Thread(p, Idle, map[]), Thread(q, Idle, map[]);
    var s0 := Init(1, 2);
    assert Run(orderly, s0, []) == Some(s0);
    var s1 := s0.(threads := [t1]);
    assert Reachable(orderly, 1, 2, s1) by { Go(orderly, s0, Spawn(p), s1); }
    var s2 := s0.(threads := [t1, t1]);
    assert Reachable(orderly, 1, 2, s2) by { Go(orderly, s1, Spawn(p), s2); }
    Go(orderly, s2, Spawn(q), s0.(threads := [t1, t1, t2]));
  }

  lemma OneClient(orderly: bool, p: nat, q: nat, items: seq<Item>)
    requires Two(p, q) && items == Init(1, 2).dev.items
    ensures Reachable(orderly, 1, 2, State(Device(items, [p, 0], 1), [Thread(p, Idle, map[]), Thread(p, Idle, map[]), Thread(q, Idle, map[])], {p}))
  {
    var t1, t2 := Thread(p, Idle, map[]), Thread(q, Idle, map[]);
    ThreeThreads(orderly, p, q);
    var s3 := Init(1, 2).(threads := [t1, t1, t2]);
    var s4 := State(s3.dev.(sessions := 1), [Thread(p, Opening, map[]), t1, t2], {p});
    assert Reachable(orderly, 1, 2, s4) by { Go(orderly, s3, Open(0), s4); }
    assert s4.dev.pids[0 := p] == [p, 0];
    assert FindPid(s4.dev.pids, p) < 0 && FindPid(s4.dev.pids, 0) == 0;
    Go(orderly, s4, Enlist(0), State(Device(items, [p, 0], 1), [t1, t1, t2], {p}));
  }

  lemma TwoClients(orderly: bool, p: nat, q: nat)
    requires Two(p, q)
    ensures Reachable(orderly, 1, 2, One(p, q, Slots(0, 0, NoRef, NoRef, 0), Thread(p, Idle, map[]), Thread(p, Idle, map[]), Thread(q, Idle, map[])))
  {
    var t1, t2, items := Thread(p, Idle, map[]), Thread(q, Idle, map[]), Init(1, 2).dev.items;
    OneClient(orderly, p, q, items);
    var s5 := State(Device(items, [p, 0], 1), [t1, t1, t2], {p});
    var s6 := State(Device(items, [p, 0], 2), [t1, t1, Thread(q, Opening, map[])], {p, q});
    assert Reachable(orderly, 1, 2, s6) by {
      assert {p} + {q} == {p, q};
      Go(orderly, s5, Open(2), s6);
    }
    var s7 := State(Device(items, [p, q], 2), [t1, t1, t2], {p, q});
    assert Reachable(orderly, 1, 2, s7) by {
      Searches(p, 0, NoRef, NoRef, 0, 0, 0, 0, q);
      Searches(p, 0, NoRef, NoRef, 0, 0, 0, 0, 0);
      assert [p, 0][1 := q] == [p, q];
      Go(orderly, s6, Enlist(2), s7);
    }
    assert items == [Slots(0, 0, NoRef, NoRef, 0)] by {
      assert items[0].refs == [NoRef, NoRef];
    }
  }

  /** Both threads of process `p` wait for the same secure id. */
  lemma BothWait(p: nat, q: nat, sid: nat)
    requires Two(p, q) && sid != 0
    ensures var w := Thread(p, Waiting(sid, 0, 0), map[]);
            Reachable(false, 1, 2, One(p, q, Slots(sid, 0, Ref(2, p, 2), NoRef, 1), w, w, Thread(q, Idle, map[])))
  {
    var t1, t2 := Thread(p, Idle, map[]), Thread(q, Idle, map[]);
    var w := Thread(p, Waiting(sid, 0, 0), map[]);
    var s0 := One(p, q, Slots(0, 0, NoRef, NoRef, 0), t1, t1, t2);
    var s1 := One(p, q, Slots(sid, 0, Ref(1, p, 1), NoRef, 1), w, t1, t2);
    assert Reachable(false, 1, 2, s1) by {
      TwoClients(false, p, q);
      Books(p, q, NoRef, NoRef, 0, 0, 0, p, sid, 0, Ref(1, p, 1), NoRef, 1);
      Lists(t1, t1, t2, w, s0.dev.items[0], s1.dev.items[0], sid);
      Go(false, s0, Process(0, sid, 0), s1);
    }
    var s2 := One(p, q, Slots(sid, 0, Ref(2, p, 2), NoRef, 1), w, w, t2);
    Books(p, q, Ref(1, p, 1), NoRef, sid, 0, 1, p, sid, 0, Ref(2, p, 2), NoRef, 1);
    Lists(w, t1, t2, w, s1.dev.items[0], s2.dev.items[0], sid);
    Go(false, s1, Process(1, sid, 0), s2);
  }

  /** One of them gets the lock and releases it: the owner stays, and the permit is back. */
  lemma PartialRelease(p: nat, q: nat, sid: nat)
    requires Two(p, q) && sid != 0
    ensures Reachable(false, 1, 2, One(p, q, Slots(sid, p, Ref(1, p, 1), NoRef, 1),
                      Thread(p, Idle, map[sid := 0]), Thread(p, Waiting(sid, 0, 0), map[]), Thread(q, Idle, map[])))
  {
    var w, t2 := Thread(p, Waiting(sid, 0, 0), map[]), Thread(q, Idle, map[]);
    var s2 := One(p, q, Slots(sid, 0, Ref(2, p, 2), NoRef, 1), w, w, t2);
    var g := Thread(p, Permitted(sid, 0, 0), map[]);
    var s3 := One(p, q, Slots(sid, 0, Ref(2, p, 2), NoRef, 0), g, w, t2);
    assert Reachable(false, 1, 2, s3) by {
      BothWait(p, q, sid);
      Lists(w, w, t2, g, s2.dev.items[0], s3.dev.items[0], sid);
      Go(false, s2, TakePermit(0), s3);
    }
    var h := Thread(p, Idle, map[sid := 1]);
    var s4 := One(p, q, Slots(sid, p, Ref(2, p, 2), NoRef, 0), h, w, t2);
    assert Reachable(false, 1, 2, s4) by {
      Lists(g, w, t2, h, s3.dev.items[0], s4.dev.items[0], sid);
      Go(false, s3, SetOwner(0), s4);
    }
    var s5 := One(p, q, Slots(sid, p, Ref(1, p, 1), NoRef, 1), Thread(p, Idle, map[sid := 0]), w, t2);
    assert AfterUnlocking(s4, p, sid, 0) == s5 by {
      Unlocks(p, q, Ref(2, p, 2), NoRef, sid, 0);
      Lists(h, w, t2, s5.threads[0], s4.dev.items[0], s5.dev.items[0], sid);
    }
    Go(false, s4, Unlocking(0, sid, 0), s5);
  }

  /** Process `q` takes that permit and is about to write the owner. */
  lemma StaleOwner(p: nat, q: nat, sid: nat)
    requires Two(p, q) && sid != 0
    ensures Reachable(false, 1, 2, One(p, q, Slots(sid, p, Ref(1, p, 1), Ref(1, q, 1), 0), Thread(p, Idle, map[sid := 0]),
                      Thread(p, Waiting(sid, 0, 0), map[]), Thread(q, Permitted(sid, 0, 1), map[])))
  {
    var u, w, t2 := Thread(p, Idle, map[sid := 0]), Thread(p, Waiting(sid, 0, 0), map[]), Thread(q, Idle, map[]);
    var s0 := One(p, q, Slots(sid, p, Ref(1, p, 1), NoRef, 1), u, w, t2);
    var w2, p2 := Thread(q, Waiting(sid, 0, 1), map[]), Thread(q, Permitted(sid, 0, 1), map[]);
    var s1 := One(p, q, Slots(sid, p, Ref(1, p, 1), Ref(1, q, 1), 1), u, w, w2);
    assert Reachable(false, 1, 2, s1) by {
      PartialRelease(p, q, sid);
      Books(p, q, Ref(1, p, 1), NoRef, sid, p, 1, q, sid, 1, Ref(1, p, 1), Ref(1, q, 1), 1);
      Lists(u, w, t2, w2, s0.dev.items[0], s1.dev.items[0], sid);
      Go(false, s0, Process(2, sid, 0), s1);
    }
    var s2 := One(p, q, Slots(sid, p, Ref(1, p, 1), Ref(1, q, 1), 0), u, w, p2);
    Lists(u, w, w2, p2, s1.dev.items[0], s2.dev.items[0], sid);
    Go(false, s1, TakePermit(2), s2);
  }

  /** Process `p` books once more and, still named as the owner, returns at once. */
  lemma StaleReturn(p: nat, q: nat, sid: nat)
    requires Two(p, q) && sid != 0
    ensures Reachable(false, 1, 2, One(p, q, Slots(sid, p, Ref(2, p, 1), Ref(1, q, 1), 0), Thread(p, Idle, map[sid := 1]),
                      Thread(p, Waiting(sid, 0, 0), map[]), Thread(q, Permitted(sid, 0, 1), map[])))
  {
    var u, w, p2 := Thread(p, Idle, map[sid := 0]), Thread(p, Waiting(sid, 0, 0), map[]), Thread(q, Permitted(sid, 0, 1), map[]);
    var s2 := One(p, q, Slots(sid, p, Ref(1, p, 1), Ref(1, q, 1), 0), u, w, p2);
    var h := Thread(p, Idle, map[sid := 1]);
    var s3 := One(p, q, Slots(sid, p, Ref(2, p, 1), Ref(1, q, 1), 0), h, w, p2);
    StaleOwner(p, q, sid);
    Books(p, q, Ref(1, p, 1), Ref(1, q, 1), sid, p, 0, p, sid, 0, Ref(2, p, 1), Ref(1, q, 1), 0);
    Lists(u, w, p2, h, s2.dev.items[0], s3.dev.items[0], sid);
    Go(false, s2, Process(0, sid, 0), s3);
  }

  /** Then process `q` becomes the owner, and both hold. */
  lemma BothHold(p: nat, q: nat, sid: nat)
    requires Two(p, q) && sid != 0
    ensures Reachable(false, 1, 2, One(p, q, Slots(sid, q, Ref(2, p, 1), Ref(1, q, 1), 0), Thread(p, Idle, map[sid := 1]),
                      Thread(p, Waiting(sid, 0, 0), map[]), Thread(q, Idle, map[sid := 1])))
  {
    StaleReturn(p, q, sid);
    var w, p2 := Thread(p, Waiting(sid, 0, 0), map[]), Thread(q, Permitted(sid, 0, 1), map[]);
    var h, h2 := Thread(p, Idle, map[sid := 1]), Thread(q, Idle, map[sid := 1]);
    var s3 := One(p, q, Slots(sid, p, Ref(2, p, 1), Ref(1, q, 1), 0), h, w, p2);
    var s4 := One(p, q, Slots(sid, q, Ref(2, p, 1), Ref(1, q, 1), 0), h, w, h2);
    Lists(h, w, p2, h2, s3.dev.items[0], s4.dev.items[0], sid);
    Go(false, s3, SetOwner(2), s4);
  }

  /** With a release while another thread of the process waits, two processes can hold one secure id. */
  lemma ExclusionNeedsOrder(p: nat, q: nat, sid: nat)
    requires Two(p, q) && sid != 0
    ensures exists s :: Reachable(false, 1, 2, s) && |s.threads| == 3
              && s.threads[0].pid != s.threads[2].pid && s.threads[0].Held(sid) > 0 && s.threads[2].Held(sid) > 0
  {
    BothHold(p, q, sid);
    var s := One(p, q, Slots(sid, q, Ref(2, p, 1), Ref(1, q, 1), 0), Thread(p, Idle, map[sid := 1]),
                 Thread(p, Waiting(sid, 0, 0), map[]), Thread(q, Idle, map[sid := 1]));
    assert s.threads[0].Held(sid) == 1 && s.threads[2].Held(sid) == 1;
  }

  /** When the waiting call is then interrupted, process `p` still has a reference and nothing in flight. */
  lemma HoldsWithoutOwning(p: nat, q: nat, sid: nat)
    requires Two(p, q) && sid != 0
    ensures Reachable(false, 1, 2, One(p, q, Slots(sid, q, Ref(1, p, 0), Ref(1, q, 1), 0), Thread(p, Idle, map[sid := 1]),
                      Thread(p, Idle, map[]), Thread(q, Idle, map[sid := 1])))
  {
    var h, h2 := Thread(p, Idle, map[sid := 1]), Thread(q, Idle, map[sid := 1]);
    var w, i, t1 := Thread(p, Waiting(sid, 0, 0), map[]), Thread(p, Interrupted(sid, 0, 0), map[]), Thread(p, Idle, map[]);
    var s0 := One(p, q, Slots(sid, q, Ref(2, p, 1), Ref(1, q, 1), 0), h, w, h2);
    var s1 := One(p, q, Slots(sid, q, Ref(2, p, 1), Ref(1, q, 1), 0), h, i, h2);
    assert Reachable(false, 1, 2, s1) by {
      BothHold(p, q, sid);
      Lists(h, w, h2, i, s0.dev.items[0], s1.dev.items[0], sid);
      Go(false, s0, Signal(1), s1);
    }
    var s2 := One(p, q, Slots(sid, q, Ref(1, p, 0), Ref(1, q, 1), 0), h, t1, h2);
    assert [Ref(2, p, 1), Ref(1, q, 1)][0 := Ref(1, p, 0)] == [Ref(1, p, 0), Ref(1, q, 1)];
    Lists(h, i, h2, t1, s1.dev.items[0], s2.dev.items[0], sid);
    Go(false, s1, GiveUp(1), s2);
  }

  /** So without order a close may never end although nobody interleaves with it: the process has a
      reference to an item that another process owns, and its releases are refused. */
  lemma CloseMayNeverEnd(p: nat, q: nat, sid: nat)
    requires Two(p, q) && sid != 0
    ensures exists s :: Reachable(false, 1, 2, s) && Enabled(false, s, Close(0)) && forall steps :: !ClosesBy(false, s, 0, steps)
  {
    HoldsWithoutOwning(p, q, sid);
    var s := One(p, q, Slots(sid, q, Ref(1, p, 0), Ref(1, q, 1), 0), Thread(p, Idle, map[sid := 1]),
                 Thread(p, Idle, map[]), Thread(q, Idle, map[sid := 1]));
    Searches(p, q, Ref(1, p, 0), Ref(1, q, 1), sid, q, 0, sid, p);
    assert !OwnsWhatItHolds(s.dev.items, p) by { assert FindRef(s.dev.items[0].refs, p) == 0; }
    CloseEndsIff(false, 1, 2, s, 0);
  }

  /** The interrupted wait frees the item without clearing its owner. */
  lemma FreedItemMayKeepOwner(p: nat, q: nat, sid: nat)
    requires Two(p, q) && sid != 0
    ensures exists s :: Reachable(false, 1, 2, s) && |s.dev.items| == 1
              && s.dev.items[0].sid == 0 && s.dev.items[0].owner == p
  {
    var u, w, t2 := Thread(p, Idle, map[sid := 0]), Thread(p, Waiting(sid, 0, 0), map[]), Thread(q, Idle, map[]);
    var s0 := One(p, q, Slots(sid, p, Ref(1, p, 1), NoRef, 1), u, w, t2);
    var i1 := Thread(p, Interrupted(sid, 0, 0), map[]);
    var s1 := One(p, q, Slots(sid, p, Ref(1, p, 1), NoRef, 1), u, i1, t2);
    assert Reachable(false, 1, 2, s1) by {
      PartialRelease(p, q, sid);
      Lists(u, w, t2, i1, s0.dev.items[0], s1.dev.items[0], sid);
      Go(false, s0, Signal(1), s1);
    }
    var s2 := One(p, q, Slots(0, p, NoRef, NoRef, 1), u, Thread(p, Idle, map[]), t2);
    assert Reachable(false, 1, 2, s2) by {
      assert [Ref(1, p, 1), NoRef][0 := NoRef] == [NoRef, NoRef];
      Lists(u, i1, t2, s2.threads[1], s1.dev.items[0], s2.dev.items[0], sid);
      Go(false, s1, GiveUp(1), s2);
    }
    assert s2.dev.items[0].sid == 0 && s2.dev.items[0].owner == p;
  }

  // ---------------------------------------------------------------- closing

  /** Process `p` holds the only item. */
  lemma HolderHolds(p: nat, q: nat, sid: nat)
    requires Two(p, q) && sid != 0
    ensures Reachable(true, 1, 2, One(p, q, Slots(sid, p, Ref(1, p, 1), NoRef, 0),
                      Thread(p, Idle, map[sid := 1]), Thread(p, Idle, map[]), Thread(q, Idle, map[])))
  {
    var t1, t2 := Thread(p, Idle, map[]), Thread(q, Idle, map[]);
    var w := Thread(p, Waiting(sid, 0, 0), map[]);
    var s0 := One(p, q, Slots(0, 0, NoRef, NoRef, 0), t1, t1, t2);
    var s1 := One(p, q, Slots(sid, 0, Ref(1, p, 1), NoRef, 1), w, t1, t2);
    assert Reachable(true, 1, 2, s1) by {
      TwoClients(true, p, q);
      Books(p, q, NoRef, NoRef, 0, 0, 0, p, sid, 0, Ref(1, p, 1), NoRef, 1);
      Lists(t1, t1, t2, w, s0.dev.items[0], s1.dev.items[0], sid);
      Go(true, s0, Process(0, sid, 0), s1);
    }
    var g := Thread(p, Permitted(sid, 0, 0), map[]);
    var s2 := One(p, q, Slots(sid, 0, Ref(1, p, 1), NoRef, 0), g, t1, t2);
    assert Reachable(true, 1, 2, s2) by {
      Lists(w, t1, t2, g, s1.dev.items[0], s2.dev.items[0], sid);
      Go(true, s1, TakePermit(0), s2);
    }
    var h := Thread(p, Idle, map[sid := 1]);
    var s3 := One(p, q, Slots(sid, p, Ref(1, p, 1), NoRef, 0), h, t1, t2);
    Lists(g, t1, t2, h, s2.dev.items[0], s3.dev.items[0], sid);
    Go(true, s2, SetOwner(0), s3);
  }

  /** It closes, and its walk stops at the item. */
  lemma HolderCloses(p: nat, q: nat, sid: nat)
    requires Two(p, q) && sid != 0
    ensures Reachable(true, 1, 2, One(p, q, Slots(sid, p, Ref(1, p, 1), NoRef, 0),
                      Thread(p, Draining(0, 0, 0, sid), map[sid := 1]), Thread(p, Idle, map[]), Thread(q, Idle, map[])))
  {
    HolderHolds(p, q, sid);
    var h, t1, t2 := Thread(p, Idle, map[sid := 1]), Thread(p, Idle, map[]), Thread(q, Idle, map[]);
    var s3 := One(p, q, Slots(sid, p, Ref(1, p, 1), NoRef, 0), h, t1, t2);
    var s4 := One(p, q, Slots(sid, p, Ref(1, p, 1), NoRef, 0), Thread(p, Draining(0, 0, 0, sid), map[sid := 1]), t1, t2);
    Searches(p, q, Ref(1, p, 1), NoRef, sid, p, 0, sid, p);
    Lists(h, t1, t2, s4.threads[0], s3.dev.items[0], s4.dev.items[0], sid);
    Go(true, s3, Close(0), s4);
  }

  /** A closing process whose release succeeds goes on to look at the saved slot. */
  lemma DrainReleases(s: State, t: nat, d: Device, i: nat, j: nat, next: Thread)
    requires t < |s.threads| && s.threads[t].pc.Draining?
    requires Release(s.dev, s.threads[t].pid, s.threads[t].pc.sid) == (d, Released(i, j))
    requires var pc := s.threads[t].pc;
             next == s.threads[t].Unhold(pc.sid).(pc := Rechecking(pc.p, pc.i, pc.j, pc.sid))
    ensures AfterDrain(s, t, t) == s.(dev := d, threads := s.threads[t := next])
  {
  }

  lemma CloserDrains(p: nat, q: nat, sid: nat, a: Thread, a': Thread, b: Thread, c: Thread, held: Item)
    requires Two(p, q) && sid != 0
    requires a == Thread(p, Draining(0, 0, 0, sid), map[sid := 1])
    requires a' == Thread(p, Rechecking(0, 0, 0, sid), map[sid := 0])
    requires held == Slots(sid, p, Ref(1, p, 1), NoRef, 0)
    ensures AfterDrain(One(p, q, held, a, b, c), 0, 0) == One(p, q, Unlock(held, 0), a', b, c)
  {
    Unlocks(p, q, Ref(1, p, 1), NoRef, sid, 0);
    assert a'.held == a.Unhold(sid).held;
    DrainReleases(One(p, q, held, a, b, c), 0, Device([Unlock(held, 0)], [p, q], 2), 0, 0, a');
    Lists(a, b, c, a', held, held, sid);
  }

  lemma FreedSlot(p: nat, sid: nat, held: Item, left: Ref)
    requires p != 0 && sid != 0 && left == Ref(0, 0, 1)
    requires held == Slots(sid, p, Ref(1, p, 1), NoRef, 0)
    ensures Unlock(held, 0) == Slots(0, 0, left, NoRef, 1)
  {
    assert Unlock(held, 0).refs == [left, NoRef];
  }

  /** Its release frees the item, and before it looks again process `q` books the item for `other`. */
  lemma SlotTakenOver(p: nat, q: nat, sid: nat, other: nat, held: Item)
    requires Two(p, q) && sid != 0 && other != 0
    requires held == Slots(sid, p, Ref(1, p, 1), NoRef, 0)
    ensures Reachable(true, 1, 2, Overtaken(p, q, sid, other, Rechecking(0, 0, 0, sid)))
  {
    var t1, t2 := Thread(p, Idle, map[]), Thread(q, Idle, map[]);
    var a := Thread(p, Draining(0, 0, 0, sid), map[sid := 1]);
    var a' := Thread(p, Rechecking(0, 0, 0, sid), map[sid := 0]);
    var s0, s1 := One(p, q, held, a, t1, t2), One(p, q, Unlock(held, 0), a', t1, t2);
    assert Reachable(true, 1, 2, s1) by {
      HolderCloses(p, q, sid);
      CloserDrains(p, q, sid, a, a', t1, t2, held);
      Go(true, s0, Drain(0, 0), s1);
    }
    var s2 := Overtaken(p, q, sid, other, Rechecking(0, 0, 0, sid));
    Takes(p, q, sid, other, held, a', t1, t2, s2.threads[2]);
    Go(true, s1, Process(2, other, 0), s2);
  }

  /** The booking by `q` of the item that the release of `p` has freed. */
  lemma Takes(p: nat, q: nat, sid: nat, other: nat, held: Item, a: Thread, b: Thread, c: Thread, c': Thread)
    requires Two(p, q) && sid != 0 && other != 0
    requires held == Slots(sid, p, Ref(1, p, 1), NoRef, 0)
    requires c == Thread(q, Idle, map[]) && c' == Thread(q, Waiting(other, 0, 0), map[])
    ensures AfterProcess(One(p, q, Unlock(held, 0), a, b, c), 2, other, 0)
            == One(p, q, Slots(other, 0, Ref(1, q, 1), NoRef, 1), a, b, c')
  {
    FreedSlot(p, sid, held, Ref(0, 0, 1));
    Books(p, q, Ref(0, 0, 1), NoRef, 0, 0, 1, q, other, 0, Ref(1, q, 1), NoRef, 1);
    Lists(a, b, c, c', held, held, sid);
  }

  function Overtaken(p: nat, q: nat, sid: nat, other: nat, pc: Pc): State {
    One(p, q, Slots(other, 0, Ref(1, q, 1), NoRef, 1),
        Thread(p, pc, map[sid := 0]), Thread(p, Idle, map[]), Thread(q, Waiting(other, 0, 0), map[]))
  }

  /** A closing process that has nothing left can still spin: between its release and its look at
      the saved slot another process takes that slot over, and every further release is refused. */
  lemma CloserMaySpin(p: nat, q: nat, sid: nat, other: nat)
    requires Two(p, q) && sid != 0 && other != 0
    ensures exists s :: Reachable(true, 1, 2, s) && |s.threads| == 3
              && s.threads[0].pc.Rechecking? && s.threads[0].pid == p
              && (forall i: nat, j: nat :: Indexed(s.dev, i, j) ==> s.dev.items[i].refs[j].pid != p)
              && Run(true, s, [Recheck(0), Drain(0, 0)]) == Some(s)
  {
    SlotTakenOver(p, q, sid, other, Slots(sid, p, Ref(1, p, 1), NoRef, 0));
    var s := Overtaken(p, q, sid, other, Rechecking(0, 0, 0, sid));
    var n := Overtaken(p, q, sid, other, Draining(0, 0, 0, sid));
    assert AfterRecheck(s, 0) == n by {
      Lists(s.threads[0], s.threads[1], s.threads[2], n.threads[0], s.dev.items[0], s.dev.items[0], sid);
    }
    assert AfterDrain(n, 0, 0) == s by {
      Searches(p, q, Ref(1, q, 1), NoRef, other, 0, 1, sid, p);
      Lists(n.threads[0], s.threads[1], s.threads[2], s.threads[0], s.dev.items[0], s.dev.items[0], sid);
    }
    assert Run(true, s, [Recheck(0), Drain(0, 0)]) == Some(s) by {
      assert [Recheck(0), Drain(0, 0)][1..] == [Drain(0, 0)];
      assert [Drain(0, 0)][1..] == [];
      assert Run(true, n, [Drain(0, 0)]) == Run(true, s, []);
    }
  }
}
