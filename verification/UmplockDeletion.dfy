/** What the deletion of a client does to consistent tables when nobody interferes. */
module UmplockDeletion {
  import opened UmplockTables
  import opened UmplockAccounting
  import opened UmplockTheorems

  /** The item after slot `j` gave back every reference, one release at a time. */
  function Drained(item: Item, j: nat): Item
    requires j < |item.refs|
    decreases item.refs[j].refCount
  {
    if item.refs[j].refCount <= 0 then item else Drained(Unlock(item, j), j)
  }

  function Forgotten(item: Item, pid: nat): Item {
    var j := FindRef(item.refs, pid);
    if j < 0 then item else Drained(item, j)
  }

  function DeletedUpTo(d: Device, pid: nat, n: nat): Device
    requires n <= |d.items|
  {
    d.(items := seq(|d.items|, i requires 0 <= i < |d.items| => if i < n then Forgotten(d.items[i], pid) else d.items[i]))
  }

  /** The tables without the process; a process that is no client is left alone. */
  function Deleted(d: Device, pid: nat): Device {
    var p := FindClient(d.pids, pid);
    if p < 0 then d else DeletedUpTo(d, pid, |d.items|).(pids := d.pids[p := 0])
  }

  ghost predicate OwnsWhatItHolds(items: seq<Item>, pid: nat) {
    forall i :: 0 <= i < |items| && FindRef(items[i].refs, pid) >= 0 ==> items[i].owner == pid
  }

  // ---------------------------------------------------------------- one slot

  function Extra(item: Item, j: nat): int
    requires j < |item.refs|
  {
    var most := item.refs[j].refCount - 1;
    if item.refs[j].down <= 1 then 0 else if item.refs[j].down - 1 <= most then item.refs[j].down - 1 else most
  }

  /** Draining a slot empties it, takes its references from the item's total, gives up the ownership,
      and raises the semaphore once plus once per extra wait the slot had recorded. */
  lemma {:induction false} DrainedSlot(item: Item, j: nat)
    requires ItemOk(item) && j < |item.refs| && item.refs[j].pid != 0
    ensures var item', r := Drained(item, j), item.refs[j];
            && |item'.refs| == |item.refs|
            && (forall k :: 0 <= k < |item.refs| && k != j ==> item'.refs[k] == item.refs[k])
            && item'.refs[j].refCount == 0 && item'.refs[j].pid == 0
            && item'.idRef == item.idRef - r.refCount
            && item'.sid == (if item'.idRef == 0 then 0 else item.sid)
            && item'.owner == 0 && item'.usage == item.usage
            && item'.sem == item.sem + 1 + Extra(item, j)
            && ItemOk(item')
    decreases item.refs[j].refCount
  {
    var n := Unlock(item, j);
    TotalCoversSlots(item, j);
    SlotReplaced(item, j, n.refs[j], n);
    if item.refs[j].refCount > 1 {
      DrainedSlot(n, j);
    }
  }

  /** Without the slot the item still fits the table, and counts nothing for the process. */
  lemma ForgottenFits(d: Device, pid: nat, i: nat)
    requires Consistent(d) && pid != 0 && i < |d.items|
    ensures ItemFits(d, i, Forgotten(d.items[i], pid))
    ensures var item, item' := d.items[i], Forgotten(d.items[i], pid);
            && FindRef(item'.refs, pid) < 0
            && (item'.sid == item.sid || (item'.sid == 0 && forall q | q != 0 && q != pid :: SlotCount(item, q) == 0))
            && forall q | q != pid && q != 0 :: SlotCount(item', q) == SlotCount(item, q)
  {
    var item := d.items[i];
    var j := FindRef(item.refs, pid);
    if j >= 0 {
      DrainedSlot(item, j);
      var item' := Drained(item, j);
      FreeItemEmptyIfFree(item');
      forall q | q != pid && q != 0 ensures SlotCount(item', q) == SlotCount(item, q) {
        SameSlot(item, item', j, q);
      }
    }
  }

  lemma SameSlot(item: Item, item': Item, j: nat, q: nat)
    requires j < |item.refs| == |item'.refs| && item.refs[j].pid != q && item'.refs[j].pid != q
    requires forall k :: 0 <= k < |item.refs| && k != j ==> item'.refs[k] == item.refs[k]
    ensures SlotCount(item', q) == SlotCount(item, q)
  {
    var k, k' := FindRef(item.refs, q), FindRef(item'.refs, q);
    if k >= 0 { assert item'.refs[k] == item.refs[k]; }
    if k' >= 0 { assert item'.refs[k'] == item.refs[k']; }
  }

  // ---------------------------------------------------------------- the whole walk

  function ForgetAt(d: Device, pid: nat, i: nat): Device
    requires i < |d.items|
  {
    d.(items := d.items[i := Forgotten(d.items[i], pid)])
  }

  lemma DeletedNext(d: Device, pid: nat, n: nat)
    requires n < |d.items|
    ensures DeletedUpTo(d, pid, n).items[n] == d.items[n]
    ensures DeletedUpTo(d, pid, n + 1) == ForgetAt(DeletedUpTo(d, pid, n), pid, n)
  {
  }

  /** Nobody but `pid` has more or fewer references. */
  ghost predicate SameForOthers(d: Device, d': Device, pid: nat) {
    forall s, q | s != 0 && q != 0 && q != pid :: Count(d'.items, s, q) == Count(d.items, s, q)
  }

  type ConsistentDevice = d: Device | Consistent(d) ghost witness Device([], [], 0)

  /** While the walk goes on the tables stay consistent, and nobody else loses a reference. */
  lemma {:induction false} DeletedUpToKeeps(d: ConsistentDevice, pid: nat, n: nat) returns (r: ConsistentDevice)
    requires pid != 0 && n <= |d.items|
    ensures r == DeletedUpTo(d, pid, n) && SameForOthers(d, r, pid)
  {
    if n == 0 {
      r := d;
    } else {
      var e := DeletedUpToKeeps(d, pid, n - 1);
      DeletedNext(d, pid, n - 1);
      r := ForgetOne(e, pid, n - 1);
    }
  }

  lemma ForgetOne(d: ConsistentDevice, pid: nat, i: nat) returns (r: ConsistentDevice)
    requires pid != 0 && i < |d.items|
    ensures r == ForgetAt(d, pid, i) && SameForOthers(d, r, pid)
  {
    var item' := Forgotten(d.items[i], pid);
    ForgottenFits(d, pid, i);
    ItemReplaced(d, i, item');
    CountReplaced(d.items, i, item');
    forall q { CountOfItem(d, i, q); }
    r := ForgetAt(d, pid, i);
  }

  lemma CountOfItem(d: Device, i: nat, q: nat)
    requires Consistent(d) && i < |d.items|
    ensures d.items[i].sid != 0 ==> Count(d.items, d.items[i].sid, q) == SlotCount(d.items[i], q)
  {
    if d.items[i].sid != 0 { CountLive(d, i, q); }
  }

  /** The search started from item `i` comes back with item `i`, although it overwrites the index. */
  lemma SearchComesBack(d: Device, pid: nat, i: nat)
    requires Consistent(d) && pid != 0 && i < |d.items|
    ensures match Locate(d.items, pid, d.items[i].sid)
            case None => FindRef(d.items[i].refs, pid) < 0
            case Some((k, j)) => k == i && j == FindRef(d.items[i].refs, pid) && d.items[i].sid != 0
  {
    if d.items[i].sid == 0 {
      FreeItemIsEmpty(d.items[i]);
      FreeItemIsEmpty(d.items[FindItem(d.items, 0)]);
    } else {
      CountLive(d, i, pid);
    }
  }

  /** Tables `cur` in which some references of slot `j` of item `i` of `d` are already released. */
  ghost predicate Drains(d: Device, cur: Device, pid: nat, sid: nat, i: nat, j: nat) {
    && i < |d.items| == |cur.items| && j < |d.items[i].refs| && j < |cur.items[i].refs| && cur.items[i].refs[j].refCount >= 0
    && Drainable(cur, pid, sid, i, j, cur.items[i].refs[j].refCount)
    && cur == d.(items := d.items[i := cur.items[i]])
    && Drained(cur.items[i], j) == Drained(d.items[i], j)
  }

  lemma DrainStep(d: Device, cur: Device, pid: nat, sid: nat, i: nat, j: nat)
    requires Drains(d, cur, pid, sid, i, j) && cur.items[i].refs[j].refCount != 0
    ensures var next := Release(cur, pid, sid).0;
            Drains(d, next, pid, sid, i, j) && next.items[i].refs[j].refCount < cur.items[i].refs[j].refCount
  {
    OwnerReleases(cur, pid, sid, i, j, cur.items[i].refs[j].refCount);
    var next := DrainOnce(cur, pid, sid, i, j, cur.items[i].refs[j].refCount);
  }

  /** One round of the walk: the search comes back to where the walk is, and what it finds can be drained. */
  lemma DeletionStep(d: Device, pid: nat, i: nat, cur: Device)
    requires Consistent(d) && pid != 0 && OwnsWhatItHolds(d.items, pid) && i < |d.items|
    requires cur == DeletedUpTo(d, pid, i)
    ensures match Locate(cur.items, pid, cur.items[i].sid)
            case None => DeletedUpTo(d, pid, i + 1) == cur
            case Some((k, j)) =>
              && k == i && Drains(cur, cur, pid, cur.items[i].sid, i, j)
              && DeletedUpTo(d, pid, i + 1) == cur.(items := cur.items[i := Drained(cur.items[i], j)])
  {
    assert Consistent(cur) by { var r := DeletedUpToKeeps(d, pid, i); }
    SearchComesBack(cur, pid, i);
    DeletedNext(d, pid, i);
    var j := FindRef(d.items[i].refs, pid);
    if j >= 0 { CountInSlot(d.items[i], j); }
  }

  lemma UnlistedClient(pids: seq<nat>, pid: nat, p: nat)
    requires p < |pids| && pids[p] == pid != 0
    requires forall k, l :: 0 <= k < l < |pids| && pids[k] != 0 ==> pids[k] != pids[l]
    ensures forall q | q != 0 :: Registered(pids[p := 0], q) <==> q != pid && Registered(pids, q)
  {
    var pids' := pids[p := 0];
    forall q | q != 0 ensures Registered(pids', q) <==> q != pid && Registered(pids, q) {
      var k, k' := FindPid(pids, q), FindPid(pids', q);
      if k >= 0 && k != p { assert pids'[k] == q; }
      if k' >= 0 { assert pids[k'] == q; }
    }
  }

  lemma ForgottenEverywhere(d: Device, pid: nat)
    requires Consistent(d) && pid != 0
    ensures forall i :: 0 <= i < |d.items| ==> FindRef(DeletedUpTo(d, pid, |d.items|).items[i].refs, pid) < 0
    ensures forall i :: 0 <= i < |d.items| && FindRef(d.items[i].refs, pid) >= 0 ==>
              DeletedUpTo(d, pid, |d.items|).items[i].owner == 0
  {
    forall i | 0 <= i < |d.items|
      ensures FindRef(Forgotten(d.items[i], pid).refs, pid) < 0
      ensures FindRef(d.items[i].refs, pid) >= 0 ==> Forgotten(d.items[i], pid).owner == 0
    {
      ForgottenFits(d, pid, i);
      var j := FindRef(d.items[i].refs, pid);
      if j >= 0 { DrainedSlot(d.items[i], j); }
    }
  }

  /** The deletion of a client leaves it nowhere in the tables, changes no other process's counts,
      and keeps the tables consistent; items it has no slot in are untouched, and it owns nothing. */
  lemma DeletionForgets(d: Device, pid: nat)
    requires Consistent(d) && Registered(d.pids, pid) && pid != 0
    ensures var d' := Deleted(d, pid);
            && Consistent(d') && SameForOthers(d, d', pid)
            && (forall q | q != 0 :: Registered(d'.pids, q) <==> q != pid && Registered(d.pids, q))
            && (forall i :: 0 <= i < |d'.items| ==> FindRef(d'.items[i].refs, pid) < 0)
            && (forall s :: Count(d'.items, s, pid) == 0)
            && |d'.items| == |d.items|
            && (forall i :: 0 <= i < |d.items| && FindRef(d.items[i].refs, pid) < 0 ==> d'.items[i] == d.items[i])
            && (forall i :: 0 <= i < |d.items| && FindRef(d.items[i].refs, pid) >= 0 ==> d'.items[i].owner == 0)
  {
    var p := FindPid(d.pids, pid);
    var e := DeletedUpToKeeps(d, pid, |d.items|);
    ForgottenEverywhere(d, pid);
    UnlistedClient(d.pids, pid, p);
    UnlistedConsistent(e, pid, p);
  }

  lemma UnlistedConsistent(d: Device, pid: nat, p: nat)
    requires Consistent(d) && p < |d.pids| && d.pids[p] == pid != 0
    requires forall i :: 0 <= i < |d.items| ==> FindRef(d.items[i].refs, pid) < 0
    ensures Consistent(d.(pids := d.pids[p := 0]))
  {
    UnlistedClient(d.pids, pid, p);
  }
}
