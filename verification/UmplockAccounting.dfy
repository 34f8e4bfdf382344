/** The slot arrays refine a map from secure ids and pids to reference counts: every section of the
    driver keeps the tables consistent and changes that map at one point, by one. */
module UmplockAccounting {
  import opened Options
  import opened Sums
  import opened UmplockTables

  // ---------------------------------------------------------------- one item

  /** What slot `j` may become: empty, kept by its pid, or given to a pid that had no slot. */
  ghost predicate SlotFits(item: Item, j: nat, r: Ref) {
    && j < |item.refs|
    && (if r.pid == 0 then r.refCount == 0 else r.refCount > 0)
    && (r.pid == 0 || r.pid == item.refs[j].pid || FindRef(item.refs, r.pid) < 0)
  }

  function WithSlot(item: Item, j: nat, r: Ref): seq<Ref>
    requires j < |item.refs|
  {
    item.refs[j := r]
  }

  lemma SlotReplaced(item: Item, j: nat, r: Ref, item': Item)
    requires ItemOk(item) && SlotFits(item, j, r)
    requires item'.refs == WithSlot(item, j, r)
    requires item'.idRef == item.idRef - item.refs[j].refCount + r.refCount
    requires item'.sid == 0 <==> item'.idRef == 0
    ensures ItemOk(item')
    ensures forall p | p != 0 ::
              SlotCount(item', p) ==
              if p == r.pid then r.refCount else if p == item.refs[j].pid then 0 else SlotCount(item, p)
  {
    SumUpdate(RefCounts(item.refs), j, r.refCount);
    assert RefCounts(item'.refs) == RefCounts(item.refs)[j := r.refCount];
    forall p | p != 0
      ensures SlotCount(item', p) ==
              if p == r.pid then r.refCount else if p == item.refs[j].pid then 0 else SlotCount(item, p)
    {
      var k, k' := FindRef(item.refs, p), FindRef(item'.refs, p);
      assert item'.refs[j] == r;
      if p != r.pid && p != item.refs[j].pid && k >= 0 {
        assert item'.refs[k] == item.refs[k];
      }
    }
  }

  lemma CountInSlot(item: Item, j: nat)
    requires ItemOk(item) && j < |item.refs| && item.refs[j].pid != 0
    ensures SlotCount(item, item.refs[j].pid) == item.refs[j].refCount > 0
    ensures FindRef(item.refs, item.refs[j].pid) == j
  {
  }

  /** Two occupied slots of an item make its total at least two. */
  lemma TotalCoversSlots(item: Item, j: nat)
    requires ItemOk(item) && j < |item.refs|
    ensures item.idRef >= item.refs[j].refCount
    ensures forall k :: 0 <= k < |item.refs| && k != j && item.refs[k].pid != 0 ==> item.idRef > item.refs[j].refCount
    ensures item.refs[j].pid != 0 ==> item.sid != 0
  {
    var s := RefCounts(item.refs);
    SumDominates(s, j);
    forall k | 0 <= k < |item.refs| && k != j && item.refs[k].pid != 0
      ensures item.idRef > item.refs[j].refCount
    {
      if k < j { SumDominatesPair(s, k, j); } else { SumDominatesPair(s, j, k); }
    }
  }

  lemma FreeItemIsEmpty(item: Item)
    requires ItemOk(item) && item.sid == 0
    ensures forall j :: 0 <= j < |item.refs| ==> item.refs[j].pid == 0
  {
    forall j | 0 <= j < |item.refs| ensures item.refs[j].pid == 0 { TotalCoversSlots(item, j); }
  }

  // ---------------------------------------------------------------- the item table

  lemma CountLive(d: Device, i: nat, pid: nat)
    requires Consistent(d) && i < |d.items| && d.items[i].sid != 0
    ensures FindItem(d.items, d.items[i].sid) == i
    ensures Count(d.items, d.items[i].sid, pid) == SlotCount(d.items[i], pid)
  {
  }

  ghost predicate ItemFits(d: Device, i: nat, item': Item) {
    && i < |d.items|
    && ItemOk(item') && |item'.refs| == |d.pids|
    && (item'.sid != 0 ==> forall k :: 0 <= k < |d.items| && k != i ==> d.items[k].sid != item'.sid)
    && (forall j :: 0 <= j < |item'.refs| && item'.refs[j].pid != 0 ==> Registered(d.pids, item'.refs[j].pid))
  }

  lemma ItemReplaced(d: Device, i: nat, item': Item)
    requires Consistent(d) && ItemFits(d, i, item')
    ensures Consistent(d.(items := d.items[i := item']))
  {
  }

  lemma CountReplaced(items: seq<Item>, i: nat, item': Item)
    requires i < |items|
    requires forall k, l :: 0 <= k < l < |items| && items[k].sid != 0 ==> items[k].sid != items[l].sid
    requires item'.sid != 0 ==> forall k :: 0 <= k < |items| && k != i ==> items[k].sid != item'.sid
    ensures forall s, p | s != 0 ::
              Count(items[i := item'], s, p) ==
              if s == item'.sid then SlotCount(item', p) else if s == items[i].sid then 0 else Count(items, s, p)
  {
    var items' := items[i := item'];
    forall s, p | s != 0
      ensures Count(items', s, p) ==
              if s == item'.sid then SlotCount(item', p) else if s == items[i].sid then 0 else Count(items, s, p)
    {
      var k := FindItem(items, s);
      assert items'[i] == item';
      if s != item'.sid && s != items[i].sid && k >= 0 {
        assert items'[k] == items[k];
      }
    }
  }

  // ---------------------------------------------------------------- one reference more

  /** Every occupied slot stays where it is: same item, same secure id, same slot, same pid. */
  ghost predicate SlotsKept(old': seq<Item>, new': seq<Item>) {
    && |old'| == |new'|
    && forall i, j :: 0 <= i < |old'| && 0 <= j < |old'[i].refs| && old'[i].refs[j].pid != 0 ==>
         new'[i].sid == old'[i].sid && j < |new'[i].refs| && new'[i].refs[j].pid == old'[i].refs[j].pid
  }

  /** Any occupied slot of another pid than `q` was there before. */
  ghost predicate NoNewSlots(old': seq<Item>, new': seq<Item>, q: nat) {
    && |old'| == |new'|
    && forall i, j :: 0 <= i < |new'| && 0 <= j < |new'[i].refs| && new'[i].refs[j].pid != 0 && new'[i].refs[j].pid != q ==>
         old'[i].sid == new'[i].sid && j < |old'[i].refs| && old'[i].refs[j].pid == new'[i].refs[j].pid
  }

  function At(s: nat, p: nat, sid: nat, pid: nat): int {
    if s == sid && p == pid then 1 else 0
  }

  /** The item after a booking in slot `j`, in closed form. */
  function BookedItem(item: Item, j: nat, pid: nat, sid: nat, usage: nat): Item
    requires j < |item.refs|
  {
    var r := item.refs[j];
    var wait := if item.owner == pid then 0 else 1;
    var r' := if r.pid == pid then Ref(r.refCount + 1, pid, r.down + wait) else Ref(1, pid, wait);
    if item.sid == sid then item.(idRef := item.idRef + 1, refs := item.refs[j := r'])
    else item.(sid := sid, idRef := 1, usage := usage, sem := 1, refs := item.refs[j := r'])
  }

  ghost predicate LandsAt(d: Device, pid: nat, sid: nat, usage: nat, i: nat, j: nat) {
    && i < |d.items| && j < |d.pids| && |d.items[i].refs| == |d.pids|
    && Shaped(d)
    && Book(d, pid, sid, usage) ==
       (d.(items := d.items[i := BookedItem(d.items[i], j, pid, sid, usage)]),
        if d.items[i].owner == pid then AlreadyOwner(i, j) else MustWait(i, j))
  }

  lemma AddAfterInstall(items: seq<Item>, i: nat, item: Item, j: nat, pid: nat, wait: int)
    requires i < |items| && j < |item.refs|
    ensures items[i := Install(item, j, pid)][i := AddCall(Install(item, j, pid), j, wait)] ==
            items[i := item.(idRef := item.idRef + 1, refs := item.refs[j := Ref(1, pid, wait)])]
  {
    assert Install(item, j, pid).refs[j] == Ref(0, pid, 0);
    assert item.refs[j := Ref(0, pid, 0)][j := Ref(1, pid, wait)] == item.refs[j := Ref(1, pid, wait)];
  }

  lemma BookNewSlot(d: Device, pid: nat, sid: nat, usage: nat)
    requires Shaped(d) && pid != 0 && sid != 0 && FindClient(d.pids, pid) >= 0
    requires FindItem(d.items, sid) >= 0 && FindRef(d.items[FindItem(d.items, sid)].refs, pid) < 0
    requires FindRef(d.items[FindItem(d.items, sid)].refs, 0) >= 0
    ensures LandsAt(d, pid, sid, usage, FindItem(d.items, sid), FindRef(d.items[FindItem(d.items, sid)].refs, 0))
  {
    var i := FindItem(d.items, sid);
    var item := d.items[i];
    var j := FindRef(item.refs, 0);
    var d1 := d.(items := d.items[i := Install(item, j, pid)]);
    assert d1.items[i].refs[j].pid == pid;
    assert FindItem(d1.items, sid) == i;
    assert FindRef(d1.items[i].refs, pid) == j;
    AddAfterInstall(d.items, i, item, j, pid, if item.owner == pid then 0 else 1);
  }

  lemma BookNewItem(d: Device, pid: nat, sid: nat, usage: nat)
    requires Shaped(d) && pid != 0 && sid != 0 && FindClient(d.pids, pid) >= 0
    requires FindItem(d.items, sid) < 0 && FindItem(d.items, 0) >= 0
    requires ItemOk(d.items[FindItem(d.items, 0)])
    ensures LandsAt(d, pid, sid, usage, FindItem(d.items, 0), 0)
  {
    var i := FindItem(d.items, 0);
    var item := d.items[i].(sid := sid, idRef := 0, usage := usage, sem := 1);
    FreeItemIsEmpty(d.items[i]);
    var d1 := d.(items := d.items[i := Install(item, 0, pid)]);
    assert d1.items[i].sid == sid && d1.items[i].refs[0].pid == pid;
    assert FindItem(d1.items, sid) == i;
    assert FindRef(d1.items[i].refs, pid) == 0;
    AddAfterInstall(d.items, i, item, 0, pid, if item.owner == pid then 0 else 1);
  }

  /** Where a booking lands: a slot the pid has, an empty slot of a live item, or the first slot of
      a free item; a negative index is a table that is full. */
  function Landing(items: seq<Item>, pid: nat, sid: nat): (int, int) {
    var i := FindItem(items, sid);
    if i < 0 then (FindItem(items, 0), 0)
    else
      var j := FindRef(items[i].refs, pid);
      (i, if j < 0 then FindRef(items[i].refs, 0) else j)
  }

  /** PROCESS is refused for secure id 0, for a process that is no client, and for full tables. */
  predicate Accepts(d: Device, pid: nat, sid: nat) {
    sid != 0 && FindClient(d.pids, pid) >= 0 && Landing(d.items, pid, sid).0 >= 0 && Landing(d.items, pid, sid).1 >= 0
  }

  /** The lookup after a successful create never fails, so these are all the refusals. */
  lemma BookLands(d: Device, pid: nat, sid: nat, usage: nat) returns (i: nat, j: nat)
    requires Consistent(d) && pid != 0 && Accepts(d, pid, sid)
    ensures (i, j) == Landing(d.items, pid, sid)
    ensures Registered(d.pids, pid) && LandsAt(d, pid, sid, usage, i, j)
    ensures FindItem(d.items, sid) == i || (FindItem(d.items, sid) < 0 && d.items[i].sid == 0)
    ensures FindRef(d.items[i].refs, pid) == j || (FindRef(d.items[i].refs, pid) < 0 && d.items[i].refs[j].pid == 0)
  {
    i, j := Landing(d.items, pid, sid).0, Landing(d.items, pid, sid).1;
    if FindItem(d.items, sid) < 0 {
      BookNewItem(d, pid, sid, usage);
      FreeItemIsEmpty(d.items[i]);
    } else if FindRef(d.items[i].refs, pid) < 0 {
      BookNewSlot(d, pid, sid, usage);
    }
  }

  lemma BookRefuses(d: Device, pid: nat, sid: nat, usage: nat)
    requires Shaped(d) && !Accepts(d, pid, sid)
    ensures Book(d, pid, sid, usage) == (d, Refused)
  {
  }

  /** What a booking does to the tables: one reference more at (sid, pid), or nothing. */
  ghost predicate BookEffect(d: Device, d': Device, b: Booking, pid: nat, sid: nat) {
    && Consistent(d') && SlotsKept(d.items, d'.items) && NoNewSlots(d.items, d'.items, pid)
    && d'.pids == d.pids && d'.sessions == d.sessions
    && (b == Refused ==> d' == d)
    && (b != Refused ==>
          && sid != 0 && b.i < |d'.items| && b.j < |d'.items[b.i].refs|
          && d'.items[b.i].sid == sid && d'.items[b.i].refs[b.j].pid == pid
          && (b.AlreadyOwner? <==> d.items[b.i].owner == pid))
    && forall s, p | s != 0 && p != 0 ::
         Count(d'.items, s, p) == Count(d.items, s, p) + if b == Refused then 0 else At(s, p, sid, pid)
  }

  /** PROCESS books exactly one reference, for its own pid and secure id, or changes nothing. */
  lemma BookCounts(d: Device, pid: nat, sid: nat, usage: nat)
    requires Consistent(d) && pid != 0
    ensures BookEffect(d, Book(d, pid, sid, usage).0, Book(d, pid, sid, usage).1, pid, sid)
  {
    if Accepts(d, pid, sid) {
      var i, j := BookLands(d, pid, sid, usage);
      BookedCounts(d, pid, sid, usage, i, j);
    } else {
      BookRefuses(d, pid, sid, usage);
    }
  }

  lemma BookedItemFits(d: Device, pid: nat, sid: nat, usage: nat, i: nat, j: nat)
    requires Consistent(d) && pid != 0 && sid != 0 && Registered(d.pids, pid)
    requires i < |d.items| && j < |d.pids|
    requires FindItem(d.items, sid) == i || (FindItem(d.items, sid) < 0 && d.items[i].sid == 0)
    requires FindRef(d.items[i].refs, pid) == j || (FindRef(d.items[i].refs, pid) < 0 && d.items[i].refs[j].pid == 0)
    ensures var item' := BookedItem(d.items[i], j, pid, sid, usage);
            && ItemFits(d, i, item') && item'.sid == sid && item'.refs[j].pid == pid
            && forall p | p != 0 :: SlotCount(item', p) == SlotCount(d.items[i], p) + if p == pid then 1 else 0
    ensures d.items[i].sid == 0 ==> forall k | 0 <= k < |d.items[i].refs| :: d.items[i].refs[k].pid == 0
    ensures d.items[i].sid == 0 ==> forall p | p != 0 :: SlotCount(d.items[i], p) == 0
  {
    var item := d.items[i];
    var item' := BookedItem(item, j, pid, sid, usage);
    FreeItemEmptyIfFree(item);
    SlotReplaced(item, j, item'.refs[j], item');
  }

  lemma BookedCounts(d: Device, pid: nat, sid: nat, usage: nat, i: nat, j: nat)
    requires Consistent(d) && pid != 0 && sid != 0 && Registered(d.pids, pid)
    requires i < |d.items| && j < |d.pids|
    requires FindItem(d.items, sid) == i || (FindItem(d.items, sid) < 0 && d.items[i].sid == 0)
    requires FindRef(d.items[i].refs, pid) == j || (FindRef(d.items[i].refs, pid) < 0 && d.items[i].refs[j].pid == 0)
    ensures var items' := d.items[i := BookedItem(d.items[i], j, pid, sid, usage)];
            && Consistent(d.(items := items')) && SlotsKept(d.items, items') && NoNewSlots(d.items, items', pid)
            && items'[i].sid == sid && items'[i].refs[j].pid == pid
            && forall s, p | s != 0 && p != 0 :: Count(items', s, p) == Count(d.items, s, p) + At(s, p, sid, pid)
  {
    var item' := BookedItem(d.items[i], j, pid, sid, usage);
    BookedItemFits(d, pid, sid, usage, i, j);
    ItemReplaced(d, i, item');
    BookedCount(d, i, item', pid);
    assert SlotsKept(d.items, d.items[i := item']) && NoNewSlots(d.items, d.items[i := item'], pid) by {
      SlotsOfReplaced(d.items, i, item', pid);
    }
  }

  lemma BookedCount(d: Device, i: nat, item': Item, pid: nat)
    requires Consistent(d) && ItemFits(d, i, item') && item'.sid != 0
    requires d.items[i].sid == item'.sid || (d.items[i].sid == 0 && FindItem(d.items, item'.sid) < 0)
    requires d.items[i].sid == 0 ==> forall p | p != 0 :: SlotCount(d.items[i], p) == 0
    requires forall p | p != 0 :: SlotCount(item', p) == SlotCount(d.items[i], p) + if p == pid then 1 else 0
    ensures forall s, p | s != 0 && p != 0 ::
              Count(d.items[i := item'], s, p) == Count(d.items, s, p) + At(s, p, item'.sid, pid)
  {
    CountReplaced(d.items, i, item');
    if d.items[i].sid != 0 { forall p ensures Count(d.items, item'.sid, p) == SlotCount(d.items[i], p) { CountLive(d, i, p); } }
  }

  /** Slots outside item `i` do not move; those inside must be accounted for by the caller. */
  lemma SlotsOfReplaced(items: seq<Item>, i: nat, item': Item, q: nat)
    requires i < |items| && |item'.refs| == |items[i].refs|
    requires forall j :: 0 <= j < |item'.refs| && items[i].refs[j].pid != 0 ==>
               item'.sid == items[i].sid && item'.refs[j].pid == items[i].refs[j].pid
    requires forall j :: 0 <= j < |item'.refs| && item'.refs[j].pid != 0 && item'.refs[j].pid != q ==>
               item'.sid == items[i].sid && item'.refs[j].pid == items[i].refs[j].pid
    ensures SlotsKept(items, items[i := item']) && NoNewSlots(items, items[i := item'], q)
  {
  }

  lemma FreeItemEmptyIfFree(item: Item)
    requires ItemOk(item)
    ensures item.sid == 0 ==> forall j :: 0 <= j < |item.refs| ==> item.refs[j].pid == 0
    ensures item.idRef >= 0
    ensures forall p :: item.sid == 0 && p != 0 ==> SlotCount(item, p) == 0
  {
    SumNonNegative(RefCounts(item.refs));
    if item.sid == 0 {
      FreeItemIsEmpty(item);
      SumZero(RefCounts(item.refs));
    }
  }

  // ---------------------------------------------------------------- one reference less

  /** What giving up one reference does to the tables: one less at the slot, which is emptied at
      zero, and no other occupied slot moves. */
  ghost predicate UnrefEffect(d: Device, d': Device, i: nat, j: nat)
    requires i < |d.items| && j < |d.items[i].refs|
  {
    var sid, r := d.items[i].sid, d.items[i].refs[j];
    && Consistent(d') && d'.pids == d.pids && d'.sessions == d.sessions
    && |d'.items| == |d.items| && j < |d'.items[i].refs|
    && sid != 0 && NoNewSlots(d.items, d'.items, 0)
    && (r.refCount == 1 ==> d'.items[i].refs[j].pid == 0)
    && (r.refCount != 1 ==> d'.items[i].sid == sid && d'.items[i].refs[j].pid == r.pid)
    && (forall k, l :: 0 <= k < |d.items| && 0 <= l < |d.items[k].refs| && (k, l) != (i, j) && d.items[k].refs[l].pid != 0 ==>
          d'.items[k].sid == d.items[k].sid && l < |d'.items[k].refs| && d'.items[k].refs[l].pid == d.items[k].refs[l].pid)
    && forall s, p | s != 0 && p != 0 :: Count(d'.items, s, p) == Count(d.items, s, p) - At(s, p, sid, r.pid)
  }

  lemma UnrefItem(d: Device, i: nat, j: nat, down: int, item': Item)
    requires Consistent(d) && i < |d.items| && j < |d.pids| && d.items[i].refs[j].pid != 0
    requires item' == Unref(d.items[i], j, down).(owner := item'.owner, sem := item'.sem)
    ensures ItemFits(d, i, item') && d.items[i].sid != 0
    ensures item'.sid == d.items[i].sid || item'.sid == 0
    ensures forall p | p != 0 :: SlotCount(item', p) == SlotCount(d.items[i], p) - if p == d.items[i].refs[j].pid then 1 else 0
    ensures item'.sid == 0 ==> forall k | 0 <= k < |item'.refs| :: item'.refs[k].pid == 0
    ensures item'.sid == 0 ==> forall p | p != 0 :: SlotCount(item', p) == 0
    ensures forall k | 0 <= k < |item'.refs| && k != j && item'.refs[k].pid != 0 :: item'.sid == d.items[i].sid
    ensures d.items[i].refs[j].refCount != 1 ==> item'.sid == d.items[i].sid
  {
    var item := d.items[i];
    TotalCoversSlots(item, j);
    SlotReplaced(item, j, item'.refs[j], item');
    CountInSlot(item, j);
    FreeItemEmptyIfFree(item');
  }

  /** Giving up one reference, whatever happens to owner, semaphore and down count. */
  lemma UnrefCounts(d: Device, i: nat, j: nat, down: int, item': Item)
    requires Consistent(d) && i < |d.items| && j < |d.pids| && d.items[i].refs[j].pid != 0
    requires item' == Unref(d.items[i], j, down).(owner := item'.owner, sem := item'.sem)
    ensures UnrefEffect(d, d.(items := d.items[i := item']), i, j)
  {
    UnrefItem(d, i, j, down, item');
    ItemReplaced(d, i, item');
    UnrefCount(d, i, item', d.items[i].refs[j].pid);
    SlotsOfUnref(d.items, i, j, item');
  }

  lemma UnrefCount(d: Device, i: nat, item': Item, pid: nat)
    requires Consistent(d) && ItemFits(d, i, item') && d.items[i].sid != 0
    requires item'.sid == d.items[i].sid || (item'.sid == 0 && forall p | p != 0 :: SlotCount(item', p) == 0)
    requires forall p | p != 0 :: SlotCount(item', p) == SlotCount(d.items[i], p) - if p == pid then 1 else 0
    ensures forall s, p | s != 0 && p != 0 ::
              Count(d.items[i := item'], s, p) == Count(d.items, s, p) - At(s, p, d.items[i].sid, pid)
  {
    CountReplaced(d.items, i, item');
    forall p ensures Count(d.items, d.items[i].sid, p) == SlotCount(d.items[i], p) { CountLive(d, i, p); }
  }

  lemma SlotsOfUnref(items: seq<Item>, i: nat, j: nat, item': Item)
    requires i < |items| && j < |items[i].refs| && |item'.refs| == |items[i].refs|
    requires forall k :: 0 <= k < |item'.refs| && k != j ==> item'.refs[k].pid == items[i].refs[k].pid
    requires item'.refs[j].pid == items[i].refs[j].pid || item'.refs[j].pid == 0
    requires forall k :: 0 <= k < |item'.refs| && item'.refs[k].pid != 0 ==> item'.sid == items[i].sid
    ensures NoNewSlots(items, items[i := item'], 0)
    ensures forall k, l :: 0 <= k < |items| && 0 <= l < |items[k].refs| && (k, l) != (i, j) && items[k].refs[l].pid != 0 ==>
              items[i := item'][k].sid == items[k].sid && items[i := item'][k].refs[l].pid == items[k].refs[l].pid
  {
    forall k, l | 0 <= k < |items| && 0 <= l < |items[k].refs| && (k, l) != (i, j) && items[k].refs[l].pid != 0
      ensures items[i := item'][k].sid == items[k].sid && items[i := item'][k].refs[l].pid == items[k].refs[l].pid
    {
      if k == i { assert item'.refs[l].pid == items[i].refs[l].pid; }
    }
  }

  /** A change that the map does not see. */
  ghost predicate MapKept(d: Device, d': Device) {
    && Consistent(d') && d'.pids == d.pids && d'.sessions == d.sessions
    && SlotsKept(d.items, d'.items) && NoNewSlots(d.items, d'.items, 0)
    && forall s, p | s != 0 && p != 0 :: Count(d'.items, s, p) == Count(d.items, s, p)
  }

  /** Writing owner or semaphore fields does not touch the map. */
  lemma MarksDoNotCount(d: Device, i: nat, item': Item)
    requires Consistent(d) && i < |d.items| && item' == d.items[i].(owner := item'.owner, sem := item'.sem)
    ensures MapKept(d, d.(items := d.items[i := item']))
  {
    assert ItemFits(d, i, item');
    ItemReplaced(d, i, item');
    CountReplaced(d.items, i, item');
    SlotsOfReplaced(d.items, i, item', 0);
  }

  /** The two linear searches answer exactly the map: a slot is found where the count is positive. */
  lemma LocateAnswersCount(d: Device, pid: nat, sid: nat)
    requires Consistent(d) && pid != 0 && sid != 0
    ensures Locate(d.items, pid, sid).Some? <==> Count(d.items, sid, pid) > 0
    ensures Count(d.items, sid, pid) >= 0
    ensures forall i, j :: 0 <= i < |d.items| && 0 <= j < |d.items[i].refs| ==>
              (Locate(d.items, pid, sid) == Some((i, j)) <==> d.items[i].sid == sid && d.items[i].refs[j].pid == pid)
  {
  }
}
