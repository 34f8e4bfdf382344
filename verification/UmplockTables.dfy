/** The tables of the UMP lock driver as a value, and what each mutex-protected section of the
    driver does to them.  Process ids and secure ids are unsigned words in which 0 means "none". */
module UmplockTables {
  import opened Options
  import opened Sums

  datatype Ref = Ref(refCount: int, pid: nat, down: int)

  datatype Item = Item(sid: nat, idRef: int, owner: nat, usage: nat, refs: seq<Ref>, sem: int)

  datatype Device = Device(items: seq<Item>, pids: seq<nat>, sessions: int)

  datatype Errno = EINVAL | EPERM | ERESTARTSYS

  const NoRef := Ref(0, 0, 0)

  // ---------------------------------------------------------------- linear searches

  function FindItem(items: seq<Item>, sid: nat): (r: int)
    ensures -1 <= r < |items|
    ensures r >= 0 ==> items[r].sid == sid
    ensures forall k :: 0 <= k < (if r < 0 then |items| else r) ==> items[k].sid != sid
  {
    if items == [] then -1
    else
      var r := FindItem(items[..|items| - 1], sid);
      if r >= 0 then r else if items[|items| - 1].sid == sid then |items| - 1 else -1
  }

  function FindRef(refs: seq<Ref>, pid: nat): (r: int)
    ensures -1 <= r < |refs|
    ensures r >= 0 ==> refs[r].pid == pid
    ensures forall k :: 0 <= k < (if r < 0 then |refs| else r) ==> refs[k].pid != pid
  {
    if refs == [] then -1
    else
      var r := FindRef(refs[..|refs| - 1], pid);
      if r >= 0 then r else if refs[|refs| - 1].pid == pid then |refs| - 1 else -1
  }

  function FindPid(pids: seq<nat>, pid: nat): (r: int)
    ensures -1 <= r < |pids|
    ensures r >= 0 ==> pids[r] == pid
    ensures forall k :: 0 <= k < (if r < 0 then |pids| else r) ==> pids[k] != pid
  {
    if pids == [] then -1
    else
      var r := FindPid(pids[..|pids| - 1], pid);
      if r >= 0 then r else if pids[|pids| - 1] == pid then |pids| - 1 else -1
  }

  /** A client is valid only under a non-zero pid. */
  function FindClient(pids: seq<nat>, pid: nat): int {
    if pid == 0 then -1 else FindPid(pids, pid)
  }

  predicate Registered(pids: seq<nat>, pid: nat) {
    FindPid(pids, pid) >= 0
  }

  /** The item and the slot through which `pid` refers to `sid`. */
  function Locate(items: seq<Item>, pid: nat, sid: nat): (r: Option<(int, int)>)
    ensures r.Some? ==>
              && 0 <= r.value.0 < |items| && 0 <= r.value.1 < |items[r.value.0].refs|
              && items[r.value.0].sid == sid && items[r.value.0].refs[r.value.1].pid == pid
  {
    var i := FindItem(items, sid);
    if i < 0 then None
    else
      var j := FindRef(items[i].refs, pid);
      if j < 0 then None else Some((i, j))
  }

  // ---------------------------------------------------------------- PROCESS, first section

  function Install(item: Item, j: nat, pid: nat): Item
    requires j < |item.refs|
  {
    item.(refs := item.refs[j := Ref(0, pid, 0)])
  }

  predicate Shaped(d: Device) {
    forall i :: 0 <= i < |d.items| ==> |d.items[i].refs| == |d.pids|
  }

  /** Makes sure that `pid` has a slot for `sid`; None is -EINVAL. */
  function CreateLocked(d: Device, pid: nat, sid: nat, usage: nat): (r: Option<Device>)
    requires Shaped(d)
  {
    if FindClient(d.pids, pid) < 0 then None
    else if Locate(d.items, pid, sid).Some? then Some(d)
    else
      var i := FindItem(d.items, sid);
      if i >= 0 then
        var j := FindRef(d.items[i].refs, 0);
        if j < 0 then None
        else Some(d.(items := d.items[i := Install(d.items[i], j, pid)]))
      else
        var k := FindItem(d.items, 0);
        if k < 0 then None
        else
          var fresh' := d.items[k].(sid := sid, idRef := 0, usage := usage, sem := 1);
          Some(d.(items := d.items[k := Install(fresh', 0, pid)]))
  }

  datatype Booking = Refused | AlreadyOwner(i: nat, j: nat) | MustWait(i: nat, j: nat)

  function AddCall(item: Item, j: nat, wait: int): Item
    requires j < |item.refs|
  {
    var r := item.refs[j];
    item.(idRef := item.idRef + 1, refs := item.refs[j := r.(refCount := r.refCount + 1, down := r.down + wait)])
  }

  /** The part of PROCESS before the wait: book a reference, and report whether to wait. */
  function Book(d: Device, pid: nat, sid: nat, usage: nat): (r: (Device, Booking))
    requires Shaped(d)
  {
    if sid == 0 then (d, Refused)
    else
      match CreateLocked(d, pid, sid, usage)
      case None => (d, Refused)
      case Some(d1) =>
        match Locate(d1.items, pid, sid)
        case None => (d1, Refused)
        case Some((i, j)) =>
          if d1.items[i].owner == pid
          then (d1.(items := d1.items[i := AddCall(d1.items[i], j, 0)]), AlreadyOwner(i, j))
          else (d1.(items := d1.items[i := AddCall(d1.items[i], j, 1)]), MustWait(i, j))
  }

  // ---------------------------------------------------------------- giving references back

  /** One reference less in slot `j`; the slot and then the item are recycled at zero. */
  function Unref(item: Item, j: nat, down: int): Item
    requires j < |item.refs|
  {
    var left := item.refs[j].refCount - 1;
    var pid := if left == 0 then 0 else item.refs[j].pid;
    var sid := if left == 0 && item.idRef - 1 == 0 then 0 else item.sid;
    item.(sid := sid, idRef := item.idRef - 1, refs := item.refs[j := Ref(left, pid, down)])
  }

  /** The interrupted wait: undo the booking. */
  function Restore(item: Item, j: nat): Item
    requires j < |item.refs|
  {
    Unref(item, j, item.refs[j].down - 1)
  }

  /** A successful RELEASE, `up` included. */
  function Unlock(item: Item, j: nat): Item
    requires j < |item.refs|
  {
    var r := item.refs[j];
    var extra := r.down > 1;
    var last := r.refCount - 1 == 0;
    Unref(item, j, if extra then r.down - 1 else r.down).(
      owner := if last then 0 else item.owner,
      sem := if extra || last then item.sem + 1 else item.sem)
  }

  datatype Releasing = Failed(errno: Errno) | NothingHeld | Released(i: nat, j: nat)

  function Release(d: Device, pid: nat, sid: nat): (r: (Device, Releasing)) {
    if sid == 0 then (d, Failed(EINVAL))
    else if FindClient(d.pids, pid) < 0 then (d, Failed(EPERM))
    else
      match Locate(d.items, pid, sid)
      case None => (d, Failed(EINVAL))
      case Some((i, j)) =>
        if d.items[i].owner != pid then (d, Failed(EPERM))
        else if d.items[i].refs[j].refCount == 0 then (d, NothingHeld)
        else (d.(items := d.items[i := Unlock(d.items[i], j)]), Released(i, j))
  }

  // ---------------------------------------------------------------- clients and sessions

  /** None is -EINVAL, which the open call ignores. */
  function ClientAdd(d: Device, pid: nat): (r: Option<Device>) {
    if FindPid(d.pids, pid) >= 0 then Some(d)
    else
      var p := FindPid(d.pids, 0);
      if p < 0 then None else Some(d.(pids := d.pids[p := pid]))
  }

  function ZapItem(item: Item): Item {
    item.(sid := 0, refs := seq(|item.refs|, _ => NoRef), sem := 1)
  }

  function Zap(d: Device): Device {
    d.(items := seq(|d.items|, i requires 0 <= i < |d.items| => ZapItem(d.items[i])),
       pids := seq(|d.pids|, _ => 0))
  }

  /** `Loops` is a walk that has gone back to an index it had passed, and will do so for ever. */
  datatype Scan = Clear | Found(i: nat, j: nat, sid: nat) | Loops

  /** The walk of the client deletion from index `from` to the next reference it must release.
      The lookup writes the loop index, so the walk resumes behind the item that was located. */
  function NextHeld(items: seq<Item>, pid: nat, from: nat): Scan
    decreases |items| - from
  {
    if from >= |items| then Clear
    else
      match Locate(items, pid, items[from].sid)
      case None => NextHeld(items, pid, from + 1)
      case Some((i, j)) =>
        if items[i].refs[j].refCount != 0 then Found(i, j, items[from].sid)
        else if i < from then Loops
        else NextHeld(items, pid, i + 1)
  }

  // ---------------------------------------------------------------- the abstract map

  function RefCounts(refs: seq<Ref>): (s: seq<int>)
    ensures |s| == |refs| && forall j :: 0 <= j < |refs| ==> s[j] == refs[j].refCount
  {
    seq(|refs|, j requires 0 <= j < |refs| => refs[j].refCount)
  }

  function SlotCount(item: Item, pid: nat): int {
    var j := FindRef(item.refs, pid);
    if j < 0 then 0 else item.refs[j].refCount
  }

  /** How many references `pid` has to `sid`: the map that the two tables stand for. */
  function Count(items: seq<Item>, sid: nat, pid: nat): int {
    var i := FindItem(items, sid);
    if i < 0 then 0 else SlotCount(items[i], pid)
  }

  ghost predicate ItemOk(item: Item) {
    && (forall j, k :: 0 <= j < k < |item.refs| && item.refs[j].pid != 0 ==> item.refs[j].pid != item.refs[k].pid)
    && (forall j :: 0 <= j < |item.refs| ==>
          if item.refs[j].pid == 0 then item.refs[j].refCount == 0 else item.refs[j].refCount > 0)
    && item.idRef == Sum(RefCounts(item.refs))
    && (item.sid == 0 <==> item.idRef == 0)
  }

  ghost predicate Consistent(d: Device) {
    && Shaped(d)
    && (forall i :: 0 <= i < |d.items| ==> ItemOk(d.items[i]))
    && (forall i, k :: 0 <= i < k < |d.items| && d.items[i].sid != 0 ==> d.items[i].sid != d.items[k].sid)
    && (forall p, q :: 0 <= p < q < |d.pids| && d.pids[p] != 0 ==> d.pids[p] != d.pids[q])
    && (forall i, j :: 0 <= i < |d.items| && 0 <= j < |d.items[i].refs| && d.items[i].refs[j].pid != 0 ==>
          Registered(d.pids, d.items[i].refs[j].pid))
  }
}
