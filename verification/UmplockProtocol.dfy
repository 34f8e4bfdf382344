/** The lock driver as a state machine: threads of client processes run its calls, and one step is
    one section under the driver's mutex, one semaphore operation, or one change outside both. */
module UmplockProtocol {
  import opened UmplockTables

  /** Where a thread is.  The first three hold the secure id and the two table indices that
      PROCESS keeps across its wait; the last four belong to opening and closing the device. */
  datatype Pc =
    | Idle
    | Waiting(sid: nat, i: nat, j: nat)
    | Permitted(sid: nat, i: nat, j: nat)
    | Interrupted(sid: nat, i: nat, j: nat)
    | Opening
    | Draining(p: nat, i: nat, j: nat, sid: nat)
    | Rechecking(p: nat, i: nat, j: nat, sid: nat)
    | Closed
  {
    predicate InCall() { Waiting? || Permitted? || Interrupted? }
    predicate InWalk() { Draining? || Rechecking? }
    predicate InSession() { Opening? || InWalk() || Closed? }
  }

  /** `held` counts the successful PROCESS calls on a secure id that are not released yet. */
  datatype Thread = Thread(pid: nat, pc: Pc, held: map<nat, nat>) {
    function Held(sid: nat): nat { if sid in held then held[sid] else 0 }
    function Hold(sid: nat): (t: Thread)
      ensures forall x :: t.Held(x) == Held(x) + if x == sid then 1 else 0
    {
      this.(held := held[sid := Held(sid) + 1])
    }
    function Unhold(sid: nat): (t: Thread)
      ensures forall x :: t.Held(x) == Held(x) - if x == sid && Held(sid) > 0 then 1 else 0
    {
      if Held(sid) > 0 then this.(held := held[sid := Held(sid) - 1]) else this
    }
  }

  datatype State = State(dev: Device, threads: seq<Thread>, open: set<nat>)

  datatype Step =
    | Spawn(pid: nat)
    | Open(t: nat)
    | Enlist(t: nat)
    | Process(t: nat, sid: nat, usage: nat)
    | TakePermit(t: nat)
    | Signal(t: nat)
    | SetOwner(t: nat)
    | GiveUp(t: nat)
    | Unlocking(t: nat, sid: nat, holder: nat)
    | Close(t: nat)
    | Drain(t: nat, holder: nat)
    | Recheck(t: nat)
    | EndSession(t: nat)

  const EmptyItem := Item(0, 0, 0, 0, [], 0)

  function Init(maxItems: nat, maxPids: nat): State {
    State(Device(seq(maxItems, _ => EmptyItem.(refs := seq(maxPids, _ => NoRef))),
                 seq(maxPids, _ => 0), 0), [], {})
  }

  predicate Alone(threads: seq<Thread>, pid: nat) {
    forall k :: 0 <= k < |threads| && threads[k].pid == pid ==> threads[k].pc == Idle
  }

  /** A call may start on an open descriptor while the process is not opening or closing. */
  predicate MayCall(s: State, t: nat) {
    && t < |s.threads| && s.threads[t].pc == Idle && s.threads[t].pid in s.open
    && forall k :: 0 <= k < |s.threads| && s.threads[k].pid == s.threads[t].pid ==> !s.threads[k].pc.InSession()
  }

  /** No thread of the process is in a PROCESS call on `sid`. */
  predicate NoneCalling(threads: seq<Thread>, pid: nat, sid: nat) {
    forall k :: 0 <= k < |threads| && threads[k].pid == pid ==> !(threads[k].pc.InCall() && threads[k].pc.sid == sid)
  }

  /** `holder` is the thread of the process whose hold a release of `sid` gives back. */
  predicate Gives(threads: seq<Thread>, pid: nat, sid: nat, holder: nat) {
    holder < |threads| && threads[holder].pid == pid && threads[holder].Held(sid) > 0
  }

  predicate NoneHeld(threads: seq<Thread>, pid: nat, sid: nat) {
    forall k :: 0 <= k < |threads| && threads[k].pid == pid ==> threads[k].Held(sid) == 0
  }

  /** The assumptions on a run.  A descriptor is opened once per process and closed while the
      process has no call in flight; nobody calls ZAP.  A process releases only what one of its threads
      acquired.  With `orderly` it moreover releases an id only while none of its threads is in a
      PROCESS call on it, and then a stray release is allowed too. */
  predicate Enabled(orderly: bool, s: State, step: Step) {
    match step
    case Spawn(pid) => pid != 0
    case Open(t) => t < |s.threads| && s.threads[t].pid !in s.open && Alone(s.threads, s.threads[t].pid)
    case Enlist(t) => t < |s.threads| && s.threads[t].pc == Opening
    case Process(t, _, _) => MayCall(s, t)
    case TakePermit(t) => t < |s.threads| && s.threads[t].pc.Waiting? && s.threads[t].pc.i < |s.dev.items|
                          && s.dev.items[s.threads[t].pc.i].sem > 0
    case Signal(t) => t < |s.threads| && s.threads[t].pc.Waiting?
    case SetOwner(t) => t < |s.threads| && s.threads[t].pc.Permitted?
    case GiveUp(t) => t < |s.threads| && s.threads[t].pc.Interrupted?
    case Unlocking(t, sid, holder) =>
      MayCall(s, t) && (orderly ==> NoneCalling(s.threads, s.threads[t].pid, sid))
      && (Gives(s.threads, s.threads[t].pid, sid, holder) || (orderly && NoneHeld(s.threads, s.threads[t].pid, sid)))
    case Close(t) => t < |s.threads| && s.threads[t].pid in s.open && Alone(s.threads, s.threads[t].pid)
    case Drain(t, holder) =>
      t < |s.threads| && s.threads[t].pc.Draining?
      && (Gives(s.threads, s.threads[t].pid, s.threads[t].pc.sid, holder)
          || NoneHeld(s.threads, s.threads[t].pid, s.threads[t].pc.sid))
    case Recheck(t) => t < |s.threads| && s.threads[t].pc.Rechecking?
    case EndSession(t) => t < |s.threads| && s.threads[t].pc == Closed
  }

  function SetItem(d: Device, i: nat, item: Item): Device
    requires i < |d.items|
  {
    d.(items := d.items[i := item])
  }

  predicate Indexed(d: Device, i: nat, j: nat) {
    i < |d.items| && j < |d.items[i].refs|
  }

  function Goto(threads: seq<Thread>, t: nat, pc: Pc): seq<Thread>
    requires t < |threads|
  {
    threads[t := threads[t].(pc := pc)]
  }

  function GiveBack(threads: seq<Thread>, holder: nat, sid: nat): (r: seq<Thread>)
    ensures |r| == |threads|
  {
    if holder < |threads| then threads[holder := threads[holder].Unhold(sid)] else threads
  }

  /** The walk of a closing process: stop at the next reference to release, or remove the pid. */
  function Walk(s: State, t: nat, p: nat, from: nat): State
    requires t < |s.threads|
  {
    match NextHeld(s.dev.items, s.threads[t].pid, from)
    case Found(i, j, sid) => s.(threads := Goto(s.threads, t, Draining(p, i, j, sid)))
    case Clear =>
      State(if p < |s.dev.pids| then s.dev.(pids := s.dev.pids[p := 0]) else s.dev,
            Goto(s.threads, t, Closed), s.open)
    case Loops => s
  }

  // ---------------------------------------------------------------- what each step does
  // Index checks that fail only in unreachable states leave the state alone.

  function AfterSpawn(s: State, pid: nat): State {
    s.(threads := s.threads + [Thread(pid, Idle, map[])])
  }

  function AfterOpen(s: State, t: nat): State
    requires t < |s.threads|
  {
    State(s.dev.(sessions := s.dev.sessions + 1), Goto(s.threads, t, Opening), s.open + {s.threads[t].pid})
  }

  function AfterEnlist(s: State, t: nat): State
    requires t < |s.threads|
  {
    var d := ClientAdd(s.dev, s.threads[t].pid);
    s.(dev := if d.Some? then d.value else s.dev, threads := Goto(s.threads, t, Idle))
  }

  /** A thread after its booking: unchanged, holding once more, or waiting. */
  function Booked(t: Thread, sid: nat, b: Booking): Thread {
    match b
    case Refused => t
    case AlreadyOwner(_, _) => t.Hold(sid)
    case MustWait(i, j) => t.(pc := Waiting(sid, i, j))
  }

  function AfterProcess(s: State, t: nat, sid: nat, usage: nat): State
    requires Shaped(s.dev) && t < |s.threads|
  {
    var (d, b) := Book(s.dev, s.threads[t].pid, sid, usage);
    s.(dev := d, threads := s.threads[t := Booked(s.threads[t], sid, b)])
  }

  function AfterTakePermit(s: State, t: nat): State
    requires t < |s.threads| && s.threads[t].pc.Waiting? && s.threads[t].pc.i < |s.dev.items|
  {
    var pc := s.threads[t].pc;
    var item := s.dev.items[pc.i];
    s.(dev := SetItem(s.dev, pc.i, item.(sem := item.sem - 1)),
       threads := Goto(s.threads, t, Permitted(pc.sid, pc.i, pc.j)))
  }

  function AfterSignal(s: State, t: nat): State
    requires t < |s.threads| && s.threads[t].pc.Waiting?
  {
    var pc := s.threads[t].pc;
    s.(threads := Goto(s.threads, t, Interrupted(pc.sid, pc.i, pc.j)))
  }

  function AfterSetOwner(s: State, t: nat): State
    requires t < |s.threads| && s.threads[t].pc.Permitted?
  {
    var pc := s.threads[t].pc;
    if pc.i < |s.dev.items| then
      s.(dev := SetItem(s.dev, pc.i, s.dev.items[pc.i].(owner := s.threads[t].pid)),
         threads := s.threads[t := s.threads[t].Hold(pc.sid).(pc := Idle)])
    else s
  }

  function AfterGiveUp(s: State, t: nat): State
    requires t < |s.threads| && s.threads[t].pc.Interrupted?
  {
    var pc := s.threads[t].pc;
    if Indexed(s.dev, pc.i, pc.j) then
      s.(dev := SetItem(s.dev, pc.i, Restore(s.dev.items[pc.i], pc.j)), threads := Goto(s.threads, t, Idle))
    else s
  }

  function AfterUnlocking(s: State, pid: nat, sid: nat, holder: nat): State {
    var (d, r) := Release(s.dev, pid, sid);
    s.(dev := d, threads := if r.Released? then GiveBack(s.threads, holder, sid) else s.threads)
  }

  function AfterClose(s: State, t: nat): State
    requires t < |s.threads|
  {
    var p := FindClient(s.dev.pids, s.threads[t].pid);
    if p < 0 then s.(threads := Goto(s.threads, t, Closed)) else Walk(s, t, p, 0)
  }

  function AfterDrain(s: State, t: nat, holder: nat): State
    requires t < |s.threads| && s.threads[t].pc.Draining?
  {
    var pc := s.threads[t].pc;
    var s1 := AfterUnlocking(s, s.threads[t].pid, pc.sid, holder);
    s1.(threads := Goto(s1.threads, t, Rechecking(pc.p, pc.i, pc.j, pc.sid)))
  }

  function AfterRecheck(s: State, t: nat): State
    requires t < |s.threads| && s.threads[t].pc.Rechecking?
  {
    var pc := s.threads[t].pc;
    if Indexed(s.dev, pc.i, pc.j) && s.dev.items[pc.i].refs[pc.j].refCount != 0
    then s.(threads := Goto(s.threads, t, Draining(pc.p, pc.i, pc.j, pc.sid)))
    else Walk(s, t, pc.p, pc.i + 1)
  }

  /** The session has ended, and the tables are as they were. */
  function SessionEnded(s: State, t: nat): State
    requires t < |s.threads|
  {
    State(s.dev.(sessions := s.dev.sessions - 1), Goto(s.threads, t, Idle), s.open - {s.threads[t].pid})
  }

  function AfterEndSession(s: State, t: nat): State
    requires t < |s.threads|
  {
    var n := SessionEnded(s, t);
    if n.dev.sessions == 0 then n.(dev := Zap(n.dev)) else n
  }

  function Apply(s: State, step: Step): State
    requires Shaped(s.dev)
    requires Enabled(true, s, step) || Enabled(false, s, step)
  {
    match step
    case Spawn(pid) => AfterSpawn(s, pid)
    case Open(t) => AfterOpen(s, t)
    case Enlist(t) => AfterEnlist(s, t)
    case Process(t, sid, usage) => AfterProcess(s, t, sid, usage)
    case TakePermit(t) => AfterTakePermit(s, t)
    case Signal(t) => AfterSignal(s, t)
    case SetOwner(t) => AfterSetOwner(s, t)
    case GiveUp(t) => AfterGiveUp(s, t)
    case Unlocking(t, sid, holder) => AfterUnlocking(s, s.threads[t].pid, sid, holder)
    case Close(t) => AfterClose(s, t)
    case Drain(t, holder) => AfterDrain(s, t, holder)
    case Recheck(t) => AfterRecheck(s, t)
    case EndSession(t) => AfterEndSession(s, t)
  }
}
