/** The lock driver's tables as the arrays it updates in place, and its calls as they run under the
    driver's mutex.  Every method is tied to the specification of UmplockTables, from which the
    protocol is proved. */
module UmplockDriver {
  import opened UmplockTables
  import opened UmplockDeletion
  import UmplockProtocol

  class UmplockDevice {
    const items: array<Item>
    const pids: array<nat>
    var sessions: int

    ghost function Snapshot(): Device
      reads this, items, pids
    {
      Device(items[..], pids[..], sessions)
    }

    constructor (maxItems: nat, maxPids: nat)
      ensures fresh(items) && fresh(pids)
      ensures Snapshot() == UmplockProtocol.Init(maxItems, maxPids).dev
    {
      var blank := UmplockProtocol.EmptyItem.(refs := seq(maxPids, _ => NoRef));
      items := new Item[maxItems](_ => blank);
      pids := new nat[maxPids](_ => 0);
      sessions := 0;
    }

    // ---------------------------------------------------------------- linear searches

    method FindItem(sid: nat) returns (r: int)
      ensures r == UmplockTables.FindItem(items[..], sid)
    {
      var i := 0;
      while i < items.Length
        invariant 0 <= i <= items.Length
        invariant UmplockTables.FindItem(items[..i], sid) == -1
      {
        assert items[..i + 1][..i] == items[..i];
        if items[i].sid == sid {
          assert items[..][i].sid == sid;
          assert forall k :: 0 <= k < i ==> items[..][k] == items[..i][k];
          return i;
        }
        i := i + 1;
      }
      assert items[..i] == items[..];
      return -1;
    }

    /** Writes the two indices only when it finds; `i0` and `j0` are what they held before. */
    method FindItemByPid(pid: nat, sid: nat, i0: int, j0: int) returns (found: bool, i: int, j: int)
      ensures match Locate(items[..], pid, sid)
              case Some((k, l)) => found && i == k && j == l
              case None => !found && i == i0 && j == j0
    {
      i, j := i0, j0;
      var k := FindItem(sid);
      if k < 0 { return false, i, j; }
      var l := 0;
      while l < |items[k].refs|
        invariant 0 <= l <= |items[k].refs|
        invariant FindRef(items[k].refs[..l], pid) == -1
      {
        assert items[k].refs[..l + 1][..l] == items[k].refs[..l];
        if items[k].refs[l].pid == pid {
          assert forall m :: 0 <= m < l ==> items[k].refs[m] == items[k].refs[..l][m];
          return true, k, l;
        }
        l := l + 1;
      }
      assert items[k].refs[..l] == items[k].refs;
      found := false;
    }

    method FindClientValid(pid: nat) returns (r: int)
      ensures r == FindClient(pids[..], pid)
    {
      if pid == 0 { return -1; }
      var i := 0;
      while i < pids.Length
        invariant 0 <= i <= pids.Length
        invariant FindPid(pids[..i], pid) == -1
      {
        assert pids[..i + 1][..i] == pids[..i];
        if pids[i] == pid {
          assert pids[..][i] == pid;
          assert forall k :: 0 <= k < i ==> pids[..][k] == pids[..i][k];
          return i;
        }
        i := i + 1;
      }
      assert pids[..i] == pids[..];
      return -1;
    }

    // ---------------------------------------------------------------- PROCESS

    method CreateLocked(pid: nat, sid: nat, usage: nat) returns (ok: bool)
      requires Shaped(Snapshot())
      modifies items
      ensures match UmplockTables.CreateLocked(old(Snapshot()), pid, sid, usage)
              case None => !ok && Snapshot() == old(Snapshot())
              case Some(d) => ok && Snapshot() == d
    {
      var client := FindClientValid(pid);
      if client < 0 { return false; }
      assert pids[..][client] == pid;
      var found, i, j := FindItemByPid(pid, sid, -1, -1);
      if found { return true; }
      i := FindItem(sid);
      ghost var d := Snapshot();
      if i >= 0 {
        assert items[..][i] == items[i] && |items[i].refs| == pids.Length;
        j := 0;
        while j < pids.Length && items[i].refs[j].pid != 0
          invariant 0 <= j <= pids.Length
          invariant FindRef(items[i].refs[..j], 0) == -1
        {
          assert items[i].refs[..j + 1][..j] == items[i].refs[..j];
          j := j + 1;
        }
        assert FindRef(items[i].refs, 0) == if j < pids.Length then j else -1 by {
          assert items[i].refs[..pids.Length] == items[i].refs;
          assert forall m :: 0 <= m < j ==> items[i].refs[m] == items[i].refs[..j][m];
        }
        if j == pids.Length { return false; }
        items[i] := items[i].(refs := items[i].refs[j := Ref(0, pid, 0)]);
        assert items[..] == d.items[i := Install(d.items[i], j, pid)];
      } else {
        i := FindItem(0);
        if i < 0 { return false; }
        assert items[..][i] == items[i] && |items[i].refs| == pids.Length;
        items[i] := items[i].(sid := sid, idRef := 0, usage := usage);
        items[i] := items[i].(refs := items[i].refs[0 := Ref(0, pid, 0)]);
        items[i] := items[i].(sem := 1);
        assert items[..] == d.items[i := items[i]];
      }
      return true;
    }

    /** PROCESS up to its wait. */
    method BeginProcess(pid: nat, sid: nat, usage: nat) returns (b: Booking)
      requires Shaped(Snapshot())
      modifies items
      ensures (Snapshot(), b) == Book(old(Snapshot()), pid, sid, usage)
    {
      if sid == 0 { return Refused; }
      var ok := CreateLocked(pid, sid, usage);
      if !ok { return Refused; }
      var found, i, j := FindItemByPid(pid, sid, -1, -1);
      if !found { return Refused; }
      ghost var d := Snapshot();
      var r := items[i].refs[j];
      items[i] := items[i].(refs := items[i].refs[j := r.(refCount := r.refCount + 1)]);
      items[i] := items[i].(idRef := items[i].idRef + 1);
      if pid == items[i].owner {
        assert items[..] == d.items[i := AddCall(d.items[i], j, 0)];
        return AlreadyOwner(i, j);
      }
      r := items[i].refs[j];
      items[i] := items[i].(refs := items[i].refs[j := r.(down := r.down + 1)]);
      assert items[i].refs == AddCall(d.items[i], j, 1).refs;
      assert items[..] == d.items[i := AddCall(d.items[i], j, 1)];
      return MustWait(i, j);
    }

    /** PROCESS after a wait that was interrupted. */
    method EndInterrupted(i: nat, j: nat) returns (e: Errno)
      requires i < items.Length && j < |items[i].refs|
      modifies items
      ensures Snapshot() == old(Snapshot().(items := items[..][i := Restore(items[i], j)]))
      ensures e == ERESTARTSYS
    {
      var r := items[i].refs[j];
      items[i] := items[i].(refs := items[i].refs[j := Ref(r.refCount - 1, r.pid, r.down - 1)]);
      items[i] := items[i].(idRef := items[i].idRef - 1);
      if items[i].refs[j].refCount == 0 {
        items[i] := items[i].(refs := items[i].refs[j := items[i].refs[j].(pid := 0)]);
        if items[i].idRef == 0 {
          items[i] := items[i].(sid := 0);
        }
      }
      assert items[i].refs == old(items[i].refs)[j := items[i].refs[j]];
      e := ERESTARTSYS;
    }

    /** PROCESS after a wait that got the permit. */
    method EndProcess(i: nat, pid: nat)
      requires i < items.Length
      modifies items
      ensures Snapshot() == old(Snapshot().(items := items[..][i := items[i].(owner := pid)]))
    {
      items[i] := items[i].(owner := pid);
    }

    // ---------------------------------------------------------------- RELEASE

    method Release(pid: nat, sid: nat) returns (r: Releasing)
      modifies items
      ensures (Snapshot(), r) == UmplockTables.Release(old(Snapshot()), pid, sid)
    {
      if sid == 0 { return Failed(EINVAL); }
      var client := FindClientValid(pid);
      if client < 0 { return Failed(EPERM); }
      var found, i, j := FindItemByPid(pid, sid, -1, -1);
      if !found { return Failed(EINVAL); }
      if pid != items[i].owner { return Failed(EPERM); }
      if items[i].refs[j].refCount == 0 { return NothingHeld; }
      GiveBack(i, j);
      r := Released(i, j);
    }

    /** The part of RELEASE that changes the item. */
    method GiveBack(i: nat, j: nat)
      requires i < items.Length && j < |items[i].refs|
      modifies items
      ensures Snapshot() == old(Snapshot().(items := items[..][i := Unlock(items[i], j)]))
    {
      var r := items[i].refs[j];
      items[i] := items[i].(refs := items[i].refs[j := r.(refCount := r.refCount - 1)]);
      items[i] := items[i].(idRef := items[i].idRef - 1);
      var callUp := false;
      if items[i].refs[j].down > 1 {
        callUp := true;
        items[i] := items[i].(refs := items[i].refs[j := items[i].refs[j].(down := items[i].refs[j].down - 1)]);
      }
      if items[i].refs[j].refCount == 0 {
        items[i] := items[i].(refs := items[i].refs[j := items[i].refs[j].(pid := 0)]);
        if items[i].idRef == 0 {
          items[i] := items[i].(sid := 0);
        }
        items[i] := items[i].(owner := 0);
        callUp := true;
      }
      if callUp {
        items[i] := items[i].(sem := items[i].sem + 1);
      }
      assert items[i].refs == old(items[i].refs)[j := items[i].refs[j]];
    }

    // ---------------------------------------------------------------- clients and sessions

    method Zap()
      modifies items, pids
      ensures Snapshot() == UmplockTables.Zap(old(Snapshot()))
    {
      var i := 0;
      while i < items.Length
        invariant 0 <= i <= items.Length
        invariant forall k :: 0 <= k < i ==> items[k] == ZapItem(old(items[k]))
        invariant forall k :: i <= k < items.Length ==> items[k] == old(items[k])
        invariant pids[..] == old(pids[..])
      {
        items[i] := items[i].(sid := 0);
        items[i] := items[i].(refs := seq(|items[i].refs|, _ => NoRef));
        items[i] := items[i].(sem := 1);
        i := i + 1;
      }
      i := 0;
      while i < pids.Length
        invariant 0 <= i <= pids.Length
        invariant forall k :: 0 <= k < i ==> pids[k] == 0
        invariant forall k :: 0 <= k < items.Length ==> items[k] == ZapItem(old(items[k]))
      {
        pids[i] := 0;
        i := i + 1;
      }
    }

    method ClientAdd(pid: nat) returns (ok: bool)
      modifies pids
      ensures match UmplockTables.ClientAdd(old(Snapshot()), pid)
              case None => !ok && Snapshot() == old(Snapshot())
              case Some(d) => ok && Snapshot() == d
    {
      var i := 0;
      while i < pids.Length
        invariant 0 <= i <= pids.Length
        invariant FindPid(pids[..i], pid) == -1
      {
        assert pids[..i + 1][..i] == pids[..i];
        if pids[i] == pid {
          assert pids[..][i] == pid;
          return true;
        }
        i := i + 1;
      }
      assert pids[..i] == pids[..];
      i := 0;
      while i < pids.Length && pids[i] != 0
        invariant 0 <= i <= pids.Length
        invariant FindPid(pids[..i], 0) == -1
      {
        assert pids[..i + 1][..i] == pids[..i];
        i := i + 1;
      }
      assert pids[..pids.Length] == pids[..];
      assert forall k :: 0 <= k < i ==> pids[..][k] == pids[..i][k];
      assert FindPid(pids[..], 0) == if i < pids.Length then i else -1;
      if i < pids.Length {
        pids[i] := pid;
        return true;
      }
      return false;
    }

    /** Releases everything a process refers to and forgets the process. */
    method ClientDelete(pid: nat)
      requires Consistent(Snapshot()) && OwnsWhatItHolds(items[..], pid)
      modifies items, pids
      ensures Snapshot() == Deleted(old(Snapshot()), pid)
    {
      var p := FindClientValid(pid);
      if p < 0 { return; }
      assert pids[..][p] == pid;
      DrainItems(pid);
      pids[p] := 0;
    }

    /** The loop over the items.  The search writes the loop index, so the loop goes on behind the item
        it found. */
    method DrainItems(pid: nat)
      requires Consistent(Snapshot()) && pid != 0 && OwnsWhatItHolds(items[..], pid)
      modifies items
      ensures Snapshot() == DeletedUpTo(old(Snapshot()), pid, items.Length)
    {
      ghost var d := Snapshot();
      assert DeletedUpTo(d, pid, 0) == d;
      var i: int := 0;
      while i < items.Length
        invariant 0 <= i <= items.Length == |d.items|
        invariant Snapshot() == DeletedUpTo(d, pid, i)
        decreases items.Length - i
      {
        DeletionStep(d, pid, i, Snapshot());
        var found, i', j := FindItemByPid(pid, items[i].sid, i, -1);
        if found {
          DrainSlot(pid, items[i].sid, i', j);
        }
        i := i' + 1;
      }
    }

    /** The inner loop: release until the slot is empty. */
    method DrainSlot(pid: nat, sid: nat, i: nat, j: nat)
      requires Drains(Snapshot(), Snapshot(), pid, sid, i, j)
      modifies items
      ensures Snapshot() == old(Snapshot().(items := items[..][i := Drained(items[i], j)]))
    {
      ghost var d := Snapshot();
      while items[i].refs[j].refCount != 0
        invariant Drains(d, Snapshot(), pid, sid, i, j)
        decreases Snapshot().items[i].refs[j].refCount
      {
        DrainStep(d, Snapshot(), pid, sid, i, j);
        var r := Release(pid, sid);
      }
    }

    // ---------------------------------------------------------------- open and close

    method Open(pid: nat)
      modifies this, pids
      ensures var d := old(Snapshot()).(sessions := old(sessions) + 1);
              Snapshot() == match UmplockTables.ClientAdd(d, pid) case Some(d') => d' case None => d
    {
      sessions := sessions + 1;
      var ok := ClientAdd(pid);
    }

    method Close(pid: nat)
      requires Consistent(Snapshot()) && OwnsWhatItHolds(items[..], pid)
      modifies this, items, pids
      ensures var d := Deleted(old(Snapshot()), pid).(sessions := old(sessions) - 1);
              Snapshot() == if d.sessions == 0 then UmplockTables.Zap(d) else d
    {
      ClientDelete(pid);
      sessions := sessions - 1;
      if sessions == 0 {
        Zap();
      }
    }
  }
}
