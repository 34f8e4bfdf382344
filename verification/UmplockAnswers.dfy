/** What the calls of the lock driver answer, told from the references and owners that the tables stand
    for, and what the client list and the zap do to them. */
module UmplockAnswers {
  import opened Options
  import opened UmplockTables
  import opened UmplockAccounting
  import opened UmplockExclusion
  import opened UmplockDisorder

  predicate Client(d: Device, pid: nat) {
    pid != 0 && Registered(d.pids, pid)
  }

  /** RELEASE answers -EINVAL for id 0 and to a client without a reference, -EPERM to anybody else who is
      no client or does not own the item, and otherwise gives back a reference; over consistent tables it
      never answers success with nothing given back. */
  lemma ReleaseAnswers(d: Device, pid: nat, sid: nat)
    requires Consistent(d)
    ensures var r, n, owner := Release(d, pid, sid).1, Count(d.items, sid, pid), OwnerOf(d.items, sid);
            && (r == Failed(EINVAL) <==> sid == 0 || (Client(d, pid) && n == 0))
            && (r == Failed(EPERM) <==> sid != 0 && (!Client(d, pid) || (n > 0 && owner != pid)))
            && (r.Released? <==> sid != 0 && Client(d, pid) && n > 0 && owner == pid)
            && r != NothingHeld
  {
    if sid != 0 && pid != 0 {
      LocateAnswersCount(d, pid, sid);
      var at := Locate(d.items, pid, sid);
      if at.Some? { CountInSlot(d.items[at.value.0], at.value.1); }
    }
  }

  /** PROCESS is refused exactly for id 0, to a process that is no client, and when the id is not live and
      no item is free; on a live item it returns at once exactly to the owner. */
  lemma BookAnswers(d: Device, pid: nat, sid: nat, usage: nat)
    requires Consistent(d)
    ensures var b := Book(d, pid, sid, usage).1;
            && (b == Refused <==>
                  sid == 0 || !Client(d, pid)
                  || forall i :: 0 <= i < |d.items| ==> d.items[i].sid != sid && d.items[i].sid != 0)
            && (b != Refused && FindItem(d.items, sid) >= 0 ==> (b.AlreadyOwner? <==> OwnerOf(d.items, sid) == pid))
  {
    if sid != 0 && Client(d, pid) && FindItem(d.items, sid) >= 0 { LiveItemAccepts(d, pid, sid); }
    if Accepts(d, pid, sid) {
      var i, j := BookLands(d, pid, sid, usage);
    } else {
      BookRefuses(d, pid, sid, usage);
    }
  }

  /** The usage of an item is that of the PROCESS call that made it live. */
  lemma BookUsage(d: Device, pid: nat, sid: nat, usage: nat)
    requires Consistent(d) && Book(d, pid, sid, usage).1 != Refused
    ensures var d', b := Book(d, pid, sid, usage).0, Book(d, pid, sid, usage).1;
            && b.i < |d'.items| == |d.items|
            && d'.items[b.i].usage == (if FindItem(d.items, sid) >= 0 then d.items[b.i].usage else usage)
            && forall k :: 0 <= k < |d.items| && k != b.i ==> d'.items[k] == d.items[k]
  {
    if pid != 0 && Accepts(d, pid, sid) {
      var i, j := BookLands(d, pid, sid, usage);
    } else {
      BookRefuses(d, pid, sid, usage);
    }
  }

  /** Adding a client fails exactly when it is not listed and no slot is empty; otherwise it is listed
      afterwards, every other process as before, and the items are untouched. */
  lemma ClientAddLists(d: Device, pid: nat)
    requires pid != 0
    ensures var r := ClientAdd(d, pid);
            && (r == None <==> pid !in d.pids && 0 !in d.pids)
            && (r.Some? ==>
                  && pid in r.value.pids && |r.value.pids| == |d.pids|
                  && (forall q | q != 0 && q != pid :: q in r.value.pids <==> q in d.pids)
                  && (pid in d.pids ==> r.value == d)
                  && r.value.items == d.items && r.value.sessions == d.sessions)
  {
    var r := ClientAdd(d, pid);
    if r.Some? && pid !in d.pids {
      var p := FindPid(d.pids, 0);
      var pids' := r.value.pids;
      assert pids'[p] == pid;
      forall q | q != 0 && q != pid ensures q in pids' <==> q in d.pids {
        if q in d.pids {
          var k :| 0 <= k < |d.pids| && d.pids[k] == q;
          assert pids'[k] == q;
        }
      }
    }
  }

  /** After a zap no item is live, no slot and no client entry is used, and every semaphore has its one
      permit; owners, usages and totals are kept.  So every release is refused. */
  lemma ZapClears(d: Device, pid: nat, sid: nat)
    ensures var z := Zap(d);
            && |z.items| == |d.items| && |z.pids| == |d.pids| && z.sessions == d.sessions
            && (forall p :: 0 <= p < |z.pids| ==> z.pids[p] == 0)
            && (forall i :: 0 <= i < |z.items| ==>
                  && z.items[i].sid == 0 && z.items[i].sem == 1
                  && z.items[i].owner == d.items[i].owner && z.items[i].usage == d.items[i].usage
                  && z.items[i].idRef == d.items[i].idRef && |z.items[i].refs| == |d.items[i].refs|
                  && forall j :: 0 <= j < |z.items[i].refs| ==> z.items[i].refs[j] == Ref(0, 0, 0))
    ensures Release(Zap(d), pid, sid) == (Zap(d), Failed(if sid == 0 then EINVAL else EPERM))
    ensures pid != 0 ==> !Registered(Zap(d).pids, pid)
  {
  }
}
