/** The display controller's flip state as its methods update it, each call undisturbed. */
module FlipDriver {
  import opened Options
  import opened FlipProtocol

  /** Power levels run from 0, on, to 3, off. */
  class FlipCrtc {
    var dpms: nat
    var fb: nat
    var queue: seq<Event>
    var pendingFlip: int
    var vblankRefs: int
    var files: Inboxes

    constructor ()
      ensures Valid() && queue == [] && files == map[] && dpms == 3
    {
      dpms, fb, queue, pendingFlip, vblankRefs, files := 3, 0, [], 0, 0, map[];
    }

    /** The pending count, the queue and the vblank references agree. */
    ghost predicate Valid()
      reads this
    {
      pendingFlip == |queue| == vblankRefs
    }

    /** Asks for a new frame, with an event if the caller wants to be told.  A call that fails, for
        whatever reason, leaves frame, queue and counts as they were. */
    method PageFlip(newFb: nat, event: Option<Event>, vblankOk: bool, setOk: bool) returns (ok: bool)
      requires Valid()
      modifies this`fb, this`queue, this`pendingFlip, this`vblankRefs
      ensures Valid()
      ensures ok <==> dpms == 0 && setOk && (event == None || vblankOk)
      ensures fb == if ok then newFb else old(fb)
      ensures queue == if ok && event.Some? then old(queue) + [event.value] else old(queue)
    {
      if dpms > 0 { return false; }
      var oldFb := fb;
      if event.Some? {
        if !vblankOk { return false; }
        vblankRefs := vblankRefs + 1;
        queue := queue + [event.value];
        pendingFlip := pendingFlip + 1;
        fb := newFb;
        if !setOk {
          fb := oldFb;
          vblankRefs := vblankRefs - 1;
          queue := Unlinked(queue, event.value);
          pendingFlip := pendingFlip - 1;
          return false;
        }
      } else {
        fb := newFb;
        if !setOk {
          fb := oldFb;
          return false;
        }
      }
      ok := true;
    }

    /** Hands every queued event to its file. */
    method FinishPageflip()
      requires Valid()
      modifies this`queue, this`pendingFlip, this`vblankRefs, this`files
      ensures Valid() && queue == [] && files == DeliverAll(old(files), old(queue))
      ensures forall f :: Inbox(files, f) == Inbox(old(files), f) + Of(old(queue), f)
    {
      ghost var k := 0;
      assert old(queue)[0..] == old(queue);
      while queue != []
        invariant k + |queue| == |old(queue)| && queue == old(queue)[k..]
        invariant files == DeliverAll(old(files), old(queue)[..k]) && Valid()
        decreases |queue|
      {
        var e := queue[0];
        assert old(queue)[..k + 1][..k] == old(queue)[..k];
        queue := queue[1..];
        files := Deliver(files, e);
        vblankRefs := vblankRefs - 1;
        pendingFlip := pendingFlip - 1;
        k := k + 1;
      }
      assert old(queue)[..k] == old(queue);
      forall f ensures Inbox(files, f) == Inbox(old(files), f) + Of(old(queue), f) {
        DeliveredInOrder(old(files), old(queue), f);
      }
    }

    /** Switching off waits for the pending flips: the call gets through exactly when none is queued. */
    method Dpms(mode: nat) returns (through: bool)
      requires Valid()
      modifies this`dpms
      ensures through <==> mode == old(dpms) || mode == 0 || queue == []
      ensures dpms == if through then mode else old(dpms)
    {
      if dpms == mode { return true; }
      if mode > 0 && pendingFlip != 0 { return false; }
      dpms := mode;
      through := true;
    }
  }
}
