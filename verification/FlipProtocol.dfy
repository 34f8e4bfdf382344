/** Page flips and the events that report them: a flip queues its event, a vsync hands all queued
    events to the files that asked, and switching off waits until no flip is pending. */
module FlipProtocol {
  import opened Options

  datatype Event = Event(id: nat, file: nat)

  type Inboxes = map<nat, seq<Event>>

  function Inbox(files: Inboxes, f: nat): seq<Event> {
    if f in files then files[f] else []
  }

  function Deliver(files: Inboxes, e: Event): Inboxes {
    files[e.file := Inbox(files, e.file) + [e]]
  }

  function DeliverAll(files: Inboxes, events: seq<Event>): Inboxes {
    if events == [] then files
    else Deliver(DeliverAll(files, events[..|events| - 1]), events[|events| - 1])
  }

  /** The events of one file, in order. */
  function Of(events: seq<Event>, f: nat): seq<Event> {
    if events == [] then []
    else
      var e := events[|events| - 1];
      Of(events[..|events| - 1], f) + if e.file == f then [e] else []
  }

  /** A list without the last occurrence of an event. */
  function Unlinked(events: seq<Event>, e: Event): seq<Event> {
    if events == [] then []
    else if events[|events| - 1] == e then events[..|events| - 1]
    else Unlinked(events[..|events| - 1], e) + [events[|events| - 1]]
  }

  lemma {:induction false} DeliveredInOrder(files: Inboxes, events: seq<Event>, f: nat)
    ensures Inbox(DeliverAll(files, events), f) == Inbox(files, f) + Of(events, f)
  {
    if events != [] {
      var rest, e := events[..|events| - 1], events[|events| - 1];
      DeliveredInOrder(files, rest, f);
      if e.file == f { assert Inbox(files, f) + (Of(rest, f) + [e]) == (Inbox(files, f) + Of(rest, f)) + [e]; }
    }
  }

  lemma OfAppend(events: seq<Event>, e: Event, f: nat)
    ensures Of(events + [e], f) == Of(events, f) + if e.file == f then [e] else []
  {
    assert (events + [e])[..|events|] == events;
  }

  /** The events of one file are those events of the list that are its own, in the order of the list: none
      of no event, one of one event, and of two lists those of the first before those of the second. */
  lemma {:induction false} OfParts(a: seq<Event>, b: seq<Event>, e: Event, f: nat)
    ensures Of([], f) == [] && Of([e], f) == if e.file == f then [e] else []
    ensures Of(a + b, f) == Of(a, f) + Of(b, f)
  {
    assert [e][..0] == [];
    if b == [] {
      assert a + b == a;
    } else {
      OfParts(a, b[..|b| - 1], e, f);
      assert (a + b)[..|a + b| - 1] == a + b[..|b| - 1];
    }
  }

  // ---------------------------------------------------------------- states and steps

  /** `flight` is the flip between queueing its event and knowing whether the new frame could be set;
      `accepted` are the events of flips that succeeded or are in flight, in order, and `overtaken`
      counts the failed flips whose event a vsync had handed over already. */
  datatype State = State(on: bool, queue: seq<Event>, pending: int, refs: int, files: Inboxes,
                         flight: Option<Event>, accepted: seq<Event>, overtaken: nat)

  datatype Step =
    | PowerOn
    | PowerOff
    | BeginFlip(e: Event)
    | FlipSet
    | FlipFailed
    | Vsync

  const Init := State(false, [], 0, 0, map[], None, [], 0)

  /** One flip at a time; switching off waits until nothing is pending.  With `atomic` no vsync comes
      while a flip is in flight. */
  predicate Enabled(atomic: bool, s: State, step: Step) {
    match step
    case PowerOn => true
    case PowerOff => s.pending == 0
    case BeginFlip(_) => s.on && s.flight == None
    case FlipSet => s.flight.Some?
    case FlipFailed => s.flight.Some?
    case Vsync => atomic ==> s.flight == None
  }

  /** A failed flip unlinks its event from the list it is on. */
  function AfterFailure(s: State, e: Event): State {
    var n := |s.accepted|;
    var s1 := s.(flight := None, pending := s.pending - 1, refs := s.refs - 1,
                 accepted := if n > 0 then s.accepted[..n - 1] else []);
    if e in s.queue then s1.(queue := Unlinked(s.queue, e))
    else s1.(files := s.files[e.file := Unlinked(Inbox(s.files, e.file), e)], overtaken := s.overtaken + 1)
  }

  function Apply(s: State, step: Step): State
    requires Enabled(true, s, step) || Enabled(false, s, step)
  {
    match step
    case PowerOn => s.(on := true)
    case PowerOff => s.(on := false)
    case BeginFlip(e) => s.(queue := s.queue + [e], pending := s.pending + 1, refs := s.refs + 1, flight := Some(e),
                            accepted := s.accepted + [e])
    case FlipSet => s.(flight := None)
    case FlipFailed => AfterFailure(s, s.flight.value)
    case Vsync => s.(queue := [], files := DeliverAll(s.files, s.queue),
                     pending := s.pending - |s.queue|, refs := s.refs - |s.queue|)
  }

  function Run(atomic: bool, s: State, steps: seq<Step>): Option<State>
    decreases |steps|
  {
    if steps == [] then Some(s)
    else if Enabled(atomic, s, steps[0]) then Run(atomic, Apply(s, steps[0]), steps[1..])
    else None
  }

  ghost predicate Reachable(atomic: bool, s: State) {
    exists steps :: Run(atomic, Init, steps) == Some(s)
  }

  // ---------------------------------------------------------------- the invariant

  ghost predicate Delivered(s: State) {
    forall f :: Inbox(s.files, f) + Of(s.queue, f) == Of(s.accepted, f)
  }

  /** The queue is the end of what was accepted, and is counted but for the overtaken flips. */
  ghost predicate Queued(atomic: bool, s: State) {
    && s.pending == s.refs == |s.queue| - s.overtaken
    && |s.queue| <= |s.accepted| && s.queue == s.accepted[|s.accepted| - |s.queue|..]
    && (s.flight.Some? ==> s.accepted != [] && s.accepted[|s.accepted| - 1] == s.flight.value)
    && (atomic ==> s.overtaken == 0 && (s.flight.Some? ==> s.queue != []))
  }

  ghost predicate Balanced(atomic: bool, s: State) {
    Queued(atomic, s) && Delivered(s)
  }

  /** A list that ends with an event loses its end, and its files' parts lose what was there. */
  lemma OfEnd(events: seq<Event>, e: Event, f: nat)
    requires events != [] && events[|events| - 1] == e
    ensures Unlinked(events, e) == events[..|events| - 1]
    ensures Of(events, f) == Of(events[..|events| - 1], f) + if e.file == f then [e] else []
  {
  }

  lemma InboxEnd(inbox: seq<Event>, rest: seq<Event>, e: Event)
    requires inbox == rest + [e]
    ensures Unlinked(inbox, e) == rest
  {
  }

  lemma DropEnd(x: seq<Event>, y: seq<Event>, z: seq<Event>, e: Event)
    requires x + (y + [e]) == z + [e]
    ensures x + y == z
  {
    assert x + (y + [e]) == (x + y) + [e];
    assert ((x + y) + [e])[..|x + y|] == x + y && (z + [e])[..|z|] == z;
  }

  lemma FailureDelivered(s: State, e: Event, f: nat)
    requires s.accepted != [] && s.accepted[|s.accepted| - 1] == e
    requires s.queue != [] ==> s.queue[|s.queue| - 1] == e
    requires forall g :: Inbox(s.files, g) + Of(s.queue, g) == Of(s.accepted, g)
    ensures var s' := AfterFailure(s, e); Inbox(s'.files, f) + Of(s'.queue, f) == Of(s'.accepted, f)
  {
    assert Inbox(s.files, f) + Of(s.queue, f) == Of(s.accepted, f);
    OfEnd(s.accepted, e, f);
    if s.queue != [] {
      OfEnd(s.queue, e, f);
      var inbox, q, a := Inbox(s.files, f), Of(s.queue[..|s.queue| - 1], f), Of(s.accepted[..|s.accepted| - 1], f);
      assert s.queue[|s.queue| - 1] in s.queue;
      assert q + [] == q && a + [] == a;
      if e.file == f { DropEnd(inbox, q, a, e); }
    } else if e.file == f {
      InboxEnd(Inbox(s.files, f), Of(s.accepted[..|s.accepted| - 1], f), e);
    }
  }

  lemma FailureBalanced(atomic: bool, s: State)
    requires Balanced(atomic, s) && s.flight.Some?
    ensures Balanced(atomic, AfterFailure(s, s.flight.value))
  {
    FailureQueued(atomic, s);
    FailureDelivers(atomic, s);
  }

  lemma FailureQueued(atomic: bool, s: State)
    requires Queued(atomic, s) && s.flight.Some?
    ensures Queued(atomic, AfterFailure(s, s.flight.value))
  {
    if s.queue != [] { TailShorter(s.accepted, s.queue, s.flight.value); }
  }

  lemma FailureDelivers(atomic: bool, s: State)
    requires Balanced(atomic, s) && s.flight.Some?
    ensures Delivered(AfterFailure(s, s.flight.value))
  {
    var e := s.flight.value;
    var s' := AfterFailure(s, e);
    assert s.queue != [] ==> s.queue[|s.queue| - 1] == e;
    forall f ensures Inbox(s'.files, f) + Of(s'.queue, f) == Of(s'.accepted, f) { FailureDelivered(s, e, f); }
  }

  /** A tail that ends with the event and loses it is a tail of the list that loses its own end. */
  lemma TailShorter(list: seq<Event>, tail: seq<Event>, e: Event)
    requires 0 < |tail| <= |list| && tail == list[|list| - |tail|..] && list[|list| - 1] == e
    ensures tail[|tail| - 1] == e && e in tail && Unlinked(tail, e) == tail[..|tail| - 1]
    ensures tail[..|tail| - 1] == list[..|list| - 1][|list| - |tail|..]
  {
    assert tail[|tail| - 1] == e;
    OfEnd(tail, e, e.file);
  }

  lemma FlipBalanced(atomic: bool, s: State, e: Event)
    requires Balanced(atomic, s) && Enabled(atomic, s, BeginFlip(e))
    ensures Balanced(atomic, Apply(s, BeginFlip(e)))
  {
    assert Delivered(Apply(s, BeginFlip(e))) by {
      forall f ensures Inbox(s.files, f) + Of(s.queue + [e], f) == Of(s.accepted + [e], f) {
        assert Inbox(s.files, f) + Of(s.queue, f) == Of(s.accepted, f);
        AppendedDelivered(Inbox(s.files, f), s.queue, s.accepted, e, f);
      }
    }
  }

  lemma AppendedDelivered(inbox: seq<Event>, queue: seq<Event>, accepted: seq<Event>, e: Event, f: nat)
    requires inbox + Of(queue, f) == Of(accepted, f)
    ensures inbox + Of(queue + [e], f) == Of(accepted + [e], f)
  {
    var tail := if e.file == f then [e] else [];
    OfAppend(queue, e, f);
    OfAppend(accepted, e, f);
    Joined(inbox, Of(queue, f), tail);
  }

  lemma Joined(a: seq<Event>, b: seq<Event>, c: seq<Event>)
    ensures a + (b + c) == (a + b) + c
  {
  }

  lemma VsyncBalanced(atomic: bool, s: State)
    requires Balanced(atomic, s) && Enabled(atomic, s, Vsync)
    ensures Balanced(atomic, Apply(s, Vsync))
  {
    var s' := Apply(s, Vsync);
    forall f ensures Inbox(s'.files, f) + Of(s'.queue, f) == Of(s'.accepted, f) {
      DeliveredInOrder(s.files, s.queue, f);
      assert Inbox(s.files, f) + Of(s.queue, f) == Of(s.accepted, f);
    }
  }

  lemma StepBalanced(atomic: bool, s: State, step: Step)
    requires Balanced(atomic, s) && Enabled(atomic, s, step)
    ensures Balanced(atomic, Apply(s, step))
  {
    match step
    case BeginFlip(e) => FlipBalanced(atomic, s, e);
    case Vsync => VsyncBalanced(atomic, s);
    case FlipFailed => FailureBalanced(atomic, s);
    case _ =>
  }

  lemma {:induction false} RunBalanced(atomic: bool, s: State, steps: seq<Step>, s': State)
    requires Balanced(atomic, s) && Run(atomic, s, steps) == Some(s')
    ensures Balanced(atomic, s')
    decreases |steps|
  {
    if steps != [] {
      StepBalanced(atomic, s, steps[0]);
      RunBalanced(atomic, Apply(s, steps[0]), steps[1..], s');
    }
  }

  lemma ReachableBalanced(atomic: bool, s: State)
    requires Reachable(atomic, s)
    ensures Balanced(atomic, s)
  {
    var steps :| Run(atomic, Init, steps) == Some(s);
    RunBalanced(atomic, Init, steps, s);
  }

  // ---------------------------------------------------------------- theorems

  /** With flips atomic against the vsync, the pending count is the queue's length and the vblank
      references held for flips, so that switching off proceeds exactly when the queue is empty. */
  lemma PendingConserved(s: State)
    requires Reachable(true, s)
    ensures s.pending == |s.queue| == s.refs
    ensures Enabled(true, s, PowerOff) <==> s.queue == []
  {
    ReachableBalanced(true, s);
  }

  /** Interleaved as the code allows, the counts are right if and only if no failed flip was overtaken. */
  lemma PendingConservedIff(s: State)
    requires Reachable(false, s)
    ensures s.pending == s.refs == |s.queue| - s.overtaken
    ensures s.pending == |s.queue| <==> s.overtaken == 0
    ensures Enabled(false, s, PowerOff) <==> |s.queue| == s.overtaken
  {
    ReachableBalanced(false, s);
  }

  /** While the display is off no flip begins: after a power-off the next one comes after a power-on. */
  lemma {:induction false} NoFlipWhileOff(atomic: bool, s: State, steps: seq<Step>)
    requires !s.on && Run(atomic, s, steps).Some? && PowerOn !in steps
    ensures (forall e :: BeginFlip(e) !in steps) && !Run(atomic, s, steps).value.on
    decreases |steps|
  {
    if steps != [] {
      NoFlipWhileOff(atomic, Apply(s, steps[0]), steps[1..]);
      assert steps == [steps[0]] + steps[1..];
    }
  }

  lemma OffAfterPowerOff(atomic: bool, s: State, steps: seq<Step>)
    requires Enabled(atomic, s, PowerOff) && Run(atomic, Apply(s, PowerOff), steps).Some? && PowerOn !in steps
    ensures (forall e :: BeginFlip(e) !in steps) && !Run(atomic, Apply(s, PowerOff), steps).value.on
    ensures forall e :: !Enabled(atomic, Run(atomic, Apply(s, PowerOff), steps).value, BeginFlip(e))
    ensures Enabled(atomic, s, PowerOn) && Apply(s, PowerOn).on
  {
    NoFlipWhileOff(atomic, Apply(s, PowerOff), steps);
  }

  /** What a failing flip does to the count can be told when it fails: with the counts right, they stay
      right if and only if the flip's event is still queued. */
  lemma FailureKeepsCountIff(s: State)
    requires Reachable(false, s) && s.flight.Some? && s.pending == |s.queue|
    ensures var s' := Apply(s, FlipFailed); s'.pending == |s'.queue| <==> s.flight.value in s.queue
  {
    ReachableBalanced(false, s);
    if s.queue != [] { TailShorter(s.accepted, s.queue, s.flight.value); }
  }

  /** Every event of an accepted flip is in its own file's inbox or still queued for it, exactly once
      and in flip order, and nothing else is; after a vsync it is in the inbox. */
  lemma EventsReachTheirFiles(atomic: bool, s: State, f: nat)
    requires Reachable(atomic, s)
    ensures Inbox(s.files, f) + Of(s.queue, f) == Of(s.accepted, f)
    ensures Enabled(atomic, s, Vsync) ==> Inbox(Apply(s, Vsync).files, f) == Of(s.accepted, f)
  {
    ReachableBalanced(atomic, s);
    DeliveredInOrder(s.files, s.queue, f);
  }

  lemma {:induction false} RunAppend(atomic: bool, s: State, steps: seq<Step>, s': State, step: Step)
    requires Run(atomic, s, steps) == Some(s') && Enabled(atomic, s', step)
    ensures Run(atomic, s, steps + [step]) == Some(Apply(s', step))
    decreases |steps|
  {
    if steps == [] {
      assert (steps + [step])[1..] == [];
    } else {
      assert (steps + [step])[1..] == steps[1..] + [step];
      RunAppend(atomic, Apply(s, steps[0]), steps[1..], s', step);
    }
  }

  lemma ReachableStep(atomic: bool, s: State, step: Step)
    requires Reachable(atomic, s) && Enabled(atomic, s, step)
    ensures Reachable(atomic, Apply(s, step))
  {
    var steps :| Run(atomic, Init, steps) == Some(s);
    RunAppend(atomic, Init, steps, s, step);
  }

  /** Whenever a flip is in flight, a vsync followed by its failure leaves an empty queue with a pending
      count below zero, and switching off then waits although nothing is queued. */
  lemma OvertakenFlip(s: State)
    requires Reachable(false, s) && s.flight.Some?
    ensures var s' := Apply(Apply(s, Vsync), FlipFailed);
            Reachable(false, s') && s'.queue == [] && s'.pending < 0 && !Enabled(false, s', PowerOff)
  {
    var s1 := Apply(s, Vsync);
    ReachableStep(false, s, Vsync);
    ReachableStep(false, s1, FlipFailed);
    PendingConservedIff(Apply(s1, FlipFailed));
  }

  /** Flips with any event do get in flight. */
  lemma FlightReached(e: Event) returns (s: State)
    ensures Reachable(false, s) && s.flight == Some(e)
  {
    assert Run(false, Init, []) == Some(Init);
    ReachableStep(false, Init, PowerOn);
    s := Apply(Apply(Init, PowerOn), BeginFlip(e));
    ReachableStep(false, Apply(Init, PowerOn), BeginFlip(e));
  }

  /** So some run overtakes a flip: it is one frame short, with an empty queue, and a power-off waits. */
  lemma PowerOffMayWait(e: Event) returns (s: State)
    ensures Reachable(false, s) && s.queue == [] && s.pending < 0 && !Enabled(false, s, PowerOff)
  {
    s := FlightReached(e);
    OvertakenFlip(s);
    s := Apply(Apply(s, Vsync), FlipFailed);
  }
}
