/** The frame latch between commits and the vsync interrupt: commits write a register cache under a
    spin lock, and the interrupt handler copies the cache to the hardware if it gets the lock in a
    bounded number of attempts.  One step is what one side does while the other can interleave. */
module LatchProtocol {
  import opened Options

  datatype Write = Write(reg: nat, value: nat)

  type Registers = map<nat, nat>

  /** The handler's and the committers' frame counters, machine words. */
  datatype Counters = Counters(user: nat, userSkip: nat, ker: nat, kerSkip: nat)

  function Applied(regs: Registers, writes: seq<Write>): Registers {
    if writes == [] then regs
    else
      var n := |writes| - 1;
      Applied(regs, writes[..n])[writes[n].reg := writes[n].value]
  }

  /** The registers after complete commits. */
  function Replay(commits: seq<seq<Write>>): Registers {
    if commits == [] then map[] else Applied(Replay(commits[..|commits| - 1]), commits[|commits| - 1])
  }

  /** A register that is not written keeps its value, or has none. */
  lemma {:induction false} UnwrittenKeeps(regs: Registers, writes: seq<Write>, r: nat)
    requires forall k :: 0 <= k < |writes| ==> writes[k].reg != r
    ensures r in Applied(regs, writes) <==> r in regs
    ensures r in regs ==> Applied(regs, writes)[r] == regs[r]
  {
    if writes != [] { UnwrittenKeeps(regs, writes[..|writes| - 1], r); }
  }

  /** A register that is written holds the value of its last write. */
  lemma {:induction false} LastWriteHolds(regs: Registers, writes: seq<Write>, k: nat)
    requires k < |writes| && forall l :: k < l < |writes| ==> writes[l].reg != writes[k].reg
    ensures writes[k].reg in Applied(regs, writes) && Applied(regs, writes)[writes[k].reg] == writes[k].value
  {
    if k < |writes| - 1 { LastWriteHolds(regs, writes[..|writes| - 1], k); }
  }

  /** The writes of complete commits, one after the other. */
  function AllWrites(commits: seq<seq<Write>>): seq<Write> {
    if commits == [] then [] else AllWrites(commits[..|commits| - 1]) + commits[|commits| - 1]
  }

  lemma {:induction false} AppliedInTurn(regs: Registers, a: seq<Write>, b: seq<Write>)
    ensures Applied(regs, a + b) == Applied(Applied(regs, a), b)
  {
    if b == [] {
      assert a + b == a;
    } else {
      AppliedInTurn(regs, a, b[..|b| - 1]);
      assert (a + b)[..|a + b| - 1] == a + b[..|b| - 1];
    }
  }

  /** Complete commits leave what their writes leave in order. */
  lemma {:induction false} ReplayIsAllWrites(commits: seq<seq<Write>>)
    ensures Replay(commits) == Applied(map[], AllWrites(commits))
  {
    if commits != [] {
      ReplayIsAllWrites(commits[..|commits| - 1]);
      AppliedInTurn(map[], AllWrites(commits[..|commits| - 1]), commits[|commits| - 1]);
    }
  }

  // ---------------------------------------------------------------- counters

  function Bumped(c: Counters, word: nat): Counters
    requires word > 0
  {
    c.(user := (c.user + 1) % word)
  }

  /** A latch: all frames but the latest were skipped by the committers; the difference wraps. */
  function Latched(c: Counters, word: nat): Counters
    requires word > 0
  {
    c.(userSkip := (c.userSkip + (c.user - (c.ker + 1)) % word) % word, ker := c.user)
  }

  /** A vsync without a latch: a skip if something was pending. */
  function Missed(c: Counters, word: nat): Counters
    requires word > 0
  {
    if c.ker != c.user then c.(kerSkip := (c.kerSkip + 1) % word) else c
  }

  // ---------------------------------------------------------------- states and steps

  /** The commit that is going on, and how many of its writes are done. */
  datatype Commit = NoCommit | Commit(writes: seq<Write>, written: nat)

  datatype Handler = Resting | Trying | Holding

  /** What has happened since the last mode set: commits (and power-ons, which also announce a frame),
      how many of them the last latch covered, and how the vsyncs ended. */
  datatype Tally = Tally(commits: nat, covered: nat, vsyncs: nat, latches: nat, idles: nat, missed: nat)

  /** `done` are the complete commits, `latest` of which the hardware shows; `torn` are the writes it
      shows of a commit that was going on when it was latched.  `freed` says whether the handler has
      unlocked since the commit that is going on began. */
  datatype State = State(commit: Commit, locked: bool, freed: bool, handler: Handler, cache: Registers, hw: Registers, c: Counters,
                         done: seq<seq<Write>>, latest: nat, torn: seq<Write>, t: Tally)

  datatype Step =
    | BeginCommit(writes: seq<Write>)
    | WriteOne
    | EndCommit
    | PowerOn
    | PowerOffUnused
    | Prepare
    | Vsync(delay: int)
    | TryLock
    | LoseLock
    | Latch

  function Init(): State {
    State(NoCommit, false, false, Resting, map[], map[], Counters(0, 0, 0, 0), [], 0, [], Tally(0, 0, 0, 0, 0, 0))
  }

  /** With `zero` the handler may be told that no line is left, and then it goes on without trying the
      lock, which it unlocks all the same.  Commits exclude one another, and so do a commit and a mode set
      or a power-off; the handler is excluded by the lock alone. */
  predicate Enabled(zero: bool, s: State, step: Step) {
    match step
    case BeginCommit(_) => s.commit.NoCommit? && !s.locked
    case WriteOne => s.commit.Commit? && s.commit.written < |s.commit.writes|
    case EndCommit => s.commit.Commit? && s.commit.written == |s.commit.writes|
    case PowerOn => true
    case PowerOffUnused => s.commit.NoCommit?
    case Prepare => s.commit.NoCommit?
    case Vsync(delay) => s.handler == Resting && (delay == 0 ==> zero)
    case TryLock => s.handler == Trying && !s.locked
    case LoseLock => s.handler == Trying && s.locked
    case Latch => s.handler == Holding
  }

  /** The end of a vsync that latches nothing: a skip if a frame is pending, else an idle one. */
  function AfterMiss(s: State, word: nat): State
    requires word > 0
  {
    s.(handler := Resting, c := Missed(s.c, word),
       t := if s.c.ker != s.c.user then s.t.(missed := s.t.missed + 1) else s.t.(idles := s.t.idles + 1))
  }

  /** What a commit that is going on has written. */
  function Part(commit: Commit): seq<Write> {
    if commit.Commit? && commit.written <= |commit.writes| then commit.writes[..commit.written] else []
  }

  /** The copy of the cache, if a frame is still pending, with which the handler is done. */
  function Shown(s: State, word: nat): State
    requires word > 0
  {
    if s.c.ker == s.c.user then AfterMiss(s, word)
    else s.(handler := Resting, hw := s.cache, latest := |s.done|, torn := Part(s.commit), c := Latched(s.c, word),
            t := s.t.(covered := s.t.commits, latches := s.t.latches + 1))
  }

  /** The handler unlocks, whoever has the lock. */
  function Unlocked(s: State): State {
    s.(locked := false, freed := true)
  }

  function AfterVsync(s: State, delay: int, word: nat): State
    requires word > 0
  {
    var s1 := s.(t := s.t.(vsyncs := s.t.vsyncs + 1));
    if delay < 0 || s.c.ker == s.c.user then AfterMiss(s1, word)
    else if delay == 0 then Unlocked(Shown(s1, word))
    else s1.(handler := Trying)
  }

  /** The counts since a mode set begin with the vsync that is going on, if there is one. */
  function Fresh(handler: Handler): Tally {
    Tally(0, 0, if handler == Resting then 0 else 1, 0, 0, 0)
  }

  /** Another frame is announced. */
  function Announced(s: State, word: nat): State
    requires word > 0
  {
    s.(c := Bumped(s.c, word), t := s.t.(commits := s.t.commits + 1))
  }

  function Apply(s: State, step: Step, word: nat): State
    requires word > 0 && (Enabled(true, s, step) || Enabled(false, s, step))
  {
    match step
    case BeginCommit(writes) => Announced(s, word).(commit := Commit(writes, 0), locked := true, freed := false)
    case WriteOne =>
      var w := s.commit.writes[s.commit.written];
      s.(commit := Commit(s.commit.writes, s.commit.written + 1), cache := s.cache[w.reg := w.value])
    case EndCommit => s.(commit := NoCommit, locked := false, done := s.done + [s.commit.writes])
    case PowerOn => Announced(s, word)
    case PowerOffUnused => s.(c := s.c.(user := 0, ker := 0))
    case Prepare => s.(c := Counters(0, 0, 0, 0), t := Fresh(s.handler))
    case Vsync(delay) => AfterVsync(s, delay, word)
    case TryLock => s.(locked := true, handler := Holding)
    case LoseLock => AfterMiss(s, word)
    case Latch => Unlocked(Shown(s, word))
  }

  function Run(zero: bool, s: State, steps: seq<Step>, word: nat): Option<State>
    requires word > 0
    decreases |steps|
  {
    if steps == [] then Some(s)
    else if Enabled(zero, s, steps[0]) then Run(zero, Apply(s, steps[0], word), steps[1..], word)
    else None
  }

  ghost predicate Reachable(zero: bool, s: State, word: nat)
    requires word > 0
  {
    exists steps :: Run(zero, Init(), steps, word) == Some(s)
  }

  lemma {:induction false} RunAppend(zero: bool, s: State, steps: seq<Step>, word: nat, s': State, step: Step)
    requires word > 0 && Run(zero, s, steps, word) == Some(s') && Enabled(zero, s', step)
    ensures Run(zero, s, steps + [step], word) == Some(Apply(s', step, word))
    decreases |steps|
  {
    if steps == [] {
      assert (steps + [step])[1..] == [];
    } else {
      assert (steps + [step])[1..] == steps[1..] + [step];
      RunAppend(zero, Apply(s, steps[0], word), steps[1..], word, s', step);
    }
  }

  lemma ReachableStep(zero: bool, s: State, step: Step, word: nat)
    requires word > 0 && Reachable(zero, s, word) && Enabled(zero, s, step)
    ensures Reachable(zero, Apply(s, step, word), word)
  {
    var steps :| Run(zero, Init(), steps, word) == Some(s);
    RunAppend(zero, Init(), steps, word, s, step);
  }

  // ---------------------------------------------------------------- latch coherence

  /** The cache is the complete commits plus what the current one has written; the hardware shows a
      number of complete commits, and part of one only if the handler may go on without the lock.  If it
      may not, exactly one of a commit and the handler has the lock; if it may, a commit has it unless
      the handler has unlocked since. */
  ghost predicate Coherent(zero: bool, s: State) {
    && s.cache == Applied(Replay(s.done), Part(s.commit))
    && (s.commit.Commit? ==> s.commit.written <= |s.commit.writes|)
    && s.latest <= |s.done| && s.hw == Applied(Replay(s.done[..s.latest]), s.torn)
    && (!zero ==> s.torn == [] && !(s.commit.Commit? && s.handler == Holding)
                  && (s.locked <==> s.commit.Commit? || s.handler == Holding))
    && (s.commit.Commit? ==> (s.locked <==> !s.freed || s.handler == Holding))
  }

  lemma StepCoherent(zero: bool, s: State, step: Step, word: nat)
    requires word > 0 && Coherent(zero, s) && Enabled(zero, s, step)
    ensures Coherent(zero, Apply(s, step, word))
  {
    match step
    case BeginCommit(writes) => assert writes[..0] == [];
    case WriteOne => WriteCoherent(zero, s, word);
    case EndCommit => EndCoherent(zero, s, word);
    case Latch => ShownCoherent(zero, s, word);
    case Vsync(delay) => VsyncCoherent(zero, s, delay, word);
    case _ =>
  }

  lemma VsyncCoherent(zero: bool, s: State, delay: int, word: nat)
    requires word > 0 && Coherent(zero, s) && Enabled(zero, s, Vsync(delay))
    ensures Coherent(zero, AfterVsync(s, delay, word))
  {
    if delay == 0 { ShownCoherent(zero, s.(t := s.t.(vsyncs := s.t.vsyncs + 1)), word); }
  }

  lemma WriteCoherent(zero: bool, s: State, word: nat)
    requires word > 0 && Coherent(zero, s) && Enabled(zero, s, WriteOne)
    ensures Coherent(zero, Apply(s, WriteOne, word))
  {
    var w, k := s.commit.writes, s.commit.written;
    assert w[..k + 1][..k] == w[..k];
  }

  lemma EndCoherent(zero: bool, s: State, word: nat)
    requires word > 0 && Coherent(zero, s) && Enabled(zero, s, EndCommit)
    ensures Coherent(zero, Apply(s, EndCommit, word))
  {
    var done' := s.done + [s.commit.writes];
    assert done'[..|s.done|] == s.done;
    assert s.commit.writes[..s.commit.written] == s.commit.writes;
    assert done'[..s.latest] == s.done[..s.latest];
  }

  /** A latch shows the cache, so the complete commits and what the current one has written. */
  lemma ShownCoherent(zero: bool, s: State, word: nat)
    requires word > 0 && Coherent(zero, s) && (zero || s.commit.NoCommit?)
    ensures var n := Shown(s, word);
            && n.cache == s.cache && n.done == s.done && n.commit == s.commit && n.handler == Resting
            && n.latest <= |n.done| && n.hw == Applied(Replay(n.done[..n.latest]), n.torn) && (!zero ==> n.torn == [])
  {
    assert s.done[..|s.done|] == s.done;
  }

  lemma {:induction false} RunCoherent(zero: bool, s: State, steps: seq<Step>, word: nat, s': State)
    requires word > 0 && Coherent(zero, s) && Run(zero, s, steps, word) == Some(s')
    ensures Coherent(zero, s')
    decreases |steps|
  {
    if steps != [] {
      StepCoherent(zero, s, steps[0], word);
      RunCoherent(zero, Apply(s, steps[0], word), steps[1..], word, s');
    }
  }

  lemma ReachableCoherent(zero: bool, s: State, word: nat)
    requires word > 0 && Reachable(zero, s, word)
    ensures Coherent(zero, s)
  {
    var steps :| Run(zero, Init(), steps, word) == Some(s);
    RunCoherent(zero, Init(), steps, word, s);
  }

  /** As long as a line is left whenever the handler goes on, the hardware always shows complete
      commits only, and each latch shows all commits that are complete. */
  lemma LatchCoherence(s: State, word: nat)
    requires word > 0 && Reachable(false, s, word)
    ensures s.latest <= |s.done| && s.hw == Replay(s.done[..s.latest])
    ensures s.handler == Holding && s.c.ker != s.c.user ==> Apply(s, Latch, word).hw == Replay(s.done)
  {
    ReachableCoherent(false, s, word);
  }

  // ---------------------------------------------------------------- a broken lock

  /** The complete commits, the one that is going on counted as if it were finished. */
  function AllCommits(s: State): seq<seq<Write>> {
    if s.commit.Commit? then s.done + [s.commit.writes] else s.done
  }

  /** The registers are the result of a number of whole commits. */
  ghost predicate ShowsWhole(regs: Registers, commits: seq<seq<Write>>) {
    exists j: nat :: j <= |commits| && regs == Replay(commits[..j])
  }

  /** The handler is about to latch a pending frame: without the lock, when it is told of no line left,
      or `later`, having got the lock. */
  ghost predicate Latches(s: State, later: bool) {
    s.handler == (if later then Holding else Resting) && s.c.ker != s.c.user
  }

  function Latching(s: State, later: bool, word: nat): State
    requires word > 0 && s.handler == if later then Holding else Resting
  {
    Apply(s, if later then Latch else Vsync(0), word)
  }

  /** A commit of `n` writes is going on, `k` of them done, when the handler is about to latch. */
  ghost predicate MidCommit(s: State, n: nat, k: nat, later: bool) {
    Latches(s, later) && s.commit.Commit? && |s.commit.writes| == n && s.commit.written == k
  }

  /** What a latch shows on any run: all complete commits and what the current one has written; so it
      shows whole commits if none is going on. */
  lemma LatchOnAnyRun(s: State, later: bool, word: nat)
    requires word > 0 && Reachable(true, s, word) && Latches(s, later)
    ensures var hw := Latching(s, later, word).hw;
            && hw == Applied(Replay(s.done), Part(s.commit))
            && (s.commit.NoCommit? ==> ShowsWhole(hw, s.done))
  {
    ReachableCoherent(true, s, word);
    if s.commit.NoCommit? { assert s.done[..|s.done|] == s.done; }
  }

  /** Inside a commit of `n` writes a latch, with the lock or without it, shows whole commits, whatever is
      written, if and only if none of the writes or all of them are done. */
  lemma LatchInsideCommitIff(n: nat, k: nat, later: bool, word: nat)
    requires word > 1 && k <= n
    ensures (forall s | Reachable(true, s, word) && MidCommit(s, n, k, later) ::
               ShowsWhole(Latching(s, later, word).hw, AllCommits(s)))
            <==> k == 0 || k == n
  {
    if k == 0 || k == n {
      forall s | Reachable(true, s, word) && MidCommit(s, n, k, later)
        ensures ShowsWhole(Latching(s, later, word).hw, AllCommits(s))
      {
        WholeAtTheEnds(s, n, k, later, word);
      }
    } else {
      var s := PartWritten(n, k, word);
      if later { s := LockedInside(s, n, k, word); }
      TornInside(s, n, k, later, word);
    }
  }

  lemma WholeAtTheEnds(s: State, n: nat, k: nat, later: bool, word: nat)
    requires word > 0 && Reachable(true, s, word) && MidCommit(s, n, k, later) && (k == 0 || k == n)
    ensures ShowsWhole(Latching(s, later, word).hw, AllCommits(s))
  {
    LatchOnAnyRun(s, later, word);
    var all, w := AllCommits(s), s.commit.writes;
    assert all[..|s.done|] == s.done;
    if k == 0 {
      assert w[..0] == [];
      assert Latching(s, later, word).hw == Replay(all[..|s.done|]);
    } else {
      assert w[..n] == w && all[..|all|] == all && all[..|all| - 1] == s.done;
      assert Latching(s, later, word).hw == Replay(all[..|all|]);
    }
  }

  /** The handler unlocks in this step. */
  predicate Unlocks(s: State, step: Step) {
    step == Latch || (step == Vsync(0) && s.c.ker != s.c.user)
  }

  /** It does in some step of the run. */
  predicate UnlocksIn(s: State, steps: seq<Step>, word: nat)
    requires word > 0
    decreases |steps|
  {
    steps != [] && Enabled(true, s, steps[0])
    && (Unlocks(s, steps[0]) || UnlocksIn(Apply(s, steps[0], word), steps[1..], word))
  }

  lemma {:induction false} FreedByHandler(s: State, steps: seq<Step>, word: nat, s': State)
    requires word > 0 && s.commit.Commit? && EndCommit !in steps && Run(true, s, steps, word) == Some(s')
    ensures s'.commit.Commit? && (s'.freed <==> s.freed || UnlocksIn(s, steps, word))
    decreases |steps|
  {
    if steps != [] {
      assert steps[0] in steps && forall x :: x in steps[1..] ==> x in steps;
      FreedByHandler(Apply(s, steps[0], word), steps[1..], word, s');
    }
  }

  /** In the middle of a commit the handler gets the lock if and only if it has unlocked since the commit
      began: the unlocking of a latch without the lock lets the next one in. */
  lemma LockOpenIff(s: State, writes: seq<Write>, steps: seq<Step>, s': State, word: nat)
    requires word > 0 && Reachable(true, s, word) && Enabled(true, s, BeginCommit(writes)) && EndCommit !in steps
    requires Run(true, Apply(s, BeginCommit(writes), word), steps, word) == Some(s') && s'.handler == Trying
    ensures s'.commit.Commit?
    ensures Enabled(true, s', TryLock) <==> UnlocksIn(Apply(s, BeginCommit(writes), word), steps, word)
  {
    var s1 := Apply(s, BeginCommit(writes), word);
    ReachableCoherent(true, s, word);
    StepCoherent(true, s, BeginCommit(writes), word);
    RunCoherent(true, s1, steps, word, s');
    FreedByHandler(s1, steps, word, s');
  }

  /** Distinct registers, written in order. */
  function Ramp(n: nat): (w: seq<Write>)
    ensures |w| == n && forall i :: 0 <= i < n ==> w[i] == Write(i, 1)
  {
    seq(n, i requires 0 <= i => Write(i, 1))
  }

  lemma {:induction false} RampKeys(n: nat, k: nat, r: nat)
    requires k <= n
    ensures r in Applied(map[], Ramp(n)[..k]) <==> r < k
  {
    if k > 0 {
      RampKeys(n, k - 1, r);
      assert Ramp(n)[..k][..k - 1] == Ramp(n)[..k - 1];
    }
  }

  /** The first commit, stopped after `k` of its `n` writes. */
  lemma {:induction false} PartWritten(n: nat, k: nat, word: nat) returns (s: State)
    requires word > 1 && k <= n
    ensures Reachable(true, s, word) && MidCommit(s, n, k, false) && s.commit == Commit(Ramp(n), k) && s.done == []
  {
    if k == 0 {
      assert Run(true, Init(), [], word) == Some(Init());
      s := Apply(Init(), BeginCommit(Ramp(n)), word);
      ModUnique(1, 0, 1, word);
      ReachableStep(true, Init(), BeginCommit(Ramp(n)), word);
    } else {
      var s0 := PartWritten(n, k - 1, word);
      s := Apply(s0, WriteOne, word);
      ReachableStep(true, s0, WriteOne, word);
    }
  }

  /** From there a latch without the lock unlocks it; the next vsync with a frame to show gets it, in the
      middle of the commit. */
  lemma LockedInside(s0: State, n: nat, k: nat, word: nat) returns (s: State)
    requires word > 1 && Reachable(true, s0, word) && MidCommit(s0, n, k, false)
    requires s0.commit == Commit(Ramp(n), k) && s0.done == []
    ensures Reachable(true, s, word) && MidCommit(s, n, k, true) && s.commit == s0.commit && s.done == []
  {
    var s1 := Apply(s0, Vsync(0), word);
    ReachableStep(true, s0, Vsync(0), word);
    var s2 := Apply(s1, PowerOn, word);
    ReachableStep(true, s1, PowerOn, word);
    assert s2.c.user != s2.c.ker by { NextDiffers(s1.c.user, word); }
    var s3 := Apply(s2, Vsync(1), word);
    ReachableStep(true, s2, Vsync(1), word);
    s := Apply(s3, TryLock, word);
    ReachableStep(true, s3, TryLock, word);
  }

  lemma NextDiffers(n: nat, word: nat)
    requires word > 1
    ensures (n + 1) % word != n
  {
    if (n + 1) % word == n { ModUnique(n + 1, 0, n + 1, word); }
  }

  lemma TornInside(s: State, n: nat, k: nat, later: bool, word: nat)
    requires word > 1 && 0 < k < n && Reachable(true, s, word)
    requires MidCommit(s, n, k, later) && s.commit == Commit(Ramp(n), k) && s.done == []
    ensures !ShowsWhole(Latching(s, later, word).hw, AllCommits(s))
  {
    LatchOnAnyRun(s, later, word);
    var hw, all := Latching(s, later, word).hw, AllCommits(s);
    RampKeys(n, k, 0);
    RampKeys(n, k, n - 1);
    RampKeys(n, n, n - 1);
    assert Ramp(n)[..n] == Ramp(n);
    forall j: nat | j <= |all| ensures hw != Replay(all[..j]) {
      if j == 0 {
        assert all[..0] == [] && 0 in hw;
      } else {
        assert all[..1] == [Ramp(n)] && [Ramp(n)][..0] == [];
        assert n - 1 in Replay([Ramp(n)]) && n - 1 !in hw;
      }
    }
  }

  /** Over the runs on which the handler is always left a line nothing torn is ever shown; among the
      others there is one that shows half a commit. */
  lemma CoherentIffALineIsLeft(zero: bool, word: nat)
    requires word > 1
    ensures (forall s | Reachable(zero, s, word) :: ShowsWhole(s.hw, AllCommits(s))) <==> !zero
  {
    if zero {
      HalfLatched(word);
    } else {
      forall s | Reachable(false, s, word) ensures ShowsWhole(s.hw, AllCommits(s)) {
        LatchCoherence(s, word);
        assert AllCommits(s)[..s.latest] == s.done[..s.latest];
      }
    }
  }

  lemma HalfLatched(word: nat)
    requires word > 1
    ensures exists s :: Reachable(true, s, word) && !ShowsWhole(s.hw, AllCommits(s))
  {
    var s := PartWritten(2, 1, word);
    TornInside(s, 2, 1, false, word);
    var s' := Apply(s, Vsync(0), word);
    ReachableStep(true, s, Vsync(0), word);
    assert AllCommits(s') == AllCommits(s);
    assert Reachable(true, s', word) && !ShowsWhole(s'.hw, AllCommits(s'));
  }

  // ---------------------------------------------------------------- frame accounting

  lemma ModUnique(x: int, q: int, r: int, word: nat)
    requires word > 0 && x == q * word + r && 0 <= r < word
    ensures x % word == r
  {
    var d := x / word - q;
    assert d * word == r - x % word by {
      assert x == word * (x / word) + x % word;
      assert d * word == (x / word) * word - q * word;
    }
    assert d >= 1 ==> d * word >= word;
    assert d <= -1 ==> d * word <= -(word as int);
    assert d == 0;
    assert d * word == 0;
  }

  lemma ModShift(a: int, b: int, k: int, word: nat)
    requires word > 0 && a == b + k * word
    ensures a % word == b % word
  {
    assert b == word * (b / word) + b % word;
    assert a == (b / word + k) * word + b % word by {
      assert (b / word + k) * word == (b / word) * word + k * word;
    }
    ModUnique(a, b / word + k, b % word, word);
  }

  /** Equal modulo the machine word. */
  ghost predicate Same(a: int, b: int, word: nat)
    requires word > 0
  {
    a % word == b % word
  }

  lemma Distance(a: int, b: int, word: nat) returns (k: int)
    requires word > 0 && Same(a, b, word)
    ensures a == b + k * word
  {
    k := a / word - b / word;
    assert a == word * (a / word) + a % word && b == word * (b / word) + b % word;
    assert k * word == (a / word) * word - (b / word) * word;
  }

  lemma SameSum(a: int, b: int, c: int, d: int, word: nat)
    requires word > 0 && Same(a, b, word) && Same(c, d, word)
    ensures Same(a + c, b + d, word) && Same(a - c, b - d, word)
  {
    var k := Distance(a, b, word);
    var l := Distance(c, d, word);
    assert (k + l) * word == k * word + l * word && (k - l) * word == k * word - l * word;
    ModShift(a + c, b + d, k + l, word);
    ModShift(a - c, b - d, k - l, word);
  }

  lemma SameReduced(a: int, word: nat)
    requires word > 0
    ensures Same(a % word, a, word)
  {
    ModUnique(a % word, 0, a % word, word);
  }

  /** A counter that is incremented in its word stays equal to the count modulo the word. */
  lemma Counted(counter: int, n: int, word: nat)
    requires word > 0 && counter == n % word
    ensures (counter + 1) % word == (n + 1) % word
  {
    SameReduced(n, word);
    SameSum(counter, n, 1, 1, word);
  }

  /** The handler's counter is the frames latched plus those the committers skipped, the committers'
      counter adds what is pending, and every vsync was one of a latch, a miss, or idle. */
  ghost predicate Accounted(s: State, word: nat)
    requires word > 0
  {
    var t := s.t;
    && t.latches <= t.covered <= t.commits
    && s.c.user == t.commits % word && s.c.ker == t.covered % word
    && s.c.userSkip == (t.covered - t.latches) % word && s.c.kerSkip == t.missed % word
    && t.vsyncs == t.latches + t.missed + t.idles + (if s.handler == Resting then 0 else 1)
  }

  /** The wrapped difference of a latch is what the committers skipped since the latch before. */
  lemma SkipCounted(user: nat, ker: nat, userSkip: nat, t: Tally, word: nat)
    requires word > 0 && user == t.commits % word && ker == t.covered % word
    requires userSkip == (t.covered - t.latches) % word
    ensures (userSkip + (user - (ker + 1)) % word) % word == (t.commits - (t.latches + 1)) % word
  {
    Counted(ker, t.covered, word);
    var diff := user - (ker + 1);
    assert Same(diff, t.commits - (t.covered + 1), word) by {
      SameReduced(t.commits, word);
      SameReduced(t.covered, word);
      SameSum(ker, t.covered, 1, 1, word);
      SameSum(user, t.commits, ker + 1, t.covered + 1, word);
    }
    SameReduced(diff, word);
    SameReduced(t.covered - t.latches, word);
    SameSum(userSkip, t.covered - t.latches, diff % word, t.commits - (t.covered + 1), word);
  }

  lemma StepAccounted(zero: bool, s: State, step: Step, word: nat)
    requires word > 1 && Accounted(s, word) && Enabled(zero, s, step) && step != PowerOffUnused
    ensures Accounted(Apply(s, step, word), word)
  {
    match step
    case Vsync(delay) => VsyncAccounted(s, delay, word);
    case LoseLock => VsyncEndAccounted(s, word);
    case Latch => VsyncEndAccounted(s, word);
    case _ =>
      Counted(s.c.user, s.t.commits, word);
      ModUnique(0, 0, 0, word);
  }

  /** A vsync that is going on ends with one latch, one miss, or idle. */
  lemma VsyncEndAccounted(s: State, word: nat)
    requires word > 1 && Accounted(s.(handler := Trying), word)
    ensures Accounted(Shown(s, word), word) && Accounted(AfterMiss(s, word), word)
  {
    Counted(s.c.kerSkip, s.t.missed, word);
    SkipCounted(s.c.user, s.c.ker, s.c.userSkip, s.t, word);
  }

  lemma VsyncAccounted(s: State, delay: int, word: nat)
    requires word > 1 && Accounted(s, word) && s.handler == Resting
    ensures Accounted(AfterVsync(s, delay, word), word)
  {
    VsyncEndAccounted(s.(t := s.t.(vsyncs := s.t.vsyncs + 1)), word);
  }

  lemma {:induction false} RunAccounted(zero: bool, s: State, steps: seq<Step>, word: nat, s': State)
    requires word > 1 && Accounted(s, word) && Run(zero, s, steps, word) == Some(s')
    requires PowerOffUnused !in steps
    ensures Accounted(s', word)
    decreases |steps|
  {
    if steps != [] {
      StepAccounted(zero, s, steps[0], word);
      RunAccounted(zero, Apply(s, steps[0], word), steps[1..], word, s');
    }
  }

  /** States of runs on which the display is never powered off while unused. */
  ghost predicate ReachableOn(zero: bool, s: State, word: nat)
    requires word > 0
  {
    exists steps :: PowerOffUnused !in steps && Run(zero, Init(), steps, word) == Some(s)
  }

  /** Every announced frame was latched, skipped by the committers, or is pending, modulo the word; and
      every vsync that has ended was exactly one of a latch, a skip, or idle. */
  ghost predicate Balanced(s: State, word: nat)
    requires word > 0
  {
    && s.t.latches <= s.t.covered <= s.t.commits
    && Same(s.c.ker, s.t.latches + s.c.userSkip, word)
    && Same(s.c.user, s.t.latches + s.c.userSkip + (s.t.commits - s.t.covered), word)
    && Same(s.c.kerSkip, s.t.missed, word)
    && s.t.vsyncs == s.t.latches + s.t.missed + s.t.idles + (if s.handler == Resting then 0 else 1)
  }

  /** Frame accounting, across any number of wraps, whatever mode sets come in between. */
  lemma FrameAccounting(zero: bool, s: State, word: nat)
    requires word > 1 && ReachableOn(zero, s, word)
    ensures Balanced(s, word)
  {
    AccountedOn(zero, s, word);
    AccountedBalances(s, word);
  }

  lemma AccountedOn(zero: bool, s: State, word: nat)
    requires word > 1 && ReachableOn(zero, s, word)
    ensures Accounted(s, word)
  {
    var steps :| PowerOffUnused !in steps && Run(zero, Init(), steps, word) == Some(s);
    ModUnique(0, 0, 0, word);
    RunAccounted(zero, Init(), steps, word, s);
  }

  lemma AccountedBalances(s: State, word: nat)
    requires word > 1 && Accounted(s, word)
    ensures Balanced(s, word)
  {
    HandlersCounter(s, word);
    var pending := s.t.commits - s.t.covered;
    SameReduced(s.t.commits, word);
    SameReduced(s.t.covered, word);
    SameSum(s.c.ker, s.t.latches + s.c.userSkip, pending, pending, word);
    SameSum(s.c.ker, s.t.covered, pending, pending, word);
    SameReduced(s.t.missed, word);
  }

  lemma HandlersCounter(s: State, word: nat)
    requires word > 0 && Accounted(s, word)
    ensures Same(s.c.ker, s.t.latches + s.c.userSkip, word)
  {
    SameReduced(s.t.covered, word);
    SameReduced(s.t.covered - s.t.latches, word);
    SameSum(s.c.userSkip, s.t.covered - s.t.latches, s.t.latches, s.t.latches, word);
  }

  /** A power-off while unused resets both frame counters but not the skips: the accounting survives it
      if and only if both were zero anyway. */
  lemma PowerOffAccounting(zero: bool, s: State, word: nat)
    requires word > 1 && ReachableOn(zero, s, word) && Enabled(zero, s, PowerOffUnused)
    ensures Balanced(Apply(s, PowerOffUnused, word), word) <==> s.c.ker == 0 && s.c.user == 0
  {
    AccountedOn(zero, s, word);
    AccountedBalances(s, word);
    SameReduced(s.t.covered, word);
    SameReduced(s.t.commits, word);
    ModUnique(0, 0, 0, word);
    ModUnique(s.c.ker, 0, s.c.ker, word);
    ModUnique(s.c.user, 0, s.c.user, word);
  }

  /** The handler's counter alone does not decide it: one frame pending and nothing latched yet. */
  lemma PowerOffWithFramePending(word: nat) returns (s: State)
    requires word > 1
    ensures ReachableOn(false, s, word) && Enabled(false, s, PowerOffUnused) && s.c.ker == 0 && s.c.user == 1
    ensures !Balanced(Apply(s, PowerOffUnused, word), word)
  {
    var s1 := Apply(Init(), BeginCommit([]), word);
    s := Apply(s1, EndCommit, word);
    ModUnique(1, 0, 1, word);
    var steps := [BeginCommit([]), EndCommit];
    assert steps[1..] == [EndCommit] && steps[1..][1..] == [];
    assert Run(false, s1, [EndCommit], word) == Some(s);
    assert Run(false, Init(), steps, word) == Some(s);
    PowerOffAccounting(false, s, word);
  }

  // ---------------------------------------------------------------- a vsync inside a mode set

  predicate OnlyHandler(steps: seq<Step>) {
    forall k :: 0 <= k < |steps| ==> steps[k].Vsync? || steps[k] == TryLock || steps[k] == LoseLock || steps[k] == Latch
  }

  /** The handler alone runs. */
  function HandlerRun(s: State, steps: seq<Step>, word: nat): Option<State>
    requires word > 0
  {
    if OnlyHandler(steps) then Run(false, s, steps, word) else None
  }

  /** The stores of a mode set one at a time, with interrupts on: the committers' skips, the handler's
      skips, the handler's counter, the committers' counter; `w1`, `w2`, `w3` is what the handler does
      between them. */
  function Reset(s: State, w1: seq<Step>, w2: seq<Step>, w3: seq<Step>, word: nat): Option<State>
    requires word > 0
  {
    match HandlerRun(s.(c := s.c.(userSkip := 0)), w1, word)
    case None => None
    case Some(s1) =>
      match HandlerRun(s1.(c := s1.c.(kerSkip := 0)), w2, word)
      case None => None
      case Some(s2) =>
        match HandlerRun(s2.(c := s2.c.(ker := 0)), w3, word)
        case None => None
        case Some(s3) => Some(s3.(c := s3.c.(user := 0), t := Fresh(s3.handler)))
  }

  /** The stores leave the accounting right in spite of the handler. */
  ghost predicate ResetSafe(s: State, w1: seq<Step>, w2: seq<Step>, w3: seq<Step>, word: nat)
    requires word > 0
  {
    var r := Reset(s, w1, w2, w3, word);
    r.Some? ==> Accounted(r.value, word)
  }

  /** The handler has nothing to count: no frame is pending, or it is about to latch the only one, which
      wraps the committers' counter to zero. */
  predicate Quiet(s: State, word: nat)
    requires word > 0
  {
    s.c.user == 0 && (s.c.ker == 0 || (s.handler != Resting && (s.c.ker + 1) % word == 0))
  }

  lemma {:induction false} QuietRun(s: State, steps: seq<Step>, word: nat, s': State)
    requires word > 1 && Quiet(s, word) && s.c.userSkip == 0 && (s.handler == Trying ==> s.c.ker == 0 || !s.locked)
    requires HandlerRun(s, steps, word) == Some(s')
    ensures Quiet(s', word) && s'.c.userSkip == 0 && s'.c.kerSkip == s.c.kerSkip && (s.c.ker == 0 ==> s'.c.ker == 0)
    ensures s'.handler == Trying ==> s'.c.ker == 0 || !s'.locked
    decreases |steps|
  {
    if steps != [] {
      assert steps[0].Vsync? || steps[0] == TryLock || steps[0] == LoseLock || steps[0] == Latch;
      if steps[0] == Latch && s.c.ker != 0 { SkipsNone(s.c.ker, word); }
      QuietRun(Apply(s, steps[0], word), steps[1..], word, s');
    }
  }

  lemma SkipsNone(ker: nat, word: nat)
    requires word > 0
    ensures (0 - (ker + 1)) % word == 0 <==> (ker + 1) % word == 0
  {
    assert ker + 1 == word * ((ker + 1) / word) + (ker + 1) % word;
    if (ker + 1) % word == 0 {
      ModUnique(0 - (ker + 1), -((ker + 1) / word), 0, word);
    } else {
      ModUnique(0 - (ker + 1), -((ker + 1) / word) - 1, word - (ker + 1) % word, word);
    }
  }

  /** One miss, or one latch, between the right stores. */
  lemma UnsafeReset(s: State, word: nat) returns (w1: seq<Step>, w2: seq<Step>, w3: seq<Step>)
    requires word > 1 && !Quiet(s, word) && Coherent(false, s) && Enabled(false, s, Prepare)
    ensures !ResetSafe(s, w1, w2, w3, word)
  {
    ModUnique(0, 0, 0, word);
    w1, w2, w3 := [], [], [];
    var s1 := s.(c := Counters(s.c.user, 0, s.c.ker, 0));
    if s.c.user != 0 {
      var s2 := s.(c := Counters(s.c.user, 0, 0, 0));
      w3 := OneVsync(s2, word);
      assert HandlerRun(s.(c := s.c.(userSkip := 0)), [], word) == Some(s.(c := s.c.(userSkip := 0)));
      assert HandlerRun(s1, [], word) == Some(s1);
    } else {
      SkipsNone(s.c.ker, word);
      w2 := OneVsync(s1, word);
      var s2 := HandlerRun(s1, w2, word).value;
      assert HandlerRun(s.(c := s.c.(userSkip := 0)), [], word) == Some(s.(c := s.c.(userSkip := 0)));
      assert HandlerRun(s2.(c := s2.c.(ker := 0)), [], word).Some?;
    }
  }

  /** The handler's next vsync, or the end of the one that is going on: a miss or a latch. */
  lemma OneVsync(s: State, word: nat) returns (steps: seq<Step>)
    requires word > 1 && Coherent(false, s) && Enabled(false, s, Prepare)
    requires s.c.user != s.c.ker && s.c.userSkip == s.c.kerSkip == 0
    ensures HandlerRun(s, steps, word).Some?
    ensures HandlerRun(s, steps, word).value.c ==
            if s.handler == Resting then s.c.(kerSkip := 1)
            else Counters(s.c.user, (s.c.user - (s.c.ker + 1)) % word, s.c.user, 0)
  {
    ModUnique(1, 0, 1, word);
    var skips := (s.c.user - (s.c.ker + 1)) % word;
    ModUnique(skips, 0, skips, word);
    if s.handler == Resting {
      steps := [Vsync(-1)];
      assert steps[1..] == [];
    } else if s.handler == Trying {
      steps := [TryLock, Latch];
      assert steps[1..] == [Latch] && [Latch][1..] == [];
      assert Run(false, Apply(s, TryLock, word), [Latch], word) == Some(Apply(Apply(s, TryLock, word), Latch, word));
    } else {
      steps := [Latch];
      assert steps[1..] == [];
    }
  }

  /** The reset of a mode set may be taken as one step, whatever the handler does between its stores, if
      and only if the handler has nothing to count when it begins. */
  lemma ResetIff(s: State, word: nat)
    requires word > 1 && Reachable(false, s, word) && Enabled(false, s, Prepare)
    ensures (forall w1, w2, w3 :: ResetSafe(s, w1, w2, w3, word)) <==> Quiet(s, word)
  {
    ReachableCoherent(false, s, word);
    if Quiet(s, word) {
      forall w1, w2, w3 ensures ResetSafe(s, w1, w2, w3, word) { QuietReset(s, w1, w2, w3, word); }
    } else {
      var w1, w2, w3 := UnsafeReset(s, word);
    }
  }

  lemma QuietReset(s: State, w1: seq<Step>, w2: seq<Step>, w3: seq<Step>, word: nat)
    requires word > 1 && Quiet(s, word) && (s.handler == Trying ==> !s.locked)
    ensures ResetSafe(s, w1, w2, w3, word)
  {
    if Reset(s, w1, w2, w3, word).Some? {
      var s0 := s.(c := s.c.(userSkip := 0));
      var s1 := HandlerRun(s0, w1, word).value;
      QuietRun(s0, w1, word, s1);
      var r1 := s1.(c := s1.c.(kerSkip := 0));
      var s2 := HandlerRun(r1, w2, word).value;
      QuietRun(r1, w2, word, s2);
      var r2 := s2.(c := s2.c.(ker := 0));
      QuietRun(r2, w3, word, HandlerRun(r2, w3, word).value);
      ModUnique(0, 0, 0, word);
    }
  }

  // ---------------------------------------------------------------- the latest commit

  /** When everything announced since the last mode set is covered, the hardware shows all of it. */
  ghost predicate UpToDate(s: State) {
    && s.t.covered <= s.t.commits
    && (s.t.covered == s.t.commits && s.t.latches > 0 ==> s.latest == |s.done| && s.commit.NoCommit?)
  }

  lemma StepUpToDate(s: State, step: Step, word: nat)
    requires word > 0 && Coherent(false, s) && UpToDate(s) && Enabled(false, s, step)
    ensures UpToDate(Apply(s, step, word))
  {
  }

  lemma {:induction false} RunUpToDate(s: State, steps: seq<Step>, word: nat, s': State)
    requires word > 0 && Coherent(false, s) && UpToDate(s) && Run(false, s, steps, word) == Some(s')
    ensures Coherent(false, s') && UpToDate(s')
    decreases |steps|
  {
    if steps != [] {
      StepCoherent(false, s, steps[0], word);
      StepUpToDate(s, steps[0], word);
      RunUpToDate(Apply(s, steps[0], word), steps[1..], word, s');
    }
  }

  /** When the two counters agree, with less than a whole word of frames pending, and a latch has
      happened since the mode set, the hardware shows every commit there is. */
  lemma CountersAgreeShowsLatest(s: State, word: nat)
    requires word > 1 && ReachableOn(false, s, word)
    requires s.c.ker == s.c.user && s.t.latches > 0 && s.t.commits - s.t.covered < word
    ensures s.commit.NoCommit? && s.hw == Replay(s.done)
  {
    var steps :| PowerOffUnused !in steps && Run(false, Init(), steps, word) == Some(s);
    ModUnique(0, 0, 0, word);
    RunAccounted(false, Init(), steps, word, s);
    RunUpToDate(Init(), steps, word, s);
    var k := Distance(s.t.commits, s.t.covered, word);
    assert k >= 1 ==> k * word >= word;
    assert k <= -1 ==> k * word <= -(word as int);
    assert k == 0;
    assert s.done[..s.latest] == s.done;
  }
}
