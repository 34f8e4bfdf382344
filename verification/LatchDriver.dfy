/** The fields of a display controller that commits and the vsync interrupt share, and the code that
    changes them.  `word` is the range of an unsigned long. */
module LatchDriver {
  import opened LatchProtocol

  /** Bounded attempts at the lock, `answers(k)` telling whether attempt `k` finds it free.  The handler
      falls through exactly when it has the lock or was given no attempt. */
  method TryLoop(delay: nat, answers: nat -> bool) returns (through: bool, locked: bool, attempts: nat)
    ensures attempts <= 20 * delay
    ensures locked <==> attempts > 0 && answers(attempts - 1)
    ensures forall k :: 0 <= k < attempts && !(locked && k == attempts - 1) ==> !answers(k)
    ensures !locked ==> attempts == 20 * delay
    ensures through <==> locked || delay == 0
  {
    var tryCount: int := delay * 20;
    attempts, locked := 0, false;
    while true
      invariant attempts + tryCount == 20 * delay && tryCount >= 0 && !locked
      invariant attempts > 0 ==> tryCount > 0
      invariant forall k :: 0 <= k < attempts ==> !answers(k)
      decreases tryCount
    {
      tryCount := tryCount - 1;
      if tryCount == -1 { break; }
      attempts := attempts + 1;
      if answers(attempts - 1) {
        locked := true;
        break;
      }
      if tryCount == 0 {
        return false, false, attempts;
      }
    }
    through := true;
  }

  /** With a line left, the handler falls through exactly when one of its attempts finds the lock free. */
  ghost predicate GetsLock(delay: nat, answers: nat -> bool) {
    exists k :: 0 <= k < 20 * delay && answers(k)
  }

  datatype Outcome = Idle | Latched | Skipped

  datatype Dpms = On | Standby | Suspend | Off

  function Level(d: Dpms): nat {
    match d case On => 0 case Standby => 1 case Suspend => 2 case Off => 3
  }

  class SunxiCrtc {
    const word: nat
    var userCnt: nat
    var userSkipCnt: nat
    var kerCnt: nat
    var kerSkipCnt: nat
    var inUpdateFrame: bool
    var dpms: Dpms
    var cache: Registers
    var hw: Registers

    constructor (word: nat)
      ensures this.word == word && Fields() == Counters(0, 0, 0, 0) && cache == map[] && hw == map[] && !inUpdateFrame
    {
      this.word := word;
      userCnt, userSkipCnt, kerCnt, kerSkipCnt := 0, 0, 0, 0;
      inUpdateFrame, dpms, cache, hw := false, Off, map[], map[];
    }

    ghost function Fields(): Counters
      reads this
    {
      Counters(userCnt, userSkipCnt, kerCnt, kerSkipCnt)
    }

    ghost predicate Valid()
      reads this
    {
      word > 0 && userCnt < word && userSkipCnt < word && kerCnt < word && kerSkipCnt < word
    }

    /** One vsync interrupt, undisturbed except for the lock.  It is one of a latch, a skip, or idle. */
    method VsyncProc(delay: int, answers: nat -> bool) returns (o: Outcome)
      requires Valid()
      modifies this`userSkipCnt, this`kerCnt, this`kerSkipCnt, this`hw
      ensures Valid()
      ensures o == if old(kerCnt) == userCnt then Idle
                   else if delay < 0 || (delay > 0 && !GetsLock(delay, answers)) then Skipped
                   else if inUpdateFrame then Idle else Latched
      ensures o == Latched ==> Fields() == LatchProtocol.Latched(old(Fields()), word) && hw == cache
      ensures o == Skipped ==> Fields() == old(Fields()).(kerSkip := (old(kerSkipCnt) + 1) % word)
      ensures o != Latched ==> hw == old(hw)
      ensures o == Idle ==> Fields() == old(Fields())
    {
      if delay < 0 {
        o := Miss();
        return;
      }
      if kerCnt == userCnt { return Idle; }
      var through, locked, attempts := TryLoop(delay, answers);
      if !through {
        o := Miss();
        return;
      }
      assert delay > 0 ==> GetsLock(delay, answers) by {
        if delay > 0 { assert 0 <= attempts - 1 < 20 * delay && answers(attempts - 1); }
      }
      o := Idle;
      if !inUpdateFrame && kerCnt != userCnt {
        Show();
        o := Latched;
      }
    }

    /** Copies the cache to the hardware and accounts for the frames it covers. */
    method Show()
      requires Valid()
      modifies this`userSkipCnt, this`kerCnt, this`hw
      ensures Valid() && Fields() == LatchProtocol.Latched(old(Fields()), word) && hw == cache
    {
      hw := cache;
      userSkipCnt := (userSkipCnt + (userCnt - (kerCnt + 1)) % word) % word;
      kerCnt := userCnt;
    }

    /** A vsync that latches nothing. */
    method Miss() returns (o: Outcome)
      requires Valid()
      modifies this`kerSkipCnt
      ensures Valid() && Fields() == Missed(old(Fields()), word)
      ensures o == if kerCnt == userCnt then Idle else Skipped
    {
      o := Idle;
      if kerCnt != userCnt {
        kerSkipCnt := (kerSkipCnt + 1) % word;
        o := Skipped;
      }
    }

    /** A commit: under the lock it announces a frame and writes the cache. */
    method UpdataReg(connected: bool, writes: seq<Write>) returns (ok: bool)
      requires Valid()
      modifies this`userCnt, this`cache
      ensures Valid() && ok == connected
      ensures Fields() == (if ok then Bumped(old(Fields()), word) else old(Fields()))
      ensures cache == (if ok then Applied(old(cache), writes) else old(cache))
    {
      if !connected { return false; }
      userCnt := (userCnt + 1) % word;
      var k := 0;
      while k < |writes|
        invariant 0 <= k <= |writes| && userCnt == (old(userCnt) + 1) % word
        invariant cache == Applied(old(cache), writes[..k])
      {
        assert writes[..k + 1][..k] == writes[..k];
        cache := cache[writes[k].reg := writes[k].value];
        k := k + 1;
      }
      assert writes[..k] == writes;
      ok := true;
    }

    /** Switching on announces a frame, so that the last content shows; switching off while unused
        resets the two frame counters, and nothing else. */
    method SetDpms(mode: Dpms, inUse: bool)
      requires Valid()
      modifies this`userCnt, this`kerCnt, this`dpms
      ensures Valid() && dpms == mode
      ensures Fields() == if mode == On && inUse && old(dpms) != On then Bumped(old(Fields()), word)
                          else if mode == Off && !inUse then old(Fields()).(user := 0, ker := 0)
                          else old(Fields())
    {
      match mode {
        case On =>
          if inUse && Level(dpms) > Level(mode) {
            userCnt := (userCnt + 1) % word;
          }
        case Standby =>
        case Suspend =>
        case Off =>
          if !inUse {
            userCnt := 0;
            kerCnt := 0;
          }
      }
      dpms := mode;
    }

    /** A mode set. */
    method Prepare(inUse: bool)
      requires Valid()
      modifies this`userCnt, this`userSkipCnt, this`kerCnt, this`kerSkipCnt, this`dpms
      ensures Valid() && dpms == On && Fields() == Counters(0, 0, 0, 0)
    {
      SetDpms(Off, inUse);
      SetDpms(On, inUse);
      userSkipCnt := 0;
      kerSkipCnt := 0;
      kerCnt := 0;
      userCnt := 0;
    }
  }
}
