/** The page requests of one buffer, and what they must be: after a grant the order that fits what is
    left, after a refusal the next smaller one. */
module GemRequests {
  import opened GemOrders

  datatype Ask = Ask(order: nat, granted: bool)

  /** The pages that the granted requests leave missing of `n`; negative after an overshoot. */
  function Left(log: seq<Ask>, n: nat): (r: int)
    ensures r <= n
  {
    if log == [] then n
    else
      var last := log[|log| - 1];
      Left(log[..|log| - 1], n) - if last.granted then Pow2(last.order) else 0
  }

  /** The orders of the granted requests. */
  function Granted(log: seq<Ask>): seq<nat> {
    if log == [] then []
    else
      var last := log[|log| - 1];
      Granted(log[..|log| - 1]) + if last.granted then [last.order] else []
  }

  predicate NoneRefused(log: seq<Ask>) {
    forall k :: 0 <= k < |log| ==> log[k].granted
  }

  /** Order `o` is the next to ask for while pages are missing. */
  ghost predicate Next(log: seq<Ask>, n: nat, maxOrder: nat, word: nat, o: int)
    requires Limits(maxOrder, word) && n * PAGE < word && Left(log, n) > 0
  {
    if log != [] && !log[|log| - 1].granted then o == log[|log| - 1].order - 1
    else o == OrderFor(Left(log, n) * PAGE, maxOrder, word)
  }

  /** Each request was made while pages were missing, for the order that was next. */
  ghost predicate Asks(log: seq<Ask>, n: nat, maxOrder: nat, word: nat)
    requires Limits(maxOrder, word) && n * PAGE < word
  {
    log != [] ==>
      var m := |log| - 1;
      Asks(log[..m], n, maxOrder, word) && Left(log[..m], n) > 0 && Next(log[..m], n, maxOrder, word, log[m].order)
  }

  lemma AskedOnce(log: seq<Ask>, n: nat, maxOrder: nat, word: nat, a: Ask)
    requires Limits(maxOrder, word) && n * PAGE < word && Asks(log, n, maxOrder, word)
    requires Left(log, n) > 0 && Next(log, n, maxOrder, word, a.order)
    ensures Asks(log + [a], n, maxOrder, word)
    ensures Left(log + [a], n) == Left(log, n) - if a.granted then Pow2(a.order) else 0
    ensures Granted(log + [a]) == Granted(log) + if a.granted then [a.order] else []
  {
    assert (log + [a])[..|log|] == log;
  }

  /** A refused single page is the last request: there is no smaller order to try. */
  lemma {:induction false} SinglePageEnds(log: seq<Ask>, n: nat, maxOrder: nat, word: nat)
    requires Limits(maxOrder, word) && n * PAGE < word && Asks(log, n, maxOrder, word)
    ensures Ask(0, false) in log <==> log != [] && log[|log| - 1] == Ask(0, false)
  {
    if log != [] {
      var m := |log| - 1;
      SinglePageEnds(log[..m], n, maxOrder, word);
      assert log == log[..m] + [log[m]];
    }
  }

  /** What is asked for after a grant, or first of all, is the greatest order that suits what is left; beyond
      the largest block it is the order below the largest. */
  lemma AskSuits(log: seq<Ask>, n: nat, maxOrder: nat, word: nat, o: int)
    requires Limits(maxOrder, word) && n * PAGE < word && Left(log, n) > 0 && Next(log, n, maxOrder, word, o)
    requires log != [] ==> log[|log| - 1].granted
    ensures 0 <= o < maxOrder
    ensures if Left(log, n) > Pow2(maxOrder - 1) then o == maxOrder - 2
            else Suits(o, Left(log, n)) && forall k: nat | o < k :: !Suits(k, Left(log, n))
  {
    OrderForPages(Left(log, n), maxOrder, word);
  }

  /** The requests depend on nothing but the answers. */
  lemma {:induction false} AnswersDecideRequests(log: seq<Ask>, log': seq<Ask>, n: nat, maxOrder: nat, word: nat)
    requires Limits(maxOrder, word) && n * PAGE < word
    requires Asks(log, n, maxOrder, word) && Asks(log', n, maxOrder, word)
    requires |log| == |log'| && forall k :: 0 <= k < |log| ==> log[k].granted == log'[k].granted
    ensures log == log'
  {
    if log != [] {
      var m := |log| - 1;
      AnswersDecideRequests(log[..m], log'[..m], n, maxOrder, word);
      assert log == log[..m] + [log[m]] && log' == log'[..m] + [log'[m]];
    }
  }

  // ---------------------------------------------------------------- the requests of a loop that is going on

  datatype Requests = Requests(log: seq<Ask>, n: nat, left: int, cur: int, maxOrder: nat, word: nat)

  ghost predicate RequestsOk(a: Requests) {
    && Limits(a.maxOrder, a.word) && a.n * PAGE < a.word
    && Asks(a.log, a.n, a.maxOrder, a.word) && a.left == Left(a.log, a.n)
    && (a.left > 0 ==> Next(a.log, a.n, a.maxOrder, a.word, a.cur))
  }

  type Asking = a: Requests | RequestsOk(a)
    ghost witness (LimitsExist(); Requests([], 0, 0, 0, 2, WORD32))

  lemma LimitsExist()
    ensures Limits(2, WORD32)
  {
    assert Pow2(1) == 2;
  }

  lemma AskingStarts(n: nat, maxOrder: nat, word: nat) returns (a: Asking)
    requires Limits(maxOrder, word) && n * PAGE < word
    ensures a == Requests([], n, n, OrderFor(n * PAGE, maxOrder, word), maxOrder, word)
  {
    a := Requests([], n, n, OrderFor(n * PAGE, maxOrder, word), maxOrder, word);
  }

  lemma AskRefused(a: Asking) returns (b: Asking)
    requires a.left > 0 && a.cur >= 0
    ensures b == a.(log := a.log + [Ask(a.cur, false)], cur := a.cur - 1)
    ensures Granted(b.log) == Granted(a.log)
  {
    AskedOnce(a.log, a.n, a.maxOrder, a.word, Ask(a.cur, false));
    b := a.(log := a.log + [Ask(a.cur, false)], cur := a.cur - 1);
  }

  lemma AskGranted(a: Asking, next: int) returns (b: Asking)
    requires a.left > 0 && a.cur >= 0
    requires var left := a.left - Pow2(a.cur);
             left > 0 ==> next == OrderFor(left * PAGE, a.maxOrder, a.word)
    ensures b == a.(log := a.log + [Ask(a.cur, true)], left := a.left - Pow2(a.cur), cur := next)
    ensures Granted(b.log) == Granted(a.log) + [a.cur]
  {
    AskedOnce(a.log, a.n, a.maxOrder, a.word, Ask(a.cur, true));
    b := a.(log := a.log + [Ask(a.cur, true)], left := a.left - Pow2(a.cur), cur := next);
  }
}
