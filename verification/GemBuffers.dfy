/** Scattered buffers: their allocation from power-of-two blocks, and their destruction. */
module GemBuffers {
  import opened Options
  import opened GemOrders
  import opened GemPages
  import opened GemRequests

  datatype PageInfo = PageInfo(page: nat, order: nat)

  datatype Failure = TooLarge | BadOrder | NoPage | NoInfo(lost: PageInfo) | TotalSize | NoTable | NoObject

  /** The kernel's memory: the free page frames, and the page_info records handed out.  Which
      requests succeed is not the driver's choice: the answers are arbitrary.  `asked` are the page
      requests so far and their answers, `infosRefused` counts the records not granted. */
  class Memory {
    var free: set<nat>
    var infos: int
    var pageRequests: nat
    var infoRequests: nat
    ghost var asked: seq<Ask>
    ghost var infosRefused: nat
    const pageAnswers: nat -> Option<nat>
    const infoAnswers: nat -> bool
    const totalRam: nat

    constructor (free: set<nat>, pageAnswers: nat -> Option<nat>, infoAnswers: nat -> bool, totalRam: nat)
      ensures this.free == free && infos == 0 && asked == [] && infosRefused == 0
    {
      this.free := free;
      this.pageAnswers, this.infoAnswers, this.totalRam := pageAnswers, infoAnswers, totalRam;
      infos, pageRequests, infoRequests := 0, 0, 0;
      asked, infosRefused := [], 0;
    }

    method AllocPages(order: nat) returns (page: Option<nat>)
      modifies this`free, this`pageRequests, this`asked
      ensures asked == old(asked) + [Ask(order, page.Some?)]
      ensures match page
              case None => free == old(free)
              case Some(p) => Frames(p, Pow2(order)) <= old(free) && free == old(free) - Frames(p, Pow2(order))
    {
      page := pageAnswers(pageRequests);
      pageRequests := pageRequests + 1;
      if page.Some? {
        if Frames(page.value, Pow2(order)) <= free {
          free := free - Frames(page.value, Pow2(order));
        } else {
          page := None;
        }
      }
      asked := asked + [Ask(order, page.Some?)];
    }

    method FreePages(page: nat, order: nat)
      requires Frames(page, Pow2(order)) !! free
      modifies this`free
      ensures free == old(free) + Frames(page, Pow2(order))
    {
      free := free + Frames(page, Pow2(order));
    }

    method AllocInfo() returns (ok: bool)
      modifies this`infos, this`infoRequests, this`infosRefused
      ensures infos == old(infos) + if ok then 1 else 0
      ensures infosRefused == old(infosRefused) + if ok then 0 else 1
    {
      ok := infoAnswers(infoRequests);
      infoRequests := infoRequests + 1;
      if ok { infos := infos + 1; } else { infosRefused := infosRefused + 1; }
    }
  }

  // ---------------------------------------------------------------- block lists

  function Entry(b: PageInfo): Sg {
    Sg(b.page, Pow2(b.order) * PAGE)
  }

  function Entries(blocks: seq<PageInfo>): (s: seq<Sg>)
    ensures |s| == |blocks| && forall k :: 0 <= k < |s| ==> s[k] == Entry(blocks[k])
  {
    seq(|blocks|, k requires 0 <= k < |blocks| => Entry(blocks[k]))
  }

  function Orders(blocks: seq<PageInfo>): (s: seq<nat>)
    ensures |s| == |blocks| && forall k :: 0 <= k < |s| ==> s[k] == blocks[k].order
  {
    seq(|blocks|, k requires 0 <= k < |blocks| => blocks[k].order)
  }

  ghost predicate OrdersBelow(blocks: seq<PageInfo>, maxOrder: nat) {
    forall k :: 0 <= k < |blocks| ==> blocks[k].order < maxOrder
  }

  /** A scatter list of whole blocks no two of which share a frame. */
  ghost predicate Backed(sgt: seq<Sg>, maxOrder: nat) {
    && NoDuplicates(Flat(sgt))
    && exists blocks :: sgt == Entries(blocks) && OrdersBelow(blocks, maxOrder)
  }

  /** The blocks taken from a pool, and the pool that is left. */
  ghost predicate TakenFrom(blocks: seq<PageInfo>, before: set<nat>, after: set<nat>) {
    && NoDuplicates(Flat(Entries(blocks)))
    && Held(Entries(blocks)) <= before && after == before - Held(Entries(blocks))
  }

  lemma TakeBlock(blocks: seq<PageInfo>, before: set<nat>, after: set<nat>, b: PageInfo)
    requires TakenFrom(blocks, before, after) && Frames(b.page, Pow2(b.order)) <= after
    ensures TakenFrom(blocks + [b], before, after - Frames(b.page, Pow2(b.order)))
    ensures |Flat(Entries(blocks + [b]))| == |Flat(Entries(blocks))| + Pow2(b.order)
  {
    assert Entries(blocks + [b]) == Entries(blocks) + [Entry(b)];
    BlockAdded(Entries(blocks), Entry(b));
  }

  // ---------------------------------------------------------------- the bound on fragmentation

  /** How many blocks a buffer of `n` pages needs at most when no request is refused: one for each
      one-bit, and before that one for each step that a request beyond the largest block takes. */
  ghost function Most(n: nat, maxOrder: nat): nat
    requires maxOrder >= 2
  {
    if n <= Pow2(maxOrder - 1) then Ones(n) else 1 + Most(n - Pow2(maxOrder - 2), maxOrder)
  }

  lemma OneHalfMore(halves: nat, half: nat, rest: nat)
    ensures (halves + 1) * half + rest - half == halves * half + rest >= rest
  {
  }

  /** The bound in closed form: half of the largest block at a time, until the rest is one largest
      block or less. */
  lemma {:induction false} MostIsHalfBlocksAndBits(halves: nat, rest: nat, maxOrder: nat)
    requires maxOrder >= 2 && Pow2(maxOrder - 2) < rest <= Pow2(maxOrder - 1)
    ensures Most(halves * Pow2(maxOrder - 2) + rest, maxOrder) == halves + Ones(rest)
  {
    if halves > 0 {
      MostIsHalfBlocksAndBits(halves - 1, rest, maxOrder);
      OneHalfMore(halves - 1, Pow2(maxOrder - 2), rest);
    }
  }

  /** What an unrefused request does to the bound: it lowers it by one, or it overshoots and ends the
      loop. */
  lemma RequestLowersBound(n: nat, maxOrder: nat, word: nat)
    requires Limits(maxOrder, word) && 0 < n && n * PAGE < word
    ensures var o := OrderFor(n * PAGE, maxOrder, word);
            && 0 <= o && Most(n, maxOrder) >= 1
            && (if Pow2(o) <= n then Most(n, maxOrder) == 1 + Most(n - Pow2(o), maxOrder) else Pow2(o) == n + 1)
  {
    if n <= Pow2(maxOrder - 1) {
      RequestTakesTopBit(n, maxOrder, word);
    } else {
      OrderForPages(n, maxOrder, word);
    }
  }

  /** Up to the largest block a request removes the top bit, or overshoots. */
  lemma RequestTakesTopBit(n: nat, maxOrder: nat, word: nat)
    requires Limits(maxOrder, word) && 0 < n <= Pow2(maxOrder - 1) && n * PAGE < word
    ensures var o := OrderFor(n * PAGE, maxOrder, word);
            && 0 <= o && Ones(n) >= 1
            && (if Pow2(o) <= n then Ones(n) == 1 + Ones(n - Pow2(o)) else Pow2(o) == n + 1)
  {
    OrderForPages(n, maxOrder, word);
    var o := OrderFor(n * PAGE, maxOrder, word);
    FlsBounds(n);
    OnesOfTop(n, Fls(n) - 1);
    if Pow2(o) <= n {
      assert !Suits(o + 1, n);
      OnesOfTop(n, o);
    }
  }

  /** Unless a request was refused, the blocks so far and those still needed stay within the bound. */
  ghost predicate WithinBound(n: nat, left: int, count: nat, refused: nat, maxOrder: nat)
    requires maxOrder >= 2
  {
    refused == 0 ==> count + (if left > 0 then Most(left, maxOrder) else 0) <= Most(n, maxOrder)
  }

  /** The state of the block loop over a buffer of `n` pages: `left` pages are still missing, minus one
      after an overshoot; order `cur` is tried next; `refused` requests failed; and the blocks on the
      list were taken from the pool `before`, of which `free` is left. */
  datatype Fill = Fill(n: nat, left: int, cur: int, blocks: seq<PageInfo>, refused: nat,
                       before: set<nat>, free: set<nat>, maxOrder: nat, word: nat)

  ghost predicate FillOk(f: Fill) {
    && Limits(f.maxOrder, f.word) && f.n * PAGE < f.word
    && -1 <= f.left <= f.n && 0 <= f.cur < f.maxOrder
    && f.left == f.n - |Flat(Entries(f.blocks))|
    && OrdersBelow(f.blocks, f.maxOrder) && TakenFrom(f.blocks, f.before, f.free)
    && (f.left > 0 ==> Pow2(f.cur) <= f.left + 1)
    && (f.left > 0 && f.refused == 0 ==> f.cur == OrderFor(f.left * PAGE, f.maxOrder, f.word))
    && WithinBound(f.n, f.left, |f.blocks|, f.refused, f.maxOrder)
  }

  /** The order tried next is the one for what is left. */
  ghost predicate TriesNext(f: Filling) {
    f.left > 0 ==> f.cur == OrderFor(f.left * PAGE, f.maxOrder, f.word)
  }

  type Filling = f: Fill | FillOk(f)
    ghost witness (LimitsExist(); FillingExists(0, {}, 2, WORD32))

  /** An unsigned word read as a signed one. */
  function Signed(x: nat, word: nat): int
    requires x < word
  {
    if 2 * x >= word then x - word else x
  }

  /** A signed remainder read as an unsigned word. */
  function Unsigned(x: int, word: nat): (r: nat)
    requires -(word as int) <= x < word
    ensures r < word
  {
    if x < 0 then x + word else x
  }

  /** The order tried next exists, and overshoots by at most one page. */
  lemma NextOrder(left: int, maxOrder: nat, word: nat)
    requires Limits(maxOrder, word) && -1 <= left && left * PAGE < word
    ensures var o := OrderFor(Unsigned(left * PAGE, word), maxOrder, word);
            0 <= o < maxOrder && (left > 0 ==> Pow2(o) <= left + 1)
  {
    if left > 0 {
      OrderForPages(left, maxOrder, word);
      Pow2Monotone(maxOrder - 2, maxOrder - 1);
    } else {
      OrderForRest(Unsigned(left * PAGE, word), maxOrder, word);
    }
  }

  ghost function FillingExists(n: nat, pool: set<nat>, maxOrder: nat, word: nat): (f: Fill)
    requires Limits(maxOrder, word) && n * PAGE < word
    ensures FillOk(f)
  {
    assert Entries([]) == [];
    NextOrder(n, maxOrder, word);
    Fill(n, n, OrderFor(n * PAGE, maxOrder, word), [], 0, pool, pool, maxOrder, word)
  }

  lemma FillingStarts(n: nat, pool: set<nat>, maxOrder: nat, word: nat) returns (f: Filling)
    requires Limits(maxOrder, word) && n * PAGE < word
    ensures f == Fill(n, n, OrderFor(n * PAGE, maxOrder, word), [], 0, pool, pool, maxOrder, word)
  {
    f := FillingExists(n, pool, maxOrder, word);
  }

  lemma FillingRefused(f: Filling) returns (f': Filling)
    requires f.cur > 0
    ensures f' == f.(cur := f.cur - 1, refused := f.refused + 1)
  {
    Pow2Monotone(f.cur - 1, f.cur);
    f' := f.(cur := f.cur - 1, refused := f.refused + 1);
  }

  lemma BlockPaid(n: nat, left: int, cur: nat, count: nat, refused: nat, maxOrder: nat, word: nat)
    requires Limits(maxOrder, word) && 0 < left <= n && n * PAGE < word
    requires refused == 0 ==> cur == OrderFor(left * PAGE, maxOrder, word)
    requires WithinBound(n, left, count, refused, maxOrder)
    ensures WithinBound(n, left - Pow2(cur), count + 1, refused, maxOrder)
  {
    if refused == 0 { RequestLowersBound(left, maxOrder, word); }
  }

  lemma FillingGranted(f: Filling, page: nat, free': set<nat>) returns (f': Filling)
    requires f.left > 0 && Frames(page, Pow2(f.cur)) <= f.free && free' == f.free - Frames(page, Pow2(f.cur))
    ensures -1 <= f.left - Pow2(f.cur)
    ensures f' == f.(left := f.left - Pow2(f.cur),
                     cur := OrderFor(Unsigned((f.left - Pow2(f.cur)) * PAGE, f.word), f.maxOrder, f.word),
                     blocks := f.blocks + [PageInfo(page, f.cur)], free := free')
  {
    var left' := f.left - Pow2(f.cur);
    var blocks' := f.blocks + [PageInfo(page, f.cur)];
    assert TakenFrom(blocks', f.before, free') && left' == f.n - |Flat(Entries(blocks'))| by {
      TakeBlock(f.blocks, f.before, f.free, PageInfo(page, f.cur));
    }
    assert WithinBound(f.n, left', |blocks'|, f.refused, f.maxOrder) by {
      BlockPaid(f.n, f.left, f.cur, |f.blocks|, f.refused, f.maxOrder, f.word);
    }
    NextOrder(left', f.maxOrder, f.word);
    f' := f.(left := left', cur := OrderFor(Unsigned(left' * PAGE, f.word), f.maxOrder, f.word),
             blocks := blocks', free := free');
  }

  // ---------------------------------------------------------------- the loop and its requests

  /** The blocks and the requests of a loop that has not given up. */
  datatype Loop = Loop(f: Filling, a: Asking)

  ghost predicate LoopOk(l: Loop) {
    && l.a == Requests(l.a.log, l.f.n, l.f.left, l.f.cur, l.f.maxOrder, l.f.word)
    && Granted(l.a.log) == Orders(l.f.blocks) && Ask(0, false) !in l.a.log
    && (NoneRefused(l.a.log) ==> l.f.refused == 0)
  }

  ghost function SomeLoop(): (l: Loop)
    ensures LoopOk(l)
  {
    LimitsExist();
    var f := FillingExists(0, {}, 2, WORD32);
    Loop(f, Requests([], 0, 0, f.cur, 2, WORD32))
  }

  type Looping = l: Loop | LoopOk(l) ghost witness SomeLoop()

  lemma LoopStarts(n: nat, pool: set<nat>, maxOrder: nat, word: nat) returns (l: Looping)
    requires Limits(maxOrder, word) && n * PAGE < word
    ensures l.f == Fill(n, n, OrderFor(n * PAGE, maxOrder, word), [], 0, pool, pool, maxOrder, word) && l.a.log == []
  {
    var f := FillingStarts(n, pool, maxOrder, word);
    var a := AskingStarts(n, maxOrder, word);
    l := Loop(f, a);
  }

  /** The next request, whatever becomes of it. */
  lemma LoopAsks(l: Looping, granted: bool, before: seq<Ask>) returns (log: seq<Ask>)
    requires l.f.left > 0
    ensures before + log == (before + l.a.log) + [Ask(l.f.cur, granted)]
    ensures log == l.a.log + [Ask(l.f.cur, granted)] && Asks(log, l.f.n, l.f.maxOrder, l.f.word)
    ensures Granted(log) == Orders(l.f.blocks) + if granted then [l.f.cur] else []
    ensures Ask(0, false) in log <==> l.f.cur == 0 && !granted
    ensures NoneRefused(log) ==> l.f.refused == 0
  {
    AskedOnce(l.a.log, l.a.n, l.a.maxOrder, l.a.word, Ask(l.f.cur, granted));
    log := l.a.log + [Ask(l.f.cur, granted)];
    assert NoneRefused(log) ==> NoneRefused(l.a.log) by { assert forall k :: 0 <= k < |l.a.log| ==> log[k] == l.a.log[k]; }
  }

  lemma LoopRefused(l: Looping) returns (m: Looping)
    requires l.f.left > 0 && l.f.cur > 0
    ensures m.f == l.f.(cur := l.f.cur - 1, refused := l.f.refused + 1) && m.a.log == l.a.log + [Ask(l.f.cur, false)]
  {
    var f := FillingRefused(l.f);
    var a := AskRefused(l.a);
    assert !a.log[|l.a.log|].granted;
    m := Loop(f, a);
  }

  lemma LoopGranted(l: Looping, page: nat, free': set<nat>) returns (m: Looping)
    requires l.f.left > 0 && Frames(page, Pow2(l.f.cur)) <= l.f.free && free' == l.f.free - Frames(page, Pow2(l.f.cur))
    ensures -1 <= l.f.left - Pow2(l.f.cur)
    ensures m.f == l.f.(left := l.f.left - Pow2(l.f.cur), cur := m.f.cur,
                        blocks := l.f.blocks + [PageInfo(page, l.f.cur)], free := free')
    ensures TriesNext(m.f)
    ensures m.a.log == l.a.log + [Ask(l.f.cur, true)]
  {
    var f := FillingGranted(l.f, page, free');
    var a := AskGranted(l.a, f.cur);
    assert Ask(0, false) !in a.log && (NoneRefused(a.log) ==> f.refused == 0) by { var log := LoopAsks(l, true, []); }
    OrdersAppend(l.f.blocks, PageInfo(page, l.f.cur));
    m := Loop(f, a);
  }

  lemma OrdersAppend(blocks: seq<PageInfo>, b: PageInfo)
    ensures Orders(blocks + [b]) == Orders(blocks) + [b.order]
  {
  }

  // ---------------------------------------------------------------- buffers

  /** Pages are wanting exactly when a single page was refused, and a record exactly when one was. */
  ghost predicate Because(err: Option<Failure>, log: seq<Ask>, recordRefused: bool) {
    && (err == Some(NoPage) <==> Ask(0, false) in log)
    && (err.Some? && err.value.NoInfo? <==> recordRefused)
  }

  /** The frames that a failure loses for good: those of the block that got no record. */
  function Lost(err: Option<Failure>): set<nat> {
    if err.Some? && err.value.NoInfo? then Frames(err.value.lost.page, Pow2(err.value.lost.order)) else {}
  }

  /** The answer to a page fault; the first failure is -EINTR, the second -EINVAL. */
  datatype Mapping = NotBacked | BadOffset | Frame(pfn: nat)

  /** The next multiple of the page size, in a machine word. */
  function PageAlign(size: nat, word: nat): nat
    requires word > 0
  {
    (size + PAGE - 1) % word / PAGE * PAGE
  }

  lemma BlockOrder(b: PageInfo, maxOrder: nat, word: nat)
    requires Limits(maxOrder, word) && b.order < maxOrder
    ensures Entry(b).length < word && GetOrder(Entry(b).length, word) == b.order
    ensures Entry(b).length / PAGE == Pow2(b.order)
  {
    Pow2Monotone(b.order, maxOrder - 1);
    OrderOfBlock(b.order, word);
  }

  class GemBuffer {
    var size: nat
    var sgt: Option<seq<Sg>>

    constructor (size: nat)
      ensures this.size == size && sgt == None
    {
      this.size, sgt := size, None;
    }

    /** Allocates the blocks of a scattered buffer; `built` is the list of blocks at the end of the loop,
        and `log` are the page requests of the call.  It succeeds exactly when the size is not too large,
        no single page and no record was refused, and table and entries were granted. */
    method NocontigBufAlloc(mem: Memory, maxOrder: nat, word: nat, sgtOk: bool, tableOk: bool)
      returns (r: Option<Failure>, ghost built: seq<PageInfo>, ghost log: seq<Ask>)
      requires Limits(maxOrder, word) && size % PAGE == 0 && size < word && mem.totalRam * PAGE < word
      requires sgt == None
      modifies this`sgt, mem
      ensures OrdersBelow(built, maxOrder)
      ensures r == None ==>
                && sgt == Some(Entries(built)) && TakenFrom(built, old(mem.free), mem.free)
                && mem.infos == old(mem.infos)
                && size / PAGE <= |Flat(sgt.value)| <= size / PAGE + 1
      ensures NoneRefused(log) ==> |built| <= Most(size / PAGE, maxOrder)
      ensures mem.asked == old(mem.asked) + log && Asks(log, size / PAGE, maxOrder, word)
      ensures Granted(log) == Orders(built) + if r.Some? && r.value.NoInfo? then [r.value.lost.order] else []
      ensures r.Some? ==>
                && sgt == (if r.value == NoTable && sgtOk then Some([]) else None)
                && mem.infos == old(mem.infos) + |built|
                && Lost(r) <= old(mem.free) && mem.free == old(mem.free) - Lost(r)
                && (r.value.NoInfo? ==> r.value.lost.order < maxOrder)
      ensures r == Some(TooLarge) <==> size / PAGE > mem.totalRam / 2
      ensures Because(r, log, mem.infosRefused != old(mem.infosRefused))
      ensures r == Some(NoTable) ==> !sgtOk || !tableOk
      ensures r == None ==> sgtOk && tableOk
      ensures r != Some(BadOrder) && r != Some(TotalSize) && r != Some(NoObject)
    {
      built, log := [], [];
      if size / PAGE > mem.totalRam / 2 { return Some(TooLarge), built, log; }
      var rem, head, err;
      ghost var f;
      rem, head, err, f, log := FillBlocks(size, mem, maxOrder, word);
      built := head;
      if err == None && rem > 0 { err := Some(TotalSize); }
      if err == None {
        var ok := BuildTable(mem, head, sgtOk, tableOk);
        if ok { return None, built, log; }
        err := Some(NoTable);
      }
      Rest(old(mem.free), f, mem.free, err);
      FreeBlocks(mem, head);
      r := err;
    }

    /** With the listed blocks back, the pool is as before but for what is lost. */
    static lemma Rest(before: set<nat>, f: Filling, free: set<nat>, err: Option<Failure>)
      requires f.before == before && Lost(err) <= f.free && free == f.free - Lost(err)
      ensures NoDuplicates(Flat(Entries(f.blocks))) && Held(Entries(f.blocks)) !! free
      ensures free + Held(Entries(f.blocks)) == before - Lost(err) && Lost(err) <= before
    {
    }

    /** The scatter table, if it and its entries are granted; a table without entries stays behind. */
    method BuildTable(mem: Memory, head: seq<PageInfo>, sgtOk: bool, tableOk: bool) returns (ok: bool)
      modifies this`sgt, mem`infos
      ensures ok <==> sgtOk && tableOk
      ensures sgt == if ok then Some(Entries(head)) else if sgtOk then Some([]) else old(sgt)
      ensures mem.infos == old(mem.infos) - if ok then |head| else 0
    {
      if !sgtOk { return false; }
      sgt := Some([]);
      if !tableOk { return false; }
      FillTable(mem, head);
      ok := true;
    }

    /** The block loop; `f` is its state at the end and `log` its page requests.  It gives up exactly when
        a single page or a record is refused; every other refusal makes it ask for a smaller block. */
    static method FillBlocks(size: nat, mem: Memory, maxOrder: nat, word: nat)
      returns (rem: int, head: seq<PageInfo>, err: Option<Failure>, ghost f: Filling, ghost log: seq<Ask>)
      requires Limits(maxOrder, word) && size % PAGE == 0 && 2 * size < word
      modifies mem
      ensures f.n == size / PAGE && f.maxOrder == maxOrder && f.before == old(mem.free) && f.blocks == head
      ensures rem == f.left * PAGE && (NoneRefused(log) ==> f.refused == 0)
      ensures mem.asked == old(mem.asked) + log && Asks(log, size / PAGE, maxOrder, word)
      ensures GivesUp(mem.free, err, f, log)
      ensures Because(err, log, mem.infosRefused != old(mem.infosRefused))
      ensures mem.infos == old(mem.infos) + |head|
      ensures err == None ==> rem <= 0
    {
      rem, head := Signed(size, word), [];
      var cur := OrderFor(size, maxOrder, word);
      if cur < 0 {
        f := FillingStarts(size / PAGE, mem.free, maxOrder, word);
        log, err := [], Some(BadOrder);
        return;
      }
      rem, head, err, f, log := FillLoop(rem, cur, mem, maxOrder, word, size / PAGE);
    }

    /** How the loop ends: with nothing missing, after a refused single page, or after a refused record,
        whose block is not listed. */
    ghost static predicate GivesUp(free: set<nat>, err: Option<Failure>, f: Filling, log: seq<Ask>)
    {
      && (err.Some? ==> err.value == NoPage || err.value.NoInfo?)
      && Lost(err) <= f.free && free == f.free - Lost(err)
      && (err.Some? && err.value.NoInfo? ==> err.value.lost.order < f.maxOrder)
      && Granted(log) == Orders(f.blocks) + if err.Some? && err.value.NoInfo? then [err.value.lost.order] else []
    }

    static method FillLoop(rem0: int, cur0: nat, mem: Memory, maxOrder: nat, word: nat, ghost n: nat)
      returns (rem: int, head: seq<PageInfo>, err: Option<Failure>, ghost f: Filling, ghost log: seq<Ask>)
      requires Limits(maxOrder, word) && rem0 == n * PAGE < word && cur0 == OrderFor(n * PAGE, maxOrder, word)
      modifies mem
      ensures f.n == n && f.maxOrder == maxOrder && f.before == old(mem.free) && f.blocks == head
      ensures rem == f.left * PAGE && (NoneRefused(log) ==> f.refused == 0)
      ensures mem.asked == old(mem.asked) + log && Asks(log, n, maxOrder, word)
      ensures GivesUp(mem.free, err, f, log)
      ensures Because(err, log, mem.infosRefused != old(mem.infosRefused))
      ensures mem.infos == old(mem.infos) + |head|
      ensures err == None ==> rem <= 0
    {
      rem, head, err := rem0, [], None;
      var cur: int := cur0;
      ghost var l := LoopStarts(n, mem.free, maxOrder, word);
      while rem > 0 && cur >= 0
        invariant err == None && Tracks(l, rem, head, cur) && SameJob(l.f, n, maxOrder, word, old(mem.free))
        invariant l.f.free == mem.free && mem.asked == old(mem.asked) + l.a.log
        invariant mem.infosRefused == old(mem.infosRefused) && mem.infos == old(mem.infos) + |head|
        decreases rem, cur
      {
        ghost var asks;
        rem, head, cur, err, l, asks := FillStep(rem, head, cur, mem, maxOrder, word, l, old(mem.asked));
        if err != None {
          f, log := l.f, asks;
          return;
        }
      }
      f, log := l.f, l.a.log;
    }

    /** The loop's variables are those of the account. */
    ghost static predicate Tracks(l: Looping, rem: int, head: seq<PageInfo>, cur: int) {
      l.f.blocks == head && rem == l.f.left * PAGE && (rem > 0 ==> l.f.cur == cur)
    }

    ghost static predicate SameJob(f: Filling, n: nat, maxOrder: nat, word: nat, before: set<nat>) {
      f.n == n && f.maxOrder == maxOrder && f.word == word && f.before == before
    }

    /** One round of the loop. */
    static method FillStep(rem0: int, head0: seq<PageInfo>, cur0: nat, mem: Memory, maxOrder: nat, word: nat,
                           ghost l: Looping, ghost asked: seq<Ask>)
      returns (rem: int, head: seq<PageInfo>, cur: int, err: Option<Failure>, ghost m: Looping, ghost log: seq<Ask>)
      requires rem0 > 0 && Tracks(l, rem0, head0, cur0) && l.f.maxOrder == maxOrder && l.f.word == word
      requires mem.free == l.f.free && mem.asked == asked + l.a.log
      modifies mem
      ensures mem.asked == asked + log && Asks(log, l.f.n, maxOrder, word) && (NoneRefused(log) ==> m.f.refused == 0)
      ensures GivesUp(mem.free, err, m.f, log) && Because(err, log, mem.infosRefused != old(mem.infosRefused))
      ensures Tracks(m, rem, head, cur) && SameJob(m.f, l.f.n, maxOrder, word, l.f.before)
      ensures mem.infos == old(mem.infos) + |head| - |head0|
      ensures err == None ==> m.a.log == log && (rem < rem0 || (rem == rem0 && cur < cur0))
    {
      rem, head, cur := rem0, head0, cur0;
      var got;
      got, err, m, log := AskBlock(mem, cur, l, asked);
      if err != None { return; }
      if got == None {
        cur := cur - 1;
      } else {
        head := head + [got.value];
        rem := rem - Pow2(cur) * PAGE;
        cur := OrderOfRest(rem, maxOrder, word, m.f);
      }
    }

    /** The order to try next, from what is left of the size. */
    static method OrderOfRest(rem: int, maxOrder: nat, word: nat, ghost f: Filling) returns (cur: int)
      requires f.maxOrder == maxOrder && f.word == word && rem == f.left * PAGE && TriesNext(f)
      ensures rem > 0 ==> cur == f.cur
    {
      cur := OrderFor(Unsigned(rem, word), maxOrder, word);
    }

    /** One page request, and the record of the block that it grants. */
    static method AskBlock(mem: Memory, cur: nat, ghost l: Looping, ghost before: seq<Ask>)
      returns (got: Option<PageInfo>, err: Option<Failure>, ghost m: Looping, ghost log: seq<Ask>)
      requires l.f.left > 0 && cur == l.f.cur && mem.free == l.f.free && mem.asked == before + l.a.log
      modifies mem
      ensures mem.asked == before + log && Asks(log, l.f.n, l.f.maxOrder, l.f.word)
      ensures NoneRefused(log) ==> l.f.refused == 0
      ensures mem.infos == old(mem.infos) + if err == None && got.Some? then 1 else 0
      ensures Because(err, log, mem.infosRefused != old(mem.infosRefused))
      ensures err.Some? ==> m == l
      ensures GivesUp(mem.free, err, m.f, log)
      ensures err == None ==>
                && m.a.log == log
                && (got == None ==> cur > 0 && m.f == l.f.(cur := cur - 1, refused := l.f.refused + 1))
                && (got.Some? ==> Listed(l, m, got.value, mem.free))
    {
      err, got, m := None, None, l;
      var page := mem.AllocPages(cur);
      log := LoopAsks(l, page.Some?, before);
      if page == None {
        if cur == 0 {
          err := Some(NoPage);
        } else {
          m := LoopRefused(l);
        }
        return;
      }
      got, err, m := RecordBlock(page.value, cur, mem, l);
    }

    /** The record of a granted block. */
    static method RecordBlock(page: nat, cur: nat, mem: Memory, ghost l: Looping)
      returns (got: Option<PageInfo>, err: Option<Failure>, ghost m: Looping)
      requires l.f.left > 0 && cur == l.f.cur && Frames(page, Pow2(cur)) <= l.f.free
      requires mem.free == l.f.free - Frames(page, Pow2(cur))
      modifies mem`infos, mem`infoRequests, mem`infosRefused
      ensures mem.infos == old(mem.infos) + if err == None then 1 else 0
      ensures err == None <==> mem.infosRefused == old(mem.infosRefused)
      ensures err == None ==> got == Some(PageInfo(page, cur)) && Listed(l, m, PageInfo(page, cur), mem.free)
      ensures err != None ==> got == None && m == l && err == Some(NoInfo(PageInfo(page, cur)))
    {
      var info := PageInfo(page, cur);
      var ok := mem.AllocInfo();
      if ok {
        got, err := Some(info), None;
        m := LoopGranted(l, page, mem.free);
      } else {
        got, err, m := None, Some(NoInfo(info)), l;
      }
    }

    /** The block is listed, its request is in the log, and the next order is the one for what is left. */
    ghost static predicate Listed(l: Looping, m: Looping, b: PageInfo, free: set<nat>) {
      && -1 <= l.f.left - Pow2(b.order) && b.order == l.f.cur
      && m.f == l.f.(left := l.f.left - Pow2(b.order), cur := m.f.cur, blocks := l.f.blocks + [b], free := free)
      && m.a.log == l.a.log + [Ask(b.order, true)] && TriesNext(m.f)
    }

    /** The failing exit: the listed blocks go back, their records do not. */
    method FreeBlocks(mem: Memory, head: seq<PageInfo>)
      requires NoDuplicates(Flat(Entries(head))) && Held(Entries(head)) !! mem.free
      modifies mem`free
      ensures mem.free == old(mem.free) + Held(Entries(head))
    {
      ghost var sgs := Entries(head);
      var k := 0;
      while k < |head|
        invariant 0 <= k <= |head|
        invariant mem.free == old(mem.free) + Held(sgs[..k])
      {
        BlockApart(sgs, k);
        mem.FreePages(head[k].page, head[k].order);
        k := k + 1;
      }
      assert sgs[..k] == sgs;
    }

    /** The scatter table takes over the listed blocks, and their records are freed. */
    method FillTable(mem: Memory, head: seq<PageInfo>)
      modifies this`sgt, mem`infos
      ensures sgt == Some(Entries(head)) && mem.infos == old(mem.infos) - |head|
    {
      var sg: seq<Sg> := [];
      var k := 0;
      while k < |head|
        invariant 0 <= k <= |head| && sg == Entries(head)[..k]
        invariant mem.infos == old(mem.infos) - k
      {
        sg := sg + [Sg(head[k].page, Pow2(head[k].order) * PAGE)];
        mem.infos := mem.infos - 1;
        k := k + 1;
      }
      assert Entries(head)[..k] == Entries(head);
      sgt := Some(sg);
    }

    /** Frees every block under the order that its length says. */
    method LowlevelBufferDestroy(mem: Memory, maxOrder: nat, word: nat)
      requires Limits(maxOrder, word) && sgt.Some? && Backed(sgt.value, maxOrder) && Held(sgt.value) !! mem.free
      modifies this`sgt, mem`free
      ensures sgt == None && mem.free == old(mem.free) + Held(old(sgt.value))
    {
      var sgs := sgt.value;
      ghost var blocks: seq<PageInfo> :| sgs == Entries(blocks) && OrdersBelow(blocks, maxOrder);
      var k := 0;
      while k < |sgs|
        invariant 0 <= k <= |sgs| && sgt == old(sgt)
        invariant mem.free == old(mem.free) + Held(sgs[..k])
      {
        BlockApart(sgs, k);
        BlockOrder(blocks[k], maxOrder, word);
        var order := GetOrder(sgs[k].length, word);
        mem.FreePages(sgs[k].page, order);
        k := k + 1;
      }
      assert sgs[..k] == sgs;
      sgt := None;
    }

    /** Creates a scattered buffer object.  When the object itself cannot be allocated the buffer is
        destroyed again, and every page and record is back where it was; other failures keep the records
        of the blocks `built`, and one of them the block that has no record.  It succeeds exactly when
        the size is not too large, no single page and no record was refused, and table, entries and
        object were granted. */
    method GemCreat(mem: Memory, maxOrder: nat, word: nat, sgtOk: bool, tableOk: bool, objectOk: bool)
      returns (r: Option<Failure>, ghost built: seq<PageInfo>, ghost log: seq<Ask>)
      requires Limits(maxOrder, word) && size < word && mem.totalRam * PAGE < word
      requires sgt == None
      modifies this, mem
      ensures size == PageAlign(old(size), word)
      ensures r == None ==>
                && sgt == Some(Entries(built)) && Backed(sgt.value, maxOrder)
                && Held(sgt.value) <= old(mem.free) && mem.free == old(mem.free) - Held(sgt.value)
                && size / PAGE <= |Flat(sgt.value)| <= size / PAGE + 1
      ensures NoneRefused(log) ==> |built| <= Most(size / PAGE, maxOrder)
      ensures mem.asked == old(mem.asked) + log && Asks(log, size / PAGE, maxOrder, word)
      ensures r == None || r == Some(NoObject) ==> mem.infos == old(mem.infos)
      ensures r.Some? ==>
                && (r.value != NoObject ==> mem.infos == old(mem.infos) + |built|)
                && Lost(r) <= old(mem.free) && mem.free == old(mem.free) - Lost(r)
                && (r.value.NoInfo? ==> r.value.lost.order < maxOrder)
      ensures r == Some(TooLarge) <==> size / PAGE > mem.totalRam / 2
      ensures Because(r, log, mem.infosRefused != old(mem.infosRefused))
      ensures r == Some(NoTable) ==> !sgtOk || !tableOk
      ensures r == Some(NoObject) ==> sgtOk && tableOk && !objectOk
      ensures r == None ==> sgtOk && tableOk && objectOk
      ensures r != Some(BadOrder) && r != Some(TotalSize)
    {
      size := PageAlign(size, word);
      r, built, log := NocontigBufAlloc(mem, maxOrder, word, sgtOk, tableOk);
      if r == None && !objectOk {
        LowlevelBufferDestroy(mem, maxOrder, word);
        r := Some(NoObject);
      }
    }

    /** The frame behind a faulting page. */
    method MapBuf(pageOffset: nat) returns (r: Mapping)
      requires sgt.Some? ==> size / PAGE <= |Flat(sgt.value)|
      ensures r == if sgt == None then NotBacked
                   else if pageOffset >= size / PAGE then BadOffset
                   else Frame(Flat(sgt.value)[pageOffset])
    {
      if sgt == None { return NotBacked; }
      if pageOffset >= size / PAGE { return BadOffset; }
      var sgs := sgt.value;
      var left: int := pageOffset;
      var i := 0;
      assert sgs[..|sgs|] == sgs;
      while i < |sgs| && left >= sgs[i].length / PAGE
        invariant 0 <= i <= |sgs| && left >= 0 && left + |Flat(sgs[..i])| == pageOffset
      {
        FlatNext(sgs, i);
        left := left - sgs[i].length / PAGE;
        i := i + 1;
      }
      FlatBlock(sgs, i);
      return Frame(sgs[i].page + left);
    }
  }
}
