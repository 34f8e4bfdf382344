/** Page orders as the buffer allocator chooses them, on unsigned machine words. */
module GemOrders {
  const PAGE := 4096
  const WORD32 := 0x1_0000_0000
  const WORD64 := 0x1_0000_0000_0000_0000

  function Pow2(k: nat): (p: nat)
    ensures p > k
  {
    if k == 0 then 1 else 2 * Pow2(k - 1)
  }

  /** Index of the highest set bit, counted from one; zero has none. */
  function Fls(n: nat): nat {
    if n == 0 then 0 else 1 + Fls(n / 2)
  }

  function Ones(n: nat): nat {
    if n == 0 then 0 else n % 2 + Ones(n / 2)
  }

  /** An unsigned difference in a machine word. */
  function Less(a: nat, b: nat, word: nat): (r: nat)
    requires a < word && b <= word
  {
    if a >= b then a - b else a + word - b
  }

  /** The page order of a size in bytes; size 0 wraps to the largest one. */
  function GetOrder(size: nat, word: nat): nat
    requires size < word
  {
    Fls(Less(size, 1, word) / PAGE)
  }

  /** What the allocator takes as its limits: block orders run below `maxOrder`, and the largest
      block fits a scatter entry's 32-bit length; `word` is the machine's word. */
  ghost predicate Limits(maxOrder: nat, word: nat) {
    && 2 <= maxOrder && Pow2(maxOrder - 1) * PAGE < WORD32
    && (word == WORD32 || word == WORD64)
  }

  /** The order to try next for `size` remaining bytes: one that overshoots by at most a page, else
      the next smaller one. */
  function OrderFor(size: nat, maxOrder: nat, word: nat): int
    requires size < word && maxOrder > 0 && Pow2(maxOrder - 1) * PAGE < word
  {
    var fit := GetOrder(size, word);
    var o := if fit >= maxOrder then maxOrder - 1 else fit;
    Pow2Monotone(o, maxOrder - 1);
    if Less(Pow2(o) * PAGE, size, word) <= PAGE then o else o - 1
  }

  // ---------------------------------------------------------------- powers and bits

  lemma {:induction false} Pow2Monotone(k: nat, l: nat)
    requires k <= l
    ensures Pow2(k) <= Pow2(l)
    ensures k < l ==> 2 * Pow2(k) <= Pow2(l)
  {
    if k < l { Pow2Monotone(k, l - 1); }
  }

  lemma {:induction false} FlsBounds(n: nat)
    ensures n < Pow2(Fls(n))
    ensures n > 0 ==> Fls(n) > 0 && Pow2(Fls(n) - 1) <= n
  {
    if n > 0 { FlsBounds(n / 2); }
  }

  lemma {:induction false} OnesOfTop(n: nat, k: nat)
    requires Pow2(k) <= n < Pow2(k + 1)
    ensures Ones(n) == 1 + Ones(n - Pow2(k))
  {
    if k > 0 {
      OnesOfTop(n / 2, k - 1);
      assert (n - Pow2(k)) / 2 == n / 2 - Pow2(k - 1);
    }
  }

  /** Nothing has no one-bit, and a power of two has one, so a whole block counts once. */
  lemma {:induction false} OnesOfPower(k: nat)
    ensures Ones(0) == 0 && Ones(Pow2(k)) == 1
  {
    if k > 0 { OnesOfPower(k - 1); }
  }

  // ---------------------------------------------------------------- orders

  /** The page order is the least one whose block covers the size. */
  lemma GetOrderIsLeast(size: nat, word: nat, k: nat)
    requires 0 < size < word
    ensures GetOrder(size, word) <= k <==> size <= Pow2(k) * PAGE
  {
    var n := (size - 1) / PAGE;
    FlsBounds(n);
    if Fls(n) <= k { Pow2Monotone(Fls(n), k); } else { Pow2Monotone(k, Fls(n) - 1); }
  }

  /** The order of a block's own length is the order it was allocated with. */
  lemma OrderOfBlock(k: nat, word: nat)
    requires Pow2(k) * PAGE < word
    ensures GetOrder(Pow2(k) * PAGE, word) == k
  {
    GetOrderIsLeast(Pow2(k) * PAGE, word, k);
    if k > 0 { GetOrderIsLeast(Pow2(k) * PAGE, word, k - 1); }
  }

  /** An order that fits the request: it overshoots by at most one page and does not double it. */
  predicate Suits(k: nat, n: nat) {
    Pow2(k) <= n + 1 && Pow2(k) < 2 * n
  }

  /** The chosen order always exists; it is the greatest that suits the request, except that requests
      beyond the largest block are served one order below it. */
  lemma OrderForPages(n: nat, maxOrder: nat, word: nat)
    requires Limits(maxOrder, word) && 0 < n && n * PAGE < word
    ensures var o := OrderFor(n * PAGE, maxOrder, word);
            && 0 <= o < maxOrder
            && (n > Pow2(maxOrder - 1) ==> o == maxOrder - 2)
            && (n <= Pow2(maxOrder - 1) ==> Suits(o, n) && forall k: nat | o < k :: !Suits(k, n))
  {
    GetOrderIsLeast(n * PAGE, word, maxOrder - 1);
    if n <= Pow2(maxOrder - 1) { OrderThatFits(n, maxOrder, word); }
  }

  lemma OrderThatFits(n: nat, maxOrder: nat, word: nat)
    requires Limits(maxOrder, word) && 0 < n <= Pow2(maxOrder - 1) && n * PAGE < word
    ensures var o := OrderFor(n * PAGE, maxOrder, word);
            0 <= o < maxOrder && Suits(o, n) && forall k: nat | o < k :: !Suits(k, n)
  {
    var size := n * PAGE;
    var fit := GetOrder(size, word);
    assert fit < maxOrder by { GetOrderIsLeast(size, word, maxOrder - 1); }
    assert n <= Pow2(fit) by { GetOrderIsLeast(size, word, fit); }
    if fit > 0 { GetOrderIsLeast(size, word, fit - 1); }
    forall k: nat | fit < k ensures Pow2(k) >= 2 * n { Pow2Monotone(fit, k); }
  }

  /** After the loop the remainder is zero or minus one page, and the order is still a valid one. */
  lemma OrderForRest(size: nat, maxOrder: nat, word: nat)
    requires Limits(maxOrder, word) && (size == 0 || size == word - PAGE)
    ensures OrderFor(size, maxOrder, word) == maxOrder - 2
  {
    var n := Less(size, 1, word) / PAGE;
    assert n >= Pow2(maxOrder - 1) by {
      assert Pow2(maxOrder - 1) == 2 * Pow2(maxOrder - 2);
      assert n >= word / PAGE - 2;
    }
    assert Fls(n) >= maxOrder by {
      FlsBounds(n);
      if Fls(n) < maxOrder { Pow2Monotone(Fls(n), maxOrder - 1); }
    }
    Pow2Monotone(1, maxOrder - 1);
  }
}
