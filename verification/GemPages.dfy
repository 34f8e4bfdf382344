/** Scatter lists, and the pages they stand for when their blocks are laid end to end. */
module GemPages {
  import opened GemOrders

  /** One scatter entry: the first page frame of a block, and the block's length in bytes. */
  datatype Sg = Sg(page: nat, length: nat)

  function Run(page: nat, count: nat): (r: seq<nat>)
    ensures |r| == count && forall k :: 0 <= k < count ==> r[k] == page + k
  {
    seq(count, k requires 0 <= k => page + k)
  }

  function Elements(s: seq<nat>): set<nat> {
    set x | x in s
  }

  function Frames(page: nat, count: nat): set<nat> {
    Elements(Run(page, count))
  }

  predicate NoDuplicates(s: seq<nat>) {
    forall i, j :: 0 <= i < j < |s| ==> s[i] != s[j]
  }

  /** The frames of one block, in order. */
  function Pages(sg: Sg): seq<nat> {
    Run(sg.page, sg.length / PAGE)
  }

  /** The frames of a scatter list, in order: page `k` of the buffer is `Flat(sgt)[k]`. */
  function Flat(sgt: seq<Sg>): seq<nat> {
    if sgt == [] then [] else Flat(sgt[..|sgt| - 1]) + Pages(sgt[|sgt| - 1])
  }

  /** The frames that a scatter list holds. */
  function Held(sgt: seq<Sg>): set<nat> {
    Elements(Flat(sgt))
  }

  lemma ElementsOfSum(a: seq<nat>, b: seq<nat>)
    ensures Elements(a + b) == Elements(a) + Elements(b)
    ensures NoDuplicates(a + b) <==> NoDuplicates(a) && NoDuplicates(b) && Elements(a) !! Elements(b)
  {
    if NoDuplicates(a + b) {
      assert forall i :: 0 <= i < |a| ==> (a + b)[i] == a[i];
      assert forall j :: 0 <= j < |b| ==> (a + b)[|a| + j] == b[j];
      forall x | x in a ensures x !in b {
        var i :| 0 <= i < |a| && a[i] == x;
        forall j | 0 <= j < |b| ensures b[j] != x {
          assert (a + b)[i] != (a + b)[|a| + j];
        }
      }
    } else {
      var i, j :| 0 <= i < j < |a + b| && (a + b)[i] == (a + b)[j];
      assert i < |a| <= j ==> a[i] in Elements(a) && a[i] in Elements(b);
      assert i >= |a| ==> b[i - |a|] == b[j - |a|];
    }
  }

  lemma FlatAppend(sgt: seq<Sg>, sg: Sg)
    ensures Flat(sgt + [sg]) == Flat(sgt) + Pages(sg)
  {
    assert (sgt + [sg])[..|sgt|] == sgt;
  }

  lemma FlatNext(sgt: seq<Sg>, k: nat)
    requires k < |sgt|
    ensures Flat(sgt[..k + 1]) == Flat(sgt[..k]) + Pages(sgt[k])
  {
    assert sgt[..k + 1] == sgt[..k] + [sgt[k]];
    FlatAppend(sgt[..k], sgt[k]);
  }

  lemma {:induction false} FlatPrefix(sgt: seq<Sg>, k: nat)
    requires k <= |sgt|
    ensures |Flat(sgt[..k])| <= |Flat(sgt)| && Flat(sgt[..k]) == Flat(sgt)[..|Flat(sgt[..k])|]
    decreases |sgt| - k
  {
    if k == |sgt| {
      assert sgt[..k] == sgt;
    } else {
      FlatPrefix(sgt, k + 1);
      FlatNext(sgt, k);
    }
  }

  /** The list `f` runs from position `start` over `count` frames from `page`. */
  ghost predicate RunsAt(f: seq<nat>, start: nat, page: nat, count: nat) {
    start + count <= |f| && forall x :: start <= x < start + count ==> f[x] == page + x - start
  }

  /** Block `k` lies in the flat list behind the blocks before it. */
  lemma FlatBlock(sgt: seq<Sg>, k: nat)
    requires k < |sgt|
    ensures RunsAt(Flat(sgt), |Flat(sgt[..k])|, sgt[k].page, sgt[k].length / PAGE)
  {
    FlatNext(sgt, k);
    FlatPrefix(sgt, k + 1);
    var f, head, n := Flat(sgt), Flat(sgt[..k + 1]), |Flat(sgt[..k])|;
    forall x | n <= x < |head| ensures f[x] == sgt[k].page + x - n {
      assert f[x] == head[x] == Pages(sgt[k])[x - n];
    }
  }

  /** A block taken from outside a list lengthens it without repeating a frame. */
  lemma BlockAdded(sgt: seq<Sg>, sg: Sg)
    requires NoDuplicates(Flat(sgt)) && Held(sgt) !! Elements(Pages(sg))
    ensures NoDuplicates(Flat(sgt + [sg]))
    ensures Held(sgt + [sg]) == Held(sgt) + Elements(Pages(sg))
    ensures |Flat(sgt + [sg])| == |Flat(sgt)| + sg.length / PAGE
  {
    FlatAppend(sgt, sg);
    ElementsOfSum(Flat(sgt), Pages(sg));
  }

  /** What can be said of the middle of a list without repetition. */
  lemma MiddlePart(f: seq<nat>, a: seq<nat>, b: seq<nat>, c: seq<nat>)
    requires f == a + b + c && NoDuplicates(f)
    ensures Elements(a) !! Elements(b) && Elements(b) <= Elements(f)
    ensures Elements(a + b) == Elements(a) + Elements(b)
  {
    ElementsOfSum(a + b, c);
    ElementsOfSum(a, b);
  }

  /** Block `k` has no frame in common with the blocks before it. */
  lemma BlockApart(sgt: seq<Sg>, k: nat)
    requires NoDuplicates(Flat(sgt)) && k < |sgt|
    ensures Held(sgt[..k]) !! Elements(Pages(sgt[k]))
    ensures Held(sgt[..k + 1]) == Held(sgt[..k]) + Elements(Pages(sgt[k]))
    ensures Elements(Pages(sgt[k])) <= Held(sgt)
  {
    FlatNext(sgt, k);
    var rest := FlatRest(sgt, k + 1);
    MiddlePart(Flat(sgt), Flat(sgt[..k]), Pages(sgt[k]), rest);
  }

  /** The flat list goes on behind the first `k` blocks. */
  lemma FlatRest(sgt: seq<Sg>, k: nat) returns (rest: seq<nat>)
    requires k <= |sgt|
    ensures Flat(sgt) == Flat(sgt[..k]) + rest
  {
    FlatPrefix(sgt, k);
    rest := Flat(sgt)[|Flat(sgt[..k])|..];
  }
}
