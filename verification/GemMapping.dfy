/** Mapping a whole buffer at once: it installs exactly the frames that single faults would find. */
module GemMapping {
  import opened Options
  import opened GemOrders
  import opened GemPages
  import opened GemBuffers

  /** The page-table entries for `count` pages from `page`, running over frames from `pfn`. */
  function PageTable(page: nat, pfn: nat, count: nat): (m: map<nat, nat>)
    ensures forall v :: v in m <==> page <= v < page + count
    ensures forall v :: v in m ==> m[v] == pfn + v - page
  {
    if count == 0 then map[] else PageTable(page, pfn, count - 1)[page + count - 1 := pfn + count - 1]
  }

  /** A user mapping.  Whether the kernel can install a range is not the driver's choice: a failing
      call gives the number of pages it installed before it failed. */
  class Vma {
    const start: nat
    const end: nat
    const pgoff: nat
    const answers: nat -> Option<nat>
    var requests: nat
    var pages: map<nat, nat>
    ghost var refusals: nat

    constructor (start: nat, end: nat, pgoff: nat, answers: nat -> Option<nat>)
      ensures this.start == start && this.end == end && this.pgoff == pgoff && pages == map[] && refusals == 0
    {
      this.start, this.end, this.pgoff, this.answers := start, end, pgoff, answers;
      requests, pages, refusals := 0, map[], 0;
    }

    /** No page may be mapped twice, and none outside the mapping. */
    method RemapPfnRange(addr: nat, pfn: nat, len: nat) returns (ok: bool, ghost n: nat)
      requires addr % PAGE == 0 && len % PAGE == 0 && start <= addr && addr + len <= end
      requires forall v :: v in pages ==> v < addr / PAGE
      modifies this`requests, this`pages, this`refusals
      ensures n <= len / PAGE && (ok ==> n == len / PAGE)
      ensures refusals == old(refusals) + if ok then 0 else 1
      ensures pages == old(pages) + PageTable(addr / PAGE, pfn, n)
    {
      var answer := answers(requests);
      requests := requests + 1;
      var count := if answer.Some? && answer.value <= len / PAGE then answer.value else len / PAGE;
      pages := pages + PageTable(addr / PAGE, pfn, count);
      n := count;
      ok := answer == None;
      if !ok { refusals := refusals + 1; }
    }
  }

  /** `count` pages from `page` are mapped to the frames `f[off]`, `f[off + 1]`, …, and nothing else. */
  ghost predicate Maps(pages: map<nat, nat>, page: nat, f: seq<nat>, off: nat, count: nat) {
    && (forall v :: v in pages <==> page <= v < page + count)
    && (forall v :: v in pages ==> 0 <= off + v - page < |f| && pages[v] == f[off + v - page])
  }

  datatype Shown = Shown(pages: map<nat, nat>, page: nat, f: seq<nat>, off: nat, count: nat)

  type Image = s: Shown | Maps(s.pages, s.page, s.f, s.off, s.count) ghost witness Shown(map[], 0, [], 0, 0)

  function Min(a: nat, b: nat): nat {
    if a < b then a else b
  }

  /** A whole number of pages per block. */
  predicate PageSized(sgt: seq<Sg>) {
    forall k :: 0 <= k < |sgt| ==> sgt[k].length % PAGE == 0
  }

  function Beyond(total: nat, off: nat): nat {
    if total <= off then 0 else total - off
  }

  /** A mapping in the making: blocks before `i` are skipped or mapped. */
  datatype Partial = Partial(sgt: seq<Sg>, i: nat, image: Image)

  ghost predicate PartialOk(p: Partial) {
    && p.i <= |p.sgt| && p.image.f == Flat(p.sgt)
    && p.image.count == Beyond(|Flat(p.sgt[..p.i])|, p.image.off)
  }

  type Mapping = p: Partial | PartialOk(p) ghost witness Partial([], 0, Shown(map[], 0, [], 0, 0))

  /** The pages to skip in block `i`. */
  function Skip(p: Partial): nat
    requires p.i <= |p.sgt|
  {
    Beyond(p.image.off, |Flat(p.sgt[..p.i])|)
  }

  /** Going on with block `i` for `n` pages. */
  lemma MapsOn(p: Mapping, n: nat, pages': map<nat, nat>) returns (image: Image)
    requires p.i < |p.sgt| && Skip(p) + n <= p.sgt[p.i].length / PAGE
    requires pages' == p.image.pages + PageTable(p.image.page + p.image.count, p.sgt[p.i].page + Skip(p), n)
    ensures image == p.image.(pages := pages', count := p.image.count + n)
    ensures image.count <= Beyond(|image.f|, image.off)
  {
    var start, len := |Flat(p.sgt[..p.i])|, p.sgt[p.i].length / PAGE;
    assert RunsAt(p.image.f, start, p.sgt[p.i].page, len) by { FlatBlock(p.sgt, p.i); }
    image := RunShown(p.image, start, p.sgt[p.i].page, len, Skip(p), n, pages');
  }

  /** A run of `len` frames from `page` lies at `start` in the list; pages `o` to `o + n` of it come next. */
  lemma RunShown(image: Image, start: nat, page: nat, len: nat, o: nat, n: nat, pages': map<nat, nat>) returns (image': Image)
    requires RunsAt(image.f, start, page, len) && o + n <= len && start + o == image.off + image.count
    requires pages' == image.pages + PageTable(image.page + image.count, page + o, n)
    ensures image' == image.(pages := pages', count := image.count + n)
  {
    image' := image.(pages := pages', count := image.count + n);
  }

  /** Block `i` lies before the offset, and is skipped. */
  lemma BlockSkipped(p: Mapping) returns (p': Mapping)
    requires p.i < |p.sgt| && Skip(p) >= p.sgt[p.i].length / PAGE
    ensures p' == p.(i := p.i + 1) && Skip(p') == Skip(p) - p.sgt[p.i].length / PAGE
  {
    FlatNext(p.sgt, p.i);
    p' := p.(i := p.i + 1);
  }

  /** Block `i` is mapped to its end. */
  lemma BlockMapped(p: Mapping, image: Image) returns (p': Mapping)
    requires p.i < |p.sgt| && image == p.image.(pages := image.pages, count := image.count)
    requires image.count - p.image.count + Skip(p) == p.sgt[p.i].length / PAGE && image.count > p.image.count
    ensures p' == p.(i := p.i + 1, image := image) && Skip(p') == 0
  {
    FlatNext(p.sgt, p.i);
    p' := p.(i := p.i + 1, image := image);
  }

  lemma AllMapped(p: Mapping)
    requires p.i == |p.sgt|
    ensures p.image.count == Beyond(|p.image.f|, p.image.off)
  {
    assert p.sgt[..p.i] == p.sgt;
  }

  /** The page where a mapping starts: the byte offset is computed in a machine word. */
  function StartPage(pgoff: nat, word: nat): nat
    requires word > 0
  {
    pgoff * PAGE % word / PAGE
  }

  lemma StartOffset(pgoff: nat, word: nat)
    requires word == WORD32 || word == WORD64
    ensures pgoff * PAGE % word == StartPage(pgoff, word) * PAGE
  {
  }

  lemma MappingStarts(sgt: seq<Sg>, page: nat, off: nat) returns (p: Mapping)
    ensures p == Partial(sgt, 0, Shown(map[], page, Flat(sgt), off, 0)) && Skip(p) == off
  {
    p := Partial(sgt, 0, Shown(map[], page, Flat(sgt), off, 0));
  }

  /** It is the page that was asked for exactly when its byte offset fits the word. */
  lemma StartPageFits(pgoff: nat, word: nat)
    requires word == WORD32 || word == WORD64
    ensures StartPage(pgoff, word) == pgoff <==> pgoff * PAGE < word
  {
  }

  /** The lists that the allocator builds are page sized. */
  lemma BackedIsPageSized(sgt: seq<Sg>, maxOrder: nat)
    requires Backed(sgt, maxOrder)
    ensures PageSized(sgt)
  {
  }

  lemma PagesLeft(length: nat, skip: nat, len: nat)
    requires skip * PAGE + len <= length
    ensures skip + len / PAGE <= length / PAGE
  {
  }

  /** Maps block `p.i` from byte `offset` on, as far as the mapping reaches. */
  method MapBlock(vma: Vma, ghost p: Mapping, sg: Sg, addr: nat, offset: nat) returns (ok: bool, len: nat, ghost image: Image)
    requires p.i < |p.sgt| && sg == p.sgt[p.i] && sg.length % PAGE == 0 && p.image.pages == vma.pages
    requires addr == (p.image.page + p.image.count) * PAGE && vma.start <= addr < vma.end && vma.end % PAGE == 0
    requires offset == Skip(p) * PAGE < sg.length
    modifies vma`requests, vma`pages, vma`refusals
    ensures len == Min(sg.length - offset, vma.end - addr)
    ensures image == p.image.(pages := vma.pages, count := image.count)
    ensures p.image.count <= image.count <= Min(p.image.count + len / PAGE, Beyond(|image.f|, image.off))
    ensures ok ==> image.count == p.image.count + len / PAGE
    ensures vma.refusals == old(vma.refusals) + if ok then 0 else 1
  {
    ghost var n;
    ok, len, n := RemapBlock(vma, p, sg, addr, offset);
    image := MapsOn(p, n, vma.pages);
  }

  /** Installs the pages of the block. */
  method RemapBlock(vma: Vma, ghost p: Mapping, sg: Sg, addr: nat, offset: nat) returns (ok: bool, len: nat, ghost n: nat)
    requires p.i < |p.sgt| && sg == p.sgt[p.i] && sg.length % PAGE == 0 && p.image.pages == vma.pages
    requires addr == (p.image.page + p.image.count) * PAGE && vma.start <= addr < vma.end && vma.end % PAGE == 0
    requires offset == Skip(p) * PAGE < sg.length
    modifies vma`requests, vma`pages, vma`refusals
    ensures len == Min(sg.length - offset, vma.end - addr) && n <= len / PAGE && (ok ==> n == len / PAGE)
    ensures Skip(p) + n <= sg.length / PAGE
    ensures vma.refusals == old(vma.refusals) + if ok then 0 else 1
    ensures vma.pages == p.image.pages + PageTable(p.image.page + p.image.count, sg.page + Skip(p), n)
  {
    var page := sg.page;
    len := sg.length;
    if offset != 0 {
      page := page + offset / PAGE;
      len := sg.length - offset;
    }
    len := Min(len, vma.end - addr);
    assert addr / PAGE == p.image.page + p.image.count && page == sg.page + Skip(p);
    PagesLeft(sg.length, Skip(p), len);
    ok, n := vma.RemapPfnRange(addr, page, len);
  }

  /** Maps the buffer's pages from `vma.pgoff` on.  What ends up mapped, page by page, is what a fault
      at that page of the buffer would have found.  It succeeds exactly when no range was refused, and
      stops at the first refusal. */
  method DmabufMmap(buf: GemBuffer, vma: Vma, word: nat) returns (ok: bool, ghost image: Image)
    requires buf.sgt.Some? && PageSized(buf.sgt.value) && (word == WORD32 || word == WORD64)
    requires vma.start % PAGE == 0 && vma.end % PAGE == 0 && vma.start < vma.end && vma.pages == map[]
    modifies vma`requests, vma`pages, vma`refusals
    ensures image.pages == vma.pages && image.page == vma.start / PAGE
    ensures image.f == Flat(buf.sgt.value) && image.off == StartPage(vma.pgoff, word)
    ensures var reach := Min((vma.end - vma.start) / PAGE, Beyond(|image.f|, image.off));
            image.count <= reach && (ok ==> image.count == reach)
    ensures vma.refusals == old(vma.refusals) + if ok then 0 else 1
  {
    var sgt := buf.sgt.value;
    var addr, offset := vma.start, vma.pgoff * PAGE % word;
    ghost var f, off := Flat(sgt), StartPage(vma.pgoff, word);
    StartOffset(vma.pgoff, word);
    ghost var p := MappingStarts(sgt, vma.start / PAGE, off);
    image := p.image;
    var i := 0;
    while i < |sgt|
      invariant p.sgt == sgt && p.i == i <= |sgt| && p.image == image
      invariant image.pages == vma.pages && image.page == vma.start / PAGE
      invariant image.f == f && image.off == off
      invariant addr == vma.start + image.count * PAGE < vma.end && offset == Skip(p) * PAGE
      invariant vma.refusals == old(vma.refusals)
    {
      if offset >= sgt[i].length {
        offset := offset - sgt[i].length;
        p := BlockSkipped(p);
      } else {
        var len;
        ok, len, image := MapBlock(vma, p, sgt[i], addr, offset);
        if !ok { return; }
        offset, addr := 0, addr + len;
        if addr >= vma.end { return; }
        p := BlockMapped(p, image);
      }
      i := i + 1;
    }
    AllMapped(p);
    ok := true;
  }
}
