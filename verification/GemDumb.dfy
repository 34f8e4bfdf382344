/** The size of a dumb buffer, computed in 32-bit words, against the bytes its pixels need. */
module GemDumb {
  import opened Options
  import opened GemOrders
  import opened GemPages
  import opened GemBuffers
  import GemMapping

  /** Bytes per pixel. */
  function Cpp(bpp: nat): nat {
    (bpp + 7) % WORD32 / 8
  }

  function Pitch(width: nat, bpp: nat): nat {
    width * Cpp(bpp) % WORD32
  }

  /** It is the least number of bytes that hold the bits, unless the sum wraps. */
  lemma CppIsLeast(bpp: nat)
    requires bpp + 7 < WORD32
    ensures 8 * Cpp(bpp) >= bpp && (bpp > 0 ==> 8 * (Cpp(bpp) - 1) < bpp)
  {
  }

  /** Aligning gives the least multiple of the page size that is not smaller, unless the sum wraps. */
  lemma PageAlignIsLeast(size: nat, word: nat)
    requires size + PAGE - 1 < word
    ensures var up := PageAlign(size, word); up % PAGE == 0 && size <= up < size + PAGE
  {
  }

  /** What the buffer's size becomes: the product wraps at 32 bits, is aligned in 64 bits, and is then
      stored in a machine word. */
  function BufferSize(width: nat, height: nat, bpp: nat, word: nat): nat
    requires word > 0
  {
    PageAlign(Pitch(width, bpp) * height % WORD32, WORD64) % word
  }

  /** The last byte of pixel (x, y), addressed through the pitch that the driver returned. */
  function LastByte(x: nat, y: nat, width: nat, bpp: nat): nat {
    y * Pitch(width, bpp) + x * Cpp(bpp) + if Cpp(bpp) > 0 then Cpp(bpp) - 1 else 0
  }

  /** A pixel resolves when the page of its last byte is one of the buffer's pages. */
  predicate Resolves(x: nat, y: nat, width: nat, height: nat, bpp: nat, word: nat)
    requires word > 0
  {
    LastByte(x, y, width, bpp) / PAGE < BufferSize(width, height, bpp, word) / PAGE
  }

  ghost predicate AllResolve(width: nat, height: nat, bpp: nat, word: nat)
    requires word > 0
  {
    forall x: nat, y: nat | x < width && y < height :: Resolves(x, y, width, height, bpp, word)
  }

  /** Whether the sizes a caller asks for can be represented. */
  predicate Representable(width: nat, height: nat, bpp: nat, word: nat) {
    var total := width * Cpp(bpp) * height;
    0 < total < WORD32 && (total + PAGE - 1) / PAGE * PAGE < word
  }

  /** Every pixel of a dumb buffer resolves exactly when its true size is representable. */
  lemma PixelsResolve(width: nat, height: nat, bpp: nat, word: nat)
    requires 0 < width < WORD32 && 0 < height < WORD32 && bpp < WORD32 && (word == WORD32 || word == WORD64)
    ensures AllResolve(width, height, bpp, word) <==> Representable(width, height, bpp, word)
  {
    if Representable(width, height, bpp, word) {
      forall x: nat, y: nat | x < width && y < height ensures Resolves(x, y, width, height, bpp, word) {
        PixelInside(x, y, width, height, bpp, word);
      }
    } else {
      var x, y := PixelOutside(width, height, bpp, word);
    }
  }

  /** The last byte of every pixel lies on one of the frames `f`. */
  ghost predicate AllBacked(width: nat, height: nat, bpp: nat, f: seq<nat>) {
    forall x: nat, y: nat | x < width && y < height :: LastByte(x, y, width, bpp) / PAGE < |f|
  }

  /** Two bytes share a frame exactly when they share a page. */
  ghost predicate OneFramePerPage(f: seq<nat>) {
    forall a: nat, b: nat | a / PAGE < |f| && b / PAGE < |f| ::
      a / PAGE == b / PAGE <==> f[a / PAGE] == f[b / PAGE]
  }

  /** In a buffer backed by a list without repetition, every pixel of a representable size has a frame,
      and two bytes share a frame exactly when they share a page. */
  lemma PixelFrames(width: nat, height: nat, bpp: nat, word: nat, sgt: seq<Sg>)
    requires 0 < width < WORD32 && 0 < height < WORD32 && bpp < WORD32 && (word == WORD32 || word == WORD64)
    requires Representable(width, height, bpp, word)
    requires NoDuplicates(Flat(sgt)) && BufferSize(width, height, bpp, word) / PAGE <= |Flat(sgt)|
    ensures AllBacked(width, height, bpp, Flat(sgt)) && OneFramePerPage(Flat(sgt))
  {
    PixelsResolve(width, height, bpp, word);
    forall x: nat, y: nat | x < width && y < height ensures LastByte(x, y, width, bpp) / PAGE < |Flat(sgt)| {
      assert Resolves(x, y, width, height, bpp, word);
    }
  }

  /** The allocator aligns the size once more, which changes nothing. */
  lemma AlignedTwice(width: nat, height: nat, bpp: nat, word: nat)
    requires word == WORD32 || word == WORD64
    ensures PageAlign(BufferSize(width, height, bpp, word), word) == BufferSize(width, height, bpp, word)
  {
    SizeIsAligned(width, height, bpp, word);
    AlignedAlready(BufferSize(width, height, bpp, word), word);
  }

  lemma AlignedAlready(size: nat, word: nat)
    requires size % PAGE == 0 && size < word && (word == WORD32 || word == WORD64)
    ensures PageAlign(size, word) == size
  {
    assert size + PAGE - 1 < word;
  }

  /** A representable size and its pitch, in bits and bytes: a row holds its pixels' bits, and the size
      is the least number of whole pages that hold all rows. */
  lemma SizeHoldsBits(width: nat, height: nat, bpp: nat, word: nat)
    requires 0 < width && 0 < height && bpp + 7 < WORD32 && (word == WORD32 || word == WORD64)
    requires Representable(width, height, bpp, word)
    ensures Pitch(width, bpp) == width * Cpp(bpp) && 8 * Pitch(width, bpp) >= width * bpp
    ensures var size, bytes := BufferSize(width, height, bpp, word), Pitch(width, bpp) * height;
            && size % PAGE == 0 && bytes <= size < bytes + PAGE
            && 8 * size >= width * bpp * height
  {
    var cpp := Cpp(bpp);
    CppIsLeast(bpp);
    NoWrap(width, height, cpp);
    EightTimes(bpp, cpp, width);
    EightTimes(width * bpp, width * cpp, height);
    AlignedBytes(width * cpp * height, word);
  }

  /** Bits that fit their bytes still do so when both are multiplied. */
  lemma EightTimes(bits: nat, bytes: nat, k: nat)
    requires bits <= 8 * bytes
    ensures k * bits <= 8 * (k * bytes) && bits * k <= 8 * (bytes * k)
  {
    var rest: nat := 8 * bytes - bits;
    assert k * rest >= 0 && k * (8 * bytes) == 8 * (k * bytes) && k * (bits + rest) == k * bits + k * rest;
  }

  lemma AlignedBytes(bytes: nat, word: nat)
    requires bytes < WORD32 && (bytes + PAGE - 1) / PAGE * PAGE < word && (word == WORD32 || word == WORD64)
    ensures var size := PageAlign(bytes % WORD32, WORD64) % word;
            size % PAGE == 0 && bytes <= size < bytes + PAGE
  {
    PageAlignIsLeast(bytes, WORD64);
    AlignedSize(bytes, word);
  }

  /** Creates a scattered dumb buffer, which can be mapped at once.  When the size is representable, all
      pixels have frames, those of different pages different ones, and the size holds their bits. */
  method DumbCreat(width: nat, height: nat, bpp: nat, mem: Memory, maxOrder: nat, word: nat,
                   sgtOk: bool, tableOk: bool, objectOk: bool)
    returns (r: Option<Failure>, pitch: nat, buf: GemBuffer)
    requires 0 < width < WORD32 && 0 < height < WORD32 && bpp < WORD32
    requires Limits(maxOrder, word) && mem.totalRam * PAGE < word
    modifies mem
    ensures fresh(buf) && buf.size == BufferSize(width, height, bpp, word) && pitch == Pitch(width, bpp)
    ensures bpp + 7 < WORD32 && Representable(width, height, bpp, word) ==>
              8 * pitch >= width * bpp && pitch * height <= buf.size < pitch * height + PAGE
              && 8 * buf.size >= width * bpp * height
    ensures r == None ==> sgtOk && tableOk && objectOk
    ensures r.Some? && !r.value.NoInfo? ==> mem.free == old(mem.free)
    ensures r == None ==>
              && buf.sgt.Some? && Backed(buf.sgt.value, maxOrder) && GemMapping.PageSized(buf.sgt.value)
              && Held(buf.sgt.value) <= old(mem.free) && mem.free == old(mem.free) - Held(buf.sgt.value)
              && OneFramePerPage(Flat(buf.sgt.value))
              && (Representable(width, height, bpp, word) ==> AllBacked(width, height, bpp, Flat(buf.sgt.value)))
  {
    pitch := Pitch(width, bpp);
    buf := new GemBuffer(BufferSize(width, height, bpp, word));
    ghost var built, log;
    r, built, log := buf.GemCreat(mem, maxOrder, word, sgtOk, tableOk, objectOk);
    AlignedTwice(width, height, bpp, word);
    if bpp + 7 < WORD32 && Representable(width, height, bpp, word) { SizeHoldsBits(width, height, bpp, word); }
    if r == None {
      GemMapping.BackedIsPageSized(buf.sgt.value, maxOrder);
      if Representable(width, height, bpp, word) { PixelFrames(width, height, bpp, word, buf.sgt.value); }
    }
  }

  // ---------------------------------------------------------------- arithmetic

  lemma NoWrap(width: nat, height: nat, cpp: nat)
    requires 0 < height && width * cpp * height < WORD32
    ensures width * cpp % WORD32 == width * cpp && width * cpp * height % WORD32 == width * cpp * height
  {
    assert width * cpp <= width * cpp * height;
  }

  /** A size below 2^32 is aligned exactly, except that 2^32 itself does not fit a 32-bit word. */
  lemma AlignedSize(bytes: nat, word: nat)
    requires bytes < WORD32 && (word == WORD32 || word == WORD64)
    ensures var up := (bytes + PAGE - 1) / PAGE * PAGE;
            bytes <= up <= WORD32 && PageAlign(bytes, WORD64) % word == if up < word then up else 0
  {
    assert (bytes + PAGE - 1) % WORD64 == bytes + PAGE - 1;
  }

  /** The last byte of a pixel comes before the end of its row, and a row before the end of the buffer. */
  lemma RowInside(x: nat, width: nat, cpp: nat)
    requires x < width
    ensures x * cpp + cpp <= width * cpp
  {
    var rest: nat := width - x - 1;
    assert rest * cpp >= 0;
    assert width == rest + x + 1;
    assert width * cpp == rest * cpp + x * cpp + cpp;
  }

  /** A page-aligned end separates a byte from the page behind it. */
  lemma PageOfByte(last: nat, size: nat)
    requires size % PAGE == 0
    ensures last / PAGE < size / PAGE <==> last < size
  {
  }

  lemma SizeIsAligned(width: nat, height: nat, bpp: nat, word: nat)
    requires word == WORD32 || word == WORD64
    ensures BufferSize(width, height, bpp, word) % PAGE == 0 && BufferSize(width, height, bpp, word) <= WORD32
    ensures Pitch(width, bpp) * height % WORD32 == 0 ==> BufferSize(width, height, bpp, word) == 0
  {
    WrappedSize(Pitch(width, bpp) * height, word);
  }

  lemma WrappedSize(product: nat, word: nat)
    requires word == WORD32 || word == WORD64
    ensures var size := PageAlign(product % WORD32, WORD64) % word;
            && size % PAGE == 0 && size <= WORD32
            && (product % WORD32 == 0 ==> size == 0)
            && (product < WORD32 && (product + PAGE - 1) / PAGE * PAGE >= word ==> size == 0)
  {
    AlignedSize(product % WORD32, word);
  }

  // ---------------------------------------------------------------- both directions

  lemma PixelInside(x: nat, y: nat, width: nat, height: nat, bpp: nat, word: nat)
    requires x < width && y < height && Representable(width, height, bpp, word)
    requires word == WORD32 || word == WORD64
    ensures Resolves(x, y, width, height, bpp, word)
  {
    var cpp := Cpp(bpp);
    var pitch := width * cpp;
    NoWrap(width, height, cpp);
    assert LastByte(x, y, width, bpp) < pitch * height by {
      RowInside(x, width, cpp);
      RowInside(y, height, pitch);
      assert pitch * height == height * pitch;
    }
    AlignedSize(pitch * height, word);
    SizeIsAligned(width, height, bpp, word);
    PageOfByte(LastByte(x, y, width, bpp), BufferSize(width, height, bpp, word));
  }

  /** When the size is not representable some pixel lies outside: the first when nothing is left of
      the size, else the last of the first row or of the last. */
  lemma PixelOutside(width: nat, height: nat, bpp: nat, word: nat) returns (x: nat, y: nat)
    requires 0 < width && 0 < height && !Representable(width, height, bpp, word)
    requires word == WORD32 || word == WORD64
    ensures x < width && y < height && !Resolves(x, y, width, height, bpp, word)
  {
    var size := BufferSize(width, height, bpp, word);
    SizeIsAligned(width, height, bpp, word);
    if size == 0 {
      x, y := 0, 0;
    } else {
      x, y := LargePixel(width, height, bpp, word);
    }
    PageOfByte(LastByte(x, y, width, bpp), size);
  }

  lemma LastOf(n: nat, c: nat)
    requires n > 0
    ensures (n - 1) * c == n * c - c
  {
  }

  /** A size that is not lost needs a pitch, and then every pixel has bytes. */
  lemma NothingLost(width: nat, height: nat, bpp: nat, word: nat)
    requires (word == WORD32 || word == WORD64) && BufferSize(width, height, bpp, word) != 0
    ensures Pitch(width, bpp) != 0 && Cpp(bpp) != 0 && Pitch(width, bpp) * height % WORD32 != 0
    ensures width * Cpp(bpp) < WORD32 ==> Pitch(width, bpp) == width * Cpp(bpp)
    ensures width * Cpp(bpp) >= WORD32 ==> width * Cpp(bpp) > WORD32
  {
    SizeIsAligned(width, height, bpp, word);
    assert 0 * height == 0 && width * 0 == 0;
  }

  lemma LargePixel(width: nat, height: nat, bpp: nat, word: nat) returns (x: nat, y: nat)
    requires 0 < width && 0 < height && !Representable(width, height, bpp, word)
    requires (word == WORD32 || word == WORD64) && BufferSize(width, height, bpp, word) != 0
    ensures x < width && y < height && LastByte(x, y, width, bpp) >= WORD32
  {
    var cpp, pitch := Cpp(bpp), Pitch(width, bpp);
    NothingLost(width, height, bpp, word);
    LastOf(width, cpp);
    LastOf(height, pitch);
    if width * cpp >= WORD32 {
      x, y := width - 1, 0;
    } else {
      x, y := width - 1, height - 1;
      LargeProduct(width, height, bpp, word);
    }
  }

  /** With an exact pitch, only a product of 2^32 or more is not representable without being lost. */
  lemma LargeProduct(width: nat, height: nat, bpp: nat, word: nat)
    requires 0 < width && 0 < height && !Representable(width, height, bpp, word)
    requires (word == WORD32 || word == WORD64) && BufferSize(width, height, bpp, word) != 0
    requires width * Cpp(bpp) < WORD32
    ensures Pitch(width, bpp) * height > WORD32
  {
    NothingLost(width, height, bpp, word);
    var product := Pitch(width, bpp) * height;
    assert product == width * Cpp(bpp) * height;
    WrappedSize(product, word);
  }
}
