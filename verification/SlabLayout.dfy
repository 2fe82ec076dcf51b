/**
  Slab sizing and the on-slab object layout of `spl-kmem-cache.c`, in the source's 32-bit
  unsigned arithmetic.  Alignments are powers of two, so or-ing with `align - 1` and adding one
  is written as rounding up.
 */
module SlabLayout {
  import opened Arith

  const WORD: nat := 0x1_0000_0000
  const PAGE: nat := 4096

  /** Structure sizes, creation arguments and tunables that decide a slab's shape. */
  datatype Config = Config(
    slabHeader: nat, objHeader: nat,
    objSize: nat, align: nat,
    perSlab: nat, maxSize: nat, maxOrderSize: nat,
    kmem: bool)

  /** The answer of `spl_slab_size`; a cell size that wraps to zero makes it divide by zero. */
  datatype Shape = Refused | DividesByZero | Shape(objs: nat, size: nat)

  /** What `spl_kmem_cache_create` verifies of its arguments, and what the headers define. */
  predicate Sane(c: Config) {
    && c.align in {8, 16, 32, 64, 128, 256, 512, 1024, 2048, 4096}
    && 0 < c.slabHeader <= PAGE && 0 < c.objHeader <= PAGE
    && c.objSize < WORD && c.maxSize < WORD && 2 * PAGE <= c.maxOrderSize < WORD
  }

  /** The least multiple of `align` at or above `x`. */
  function Up(x: nat, align: nat): nat
    requires align > 0
  {
    if x == 0 then 0 else Quot(x - 1, align) * align + align
  }

  /** `P2ROUNDUP_TYPED(x, align, uint32_t)`. */
  function RoundUp(x: nat, align: nat): nat requires align > 0 { Wrap(Up(x, align)) }

  function Wrap(x: int): nat { x % WORD }

  function HeaderSize(c: Config): nat requires c.align > 0 { RoundUp(c.slabHeader, c.align) }

  /** Space for one object followed by its header. */
  function CellSize(c: Config): nat requires c.align > 0 {
    Wrap(RoundUp(c.objSize, c.align) + RoundUp(c.objHeader, c.align))
  }

  /** The least order whose pages cover `n` bytes; the compiler's answer for zero bytes is 52. */
  function GetOrder(n: nat): nat { if n == 0 then 52 else OrderFrom(n, PAGE) }

  function OrderFrom(n: nat, block: nat): nat
    requires block > 0
    decreases n - block
  {
    if n <= block then 0 else 1 + OrderFrom(n, 2 * block)
  }

  function Min(a: nat, b: nat): nat { if a < b then a else b }
  function Max(a: int, b: int): int { if a < b then b else a }

  /** The target before the maximum is applied: as computed, or rounded to pages for `KMC_KMEM`. */
  function Target(c: Config): nat requires c.align > 0 {
    var t := Wrap(c.perSlab * CellSize(c) + HeaderSize(c));
    if c.kmem then Min(c.maxOrderSize, PAGE * Pow2(Max(GetOrder(t) - 1, 1))) else t
  }

  function Limit(c: Config): nat { if c.kmem then c.maxOrderSize else c.maxSize }

  /** `spl_slab_size` for a cache whose objects live on the slab. */
  function SlabSize(c: Config): Shape
    requires c.align > 0
  {
    var (h, o, t) := (HeaderSize(c), CellSize(c), Target(c));
    if o == 0 then DividesByZero
    else if t <= Limit(c) then
      var objs := Quot(Wrap(t - h), o);
      if objs == 0 then Refused else Shape(objs, t)
    else
      var objs := Quot(Wrap(Limit(c) - h), o);
      if objs == 0 then Refused else Shape(objs, Wrap(objs * o + h))
  }

  /** The object and its header are rounded up and added without leaving 32 bits. */
  predicate CellExact(c: Config) requires c.align > 0 {
    Up(c.objSize, c.align) + Up(c.objHeader, c.align) < WORD
  }

  /** Where `spl_slab_alloc` puts object `i`, relative to the slab. */
  function ObjOffset(c: Config, i: nat): nat requires c.align > 0 {
    HeaderSize(c) + Wrap(i * CellSize(c))
  }

  /** Where `spl_sko_from_obj` finds its header. */
  function HeaderOffset(c: Config, i: nat): nat requires c.align > 0 {
    ObjOffset(c, i) + RoundUp(c.objSize, c.align)
  }

  /** Object `i` lies behind the slab header, its own header behind it, and both inside the slab. */
  predicate Inside(c: Config, size: nat, i: nat) requires c.align > 0 {
    && c.slabHeader <= ObjOffset(c, i)
    && ObjOffset(c, i) + c.objSize <= HeaderOffset(c, i)
    && HeaderOffset(c, i) + c.objHeader <= size
  }

  /** Objects `i` and `j` and their headers share no byte. */
  predicate Apart(c: Config, i: nat, j: nat) requires c.align > 0 {
    || HeaderOffset(c, i) + c.objHeader <= ObjOffset(c, j)
    || HeaderOffset(c, j) + c.objHeader <= ObjOffset(c, i)
  }

  /** The bytes of all objects and headers lie inside the slab, and no two of them overlap. */
  predicate Sound(c: Config, sh: Shape) requires c.align > 0 && sh.Shape? {
    && (forall i :: 0 <= i < sh.objs ==> Inside(c, sh.size, i))
    && (forall i, j :: 0 <= i < j < sh.objs ==> Apart(c, i, j))
  }

  // ---------------------------------------------------------------- sizes

  lemma RoundUpExact(x: nat, align: nat)
    requires align > 0
    ensures x <= Up(x, align) < x + align
    ensures Up(x, align) % align == 0 && (x > 0 ==> Up(x, align) >= align)
  {
    MultipleMod(0, align);
    if x > 0 {
      var q := Quot(x - 1, align);
      assert q * align + align == (q + 1) * align;
      MultipleMod(q + 1, align);
    }
  }

  /** Rounding up does not pass a multiple of the alignment. */
  lemma RoundUpBelow(x: nat, align: nat, bound: nat)
    requires align > 0 && 0 < x <= bound && bound % align == 0
    ensures Up(x, align) <= bound
  {
    DivSplit(bound, align);
    var q, k := Quot(x - 1, align), bound / align;
    if q >= k { MulMono(k, q, align); }
    MulMono(q + 1, k, align);
    assert (q + 1) * align == q * align + align;
  }

  lemma HeaderFacts(c: Config)
    requires Sane(c)
    ensures c.slabHeader <= HeaderSize(c) <= PAGE && c.align <= HeaderSize(c) && HeaderSize(c) % c.align == 0
  {
    hide Up;
    RoundUpExact(c.slabHeader, c.align);
    assert PAGE % c.align == 0;
    RoundUpBelow(c.slabHeader, c.align, PAGE);
  }

  lemma CellFacts(c: Config)
    requires Sane(c) && CellExact(c)
    ensures c.objSize <= RoundUp(c.objSize, c.align)
    ensures c.objHeader <= RoundUp(c.objHeader, c.align)
    ensures CellSize(c) == RoundUp(c.objSize, c.align) + RoundUp(c.objHeader, c.align)
    ensures 0 < CellSize(c) < WORD && CellSize(c) % c.align == 0
  {
    hide Up;
    RoundUpExact(c.objHeader, c.align);
    RoundUpExact(c.objSize, c.align);
    WrapSmall(Up(c.objSize, c.align));
    WrapSmall(Up(c.objHeader, c.align));
    WrapSmall(Up(c.objSize, c.align) + Up(c.objHeader, c.align));
    hide Wrap;
    SumMod(Up(c.objSize, c.align), Up(c.objHeader, c.align), c.align);
  }

  // ---------------------------------------------------------------- when the layout fits

  /** The sum of cells and header stays within 32 bits where the source forms it. */
  predicate NoWrap(c: Config)
    requires c.align > 0
  {
    var (h, o) := (HeaderSize(c), CellSize(c));
    if c.kmem || o == 0 then true
    else if Target(c) <= Limit(c) then Wrap(c.perSlab * o) + h < WORD
    else Quot(Wrap(Limit(c) - h), o) * o + h < WORD
  }

  lemma WrapSum(x: nat, h: nat)
    requires h < WORD
    ensures Wrap(x + h) == if Wrap(x) + h < WORD then Wrap(x) + h else Wrap(x) + h - WORD
  {}

  lemma KmemTarget(c: Config)
    requires Sane(c) && c.kmem
    ensures 2 * PAGE <= Target(c) <= Limit(c)
  {
    var k := Max(GetOrder(Wrap(c.perSlab * CellSize(c) + HeaderSize(c))) - 1, 1);
    assert Pow2(k) == 2 * Pow2(k - 1);
  }

  lemma FitsBelow(h: nat, o: nat, t: nat)
    requires h <= t < WORD && o > 0
    ensures var k := Quot(Wrap(t - h), o); h + k * o <= t < h + (k + 1) * o
  {
    WrapSmall(t - h);
    var k := Quot(t - h, o);
    assert (k + 1) * o == k * o + o;
  }

  /** A sum that wraps ends before the header does. */
  lemma FitsSum(x: nat, h: nat, o: nat)
    requires h < WORD && o > 0
    ensures var t := Wrap(x + h);
      if Wrap(x) + h < WORD then var k := Quot(Wrap(t - h), o); h + k * o <= t < h + (k + 1) * o else t < h
  {
    WrapSum(x, h);
    if Wrap(x) + h < WORD { FitsBelow(h, o, Wrap(x + h)); }
  }

  /** Header and cells fill the slab but for less than a cell, where nothing wraps; otherwise the slab ends inside its header. */
  lemma SizeFits(c: Config)
    requires Sane(c) && SlabSize(c).Shape?
    ensures var sh := SlabSize(c);
      && 0 < sh.objs && sh.size < WORD
      && (if NoWrap(c) then HeaderSize(c) + sh.objs * CellSize(c) <= sh.size < HeaderSize(c) + (sh.objs + 1) * CellSize(c)
          else sh.size < HeaderSize(c))
  {
    if c.kmem { KmemFits(c); } else { VmemFits(c); }
  }

  lemma KmemFits(c: Config)
    requires Sane(c) && SlabSize(c).Shape? && c.kmem
    ensures var sh := SlabSize(c);
      && 0 < sh.objs && sh.size < WORD
      && HeaderSize(c) + sh.objs * CellSize(c) <= sh.size < HeaderSize(c) + (sh.objs + 1) * CellSize(c)
  {
    hide RoundUp, CellSize, HeaderSize, GetOrder, Pow2;
    HeaderFacts(c);
    KmemTarget(c);
    FitsBelow(HeaderSize(c), CellSize(c), Target(c));
  }

  lemma VmemFits(c: Config)
    requires Sane(c) && SlabSize(c).Shape? && !c.kmem
    ensures var sh := SlabSize(c);
      && 0 < sh.objs && sh.size < WORD
      && (if NoWrap(c) then HeaderSize(c) + sh.objs * CellSize(c) <= sh.size < HeaderSize(c) + (sh.objs + 1) * CellSize(c)
          else sh.size < HeaderSize(c))
  {
    hide RoundUp, CellSize, HeaderSize, GetOrder, Pow2;
    HeaderFacts(c);
    var (h, o) := (HeaderSize(c), CellSize(c));
    if Target(c) <= Limit(c) {
      FitsSum(c.perSlab * o, h, o);
    } else {
      LimitFits(Limit(c), h, o);
    }
    hide Wrap;
  }

  /** The second way to a size: as many cells as the limit holds, plus the header. */
  lemma LimitFits(limit: nat, h: nat, o: nat)
    requires limit < WORD && h <= PAGE && o > 0
    ensures var k := Quot(Wrap(limit - h), o);
      if k * o + h < WORD then Wrap(k * o + h) == k * o + h < h + (k + 1) * o else Wrap(k * o + h) < h
  {
    var k := Quot(Wrap(limit - h), o);
    assert (k + 1) * o == k * o + o;
    if limit >= h { FitsBelow(h, o, limit); }
  }

  // ---------------------------------------------------------------- exactly when the layout is sound

  /** A cell size that wrapped: the object covers its own header, or ends beyond 32 bits. */
  lemma CellWraps(c: Config, size: nat)
    requires Sane(c) && size < WORD && !CellExact(c)
    ensures !Inside(c, size, 0)
  {
    RoundUpExact(c.objSize, c.align);
    RoundUpExact(c.objHeader, c.align);
    HeaderFacts(c);
    var r := Up(c.objSize, c.align);
    hide Up, HeaderSize;
    assert ObjOffset(c, 0) == HeaderSize(c);
    if r < WORD {
      assert RoundUp(c.objSize, c.align) == r;
    } else {
      assert RoundUp(c.objSize, c.align) == r - WORD;
    }
  }

  /**
    A size the source accepts gives a sound layout exactly when neither the size of a cell nor the
    sum of cells and header left 32 bits.
   */
  lemma SoundIff(c: Config)
    requires Sane(c) && SlabSize(c).Shape?
    ensures Sound(c, SlabSize(c)) <==> CellExact(c) && NoWrap(c)
  {
    hide RoundUp, CellSize, HeaderSize, SlabSize, NoWrap, CellExact, Wrap;
    var sh := SlabSize(c);
    SizeFits(c);
    if !CellExact(c) {
      CellWraps(c, sh.size);
    } else if !NoWrap(c) {
      assert !Inside(c, sh.size, 0) by { assert HeaderSize(c) <= ObjOffset(c, 0); }
    } else {
      forall i | 0 <= i < sh.objs ensures Inside(c, sh.size, i) { LayoutSound(c, 0, i, i); }
      forall i, j | 0 <= i < j < sh.objs ensures Apart(c, i, j) { LayoutSound(c, 0, i, j); }
    }
  }

  /** With the shipped tunables, objects below half a gigabyte are always laid out soundly. */
  lemma DefaultsFit(c: Config)
    requires Sane(c) && CellExact(c) && SlabSize(c).Shape?
    requires c.perSlab == 8 && c.maxSize == 32 * 1024 * 1024
    requires 8 * CellSize(c) + PAGE < WORD
    ensures Sound(c, SlabSize(c))
  {
    hide RoundUp, CellSize, HeaderSize, Target, SlabSize, Wrap, Sound;
    SoundIff(c);
    HeaderFacts(c);
    CellFacts(c);
    WrapSmall(8 * CellSize(c));
    FitsBelow(HeaderSize(c), CellSize(c), 32 * 1024 * 1024);
  }

  lemma WrapSmall(x: nat)
    requires x < WORD
    ensures Wrap(x) == x
  {
    ModSmall(x, 0x1_0000_0000);
  }

  lemma UpIs(x: nat, align: nat, k: nat)
    requires align > 0 && k > 0 && k * align - align < x <= k * align
    ensures Up(x, align) == k * align
  {
    assert (k - 1) * align == k * align - align;
    DivUnique(x - 1, align, k - 1, x - 1 - (k - 1) * align);
  }

  /** The common case: the target is within the limit. */
  lemma ShapeIs(c: Config, h: nat, o: nat, p: nat, k: nat, r: nat)
    requires c.align > 0 && !c.kmem && HeaderSize(c) == h && CellSize(c) == o
    requires c.perSlab * o == p && Wrap(p + h) <= c.maxSize
    requires k > 0 && r < o && Wrap(Wrap(p + h) - h) == k * o + r
    ensures SlabSize(c) == Shape(k, Wrap(p + h))
  {
    hide HeaderSize, CellSize, Wrap;
    DivUnique(k * o + r, o, k, r);
  }

  function Vmem(objSize: nat, perSlab: nat): Config {
    Config(64, 48, objSize, 8, perSlab, 0x200_0000, 0x8_0000, false)
  }

  lemma VmemSizes(objSize: nat, perSlab: nat, k: nat)
    requires 0 < k && 8 * k - 8 < objSize <= 8 * k && objSize < WORD
    ensures var c := Vmem(objSize, perSlab);
      Sane(c) && HeaderSize(c) == 64 && Up(objSize, 8) == 8 * k && Up(48, 8) == 48
  {
    UpIs(objSize, 8, k);
    UpIs(48, 8, 6);
    UpIs(64, 8, 8);
  }

  /** The sum wraps: eight 512 MB objects are promised a slab of no bytes at all. */
  lemma WrapWitness()
    ensures var c := Vmem(0x1FFF_FFC8, 8);
      && Sane(c) && CellExact(c) && CellSize(c) == 0x1FFF_FFF8
      && SlabSize(c) == Shape(8, 0) && !Sound(c, SlabSize(c))
  {
    hide Up, HeaderSize, SlabSize;
    var c := Vmem(0x1FFF_FFC8, 8);
    VmemSizes(0x1FFF_FFC8, 8, 0x3FF_FFF9);
    ShapeIs(c, 64, 0x1FFF_FFF8, 0xFFFF_FFC0, 8, 0);
    assert !Inside(c, 0, 0);
  }

  /** The rounding wraps: the largest object sizes get cells that hold only a header. */
  lemma RoundingWitness()
    ensures var c := Vmem(0xFFFF_FFFC, 8);
      && Sane(c) && !CellExact(c) && NoWrap(c)
      && SlabSize(c) == Shape(8, 448) && !Sound(c, SlabSize(c))
  {
    hide Up, HeaderSize, SlabSize, Sound;
    var c := Vmem(0xFFFF_FFFC, 8);
    VmemSizes(0xFFFF_FFFC, 8, 0x2000_0000);
    assert CellSize(c) == 48;
    ShapeIs(c, 64, 48, 384, 8, 0);
    SoundIff(c);
  }

  /** A wrapped product alone does no harm: the slab gets fewer objects than asked for. */
  lemma ProductWitness()
    ensures var c := Vmem(16, 0x400_0001);
      && Sane(c) && c.perSlab * CellSize(c) >= WORD
      && SlabSize(c) == Shape(1, 128) && Sound(c, SlabSize(c))
  {
    hide Up, HeaderSize, SlabSize, Sound;
    var c := Vmem(16, 0x400_0001);
    VmemSizes(16, 0x400_0001, 2);
    assert CellSize(c) == 64;
    ShapeIs(c, 64, 64, 0x1_0000_0040, 1, 0);
    SoundIff(c);
  }

  // ---------------------------------------------------------------- what the layout guarantees

  /** While the cells stay within 32 bits, cell `i` ends before cell `j` begins. */
  lemma CellOrder(c: Config, i: nat, j: nat)
    requires c.align > 0 && i < j && j * CellSize(c) < WORD
    ensures ObjOffset(c, i) == HeaderSize(c) + i * CellSize(c)
    ensures ObjOffset(c, i) + CellSize(c) <= ObjOffset(c, j) == HeaderSize(c) + j * CellSize(c)
  {
    hide CellSize, HeaderSize;
    MulStrictOrZero(i, j, CellSize(c));
    WrapSmall(i * CellSize(c));
    WrapSmall(j * CellSize(c));
  }

  lemma MulStrictOrZero(i: nat, j: nat, o: nat)
    requires i < j
    ensures i * o + o <= j * o
  {
    if o > 0 { MulStrict(i, j, o); }
  }

  /**
    For a page-aligned slab every object is aligned, lies with its header inside the slab and
    clear of the slab header, and no two cells share a byte.
   */
  lemma LayoutSound(c: Config, base: nat, i: nat, j: nat)
    requires Sane(c) && CellExact(c) && SlabSize(c).Shape? && NoWrap(c)
    requires base % PAGE == 0 && i < SlabSize(c).objs && j < SlabSize(c).objs
    ensures (base + ObjOffset(c, i)) % c.align == 0
    ensures Inside(c, SlabSize(c).size, i)
    ensures i != j ==> Apart(c, i, j)
  {
    hide *;
    CellInside(c, i);
    Aligned(c, base, i);
    if i != j { ApartEither(c, i, j); }
  }

  lemma ApartEither(c: Config, i: nat, j: nat)
    requires Sane(c) && CellExact(c) && SlabSize(c).Shape? && NoWrap(c)
    requires i < SlabSize(c).objs && j < SlabSize(c).objs && i != j
    ensures Apart(c, i, j)
  {
    hide HeaderOffset, ObjOffset, Sane, CellExact, SlabSize, NoWrap;
    if i < j { InOrder(c, i, j); } else { InOrder(c, j, i); }
  }

  lemma CellInside(c: Config, i: nat)
    requires Sane(c) && CellExact(c) && SlabSize(c).Shape? && NoWrap(c) && i < SlabSize(c).objs
    ensures Inside(c, SlabSize(c).size, i) && i * CellSize(c) < WORD
  {
    hide *;
    SaneAlign(c);
    SizeFits(c);
    HeaderFacts(c);
    CellFacts(c);
    CellOrder(c, i, SlabSize(c).objs);
    InsideCell(c, SlabSize(c).size, i);
  }

  lemma SaneAlign(c: Config)
    requires Sane(c)
    ensures c.align > 0
  {}

  lemma InsideCell(c: Config, size: nat, i: nat)
    requires c.align > 0 && c.slabHeader <= HeaderSize(c) && HeaderSize(c) <= ObjOffset(c, i)
    requires c.objSize <= RoundUp(c.objSize, c.align) && c.objHeader <= RoundUp(c.objHeader, c.align)
    requires ObjOffset(c, i) + RoundUp(c.objSize, c.align) + RoundUp(c.objHeader, c.align) <= size
    ensures Inside(c, size, i)
  {
    hide ObjOffset, RoundUp, HeaderSize;
  }

  lemma InOrder(c: Config, i: nat, j: nat)
    requires Sane(c) && CellExact(c) && SlabSize(c).Shape? && NoWrap(c)
    requires i < SlabSize(c).objs && j < SlabSize(c).objs
    ensures i < j ==> Apart(c, i, j)
  {
    hide RoundUp, CellSize, SlabSize, NoWrap, HeaderSize, ObjOffset;
    SizeFits(c);
    CellFacts(c);
    CellOrder(c, j, SlabSize(c).objs);
    if i < j { CellOrder(c, i, j); }
  }

  lemma Aligned(c: Config, base: nat, i: nat)
    requires Sane(c) && CellExact(c) && base % PAGE == 0 && i * CellSize(c) < WORD
    ensures (base + ObjOffset(c, i)) % c.align == 0
  {
    hide RoundUp, CellSize, HeaderSize;
    HeaderFacts(c);
    CellFacts(c);
    PageMultiple(base, c.align);
    ScaleMod(i, CellSize(c), c.align);
    WrapSmall(i * CellSize(c));
    SumMod(HeaderSize(c), i * CellSize(c), c.align);
    SumMod(base, ObjOffset(c, i), c.align);
  }

  lemma PageMultiple(base: nat, align: nat)
    requires align in {8, 16, 32, 64, 128, 256, 512, 1024, 2048, 4096} && base % PAGE == 0
    ensures base % align == 0
  {
    DivSplit(base, PAGE);
    assert PAGE % align == 0;
    ScaleMod(base / PAGE, PAGE, align);
  }
}
