/** How large a slab is and how many objects it gets, stated without the function that computes it. */
module SlabShape {
  import opened Arith
  import opened SlabLayout

  // ---------------------------------------------------------------- page orders

  lemma {:induction false} OrderCovers(n: nat, block: nat)
    requires block > 0
    ensures var r := OrderFrom(n, block); n <= block * Pow2(r) && (r > 0 ==> block * Pow2(r - 1) < n)
    decreases n - block
  {
    if n > block {
      OrderCovers(n, 2 * block);
      var r := OrderFrom(n, 2 * block);
      Doubled(block, r);
      if r > 0 { Doubled(block, r - 1); }
    }
  }

  lemma Doubled(block: nat, r: nat)
    ensures 2 * block * Pow2(r) == block * Pow2(r + 1)
  {}

  /** The 32-bit sum of the cells asked for and the slab header. */
  function Asked(c: Config): nat requires c.align > 0 { (c.perSlab * CellSize(c) + HeaderSize(c)) % WORD }

  /**
    The greatest power of two of pages below `t`, but at least two pages, cut off at the largest
    allocation: what `KMC_KMEM` slabs get.
   */
  ghost predicate Rounded(c: Config, t: nat, size: nat) {
    exists k: nat :: RoundedAt(c, t, size, k)
  }

  ghost predicate RoundedAt(c: Config, t: nat, size: nat, k: nat) {
    && k >= 1 && (k == 1 || PAGE * Pow2(k) < t) && t <= 2 * PAGE * Pow2(k)
    && size == if PAGE * Pow2(k) < c.maxOrderSize then PAGE * Pow2(k) else c.maxOrderSize
  }

  lemma TargetRounded(c: Config)
    requires Sane(c) && c.kmem && Asked(c) > 0
    ensures Rounded(c, Asked(c), Target(c))
  {
    hide CellSize, HeaderSize;
    var t := Asked(c);
    OrderCovers(t, PAGE);
    var r := OrderFrom(t, PAGE);
    var k: nat := if r < 2 then 1 else r - 1;
    hide OrderFrom;
    Doubled(PAGE, k);
    if r < 2 { assert Pow2(1) == 2 && Pow2(2) == 4; if r == 0 { assert Pow2(0) == 1; } }
    assert RoundedAt(c, t, Target(c), k);
  }

  /** The count is the most that fits behind the header. */
  ghost predicate MostThatFit(h: nat, o: nat, objs: nat, size: nat) {
    h + objs * o <= size < h + (objs + 1) * o
  }

  lemma CountFits(h: nat, o: nat, size: nat)
    requires h <= size < WORD && o > 0
    ensures MostThatFit(h, o, Quot(Wrap(size - h), o), size)
    ensures Quot(Wrap(size - h), o) == 0 <==> size < h + o
  {
    FitsBelow(h, o, size);
    var q := Quot(Wrap(size - h), o);
    if q > 0 { MulMono(1, q, o); }
  }

  /** A slab of `size` bytes gets the most objects that fit, and is refused when not one does. */
  ghost predicate Filled(c: Config, size: nat)
    requires c.align > 0
  {
    if size < HeaderSize(c) + CellSize(c) then SlabSize(c) == Refused
    else SlabSize(c).Shape? && SlabSize(c).size == size && MostThatFit(HeaderSize(c), CellSize(c), SlabSize(c).objs, size)
  }

  /** A slab of whole pages has the rounded size and the most objects that fit; it is refused when not one does. */
  lemma KmemShape(c: Config)
    requires Sane(c) && c.kmem && Asked(c) > 0 && CellSize(c) > 0
    ensures exists size: nat :: Rounded(c, Asked(c), size) && Filled(c, size)
  {
    hide CellSize, HeaderSize, Rounded, MostThatFit;
    HeaderFacts(c);
    KmemTarget(c);
    TargetRounded(c);
    CountFits(HeaderSize(c), CellSize(c), Target(c));
    hide Target, Wrap;
    assert Rounded(c, Asked(c), Target(c)) && Filled(c, Target(c));
  }

  lemma TwoOrMore(k: nat)
    requires k >= 1
    ensures Pow2(k) >= 2 && (k == 1 ==> Pow2(k) == 2)
  {
    assert Pow2(k) == 2 * Pow2(k - 1);
  }

  /** What the rounded size means next to the size that was asked for. */
  lemma RoundedMeans(c: Config, t: nat, size: nat)
    requires Sane(c) && Rounded(c, t, size)
    ensures 2 * PAGE <= size <= c.maxOrderSize
    ensures size == c.maxOrderSize || exists k: nat :: size == PAGE * Pow2(k)
    ensures size < c.maxOrderSize ==> t <= 2 * size
    ensures size > 2 * PAGE ==> size < t
  {
    var k: nat :| RoundedAt(c, t, size, k);
    TwoOrMore(k);
    hide Pow2, Rounded;
    if size != c.maxOrderSize {
      assert size == PAGE * Pow2(k);
    }
  }

  /** The slab holds the number of objects that was asked for exactly when they fit in two pages. */
  lemma AskedForIff(c: Config)
    requires Sane(c) && c.kmem && SlabSize(c).Shape? && c.perSlab * CellSize(c) + HeaderSize(c) < WORD
    ensures SlabSize(c).objs >= c.perSlab <==> c.perSlab * CellSize(c) + HeaderSize(c) <= 2 * PAGE
  {
    hide CellSize, HeaderSize, Rounded, SlabSize, Sane;
    SaneAlign(c);
    var t := c.perSlab * CellSize(c) + HeaderSize(c);
    AskedIs(c);
    KmemShape(c);
    var size: nat :| Rounded(c, Asked(c), size) && Filled(c, size);
    RoundedMeans(c, t, size);
    if SlabSize(c).objs >= c.perSlab {
      MulMono(c.perSlab, SlabSize(c).objs, CellSize(c));
    } else {
      MulMono(SlabSize(c).objs + 1, c.perSlab, CellSize(c));
    }
  }

  lemma AskedIs(c: Config)
    requires Sane(c) && SlabSize(c).Shape? && c.perSlab * CellSize(c) + HeaderSize(c) < WORD
    ensures Asked(c) == c.perSlab * CellSize(c) + HeaderSize(c) > 0 && CellSize(c) > 0
  {
    HeaderFacts(c);
    hide HeaderSize, CellSize, Target;
    MulMono(0, c.perSlab, CellSize(c));
    ModSmall(c.perSlab * CellSize(c) + HeaderSize(c), 0x1_0000_0000);
  }

  /** Eight objects are asked for; the size is rounded down to four pages, and seven are what fits. */
  lemma SevenOfEight()
    ensures var c := Config(64, 48, 2048, 8, 8, 0x200_0000, 0x8_0000, true);
      Sane(c) && SlabSize(c) == Shape(7, 16384) && c.perSlab * CellSize(c) + HeaderSize(c) == 16832
  {
    hide HeaderSize, CellSize, OrderFrom, Pow2, Up;
    var c := Config(64, 48, 2048, 8, 8, 0x200_0000, 0x8_0000, true);
    EightAsked(c);
    FourPages();
    assert Target(c) == 16384;
    DivUnique(16320, 2096, 7, 1648);
  }

  lemma EightAsked(c: Config)
    requires c.slabHeader == 64 && c.objHeader == 48 && c.objSize == 2048 && c.align == 8
    ensures HeaderSize(c) == 64 && CellSize(c) == 2096
  {
    hide Up;
    UpIs(2048, 8, 256);
    UpIs(48, 8, 6);
    UpIs(64, 8, 8);
  }

  lemma FourPages()
    ensures GetOrder(16832) == 3 && Pow2(2) == 4
  {
    assert OrderFrom(16832, 4 * PAGE) == 1;
  }

  // ---------------------------------------------------------------- slabs of virtual memory

  /** All objects asked for if they fit in the largest slab, else the most that do; refused when not one does. */
  ghost predicate AllOrMost(c: Config, sh: Shape, h: nat, o: nat) {
    if c.perSlab * o + h <= c.maxSize then sh == if c.perSlab == 0 then Refused else Shape(c.perSlab, c.perSlab * o + h)
    else if c.maxSize < h + o then sh == Refused
    else sh.Shape? && sh.size == h + sh.objs * o && MostThatFit(h, o, sh.objs, c.maxSize)
  }

  /** Where the sum does not wrap, a slab of virtual memory is filled that way. */
  lemma VmemShape(c: Config)
    requires Sane(c) && !c.kmem && CellSize(c) > 0 && c.perSlab * CellSize(c) + HeaderSize(c) < WORD
    requires HeaderSize(c) <= c.maxSize
    ensures AllOrMost(c, SlabSize(c), HeaderSize(c), CellSize(c))
  {
    hide CellSize, HeaderSize;
    var (h, o) := (HeaderSize(c), CellSize(c));
    var p := c.perSlab * o;
    MulMono(0, c.perSlab, o);
    WrapSmall(p + h);
    if p + h <= c.maxSize {
      WrapSmall(p);
      DivUnique(p, o, c.perSlab, 0);
    } else {
      CountFits(h, o, c.maxSize);
      WrapSmall(Quot(Wrap(c.maxSize - h), o) * o + h);
    }
  }
}
