/**
 * The remainder that the Bech32 checksum keeps determines the values of a text's polynomial at three consecutive
 * powers of an element of order 1023.  Taking in one more symbol multiplies each value by its power and adds the
 * symbol.
 */
module Bech32Syndromes {
  import opened Arithmetic
  import opened Bech32
  import opened Bech32Field

  // ---------------------------------------------------------------------------------------------
  // Evaluating a text

  function Step(m: nat, v: Element): Element {
    Apply(StepMap(m), v)
  }

  function Steps(m: nat, n: nat, v: Element): Element {
    if n == 0 then v else Step(m, Steps(m, n - 1, v))
  }

  function SymbolPart(v: Symbol, n: nat): Element
    requires n <= 5
  {
    if n == 0 then 0 else Plus(SymbolPart(v, n - 1), Pick(Bit(v, n - 1), Mask(n - 1)))
  }

  function OfSymbol(v: Symbol): Element {
    SymbolPart(v, 5)
  }

  /** What bits 10 b to 10 b + 9 of a remainder are worth when its polynomial is evaluated. */
  function Block(m: nat, b: nat): Map {
    if m == 0 then
      if b == 0 then [1, 2, 4, 8, 16, 445, 851, 943, 638, 501]
      else if b == 1 then [873, 1010, 749, 250, 477, 847, 958, 629, 483, 966]
      else [982, 677, 106, 212, 385, 116, 193, 386, 772, 808]
    else if m == 1 then
      if b == 0 then [1, 2, 4, 8, 16, 101, 202, 404, 769, 802]
      else if b == 1 then [136, 272, 521, 306, 589, 883, 1007, 766, 245, 451]
      else [931, 614, 492, 984, 697, 602, 445, 851, 943, 638]
    else
      if b == 0 then [1, 2, 4, 8, 16, 976, 681, 114, 205, 410]
      else if b == 1 then [345, 667, 63, 87, 135, 710, 172, 344, 665, 59]
      else [81, 139, 278, 517, 298, 66, 132, 264, 528, 297]
  }

  /** The same for bits 10 b + 5 to 10 b + 14. */
  function MidBlock(m: nat, b: nat): Map {
    if m == 0 then
      if b == 0 then [445, 851, 943, 638, 501, 873, 1010, 749, 250, 477]
      else [847, 958, 629, 483, 966, 982, 677, 106, 212, 385]
    else if m == 1 then
      if b == 0 then [101, 202, 404, 769, 802, 136, 272, 521, 306, 589]
      else [883, 1007, 766, 245, 451, 931, 614, 492, 984, 697]
    else
      if b == 0 then [976, 681, 114, 205, 410, 345, 667, 63, 87, 135]
      else [710, 172, 344, 665, 59, 81, 139, 278, 517, 298]
  }

  function Worth(m: nat, i: nat): Element
    requires i < 30
  {
    Block(m, i / 10)[i % 10]
  }

  function SyndromePart(m: nat, c: Word, n: nat): Element
    requires n <= 30
  {
    if n == 0 then 0 else Plus(SyndromePart(m, c, n - 1), Pick(c[n - 1], Worth(m, n - 1)))
  }

  /** The value of a remainder at one of the three points. */
  function Syndrome(m: nat, c: Word): Element {
    SyndromePart(m, c, 30)
  }

  lemma Rows0_0()
    ensures Compose(StepMap(0), Block(0, 0)) == MidBlock(0, 0)
  {
    Evaluates(StepMap(0), Block(0, 0), MidBlock(0, 0));
  }

  lemma Rows0_1()
    ensures Compose(StepMap(0), Block(0, 1)) == MidBlock(0, 1)
  {
    Evaluates(StepMap(0), Block(0, 1), MidBlock(0, 1));
  }

  lemma Rows0_2()
    ensures Compose(StepMap(0), MidBlock(0, 1)) == Block(0, 2)
  {
    Evaluates(StepMap(0), MidBlock(0, 1), Block(0, 2));
  }

  lemma Rows1_0()
    ensures Compose(StepMap(1), Block(1, 0)) == MidBlock(1, 0)
  {
    Evaluates(StepMap(1), Block(1, 0), MidBlock(1, 0));
  }

  lemma Rows1_1()
    ensures Compose(StepMap(1), Block(1, 1)) == MidBlock(1, 1)
  {
    Evaluates(StepMap(1), Block(1, 1), MidBlock(1, 1));
  }

  lemma Rows1_2()
    ensures Compose(StepMap(1), MidBlock(1, 1)) == Block(1, 2)
  {
    Evaluates(StepMap(1), MidBlock(1, 1), Block(1, 2));
  }

  lemma Rows2_0()
    ensures Compose(StepMap(2), Block(2, 0)) == MidBlock(2, 0)
  {
    Evaluates(StepMap(2), Block(2, 0), MidBlock(2, 0));
  }

  lemma Rows2_1()
    ensures Compose(StepMap(2), Block(2, 1)) == MidBlock(2, 1)
  {
    Evaluates(StepMap(2), Block(2, 1), MidBlock(2, 1));
  }

  lemma Rows2_2()
    ensures Compose(StepMap(2), MidBlock(2, 1)) == Block(2, 2)
  {
    Evaluates(StepMap(2), MidBlock(2, 1), Block(2, 2));
  }

  lemma MidBlockIs(m: nat, i: nat)
    requires m < 3 && i < 10
    ensures MidBlock(m, 0)[i] == Worth(m, i + 5) && MidBlock(m, 1)[i] == Worth(m, i + 15)
  {
    if i < 5 {
      assert i == 0 || i == 1 || i == 2 || i == 3 || i == 4;
    } else {
      assert i == 5 || i == 6 || i == 7 || i == 8 || i == 9;
    }
  }

  lemma FirstWorths(m: nat, i: nat)
    requires m < 3 && i < 5
    ensures Worth(m, i) == Mask(i)
  {
    assert i == 0 || i == 1 || i == 2 || i == 3 || i == 4;
  }

  lemma WorthStep(m: nat, i: nat)
    requires m < 3 && i < 25
    ensures Worth(m, i + 5) == Step(m, Worth(m, i))
  {
    hide Block, MidBlock, StepMap, Apply;
    if i < 10 {
      MidBlockIs(m, i);
      Rows0_0();
      Rows1_0();
      Rows2_0();
      assert Compose(StepMap(m), Block(m, 0)) == MidBlock(m, 0);
      assert MidBlock(m, 0)[i] == Apply(StepMap(m), Block(m, 0)[i]);
    } else if i < 20 {
      MidBlockIs(m, i - 10);
      Rows0_1();
      Rows1_1();
      Rows2_1();
      assert Compose(StepMap(m), Block(m, 1)) == MidBlock(m, 1);
      assert MidBlock(m, 1)[i - 10] == Apply(StepMap(m), Block(m, 1)[i - 10]);
    } else {
      MidBlockIs(m, i - 15);
      Rows0_2();
      Rows1_2();
      Rows2_2();
      assert Compose(StepMap(m), MidBlock(m, 1)) == Block(m, 2);
      assert Block(m, 2)[i - 15] == Apply(StepMap(m), MidBlock(m, 1)[i - 15]);
    }
  }

  /** Ten bits of a remainder, as an element. */
  predicate Agree(c: Word, b: nat, e: Element)
    requires b < 3
  {
    forall i | 0 <= i < 10 :: c[10 * b + i] == Has(e, i)
  }

  lemma {:induction false} BlockPart(m: nat, c: Word, b: nat, e: Element, n: nat)
    requires b < 3 && n <= 10 && Agree(c, b, e)
    ensures SyndromePart(m, c, 10 * b + n) == Plus(SyndromePart(m, c, 10 * b), Part(Block(m, b), e, n))
  {
    hide Plus, Has, Pick, Block;
    if n > 0 {
      BlockPart(m, c, b, e, n - 1);
      assert (10 * b + n - 1) / 10 == b && (10 * b + n - 1) % 10 == n - 1;
      PlusAssociates(SyndromePart(m, c, 10 * b), Part(Block(m, b), e, n - 1), Pick(Has(e, n - 1), Block(m, b)[n - 1]));
    } else {
      PlusZero(SyndromePart(m, c, 10 * b));
    }
  }

  /** The value of a remainder whose bits are given ten by ten. */
  lemma SyndromeOfBlocks(m: nat, c: Word, e0: Element, e1: Element, e2: Element)
    requires Agree(c, 0, e0) && Agree(c, 1, e1) && Agree(c, 2, e2)
    ensures Syndrome(m, c) == Plus(Plus(Apply(Block(m, 0), e0), Apply(Block(m, 1), e1)), Apply(Block(m, 2), e2))
  {
    hide Plus, Block, Part, Agree;
    BlockPart(m, c, 0, e0, 10);
    BlockPart(m, c, 1, e1, 10);
    BlockPart(m, c, 2, e2, 10);
    assert SyndromePart(m, c, 0) == 0;
    PlusZero(Apply(Block(m, 0), e0));
  }

  lemma Powers(k: nat, p: nat)
    requires p == Pow2(k)
    ensures Pow2(k + 1) == 2 * p && Pow2(k + 2) == 4 * p && Pow2(k + 3) == 8 * p && Pow2(k + 4) == 16 * p && Pow2(k + 5) == 32 * p
    ensures Pow2(k + 6) == 64 * p && Pow2(k + 7) == 128 * p && Pow2(k + 8) == 256 * p && Pow2(k + 9) == 512 * p && Pow2(k + 10) == 1024 * p
  {
  }

  predicate Digit(n: nat, d: nat) {
    d > 0 && (n / d) % 2 == 1
  }

  /** The bits of a number, ten of them, read off by division. */
  lemma TenBits(n: nat, b: nat, p: nat, e: Element)
    requires b < 3 && p == Pow2(10 * b)
    requires Digit(n, p) == Meets(e, 1) && Digit(n, 2 * p) == Meets(e, 2) && Digit(n, 4 * p) == Meets(e, 4)
    requires Digit(n, 8 * p) == Meets(e, 8) && Digit(n, 16 * p) == Meets(e, 16) && Digit(n, 32 * p) == Meets(e, 32)
    requires Digit(n, 64 * p) == Meets(e, 64) && Digit(n, 128 * p) == Meets(e, 128) && Digit(n, 256 * p) == Meets(e, 256)
    requires Digit(n, 512 * p) == Meets(e, 512)
    ensures Agree(Bits(n), b, e)
  {
    hide Has, Meets, Pow2;
    Powers(10 * b, p);
    HasIs(e);
    forall i | 0 <= i < 10
      ensures Bit(n, 10 * b + i) == Has(e, i)
    {
      assert i == 0 || i == 1 || i == 2 || i == 3 || i == 4 || i == 5 || i == 6 || i == 7 || i == 8 || i == 9;
    }
  }

  /** The bits of what bit 25 turns into, ten by ten. */
  lemma Digits0()
    ensures Agree(Bits(0x3b6a57b2), 0, 946) && Agree(Bits(0x3b6a57b2), 1, 661) && Agree(Bits(0x3b6a57b2), 2, 950)
  {
    hide Agree, Bits;
    Powers(0, 1);
    Powers(10, 1024);
    TenBits(0x3b6a57b2, 0, 1, 946);
    TenBits(0x3b6a57b2, 1, 1024, 661);
    TenBits(0x3b6a57b2, 2, 1048576, 950);
  }

  lemma Reduces0_0()
    ensures Syndrome(0, Bits(0x3b6a57b2)) == Step(0, Worth(0, 25))
  {
    hide Apply, Syndrome, Bits;
    Digits0();
    SyndromeOfBlocks(0, Bits(0x3b6a57b2), 946, 661, 950);
    TakesApply(Block(0, 0), 946, 395);
    TakesApply(Block(0, 1), 661, 490);
    TakesApply(Block(0, 2), 950, 660);
    TakesApply(StepMap(0), 116, 757);
  }

  lemma Reduces1_0()
    ensures Syndrome(1, Bits(0x3b6a57b2)) == Step(1, Worth(1, 25))
  {
    hide Apply, Syndrome, Bits;
    Digits0();
    SyndromeOfBlocks(1, Bits(0x3b6a57b2), 946, 661, 950);
    TakesApply(Block(1, 0), 946, 448);
    TakesApply(Block(1, 1), 661, 1009);
    TakesApply(Block(1, 2), 950, 491);
    TakesApply(StepMap(1), 602, 986);
  }

  lemma Reduces2_0()
    ensures Syndrome(2, Bits(0x3b6a57b2)) == Step(2, Worth(2, 25))
  {
    hide Apply, Syndrome, Bits;
    Digits0();
    SyndromeOfBlocks(2, Bits(0x3b6a57b2), 946, 661, 950);
    TakesApply(Block(2, 0), 946, 743);
    TakesApply(Block(2, 1), 661, 130);
    TakesApply(Block(2, 2), 950, 708);
    TakesApply(StepMap(2), 66, 161);
  }

  /** The bits of what bit 26 turns into, ten by ten. */
  lemma Digits1()
    ensures Agree(Bits(0x26508e6d), 0, 621) && Agree(Bits(0x26508e6d), 1, 35) && Agree(Bits(0x26508e6d), 2, 613)
  {
    hide Agree, Bits;
    Powers(0, 1);
    Powers(10, 1024);
    TenBits(0x26508e6d, 0, 1, 621);
    TenBits(0x26508e6d, 1, 1024, 35);
    TenBits(0x26508e6d, 2, 1048576, 613);
  }

  lemma Reduces0_1()
    ensures Syndrome(0, Bits(0x26508e6d)) == Step(0, Worth(0, 26))
  {
    hide Apply, Syndrome, Bits;
    Digits1();
    SyndromeOfBlocks(0, Bits(0x26508e6d), 621, 35, 613);
    TakesApply(Block(0, 0), 621, 790);
    TakesApply(Block(0, 1), 35, 980);
    TakesApply(Block(0, 2), 613, 33);
    TakesApply(StepMap(0), 193, 227);
  }

  lemma Reduces1_1()
    ensures Syndrome(1, Bits(0x26508e6d)) == Step(1, Worth(1, 26))
  {
    hide Apply, Syndrome, Bits;
    Digits1();
    SyndromeOfBlocks(1, Bits(0x26508e6d), 621, 35, 613);
    TakesApply(Block(1, 0), 621, 896);
    TakesApply(Block(1, 1), 35, 747);
    TakesApply(Block(1, 2), 613, 982);
    TakesApply(StepMap(1), 445, 701);
  }

  lemma Reduces2_1()
    ensures Syndrome(2, Bits(0x26508e6d)) == Step(2, Worth(2, 26))
  {
    hide Apply, Syndrome, Bits;
    Digits1();
    SyndromeOfBlocks(2, Bits(0x26508e6d), 621, 35, 613);
    TakesApply(Block(2, 0), 621, 238);
    TakesApply(Block(2, 1), 35, 260);
    TakesApply(Block(2, 2), 613, 168);
    TakesApply(StepMap(2), 132, 322);
  }

  /** The bits of what bit 27 turns into, ten by ten. */
  lemma Digits2()
    ensures Agree(Bits(0x1ea119fa), 0, 506) && Agree(Bits(0x1ea119fa), 1, 70) && Agree(Bits(0x1ea119fa), 2, 490)
  {
    hide Agree, Bits;
    Powers(0, 1);
    Powers(10, 1024);
    TenBits(0x1ea119fa, 0, 1, 506);
    TenBits(0x1ea119fa, 1, 1024, 70);
    TenBits(0x1ea119fa, 2, 1048576, 490);
  }

  lemma Reduces0_2()
    ensures Syndrome(0, Bits(0x1ea119fa)) == Step(0, Worth(0, 27))
  {
    hide Apply, Syndrome, Bits;
    Digits2();
    SyndromeOfBlocks(0, Bits(0x1ea119fa), 506, 70, 490);
    TakesApply(Block(0, 0), 506, 805);
    TakesApply(Block(0, 1), 70, 673);
    TakesApply(Block(0, 2), 490, 66);
    TakesApply(StepMap(0), 386, 454);
  }

  lemma Reduces1_2()
    ensures Syndrome(1, Bits(0x1ea119fa)) == Step(1, Worth(1, 27))
  {
    hide Apply, Syndrome, Bits;
    Digits2();
    SyndromeOfBlocks(1, Bits(0x1ea119fa), 506, 70, 490);
    TakesApply(Block(1, 0), 506, 544);
    TakesApply(Block(1, 1), 70, 246);
    TakesApply(Block(1, 2), 490, 677);
    TakesApply(StepMap(1), 851, 115);
  }

  lemma Reduces2_2()
    ensures Syndrome(2, Bits(0x1ea119fa)) == Step(2, Worth(2, 27))
  {
    hide Apply, Syndrome, Bits;
    Digits2();
    SyndromeOfBlocks(2, Bits(0x1ea119fa), 506, 70, 490);
    TakesApply(Block(2, 0), 506, 476);
    TakesApply(Block(2, 1), 70, 520);
    TakesApply(Block(2, 2), 490, 336);
    TakesApply(StepMap(2), 264, 644);
  }

  /** The bits of what bit 28 turns into, ten by ten. */
  lemma Digits3()
    ensures Agree(Bits(0x3d4233dd), 0, 989) && Agree(Bits(0x3d4233dd), 1, 140) && Agree(Bits(0x3d4233dd), 2, 980)
  {
    hide Agree, Bits;
    Powers(0, 1);
    Powers(10, 1024);
    TenBits(0x3d4233dd, 0, 1, 989);
    TenBits(0x3d4233dd, 1, 1024, 140);
    TenBits(0x3d4233dd, 2, 1048576, 980);
  }

  lemma Reduces0_3()
    ensures Syndrome(0, Bits(0x3d4233dd)) == Step(0, Worth(0, 28))
  {
    hide Apply, Syndrome, Bits;
    Digits3();
    SyndromeOfBlocks(0, Bits(0x3d4233dd), 989, 140, 980);
    TakesApply(Block(0, 0), 989, 874);
    TakesApply(Block(0, 1), 140, 98);
    TakesApply(Block(0, 2), 980, 132);
    TakesApply(StepMap(0), 772, 908);
  }

  lemma Reduces1_3()
    ensures Syndrome(1, Bits(0x3d4233dd)) == Step(1, Worth(1, 28))
  {
    hide Apply, Syndrome, Bits;
    Digits3();
    SyndromeOfBlocks(1, Bits(0x3d4233dd), 989, 140, 980);
    TakesApply(Block(1, 0), 989, 352);
    TakesApply(Block(1, 1), 140, 453);
    TakesApply(Block(1, 2), 980, 106);
    TakesApply(StepMap(1), 943, 207);
  }

  lemma Reduces2_3()
    ensures Syndrome(2, Bits(0x3d4233dd)) == Step(2, Worth(2, 28))
  {
    hide Apply, Syndrome, Bits;
    Digits3();
    SyndromeOfBlocks(2, Bits(0x3d4233dd), 989, 140, 980);
    TakesApply(Block(2, 0), 989, 913);
    TakesApply(Block(2, 1), 140, 304);
    TakesApply(Block(2, 2), 980, 649);
    TakesApply(StepMap(2), 528, 40);
  }

  /** The bits of what bit 29 turns into, ten by ten. */
  lemma Digits4()
    ensures Agree(Bits(0x2a1462b3), 0, 691) && Agree(Bits(0x2a1462b3), 1, 280) && Agree(Bits(0x2a1462b3), 2, 673)
  {
    hide Agree, Bits;
    Powers(0, 1);
    Powers(10, 1024);
    TenBits(0x2a1462b3, 0, 1, 691);
    TenBits(0x2a1462b3, 1, 1024, 280);
    TenBits(0x2a1462b3, 2, 1048576, 673);
  }

  lemma Reduces0_4()
    ensures Syndrome(0, Bits(0x2a1462b3)) == Step(0, Worth(0, 29))
  {
    hide Apply, Syndrome, Bits;
    Digits4();
    SyndromeOfBlocks(0, Bits(0x2a1462b3), 691, 280, 673);
    TakesApply(Block(0, 0), 691, 1012);
    TakesApply(Block(0, 1), 280, 196);
    TakesApply(Block(0, 2), 673, 264);
    TakesApply(StepMap(0), 808, 568);
  }

  lemma Reduces1_4()
    ensures Syndrome(1, Bits(0x2a1462b3)) == Step(1, Worth(1, 29))
  {
    hide Apply, Syndrome, Bits;
    Digits4();
    SyndromeOfBlocks(1, Bits(0x2a1462b3), 691, 280, 673);
    TakesApply(Block(1, 0), 691, 704);
    TakesApply(Block(1, 1), 280, 906);
    TakesApply(Block(1, 2), 673, 212);
    TakesApply(StepMap(1), 638, 414);
  }

  lemma Reduces2_4()
    ensures Syndrome(2, Bits(0x2a1462b3)) == Step(2, Worth(2, 29))
  {
    hide Apply, Syndrome, Bits;
    Digits4();
    SyndromeOfBlocks(2, Bits(0x2a1462b3), 691, 280, 673);
    TakesApply(Block(2, 0), 691, 555);
    TakesApply(Block(2, 1), 280, 585);
    TakesApply(Block(2, 2), 673, 50);
    TakesApply(StepMap(2), 297, 80);
  }

  lemma Reduces0(k: nat)
    requires k < 5
    ensures Syndrome(0, Bits(Generator(k))) == Step(0, Worth(0, 25 + k))
  {
    hide Syndrome, Bits, Step, Worth;
    Reduces0_0();
    Reduces0_1();
    Reduces0_2();
    Reduces0_3();
    Reduces0_4();
  }

  lemma Reduces1(k: nat)
    requires k < 5
    ensures Syndrome(1, Bits(Generator(k))) == Step(1, Worth(1, 25 + k))
  {
    hide Syndrome, Bits, Step, Worth;
    Reduces1_0();
    Reduces1_1();
    Reduces1_2();
    Reduces1_3();
    Reduces1_4();
  }

  lemma Reduces2(k: nat)
    requires k < 5
    ensures Syndrome(2, Bits(Generator(k))) == Step(2, Worth(2, 25 + k))
  {
    hide Syndrome, Bits, Step, Worth;
    Reduces2_0();
    Reduces2_1();
    Reduces2_2();
    Reduces2_3();
    Reduces2_4();
  }

  /** What leaves at the top comes back as a multiple of the generator that has the same value. */
  lemma Reduces(m: nat, k: nat)
    requires m < 3 && k < 5
    ensures Syndrome(m, Bits(Generator(k))) == Step(m, Worth(m, 25 + k))
  {
    hide Syndrome, Bits, Generator, Step, Worth;
    if m == 0 {
      Reduces0(k);
    } else if m == 1 {
      Reduces1(k);
    } else {
      Reduces2(k);
    }
  }

  // ---------------------------------------------------------------------------------------------
  // One more symbol

  lemma {:induction false} SyndromeXor(m: nat, a: Word, b: Word, n: nat)
    requires n <= 30
    ensures SyndromePart(m, Xor(a, b), n) == Plus(SyndromePart(m, a, n), SyndromePart(m, b, n))
  {
    hide Plus, Pick, Worth;
    if n > 0 {
      SyndromeXor(m, a, b, n - 1);
      var k := Worth(m, n - 1);
      PickPlus(a[n - 1], b[n - 1], k);
      PlusShuffles(SyndromePart(m, a, n - 1), SyndromePart(m, b, n - 1), Pick(a[n - 1], k), Pick(b[n - 1], k));
    } else {
      PlusZero(0);
    }
  }

  /** A word, or nothing. */
  function Chosen(b: bool, w: Word): (r: Word)
    ensures forall i | 0 <= i < 30 :: r[i] == (b && w[i])
  {
    seq(30, i requires 0 <= i < 30 => b && w[i])
  }

  lemma {:induction false} SyndromeChosen(m: nat, b: bool, w: Word, n: nat)
    requires n <= 30
    ensures SyndromePart(m, Chosen(b, w), n) == Pick(b, SyndromePart(m, w, n))
  {
    hide Plus, Worth;
    if n > 0 {
      SyndromeChosen(m, b, w, n - 1);
      PlusZero(0);
    }
  }

  /** A remainder moved up by one symbol, with the symbol in its place; what leaves at the top is lost. */
  function Shifted(c: Word, v: Symbol): (r: Word)
    ensures forall i | 0 <= i < 30 :: r[i] == if i < 5 then Bit(v, i) else c[i - 5]
  {
    seq(30, i requires 0 <= i < 30 => if i < 5 then Bit(v, i) else c[i - 5])
  }

  /** What bit 25 + k brings back. */
  function Returned(c: Word, k: nat): Word
    requires k < 5
  {
    Chosen(c[25 + k], Bits(Generator(k)))
  }

  lemma NextParts(c: Word, v: Symbol)
    ensures Next(c, v) == Xor(Xor(Xor(Xor(Xor(Shifted(c, v), Returned(c, 0)), Returned(c, 1)), Returned(c, 2)), Returned(c, 3)), Returned(c, 4))
  {
    hide Bit, Generator;
    var x := Xor(Xor(Xor(Xor(Xor(Shifted(c, v), Returned(c, 0)), Returned(c, 1)), Returned(c, 2)), Returned(c, 3)), Returned(c, 4));
    forall i | 0 <= i < 30
      ensures Next(c, v)[i] == x[i]
    {
      assert Next(c, v)[i] == NextBit(c, v, i);
    }
  }

  /** The value of a word before its highest symbol leaves, moved up. */
  lemma {:induction false} ShiftedPart(m: nat, c: Word, v: Symbol, n: nat)
    requires m < 3 && n <= 25
    ensures SyndromePart(m, Shifted(c, v), n + 5) == Plus(OfSymbol(v), Step(m, SyndromePart(m, c, n)))
  {
    hide Plus, Pick, Worth, Apply, Bit;
    if n > 0 {
      ShiftedPart(m, c, v, n - 1);
      WorthStep(m, n - 1);
      var k := Worth(m, n - 1);
      Linear(StepMap(m), SyndromePart(m, c, n - 1), Pick(c[n - 1], k));
      LinearPick(StepMap(m), c[n - 1], k);
      PlusAssociates(OfSymbol(v), Step(m, SyndromePart(m, c, n - 1)), Pick(c[n - 1], Step(m, k)));
    } else {
      ShiftedLow(m, c, v, 5);
      LinearZero(StepMap(m));
      PlusZero(OfSymbol(v));
    }
  }

  lemma {:induction false} ShiftedLow(m: nat, c: Word, v: Symbol, n: nat)
    requires m < 3 && n <= 5
    ensures SyndromePart(m, Shifted(c, v), n) == SymbolPart(v, n)
  {
    hide Plus, Pick, Worth, Bit, Mask;
    if n > 0 {
      ShiftedLow(m, c, v, n - 1);
      FirstWorths(m, n - 1);
    }
  }

  /** The value before and after a bit of the highest symbol is taken along. */
  lemma TopBit(m: nat, c: Word, k: nat)
    requires m < 3 && k < 5
    ensures Step(m, SyndromePart(m, c, 26 + k)) == Plus(Step(m, SyndromePart(m, c, 25 + k)), Syndrome(m, Returned(c, k)))
  {
    hide Plus, Pick, Worth, Apply, Bits, Generator, Chosen;
    Reduces(m, k);
    var w := Worth(m, 25 + k);
    Linear(StepMap(m), SyndromePart(m, c, 25 + k), Pick(c[25 + k], w));
    LinearPick(StepMap(m), c[25 + k], w);
    SyndromeChosen(m, c[25 + k], Bits(Generator(k)), 30);
  }

  /** Taking in a symbol multiplies the value by its power and adds the symbol. */
  lemma SyndromeNext(m: nat, c: Word, v: Symbol)
    requires m < 3
    ensures Syndrome(m, Next(c, v)) == Plus(OfSymbol(v), Step(m, Syndrome(m, c)))
  {
    hide Plus, SyndromePart, Step, Xor, Shifted, Returned, Next, OfSymbol;
    NextParts(c, v);
    ShiftedPart(m, c, v, 25);
    var x0 := Xor(Shifted(c, v), Returned(c, 0));
    var x1 := Xor(x0, Returned(c, 1));
    var x2 := Xor(x1, Returned(c, 2));
    var x3 := Xor(x2, Returned(c, 3));
    TakenIn(m, c, v, Shifted(c, v), 0);
    TakenIn(m, c, v, x0, 1);
    TakenIn(m, c, v, x1, 2);
    TakenIn(m, c, v, x2, 3);
    TakenIn(m, c, v, x3, 4);
  }

  lemma TakenIn(m: nat, c: Word, v: Symbol, x: Word, k: nat)
    requires m < 3 && k < 5
    requires Syndrome(m, x) == Plus(OfSymbol(v), Step(m, SyndromePart(m, c, 25 + k)))
    ensures Syndrome(m, Xor(x, Returned(c, k))) == Plus(OfSymbol(v), Step(m, SyndromePart(m, c, 26 + k)))
  {
    hide Plus, SyndromePart, Step, Xor, Returned, OfSymbol;
    SyndromeXor(m, x, Returned(c, k), 30);
    TopBit(m, c, k);
    PlusAssociates(OfSymbol(v), Step(m, SyndromePart(m, c, 25 + k)), Syndrome(m, Returned(c, k)));
  }

  // ---------------------------------------------------------------------------------------------
  // Symbols as elements

  lemma {:induction false} HasSymbolPart(v: Symbol, n: nat, i: nat)
    requires n <= 5 && i < 5
    ensures Has(SymbolPart(v, n), i) == (i < n && Bit(v, i))
  {
    hide Plus, Pick, Mask, Has, Bit;
    if n > 0 {
      HasSymbolPart(v, n - 1, i);
      HasPlus(SymbolPart(v, n - 1), Pick(Bit(v, n - 1), Mask(n - 1)), i);
      HasPick(Bit(v, n - 1), n - 1, i);
    } else {
      HasPick(false, 0, i);
      assert Pick(false, Mask(0)) == 0 by { PickFalse(Mask(0)); }
    }
  }

  lemma PickFalse(k: Element)
    ensures Pick(false, k) == 0
  {
  }

  lemma HasPick(b: bool, k: nat, i: nat)
    requires k < 5 && i < 5
    ensures Has(Pick(b, Mask(k)), i) == (b && k == i)
  {
    assert i == 0 || i == 1 || i == 2 || i == 3 || i == 4;
    assert k == 0 || k == 1 || k == 2 || k == 3 || k == 4;
  }

  /** Different symbols are different elements. */
  lemma OfSymbolInjective(v: Symbol, w: Symbol)
    requires OfSymbol(v) == OfSymbol(w)
    ensures v == w
  {
    hide SymbolPart, Has, Bit;
    SymbolsDiffer(v, w);
    forall i | 0 <= i < 5
      ensures Bit(v, i) == Bit(w, i)
    {
      HasSymbolPart(v, 5, i);
      HasSymbolPart(w, 5, i);
    }
  }
}
