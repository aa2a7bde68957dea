/**
 * The field of 1024 elements behind the Bech32 checksum, as ten bits.  Multiplication by a fixed element is a
 * linear map on them, given by where it takes each bit.  The element whose powers define the checksum has order
 * 1023: no smaller power of it leaves anything but zero where it is.
 */
module Bech32Field {
  import opened Arithmetic

  // ---------------------------------------------------------------------------------------------
  // Ten bits, and linear maps on them

  type Element = bv10

  function Plus(a: Element, b: Element): Element {
    a ^ b
  }

  lemma PlusZero(a: Element)
    ensures Plus(a, 0) == a && Plus(0, a) == a && Plus(a, a) == 0
  {
  }

  lemma PlusCommutes(a: Element, b: Element)
    ensures Plus(a, b) == Plus(b, a)
  {
  }

  lemma PlusAssociates(a: Element, b: Element, c: Element)
    ensures Plus(Plus(a, b), c) == Plus(a, Plus(b, c))
  {
  }

  lemma PlusShuffles(a: Element, b: Element, c: Element, d: Element)
    ensures Plus(Plus(a, b), Plus(c, d)) == Plus(Plus(a, c), Plus(b, d))
  {
    hide Plus;
    PlusAssociates(a, b, Plus(c, d));
    PlusAssociates(b, c, d);
    PlusCommutes(b, c);
    PlusAssociates(c, b, d);
    PlusAssociates(a, c, Plus(b, d));
  }

  function And(a: Element, b: Element): Element {
    a & b
  }

  lemma AndPlus(v: Element, x: Element, y: Element)
    ensures And(v, Plus(x, y)) == Plus(And(v, x), And(v, y))
  {
  }

  lemma PlusAnd(v: Element, x: Element, y: Element)
    ensures And(Plus(x, y), v) == Plus(And(x, v), And(y, v))
  {
  }

  lemma PlusCancels(a: Element, b: Element)
    requires Plus(a, b) == 0
    ensures a == b
  {
    assert (a ^ b) ^ b == a;
  }

  function Mask(i: nat): Element
    requires i < 10
  {
    if i == 0 then 1 else if i == 1 then 2 else if i == 2 then 4 else if i == 3 then 8 else if i == 4 then 16
    else if i == 5 then 32 else if i == 6 then 64 else if i == 7 then 128 else if i == 8 then 256 else 512
  }

  /** The bit of `v` at position `i`, at its place. */
  function Masked(v: Element, i: nat): Element
    requires i < 10
  {
    And(v, Mask(i))
  }

  predicate Has(v: Element, i: nat)
    requires i < 10
  {
    Masked(v, i) != 0
  }

  lemma MaskedPlus(a: Element, b: Element, i: nat)
    requires i < 10
    ensures Masked(Plus(a, b), i) == Plus(Masked(a, i), Masked(b, i))
  {
    hide Plus, And, Mask;
    PlusAnd(Mask(i), a, b);
  }

  lemma HasPlus(a: Element, b: Element, i: nat)
    requires i < 10
    ensures Has(Plus(a, b), i) == (Has(a, i) != Has(b, i))
  {
    hide Plus, Mask, Masked, Pick;
    MaskedPlus(a, b, i);
    OneBit(a, i);
    OneBit(b, i);
    PickIs(Has(a, i), Mask(i));
    PickIs(Has(b, i), Mask(i));
    EitherPlus(Masked(a, i), Masked(b, i), Mask(i));
  }

  lemma PickIs(b: bool, k: Element)
    ensures Pick(b, k) == 0 || Pick(b, k) == k
  {
  }

  lemma EitherPlus(x: Element, y: Element, k: Element)
    requires (x == 0 || x == k) && (y == 0 || y == k)
    ensures (Plus(x, y) != 0) == ((x != 0) != (y != 0))
  {
    PlusZero(k);
    PlusZero(0);
    hide Plus;
  }

  lemma OneBit(v: Element, i: nat)
    requires i < 10
    ensures Masked(v, i) == Pick(Has(v, i), Mask(i)) && Mask(i) != 0
  {
    if i < 5 {
      assert v & 1 in {0, 1} && v & 2 in {0, 2} && v & 4 in {0, 4} && v & 8 in {0, 8} && v & 16 in {0, 16};
    } else {
      assert v & 32 in {0, 32} && v & 64 in {0, 64} && v & 128 in {0, 128} && v & 256 in {0, 256} && v & 512 in {0, 512};
    }
  }

  function Pick(b: bool, k: Element): Element {
    if b then k else 0
  }

  lemma PickPlus(p: bool, q: bool, k: Element)
    ensures Pick(p != q, k) == Plus(Pick(p, k), Pick(q, k))
  {
    PlusZero(k);
    PlusZero(0);
    hide Plus;
  }

  /** A linear map, by the images of the ten bits. */
  type Map = s: seq<Element> | |s| == 10 witness [0, 0, 0, 0, 0, 0, 0, 0, 0, 0]

  /** What the lowest `n` bits of `v` contribute. */
  function Part(m: Map, v: Element, n: nat): Element
    requires n <= 10
  {
    if n == 0 then 0 else Plus(Part(m, v, n - 1), Pick(Has(v, n - 1), m[n - 1]))
  }

  function Apply(m: Map, v: Element): Element {
    Part(m, v, 10)
  }

  lemma {:induction false} PartLinear(m: Map, a: Element, b: Element, n: nat)
    requires n <= 10
    ensures Part(m, Plus(a, b), n) == Plus(Part(m, a, n), Part(m, b, n))
  {
    hide Has, Pick, Plus;
    if n > 0 {
      PartLinear(m, a, b, n - 1);
      HasPlus(a, b, n - 1);
      PickPlus(Has(a, n - 1), Has(b, n - 1), m[n - 1]);
      PlusShuffles(Part(m, a, n - 1), Part(m, b, n - 1), Pick(Has(a, n - 1), m[n - 1]), Pick(Has(b, n - 1), m[n - 1]));
    } else {
      PlusZero(0);
    }
  }

  lemma Linear(m: Map, a: Element, b: Element)
    ensures Apply(m, Plus(a, b)) == Plus(Apply(m, a), Apply(m, b))
  {
    hide Plus;
    PartLinear(m, a, b, 10);
  }

  lemma LinearZero(m: Map)
    ensures Apply(m, 0) == 0
  {
    hide Plus, Part;
    Linear(m, 0, 0);
    PlusZero(0);
    PlusZero(Apply(m, 0));
  }

  lemma LinearPick(m: Map, b: bool, k: Element)
    ensures Apply(m, Pick(b, k)) == Pick(b, Apply(m, k))
  {
    hide Plus, Part;
    LinearZero(m);
  }

  /** `f` after `g`. */
  function Compose(f: Map, g: Map): (r: Map)
    ensures forall i | 0 <= i < 10 :: r[i] == Apply(f, g[i])
  {
    seq(10, i requires 0 <= i < 10 => Apply(f, g[i]))
  }

  lemma {:induction false} ComposePart(f: Map, g: Map, v: Element, n: nat)
    requires n <= 10
    ensures Apply(f, Part(g, v, n)) == Part(Compose(f, g), v, n)
  {
    hide Plus, Apply, Has, Pick;
    if n > 0 {
      ComposePart(f, g, v, n - 1);
      Linear(f, Part(g, v, n - 1), Pick(Has(v, n - 1), g[n - 1]));
      LinearPick(f, Has(v, n - 1), g[n - 1]);
    } else {
      LinearZero(f);
    }
  }

  lemma ComposeApplies(f: Map, g: Map, v: Element)
    ensures Apply(f, Apply(g, v)) == Apply(Compose(f, g), v)
  {
    hide Part;
    ComposePart(f, g, v, 10);
  }

  function Identity(): Map {
    [1, 2, 4, 8, 16, 32, 64, 128, 256, 512]
  }

  lemma {:induction false} IdentityPart(v: Element, n: nat)
    requires n <= 10
    ensures Part(Identity(), v, n) == Lowest(v, n)
  {
    if n > 0 {
      IdentityAt(n - 1);
      hide Plus, Mask, Lowest, Identity, Has, Pick;
      IdentityPart(v, n - 1);
      LowStep(v, n);
    } else {
      assert v & 0 == 0;
      hide Part;
      assert Part(Identity(), v, 0) == 0;
    }
  }

  lemma IdentityAt(i: nat)
    requires i < 10
    ensures Identity()[i] == Mask(i)
  {
  }

  function Low(n: nat): Element
    requires n <= 10
  {
    if n == 0 then 0 else if n == 1 then 1 else if n == 2 then 3 else if n == 3 then 7 else if n == 4 then 15
    else if n == 5 then 31 else if n == 6 then 63 else if n == 7 then 127 else if n == 8 then 255
    else if n == 9 then 511 else 1023
  }

  /** The lowest `n` bits of `v`. */
  function Lowest(v: Element, n: nat): Element
    requires n <= 10
  {
    And(v, Low(n))
  }

  lemma LowStep(v: Element, n: nat)
    requires 0 < n <= 10
    ensures Plus(Lowest(v, n - 1), Pick(Has(v, n - 1), Mask(n - 1))) == Lowest(v, n)
  {
    hide Plus, Mask, Masked, Lowest, Has, Pick;
    OneBit(v, n - 1);
    LowestSplits(v, n);
  }

  lemma LowestSplits(v: Element, n: nat)
    requires 0 < n <= 10
    ensures Plus(Lowest(v, n - 1), Masked(v, n - 1)) == Lowest(v, n)
  {
    LowIs(n);
    hide Plus, And, Mask, Low;
    AndPlus(v, Low(n - 1), Mask(n - 1));
  }

  lemma LowIs(n: nat)
    requires 0 < n <= 10
    ensures Low(n) == Plus(Low(n - 1), Mask(n - 1))
  {
  }

  lemma IdentityApplies(v: Element)
    ensures Apply(Identity(), v) == v
  {
    hide Part;
    IdentityPart(v, 10);
    assert v & 1023 == v;
  }

  /** A map with a left inverse takes nothing but zero to zero. */
  lemma Injective(f: Map, g: Map, v: Element)
    requires Compose(g, f) == Identity() && Apply(f, v) == 0
    ensures v == 0
  {
    hide Part, Compose, Identity;
    ComposeApplies(g, f, v);
    IdentityApplies(v);
    LinearZero(g);
  }

  /** The image of an element, written out. */
  predicate Takes(m: Map, v: Element, w: Element) {
    var low := Plus(Plus(Plus(Plus(Plus(0, Pick(Meets(v, 1), m[0])), Pick(Meets(v, 2), m[1])), Pick(Meets(v, 4), m[2])),
                         Pick(Meets(v, 8), m[3])), Pick(Meets(v, 16), m[4]));
    w == Plus(Plus(Plus(Plus(Plus(low, Pick(Meets(v, 32), m[5])), Pick(Meets(v, 64), m[6])), Pick(Meets(v, 128), m[7])),
                   Pick(Meets(v, 256), m[8])), Pick(Meets(v, 512), m[9]))
  }

  predicate Meets(v: Element, k: Element) {
    And(v, k) != 0
  }

  lemma HasIs(v: Element)
    ensures Has(v, 0) == Meets(v, 1) && Has(v, 1) == Meets(v, 2) && Has(v, 2) == Meets(v, 4) && Has(v, 3) == Meets(v, 8)
    ensures Has(v, 4) == Meets(v, 16) && Has(v, 5) == Meets(v, 32) && Has(v, 6) == Meets(v, 64) && Has(v, 7) == Meets(v, 128)
    ensures Has(v, 8) == Meets(v, 256) && Has(v, 9) == Meets(v, 512)
  {
    hide And;
  }

  lemma TakesApply(m: Map, v: Element, w: Element)
    requires Takes(m, v, w)
    ensures Apply(m, v) == w
  {
    hide Plus, Pick, Has, Meets;
    HasIs(v);
    assert Part(m, v, 0) == 0;
    assert Part(m, v, 2) == Plus(Plus(Part(m, v, 0), Pick(Has(v, 0), m[0])), Pick(Has(v, 1), m[1]));
    assert Part(m, v, 4) == Plus(Plus(Part(m, v, 2), Pick(Has(v, 2), m[2])), Pick(Has(v, 3), m[3]));
    assert Part(m, v, 6) == Plus(Plus(Part(m, v, 4), Pick(Has(v, 4), m[4])), Pick(Has(v, 5), m[5]));
    assert Part(m, v, 8) == Plus(Plus(Part(m, v, 6), Pick(Has(v, 6), m[6])), Pick(Has(v, 7), m[7]));
    assert Part(m, v, 10) == Plus(Plus(Part(m, v, 8), Pick(Has(v, 8), m[8])), Pick(Has(v, 9), m[9]));
  }

  /** Composition is known from the images of the bits. */
  lemma Evaluates(f: Map, g: Map, h: Map)
    requires Takes(f, g[0], h[0]) && Takes(f, g[1], h[1]) && Takes(f, g[2], h[2]) && Takes(f, g[3], h[3]) && Takes(f, g[4], h[4])
    requires Takes(f, g[5], h[5]) && Takes(f, g[6], h[6]) && Takes(f, g[7], h[7]) && Takes(f, g[8], h[8]) && Takes(f, g[9], h[9])
    ensures Compose(f, g) == h
  {
    hide Takes, Apply;
    forall i | 0 <= i < 10
      ensures Compose(f, g)[i] == h[i]
    {
      assert i == 0 || i == 1 || i == 2 || i == 3 || i == 4 || i == 5 || i == 6 || i == 7 || i == 8 || i == 9;
      TakesApply(f, g[i], h[i]);
    }
  }

  // ---------------------------------------------------------------------------------------------
  // Multiplication by powers of the primitive element

  /** Multiplication by the n-th power of the primitive element, for the n needed here. */
  function PowerMap(n: nat): Map {
    if n == 1 then [32, 64, 128, 256, 512, 311, 583, 430, 860, 945]
    else if n == 2 then [311, 583, 430, 860, 945, 139, 278, 517, 298, 596]
    else if n == 4 then [206, 412, 785, 811, 886, 553, 370, 717, 186, 349]
    else if n == 5 then [553, 370, 717, 186, 349, 934, 620, 504, 985, 699]
    else if n == 8 then [537, 315, 607, 439, 839, 145, 267, 534, 293, 586]
    else if n == 13 then [373, 707, 166, 332, 664, 652, 56, 89, 155, 287]
    else if n == 16 then [675, 102, 204, 408, 793, 840, 944, 617, 498, 973]
    else if n == 21 then [958, 629, 483, 966, 684, 948, 609, 482, 964, 680]
    else if n == 26 then [356, 712, 176, 329, 658, 172, 344, 665, 59, 95]
    else if n == 29 then [124, 209, 395, 790, 805, 240, 457, 914, 557, 378]
    else if n == 32 then [41, 82, 141, 282, 541, 23, 7, 14, 28, 17]
    else if n == 33 then [23, 7, 14, 28, 17, 736, 224, 448, 896, 544]
    else if n == 64 then [292, 584, 432, 841, 946, 747, 246, 453, 906, 564]
    else if n == 85 then [403, 783, 830, 885, 995, 146, 269, 538, 317, 595]
    else if n == 93 then [854, 933, 618, 500, 961, 106, 212, 385, 770, 804]
    else if n == 128 then [209, 395, 790, 805, 874, 457, 914, 557, 378, 733]
    else if n == 256 then [516, 296, 592, 425, 850, 817, 875, 1014, 741, 234]
    else if n == 341 then [365, 730, 189, 339, 655, 396, 792, 825, 891, 1023]
    else if n == 682 then [364, 728, 185, 347, 671, 428, 856, 953, 635, 511]
    else if n == 1023 then [1, 2, 4, 8, 16, 32, 64, 128, 256, 512]
    else Identity()
  }

  lemma Power2()
    ensures Compose(PowerMap(1), PowerMap(1)) == PowerMap(2)
  {
    Evaluates(PowerMap(1), PowerMap(1), PowerMap(2));
  }

  lemma Power4()
    ensures Compose(PowerMap(2), PowerMap(2)) == PowerMap(4)
  {
    Evaluates(PowerMap(2), PowerMap(2), PowerMap(4));
  }

  lemma Power5()
    ensures Compose(PowerMap(4), PowerMap(1)) == PowerMap(5)
  {
    Evaluates(PowerMap(4), PowerMap(1), PowerMap(5));
  }

  lemma Power8()
    ensures Compose(PowerMap(4), PowerMap(4)) == PowerMap(8)
  {
    Evaluates(PowerMap(4), PowerMap(4), PowerMap(8));
  }

  lemma Power13()
    ensures Compose(PowerMap(8), PowerMap(5)) == PowerMap(13)
  {
    Evaluates(PowerMap(8), PowerMap(5), PowerMap(13));
  }

  lemma Power26()
    ensures Compose(PowerMap(13), PowerMap(13)) == PowerMap(26)
  {
    Evaluates(PowerMap(13), PowerMap(13), PowerMap(26));
  }

  lemma Power16()
    ensures Compose(PowerMap(8), PowerMap(8)) == PowerMap(16)
  {
    Evaluates(PowerMap(8), PowerMap(8), PowerMap(16));
  }

  lemma Power21()
    ensures Compose(PowerMap(16), PowerMap(5)) == PowerMap(21)
  {
    Evaluates(PowerMap(16), PowerMap(5), PowerMap(21));
  }

  lemma Power29()
    ensures Compose(PowerMap(16), PowerMap(13)) == PowerMap(29)
  {
    Evaluates(PowerMap(16), PowerMap(13), PowerMap(29));
  }

  lemma Power32()
    ensures Compose(PowerMap(16), PowerMap(16)) == PowerMap(32)
  {
    Evaluates(PowerMap(16), PowerMap(16), PowerMap(32));
  }

  lemma Power33()
    ensures Compose(PowerMap(32), PowerMap(1)) == PowerMap(33)
  {
    Evaluates(PowerMap(32), PowerMap(1), PowerMap(33));
  }

  lemma Power64()
    ensures Compose(PowerMap(32), PowerMap(32)) == PowerMap(64)
  {
    Evaluates(PowerMap(32), PowerMap(32), PowerMap(64));
  }

  lemma Power85()
    ensures Compose(PowerMap(64), PowerMap(21)) == PowerMap(85)
  {
    Evaluates(PowerMap(64), PowerMap(21), PowerMap(85));
  }

  lemma Power93()
    ensures Compose(PowerMap(64), PowerMap(29)) == PowerMap(93)
  {
    Evaluates(PowerMap(64), PowerMap(29), PowerMap(93));
  }

  lemma Power128()
    ensures Compose(PowerMap(64), PowerMap(64)) == PowerMap(128)
  {
    Evaluates(PowerMap(64), PowerMap(64), PowerMap(128));
  }

  lemma Power256()
    ensures Compose(PowerMap(128), PowerMap(128)) == PowerMap(256)
  {
    Evaluates(PowerMap(128), PowerMap(128), PowerMap(256));
  }

  lemma Power341()
    ensures Compose(PowerMap(256), PowerMap(85)) == PowerMap(341)
  {
    Evaluates(PowerMap(256), PowerMap(85), PowerMap(341));
  }

  lemma Power682()
    ensures Compose(PowerMap(341), PowerMap(341)) == PowerMap(682)
  {
    Evaluates(PowerMap(341), PowerMap(341), PowerMap(682));
  }

  lemma Power1023()
    ensures Compose(PowerMap(682), PowerMap(341)) == PowerMap(1023)
  {
    Evaluates(PowerMap(682), PowerMap(341), PowerMap(1023));
  }

  /** Inverses of multiplications: by the primitive element and by the powers named less one. */
  function InverseMap(n: nat): Map {
    if n == 1 then [614, 492, 984, 697, 123, 1, 2, 4, 8, 16]
    else if n == 33 then [16, 9, 18, 13, 26, 512, 288, 576, 416, 832]
    else if n == 93 then [379, 735, 183, 327, 654, 844, 952, 633, 507, 991]
    else [365, 730, 189, 339, 655, 396, 792, 825, 891, 1023]
  }

  /** Multiplication by a power of the primitive element less one. */
  function LessOneMap(n: nat): Map {
    if n == 33 then [22, 5, 10, 20, 1, 704, 160, 320, 640, 32]
    else if n == 93 then [855, 935, 622, 508, 977, 74, 148, 257, 514, 292]
    else [364, 728, 185, 347, 671, 428, 856, 953, 635, 511]
  }

  /** Multiplication by the three powers at which texts are evaluated: the 997th and the next two. */
  function StepMap(m: nat): Map {
    if m == 0 then [445, 851, 943, 638, 501, 101, 202, 404, 769, 802]
    else if m == 1 then [101, 202, 404, 769, 802, 976, 681, 114, 205, 410]
    else [976, 681, 114, 205, 410, 260, 520, 304, 585, 434]
  }

  lemma InversePower()
    ensures Compose(InverseMap(1), PowerMap(1)) == Identity()
  {
    Evaluates(InverseMap(1), PowerMap(1), Identity());
  }

  lemma InverseStep()
    ensures Compose(PowerMap(26), StepMap(0)) == Identity()
  {
    Evaluates(PowerMap(26), StepMap(0), Identity());
  }

  lemma InverseLess33()
    ensures Compose(InverseMap(33), LessOneMap(33)) == Identity()
  {
    Evaluates(InverseMap(33), LessOneMap(33), Identity());
  }

  lemma InverseLess93()
    ensures Compose(InverseMap(93), LessOneMap(93)) == Identity()
  {
    Evaluates(InverseMap(93), LessOneMap(93), Identity());
  }

  lemma InverseLess341()
    ensures Compose(InverseMap(341), LessOneMap(341)) == Identity()
  {
    Evaluates(InverseMap(341), LessOneMap(341), Identity());
  }

  lemma StepOne()
    ensures Compose(StepMap(0), PowerMap(1)) == StepMap(1)
  {
    Evaluates(StepMap(0), PowerMap(1), StepMap(1));
  }

  lemma StepOneToo()
    ensures Compose(PowerMap(1), StepMap(0)) == StepMap(1)
  {
    Evaluates(PowerMap(1), StepMap(0), StepMap(1));
  }

  lemma StepTwo()
    ensures Compose(StepMap(1), PowerMap(1)) == StepMap(2)
  {
    Evaluates(StepMap(1), PowerMap(1), StepMap(2));
  }

  lemma LessOne(n: nat, i: nat)
    requires (n == 33 || n == 93 || n == 341) && i < 10
    ensures LessOneMap(n)[i] == Plus(PowerMap(n)[i], Identity()[i])
  {
  }

  lemma {:induction false} SumPart(f: Map, g: Map, h: Map, v: Element, n: nat)
    requires n <= 10 && forall i | 0 <= i < 10 :: h[i] == Plus(f[i], g[i])
    ensures Part(h, v, n) == Plus(Part(f, v, n), Part(g, v, n))
  {
    hide Has, Plus;
    if n > 0 {
      SumPart(f, g, h, v, n - 1);
      PlusZero(0);
      var p, q := Pick(Has(v, n - 1), f[n - 1]), Pick(Has(v, n - 1), g[n - 1]);
      assert Pick(Has(v, n - 1), h[n - 1]) == Plus(p, q);
      hide Pick;
      PlusShuffles(Part(f, v, n - 1), Part(g, v, n - 1), p, q);
    } else {
      PlusZero(0);
    }
  }

  // ---------------------------------------------------------------------------------------------
  // The primitive element has order 1023

  /** The n-th power of the primitive element times `v`. */
  function Pow(n: nat, v: Element): Element {
    if n == 0 then v else Apply(PowerMap(1), Pow(n - 1, v))
  }

  lemma {:induction false} PowSum(a: nat, b: nat, v: Element)
    ensures Pow(a + b, v) == Pow(a, Pow(b, v))
  {
    hide Apply, PowerMap;
    if a > 0 {
      PowSum(a - 1, b, v);
    }
  }

  ghost predicate Stored(n: nat) {
    forall v: Element :: Pow(n, v) == Apply(PowerMap(n), v)
  }

  lemma StoredSum(a: nat, b: nat, n: nat)
    requires n == a + b && Stored(a) && Stored(b) && Compose(PowerMap(a), PowerMap(b)) == PowerMap(n)
    ensures Stored(n)
  {
    hide Apply, PowerMap, Compose;
    forall v: Element
      ensures Pow(n, v) == Apply(PowerMap(n), v)
    {
      PowSum(a, b, v);
      ComposeApplies(PowerMap(a), PowerMap(b), v);
      assert Pow(b, v) == Apply(PowerMap(b), v) && Pow(a, Pow(b, v)) == Apply(PowerMap(a), Pow(b, v));
    }
  }

  lemma StoredFirst()
    ensures Stored(1)
  {
    hide Apply, PowerMap;
    var n := 1;
    forall v: Element
      ensures Pow(n, v) == Apply(PowerMap(n), v)
    {
      assert Pow(0, v) == v && Pow(n, v) == Apply(PowerMap(1), Pow(0, v));
    }
  }

  /** The powers that decide the order. */
  lemma StoredPowers()
    ensures Stored(26) && Stored(33) && Stored(93) && Stored(341) && Stored(1023)
  {
    hide Stored, Compose, PowerMap;
    StoredFirst();
    Power2();
    StoredSum(1, 1, 2);
    Power4();
    StoredSum(2, 2, 4);
    Power5();
    StoredSum(4, 1, 5);
    Power8();
    StoredSum(4, 4, 8);
    Power13();
    StoredSum(8, 5, 13);
    Power26();
    StoredSum(13, 13, 26);
    Power16();
    StoredSum(8, 8, 16);
    Power21();
    StoredSum(16, 5, 21);
    Power29();
    StoredSum(16, 13, 29);
    Power32();
    StoredSum(16, 16, 32);
    Power33();
    StoredSum(32, 1, 33);
    Power64();
    StoredSum(32, 32, 64);
    Power85();
    StoredSum(64, 21, 85);
    Power93();
    StoredSum(64, 29, 93);
    Power128();
    StoredSum(64, 64, 128);
    Power256();
    StoredSum(128, 128, 256);
    Power341();
    StoredSum(256, 85, 341);
    Power682();
    StoredSum(341, 341, 682);
    Power1023();
    StoredSum(682, 341, 1023);
  }

  lemma {:induction false} PowInjective(n: nat, u: Element, v: Element)
    requires Pow(n, u) == Pow(n, v)
    ensures u == v
  {
    hide Apply, PowerMap, Compose, Identity, Plus;
    if n > 0 {
      InversePower();
      SameImage(PowerMap(1), InverseMap(1), Pow(n - 1, u), Pow(n - 1, v));
      PowInjective(n - 1, u, v);
    }
  }

  lemma SameImage(f: Map, g: Map, u: Element, v: Element)
    requires Compose(g, f) == Identity() && Apply(f, u) == Apply(f, v)
    ensures u == v
  {
    hide Apply, Compose, Identity, Plus;
    Linear(f, u, v);
    PlusZero(Apply(f, u));
    Injective(f, g, Plus(u, v));
    PlusCancels(u, v);
  }

  lemma NoFixedAt(n: nat, v: Element)
    requires (n == 33 || n == 93 || n == 341) && Pow(n, v) == v
    ensures v == 0
  {
    hide Part, Compose, Identity, Plus, PowerMap, LessOneMap, InverseMap;
    StoredPowers();
    InverseLess33();
    InverseLess93();
    InverseLess341();
    forall i | 0 <= i < 10
      ensures LessOneMap(n)[i] == Plus(PowerMap(n)[i], Identity()[i])
    {
      LessOne(n, i);
    }
    SumPart(PowerMap(n), Identity(), LessOneMap(n), v, 10);
    IdentityApplies(v);
    PlusZero(v);
    Injective(LessOneMap(n), InverseMap(n), v);
  }

  function Gcd(a: nat, b: nat): (r: nat)
    requires a > 0 && b > 0
    ensures 0 < r <= a && r <= b
    decreases a + b
  {
    if a == b then a else if a > b then Gcd(a - b, b) else Gcd(a, b - a)
  }

  lemma SumDivides(x: nat, y: nat, g: nat)
    requires g > 0 && x % g == 0 && y % g == 0
    ensures (x + y) % g == 0
  {
    Divided(x, g);
    Divided(y, g);
    assert x + y == (x / g + y / g) * g + 0;
    Quotient(x + y, g, x / g + y / g, 0);
  }

  lemma {:induction false} GcdDivides(a: nat, b: nat)
    requires a > 0 && b > 0
    ensures a % Gcd(a, b) == 0 && b % Gcd(a, b) == 0
    decreases a + b
  {
    if a > b {
      GcdDivides(a - b, b);
      SumDivides(a - b, b, Gcd(a, b));
    } else if a < b {
      GcdDivides(a, b - a);
      SumDivides(b - a, a, Gcd(a, b));
    } else {
      Quotient(a, a, 1, 0);
    }
  }

  lemma {:induction false} PeriodGcd(a: nat, b: nat, v: Element)
    requires a > 0 && b > 0 && Pow(a, v) == v && Pow(b, v) == v
    ensures Pow(Gcd(a, b), v) == v
    decreases a + b
  {
    hide Pow;
    if a > b {
      PowSum(b, a - b, v);
      PowInjective(b, Pow(a - b, v), v);
      PeriodGcd(a - b, b, v);
    } else if a < b {
      PowSum(a, b - a, v);
      PowInjective(a, Pow(b - a, v), v);
      PeriodGcd(a, b - a, v);
    }
  }

  lemma {:induction false} PeriodTimes(g: nat, q: nat, v: Element)
    requires Pow(g, v) == v
    ensures g * q >= 0 && Pow(g * q, v) == v
  {
    hide Apply, PowerMap;
    if q > 0 {
      PeriodTimes(g, q - 1, v);
      assert g * q == g * (q - 1) + g;
      PowSum(g * (q - 1), g, v);
    } else {
      assert g * q == 0;
    }
  }

  lemma PeriodMultiple(g: nat, n: nat, v: Element)
    requires g > 0 && n % g == 0 && Pow(g, v) == v
    ensures Pow(n, v) == v
  {
    hide Pow;
    Divided(n, g);
    QuotientNonNegative(n, g);
    PeriodTimes(g, n / g, v);
    assert g * (n / g) == n;
  }

  /** The proper divisors of 1023 = 3 * 11 * 31. */
  lemma DivisorsOf1023(g: nat)
    requires 0 < g < 1023 && 1023 % g == 0
    ensures 341 % g == 0 || 93 % g == 0 || 33 % g == 0
  {
    if g <= 32 {
      SmallDivisors(g);
    } else {
      var q := 1023 / g;
      Divided(1023, g);
      QuotientNonNegative(1023, g);
      if q >= 32 {
        MulLess(31, q, g);
      }
      LargeDivisors(g, q);
    }
  }

  lemma SmallDivisors(g: nat)
    requires 0 < g <= 32 && 1023 % g == 0
    ensures 341 % g == 0 || 93 % g == 0 || 33 % g == 0
  {
    if g <= 11 {
      assert g == 1 || g == 2 || g == 3 || g == 4 || g == 5 || g == 6 || g == 7 || g == 8 || g == 9 || g == 10 || g == 11;
    } else {
      assert g == 12 || g == 13 || g == 14 || g == 15 || g == 16 || g == 17 || g == 18 || g == 19 || g == 20 || g == 21 || g == 22 ||
             g == 23 || g == 24 || g == 25 || g == 26 || g == 27 || g == 28 || g == 29 || g == 30 || g == 31 || g == 32;
    }
  }

  lemma LargeDivisors(g: nat, q: nat)
    requires g > 32 && q < 32 && q * g == 1023 && g < 1023
    ensures g == 341 || g == 93 || g == 33
  {
    if q <= 11 {
      assert q == 0 || q == 1 || q == 2 || q == 3 || q == 4 || q == 5 || q == 6 || q == 7 || q == 8 || q == 9 || q == 10 || q == 11;
    } else {
      assert q == 12 || q == 13 || q == 14 || q == 15 || q == 16 || q == 17 || q == 18 || q == 19 || q == 20 || q == 21 ||
             q == 22 || q == 23 || q == 24 || q == 25 || q == 26 || q == 27 || q == 28 || q == 29 || q == 30 || q == 31;
    }
  }

  /** No power below the 1023rd leaves anything but zero where it is. */
  lemma NoFixed(n: nat, v: Element)
    requires 0 < n < 1023 && Pow(n, v) == v
    ensures v == 0
  {
    hide Pow;
    WholeCycle(v);
    PeriodGcd(n, 1023, v);
    GcdDivides(n, 1023);
    var g := Gcd(n, 1023);
    DivisorsOf1023(g);
    if 341 % g == 0 {
      PeriodMultiple(g, 341, v);
      NoFixedAt(341, v);
    } else if 93 % g == 0 {
      PeriodMultiple(g, 93, v);
      NoFixedAt(93, v);
    } else {
      PeriodMultiple(g, 33, v);
      NoFixedAt(33, v);
    }
  }

  lemma WholeCycle(v: Element)
    ensures Pow(1023, v) == v
  {
    StoredPowers();
    IdentityApplies(v);
    assert PowerMap(1023) == Identity();
    hide Pow, Apply, PowerMap, Identity;
  }

}
