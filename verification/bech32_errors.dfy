/**
 * Bech32 and Bech32m find any three wrong symbols within a window of 1023: two texts that differ in at most three
 * places so close together cannot have the same value at all three points at which the remainder fixes it.
 */
module Bech32Errors {
  import opened Wrappers
  import opened Bech32
  import opened Bech32Field
  import opened Bech32Syndromes

  // ---------------------------------------------------------------------------------------------
  // How an error travels

  /** How far apart two remainders are, seen from one point. */
  function Apart(m: nat, a: Word, b: Word): Element {
    Plus(Syndrome(m, a), Syndrome(m, b))
  }

  /** What replacing a symbol by another adds. */
  function Change(v: Symbol, w: Symbol): Element {
    Plus(OfSymbol(v), OfSymbol(w))
  }

  lemma ChangeZero(v: Symbol, w: Symbol)
    ensures Change(v, w) == 0 <==> v == w
  {
    hide Plus, OfSymbol;
    PlusZero(OfSymbol(v));
    if Change(v, w) == 0 {
      PlusCancels(OfSymbol(v), OfSymbol(w));
      OfSymbolInjective(v, w);
    }
  }

  lemma StepPlus(m: nat, u: Element, v: Element)
    ensures Step(m, Plus(u, v)) == Plus(Step(m, u), Step(m, v))
  {
    hide Plus, Apply;
    Linear(StepMap(m), u, v);
  }

  lemma {:induction false} StepsPlus(m: nat, n: nat, u: Element, v: Element)
    ensures Steps(m, n, Plus(u, v)) == Plus(Steps(m, n, u), Steps(m, n, v))
  {
    hide Plus, Step;
    if n > 0 {
      StepsPlus(m, n - 1, u, v);
      StepPlus(m, Steps(m, n - 1, u), Steps(m, n - 1, v));
    }
  }

  lemma ApartNext(m: nat, a: Word, b: Word, v: Symbol, w: Symbol)
    requires m < 3
    ensures Apart(m, Next(a, v), Next(b, w)) == Plus(Change(v, w), Step(m, Apart(m, a, b)))
  {
    hide Plus, Step, Syndrome, OfSymbol, Next;
    SyndromeNext(m, a, v);
    SyndromeNext(m, b, w);
    StepPlus(m, Syndrome(m, a), Syndrome(m, b));
    PlusShuffles(OfSymbol(v), Step(m, Syndrome(m, a)), OfSymbol(w), Step(m, Syndrome(m, b)));
  }

  /** Common symbols move an error along and add nothing to it. */
  lemma {:induction false} ApartCommon(m: nat, a: Word, b: Word, z: seq<Symbol>)
    requires m < 3
    ensures Apart(m, PolyFrom(a, z), PolyFrom(b, z)) == Steps(m, |z|, Apart(m, a, b))
    decreases |z|
  {
    hide Plus, Step, Apart, Next, PolyFrom, Change;
    if z == [] {
      assert PolyFrom(a, z) == a && PolyFrom(b, z) == b by { PolyNothing(a); PolyNothing(b); }
    } else {
      var k := |z| - 1;
      var a', b' := PolyFrom(a, z[..k]), PolyFrom(b, z[..k]);
      ApartCommon(m, a, b, z[..k]);
      PolyLast(a, z);
      PolyLast(b, z);
      ApartNext(m, a', b', z[k], z[k]);
      ChangeZero(z[k], z[k]);
      PlusZero(Step(m, Apart(m, a', b')));
    }
  }

  lemma PolyNothing(c: Word)
    ensures PolyFrom(c, []) == c
  {
  }

  /** Common symbols, then one that may have changed. */
  lemma ApartAfter(m: nat, a: Word, b: Word, z: seq<Symbol>, v: Symbol, w: Symbol)
    requires m < 3
    ensures Apart(m, PolyFrom(a, z + [v]), PolyFrom(b, z + [w])) == Plus(Change(v, w), Steps(m, |z| + 1, Apart(m, a, b)))
  {
    hide Plus, Step, Apart, Next, PolyFrom, Change;
    ApartCommon(m, a, b, z);
    PolyLast(a, z + [v]);
    PolyLast(b, z + [w]);
    assert (z + [v])[..|z|] == z && (z + [w])[..|z|] == z;
    ApartNext(m, PolyFrom(a, z), PolyFrom(b, z), v, w);
  }

  /** After three changes, with common symbols between them. */
  lemma ApartThree(m: nat, c: Word, v: seq<Symbol>, w: seq<Symbol>, y: seq<Symbol>, z: seq<Symbol>)
    requires m < 3 && |v| == |w| == 3
    ensures Apart(m, PolyFrom(c, Spread(v, y, z)), PolyFrom(c, Spread(w, y, z)))
         == Plus(Change(v[2], w[2]), Plus(Steps(m, |z| + 1, Change(v[1], w[1])), Steps(m, |y| + |z| + 2, Change(v[0], w[0]))))
  {
    hide Plus, Step, Apart, Next, PolyFrom, Change, Steps;
    var a, b := PolyFrom(c, [v[0]]), PolyFrom(c, [w[0]]);
    var a', b' := PolyFrom(a, y + [v[1]]), PolyFrom(b, y + [w[1]]);
    SpreadPoly(c, v, y, z);
    SpreadPoly(c, w, y, z);
    ApartFirst(m, c, v[0], w[0]);
    ApartAfter(m, a, b, y, v[1], w[1]);
    ApartAfter(m, a', b', z, v[2], w[2]);
    StepsPlus(m, |z| + 1, Change(v[1], w[1]), Steps(m, |y| + 1, Change(v[0], w[0])));
    StepsSum(m, |z| + 1, |y| + 1, Change(v[0], w[0]));
  }

  /** Three symbols with common ones between them. */
  function Spread(v: seq<Symbol>, y: seq<Symbol>, z: seq<Symbol>): seq<Symbol>
    requires |v| == 3
  {
    [v[0]] + (y + [v[1]]) + (z + [v[2]])
  }

  lemma SpreadPoly(c: Word, v: seq<Symbol>, y: seq<Symbol>, z: seq<Symbol>)
    requires |v| == 3
    ensures PolyFrom(c, Spread(v, y, z)) == PolyFrom(PolyFrom(PolyFrom(c, [v[0]]), y + [v[1]]), z + [v[2]])
  {
    hide PolyFrom;
    PolyConcat(c, [v[0]], y + [v[1]]);
    PolyConcat(c, [v[0]] + (y + [v[1]]), z + [v[2]]);
  }

  lemma ApartFirst(m: nat, c: Word, v: Symbol, w: Symbol)
    requires m < 3
    ensures Apart(m, PolyFrom(c, [v]), PolyFrom(c, [w])) == Change(v, w)
  {
    hide Plus, Step, Syndrome, Next, PolyFrom, Change;
    PolyLast(c, [v]);
    PolyLast(c, [w]);
    assert [v][..0] == [] && [w][..0] == [];
    PolyNothing(c);
    ApartNext(m, c, c, v, w);
    PlusZero(Syndrome(m, c));
    StepZero(m);
    PlusZero(Change(v, w));
  }

  lemma StepZero(m: nat)
    ensures Step(m, 0) == 0
  {
    hide Apply;
    LinearZero(StepMap(m));
  }

  lemma {:induction false} StepsSum(m: nat, a: nat, b: nat, v: Element)
    ensures Steps(m, a, Steps(m, b, v)) == Steps(m, a + b, v)
  {
    hide Step;
    if a > 0 {
      StepsSum(m, a - 1, b, v);
    }
  }

  // ---------------------------------------------------------------------------------------------
  // The three points are powers of one element

  /** A step at the second or third point is the step at the first and one or two powers more. */
  lemma StepPower(m: nat, v: Element)
    requires m < 3
    ensures Step(m, v) == Step(0, Pow(m, v))
  {
    hide Apply, StepMap, PowerMap, Compose;
    StepOne();
    StepTwo();
    PowFirst(v);
    if m == 1 {
      ComposeApplies(StepMap(0), PowerMap(1), v);
    } else if m == 2 {
      ComposeApplies(StepMap(1), PowerMap(1), v);
      ComposeApplies(StepMap(0), PowerMap(1), Pow(1, v));
    }
  }

  lemma PowFirst(v: Element)
    ensures Pow(0, v) == v && Pow(1, v) == Apply(PowerMap(1), v) && Pow(2, v) == Apply(PowerMap(1), Pow(1, v))
  {
    hide Apply, PowerMap;
  }

  /** The points are the 997th power and the next two. */
  lemma PointIsPower(m: nat, v: Element)
    requires m < 3
    ensures Step(m, v) == Pow(997 + m, v)
  {
    hide Apply, StepMap, PowerMap, Compose, Identity, Pow, Stored;
    var u := Pow(m, v);
    StepPower(m, v);
    PowSum(997, m, v);
    PowSum(26, 997, u);
    WholeCycle(u);
    InverseStep();
    ComposeApplies(PowerMap(26), StepMap(0), u);
    IdentityApplies(u);
    assert Pow(26, Step(0, u)) == Apply(PowerMap(26), Step(0, u)) by { StoredPowers(); StoredAt(26, Step(0, u)); }
    PowInjective(26, Step(0, u), Pow(997, u));
  }

  lemma StoredAt(n: nat, v: Element)
    requires Stored(n)
    ensures Pow(n, v) == Apply(PowerMap(n), v)
  {
    hide Pow, Apply, PowerMap;
  }

  lemma {:induction false} StepCommutes(n: nat, v: Element)
    ensures Step(0, Pow(n, v)) == Pow(n, Step(0, v))
  {
    hide Apply, StepMap, PowerMap, Compose;
    if n > 0 {
      StepCommutes(n - 1, v);
      StepOne();
      StepOneToo();
      ComposeApplies(StepMap(0), PowerMap(1), Pow(n - 1, v));
      ComposeApplies(PowerMap(1), StepMap(0), Pow(n - 1, v));
    }
  }

  lemma {:induction false} StepsPower(m: nat, n: nat, v: Element)
    requires m < 3
    ensures Steps(m, n, v) == Pow(m * n, Steps(0, n, v))
  {
    hide Step, Pow;
    if n > 0 {
      var u := Steps(0, n - 1, v);
      StepsPower(m, n - 1, v);
      StepPower(m, Pow(m * (n - 1), u));
      PowSum(m, m * (n - 1), u);
      assert m + m * (n - 1) == m * n;
      StepCommutes(m * n, u);
    } else {
      PowFirst(v);
      assert m * n == 0;
    }
  }

  lemma {:induction false} StepsZero(n: nat, v: Element)
    requires Steps(0, n, v) == 0
    ensures v == 0
  {
    hide Apply, StepMap, Compose, Identity;
    if n > 0 {
      InverseStep();
      Injective(StepMap(0), PowerMap(26), Steps(0, n - 1, v));
      StepsZero(n - 1, v);
    }
  }

  lemma {:induction false} PowPlus(n: nat, u: Element, v: Element)
    ensures Pow(n, Plus(u, v)) == Plus(Pow(n, u), Pow(n, v))
  {
    hide Plus, Apply, PowerMap;
    if n > 0 {
      PowPlus(n - 1, u, v);
      Linear(PowerMap(1), Pow(n - 1, u), Pow(n - 1, v));
    }
  }

  // ---------------------------------------------------------------------------------------------
  // Three changes cannot cancel at all three points

  /** Three terms that cancel once, and after one and two powers more each, are zero. */
  lemma NoneCancel(b: nat, c: nat, u: Element, v: Element, w: Element)
    requires 0 < b && 0 < c && b + c < 1023
    requires Plus(w, Plus(v, u)) == 0
    requires Plus(w, Plus(Pow(c, v), Pow(b + c, u))) == 0
    requires Plus(w, Plus(Pow(2 * c, v), Pow(2 * (b + c), u))) == 0
    ensures u == 0 && v == 0 && w == 0
  {
    hide Plus, Pow;
    var n := b + c;
    var z, y := Plus(Pow(n, u), u), Plus(Pow(c, v), v);
    Differences(w, v, u, Pow(c, v), Pow(n, u));
    Differences(w, Pow(c, v), Pow(n, u), Pow(2 * c, v), Pow(2 * n, u));
    assert y == z;
    Doubled(n, u);
    Doubled(c, v);
    assert Pow(n, z) == Pow(c, z);
    PowSum(c, b, z);
    PowInjective(c, Pow(b, z), z);
    NoFixed(b, z);
    PlusCancels(Pow(n, u), u);
    NoFixed(n, u);
    PlusCancels(Pow(c, v), v);
    NoFixed(c, v);
    PlusZero(0);
    PlusZero(w);
  }

  lemma Differences(w: Element, v: Element, u: Element, v': Element, u': Element)
    requires Plus(w, Plus(v, u)) == 0 && Plus(w, Plus(v', u')) == 0
    ensures Plus(v', v) == Plus(u', u)
  {
    hide Plus;
    PlusCancels(w, Plus(v, u));
    PlusCancels(w, Plus(v', u'));
    PlusZero(w);
    PlusShuffles(v', u', v, u);
    PlusCancels(Plus(v', v), Plus(u', u));
  }

  lemma Doubled(n: nat, u: Element)
    ensures Pow(n, Plus(Pow(n, u), u)) == Plus(Pow(2 * n, u), Pow(n, u))
  {
    hide Plus, Pow;
    PowPlus(n, Pow(n, u), u);
    PowSum(n, n, u);
    assert n + n == 2 * n;
  }

  /** A remainder that is the same in spite of three changes: there were none. */
  lemma SpreadChanges(c: Word, v: seq<Symbol>, w: seq<Symbol>, y: seq<Symbol>, z: seq<Symbol>)
    requires |v| == |w| == 3 && |y| + |z| < 1021
    requires PolyFrom(c, Spread(v, y, z)) == PolyFrom(c, Spread(w, y, z))
    ensures v == w
  {
    hide Plus, Pow, Steps, Change, Apart, PolyFrom, Spread;
    var b, n := |y| + 1, |z| + 1;
    var r, s, t := Steps(0, b + n, Change(v[0], w[0])), Steps(0, n, Change(v[1], w[1])), Change(v[2], w[2]);
    Cancels(0, c, v, w, y, z, b, n);
    Cancels(1, c, v, w, y, z, b, n);
    Cancels(2, c, v, w, y, z, b, n);
    PowNone(s);
    PowNone(r);
    NoneCancel(b, n, r, s, t);
    StepsZero(b + n, Change(v[0], w[0]));
    StepsZero(n, Change(v[1], w[1]));
    ChangeZero(v[0], w[0]);
    ChangeZero(v[1], w[1]);
    ChangeZero(v[2], w[2]);
  }

  lemma PowNone(v: Element)
    ensures Pow(0, v) == v
  {
  }

  lemma Cancels(m: nat, c: Word, v: seq<Symbol>, w: seq<Symbol>, y: seq<Symbol>, z: seq<Symbol>, b: nat, n: nat)
    requires m < 3 && |v| == |w| == 3 && b == |y| + 1 && n == |z| + 1
    requires PolyFrom(c, Spread(v, y, z)) == PolyFrom(c, Spread(w, y, z))
    ensures Plus(Change(v[2], w[2]), Plus(Pow(m * n, Steps(0, n, Change(v[1], w[1]))), Pow(m * (b + n), Steps(0, b + n, Change(v[0], w[0]))))) == 0
  {
    hide Plus, Pow, Steps, Change, PolyFrom, Spread, Syndrome;
    ApartThree(m, c, v, w, y, z);
    PlusZero(Syndrome(m, PolyFrom(c, Spread(v, y, z))));
    StepsPower(m, n, Change(v[1], w[1]));
    StepsPower(m, b + n, Change(v[0], w[0]));
  }

  // ---------------------------------------------------------------------------------------------
  // Texts

  /** Two texts of the same length, the same everywhere but at `i`, `j` and `k`. */
  predicate DifferAt(x: seq<Symbol>, y: seq<Symbol>, i: nat, j: nat, k: nat) {
    |x| == |y| && forall p | 0 <= p < |x| && p != i && p != j && p != k :: x[p] == y[p]
  }

  lemma SplitThree(x: seq<Symbol>, i: nat, j: nat, k: nat)
    requires i < j < k < |x|
    ensures x == x[..i] + Spread([x[i], x[j], x[k]], x[i + 1..j], x[j + 1..k]) + x[k + 1..]
  {
  }

  lemma CommonParts(x: seq<Symbol>, y: seq<Symbol>, i: nat, j: nat, k: nat)
    requires DifferAt(x, y, i, j, k) && i < j < k < |x|
    ensures |x| == |y| && x[..i] == y[..i] && x[i + 1..j] == y[i + 1..j] && x[j + 1..k] == y[j + 1..k] && x[k + 1..] == y[k + 1..]
  {
  }

  lemma ThreeApart(c: Word, x: seq<Symbol>, y: seq<Symbol>, i: nat, j: nat, k: nat)
    requires DifferAt(x, y, i, j, k) && i < j < k < |x| && k - i < 1023 && x != y
    ensures PolyFrom(c, x) != PolyFrom(c, y)
  {
    hide PolyFrom, Spread, DifferAt;
    CommonParts(x, y, i, j, k);
    SplitThree(x, i, j, k);
    SplitThree(y, i, j, k);
    var v, w := [x[i], x[j], x[k]], [y[i], y[j], y[k]];
    var a, b, before, after := x[i + 1..j], x[j + 1..k], x[..i], x[k + 1..];
    PolyConcat(c, before + Spread(v, a, b), after);
    PolyConcat(c, before + Spread(w, a, b), after);
    PolyConcat(c, before, Spread(v, a, b));
    PolyConcat(c, before, Spread(w, a, b));
    var d := PolyFrom(c, before);
    if PolyFrom(d, Spread(v, a, b)) == PolyFrom(d, Spread(w, a, b)) {
      SpreadChanges(d, v, w, a, b);
    } else {
      PolyInjective(PolyFrom(d, Spread(v, a, b)), PolyFrom(d, Spread(w, a, b)), after);
    }
  }

  lemma CloseChange(c: Word, x: seq<Symbol>, y: seq<Symbol>, i: nat, j: nat, k: nat)
    requires DifferAt(x, y, i, j, k) && i <= j <= k < |x| && k - i < 6 && x != y
    ensures PolyFrom(c, x) != PolyFrom(c, y)
  {
    hide PolyFrom;
    var b := k + 1;
    assert x == x[..i] + x[i..b] + x[b..] && y == x[..i] + y[i..b] + x[b..];
    BurstChanges(c, x[..i], x[i..b], y[i..b], x[b..]);
  }

  /** Up to three wrong symbols within a window of 1023 always change the remainder. */
  lemma ThreeChange(c: Word, x: seq<Symbol>, y: seq<Symbol>, i: nat, j: nat, k: nat)
    requires DifferAt(x, y, i, j, k) && i <= j <= k < |x| && k - i < 1023 && x != y
    ensures PolyFrom(c, x) != PolyFrom(c, y)
  {
    if k - i < 6 {
      CloseChange(c, x, y, i, j, k);
    } else {
      ThreeApart(c, x, y, i, if i < j < k then j else i + 1, k);
    }
  }

  /** Up to three wrong symbols within a window of 1023 never verify under the same encoding. */
  lemma ThreeDetected(encoding: Encoding, hrp: string, x: seq<Symbol>, y: seq<Symbol>, i: nat, j: nat, k: nat)
    requires DifferAt(x, y, i, j, k) && i <= j <= k < |x| && k - i < 1023 && x != y
    requires Verified(hrp, x) == Some(encoding)
    ensures Verified(hrp, y) != Some(encoding)
  {
    hide Bits, PolyFrom, Constant;
    var start := Highs(hrp) + [0] + Lows(hrp);
    var n := |start|;
    assert Coefficients(hrp, x) == start + x && Coefficients(hrp, y) == start + y;
    assert (start + x)[n..] == x && (start + y)[n..] == y;
    ThreeChange(Bits(1), start + x, start + y, n + i, n + j, n + k);
  }

  /** Two texts that differ behind the separator in at most three characters within a window of 1023, and there at
      `i` in the symbol, never both decode under one encoding. */
  lemma TextThreeDetected(s: string, t: string, limit: nat, i: nat, j: nat, k: nat)
    requires |s| == |t| && LastSeparator(s) == LastSeparator(t)
    requires LastSeparator(s) < i < |s| && LastSeparator(s) < j < |s| && LastSeparator(s) < k < |s|
    requires forall p | 0 <= p < |s| && p != i && p != j && p != k :: s[p] == t[p]
    requires -1023 < i - j < 1023 && -1023 < j - k < 1023 && -1023 < i - k < 1023
    requires SymbolOfChar(s[i]) != SymbolOfChar(t[i])
    requires Decoded(s, limit).Some? && Decoded(t, limit).Some?
    ensures Decoded(s, limit).value.encoding != Decoded(t, limit).value.encoding
  {
    hide *;
    DecodedParts(s, limit);
    DecodedParts(t, limit);
    var pos := LastSeparator(s);
    var a, b, c := Sorted(i - pos - 1, j - pos - 1, k - pos - 1);
    SymbolsDifferAt(s, t, pos, i, a, b, c);
    ThreeDetected(Decoded(s, limit).value.encoding, Lowered(s[..pos]), Symbols(s[pos + 1..]), Symbols(t[pos + 1..]), a, b, c);
  }

  lemma SymbolsDifferAt(s: string, t: string, pos: nat, i: nat, a: nat, b: nat, c: nat)
    requires pos < i < |s| == |t| && AllSymbols(s[pos + 1..]) && AllSymbols(t[pos + 1..])
    requires forall p | 0 <= p < |s| && p != pos + 1 + a && p != pos + 1 + b && p != pos + 1 + c :: s[p] == t[p]
    requires SymbolOfChar(s[i]) != SymbolOfChar(t[i])
    ensures s[..pos] == t[..pos]
    ensures DifferAt(Symbols(s[pos + 1..]), Symbols(t[pos + 1..]), a, b, c) && Symbols(s[pos + 1..]) != Symbols(t[pos + 1..])
  {
    hide SymbolOfChar, AllSymbols;
    var x, y := s[pos + 1..], t[pos + 1..];
    assert x[i - pos - 1] == s[i] && y[i - pos - 1] == t[i];
    SymbolAtPlace(x, i - pos - 1);
    SymbolAtPlace(y, i - pos - 1);
    forall p | 0 <= p < |x| && p != a && p != b && p != c
      ensures Symbols(x)[p] == Symbols(y)[p]
    {
      assert x[p] == s[pos + 1 + p] && y[p] == t[pos + 1 + p];
      SymbolAtPlace(x, p);
      SymbolAtPlace(y, p);
    }
  }

  lemma SymbolAtPlace(x: string, p: nat)
    requires AllSymbols(x) && p < |x|
    ensures SymbolOfChar(x[p]) == Some(Symbols(x)[p])
  {
    hide SymbolOfChar;
  }

  lemma Sorted(i: nat, j: nat, k: nat) returns (a: nat, b: nat, c: nat)
    ensures a <= b <= c && a in {i, j, k} && c in {i, j, k}
    ensures (i == a || i == b || i == c) && (j == a || j == b || j == c) && (k == a || k == b || k == c)
  {
    a := if i <= j && i <= k then i else if j <= k then j else k;
    c := if i >= j && i >= k then i else if j >= k then j else k;
    b := i + j + k - a - c;
  }
}
