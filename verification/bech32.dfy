/**
 * Bech32 and Bech32m text (BIP 173 and BIP 350): five-bit symbols behind a readable prefix, with a
 * checksum that is a remainder of polynomials.
 */
module Bech32 {
  import opened Wrappers
  import opened Arithmetic

  type Symbol = x: nat | x < 32

  datatype Encoding = Plain | Modified

  const CHECKSUM_SIZE: nat := 6
  const SEPARATOR: char := '1'

  // ---------------------------------------------------------------------------------------------
  // Bits

  /** A remainder: six symbols of five bits, least significant bit first. */
  type Word = s: seq<bool> | |s| == 30 witness seq(30, _ => false)

  predicate Bit(n: nat, i: nat) {
    (n / Pow2(i)) % 2 == 1
  }

  function Bits(n: nat): (r: Word)
    ensures forall i | 0 <= i < 30 :: r[i] == Bit(n, i)
  {
    seq(30, i requires 0 <= i < 30 => Bit(n, i))
  }

  function Weight(b: bool, w: nat): nat {
    if b then w else 0
  }

  /** The symbol whose bits stand at `at` in a word. */
  function SymbolAt(c: Word, at: nat): Symbol
    requires at <= 25
  {
    Weight(c[at], 1) + Weight(c[at + 1], 2) + Weight(c[at + 2], 4) + Weight(c[at + 3], 8) + Weight(c[at + 4], 16)
  }

  lemma SmallPowers()
    ensures Pow2(0) == 1 && Pow2(1) == 2 && Pow2(2) == 4 && Pow2(3) == 8 && Pow2(4) == 16
  {
  }

  lemma SymbolAtBits(c: Word, at: nat, i: nat)
    requires at <= 25 && i < 5
    ensures Bit(SymbolAt(c, at), i) == c[at + i]
  {
    SmallPowers();
  }

  /** Symbols are their bits. */
  lemma SymbolsDiffer(v: Symbol, w: Symbol)
    ensures v != w ==> exists i :: 0 <= i < 5 && Bit(v, i) != Bit(w, i)
  {
    SymbolOf(v);
    SymbolOf(w);
    if v != w {
      assert Bit(v, 0) != Bit(w, 0) || Bit(v, 1) != Bit(w, 1) || Bit(v, 2) != Bit(w, 2) || Bit(v, 3) != Bit(w, 3) || Bit(v, 4) != Bit(w, 4);
    }
  }

  lemma SymbolOf(v: Symbol)
    ensures v == Weight(Bit(v, 0), 1) + Weight(Bit(v, 1), 2) + Weight(Bit(v, 2), 4) + Weight(Bit(v, 3), 8) + Weight(Bit(v, 4), 16)
  {
    SmallPowers();
  }

  // ---------------------------------------------------------------------------------------------
  // The checksum

  function Constant(encoding: Encoding): nat {
    match encoding
    case Plain => 1
    case Modified => 0x2bc830a3
  }

  /** What bit 25 + k of a remainder becomes when it is shifted out. */
  function Generator(k: nat): nat
    requires k < 5
  {
    [0x3b6a57b2, 0x26508e6d, 0x1ea119fa, 0x3d4233dd, 0x2a1462b3][k]
  }

  predicate Falls(c: Word, k: nat, i: nat)
    requires k < 5
  {
    c[25 + k] && Bit(Generator(k), i)
  }

  /** Bit `i` of what the five bits that are shifted out add. */
  predicate Reduction(c: Word, i: nat) {
    ((((Falls(c, 0, i) != Falls(c, 1, i)) != Falls(c, 2, i)) != Falls(c, 3, i)) != Falls(c, 4, i))
  }

  predicate NextBit(c: Word, v: Symbol, i: nat)
    requires i < 30
  {
    (if i < 5 then Bit(v, i) else c[i - 5]) != Reduction(c, i)
  }

  /** Multiply by x, add the symbol, reduce. */
  function Next(c: Word, v: Symbol): (r: Word)
    ensures forall i | 0 <= i < 30 :: r[i] == NextBit(c, v, i)
  {
    seq(30, i requires 0 <= i < 30 => NextBit(c, v, i))
  }

  function PolyFrom(c: Word, vs: seq<Symbol>): Word
    decreases |vs|
  {
    if vs == [] then c else PolyFrom(Next(c, vs[0]), vs[1..])
  }

  /** The low bits of the generator's multiples are independent: nothing shifted out is lost. */
  lemma GeneratorBits()
    ensures !Bit(Generator(0), 0) && Bit(Generator(0), 1) && !Bit(Generator(0), 2) && !Bit(Generator(0), 3) && Bit(Generator(0), 4)
    ensures Bit(Generator(1), 0) && !Bit(Generator(1), 1) && Bit(Generator(1), 2) && Bit(Generator(1), 3) && !Bit(Generator(1), 4)
    ensures !Bit(Generator(2), 0) && Bit(Generator(2), 1) && !Bit(Generator(2), 2) && Bit(Generator(2), 3) && Bit(Generator(2), 4)
    ensures Bit(Generator(3), 0) && !Bit(Generator(3), 1) && Bit(Generator(3), 2) && Bit(Generator(3), 3) && Bit(Generator(3), 4)
    ensures Bit(Generator(4), 0) && Bit(Generator(4), 1) && !Bit(Generator(4), 2) && !Bit(Generator(4), 3) && Bit(Generator(4), 4)
  {
    SmallPowers();
  }

  predicate SameTop(a: Word, b: Word) {
    a[25] == b[25] && a[26] == b[26] && a[27] == b[27] && a[28] == b[28] && a[29] == b[29]
  }

  /** Different remainders stay different under a common symbol. */
  lemma NextInjective(a: Word, b: Word, v: Symbol)
    requires Next(a, v) == Next(b, v)
    ensures a == b
  {
    GeneratorBits();
    assert NextBit(a, v, 0) == NextBit(b, v, 0) && NextBit(a, v, 1) == NextBit(b, v, 1);
    assert NextBit(a, v, 2) == NextBit(b, v, 2) && NextBit(a, v, 3) == NextBit(b, v, 3) && NextBit(a, v, 4) == NextBit(b, v, 4);
    hide Bit;
    assert SameTop(a, b);
    forall i | 0 <= i < 25
      ensures a[i] == b[i]
    {
      assert NextBit(a, v, i + 5) == NextBit(b, v, i + 5);
    }
  }

  lemma {:induction false} PolyConcat(c: Word, a: seq<Symbol>, b: seq<Symbol>)
    ensures PolyFrom(c, a + b) == PolyFrom(PolyFrom(c, a), b)
    decreases |a|
  {
    hide Next;
    if a == [] {
      assert a + b == b;
    } else {
      assert (a + b)[1..] == a[1..] + b;
      PolyConcat(Next(c, a[0]), a[1..], b);
    }
  }

  lemma PolyLast(c: Word, a: seq<Symbol>)
    requires a != []
    ensures PolyFrom(c, a) == Next(PolyFrom(c, a[..|a| - 1]), a[|a| - 1])
  {
    hide Next;
    assert a == a[..|a| - 1] + [a[|a| - 1]];
    PolyConcat(c, a[..|a| - 1], [a[|a| - 1]]);
  }

  /** Bit `i` of what the symbols of `a` pack to, the last one lowest. */
  predicate Packed(a: seq<Symbol>, i: nat) {
    i < 5 * |a| && Bit(a[|a| - 1 - i / 5], i % 5)
  }

  /** From remainders that agree in the bits shifted out, a step adds the symbols and nothing else. */
  lemma NextSameTop(a: Word, b: Word, v: Symbol, w: Symbol, i: nat)
    requires SameTop(a, b) && i < 30
    ensures (Next(a, v)[i] != Next(b, w)[i]) == (if i < 5 then Bit(v, i) != Bit(w, i) else a[i - 5] != b[i - 5])
  {
    hide Bit, Generator;
    assert NextBit(a, v, i) == Next(a, v)[i] && NextBit(b, w, i) == Next(b, w)[i];
    assert Reduction(a, i) == Reduction(b, i);
  }

  /** Up to six symbols after a common remainder show up in the result as they are. */
  lemma {:induction false} Window(c: Word, x: seq<Symbol>, y: seq<Symbol>, i: nat)
    requires |x| == |y| <= 6 && i < 30
    ensures (PolyFrom(c, x)[i] != PolyFrom(c, y)[i]) == (Packed(x, i) != Packed(y, i))
    decreases |x|
  {
    hide Bit, Next, PolyFrom;
    if x == [] {
      assert x == y;
    } else {
      var k := |x| - 1;
      var x', y' := x[..k], y[..k];
      var a, b := PolyFrom(c, x'), PolyFrom(c, y');
      forall j | 0 <= j < 30
        ensures (a[j] != b[j]) == (Packed(x', j) != Packed(y', j))
      {
        Window(c, x', y', j);
      }
      PolyLast(c, x);
      PolyLast(c, y);
      WindowTop(a, b, x', y');
      NextSameTop(a, b, x[k], y[k], i);
      PackedStep(x, i);
      PackedStep(y, i);
    }
  }

  lemma WindowTop(a: Word, b: Word, x: seq<Symbol>, y: seq<Symbol>)
    requires |x| == |y| <= 5
    requires forall j | 0 <= j < 30 :: (a[j] != b[j]) == (Packed(x, j) != Packed(y, j))
    ensures SameTop(a, b)
  {
    hide Bit;
  }

  lemma PackedStep(x: seq<Symbol>, i: nat)
    requires x != []
    ensures Packed(x, i) == if i < 5 then Bit(x[|x| - 1], i) else Packed(x[..|x| - 1], i - 5)
  {
    hide Bit;
  }

  lemma {:induction false} PolyInjective(a: Word, b: Word, vs: seq<Symbol>)
    requires a != b
    ensures PolyFrom(a, vs) != PolyFrom(b, vs)
    decreases |vs|
  {
    if vs != [] {
      if Next(a, vs[0]) == Next(b, vs[0]) {
        NextInjective(a, b, vs[0]);
      }
      PolyInjective(Next(a, vs[0]), Next(b, vs[0]), vs[1..]);
    }
  }

  /** Errors in up to six consecutive symbols always change the remainder. */
  lemma BurstChanges(c: Word, before: seq<Symbol>, x: seq<Symbol>, y: seq<Symbol>, after: seq<Symbol>)
    requires |x| == |y| <= 6 && x != y
    ensures PolyFrom(c, before + x + after) != PolyFrom(c, before + y + after)
  {
    hide PolyFrom, Bit;
    PolyConcat(c, before + x, after);
    PolyConcat(c, before + y, after);
    PolyConcat(c, before, x);
    PolyConcat(c, before, y);
    var d := PolyFrom(c, before);
    var i := PackedDiffers(x, y);
    Window(d, x, y, i);
    PolyInjective(PolyFrom(d, x), PolyFrom(d, y), after);
  }

  lemma PackedDiffers(x: seq<Symbol>, y: seq<Symbol>) returns (i: nat)
    requires |x| == |y| <= 6 && x != y
    ensures i < 30 && Packed(x, i) != Packed(y, i)
  {
    var k :| 0 <= k < |x| && x[k] != y[k];
    SymbolsDiffer(x[k], y[k]);
    var j :| 0 <= j < 5 && Bit(x[k], j) != Bit(y[k], j);
    hide Bit;
    i := 5 * (|x| - 1 - k) + j;
    assert i / 5 == |x| - 1 - k && i % 5 == j;
  }

  // ---------------------------------------------------------------------------------------------
  // Making and verifying a checksum

  function Zeros(): (r: seq<Symbol>)
    ensures |r| == CHECKSUM_SIZE
  {
    [0, 0, 0, 0, 0, 0]
  }

  /** The words' difference, bit by bit. */
  function Xor(a: Word, b: Word): (r: Word)
    ensures forall i | 0 <= i < 30 :: r[i] == (a[i] != b[i])
  {
    seq(30, i requires 0 <= i < 30 => a[i] != b[i])
  }

  function Unpacked(m: Word): (r: seq<Symbol>)
    ensures |r| == CHECKSUM_SIZE && forall k | 0 <= k < 6 :: r[k] == SymbolAt(m, 5 * (5 - k))
  {
    [SymbolAt(m, 25), SymbolAt(m, 20), SymbolAt(m, 15), SymbolAt(m, 10), SymbolAt(m, 5), SymbolAt(m, 0)]
  }

  lemma UnpackedBits(m: Word, i: nat)
    requires i < 30
    ensures Packed(Unpacked(m), i) == m[i] && !Packed(Zeros(), i)
  {
    SymbolAtBits(m, 5 * (i / 5), i % 5);
    SmallPowers();
    assert Zeros()[5 - i / 5] == 0;
    hide SymbolAt;
    assert Unpacked(m)[5 - i / 5] == SymbolAt(m, 5 * (i / 5));
  }

  /** The six symbols that make the remainder of everything the constant of the encoding. */
  function Checksum(encoding: Encoding, coefficients: seq<Symbol>): (r: seq<Symbol>)
    ensures |r| == CHECKSUM_SIZE
  {
    Unpacked(Xor(PolyFrom(Bits(1), coefficients + Zeros()), Bits(Constant(encoding))))
  }

  /** A checksum verifies, for any symbols before it. */
  lemma ChecksumVerifies(encoding: Encoding, coefficients: seq<Symbol>)
    ensures PolyFrom(Bits(1), coefficients + Checksum(encoding, coefficients)) == Bits(Constant(encoding))
  {
    hide PolyFrom, Bit, Bits, Unpacked;
    var one, target := Bits(1), Bits(Constant(encoding));
    var d := PolyFrom(one, coefficients);
    PolyConcat(one, coefficients, Zeros());
    var m := Xor(PolyFrom(d, Zeros()), target);
    PolyConcat(one, coefficients, Unpacked(m));
    forall i | 0 <= i < 30
      ensures PolyFrom(d, Unpacked(m))[i] == target[i]
    {
      Window(d, Unpacked(m), Zeros(), i);
      UnpackedBits(m, i);
    }
  }

  lemma ConstantsDiffer()
    ensures Bits(Constant(Plain)) != Bits(Constant(Modified))
  {
    SmallPowers();
    assert !Bit(Constant(Plain), 1) && Bit(Constant(Modified), 1);
    assert !Bits(Constant(Plain))[1] && Bits(Constant(Modified))[1];
  }

  // ---------------------------------------------------------------------------------------------
  // The text format

  /** The character of a symbol. */
  function CharOf(v: Symbol): char {
    if v == 0 then 'q' else if v == 1 then 'p' else if v == 2 then 'z' else if v == 3 then 'r'
    else if v == 4 then 'y' else if v == 5 then '9' else if v == 6 then 'x' else if v == 7 then '8'
    else if v == 8 then 'g' else if v == 9 then 'f' else if v == 10 then '2' else if v == 11 then 't'
    else if v == 12 then 'v' else if v == 13 then 'd' else if v == 14 then 'w' else if v == 15 then '0'
    else if v == 16 then 's' else if v == 17 then '3' else if v == 18 then 'j' else if v == 19 then 'n'
    else if v == 20 then '5' else if v == 21 then '4' else if v == 22 then 'k' else if v == 23 then 'h'
    else if v == 24 then 'c' else if v == 25 then 'e' else if v == 26 then '6' else if v == 27 then 'm'
    else if v == 28 then 'u' else if v == 29 then 'a' else if v == 30 then '7'
    else 'l'
  }

  function LowerCase(c: char): char {
    if 'A' <= c <= 'Z' then (c as int - 'A' as int + 'a' as int) as char else c
  }

  /** The symbol of a lower-case character. */
  function SymbolOfLower(c: char): Option<Symbol> {
    if c == 'q' then Some(0) else if c == 'p' then Some(1) else if c == 'z' then Some(2) else if c == 'r' then Some(3)
    else if c == 'y' then Some(4) else if c == '9' then Some(5) else if c == 'x' then Some(6) else if c == '8' then Some(7)
    else if c == 'g' then Some(8) else if c == 'f' then Some(9) else if c == '2' then Some(10) else if c == 't' then Some(11)
    else if c == 'v' then Some(12) else if c == 'd' then Some(13) else if c == 'w' then Some(14) else if c == '0' then Some(15)
    else if c == 's' then Some(16) else if c == '3' then Some(17) else if c == 'j' then Some(18) else if c == 'n' then Some(19)
    else if c == '5' then Some(20) else if c == '4' then Some(21) else if c == 'k' then Some(22) else if c == 'h' then Some(23)
    else if c == 'c' then Some(24) else if c == 'e' then Some(25) else if c == '6' then Some(26) else if c == 'm' then Some(27)
    else if c == 'u' then Some(28) else if c == 'a' then Some(29) else if c == '7' then Some(30) else if c == 'l' then Some(31)
    else None
  }

  /** The symbol of a character, in either case. */
  function SymbolOfChar(c: char): Option<Symbol> {
    SymbolOfLower(LowerCase(c))
  }

  predicate IsLower(c: char) { 'a' <= c <= 'z' }

  predicate IsUpper(c: char) { 'A' <= c <= 'Z' }

  predicate IsPrintable(c: char) { 33 <= c as int <= 126 }

  lemma CharOfSymbol(v: Symbol)
    ensures SymbolOfChar(CharOf(v)) == Some(v) && CharOf(v) != SEPARATOR
    ensures IsPrintable(CharOf(v)) && !IsUpper(CharOf(v))
  {
  }

  /** The prefix, spread over symbols, before the values. */
  function Coefficients(hrp: string, values: seq<Symbol>): (r: seq<Symbol>) {
    Highs(hrp) + [0] + Lows(hrp) + values
  }

  function Highs(hrp: string): (r: seq<Symbol>)
    ensures |r| == |hrp|
  {
    seq(|hrp|, i requires 0 <= i < |hrp| => (hrp[i] as int / 32) % 32)
  }

  function Lows(hrp: string): (r: seq<Symbol>)
    ensures |r| == |hrp|
  {
    seq(|hrp|, i requires 0 <= i < |hrp| => hrp[i] as int % 32)
  }

  function Remainder(hrp: string, values: seq<Symbol>): Word {
    PolyFrom(Bits(1), Coefficients(hrp, values))
  }

  /** The encoding whose constant the remainder is, if any. */
  function Verified(hrp: string, values: seq<Symbol>): Option<Encoding> {
    if Remainder(hrp, values) == Bits(Constant(Plain)) then Some(Plain)
    else if Remainder(hrp, values) == Bits(Constant(Modified)) then Some(Modified)
    else None
  }

  function Chars(values: seq<Symbol>): (r: string)
    ensures |r| == |values| && forall i | 0 <= i < |values| :: r[i] == CharOf(values[i])
  {
    seq(|values|, i requires 0 <= i < |values| => CharOf(values[i]))
  }

  function Encoded(encoding: Encoding, hrp: string, values: seq<Symbol>): string {
    hrp + [SEPARATOR] + Chars(values + Checksum(encoding, Coefficients(hrp, values)))
  }

  datatype Text = Text(encoding: Encoding, hrp: string, values: seq<Symbol>)

  /** Printable characters only, and not both cases. */
  predicate CharactersOk(s: string) {
    && (forall i | 0 <= i < |s| :: IsPrintable(s[i]))
    && !((exists i :: 0 <= i < |s| && IsLower(s[i])) && (exists i :: 0 <= i < |s| && IsUpper(s[i])))
  }

  /** The place of the last separator, or -1. */
  function LastSeparator(s: string): (r: int)
    ensures -1 <= r < |s|
  {
    if s == [] then -1 else if s[|s| - 1] == SEPARATOR then |s| - 1 else LastSeparator(s[..|s| - 1])
  }

  predicate AllSymbols(s: string) {
    forall i | 0 <= i < |s| :: SymbolOfChar(s[i]).Some?
  }

  function Symbols(s: string): (r: seq<Symbol>)
    requires AllSymbols(s)
    ensures |r| == |s| && forall i | 0 <= i < |s| :: r[i] == SymbolOfChar(s[i]).value
  {
    seq(|s|, i requires 0 <= i < |s| => SymbolOfChar(s[i]).value)
  }

  function Lowered(s: string): (r: string)
    ensures |r| == |s| && forall i | 0 <= i < |s| :: r[i] == LowerCase(s[i])
  {
    seq(|s|, i requires 0 <= i < |s| => LowerCase(s[i]))
  }

  /** A text in which a prefix, a separator and at least a checksum of symbols can be told apart. */
  predicate Shaped(s: string, limit: nat) {
    var pos := LastSeparator(s);
    CharactersOk(s) && |s| <= limit && 0 < pos && pos + CHECKSUM_SIZE < |s| && AllSymbols(s[pos + 1..])
  }

  function Decoded(s: string, limit: nat): Option<Text> {
    if !Shaped(s, limit) then None
    else
      var pos := LastSeparator(s);
      var hrp, values := Lowered(s[..pos]), Symbols(s[pos + 1..]);
      match Verified(hrp, values)
      case None => None
      case Some(encoding) => Some(Text(encoding, hrp, values[..|values| - CHECKSUM_SIZE]))
  }

  // ---------------------------------------------------------------------------------------------
  // There and back, and errors

  lemma {:induction false} SeparatorIs(s: string, pos: nat)
    requires pos < |s| && s[pos] == SEPARATOR && forall i | pos < i < |s| :: s[i] != SEPARATOR
    ensures LastSeparator(s) == pos
    decreases |s|
  {
    if pos < |s| - 1 {
      SeparatorIs(s[..|s| - 1], pos);
    }
  }

  lemma CoefficientsConcat(hrp: string, a: seq<Symbol>, b: seq<Symbol>)
    ensures Coefficients(hrp, a + b) == Coefficients(hrp, a) + b
  {
  }

  lemma EncodedVerifies(encoding: Encoding, hrp: string, values: seq<Symbol>)
    ensures Verified(hrp, values + Checksum(encoding, Coefficients(hrp, values))) == Some(encoding)
  {
    hide Coefficients, Checksum, Bits, Constant;
    CoefficientsConcat(hrp, values, Checksum(encoding, Coefficients(hrp, values)));
    ChecksumVerifies(encoding, Coefficients(hrp, values));
    ConstantsDiffer();
  }

  /** A prefix that a decoder takes as it is. */
  predicate GoodPrefix(hrp: string) {
    hrp != [] && forall i | 0 <= i < |hrp| :: IsPrintable(hrp[i]) && !IsUpper(hrp[i])
  }

  /** The parts of an encoded text, as a decoder takes it apart. */
  lemma EncodedParts(hrp: string, all: seq<Symbol>)
    ensures var s := hrp + [SEPARATOR] + Chars(all);
            && |s| == |hrp| + 1 + |all| && LastSeparator(s) == |hrp| && s[..|hrp|] == hrp
            && AllSymbols(s[|hrp| + 1..]) && Symbols(s[|hrp| + 1..]) == all
            && (forall i | |hrp| <= i < |s| :: IsPrintable(s[i]) && !IsUpper(s[i]))
  {
    hide CharOf, SymbolOfLower;
    var s, pos := hrp + [SEPARATOR] + Chars(all), |hrp|;
    forall i | pos < i < |s|
      ensures s[i] == CharOf(all[i - pos - 1]) && SymbolOfChar(s[i]) == Some(all[i - pos - 1]) && s[i] != SEPARATOR
      ensures IsPrintable(s[i]) && !IsUpper(s[i])
    {
      CharOfSymbol(all[i - pos - 1]);
    }
    SeparatorIs(s, pos);
    assert s[pos + 1..] == Chars(all);
  }

  /** Its characters are acceptable exactly if those of the prefix are printable. */
  lemma EncodedCharacters(hrp: string, s: string)
    requires |hrp| <= |s| && s[..|hrp|] == hrp && forall i | 0 <= i < |hrp| :: !IsUpper(hrp[i])
    requires forall i | |hrp| <= i < |s| :: IsPrintable(s[i]) && !IsUpper(s[i])
    ensures CharactersOk(s) <==> forall i | 0 <= i < |hrp| :: IsPrintable(hrp[i])
    ensures Lowered(hrp) == hrp
  {
    hide IsPrintable;
    assert forall i | 0 <= i < |hrp| :: s[i] == hrp[i];
    assert forall i | 0 <= i < |s| :: !IsUpper(s[i]);
  }

  /** What an encoder makes of symbols behind a lower-case prefix decodes to the same encoding, prefix
      and symbols, exactly if the prefix is printable and not empty and the text is not too long. */
  lemma RoundTrip(encoding: Encoding, hrp: string, values: seq<Symbol>, limit: nat)
    requires forall i | 0 <= i < |hrp| :: !IsUpper(hrp[i])
    ensures Decoded(Encoded(encoding, hrp, values), limit) == Some(Text(encoding, hrp, values)) <==>
            GoodPrefix(hrp) && |hrp| + 1 + |values| + CHECKSUM_SIZE <= limit
  {
    hide Checksum, Coefficients, Verified, IsPrintable, IsUpper, CharactersOk, LastSeparator, AllSymbols, Symbols, Lowered, Chars;
    var all := values + Checksum(encoding, Coefficients(hrp, values));
    EncodedParts(hrp, all);
    EncodedCharacters(hrp, Encoded(encoding, hrp, values));
    EncodedVerifies(encoding, hrp, values);
    assert all[..|all| - CHECKSUM_SIZE] == values;
  }

  /** A stretch of up to six symbols replaced by others never verifies under the same encoding. */
  lemma BurstDetected(encoding: Encoding, hrp: string, before: seq<Symbol>, x: seq<Symbol>, y: seq<Symbol>, after: seq<Symbol>)
    requires |x| == |y| <= 6 && x != y && Verified(hrp, before + x + after) == Some(encoding)
    ensures Verified(hrp, before + y + after) != Some(encoding)
  {
    hide Bits, PolyFrom, Constant;
    var start := Highs(hrp) + [0] + Lows(hrp) + before;
    assert Coefficients(hrp, before + x + after) == start + x + after;
    assert Coefficients(hrp, before + y + after) == start + y + after;
    BurstChanges(Bits(1), start, x, y, after);
  }

  /** Two texts that differ only in a stretch of up to six characters behind the separator, and there
      at `i` in the symbol, never both decode under one encoding. */
  lemma TextBurstDetected(s: string, t: string, limit: nat, p: nat, m: nat, i: nat)
    requires |s| == |t| && LastSeparator(s) == LastSeparator(t) < p && p + m <= |s| && m <= 6
    requires s[..p] == t[..p] && s[p + m..] == t[p + m..]
    requires p <= i < p + m && SymbolOfChar(s[i]) != SymbolOfChar(t[i])
    requires Decoded(s, limit).Some? && Decoded(t, limit).Some?
    ensures Decoded(s, limit).value.encoding != Decoded(t, limit).value.encoding
  {
    hide *;
    DecodedParts(s, limit);
    DecodedParts(t, limit);
    var hrp, before, x, y, after := SplitTexts(s, t, LastSeparator(s), p, m, i);
    BurstDetected(Decoded(s, limit).value.encoding, hrp, before, x, y, after);
  }

  /** The common prefix of such texts, their common symbols before and after the stretch, and those in it. */
  lemma SplitTexts(s: string, t: string, pos: nat, p: nat, m: nat, i: nat)
    returns (hrp: string, before: seq<Symbol>, x: seq<Symbol>, y: seq<Symbol>, after: seq<Symbol>)
    requires |s| == |t| && pos < p && p + m <= |s| && p <= i < p + m
    requires s[..p] == t[..p] && s[p + m..] == t[p + m..] && SymbolOfChar(s[i]) != SymbolOfChar(t[i])
    requires AllSymbols(s[pos + 1..]) && AllSymbols(t[pos + 1..])
    requires |Symbols(s[pos + 1..])| == |Symbols(t[pos + 1..])| == |s| - pos - 1
    ensures hrp == Lowered(s[..pos]) == Lowered(t[..pos])
    ensures Symbols(s[pos + 1..]) == before + x + after && Symbols(t[pos + 1..]) == before + y + after
    ensures |x| == |y| == m && x != y
  {
    hide *;
    var v, w := Symbols(s[pos + 1..]), Symbols(t[pos + 1..]);
    var a, b := p - pos - 1, p + m - pos - 1;
    SamePrefix(s, t, pos, p);
    SameSlice(s, t, pos + 1, p);
    SamePart(s, t, v, w, pos, 0, a);
    SamePart(s, t, v, w, pos, b, |v|);
    PartDiffers(s, t, v, w, pos, a, b, i);
    SplitBurst(v, w, a, b);
    hrp, before, x, y, after := Lowered(s[..pos]), v[..a], v[a..b], w[a..b], v[b..];
  }

  lemma SamePrefix(s: string, t: string, pos: nat, p: nat)
    requires pos <= p <= |s| == |t| && s[..p] == t[..p]
    ensures s[..pos] == t[..pos]
  {
    assert s[..pos] == s[..p][..pos] && t[..pos] == t[..p][..pos];
  }

  lemma SameSlice(s: string, t: string, k: nat, p: nat)
    requires k <= p <= |s| == |t| && s[..p] == t[..p]
    ensures s[k..p] == t[k..p]
  {
    assert s[k..p] == s[..p][k..] && t[k..p] == t[..p][k..];
  }

  lemma DecodedParts(s: string, limit: nat)
    requires Decoded(s, limit).Some?
    ensures var pos := LastSeparator(s);
            && 0 < pos && AllSymbols(s[pos + 1..]) && |Symbols(s[pos + 1..])| == |s| - pos - 1
            && Verified(Lowered(s[..pos]), Symbols(s[pos + 1..])) == Some(Decoded(s, limit).value.encoding)
  {
  }

  lemma SplitBurst(v: seq<Symbol>, w: seq<Symbol>, a: nat, b: nat)
    requires a <= b <= |v| == |w| && v[..a] == w[..a] && v[b..] == w[b..]
    ensures v == v[..a] + v[a..b] + v[b..] && w == v[..a] + w[a..b] + v[b..]
  {
  }

  lemma PartDiffers(s: string, t: string, v: seq<Symbol>, w: seq<Symbol>, pos: nat, a: nat, b: nat, i: nat)
    requires |s| == |t| && pos < |s| && a <= b <= |v| == |w| == |s| - pos - 1
    requires AllSymbols(s[pos + 1..]) && AllSymbols(t[pos + 1..]) && v == Symbols(s[pos + 1..]) && w == Symbols(t[pos + 1..])
    requires pos + 1 + a <= i < pos + 1 + b && SymbolOfChar(s[i]) != SymbolOfChar(t[i])
    ensures v[a..b] != w[a..b]
  {
    hide SymbolOfChar;
    var j := i - pos - 1;
    assert s[pos + 1..][j] == s[i] && t[pos + 1..][j] == t[i];
    assert v[j] != w[j] && v[a..b][j - a] == v[j] && w[a..b][j - a] == w[j];
  }

  lemma SamePart(s: string, t: string, v: seq<Symbol>, w: seq<Symbol>, pos: nat, a: nat, b: nat)
    requires |s| == |t| && pos < |s| && a <= b <= |v| == |w| == |s| - pos - 1
    requires AllSymbols(s[pos + 1..]) && AllSymbols(t[pos + 1..]) && v == Symbols(s[pos + 1..]) && w == Symbols(t[pos + 1..])
    requires s[pos + 1 + a..pos + 1 + b] == t[pos + 1 + a..pos + 1 + b]
    ensures v[a..b] == w[a..b]
  {
    hide SymbolOfChar;
    forall i | a <= i < b
      ensures v[i] == w[i]
    {
      assert s[pos + 1..][i] == s[pos + 1 + a..pos + 1 + b][i - a];
      assert t[pos + 1..][i] == t[pos + 1 + a..pos + 1 + b][i - a];
    }
  }

  // ---------------------------------------------------------------------------------------------
  // The algorithms

  method PolyMod(vs: seq<Symbol>) returns (c: Word)
    ensures c == PolyFrom(Bits(1), vs)
  {
    hide Next, Bits;
    c := Bits(1);
    var i := 0;
    assert vs[0..] == vs;
    while i < |vs|
      invariant 0 <= i <= |vs| && PolyFrom(c, vs[i..]) == PolyFrom(Bits(1), vs)
    {
      assert vs[i..][0] == vs[i] && vs[i..][1..] == vs[i + 1..];
      c := Next(c, vs[i]);
      i := i + 1;
    }
  }

  method Encode(encoding: Encoding, hrp: string, values: seq<Symbol>) returns (ret: string)
    requires forall i | 0 <= i < |hrp| :: !IsUpper(hrp[i])
    ensures ret == Encoded(encoding, hrp, values)
  {
    hide Bits, PolyFrom, Unpacked, CharOf, Coefficients;
    var c := PolyMod(Coefficients(hrp, values) + Zeros());
    var checksum := Unpacked(Xor(c, Bits(Constant(encoding))));
    ret := hrp + [SEPARATOR] + Chars(values) + Chars(checksum);
    assert Chars(values) + Chars(checksum) == Chars(values + checksum);
  }

  /** Look for characters that do not belong, and for a mixture of cases. */
  method CheckCharacters(s: string) returns (ok: bool)
    ensures ok <==> CharactersOk(s)
  {
    var lower, upper := false, false;
    ok := true;
    var i := 0;
    while i < |s|
      invariant 0 <= i <= |s|
      invariant lower ==> exists j :: 0 <= j < i && IsLower(s[j])
      invariant upper ==> exists j :: 0 <= j < i && IsUpper(s[j])
      invariant ok ==> !(lower && upper)
      invariant ok ==> forall j | 0 <= j < i :: IsPrintable(s[j]) && (IsLower(s[j]) ==> lower) && (IsUpper(s[j]) ==> upper)
      invariant !ok ==> !CharactersOk(s)
    {
      var c := s[i];
      if IsLower(c) {
        if upper {
          ok := false;
        } else {
          lower := true;
        }
      } else if IsUpper(c) {
        if lower {
          ok := false;
        } else {
          upper := true;
        }
      } else if !IsPrintable(c) {
        ok := false;
      }
      i := i + 1;
    }
  }

  method FindSeparator(s: string) returns (pos: int)
    ensures pos == LastSeparator(s)
  {
    pos := |s| - 1;
    assert s[..|s|] == s;
    while pos >= 0 && s[pos] != SEPARATOR
      invariant -1 <= pos < |s| && LastSeparator(s[..pos + 1]) == LastSeparator(s)
    {
      assert s[..pos + 1][..pos] == s[..pos];
      pos := pos - 1;
    }
  }

  method Decode(s: string, limit: nat) returns (r: Option<Text>)
    ensures r == Decoded(s, limit)
  {
    hide SymbolOfChar, LowerCase, Bits, PolyFrom, Coefficients, CharactersOk, LastSeparator, Constant;
    var good := CheckCharacters(s);
    if !good {
      return None;
    }
    var pos := FindSeparator(s);
    if |s| > limit {
      return None;
    }
    if pos == -1 || pos == 0 || pos + CHECKSUM_SIZE >= |s| {
      return None;
    }
    var data := s[pos + 1..];
    var values: seq<Symbol> := [];
    var i := 0;
    while i < |data|
      invariant 0 <= i <= |data| && AllSymbols(data[..i]) && values == Symbols(data[..i])
    {
      var rev := SymbolOfChar(data[i]);
      if rev.None? {
        return None;
      }
      assert data[..i + 1] == data[..i] + [data[i]];
      values := values + [rev.value];
      i := i + 1;
    }
    assert data[..i] == data;
    var hrp := Lowered(s[..pos]);
    var check := PolyMod(Coefficients(hrp, values));
    if check == Bits(Constant(Plain)) {
      return Some(Text(Plain, hrp, values[..|values| - CHECKSUM_SIZE]));
    }
    if check == Bits(Constant(Modified)) {
      return Some(Text(Modified, hrp, values[..|values| - CHECKSUM_SIZE]));
    }
    r := None;
  }
}
