/**
 * The cuckoo cache: a table in which each element may stand in one of eight places, with flags for
 * entries that may be overwritten and for entries of the newest epoch.
 */
module CuckooCaches {
  import opened Arithmetic

  type Element = nat

  datatype Slot = Slot(element: Element, newest: bool, garbage: bool)

  // ---------------------------------------------------------------------------------------------
  // Places of an element

  const RANGE: nat := 0x1_0000_0000

  type Word = x: nat | x < 0x1_0000_0000

  /** Map a 32-bit hash to a place below `n`. */
  function FastRange(x: Word, n: nat): (r: nat)
    ensures n > 0 ==> r < n
  {
    RangeBound(x, n);
    (x * n) / RANGE
  }

  lemma RangeBound(x: Word, n: nat)
    ensures (x * n) / RANGE >= 0 && (n > 0 ==> (x * n) / RANGE < n)
  {
    assert x * n >= 0;
    if n > 0 {
      MulLess(x, RANGE, n);
    }
  }

  type Hasher = (nat, Element) -> Word

  /** The eight places of an element in a table of `n`. */
  function Places(hash: Hasher, e: Element, n: nat): (r: seq<nat>)
    ensures |r| == 8 && (n > 0 ==> forall k | 0 <= k < 8 :: r[k] < n)
  {
    [FastRange(hash(0, e), n), FastRange(hash(1, e), n), FastRange(hash(2, e), n), FastRange(hash(3, e), n),
     FastRange(hash(4, e), n), FastRange(hash(5, e), n), FastRange(hash(6, e), n), FastRange(hash(7, e), n)]
  }

  // ---------------------------------------------------------------------------------------------
  // What a table holds

  /** An entry that is kept, with its epoch. */
  datatype Live = Live(element: Element, newest: bool)

  function Counts(slot: Slot, x: Live): nat {
    if !slot.garbage && slot.element == x.element && slot.newest == x.newest then 1 else 0
  }

  /** How many times `x` is kept in the table. */
  function Copies(slots: seq<Slot>, x: Live): nat {
    if slots == [] then 0 else Copies(slots[..|slots| - 1], x) + Counts(slots[|slots| - 1], x)
  }

  /** Every entry that is kept stands in one of its element's places. */
  ghost predicate Placed(hash: Hasher, slots: seq<Slot>) {
    forall i | 0 <= i < |slots| && !slots[i].garbage :: i in Places(hash, slots[i].element, |slots|)
  }

  /** Whether a lookup of `e` succeeds: it does not look at the garbage flags. */
  ghost predicate Found(hash: Hasher, slots: seq<Slot>, e: Element) {
    exists i :: 0 <= i < |slots| && slots[i].element == e && i in Places(hash, e, |slots|)
  }

  lemma {:induction false} CopiesUpdate(slots: seq<Slot>, i: nat, slot: Slot, x: Live)
    requires i < |slots|
    ensures Copies(slots[i := slot], x) == Copies(slots, x) - Counts(slots[i], x) + Counts(slot, x)
    ensures Counts(slots[i], x) <= Copies(slots, x)
  {
    hide Counts;
    var n := |slots| - 1;
    if i < n {
      CopiesUpdate(slots[..n], i, slot, x);
      assert slots[i := slot][..n] == slots[..n][i := slot];
    } else {
      assert slots[i := slot][..n] == slots[..n];
    }
  }

  lemma {:induction false} CopyAt(slots: seq<Slot>, x: Live) returns (i: nat)
    requires Copies(slots, x) > 0
    ensures i < |slots| && Counts(slots[i], x) == 1
  {
    i := |slots| - 1;
    if Counts(slots[i], x) == 0 {
      i := CopyAt(slots[..i], x);
    }
  }

  /** What is kept is found. */
  lemma LiveIsFound(hash: Hasher, slots: seq<Slot>, x: Live)
    requires Placed(hash, slots) && Copies(slots, x) > 0
    ensures Found(hash, slots, x.element)
  {
    var i := CopyAt(slots, x);
  }

  /** What one insert does to what is kept, given the table after the epoch check. */
  datatype Outcome = Kept(place: nat) | Added | Dropped(lost: Live)

  function One(x: Live, y: Live): nat {
    if x == y then 1 else 0
  }

  /** `e` was there and is now of the newest epoch and kept; or it was added; or it was added and some
      entry, perhaps `e` itself, was lost.  Nothing else kept has changed. */
  ghost predicate Inserted(before: seq<Slot>, e: Element, after: seq<Slot>, outcome: Outcome) {
    match outcome
    case Kept(i) =>
      i < |before| && before[i].element == e && after == before[i := Slot(e, true, false)]
    case Added =>
      forall x: Live :: Copies(after, x) == Copies(before, x) + One(x, Live(e, true))
    case Dropped(lost) =>
      forall x: Live :: Copies(after, x) + One(x, lost) == Copies(before, x) + One(x, Live(e, true))
  }

  /** After an insert every element kept before is still found, except at most one; and the element
      inserted is found unless it is that one. */
  lemma InsertKeepsFound(hash: Hasher, before: seq<Slot>, e: Element, after: seq<Slot>, outcome: Outcome, x: Live)
    requires |before| == |after| && Placed(hash, before) && Placed(hash, after) && Inserted(before, e, after, outcome)
    ensures Copies(before, x) > 0 && !(outcome.Dropped? && outcome.lost == x) ==> Found(hash, after, x.element)
    ensures !(outcome.Dropped? && outcome.lost == Live(e, true)) ==> Found(hash, after, e)
  {
    hide Placed, Found, Copies, Counts;
    var y := Live(e, true);
    match outcome {
      case Kept(i) =>
        CopiesUpdate(before, i, Slot(e, true, false), x);
        CopiesUpdate(before, i, Slot(e, true, false), y);
        KeptCounts(before[i], e, x);
        LiveIsFound(hash, after, y);
        if Copies(after, x) > 0 {
          LiveIsFound(hash, after, x);
        }
      case Added =>
        if Copies(after, x) > 0 {
          LiveIsFound(hash, after, x);
        }
        LiveIsFound(hash, after, y);
      case Dropped(lost) =>
        if Copies(after, x) > 0 {
          LiveIsFound(hash, after, x);
        }
        if Copies(after, y) > 0 {
          LiveIsFound(hash, after, y);
        }
    }
  }

  lemma KeptCounts(slot: Slot, e: Element, x: Live)
    requires slot.element == e
    ensures Counts(Slot(e, true, false), Live(e, true)) == 1
    ensures Counts(slot, x) > 0 ==> x.element == e
  {
  }

  // ---------------------------------------------------------------------------------------------
  // The cache

  function Zip(table: seq<Element>, epochs: seq<bool>, flags: seq<bool>): (r: seq<Slot>)
    requires |table| == |epochs| == |flags|
    ensures |r| == |table| && forall i | 0 <= i < |r| :: r[i] == Slot(table[i], epochs[i], flags[i])
  {
    seq(|table|, i requires 0 <= i < |table| => Slot(table[i], epochs[i], flags[i]))
  }

  lemma ZipUpdate(table: seq<Element>, epochs: seq<bool>, flags: seq<bool>, i: nat, e: Element, newest: bool, garbage: bool)
    requires |table| == |epochs| == |flags| && i < |table|
    ensures Zip(table[i := e], epochs[i := newest], flags[i := garbage]) == Zip(table, epochs, flags)[i := Slot(e, newest, garbage)]
  {
  }

  /** The number of entries kept of the newest epoch. */
  function Newest(slots: seq<Slot>): nat {
    if slots == [] then 0
    else Newest(slots[..|slots| - 1]) + if slots[|slots| - 1].newest && !slots[|slots| - 1].garbage then 1 else 0
  }

  /** An old entry may now be overwritten, an entry of the newest epoch becomes old. */
  function Aged(slot: Slot): Slot {
    if slot.newest then slot.(newest := false) else slot.(garbage := true)
  }

  function Aging(slots: seq<Slot>): (r: seq<Slot>)
    ensures |r| == |slots| && forall i | 0 <= i < |r| :: r[i] == Aged(slots[i])
  {
    seq(|slots|, i requires 0 <= i < |slots| => Aged(slots[i]))
  }

  lemma {:induction false} AgingNewest(slots: seq<Slot>)
    requires forall i | 0 <= i < |slots| :: !slots[i].newest || slots[i].garbage
    ensures Newest(slots) == 0
  {
    if slots != [] {
      AgingNewest(slots[..|slots| - 1]);
    }
  }

  lemma AgingFacts(hash: Hasher, slots: seq<Slot>)
    requires Placed(hash, slots)
    ensures Placed(hash, Aging(slots)) && Newest(Aging(slots)) == 0
  {
    AgingNewest(Aging(slots));
    hide Places;
  }

  function IsNewest(slot: Slot): nat {
    if slot.newest && !slot.garbage then 1 else 0
  }

  lemma {:induction false} NewestUpdate(slots: seq<Slot>, i: nat, slot: Slot)
    requires i < |slots|
    ensures Newest(slots[i := slot]) == Newest(slots) - IsNewest(slots[i]) + IsNewest(slot)
  {
    var n := |slots| - 1;
    if i < n {
      NewestUpdate(slots[..n], i, slot);
      assert slots[i := slot][..n] == slots[..n][i := slot];
    } else {
      assert slots[i := slot][..n] == slots[..n];
    }
  }

  /** An element in hand, displaced from its entry, and the table without it. */
  ghost predicate InHand(start: seq<Slot>, e: Element, slots: seq<Slot>, hand: Live) {
    && |slots| == |start| && Newest(slots) + (if hand.newest then 1 else 0) == Newest(start) + 1
    && forall x: Live :: Copies(slots, x) + One(x, hand) == Copies(start, x) + One(x, Live(e, true))
  }

  /** Exchange the element in hand with a kept entry, or put it into one that may be overwritten. */
  lemma PutDown(hash: Hasher, start: seq<Slot>, e: Element, slots: seq<Slot>, hand: Live, i: nat)
    requires InHand(start, e, slots, hand) && Placed(hash, slots) && i < |slots| && i in Places(hash, hand.element, |slots|)
    ensures var r := slots[i := Slot(hand.element, hand.newest, false)];
            && Placed(hash, r)
            && (slots[i].garbage ==> Inserted(start, e, r, Added) && Newest(r) == Newest(start) + 1)
            && (!slots[i].garbage ==> InHand(start, e, r, Live(slots[i].element, slots[i].newest)))
  {
    hide Places;
    var slot := Slot(hand.element, hand.newest, false);
    var r := slots[i := slot];
    forall x: Live
      ensures Copies(r, x) == Copies(slots, x) - Counts(slots[i], x) + One(x, hand)
    {
      CopiesUpdate(slots, i, slot, x);
    }
    NewestUpdate(slots, i, slot);
    hide Copies, Newest;
  }

  lemma KeepFacts(hash: Hasher, start: seq<Slot>, e: Element, i: nat)
    requires Placed(hash, start) && i < |start| && start[i].element == e && i in Places(hash, e, |start|)
    ensures var r := start[i := Slot(e, true, false)];
            Placed(hash, r) && Inserted(start, e, r, Kept(i)) && Newest(r) <= Newest(start) + 1
  {
    hide Places;
    NewestUpdate(start, i, Slot(e, true, false));
  }

  lemma StartHand(start: seq<Slot>, e: Element)
    ensures InHand(start, e, start, Live(e, true))
  {
  }

  lemma DropHand(start: seq<Slot>, e: Element, slots: seq<Slot>, hand: Live)
    requires InHand(start, e, slots, hand)
    ensures Inserted(start, e, slots, Dropped(hand)) && Newest(slots) <= Newest(start) + 1
  {
  }

  lemma PlaceBelow(hash: Hasher, e: Element, n: nat, i: nat)
    requires n > 0 && i in Places(hash, e, n)
    ensures i < n
  {
    hide FastRange;
  }

  function IndexOf(locs: seq<nat>, x: int): (r: nat)
    ensures r <= |locs|
  {
    if locs == [] then 0 else if locs[0] == x then 0 else 1 + IndexOf(locs[1..], x)
  }

  class Cache {
    const hash: Hasher
    const size: nat
    const epochSize: nat
    const depthLimit: nat
    const table: array<Element>
    const epochs: array<bool>
    const flags: array<bool>
    var counter: nat

    ghost predicate Shaped()
      reads this
    {
      && size >= 2 && depthLimit >= 1 && epochSize >= 1
      && table.Length == epochs.Length == flags.Length == size
      && epochs != flags
    }

    function Slots(): (r: seq<Slot>)
      requires Shaped()
      reads this, table, epochs, flags
      ensures |r| == size
    {
      Zip(table[..], epochs[..], flags[..])
    }

    /** How far the newest epoch may grow beyond its size before that is noticed. */
    function Slack(): nat {
      Max(1, epochSize / 16)
    }

    ghost predicate Valid()
      reads this, table, epochs, flags
    {
      Shaped() && Placed(hash, Slots()) && Newest(Slots()) + counter <= epochSize + Slack()
    }

    /** A cache for at least two elements, all of whose entries may be overwritten. */
    constructor (hash: Hasher, newSize: nat, depth: nat)
      requires depth >= 1
      ensures Valid() && fresh(table) && fresh(epochs) && fresh(flags) && this.hash == hash && size == if newSize < 2 then 2 else newSize
      ensures forall i | 0 <= i < size :: Slots()[i].garbage
    {
      this.hash := hash;
      var n := if newSize < 2 then 2 else newSize;
      size := n;
      depthLimit := depth;
      epochSize := if 45 * n / 100 < 1 then 1 else 45 * n / 100;
      counter := if 45 * n / 100 < 1 then 1 else 45 * n / 100;
      table := new Element[n](_ => 0);
      epochs := new bool[n](_ => false);
      flags := new bool[n](_ => true);
      new;
      AgingNewest(Slots());
    }

    /** Write an entry. */
    method Write(i: nat, e: Element, newest: bool, garbage: bool)
      requires Shaped() && i < size
      modifies table, epochs, flags
      ensures Slots() == old(Slots())[i := Slot(e, newest, garbage)]
    {
      ZipUpdate(table[..], epochs[..], flags[..], i, e, newest, garbage);
      table[i] := e;
      epochs[i] := newest;
      flags[i] := garbage;
      assert table[..] == old(table[..])[i := e];
      assert epochs[..] == old(epochs[..])[i := newest];
      assert flags[..] == old(flags[..])[i := garbage];
    }

    /** Look an element up, letting its entry be overwritten if asked to. */
    method Contains(e: Element, erase: bool) returns (found: bool)
      requires Valid()
      modifies flags
      ensures Valid()
      ensures found <==> Found(hash, old(Slots()), e)
      ensures found <==> Found(hash, Slots(), e)
      ensures !found || !erase ==> Slots() == old(Slots())
      ensures found && erase ==>
                exists i :: 0 <= i < size && i in Places(hash, e, size) && Slots() == old(Slots())[i := old(Slots())[i].(garbage := true)]
    {
      hide FastRange;
      var locs := Places(hash, e, size);
      var k := 0;
      while k < 8
        invariant 0 <= k <= 8 && forall j | 0 <= j < k :: table[locs[j]] != e
      {
        if table[locs[k]] == e {
          found := true;
          ghost var i := locs[k];
          assert old(Slots())[i].element == e;
          if erase {
            NewestUpdate(Slots(), i, Slots()[i].(garbage := true));
            ZipUpdate(table[..], epochs[..], flags[..], locs[k], table[locs[k]], epochs[locs[k]], true);
            flags[locs[k]] := true;
            assert table[..] == old(table[..])[i := table[i]] && epochs[..] == old(epochs[..])[i := epochs[i]];
            assert flags[..] == old(flags[..])[i := true];
          }
          assert Slots()[i].element == e;
          return;
        }
        k := k + 1;
      }
      found := false;
    }

    method CountNewest() returns (n: nat)
      requires Shaped()
      ensures n == Newest(Slots())
    {
      n := 0;
      var i := 0;
      ghost var s := Slots();
      while i < size
        invariant 0 <= i <= size && n == Newest(s[..i])
      {
        assert s[..i + 1][..i] == s[..i];
        if epochs[i] && !flags[i] {
          n := n + 1;
        }
        i := i + 1;
      }
      assert s[..i] == s;
    }

    method Age()
      requires Shaped()
      modifies epochs, flags
      ensures Slots() == Aging(old(Slots()))
    {
      ghost var s := Slots();
      var i := 0;
      while i < size
        invariant 0 <= i <= size
        invariant forall j | 0 <= j < size :: Slot(table[j], epochs[j], flags[j]) == if j < i then Aged(s[j]) else s[j]
      {
        if epochs[i] {
          epochs[i] := false;
        } else {
          flags[i] := true;
        }
        i := i + 1;
      }
    }

    /** Before an insert: every so often see whether the newest epoch is full, and start a new one. */
    method EpochCheck()
      requires Valid()
      modifies this`counter, epochs, flags
      ensures Shaped() && Placed(hash, Slots())
      ensures Newest(Slots()) + counter + 1 <= epochSize + Slack()
      ensures Slots() == old(Slots()) || (Slots() == Aging(old(Slots())) && old(Newest(Slots())) >= epochSize)
    {
      hide Placed, Newest, Aging;
      if counter != 0 {
        counter := counter - 1;
        return;
      }
      var unused := CountNewest();
      if unused >= epochSize {
        AgingFacts(hash, Slots());
        Age();
        counter := epochSize;
      } else {
        counter := Max(1, Max(epochSize / 16, epochSize - unused));
      }
    }

    /** The first place of `e` where it stands, or `size` if it is nowhere. */
    method FindPlace(e: Element) returns (p: nat)
      requires Shaped()
      ensures p <= size && (p < size ==> p in Places(hash, e, size) && Slots()[p].element == e)
      ensures p == size <==> !Found(hash, Slots(), e)
    {
      hide FastRange;
      var locs := Places(hash, e, size);
      var k := 0;
      while k < 8
        invariant 0 <= k <= 8 && forall j | 0 <= j < k :: table[locs[j]] != e
      {
        if table[locs[k]] == e {
          assert Slots()[locs[k]].element == e;
          return locs[k];
        }
        k := k + 1;
      }
      p := size;
    }

    /** The first place of `e` whose entry may be overwritten, or `size` if there is none. */
    method FindFree(e: Element) returns (p: nat)
      requires Shaped()
      ensures p <= size && (p < size ==> p in Places(hash, e, size) && Slots()[p].garbage)
      ensures p == size ==> forall i | i in Places(hash, e, size) :: i < size && !Slots()[i].garbage
    {
      hide FastRange;
      var locs := Places(hash, e, size);
      var k := 0;
      while k < 8
        invariant 0 <= k <= 8 && forall j | 0 <= j < k :: !flags[locs[j]]
      {
        if flags[locs[k]] {
          return locs[k];
        }
        k := k + 1;
      }
      p := size;
    }

    /** The next place to look at after `last`, which may be none of the eight. */
    function NextPlace(locs: seq<nat>, last: int): (r: nat)
      requires |locs| == 8
      ensures r in locs
    {
      locs[(1 + IndexOf(locs, last)) % 8]
    }

    /** Insert an element, moving others to another of their places while there is no entry free to
        overwrite, and giving up after a number of moves. */
    method Insert(e: Element) returns (ghost start: seq<Slot>, ghost outcome: Outcome)
      requires Valid()
      modifies this`counter, table, epochs, flags
      ensures Valid()
      ensures start == old(Slots()) || (start == Aging(old(Slots())) && old(Newest(Slots())) >= epochSize)
      ensures Placed(hash, start) && Inserted(start, e, Slots(), outcome)
    {
      hide FastRange, Placed, Found, Copies, Newest, InHand, Places;
      EpochCheck();
      start := Slots();
      ghost var c := counter;
      var place := FindPlace(e);
      if place < size {
        Write(place, e, true, false);
        KeepFacts(hash, start, e, place);
        return start, Kept(place);
      }
      var held, lastEpoch, last := e, true, -1;
      StartHand(start, e);
      var depth := 0;
      while depth < depthLimit
        invariant counter == c && Shaped() && Placed(hash, Slots()) && InHand(start, e, Slots(), Live(held, lastEpoch))
      {
        var free := FindFree(held);
        if free < size {
          PutDown(hash, start, e, Slots(), Live(held, lastEpoch), free);
          Write(free, held, lastEpoch, false);
          return start, Added;
        }
        last := NextPlace(Places(hash, held, size), last);
        PlaceBelow(hash, held, size, last);
        PutDown(hash, start, e, Slots(), Live(held, lastEpoch), last);
        var displaced, epoch := table[last], epochs[last];
        Write(last, held, lastEpoch, false);
        held, lastEpoch := displaced, epoch;
        depth := depth + 1;
      }
      DropHand(start, e, Slots(), Live(held, lastEpoch));
      outcome := Dropped(Live(held, lastEpoch));
    }
  }
}
