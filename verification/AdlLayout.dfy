/** Offsets and sizes of the members of a struct, in 64-bit arithmetic. */
module AdlLayout {
  import opened Options
  import opened Bits

  const WORD_LIMIT: nat := 0x1_0000_0000_0000_0000

  function Wrap(x: int): (r: nat)
    ensures r < WORD_LIMIT && (0 <= x < WORD_LIMIT ==> r == x)
    ensures WORD_LIMIT <= x < 2 * WORD_LIMIT ==> r == x - WORD_LIMIT
    ensures x < 0 && x + WORD_LIMIT >= 0 ==> r == x + WORD_LIMIT
  {
    x % WORD_LIMIT
  }

  /** x & ~m */
  function Clear(x: nat, m: nat): nat
    decreases x
  {
    if x == 0 then 0 else (if m % 2 == 1 then 0 else x % 2) + 2 * Clear(x / 2, m / 2)
  }

  /** x & m */
  function And(x: nat, m: nat): nat
    decreases x
  {
    if x == 0 then 0 else (if m % 2 == 1 then x % 2 else 0) + 2 * And(x / 2, m / 2)
  }

  lemma {:induction false} ClearAndKeep(x: nat, m: nat)
    ensures Clear(x, m) + And(x, m) == x && And(x, m) <= m
    decreases x
  {
    if x > 0 {
      ClearAndKeep(x / 2, m / 2);
    }
  }

  lemma {:induction false} ClearLow(x: nat, k: nat)
    ensures Clear(x, Pow2(k) - 1) == x - Low(x, k)
    decreases k
  {
    if k == 0 {
      ClearNone(x);
    } else if x == 0 {
      ZeroLow(k);
    } else {
      ClearLow(x / 2, k - 1);
      OnesHalved(Pow2(k - 1));
    }
  }

  lemma OnesHalved(p: nat)
    requires p > 0
    ensures (2 * p - 1) / 2 == p - 1 && (2 * p - 1) % 2 == 1
  {
  }

  lemma {:induction false} ClearNone(x: nat)
    ensures Clear(x, 0) == x
    decreases x
  {
    if x > 0 {
      ClearNone(x / 2);
    }
  }

  lemma {:induction false} ZeroLow(k: nat)
    ensures Low(0, k) == 0
  {
    if k > 0 {
      ZeroLow(k - 1);
    }
  }

  /** An all-ones mask clears every word. */
  lemma {:induction false} ClearWord(x: nat)
    requires x < WORD_LIMIT
    ensures Clear(x, WORD_LIMIT - 1) == 0
  {
    Powers();
    hide Pow2;
    ClearLow(x, 64);
    SmallShiftsOut(x, 64);
    ShiftAndMask(x, 64);
  }

  // ---------- Alignment ----------

  function Room(align: nat, unit: nat): nat {
    if align < unit then align else unit
  }

  /** Where a member of that element size goes, when the struct is `size` long so far. */
  function Aligned(size: nat, align: nat, unit: nat): nat {
    if align > 1 then
      var m := Wrap(Room(align, unit) - 1);
      Clear(Wrap(size + m), m)
    else size
  }

  /** Aligning never runs past the word limit, and never clears the size because of an empty element. */
  predicate CanAlign(size: nat, align: nat, unit: nat) {
    align > 1 ==> (unit == 0 ==> size == 0) && size + Room(align, unit) <= WORD_LIMIT
  }

  /** Aligning moves forward exactly then. */
  lemma {:induction false} AlignedIsForward(size: nat, align: nat, unit: nat)
    requires size < WORD_LIMIT && align <= 16
    ensures Aligned(size, align, unit) >= size <==> CanAlign(size, align, unit)
    ensures Aligned(size, align, unit) < WORD_LIMIT
  {
    if align > 1 {
      hide Wrap, Clear;
      var m := Wrap(Room(align, unit) - 1);
      ClearAndKeep(Wrap(size + m), m);
      if unit == 0 {
        AlignedEmpty(size, align);
      }
    }
  }

  /** An element of size zero aligns to the start. */
  lemma {:induction false} AlignedEmpty(size: nat, align: nat)
    requires align > 1
    ensures Aligned(size, align, 0) == 0
  {
    hide Wrap, Clear;
    ClearWord(Wrap(size + (WORD_LIMIT - 1)));
  }

  /** With a power of two, the offset is the first multiple of it from the size on. */
  lemma {:induction false} AlignedIsLeast(size: nat, align: nat, unit: nat, k: nat)
    requires align > 1 && Room(align, unit) == Pow2(k) && size < WORD_LIMIT && CanAlign(size, align, unit)
    requires Room(align, unit) <= 16
    ensures exists q: nat :: Aligned(size, align, unit) == q * Pow2(k)
    ensures size <= Aligned(size, align, unit) < size + Pow2(k)
  {
    var m := Pow2(k) - 1;
    assert Wrap(size + m) == size + m && Wrap(m) == m;
    ClearLow(size + m, k);
    ShiftAndMask(size + m, k);
    assert Aligned(size, align, unit) == Shr(size + m, k) * Pow2(k);
  }

  // ---------- Laying out members ----------

  datatype Step = Put(unit: nat, count: nat) | Pad(at: nat)

  /** Where a member lies. */
  datatype Slot = Slot(offset: nat, unit: nat, count: nat)

  datatype Layout = Layout(slots: seq<Slot>, size: nat)

  function End(s: Slot): nat {
    s.offset + s.unit * s.count
  }

  /** The layout after one more member; None when padding would go back. */
  function After(l: Layout, align: nat, s: Step): Option<Layout> {
    match s
    case Put(unit, count) =>
      var offset := Aligned(l.size, align, unit);
      Some(Layout(l.slots + [Slot(offset, unit, count)], Wrap(offset + Wrap(unit * count))))
    case Pad(at) =>
      if at < l.size then None else Some(Layout(l.slots + [Slot(at, 0, 0)], at))
  }

  function Lay(steps: seq<Step>, align: nat): Option<Layout> {
    if steps == [] then Some(Layout([], 0)) else
      var l := Lay(steps[..|steps| - 1], align);
      if l.None? then None else After(l.value, align, steps[|steps| - 1])
  }

  /** Members do not overlap, lie in order, and end within the size. */
  ghost predicate Ordered(slots: seq<Slot>, size: nat) {
    && (forall i, j :: 0 <= i < j < |slots| ==> End(slots[i]) <= slots[j].offset)
    && (forall i :: 0 <= i < |slots| ==> End(slots[i]) <= size)
  }

  /** The guard for one member: no empty element behind others when aligning, and no overflow. */
  predicate Steady(l: Layout, align: nat, s: Step) {
    s.Put? ==> CanAlign(l.size, align, s.unit) && Aligned(l.size, align, s.unit) + s.unit * s.count < WORD_LIMIT
  }

  predicate AllSteady(steps: seq<Step>, align: nat)
    requires Lay(steps, align).Some?
  {
    steps == [] || (AllSteady(steps[..|steps| - 1], align) &&
      Steady(Lay(steps[..|steps| - 1], align).value, align, steps[|steps| - 1]))
  }

  ghost predicate Overlaps(slots: seq<Slot>) {
    || (exists i, j :: 0 <= i < j < |slots| && End(slots[i]) > slots[j].offset)
    || (exists i :: 0 <= i < |slots| && End(slots[i]) >= WORD_LIMIT)
  }

  predicate Pads(steps: seq<Step>) {
    forall i :: 0 <= i < |steps| && steps[i].Pad? ==> steps[i].at < WORD_LIMIT
  }

  /** Steady layouts are packed up to the size; in any other, members overlap or overflow. */
  lemma {:induction false} SteadyOrOverlapping(steps: seq<Step>, align: nat)
    requires align <= 16 && Pads(steps) && Lay(steps, align).Some?
    ensures var l := Lay(steps, align).value;
      l.size < WORD_LIMIT && |l.slots| == |steps| &&
      (if AllSteady(steps, align)
        then Ordered(l.slots, l.size) && l.size == (if steps == [] then 0 else End(l.slots[|steps| - 1]))
       else Overlaps(l.slots))
  {
    if steps != [] {
      var front, s := steps[..|steps| - 1], steps[|steps| - 1];
      SteadyOrOverlapping(front, align);
      var l := Lay(front, align).value;
      if s.Put? {
        AlignedIsForward(l.size, align, s.unit);
      }
      if AllSteady(front, align) {
        StepFromOrdered(l, align, s);
      } else {
        OverlapStays(l.slots, After(l, align, s).value.slots);
      }
    }
  }

  lemma {:induction false} StepFromOrdered(l: Layout, align: nat, s: Step)
    requires Ordered(l.slots, l.size) && l.size < WORD_LIMIT
    requires l.size == (if l.slots == [] then 0 else End(l.slots[|l.slots| - 1]))
    requires After(l, align, s).Some? && (s.Pad? ==> s.at < WORD_LIMIT) && align <= 16
    requires s.Put? ==> (Aligned(l.size, align, s.unit) >= l.size <==> CanAlign(l.size, align, s.unit))
    ensures After(l, align, s).value.size < WORD_LIMIT
    ensures Steady(l, align, s) ==>
      var r := After(l, align, s).value; Ordered(r.slots, r.size) && r.size == End(r.slots[|r.slots| - 1])
    ensures !Steady(l, align, s) ==> Overlaps(After(l, align, s).value.slots)
  {
    hide Aligned, CanAlign, Wrap, End, Ordered;
    var r, n := After(l, align, s).value, |l.slots|;
    EndOf(r.slots[n]);
    if Steady(l, align, s) {
      OrderedThen(l.slots, l.size, r.slots[n]);
    } else if Aligned(l.size, align, s.unit) < l.size {
      assert r.slots[n - 1] == l.slots[n - 1] && End(r.slots[n - 1]) > r.slots[n].offset;
    } else {
      assert End(r.slots[n]) >= WORD_LIMIT;
    }
  }

  lemma EndOf(s: Slot)
    ensures End(s) == s.offset + s.unit * s.count
  {
  }

  lemma {:induction false} OrderedThen(slots: seq<Slot>, size: nat, s: Slot)
    requires Ordered(slots, size) && s.offset >= size
    ensures Ordered(slots + [s], End(s))
  {
    var all := slots + [s];
    assert End(s) >= s.offset;
    hide End;
    assert forall i :: 0 <= i < |slots| ==> all[i] == slots[i];
  }

  lemma {:induction false} OverlapStays(a: seq<Slot>, b: seq<Slot>)
    requires Overlaps(a) && |a| <= |b| && b[..|a|] == a
    ensures Overlaps(b)
  {
    if i, j :| 0 <= i < j < |a| && End(a[i]) > a[j].offset {
      assert b[i] == a[i] && b[j] == a[j];
    } else {
      var i :| 0 <= i < |a| && End(a[i]) >= WORD_LIMIT;
      assert b[i] == a[i];
    }
  }

  /** The members of a struct are disjoint and within its final size exactly if every member
      was steady. */
  lemma {:induction false} OrderedIffSteady(steps: seq<Step>, align: nat, size: nat)
    requires align <= 16 && Pads(steps) && Lay(steps, align).Some? && Lay(steps, align).value.size <= size < WORD_LIMIT
    ensures Ordered(Lay(steps, align).value.slots, size) <==> AllSteady(steps, align)
  {
    SteadyOrOverlapping(steps, align);
  }

  /** After an empty element, an aligned struct starts again at zero, over its first members. */
  lemma {:induction false} EmptyElementResets(l: Layout, align: nat, empty: nat, unit: nat, count: nat)
    requires 1 < align <= 16
    ensures var l1 := After(l, align, Put(0, empty)).value;
      l1.size == 0 && After(l1, align, Put(unit, count)).value.slots[|l.slots| + 1].offset == 0
  {
    hide Clear;
    AlignedEmpty(l.size, align);
    AlignedEmpty(0, align);
    ClearSame(Room(align, unit) - 1);
  }

  lemma {:induction false} ClearSame(m: int)
    ensures m >= 0 ==> Clear(m, m) == 0
    decreases m
  {
    if m > 0 {
      ClearSame(m / 2);
    }
  }
}
