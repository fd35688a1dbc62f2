/** What an accepted source file means for the type table, said of its definitions. */
module AdlFacts {
  import opened Options
  import Bytes
  import opened Bits
  import opened AdlLayout
  import opened AdlTypes
  import opened AdlDefine

  // ---------- Names, sizes and bounds ----------

  /** The name stands for id, directly or as a typedef. */
  predicate Named(t: Tables, name: string, id: TypeId) {
    name in t.names && !id.TypeDef? &&
    match t.names[name]
    case TypeDef(k) => k in t.typedefs && t.typedefs[k] == id
    case direct => direct == id
  }

  predicate SizeIs(t: Tables, id: TypeId, n: nat) {
    match id
    case Default(b) => BasicSizeIs(b, n)
    case EnumType(k) => k in t.enums && t.enums[k].base.Default? && BasicSizeIs(t.enums[k].base.basic, n)
    case StructType(k) => k in t.structs && t.structs[k].size == n
    case CustomType(k) => k in t.customs && t.customs[k] == n
    case _ => false
  }

  predicate BasicSizeIs(b: Basic, n: nat) {
    || (b in {Int8, UInt8} && n == 1)
    || (b in {Int16, UInt16} && n == 2)
    || (b in {Int32, UInt32, Float} && n == 4)
    || (b in {Int64, UInt64, Double, Text, HashValue} && n == 8)
    || (b == Padding && n == 0)
  }

  predicate InBounds(b: Basic, v: int) {
    || (b == Int8 && -0x80 <= v <= 0x7f) || (b == UInt8 && 0 <= v <= 0xff)
    || (b == Int16 && -0x8000 <= v <= 0x7fff) || (b == UInt16 && 0 <= v <= 0xffff)
    || (b == Int32 && -0x8000_0000 <= v <= 0x7fff_ffff) || (b == UInt32 && 0 <= v <= 0xffff_ffff)
    || (b == Int64 && -0x8000_0000_0000_0000 <= v <= 0x7fff_ffff_ffff_ffff)
    || (b == UInt64 && 0 <= v <= 0x7fff_ffff_ffff_ffff)
  }

  lemma {:induction false} NamedIs(t: Tables, name: string, id: TypeId)
    requires NamesFine(t) && TypesFine(t)
    ensures Named(t, name, id) <==> IdOf(t, name) == id && !id.Unknown?
  {
    if name in t.names {
      assert Known(t, t.names[name]);
    }
  }

  lemma {:induction false} SizeOfIs(t: Tables, id: TypeId)
    requires TypesFine(t) && Known(t, id) && !id.TypeDef?
    ensures SizeIs(t, id, SizeOf(t, id))
  {
    if id.EnumType? {
      assert EnumFine(t.enums[id.n]);
    }
  }

  lemma {:induction false} BoundsAre(b: Basic, v: int)
    ensures IsInt(b) && Fits(b, v) <==> InBounds(b, v)
  {
    Bytes.Limits();
    hide Bytes.Limit;
  }

  /** Clearing a mask clears its bits and keeps the others. */
  lemma {:induction false} ClearBit(x: nat, m: nat, k: nat)
    ensures Shr(Clear(x, m), k) % 2 == if Shr(m, k) % 2 == 1 then 0 else Shr(x, k) % 2
    decreases k
  {
    if k > 0 {
      assert Clear(x, m) / 2 == Clear(x / 2, m / 2);
      ClearBit(x / 2, m / 2, k - 1);
    }
  }

  // ---------- The layout of a struct ----------

  /** Where the members before i end. */
  function EndBefore(fs: seq<Field>, i: nat): nat
    requires i <= |fs|
  {
    if i == 0 then 0 else (fs[i - 1].offset + fs[i - 1].elemSize) % 0x1_0000_0000_0000_0000
  }

  /** Without alignment a member lies at the end. Otherwise the end is rounded up by the smaller
      of alignment and size of an element, in 64 bits: for powers of two to the next multiple. */
  predicate AlignedAt(end: nat, align: nat, unit: nat, offset: nat) {
    if align <= 1 then offset == end
    else if unit == 0 then offset == 0
    else
      var room := if align < unit then align else unit;
      && offset == Clear((end + (room - 1)) % 0x1_0000_0000_0000_0000, room - 1)
      && (room in {1, 2, 4, 8, 16} && end + room <= 0x1_0000_0000_0000_0000 ==>
            offset % room == 0 && end <= offset < end + room)
  }

  predicate FieldPacked(t: Tables, align: nat, end: nat, f: Field) {
    if f.type_ == Default(Padding) then f.offset >= end && f.elemSize == 0
    else
      var unit := if f.pointer then 8 else SizeOf(t, f.type_);
      && (f.pointer || SizeIs(t, f.type_, unit))
      && f.elemSize == unit * f.count % 0x1_0000_0000_0000_0000 && AlignedAt(end, align, unit, f.offset)
  }

  predicate AllPacked(t: Tables, align: nat, fs: seq<Field>) {
    forall i :: 0 <= i < |fs| ==> FieldPacked(t, align, EndBefore(fs, i), fs[i])
  }

  /** Each member lies behind those before it, and the struct ends with the last or is larger. */
  predicate Packed(t: Tables, s: Struct) {
    && AllPacked(t, s.align, s.fields)
    && if s.forced > 0 then EndBefore(s.fields, |s.fields|) <= s.forced == s.size
       else s.size == EndBefore(s.fields, |s.fields|)
  }

  lemma {:induction false} AlignedIsAt(end: nat, align: nat, unit: nat)
    requires end < WORD_LIMIT && align <= 16
    ensures AlignedAt(end, align, unit, Aligned(end, align, unit))
  {
    if align > 1 {
      var room := Room(align, unit);
      if unit == 0 {
        AlignedEmpty(end, align);
      } else if room in {1, 2, 4, 8, 16} && end + room <= WORD_LIMIT {
        PowersOfTwo();
        var k: nat :=
          if room == 1 then 0 else if room == 2 then 1 else if room == 4 then 2 else if room == 8 then 3 else 4;
        AlignedIsLeast(end, align, unit, k);
        var q: nat :| Aligned(end, align, unit) == q * Pow2(k);
        MultipleOf(q, room);
      }
    }
  }

  lemma PowersOfTwo()
    ensures Pow2(0) == 1 && Pow2(1) == 2 && Pow2(2) == 4 && Pow2(3) == 8 && Pow2(4) == 16
  {
  }

  lemma {:induction false} MultipleOf(q: nat, room: nat)
    requires room in {1, 2, 4, 8, 16}
    ensures q * room % room == 0
  {
    if room == 1 {
    } else if room == 2 {
      assert q * room == 2 * q;
    } else if room == 4 {
      assert q * room == 4 * q;
    } else if room == 8 {
      assert q * room == 8 * q;
    } else {
      assert q * room == 16 * q;
    }
  }

  lemma NothingLaid(t: Tables, align: nat, laid: nat)
    requires LaidOut(t, align, Partial([], laid))
    ensures laid == 0
  {
  }

  lemma {:induction false} PackedThen(t: Tables, align: nat, fs: seq<Field>)
    requires fs != [] && AllPacked(t, align, fs[..|fs| - 1])
    requires FieldPacked(t, align, EndBefore(fs[..|fs| - 1], |fs| - 1), fs[|fs| - 1])
    ensures AllPacked(t, align, fs)
  {
    hide FieldPacked;
    var front := fs[..|fs| - 1];
    forall i | 0 <= i < |fs| ensures FieldPacked(t, align, EndBefore(fs, i), fs[i]) {
      assert EndBefore(front, i) == EndBefore(fs, i);
      if i < |front| {
        assert front[i] == fs[i];
      }
    }
  }

  /** What is laid out is packed. */
  lemma {:induction false} LaidOutPacked(t: Tables, own: nat, align: nat, fs: seq<Field>, laid: nat)
    requires TypesFine(t) && FieldsFine(t, own, fs) && LaidOut(t, align, Partial(fs, laid)) && align <= 16
    ensures AllPacked(t, align, fs) && EndBefore(fs, |fs|) == laid
    decreases |fs|
  {
    hide TypesFine, FieldsFine, LaidOut, FieldPacked, After, StepOf, SlotsOf;
    if fs == [] {
      NothingLaid(t, align, laid);
    }
    if fs != [] {
      var front, f := fs[..|fs| - 1], fs[|fs| - 1];
      var size := FrontLaidOut(t, own, align, fs, laid);
      LaidOutPacked(t, own, align, front, size);
      LastPacked(t, own, align, fs, size, laid);
      PackedThen(t, align, fs);
    }
  }

  lemma {:induction false} FrontLaidOut(t: Tables, own: nat, align: nat, fs: seq<Field>, laid: nat)
    returns (size: nat)
    requires fs != [] && FieldsFine(t, own, fs) && LaidOut(t, align, Partial(fs, laid)) && align <= 16
    ensures FieldsFine(t, own, fs[..|fs| - 1]) && LaidOut(t, align, Partial(fs[..|fs| - 1], size))
    ensures After(Layout(SlotsOf(t, fs[..|fs| - 1]), size), align, StepOf(t, fs[|fs| - 1])).Some?
    ensures After(Layout(SlotsOf(t, fs[..|fs| - 1]), size), align, StepOf(t, fs[|fs| - 1])).value ==
      Layout(SlotsOf(t, fs), laid)
  {
    var front, f := fs[..|fs| - 1], fs[|fs| - 1];
    var steps := StepsOf(t, fs);
    assert steps[..|steps| - 1] == StepsOf(t, front);
    var l := Lay(StepsOf(t, front), align).value;
    size := l.size;
    assert |After(l, align, StepOf(t, f)).value.slots| == |l.slots| + 1;
    assert l.slots == SlotsOf(t, fs)[..|fs| - 1] == SlotsOf(t, front);
    LaySize(StepsOf(t, front), align);
  }

  lemma {:induction false} LaySize(steps: seq<Step>, align: nat)
    requires Lay(steps, align).Some?
    requires forall i :: 0 <= i < |steps| && steps[i].Pad? ==> steps[i].at < WORD_LIMIT
    ensures Lay(steps, align).value.size < WORD_LIMIT
  {
  }

  lemma {:induction false} LastSlot(t: Tables, align: nat, fs: seq<Field>, size: nat, laid: nat)
    requires fs != []
    requires After(Layout(SlotsOf(t, fs[..|fs| - 1]), size), align, StepOf(t, fs[|fs| - 1])) ==
      Some(Layout(SlotsOf(t, fs), laid))
    ensures var f := fs[|fs| - 1];
      if f.type_ == Default(Padding) then size <= f.offset == laid
      else
        var unit := UnitOf(t, f.type_, f.pointer);
        f.offset == Aligned(size, align, unit) && laid == Wrap(f.offset + Wrap(unit * f.count))
  {
    hide Aligned, UnitOf, Wrap;
    assert SlotsOf(t, fs)[|fs| - 1] == SlotOf(t, fs[|fs| - 1]);
  }

  lemma WrapIs(x: int)
    ensures Wrap(x) == x % 0x1_0000_0000_0000_0000
  {
  }

  lemma {:induction false} LastPacked(t: Tables, own: nat, align: nat, fs: seq<Field>, size: nat, laid: nat)
    requires fs != [] && TypesFine(t) && FieldsFine(t, own, fs) && align <= 16 && size < WORD_LIMIT
    requires After(Layout(SlotsOf(t, fs[..|fs| - 1]), size), align, StepOf(t, fs[|fs| - 1])) ==
      Some(Layout(SlotsOf(t, fs), laid))
    ensures FieldPacked(t, align, size, fs[|fs| - 1]) && EndBefore(fs, |fs|) == laid
  {
    var f := fs[|fs| - 1];
    LastSlot(t, align, fs, size, laid);
    assert FieldFine(t, own, f);
    hide TypesFine, FieldsFine, After, StepOf, SlotsOf, Aligned, SizeOf, AlignedAt, SizeIs, Wrap, Known;
    if f.type_ != Default(Padding) {
      var unit := UnitOf(t, f.type_, f.pointer);
      WrapIs(unit * f.count);
      WrapIs(f.offset + f.elemSize);
      AlignedIsAt(size, align, unit);
      if !f.pointer {
        SizeOfIs(t, f.type_);
      }
    } else {
      WrapIs(f.offset);
    }
  }

  /** Every finished struct is packed. */
  lemma {:induction false} FinePacked(t: Tables, n: nat)
    requires Fine(t) && n in t.structs
    ensures Packed(t, t.structs[n])
  {
    assert n != 0;
    assert StructFine(t, n);
    var s := t.structs[n];
    var laid: nat :| Sized(t, s, laid);
    hide LaidOut, FieldsFine, TypesFine, AllPacked;
    LaidOutPacked(t, n, s.align, s.fields, laid);
  }
}
