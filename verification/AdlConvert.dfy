/** Writing enumeration members of a struct into its block. */
module AdlConvert {
  import opened Options
  import opened Bytes
  import opened AdlLayout
  import opened AdlTypes

  // ---------- Integers in bytes ----------

  /** v in w bytes, in two's complement. */
  function IntBytes(v: int, w: nat): (r: seq<Byte>)
    ensures |r| == w
  {
    ToBytes(v % Limit(w), w)
  }

  function ReadInt(s: seq<Byte>, b: Basic): int {
    var v := FromBytes(s);
    if IsUnsigned(b) || v < Limit(|s|) / 2 then v else v - Limit(|s|)
  }

  /** The integer of these bytes: congruent to the unsigned number, and within the type's range. */
  lemma {:induction false} ReadIntIs(s: seq<Byte>, b: Basic, v: int)
    requires IsInt(b) && |s| == DefaultSize(b)
    requires v % Limit(|s|) == FromBytes(s)
    requires
      match b
      case UInt8 | UInt16 | UInt32 | UInt64 => 0 <= v < Limit(|s|)
      case _ => -(Limit(|s|) / 2) <= v < Limit(|s|) / 2
    ensures ReadInt(s, b) == v
  {
    Limits();
    var m := Limit(|s|);
    hide Limit, FromBytes;
    Residue(v, m);
  }

  /** A value within the bounds of an enumeration reads back under its base type. */
  lemma {:induction false} ValueSurvives(b: Basic, v: int)
    requires IsInt(b) && Fits(b, v)
    ensures ReadInt(IntBytes(v, DefaultSize(b)), b) == v
  {
    var w := DefaultSize(b);
    Limits();
    hide Limit, ToBytes, FromBytes;
    WriteThenRead(v % Limit(w), w);
    Residue(v, Limit(w));
  }

  lemma Residue(v: int, m: nat)
    requires m > 0 && v < m && v + m >= 0
    ensures v % m == if v >= 0 then v else v + m
  {
  }

  /** The bounds are exact: no other value of a base type below 64 bits reads back. */
  lemma {:induction false} OnlyFittingValuesSurvive(b: Basic, v: int)
    requires IsInt(b) && DefaultSize(b) < 8 && ReadInt(IntBytes(v, DefaultSize(b)), b) == v
    ensures Fits(b, v)
  {
    var w := DefaultSize(b);
    Limits();
    FromBytesBound(IntBytes(v, w));
  }

  // ---------- One key of the source object ----------

  datatype Json = Text(text: string) | Other

  datatype Effect = Fails | Nothing | Writes(offset: nat, value: int, basic: Basic)

  /** The first place of a name. */
  function IndexOf(names: seq<string>, name: string): (r: Option<nat>)
    ensures r.Some? ==> r.value < |names| && names[r.value] == name && name !in names[..r.value]
    ensures r.None? ==> name !in names
  {
    if names == [] then None
    else if names[0] == name then Some(0)
    else var r := IndexOf(names[1..], name); if r.None? then None else Some(r.value + 1)
  }

  function FieldNames(fs: seq<Field>): (r: seq<string>)
    ensures |r| == |fs| && forall i :: 0 <= i < |r| ==> r[i] == fs[i].name
  {
    seq(|fs|, i requires 0 <= i < |fs| => fs[i].name)
  }

  function FirstField(fs: seq<Field>, name: string): (r: Option<nat>)
    ensures r.Some? ==> r.value < |fs| && fs[r.value].name == name
  {
    IndexOf(FieldNames(fs), name)
  }

  function ValueNames(e: Enumeration): (r: seq<string>)
    ensures |r| == |e.fields| && forall i :: 0 <= i < |r| ==> r[i] == e.fields[i].name
  {
    seq(|e.fields|, i requires 0 <= i < |e.fields| => e.fields[i].name)
  }

  /** What a key does to the block: an enumeration member must be given by name. */
  function EffectOf(t: Tables, s: Struct, key: string, v: Json): Effect {
    var i := FirstField(s.fields, key);
    if i.None? || !s.fields[i.value].type_.EnumType? then Nothing else
      var f := s.fields[i.value];
      if f.type_.n !in t.enums || !t.enums[f.type_.n].base.Default? || !v.Text? then Fails else
        var e := t.enums[f.type_.n];
        var k := IndexOf(ValueNames(e), v.text);
        if k.None? then Nothing else Writes(f.offset, e.fields[k.value].value, e.base.basic)
  }

  ghost predicate AllLaid(t: Tables, s: Struct) {
    Lay(StepsOf(t, s.fields), s.align).Some? && AllSteady(StepsOf(t, s.fields), s.align)
  }

  /** In a finished struct, members are disjoint and inside the size exactly if each was steady. */
  lemma {:induction false} StructIsOrdered(t: Tables, own: nat)
    requires Fine(t) && own in t.structs
    ensures var s := t.structs[own]; Ordered(SlotsOf(t, s.fields), s.size) <==> AllLaid(t, s)
  {
    assert own != 0 by { FineStructs(t); }
    var s := t.structs[own];
    var laid: nat :| Sized(t, s, laid);
    var steps := StepsOf(t, s.fields);
    forall i | 0 <= i < |steps| && steps[i].Pad?
      ensures steps[i].at < WORD_LIMIT
    {
      assert FieldFine(t, own, s.fields[i]);
    }
    OrderedIffSteady(steps, s.align, s.size);
  }

  lemma FineStructs(t: Tables)
    requires Fine(t)
    ensures 0 !in t.structs
  {
  }

  /** An enumeration member has an element, and its type is well formed if there is one. */
  predicate EnumReady(t: Tables, f: Field) {
    f.type_.EnumType? ==> f.count >= 1 && (f.type_.n in t.enums ==> EnumFine(t.enums[f.type_.n]))
  }

  /** A struct whose members lie in order within its size. */
  ghost predicate Ready(t: Tables, s: Struct) {
    Ordered(SlotsOf(t, s.fields), s.size) && forall i :: 0 <= i < |s.fields| ==> EnumReady(t, s.fields[i])
  }

  /** Every finished struct is ready whose members are steady and have elements. */
  lemma {:induction false} FineIsReady(t: Tables, own: nat)
    requires Fine(t) && own in t.structs && AllLaid(t, t.structs[own])
    requires forall i :: 0 <= i < |t.structs[own].fields| && t.structs[own].fields[i].type_.EnumType? ==>
      t.structs[own].fields[i].count >= 1
    ensures Ready(t, t.structs[own])
  {
    StructIsOrdered(t, own);
    assert own != 0 by { FineStructs(t); }
    hide EnumFine, AllLaid;
    forall i | 0 <= i < |t.structs[own].fields| ensures EnumReady(t, t.structs[own].fields[i]) {
      assert FieldFine(t, own, t.structs[own].fields[i]);
    }
  }

  /** The bytes a key writes lie in the block, and those of different members are apart. */
  lemma {:induction false} WritesApart(t: Tables, s: Struct, k1: string, v1: Json, k2: string, v2: Json)
    requires Ready(t, s)
    requires EffectOf(t, s, k1, v1).Writes? && EffectOf(t, s, k2, v2).Writes?
    ensures var e1, e2 := EffectOf(t, s, k1, v1), EffectOf(t, s, k2, v2);
      && (k1 == k2 ==> e1.offset == e2.offset && e1.basic == e2.basic)
      && (k1 != k2 ==> e1.offset + DefaultSize(e1.basic) <= e2.offset || e2.offset + DefaultSize(e2.basic) <= e1.offset)
  {
    WriteWithinSlot(t, s, k1, v1);
    WriteWithinSlot(t, s, k2, v2);
    assert Ordered(SlotsOf(t, s.fields), s.size);
    hide Ready, EffectOf, SlotsOf, Fits, End;
    var i, j := FirstField(s.fields, k1).value, FirstField(s.fields, k2).value;
    if i == j {
      assert k1 == k2;
    }
  }

  lemma {:induction false} WriteWithinSlot(t: Tables, s: Struct, key: string, v: Json)
    requires Ready(t, s) && EffectOf(t, s, key, v).Writes?
    ensures var e := EffectOf(t, s, key, v);
      && FirstField(s.fields, key).Some? && e.offset == s.fields[FirstField(s.fields, key).value].offset
      && e.offset == SlotsOf(t, s.fields)[FirstField(s.fields, key).value].offset
      && e.offset + DefaultSize(e.basic) <= End(SlotsOf(t, s.fields)[FirstField(s.fields, key).value])
      && IsInt(e.basic) && Fits(e.basic, e.value)
  {
    hide Ready, Fits, SlotsOf;
    var e := EffectOf(t, s, key, v);
    var i := FirstField(s.fields, key).value;
    var f := s.fields[i];
    EnumIsFine(t, s, i);
    SlotIs(t, s.fields, i);
    var k := IndexOf(ValueNames(t.enums[f.type_.n]), v.text).value;
    ValueFits(t.enums[f.type_.n], k);
  }

  lemma {:induction false} EnumIsFine(t: Tables, s: Struct, i: nat)
    requires Ready(t, s) && i < |s.fields| && s.fields[i].type_.EnumType?
    ensures s.fields[i].count >= 1
    ensures s.fields[i].type_.n in t.enums ==> EnumFine(t.enums[s.fields[i].type_.n])
  {
    hide EnumFine;
    assert EnumReady(t, s.fields[i]);
  }

  lemma {:induction false} ValueFits(e: Enumeration, k: nat)
    requires EnumFine(e) && k < |e.fields|
    ensures IsInt(e.base.basic) && Fits(e.base.basic, e.fields[k].value)
  {
    hide Fits;
  }

  /** The slot of an enumeration member holds at least one value of the base type. */
  lemma {:induction false} SlotIs(t: Tables, fs: seq<Field>, i: nat)
    requires i < |fs| && fs[i].type_.EnumType? && fs[i].count >= 1
    requires fs[i].type_.n in t.enums && EnumFine(t.enums[fs[i].type_.n])
    ensures SlotsOf(t, fs)[i].offset == fs[i].offset
    ensures fs[i].offset + DefaultSize(t.enums[fs[i].type_.n].base.basic) <= End(SlotsOf(t, fs)[i])
  {
    hide ValuesFit;
    var slot := SlotsOf(t, fs)[i];
    assert slot == Slot(fs[i].offset, UnitOf(t, fs[i].type_, fs[i].pointer), fs[i].count);
    ManyIsMore(slot.unit, slot.count);
  }

  lemma ManyIsMore(unit: nat, count: nat)
    requires count >= 1
    ensures unit * count >= unit
  {
  }

  lemma {:induction false} WriteWithinBlock(t: Tables, s: Struct, key: string, v: Json)
    requires Ready(t, s) && EffectOf(t, s, key, v).Writes?
    ensures var e := EffectOf(t, s, key, v); e.offset + DefaultSize(e.basic) <= s.size
  {
    WriteWithinSlot(t, s, key, v);
    assert Ordered(SlotsOf(t, s.fields), s.size);
    hide EffectOf, SlotsOf, Fits, End;
  }

  // ---------- The block ----------

  /** The block after all keys in order; None if one fails. */
  ghost function Image(t: Tables, s: Struct, obj: seq<(string, Json)>): (r: Option<seq<Byte>>)
    requires Ready(t, s)
    ensures r.Some? ==> |r.value| == s.size
    decreases |obj|
  {
    if obj == [] then Some(Zeros(s.size)) else
      var b, last := Image(t, s, obj[..|obj| - 1]), obj[|obj| - 1];
      var e := EffectOf(t, s, last.0, last.1);
      if b.None? || e.Fails? then None
      else if e.Nothing? then b
      else
        WriteWithinBlock(t, s, last.0, last.1);
        Some(Patched(b.value, e.offset, IntBytes(e.value, DefaultSize(e.basic))))
  }

  /** No later key writes the member that key i writes. */
  ghost predicate Lasts(t: Tables, s: Struct, obj: seq<(string, Json)>, i: nat) {
    i < |obj| && EffectOf(t, s, obj[i].0, obj[i].1).Writes?
    && forall j :: i < j < |obj| && EffectOf(t, s, obj[j].0, obj[j].1).Writes? ==> obj[j].0 != obj[i].0
  }

  lemma PatchedKeeps(s: seq<Byte>, offset: nat, bytes: seq<Byte>, lo: nat, hi: nat)
    requires offset + |bytes| <= |s| && lo <= hi <= |s|
    ensures hi <= offset || offset + |bytes| <= lo ==> Patched(s, offset, bytes)[lo..hi] == s[lo..hi]
    ensures Patched(s, offset, bytes)[offset..offset + |bytes|] == bytes
  {
  }

  lemma {:induction false} PatchedReads(s: seq<Byte>, offset: nat, b: Basic, v: int)
    requires IsInt(b) && Fits(b, v) && offset + DefaultSize(b) <= |s|
    ensures ReadInt(Patched(s, offset, IntBytes(v, DefaultSize(b)))[offset..offset + DefaultSize(b)], b) == v
  {
    hide ReadInt, IntBytes, DefaultSize;
    PatchedKeeps(s, offset, IntBytes(v, DefaultSize(b)), 0, 0);
    ValueSurvives(b, v);
  }

  lemma PatchedElsewhere(s: seq<Byte>, offset: nat, bytes: seq<Byte>, p: nat)
    requires offset + |bytes| <= |s| && p < |s| && !(offset <= p < offset + |bytes|)
    ensures Patched(s, offset, bytes)[p] == s[p]
  {
  }

  /** In the block, the value of key i reads back from its place. */
  ghost predicate ReadsAs(t: Tables, s: Struct, obj: seq<(string, Json)>, i: nat, block: seq<Byte>)
    requires i < |obj|
  {
    var e := EffectOf(t, s, obj[i].0, obj[i].1);
    e.Writes? && e.offset + DefaultSize(e.basic) <= |block|
    && ReadInt(block[e.offset..e.offset + DefaultSize(e.basic)], e.basic) == e.value
  }

  /** The value a member is given last reads back from its place. */
  lemma {:induction false} ReadsBack(t: Tables, s: Struct, obj: seq<(string, Json)>, i: nat)
    requires Ready(t, s) && Image(t, s, obj).Some? && Lasts(t, s, obj, i)
    ensures ReadsAs(t, s, obj, i, Image(t, s, obj).value)
    decreases |obj|
  {
    hide Ready, EffectOf, ReadInt, IntBytes, Patched, DefaultSize;
    var front, last := obj[..|obj| - 1], obj[|obj| - 1];
    WriteWithinBlock(t, s, obj[i].0, obj[i].1);
    if i == |obj| - 1 {
      LastReadsBack(t, s, obj);
    } else {
      assert front[i] == obj[i] && Lasts(t, s, front, i);
      ReadsBack(t, s, front, i);
      if EffectOf(t, s, last.0, last.1).Writes? {
        EarlierKept(t, s, obj, i);
      }
    }
  }

  lemma {:induction false} LastReadsBack(t: Tables, s: Struct, obj: seq<(string, Json)>)
    requires Ready(t, s) && obj != [] && Image(t, s, obj).Some?
    requires var last := obj[|obj| - 1]; EffectOf(t, s, last.0, last.1).Writes?
    ensures ReadsAs(t, s, obj, |obj| - 1, Image(t, s, obj).value)
  {
    hide Ready, EffectOf, ReadInt, IntBytes, Patched, DefaultSize;
    var front, last := obj[..|obj| - 1], obj[|obj| - 1];
    var e := EffectOf(t, s, last.0, last.1);
    WriteWithinBlock(t, s, last.0, last.1);
    WriteWithinSlot(t, s, last.0, last.1);
    var before, w := Image(t, s, front).value, DefaultSize(e.basic);
    assert Image(t, s, obj) == Some(Patched(before, e.offset, IntBytes(e.value, w)));
    hide Image;
    PatchedReads(before, e.offset, e.basic, e.value);
  }

  lemma {:induction false} EarlierKept(t: Tables, s: Struct, obj: seq<(string, Json)>, i: nat)
    requires Ready(t, s) && i < |obj| - 1 && Image(t, s, obj).Some?
    requires var last := obj[|obj| - 1]; EffectOf(t, s, last.0, last.1).Writes? && last.0 != obj[i].0
    requires ReadsAs(t, s, obj[..|obj| - 1], i, Image(t, s, obj[..|obj| - 1]).value)
    ensures ReadsAs(t, s, obj, i, Image(t, s, obj).value)
  {
    hide Ready, EffectOf, ReadInt, IntBytes, Patched, DefaultSize;
    var front, last := obj[..|obj| - 1], obj[|obj| - 1];
    assert front[i] == obj[i];
    var e, e' := EffectOf(t, s, obj[i].0, obj[i].1), EffectOf(t, s, last.0, last.1);
    WritesApart(t, s, obj[i].0, obj[i].1, last.0, last.1);
    WriteWithinBlock(t, s, last.0, last.1);
    PatchedKeeps(Image(t, s, front).value, e'.offset, IntBytes(e'.value, DefaultSize(e'.basic)), e.offset,
      e.offset + DefaultSize(e.basic));
  }

  predicate Touches(t: Tables, s: Struct, kv: (string, Json), p: nat) {
    var e := EffectOf(t, s, kv.0, kv.1);
    e.Writes? && e.offset <= p < e.offset + DefaultSize(e.basic)
  }

  ghost predicate Untouched(t: Tables, s: Struct, obj: seq<(string, Json)>, p: nat) {
    forall i :: 0 <= i < |obj| ==> !Touches(t, s, obj[i], p)
  }

  /** All other bytes stay zero. */
  lemma {:induction false} RestStaysZero(t: Tables, s: Struct, obj: seq<(string, Json)>, p: nat)
    requires Ready(t, s) && Image(t, s, obj).Some? && p < s.size
    requires Untouched(t, s, obj, p)
    ensures Image(t, s, obj).value[p] == 0
    decreases |obj|
  {
    hide Ready, EffectOf, IntBytes, Patched, DefaultSize;
    if obj == [] {
      ZeroAt(s.size, p);
    } else {
      var front, last := obj[..|obj| - 1], obj[|obj| - 1];
      assert Untouched(t, s, front, p);
      RestStaysZero(t, s, front, p);
      assert !Touches(t, s, last, p);
      var e := EffectOf(t, s, last.0, last.1);
      if e.Writes? {
        WriteWithinBlock(t, s, last.0, last.1);
        PatchedElsewhere(Image(t, s, front).value, e.offset, IntBytes(e.value, DefaultSize(e.basic)), p);
      }
    }
  }

  /** The conversion fails exactly if an enumeration member is not given by a string. */
  lemma {:induction false} FailsExactly(t: Tables, s: Struct, obj: seq<(string, Json)>)
    requires Ready(t, s)
    ensures Image(t, s, obj).None? <==> exists i :: 0 <= i < |obj| && EffectOf(t, s, obj[i].0, obj[i].1).Fails?
    decreases |obj|
  {
    hide Ready, EffectOf;
    if obj != [] {
      var front := obj[..|obj| - 1];
      FailsExactly(t, s, front);
      forall i | 0 <= i < |front| ensures front[i] == obj[i] {}
    }
  }

  // ---------- The converter ----------

  /** Stores an integer of one of the sizes of the language. */
  method WriteIntVal(block: array<Byte>, offset: nat, size: nat, v: int, signed: bool) returns (ok: bool)
    requires offset + size <= block.Length
    modifies block
    ensures ok <==> size == 1 || size == 2 || size == 4 || size == 8
    ensures ok ==> block[..] == Patched(old(block[..]), offset, IntBytes(v, size))
  {
    if size != 1 && size != 2 && size != 4 && size != 8 {
      return false;
    }
    // signed and unsigned stores leave the same bytes
    var bytes := IntBytes(v, size);
    forall i | 0 <= i < size {
      block[offset + i] := bytes[i];
    }
    ok := true;
  }

  // ---------- What the object says ----------

  /** f is the first field of that name. */
  ghost predicate NamesField(s: Struct, key: string, f: nat) {
    f < |s.fields| && s.fields[f].name == key && forall g :: 0 <= g < f ==> s.fields[g].name != key
  }

  /** The key names field f, which is an enumeration, and the text its value j. */
  ghost predicate Picks(t: Tables, s: Struct, kv: (string, Json), f: nat, j: nat) {
    && NamesField(s, kv.0, f) && s.fields[f].type_.EnumType? && s.fields[f].type_.n in t.enums && kv.1.Text?
    && var es := t.enums[s.fields[f].type_.n].fields;
       j < |es| && es[j].name == kv.1.text && forall k :: 0 <= k < j ==> es[k].name != kv.1.text
  }

  /** Entry i gives field f its value j, and no later entry gives that field another. */
  ghost predicate PicksLast(t: Tables, s: Struct, obj: seq<(string, Json)>, i: nat, f: nat, j: nat) {
    i < |obj| && Picks(t, s, obj[i], f, j)
    && forall k: nat, g: nat :: i < k < |obj| && obj[k].0 == obj[i].0 ==> !Picks(t, s, obj[k], f, g)
  }

  /** An enumeration is in the table and its value is given by a string. */
  ghost predicate Acceptable(t: Tables, s: Struct, kv: (string, Json)) {
    forall f: nat :: NamesField(s, kv.0, f) && s.fields[f].type_.EnumType? ==>
      s.fields[f].type_.n in t.enums && kv.1.Text?
  }

  /** The bytes of field f, read under the base type of its enumeration, are value j. */
  ghost predicate HoldsValue(t: Tables, s: Struct, f: nat, j: nat, block: seq<Byte>) {
    && f < |s.fields| && s.fields[f].type_.EnumType? && s.fields[f].type_.n in t.enums
    && var e, at := t.enums[s.fields[f].type_.n], s.fields[f].offset;
       && e.base.Default? && j < |e.fields| && at + DefaultSize(e.base.basic) <= |block|
       && ReadInt(block[at..at + DefaultSize(e.base.basic)], e.base.basic) == e.fields[j].value
  }

  /** Byte p belongs to a field that some entry gives a value. */
  ghost predicate Given(t: Tables, s: Struct, obj: seq<(string, Json)>, p: nat) {
    exists i, f: nat, j: nat :: 0 <= i < |obj| && Picks(t, s, obj[i], f, j) &&
      s.fields[f].offset <= p < s.fields[f].offset + SizeOf(t, s.fields[f].type_)
  }

  lemma {:induction false} IndexIs(names: seq<string>, name: string, i: nat)
    requires i < |names| && names[i] == name && forall k :: 0 <= k < i ==> names[k] != name
    ensures IndexOf(names, name) == Some(i)
  {
    forall r | i < r <= |names| ensures name in names[..r] {
      assert names[..r][i] == name;
    }
  }

  lemma {:induction false} FirstFieldIs(s: Struct, key: string)
    ensures FirstField(s.fields, key).Some? ==> NamesField(s, key, FirstField(s.fields, key).value)
    ensures forall f: nat :: NamesField(s, key, f) ==> FirstField(s.fields, key) == Some(f)
  {
    var names := FieldNames(s.fields);
    forall f: nat | NamesField(s, key, f) ensures FirstField(s.fields, key) == Some(f) {
      IndexIs(names, key, f);
    }
    var r := IndexOf(names, key);
    if r.Some? {
      forall g | 0 <= g < r.value ensures s.fields[g].name != key {
        assert names[..r.value][g] == names[g];
      }
    }
  }

  /** A key has an effect exactly if it picks a value, and then writes that value. */
  lemma {:induction false} EffectIs(t: Tables, s: Struct, kv: (string, Json))
    requires Ready(t, s)
    ensures EffectOf(t, s, kv.0, kv.1).Fails? <==> !Acceptable(t, s, kv)
    ensures forall f: nat, j: nat :: Picks(t, s, kv, f, j) ==> var e := t.enums[s.fields[f].type_.n];
      e.base.Default? && EffectOf(t, s, kv.0, kv.1) == Writes(s.fields[f].offset, e.fields[j].value, e.base.basic)
    ensures EffectOf(t, s, kv.0, kv.1).Writes? ==> exists f: nat, j: nat :: Picks(t, s, kv, f, j)
  {
    FirstFieldIs(s, kv.0);
    var i := FirstField(s.fields, kv.0);
    if i.Some? && s.fields[i.value].type_.EnumType? {
      var f := i.value;
      EnumIsFine(t, s, f);
      hide Ready, FirstField;
      assert NamesField(s, kv.0, f);
      if s.fields[f].type_.n in t.enums && kv.1.Text? {
        PickedIs(t, s, kv, f);
      }
    }
  }

  lemma {:induction false} PickedIs(t: Tables, s: Struct, kv: (string, Json), f: nat)
    requires NamesField(s, kv.0, f) && s.fields[f].type_.EnumType? && s.fields[f].type_.n in t.enums && kv.1.Text?
    ensures var r := IndexOf(ValueNames(t.enums[s.fields[f].type_.n]), kv.1.text);
      && (r.Some? ==> Picks(t, s, kv, f, r.value))
      && forall j: nat :: Picks(t, s, kv, f, j) ==> r == Some(j)
  {
    var e := t.enums[s.fields[f].type_.n];
    var names := ValueNames(e);
    forall j: nat | Picks(t, s, kv, f, j) ensures IndexOf(names, kv.1.text) == Some(j) {
      IndexIs(names, kv.1.text, j);
    }
    var r := IndexOf(names, kv.1.text);
    if r.Some? {
      forall k | 0 <= k < r.value ensures e.fields[k].name != kv.1.text {
        assert names[..r.value][k] == names[k];
      }
    }
  }

  /** What was said of the effects, said of the object. */
  lemma {:induction false} ObjectReads(t: Tables, s: Struct, obj: seq<(string, Json)>, block: seq<Byte>)
    requires Ready(t, s)
    requires forall i: nat :: Lasts(t, s, obj, i) ==> ReadsAs(t, s, obj, i, block)
    requires forall p: nat :: p < |block| && Untouched(t, s, obj, p) ==> block[p] == 0
    ensures forall i: nat, f: nat, j: nat :: PicksLast(t, s, obj, i, f, j) ==> HoldsValue(t, s, f, j, block)
    ensures forall p: nat :: p < |block| && !Given(t, s, obj, p) ==> block[p] == 0
  {
    hide Ready, EffectOf, ReadInt, Picks;
    forall i: nat, f: nat, j: nat | PicksLast(t, s, obj, i, f, j)
      ensures HoldsValue(t, s, f, j, block)
    {
      EffectIs(t, s, obj[i]);
      PickedLasts(t, s, obj, i, f, j);
      PicksParts(t, s, obj[i], f, j);
      assert ReadsAs(t, s, obj, i, block);
    }
    forall p: nat | p < |block| && !Given(t, s, obj, p)
      ensures Untouched(t, s, obj, p)
    {
      forall i | 0 <= i < |obj| ensures !Touches(t, s, obj[i], p) {
        EffectIs(t, s, obj[i]);
        if Touches(t, s, obj[i], p) {
          var f: nat, j: nat :| Picks(t, s, obj[i], f, j);
          PicksParts(t, s, obj[i], f, j);
        }
      }
    }
  }

  lemma PicksParts(t: Tables, s: Struct, kv: (string, Json), f: nat, j: nat)
    requires Picks(t, s, kv, f, j)
    ensures f < |s.fields| && s.fields[f].type_.EnumType? && s.fields[f].type_.n in t.enums && s.fields[f].name == kv.0
    ensures j < |t.enums[s.fields[f].type_.n].fields|
    ensures t.enums[s.fields[f].type_.n].base.Default? ==>
      SizeOf(t, s.fields[f].type_) == DefaultSize(t.enums[s.fields[f].type_.n].base.basic)
  {
  }

  lemma {:induction false} PickedLasts(t: Tables, s: Struct, obj: seq<(string, Json)>, i: nat, f: nat, j: nat)
    requires Ready(t, s) && PicksLast(t, s, obj, i, f, j)
    ensures Lasts(t, s, obj, i)
  {
    hide Ready, EffectOf;
    EffectIs(t, s, obj[i]);
    forall k | i < k < |obj| && EffectOf(t, s, obj[k].0, obj[k].1).Writes? ensures obj[k].0 != obj[i].0 {
      EffectIs(t, s, obj[k]);
      SameField(t, s, obj[i], obj[k], f);
    }
  }

  lemma {:induction false} SameField(t: Tables, s: Struct, kv: (string, Json), kv': (string, Json), f: nat)
    requires NamesField(s, kv.0, f)
    ensures kv'.0 == kv.0 ==> forall g: nat, j: nat :: Picks(t, s, kv', g, j) ==> g == f
  {
    FirstFieldIs(s, kv.0);
  }

  /** Fills the block of a struct from an object: each enumeration member that was given a known
      name reads back as the value last given, and all other bytes stay zero. */
  method ConvertStruct(t: Tables, s: Struct, obj: seq<(string, Json)>) returns (ok: bool, block: array<Byte>)
    requires Ready(t, s)
    ensures fresh(block) && block.Length == s.size
    ensures ok <==> forall i :: 0 <= i < |obj| ==> Acceptable(t, s, obj[i])
    ensures ok ==> forall i: nat, f: nat, j: nat :: PicksLast(t, s, obj, i, f, j) ==> HoldsValue(t, s, f, j, block[..])
    ensures ok ==> forall p: nat :: p < block.Length && !Given(t, s, obj, p) ==> block[p] == 0
  {
    FailsExactly(t, s, obj);
    hide Ready, Untouched, ReadsAs, Lasts, EffectOf, Image, Acceptable, PicksLast, HoldsValue, Given;
    ok, block := FillBlock(t, s, obj);
    forall i | 0 <= i < |obj| ensures EffectOf(t, s, obj[i].0, obj[i].1).Fails? <==> !Acceptable(t, s, obj[i]) {
      EffectIs(t, s, obj[i]);
    }
    if ok {
      ImageReads(t, s, obj, block[..]);
      ObjectReads(t, s, obj, block[..]);
    }
  }

  /** The keys in order, up to the first that fails. */
  method FillBlock(t: Tables, s: Struct, obj: seq<(string, Json)>) returns (ok: bool, block: array<Byte>)
    requires Ready(t, s)
    ensures fresh(block) && block.Length == s.size
    ensures ok <==> Image(t, s, obj).Some?
    ensures ok ==> Image(t, s, obj) == Some(block[..])
  {
    hide Ready, EffectOf, Image, Patched, IntBytes, Zeros;
    var size := s.size;
    block := new Byte[size](i => 0);
    OnlyZeros(block[..]);
    EmptyImage(t, s, obj);
    for i := 0 to |obj|
      invariant Image(t, s, obj[..i]) == Some(block[..])
    {
      ImageThen(t, s, obj, i);
      var done := WriteMember(t, s, obj[i].0, obj[i].1, block);
      if !done {
        ImageStaysNone(t, s, obj, i + 1);
        return false, block;
      }
    }
    assert obj[..|obj|] == obj;
    ok := true;
  }

  /** One key of the object. */
  method WriteMember(t: Tables, s: Struct, key: string, v: Json, block: array<Byte>) returns (ok: bool)
    requires Ready(t, s) && block.Length == s.size
    requires EffectOf(t, s, key, v).Writes? ==>
      EffectOf(t, s, key, v).offset + DefaultSize(EffectOf(t, s, key, v).basic) <= block.Length
    modifies block
    ensures ok <==> !EffectOf(t, s, key, v).Fails?
    ensures var e := EffectOf(t, s, key, v);
      block[..] ==
        if e.Writes? then Patched(old(block[..]), e.offset, IntBytes(e.value, DefaultSize(e.basic)))
        else old(block[..])
  {
    hide Ready, EffectOf, Patched, IntBytes, Fits, SlotsOf, FirstField, End;
    match EffectOf(t, s, key, v) {
      case Fails => ok := false;
      case Nothing => ok := true;
      case Writes(offset, value, basic) =>
        WriteWithinSlot(t, s, key, v);
        IntSizes(basic);
        ok := WriteIntVal(block, offset, DefaultSize(basic), value, true);
    }
  }

  lemma EmptyImage(t: Tables, s: Struct, obj: seq<(string, Json)>)
    requires Ready(t, s)
    ensures Image(t, s, obj[..0]) == Some(Zeros(s.size))
  {
  }

  lemma {:induction false} ImageThen(t: Tables, s: Struct, obj: seq<(string, Json)>, i: nat)
    requires Ready(t, s) && i < |obj| && Image(t, s, obj[..i]).Some?
    ensures var b, e := Image(t, s, obj[..i]).value, EffectOf(t, s, obj[i].0, obj[i].1);
      && (e.Writes? ==> e.offset + DefaultSize(e.basic) <= |b|)
      && Image(t, s, obj[..i + 1]) ==
        match e
        case Fails => None
        case Nothing => Some(b)
        case Writes(offset, value, basic) => Some(Patched(b, offset, IntBytes(value, DefaultSize(basic))))
  {
    hide Ready, EffectOf, Patched, IntBytes;
    assert obj[..i + 1][..i] == obj[..i];
    if EffectOf(t, s, obj[i].0, obj[i].1).Writes? {
      WriteWithinBlock(t, s, obj[i].0, obj[i].1);
    }
  }

  lemma {:induction false} ImageStaysNone(t: Tables, s: Struct, obj: seq<(string, Json)>, k: nat)
    requires Ready(t, s) && k <= |obj| && Image(t, s, obj[..k]).None?
    ensures Image(t, s, obj).None?
    decreases |obj|
  {
    hide Ready, EffectOf, Patched, IntBytes;
    if k < |obj| {
      assert obj[..|obj| - 1][..k] == obj[..k];
      ImageStaysNone(t, s, obj[..|obj| - 1], k);
    } else {
      assert obj[..k] == obj;
    }
  }

  lemma IntSizes(b: Basic)
    requires IsInt(b)
    ensures DefaultSize(b) == 1 || DefaultSize(b) == 2 || DefaultSize(b) == 4 || DefaultSize(b) == 8
  {
  }

  lemma {:induction false} ImageReads(t: Tables, s: Struct, obj: seq<(string, Json)>, block: seq<Byte>)
    requires Ready(t, s) && Image(t, s, obj) == Some(block)
    ensures forall i: nat :: Lasts(t, s, obj, i) ==> ReadsAs(t, s, obj, i, block)
    ensures forall p: nat :: p < |block| && Untouched(t, s, obj, p) ==> block[p] == 0
  {
    hide Ready, Image, Untouched, ReadsAs, EffectOf;
    forall i: nat | Lasts(t, s, obj, i)
      ensures ReadsAs(t, s, obj, i, block)
    {
      ReadsBack(t, s, obj, i);
    }
    forall p: nat | p < |block| && Untouched(t, s, obj, p)
      ensures block[p] == 0
    {
      RestStaysZero(t, s, obj, p);
    }
  }
}
