/** The type table of the data language: names, type ids and sizes. */
module AdlTypes {
  import opened Options
  import opened Bytes
  import opened AdlLayout

  datatype Basic =
    | Int8 | Int16 | Int32 | Int64 | UInt8 | UInt16 | UInt32 | UInt64
    | Float | Double | Text | HashValue | Padding

  /** A type id: its kind, and for all but the default types a number from 1. */
  datatype TypeId =
    | Unknown
    | Default(basic: Basic)
    | StructType(n: nat)
    | EnumType(n: nat)
    | CustomType(n: nat)
    | TypeDef(n: nat)

  datatype Field = Field(name: string, type_: TypeId, pointer: bool, offset: nat, count: nat, elemSize: nat)

  datatype Struct = Struct(align: nat, size: nat, forced: nat, fields: seq<Field>)

  datatype EnumField = EnumField(name: string, value: int)

  datatype Enumeration = Enumeration(base: TypeId, fields: seq<EnumField>)

  /** `align` is the alignment of structs that state none. */
  datatype Tables = Tables(
    align: nat,
    names: map<string, TypeId>,
    typedefs: map<nat, TypeId>,
    structs: map<nat, Struct>,
    enums: map<nat, Enumeration>,
    customs: map<nat, nat>)

  // ---------- Sizes ----------

  function DefaultSize(b: Basic): nat {
    match b
    case Int8 | UInt8 => 1
    case Int16 | UInt16 => 2
    case Int32 | UInt32 | Float => 4
    case Padding => 0
    case _ => 8
  }

  predicate IsInt(b: Basic) {
    b.Int8? || b.Int16? || b.Int32? || b.Int64? || IsUnsigned(b)
  }

  predicate IsUnsigned(b: Basic) {
    b.UInt8? || b.UInt16? || b.UInt32? || b.UInt64?
  }

  /** What a typedef stands for; an id that is no typedef is its own base. */
  function Base(t: Tables, id: TypeId): TypeId {
    if !id.TypeDef? then id else if id.n in t.typedefs then t.typedefs[id.n] else Unknown
  }

  function IdOf(t: Tables, name: string): TypeId {
    if name in t.names then Base(t, t.names[name]) else Unknown
  }

  function BaseSize(t: Tables, id: TypeId): nat {
    match id
    case Default(b) => DefaultSize(b)
    case StructType(n) => if n in t.structs then t.structs[n].size else 0
    case EnumType(n) => if n in t.enums && t.enums[n].base.Default? then DefaultSize(t.enums[n].base.basic) else 0
    case CustomType(n) => if n in t.customs then t.customs[n] else 0
    case _ => 0
  }

  function SizeOf(t: Tables, id: TypeId): nat {
    BaseSize(t, Base(t, id))
  }

  const POINTER_SIZE := 8
  const PADDING_NAME := "$$padding"

  // ---------- Struct members ----------

  datatype Member =
    | FieldDef(typeName: string, pointer: bool, name: string, count: Option<int>)
    | PadTo(at: int)
    | AssertOffset(at: int)
    | BadOperator

  /** A struct under construction. */
  datatype Partial = Partial(fields: seq<Field>, size: nat)

  function UnitOf(t: Tables, type_: TypeId, pointer: bool): nat {
    if pointer then POINTER_SIZE else SizeOf(t, type_)
  }

  predicate HasField(fields: seq<Field>, name: string) {
    exists i :: 0 <= i < |fields| && fields[i].name == name
  }

  /** The struct with one more member; None is an error. */
  function AddMember(t: Tables, own: nat, align: nat, p: Partial, m: Member): Option<Partial> {
    match m
    case FieldDef(typeName, pointer, name, count) =>
      var id := IdOf(t, typeName);
      var n := if count.None? then 1 else count.value;
      if id.Unknown? || (!pointer && id == StructType(own)) || HasField(p.fields, name) || n < 0 then None else
        var unit := UnitOf(t, id, pointer);
        var offset := Aligned(p.size, align, unit);
        var size := Wrap(unit * n);
        Some(Partial(p.fields + [Field(name, id, pointer, offset, n, size)], Wrap(offset + size)))
    case PadTo(at) =>
      if at < 0 || at < p.size then None
      else Some(Partial(p.fields + [Field(PADDING_NAME, Default(Padding), false, at, 1, 0)], at))
    case AssertOffset(at) => if Wrap(at) == p.size then Some(p) else None
    case BadOperator => None
  }

  function AddMembers(t: Tables, own: nat, align: nat, ms: seq<Member>): Option<Partial> {
    if ms == [] then Some(Partial([], 0)) else
      var p := AddMembers(t, own, align, ms[..|ms| - 1]);
      if p.None? then None else AddMember(t, own, align, p.value, ms[|ms| - 1])
  }

  // ---------- What a finished struct looks like ----------

  function StepOf(t: Tables, f: Field): Step {
    if f.type_ == Default(Padding) then Pad(f.offset) else Put(UnitOf(t, f.type_, f.pointer), f.count)
  }

  function StepsOf(t: Tables, fs: seq<Field>): (r: seq<Step>)
    ensures |r| == |fs|
  {
    seq(|fs|, i requires 0 <= i < |fs| => StepOf(t, fs[i]))
  }

  function SlotOf(t: Tables, f: Field): Slot {
    if f.type_ == Default(Padding) then Slot(f.offset, 0, 0) else Slot(f.offset, UnitOf(t, f.type_, f.pointer), f.count)
  }

  function SlotsOf(t: Tables, fs: seq<Field>): (r: seq<Slot>)
    ensures |r| == |fs|
  {
    seq(|fs|, i requires 0 <= i < |fs| => SlotOf(t, fs[i]))
  }

  predicate Known(t: Tables, id: TypeId) {
    match id
    case Unknown => false
    case Default(b) => b != Padding
    case StructType(n) => n in t.structs
    case EnumType(n) => n in t.enums
    case CustomType(n) => n in t.customs
    case TypeDef(n) => n in t.typedefs
  }

  /** A member of struct `own`: of a known type that is no typedef, and by value only of
      structs defined before. */
  predicate FieldFine(t: Tables, own: nat, f: Field) {
    || (f == Field(PADDING_NAME, Default(Padding), false, f.offset, 1, 0) && f.offset < WORD_LIMIT)
    || (Known(t, f.type_) && !f.type_.TypeDef? && f.elemSize == Wrap(UnitOf(t, f.type_, f.pointer) * f.count)
        && (!f.pointer && f.type_.StructType? ==> f.type_.n < own))
  }

  ghost predicate FieldsFine(t: Tables, own: nat, fs: seq<Field>) {
    forall i :: 0 <= i < |fs| ==> FieldFine(t, own, fs[i])
  }

  ghost predicate NamesDiffer(fs: seq<Field>) {
    forall i, j :: 0 <= i < j < |fs| && fs[i].name == fs[j].name ==> fs[j].type_ == Default(Padding)
  }

  /** The members lie where laying out their current sizes puts them. */
  ghost predicate LaidOut(t: Tables, align: nat, p: Partial) {
    Lay(StepsOf(t, p.fields), align) == Some(Layout(SlotsOf(t, p.fields), p.size)) && p.size < WORD_LIMIT
  }

  /** The struct has the size of its layout, or the one it was forced to. */
  ghost predicate Sized(t: Tables, s: Struct, laid: nat) {
    && LaidOut(t, s.align, Partial(s.fields, laid)) && laid <= s.size < WORD_LIMIT
    && s.size == (if s.forced > 0 then s.forced else laid)
  }

  ghost predicate StructFine(t: Tables, own: nat) {
    && own in t.structs && t.structs[own].align <= 16
    && FieldsFine(t, own, t.structs[own].fields) && NamesDiffer(t.structs[own].fields)
    && exists laid: nat :: Sized(t, t.structs[own], laid)
  }

  // ---------- The table ----------

  ghost predicate Dense<T>(m: map<nat, T>) {
    forall k: nat :: k in m <==> 1 <= k <= |m|
  }

  predicate EnumFine(e: Enumeration) {
    e.base.Default? && IsInt(e.base.basic) && ValuesFit(e)
  }

  predicate ValuesFit(e: Enumeration)
    requires e.base.Default?
  {
    forall i :: 0 <= i < |e.fields| ==> Fits(e.base.basic, e.fields[i].value)
  }

  function MaxValue(b: Basic): int {
    if DefaultSize(b) == 8 then 0x7fff_ffff_ffff_ffff
    else if IsUnsigned(b) then Limit(DefaultSize(b)) - 1 else Limit(DefaultSize(b)) / 2 - 1
  }

  function MinValue(b: Basic): int {
    if IsUnsigned(b) then 0 else -(MaxValue(b) + 1)
  }

  predicate Fits(b: Basic, v: int) {
    MinValue(b) <= v <= MaxValue(b)
  }

  /** Numbers are given out in order, and each name has an id of its own unless it is a
      default type's. */
  ghost predicate NamesFine(t: Tables) {
    && Dense(t.typedefs) && Dense(t.structs) && Dense(t.enums) && Dense(t.customs)
    && (forall name :: name in t.names ==> Known(t, t.names[name]))
    && (forall a, b :: a in t.names && b in t.names && t.names[a] == t.names[b] ==> a == b || t.names[a].Default?)
  }

  /** Every typedef resolves in one hop. */
  ghost predicate TypesFine(t: Tables) {
    && (forall n :: n in t.typedefs ==> Known(t, t.typedefs[n]) && !t.typedefs[n].TypeDef?)
    && (forall n :: n in t.enums ==> EnumFine(t.enums[n]))
    && (forall n :: n in t.customs ==> t.customs[n] < WORD_LIMIT)
  }

  /** A table in which every struct but perhaps one is finished. */
  ghost predicate FineBut(t: Tables, open: nat) {
    NamesFine(t) && TypesFine(t) && forall n :: n in t.structs && n != open ==> StructFine(t, n)
  }

  /** No struct has number 0. */
  ghost predicate Fine(t: Tables) {
    FineBut(t, 0)
  }

  /** Nothing defined has changed. */
  ghost predicate Extends(t: Tables, t': Tables) {
    && (forall k :: k in t.names ==> k in t'.names && t'.names[k] == t.names[k])
    && (forall k :: k in t.typedefs ==> k in t'.typedefs && t'.typedefs[k] == t.typedefs[k])
    && (forall k :: k in t.structs ==> k in t'.structs && t'.structs[k] == t.structs[k])
    && (forall k :: k in t.enums ==> k in t'.enums && t'.enums[k] == t.enums[k])
    && (forall k :: k in t.customs ==> k in t'.customs && t'.customs[k] == t.customs[k])
  }

  /** The size of a known type never changes. */
  lemma SizesStay(t: Tables, t': Tables, id: TypeId)
    requires Extends(t, t') && TypesFine(t) && Known(t, id)
    ensures Known(t', id) && Base(t', id) == Base(t, id) && SizeOf(t', id) == SizeOf(t, id)
  {
  }

  lemma {:induction false} FieldStays(t: Tables, t': Tables, own: nat, f: Field)
    requires Extends(t, t') && TypesFine(t) && FieldFine(t, own, f)
    ensures FieldFine(t', own, f) && StepOf(t', f) == StepOf(t, f) && SlotOf(t', f) == SlotOf(t, f)
  {
    if f.type_ != Default(Padding) {
      SizesStay(t, t', f.type_);
    }
  }

  lemma {:induction false} LaidOutStays(t: Tables, t': Tables, own: nat, align: nat, p: Partial)
    requires Extends(t, t') && TypesFine(t) && FieldsFine(t, own, p.fields)
    ensures FieldsFine(t', own, p.fields) && (LaidOut(t, align, p) <==> LaidOut(t', align, p))
  {
    hide FieldFine, Extends, TypesFine, StepOf, SlotOf;
    forall i | 0 <= i < |p.fields|
      ensures FieldFine(t', own, p.fields[i]) && StepsOf(t', p.fields)[i] == StepsOf(t, p.fields)[i]
      ensures SlotsOf(t', p.fields)[i] == SlotsOf(t, p.fields)[i]
    {
      FieldStays(t, t', own, p.fields[i]);
    }
    assert StepsOf(t', p.fields) == StepsOf(t, p.fields) && SlotsOf(t', p.fields) == SlotsOf(t, p.fields);
  }

  /** A finished struct stays finished, with the same layout, whatever is defined later. */
  lemma {:induction false} StructStays(t: Tables, t': Tables, own: nat)
    requires Extends(t, t') && TypesFine(t) && StructFine(t, own)
    ensures StructFine(t', own) && t'.structs[own] == t.structs[own]
  {
    hide FieldsFine, LaidOut, NamesDiffer, TypesFine;
    var s := t.structs[own];
    var laid: nat :| Sized(t, s, laid);
    LaidOutStays(t, t', own, s.align, Partial(s.fields, laid));
    assert t'.structs[own] == s;
    assert Sized(t', s, laid);
  }

  lemma {:induction false} StructsStay(t: Tables, t': Tables, open: nat)
    requires Extends(t, t') && TypesFine(t) && forall n :: n in t.structs && n != open ==> StructFine(t, n)
    ensures forall n :: n in t.structs && n != open ==> StructFine(t', n)
  {
    hide StructFine, TypesFine, Extends;
    forall n | n in t.structs && n != open
      ensures StructFine(t', n)
    {
      StructStays(t, t', n);
    }
  }

  // ---------- Members laid out one by one ----------

  lemma {:induction false} MembersFine(t: Tables, own: nat, align: nat, ms: seq<Member>)
    requires NamesFine(t) && TypesFine(t) && own == |t.structs| && align <= 16 && AddMembers(t, own, align, ms).Some?
    requires forall m :: m in ms && m.PadTo? ==> m.at < WORD_LIMIT
    ensures var p := AddMembers(t, own, align, ms).value;
      FieldsFine(t, own, p.fields) && NamesDiffer(p.fields) && LaidOut(t, align, p)
    decreases |ms|
  {
    hide FieldsFine, NamesDiffer, LaidOut;
    if ms == [] {
      NoMembers(t, own, align);
    } else {
      assert ms[|ms| - 1] in ms;
      var front := ms[..|ms| - 1];
      forall m | m in front && m.PadTo? ensures m.at < WORD_LIMIT {
        assert m in ms;
      }
      MembersFine(t, own, align, front);
      MemberFine(t, own, align, AddMembers(t, own, align, front).value, ms[|ms| - 1]);
    }
  }

  lemma {:induction false} NoMembers(t: Tables, own: nat, align: nat)
    ensures FieldsFine(t, own, []) && NamesDiffer([]) && LaidOut(t, align, Partial([], 0))
  {
    assert StepsOf(t, []) == [] && SlotsOf(t, []) == [];
  }

  lemma {:induction false} MemberFine(t: Tables, own: nat, align: nat, p: Partial, m: Member)
    requires NamesFine(t) && TypesFine(t) && own == |t.structs| && align <= 16
    requires FieldsFine(t, own, p.fields) && NamesDiffer(p.fields) && LaidOut(t, align, p)
    requires (m.PadTo? ==> m.at < WORD_LIMIT) && AddMember(t, own, align, p, m).Some?
    ensures var q := AddMember(t, own, align, p, m).value;
      FieldsFine(t, own, q.fields) && NamesDiffer(q.fields) && LaidOut(t, align, q)
  {
    hide Lay, Aligned, SizeOf;
    var q := AddMember(t, own, align, p, m).value;
    match m {
      case FieldDef(typeName, pointer, name, count) =>
        var f := q.fields[|p.fields|];
        KnownField(t, own, typeName);
        AlignedIsWord(p.size, align, UnitOf(t, f.type_, pointer));
        LaidOutThen(t, align, p, f, q.size);
      case PadTo(at) =>
        LaidOutThen(t, align, p, q.fields[|p.fields|], q.size);
      case AssertOffset(at) =>
    }
  }

  lemma KnownField(t: Tables, own: nat, typeName: string)
    requires NamesFine(t) && TypesFine(t) && own == |t.structs| && !IdOf(t, typeName).Unknown?
    ensures var id := IdOf(t, typeName);
      Known(t, id) && !id.TypeDef? && id != Default(Padding) && (id.StructType? && id != StructType(own) ==> id.n < own)
  {
  }

  lemma {:induction false} AlignedIsWord(size: nat, align: nat, unit: nat)
    requires size < WORD_LIMIT && align <= 16
    ensures Aligned(size, align, unit) < WORD_LIMIT
  {
    AlignedIsForward(size, align, unit);
  }

  lemma {:induction false} LaidOutThen(t: Tables, align: nat, p: Partial, f: Field, size: nat)
    requires LaidOut(t, align, p) && size < WORD_LIMIT
    requires After(Layout(SlotsOf(t, p.fields), p.size), align, StepOf(t, f)) ==
      Some(Layout(SlotsOf(t, p.fields) + [SlotOf(t, f)], size))
    ensures LaidOut(t, align, Partial(p.fields + [f], size))
  {
    hide After, StepOf, SlotOf;
    var steps := StepsOf(t, p.fields + [f]);
    assert steps[..|steps| - 1] == StepsOf(t, p.fields);
    assert SlotsOf(t, p.fields + [f]) == SlotsOf(t, p.fields) + [SlotOf(t, f)];
  }

  /** What a member declares: its name, type, kind and number of elements. */
  datatype Declared = Declared(name: string, type_: TypeId, pointer: bool, count: int)

  function DeclaredBy(t: Tables, ms: seq<Member>): seq<Declared> {
    if ms == [] then [] else
      DeclaredBy(t, ms[..|ms| - 1]) + (match ms[|ms| - 1]
        case FieldDef(typeName, pointer, name, count) =>
          [Declared(name, IdOf(t, typeName), pointer, if count.None? then 1 else count.value)]
        case PadTo(at) => [Declared(PADDING_NAME, Default(Padding), false, 1)]
        case _ => [])
  }

  function DeclaredIn(fs: seq<Field>): seq<Declared> {
    seq(|fs|, i requires 0 <= i < |fs| => Declared(fs[i].name, fs[i].type_, fs[i].pointer, fs[i].count))
  }

  /** No member is lost, added, renamed or moved. */
  lemma {:induction false} MembersKept(t: Tables, own: nat, align: nat, ms: seq<Member>)
    requires AddMembers(t, own, align, ms).Some?
    ensures DeclaredIn(AddMembers(t, own, align, ms).value.fields) == DeclaredBy(t, ms)
    decreases |ms|
  {
    hide Aligned, IdOf, UnitOf, HasField;
    if ms != [] {
      MembersKept(t, own, align, ms[..|ms| - 1]);
    }
  }
}
