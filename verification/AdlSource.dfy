/** Which definitions of the data language are accepted, and what they say: each as a relation
    between the definition and the table before and after it. */
module AdlSource {
  import opened Options
  import opened AdlLayout
  import opened AdlTypes
  import opened AdlDefine
  import opened AdlFacts

  // ---------- Enumerations ----------

  /** The value after v, in 64 bits. */
  function Next(v: int): int {
    if v == 0x7fff_ffff_ffff_ffff then -0x8000_0000_0000_0000 else v + 1
  }

  /** Value i as given, or one more than the one before, from 0; within the bounds of the base type. */
  predicate ValueAt(b: Basic, vs: seq<(string, Option<int>)>, fs: seq<EnumField>, i: nat)
    requires i < |fs| == |vs|
  {
    && fs[i].name == vs[i].0 && InBounds(b, fs[i].value)
    && fs[i].value == if vs[i].1.Some? then vs[i].1.value else Next(if i == 0 then -1 else fs[i - 1].value)
  }

  /** The values of an enumeration, no name twice. */
  predicate Values(b: Basic, vs: seq<(string, Option<int>)>, fs: seq<EnumField>) {
    && |fs| == |vs| && (forall i :: 0 <= i < |vs| ==> ValueAt(b, vs, fs, i))
    && (forall i, j :: 0 <= i < j < |vs| ==> fs[i].name != fs[j].name)
  }

  lemma {:induction false} NextIs(b: Basic, v: int)
    requires v == -1 || InBounds(b, v)
    ensures WrapSigned(v + 1) == Next(v)
  {
    assert -0x8000_0000_0000_0000 <= v <= 0x7fff_ffff_ffff_ffff;
  }

  lemma {:induction false} ValuesAreCounted(b: Basic, vs: seq<(string, Option<int>)>)
    requires IsInt(b) && AddValues(b, vs).Some?
    ensures Values(b, vs, AddValues(b, vs).value.fields)
  {
    var fs := AddValues(b, vs).value.fields;
    ValuesOf(b, vs);
    hide WrapSigned, Fits, InBounds, AddValues, Next, ValueAt;
    forall i | 0 <= i < |vs| ensures ValueAt(b, vs, fs, i) {
      ValueIs(b, vs, fs, i);
    }
  }

  lemma {:induction false} ValueIs(b: Basic, vs: seq<(string, Option<int>)>, fs: seq<EnumField>, i: nat)
    requires i < |vs| == |fs| && IsInt(b) && fs[i].name == vs[i].0
    requires Fits(b, fs[i].value) && (i > 0 ==> Fits(b, fs[i - 1].value))
    requires fs[i].value == if vs[i].1.Some? then vs[i].1.value else WrapSigned(Previous(fs, i) + 1)
    ensures ValueAt(b, vs, fs, i)
  {
    hide WrapSigned, Fits, InBounds, Next;
    BoundsAre(b, fs[i].value);
    if i > 0 {
      BoundsAre(b, fs[i - 1].value);
    }
    NextIs(b, Previous(fs, i));
  }

  lemma {:induction false} CountedIfValues(b: Basic, vs: seq<(string, Option<int>)>, fs: seq<EnumField>)
    requires IsInt(b) && Values(b, vs, fs)
    ensures AddValues(b, vs) == Some(Counted(fs, Previous(fs, |fs|)))
    decreases |vs|
  {
    if vs != [] {
      var n := |vs| - 1;
      assert Values(b, vs[..n], fs[..n]) by {
        forall i | 0 <= i < n ensures ValueAt(b, vs[..n], fs[..n], i) {
          assert ValueAt(b, vs, fs, i);
        }
      }
      CountedIfValues(b, vs[..n], fs[..n]);
      hide Values, WrapSigned, Fits, InBounds, AddValues;
      ValueCounted(b, vs, fs);
    }
  }

  lemma {:induction false} ValueCounted(b: Basic, vs: seq<(string, Option<int>)>, fs: seq<EnumField>)
    requires IsInt(b) && Values(b, vs, fs) && vs != []
    requires AddValues(b, vs[..|vs| - 1]) == Some(Counted(fs[..|vs| - 1], Previous(fs[..|vs| - 1], |vs| - 1)))
    ensures AddValues(b, vs) == Some(Counted(fs, Previous(fs, |fs|)))
  {
    hide WrapSigned, Fits, InBounds, Next;
    var n := |vs| - 1;
    assert ValueAt(b, vs, fs, n);
    BoundsAre(b, fs[n].value);
    if n > 0 {
      assert ValueAt(b, vs, fs, n - 1);
    }
    NextIs(b, if n == 0 then -1 else fs[n - 1].value);
    assert fs == fs[..n] + [EnumField(vs[n].0, fs[n].value)];
  }

  // ---------- Structs ----------

  /** The members of struct `own` are accepted one by one, and lie as the fields say. */
  ghost predicate Built(t: Tables, own: nat, align: nat, ms: seq<Member>, fs: seq<Field>) {
    if ms == [] then fs == [] else
      var front := ms[..|ms| - 1];
      match ms[|ms| - 1]
      case FieldDef(typeName, pointer, name, count) =>
        && fs != [] && Built(t, own, align, front, fs[..|fs| - 1])
        && IsField(t, own, align, typeName, pointer, name, if count.None? then 1 else count.value, fs)
      case PadTo(at) =>
        && fs != [] && Built(t, own, align, front, fs[..|fs| - 1])
        && at >= EndBefore(fs, |fs| - 1) && fs[|fs| - 1] == Field("$$padding", Default(Padding), false, at, 1, 0)
      case AssertOffset(at) =>
        Built(t, own, align, front, fs) && at % 0x1_0000_0000_0000_0000 == EndBefore(fs, |fs|)
      case BadOperator => false
  }

  /** The last field is this member: of a known type, not of the struct itself by value, under a
      new name, with no negative number of elements. */
  ghost predicate IsField(t: Tables, own: nat, align: nat, typeName: string, pointer: bool, name: string, count: int,
                          fs: seq<Field>)
    requires fs != []
  {
    var f := fs[|fs| - 1];
    && Named(t, typeName, f.type_) && f.name == name && f.pointer == pointer && f.count == count
    && (pointer || f.type_ != StructType(own)) && (forall i :: 0 <= i < |fs| - 1 ==> fs[i].name != name)
    && FieldPacked(t, align, EndBefore(fs, |fs| - 1), f)
  }

  lemma {:induction false} AlignedIs(end: nat, align: nat, unit: nat, offset: nat)
    requires end < WORD_LIMIT && align <= 16
    ensures AlignedAt(end, align, unit, offset) <==> offset == Aligned(end, align, unit)
  {
    AlignedIsAt(end, align, unit);
    if align > 1 && unit == 0 {
      AlignedEmpty(end, align);
    }
  }

  /** A member is added exactly if it is accepted. */
  lemma {:induction false} FieldIs(t: Tables, own: nat, align: nat, p: Partial, m: Member, f: Field)
    requires NamesFine(t) && TypesFine(t) && align <= 16 && m.FieldDef? && p.size == EndBefore(p.fields, |p.fields|)
    ensures AddMember(t, own, align, p, m) == Some(Partial(p.fields + [f], Wrap(f.offset + f.elemSize))) <==>
      IsField(t, own, align, m.typeName, m.pointer, m.name, if m.count.None? then 1 else m.count.value, p.fields + [f])
  {
    var fs := p.fields + [f];
    var id := IdOf(t, m.typeName);
    NamedIs(t, m.typeName, f.type_);
    assert EndBefore(fs, |fs| - 1) == p.size by {
      assert forall i :: 0 <= i < |p.fields| ==> fs[i] == p.fields[i];
    }
    assert HasField(p.fields, m.name) <==> exists i :: 0 <= i < |fs| - 1 && fs[i].name == m.name by {
      assert forall i :: 0 <= i < |p.fields| ==> fs[i] == p.fields[i];
    }
    hide NamesFine, TypesFine, Named, IdOf, EndBefore, HasField;
    if !id.Unknown? && f.type_ == id {
      BaseIsKnown(t, m.typeName);
      var unit := UnitOf(t, id, m.pointer);
      AlignedIs(p.size, align, unit, f.offset);
      SizeOfIs(t, id);
      hide Aligned, AlignedAt, SizeOf, SizeIs;
      WrapIs(unit * f.count);
    }
  }

  lemma NoEnd()
    ensures EndBefore([], 0) == 0
  {
  }

  lemma {:induction false} EndThen(fs: seq<Field>, f: Field)
    ensures EndBefore(fs + [f], |fs|) == EndBefore(fs, |fs|)
    ensures EndBefore(fs + [f], |fs| + 1) == Wrap(f.offset + f.elemSize)
  {
    assert forall i :: 0 <= i < |fs| ==> (fs + [f])[i] == fs[i];
    WrapIs(f.offset + f.elemSize);
  }

  /** What adding the members gives is accepted. */
  lemma {:induction false} AddedIsBuilt(t: Tables, own: nat, align: nat, ms: seq<Member>)
    requires NamesFine(t) && TypesFine(t) && align <= 16 && AddMembers(t, own, align, ms).Some?
    requires forall m :: m in ms && m.PadTo? ==> m.at < WORD_LIMIT
    ensures var p := AddMembers(t, own, align, ms).value;
      Built(t, own, align, ms, p.fields) && p.size == EndBefore(p.fields, |p.fields|)
    decreases |ms|
  {
    hide NamesFine, TypesFine, IsField, EndBefore, AddMember;
    if ms == [] {
      NoEnd();
    } else {
      var front, m := ms[..|ms| - 1], ms[|ms| - 1];
      assert m in ms;
      forall k | k in front && k.PadTo? ensures k.at < WORD_LIMIT {
        assert k in ms;
      }
      AddedIsBuilt(t, own, align, front);
      var p, q := AddMembers(t, own, align, front).value, AddMembers(t, own, align, ms).value;
      OneAdded(t, own, align, p, m, q);
      match m
      case FieldDef(_, _, _, _) =>
        var f := q.fields[|q.fields| - 1];
        assert q.fields[..|q.fields| - 1] == p.fields;
        FieldIs(t, own, align, p, m, f);
      case PadTo(_) => assert q.fields[..|q.fields| - 1] == p.fields;
      case _ =>
    }
  }

  /** What one member adds. */
  lemma {:induction false} OneAdded(t: Tables, own: nat, align: nat, p: Partial, m: Member, q: Partial)
    requires AddMember(t, own, align, p, m) == Some(q) && p.size == EndBefore(p.fields, |p.fields|)
    requires m.PadTo? ==> m.at < WORD_LIMIT
    ensures q.size == EndBefore(q.fields, |q.fields|)
    ensures
      match m
      case FieldDef(_, _, _, _) =>
        q.fields != [] && var f := q.fields[|q.fields| - 1];
          q == Partial(p.fields + [f], Wrap(f.offset + f.elemSize))
      case PadTo(at) =>
        && at >= 0 && q.fields == p.fields + [Field("$$padding", Default(Padding), false, at, 1, 0)]
        && at >= EndBefore(q.fields, |q.fields| - 1)
      case AssertOffset(at) => q == p && at % 0x1_0000_0000_0000_0000 == EndBefore(p.fields, |p.fields|)
      case BadOperator => false
  {
    hide EndBefore, Aligned, UnitOf, IdOf, HasField;
    match m
    case FieldDef(_, _, _, _) => EndThen(p.fields, q.fields[|q.fields| - 1]);
    case PadTo(at) => EndThen(p.fields, Field("$$padding", Default(Padding), false, at, 1, 0));
    case AssertOffset(at) => WrapIs(at);
    case BadOperator =>
  }

  /** Accepted members are added, with those fields. */
  lemma {:induction false} BuiltIsAdded(t: Tables, own: nat, align: nat, ms: seq<Member>, fs: seq<Field>)
    requires NamesFine(t) && TypesFine(t) && align <= 16 && Built(t, own, align, ms, fs)
    requires forall m :: m in ms && m.PadTo? ==> m.at < WORD_LIMIT
    ensures AddMembers(t, own, align, ms) == Some(Partial(fs, EndBefore(fs, |fs|)))
    decreases |ms|
  {
    hide NamesFine, TypesFine, IsField, EndBefore, AddMember;
    if ms == [] {
      NoEnd();
    } else {
      var front, m := ms[..|ms| - 1], ms[|ms| - 1];
      assert m in ms;
      forall k | k in front && k.PadTo? ensures k.at < WORD_LIMIT {
        assert k in ms;
      }
      match m
      case FieldDef(_, _, _, _) =>
        var g, f := fs[..|fs| - 1], fs[|fs| - 1];
        assert fs == g + [f];
        BuiltIsAdded(t, own, align, front, g);
        FieldIs(t, own, align, Partial(g, EndBefore(g, |g|)), m, f);
        EndThen(g, f);
      case PadTo(at) =>
        var g, f := fs[..|fs| - 1], fs[|fs| - 1];
        assert fs == g + [f];
        BuiltIsAdded(t, own, align, front, g);
        EndThen(g, f);
        PadAdded(t, own, align, Partial(g, EndBefore(g, |g|)), at);
      case AssertOffset(at) =>
        BuiltIsAdded(t, own, align, front, fs);
        OffsetAdded(t, own, align, Partial(fs, EndBefore(fs, |fs|)), at);
      case BadOperator =>
    }
  }

  lemma PadAdded(t: Tables, own: nat, align: nat, p: Partial, at: int)
    requires p.size <= at < WORD_LIMIT
    ensures AddMember(t, own, align, p, PadTo(at)) ==
      Some(Partial(p.fields + [Field("$$padding", Default(Padding), false, at, 1, 0)], Wrap(at + 0)))
  {
  }

  lemma OffsetAdded(t: Tables, own: nat, align: nat, p: Partial, at: int)
    requires at % 0x1_0000_0000_0000_0000 == p.size
    ensures AddMember(t, own, align, p, AssertOffset(at)) == Some(p)
  {
    WrapIs(at);
  }

  // ---------- Definitions ----------

  /** The definition is accepted in table t, and gives table t'. */
  ghost predicate Defines(t: Tables, d: Definition, t': Tables) {
    match d
    case CustomDef(length, name) =>
      && length >= 0 && name !in t.names
      && t' == t.(names := t.names[name := CustomType(|t.customs| + 1)],
           customs := t.customs[|t.customs| + 1 := length])
    case AliasDef(origin, name) =>
      name !in t.names && exists id :: DefinesAlias(t, origin, name, id, t')
    case EnumDef(typeName, name, vs) =>
      name !in t.names && exists b, fs :: DefinesEnum(t, typeName, name, vs, b, fs, t')
    case StructDef(align, size, name, ms) =>
      && name !in t.names && (align.Some? ==> align.value in {0, 1, 2, 4, 8, 16}) && (size.Some? ==> size.value >= 0)
      && var a, forced: nat := if align.Some? then align.value else t.align, if size.Some? then size.value else 0;
         exists fs :: DefinesStruct(t, a, forced, name, ms, fs, t')
    case AlignDef(value) => t.align == 0 && value in {0, 1, 2, 4, 8, 16} && t' == t.(align := value)
  }

  ghost predicate DefinesAlias(t: Tables, origin: string, name: string, id: TypeId, t': Tables) {
    && Named(t, origin, id) && !id.Unknown?
    && t' == t.(names := t.names[name := TypeDef(|t.typedefs| + 1)],
         typedefs := t.typedefs[|t.typedefs| + 1 := id])
  }

  ghost predicate DefinesEnum(t: Tables, typeName: string, name: string, vs: seq<(string, Option<int>)>, b: Basic,
                              fs: seq<EnumField>, t': Tables) {
    && Named(t, typeName, Default(b)) && (exists v :: InBounds(b, v)) && Values(b, vs, fs)
    && t' == t.(names := t.names[name := EnumType(|t.enums| + 1)],
         enums := t.enums[|t.enums| + 1 := Enumeration(Default(b), fs)])
  }

  /** The members are built while the struct itself is known by name, and has no size. */
  ghost predicate DefinesStruct(t: Tables, align: nat, forced: nat, name: string, ms: seq<Member>, fs: seq<Field>,
                                t': Tables) {
    var n := |t.structs| + 1;
    var t1 := t.(names := t.names[name := StructType(n)], structs := t.structs[n := Struct(align, 0, forced, [])]);
    var end := EndBefore(fs, |fs|);
    && Built(t1, n, align, ms, fs) && (forced > 0 ==> end <= forced)
    && t' == t1.(structs := t1.structs[n := Struct(align, if forced > 0 then forced else end, forced, fs)])
  }

  /** A definition is accepted exactly so. */
  lemma {:induction false} DefineIs(t: Tables, d: Definition, t': Tables)
    requires Fine(t) && t.align <= 16 && IsSource(d)
    ensures Define(t, d) == Some(t') <==> Defines(t, d, t')
  {
    hide Fine, NamesFine, TypesFine, IdOf, Built, EndBefore, AddMembers, AddValues, Named, Values;
    assert NamesFine(t) && TypesFine(t) by { FineTables(t); }
    match d
    case CustomDef(_, name) => FreeName(t, name);
    case AliasDef(origin, name) =>
      FreeName(t, name);
      forall id ensures Named(t, origin, id) <==> IdOf(t, origin) == id && !id.Unknown? {
        NamedIs(t, origin, id);
      }
      assert DefinesAlias(t, origin, name, IdOf(t, origin), t') <==>
        !IdOf(t, origin).Unknown? &&
        t' == t.(names := t.names[name := TypeDef(|t.typedefs| + 1)],
          typedefs := t.typedefs[|t.typedefs| + 1 := IdOf(t, origin)]);
    case EnumDef(_, _, _) => EnumIs(t, d, t');
    case StructDef(_, _, _, _) => StructIs(t, d, t');
    case AlignDef(_) =>
  }

  lemma FineTables(t: Tables)
    requires Fine(t)
    ensures NamesFine(t) && TypesFine(t)
  {
  }

  lemma {:induction false} EnumIs(t: Tables, d: Definition, t': Tables)
    requires NamesFine(t) && TypesFine(t) && d.EnumDef?
    ensures Define(t, d) == Some(t') <==> Defines(t, d, t')
  {
    hide NamesFine, TypesFine, IdOf, AddValues, Named, Values;
    FreeName(t, d.name);
    var base := IdOf(t, d.typeName);
    forall id ensures Named(t, d.typeName, id) <==> base == id && !id.Unknown? {
      NamedIs(t, d.typeName, id);
    }
    forall b, v ensures IsInt(b) && Fits(b, v) <==> InBounds(b, v) {
      BoundsAre(b, v);
    }
    if base.Default? {
      var b := base.basic;
      if IsInt(b) {
        BoundsAre(b, 0);
        assert InBounds(b, 0);
        if AddValues(b, d.values).Some? {
          ValuesAreCounted(b, d.values);
          var fs := AddValues(b, d.values).value.fields;
          assert DefinesEnum(t, d.typeName, d.name, d.values, b, fs, t') <==>
            t' == t.(names := t.names[d.name := EnumType(|t.enums| + 1)],
              enums := t.enums[|t.enums| + 1 := Enumeration(Default(b), fs)]);
        }
        forall fs | Values(b, d.values, fs) ensures AddValues(b, d.values) == Some(Counted(fs, Previous(fs, |fs|))) {
          CountedIfValues(b, d.values, fs);
        }
      }
    }
  }

  lemma {:induction false} StructIs(t: Tables, d: Definition, t': Tables)
    requires Fine(t) && t.align <= 16 && IsSource(d) && d.StructDef?
    ensures Define(t, d) == Some(t') <==> Defines(t, d, t')
  {
    hide Fine, NamesFine, TypesFine, IdOf, DefineStruct, DefinesStruct;
    FineTables(t);
    FreeName(t, d.name);
    var a, forced := Alignment(t, d.align), if d.size.None? then 0 else d.size.value;
    if a.Some? && forced >= 0 && d.name !in t.names {
      BuildIs(t, d.name, a.value, forced, d.members, t');
    }
  }

  lemma {:induction false} BuildIs(t: Tables, name: string, align: nat, forced: nat, ms: seq<Member>, t': Tables)
    requires Fine(t) && align <= 16 && IdOf(t, name).Unknown?
    requires forall m :: m in ms && m.PadTo? ==> m.at < WORD_LIMIT
    ensures DefineStruct(t, name, align, forced, ms) == Some(t') <==>
      exists fs :: DefinesStruct(t, align, forced, name, ms, fs, t')
  {
    hide Fine, NamesFine, TypesFine, IdOf, AddMembers, Built, EndBefore;
    var n, t1 := |t.structs| + 1, Opened(t, name, align, forced);
    OpenedFine(t, name, align, forced);
    if AddMembers(t1, n, align, ms).Some? {
      AddedIsBuilt(t1, n, align, ms);
      var fs := AddMembers(t1, n, align, ms).value.fields;
      if DefineStruct(t, name, align, forced, ms) == Some(t') {
        assert DefinesStruct(t, align, forced, name, ms, fs, t');
      }
    }
    if fs :| DefinesStruct(t, align, forced, name, ms, fs, t') {
      BuiltIsAdded(t1, n, align, ms, fs);
    }
  }

  // ---------- Source files ----------

  /** The definitions are accepted one after the other, by way of the tables ts. */
  ghost predicate Steps(ds: seq<Definition>, ts: seq<Tables>) {
    |ts| == |ds| + 1 && forall i :: 0 <= i < |ds| ==> Defines(ts[i], ds[i], ts[i + 1])
  }

  ghost predicate DefinesAll(t: Tables, ds: seq<Definition>, t': Tables) {
    exists ts :: Steps(ds, ts) && ts[0] == t && ts[|ds|] == t'
  }

  lemma {:induction false} DefineAllIs(t: Tables, ds: seq<Definition>, t': Tables)
    requires Fine(t) && t.align <= 16 && forall d :: d in ds ==> IsSource(d)
    ensures DefineAll(t, ds) == Some(t') <==> DefinesAll(t, ds, t')
    decreases |ds|
  {
    hide Fine, Defines, Define, IsSource;
    if ds == [] {
      assert Steps(ds, [t]);
    } else {
      var front, d := ds[..|ds| - 1], ds[|ds| - 1];
      assert d in ds;
      if DefineAll(t, front).Some? {
        var t1 := DefineAll(t, front).value;
        DefineAllIs(t, front, t1);
        DefinitionsKeepFine(t, front);
        DefineIs(t1, d, t');
        if DefineAll(t, ds) == Some(t') {
          var ts :| Steps(front, ts) && ts[0] == t && ts[|front|] == t1;
          OneMoreStep(ds, ts, t');
        }
      }
      if ts :| Steps(ds, ts) && ts[0] == t && ts[|ds|] == t' {
        assert Steps(front, ts[..|ds|]) by {
          forall i | 0 <= i < |front| ensures Defines(ts[..|ds|][i], front[i], ts[..|ds|][i + 1]) {
            assert Defines(ts[i], ds[i], ts[i + 1]);
          }
        }
        assert ts[..|ds|][0] == t && ts[..|ds|][|front|] == ts[|ds| - 1];
        DefineAllIs(t, front, ts[|ds| - 1]);
        assert Defines(ts[|ds| - 1], ds[|ds| - 1], ts[|ds|]);
      }
    }
  }

  lemma {:induction false} OneMoreStep(ds: seq<Definition>, ts: seq<Tables>, t': Tables)
    requires ds != [] && Steps(ds[..|ds| - 1], ts) && Defines(ts[|ds| - 1], ds[|ds| - 1], t')
    ensures DefinesAll(ts[0], ds, t')
  {
    hide Defines;
    var all := ts + [t'];
    forall i | 0 <= i < |ds| ensures Defines(all[i], ds[i], all[i + 1]) {
      if i < |ds| - 1 {
        assert Defines(ts[i], ds[..|ds| - 1][i], ts[i + 1]);
      }
    }
    assert Steps(ds, all);
  }
}
