/** What each definition of the data language does to the type table. */
module AdlDefine {
  import opened Options
  import opened AdlLayout
  import opened AdlTypes

  datatype Definition =
    | CustomDef(length: int, name: string)
    | StructDef(align: Option<int>, size: Option<int>, name: string, members: seq<Member>)
    | EnumDef(typeName: string, name: string, values: seq<(string, Option<int>)>)
    | AliasDef(origin: string, name: string)
    | AlignDef(value: int)

  predicate IsAlign(a: int) {
    a == 0 || a == 1 || a == 2 || a == 4 || a == 8 || a == 16
  }

  /** A number of the source text. */
  predicate IsInt64(x: int) {
    -0x8000_0000_0000_0000 <= x < 0x8000_0000_0000_0000
  }

  predicate IsSource(d: Definition) {
    match d
    case CustomDef(n, _) => IsInt64(n)
    case StructDef(_, size, _, ms) =>
      && (size.Some? ==> IsInt64(size.value))
      && forall m :: m in ms && m.PadTo? ==> IsInt64(m.at)
    case _ => true
  }

  // ---------- Enumerations ----------

  function WrapSigned(x: int): int {
    var w := Wrap(x);
    if w < 0x8000_0000_0000_0000 then w else w - WORD_LIMIT
  }

  /** Values so far and the last one. */
  datatype Counted = Counted(fields: seq<EnumField>, last: int)

  predicate HasValue(fs: seq<EnumField>, name: string) {
    exists i :: 0 <= i < |fs| && fs[i].name == name
  }

  function AddValue(b: Basic, c: Counted, v: (string, Option<int>)): Option<Counted> {
    var value := if v.1.None? then WrapSigned(c.last + 1) else v.1.value;
    if !Fits(b, value) || HasValue(c.fields, v.0) then None
    else Some(Counted(c.fields + [EnumField(v.0, value)], value))
  }

  function AddValues(b: Basic, vs: seq<(string, Option<int>)>): Option<Counted> {
    if vs == [] then Some(Counted([], -1)) else
      var c := AddValues(b, vs[..|vs| - 1]);
      if c.None? then None else AddValue(b, c.value, vs[|vs| - 1])
  }

  function Previous(fs: seq<EnumField>, i: nat): int
    requires i <= |fs|
  {
    if i == 0 then -1 else fs[i - 1].value
  }

  /** Values fit the base type; a value not given is one more than the one before, from 0. */
  lemma {:induction false} ValuesOf(b: Basic, vs: seq<(string, Option<int>)>)
    requires AddValues(b, vs).Some?
    ensures var c := AddValues(b, vs).value;
      && |c.fields| == |vs| && ValuesFit(Enumeration(Default(b), c.fields))
      && (forall i :: 0 <= i < |vs| ==> c.fields[i].name == vs[i].0)
      && c.last == Previous(c.fields, |vs|)
      && (forall i :: 0 <= i < |vs| ==>
            c.fields[i].value == if vs[i].1.Some? then vs[i].1.value else WrapSigned(Previous(c.fields, i) + 1))
      && (forall i, j :: 0 <= i < j < |vs| ==> c.fields[i].name != c.fields[j].name)
    decreases |vs|
  {
    if vs != [] {
      ValuesOf(b, vs[..|vs| - 1]);
    }
  }

  // ---------- Definitions ----------

  function Alignment(t: Tables, align: Option<int>): Option<nat> {
    if align.None? then Some(t.align) else if IsAlign(align.value) then Some(align.value) else None
  }

  /** The table with an empty struct of the next number. */
  function Opened(t: Tables, name: string, align: nat, forced: nat): Tables {
    var n := |t.structs| + 1;
    t.(names := t.names[name := StructType(n)], structs := t.structs[n := Struct(align, 0, forced, [])])
  }

  function DefineStruct(t: Tables, name: string, align: nat, forced: nat, ms: seq<Member>): Option<Tables> {
    var n := |t.structs| + 1;
    var t1 := Opened(t, name, align, forced);
    var p := AddMembers(t1, n, align, ms);
    if p.None? || (forced > 0 && p.value.size > forced) then None
    else
      var size := if forced > 0 then forced else p.value.size;
      Some(t1.(structs := t1.structs[n := Struct(align, size, forced, p.value.fields)]))
  }

  /** The table after a definition; None is an error. */
  function Define(t: Tables, d: Definition): Option<Tables> {
    match d
    case CustomDef(length, name) =>
      if length < 0 || !IdOf(t, name).Unknown? then None else
        var n := |t.customs| + 1;
        Some(t.(names := t.names[name := CustomType(n)], customs := t.customs[n := length]))
    case StructDef(align, size, name, ms) =>
      var a := Alignment(t, align);
      var forced := if size.None? then 0 else size.value;
      if a.None? || forced < 0 || !IdOf(t, name).Unknown? then None
      else DefineStruct(t, name, a.value, forced, ms)
    case EnumDef(typeName, name, vs) =>
      var base := IdOf(t, typeName);
      if !base.Default? || !IsInt(base.basic) || !IdOf(t, name).Unknown? then None else
        var c := AddValues(base.basic, vs);
        if c.None? then None else
          var n := |t.enums| + 1;
          Some(t.(names := t.names[name := EnumType(n)], enums := t.enums[n := Enumeration(base, c.value.fields)]))
    case AliasDef(origin, name) =>
      var base := IdOf(t, origin);
      if base.Unknown? || !IdOf(t, name).Unknown? then None else
        var n := |t.typedefs| + 1;
        Some(t.(names := t.names[name := TypeDef(n)], typedefs := t.typedefs[n := base]))
    case AlignDef(align) =>
      if t.align != 0 || !IsAlign(align) then None else Some(t.(align := align))
  }

  function DefineAll(t: Tables, ds: seq<Definition>): Option<Tables> {
    if ds == [] then Some(t) else
      var t1 := DefineAll(t, ds[..|ds| - 1]);
      if t1.None? then None else Define(t1.value, ds[|ds| - 1])
  }

  lemma {:induction false} NextIsFree<T>(m: map<nat, T>, v: T)
    requires Dense(m)
    ensures |m| + 1 !in m && Dense(m[|m| + 1 := v])
  {
    hide Dense;
    DenseEnds(m);
    var m' := m[|m| + 1 := v];
    assert m'.Keys == m.Keys + {|m| + 1};
    assert |m'.Keys| == |m.Keys| + 1;
    DenseFrom(m, m');
  }

  lemma DenseEnds<T>(m: map<nat, T>)
    requires Dense(m)
    ensures |m| + 1 !in m
  {
  }

  lemma {:induction false} DenseFrom<T>(m: map<nat, T>, m': map<nat, T>)
    requires Dense(m) && m'.Keys == m.Keys + {|m| + 1} && |m'| == |m| + 1
    ensures Dense(m')
  {
    forall k: nat ensures k in m' <==> 1 <= k <= |m'| {
      assert k in m' <==> k in m || k == |m| + 1;
      assert k in m <==> 1 <= k <= |m|;
    }
  }

  /** A name is free exactly if it is not in the table. */
  lemma FreeName(t: Tables, name: string)
    requires NamesFine(t) && TypesFine(t)
    ensures IdOf(t, name).Unknown? <==> name !in t.names
  {
  }

  lemma ExtendsItself(t: Tables)
    ensures Extends(t, t)
  {
  }

  lemma ExtendsThen(t0: Tables, t1: Tables, t2: Tables)
    requires Extends(t0, t1) && Extends(t1, t2)
    ensures Extends(t0, t2)
  {
  }

  /** Every definition keeps the table well formed and leaves what was defined as it was. */
  lemma {:induction false} DefineKeepsFine(t: Tables, d: Definition)
    requires Fine(t) && t.align <= 16 && IsSource(d) && Define(t, d).Some?
    ensures Fine(Define(t, d).value) && Extends(t, Define(t, d).value) && Define(t, d).value.align <= 16
  {
    hide StructFine, EnumFine, IdOf, NamesFine, TypesFine, Extends, DefineStruct, AddValues;
    match d {
      case CustomDef(length, name) => CustomFine(t, length, name);
      case StructDef(align, size, name, ms) =>
        StructDefFine(t, name, Alignment(t, align).value, if size.None? then 0 else size.value, ms);
      case EnumDef(typeName, name, vs) => EnumDefFine(t, d);
      case AliasDef(origin, name) => AliasFine(t, d);
      case AlignDef(align) => AlignFine(t, align);
    }
  }

  /** A new name for a new id. */
  lemma {:induction false} NewName(t: Tables, t': Tables, name: string, id: TypeId)
    requires NamesFine(t) && name !in t.names && t'.names == t.names[name := id] && Extends(t, t')
    requires Dense(t'.typedefs) && Dense(t'.structs) && Dense(t'.enums) && Dense(t'.customs)
    requires Known(t', id) && !Known(t, id)
    ensures NamesFine(t')
  {
    hide Dense;
    forall a, b | a in t'.names && b in t'.names && t'.names[a] == t'.names[b]
      ensures a == b || t'.names[a].Default?
    {
      if a == name || b == name {
        assert a in t.names ==> Known(t, t.names[a]);
        assert b in t.names ==> Known(t, t.names[b]);
      }
    }
  }

  /** New definitions that are well formed by themselves. */
  lemma {:induction false} NewTypes(t: Tables, t': Tables)
    requires TypesFine(t) && Extends(t, t')
    requires forall n :: n in t'.typedefs && n !in t.typedefs ==> Known(t', t'.typedefs[n]) && !t'.typedefs[n].TypeDef?
    requires forall n :: n in t'.enums && n !in t.enums ==> EnumFine(t'.enums[n])
    requires forall n :: n in t'.customs && n !in t.customs ==> t'.customs[n] < WORD_LIMIT
    ensures TypesFine(t')
  {
    hide EnumFine;
    forall n | n in t'.typedefs
      ensures Known(t', t'.typedefs[n]) && !t'.typedefs[n].TypeDef?
    {
      if n in t.typedefs {
        assert Known(t, t.typedefs[n]);
      }
    }
  }

  lemma {:induction false} AlignFine(t: Tables, align: nat)
    requires Fine(t)
    ensures Fine(t.(align := align)) && Extends(t, t.(align := align))
  {
    hide StructFine, EnumFine;
    StructsStay(t, t.(align := align), 0);
  }

  lemma {:induction false} CustomAdded(t: Tables, t': Tables, name: string, length: nat)
    requires NamesFine(t) && TypesFine(t) && name !in t.names && length < WORD_LIMIT
    requires t' == t.(names := t.names[name := CustomType(|t.customs| + 1)],
      customs := t.customs[|t.customs| + 1 := length])
    ensures NamesFine(t') && TypesFine(t') && Extends(t, t')
  {
    hide EnumFine, Dense;
    NextIsFree(t.customs, length);
    assert Extends(t, t');
    NewTypes(t, t');
    hide TypesFine;
    NewName(t, t', name, CustomType(|t.customs| + 1));
  }

  lemma {:induction false} CustomFine(t: Tables, length: int, name: string)
    requires Fine(t) && IsInt64(length) && Define(t, CustomDef(length, name)).Some?
    ensures Fine(Define(t, CustomDef(length, name)).value) && Extends(t, Define(t, CustomDef(length, name)).value)
  {
    hide StructFine, TypesFine, NamesFine, Extends, IdOf;
    var t' := Define(t, CustomDef(length, name)).value;
    FreeName(t, name);
    CustomAdded(t, t', name, length);
    StructsStay(t, t', 0);
  }

  lemma {:induction false} EnumAdded(t: Tables, t': Tables, name: string, e: Enumeration)
    requires NamesFine(t) && TypesFine(t) && name !in t.names && EnumFine(e)
    requires t' == t.(names := t.names[name := EnumType(|t.enums| + 1)], enums := t.enums[|t.enums| + 1 := e])
    ensures NamesFine(t') && TypesFine(t') && Extends(t, t')
  {
    hide EnumFine, Dense;
    NextIsFree(t.enums, e);
    assert Extends(t, t');
    NewTypes(t, t');
    hide TypesFine;
    NewName(t, t', name, EnumType(|t.enums| + 1));
  }

  lemma {:induction false} EnumDefFine(t: Tables, d: Definition)
    requires Fine(t) && d.EnumDef? && Define(t, d).Some?
    ensures Fine(Define(t, d).value) && Extends(t, Define(t, d).value)
  {
    hide StructFine, ValuesFit, IdOf, NamesFine, TypesFine, Extends, DefineStruct, AddValues;
    var t' := Define(t, d).value;
    FreeName(t, d.name);
    var base := IdOf(t, d.typeName);
    ValuesOf(base.basic, d.values);
    var e := Enumeration(base, AddValues(base.basic, d.values).value.fields);
    EnumAdded(t, t', d.name, e);
    StructsStay(t, t', 0);
  }

  lemma {:induction false} AliasAdded(t: Tables, t': Tables, name: string, to: TypeId)
    requires NamesFine(t) && TypesFine(t) && name !in t.names && Known(t, to) && !to.TypeDef?
    requires t' == t.(names := t.names[name := TypeDef(|t.typedefs| + 1)],
      typedefs := t.typedefs[|t.typedefs| + 1 := to])
    ensures NamesFine(t') && TypesFine(t') && Extends(t, t')
  {
    hide EnumFine, Dense;
    NextIsFree(t.typedefs, to);
    assert Extends(t, t');
    NewTypes(t, t');
    hide TypesFine;
    NewName(t, t', name, TypeDef(|t.typedefs| + 1));
  }

  lemma {:induction false} AliasFine(t: Tables, d: Definition)
    requires Fine(t) && d.AliasDef? && Define(t, d).Some?
    ensures Fine(Define(t, d).value) && Extends(t, Define(t, d).value)
  {
    hide StructFine, IdOf, NamesFine, TypesFine, Extends, DefineStruct, AddValues;
    FreeName(t, d.name);
    BaseIsKnown(t, d.origin);
    AliasAdded(t, Define(t, d).value, d.name, IdOf(t, d.origin));
    StructsStay(t, Define(t, d).value, 0);
  }

  lemma BaseIsKnown(t: Tables, name: string)
    requires NamesFine(t) && TypesFine(t) && !IdOf(t, name).Unknown?
    ensures Known(t, IdOf(t, name)) && !IdOf(t, name).TypeDef?
  {
  }

  lemma {:induction false} OpenedFine(t: Tables, name: string, align: nat, forced: nat)
    requires Fine(t) && IdOf(t, name).Unknown?
    ensures NamesFine(Opened(t, name, align, forced)) && TypesFine(Opened(t, name, align, forced))
    ensures |t.structs| + 1 !in t.structs && |Opened(t, name, align, forced).structs| == |t.structs| + 1
    ensures Extends(t, Opened(t, name, align, forced))
  {
    hide StructFine, EnumFine, IdOf, Dense;
    var t' := Opened(t, name, align, forced);
    FreeName(t, name);
    NextIsFree(t.structs, Struct(align, 0, forced, []));
    NewName(t, t', name, StructType(|t.structs| + 1));
    NewTypes(t, t');
  }

  lemma {:induction false} StructDefFine(t: Tables, name: string, align: nat, forced: nat, ms: seq<Member>)
    requires Fine(t) && align <= 16 && forced < WORD_LIMIT && IdOf(t, name).Unknown?
    requires (forall m :: m in ms && m.PadTo? ==> m.at < WORD_LIMIT) && DefineStruct(t, name, align, forced, ms).Some?
    ensures Fine(DefineStruct(t, name, align, forced, ms).value)
    ensures Extends(t, DefineStruct(t, name, align, forced, ms).value)
    ensures DefineStruct(t, name, align, forced, ms).value.align == t.align
  {
    hide StructFine, EnumFine, FieldsFine, NamesDiffer, LaidOut, NamesFine;
    hide TypesFine, AddMembers, IdOf, Extends, Fine, FineBut;
    var n := |t.structs| + 1;
    var t1, t2 := Opened(t, name, align, forced), DefineStruct(t, name, align, forced, ms).value;
    OpenedFine(t, name, align, forced);
    MembersFine(t1, n, align, ms);
    var p := AddMembers(t1, n, align, ms).value;
    LaidOutIsWord(t1, align, p);
    FinishedStruct(t, t1, t2, n, align, forced, p);
  }

  lemma {:induction false} FinishedStruct(t: Tables, t1: Tables, t2: Tables, n: nat, align: nat, forced: nat,
                                          p: Partial)
    requires Fine(t) && NamesFine(t1) && TypesFine(t1) && Extends(t, t1) && n !in t.structs
    requires t1.structs.Keys == t.structs.Keys + {n}
    requires n in t2.structs && t2 == t1.(structs := t1.structs[n := t2.structs[n]])
    requires t2.structs[n] == Struct(align, if forced > 0 then forced else p.size, forced, p.fields)
    requires p.size <= t2.structs[n].size < WORD_LIMIT
    requires align <= 16 && FieldsFine(t1, n, p.fields) && NamesDiffer(p.fields) && LaidOut(t1, align, p)
    ensures Fine(t2) && Extends(t, t2)
  {
    hide StructFine, EnumFine, FieldsFine, NamesDiffer, LaidOut, NamesFine, TypesFine;
    Closing(t1, n, t2.structs[n]);
    assert Extends(t, t2);
    hide Extends;
    OwnSizeUnused(t1, t2, n, align, p);
    assert Partial(t2.structs[n].fields, p.size) == p;
    FinishedFine(t2, n, p.size);
    StructsStay(t, t2, 0);
    OnlyOneMore(t, t2, n);
  }

  lemma LaidOutIsWord(t: Tables, align: nat, p: Partial)
    requires LaidOut(t, align, p)
    ensures p.size < WORD_LIMIT
  {
  }

  lemma FinishedFine(t: Tables, n: nat, laid: nat)
    requires n in t.structs && t.structs[n].align <= 16 && FieldsFine(t, n, t.structs[n].fields)
    requires NamesDiffer(t.structs[n].fields)
    requires Sized(t, t.structs[n], laid)
    ensures StructFine(t, n)
  {
  }

  lemma OnlyOneMore(t: Tables, t': Tables, n: nat)
    requires forall m :: m in t.structs && m != 0 ==> StructFine(t', m)
    requires t'.structs.Keys == t.structs.Keys + {n} && StructFine(t', n)
    ensures forall m :: m in t'.structs && m != 0 ==> StructFine(t', m)
  {
  }

  /** Finishing a struct touches nothing but the struct. */
  lemma {:induction false} Closing(t: Tables, n: nat, s: Struct)
    requires NamesFine(t) && TypesFine(t) && n in t.structs
    ensures NamesFine(t.(structs := t.structs[n := s])) && TypesFine(t.(structs := t.structs[n := s]))
  {
    assert t.structs[n := s].Keys == t.structs.Keys;
    hide EnumFine;
  }

  /** The size of a struct plays no part in its own layout. */
  lemma {:induction false} OwnSizeUnused(t1: Tables, t2: Tables, n: nat, align: nat, p: Partial)
    requires n in t1.structs && n in t2.structs && t2 == t1.(structs := t1.structs[n := t2.structs[n]])
    requires FieldsFine(t1, n, p.fields) && LaidOut(t1, align, p)
    ensures FieldsFine(t2, n, p.fields) && LaidOut(t2, align, p)
  {
    forall i | 0 <= i < |p.fields|
      ensures FieldFine(t2, n, p.fields[i]) && StepsOf(t2, p.fields)[i] == StepsOf(t1, p.fields)[i]
      ensures SlotsOf(t2, p.fields)[i] == SlotsOf(t1, p.fields)[i]
    {
      assert FieldFine(t1, n, p.fields[i]);
    }
    assert StepsOf(t2, p.fields) == StepsOf(t1, p.fields) && SlotsOf(t2, p.fields) == SlotsOf(t1, p.fields);
  }

  /** Every table that definitions build is well formed. */
  lemma {:induction false} DefinitionsKeepFine(t: Tables, ds: seq<Definition>)
    requires Fine(t) && t.align <= 16 && (forall d :: d in ds ==> IsSource(d)) && DefineAll(t, ds).Some?
    ensures Fine(DefineAll(t, ds).value) && Extends(t, DefineAll(t, ds).value) && DefineAll(t, ds).value.align <= 16
    decreases |ds|
  {
    hide Fine, Extends, Define;
    if ds == [] {
      ExtendsItself(t);
    } else {
      assert ds[|ds| - 1] in ds;
      var front := ds[..|ds| - 1];
      forall d | d in front ensures IsSource(d) { assert d in ds; }
      DefinitionsKeepFine(t, front);
      DefineKeepsFine(DefineAll(t, front).value, ds[|ds| - 1]);
      ExtendsThen(t, DefineAll(t, front).value, DefineAll(t, ds).value);
    }
  }
}
