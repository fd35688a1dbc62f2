/** The data language compiler's tables, updated definition by definition. */
module Adl {
  import opened Options
  import opened AdlLayout
  import opened AdlTypes
  import opened AdlDefine
  import opened AdlFacts
  import opened AdlSource

  function Builtin(name: string): Basic {
    if name == "bool" || name == "byte" || name == "uint8" || name == "uint8_t" then UInt8
    else if name == "uint16" || name == "uint16_t" then UInt16
    else if name == "uint32" || name == "uint32_t" || name == "uint" then UInt32
    else if name == "uint64" || name == "uint64_t" || name == "ulong" then UInt64
    else if name == "char" || name == "int8" || name == "int8_t" then Int8
    else if name == "int16" || name == "int16_t" then Int16
    else if name == "int32" || name == "int32_t" || name == "int" then Int32
    else if name == "int64" || name == "int64_t" || name == "long" then Int64
    else if name == "float" then Float
    else if name == "double" then Double
    else if name == "string" then Text
    else HashValue
  }

  const BUILTIN_NAMES: set<string> := {
    "bool", "byte", "uint8", "uint8_t", "uint16", "uint16_t", "uint32", "uint32_t", "uint64", "uint64_t",
    "char", "int8", "int8_t", "int16", "int16_t", "int32", "int32_t", "int64", "int64_t",
    "float", "double", "string", "hash", "int", "uint", "long", "ulong" }

  function NewTables(): Tables {
    Tables(0, map name | name in BUILTIN_NAMES :: Default(Builtin(name)), map[], map[], map[], map[])
  }

  lemma {:induction false} NewTablesFine()
    ensures Fine(NewTables())
  {
    hide Builtin, StructFine;
    forall name | name in NewTables().names ensures Known(NewTables(), NewTables().names[name]) {
      BuiltinIsNoPadding(name);
    }
  }

  lemma BuiltinIsNoPadding(name: string)
    ensures Builtin(name) != Padding
  {
  }

  /** The names a table starts with, and the types they stand for. */
  predicate DefaultName(name: string, b: Basic) {
    || (b == UInt8 && name in {"bool", "byte", "uint8", "uint8_t"})
    || (b == UInt16 && name in {"uint16", "uint16_t"})
    || (b == UInt32 && name in {"uint32", "uint32_t", "uint"})
    || (b == UInt64 && name in {"uint64", "uint64_t", "ulong"})
    || (b == Int8 && name in {"char", "int8", "int8_t"})
    || (b == Int16 && name in {"int16", "int16_t"})
    || (b == Int32 && name in {"int32", "int32_t", "int"})
    || (b == Int64 && name in {"int64", "int64_t", "long"})
    || (b == Float && name == "float") || (b == Double && name == "double")
    || (b == Text && name == "string") || (b == HashValue && name == "hash")
  }

  lemma {:induction false} NewNames(name: string, b: Basic)
    ensures name in NewTables().names && NewTables().names[name] == Default(b) <==> DefaultName(name, b)
  {
    if DefaultName(name, b) {
      assert name in BUILTIN_NAMES;
    }
  }

  class AdlData {
    var align: nat
    var names: map<string, TypeId>
    var typedefs: map<nat, TypeId>
    var structs: map<nat, Struct>
    var enums: map<nat, Enumeration>
    var customs: map<nat, nat>

    function View(): Tables
      reads this
    {
      Tables(align, names, typedefs, structs, enums, customs)
    }

    ghost predicate Valid()
      reads this
    {
      Fine(View()) && align <= 16
    }

    constructor ()
      ensures View() == NewTables() && Valid()
      ensures forall name, b :: name in names && names[name] == Default(b) <==> DefaultName(name, b)
    {
      align := 0;
      names := map name | name in BUILTIN_NAMES :: Default(Builtin(name));
      typedefs, structs, enums, customs := map[], map[], map[], map[];
      NewTablesFine();
      forall name, b
        ensures name in NewTables().names && NewTables().names[name] == Default(b) <==> DefaultName(name, b)
      {
        NewNames(name, b);
      }
    }

    /** Follows typedefs to a type that is none. */
    method GetBaseType(id: TypeId) returns (r: TypeId)
      requires TypesFine(View())
      ensures r == Base(View(), id) && !r.TypeDef?
    {
      r := id;
      while r.TypeDef?
        invariant Base(View(), r) == Base(View(), id)
        decreases if r.TypeDef? then 1 else 0
      {
        if r.n !in typedefs {
          return Unknown;
        }
        r := typedefs[r.n];
      }
    }

    method IdOfName(name: string) returns (r: TypeId)
      requires TypesFine(View())
      ensures r == IdOf(View(), name)
    {
      if name !in names {
        return Unknown;
      }
      r := GetBaseType(names[name]);
    }

    method SizeOfType(id: TypeId) returns (r: nat)
      requires TypesFine(View())
      ensures r == SizeOf(View(), id)
      decreases if id.Default? then 0 else if id.TypeDef? then 2 else 1
    {
      var base := GetBaseType(id);
      r := 0;
      match base {
        case EnumType(n) =>
          if n !in enums {
            return 0;
          }
          r := SizeOfType(enums[n].base);
        case StructType(n) => r := if n in structs then structs[n].size else 0;
        case Default(b) => r := DefaultSize(b);
        case CustomType(n) => r := if n in customs then customs[n] else 0;
        case Unknown =>
        case TypeDef(_) =>
      }
    }

    /** Registers a name for a type; fails if the name is taken. */
    method RegisterTypeDef(name: string, to: TypeId) returns (ok: bool)
      requires TypesFine(View())
      modifies this`names, this`typedefs
      ensures ok <==> IdOf(old(View()), name).Unknown?
      ensures View() == if ok then old(View()).(names := old(names)[name := TypeDef(|old(typedefs)| + 1)],
        typedefs := old(typedefs)[|old(typedefs)| + 1 := to])
        else old(View())
    {
      var known := IdOfName(name);
      if known != Unknown {
        return false;
      }
      var n := |typedefs| + 1;
      names := names[name := TypeDef(n)];
      typedefs := typedefs[n := to];
      ok := true;
    }

    method CreateStruct(name: string, align: nat, size: nat) returns (ok: bool, n: nat)
      requires TypesFine(View())
      modifies this`names, this`structs
      ensures ok <==> IdOf(old(View()), name).Unknown?
      ensures View() == if ok then Opened(old(View()), name, align, size) else old(View())
      ensures ok ==> n == |old(structs)| + 1
    {
      var known := IdOfName(name);
      if known != Unknown {
        return false, 0;
      }
      n := |structs| + 1;
      names := names[name := StructType(n)];
      structs := structs[n := Struct(align, 0, size, [])];
      ok := true;
    }

    method CreateCustomType(name: string, size: nat) returns (ok: bool)
      requires TypesFine(View())
      modifies this`names, this`customs
      ensures ok <==> IdOf(old(View()), name).Unknown?
      ensures View() == if ok then old(View()).(names := old(names)[name := CustomType(|old(customs)| + 1)],
        customs := old(customs)[|old(customs)| + 1 := size])
        else old(View())
    {
      var known := IdOfName(name);
      if known != Unknown {
        return false;
      }
      var n := |customs| + 1;
      names := names[name := CustomType(n)];
      customs := customs[n := size];
      ok := true;
    }

    method CreateEnum(name: string, base: TypeId) returns (ok: bool, n: nat)
      requires TypesFine(View())
      modifies this`names, this`enums
      ensures ok <==> IdOf(old(View()), name).Unknown?
      ensures View() == if ok then old(View()).(names := old(names)[name := EnumType(|old(enums)| + 1)],
        enums := old(enums)[|old(enums)| + 1 := Enumeration(base, [])])
        else old(View())
      ensures ok ==> n == |old(enums)| + 1
    {
      var known := IdOfName(name);
      if known != Unknown {
        return false, 0;
      }
      n := |enums| + 1;
      names := names[name := EnumType(n)];
      enums := enums[n := Enumeration(base, [])];
      ok := true;
    }

    /** Adds a member to the struct being laid out; fails on an error in it. */
    method AddField(own: nat, align: nat, p: Partial, m: Member) returns (r: Option<Partial>)
      requires TypesFine(View())
      ensures r == AddMember(View(), own, align, p, m)
    {
      hide TypesFine, Aligned;
      match m {
        case FieldDef(typeName, pointer, name, count) =>
          var id := IdOfName(typeName);
          if id == Unknown {
            return None;
          }
          if !pointer && id == StructType(own) {
            return None;
          }
          if HasField(p.fields, name) {
            return None;
          }
          var n := 1;
          if count.Some? {
            if count.value < 0 {
              return None;
            }
            n := count.value;
          }
          var unit := POINTER_SIZE;
          if !pointer {
            unit := SizeOfType(id);
          }
          var offset := Aligned(p.size, align, unit);
          var size := Wrap(unit * n);
          r := Some(Partial(p.fields + [Field(name, id, pointer, offset, n, size)], Wrap(offset + size)));
        case PadTo(at) =>
          if at < 0 || at < p.size {
            return None;
          }
          r := Some(Partial(p.fields + [Field(PADDING_NAME, Default(Padding), false, at, 1, 0)], at));
        case AssertOffset(at) =>
          if Wrap(at) != p.size {
            return None;
          }
          r := Some(p);
        case BadOperator => r := None;
      }
    }

    method AddFields(own: nat, align: nat, members: seq<Member>) returns (r: Option<Partial>)
      requires TypesFine(View())
      ensures r == AddMembers(View(), own, align, members)
    {
      hide TypesFine, AddMember;
      var p := Partial([], 0);
      for i := 0 to |members|
        invariant AddMembers(View(), own, align, members[..i]) == Some(p)
      {
        assert members[..i + 1][..i] == members[..i];
        var q := AddField(own, align, p, members[i]);
        if q.None? {
          AddedPrefix(View(), own, align, members, i + 1);
          return None;
        }
        p := q.value;
      }
      assert members[..|members|] == members;
      r := Some(p);
    }

    method BuildStruct(name: string, align: nat, forced: nat, members: seq<Member>) returns (ok: bool)
      requires Valid() && IdOf(View(), name).Unknown?
      modifies this`names, this`structs
      ensures ok <==> DefineStruct(old(View()), name, align, forced, members).Some?
      ensures ok ==> View() == DefineStruct(old(View()), name, align, forced, members).value
    {
      hide Fine, TypesFine, NamesFine, AddMembers, IdOf;
      ghost var t := View();
      FineParts(t);
      var n;
      ok, n := CreateStruct(name, align, forced);
      assert TypesFine(View()) by { OpenedFine(t, name, align, forced); }
      var p := AddFields(n, align, members);
      if p.None? || (forced > 0 && p.value.size > forced) {
        return false;
      }
      structs := structs[n := Struct(align, if forced > 0 then forced else p.value.size, forced, p.value.fields)];
    }

    method StructDefinition(align: Option<int>, size: Option<int>, name: string, members: seq<Member>)
      returns (ok: bool)
      requires Valid()
      modifies this`names, this`structs
      ensures ok <==> Define(old(View()), StructDef(align, size, name, members)).Some?
      ensures ok ==> View() == Define(old(View()), StructDef(align, size, name, members)).value
    {
      hide Fine, TypesFine, NamesFine, DefineStruct, IdOf, AddValues;
      FineParts(View());
      var a := this.align;
      if align.Some? {
        if !IsAlign(align.value) {
          return false;
        }
        a := align.value;
      }
      var forced := 0;
      if size.Some? {
        if size.value < 0 {
          return false;
        }
        forced := size.value;
      }
      var known := IdOfName(name);
      if known != Unknown {
        return false;
      }
      ok := BuildStruct(name, a, forced, members);
    }

    method CountValues(b: Basic, values: seq<(string, Option<int>)>) returns (r: Option<Counted>)
      ensures r == AddValues(b, values)
    {
      hide Fits, HasValue;
      var fields: seq<EnumField> := [];
      var current := -1;
      for i := 0 to |values|
        invariant AddValues(b, values[..i]) == Some(Counted(fields, current))
      {
        assert values[..i + 1][..i] == values[..i];
        var v := values[i];
        var value := if v.1.None? then WrapSigned(current + 1) else v.1.value;
        current := value;
        if !Fits(b, value) || HasValue(fields, v.0) {
          ValuesPrefix(b, values, i + 1);
          return None;
        }
        fields := fields + [EnumField(v.0, value)];
      }
      assert values[..|values|] == values;
      r := Some(Counted(fields, current));
    }

    method EnumDefinition(typeName: string, name: string, values: seq<(string, Option<int>)>) returns (ok: bool)
      requires Valid()
      modifies this`names, this`enums
      ensures ok <==> Define(old(View()), EnumDef(typeName, name, values)).Some?
      ensures ok ==> View() == Define(old(View()), EnumDef(typeName, name, values)).value
    {
      hide Fine, TypesFine, NamesFine, AddValues, DefineStruct;
      FineParts(View());
      var base := IdOfName(typeName);
      if !base.Default? || !IsInt(base.basic) {
        return false;
      }
      var n;
      ok, n := CreateEnum(name, base);
      if !ok {
        return;
      }
      var c := CountValues(base.basic, values);
      if c.None? {
        return false;
      }
      enums := enums[n := Enumeration(base, c.value.fields)];
    }

    method CustomDefinition(length: int, name: string) returns (ok: bool)
      requires Valid()
      modifies this`names, this`customs
      ensures ok <==> Define(old(View()), CustomDef(length, name)).Some?
      ensures ok ==> View() == Define(old(View()), CustomDef(length, name)).value
    {
      hide Fine, TypesFine, NamesFine, IdOf, DefineStruct, AddValues;
      FineParts(View());
      if length < 0 {
        return false;
      }
      ok := CreateCustomType(name, length);
    }

    method AliasDefinition(origin: string, name: string) returns (ok: bool)
      requires Valid()
      modifies this`names, this`typedefs
      ensures ok <==> Define(old(View()), AliasDef(origin, name)).Some?
      ensures ok ==> View() == Define(old(View()), AliasDef(origin, name)).value
    {
      hide Fine, TypesFine, NamesFine, IdOf, DefineStruct, AddValues;
      FineParts(View());
      var def := IdOfName(origin);
      if def == Unknown {
        return false;
      }
      ok := RegisterTypeDef(name, def);
    }

    method AlignDefinition(value: int) returns (ok: bool)
      modifies this`align
      ensures ok <==> Define(old(View()), AlignDef(value)).Some?
      ensures ok ==> View() == Define(old(View()), AlignDef(value)).value
    {
      if align != 0 || !IsAlign(value) {
        return false;
      }
      align := value;
      ok := true;
    }

    /** One definition of a source file. */
    method Process(d: Definition) returns (ok: bool)
      requires Valid() && IsSource(d)
      modifies this
      ensures ok <==> Define(old(View()), d).Some?
      ensures ok ==> View() == Define(old(View()), d).value && Valid() && Extends(old(View()), View())
    {
      hide Fine, Define, Extends, IsSource;
      ghost var t := View();
      if Define(t, d).Some? {
        DefineKeepsFine(t, d);
      }
      match d {
        case CustomDef(length, name) => ok := CustomDefinition(length, name);
        case StructDef(align, size, name, members) => ok := StructDefinition(align, size, name, members);
        case EnumDef(typeName, name, values) => ok := EnumDefinition(typeName, name, values);
        case AliasDef(origin, name) => ok := AliasDefinition(origin, name);
        case AlignDef(value) => ok := AlignDefinition(value);
      }
    }

    /** The definitions of a source file, up to the first error: the table stays well formed,
        and nothing defined before changes. */
    method Compile(ds: seq<Definition>) returns (ok: bool)
      requires Valid() && forall d :: d in ds ==> IsSource(d)
      modifies this
      ensures ok <==> DefineAll(old(View()), ds).Some?
      ensures ok ==> View() == DefineAll(old(View()), ds).value && Valid() && Extends(old(View()), View())
      ensures ok <==> exists t' :: DefinesAll(old(View()), ds, t')
      ensures ok ==> DefinesAll(old(View()), ds, View())
      ensures ok ==> forall n :: n in structs ==> Packed(View(), structs[n])
    {
      hide Fine, Extends, Define, IsSource, DefinesAll, Packed;
      ghost var t := View();
      forall t' ensures DefineAll(t, ds) == Some(t') <==> DefinesAll(t, ds, t') {
        DefineAllIs(t, ds, t');
      }
      ExtendsItself(t);
      for i := 0 to |ds|
        invariant DefineAll(t, ds[..i]) == Some(View()) && Valid() && Extends(t, View())
      {
        assert ds[i] in ds && ds[..i + 1][..i] == ds[..i];
        ghost var before := View();
        ok := Process(ds[i]);
        if !ok {
          DefinedPrefix(t, ds, i + 1);
          return;
        }
        ExtendsThen(t, before, View());
      }
      assert ds[..|ds|] == ds;
      forall n | n in structs ensures Packed(View(), structs[n]) {
        FinePacked(View(), n);
      }
      ok := true;
    }
  }

  lemma FineParts(t: Tables)
    requires Fine(t)
    ensures NamesFine(t) && TypesFine(t)
  {
  }

  lemma {:induction false} AddedPrefix(t: Tables, own: nat, align: nat, ms: seq<Member>, k: nat)
    requires k <= |ms| && AddMembers(t, own, align, ms[..k]).None?
    ensures AddMembers(t, own, align, ms).None?
    decreases |ms|
  {
    if k < |ms| {
      assert ms[..|ms| - 1][..k] == ms[..k];
      AddedPrefix(t, own, align, ms[..|ms| - 1], k);
    } else {
      assert ms[..k] == ms;
    }
  }

  lemma {:induction false} ValuesPrefix(b: Basic, vs: seq<(string, Option<int>)>, k: nat)
    requires k <= |vs| && AddValues(b, vs[..k]).None?
    ensures AddValues(b, vs).None?
    decreases |vs|
  {
    if k < |vs| {
      assert vs[..|vs| - 1][..k] == vs[..k];
      ValuesPrefix(b, vs[..|vs| - 1], k);
    } else {
      assert vs[..k] == vs;
    }
  }

  lemma {:induction false} DefinedPrefix(t: Tables, ds: seq<Definition>, k: nat)
    requires k <= |ds| && DefineAll(t, ds[..k]).None?
    ensures DefineAll(t, ds).None?
    decreases |ds|
  {
    if k < |ds| {
      assert ds[..|ds| - 1][..k] == ds[..k];
      DefinedPrefix(t, ds[..|ds| - 1], k);
    } else {
      assert ds[..k] == ds;
    }
  }
}
