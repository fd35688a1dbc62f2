/** DDL schemas: the mathematical bit layout of a struct, and when it has one. */
module DdlSchema {
  import opened Bits
  import opened Options
  import opened Reach

  type Hash = nat

  /** A member as declared. */
  datatype Decl =
    | Builtin(bits: nat, isArray: bool, arraySize: nat)
    | Class(typeName: Hash, isArray: bool, arraySize: nat)
  {
    function Count(): nat {
      if isArray then arraySize else 1
    }
  }

  /** Enums are given by their number of values. */
  datatype Schema = Schema(structs: map<Hash, seq<Decl>>, enums: map<Hash, nat>)

  function EnumSize(values: nat): (bits: nat)
    ensures bits == 8 || bits == 16 || bits == 32 || bits == 64
  {
    if values < 0x100 then 8
    else if values < 0x1_0000 then 16
    else if values < 0x1_0000_0000 then 32
    else 64
  }

  /** An enum's size has more codes than there are values; of 8, 16, 32 and 64 bits it is the
      least that does. */
  lemma {:induction false} EnumSizeIsLeast(values: nat)
    requires values < Pow2(64)
    ensures values < Pow2(EnumSize(values))
    ensures forall w :: w in {8, 16, 32, 64} && values < Pow2(w) ==> EnumSize(values) <= w
  {
    Powers();
  }

  /** The size of struct n in bits, if no by-value chain of `fuel` structs is too short for it. */
  ghost function Total(sch: Schema, n: Hash, fuel: nat): Option<nat>
    decreases fuel, 2, 0
  {
    if fuel == 0 || n !in sch.structs then None else SumOf(sch, sch.structs[n], fuel - 1)
  }

  ghost function SizeOf(sch: Schema, d: Decl, fuel: nat): Option<nat>
    decreases fuel, 3, 0
  {
    match d
    case Builtin(bits, _, _) => Some(bits)
    case Class(t, _, _) => if t in sch.enums then Some(EnumSize(sch.enums[t])) else Total(sch, t, fuel)
  }

  ghost function SumOf(sch: Schema, ds: seq<Decl>, fuel: nat): Option<nat>
    decreases fuel, 4, |ds|
  {
    if ds == [] then Some(0) else
      var init, last := SumOf(sch, ds[..|ds| - 1], fuel), SizeOf(sch, ds[|ds| - 1], fuel);
      if init.None? || last.None? then None else Some(init.value + last.value * ds[|ds| - 1].Count())
  }

  lemma {:induction false} MoreFuel(sch: Schema, ds: seq<Decl>, f: nat, g: nat)
    requires f <= g && SumOf(sch, ds, f).Some?
    ensures SumOf(sch, ds, g) == SumOf(sch, ds, f)
    decreases f, 1, |ds|
  {
    if ds != [] {
      MoreFuel(sch, ds[..|ds| - 1], f, g);
      MoreFuelMember(sch, ds[|ds| - 1], f, g);
    }
  }

  lemma {:induction false} MoreFuelMember(sch: Schema, d: Decl, f: nat, g: nat)
    requires f <= g && SizeOf(sch, d, f).Some?
    ensures SizeOf(sch, d, g) == SizeOf(sch, d, f)
    decreases f, 0, 0
  {
    if d.Class? && d.typeName !in sch.enums {
      MoreFuel(sch, sch.structs[d.typeName], f - 1, g - 1);
    }
  }

  // ---------- When a schema has no layout ----------

  /** The structs that struct n contains by value. */
  ghost function Contains(sch: Schema, n: Hash): set<Hash> {
    if n in sch.structs then
      set t | t in sch.structs && t !in sch.enums && exists i ::
        0 <= i < |sch.structs[n]| && IsClass(sch.structs[n][i], t)
    else {}
  }

  predicate IsClass(d: Decl, t: Hash) {
    d.Class? && d.typeName == t
  }

  ghost function StructGraph(sch: Schema): Graph<Hash> {
    map n | n in sch.structs :: Contains(sch, n)
  }

  predicate Unknown(sch: Schema, d: Decl) {
    d.Class? && d.typeName !in sch.enums && d.typeName !in sch.structs
  }

  /** Some member's type is neither a builtin, nor an enum, nor a struct. */
  ghost predicate HasUnknown(sch: Schema, n: Hash) {
    n in sch.structs && exists i :: 0 <= i < |sch.structs[n]| && Unknown(sch, sch.structs[n][i])
  }

  ghost predicate OnCycle(sch: Schema, n: Hash) {
    n in sch.structs && exists m :: m in Contains(sch, n) && Reaches(StructGraph(sch), m, n)
  }

  /** A by-value chain from n meets an unknown type or closes a cycle. */
  ghost predicate Broken(sch: Schema, n: Hash) {
    exists m :: Reaches(StructGraph(sch), n, m) && (HasUnknown(sch, m) || OnCycle(sch, m))
  }

  lemma {:induction false} MembersSized(sch: Schema, ds: seq<Decl>, f: nat, i: nat)
    requires SumOf(sch, ds, f).Some? && i < |ds|
    ensures SizeOf(sch, ds[i], f).Some?
    decreases |ds|
  {
    if i < |ds| - 1 {
      MembersSized(sch, ds[..|ds| - 1], f, i);
    }
  }

  lemma {:induction false} SizedContains(sch: Schema, n: Hash, f: nat, m: Hash)
    requires Total(sch, n, f).Some? && m in Contains(sch, n)
    ensures f > 0 && Total(sch, m, f - 1).Some?
  {
    var i :| 0 <= i < |sch.structs[n]| && IsClass(sch.structs[n][i], m);
    MembersSized(sch, sch.structs[n], f - 1, i);
  }

  /** Whatever a sized struct contains, directly or not, is sized. */
  lemma {:induction false} SizedReaches(sch: Schema, p: seq<Hash>, n: Hash, m: Hash, f: nat)
    requires Total(sch, n, f).Some? && Joins(StructGraph(sch), p, n, m)
    ensures Total(sch, m, f).Some?
    decreases |p|
  {
    if |p| > 1 {
      var g := StructGraph(sch);
      assert p[0] in g && p[1] in g[p[0]];
      SizedContains(sch, n, f, p[1]);
      forall i | 0 <= i < |p[1..]| - 1 ensures p[1..][i] in g && p[1..][i + 1] in g[p[1..][i]] {
        assert p[i + 1] in g && p[i + 2] in g[p[i + 1]];
      }
      MoreFuel(sch, sch.structs[p[1]], f - 2, f - 1);
      SizedReaches(sch, p[1..], p[1], m, f);
    }
  }

  lemma {:induction false} SizedHasNoCycle(sch: Schema, n: Hash, m: Hash, f: nat)
    requires m in Contains(sch, n) && Reaches(StructGraph(sch), m, n)
    ensures Total(sch, n, f).None?
  {
    if Total(sch, n, f).Some? {
      SizedContains(sch, n, f, m);
      var p :| Joins(StructGraph(sch), p, m, n);
      SizedReaches(sch, p, m, n, f - 1);
      SizedHasNoCycle(sch, n, m, f - 1);
    }
  }

  /** A struct with a size is not broken. */
  lemma {:induction false} SizedIsNotBroken(sch: Schema, n: Hash, f: nat)
    requires Total(sch, n, f).Some?
    ensures !Broken(sch, n)
  {
    forall m | Reaches(StructGraph(sch), n, m)
      ensures !HasUnknown(sch, m) && !OnCycle(sch, m)
    {
      var p :| Joins(StructGraph(sch), p, n, m);
      SizedReaches(sch, p, n, m, f);
      if HasUnknown(sch, m) {
        var i :| 0 <= i < |sch.structs[m]| && Unknown(sch, sch.structs[m][i]);
        MembersSized(sch, sch.structs[m], f - 1, i);
      }
      if OnCycle(sch, m) {
        var k :| k in Contains(sch, m) && Reaches(StructGraph(sch), k, m);
        SizedHasNoCycle(sch, m, k, f);
      }
    }
  }

  // ---------- The root and cycles through it ----------

  /** A member by whose type the root can be reached. */
  ghost predicate Rooted(sch: Schema, root: Hash, d: Decl) {
    d.Class? && d.typeName !in sch.enums && d.typeName in sch.structs && Reaches(StructGraph(sch), d.typeName, root)
  }

  /** None of the first k members of n is rooted. */
  ghost predicate Clean(sch: Schema, root: Hash, n: Hash, k: nat) {
    n in sch.structs && k <= |sch.structs[n]| && forall i :: 0 <= i < k ==> !Rooted(sch, root, sch.structs[n][i])
  }

  ghost predicate RootedStruct(sch: Schema, root: Hash, n: Hash) {
    n in sch.structs && !Clean(sch, root, n, |sch.structs[n]|)
  }

  /** The schema without the members of the root's type. */
  ghost function Cut(sch: Schema, root: Hash): (r: Schema)
    ensures r.enums == sch.enums && r.structs.Keys == sch.structs.Keys
    ensures forall n :: n in sch.structs ==> |r.structs[n]| == |sch.structs[n]|
    ensures forall n, i :: n in sch.structs && 0 <= i < |sch.structs[n]| ==>
      r.structs[n][i] == CutDecl(sch, root, sch.structs[n][i])
  {
    Schema(map n | n in sch.structs ::
      seq(|sch.structs[n]|, i requires 0 <= i < |sch.structs[n]| => CutDecl(sch, root, sch.structs[n][i])), sch.enums)
  }

  ghost function CutDecl(sch: Schema, root: Hash, d: Decl): Decl {
    if d.Class? && d.typeName == root && root !in sch.enums then Builtin(0, d.isArray, d.arraySize) else d
  }

  /** Member f is the first that reaches the root; `sum` bits lie before it. */
  ghost predicate FirstRooted(sch: Schema, root: Hash, f: nat, fuel: nat, sum: nat) {
    && Clean(sch, root, root, f) && f < |sch.structs[root]| && Rooted(sch, root, sch.structs[root][f])
    && SumOf(sch, sch.structs[root][..f], fuel) == Some(sum)
  }

  /** Two members of the root reach it. */
  ghost predicate RootedTwice(sch: Schema, root: Hash) {
    root in sch.structs &&
    exists f, g :: 0 <= f < g < |sch.structs[root]| && Rooted(sch, root, sch.structs[root][f]) &&
      Rooted(sch, root, sch.structs[root][g])
  }

  lemma {:induction false} OneFirstRooted(sch: Schema, root: Hash, f: nat, fuel: nat, sum: nat, f': nat, fuel': nat,
                                          sum': nat)
    requires FirstRooted(sch, root, f, fuel, sum) && FirstRooted(sch, root, f', fuel', sum')
    ensures f == f' && sum == sum'
  {
    var ds := sch.structs[root];
    assert f == f';
    if fuel <= fuel' {
      MoreFuel(sch, ds[..f], fuel, fuel');
    } else {
      MoreFuel(sch, ds[..f], fuel', fuel);
    }
  }

  lemma {:induction false} CutGraph(sch: Schema, root: Hash)
    ensures forall n :: n in StructGraph(Cut(sch, root)) ==>
      n in StructGraph(sch) && StructGraph(Cut(sch, root))[n] <= StructGraph(sch)[n]
    ensures forall n :: n in StructGraph(sch) ==>
      n in StructGraph(Cut(sch, root)) && StructGraph(sch)[n] - {root} <= StructGraph(Cut(sch, root))[n]
  {
    var v := Cut(sch, root);
    forall n | n in sch.structs
      ensures Contains(v, n) <= Contains(sch, n) && Contains(sch, n) - {root} <= Contains(v, n) {
      forall t | t in Contains(v, n) ensures t in Contains(sch, n) {
        var i :| 0 <= i < |v.structs[n]| && IsClass(v.structs[n][i], t);
        assert IsClass(sch.structs[n][i], t);
      }
      forall t | t in Contains(sch, n) && t != root ensures t in Contains(v, n) {
        var i :| 0 <= i < |sch.structs[n]| && IsClass(sch.structs[n][i], t);
        assert IsClass(v.structs[n][i], t);
      }
    }
  }

  lemma {:induction false} CutReaches(sch: Schema, root: Hash, a: Hash, b: Hash)
    requires Reaches(StructGraph(Cut(sch, root)), a, b)
    ensures Reaches(StructGraph(sch), a, b)
  {
    CutGraph(sch, root);
    ReachesMore(StructGraph(Cut(sch, root)), StructGraph(sch), a, b);
  }

  lemma {:induction false} CutUnknown(sch: Schema, root: Hash, m: Hash)
    requires HasUnknown(Cut(sch, root), m)
    ensures HasUnknown(sch, m)
  {
    var v := Cut(sch, root);
    var i :| 0 <= i < |v.structs[m]| && Unknown(v, v.structs[m][i]);
    assert Unknown(sch, sch.structs[m][i]);
  }

  lemma {:induction false} CutCycle(sch: Schema, root: Hash, m: Hash)
    requires OnCycle(Cut(sch, root), m)
    ensures OnCycle(sch, m)
  {
    var v := Cut(sch, root);
    var k :| k in Contains(v, m) && Reaches(StructGraph(v), k, m);
    CutGraph(sch, root);
    CutReaches(sch, root, k, m);
    assert m in StructGraph(v) && k in StructGraph(sch)[m];
  }

  /** What is wrong with the cut schema is wrong with the schema. */
  lemma {:induction false} CutBroken(sch: Schema, root: Hash)
    requires Broken(Cut(sch, root), root)
    ensures Broken(sch, root)
  {
    var v := Cut(sch, root);
    var m :| Reaches(StructGraph(v), root, m) && (HasUnknown(v, m) || OnCycle(v, m));
    CutReaches(sch, root, root, m);
    hide HasUnknown, OnCycle, Cut;
    if HasUnknown(v, m) {
      CutUnknown(sch, root, m);
    } else {
      CutCycle(sch, root, m);
    }
  }

  /** The root is on a cycle exactly if one of its members is rooted. */
  lemma {:induction false} RootOnCycle(sch: Schema, root: Hash)
    ensures OnCycle(sch, root) <==> RootedStruct(sch, root, root)
  {
    if OnCycle(sch, root) {
      var c :| c in Contains(sch, root) && Reaches(StructGraph(sch), c, root);
      var i :| 0 <= i < |sch.structs[root]| && IsClass(sch.structs[root][i], c);
      assert Rooted(sch, root, sch.structs[root][i]);
    }
    if RootedStruct(sch, root, root) {
      var i :| 0 <= i < |sch.structs[root]| && Rooted(sch, root, sch.structs[root][i]);
      assert IsClass(sch.structs[root][i], sch.structs[root][i].typeName);
      assert sch.structs[root][i].typeName in Contains(sch, root);
    }
  }

  /** What the root reaches is rooted only if the root is on a cycle. */
  lemma {:induction false} RootedMeansCycle(sch: Schema, root: Hash, n: Hash, i: nat)
    requires root in sch.structs && n in sch.structs && i < |sch.structs[n]| && Rooted(sch, root, sch.structs[n][i])
    requires Reaches(StructGraph(sch), root, n)
    ensures OnCycle(sch, root)
  {
    var t := sch.structs[n][i].typeName;
    assert IsClass(sch.structs[n][i], t) && t in StructGraph(sch)[n];
    ReachesFrom(StructGraph(sch), root, n);
    if n != root {
      var c :| c in StructGraph(sch)[root] && Reaches(StructGraph(sch), c, n);
      ReachesStep(StructGraph(sch), c, n, t);
      ReachesThrough(StructGraph(sch), c, t, root);
    }
  }

  /** Off all cycles through the root, cutting them changes nothing that the root reaches. */
  lemma {:induction false} CutReachesAll(sch: Schema, root: Hash, n: Hash)
    requires root in sch.structs && !OnCycle(sch, root) && Reaches(StructGraph(sch), root, n)
    ensures Reaches(StructGraph(Cut(sch, root)), root, n)
  {
    var v := Cut(sch, root);
    var inside := set m | m in sch.structs && Reaches(StructGraph(v), root, m);
    CutGraph(sch, root);
    ReachesSelf(StructGraph(v), root);
    forall a, t | a in inside && t in Contains(sch, a) ensures t in inside {
      CutReaches(sch, root, root, a);
      if t == root {
        var i :| 0 <= i < |sch.structs[a]| && IsClass(sch.structs[a][i], t);
        ReachesSelf(StructGraph(sch), root);
        RootedMeansCycle(sch, root, a, i);
      } else {
        assert a in StructGraph(sch) && t in StructGraph(sch)[a] - {root};
        ReachesStep(StructGraph(v), root, a, t);
      }
    }
    assert ClosedSet(StructGraph(sch), inside);
    StaysInside(StructGraph(sch), inside, root, n);
  }
}
