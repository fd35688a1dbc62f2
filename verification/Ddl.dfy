/** The DDL compiler's layout pass, DDLCompiled::CompleteStruct. Sizes are 64-bit words. */
module Ddl {
  import opened Options
  import opened Reach
  import opened DdlSchema

  const WORD := 0x1_0000_0000_0000_0000

  type Word = w: nat | w < WORD

  /** `size` is given for builtin types and computed for classes. */
  datatype DDLMember = DDLMember(typeName: Hash, isClass: bool, isArray: bool, arraySize: Word, offset: Word,
    size: Word)

  datatype DDLStruct = DDLStruct(size: Word, values: seq<DDLMember>)

  function Add(a: Word, b: Word): Word {
    (a + b) % WORD
  }

  function Mul(a: Word, b: Word): Word {
    (a * b) % WORD
  }

  function Count(m: DDLMember): Word {
    if m.isArray then m.arraySize else 1
  }

  function DeclOf(m: DDLMember): Decl {
    if m.isClass then Class(m.typeName, m.isArray, m.arraySize) else Builtin(m.size, m.isArray, m.arraySize)
  }

  function DeclsOf(ms: seq<DDLMember>): (ds: seq<Decl>)
    ensures |ds| == |ms| && forall i :: 0 <= i < |ms| ==> ds[i] == DeclOf(ms[i])
  {
    seq(|ms|, i requires 0 <= i < |ms| => DeclOf(ms[i]))
  }

  ghost function SchemaOf(structs: map<Hash, DDLStruct>, enums: map<Hash, nat>): (sch: Schema)
    ensures sch.enums == enums && sch.structs.Keys == structs.Keys
    ensures forall n :: n in structs ==> sch.structs[n] == DeclsOf(structs[n].values)
  {
    Schema(map n | n in structs :: DeclsOf(structs[n].values), enums)
  }

  /** The first k members lie one after the other, and `size` bits are used, modulo the word size. */
  ghost predicate Placed(sch: Schema, ms: seq<DDLMember>, k: nat, size: Word, fuel: nat) {
    && k <= |ms|
    && SumOf(sch, DeclsOf(ms)[..k], fuel).Some?
    && size == SumOf(sch, DeclsOf(ms)[..k], fuel).value % WORD
    && (forall i :: 0 <= i < k ==> MemberPlaced(sch, ms, i, fuel))
  }

  ghost predicate MemberPlaced(sch: Schema, ms: seq<DDLMember>, i: nat, fuel: nat)
    requires i < |ms|
  {
    && SumOf(sch, DeclsOf(ms)[..i], fuel).Some? && SizeOf(sch, DeclOf(ms[i]), fuel).Some?
    && ms[i].offset == SumOf(sch, DeclsOf(ms)[..i], fuel).value % WORD
    && ms[i].size == SizeOf(sch, DeclOf(ms[i]), fuel).value % WORD
  }

  /** A finished struct: contiguous members from offset 0, total size, both modulo the word size. */
  ghost predicate Laid(sch: Schema, s: DDLStruct) {
    exists fuel: nat :: Placed(sch, s.values, |s.values|, s.size, fuel)
  }

  lemma {:induction false} ModStep(sum: nat, size: nat, count: nat)
    ensures Add(sum % WORD, Mul(size % WORD, count % WORD)) == (sum + size * count) % WORD
  {
    ModMul(size, count);
    var p, q := sum / WORD, (size * count) / WORD;
    assert sum + size * count == (sum % WORD + (size * count) % WORD) + (p + q) * WORD;
    ModPlus(sum % WORD + (size * count) % WORD, p + q);
  }

  lemma MulOne(a: Word)
    ensures Mul(a, 1) == a
  {
  }

  lemma ModPlus(a: int, k: int)
    ensures (a + k * WORD) % WORD == a % WORD
  {
  }

  lemma {:induction false} ModMul(a: nat, b: nat)
    ensures ((a % WORD) * (b % WORD)) % WORD == (a * b) % WORD
  {
    var x, y, p, q := a % WORD, b % WORD, a / WORD, b / WORD;
    assert a == x + p * WORD && b == y + q * WORD;
    assert a * b == x * y + (x * q + p * y + p * q * WORD) * WORD by {
      assert a * b == x * b + p * WORD * b;
      assert x * b == x * y + x * q * WORD;
      assert p * WORD * b == (p * y + p * q * WORD) * WORD;
    }
    ModPlus(x * y, x * q + p * y + p * q * WORD);
  }

  /** Member i has been put at the end of s, and the end has moved behind it. */
  predicate Follows(s: DDLStruct, t: DDLStruct, i: nat) {
    && i < |s.values| == |t.values| && t.values[i].offset == s.size && t.size == EndOf(t.values[i])
    && SameDeclaration(s.values[i], t.values[i])
    && forall j :: 0 <= j < |s.values| && j != i ==> t.values[j] == s.values[j]
  }

  // ---------- Steps of the layout loop ----------

  lemma {:induction false} PlacedMoreFuel(sch: Schema, ms: seq<DDLMember>, k: nat, size: Word, f: nat, g: nat)
    requires Placed(sch, ms, k, size, f) && f <= g
    ensures Placed(sch, ms, k, size, g)
  {
    MoreFuel(sch, DeclsOf(ms)[..k], f, g);
    forall i | 0 <= i < k ensures MemberPlaced(sch, ms, i, g) {
      assert MemberPlaced(sch, ms, i, f);
      MoreFuel(sch, DeclsOf(ms)[..i], f, g);
      MoreFuelMember(sch, DeclOf(ms[i]), f, g);
    }
  }

  lemma PlacedStart(sch: Schema, ms: seq<DDLMember>)
    ensures Placed(sch, ms, 0, 0, 0)
  {
  }

  /** Placing the next member at the current size. */
  lemma {:induction false} PlacedStep(sch: Schema, ms: seq<DDLMember>, i: nat, size: Word, fuel: nat, sz: Word)
    requires i < |ms| && Placed(sch, ms, i, size, fuel)
    requires SizeOf(sch, DeclOf(ms[i]), fuel).Some? && sz == SizeOf(sch, DeclOf(ms[i]), fuel).value % WORD
    requires !ms[i].isClass ==> sz == ms[i].size
    ensures DeclsOf(ms[i := ms[i].(offset := size, size := sz)]) == DeclsOf(ms)
    ensures Placed(sch, ms[i := ms[i].(offset := size, size := sz)], i + 1, Add(size, Mul(sz, Count(ms[i]))), fuel)
  {
    hide Add, Mul;
    var ms' := ms[i := ms[i].(offset := size, size := sz)];
    var ds := DeclsOf(ms);
    assert DeclsOf(ms') == ds;
    assert ds[..i + 1][..i] == ds[..i] && ds[i] == DeclOf(ms[i]);
    var sum, v := SumOf(sch, ds[..i], fuel).value, SizeOf(sch, ds[i], fuel).value;
    assert SumOf(sch, ds[..i + 1], fuel) == Some(sum + v * Count(ms[i]));
    ModStep(sum, v, Count(ms[i]));
    assert Count(ms[i]) % WORD == Count(ms[i]);
    forall j | 0 <= j < i + 1 ensures MemberPlaced(sch, ms', j, fuel) {
      assert j < i ==> MemberPlaced(sch, ms, j, fuel);
    }
  }

  /** A laid struct has a mathematical size, and its size is that size as a word. */
  lemma {:induction false} LaidIsSized(structs: map<Hash, DDLStruct>, enums: map<Hash, nat>, n: Hash)
    returns (fuel: nat)
    requires n in structs && Laid(SchemaOf(structs, enums), structs[n])
    ensures fuel > 0 && Total(SchemaOf(structs, enums), n, fuel).Some?
    ensures structs[n].size == Total(SchemaOf(structs, enums), n, fuel).value % WORD
  {
    var sch, s := SchemaOf(structs, enums), structs[n];
    var f: nat :| Placed(sch, s.values, |s.values|, s.size, f);
    assert DeclsOf(s.values)[..|s.values|] == DeclsOf(s.values);
    fuel := f + 1;
  }

  // ---------- Why completion fails ----------

  lemma {:induction false} UnknownBreaks(sch: Schema, root: Hash, n: Hash, i: nat)
    requires n in sch.structs && i < |sch.structs[n]| && Unknown(sch, sch.structs[n][i])
    requires Reaches(StructGraph(sch), root, n)
    ensures Broken(sch, root)
  {
    assert HasUnknown(sch, n);
  }

  lemma {:induction false} CycleBreaks(sch: Schema, root: Hash, n: Hash, i: nat, t: Hash)
    requires n in sch.structs && i < |sch.structs[n]| && IsClass(sch.structs[n][i], t)
    requires t in sch.structs && t !in sch.enums
    requires Reaches(StructGraph(sch), root, n) && Reaches(StructGraph(sch), t, n)
    ensures Broken(sch, root)
  {
    assert t in Contains(sch, n);
    assert OnCycle(sch, n);
  }

  lemma {:induction false} ChainGrows(sch: Schema, n: Hash, i: nat, t: Hash, a: Hash)
    requires n in sch.structs && i < |sch.structs[n]| && IsClass(sch.structs[n][i], t)
    requires t in sch.structs && t !in sch.enums && Reaches(StructGraph(sch), a, n)
    ensures Reaches(StructGraph(sch), a, t)
  {
    assert t in Contains(sch, n);
    ReachesStep(StructGraph(sch), a, n, t);
  }

  // ---------- What is known of completed structs ----------

  /** The types of the first k members are known, and those that are structs are finished. */
  ghost predicate Covered(sch: Schema, n: Hash, k: nat, finished: set<Hash>) {
    n in sch.structs && k <= |sch.structs[n]| && forall i ::
      0 <= i < k ==> CoveredDecl(sch, sch.structs[n][i], finished)
  }

  ghost predicate CoveredDecl(sch: Schema, d: Decl, finished: set<Hash>) {
    d.Builtin? || d.typeName in sch.enums || d.typeName in finished
  }

  ghost predicate Sized(sch: Schema, n: Hash) {
    n in sch.structs && exists fuel: nat :: SumOf(sch, sch.structs[n], fuel).Some?
  }

  /** The bits before the first member of the root that reaches the root are not a multiple of
      the word size: a completion that comes back to the root finds it sized. */
  ghost predicate NonzeroStart(sch: Schema, root: Hash) {
    exists f, fuel, sum: nat :: FirstRooted(sch, root, f, fuel, sum) && sum % WORD != 0
  }

  /** They are such a multiple: it finds it unsized. */
  ghost predicate ZeroStart(sch: Schema, root: Hash) {
    exists f, fuel, sum: nat :: FirstRooted(sch, root, f, fuel, sum) && sum % WORD == 0
  }

  lemma {:induction false} OneStart(sch: Schema, root: Hash)
    ensures !(NonzeroStart(sch, root) && ZeroStart(sch, root))
  {
    if NonzeroStart(sch, root) && ZeroStart(sch, root) {
      var f, fuel, sum: nat :| FirstRooted(sch, root, f, fuel, sum) && sum % WORD != 0;
      var f', fuel', sum': nat :| FirstRooted(sch, root, f', fuel', sum') && sum' % WORD == 0;
      OneFirstRooted(sch, root, f, fuel, sum, f', fuel', sum');
    }
  }

  /** Rewriting a struct's offsets and sizes does not change the schema. */
  lemma {:induction false} SameSchema(structs: map<Hash, DDLStruct>, enums: map<Hash, nat>, n: Hash, s: DDLStruct)
    requires n in structs && DeclsOf(s.values) == DeclsOf(structs[n].values)
    ensures SchemaOf(structs[n := s], enums) == SchemaOf(structs, enums)
  {
    assert SchemaOf(structs[n := s], enums).structs == SchemaOf(structs, enums).structs;
  }

  /** What is known of the structs outside `open`. Finished structs have a size once members
      of the root's type are cut; those that do not reach the root are laid out exactly. */
  ghost predicate Completed(sch: Schema, root: Hash, structs: map<Hash, DDLStruct>, finished: set<Hash>,
                            open: set<Hash>) {
    && finished <= structs.Keys
    && (forall n :: n in finished ==> n in sch.structs && Covered(Cut(sch, root), n, |sch.structs[n]|, finished))
    && (forall n :: n in finished && n !in open ==> Sized(Cut(sch, root), n))
    && (forall n :: n in finished && n !in open && !RootedStruct(sch, root, n) ==> Laid(sch, structs[n]))
    && (forall n :: n in finished && RootedStruct(sch, root, n) ==> NonzeroStart(sch, root))
    && (forall n :: n in structs && n !in open && structs[n].size != 0 ==> n in finished)
  }

  lemma {:induction false} CoveredMore(sch: Schema, n: Hash, k: nat, finished: set<Hash>, finished': set<Hash>)
    requires Covered(sch, n, k, finished) && finished <= finished'
    ensures Covered(sch, n, k, finished')
  {
    forall i | 0 <= i < k ensures CoveredDecl(sch, sch.structs[n][i], finished') {
      assert CoveredDecl(sch, sch.structs[n][i], finished);
    }
  }

  lemma CoveredStep(sch: Schema, n: Hash, i: nat, finished: set<Hash>)
    requires Covered(sch, n, i, finished) && i < |sch.structs[n]| && CoveredDecl(sch, sch.structs[n][i], finished)
    ensures Covered(sch, n, i + 1, finished)
  {
  }

  lemma AlreadySized(sch: Schema, root: Hash, structs: map<Hash, DDLStruct>, finished: set<Hash>,
                     open: set<Hash>, n: Hash)
    requires Completed(sch, root, structs, finished, open) && n in structs && n !in open && structs[n].size != 0
    ensures n in finished
  {
  }

  lemma OpenMore(sch: Schema, root: Hash, structs: map<Hash, DDLStruct>, finished: set<Hash>,
                 open: set<Hash>, open': set<Hash>)
    requires Completed(sch, root, structs, finished, open) && open <= open'
    ensures Completed(sch, root, structs, finished, open')
  {
  }

  /** Rewriting an open struct leaves what is known of the others. */
  lemma WriteOpen(sch: Schema, root: Hash, structs: map<Hash, DDLStruct>, finished: set<Hash>,
                  open: set<Hash>, n: Hash, s: DDLStruct)
    requires Completed(sch, root, structs, finished, open) && n in open && n in structs
    ensures Completed(sch, root, structs[n := s], finished, open)
  {
  }

  /** The first k members of n: sized when the root is cut, placed exactly as long as none of
      them reaches the root, and if one does, the root did not start at zero. */
  ghost predicate Under(sch: Schema, root: Hash, structs: map<Hash, DDLStruct>, finished: set<Hash>, n: Hash, k: nat,
                        fuel: nat) {
    && n in structs && n in sch.structs && |sch.structs[n]| == |structs[n].values| && k <= |sch.structs[n]|
    && Covered(Cut(sch, root), n, k, finished)
    && SumOf(Cut(sch, root), Cut(sch, root).structs[n][..k], fuel).Some?
    && (Clean(sch, root, n, k) ==> Placed(sch, structs[n].values, k, structs[n].size, fuel))
    && (!Clean(sch, root, n, k) ==> NonzeroStart(sch, root))
  }

  lemma {:induction false} UnderStart(sch: Schema, root: Hash, structs: map<Hash, DDLStruct>, finished: set<Hash>,
                                      n: Hash)
    requires n in structs && n in sch.structs && |sch.structs[n]| == |structs[n].values| && structs[n].size == 0
    ensures Under(sch, root, structs, finished, n, 0, 0)
  {
    PlacedStart(sch, structs[n].values);
  }

  /** A struct all of whose members are placed is finished. */
  lemma {:induction false} FinishStruct(sch: Schema, root: Hash, structs: map<Hash, DDLStruct>, finished: set<Hash>,
                                        open: set<Hash>, n: Hash, fuel: nat)
    requires Completed(sch, root, structs, finished, open) && n in sch.structs && sch.structs.Keys == structs.Keys
    requires Under(sch, root, structs, finished, n, |sch.structs[n]|, fuel)
    ensures Completed(sch, root, structs, finished + {n}, open - {n})
  {
    var v := Cut(sch, root);
    hide NonzeroStart, Clean, Placed, SumOf, CutDecl;
    forall k | k in finished + {n} ensures k in sch.structs && Covered(v, k, |sch.structs[k]|, finished + {n}) {
      CoveredMore(v, k, |sch.structs[k]|, finished, finished + {n});
    }
    assert v.structs[n][..|sch.structs[n]|] == v.structs[n];
    assert Sized(v, n);
    assert !RootedStruct(sch, root, n) ==> Laid(sch, structs[n]);
  }

  // ---------- A member's type and the root ----------

  /** A struct that does not reach the root has no rooted member. */
  lemma {:induction false} NotRooted(sch: Schema, root: Hash, t: Hash)
    requires t in sch.structs && !Reaches(StructGraph(sch), t, root)
    ensures !RootedStruct(sch, root, t)
  {
    forall i | 0 <= i < |sch.structs[t]| && Rooted(sch, root, sch.structs[t][i]) ensures false {
      var c := sch.structs[t][i].typeName;
      assert IsClass(sch.structs[t][i], c) && c in StructGraph(sch)[t];
      ReachesAfter(StructGraph(sch), t, c, root);
    }
  }

  /** A struct that reaches the root has a rooted member. */
  lemma {:induction false} RootedByType(sch: Schema, root: Hash, t: Hash)
    requires t in sch.structs && t != root && Reaches(StructGraph(sch), t, root)
    ensures RootedStruct(sch, root, t)
  {
    ReachesFrom(StructGraph(sch), t, root);
    var c :| c in StructGraph(sch)[t] && Reaches(StructGraph(sch), c, root);
    var i :| 0 <= i < |sch.structs[t]| && IsClass(sch.structs[t][i], c);
    assert Rooted(sch, root, sch.structs[t][i]);
  }

  /** The next member, with what is known of its type's size. */
  ghost predicate Fits(sch: Schema, root: Hash, finished: set<Hash>, d: Decl, size: Word, fuel: nat) {
    && CoveredDecl(Cut(sch, root), CutDecl(sch, root, d), finished)
    && SizeOf(Cut(sch, root), CutDecl(sch, root, d), fuel).Some?
    && (if Rooted(sch, root, d) then NonzeroStart(sch, root)
        else SizeOf(sch, d, fuel).Some? && size == SizeOf(sch, d, fuel).value % WORD)
  }

  lemma {:induction false} UnderMore(sch: Schema, root: Hash, structs: map<Hash, DDLStruct>,
                                     structs': map<Hash, DDLStruct>,
                                     finished: set<Hash>, finished': set<Hash>, n: Hash, k: nat, f: nat, g: nat)
    requires Under(sch, root, structs, finished, n, k, f) && f <= g && finished <= finished'
    requires n in structs && n in structs' && structs'[n] == structs[n]
    ensures Under(sch, root, structs', finished', n, k, g)
  {
    hide NonzeroStart, Clean, Placed, SumOf, CutDecl;
    MoreFuel(Cut(sch, root), Cut(sch, root).structs[n][..k], f, g);
    CoveredMore(Cut(sch, root), n, k, finished, finished');
    if Clean(sch, root, n, k) {
      PlacedMoreFuel(sch, structs[n].values, k, structs[n].size, f, g);
    }
  }

  /** Placing member i of n, of a type of this size. */
  lemma {:induction false} UnderStep(sch: Schema, root: Hash, structs: map<Hash, DDLStruct>, enums: map<Hash, nat>,
                                     finished: set<Hash>,
                                     n: Hash, i: nat, fuel: nat, size: Word)
    requires sch == SchemaOf(structs, enums) && Under(sch, root, structs, finished, n, i, fuel) && i < |sch.structs[n]|
    requires Fits(sch, root, finished, sch.structs[n][i], size, fuel)
    requires !structs[n].values[i].isClass ==> size == structs[n].values[i].size
    ensures var ms := structs[n].values;
      var s := DDLStruct(Add(structs[n].size, Mul(size, Count(ms[i]))),
        ms[i := ms[i].(offset := structs[n].size, size := size)]);
      && SchemaOf(structs[n := s], enums) == sch && DeclsOf(s.values) == DeclsOf(ms)
      && Under(sch, root, structs[n := s], finished, n, i + 1, fuel)
  {
    hide NonzeroStart, Placed, Add, Mul, CutDecl, Rooted;
    var ms, v := structs[n].values, Cut(sch, root);
    var s := DDLStruct(Add(structs[n].size, Mul(size, Count(ms[i]))),
      ms[i := ms[i].(offset := structs[n].size, size := size)]);
    SameDecls(ms, i, structs[n].size, size);
    SameSchema(structs, enums, n, s);
    CoveredStep(v, n, i, finished);
    assert v.structs[n][..i + 1][..i] == v.structs[n][..i];
    if Clean(sch, root, n, i + 1) {
      assert Clean(sch, root, n, i) && !Rooted(sch, root, sch.structs[n][i]);
      PlacedStep(sch, ms, i, structs[n].size, fuel, size);
    } else if Clean(sch, root, n, i) {
      assert Rooted(sch, root, sch.structs[n][i]);
    }
  }

  lemma SameDecls(ms: seq<DDLMember>, i: nat, offset: Word, size: Word)
    requires i < |ms| && (!ms[i].isClass ==> size == ms[i].size)
    ensures DeclsOf(ms[i := ms[i].(offset := offset, size := size)]) == DeclsOf(ms)
  {
  }

  // ---------- Meeting the root again ----------

  /** The root, with its first k members placed: if one of them reaches the root, it is sized,
      unless a size has overflowed. */
  ghost predicate RootUnder(sch: Schema, root: Hash, structs: map<Hash, DDLStruct>, finished: set<Hash>, k: nat,
                            wrapped: bool) {
    && (exists fuel: nat :: Under(sch, root, structs, finished, root, k, fuel))
    && (!Clean(sch, root, root, k) && !wrapped ==> structs[root].size != 0)
  }

  lemma {:induction false} RootUnderMore(sch: Schema, root: Hash, structs: map<Hash, DDLStruct>,
                                         structs': map<Hash, DDLStruct>, finished: set<Hash>,
                                         finished': set<Hash>, k: nat, wrapped: bool, wrapped': bool)
    requires RootUnder(sch, root, structs, finished, k, wrapped) && finished <= finished' && (wrapped ==> wrapped')
    requires root in structs && root in structs' && structs'[root] == structs[root]
    ensures RootUnder(sch, root, structs', finished', k, wrapped')
  {
    hide Placed, Clean, NonzeroStart, Covered, SumOf;
    var fuel: nat :| Under(sch, root, structs, finished, root, k, fuel);
    UnderMore(sch, root, structs, structs', finished, finished', root, k, fuel, fuel);
  }

  /** A completion that meets the root below its member k finds it sized exactly if the bits
      before the first such member were not zero, unless a size has overflowed since. */
  lemma {:induction false} RootMet(sch: Schema, root: Hash, structs: map<Hash, DDLStruct>, finished: set<Hash>, k: nat,
                                   wrapped: bool)
    requires RootUnder(sch, root, structs, finished, k, wrapped) && root in structs && root in sch.structs
    requires k < |sch.structs[root]|
    requires sch.structs[root] == DeclsOf(structs[root].values) && Rooted(sch, root, sch.structs[root][k])
    ensures OnCycle(sch, root)
    ensures structs[root].size != 0 ==> NonzeroStart(sch, root)
    ensures structs[root].size == 0 ==> ZeroStart(sch, root) || (wrapped && RootedTwice(sch, root))
  {
    hide Rooted, SumOf, MemberPlaced;
    RootOnCycle(sch, root);
    assert RootedStruct(sch, root, root);
    var fuel: nat :| Under(sch, root, structs, finished, root, k, fuel);
    if Clean(sch, root, root, k) {
      var sum := SumOf(sch, sch.structs[root][..k], fuel).value;
      assert FirstRooted(sch, root, k, fuel, sum);
    }
  }

  /** The first rooted member of the root was placed behind bits that are not zero. */
  lemma {:induction false} StartSize(sch: Schema, root: Hash, structs: map<Hash, DDLStruct>, finished: set<Hash>,
                                     k: nat, fuel: nat)
    requires Under(sch, root, structs, finished, root, k, fuel) && Clean(sch, root, root, k) && k < |sch.structs[root]|
    requires sch.structs[root] == DeclsOf(structs[root].values) && Rooted(sch, root, sch.structs[root][k])
    requires NonzeroStart(sch, root)
    ensures structs[root].size != 0
  {
    hide Rooted, SumOf, MemberPlaced;
    var sum := SumOf(sch, sch.structs[root][..k], fuel).value;
    assert FirstRooted(sch, root, k, fuel, sum);
    OneStart(sch, root);
  }

  /** The next member of the root placed. */
  lemma {:induction false} RootStep(sch: Schema, root: Hash, before: map<Hash, DDLStruct>, finished: set<Hash>,
                                    structs: map<Hash, DDLStruct>, finished': set<Hash>,
                                    k: nat, wrapped: bool, wrapped': bool, fuel: nat)
    requires RootUnder(sch, root, before, finished, k, wrapped) && root in before && root in structs
    requires (wrapped ==> wrapped')
    requires root in sch.structs && k < |sch.structs[root]| && sch.structs[root] == DeclsOf(before[root].values)
    requires Under(sch, root, structs, finished', root, k + 1, fuel)
    requires !wrapped' ==> structs[root].size >= before[root].size
    ensures RootUnder(sch, root, structs, finished', k + 1, wrapped')
  {
    hide Rooted, SumOf, Placed, Covered;
    if !Clean(sch, root, root, k + 1) && Clean(sch, root, root, k) {
      assert Rooted(sch, root, sch.structs[root][k]);
      var f: nat :| Under(sch, root, before, finished, root, k, f);
      StartSize(sch, root, before, finished, k, f);
    }
  }

  /** The root's standing after member k of n has been placed. */
  lemma {:induction false} RootAfter(sch: Schema, root: Hash, before: map<Hash, DDLStruct>,
                                     structs: map<Hash, DDLStruct>, finished: set<Hash>,
                                     n: Hash, k: nat, wrapped: bool, wrapped': bool, fuel: nat)
    requires RootUnder(sch, root, before, finished, k, wrapped) && root in before && root in structs
    requires (wrapped ==> wrapped')
    requires n in before && n in structs && structs == before[n := structs[n]]
    requires root in sch.structs && sch.structs[root] == DeclsOf(before[root].values)
    requires n == root ==> k < |sch.structs[root]| && Under(sch, root, structs, finished, root, k + 1, fuel)
    requires n == root && !wrapped' ==> structs[root].size >= before[root].size
    ensures RootUnder(sch, root, structs, finished, if n == root then k + 1 else k, wrapped')
  {
    hide RootUnder, Under;
    if n == root {
      RootStep(sch, root, before, finished, structs, finished, k, wrapped, wrapped', fuel);
    } else {
      RootUnderMore(sch, root, before, structs, finished, finished, k, wrapped, wrapped');
    }
  }

  function PlacedStruct(s: DDLStruct, i: nat, size: Word): DDLStruct
    requires i < |s.values|
  {
    DDLStruct(Add(s.size, Mul(size, Count(s.values[i]))), s.values[i := s.values[i].(offset := s.size, size := size)])
  }

  /** All that is known after member i of n has been placed. `top` is false inside a second
      completion of the root. */
  lemma {:induction false} Placing(sch: Schema, root: Hash, structs: map<Hash, DDLStruct>, enums: map<Hash, nat>,
                                   finished: set<Hash>, open: set<Hash>,
                                   n: Hash, i: nat, size: Word, fuel: nat, top: bool, k: nat, wrapped: bool)
    requires sch == SchemaOf(structs, enums) && Completed(sch, root, structs, finished, open) && n in open
    requires root in structs
    requires Under(sch, root, structs, finished, n, i, fuel) && i < |sch.structs[n]|
    requires Fits(sch, root, finished, sch.structs[n][i], size, fuel)
    requires !structs[n].values[i].isClass ==> size == structs[n].values[i].size
    requires top ==> RootUnder(sch, root, structs, finished, k, wrapped) && (n == root ==> k == i)
    ensures var structs' := structs[n := PlacedStruct(structs[n], i, size)];
      && SchemaOf(structs', enums) == sch && Completed(sch, root, structs', finished, open)
      && Under(sch, root, structs', finished, n, i + 1, fuel)
    ensures top ==>
      var wrapped' := wrapped || structs[n].size + size * Count(structs[n].values[i]) >= WORD;
      RootUnder(sch, root, structs[n := PlacedStruct(structs[n], i, size)], finished, if n == root then k + 1 else k,
        wrapped')
  {
    hide Completed, Placed, Covered, SumOf, Fits, NonzeroStart, Clean, RootUnder, Add, Mul, CutDecl;
    var s := PlacedStruct(structs[n], i, size);
    UnderStep(sch, root, structs, enums, finished, n, i, fuel, size);
    WriteOpen(sch, root, structs, finished, open, n, s);
    if top {
      SizeGrows(structs[n].size, size, Count(structs[n].values[i]));
      var wrapped' := wrapped || structs[n].size + size * Count(structs[n].values[i]) >= WORD;
      RootAfter(sch, root, structs, structs[n := s], finished, n, k, wrapped, wrapped', fuel);
    }
  }

  /** A struct type that has been completed fits where it is a member. */
  lemma {:induction false} FinishedFits(sch: Schema, root: Hash, structs: map<Hash, DDLStruct>, enums: map<Hash, nat>,
                                        finished: set<Hash>, open: set<Hash>, d: Decl)
    returns (fuel: nat)
    requires sch == SchemaOf(structs, enums) && Completed(sch, root, structs, finished, open)
    requires d.Class? && d.typeName in finished && d.typeName !in open && d.typeName !in enums && d.typeName != root
    ensures Fits(sch, root, finished, d, structs[d.typeName].size, fuel)
  {
    hide NonzeroStart, Covered;
    var t, v := d.typeName, Cut(sch, root);
    assert Sized(v, t);
    var f: nat :| SumOf(v, v.structs[t], f).Some?;
    fuel := f + 1;
    assert SizeOf(v, d, fuel) == Total(v, t, fuel);
    if Rooted(sch, root, d) {
      RootedByType(sch, root, t);
    } else {
      NotRooted(sch, root, t);
      var g := LaidIsSized(structs, enums, t);
      var h := if fuel < g then g else fuel;
      MoreFuelMember(v, d, fuel, h);
      MoreFuelMember(sch, d, g, h);
      fuel := h;
    }
  }

  lemma {:induction false} FitsMore(sch: Schema, root: Hash, finished: set<Hash>, d: Decl, size: Word, f: nat, g: nat)
    requires Fits(sch, root, finished, d, size, f) && f <= g
    ensures Fits(sch, root, finished, d, size, g)
  {
    hide NonzeroStart, Rooted;
    MoreFuelMember(Cut(sch, root), CutDecl(sch, root, d), f, g);
    if !Rooted(sch, root, d) {
      MoreFuelMember(sch, d, f, g);
    }
  }

  /** Builtin types, enums and the root's own type fit without being completed. */
  lemma SimpleFits(sch: Schema, root: Hash, finished: set<Hash>, d: Decl, size: Word, fuel: nat)
    requires d.Builtin? ==> size == d.bits
    requires d.Class? && d.typeName in sch.enums ==> size == EnumSize(sch.enums[d.typeName])
    requires d.Class? && d.typeName !in sch.enums ==>
      d.typeName == root && Rooted(sch, root, d) && NonzeroStart(sch, root)
    ensures Fits(sch, root, finished, d, size, fuel)
  {
  }

  lemma RootStart(sch: Schema, root: Hash, structs: map<Hash, DDLStruct>, finished: set<Hash>,
                  wrapped: bool)
    requires Under(sch, root, structs, finished, root, 0, 0)
    ensures RootUnder(sch, root, structs, finished, 0, wrapped)
  {
  }

  class DDLCompiled {
    const enums: map<Hash, nat>
    const rootHash: Hash
    var structs: map<Hash, DDLStruct>
    var types: seq<Hash>
    /** The structs that have been completed at least once. */
    ghost var finished: set<Hash>
    /** The member of the root being placed. */
    ghost var at: nat
    /** Some size was too large for a word. */
    ghost var wrapped: bool

    constructor (enums: map<Hash, nat>, rootHash: Hash, structs: map<Hash, DDLStruct>)
      requires forall n :: n in structs ==> structs[n].size == 0
      ensures this.enums == enums && this.rootHash == rootHash && this.structs == structs
      ensures Valid({}) && !wrapped
    {
      this.enums, this.rootHash, this.structs := enums, rootHash, structs;
      types, finished, at, wrapped := [], {}, 0, false;
    }

    ghost function Sch(): Schema
      reads this
    {
      SchemaOf(structs, enums)
    }

    /** The schema without members of the root's type. */
    ghost function CutSch(): Schema
      reads this
    {
      Cut(Sch(), rootHash)
    }

    /** Structs being completed: those on the stack and the root. */
    ghost function Open(): set<Hash>
      reads this
    {
      Elements(types) + {rootHash}
    }

    ghost predicate Valid(open: set<Hash>)
      reads this
    {
      Completed(Sch(), rootHash, structs, finished, open)
    }

    /** The stack starts with the type of the root's current member. */
    ghost predicate Bottom()
      reads this
    {
      types != [] ==>
        && rootHash in structs && at < |Sch().structs[rootHash]| && IsClass(Sch().structs[rootHash][at], types[0])
        && types[0] in structs && types[0] !in enums
    }

    /** n is being completed: the root, or the top of a by-value chain from it. The root itself
        is on the stack only while it is completed once more, inside itself. */
    ghost predicate OnChain(n: Hash)
      reads this
    {
      && n in structs && n in Open() && rootHash in structs && Elements(types) <= structs.Keys && Bottom()
      && (types == [] ==> n == rootHash)
      && (rootHash !in types && n == rootHash ==> types == [])
      && (rootHash !in types ==> Reaches(StructGraph(CutSch()), rootHash, n))
      && (rootHash !in types ==> forall t :: t in types ==> Reaches(StructGraph(CutSch()), t, n))
    }

    ghost predicate RootAt()
      reads this
    {
      rootHash in structs && RootUnder(Sch(), rootHash, structs, finished, at, wrapped)
    }

    /** Why a completion outside the root's own may fail. */
    ghost predicate Rejected()
      reads this
    {
      || Broken(CutSch(), rootHash)
      || (OnCycle(Sch(), rootHash) && (ZeroStart(Sch(), rootHash) || (wrapped && RootedTwice(Sch(), rootHash))))
    }

    ghost predicate Again(n: Hash)
      reads this
    {
      n == rootHash && rootHash in types
    }

    method CompleteStructOf(n: Hash) returns (ok: bool)
      requires OnChain(n) && Valid(if Again(n) then Open() else Open() - {n})
      requires rootHash !in types && n != rootHash ==> RootAt()
      modifies this
      ensures Sch() == old(Sch()) && (old(wrapped) ==> wrapped)
      ensures ok ==> types == old(types) && old(finished) <= finished && (types != [] ==> at == old(at))
      ensures ok ==> forall o :: o in old(Open()) && o != n && o in structs ==> structs[o] == old(structs[o])
      ensures ok && !old(Again(n)) ==> Valid(Open() - {n}) && n in finished
      ensures old(Again(n)) ==> ok == (old(structs[n]).size != 0)
      ensures old(Again(n)) && ok ==> structs == old(structs) && finished == old(finished) && wrapped == old(wrapped)
      ensures !ok && rootHash !in old(types) ==> Rejected()
      decreases structs.Keys - Elements(types), 4
    {
      hide Completed, Broken, Reaches, StructGraph, Contains, Laid, RootUnder, OnCycle;
      hide ZeroStart, RootedTwice, IsClass, SchemaOf, Cut, Rejected;
      if structs[n].size != 0 {
        if !Again(n) {
          AlreadySized(Sch(), rootHash, structs, finished, Open() - {n}, n);
        }
        return true;
      }
      OpenMore(Sch(), rootHash, structs, finished, if Again(n) then Open() else Open() - {n}, Open());
      ok := PlaceMembers(n);
    }

    /** The loop over the members of a struct without a size. Of the root inside itself, it
        fails at the latest at the member it came from. */
    method PlaceMembers(n: Hash) returns (ok: bool)
      requires OnChain(n) && Valid(Open()) && structs[n].size == 0
      requires rootHash !in types && n != rootHash ==> RootAt()
      modifies this
      ensures Sch() == old(Sch()) && (old(wrapped) ==> wrapped)
      ensures ok ==> types == old(types) && old(finished) <= finished && (types != [] ==> at == old(at))
      ensures ok ==> forall o :: o in old(Open()) && o != n && o in structs ==> structs[o] == old(structs[o])
      ensures ok ==> !Again(n) && Valid(Open() - {n}) && n in finished
      ensures !ok && rootHash !in old(types) ==> Rejected()
      decreases structs.Keys - Elements(types), 3
    {
      hide Completed, Placed, Covered, Broken, Reaches, StructGraph, Contains, SumOf, Laid, Under, RootUnder, OnCycle;
      hide Follows, ZeroStart, RootedTwice, IsClass, SchemaOf, Cut, NonzeroStart, Clean, Rejected, DeclsOf, Elements;
      ghost var sch, fuel, again := Sch(), 0, Again(n);
      UnderStart(sch, rootHash, structs, finished, n);
      if n == rootHash && !again {
        at := 0;
        RootStart(sch, rootHash, structs, finished, wrapped);
      }
      var i := 0;
      while i < |structs[n].values|
        invariant Sch() == sch && types == old(types) && n in structs && i <= |structs[n].values|
        invariant structs.Keys == old(structs.Keys) && |structs[n].values| == |sch.structs[n]|
        invariant OnChain(n) && Valid(Open()) && old(finished) <= finished && (old(wrapped) ==> wrapped)
        invariant Under(sch, rootHash, structs, finished, n, i, fuel)
        invariant rootHash !in types ==> RootAt() && (n == rootHash ==> at == i)
        invariant types != [] ==> at == old(at)
        invariant again ==> i <= at
        invariant forall o :: o in Open() && o != n && o in structs ==> structs[o] == old(structs[o])
        decreases |sch.structs[n]| - i
      {
        ok, fuel := PlaceMember(n, i, fuel);
        if !ok {
          return;
        }
        i := i + 1;
        if n == rootHash && !again {
          at := i;
        }
      }
      FinishStruct(sch, rootHash, structs, finished, Open(), n, fuel);
      finished := finished + {n};
      ok := true;
    }

    /** The body of the loop: member i goes to the current end of struct n. */
    method PlaceMember(n: Hash, i: nat, ghost fuel: nat) returns (ok: bool, ghost fuel': nat)
      requires OnChain(n) && Valid(Open()) && n in structs && i < |structs[n].values|
      requires Under(Sch(), rootHash, structs, finished, n, i, fuel)
      requires rootHash !in types ==> RootAt() && (n == rootHash ==> at == i)
      modifies this
      ensures Sch() == old(Sch()) && (old(wrapped) ==> wrapped)
      ensures ok ==> types == old(types) && Valid(Open()) && old(finished) <= finished && at == old(at) && OnChain(n)
      ensures ok ==> Under(Sch(), rootHash, structs, finished, n, i + 1, fuel')
      ensures ok ==> Follows(old(structs)[n], structs[n], i)
      ensures ok && rootHash !in types ==>
        RootUnder(Sch(), rootHash, structs, finished, if n == rootHash then at + 1 else at, wrapped)
      ensures ok ==> forall o :: o in old(Open()) && o != n && o in structs ==> structs[o] == old(structs[o])
      ensures ok && Again(n) ==> i != at
      ensures !ok && rootHash !in old(types) ==> Rejected()
      decreases structs.Keys - Elements(types), 2
    {
      hide Completed, Placed, Covered, Broken, Reaches, StructGraph, Contains;
      hide SumOf, Laid, Add, Mul, Under, RootUnder, OnCycle;
      hide ZeroStart, RootedTwice, Fits, SchemaOf, Rooted;
      ghost var sch := Sch();
      var sub := structs[n].values[i];
      assert sch.structs[n][i] == DeclOf(sub);
      var size := sub.size;
      fuel' := fuel;
      ok := true;
      if !sub.isClass {
        SimpleFits(sch, rootHash, finished, DeclOf(sub), size, fuel);
      } else if sub.typeName in enums {
        size := EnumSize(enums[sub.typeName]);
        SimpleFits(sch, rootHash, finished, DeclOf(sub), size, fuel);
      } else if sub.typeName !in structs {
        if rootHash !in types {
          UnknownBreaks(CutSch(), rootHash, n, i);
        }
        return false, fuel;
      } else if sub.typeName in types {
        if rootHash !in types {
          CycleBreaks(CutSch(), rootHash, n, i, sub.typeName);
        }
        return false, fuel;
      } else {
        ok, fuel' := CompleteSub(n, i, fuel);
        if !ok {
          return;
        }
        size := structs[sub.typeName].size;
      }
      UnderMore(sch, rootHash, old(structs), structs, old(finished), finished, n, i, fuel, fuel');
      PlacedAtEnd(structs[n], i, size);
      PlaceAt(n, i, size, fuel');
    }

    /** Member i goes to the current end of struct n, which grows by its size and count. */
    method PlaceAt(n: Hash, i: nat, size: Word, ghost fuel: nat)
      requires OnChain(n) && Valid(Open()) && n in structs && i < |structs[n].values|
      requires Under(Sch(), rootHash, structs, finished, n, i, fuel)
      requires Fits(Sch(), rootHash, finished, DeclOf(structs[n].values[i]), size, fuel)
      requires !structs[n].values[i].isClass ==> size == structs[n].values[i].size
      requires rootHash !in types ==> RootAt() && (n == rootHash ==> at == i)
      modifies this`structs, this`wrapped
      ensures Sch() == old(Sch()) && (old(wrapped) ==> wrapped) && OnChain(n) && Valid(Open())
      ensures Under(Sch(), rootHash, structs, finished, n, i + 1, fuel)
      ensures structs[n] == PlacedStruct(old(structs)[n], i, size)
      ensures rootHash !in types ==>
        RootUnder(Sch(), rootHash, structs, finished, if n == rootHash then at + 1 else at, wrapped)
      ensures forall o :: o in Open() && o != n && o in structs ==> structs[o] == old(structs[o])
    {
      hide Completed, Broken, Reaches, StructGraph, Contains, Laid, Under, RootUnder, OnCycle, Add, Mul, Cut;
      hide Follows, PlacedStruct, ZeroStart, RootedTwice, Fits, NonzeroStart, SchemaOf, DeclsOf;
      var sub := structs[n].values[i];
      assert Sch().structs[n][i] == DeclOf(sub);
      hide DeclOf;
      Placing(Sch(), rootHash, structs, enums, finished, Open(), n, i, size, fuel, rootHash !in types, at, wrapped);
      var end := if sub.isArray then Add(structs[n].size, Mul(size, sub.arraySize)) else Add(structs[n].size, size);
      if structs[n].size + size * Count(sub) >= WORD {
        wrapped := true;
      }
      PlacedIs(structs[n], i, size, end);
      structs := structs[n := DDLStruct(end, structs[n].values[i := sub.(offset := structs[n].size, size := size)])];
      assert CutSch() == old(CutSch()) && Open() == old(Open());
    }

    /** Member i of struct n is a struct of its own, not yet on the stack: completes it. */
    method CompleteSub(n: Hash, i: nat, ghost fuel: nat) returns (ok: bool, ghost fuel': nat)
      requires OnChain(n) && Valid(Open()) && n in structs && i < |structs[n].values| && structs[n].values[i].isClass
      requires structs[n].values[i].typeName in structs && structs[n].values[i].typeName !in enums
      requires structs[n].values[i].typeName !in types
      requires rootHash !in types ==> RootAt() && (n == rootHash ==> at == i)
      modifies this
      ensures Sch() == old(Sch()) && (old(wrapped) ==> wrapped) && fuel' >= fuel
      ensures ok ==> types == old(types) && Valid(Open()) && old(finished) <= finished && at == old(at)
      ensures ok && rootHash !in types ==> RootAt()
      ensures ok ==> forall o :: o in old(Open()) && o in structs ==> structs[o] == old(structs[o])
      ensures ok ==> var d := DeclOf(old(structs)[n].values[i]);
        d.typeName in structs && Fits(Sch(), rootHash, finished, d, structs[d.typeName].size, fuel')
      ensures !ok && rootHash !in old(types) ==> Rejected()
      decreases structs.Keys - Elements(types), 1
    {
      hide Broken, Reaches, StructGraph, Laid, RootUnder, OnCycle, Completed, OnChain;
      hide ZeroStart, RootedTwice, Fits, NonzeroStart, SchemaOf, Cut, Rooted;
      ghost var before, d := structs, DeclOf(structs[n].values[i]);
      EnterChain(n, i);
      fuel' := fuel;
      ok := CompleteType(n, i);
      if !ok {
        return;
      }
      if d.typeName == rootHash {
        SimpleFits(Sch(), rootHash, finished, d, structs[rootHash].size, fuel);
      } else {
        fuel' := SubFits(Sch(), finished, d, fuel);
      }
      if rootHash !in types {
        RootUnderMore(Sch(), rootHash, before, structs, old(finished), finished, at, old(wrapped), wrapped);
      }
    }

    /** The type of member i of n goes on the stack while it is completed. */
    method CompleteType(n: Hash, i: nat) returns (ok: bool)
      requires OnChain(n) && Valid(Open()) && n in structs && i < |structs[n].values| && structs[n].values[i].isClass
      requires structs[n].values[i].typeName in structs && structs[n].values[i].typeName !in enums
      requires structs[n].values[i].typeName !in types
      requires rootHash !in types ==> RootAt() && (n == rootHash ==> at == i)
      modifies this
      ensures Sch() == old(Sch()) && (old(wrapped) ==> wrapped)
      ensures ok ==> types == old(types) && Valid(Open()) && old(finished) <= finished
      ensures ok ==> at == old(at) && rootHash in structs
      ensures ok ==> forall o :: o in old(Open()) && o in structs ==> structs[o] == old(structs[o])
      ensures ok ==> var t := old(structs)[n].values[i].typeName;
        if t == rootHash then rootHash in old(structs) && old(structs)[rootHash].size != 0 else t in finished
      ensures !ok && rootHash !in old(types) ==> Rejected()
      decreases structs.Keys - Elements(types), 0
    {
      hide Broken, Reaches, StructGraph, Laid, RootUnder, OnCycle, Completed;
      hide ZeroStart, RootedTwice, NonzeroStart, SchemaOf, Cut, Rooted;
      var t := structs[n].values[i].typeName;
      EnterChain(n, i);
      types := types + [t];
      assert types[..|types| - 1] == old(types);
      assert Elements(types) == Elements(old(types)) + {t};
      assert (if Again(t) then Open() else Open() - {t}) == old(Open());
      assert Bottom() && OnChain(t);
      ok := CompleteStructOf(t);
      if ok {
        types := types[..|types| - 1];
      }
    }

    lemma {:induction false} SubFits(sch: Schema, done: set<Hash>, d: Decl, fuel: nat) returns (fuel': nat)
      requires sch == Sch() && done == finished && Valid(Open()) && d.Class?
      requires d.typeName in finished && d.typeName !in Open() && d.typeName !in enums
      ensures fuel' >= fuel && d.typeName in structs && Fits(sch, rootHash, done, d, structs[d.typeName].size, fuel')
    {
      hide Fits, Rooted;
      var f := FinishedFits(sch, rootHash, structs, enums, finished, Open(), d);
      fuel' := if f > fuel then f else fuel;
      FitsMore(sch, rootHash, finished, d, structs[d.typeName].size, f, fuel');
    }

    /** What the completion of a member's type needs to know of the longer chain. */
    lemma {:induction false} EnterChain(n: Hash, i: nat)
      requires OnChain(n) && n in structs && i < |structs[n].values| && structs[n].values[i].isClass
      requires structs[n].values[i].typeName in structs && structs[n].values[i].typeName !in enums
      requires structs[n].values[i].typeName !in types
      requires rootHash !in types ==> RootAt() && (n == rootHash ==> at == i)
      ensures var t := structs[n].values[i].typeName;
        && (rootHash !in types && t != rootHash ==> Reaches(StructGraph(CutSch()), rootHash, t))
        && (rootHash !in types && t != rootHash ==> forall k :: k in types + [t] ==>
          Reaches(StructGraph(CutSch()), k, t))
        && (types == [] ==> at < |Sch().structs[rootHash]| && IsClass(Sch().structs[rootHash][at], t))
      ensures structs[n].values[i].typeName == rootHash ==>
        && Rooted(Sch(), rootHash, DeclOf(structs[n].values[i])) && OnCycle(Sch(), rootHash)
        && (structs[rootHash].size != 0 ==> NonzeroStart(Sch(), rootHash))
        && (structs[rootHash].size == 0 ==> ZeroStart(Sch(), rootHash) || (wrapped && RootedTwice(Sch(), rootHash)))
    {
      hide RootUnder, OnCycle, ZeroStart, NonzeroStart, RootedTwice, Broken;
      var sch, t := Sch(), structs[n].values[i].typeName;
      assert sch.structs[n][i] == DeclOf(structs[n].values[i]);
      if rootHash !in types {
        if t != rootHash {
          ReachesSelf(StructGraph(CutSch()), t);
          ChainGrows(CutSch(), n, i, t, rootHash);
          forall k | k in types ensures Reaches(StructGraph(CutSch()), k, t) {
            ChainGrows(CutSch(), n, i, t, k);
          }
        } else {
          ReachesSelf(StructGraph(sch), rootHash);
          if types != [] {
            CutReaches(sch, rootHash, types[0], n);
            ChainGrows(sch, n, i, t, types[0]);
          }
          RootMet(sch, rootHash, structs, finished, at, wrapped);
        }
      }
    }

    /** Lays out the root struct and all it contains. */
    method CompleteStruct() returns (ok: bool)
      requires Valid({})
      modifies this
      ensures Sch() == old(Sch())
      ensures ok ==>
        rootHash in structs && !Broken(CutSch(), rootHash)
        && (OnCycle(Sch(), rootHash) ==> NonzeroStart(Sch(), rootHash))
      ensures !ok ==> rootHash !in structs || Rejected()
      ensures !(wrapped && RootedTwice(Sch(), rootHash)) ==>
        (ok <==>
          rootHash in structs && !Broken(CutSch(), rootHash)
          && (OnCycle(Sch(), rootHash) ==> NonzeroStart(Sch(), rootHash)))
      ensures !OnCycle(Sch(), rootHash) ==> (ok <==> rootHash in structs && !Broken(Sch(), rootHash))
      ensures ok && !OnCycle(Sch(), rootHash) ==>
        forall n :: Reaches(StructGraph(Sch()), rootHash, n) ==>
          n in structs && Laid(Sch(), structs[n]) && Contiguous(structs, enums, structs[n])
      ensures structs.Keys == old(structs).Keys
      ensures forall n :: n in structs ==> SameDeclarations(old(structs)[n].values, structs[n].values)
      ensures ok ==> Valid({})
    {
      hide Completed, Broken, OnCycle, ZeroStart, NonzeroStart, RootedTwice, Reaches, Laid, Contiguous;
      hide SameDeclarations;
      types := [];
      if rootHash !in structs {
        SchemaKept(old(structs), structs, enums);
        return false;
      }
      ReachesSelf(StructGraph(CutSch()), rootHash);
      assert Open() - {rootHash} == {};
      ok := CompleteStructOf(rootHash);
      if ok {
        RootFinished(Sch(), rootHash, structs, enums, finished);
      } else {
        OneStart(Sch(), rootHash);
        if Broken(CutSch(), rootHash) {
          CutBroken(Sch(), rootHash);
        }
      }
      SchemaKept(old(structs), structs, enums);
    }
  }

  lemma {:induction false} RootFinished(sch: Schema, root: Hash, structs: map<Hash, DDLStruct>, enums: map<Hash, nat>,
                                        finished: set<Hash>)
    requires sch == SchemaOf(structs, enums) && Completed(sch, root, structs, finished, {}) && root in finished
    ensures !Broken(Cut(sch, root), root) && (OnCycle(sch, root) ==> NonzeroStart(sch, root))
    ensures !OnCycle(sch, root) ==> !Broken(sch, root)
    ensures !OnCycle(sch, root) ==> forall n ::
      Reaches(StructGraph(sch), root, n) ==>
        n in structs && Laid(sch, structs[n]) && Contiguous(structs, enums, structs[n])
  {
    hide NonzeroStart, Laid, Broken, OnCycle, CutDecl, Contiguous;
    var v := Cut(sch, root);
    assert Sized(v, root);
    var f: nat :| SumOf(v, v.structs[root], f).Some?;
    SizedIsNotBroken(v, root, f + 1);
    RootOnCycle(sch, root);
    if !OnCycle(sch, root) {
      forall n | Reaches(StructGraph(sch), root, n) ensures n in structs && Laid(sch, structs[n]) {
        CutReachesAll(sch, root, n);
        FinishedReach(sch, root, structs, finished, n);
        forall i | 0 <= i < |sch.structs[n]| && Rooted(sch, root, sch.structs[n][i]) ensures false {
          RootedMeansCycle(sch, root, n, i);
        }
        assert !RootedStruct(sch, root, n);
      }
      forall n | Reaches(StructGraph(sch), root, n) ensures Contiguous(structs, enums, structs[n]) {
        forall t | t in Contains(sch, n) ensures Reaches(StructGraph(sch), root, t) {
          ReachesStep(StructGraph(sch), root, n, t);
        }
        LaidIsContiguous(structs, enums, sch, n);
      }
      var g := LaidIsSized(structs, enums, root);
      SizedIsNotBroken(sch, root, g);
    }
  }

  // ---------- The layout, member by member ----------

  /** The members of a struct follow one another from 0 on, each as often as its array size says,
      and a member of a class has the size of its enum or struct. */
  ghost predicate Contiguous(structs: map<Hash, DDLStruct>, enums: map<Hash, nat>, s: DDLStruct) {
    var ms := s.values;
    && (if ms == [] then s.size == 0 else ms[0].offset == 0 && s.size == EndOf(ms[|ms| - 1]))
    && (forall i :: 0 <= i < |ms| - 1 ==> ms[i + 1].offset == EndOf(ms[i]))
    && (forall i :: 0 <= i < |ms| && ms[i].isClass ==>
          if ms[i].typeName in enums then ms[i].size == EnumSize(enums[ms[i].typeName])
          else ms[i].typeName in structs && ms[i].size == structs[ms[i].typeName].size)
  }

  function EndOf(m: DDLMember): Word {
    (m.offset + m.size * (if m.isArray then m.arraySize else 1)) % WORD
  }

  /** Completion fills in offsets, and sizes of classes. */
  predicate SameDeclaration(m: DDLMember, k: DDLMember) {
    k.isClass == m.isClass && k.isArray == m.isArray && k.arraySize == m.arraySize
    && (if m.isClass then k.typeName == m.typeName else k.size == m.size)
  }

  lemma {:induction false} SchemaKept(s: map<Hash, DDLStruct>, t: map<Hash, DDLStruct>, enums: map<Hash, nat>)
    requires SchemaOf(s, enums) == SchemaOf(t, enums)
    ensures t.Keys == s.Keys && forall n :: n in s ==> SameDeclarations(s[n].values, t[n].values)
  {
    forall n | n in s ensures SameDeclarations(s[n].values, t[n].values) {
      var ds := SchemaOf(s, enums).structs[n];
      assert ds == DeclsOf(s[n].values) == DeclsOf(t[n].values);
      forall i | 0 <= i < |ds| ensures SameDeclaration(s[n].values[i], t[n].values[i]) {
        assert ds[i] == DeclOf(s[n].values[i]) == DeclOf(t[n].values[i]);
      }
    }
  }

  predicate SameDeclarations(ms: seq<DDLMember>, ks: seq<DDLMember>) {
    |ks| == |ms| && forall i :: 0 <= i < |ms| ==> SameDeclaration(ms[i], ks[i])
  }

  lemma {:induction false} LaidIsContiguous(structs: map<Hash, DDLStruct>, enums: map<Hash, nat>, sch: Schema, n: Hash)
    requires sch == SchemaOf(structs, enums) && n in structs && Laid(sch, structs[n])
    requires forall t :: t in Contains(sch, n) ==> t in structs && Laid(sch, structs[t])
    ensures Contiguous(structs, enums, structs[n])
  {
    hide Placed, SumOf, SizeOf, Total, Laid, SchemaOf;
    var s := structs[n];
    var ms := s.values;
    var fuel := LaidMembers(sch, s);
    if ms != [] {
      EndIsNext(sch, ms, 0, fuel);
      EndIsNext(sch, ms, |ms| - 1, fuel);
      assert DeclsOf(ms)[..|ms|] == DeclsOf(ms);
    }
    forall i | 0 <= i < |ms| - 1 ensures ms[i + 1].offset == EndOf(ms[i]) {
      EndIsNext(sch, ms, i, fuel);
      assert MemberPlaced(sch, ms, i + 1, fuel);
    }
    forall i | 0 <= i < |ms| && ms[i].isClass
      ensures if ms[i].typeName in enums then ms[i].size == EnumSize(enums[ms[i].typeName])
              else ms[i].typeName in structs && ms[i].size == structs[ms[i].typeName].size
    {
      ClassSize(structs, enums, sch, n, i, fuel);
    }
  }

  lemma {:induction false} LaidMembers(sch: Schema, s: DDLStruct) returns (fuel: nat)
    requires Laid(sch, s)
    ensures SumOf(sch, DeclsOf(s.values), fuel).Some? && s.size == SumOf(sch, DeclsOf(s.values), fuel).value % WORD
    ensures forall i :: 0 <= i < |s.values| ==> MemberPlaced(sch, s.values, i, fuel)
    ensures s.values == [] ==> s.size == 0
    ensures s.values != [] ==> s.values[0].offset == 0
  {
    fuel :| Placed(sch, s.values, |s.values|, s.size, fuel);
    assert DeclsOf(s.values)[..|s.values|] == DeclsOf(s.values);
    if s.values != [] {
      assert DeclsOf(s.values)[..0] == [] && MemberPlaced(sch, s.values, 0, fuel);
    }
  }

  lemma {:induction false} ClassSize(structs: map<Hash, DDLStruct>, enums: map<Hash, nat>, sch: Schema, n: Hash, i: nat,
                                     fuel: nat)
    requires sch == SchemaOf(structs, enums) && n in structs && i < |structs[n].values| && structs[n].values[i].isClass
    requires MemberPlaced(sch, structs[n].values, i, fuel)
    requires forall t :: t in Contains(sch, n) ==> t in structs && Laid(sch, structs[t])
    ensures var m := structs[n].values[i];
      if m.typeName in enums then m.size == EnumSize(enums[m.typeName])
      else m.typeName in structs && m.size == structs[m.typeName].size
  {
    hide Laid, SumOf;
    var t := structs[n].values[i].typeName;
    assert sch.structs[n][i] == DeclOf(structs[n].values[i]);
    if t !in enums {
      assert Total(sch, t, fuel).Some? && IsClass(sch.structs[n][i], t) && t in Contains(sch, n);
      LaidSize(structs, enums, sch, t, fuel);
    }
  }

  lemma {:induction false} EndIsNext(sch: Schema, ms: seq<DDLMember>, i: nat, fuel: nat)
    requires i < |ms| && MemberPlaced(sch, ms, i, fuel)
    ensures SumOf(sch, DeclsOf(ms)[..i + 1], fuel).Some?
    ensures EndOf(ms[i]) == SumOf(sch, DeclsOf(ms)[..i + 1], fuel).value % WORD
  {
    hide Add, Mul;
    var ds := DeclsOf(ms);
    var sum, v, count := SumOf(sch, ds[..i], fuel).value, SizeOf(sch, ds[i], fuel).value, DeclOf(ms[i]).Count();
    assert ds[..i + 1][..i] == ds[..i] && ds[..i + 1][i] == DeclOf(ms[i]);
    assert SumOf(sch, ds[..i + 1], fuel) == Some(sum + v * count);
    assert EndOf(ms[i]) == (ms[i].offset + ms[i].size * count) % WORD;
    hide SumOf, SizeOf, EndOf;
    SmallWord(count);
    ModStep(sum, v, count);
    AddMul(ms[i].offset, ms[i].size, count);
  }

  lemma {:induction false} AddMul(a: Word, b: Word, c: nat)
    requires c < WORD
    ensures Add(a, Mul(b, c)) == (a + b * c) % WORD
  {
    assert a + b * c == (a + (b * c) % WORD) + (b * c) / WORD * WORD;
    ModPlus(a + (b * c) % WORD, (b * c) / WORD);
  }

  lemma {:induction false} PlacedIs(s: DDLStruct, i: nat, size: Word, end: Word)
    requires i < |s.values| && (!s.values[i].isClass ==> size == s.values[i].size)
    requires end == if s.values[i].isArray then Add(s.size, Mul(size, s.values[i].arraySize)) else Add(s.size, size)
    ensures DDLStruct(end, s.values[i := s.values[i].(offset := s.size, size := size)]) == PlacedStruct(s, i, size)
  {
    hide Add, Mul;
    MulOne(size);
  }

  lemma {:induction false} PlacedAtEnd(s: DDLStruct, i: nat, size: Word)
    requires i < |s.values| && (!s.values[i].isClass ==> size == s.values[i].size)
    ensures Follows(s, PlacedStruct(s, i, size), i)
  {
    hide Add, Mul;
    AddMul(s.size, size, Count(s.values[i]));
  }

  lemma {:induction false} LaidSize(structs: map<Hash, DDLStruct>, enums: map<Hash, nat>, sch: Schema, t: Hash,
                                    fuel: nat)
    requires sch == SchemaOf(structs, enums) && t in structs && Laid(sch, structs[t]) && Total(sch, t, fuel).Some?
    ensures structs[t].size == Total(sch, t, fuel).value % WORD
  {
    var f: nat :| Placed(sch, structs[t].values, |structs[t].values|, structs[t].size, f);
    var ds := DeclsOf(structs[t].values);
    assert ds[..|ds|] == ds;
    if f <= fuel - 1 {
      MoreFuel(sch, ds, f, fuel - 1);
    } else {
      MoreFuel(sch, ds, fuel - 1, f);
    }
  }

  /** Whatever the finished root contains, directly or not, is finished, members of its own type aside. */
  lemma {:induction false} FinishedReach(sch: Schema, root: Hash, structs: map<Hash, DDLStruct>, finished: set<Hash>,
                                         n: Hash)
    requires Completed(sch, root, structs, finished, {}) && root in finished && sch.structs.Keys == structs.Keys
    requires Reaches(StructGraph(Cut(sch, root)), root, n)
    ensures n in finished
  {
    var v := Cut(sch, root);
    assert ClosedSet(StructGraph(v), finished) by {
      forall k, t | k in finished && t in Contains(v, k)
        ensures t in finished
      {
        var i :| 0 <= i < |v.structs[k]| && IsClass(v.structs[k][i], t);
        assert CoveredDecl(v, v.structs[k][i], finished);
      }
    }
    StaysInside(StructGraph(v), finished, root, n);
  }

  lemma {:induction false} SizeGrows(a: Word, size: Word, count: Word)
    ensures a + size * count < WORD ==> Add(a, Mul(size, count)) == a + size * count
  {
    var p := size * count;
    assert Add(a, Mul(size, count)) == (a + p % WORD) % WORD;
    NatProduct(size, count);
    hide Add, Mul;
    if a + p < WORD {
      SmallWord(p);
      SmallWord(a + p);
    }
  }

  lemma NatProduct(a: nat, b: nat)
    ensures a * b >= 0
  {
  }

  lemma SmallWord(x: int)
    ensures 0 <= x < WORD ==> x % WORD == x
  {
  }

  // ---------- A root inside itself ----------

  const ROOT: Hash := 0

  /** A root of one byte and a member of its own type. */
  function RootInRoot(): map<Hash, DDLStruct> {
    map[ROOT := DDLStruct(0, [DDLMember(1, false, false, 0, 0, 8), DDLMember(ROOT, true, false, 0, 0, 0)])]
  }

  /** It is on a cycle, and yet it is accepted. */
  method AcceptsRootInRoot() returns (ok: bool, c: DDLCompiled)
    ensures ok && OnCycle(c.Sch(), ROOT) && Broken(c.Sch(), ROOT)
  {
    c := new DDLCompiled(map[], ROOT, RootInRoot());
    ghost var sch := c.Sch();
    RootInRootFacts(sch);
    ok := c.CompleteStruct();
  }

  lemma {:induction false} RootInRootFacts(sch: Schema)
    requires sch == SchemaOf(RootInRoot(), map[])
    ensures OnCycle(sch, ROOT) && Broken(sch, ROOT) && !Broken(Cut(sch, ROOT), ROOT)
    ensures NonzeroStart(sch, ROOT) && !RootedTwice(sch, ROOT)
  {
    var ds: seq<Decl> := [Builtin(8, false, 0), Class(ROOT, false, 0)];
    assert sch.structs[ROOT] == ds;
    CutOfRootInRoot(sch);
    hide Cut, Broken, SumOf;
    ReachesSelf(StructGraph(sch), ROOT);
    assert IsClass(ds[1], ROOT) && ROOT in Contains(sch, ROOT) && Rooted(sch, ROOT, ds[1]);
    assert OnCycle(sch, ROOT);
    assert Broken(sch, ROOT) by { CycleIsBroken(sch, ROOT); }
    assert FirstRooted(sch, ROOT, 1, 0, 8) by { OneByte(sch, ds); }
  }

  lemma {:induction false} CycleIsBroken(sch: Schema, root: Hash)
    requires OnCycle(sch, root)
    ensures Broken(sch, root)
  {
    ReachesSelf(StructGraph(sch), root);
  }

  lemma {:induction false} OneByte(sch: Schema, ds: seq<Decl>)
    requires |ds| == 2 && ds[0] == Builtin(8, false, 0)
    ensures SumOf(sch, ds[..1], 0) == Some(8)
  {
    assert ds[..1] == [Builtin(8, false, 0)] && ds[..1][..0] == [];
  }

  lemma {:induction false} CutOfRootInRoot(sch: Schema)
    requires sch == SchemaOf(RootInRoot(), map[])
    ensures !Broken(Cut(sch, ROOT), ROOT)
  {
    var v := Cut(sch, ROOT);
    var ds := v.structs[ROOT];
    assert ds == [Builtin(8, false, 0), Builtin(0, false, 0)];
    OneByte(v, ds);
    assert SumOf(v, ds, 0) == Some(8);
    hide SumOf;
    SizedIsNotBroken(v, ROOT, 1);
  }
}
