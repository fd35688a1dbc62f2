/** The schema audited for traversal gaps, and what each type contributes by itself. */
module AuditSchema {
  import opened Options
  import opened Reach

  type Name = string

  datatype Member = Member(name: string, type_: Name)

  datatype Type =
    | Pointer(target: Name)
    | Array(count: nat, element: Name)
    | Composite(isUnion: bool, members: seq<Member>)
    | Leaf

  /** A pointer rule: what the exporter knows about a member. */
  datatype Rule = Rule(runtime: bool, countIsOne: bool, pointee: Option<Rule>, elements: seq<Option<Rule>>)

  /** One case of a union rule; `elementCount` says whether it gives an element count and if that is 1. */
  datatype Case = Case(member: string, runtime: bool, isString: bool, countIsOne: bool, elementCount: Option<bool>)

  datatype Reason = PointerExtentRequired | SelectorRequired

  datatype Gap = Gap(owner: Name, path: string, reason: Reason)

  datatype Schema = Schema(
    types: map<Name, Type>,
    overrides: map<Name, Name>,
    roots: set<Name>,
    pointers: map<Name, map<string, Rule>>,
    unions: map<Name, seq<Case>>)

  function Resolve(sch: Schema, n: Name): Name {
    if n in sch.overrides then sch.overrides[n] else n
  }

  predicate Resolves(sch: Schema, n: Name) {
    Resolve(sch, n) in sch.types
  }

  function TypeOf(sch: Schema, n: Name): Type
    requires Resolves(sch, n)
  {
    sch.types[Resolve(sch, n)]
  }

  predicate Mentions(t: Type, names: set<Name>) {
    match t
    case Pointer(target) => target in names
    case Array(_, element) => element in names
    case Composite(_, ms) => forall m :: m in ms ==> m.type_ in names
    case Leaf => true
  }

  predicate HasMember(ms: seq<Member>, name: string) {
    exists i :: 0 <= i < |ms| && ms[i].name == name
  }

  /** The member of that name; of several, the last. */
  function MemberNamed(ms: seq<Member>, name: string): (m: Member)
    requires HasMember(ms, name)
    ensures m in ms && m.name == name
  {
    if ms[|ms| - 1].name == name then ms[|ms| - 1] else MemberNamed(ms[..|ms| - 1], name)
  }

  predicate Nest(t: Type) {
    t.Pointer? || t.Array?
  }

  /** All names resolve, union rules fit their unions, and pointers to pointers or arrays
      and arrays of them are nested finitely, as `depth` shows. */
  ghost predicate Closed(sch: Schema, names: set<Name>, depth: map<Name, nat>) {
    && names <= depth.Keys
    && (forall n :: n in names ==> Resolves(sch, n) && Mentions(TypeOf(sch, n), names))
    && (forall n :: n in names && TypeOf(sch, n).Pointer? && Nest(TypeOf(sch, TypeOf(sch, n).target)) ==>
          depth[TypeOf(sch, n).target] < depth[n])
    && (forall n :: n in names && TypeOf(sch, n).Array? && Nest(TypeOf(sch, TypeOf(sch, n).element)) ==>
          depth[TypeOf(sch, n).element] < depth[n])
    && (forall n :: n in names && n in sch.unions && TypeOf(sch, n).Composite? ==>
          forall c :: c in sch.unions[n] ==>
            HasMember(TypeOf(sch, n).members, c.member) && CaseFits(sch, TypeOf(sch, n).members, c))
  }

  predicate CaseFits(sch: Schema, ms: seq<Member>, c: Case)
    requires HasMember(ms, c.member)
  {
    var t := MemberNamed(ms, c.member).type_;
    Resolves(sch, t) &&
      (!c.runtime && !(TypeOf(sch, t).Pointer? && !c.isString) && c.elementCount.Some? ==> TypeOf(sch, t).Array?)
  }

  // ---------- Pointers inside a type ----------

  ghost function PartNames(t: Type): set<Name> {
    match t
    case Array(_, element) => {element}
    case Composite(_, ms) => set i | 0 <= i < |ms| :: ms[i].type_
    case _ => {}
  }

  /** From a type to its element type or its members' types. */
  ghost function PartGraph(sch: Schema, names: set<Name>): Graph<Name>
    requires forall n :: n in names ==> Resolves(sch, n)
  {
    map n | n in names :: PartNames(TypeOf(sch, n))
  }

  ghost predicate HoldsPointer(sch: Schema, names: set<Name>, n: Name)
    requires forall n :: n in names ==> Resolves(sch, n)
  {
    exists p :: p in names && Reaches(PartGraph(sch, names), n, p) && TypeOf(sch, p).Pointer?
  }

  // ---------- What one type contributes ----------

  predicate StartsWith(s: string, prefix: string) {
    prefix <= s
  }

  predicate Within(s: string, part: string) {
    exists i :: 0 <= i <= |s| && part <= s[i..]
  }

  /** Targets that need no extent: characters, D3D interfaces and functions. */
  predicate NeedsNoExtent(target: Name) {
    target == "char" || target == "const char" || StartsWith(target, "ID3D") || Within(target, "__fastcall(")
  }

  function Decimal(n: nat): string {
    (if n < 10 then "" else Decimal(n / 10)) + ["0123456789"[n % 10]]
  }

  function PointeePath(path: string): string {
    path + "->[]"
  }

  function ElementPath(path: string, i: nat): string {
    path + "[" + Decimal(i) + "]"
  }

  function ElementRule(rule: Option<Rule>, i: nat): Option<Rule> {
    if rule.Some? && i < |rule.value.elements| then rule.value.elements[i] else None
  }

  function PointeeRule(rule: Option<Rule>): Option<Rule> {
    if rule.Some? then rule.value.pointee else None
  }

  /** The pointer is not followed: runtime data, or a reference to another export unit. */
  predicate Cut(sch: Schema, target: Name, rule: Option<Rule>) {
    || (rule.Some? && rule.value.runtime)
    || (target in sch.roots && (rule.None? || rule.value.countIsOne))
    || (rule.None? && NeedsNoExtent(target))
  }

  function CaseRule(sch: Schema, c: Case, t: Type): Option<Rule>
    requires !c.runtime && !(t.Pointer? && !c.isString) && c.elementCount.Some? ==> t.Array?
  {
    if c.runtime then Some(Rule(true, false, None, []))
    else if t.Pointer? && !c.isString then Some(Rule(false, c.countIsOne, None, []))
    else if c.elementCount.Some? then
      Some(Rule(false, false, None, seq(t.count, i => Some(Rule(false, c.elementCount.value, None, [])))))
    else None
  }

  /** The types walked into from a member of type n, through its pointers and arrays. */
  ghost function MemberNext(sch: Schema, names: set<Name>, depth: map<Name, nat>, n: Name,
                            rule: Option<Rule>): (r: set<Name>)
    requires Closed(sch, names, depth) && n in names
    ensures r <= names
    decreases if Nest(TypeOf(sch, n)) then depth[n] + 1 else 0, 0
  {
    match TypeOf(sch, n)
    case Pointer(target) =>
      if Cut(sch, target, rule) then {}
      else if Nest(TypeOf(sch, target)) then MemberNext(sch, names, depth, target, PointeeRule(rule))
      else {target}
    case Array(count, element) => ElementsNext(sch, names, depth, n, rule, count)
    case _ => {n}
  }

  ghost function ElementsNext(sch: Schema, names: set<Name>, depth: map<Name, nat>, n: Name, rule: Option<Rule>,
                              k: nat): (r: set<Name>)
    requires Closed(sch, names, depth) && n in names && TypeOf(sch, n).Array?
    ensures r <= names
    decreases depth[n], 1, k
  {
    if k == 0 then {} else
      ElementsNext(sch, names, depth, n, rule, k - 1) +
      MemberNext(sch, names, depth, TypeOf(sch, n).element, ElementRule(rule, k - 1))
  }

  /** The gaps a member of type n leaves, charged to `owner`. */
  ghost function MemberGaps(sch: Schema, names: set<Name>, depth: map<Name, nat>, owner: Name, path: string, n: Name,
                            rule: Option<Rule>): set<Gap>
    requires Closed(sch, names, depth) && n in names
    decreases if Nest(TypeOf(sch, n)) then depth[n] + 1 else 0, 0
  {
    match TypeOf(sch, n)
    case Pointer(target) =>
      if Cut(sch, target, rule) then {} else
        (if rule.None? then {Gap(owner, path, PointerExtentRequired)} else {}) +
        (if Nest(TypeOf(sch, target)) then
           MemberGaps(sch, names, depth, owner, PointeePath(path), target, PointeeRule(rule)) else {})
    case Array(count, element) => ElementsGaps(sch, names, depth, owner, path, n, rule, count)
    case _ => {}
  }

  ghost function ElementsGaps(sch: Schema, names: set<Name>, depth: map<Name, nat>, owner: Name, path: string, n: Name,
                              rule: Option<Rule>, k: nat): set<Gap>
    requires Closed(sch, names, depth) && n in names && TypeOf(sch, n).Array?
    decreases depth[n], 1, k
  {
    if k == 0 then {} else
      ElementsGaps(sch, names, depth, owner, path, n, rule, k - 1) +
      MemberGaps(sch, names, depth, owner, ElementPath(path, k - 1), TypeOf(sch, n).element, ElementRule(rule, k - 1))
  }

  /** One member to look at, with its rule. */
  datatype Visit = Visit(path: string, type_: Name, rule: Option<Rule>)

  function RuleFor(sch: Schema, owner: Name, member: string): Option<Rule> {
    if owner in sch.pointers && member in sch.pointers[owner] then Some(sch.pointers[owner][member]) else None
  }

  function MemberVisit(sch: Schema, n: Name, m: Member): Visit {
    Visit(m.name, m.type_, RuleFor(sch, n, m.name))
  }

  function CaseVisit(sch: Schema, ms: seq<Member>, c: Case): Visit
    requires HasMember(ms, c.member) && CaseFits(sch, ms, c)
  {
    var m := MemberNamed(ms, c.member);
    Visit(m.name, m.type_, CaseRule(sch, c, TypeOf(sch, m.type_)))
  }

  /** The union is told apart by rules, or has no pointer and needs none. */
  ghost predicate ByCases(sch: Schema, names: set<Name>, n: Name)
    requires forall n :: n in names ==> Resolves(sch, n)
    requires n in names
  {
    TypeOf(sch, n).Composite? && TypeOf(sch, n).isUnion && (HoldsPointer(sch, names, n) || n in sch.unions)
  }

  /** The members that a walk of type n looks at. */
  ghost function Visits(sch: Schema, names: set<Name>, depth: map<Name, nat>, n: Name): (vs: seq<Visit>)
    requires Closed(sch, names, depth) && n in names
    ensures forall v :: v in vs ==> v.type_ in names
  {
    match TypeOf(sch, n)
    case Composite(isUnion, ms) =>
      if ByCases(sch, names, n) then
        if n in sch.unions then
          seq(|sch.unions[n]|, i requires 0 <= i < |sch.unions[n]| => CaseVisit(sch, ms, sch.unions[n][i])) else []
      else seq(|ms|, i requires 0 <= i < |ms| => MemberVisit(sch, n, ms[i]))
    case Leaf => []
    case _ => [Visit("", n, None)]
  }

  ghost function VisitsNext(sch: Schema, names: set<Name>, depth: map<Name, nat>, vs: seq<Visit>): (r: set<Name>)
    requires Closed(sch, names, depth) && forall v :: v in vs ==> v.type_ in names
    ensures r <= names
  {
    if vs == [] then {} else
      VisitsNext(sch, names, depth, vs[..|vs| - 1]) +
        MemberNext(sch, names, depth, vs[|vs| - 1].type_, vs[|vs| - 1].rule)
  }

  ghost function VisitsGaps(sch: Schema, names: set<Name>, depth: map<Name, nat>, owner: Name, vs: seq<Visit>): set<Gap>
    requires Closed(sch, names, depth) && forall v :: v in vs ==> v.type_ in names
  {
    if vs == [] then {} else
      VisitsGaps(sch, names, depth, owner, vs[..|vs| - 1]) +
      MemberGaps(sch, names, depth, owner, vs[|vs| - 1].path, vs[|vs| - 1].type_, vs[|vs| - 1].rule)
  }

  /** The types that a walk of n goes on to. */
  ghost function Next(sch: Schema, names: set<Name>, depth: map<Name, nat>, n: Name): set<Name>
    requires Closed(sch, names, depth) && n in names
  {
    VisitsNext(sch, names, depth, Visits(sch, names, depth, n))
  }

  /** The gaps of type n itself. */
  ghost function LocalGaps(sch: Schema, names: set<Name>, depth: map<Name, nat>, n: Name): set<Gap>
    requires Closed(sch, names, depth) && n in names
  {
    VisitsGaps(sch, names, depth, n, Visits(sch, names, depth, n)) +
    (if ByCases(sch, names, n) && n !in sch.unions then {Gap(n, "", SelectorRequired)} else {})
  }

  ghost function WalkGraph(sch: Schema, names: set<Name>, depth: map<Name, nat>): Graph<Name>
    requires Closed(sch, names, depth)
  {
    map n | n in names :: Next(sch, names, depth, n)
  }
}
