/** What an audit reports, said of the schema alone: the places a type makes it look at, when a
    place is a gap, and where it leads. No search and no recursion. */
module AuditFacts {
  import opened Options
  import opened Reach
  import opened AuditSchema

  /** Name n stands for type t. */
  predicate Stands(sch: Schema, n: Name, t: Type) {
    var m := if n in sch.overrides then sch.overrides[n] else n;
    m in sch.types && sch.types[m] == t
  }

  /** A place that is looked at: its path from the owning type, its type and its rule. */
  datatype Place = Place(path: string, type_: Name, rule: Option<Rule>)

  // ---------- Pointers inside a type ----------

  /** k is the element type of n, or the type of one of its members. */
  ghost predicate PartOf(sch: Schema, n: Name, k: Name) {
    exists t :: Stands(sch, n, t) &&
      match t
      case Array(_, e) => e == k
      case Composite(_, ms) => exists i :: 0 <= i < |ms| && ms[i].type_ == k
      case _ => false
  }

  ghost predicate PartChain(sch: Schema, p: seq<Name>, n: Name) {
    p != [] && p[0] == n && forall i :: 0 <= i < |p| - 1 ==> PartOf(sch, p[i], p[i + 1])
  }

  ghost predicate HasPointer(sch: Schema, n: Name) {
    exists p, t :: PartChain(sch, p, n) && Stands(sch, p[|p| - 1], Pointer(t))
  }

  // ---------- Places ----------

  /** A union that is looked at by the cases of its rule, if it has one. */
  ghost predicate Chosen(sch: Schema, n: Name) {
    (exists ms :: Stands(sch, n, Composite(true, ms))) && (HasPointer(sch, n) || n in sch.unions)
  }

  /** m is the last of the members with that name. */
  predicate LastNamed(ms: seq<Member>, name: string, m: Member) {
    exists i :: 0 <= i < |ms| && ms[i] == m && m.name == name && forall j :: i < j < |ms| ==> ms[j].name != name
  }

  /** The rule that a case gives to a member of type t. */
  predicate RuleOfCase(c: Case, t: Type, r: Option<Rule>) {
    if c.runtime then r == Some(Rule(true, false, None, []))
    else if t.Pointer? && !c.isString then r == Some(Rule(false, c.countIsOne, None, []))
    else if c.elementCount.None? then r == None
    else
      r.Some? && !r.value.runtime && !r.value.countIsOne && r.value.pointee == None &&
      t.Array? && |r.value.elements| == t.count &&
      forall i :: 0 <= i < t.count ==> r.value.elements[i] == Some(Rule(false, c.elementCount.value, None, []))
  }

  /** The walk of n starts with place a. */
  ghost predicate Starts(sch: Schema, n: Name, a: Place) {
    if Chosen(sch, n) then n in sch.unions && exists c :: c in sch.unions[n] && FromCase(sch, n, c, a)
    else FromMember(sch, n, a) || (a == Place("", n, None) && exists t :: Stands(sch, n, t) && (t.Pointer? || t.Array?))
  }

  ghost predicate FromCase(sch: Schema, n: Name, c: Case, a: Place) {
    exists isUnion, ms, t ::
      && Stands(sch, n, Composite(isUnion, ms)) && LastNamed(ms, c.member, Member(a.path, a.type_))
      && Stands(sch, a.type_, t) && RuleOfCase(c, t, a.rule)
  }

  ghost predicate FromMember(sch: Schema, n: Name, a: Place) {
    && (exists isUnion, ms :: Stands(sch, n, Composite(isUnion, ms)) && Member(a.path, a.type_) in ms)
    && a.rule == (if n in sch.pointers && a.path in sch.pointers[n] then Some(sch.pointers[n][a.path]) else None)
  }

  /** A pointer to t is not looked behind: by its rule, because t is audited by itself, or
      because t has no extent to know. */
  predicate Stops(sch: Schema, t: Name, rule: Option<Rule>) {
    match rule
    case Some(r) => r.runtime || (r.countIsOne && t in sch.roots)
    case None => t in sch.roots || Extentless(t)
  }

  predicate Extentless(t: Name) {
    t in {"char", "const char"} || "ID3D" <= t || exists i :: 0 <= i <= |t| && "__fastcall(" <= t[i..]
  }

  /** From place a the walk looks at place b: what a pointer to a pointer or array points to,
      or an element of an array. */
  ghost predicate Inner(sch: Schema, a: Place, b: Place) {
    BehindPointer(sch, a, b) || ElementOf(sch, a, b)
  }

  ghost predicate BehindPointer(sch: Schema, a: Place, b: Place) {
    exists u :: Stands(sch, a.type_, Pointer(b.type_)) && !Stops(sch, b.type_, a.rule) && Stands(sch, b.type_, u) &&
      (u.Pointer? || u.Array?) && b.path == a.path + "->[]" &&
      b.rule == match a.rule case Some(r) => r.pointee case None => None
  }

  ghost predicate ElementOf(sch: Schema, a: Place, b: Place) {
    exists count: nat, i: nat :: Stands(sch, a.type_, Array(count, b.type_)) && i < count &&
      b.path == a.path + "[" + Decimal(i) + "]" &&
      b.rule == match a.rule case Some(r) => (if i < |r.elements| then r.elements[i] else None) case None => None
  }

  ghost predicate PlaceChain(sch: Schema, p: seq<Place>) {
    |p| > 0 && forall i :: 0 <= i < |p| - 1 ==> Inner(sch, p[i], p[i + 1])
  }

  ghost predicate Under(sch: Schema, a: Place, b: Place) {
    exists p :: PlaceChain(sch, p) && p[0] == a && p[|p| - 1] == b
  }

  /** The walk of n looks at place b. */
  ghost predicate LooksAt(sch: Schema, n: Name, b: Place) {
    exists a :: Starts(sch, n, a) && Under(sch, a, b)
  }

  /** From place b the walk goes on to type k. */
  ghost predicate Goes(sch: Schema, b: Place, k: Name) {
    exists t ::
      && Stands(sch, k, t) && !t.Pointer? && !t.Array?
      && (k == b.type_ || (Stands(sch, b.type_, Pointer(k)) && !Stops(sch, k, b.rule)))
  }

  /** A pointer that no rule tells the extent of. */
  ghost predicate Lacks(sch: Schema, b: Place) {
    b.rule == None && exists t :: Stands(sch, b.type_, Pointer(t)) && t !in sch.roots && !Extentless(t)
  }

  // ---------- The report ----------

  ghost predicate WalksTo(sch: Schema, n: Name, k: Name) {
    exists b :: LooksAt(sch, n, b) && Goes(sch, b, k)
  }

  ghost predicate Walked(sch: Schema, root: Name, k: Name) {
    exists p: seq<Name> :: p != [] && p[0] == root && p[|p| - 1] == k &&
      forall i :: 0 <= i < |p| - 1 ==> WalksTo(sch, p[i], p[i + 1])
  }

  ghost predicate OwnGap(sch: Schema, n: Name, g: Gap) {
    || (g == Gap(n, "", SelectorRequired) && Chosen(sch, n) && n !in sch.unions)
    || (exists b :: LooksAt(sch, n, b) && Lacks(sch, b) && g == Gap(n, b.path, PointerExtentRequired))
  }

  // ---------- Pointers inside a type: the same ----------

  lemma {:induction false} StandsFor(sch: Schema, n: Name, t: Type)
    requires Resolves(sch, n)
    ensures Stands(sch, n, t) <==> t == TypeOf(sch, n)
  {
  }

  lemma {:induction false} PartIs(sch: Schema, names: set<Name>, depth: map<Name, nat>, n: Name, k: Name)
    requires Closed(sch, names, depth) && n in names
    ensures PartOf(sch, n, k) <==> k in PartGraph(sch, names)[n]
    ensures PartOf(sch, n, k) ==> k in names
  {
    assert Stands(sch, n, TypeOf(sch, n));
  }

  lemma {:induction false} HasPointerIs(sch: Schema, names: set<Name>, depth: map<Name, nat>, n: Name)
    requires Closed(sch, names, depth) && n in names
    ensures HasPointer(sch, n) <==> HoldsPointer(sch, names, n)
  {
    hide Closed, PartOf, PartGraph;
    NamesResolve(sch, names, depth);
    if HasPointer(sch, n) {
      var p, t :| PartChain(sch, p, n) && Stands(sch, p[|p| - 1], Pointer(t));
      ChainIsPath(sch, names, depth, p, n);
      assert Joins(PartGraph(sch, names), p, n, p[|p| - 1]);
    }
    if HoldsPointer(sch, names, n) {
      var k :| k in names && Reaches(PartGraph(sch, names), n, k) && TypeOf(sch, k).Pointer?;
      var p :| Joins(PartGraph(sch, names), p, n, k);
      PathIsChain(sch, names, depth, p, n);
      assert Stands(sch, k, Pointer(TypeOf(sch, k).target));
    }
  }

  lemma NamesResolve(sch: Schema, names: set<Name>, depth: map<Name, nat>)
    requires Closed(sch, names, depth)
    ensures forall n :: n in names ==> Resolves(sch, n)
    ensures PartGraph(sch, names).Keys == names
  {
  }

  lemma {:induction false} ChainIsPath(sch: Schema, names: set<Name>, depth: map<Name, nat>, p: seq<Name>, n: Name)
    requires Closed(sch, names, depth) && n in names && PartChain(sch, p, n)
    ensures IsPath(PartGraph(sch, names), p) && p[|p| - 1] in names
    decreases |p|
  {
    hide PartOf;
    NamesResolve(sch, names, depth);
    var i := 0;
    while i < |p| - 1
      invariant 0 <= i < |p| && p[i] in names
      invariant forall j :: 0 <= j < i ==> p[j] in PartGraph(sch, names) && p[j + 1] in PartGraph(sch, names)[p[j]]
    {
      PartIs(sch, names, depth, p[i], p[i + 1]);
      i := i + 1;
    }
  }

  lemma {:induction false} PathIsChain(sch: Schema, names: set<Name>, depth: map<Name, nat>, p: seq<Name>, n: Name)
    requires Closed(sch, names, depth) && IsPath(PartGraph(sch, names), p) && p[0] == n
    ensures PartChain(sch, p, n)
  {
    hide PartOf;
    NamesResolve(sch, names, depth);
    forall i | 0 <= i < |p| - 1 ensures PartOf(sch, p[i], p[i + 1]) {
      PartIs(sch, names, depth, p[i], p[i + 1]);
    }
  }

  // ---------- Places: the same ----------

  lemma {:induction false} UnderSelf(sch: Schema, a: Place)
    ensures Under(sch, a, a)
  {
    assert PlaceChain(sch, [a]);
  }

  lemma {:induction false} UnderAfter(sch: Schema, a: Place, c: Place, b: Place)
    requires Inner(sch, a, c) && Under(sch, c, b)
    ensures Under(sch, a, b)
  {
    hide Inner;
    var p :| PlaceChain(sch, p) && p[0] == c && p[|p| - 1] == b;
    var q := [a] + p;
    forall i | 0 <= i < |q| - 1 ensures Inner(sch, q[i], q[i + 1]) {
      if i > 0 {
        assert q[i] == p[i - 1] && q[i + 1] == p[i];
      }
    }
    assert PlaceChain(sch, q);
  }

  lemma {:induction false} UnderFrom(sch: Schema, a: Place, b: Place)
    requires Under(sch, a, b)
    ensures a == b || exists c :: Inner(sch, a, c) && Under(sch, c, b)
  {
    hide Inner;
    var p :| PlaceChain(sch, p) && p[0] == a && p[|p| - 1] == b;
    if |p| > 1 {
      var q := p[1..];
      forall i | 0 <= i < |q| - 1 ensures Inner(sch, q[i], q[i + 1]) {
        assert q[i] == p[i + 1] && q[i + 1] == p[i + 2];
      }
      assert PlaceChain(sch, q) && Inner(sch, p[0], p[1]);
    }
  }

  /** The types that places at or under a lead to. */
  ghost predicate GoesFrom(sch: Schema, a: Place, k: Name) {
    exists b :: Under(sch, a, b) && Goes(sch, b, k)
  }

  /** The gaps that places at or under a leave. */
  ghost predicate LacksFrom(sch: Schema, a: Place, owner: Name, g: Gap) {
    exists b :: Under(sch, a, b) && Lacks(sch, b) && g == Gap(owner, b.path, PointerExtentRequired)
  }

  lemma {:induction false} FromHere(sch: Schema, a: Place, owner: Name, k: Name, g: Gap)
    ensures GoesFrom(sch, a, k) <==>
      Goes(sch, a, k) || exists c :: Inner(sch, a, c) && GoesFrom(sch, c, k)
    ensures LacksFrom(sch, a, owner, g) <==>
      || (Lacks(sch, a) && g == Gap(owner, a.path, PointerExtentRequired))
      || exists c :: Inner(sch, a, c) && LacksFrom(sch, c, owner, g)
  {
    hide Inner, Under, Goes, Lacks;
    UnderSelf(sch, a);
    forall b | Under(sch, a, b) ensures a == b || exists c :: Inner(sch, a, c) && Under(sch, c, b) {
      UnderFrom(sch, a, b);
    }
    forall c, b | Inner(sch, a, c) && Under(sch, c, b) ensures Under(sch, a, b) {
      UnderAfter(sch, a, c, b);
    }
  }

  lemma {:induction false} StopsIs(sch: Schema, t: Name, rule: Option<Rule>)
    ensures Stops(sch, t, rule) <==> Cut(sch, t, rule)
  {
  }

  /** What is reached and left from a place is what the walk's sets say. */
  lemma {:induction false} PlaceIs(sch: Schema, names: set<Name>, depth: map<Name, nat>, owner: Name, a: Place, k: Name,
                                   g: Gap)
    requires Closed(sch, names, depth) && a.type_ in names
    ensures GoesFrom(sch, a, k) <==> k in MemberNext(sch, names, depth, a.type_, a.rule)
    ensures LacksFrom(sch, a, owner, g) <==> g in MemberGaps(sch, names, depth, owner, a.path, a.type_, a.rule)
    decreases if Nest(TypeOf(sch, a.type_)) then depth[a.type_] + 1 else 0, 0
  {
    FromHere(sch, a, owner, k, g);
    match TypeOf(sch, a.type_)
    case Pointer(target) => PointerIs(sch, names, depth, owner, a, k, g);
    case Array(count, _) =>
      ElementsIs(sch, names, depth, owner, a, count, k, g);
      ArrayIs(sch, a, owner, k, g);
    case _ => PlainIs(sch, a, k);
  }

  /** A type that is neither pointer nor array is where the walk goes. */
  lemma {:induction false} PlainIs(sch: Schema, a: Place, k: Name)
    requires Resolves(sch, a.type_) && !Nest(TypeOf(sch, a.type_))
    ensures Goes(sch, a, k) <==> k == a.type_
    ensures !Lacks(sch, a) && forall c :: !Inner(sch, a, c)
  {
    assert Stands(sch, a.type_, TypeOf(sch, a.type_));
  }

  lemma {:induction false} PointerIs(sch: Schema, names: set<Name>, depth: map<Name, nat>, owner: Name, a: Place,
                                     k: Name, g: Gap)
    requires Closed(sch, names, depth) && a.type_ in names && TypeOf(sch, a.type_).Pointer?
    requires GoesFrom(sch, a, k) <==> Goes(sch, a, k) || exists c :: Inner(sch, a, c) && GoesFrom(sch, c, k)
    requires LacksFrom(sch, a, owner, g) <==>
      || (Lacks(sch, a) && g == Gap(owner, a.path, PointerExtentRequired))
      || exists c :: Inner(sch, a, c) && LacksFrom(sch, c, owner, g)
    ensures GoesFrom(sch, a, k) <==> k in MemberNext(sch, names, depth, a.type_, a.rule)
    ensures LacksFrom(sch, a, owner, g) <==> g in MemberGaps(sch, names, depth, owner, a.path, a.type_, a.rule)
    decreases depth[a.type_], 1
  {
    hide GoesFrom, LacksFrom;
    var target := TypeOf(sch, a.type_).target;
    PointerPlace(sch, names, depth, a, k);
    if !Cut(sch, target, a.rule) && Nest(TypeOf(sch, target)) {
      PlaceIs(sch, names, depth, owner, Pointee(a, target), k, g);
    }
  }

  function Pointee(a: Place, target: Name): Place {
    Place(PointeePath(a.path), target, PointeeRule(a.rule))
  }

  lemma {:induction false} PointerPlace(sch: Schema, names: set<Name>, depth: map<Name, nat>, a: Place, k: Name)
    requires Closed(sch, names, depth) && a.type_ in names && TypeOf(sch, a.type_).Pointer?
    ensures var t := TypeOf(sch, a.type_).target;
      && Resolves(sch, t)
      && (forall c :: Inner(sch, a, c) <==> !Cut(sch, t, a.rule) && Nest(TypeOf(sch, t)) && c == Pointee(a, t))
      && (Goes(sch, a, k) <==> k == t && !Cut(sch, t, a.rule) && !Nest(TypeOf(sch, t)))
      && (Lacks(sch, a) <==> !Cut(sch, t, a.rule) && a.rule.None?)
  {
    var t := TypeOf(sch, a.type_).target;
    StopsIs(sch, t, a.rule);
    assert Stands(sch, a.type_, Pointer(t));
    assert Stands(sch, t, TypeOf(sch, t));
    hide Stops, Cut;
    forall c ensures Inner(sch, a, c) <==> !Cut(sch, t, a.rule) && Nest(TypeOf(sch, t)) && c == Pointee(a, t) {
    }
    assert Lacks(sch, a) <==> !Cut(sch, t, a.rule) && a.rule.None? by {
      LacksIs(sch, a, t);
    }
  }

  lemma {:induction false} LacksIs(sch: Schema, a: Place, t: Name)
    requires Stands(sch, a.type_, Pointer(t))
    ensures Lacks(sch, a) <==> !Cut(sch, t, a.rule) && a.rule.None?
  {
  }

  function Element(a: Place, element: Name, i: nat): Place {
    Place(ElementPath(a.path, i), element, ElementRule(a.rule, i))
  }

  lemma {:induction false} ArrayIs(sch: Schema, a: Place, owner: Name, k: Name, g: Gap)
    requires Resolves(sch, a.type_) && TypeOf(sch, a.type_).Array?
    ensures var t := TypeOf(sch, a.type_);
      && !Goes(sch, a, k) && !Lacks(sch, a)
      && forall c :: Inner(sch, a, c) <==> exists i: nat :: i < t.count && c == Element(a, t.element, i)
  {
    var t := TypeOf(sch, a.type_);
    assert Stands(sch, a.type_, t);
    forall c, i: nat | i < t.count && c == Element(a, t.element, i) ensures ElementOf(sch, a, c) {
      assert Stands(sch, a.type_, Array(t.count, c.type_)) && i < t.count;
    }
    forall c | ElementOf(sch, a, c) ensures exists i: nat :: i < t.count && c == Element(a, t.element, i) {
      var count: nat, i: nat :| Stands(sch, a.type_, Array(count, c.type_)) && i < count &&
        c.path == a.path + "[" + Decimal(i) + "]" &&
        c.rule == match a.rule case Some(r) => (if i < |r.elements| then r.elements[i] else None) case None => None;
      assert c == Element(a, t.element, i);
    }
  }

  /** The first m elements of an array. */
  lemma {:induction false} ElementsIs(sch: Schema, names: set<Name>, depth: map<Name, nat>, owner: Name, a: Place,
                                      m: nat, k: Name, g: Gap)
    requires Closed(sch, names, depth) && a.type_ in names && TypeOf(sch, a.type_).Array?
    ensures var e := TypeOf(sch, a.type_).element;
      && (k in ElementsNext(sch, names, depth, a.type_, a.rule, m) <==>
            exists i: nat :: i < m && GoesFrom(sch, Element(a, e, i), k))
      && (g in ElementsGaps(sch, names, depth, owner, a.path, a.type_, a.rule, m) <==>
            exists i: nat :: i < m && LacksFrom(sch, Element(a, e, i), owner, g))
    decreases depth[a.type_], 1, m
  {
    hide GoesFrom, LacksFrom, MemberNext, MemberGaps, ElementsNext, ElementsGaps, Closed;
    NamesResolve(sch, names, depth);
    ElementsUnfold(sch, names, depth, owner, a, m);
    if m > 0 {
      var last := Element(a, TypeOf(sch, a.type_).element, m - 1);
      ElementsIs(sch, names, depth, owner, a, m - 1, k, g);
      PlaceIs(sch, names, depth, owner, last, k, g);
    }
  }

  lemma {:induction false} ElementsUnfold(sch: Schema, names: set<Name>, depth: map<Name, nat>, owner: Name, a: Place,
                                          m: nat)
    requires Closed(sch, names, depth) && a.type_ in names && TypeOf(sch, a.type_).Array?
    ensures var e := TypeOf(sch, a.type_).element;
      && Resolves(sch, e) && e in names && a.type_ in depth
      && (Nest(TypeOf(sch, e)) ==> e in depth && depth[e] < depth[a.type_])
      && ElementsNext(sch, names, depth, a.type_, a.rule, 0) == {}
      && ElementsGaps(sch, names, depth, owner, a.path, a.type_, a.rule, 0) == {}
      && (m > 0 ==>
            var last := Element(a, e, m - 1);
            && ElementsNext(sch, names, depth, a.type_, a.rule, m) ==
                 ElementsNext(sch, names, depth, a.type_, a.rule, m - 1) + MemberNext(sch, names, depth, e, last.rule)
            && ElementsGaps(sch, names, depth, owner, a.path, a.type_, a.rule, m) ==
                 ElementsGaps(sch, names, depth, owner, a.path, a.type_, a.rule, m - 1) +
                 MemberGaps(sch, names, depth, owner, last.path, e, last.rule))
  {
  }

  // ---------- The walk: the same ----------

  ghost function VisitPlace(v: Visit): Place {
    Place(v.path, v.type_, v.rule)
  }

  lemma {:induction false} LastNamedIs(ms: seq<Member>, name: string, m: Member)
    requires HasMember(ms, name)
    ensures LastNamed(ms, name, m) <==> m == MemberNamed(ms, name)
  {
    var last := ms[|ms| - 1];
    if last.name != name {
      var front := ms[..|ms| - 1];
      assert HasMember(front, name) by {
        var i :| 0 <= i < |ms| && ms[i].name == name;
        assert front[i] == ms[i];
      }
      LastNamedIs(front, name, m);
      if LastNamed(front, name, m) {
        var i :| 0 <= i < |front| && front[i] == m && m.name == name &&
          forall j :: i < j < |front| ==> front[j].name != name;
        assert ms[i] == m && forall j :: i < j < |ms| ==> ms[j].name != name;
      }
      if LastNamed(ms, name, m) {
        var i :| 0 <= i < |ms| && ms[i] == m && m.name == name && forall j :: i < j < |ms| ==> ms[j].name != name;
        assert front[i] == m;
      }
    }
  }

  lemma {:induction false} RuleOfCaseIs(c: Case, t: Type, r: Option<Rule>, sch: Schema)
    requires !c.runtime && !(t.Pointer? && !c.isString) && c.elementCount.Some? ==> t.Array?
    ensures RuleOfCase(c, t, r) <==> r == CaseRule(sch, c, t)
  {
    if RuleOfCase(c, t, r) && !c.runtime && !(t.Pointer? && !c.isString) && c.elementCount.Some? {
      assert r.value.elements == CaseRule(sch, c, t).value.elements;
    }
  }

  /** A walk starts with the places of its visits. */
  lemma {:induction false} StartsIs(sch: Schema, names: set<Name>, depth: map<Name, nat>, n: Name, a: Place)
    requires Closed(sch, names, depth) && n in names
    ensures Starts(sch, n, a) <==>
      exists i :: 0 <= i < |Visits(sch, names, depth, n)| && VisitPlace(Visits(sch, names, depth, n)[i]) == a
  {
    HasPointerIs(sch, names, depth, n);
    assert Stands(sch, n, TypeOf(sch, n));
    ChosenIs(sch, names, depth, n);
    var vs := Visits(sch, names, depth, n);
    match TypeOf(sch, n)
    case Composite(isUnion, ms) =>
      if ByCases(sch, names, n) {
        if n in sch.unions {
          CaseStarts(sch, names, depth, n, a);
        }
      } else {
        MemberStarts(sch, names, depth, n, a);
      }
    case Leaf =>
    case _ =>
      assert vs[0] == Visit("", n, None);
  }

  lemma {:induction false} ChosenIs(sch: Schema, names: set<Name>, depth: map<Name, nat>, n: Name)
    requires Closed(sch, names, depth) && n in names
    ensures Chosen(sch, n) <==> ByCases(sch, names, n)
  {
    HasPointerIs(sch, names, depth, n);
    assert Stands(sch, n, TypeOf(sch, n));
  }

  lemma {:induction false} CaseStarts(sch: Schema, names: set<Name>, depth: map<Name, nat>, n: Name, a: Place)
    requires Closed(sch, names, depth) && n in names && ByCases(sch, names, n) && n in sch.unions
    ensures (exists c :: c in sch.unions[n] && FromCase(sch, n, c, a)) <==>
      exists i :: 0 <= i < |Visits(sch, names, depth, n)| && VisitPlace(Visits(sch, names, depth, n)[i]) == a
  {
    var vs, cs := Visits(sch, names, depth, n), sch.unions[n];
    forall i | 0 <= i < |cs| ensures FromCase(sch, n, cs[i], a) <==> VisitPlace(vs[i]) == a {
      assert cs[i] in cs;
      CaseIs(sch, names, depth, n, cs[i], a);
    }
    hide FromCase, Visits;
    if c :| c in cs && FromCase(sch, n, c, a) {
      var i :| 0 <= i < |cs| && cs[i] == c;
      assert VisitPlace(vs[i]) == a;
    }
  }

  lemma {:induction false} CaseIs(sch: Schema, names: set<Name>, depth: map<Name, nat>, n: Name, c: Case, a: Place)
    requires Closed(sch, names, depth) && n in names && TypeOf(sch, n).Composite? && n in sch.unions
    requires c in sch.unions[n]
    ensures var ms := TypeOf(sch, n).members;
      HasMember(ms, c.member) && CaseFits(sch, ms, c) &&
      (FromCase(sch, n, c, a) <==> VisitPlace(CaseVisit(sch, ms, c)) == a)
  {
    var ms := TypeOf(sch, n).members;
    var m := MemberNamed(ms, c.member);
    LastNamedIs(ms, c.member, Member(a.path, a.type_));
    RuleOfCaseIs(c, TypeOf(sch, m.type_), a.rule, sch);
    assert Stands(sch, n, Composite(TypeOf(sch, n).isUnion, ms)) && Stands(sch, m.type_, TypeOf(sch, m.type_));
    hide LastNamed, RuleOfCase, CaseRule, Closed;
  }

  lemma {:induction false} MemberStarts(sch: Schema, names: set<Name>, depth: map<Name, nat>, n: Name, a: Place)
    requires Closed(sch, names, depth) && n in names && TypeOf(sch, n).Composite? && !ByCases(sch, names, n)
    ensures FromMember(sch, n, a) <==>
      exists i :: 0 <= i < |Visits(sch, names, depth, n)| && VisitPlace(Visits(sch, names, depth, n)[i]) == a
  {
    var vs, ms := Visits(sch, names, depth, n), TypeOf(sch, n).members;
    assert Stands(sch, n, Composite(TypeOf(sch, n).isUnion, ms));
    forall i | 0 <= i < |ms|
      ensures VisitPlace(vs[i]) == a <==> ms[i] == Member(a.path, a.type_) && a.rule == RuleFor(sch, n, a.path)
    {
    }
    if FromMember(sch, n, a) {
      var i :| 0 <= i < |ms| && ms[i] == Member(a.path, a.type_);
      assert VisitPlace(vs[i]) == a;
    }
  }

  lemma {:induction false} VisitsIs(sch: Schema, names: set<Name>, depth: map<Name, nat>, owner: Name, vs: seq<Visit>,
                                    k: Name, g: Gap)
    requires Closed(sch, names, depth) && forall v :: v in vs ==> v.type_ in names
    ensures k in VisitsNext(sch, names, depth, vs) <==>
      exists i :: 0 <= i < |vs| && GoesFrom(sch, VisitPlace(vs[i]), k)
    ensures g in VisitsGaps(sch, names, depth, owner, vs) <==>
      exists i :: 0 <= i < |vs| && LacksFrom(sch, VisitPlace(vs[i]), owner, g)
  {
    hide Closed, GoesFrom, LacksFrom, MemberNext, MemberGaps;
    if vs != [] {
      var front, last := vs[..|vs| - 1], vs[|vs| - 1];
      VisitsIs(sch, names, depth, owner, front, k, g);
      PlaceIs(sch, names, depth, owner, VisitPlace(last), k, g);
      forall i | 0 <= i < |front| ensures front[i] == vs[i] {
      }
    }
  }

  /** What a walk of n goes on to and leaves. */
  lemma {:induction false} WalkIs(sch: Schema, names: set<Name>, depth: map<Name, nat>, n: Name, k: Name, g: Gap)
    requires Closed(sch, names, depth) && n in names
    ensures WalksTo(sch, n, k) <==> k in Next(sch, names, depth, n)
    ensures OwnGap(sch, n, g) <==> g in LocalGaps(sch, names, depth, n)
  {
    hide Closed, GoesFrom, LacksFrom, Starts, Visits, Goes, Lacks, Under, Chosen, ByCases;
    var vs := Visits(sch, names, depth, n);
    VisitsIs(sch, names, depth, n, vs, k, g);
    ChosenIs(sch, names, depth, n);
    forall a ensures Starts(sch, n, a) <==> exists i :: 0 <= i < |vs| && VisitPlace(vs[i]) == a {
      StartsIs(sch, names, depth, n, a);
    }
    WalksFromStart(sch, n, k, g);
  }

  lemma {:induction false} WalksFromStart(sch: Schema, n: Name, k: Name, g: Gap)
    ensures WalksTo(sch, n, k) <==> exists a :: Starts(sch, n, a) && GoesFrom(sch, a, k)
    ensures OwnGap(sch, n, g) <==>
      || (g == Gap(n, "", SelectorRequired) && Chosen(sch, n) && n !in sch.unions)
      || exists a :: Starts(sch, n, a) && LacksFrom(sch, a, n, g)
  {
    hide Starts, Goes, Lacks, Under, Chosen;
  }
}
