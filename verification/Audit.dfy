/** The traversal audit: depth-first searches with shared visited sets. */
module Audit {
  import opened Options
  import opened Reach
  import opened AuditSchema
  import opened AuditFacts
  import opened AuditReport

  // ---------- Bookkeeping of a search ----------

  /** From seen to seen' the search visited what `via` leads to: everything new has all its
      successors seen, and is reachable from an element of via. */
  ghost predicate Searched(g: Graph<Name>, seen: set<Name>, seen': set<Name>, via: set<Name>) {
    && seen <= seen' && via <= seen'
    && (forall n :: n in seen' && n !in seen ==> n in g && g[n] <= seen')
    && (forall n :: n in seen' && n !in seen ==> Found(g, via, n))
  }

  ghost predicate Found(g: Graph<Name>, via: set<Name>, n: Name) {
    exists v :: v in via && Reaches(g, v, n)
  }

  lemma SearchedNothing(g: Graph<Name>, seen: set<Name>, via: set<Name>)
    requires via <= seen
    ensures Searched(g, seen, seen, via)
  {
  }

  lemma {:induction false} SearchedThen(g: Graph<Name>, s0: set<Name>, s1: set<Name>, s2: set<Name>, v1: set<Name>,
                                        v2: set<Name>)
    requires Searched(g, s0, s1, v1) && Searched(g, s1, s2, v2)
    ensures Searched(g, s0, s2, v1 + v2)
  {
    forall n | n in s2 && n !in s0
      ensures n in g && g[n] <= s2 && Found(g, v1 + v2, n)
    {
      if n in s1 {
        var v :| v in v1 && Reaches(g, v, n);
        assert v in v1 + v2;
      } else {
        var v :| v in v2 && Reaches(g, v, n);
        assert v in v1 + v2;
      }
    }
  }

  /** A node joins the seen set, then its successors are searched. */
  lemma {:induction false} SearchedNode(g: Graph<Name>, seen: set<Name>, seen': set<Name>, n: Name)
    requires n in g && n !in seen && Searched(g, seen + {n}, seen', g[n])
    ensures Searched(g, seen, seen', {n})
  {
    forall k | k in seen' && k !in seen
      ensures k in g && g[k] <= seen' && Found(g, {n}, k)
    {
      if k == n {
        ReachesSelf(g, n);
        assert n in {n};
      } else {
        var v :| v in g[n] && Reaches(g, v, k);
        ReachesAfter(g, n, v, k);
        assert n in {n};
      }
    }
  }

  /** A search from nothing ends with exactly what is reachable. */
  lemma {:induction false} SearchedAll(g: Graph<Name>, seen: set<Name>, n: Name)
    requires Searched(g, {}, seen, {n})
    ensures forall k :: k in seen <==> Reaches(g, n, k)
  {
    forall k ensures k in seen <==> Reaches(g, n, k) {
      if k in seen {
        var v :| v in {n} && Reaches(g, v, k);
      }
      if Reaches(g, n, k) {
        StaysInside(g, seen, n, k);
      }
    }
  }

  /** Likewise for a search that has not met a pointer. */
  lemma {:induction false} NoPointerFound(sch: Schema, names: set<Name>, seen: set<Name>, n: Name)
    requires forall n :: n in names ==> Resolves(sch, n)
    requires seen <= names && Searched(PartGraph(sch, names), {}, seen, {n})
    requires forall k :: k in seen ==> !TypeOf(sch, k).Pointer?
    ensures !HoldsPointer(sch, names, n)
  {
    SearchedAll(PartGraph(sch, names), seen, n);
  }

  ghost function GapsOf(sch: Schema, names: set<Name>, depth: map<Name, nat>, s: set<Name>): (r: set<Gap>)
    requires Closed(sch, names, depth) && s <= names
    ensures forall g :: g in r <==> exists n :: n in s && g in LocalGaps(sch, names, depth, n)
  {
    set n, g | n in s && g in LocalGaps(sch, names, depth, n) :: g
  }

  /** Gaps grew by `own` and by the local gaps of the newly seen types. */
  ghost predicate Charged(sch: Schema, names: set<Name>, depth: map<Name, nat>,
                          seen: set<Name>, seen': set<Name>, gaps: set<Gap>, gaps': set<Gap>, own: set<Gap>)
    requires Closed(sch, names, depth)
  {
    seen <= seen' <= names && gaps' == gaps + own + GapsOf(sch, names, depth, seen' - seen)
  }

  lemma {:induction false} ChargedThen(sch: Schema, names: set<Name>, depth: map<Name, nat>, s0: set<Name>,
                                       s1: set<Name>, s2: set<Name>, g0: set<Gap>, g1: set<Gap>, g2: set<Gap>,
                                       o1: set<Gap>, o2: set<Gap>)
    requires Closed(sch, names, depth)
    requires Charged(sch, names, depth, s0, s1, g0, g1, o1) && Charged(sch, names, depth, s1, s2, g1, g2, o2)
    ensures Charged(sch, names, depth, s0, s2, g0, g2, o1 + o2)
  {
    assert GapsOf(sch, names, depth, s2 - s0) ==
      GapsOf(sch, names, depth, s1 - s0) + GapsOf(sch, names, depth, s2 - s1);
  }

  lemma ChargedNothing(sch: Schema, names: set<Name>, depth: map<Name, nat>, seen: set<Name>,
                       gaps: set<Gap>, own: set<Gap>)
    requires Closed(sch, names, depth) && seen <= names
    ensures Charged(sch, names, depth, seen, seen, gaps, gaps + own, own)
  {
  }

  lemma {:induction false} ChargedNode(sch: Schema, names: set<Name>, depth: map<Name, nat>, n: Name,
                    seen: set<Name>, seen': set<Name>, gaps: set<Gap>, gaps': set<Gap>)
    requires Closed(sch, names, depth) && n in names && n !in seen
    requires Charged(sch, names, depth, seen + {n}, seen', gaps, gaps', LocalGaps(sch, names, depth, n))
    ensures Charged(sch, names, depth, seen, seen', gaps, gaps', {})
  {
    hide LocalGaps, Closed;
    GapsOfUnion(sch, names, depth, n, seen' - (seen + {n}));
    assert seen' - seen == {n} + (seen' - (seen + {n}));
  }

  lemma {:induction false} GapsOfUnion(sch: Schema, names: set<Name>, depth: map<Name, nat>, n: Name, s: set<Name>)
    requires Closed(sch, names, depth) && n in names && s <= names
    ensures GapsOf(sch, names, depth, {n} + s) == LocalGaps(sch, names, depth, n) + GapsOf(sch, names, depth, s)
  {
    hide LocalGaps, Closed;
    assert n in {n} + s;
    forall g ensures g in GapsOf(sch, names, depth, {n} + s) <==>
      g in LocalGaps(sch, names, depth, n) + GapsOf(sch, names, depth, s) {
    }
  }

  // ---------- The searches ----------

  class Auditor {
    const sch: Schema
    ghost const names: set<Name>
    ghost const depth: map<Name, nat>
    /** The set shared by one contains_pointers search. */
    var probed: set<Name>
    /** The set and the gaps shared by the walk of one pool. */
    var seen: set<Name>
    var gaps: set<Gap>

    constructor (sch: Schema, ghost names: set<Name>, ghost depth: map<Name, nat>)
      ensures this.sch == sch && this.names == names && this.depth == depth
      ensures probed == {} && seen == {} && gaps == {}
    {
      this.sch, this.names, this.depth := sch, names, depth;
      probed, seen, gaps := {}, {}, {};
    }

    ghost function Parts(): Graph<Name>
      requires Closed(sch, names, depth)
    {
      PartGraph(sch, names)
    }

    method Probe(name: Name) returns (found: bool)
      requires Closed(sch, names, depth) && name in names && probed <= names
      modifies `probed
      ensures old(probed) <= probed <= names
      ensures found ==> HoldsPointer(sch, names, name)
      ensures !found ==> Searched(Parts(), old(probed), probed, {name})
      ensures !found ==> forall k :: k in probed && k !in old(probed) ==> !TypeOf(sch, k).Pointer?
      decreases names - probed, 1
    {
      ghost var p0 := probed;
      if name in probed {
        SearchedNothing(Parts(), probed, {name});
        return false;
      }
      probed := probed + {name};
      match TypeOf(sch, name) {
        case Pointer(_) =>
          ReachesSelf(Parts(), name);
          return true;
        case Array(_, element) =>
          found := Probe(element);
          if found {
            PartHolds(sch, names, depth, name, element);
          }
        case Composite(_, ms) =>
          found := ProbeMembers(name, ms);
        case Leaf =>
          found := false;
          SearchedNothing(Parts(), probed, {});
      }
      if !found {
        SearchedNode(Parts(), p0, probed, name);
      }
    }

    /** Stops at the first member that holds a pointer. */
    method ProbeMembers(name: Name, ms: seq<Member>) returns (found: bool)
      requires Closed(sch, names, depth) && name in names && probed <= names && name in probed
      requires TypeOf(sch, name).Composite? && ms == TypeOf(sch, name).members
      modifies `probed
      ensures old(probed) <= probed <= names
      ensures found ==> HoldsPointer(sch, names, name)
      ensures !found ==> Searched(Parts(), old(probed), probed, PartNames(TypeOf(sch, name)))
      ensures !found ==> forall k :: k in probed && k !in old(probed) ==> !TypeOf(sch, k).Pointer?
      decreases names - (probed - {name}), 0
    {
      hide Searched, HoldsPointer, PartGraph;
      found := false;
      ghost var p0 := probed;
      ghost var via: set<Name> := {};
      SearchedNothing(Parts(), probed, via);
      var i := 0;
      while i < |ms| && !found
        invariant i <= |ms| && p0 <= probed <= names
        invariant found ==> HoldsPointer(sch, names, name)
        invariant via == set j | 0 <= j < i :: ms[j].type_
        invariant !found ==> Searched(Parts(), p0, probed, via)
        invariant !found ==> forall k :: k in probed && k !in p0 ==> !TypeOf(sch, k).Pointer?
        decreases |ms| - i
      {
        assert ms[i] in ms;
        ghost var p1 := probed;
        found := Probe(ms[i].type_);
        if found {
          PartHolds(sch, names, depth, name, ms[i].type_);
        } else {
          SearchedThen(Parts(), p0, p1, probed, via, {ms[i].type_});
        }
        via := via + {ms[i].type_};
        i := i + 1;
      }
    }

    /** contains_pointers with a visited set of its own. */
    method ContainsPointers(name: Name) returns (found: bool)
      requires Closed(sch, names, depth) && name in names
      modifies `probed
      ensures found <==> HoldsPointer(sch, names, name)
    {
      probed := {};
      found := Probe(name);
      if !found {
        NoPointerFound(sch, names, probed, name);
      }
    }

    // ---------- The walk of one pool ----------

    ghost function Steps(): Graph<Name>
      requires Closed(sch, names, depth)
    {
      WalkGraph(sch, names, depth)
    }

    /** `via` has been searched and `own` charged since seen was s0 and gaps g0. */
    ghost predicate Done(s0: set<Name>, g0: set<Gap>, via: set<Name>, own: set<Gap>)
      requires Closed(sch, names, depth)
      reads this
    {
      seen <= names && Searched(Steps(), s0, seen, via) && Charged(sch, names, depth, s0, seen, g0, gaps, own)
    }

    method MemberOf(owner: Name, path: string, name: Name, rule: Option<Rule>)
      requires Closed(sch, names, depth) && name in names && seen <= names
      modifies `seen, `gaps, `probed
      ensures Done(old(seen), old(gaps), MemberNext(sch, names, depth, name, rule),
        MemberGaps(sch, names, depth, owner, path, name, rule))
      decreases names - seen, if Nest(TypeOf(sch, name)) then depth[name] + 1 else 0, 3
    {
      hide Searched, Charged;
      match TypeOf(sch, name) {
        case Pointer(target) =>
          if rule.Some? && rule.value.runtime {
            Nothing(sch, names, depth, seen, gaps);
            return;
          }
          if target in sch.roots && (rule.None? || rule.value.countIsOne) {
            Nothing(sch, names, depth, seen, gaps);
            return;
          }
          if rule.None? {
            if NeedsNoExtent(target) {
              Nothing(sch, names, depth, seen, gaps);
              return;
            }
            gaps := gaps + {Gap(owner, path, PointerExtentRequired)};
          }
          ghost var own :=
            if Nest(TypeOf(sch, target)) then
              MemberGaps(sch, names, depth, owner, PointeePath(path), target, PointeeRule(rule)) else {};
          if TypeOf(sch, target).Pointer? || TypeOf(sch, target).Array? {
            MemberOf(owner, PointeePath(path), target, if rule.Some? then rule.value.pointee else None);
          } else {
            Walk(target);
          }
          if rule.None? {
            ChargeFirst(sch, names, depth, old(seen), seen, old(gaps), gaps, Gap(owner, path, PointerExtentRequired),
              own);
            assert MemberGaps(sch, names, depth, owner, path, name, rule) ==
              {Gap(owner, path, PointerExtentRequired)} + own;
          } else {
            assert MemberGaps(sch, names, depth, owner, path, name, rule) == {} + own == own;
          }
        case Array(count, element) => ElementsOf(owner, path, name, rule);
        case _ => Walk(name);
      }
    }

    method ElementsOf(owner: Name, path: string, name: Name, rule: Option<Rule>)
      requires Closed(sch, names, depth) && name in names && seen <= names && TypeOf(sch, name).Array?
      modifies `seen, `gaps, `probed
      ensures Done(old(seen), old(gaps), ElementsNext(sch, names, depth, name, rule, TypeOf(sch, name).count),
        ElementsGaps(sch, names, depth, owner, path, name, rule, TypeOf(sch, name).count))
      decreases names - seen, depth[name] + 1, 1
    {
      hide Searched, Charged, MemberNext, MemberGaps, WalkGraph, GapsOf;
      var count, element := TypeOf(sch, name).count, TypeOf(sch, name).element;
      ghost var s0, g0 := seen, gaps;
      ghost var via: set<Name>, own: set<Gap> := {}, {};
      ElementKnown(sch, names, depth, name);
      Nothing(sch, names, depth, seen, gaps);
      for index := 0 to count
        invariant s0 <= seen <= names && Searched(Steps(), s0, seen, via)
        invariant Charged(sch, names, depth, s0, seen, g0, gaps, own)
        invariant via == ElementsNext(sch, names, depth, name, rule, index)
        invariant own == ElementsGaps(sch, names, depth, owner, path, name, rule, index)
      {
        ghost var s1, g1 := seen, gaps;
        MemberOf(owner, ElementPath(path, index), element, ElementRule(rule, index));
        ghost var via1 := MemberNext(sch, names, depth, element, ElementRule(rule, index));
        ghost var own1 := MemberGaps(sch, names, depth, owner, ElementPath(path, index), element,
          ElementRule(rule, index));
        Then(sch, names, depth, s0, s1, seen, g0, g1, gaps, via, via1, own, own1);
        via, own := via + via1, own + own1;
      }
    }

    method Walk(name: Name)
      requires Closed(sch, names, depth) && name in names && seen <= names
      modifies `seen, `gaps, `probed
      ensures Done(old(seen), old(gaps), {name}, {})
      decreases names - seen, 0, 2
    {
      hide Searched, Charged;
      if name in seen {
        AlreadySeen(sch, names, depth, name, seen, gaps);
        return;
      }
      seen := seen + {name};
      WalkNew(name);
      WalkedNode(sch, names, depth, name, old(seen), seen, old(gaps), gaps);
    }

    /** The body of walk for a type that has just been marked as seen. */
    method WalkNew(name: Name)
      requires Closed(sch, names, depth) && name in names && seen <= names && name in seen
      modifies `seen, `gaps, `probed
      ensures Done(old(seen), old(gaps), Next(sch, names, depth, name), LocalGaps(sch, names, depth, name))
      decreases names - (seen - {name}), 0, 1
    {
      hide Searched, Charged, GapsOf;
      ghost var vs := Visits(sch, names, depth, name);
      Nothing(sch, names, depth, seen, gaps);
      match TypeOf(sch, name) {
        case Composite(isUnion, ms) =>
          var byCases := false;
          if isUnion {
            var pointers := ContainsPointers(name);
            byCases := pointers || name in sch.unions;
          }
          assert byCases == ByCases(sch, names, name);
          if byCases {
            if name !in sch.unions {
              gaps := gaps + {Gap(name, "", SelectorRequired)};
              SelectorGap(sch, names, depth, name, seen, old(gaps));
              return;
            }
            WalkCases(name, ms);
          } else {
            WalkMembers(name, ms);
          }
          assert vs[..|vs|] == vs;
          assert LocalGaps(sch, names, depth, name) == VisitsGaps(sch, names, depth, name, vs);
        case Leaf =>
          assert LocalGaps(sch, names, depth, name) == {};
        case _ =>
          OneVisit(sch, names, depth, name);
          MemberOf(name, "", name, None);
      }
    }

    method WalkCases(name: Name, ms: seq<Member>)
      requires Closed(sch, names, depth) && name in names && seen <= names && name in seen
      requires TypeOf(sch, name).Composite? && ms == TypeOf(sch, name).members && name in sch.unions
      requires ByCases(sch, names, name)
      modifies `seen, `gaps, `probed
      ensures Done(old(seen), old(gaps), Next(sch, names, depth, name),
        VisitsGaps(sch, names, depth, name, Visits(sch, names, depth, name)))
      decreases names - (seen - {name}), 0, 0
    {
      hide Searched, Charged;
      ghost var vs := Visits(sch, names, depth, name);
      Nothing(sch, names, depth, seen, gaps);
      for i := 0 to |sch.unions[name]|
        invariant old(seen) <= seen && |vs| == |sch.unions[name]|
        invariant Done(old(seen), old(gaps), VisitsNext(sch, names, depth, vs[..i]),
          VisitsGaps(sch, names, depth, name, vs[..i]))
      {
        ghost var s1, g1 := seen, gaps;
        var choice := sch.unions[name][i];
        assert choice in sch.unions[name];
        var m := MemberNamed(ms, choice.member);
        var rule := CaseRule(sch, choice, TypeOf(sch, m.type_));
        assert vs[i] == Visit(m.name, m.type_, rule);
        VisitsStep(sch, names, depth, name, vs, i);
        MemberOf(name, m.name, m.type_, rule);
        Then(sch, names, depth, old(seen), s1, seen, old(gaps), g1, gaps,
          VisitsNext(sch, names, depth, vs[..i]), MemberNext(sch, names, depth, m.type_, rule),
          VisitsGaps(sch, names, depth, name, vs[..i]), MemberGaps(sch, names, depth, name, m.name, m.type_, rule));
      }
      assert vs[..|vs|] == vs;
    }

    method WalkMembers(name: Name, ms: seq<Member>)
      requires Closed(sch, names, depth) && name in names && seen <= names && name in seen
      requires TypeOf(sch, name).Composite? && ms == TypeOf(sch, name).members && !ByCases(sch, names, name)
      modifies `seen, `gaps, `probed
      ensures Done(old(seen), old(gaps), Next(sch, names, depth, name),
        VisitsGaps(sch, names, depth, name, Visits(sch, names, depth, name)))
      decreases names - (seen - {name}), 0, 0
    {
      hide Searched, Charged;
      ghost var vs := Visits(sch, names, depth, name);
      Nothing(sch, names, depth, seen, gaps);
      for i := 0 to |ms|
        invariant old(seen) <= seen && |vs| == |ms|
        invariant Done(old(seen), old(gaps), VisitsNext(sch, names, depth, vs[..i]),
          VisitsGaps(sch, names, depth, name, vs[..i]))
      {
        ghost var s1, g1 := seen, gaps;
        var m := ms[i];
        assert m in ms;
        var rule := RuleFor(sch, name, m.name);
        assert vs[i] == Visit(m.name, m.type_, rule);
        VisitsStep(sch, names, depth, name, vs, i);
        MemberOf(name, m.name, m.type_, rule);
        Then(sch, names, depth, old(seen), s1, seen, old(gaps), g1, gaps,
          VisitsNext(sch, names, depth, vs[..i]), MemberNext(sch, names, depth, m.type_, rule),
          VisitsGaps(sch, names, depth, name, vs[..i]), MemberGaps(sch, names, depth, name, m.name, m.type_, rule));
      }
      assert vs[..|vs|] == vs;
    }

    /** The audit of one pool: exactly the types its root leads to, and exactly their own gaps. */
    method AuditPool(root: Name)
      requires Closed(sch, names, depth) && root in names
      modifies `seen, `gaps, `probed
      ensures seen <= names && forall n :: n in seen <==> Reaches(Steps(), root, n)
      ensures gaps == GapsOf(sch, names, depth, seen)
      ensures forall k :: k in seen <==> Walked(sch, root, k)
      ensures forall g :: g in gaps <==> exists n :: n in seen && OwnGap(sch, n, g)
      ensures MembersReported(sch, seen, gaps) && RuledSeen(sch, seen)
      ensures ElementsReported(sch, seen, gaps) && CasesReported(sch, seen, gaps)
    {
      hide Closed, WalkGraph, LocalGaps, Walked, OwnGap, MembersReported, RuledSeen;
      hide ElementsReported, CasesReported;
      seen, gaps := {}, {};
      Walk(root);
      SearchedAll(Steps(), seen, root);
      assert seen - {} == seen;
      forall k ensures k in seen <==> Walked(sch, root, k) {
        WalkedIs(sch, names, depth, root, k);
      }
      forall n, g | n in seen ensures OwnGap(sch, n, g) <==> g in LocalGaps(sch, names, depth, n) {
        WalkIs(sch, names, depth, n, n, g);
      }
      ReportMembers(sch, root, seen, gaps);
      ReportElements(sch, seen, gaps);
      ReportCases(sch, seen, gaps);
    }
  }

  lemma {:induction false} VisitsStep(sch: Schema, names: set<Name>, depth: map<Name, nat>, owner: Name, vs: seq<Visit>,
                                      i: nat)
    requires Closed(sch, names, depth) && (forall v :: v in vs ==> v.type_ in names) && i < |vs|
    ensures vs[i].type_ in names
    ensures VisitsNext(sch, names, depth, vs[..i + 1]) ==
      VisitsNext(sch, names, depth, vs[..i]) + MemberNext(sch, names, depth, vs[i].type_, vs[i].rule)
    ensures VisitsGaps(sch, names, depth, owner, vs[..i + 1]) ==
      VisitsGaps(sch, names, depth, owner, vs[..i]) +
        MemberGaps(sch, names, depth, owner, vs[i].path, vs[i].type_, vs[i].rule)
  {
    assert vs[i] in vs && vs[..i + 1][..i] == vs[..i];
  }

  /** A pointer or array walked by itself has one visit: of itself. */
  lemma {:induction false} OneVisit(sch: Schema, names: set<Name>, depth: map<Name, nat>, n: Name)
    requires Closed(sch, names, depth) && n in names && Nest(TypeOf(sch, n))
    ensures Next(sch, names, depth, n) == MemberNext(sch, names, depth, n, None)
    ensures LocalGaps(sch, names, depth, n) == MemberGaps(sch, names, depth, n, "", n, None)
  {
    var vs := Visits(sch, names, depth, n);
    VisitsStep(sch, names, depth, n, vs, 0);
    assert vs[..1] == vs && vs[..0] == [];
  }

  lemma {:induction false} SelectorGap(sch: Schema, names: set<Name>, depth: map<Name, nat>, n: Name, seen: set<Name>,
                                       gaps: set<Gap>)
    requires Closed(sch, names, depth) && n in names && seen <= names && ByCases(sch, names, n) && n !in sch.unions
    ensures Next(sch, names, depth, n) == {} && LocalGaps(sch, names, depth, n) == {Gap(n, "", SelectorRequired)}
    ensures Charged(sch, names, depth, seen, seen, gaps,
                    gaps + {Gap(n, "", SelectorRequired)}, {Gap(n, "", SelectorRequired)})
  {
    ChargedNothing(sch, names, depth, seen, gaps, {Gap(n, "", SelectorRequired)});
  }

  lemma ElementKnown(sch: Schema, names: set<Name>, depth: map<Name, nat>, n: Name)
    requires Closed(sch, names, depth) && n in names && TypeOf(sch, n).Array?
    ensures n in depth && TypeOf(sch, n).element in names && Resolves(sch, TypeOf(sch, n).element)
    ensures Nest(TypeOf(sch, TypeOf(sch, n).element)) ==>
      TypeOf(sch, n).element in depth && depth[TypeOf(sch, n).element] < depth[n]
  {
  }

  /** Nothing searched, nothing charged. */
  lemma {:induction false} Nothing(sch: Schema, names: set<Name>, depth: map<Name, nat>, seen: set<Name>,
                                   gaps: set<Gap>)
    requires Closed(sch, names, depth) && seen <= names
    ensures Searched(WalkGraph(sch, names, depth), seen, seen, {})
    ensures Charged(sch, names, depth, seen, seen, gaps, gaps, {})
  {
    ChargedNothing(sch, names, depth, seen, gaps, {});
  }

  lemma {:induction false} AlreadySeen(sch: Schema, names: set<Name>, depth: map<Name, nat>, n: Name, seen: set<Name>,
                                       gaps: set<Gap>)
    requires Closed(sch, names, depth) && seen <= names && n in seen
    ensures Searched(WalkGraph(sch, names, depth), seen, seen, {n})
    ensures Charged(sch, names, depth, seen, seen, gaps, gaps, {})
  {
    ChargedNothing(sch, names, depth, seen, gaps, {});
  }

  /** One search after another. */
  lemma {:induction false} Then(sch: Schema, names: set<Name>, depth: map<Name, nat>,
             s0: set<Name>, s1: set<Name>, s2: set<Name>, g0: set<Gap>, g1: set<Gap>, g2: set<Gap>,
             v1: set<Name>, v2: set<Name>, o1: set<Gap>, o2: set<Gap>)
    requires Closed(sch, names, depth)
    requires Searched(WalkGraph(sch, names, depth), s0, s1, v1) && Searched(WalkGraph(sch, names, depth), s1, s2, v2)
    requires Charged(sch, names, depth, s0, s1, g0, g1, o1) && Charged(sch, names, depth, s1, s2, g1, g2, o2)
    ensures Searched(WalkGraph(sch, names, depth), s0, s2, v1 + v2)
    ensures Charged(sch, names, depth, s0, s2, g0, g2, o1 + o2)
    ensures s0 <= s2
  {
    SearchedThen(WalkGraph(sch, names, depth), s0, s1, s2, v1, v2);
    ChargedThen(sch, names, depth, s0, s1, s2, g0, g1, g2, o1, o2);
  }

  /** A gap recorded before a search. */
  lemma ChargeFirst(sch: Schema, names: set<Name>, depth: map<Name, nat>,
                    s0: set<Name>, s1: set<Name>, g0: set<Gap>, g1: set<Gap>, gap: Gap, own: set<Gap>)
    requires Closed(sch, names, depth) && Charged(sch, names, depth, s0, s1, g0 + {gap}, g1, own)
    ensures Charged(sch, names, depth, s0, s1, g0, g1, {gap} + own)
  {
  }

  lemma {:induction false} WalkedNode(sch: Schema, names: set<Name>, depth: map<Name, nat>, n: Name,
                   seen: set<Name>, seen': set<Name>, gaps: set<Gap>, gaps': set<Gap>)
    requires Closed(sch, names, depth) && n in names && n !in seen
    requires Searched(WalkGraph(sch, names, depth), seen + {n}, seen', Next(sch, names, depth, n))
    requires Charged(sch, names, depth, seen + {n}, seen', gaps, gaps', LocalGaps(sch, names, depth, n))
    ensures Searched(WalkGraph(sch, names, depth), seen, seen', {n})
    ensures Charged(sch, names, depth, seen, seen', gaps, gaps', {})
  {
    SearchedNode(WalkGraph(sch, names, depth), seen, seen', n);
    ChargedNode(sch, names, depth, n, seen, seen', gaps, gaps');
  }

  lemma {:induction false} PartHolds(sch: Schema, names: set<Name>, depth: map<Name, nat>, n: Name, part: Name)
    requires Closed(sch, names, depth) && n in names && part in PartNames(TypeOf(sch, n))
    requires HoldsPointer(sch, names, part)
    ensures HoldsPointer(sch, names, n)
  {
    var p :| p in names && Reaches(PartGraph(sch, names), part, p) && TypeOf(sch, p).Pointer?;
    ReachesAfter(PartGraph(sch, names), n, part, p);
  }
}
