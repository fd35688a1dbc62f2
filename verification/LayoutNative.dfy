/** The native layout, in which every embedded member has its type's size, and exactly when
    propagation arrives at it. */
module LayoutNative {
  import opened LayoutLaws
  import opened Layouts

  /** Types that can come to have a layout of their own: those that have one, and with a type
      whatever visited type contains it. */
  ghost predicate Upward(st: State, names: seq<Name>, moving: set<Name>)
    requires WellFormed(st)
  {
    && st.over <= moving <= st.base.Keys
    && forall n :: n in names && n in st.cur && n !in moving ==> Still(st, n, moving)
  }

  ghost predicate Still(st: State, n: Name, moving: set<Name>)
    requires WellFormed(st) && n in st.cur
  {
    (forall k :: k in moving ==> !DependsOn(st, n, k)) && (st.cur[n].Array? ==> Quiet(st, n))
  }

  predicate Mobile(base: map<Name, TypeDef>, n: Name, moving: set<Name>) {
    Embeds(base, n) && n in moving
  }

  /** An embedded member whose type may move, but has no layout of its own yet, has that
      type's declared size. */
  ghost predicate Agrees(st: State, moving: set<Name>) {
    forall n :: n in st.cur ==> AgreesAt(st, st.cur[n], moving)
  }

  ghost predicate AgreesAt(st: State, t: TypeDef, moving: set<Name>) {
    t.Struct? ==> forall i :: 0 <= i < |t.members| ==> MemberAgrees(st, t.members[i], moving)
  }

  predicate MemberAgrees(st: State, m: Member, moving: set<Name>) {
    Mobile(st.base, m.target, moving) && m.target !in st.over ==>
      m.target in st.cur && m.size == st.cur[m.target].size * 8
  }

  /** The sizes of st, as if every type that may move had a layout of its own. */
  function Full(st: State, moving: set<Name>): State {
    State(st.base, st.cur, moving)
  }

  lemma {:induction false} FullShift(st: State, ms: seq<Member>, moving: set<Name>)
    requires Known(st, ms) && st.over <= moving && forall i :: 0 <= i < |ms| ==> MemberAgrees(st, ms[i], moving)
    ensures Known(Full(st, moving), ms) && Shift(Full(st, moving), ms) == Shift(st, ms)
    ensures forall i :: 0 <= i < |ms| ==> ms[i].target in st.cur && Delta(Full(st, moving), ms[i]) == Delta(st, ms[i])
  {
    forall m | m in ms ensures Delta(Full(st, moving), m) == Delta(st, m) {
      var i :| 0 <= i < |ms| && ms[i] == m;
      assert MemberAgrees(st, ms[i], moving);
    }
    SameShift(st, Full(st, moving), ms);
  }

  lemma {:induction false} VisitAgrees(st: State, n: Name, moving: set<Name>)
    requires WellFormed(st) && n in st.cur && Agrees(st, moving) && !DependsOn(st, n, n)
    ensures Agrees(Visit(st, n), moving)
  {
    var st' := Visit(st, n);
    if !Quiet(st, n) {
      forall k | k in st'.cur ensures AgreesAt(st', st'.cur[k], moving) {
        assert AgreesAt(st, st.cur[k], moving);
        if k == n && st.cur[n].Struct? {
          RelaidAgrees(st, n, moving);
        }
      }
    }
  }

  lemma {:induction false} RelaidAgrees(st: State, n: Name, moving: set<Name>)
    requires WellFormed(st) && n in st.cur && st.cur[n].Struct? && AgreesAt(st, st.cur[n], moving) && !Quiet(st, n)
    requires !DependsOn(st, n, n)
    ensures AgreesAt(Visit(st, n), Visit(st, n).cur[n], moving)
  {
    var ms := st.cur[n].members;
    forall i | 0 <= i < |ms| ensures MemberAgrees(Visit(st, n), Relaid(st, ms)[i], moving) {
      RelaidAt(st, ms, i);
      assert MemberAgrees(st, ms[i], moving) && ms[i] in ms;
    }
  }

  // ---------- What any run keeps ----------

  /** Only types that may move have moved since st0. */
  ghost predicate Stays(st0: State, st: State, names: seq<Name>, moving: set<Name>) {
    && WellFormed(st0) && WellFormed(st) && st.base == st0.base && st.cur.Keys == st0.cur.Keys
    && Upward(st0, names, moving) && st.over <= moving
    && forall n :: n in st.cur && n !in moving ==> st.cur[n] == st0.cur[n]
  }

  lemma {:induction false} StillQuiet(st0: State, st: State, names: seq<Name>, n: Name, moving: set<Name>)
    requires Stays(st0, st, names, moving) && n in names && n in st0.cur && n !in moving
    ensures Quiet(st, n)
  {
    assert Still(st0, n, moving);
    match st0.cur[n]
    case Struct(_, ms) =>
      forall m | m in ms ensures m.target in st.cur && Delta(st, m) == 0 {
        if m.target in moving && Embeds(st.base, m.target) {
          assert DependsOn(st0, n, m.target);
        }
      }
      NoShift(st, ms);
    case Array(_, _, e) =>
      assert DependsOn(st0, n, e);
    case _ =>
  }

  lemma {:induction false} VisitStays(st0: State, st: State, names: seq<Name>, n: Name, moving: set<Name>)
    requires Stays(st0, st, names, moving) && n in names && n in st0.cur
    ensures Stays(st0, Visit(st, n), names, moving)
  {
    VisitWellFormed(st, n);
    if n !in moving {
      StillQuiet(st0, st, names, n, moving);
    }
  }

  /** Type n of st has the shape it has in st0; it changed only if it is visited, and then in
      the sizes of embedded members alone. */
  ghost predicate ReachedAt(st0: State, st: State, names: seq<Name>, n: Name, moving: set<Name>)
    requires n in st0.cur && n in st.cur
  {
    && SameShape(st0.cur[n], st.cur[n]) && (n !in names ==> st.cur[n] == st0.cur[n])
    && (st0.cur[n].Struct? ==> SameScalars(st0.base, st0.cur[n].members, st.cur[n].members, moving))
  }

  ghost predicate SameScalars(base: map<Name, TypeDef>, ms: seq<Member>, rs: seq<Member>, moving: set<Name>) {
    |rs| == |ms| && forall i :: 0 <= i < |ms| && !Mobile(base, ms[i].target, moving) ==> rs[i].size == ms[i].size
  }

  /** st can come from st0 by visits of names. */
  ghost predicate Reached(st0: State, st: State, names: seq<Name>, moving: set<Name>) {
    && Stays(st0, st, names, moving) && Agrees(st, moving) && ByteSized(st)
    && forall n :: n in st.cur ==> ReachedAt(st0, st, names, n, moving)
  }

  lemma {:induction false} ReachedSelf(st: State, names: seq<Name>, moving: set<Name>)
    requires WellFormed(st) && Agrees(st, moving) && ByteSized(st) && Upward(st, names, moving)
    ensures Reached(st, st, names, moving)
  {
    forall n | n in st.cur ensures ReachedAt(st, st, names, n, moving) {
    }
  }

  lemma {:induction false} RelaidScalars(st: State, ms0: seq<Member>, ms: seq<Member>, moving: set<Name>)
    requires Known(st, ms) && SameScalars(st.base, ms0, ms, moving) && st.over <= moving
    requires forall i :: 0 <= i < |ms| ==> ms[i].target == ms0[i].target
    ensures SameScalars(st.base, ms0, Relaid(st, ms), moving)
  {
    forall i | 0 <= i < |ms0| && !Mobile(st.base, ms0[i].target, moving) ensures Relaid(st, ms)[i].size == ms0[i].size {
      RelaidAt(st, ms, i);
    }
  }

  lemma {:induction false} VisitedReached(st0: State, st: State, names: seq<Name>, n: Name, moving: set<Name>)
    requires Reached(st0, st, names, moving) && n in names && n in st.cur && !Quiet(st, n)
    ensures n in st0.cur && ReachedAt(st0, Visit(st, n), names, n, moving)
  {
    assert ReachedAt(st0, st, names, n, moving);
    if st.cur[n].Struct? {
      VisitKeepsGaps(st, n);
      VisitByteSized(st, n);
      SameGapsTrans(st0.cur[n].members, st.cur[n].members, Visit(st, n).cur[n].members);
      RelaidScalars(st, st0.cur[n].members, st.cur[n].members, moving);
    }
  }

  lemma {:induction false} VisitReaches(st0: State, st: State, names: seq<Name>, n: Name, rank: map<Name, nat>,
                                        moving: set<Name>)
    requires Reached(st0, st, names, moving) && n in names && n in st.cur && Ranked(st, rank)
    ensures Reached(st0, Visit(st, n), names, moving) && Ranked(Visit(st, n), rank)
  {
    VisitStays(st0, st, names, n, moving);
    VisitRanked(st, n, rank);
    NotInItself(st, rank, n);
    VisitAgrees(st, n, moving);
    VisitByteSized(st, n);
    if !Quiet(st, n) {
      hide ReachedAt, Agrees, ByteSized, Stays, Quiet, NewLayout, DependsOn;
      VisitedReached(st0, st, names, n, moving);
      OtherVisit(st, n);
      forall k | k in st.cur ensures ReachedAt(st0, Visit(st, n), names, k, moving) {
        assert ReachedAt(st0, st, names, k, moving);
        if k != n {
          SameReachedAt(st0, st, Visit(st, n), names, k, moving);
        }
      }
    }
  }

  lemma SameReachedAt(st0: State, st: State, st': State, names: seq<Name>, k: Name,
                      moving: set<Name>)
    requires k in st0.cur && k in st.cur && k in st'.cur && st'.cur[k] == st.cur[k]
    requires ReachedAt(st0, st, names, k, moving)
    ensures ReachedAt(st0, st', names, k, moving)
  {
  }

  lemma {:induction false} PassReaches(st0: State, st: State, names: seq<Name>, order: seq<Name>, rank: map<Name, nat>,
                                       moving: set<Name>)
    requires Reached(st0, st, names, moving) && Ranked(st, rank)
    requires forall n :: n in order ==> n in names && n in st.cur
    ensures Reached(st0, Pass(st, order), names, moving) && Ranked(Pass(st, order), rank)
  {
    hide Reached, DependsOn;
    if order != [] {
      var init, last := order[..|order| - 1], order[|order| - 1];
      assert forall n :: n in init ==> n in order;
      PassReaches(st0, st, names, init, rank, moving);
      assert last in order;
      VisitReaches(st0, Pass(st, init), names, last, rank, moving);
    }
  }

  // ---------- The native layout ----------

  lemma {:induction false} RefitMentions(st: State, t: TypeDef)
    requires Mentions(st.cur.Keys, t)
    ensures Mentions(st.cur.Keys, Refit(st, t))
  {
    if t.Struct? {
      forall m | m in Relaid(st, t.members) ensures m.target in st.cur {
        var i :| 0 <= i < |t.members| && Relaid(st, t.members)[i] == m;
        RelaidAt(st, t.members, i);
        assert t.members[i] in t.members;
      }
    }
  }

  /** The native layout of n: what it contains comes first, then n gets the sizes of that.
      Types that are not visited keep their layouts. */
  ghost function Native(st: State, names: seq<Name>, rank: map<Name, nat>, n: Name, moving: set<Name>): (t: TypeDef)
    requires Ranked(st, rank) && n in st.cur
    ensures Mentions(st.cur.Keys, t)
    decreases rank[n]
  {
    if n !in names then st.cur[n] else
      var parts := map k | k in st.cur :: if DependsOn(st, n, k) then Native(st, names, rank, k, moving) else st.cur[k];
      var sizes := State(st.base, parts, moving);
      RefitMentions(sizes, st.cur[n]);
      Refit(sizes, st.cur[n])
  }

  /** All types in their native layouts. */
  ghost function NativeState(st: State, names: seq<Name>, rank: map<Name, nat>, moving: set<Name>): (r: State)
    requires Ranked(st, rank)
    ensures r.base == st.base && r.cur.Keys == st.cur.Keys
  {
    State(st.base, map n | n in st.cur :: Native(st, names, rank, n, moving), moving)
  }

  /** Two states that give the parts of t the same sizes refit it alike. */
  lemma {:induction false} SameRefit(a: State, b: State, t: TypeDef)
    requires Mentions(a.cur.Keys, t) && Mentions(b.cur.Keys, t)
    requires t.Array? ==> a.cur[t.element].size == b.cur[t.element].size
    requires t.Struct? ==> forall m :: m in t.members ==> Delta(a, m) == Delta(b, m)
    ensures Refit(a, t) == Refit(b, t)
  {
    if t.Struct? {
      SameShift(a, b, t.members);
      forall i | 0 <= i < |t.members| ensures Relaid(a, t.members)[i] == Relaid(b, t.members)[i] {
        RelaidAt(a, t.members, i);
        RelaidAt(b, t.members, i);
        SameShift(a, b, t.members[..i]);
      }
    }
  }

  /** The native layout is a fixed point: each visited type has the native sizes of its parts. */
  lemma {:induction false} NativeFits(st: State, names: seq<Name>, rank: map<Name, nat>, n: Name, moving: set<Name>)
    requires Ranked(st, rank) && n in st.cur
    ensures Native(st, names, rank, n, moving) ==
      if n in names then Refit(NativeState(st, names, rank, moving), st.cur[n]) else st.cur[n]
  {
    if n in names {
      var parts := map k | k in st.cur :: if DependsOn(st, n, k) then Native(st, names, rank, k, moving) else st.cur[k];
      var sizes, native := State(st.base, parts, moving), NativeState(st, names, rank, moving);
      match st.cur[n]
      case Struct(_, ms) =>
        forall m | m in ms ensures Delta(sizes, m) == Delta(native, m) {
          if Embeds(st.base, m.target) {
            assert DependsOn(st, n, m.target);
          }
        }
        SameRefit(sizes, native, st.cur[n]);
      case Array(_, _, e) =>
        assert DependsOn(st, n, e);
      case _ =>
    }
  }

  // ---------- At rest ----------

  /** Size changes are due inside n, but they add up to nothing, so that no visit makes them. */
  ghost predicate Cancels(st: State, t: TypeDef)
    requires Mentions(st.cur.Keys, t)
  {
    t.Struct? && Shift(st, t.members) == 0 && exists i :: 0 <= i < |t.members| && Delta(st, t.members[i]) != 0
  }

  ghost predicate NoneCancels(st: State, names: seq<Name>)
    requires WellFormed(st)
  {
    forall n :: n in names && n in st.cur ==> !Cancels(st, st.cur[n])
  }

  /** Embedded members of t have the sizes of their types in st. */
  ghost predicate Fitted(st: State, t: TypeDef, moving: set<Name>) {
    match t
    case Array(size, count, e) => e in st.cur && size == st.cur[e].size * count
    case Struct(_, ms) => forall i :: 0 <= i < |ms| && Mobile(st.base, ms[i].target, moving) ==> MemberFits(st, ms[i])
    case _ => true
  }

  predicate MemberFits(st: State, m: Member) {
    m.target in st.cur && m.size == st.cur[m.target].size * 8
  }

  /** A type at rest fits exactly if nothing cancels in it. */
  lemma {:induction false} FitsUnlessCancels(st: State, n: Name, moving: set<Name>)
    requires WellFormed(st) && Agrees(st, moving) && st.over <= moving && n in st.cur && Quiet(st, n)
    ensures Fitted(st, st.cur[n], moving) <==> !Cancels(st, st.cur[n])
  {
    assert AgreesAt(st, st.cur[n], moving);
    if st.cur[n].Struct? {
      var ms := st.cur[n].members;
      forall i | 0 <= i < |ms|
        ensures Delta(st, ms[i]) == 0 <==> (Mobile(st.base, ms[i].target, moving) ==> MemberFits(st, ms[i]))
      {
        assert MemberAgrees(st, ms[i], moving) && ms[i] in ms;
      }
    }
  }

  /** Of all layouts of a given shape, one has the sizes of `native`. */
  lemma {:induction false} FittedIsRefit(st0: State, st: State, native: State, names: seq<Name>, n: Name,
                                         moving: set<Name>)
    requires Reached(st0, st, names, moving) && n in st0.cur && ByteSized(st0)
    requires native.base == st0.base && native.over == moving && native.cur.Keys == st0.cur.Keys
    requires Fitted(native, st.cur[n], moving)
    ensures st.cur[n] == Refit(native, st0.cur[n])
  {
    assert ReachedAt(st0, st, names, n, moving);
    match st0.cur[n]
    case Struct(size, ms) =>
      var rs := st.cur[n].members;
      var u := Refit(native, st0.cur[n]);
      RelaidKeepsGaps(native, ms);
      assert BytesOf(st0, st0.cur[n]);
      WholeBytes(native, ms);
      forall i | 0 <= i < |ms| ensures rs[i].size == u.members[i].size {
        RelaidAt(native, ms, i);
        assert ms[i] in ms;
        if Mobile(st0.base, ms[i].target, moving) {
          assert MemberFits(native, rs[i]);
        }
      }
      SameStruct(ms, st.cur[n], u, size);
    case _ =>
  }

  /** Sizes that agree on the parts of a type fit it alike. */
  lemma {:induction false} SameFitted(st0: State, st: State, native: State, names: seq<Name>, n: Name,
                                      moving: set<Name>)
    requires Reached(st0, st, names, moving) && n in st0.cur
    requires native.base == st0.base && native.cur.Keys == st0.cur.Keys
    requires forall k :: k in st0.cur && DependsOn(st0, n, k) ==> st.cur[k].size == native.cur[k].size
    ensures Fitted(st, st.cur[n], moving) <==> Fitted(native, st.cur[n], moving)
  {
    assert ReachedAt(st0, st, names, n, moving);
    match st0.cur[n]
    case Struct(_, ms) =>
      var rs := st.cur[n].members;
      forall i | 0 <= i < |rs| && Mobile(st.base, rs[i].target, moving)
        ensures MemberFits(st, rs[i]) <==> MemberFits(native, rs[i])
      {
        assert ms[i] in ms && ms[i].target == rs[i].target && DependsOn(st0, n, rs[i].target);
      }
    case Array(_, _, e) =>
      assert DependsOn(st0, n, e);
    case _ =>
  }

  /** At rest with nothing cancelling, a type has its native layout. */
  lemma {:induction false} RestAt(st0: State, st: State, names: seq<Name>, rank: map<Name, nat>, n: Name,
                                  moving: set<Name>)
    requires Reached(st0, st, names, moving) && Ranked(st0, rank) && ByteSized(st0)
    requires AllQuiet(st, names) && NoneCancels(st, names) && n in st0.cur
    ensures st.cur[n] == Native(st0, names, rank, n, moving)
    decreases rank[n]
  {
    hide Reached, Quiet, Native, Cancels, Refit, Fitted, Agrees;
    NativeFits(st0, names, rank, n, moving);
    var native := NativeState(st0, names, rank, moving);
    Basics(st0, st, names, n, moving);
    if n in names {
      forall k | k in st0.cur && DependsOn(st0, n, k) ensures st.cur[k].size == native.cur[k].size {
        RestAt(st0, st, names, rank, k, moving);
      }
      FitsUnlessCancels(st, n, moving);
      SameFitted(st0, st, native, names, n, moving);
      FittedIsRefit(st0, st, native, names, n, moving);
    }
  }

  lemma {:induction false} Basics(st0: State, st: State, names: seq<Name>, n: Name, moving: set<Name>)
    requires Reached(st0, st, names, moving) && n in st0.cur
    ensures WellFormed(st0) && WellFormed(st) && Agrees(st, moving) && st.over <= moving && st.base == st0.base
    ensures st.cur.Keys == st0.cur.Keys
    ensures n !in names ==> st.cur[n] == st0.cur[n]
  {
    assert ReachedAt(st0, st, names, n, moving);
  }

  /** A refitted type fits. */
  lemma {:induction false} RefitFits(st0: State, native: State, n: Name, moving: set<Name>)
    requires WellFormed(st0) && n in st0.cur
    requires native.base == st0.base && native.over == moving && native.cur.Keys == st0.cur.Keys
    ensures Fitted(native, Refit(native, st0.cur[n]), moving)
  {
    match st0.cur[n]
    case Struct(_, ms) =>
      forall i | 0 <= i < |ms| && Mobile(st0.base, Relaid(native, ms)[i].target, moving)
        ensures MemberFits(native, Relaid(native, ms)[i])
      {
        RelaidAt(native, ms, i);
        assert ms[i] in ms;
      }
    case _ =>
  }

  /** At rest, everything is native exactly if nothing cancels, whatever the order of visits. */
  lemma {:induction false} RestIsNative(st0: State, st: State, names: seq<Name>, rank: map<Name, nat>,
                                        moving: set<Name>)
    requires Reached(st0, st, names, moving) && Ranked(st0, rank) && ByteSized(st0) && AllQuiet(st, names)
    ensures st.cur == NativeState(st0, names, rank, moving).cur <==> NoneCancels(st, names)
  {
    hide ByteSized, AgreesAt, ReachedAt, Native, Refit, Cancels, Fitted, Quiet;
    var native := NativeState(st0, names, rank, moving);
    if NoneCancels(st, names) {
      forall n | n in st0.cur ensures st.cur[n] == native.cur[n] {
        RestAt(st0, st, names, rank, n, moving);
      }
      assert st.cur == native.cur;
    }
    if st.cur == native.cur {
      forall n | n in names && n in st.cur ensures !Cancels(st, st.cur[n]) {
        NativeFits(st0, names, rank, n, moving);
        RefitFits(st0, native, n, moving);
        SameFitted(st0, st, native, names, n, moving);
        FitsUnlessCancels(st, n, moving);
      }
    }
  }

  // ---------- Bottom-up orders ----------

  lemma {:induction false} PassKeepsOthers(st: State, order: seq<Name>, n: Name)
    requires WellFormed(st) && (forall k :: k in order ==> k in st.cur) && n in st.cur && n !in order
    ensures Pass(st, order).cur[n] == st.cur[n]
  {
    if order != [] {
      PassKeepsOthers(st, order[..|order| - 1], n);
    }
  }

  /** What one visit makes of t, given the sizes of st. */
  ghost function Settled(st: State, t: TypeDef): TypeDef
    requires Mentions(st.cur.Keys, t)
  {
    if t.Struct? && Shift(st, t.members) == 0 then t else Refit(st, t)
  }

  lemma {:induction false} SettledSame(a: State, b: State, t: TypeDef)
    requires Mentions(a.cur.Keys, t) && Mentions(b.cur.Keys, t)
    requires t.Array? ==> a.cur[t.element].size == b.cur[t.element].size
    requires t.Struct? ==> forall m :: m in t.members ==> Delta(a, m) == Delta(b, m)
    ensures Settled(a, t) == Settled(b, t)
  {
    SameRefit(a, b, t);
    if t.Struct? {
      SameShift(a, b, t.members);
    }
  }

  /** Whoever depends only on types of the same layout in both states settles alike. */
  lemma {:induction false} SettledAlike(st0: State, a: State, b: State, n: Name, moving: set<Name>)
    requires WellFormed(st0) && n in st0.cur && a.cur.Keys == b.cur.Keys == st0.cur.Keys
    requires a.base == b.base == st0.base && a.over == b.over == moving
    requires forall k :: k in st0.cur && DependsOn(st0, n, k) ==> a.cur[k].size == b.cur[k].size
    ensures Settled(a, st0.cur[n]) == Settled(b, st0.cur[n])
    ensures Refit(a, st0.cur[n]) == Refit(b, st0.cur[n])
  {
    var t := st0.cur[n];
    if t.Struct? {
      forall m | m in t.members ensures Delta(a, m) == Delta(b, m) {
        if Embeds(st0.base, m.target) {
          assert DependsOn(st0, n, m.target);
        }
      }
    } else if t.Array? {
      assert DependsOn(st0, n, t.element);
    }
    SettledSame(a, b, t);
    SameRefit(a, b, t);
  }

  /** A first visit settles a type by the sizes of the moment. */
  lemma {:induction false} VisitSettles(st: State, n: Name, moving: set<Name>)
    requires WellFormed(st) && Agrees(st, moving) && st.over <= moving && n in st.cur && !DependsOn(st, n, n)
    ensures WellFormed(Visit(st, n)) && Visit(st, n).cur[n] == Settled(Full(Visit(st, n), moving), st.cur[n])
  {
    VisitWellFormed(st, n);
    var t := st.cur[n];
    assert AgreesAt(st, t, moving);
    if t.Struct? {
      FullShift(st, t.members, moving);
    }
    SameRefit(st, Full(st, moving), t);
    SettledAlike(st, Full(st, moving), Full(Visit(st, n), moving), n, moving);
  }

  /** After one pass bottom-up, each type is what the final sizes make of its old layout. */
  lemma {:induction false} BottomUpSettles(st: State, names: seq<Name>, order: seq<Name>, rank: map<Name, nat>, n: Name,
                                           moving: set<Name>)
    requires Starts(st, names, rank, moving) && Within(st, order, names) && BottomUp(order, rank)
    requires n in order
    ensures Pass(st, order).cur[n] == Settled(Full(Pass(st, order), moving), st.cur[n])
  {
    hide Settled, Visit, Agrees, Quiet, Pass, DependsOn, WellFormed, Upward;
    var init, last := order[..|order| - 1], order[|order| - 1];
    PassLast(st, names, order, rank, moving);
    assert last in order && forall k :: k in init ==> k in order;
    if last in init {
      BottomUpPass(st, init, rank);
      QuietVisit(Pass(st, init), init, last);
      BottomUpSettles(st, names, init, rank, n, moving);
    } else if n == last {
      PassKeepsOthers(st, init, last);
      NotInItself(Pass(st, init), rank, last);
      VisitSettles(Pass(st, init), last, moving);
    } else {
      BottomUpSettles(st, names, init, rank, n, moving);
      NotAbove(st, order, rank, n);
      OtherVisit(Pass(st, init), last);
      SettledAlike(st, Full(Pass(st, init), moving), Full(Pass(st, order), moving), n, moving);
    }
  }

  ghost predicate Starts(st: State, names: seq<Name>, rank: map<Name, nat>, moving: set<Name>) {
    Ranked(st, rank) && Agrees(st, moving) && Upward(st, names, moving)
  }

  predicate Within(st: State, order: seq<Name>, names: seq<Name>) {
    forall k :: k in order ==> k in st.cur && k in names
  }

  lemma {:induction false} PassLast(st: State, names: seq<Name>, order: seq<Name>, rank: map<Name, nat>,
                                    moving: set<Name>)
    requires Starts(st, names, rank, moving) && Within(st, order, names) && BottomUp(order, rank)
    requires order != []
    ensures var init, last := order[..|order| - 1], order[|order| - 1];
      && BottomUp(init, rank) && last in st.cur && Within(st, init, names)
      && Pass(st, order) == Visit(Pass(st, init), last)
      && Agrees(Pass(st, init), moving) && Ranked(Pass(st, init), rank) && Pass(st, init).over <= moving
  {
    hide DependsOn, Agrees, Visit, Upward;
    PassAgrees(st, names, order[..|order| - 1], rank, moving);
  }

  lemma {:induction false} NotAbove(st: State, order: seq<Name>, rank: map<Name, nat>, n: Name)
    requires Ranked(st, rank) && BottomUp(order, rank) && n in order && n in st.cur && order[|order| - 1] in st.cur
    ensures !DependsOn(st, n, order[|order| - 1])
  {
    var i :| 0 <= i < |order| && order[i] == n;
    if i < |order| - 1 {
      assert rank[order[i]] <= rank[order[|order| - 1]];
    }
  }

  lemma QuietVisit(st: State, names: seq<Name>, n: Name)
    requires WellFormed(st) && n in st.cur && n in names && AllQuiet(st, names)
    ensures Visit(st, n) == st
  {
  }

  lemma OtherVisit(st: State, n: Name)
    requires WellFormed(st) && n in st.cur
    ensures Visit(st, n).cur.Keys == st.cur.Keys && Visit(st, n).base == st.base
    ensures forall k :: k in st.cur && k != n ==> Visit(st, n).cur[k] == st.cur[k]
  {
  }

  lemma {:induction false} PassAgrees(st: State, names: seq<Name>, order: seq<Name>, rank: map<Name, nat>,
                                      moving: set<Name>)
    requires Starts(st, names, rank, moving) && Within(st, order, names)
    ensures Agrees(Pass(st, order), moving) && Ranked(Pass(st, order), rank)
    ensures Stays(st, Pass(st, order), names, moving)
  {
    hide Agrees, DependsOn, Still;
    if order != [] {
      var init, last := order[..|order| - 1], order[|order| - 1];
      assert last in order && forall k :: k in init ==> k in order;
      PassAgrees(st, names, init, rank, moving);
      hide Stays, Upward;
      NotInItself(Pass(st, init), rank, last);
      VisitRanked(Pass(st, init), last, rank);
      VisitAgrees(Pass(st, init), last, moving);
      VisitStays(st, Pass(st, init), names, last, moving);
    }
  }

  lemma NotInItself(st: State, rank: map<Name, nat>, n: Name)
    requires Ranked(st, rank) && n in st.cur
    ensures !DependsOn(st, n, n)
  {
  }

  /** Some visited struct of st whose changes to native sizes add up to nothing. */
  ghost predicate NativeCancels(st: State, names: seq<Name>, rank: map<Name, nat>, moving: set<Name>)
    requires Ranked(st, rank)
  {
    exists n :: n in names && n in st.cur && Cancels(NativeState(st, names, rank, moving), st.cur[n])
  }

  lemma {:induction false} SettledUnlessCancels(native: State, t: TypeDef)
    requires Mentions(native.cur.Keys, t)
    ensures Settled(native, t) == Refit(native, t) <==> !Cancels(native, t)
  {
    if t.Struct? && Shift(native, t.members) == 0 {
      var ms := t.members;
      forall i | 0 <= i < |ms|
        ensures ms[i] in ms && (Relaid(native, ms)[i].size == ms[i].size <==> Delta(native, ms[i]) == 0) {
        RelaidAt(native, ms, i);
      }
      if !Cancels(native, t) {
        forall i | 0 <= i < |ms| ensures Relaid(native, ms)[i] == ms[i] {
          RelaidAt(native, ms, i);
          NoShift(native, ms[..i]);
        }
        assert Relaid(native, ms) == ms;
      }
    }
  }

  /** One pass bottom-up gives the native layout exactly if no changes to native sizes cancel. */
  lemma {:induction false} BottomUpIsNative(st: State, order: seq<Name>, rank: map<Name, nat>, moving: set<Name>)
    requires Starts(st, order, rank, moving) && Within(st, order, order) && BottomUp(order, rank)
    ensures Pass(st, order).cur == NativeState(st, order, rank, moving).cur <==> !NativeCancels(st, order, rank, moving)
  {
    hide Settled, Cancels, Refit, Agrees, Native, DependsOn, Upward;
    var fin, native := Pass(st, order), NativeState(st, order, rank, moving);
    if !NativeCancels(st, order, rank, moving) {
      forall n | n in st.cur ensures fin.cur[n] == native.cur[n] {
        BottomUpAt(st, order, rank, n, moving);
      }
      assert fin.cur == native.cur;
    }
    if fin.cur == native.cur {
      forall n | n in order && n in st.cur ensures !Cancels(native, st.cur[n]) {
        BottomUpSettles(st, order, order, rank, n, moving);
        NativeFits(st, order, rank, n, moving);
        SettledAlike(st, Full(fin, moving), native, n, moving);
        SettledUnlessCancels(native, st.cur[n]);
      }
    }
  }

  lemma {:induction false} BottomUpAt(st: State, order: seq<Name>, rank: map<Name, nat>, n: Name, moving: set<Name>)
    requires Starts(st, order, rank, moving) && Within(st, order, order) && BottomUp(order, rank)
    requires !NativeCancels(st, order, rank, moving) && n in st.cur
    ensures Pass(st, order).cur[n] == Native(st, order, rank, n, moving)
    decreases rank[n]
  {
    hide Settled, Cancels, Refit, Agrees, Native, Upward;
    NativeFits(st, order, rank, n, moving);
    if n in order {
      var fin, native := Pass(st, order), NativeState(st, order, rank, moving);
      BottomUpSettles(st, order, order, rank, n, moving);
      forall k | k in st.cur && DependsOn(st, n, k) ensures fin.cur[k].size == native.cur[k].size {
        BottomUpAt(st, order, rank, k, moving);
      }
      SettledAlike(st, Full(fin, moving), native, n, moving);
      SettledUnlessCancels(native, st.cur[n]);
    } else {
      PassKeepsOthers(st, order, n);
    }
  }
}
