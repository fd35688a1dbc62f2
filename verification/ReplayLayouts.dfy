/** The propagation loop over the two dictionaries `types` and `overrides`. */
module ReplayLayouts {
  import opened LayoutLaws
  import opened LayoutMembers
  import opened LayoutNative
  import opened LayoutOneSided
  import opened Layouts

  const MAX_PASSES := 32

  function ReplayName(n: Name): Name {
    "Replay::" + n
  }

  lemma {:induction false} ReplayNamesDiffer(a: Name, b: Name)
    requires ReplayName(a) == ReplayName(b)
    ensures a == b
  {
    assert ReplayName(a)[8..] == a && ReplayName(b)[8..] == b;
  }

  function Resolve(overrides: map<Name, Name>, n: Name): Name {
    if n in overrides then overrides[n] else n
  }

  /** Each override is named after its type, and no declared type has such a name. */
  ghost predicate NamedMaps(base: map<Name, TypeDef>, types: map<Name, TypeDef>, overrides: map<Name, Name>) {
    && (forall n :: n in base ==> n in types && types[n] == base[n] && ReplayName(n) !in base)
    && (forall n :: n in base && n in overrides ==> overrides[n] == ReplayName(n) && ReplayName(n) in types)
  }

  /** The layout each declared name now stands for. */
  ghost function ViewOf(base: map<Name, TypeDef>, types: map<Name, TypeDef>, overrides: map<Name, Name>): (st: State)
    requires NamedMaps(base, types, overrides)
    ensures st.base == base && st.cur.Keys == base.Keys && st.over <= base.Keys
  {
    State(base, map n | n in base :: types[Resolve(overrides, n)], set n | n in base && n in overrides)
  }

  lemma ViewAt(base: map<Name, TypeDef>, types: map<Name, TypeDef>, overrides: map<Name, Name>,
               n: Name)
    requires NamedMaps(base, types, overrides) && n in base
    ensures Resolve(overrides, n) in types && ViewOf(base, types, overrides).cur[n] == types[Resolve(overrides, n)]
    ensures n in ViewOf(base, types, overrides).over <==> n in overrides
    ensures n in types && types[n] == base[n]
  {
  }

  /** Writing under a type's replay name changes that type's view only. */
  lemma {:induction false} WriteView(base: map<Name, TypeDef>, types: map<Name, TypeDef>, overrides: map<Name, Name>,
                                     name: Name, t: TypeDef)
    requires NamedMaps(base, types, overrides) && name in base
    ensures NamedMaps(base, types[ReplayName(name) := t], overrides[name := ReplayName(name)])
    ensures ViewOf(base, types[ReplayName(name) := t], overrides[name := ReplayName(name)])
         == State(base, ViewOf(base, types, overrides).cur[name := t], ViewOf(base, types, overrides).over + {name})
  {
    forall n | n in base && n != name
      ensures ReplayName(n) != ReplayName(name)
    {
      if ReplayName(n) == ReplayName(name) {
        ReplayNamesDiffer(n, name);
      }
    }
    var types', overrides' := types[ReplayName(name) := t], overrides[name := ReplayName(name)];
    assert NamedMaps(base, types', overrides');
    var v, v' := ViewOf(base, types, overrides), ViewOf(base, types', overrides');
    forall n | n in base
      ensures v'.cur[n] == v.cur[name := t][n] && (n in v'.over <==> n in v.over + {name})
    {
    }
    assert v'.cur == v.cur[name := t];
    assert v'.over == v.over + {name};
  }

  lemma {:induction false} MentionsKnown(st: State, n: Name)
    requires WellFormed(st) && n in st.cur
    ensures st.cur[n].Array? ==> st.cur[n].element in st.cur
    ensures st.cur[n].Struct? ==> Known(st, st.cur[n].members)
  {
    assert Mentions(st.cur.Keys, st.cur[n]);
  }

  lemma RelayStart(st: State)
    ensures Relaid(st, []) == [] && Shift(st, []) == 0
  {
  }

  lemma {:induction false} RelayStep(st: State, ms: seq<Member>, i: nat)
    requires Known(st, ms) && i < |ms|
    ensures ms[i].target in st.cur && Known(st, ms[..i]) && Known(st, ms[..i + 1])
    ensures Shift(st, ms[..i + 1]) == Shift(st, ms[..i]) + Delta(st, ms[i])
    ensures Relaid(st, ms[..i + 1]) == Relaid(st, ms[..i]) +
      [Member(ms[i].name, ms[i].target, ms[i].offset + Shift(st, ms[..i]), ms[i].size + Delta(st, ms[i]))]
  {
    assert ms[i] in ms && ms[..i + 1][..i] == ms[..i];
  }

  class Replay {
    var types: map<Name, TypeDef>
    var overrides: map<Name, Name>
    /** The types as declared; none of them is ever written. */
    ghost const base: map<Name, TypeDef>

    constructor (types: map<Name, TypeDef>, overrides: map<Name, Name>, ghost base: map<Name, TypeDef>)
      ensures this.types == types && this.overrides == overrides && this.base == base
    {
      this.types, this.overrides, this.base := types, overrides, base;
    }

    ghost function View(): (st: State)
      requires NamedMaps(base, types, overrides)
      reads this
    {
      ViewOf(base, types, overrides)
    }

    ghost predicate Valid()
      reads this
    {
      NamedMaps(base, types, overrides) && WellFormed(View())
    }

    /** A layout of its own for `name`, whose present layout is its declared one. */
    method Clone(name: Name, size: int)
      requires name in types
      modifies this
      ensures types == old(types)[ReplayName(name) := old(types)[name].(size := size)]
      ensures overrides == old(overrides)[name := ReplayName(name)]
    {
      types := types[ReplayName(name) := types[name].(size := size)];
      overrides := overrides[name := ReplayName(name)];
    }

    method Store(name: Name, t: TypeDef, size: int)
      requires NamedMaps(base, types, overrides) && name in base
      modifies this
      ensures NamedMaps(base, types, overrides)
      ensures View() == State(base, old(View()).cur[name := t], old(View()).over + {name})
    {
      hide ViewOf;
      ViewAt(base, types, overrides, name);
      WriteView(base, types, overrides, name, t);
      ghost var types0, overrides0 := types, overrides;
      if name !in overrides {
        Clone(name, size);
      }
      types := types[overrides[name] := t];
      assert types == types0[ReplayName(name) := t];
      assert overrides == overrides0[name := ReplayName(name)];
    }

    /** The members with their new sizes and places, and the sum of the changes. */
    method Relay(members: seq<Member>) returns (updated: seq<Member>, shift: int)
      requires Valid() && Known(View(), members)
      ensures updated == Relaid(View(), members) && shift == Shift(View(), members)
      ensures SameGaps(members, updated) && shift == End(updated) - End(members)
      ensures forall i :: 0 <= i < |members| ==> ResizedTo(View(), members[i], updated[i].size)
    {
      hide ViewOf, NamedMaps, WellFormed, Relaid, Shift;
      RelayStart(View());
      updated, shift := [], 0;
      var i := 0;
      while i < |members|
        invariant 0 <= i <= |members|
        invariant updated == Relaid(View(), members[..i]) && shift == Shift(View(), members[..i])
      {
        var m := members[i];
        RelayStep(View(), members, i);
        ViewAt(base, types, overrides, m.target);
        var native := types[Resolve(overrides, m.target)];
        var delta := 0;
        if m.target in overrides && (types[m.target].Struct? || types[m.target].Array? || types[m.target].Opaque?) {
          delta := native.size * 8 - m.size;
        }
        assert delta == Delta(View(), m);
        updated := updated + [Member(m.name, m.target, m.offset + shift, m.size + delta)];
        shift := shift + delta;
        i := i + 1;
      }
      assert members[..i] == members;
      RelaidSizes(View(), members);
    }

    /** One name's turn in a pass. */
    method Update(name: Name) returns (changed: bool)
      requires Valid() && name in base
      modifies this
      ensures Valid() && View() == Visit(old(View()), name)
      ensures changed == !Quiet(old(View()), name)
    {
      hide ViewOf, NamedMaps, WellFormed;
      VisitWellFormed(View(), name);
      ViewAt(base, types, overrides, name);
      MentionsKnown(View(), name);
      changed := false;
      var current := types[Resolve(overrides, name)];
      match current {
        case Array(oldSize, count, element) =>
          ViewAt(base, types, overrides, element);
          var size := types[Resolve(overrides, element)].size * count;
          if size != oldSize {
            Store(name, Array(size, count, element), oldSize);
            changed := true;
          }
        case Struct(oldSize, members) =>
          var updated, shift := Relay(members);
          if shift != 0 {
            Store(name, Struct(oldSize + shift / 8, updated), oldSize);
            changed := true;
          }
        case _ =>
      }
    }

    /** One pass over the source names. `calm` ranks are quiet before it, one more after it. */
    method OnePass(sourceNames: seq<Name>, ghost rank: map<Name, nat>, ghost calm: nat) returns (changed: bool)
      requires Valid() && forall n :: n in sourceNames ==> n in base
      modifies this
      ensures Valid() && View() == Pass(old(View()), sourceNames)
      ensures !changed ==> View() == old(View()) && AllQuiet(View(), sourceNames)
      ensures changed ==> !AllQuiet(old(View()), sourceNames)
      ensures old(Calm(View(), sourceNames, rank, calm)) ==> Calm(View(), sourceNames, rank, calm + 1)
    {
      hide ViewOf, NamedMaps, WellFormed, Quiet;
      changed := false;
      ghost var st0 := View();
      var i := 0;
      while i < |sourceNames|
        invariant 0 <= i <= |sourceNames|
        invariant Valid() && View() == Pass(st0, sourceNames[..i])
        invariant !changed ==> View() == st0 && forall k :: 0 <= k < i ==> Quiet(st0, sourceNames[k])
        invariant changed ==> !AllQuiet(st0, sourceNames)
        invariant Calm(st0, sourceNames, rank, calm) ==>
          Calm(View(), sourceNames, rank, calm) &&
          forall k :: 0 <= k < i && rank[sourceNames[k]] <= calm + 1 ==> Quiet(View(), sourceNames[k])
      {
        ghost var st := View();
        assert sourceNames[i] in sourceNames && sourceNames[..i + 1][..i] == sourceNames[..i];
        var c := Update(sourceNames[i]);
        if Calm(st0, sourceNames, rank, calm) {
          VisitCalm(st, sourceNames, rank, calm, sourceNames[i]);
        }
        changed := changed || c;
        i := i + 1;
      }
      assert sourceNames[..i] == sourceNames;
    }

    /** Passes until one changes nothing, at most 32 of them; false is the error
        that the layouts did not converge. `rank` is any rank of by-value containment, and
        `moving` any set of types with the overridden ones and all visited ones that contain some. */
    method Propagate(sourceNames: seq<Name>, ghost rank: map<Name, nat>, ghost moving: set<Name>)
      returns (ok: bool, ghost passes: nat)
      requires Valid() && forall n :: n in sourceNames ==> n in base
      modifies this
      ensures Valid() && passes <= 32
      ensures ok ==> AllQuiet(View(), sourceNames) && AllRest(View(), sourceNames)
      ensures ok && NoneCancels(View(), sourceNames) ==>
        forall n :: n in sourceNames && View().cur[n].Struct? ==> AllFit(View(), View().cur[n].members)
      ensures OthersKept(old(View()), View(), sourceNames)
      ensures forall k: nat :: old(Ranked(View(), rank)) && RankedBelow(sourceNames, rank, k) ==>
        passes <= k + 1 && (k < 32 ==> ok)
      ensures GapsKept(old(View()), View())
      ensures old(ByteSized(View())) ==> ShapesKept(old(View()), View())
      ensures old(Coherent(View(), sourceNames, rank, moving)) ==> Reached(old(View()), View(), sourceNames, moving)
      ensures ok && old(Coherent(View(), sourceNames, rank, moving)) ==>
        (View().cur == NativeState(old(View()), sourceNames, rank, moving).cur <==> NoneCancels(View(), sourceNames))
      ensures ok && old(Coherent(View(), sourceNames, rank, moving) && OneSided(View(), sourceNames, rank, moving)) ==>
        View() == State(base, NativeState(old(View()), sourceNames, rank, moving).cur,
          Changed(old(View()), sourceNames, rank, moving))
    {
      hide ViewOf, NamedMaps, WellFormed, ByteSized, ShapesKept, Ranked;
      hide Calm, Quiet, GapsKept, Reached, Under, Coherent;
      hide OneSided, OthersKept, AllRest, AllFit;
      ghost var st0 := View();
      passes := 0;
      RunStarts(st0, sourceNames, rank, moving);
      for iteration := 0 to MAX_PASSES
        invariant Valid() && passes == iteration
        invariant Ranked(st0, rank) ==> Calm(View(), sourceNames, rank, iteration)
        invariant forall k: nat :: Ranked(st0, rank) && RankedBelow(sourceNames, rank, k) ==> iteration <= k
        invariant OnRun(st0, View(), sourceNames, rank, moving)
      {
        ghost var st := View();
        var changed := OnePass(sourceNames, rank, iteration);
        passes := passes + 1;
        PassOnRun(st0, st, sourceNames, rank, moving);
        if !changed {
          RunEnds(st0, View(), sourceNames, rank, moving);
          return true, passes;
        }
        forall k: nat | Ranked(st0, rank) && RankedBelow(sourceNames, rank, k)
          ensures iteration < k
        {
          if iteration == k {
            CalmIsQuiet(st, sourceNames, rank, k);
          }
        }
      }
      RunKept(st0, View(), sourceNames, rank, moving);
      ok := false;
    }
  }

  ghost predicate RankedBelow(names: seq<Name>, rank: map<Name, nat>, k: nat) {
    forall n :: n in names && n in rank ==> rank[n] <= k
  }

  /** Containment is ranked, embedded members are whole bytes, and declared sizes agree with
      the types that may move. */
  ghost predicate Coherent(st: State, names: seq<Name>, rank: map<Name, nat>, moving: set<Name>) {
    Starts(st, names, rank, moving) && ByteSized(st)
  }

  // ---------- A whole run ----------

  /** All that the passes since st0 have kept. */
  ghost predicate OnRun(st0: State, st: State, names: seq<Name>, rank: map<Name, nat>, moving: set<Name>) {
    && WellFormed(st) && GapsKept(st0, st) && OthersKept(st0, st, names)
    && (ByteSized(st0) ==> ByteSized(st) && ShapesKept(st0, st))
    && (Coherent(st0, names, rank, moving) ==> Reached(st0, st, names, moving) && Ranked(st, rank))
    && (Coherent(st0, names, rank, moving) && OneSided(st0, names, rank, moving) ==>
      Under(st0, st, names, rank, moving))
  }

  lemma {:induction false} RunStarts(st: State, names: seq<Name>, rank: map<Name, nat>, moving: set<Name>)
    requires WellFormed(st)
    ensures OnRun(st, st, names, rank, moving)
    ensures Ranked(st, rank) ==> Calm(st, names, rank, 0)
  {
    ShapesSelf(st);
    OthersSelf(st, names);
    if Ranked(st, rank) {
      InitiallyCalm(st, names, rank);
    }
    if Coherent(st, names, rank, moving) {
      ReachedSelf(st, names, moving);
      if OneSided(st, names, rank, moving) {
        StartsOnWay(st, names, rank, moving);
      }
    }
  }

  lemma {:induction false} PassOnRun(st0: State, st: State, names: seq<Name>, rank: map<Name, nat>, moving: set<Name>)
    requires WellFormed(st) && OnRun(st0, st, names, rank, moving) && forall n :: n in names ==> n in st.cur
    ensures OnRun(st0, Pass(st, names), names, rank, moving)
  {
    hide Reached, ShapesKept, ByteSized, GapsKept, OneSided, Under, Pass, DependsOn, Agrees, OthersKept;
    PassKeepsGaps(st0, st, names);
    PassKeepsRest(st0, st, names, names);
    if ByteSized(st0) {
      PassKeepsShapes(st0, st, names);
    }
    if Coherent(st0, names, rank, moving) {
      PassReaches(st0, st, names, names, rank, moving);
      if OneSided(st0, names, rank, moving) {
        SameKeys(st0, st);
        PassOnWay(st0, st, names, names, rank, moving);
      }
    }
  }

  lemma SameKeys(st0: State, st: State)
    requires GapsKept(st0, st)
    ensures st.cur.Keys == st0.cur.Keys
  {
  }

  lemma RunKept(st0: State, st: State, names: seq<Name>, rank: map<Name, nat>, moving: set<Name>)
    requires OnRun(st0, st, names, rank, moving)
    ensures GapsKept(st0, st) && OthersKept(st0, st, names) && (ByteSized(st0) ==> ShapesKept(st0, st))
    ensures Coherent(st0, names, rank, moving) ==> Reached(st0, st, names, moving)
  {
  }

  lemma {:induction false} RunEnds(st0: State, st: State, names: seq<Name>, rank: map<Name, nat>, moving: set<Name>)
    requires WellFormed(st) && OnRun(st0, st, names, rank, moving) && AllQuiet(st, names)
    ensures GapsKept(st0, st) && OthersKept(st0, st, names) && (ByteSized(st0) ==> ShapesKept(st0, st))
    ensures AllRest(st, names)
    ensures NoneCancels(st, names) ==>
      forall n :: n in names && n in st.cur && st.cur[n].Struct? ==> AllFit(st, st.cur[n].members)
    ensures Coherent(st0, names, rank, moving) ==> Reached(st0, st, names, moving)
    ensures Coherent(st0, names, rank, moving) ==>
      (st.cur == NativeState(st0, names, rank, moving).cur <==> NoneCancels(st, names))
    ensures Coherent(st0, names, rank, moving) && OneSided(st0, names, rank, moving) ==>
      st == State(st0.base, NativeState(st0, names, rank, moving).cur, Changed(st0, names, rank, moving))
  {
    hide Reached, ShapesKept, ByteSized, GapsKept, OneSided, Under, AllQuiet, Agrees, DependsOn;
    hide OthersKept, AllRest, AllFit, NoneCancels;
    AllQuietRest(st, names);
    if Coherent(st0, names, rank, moving) {
      RestIsNative(st0, st, names, rank, moving);
      if OneSided(st0, names, rank, moving) {
        OneSidedIsNative(st0, st, names, rank, moving);
      }
    }
  }

  lemma ShapesSelf(st: State)
    ensures ShapesKept(st, st)
  {
  }

  lemma CalmIsQuiet(st: State, names: seq<Name>, rank: map<Name, nat>, k: nat)
    requires Calm(st, names, rank, k) && RankedBelow(names, rank, k)
    ensures AllQuiet(st, names)
  {
  }

  /** Two ways to come to rest from the same start, with the same names in any orders, give the
      same layouts unless changes cancel in one of them. */
  lemma {:induction false} OrderDoesNotMatter(st0: State, st: State, names: seq<Name>, st': State, names': seq<Name>,
                                              rank: map<Name, nat>, moving: set<Name>)
    requires Coherent(st0, names, rank, moving) && forall n :: n in names <==> n in names'
    requires Reached(st0, st, names, moving) && AllQuiet(st, names) && NoneCancels(st, names)
    requires Reached(st0, st', names', moving) && AllQuiet(st', names') && NoneCancels(st', names')
    ensures st.cur == st'.cur
  {
    hide Native, Agrees, ByteSized, Quiet, Cancels;
    RestIsNative(st0, st, names, rank, moving);
    RestIsNative(st0, st', names', rank, moving);
    SameNative(st0, names, names', rank, moving);
  }

  lemma {:induction false} SameNative(st: State, names: seq<Name>, names': seq<Name>, rank: map<Name, nat>,
                                      moving: set<Name>)
    requires Ranked(st, rank) && forall n :: n in names <==> n in names'
    ensures NativeState(st, names, rank, moving) == NativeState(st, names', rank, moving)
  {
    forall n | n in st.cur ensures Native(st, names, rank, n, moving) == Native(st, names', rank, n, moving) {
      SameNativeAt(st, names, names', rank, n, moving);
    }
  }

  lemma {:induction false} SameNativeAt(st: State, names: seq<Name>, names': seq<Name>, rank: map<Name, nat>, n: Name,
                                        moving: set<Name>)
    requires Ranked(st, rank) && n in st.cur && forall n :: n in names <==> n in names'
    ensures Native(st, names, rank, n, moving) == Native(st, names', rank, n, moving)
    decreases rank[n]
  {
    if n in names {
      forall k | k in st.cur && DependsOn(st, n, k)
        ensures Native(st, names, rank, k, moving) == Native(st, names', rank, k, moving) {
        SameNativeAt(st, names, names', rank, k, moving);
      }
      NativeFits(st, names, rank, n, moving);
      NativeFits(st, names', rank, n, moving);
      SettledAlike(st, NativeState(st, names, rank, moving), NativeState(st, names', rank, moving), n, moving);
    }
  }
}
