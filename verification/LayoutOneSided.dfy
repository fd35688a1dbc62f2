/** When the changes inside each type all go one way, propagation arrives at the native layout
    in every order. */
module LayoutOneSided {
  import opened LayoutLaws
  import opened LayoutNative
  import opened Layouts

  /** From x to y is up, or down, or no way at all. */
  predicate Toward(up: bool, x: int, y: int) {
    if up then x <= y else x >= y
  }

  /** From its old size in t over its type's size in st to its native size, a member goes one way. */
  predicate MemberOneWay(st: State, native: State, up: bool, m: Member) {
    && m.target in st.cur && m.target in native.cur
    && Toward(up, m.size, st.cur[m.target].size * 8)
    && Toward(up, st.cur[m.target].size * 8, native.cur[m.target].size * 8)
  }

  ghost predicate OneWay(st: State, native: State, up: bool, t: TypeDef, moving: set<Name>) {
    match t
    case Array(size, count, e) =>
      && e in st.cur && e in native.cur
      && Toward(up, size, st.cur[e].size * count) && Toward(up, st.cur[e].size * count, native.cur[e].size * count)
    case Struct(_, ms) =>
      forall i :: 0 <= i < |ms| && Mobile(st.base, ms[i].target, moving) ==> MemberOneWay(st, native, up, ms[i])
    case _ => true
  }

  /** Every visited type grows in all its parts, or shrinks in all. */
  ghost predicate OneSided(st: State, names: seq<Name>, rank: map<Name, nat>, moving: set<Name>)
    requires Ranked(st, rank)
  {
    forall n :: n in names && n in st.cur ==>
      OneWay(st, NativeState(st, names, rank, moving), true, st.cur[n], moving) ||
        OneWay(st, NativeState(st, names, rank, moving), false, st.cur[n], moving)
  }

  ghost predicate Up(st0: State, native: State, n: Name, moving: set<Name>)
    requires n in st0.cur
  {
    OneWay(st0, native, true, st0.cur[n], moving)
  }

  // ---------- On the way ----------

  /** The sizes inside t are behind what its parts have in st. */
  ghost predicate Behind(st: State, up: bool, t: TypeDef, moving: set<Name>) {
    match t
    case Array(size, count, e) => e in st.cur && Toward(up, size, st.cur[e].size * count)
    case Struct(_, ms) =>
      forall i :: 0 <= i < |ms| && Mobile(st.base, ms[i].target, moving) ==> MemberBehind(st, up, ms[i])
    case _ => true
  }

  predicate MemberBehind(st: State, up: bool, m: Member) {
    m.target in st.cur && Toward(up, m.size, st.cur[m.target].size * 8)
  }

  /** Type n is between its size in st0 and its native size; it has a layout of its own exactly
      if it had one or has moved. */
  ghost predicate OnWayAt(st0: State, st: State, native: State, n: Name, moving: set<Name>)
    requires n in st0.cur && n in st.cur && n in native.cur
  {
    && Toward(Up(st0, native, n, moving), st0.cur[n].size, st.cur[n].size)
    && Toward(Up(st0, native, n, moving), st.cur[n].size, native.cur[n].size)
    && (n in st.over <==> n in st0.over || st.cur[n].size != st0.cur[n].size)
  }

  ghost predicate OnWay(st0: State, st: State, native: State, names: seq<Name>, moving: set<Name>) {
    && st.cur.Keys == st0.cur.Keys == native.cur.Keys
    && (forall n :: n in st0.cur ==> OnWayAt(st0, st, native, n, moving))
    && (forall n :: n in names && n in st0.cur ==> Behind(st, Up(st0, native, n, moving), st.cur[n], moving))
  }

  lemma {:induction false} ShiftsToward(a: State, b: State, up: bool, ms: seq<Member>)
    requires Known(a, ms) && Known(b, ms) && forall m :: m in ms ==> Toward(up, Delta(a, m), Delta(b, m))
    ensures Toward(up, Shift(a, ms), Shift(b, ms))
  {
    if ms != [] {
      ShiftsToward(a, b, up, ms[..|ms| - 1]);
    }
  }

  lemma {:induction false} ShiftToward(a: State, up: bool, ms: seq<Member>)
    requires Known(a, ms) && forall m :: m in ms ==> Toward(up, 0, Delta(a, m))
    ensures Toward(up, 0, Shift(a, ms))
    ensures Shift(a, ms) == 0 ==> forall m :: m in ms ==> Delta(a, m) == 0
  {
    if ms != [] {
      ShiftToward(a, up, ms[..|ms| - 1]);
    }
  }

  lemma {:induction false} TimesToward(up: bool, x: int, y: int, count: nat)
    requires Toward(up, x, y)
    ensures Toward(up, x * count, y * count)
  {
    if up {
      MulMono(x, y, count);
    } else {
      MulMono(y, x, count);
    }
  }

  lemma MulMono(a: int, b: int, c: int)
    requires a <= b && c >= 0
    ensures a * c <= b * c
  {
  }

  /** Seen from a type that contains it, a part goes the containing type's way. */
  lemma {:induction false} PartsWay(path: bool, up: bool, x: int, y: int, y': int, z: int, k: nat)
    requires Toward(path, x, y) && Toward(path, y, y') && Toward(path, y', z) && Toward(up, x * k, z * k)
    ensures Toward(up, y * k, y' * k) && Toward(up, y' * k, z * k)
  {
    TimesToward(path, x, y, k);
    TimesToward(path, y, y', k);
    TimesToward(path, y', z, k);
  }

  /** The native layout of n, from any layout on the way to it. */
  lemma {:induction false} RefitAgain(st0: State, st: State, names: seq<Name>, rank: map<Name, nat>, n: Name,
                                      moving: set<Name>)
    requires Reached(st0, st, names, moving) && Ranked(st0, rank) && ByteSized(st0) && n in names && n in st0.cur
    ensures Mentions(NativeState(st0, names, rank, moving).cur.Keys, st.cur[n])
    ensures NativeState(st0, names, rank, moving).cur[n] == Refit(NativeState(st0, names, rank, moving), st.cur[n])
  {
    var native := NativeState(st0, names, rank, moving);
    NativeFits(st0, names, rank, n, moving);
    assert ReachedAt(st0, st, names, n, moving) && BytesOf(st0, st0.cur[n]) && BytesOf(st, st.cur[n]);
    match st0.cur[n]
    case Struct(size, ms) =>
      var rs := st.cur[n].members;
      RefitSizes(native, ms, rs, moving);
      RelaidKeepsGaps(native, ms);
      RelaidKeepsGaps(native, rs);
      SameGapsTrans(ms, rs, Relaid(native, rs));
      WholeBytes(native, ms);
      WholeBytes(native, rs);
      SameStruct(ms, Refit(native, st0.cur[n]), Refit(native, st.cur[n]), size);
    case _ =>
  }

  lemma {:induction false} RefitSizes(native: State, ms: seq<Member>, rs: seq<Member>, moving: set<Name>)
    requires native.over == moving && Known(native, ms) && Known(native, rs)
    requires SameGaps(ms, rs) && SameScalars(native.base, ms, rs, moving)
    ensures forall i :: 0 <= i < |ms| ==> Relaid(native, ms)[i].size == Relaid(native, rs)[i].size
  {
    forall i | 0 <= i < |ms| ensures Relaid(native, ms)[i].size == Relaid(native, rs)[i].size {
      RelaidAt(native, ms, i);
      RelaidAt(native, rs, i);
    }
  }

  /** At the start everything is on its way. */
  lemma {:induction false} StartsOnWay(st: State, names: seq<Name>, rank: map<Name, nat>, moving: set<Name>)
    requires Ranked(st, rank) && OneSided(st, names, rank, moving)
    ensures OnWay(st, st, NativeState(st, names, rank, moving), names, moving)
  {
    var native := NativeState(st, names, rank, moving);
    forall n | n in st.cur ensures OnWayAt(st, st, native, n, moving) &&
      (n in names ==> Behind(st, Up(st, native, n, moving), st.cur[n], moving)) {
      NativeFits(st, names, rank, n, moving);
      if n in names && st.cur[n].Struct? {
        var ms := st.cur[n].members;
        forall m | m in ms ensures Toward(Up(st, native, n, moving), 0, Delta(native, m)) {
          var i :| 0 <= i < |ms| && ms[i] == m;
          assert Mobile(st.base, m.target, moving) ==> MemberOneWay(st, native, Up(st, native, n, moving), ms[i]);
        }
        ShiftToward(native, Up(st, native, n, moving), ms);
        forall i | 0 <= i < |ms| && Mobile(st.base, ms[i].target, moving)
          ensures MemberBehind(st, Up(st, native, n, moving), ms[i]) {
          assert MemberOneWay(st, native, Up(st, native, n, moving), ms[i]);
        }
      }
    }
  }

  // ---------- A visit ----------

  /** What every lemma on a visit needs: a state on its way, between st0 and its native layout. */
  ghost predicate Under(st0: State, st: State, names: seq<Name>, rank: map<Name, nat>, moving: set<Name>) {
    && Ranked(st0, rank) && Ranked(st, rank) && ByteSized(st0) && OneSided(st0, names, rank, moving)
    && Reached(st0, st, names, moving) && OnWay(st0, st, NativeState(st0, names, rank, moving), names, moving)
  }

  /** A member still has to go its type's way, and not beyond the native size. */
  lemma {:induction false} MemberOnWay(st0: State, st: State, names: seq<Name>, rank: map<Name, nat>, n: Name, i: nat,
                                       moving: set<Name>)
    requires Under(st0, st, names, rank, moving) && n in names && n in st0.cur && st.cur[n].Struct?
    requires i < |st.cur[n].members|
    ensures var m, native := st.cur[n].members[i], NativeState(st0, names, rank, moving);
      && m.target in st.cur && Toward(Up(st0, native, n, moving), 0, Delta(st, m))
      && Toward(Up(st0, native, n, moving), Delta(st, m), Delta(native, m))
  {
    var native := NativeState(st0, names, rank, moving);
    var m, up := st.cur[n].members[i], Up(st0, native, n, moving);
    assert ReachedAt(st0, st, names, n, moving) && AgreesAt(st, st.cur[n], moving) && m in st.cur[n].members;
    assert MemberAgrees(st, m, moving);
    if Mobile(st0.base, m.target, moving) {
      var t := m.target;
      assert MemberBehind(st, up, m);
      assert MemberOneWay(st0, native, up, st0.cur[n].members[i]);
      assert OnWayAt(st0, st, native, t, moving);
      PartsWay(Up(st0, native, t, moving), up, st0.cur[t].size, st.cur[t].size, st.cur[t].size, native.cur[t].size, 8);
    }
  }

  lemma {:induction false} MembersOnWay(st0: State, st: State, names: seq<Name>, rank: map<Name, nat>, n: Name,
                                        moving: set<Name>)
    requires Under(st0, st, names, rank, moving) && n in names && n in st0.cur && st.cur[n].Struct?
    ensures var native, ms := NativeState(st0, names, rank, moving), st.cur[n].members;
      && Known(st, ms) && Known(native, ms)
      && forall m :: m in ms ==>
        Toward(Up(st0, native, n, moving), 0, Delta(st, m)) &&
          Toward(Up(st0, native, n, moving), Delta(st, m), Delta(native, m))
  {
    var ms := st.cur[n].members;
    hide Under, OneSided, Toward, Native, Up;
    forall m | m in ms
      ensures var native := NativeState(st0, names, rank, moving);
        && m.target in st.cur && Toward(Up(st0, native, n, moving), 0, Delta(st, m))
        && Toward(Up(st0, native, n, moving), Delta(st, m), Delta(native, m))
    {
      var i :| 0 <= i < |ms| && ms[i] == m;
      MemberOnWay(st0, st, names, rank, n, i, moving);
    }
  }

  /** The size of a visited struct moves on, towards its native size. */
  lemma {:induction false} StructMoves(st0: State, st: State, names: seq<Name>, rank: map<Name, nat>, n: Name,
                                       moving: set<Name>)
    requires Under(st0, st, names, rank, moving) && n in names && n in st0.cur && st.cur[n].Struct? && !Quiet(st, n)
    ensures var native, size := NativeState(st0, names, rank, moving), Visit(st, n).cur[n].size;
      && Toward(Up(st0, native, n, moving), st.cur[n].size, size) && size != st.cur[n].size
      && Toward(Up(st0, native, n, moving), size, native.cur[n].size)
  {
    var native := NativeState(st0, names, rank, moving);
    var ms, up := st.cur[n].members, Up(st0, native, n, moving);
    RefitAgain(st0, st, names, rank, n, moving);
    assert BytesOf(st, st.cur[n]);
    WholeBytes(st, ms);
    WholeBytes(native, ms);
    MembersOnWay(st0, st, names, rank, n, moving);
    hide Delta, Reached, OnWay, OneSided, Up, Relaid;
    ShiftToward(st, up, ms);
    ShiftsToward(st, native, up, ms);
  }

  /** So does the size of a visited array. */
  lemma {:induction false} ArrayMoves(st0: State, st: State, names: seq<Name>, rank: map<Name, nat>, n: Name,
                                      moving: set<Name>)
    requires Under(st0, st, names, rank, moving) && n in names && n in st0.cur && st.cur[n].Array? && !Quiet(st, n)
    ensures var native, size := NativeState(st0, names, rank, moving), Visit(st, n).cur[n].size;
      && Toward(Up(st0, native, n, moving), st.cur[n].size, size) && size != st.cur[n].size
      && Toward(Up(st0, native, n, moving), size, native.cur[n].size)
  {
    var native := NativeState(st0, names, rank, moving);
    var e, count, up := st.cur[n].element, st.cur[n].count, Up(st0, native, n, moving);
    assert ReachedAt(st0, st, names, n, moving) && OnWayAt(st0, st, native, e, moving);
    NativeFits(st0, names, rank, n, moving);
    PartsWay(Up(st0, native, e, moving), up, st0.cur[e].size, st.cur[e].size, st.cur[e].size, native.cur[e].size,
      count);
  }

  lemma {:induction false} Moves(st0: State, st: State, names: seq<Name>, rank: map<Name, nat>, n: Name,
                                 moving: set<Name>)
    requires Under(st0, st, names, rank, moving) && n in names && n in st0.cur && !Quiet(st, n)
    ensures var native, size := NativeState(st0, names, rank, moving), Visit(st, n).cur[n].size;
      && Toward(Up(st0, native, n, moving), st.cur[n].size, size) && size != st.cur[n].size
      && Toward(Up(st0, native, n, moving), size, native.cur[n].size)
  {
    hide Toward;
    if st.cur[n].Struct? {
      StructMoves(st0, st, names, rank, n, moving);
    } else {
      ArrayMoves(st0, st, names, rank, n, moving);
    }
  }

  /** A type just visited has what its parts have. */
  lemma {:induction false} BehindVisited(st: State, up: bool, n: Name, moving: set<Name>)
    requires WellFormed(st) && n in st.cur && Agrees(st, moving) && st.over <= moving && !DependsOn(st, n, n)
    requires !Quiet(st, n)
    ensures Behind(Visit(st, n), up, Visit(st, n).cur[n], moving)
  {
    assert AgreesAt(st, st.cur[n], moving);
    match st.cur[n]
    case Struct(_, ms) =>
      forall i | 0 <= i < |ms| && Mobile(st.base, Relaid(st, ms)[i].target, moving)
        ensures MemberBehind(Visit(st, n), up, Relaid(st, ms)[i])
      {
        RelaidAt(st, ms, i);
        assert MemberAgrees(st, ms[i], moving) && ms[i] in ms && DependsOn(st, n, ms[i].target);
      }
    case Array(_, _, e) =>
      assert DependsOn(st, n, e);
    case _ =>
  }

  lemma {:induction false} VisitedOnWay(st0: State, st: State, names: seq<Name>, rank: map<Name, nat>, n: Name,
                                        moving: set<Name>)
    requires Under(st0, st, names, rank, moving) && n in names && n in st0.cur && !Quiet(st, n)
    ensures OnWayAt(st0, Visit(st, n), NativeState(st0, names, rank, moving), n, moving)
    ensures Behind(Visit(st, n), Up(st0, NativeState(st0, names, rank, moving), n, moving), Visit(st, n).cur[n], moving)
  {
    hide Up, Behind, Reached, OneSided, NewLayout, Quiet, Native;
    Moves(st0, st, names, rank, n, moving);
    NotInItself(st, rank, n);
    Basics(st0, st, names, n, moving);
    assert OnWayAt(st0, st, NativeState(st0, names, rank, moving), n, moving);
    BehindVisited(st, Up(st0, NativeState(st0, names, rank, moving), n, moving), n, moving);
  }

  /** A move of n leaves those behind that were behind, if it goes their way. */
  lemma {:induction false} BehindStays(st: State, n: Name, up: bool, t: TypeDef, moving: set<Name>)
    requires WellFormed(st) && n in st.cur && Behind(st, up, t, moving)
    requires t.Struct? && (exists m :: m in t.members && m.target == n && Mobile(st.base, n, moving)) ==>
      Toward(up, st.cur[n].size * 8, Visit(st, n).cur[n].size * 8)
    requires t.Array? && t.element == n ==>
      Toward(up, st.cur[n].size * t.count, Visit(st, n).cur[n].size * t.count)
    ensures Behind(Visit(st, n), up, t, moving)
  {
    if t.Struct? {
      forall i | 0 <= i < |t.members| && Mobile(st.base, t.members[i].target, moving)
        ensures MemberBehind(Visit(st, n), up, t.members[i])
      {
        assert MemberBehind(st, up, t.members[i]) && t.members[i] in t.members;
      }
    }
  }

  /** The move of a part, seen from a type that contains it. */
  lemma {:induction false} PartMoves(st0: State, st: State, names: seq<Name>, rank: map<Name, nat>, n: Name, up: bool,
                                     f: nat, moving: set<Name>)
    requires Under(st0, st, names, rank, moving) && n in names && n in st0.cur && !Quiet(st, n)
    requires Toward(up, st0.cur[n].size * f, NativeState(st0, names, rank, moving).cur[n].size * f)
    ensures Toward(up, st.cur[n].size * f, Visit(st, n).cur[n].size * f)
  {
    hide NewLayout, Quiet, Native, OneSided, Up;
    Moves(st0, st, names, rank, n, moving);
    var native := NativeState(st0, names, rank, moving);
    assert OnWayAt(st0, st, native, n, moving);
    PartsWay(Up(st0, native, n, moving), up, st0.cur[n].size, st.cur[n].size, Visit(st, n).cur[n].size,
      native.cur[n].size, f);
  }

  /** Another type is no further ahead of its parts than before. */
  lemma {:induction false} OthersBehind(st0: State, st: State, names: seq<Name>, rank: map<Name, nat>, n: Name, k: Name,
                                        moving: set<Name>)
    requires Under(st0, st, names, rank, moving) && n in names && n in st0.cur && k in st0.cur && k in names
    requires !Quiet(st, n)
    ensures Behind(Visit(st, n), Up(st0, NativeState(st0, names, rank, moving), k, moving), st.cur[k], moving)
  {
    hide NewLayout, Quiet, Native, OneSided, Toward, Up;
    var native := NativeState(st0, names, rank, moving);
    var up := Up(st0, native, k, moving);
    assert ReachedAt(st0, st, names, k, moving);
    OneSidedOf(st0, names, rank, k, moving);
    assert OneSidedAt(st0, native, k, moving);
    match st.cur[k]
    case Struct(_, ms) =>
      if m :| m in ms && m.target == n && Mobile(st.base, n, moving) {
        var i :| 0 <= i < |ms| && ms[i] == m;
        assert MemberOneWay(st0, native, up, st0.cur[k].members[i]);
        PartMoves(st0, st, names, rank, n, up, 8, moving);
      }
      BehindStays(st, n, up, st.cur[k], moving);
    case Array(_, count, e) =>
      if e == n {
        PartMoves(st0, st, names, rank, n, up, count, moving);
      }
      BehindStays(st, n, up, st.cur[k], moving);
    case _ =>
  }

  ghost predicate OneSidedAt(st0: State, native: State, n: Name, moving: set<Name>)
    requires n in st0.cur
  {
    OneWay(st0, native, Up(st0, native, n, moving), st0.cur[n], moving)
  }

  lemma OneSidedOf(st0: State, names: seq<Name>, rank: map<Name, nat>, n: Name, moving: set<Name>)
    requires Ranked(st0, rank) && OneSided(st0, names, rank, moving) && n in names && n in st0.cur
    ensures OneSidedAt(st0, NativeState(st0, names, rank, moving), n, moving)
  {
  }

  lemma StaysOnWay(st0: State, st: State, native: State, n: Name, k: Name, moving: set<Name>)
    requires WellFormed(st) && n in st.cur && k in st0.cur && k in st.cur && k in native.cur && k != n
    requires OnWayAt(st0, st, native, k, moving)
    ensures OnWayAt(st0, Visit(st, n), native, k, moving)
  {
  }

  lemma {:induction false} VisitOnWay(st0: State, st: State, names: seq<Name>, rank: map<Name, nat>, n: Name,
                                      moving: set<Name>)
    requires Under(st0, st, names, rank, moving) && n in names && n in st0.cur
    ensures Under(st0, Visit(st, n), names, rank, moving)
  {
    VisitReaches(st0, st, names, n, rank, moving);
    var native, st' := NativeState(st0, names, rank, moving), Visit(st, n);
    if !Quiet(st, n) {
      hide OnWayAt, Behind, Reached, Quiet, NewLayout, Up, OneSided;
      VisitedOnWay(st0, st, names, rank, n, moving);
      OtherVisit(st, n);
      forall k | k in st0.cur
        ensures OnWayAt(st0, st', native, k, moving)
        ensures (k in names ==> Behind(st', Up(st0, native, k, moving), st'.cur[k], moving))
      {
        if k != n {
          StaysOnWay(st0, st, native, n, k, moving);
          if k in names {
            OthersBehind(st0, st, names, rank, n, k, moving);
          }
        }
      }
    }
  }

  lemma {:induction false} PassOnWay(st0: State, st: State, names: seq<Name>, order: seq<Name>, rank: map<Name, nat>,
                                     moving: set<Name>)
    requires WellFormed(st) && Under(st0, st, names, rank, moving)
    requires forall n :: n in order ==> n in names && n in st0.cur && n in st.cur
    ensures Under(st0, Pass(st, order), names, rank, moving)
  {
    hide Under;
    if order != [] {
      var init, last := order[..|order| - 1], order[|order| - 1];
      assert last in order && forall n :: n in init ==> n in order;
      PassOnWay(st0, st, names, init, rank, moving);
      VisitOnWay(st0, Pass(st, init), names, rank, last, moving);
    }
  }

  // ---------- At rest ----------

  lemma {:induction false} NothingCancels(st0: State, st: State, names: seq<Name>, rank: map<Name, nat>,
                                          moving: set<Name>)
    requires WellFormed(st) && Under(st0, st, names, rank, moving)
    ensures NoneCancels(st, names)
  {
    var native := NativeState(st0, names, rank, moving);
    forall n | n in names && n in st.cur ensures !Cancels(st, st.cur[n]) {
      if st.cur[n].Struct? {
        var ms := st.cur[n].members;
        MembersOnWay(st0, st, names, rank, n, moving);
        ShiftToward(st, Up(st0, native, n, moving), ms);
        assert forall i :: 0 <= i < |ms| ==> ms[i] in ms;
      }
    }
  }

  /** The types with a layout of their own at rest: those that had one, and those whose size
      is no longer the old one. */
  ghost function Changed(st: State, names: seq<Name>, rank: map<Name, nat>, moving: set<Name>): set<Name>
    requires Ranked(st, rank)
  {
    set n | n in st.cur && (n in st.over || Native(st, names, rank, n, moving).size != st.cur[n].size)
  }

  /** Wherever changes go one way, every way to come to rest ends in the native layout. */
  lemma {:induction false} OneSidedIsNative(st0: State, st: State, names: seq<Name>, rank: map<Name, nat>,
                                            moving: set<Name>)
    requires WellFormed(st) && Under(st0, st, names, rank, moving) && AllQuiet(st, names)
    ensures st == State(st0.base, NativeState(st0, names, rank, moving).cur, Changed(st0, names, rank, moving))
  {
    NothingCancels(st0, st, names, rank, moving);
    RestIsNative(st0, st, names, rank, moving);
    var native := NativeState(st0, names, rank, moving);
    forall n | n in st.cur ensures n in st.over <==> n in Changed(st0, names, rank, moving) {
      assert OnWayAt(st0, st, native, n, moving);
    }
    assert st.over == Changed(st0, names, rank, moving);
  }

  // ---------- Growth ----------

  /** No part is smaller than what contains it takes it to be. */
  ghost predicate Lag(st: State, moving: set<Name>) {
    forall n :: n in st.cur ==> Behind(st, true, st.cur[n], moving)
  }

  /** When nothing has to shrink, everything only grows. */
  lemma {:induction false} GrowthIsOneSided(st: State, names: seq<Name>, rank: map<Name, nat>, moving: set<Name>)
    requires Ranked(st, rank) && Lag(st, moving)
    ensures OneSided(st, names, rank, moving)
  {
    var native := NativeState(st, names, rank, moving);
    forall n | n in names && n in st.cur ensures OneWay(st, native, true, st.cur[n], moving) {
      assert Behind(st, true, st.cur[n], moving);
      match st.cur[n]
      case Struct(_, ms) =>
        forall i | 0 <= i < |ms| && Mobile(st.base, ms[i].target, moving)
          ensures MemberOneWay(st, native, true, ms[i]) {
          assert MemberBehind(st, true, ms[i]) && ms[i] in ms;
          NativeGrows(st, names, rank, ms[i].target, moving);
        }
      case Array(_, count, e) =>
        NativeGrows(st, names, rank, e, moving);
        TimesToward(true, st.cur[e].size, native.cur[e].size, count);
      case _ =>
    }
  }

  lemma {:induction false} NativeGrows(st: State, names: seq<Name>, rank: map<Name, nat>, n: Name, moving: set<Name>)
    requires Ranked(st, rank) && Lag(st, moving) && n in st.cur
    ensures st.cur[n].size <= Native(st, names, rank, n, moving).size
    decreases rank[n]
  {
    var native := NativeState(st, names, rank, moving);
    NativeFits(st, names, rank, n, moving);
    assert Behind(st, true, st.cur[n], moving);
    if n in names {
      match st.cur[n]
      case Struct(_, ms) =>
        forall m | m in ms ensures Toward(true, 0, Delta(native, m)) {
          var i :| 0 <= i < |ms| && ms[i] == m;
          if Mobile(st.base, m.target, moving) {
            assert MemberBehind(st, true, ms[i]) && DependsOn(st, n, m.target);
            NativeGrows(st, names, rank, m.target, moving);
          }
        }
        ShiftToward(native, true, ms);
      case Array(_, count, e) =>
        assert DependsOn(st, n, e);
        NativeGrows(st, names, rank, e, moving);
        TimesToward(true, st.cur[e].size, native.cur[e].size, count);
      case _ =>
    }
  }
}
