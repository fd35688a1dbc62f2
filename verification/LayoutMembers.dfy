/** What propagation promises of each member, array and type, said of the records themselves. */
module LayoutMembers {
  import opened LayoutLaws
  import opened LayoutNative
  import opened Layouts

  /** The member's type has a layout of its own, and is a struct, an array or opaque. */
  predicate Overridden(st: State, m: Member) {
    m.target in st.over && m.target in st.base && m.target in st.cur &&
    match st.base[m.target]
    case Struct(_, _) => true
    case Array(_, _, _) => true
    case Opaque(_) => true
    case Other(_) => false
  }

  predicate Short(st: State, m: Member) {
    Overridden(st, m) && m.size < 8 * st.cur[m.target].size
  }

  predicate Long(st: State, m: Member) {
    Overridden(st, m) && m.size > 8 * st.cur[m.target].size
  }

  ghost predicate AllFit(st: State, ms: seq<Member>) {
    forall i :: 0 <= i < |ms| && Overridden(st, ms[i]) ==> ms[i].size == 8 * st.cur[ms[i].target].size
  }

  ghost predicate SomeShort(st: State, ms: seq<Member>) {
    exists i :: 0 <= i < |ms| && Short(st, ms[i])
  }

  ghost predicate SomeLong(st: State, ms: seq<Member>) {
    exists i :: 0 <= i < |ms| && Long(st, ms[i])
  }

  /** An array is as long as its elements; the members of a struct have the sizes of their
      types, unless some are too short and others too long. */
  ghost predicate Rests(st: State, t: TypeDef) {
    match t
    case Array(size, count, e) => e in st.cur && size == st.cur[e].size * count
    case Struct(_, ms) => AllFit(st, ms) || (SomeShort(st, ms) && SomeLong(st, ms))
    case _ => true
  }

  ghost predicate AllRest(st: State, names: seq<Name>) {
    forall n :: n in names && n in st.cur ==> Rests(st, st.cur[n])
  }

  /** Types that are not visited stay, and so do the sizes of members that are not overridden. */
  ghost predicate OthersKept(st0: State, st: State, names: seq<Name>) {
    && st.cur.Keys == st0.cur.Keys && st0.over <= st.over
    && (forall n :: n in st.over && n !in st0.over ==> n in names)
    && (forall n :: n in st.cur && n !in names ==> st.cur[n] == st0.cur[n])
    && (forall n :: n in st.cur && st.cur[n].Struct? && st0.cur[n].Struct? ==>
          MembersKept(st, st0.cur[n].members, st.cur[n].members))
  }

  ghost predicate MembersKept(st: State, ms: seq<Member>, rs: seq<Member>) {
    |rs| == |ms| && forall i :: 0 <= i < |ms| && !Overridden(st, rs[i]) ==> rs[i].size == ms[i].size
  }

  lemma {:induction false} DeltaOf(st: State, m: Member)
    requires WellFormed(st) && m.target in st.cur
    ensures Delta(st, m) == if Overridden(st, m) then 8 * st.cur[m.target].size - m.size else 0
  {
  }

  /** The size a visit gives to member m. */
  predicate ResizedTo(st: State, m: Member, size: int) {
    size == if Overridden(st, m) then 8 * st.cur[m.target].size else m.size
  }

  lemma {:induction false} RelaidSizes(st: State, ms: seq<Member>)
    requires WellFormed(st) && Known(st, ms)
    ensures SameGaps(ms, Relaid(st, ms)) && Shift(st, ms) == End(Relaid(st, ms)) - End(ms)
    ensures forall i :: 0 <= i < |ms| ==> ResizedTo(st, ms[i], Relaid(st, ms)[i].size)
  {
    RelaidKeepsGaps(st, ms);
    forall i | 0 <= i < |ms| ensures ResizedTo(st, ms[i], Relaid(st, ms)[i].size) {
      RelaidAt(st, ms, i);
      assert ms[i] in ms;
      DeltaOf(st, ms[i]);
    }
  }

  // ---------- At rest ----------

  /** If nothing is too long, changes do not cancel. */
  lemma {:induction false} OneSignShift(st: State, ms: seq<Member>, up: bool)
    requires WellFormed(st) && Known(st, ms)
    requires forall m :: m in ms ==> if up then !Long(st, m) else !Short(st, m)
    ensures if up then Shift(st, ms) >= 0 else Shift(st, ms) <= 0
    ensures Shift(st, ms) == 0 ==> forall m :: m in ms ==> Delta(st, m) == 0
  {
    if ms != [] {
      var last := ms[|ms| - 1];
      OneSignShift(st, ms[..|ms| - 1], up);
      DeltaOf(st, last);
      assert last in ms;
      forall m | m in ms ensures m in ms[..|ms| - 1] || m == last {
      }
    }
  }

  lemma {:induction false} NoDeltasFit(st: State, ms: seq<Member>)
    requires WellFormed(st) && Known(st, ms) && forall m :: m in ms ==> Delta(st, m) == 0
    ensures AllFit(st, ms)
  {
    forall i | 0 <= i < |ms| && Overridden(st, ms[i]) ensures ms[i].size == 8 * st.cur[ms[i].target].size {
      assert ms[i] in ms;
      DeltaOf(st, ms[i]);
    }
  }

  /** A type that a visit would not change is at rest. */
  lemma {:induction false} QuietRests(st: State, n: Name)
    requires WellFormed(st) && n in st.cur && Quiet(st, n)
    ensures Rests(st, st.cur[n])
    ensures st.cur[n].Struct? && !Cancels(st, st.cur[n]) ==> AllFit(st, st.cur[n].members)
  {
    assert Mentions(st.cur.Keys, st.cur[n]);
    match st.cur[n]
    case Struct(_, ms) =>
      hide Short, Long, AllFit;
      if !SomeLong(st, ms) || !SomeShort(st, ms) {
        OneSignShift(st, ms, !SomeLong(st, ms));
        NoDeltasFit(st, ms);
      }
      if !Cancels(st, st.cur[n]) {
        NoDeltasFit(st, ms);
      }
    case _ =>
  }

  lemma {:induction false} AllQuietRest(st: State, names: seq<Name>)
    requires WellFormed(st) && AllQuiet(st, names)
    ensures AllRest(st, names)
    ensures NoneCancels(st, names) ==>
      forall n :: n in names && n in st.cur && st.cur[n].Struct? ==> AllFit(st, st.cur[n].members)
  {
    hide Quiet, Rests, AllFit, Cancels;
    forall n | n in names && n in st.cur
      ensures Rests(st, st.cur[n])
      ensures st.cur[n].Struct? && !Cancels(st, st.cur[n]) ==> AllFit(st, st.cur[n].members)
    {
      QuietRests(st, n);
    }
  }

  // ---------- On the way ----------

  lemma {:induction false} RelaidKept(st: State, st': State, ms0: seq<Member>, ms: seq<Member>)
    requires WellFormed(st) && Known(st, ms) && MembersKept(st, ms0, ms)
    requires st'.base == st.base && st'.cur.Keys == st.cur.Keys && st.over <= st'.over
    ensures MembersKept(st', ms0, Relaid(st, ms)) && MembersKept(st', ms0, ms)
  {
    forall i | 0 <= i < |ms0|
      ensures !Overridden(st', Relaid(st, ms)[i]) ==> Relaid(st, ms)[i].size == ms0[i].size
      ensures !Overridden(st', ms[i]) ==> ms[i].size == ms0[i].size
    {
      RelaidAt(st, ms, i);
      assert ms[i] in ms;
      DeltaOf(st, ms[i]);
    }
  }

  lemma {:induction false} VisitKeepsRest(st0: State, st: State, names: seq<Name>, n: Name)
    requires WellFormed(st) && GapsKept(st0, st) && OthersKept(st0, st, names) && n in names && n in st.cur
    ensures OthersKept(st0, Visit(st, n), names)
  {
    VisitWellFormed(st, n);
    var st' := Visit(st, n);
    forall k | k in st'.cur && st'.cur[k].Struct? && st0.cur[k].Struct?
      ensures MembersKept(st', st0.cur[k].members, st'.cur[k].members)
    {
      hide Overridden, MembersKept;
      assert SameInside(st0.cur[k], st.cur[k]) && Mentions(st.cur.Keys, st.cur[k]);
      RelaidKept(st, st', st0.cur[k].members, st.cur[k].members);
    }
  }

  lemma {:induction false} PassKeepsRest(st0: State, st: State, names: seq<Name>, order: seq<Name>)
    requires WellFormed(st) && GapsKept(st0, st) && OthersKept(st0, st, names)
    requires forall n :: n in order ==> n in st.cur && n in names
    ensures OthersKept(st0, Pass(st, order), names)
  {
    hide OthersKept, GapsKept, Visit;
    if order != [] {
      var init, last := order[..|order| - 1], order[|order| - 1];
      PassKeepsRest(st0, st, names, init);
      PassKeepsGaps(st0, st, init);
      VisitKeepsRest(st0, Pass(st, init), names, last);
    }
  }

  lemma OthersSelf(st: State, names: seq<Name>)
    ensures OthersKept(st, st, names)
  {
  }
}
