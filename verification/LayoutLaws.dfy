/** What layout propagation keeps, and why its result is unique when layouts only grow. */
module LayoutLaws {
  import opened Layouts

  function End(ms: seq<Member>): int {
    if ms == [] then 0 else ms[|ms| - 1].offset + ms[|ms| - 1].size
  }

  function Gap(ms: seq<Member>, i: nat): int
    requires i + 1 < |ms|
  {
    ms[i + 1].offset - (ms[i].offset + ms[i].size)
  }

  /** Bits between the last member and the end of the struct. */
  function TailGap(size: int, ms: seq<Member>): int {
    size * 8 - End(ms)
  }

  /** Same members in the same order, with the same first offset and the same gaps between them. */
  ghost predicate SameGaps(ms: seq<Member>, rs: seq<Member>) {
    && |rs| == |ms|
    && (forall i :: 0 <= i < |ms| ==> rs[i].name == ms[i].name && rs[i].target == ms[i].target)
    && (ms != [] ==> rs[0].offset == ms[0].offset)
    && (forall i: nat :: i + 1 < |ms| ==> Gap(rs, i) == Gap(ms, i))
  }

  lemma {:induction false} RelaidMember(st: State, ms: seq<Member>, i: nat)
    requires Known(st, ms) && i < |ms|
    ensures Relaid(st, ms)[i].offset == ms[i].offset + Shift(st, ms[..i])
    ensures Relaid(st, ms)[i].offset + Relaid(st, ms)[i].size == ms[i].offset + ms[i].size + Shift(st, ms[..i + 1])
    ensures Relaid(st, ms)[i].name == ms[i].name && Relaid(st, ms)[i].target == ms[i].target
  {
    RelaidAt(st, ms, i);
    ShiftPrefix(st, ms, i);
  }

  lemma {:induction false} RelaidKeepsGaps(st: State, ms: seq<Member>)
    requires Known(st, ms)
    ensures SameGaps(ms, Relaid(st, ms))
    ensures End(Relaid(st, ms)) == End(ms) + Shift(st, ms)
  {
    hide Relaid;
    var rs := Relaid(st, ms);
    forall i | 0 <= i < |ms| ensures rs[i].name == ms[i].name && rs[i].target == ms[i].target {
      RelaidMember(st, ms, i);
    }
    forall i: nat | i + 1 < |ms| ensures Gap(rs, i) == Gap(ms, i) {
      RelaidMember(st, ms, i);
      RelaidMember(st, ms, i + 1);
    }
    if ms != [] {
      RelaidMember(st, ms, 0);
      RelaidMember(st, ms, |ms| - 1);
      assert ms[..0] == [] && ms[..|ms| - 1 + 1] == ms;
    }
  }

  /** A visit keeps every gap; the tail gap loses what the shift has beyond whole bytes. */
  lemma {:induction false} VisitKeepsGaps(st: State, n: Name)
    requires WellFormed(st) && n in st.cur && st.cur[n].Struct?
    ensures Visit(st, n).cur[n].Struct? && SameGaps(st.cur[n].members, Visit(st, n).cur[n].members)
    ensures TailGap(Visit(st, n).cur[n].size, Visit(st, n).cur[n].members)
         == TailGap(st.cur[n].size, st.cur[n].members) - Shift(st, st.cur[n].members) % 8
  {
    RelaidKeepsGaps(st, st.cur[n].members);
  }

  /** Members in order, none overlapping the next, all within the struct. */
  ghost predicate Disjoint(size: int, ms: seq<Member>) {
    && (ms != [] ==> ms[0].offset >= 0)
    && (forall i: nat :: i + 1 < |ms| ==> Gap(ms, i) >= 0)
    && TailGap(size, ms) >= 0
  }

  /** Embedded members are whole bytes. */
  ghost predicate BytesOf(st: State, t: TypeDef) {
    t.Struct? ==> forall i :: 0 <= i < |t.members| && Embeds(st.base, t.members[i].target) ==>
      t.members[i].size % 8 == 0
  }

  ghost predicate ByteSized(st: State) {
    forall n :: n in st.cur ==> BytesOf(st, st.cur[n])
  }

  lemma {:induction false} WholeBytes(st: State, ms: seq<Member>)
    requires Known(st, ms) && forall i :: 0 <= i < |ms| && Embeds(st.base, ms[i].target) ==> ms[i].size % 8 == 0
    ensures Shift(st, ms) % 8 == 0
  {
    if ms != [] {
      WholeBytes(st, ms[..|ms| - 1]);
    }
  }

  lemma {:induction false} VisitByteSized(st: State, n: Name)
    requires WellFormed(st) && n in st.cur && ByteSized(st)
    ensures ByteSized(Visit(st, n))
    ensures st.cur[n].Struct? ==> Shift(st, st.cur[n].members) % 8 == 0
  {
    assert BytesOf(st, st.cur[n]);
    var st' := Visit(st, n);
    if st.cur[n].Struct? {
      var ms := st.cur[n].members;
      WholeBytes(st, ms);
      RelaidBytes(st, st.cur[n].size + Shift(st, ms) / 8, ms);
    }
    forall k | k in st'.cur ensures BytesOf(st', st'.cur[k]) {
      if k != n || Quiet(st, n) {
        assert BytesOf(st, st.cur[k]);
      }
    }
  }

  lemma {:induction false} RelaidBytes(st: State, size: int, ms: seq<Member>)
    requires Known(st, ms) && BytesOf(st, Struct(size, ms))
    ensures BytesOf(st, Struct(size, Relaid(st, ms)))
  {
    forall i | 0 <= i < |ms| && Embeds(st.base, Relaid(st, ms)[i].target)
      ensures Relaid(st, ms)[i].size % 8 == 0
    {
      RelaidAt(st, ms, i);
      assert Struct(size, ms).members[i] == ms[i];
    }
  }

  // ---------- Whole runs keep gaps ----------

  /** From t to u: same kind, same gaps, same tail gap. */
  ghost predicate SameShape(t: TypeDef, u: TypeDef) {
    match t
    case Array(_, count, e) => u.Array? && u.count == count && u.element == e
    case Struct(size, ms) => u.Struct? && SameGaps(ms, u.members) && TailGap(u.size, u.members) == TailGap(size, ms)
    case _ => u == t
  }

  lemma {:induction false} SameGapsTrans(a: seq<Member>, b: seq<Member>, c: seq<Member>)
    requires SameGaps(a, b) && SameGaps(b, c)
    ensures SameGaps(a, c)
  {
    forall i: nat | i + 1 < |a| ensures Gap(c, i) == Gap(a, i) {
      assert Gap(b, i) == Gap(a, i);
    }
  }

  lemma {:induction false} SameShapeTrans(a: TypeDef, b: TypeDef, c: TypeDef)
    requires SameShape(a, b) && SameShape(b, c)
    ensures SameShape(a, c)
  {
    if a.Struct? {
      SameGapsTrans(a.members, b.members, c.members);
    }
  }

  /** Every layout of st has the members of st0, in their order and with their gaps. */
  ghost predicate GapsKept(st0: State, st: State) {
    st.cur.Keys == st0.cur.Keys && forall n :: n in st.cur ==> SameInside(st0.cur[n], st.cur[n])
  }

  ghost predicate SameInside(t: TypeDef, u: TypeDef) {
    match t
    case Array(_, count, e) => u.Array? && u.count == count && u.element == e
    case Struct(_, ms) => u.Struct? && SameGaps(ms, u.members)
    case _ => u == t
  }

  lemma {:induction false} VisitKeepsAllGaps(st0: State, st: State, n: Name)
    requires WellFormed(st) && GapsKept(st0, st) && n in st.cur
    ensures GapsKept(st0, Visit(st, n))
  {
    var u := Visit(st, n).cur[n];
    if st.cur[n].Struct? {
      VisitKeepsGaps(st, n);
      SameGapsTrans(st0.cur[n].members, st.cur[n].members, u.members);
    }
    assert SameInside(st0.cur[n], u);
  }

  /** Every layout of st has the shape it has in st0. */
  ghost predicate ShapesKept(st0: State, st: State) {
    st.cur.Keys == st0.cur.Keys && forall n :: n in st.cur ==> SameShape(st0.cur[n], st.cur[n])
  }

  lemma {:induction false} VisitKeepsShapes(st0: State, st: State, n: Name)
    requires WellFormed(st) && ByteSized(st) && ShapesKept(st0, st) && n in st.cur
    ensures ShapesKept(st0, Visit(st, n))
  {
    if st.cur[n].Struct? {
      VisitKeepsGaps(st, n);
      VisitByteSized(st, n);
    }
    assert SameShape(st.cur[n], Visit(st, n).cur[n]);
    SameShapeTrans(st0.cur[n], st.cur[n], Visit(st, n).cur[n]);
  }

  /** Members that were in order and disjoint stay so under any layout of the same shape. */
  lemma {:induction false} StaysDisjoint(t: TypeDef, u: TypeDef)
    requires t.Struct? && SameShape(t, u) && Disjoint(t.size, t.members)
    ensures u.Struct? && Disjoint(u.size, u.members)
  {
    forall i: nat | i + 1 < |u.members| ensures Gap(u.members, i) >= 0 {
      assert Gap(u.members, i) == Gap(t.members, i);
    }
  }

  // ---------- Layouts at rest ----------

  /** First offset, gaps and sizes determine every offset. */
  lemma {:induction false} GapsDetermine(ms: seq<Member>, a: seq<Member>, b: seq<Member>, i: nat)
    requires SameGaps(ms, a) && SameGaps(ms, b) && i < |ms|
    requires forall j :: 0 <= j < |ms| ==> a[j].size == b[j].size
    ensures a[i] == b[i]
  {
    if i > 0 {
      GapsDetermine(ms, a, b, i - 1);
      assert Gap(a, i - 1) == Gap(ms, i - 1) == Gap(b, i - 1);
    }
  }

  ghost predicate AllQuiet(st: State, names: seq<Name>)
    requires WellFormed(st)
  {
    forall n :: n in names && n in st.cur ==> Quiet(st, n)
  }

  /** Gaps, tail gap and sizes determine a struct. */
  lemma {:induction false} SameStruct(ms: seq<Member>, a: TypeDef, b: TypeDef, size: int)
    requires a.Struct? && b.Struct? && SameGaps(ms, a.members) && SameGaps(ms, b.members)
    requires TailGap(a.size, a.members) == TailGap(size, ms) == TailGap(b.size, b.members)
    requires |a.members| == |b.members| == |ms|
    requires forall i :: 0 <= i < |ms| ==> a.members[i].size == b.members[i].size
    ensures a == b
  {
    forall i | 0 <= i < |ms| ensures a.members[i] == b.members[i] {
      GapsDetermine(ms, a.members, b.members, i);
    }
    assert a.members == b.members;
  }

  // ---------- The bottom-up layout ----------

  /** One pass over `order`. */
  ghost function Pass(st: State, order: seq<Name>): (r: State)
    requires WellFormed(st) && forall n :: n in order ==> n in st.cur
    ensures WellFormed(r) && r.cur.Keys == st.cur.Keys && r.base == st.base && st.over <= r.over
  {
    if order == [] then st else
      var st' := Pass(st, order[..|order| - 1]);
      VisitWellFormed(st', order[|order| - 1]);
      Visit(st', order[|order| - 1])
  }

  ghost predicate BottomUp(order: seq<Name>, rank: map<Name, nat>) {
    (forall n :: n in order ==> n in rank) &&
    forall i, j :: 0 <= i < j < |order| ==> rank[order[i]] <= rank[order[j]]
  }

  /** Visiting types after all they contain, one pass is enough. */
  lemma {:induction false} BottomUpPass(st: State, order: seq<Name>, rank: map<Name, nat>)
    requires Ranked(st, rank) && (forall n :: n in order ==> n in st.cur) && BottomUp(order, rank)
    ensures Ranked(Pass(st, order), rank) && AllQuiet(Pass(st, order), order)
  {
    if order != [] {
      var init, last := order[..|order| - 1], order[|order| - 1];
      BottomUpPass(st, init, rank);
      var st' := Pass(st, init);
      VisitRanked(st', last, rank);
      VisitQuiets(st', last);
      forall n | n in order
        ensures Quiet(Visit(st', last), n)
      {
        if n != last {
          assert n in init;
          VisitKeepsQuiet(st', last, n, rank);
        }
      }
    }
  }

  /** Whatever the sizes, a pass keeps every gap between members. */
  lemma {:induction false} PassKeepsGaps(st0: State, st: State, order: seq<Name>)
    requires WellFormed(st) && GapsKept(st0, st) && forall n :: n in order ==> n in st.cur
    ensures GapsKept(st0, Pass(st, order))
  {
    if order != [] {
      var init, last := order[..|order| - 1], order[|order| - 1];
      PassKeepsGaps(st0, st, init);
      VisitKeepsAllGaps(st0, Pass(st, init), last);
    }
  }

  /** With embedded members in whole bytes, a pass keeps the gap at the end, too. */
  lemma {:induction false} PassKeepsShapes(st0: State, st: State, order: seq<Name>)
    requires WellFormed(st) && ByteSized(st) && ShapesKept(st0, st) && forall n :: n in order ==> n in st.cur
    ensures ShapesKept(st0, Pass(st, order)) && ByteSized(Pass(st, order))
  {
    if order != [] {
      var init, last := order[..|order| - 1], order[|order| - 1];
      PassKeepsShapes(st0, st, init);
      VisitKeepsShapes(st0, Pass(st, init), last);
      VisitByteSized(Pass(st, init), last);
    }
  }
}
