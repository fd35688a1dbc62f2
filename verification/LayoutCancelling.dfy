/** Where layout propagation depends on the order of the source names: two concrete schemas. */
module LayoutCancelling {
  import opened LayoutLaws
  import opened Layouts
  import opened ReplayLayouts

  /** Struct s holds arrays a and b of one element each, whose elements x and y have p and q bytes. */
  function Scene(p: int, q: int, a: int, b: int, s: TypeDef, over: set<Name>): State {
    State(map["x" := Opaque(0), "y" := Opaque(0), "a" := Array(0, 1, "x"), "b" := Array(0, 1, "y"),
      "s" := Struct(0, [])],
          map["x" := Opaque(p), "y" := Opaque(q), "a" := Array(a, 1, "x"), "b" := Array(b, 1, "y"), "s" := s], over)
  }

  function Two(size: int, m: int, k: int, n: int): TypeDef {
    Struct(size, [Member("m", "a", 0, m), Member("n", "b", k, n)])
  }

  const ALL: set<Name> := {"x", "y", "a", "b", "s"}

  lemma {:induction false} SceneKnown(p: int, q: int, a: int, b: int, size: int, m: int, k: int, n: int,
                                      over: set<Name>)
    requires over <= ALL
    ensures WellFormed(Scene(p, q, a, b, Two(size, m, k, n), over))
  {
    var st := Scene(p, q, a, b, Two(size, m, k, n), over);
    assert st.cur.Keys == ALL;
    forall n | n in st.cur ensures Mentions(st.cur.Keys, st.cur[n]) {
    }
  }

  lemma {:induction false} SceneVisitA(p: int, q: int, a: int, b: int, size: int, m: int, k: int, n: int,
                                       over: set<Name>)
    requires over <= ALL
    ensures
      var s := Two(size, m, k, n);
      && WellFormed(Scene(p, q, a, b, s, over)) && (Quiet(Scene(p, q, a, b, s, over), "a") <==> a == p)
      && Visit(Scene(p, q, a, b, s, over), "a") == Scene(p, q, p, b, s, if a == p then over else over + {"a"})
  {
    SceneKnown(p, q, a, b, size, m, k, n, over);
    var s := Two(size, m, k, n);
    var st := Scene(p, q, a, b, s, over);
    assert st.cur["a"] == Array(a, 1, "x") && st.cur["x"].size == p;
    hide WellFormed;
    if a != p {
      assert NewLayout(st, "a") == Array(p, 1, "x");
      assert st.cur["a" := Array(p, 1, "x")] == Scene(p, q, p, b, s, over + {"a"}).cur;
    }
  }

  lemma {:induction false} SceneVisitB(p: int, q: int, a: int, b: int, size: int, m: int, k: int, n: int,
                                       over: set<Name>)
    requires over <= ALL
    ensures
      var s := Two(size, m, k, n);
      && WellFormed(Scene(p, q, a, b, s, over)) && (Quiet(Scene(p, q, a, b, s, over), "b") <==> b == q)
      && Visit(Scene(p, q, a, b, s, over), "b") == Scene(p, q, a, q, s, if b == q then over else over + {"b"})
  {
    SceneKnown(p, q, a, b, size, m, k, n, over);
    var s := Two(size, m, k, n);
    var st := Scene(p, q, a, b, s, over);
    assert st.cur["b"] == Array(b, 1, "y") && st.cur["y"].size == q;
    hide WellFormed;
    if b != q {
      assert NewLayout(st, "b") == Array(q, 1, "y");
      assert st.cur["b" := Array(q, 1, "y")] == Scene(p, q, a, q, s, over + {"b"}).cur;
    }
  }

  lemma {:induction false} SceneVisitS(p: int, q: int, a: int, b: int, size: int, m: int, k: int, n: int,
                                       over: set<Name>)
    requires {"a", "b"} <= over <= ALL
    ensures
      var st, dm, dn := Scene(p, q, a, b, Two(size, m, k, n), over), a * 8 - m, b * 8 - n;
      && WellFormed(st) && (Quiet(st, "s") <==> dm + dn == 0)
      && Visit(st, "s") == if dm + dn == 0 then st else
           Scene(p, q, a, b, Two(size + (dm + dn) / 8, a * 8, k + dm, b * 8), over + {"s"})
  {
    hide WellFormed;
    SceneKnown(p, q, a, b, size, m, k, n, over);
    TwoMembers(Scene(p, q, a, b, Two(size, m, k, n), over), Member("m", "a", 0, m), Member("n", "b", k, n));
  }

  /** The members of s are to shrink by one byte and to grow by one. */
  const CANCELLING := Scene(2, 1, 2, 2, Two(3, 8, 8, 16), {"x", "y", "a", "b"})

  /** Where a growth and a shrinkage cancel, the order of the source names shows in the
      result, and members may be left without their native size. */
  lemma {:induction false} CancellingDependsOnOrder()
    ensures WellFormed(CANCELLING)
    ensures AllQuiet(Pass(CANCELLING, ["b", "s"]), ["b", "s"])
    ensures Pass(CANCELLING, ["b", "s"]).cur["s"] == Two(3, 8, 8, 16)
    ensures AllQuiet(Pass(Pass(CANCELLING, ["s", "b"]), ["s", "b"]), ["s", "b"])
    ensures Pass(Pass(CANCELLING, ["s", "b"]), ["s", "b"]).cur["s"] == Two(3, 16, 16, 8)
  {
    hide Visit, Quiet, WellFormed, Pass;
    var over: set<Name> := {"x", "y", "a", "b"};
    SceneVisitB(2, 1, 2, 2, 3, 8, 8, 16, over);
    TwoNames(CANCELLING, "b", "s");
    assert over + {"b"} == over;
    SceneVisitB(2, 1, 2, 1, 3, 8, 8, 16, over);
    SceneVisitS(2, 1, 2, 1, 3, 8, 8, 16, over);
    SecondOrder();
  }

  /** s, then b, then s again: s has moved its second member before that shrinks. */
  lemma {:induction false} SecondOrder()
    ensures WellFormed(CANCELLING)
    ensures AllQuiet(Pass(Pass(CANCELLING, ["s", "b"]), ["s", "b"]), ["s", "b"])
    ensures Pass(Pass(CANCELLING, ["s", "b"]), ["s", "b"]) == Scene(2, 1, 2, 1, Two(3, 16, 16, 8), ALL)
  {
    hide Visit, Quiet, WellFormed, Pass;
    var over: set<Name> := {"x", "y", "a", "b"};
    assert over + {"s"} == ALL && ALL + {"b"} == ALL && ALL + {"s"} == ALL;
    SceneVisitS(2, 1, 2, 2, 3, 8, 8, 16, over);
    SceneVisitB(2, 1, 2, 2, 4, 16, 16, 16, ALL);
    TwoNames(CANCELLING, "s", "b");
    SceneVisitS(2, 1, 2, 1, 4, 16, 16, 16, ALL);
    SceneVisitB(2, 1, 2, 1, 3, 16, 16, 8, ALL);
    SceneVisitS(2, 1, 2, 1, 3, 16, 16, 8, ALL);
    TwoNames(Pass(CANCELLING, ["s", "b"]), "s", "b");
  }

  /** Arrays a and b are 8 and 12 bytes on their way to 10, where s takes both to have 8. */
  const CROSSING := Scene(10, 10, 8, 12, Two(16, 64, 64, 64), {"x", "y", "a", "b"})

  /** Both members of s are to grow by two bytes. Yet in an order that visits s first, they end
      two bytes short and two bytes long: one sign of the native changes is not enough, the
      sizes on the way have to go that way as well. */
  lemma {:induction false} OneSignIsNotEnough()
    ensures WellFormed(CROSSING)
    ensures AllQuiet(Pass(Pass(CROSSING, ["s", "a", "b"]), ["s", "a", "b"]), ["s", "a", "b"])
    ensures Pass(Pass(CROSSING, ["s", "a", "b"]), ["s", "a", "b"]).cur["s"] == Two(20, 64, 64, 96)
    ensures Pass(CROSSING, ["a", "b", "s"]).cur["s"] == Two(20, 80, 80, 80)
  {
    hide Visit, Quiet, WellFormed, Pass, Scene;
    PartsFirst();
    StructFirst();
    var st := Scene(10, 10, 10, 10, Two(20, 64, 64, 96), ALL);
    SceneVisitS(10, 10, 10, 10, 20, 64, 64, 96, ALL);
    SceneVisitA(10, 10, 10, 10, 20, 64, 64, 96, ALL);
    SceneVisitB(10, 10, 10, 10, 20, 64, 64, 96, ALL);
    SceneKeys(10, 10, 10, 10, Two(20, 64, 64, 96), ALL);
    ThreeNames(st, "s", "a", "b");
  }

  lemma SceneKeys(p: int, q: int, a: int, b: int, s: TypeDef, over: set<Name>)
    ensures Scene(p, q, a, b, s, over).cur.Keys == ALL && Scene(p, q, a, b, s, over).cur["s"] == s
  {
  }

  lemma {:induction false} PartsFirst()
    ensures WellFormed(CROSSING) && Pass(CROSSING, ["a", "b", "s"]).cur["s"] == Two(20, 80, 80, 80)
  {
    hide Visit, Quiet, WellFormed, Pass, Scene;
    var over: set<Name> := {"x", "y", "a", "b"};
    assert over + {"a"} == over && over + {"b"} == over;
    SceneKeys(10, 10, 8, 12, Two(16, 64, 64, 64), over);
    SceneKeys(10, 10, 10, 10, Two(20, 80, 80, 80), over + {"s"});
    SceneVisitA(10, 10, 8, 12, 16, 64, 64, 64, over);
    SceneVisitB(10, 10, 10, 12, 16, 64, 64, 64, over);
    SceneVisitS(10, 10, 10, 10, 16, 64, 64, 64, over);
    ThreeNames(CROSSING, "a", "b", "s");
  }

  lemma {:induction false} StructFirst()
    ensures WellFormed(CROSSING)
    ensures Pass(CROSSING, ["s", "a", "b"]) == Scene(10, 10, 10, 10, Two(20, 64, 64, 96), ALL)
  {
    hide Visit, Quiet, WellFormed, Pass, Scene;
    var over: set<Name> := {"x", "y", "a", "b"};
    assert over + {"s"} == ALL && ALL + {"a"} == ALL && ALL + {"b"} == ALL;
    SceneKeys(10, 10, 8, 12, Two(16, 64, 64, 64), over);
    SceneVisitS(10, 10, 8, 12, 16, 64, 64, 64, over);
    SceneVisitA(10, 10, 8, 12, 20, 64, 64, 96, ALL);
    SceneVisitB(10, 10, 10, 12, 20, 64, 64, 96, ALL);
    ThreeNames(CROSSING, "s", "a", "b");
  }

  lemma {:induction false} TwoMembers(st: State, a: Member, b: Member)
    requires a.target in st.cur && b.target in st.cur
    ensures Known(st, [a, b]) && Shift(st, [a, b]) == Delta(st, a) + Delta(st, b)
    ensures Relaid(st, [a, b]) ==
      [a.(size := a.size + Delta(st, a)), b.(offset := b.offset + Delta(st, a), size := b.size + Delta(st, b))]
  {
    RelayStart(st);
    RelayStep(st, [a, b], 0);
    RelayStep(st, [a, b], 1);
    assert [a, b][..0] == [] && [a, b][..2] == [a, b];
  }

  lemma {:induction false} TwoNames(st: State, a: Name, b: Name)
    requires WellFormed(st) && a in st.cur && b in st.cur
    ensures WellFormed(Visit(st, a)) && Visit(st, a).cur.Keys == st.cur.Keys
    ensures Pass(st, [a, b]) == Visit(Visit(st, a), b)
  {
    hide WellFormed, Visit;
    VisitWellFormed(st, a);
    assert [a, b][..1] == [a] && [a][..0] == [];
    assert Pass(st, [a][..0]) == st;
    assert Pass(st, [a]) == Visit(st, a);
  }

  lemma {:induction false} ThreeNames(st: State, a: Name, b: Name, c: Name)
    requires WellFormed(st) && a in st.cur && b in st.cur && c in st.cur
    ensures var s2 := Pass(st, [a, b]); WellFormed(s2) && c in s2.cur && Pass(st, [a, b, c]) == Visit(s2, c)
    ensures WellFormed(Visit(st, a)) && Visit(st, a).cur.Keys == st.cur.Keys
    ensures Pass(st, [a, b]) == Visit(Visit(st, a), b)
  {
    hide WellFormed, Visit;
    TwoNames(st, a, b);
    assert [a, b, c][..2] == [a, b];
  }
}
