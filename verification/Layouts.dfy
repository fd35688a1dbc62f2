/** The layout propagation of the replay profile, on abstract states: what one visit of a
    type does, why the passes settle, what they keep and why growth makes the result unique. */
module Layouts {

  type Name = string

  /** Offsets and sizes of members are bits, sizes of types are bytes. */
  datatype Member = Member(name: string, target: Name, offset: int, size: int)

  datatype TypeDef =
    | Array(size: int, count: nat, element: Name)
    | Struct(size: int, members: seq<Member>)
    | Opaque(size: int)
    | Other(size: int)   // scalars, pointers, enums, unions

  /** `base` are the types as declared; `cur` the layout each name now stands for; `over`
      the names that have been given a layout of their own. */
  datatype State = State(base: map<Name, TypeDef>, cur: map<Name, TypeDef>, over: set<Name>)

  predicate Embeds(base: map<Name, TypeDef>, n: Name) {
    n in base && (base[n].Struct? || base[n].Array? || base[n].Opaque?)
  }

  predicate Mentions(d: set<Name>, t: TypeDef) {
    match t
    case Array(_, _, e) => e in d
    case Struct(_, ms) => forall m :: m in ms ==> m.target in d
    case _ => true
  }

  ghost predicate WellFormed(st: State) {
    && st.cur.Keys == st.base.Keys && st.over <= st.base.Keys
    && (forall n :: n in st.cur ==> Mentions(st.cur.Keys, st.cur[n]))
  }

  function Delta(st: State, m: Member): int
    requires m.target in st.cur
  {
    if m.target in st.over && Embeds(st.base, m.target) then st.cur[m.target].size * 8 - m.size else 0
  }

  ghost predicate Known(st: State, ms: seq<Member>) {
    forall m :: m in ms ==> m.target in st.cur
  }

  /** The sum of the size changes of the members. */
  ghost function Shift(st: State, ms: seq<Member>): int
    requires Known(st, ms)
  {
    if ms == [] then 0 else Shift(st, ms[..|ms| - 1]) + Delta(st, ms[|ms| - 1])
  }

  /** Each member with its new size, moved by the changes before it. */
  ghost function Relaid(st: State, ms: seq<Member>): (r: seq<Member>)
    requires Known(st, ms)
    ensures |r| == |ms|
  {
    if ms == [] then [] else
      var last := ms[|ms| - 1];
      Relaid(st, ms[..|ms| - 1]) +
      [last.(offset := last.offset + Shift(st, ms[..|ms| - 1]), size := last.size + Delta(st, last))]
  }

  ghost predicate Quiet(st: State, n: Name)
    requires WellFormed(st) && n in st.cur
  {
    match st.cur[n]
    case Array(size, count, e) => size == st.cur[e].size * count
    case Struct(_, ms) => Shift(st, ms) == 0
    case _ => true
  }

  /** Type t with the present sizes of what it contains. */
  ghost function Refit(st: State, t: TypeDef): TypeDef
    requires Mentions(st.cur.Keys, t)
  {
    match t
    case Array(_, count, e) => Array(st.cur[e].size * count, count, e)
    case Struct(size, ms) => Struct(size + Shift(st, ms) / 8, Relaid(st, ms))
    case _ => t
  }

  ghost function NewLayout(st: State, n: Name): TypeDef
    requires WellFormed(st) && n in st.cur
  {
    Refit(st, st.cur[n])
  }

  /** One visit of name n. */
  ghost function Visit(st: State, n: Name): State
    requires WellFormed(st) && n in st.cur
  {
    if Quiet(st, n) then st else State(st.base, st.cur[n := NewLayout(st, n)], st.over + {n})
  }

  lemma {:induction false} RelaidAt(st: State, ms: seq<Member>, i: nat)
    requires Known(st, ms) && i < |ms|
    ensures Relaid(st, ms)[i] ==
      ms[i].(offset := ms[i].offset + Shift(st, ms[..i]), size := ms[i].size + Delta(st, ms[i]))
  {
    if i < |ms| - 1 {
      RelaidAt(st, ms[..|ms| - 1], i);
      assert ms[..|ms| - 1][..i] == ms[..i];
    }
  }

  lemma {:induction false} ShiftPrefix(st: State, ms: seq<Member>, i: nat)
    requires Known(st, ms) && i < |ms|
    ensures Shift(st, ms[..i + 1]) == Shift(st, ms[..i]) + Delta(st, ms[i])
  {
    assert ms[..i + 1][..i] == ms[..i];
  }

  lemma {:induction false} VisitWellFormed(st: State, n: Name)
    requires WellFormed(st) && n in st.cur
    ensures WellFormed(Visit(st, n)) && Visit(st, n).cur.Keys == st.cur.Keys && Visit(st, n).base == st.base
    ensures st.over <= Visit(st, n).over
  {
    var t := NewLayout(st, n);
    match st.cur[n]
    case Struct(_, ms) =>
      forall m | m in Relaid(st, ms)
        ensures m.target in st.cur
      {
        var i :| 0 <= i < |ms| && Relaid(st, ms)[i] == m;
        RelaidAt(st, ms, i);
        assert ms[i] in ms;
      }
    case _ =>
  }

  // ---------- Settling ----------

  /** What the layout of n depends on. */
  ghost predicate DependsOn(st: State, n: Name, d: Name)
    requires WellFormed(st) && n in st.cur
  {
    match st.cur[n]
    case Array(_, _, e) => d == e
    case Struct(_, ms) => Embeds(st.base, d) && exists i :: 0 <= i < |ms| && ms[i].target == d
    case _ => false
  }

  /** By-value containment is acyclic: what a type contains ranks below it. */
  ghost predicate Ranked(st: State, rank: map<Name, nat>) {
    WellFormed(st) && st.cur.Keys <= rank.Keys &&
    forall n, d :: n in st.cur && d in st.cur && DependsOn(st, n, d) ==> rank[d] < rank[n]
  }

  /** Two states agree on whatever n depends on. */
  ghost predicate SameBelow(st: State, st': State, n: Name)
    requires WellFormed(st) && n in st.cur
  {
    && WellFormed(st') && st'.cur.Keys == st.cur.Keys && st'.base == st.base
    && forall d :: d in st.cur && DependsOn(st, n, d) ==> st'.cur[d] == st.cur[d] && (d in st'.over <==> d in st.over)
  }

  lemma {:induction false} SameShift(st: State, st': State, ms: seq<Member>)
    requires Known(st, ms) && Known(st', ms)
    requires forall m :: m in ms ==> Delta(st', m) == Delta(st, m)
    ensures Shift(st', ms) == Shift(st, ms)
  {
    if ms != [] {
      SameShift(st, st', ms[..|ms| - 1]);
    }
  }

  lemma {:induction false} StaysQuiet(st: State, st': State, n: Name)
    requires WellFormed(st) && n in st.cur && Quiet(st, n)
    requires SameBelow(st, st', n) && st'.cur[n] == st.cur[n]
    ensures Quiet(st', n)
  {
    match st.cur[n]
    case Array(_, _, e) => assert DependsOn(st, n, e);
    case Struct(_, ms) =>
      forall m | m in ms
        ensures Delta(st', m) == Delta(st, m)
      {
        if Embeds(st.base, m.target) {
          assert DependsOn(st, n, m.target);
        }
      }
      SameShift(st, st', ms);
    case _ =>
  }

  lemma {:induction false} NoShift(st: State, ms: seq<Member>)
    requires Known(st, ms) && forall m :: m in ms ==> Delta(st, m) == 0
    ensures Shift(st, ms) == 0
  {
    if ms != [] {
      NoShift(st, ms[..|ms| - 1]);
    }
  }

  lemma {:induction false} VisitedDependsSame(st: State, n: Name, d: Name)
    requires WellFormed(st) && n in st.cur && WellFormed(Visit(st, n))
    ensures DependsOn(Visit(st, n), n, d) == DependsOn(st, n, d)
  {
    match st.cur[n]
    case Struct(_, ms) =>
      if !Quiet(st, n) {
        var rs := Relaid(st, ms);
        forall i | 0 <= i < |ms| ensures rs[i].target == ms[i].target {
          RelaidAt(st, ms, i);
        }
      }
    case _ =>
  }

  /** A visited type is quiet, if it does not contain itself. */
  lemma {:induction false} VisitQuiets(st: State, n: Name)
    requires WellFormed(st) && n in st.cur && !DependsOn(st, n, n)
    ensures WellFormed(Visit(st, n)) && Quiet(Visit(st, n), n)
  {
    VisitWellFormed(st, n);
    var st' := Visit(st, n);
    if !Quiet(st, n) {
      match st.cur[n]
      case Array(_, _, e) => assert DependsOn(st, n, e);
      case Struct(_, ms) =>
        var rs := Relaid(st, ms);
        forall m | m in rs
          ensures Delta(st', m) == 0
        {
          var i :| 0 <= i < |ms| && rs[i] == m;
          RelaidAt(st, ms, i);
          assert ms[i] in ms;
          if m.target in st'.over && Embeds(st.base, m.target) {
            assert DependsOn(st, n, m.target);
          }
        }
        NoShift(st', rs);
      case _ =>
    }
  }

  /** Visiting one type keeps the others' dependencies. */
  lemma {:induction false} OthersSame(st: State, n: Name, k: Name)
    requires WellFormed(st) && n in st.cur && k in st.cur && k != n && !DependsOn(st, k, n)
    ensures WellFormed(Visit(st, n)) && SameBelow(st, Visit(st, n), k) && Visit(st, n).cur[k] == st.cur[k]
  {
    VisitWellFormed(st, n);
  }

  lemma {:induction false} VisitRanked(st: State, n: Name, rank: map<Name, nat>)
    requires Ranked(st, rank) && n in st.cur
    ensures Ranked(Visit(st, n), rank)
  {
    VisitWellFormed(st, n);
    var st' := Visit(st, n);
    forall k, d | k in st'.cur && d in st'.cur && DependsOn(st', k, d)
      ensures rank[d] < rank[k]
    {
      if k == n {
        VisitedDependsSame(st, n, d);
      } else {
        assert st'.cur[k] == st.cur[k];
        assert DependsOn(st, k, d);
      }
    }
  }

  /** Every visited-in-this-run name of rank at most p is quiet. */
  ghost predicate Calm(st: State, names: seq<Name>, rank: map<Name, nat>, p: nat) {
    Ranked(st, rank) && forall n :: n in names && n in st.cur && rank[n] <= p ==> Quiet(st, n)
  }

  lemma {:induction false} VisitKeepsQuiet(st: State, n: Name, k: Name, rank: map<Name, nat>)
    requires Ranked(st, rank) && n in st.cur && k in st.cur && Quiet(st, k)
    requires rank[k] <= rank[n]
    ensures WellFormed(Visit(st, n)) && Quiet(Visit(st, n), k)
  {
    VisitWellFormed(st, n);
    if k != n {
      OthersSame(st, n, k);
      StaysQuiet(st, Visit(st, n), k);
    }
  }

  /** A visit keeps calm, and quiets a name of the next rank. */
  lemma {:induction false} VisitCalm(st: State, names: seq<Name>, rank: map<Name, nat>, p: nat, n: Name)
    requires Calm(st, names, rank, p) && n in names && n in st.cur
    ensures Calm(Visit(st, n), names, rank, p)
    ensures rank[n] <= p + 1 ==> Quiet(Visit(st, n), n)
    ensures forall k :: k in st.cur && k in names && rank[k] <= p + 1 && Quiet(st, k) ==> Quiet(Visit(st, n), k)
  {
    VisitRanked(st, n, rank);
    VisitQuiets(st, n);
    forall k | k in st.cur && k in names && rank[k] <= p + 1 && Quiet(st, k)
      ensures Quiet(Visit(st, n), k)
    {
      if rank[n] <= p {
        assert Quiet(st, n);
      } else {
        VisitKeepsQuiet(st, n, k, rank);
      }
    }
  }

  lemma {:induction false} InitiallyCalm(st: State, names: seq<Name>, rank: map<Name, nat>)
    requires Ranked(st, rank)
    ensures Calm(st, names, rank, 0)
  {
    forall n | n in names && n in st.cur && rank[n] <= 0
      ensures Quiet(st, n)
    {
      match st.cur[n]
      case Array(_, _, e) => assert DependsOn(st, n, e);
      case Struct(_, ms) =>
        forall m | m in ms ensures Delta(st, m) == 0 {
          if Embeds(st.base, m.target) {
            assert DependsOn(st, n, m.target);
          }
        }
        NoShift(st, ms);
      case _ =>
    }
  }
}
