/** What releasing one variable frees, defined without the cascade: the least set of
    objects closed under "held only from the released variable and from the set itself". */
module VmRelease {
  import opened VmStore
  import opened VmStoreLemmas
  import Reach

  ghost function Doomed(s: Store, chains: Chains, l: Loc): (d: set<Ref>)
    ensures forall r :: r in d <==> LiveObject(s, r) && forall g: set<Ref> :: ClosedFor(s, chains, {}, g, l) ==> r in g
  {
    set r | r in s.heap && LiveObject(s, r) && forall g: set<Ref> :: ClosedFor(s, chains, {}, g, l) ==> r in g
  }

  lemma {:induction false} DoomedIsClosed(s: Store, chains: Chains, l: Loc)
    ensures ClosedFor(s, chains, {}, Doomed(s, chains, l), l)
  {
    var d := Doomed(s, chains, l);
    forall r | LiveObject(s, r) && forall k :: k in Holders(s, {}, r) ==> k == l || SlotOf(chains, d, k)
      ensures r in d
    {
      forall g: set<Ref> | ClosedFor(s, chains, {}, g, l)
        ensures r in g
      {
        assert forall k :: SlotOf(chains, d, k) ==> SlotOf(chains, g, k);
      }
    }
  }

  /** t is s after the release of l: the doomed objects and their nodes have gone, l is
      undefined, and nothing else has changed but the counts. */
  ghost predicate Released(s: Store, t: Store, chains: Chains, l: Loc) {
    HasLoc(s, l) && Frees(Put(s, l, UNDEFINED_VAR), t, chains, Doomed(s, chains, l), {})
  }

  /** Whatever a sound cascade frees contains everything doomed: an object that lost all
      its holders cannot have survived, because its count would be zero. */
  lemma {:induction false} FreedIsClosed(s: Store, t: Store, chains: Chains, l: Loc, f: set<Ref>)
    requires Sound(s, chains, {}) && Sound(t, chains, {}) && HasLoc(s, l)
    requires Frees(Put(s, l, UNDEFINED_VAR), t, chains, f, {})
    requires NodeSlot(l) ==> Detached(s, chains, l.n)
    ensures ClosedFor(s, chains, {}, f, l)
  {
    forall r | LiveObject(s, r) && forall k :: k in Holders(s, {}, r) ==> k == l || SlotOf(chains, f, k)
      ensures r in f
    {
      if r !in f {
        Survives(s, t, chains, l, f, r);
        var k :| k in Holders(t, {}, r);
        HolderWasThere(s, t, chains, l, f, r, k);
      }
    }
  }

  lemma Survives(s: Store, t: Store, chains: Chains, l: Loc, f: set<Ref>, r: Ref)
    requires Sound(s, chains, {}) && Sound(t, chains, {}) && HasLoc(s, l)
    requires Frees(Put(s, l, UNDEFINED_VAR), t, chains, f, {})
    requires LiveObject(s, r) && r !in f
    ensures r in t.heap && Holders(t, {}, r) != {}
  {
    var p := Put(s, l, UNDEFINED_VAR);
    PutSameObjects(s, l, UNDEFINED_VAR);
    assert r !in chains.owner;
    assert r in t.heap && SameButRef(p.heap[r], t.heap[r]);
    assert |Holders(t, {}, r)| > 0;
  }

  lemma {:induction false} HolderWasThere(s: Store, t: Store, chains: Chains, l: Loc, f: set<Ref>, r: Ref, k: Loc)
    requires HasLoc(s, l) && Frees(Put(s, l, UNDEFINED_VAR), t, chains, f, {})
    requires k in Holders(t, {}, r)
    ensures k in Holders(s, {}, r) && k != l
    ensures NodeSlot(k) ==> k.n !in NodesOf(chains, f)
  {
    var p := Put(s, l, UNDEFINED_VAR);
    if NodeSlot(k) {
      assert SameButRef(p.heap[k.n], t.heap[k.n]);
      assert t.heap[k.n] == p.heap[k.n];
    }
    assert HasLoc(p, k) && VarAt(p, k) == VarAt(t, k);
  }

  /** An object that a root or field other than l holds is not freed. */
  lemma {:induction false} HeldOutsideSurvives(s: Store, chains: Chains, l: Loc, r: Ref, k: Loc)
    requires k in Holders(s, {}, r) && k != l && !NodeSlot(k)
    ensures r !in Doomed(s, chains, l)
  {
    var d := Doomed(s, chains, l);
    DoomedIsClosed(s, chains, l);
    assert ClosedFor(s, chains, {}, d - {r}, l) by {
      forall q | LiveObject(s, q) && forall j :: j in Holders(s, {}, q) ==> j == l || SlotOf(chains, d - {r}, j)
        ensures q in d - {r}
      {
        assert forall j :: SlotOf(chains, d - {r}, j) ==> SlotOf(chains, d, j);
      }
    }
  }

  /** Reference cycles leak: when every object of c is held by a node of an array of c,
      no release of another variable frees any of them. */
  lemma {:induction false} CyclesLeak(s: Store, chains: Chains, l: Loc, c: set<Ref>)
    requires forall r :: r in c ==> exists k :: k in Holders(s, {}, r) && k != l && SlotOf(chains, c, k)
    ensures Doomed(s, chains, l) !! c
  {
    var d := Doomed(s, chains, l);
    DoomedIsClosed(s, chains, l);
    assert ClosedFor(s, chains, {}, d - c, l) by {
      forall q | LiveObject(s, q) && forall j :: j in Holders(s, {}, q) ==> j == l || SlotOf(chains, d - c, j)
        ensures q in d - c
      {
        assert forall j :: SlotOf(chains, d - c, j) ==> SlotOf(chains, d, j);
        assert q in d;
      }
    }
  }

  /** Nothing is freed unless l was the last holder of what it refers to. */
  lemma SharedFreesNothing(s: Store, chains: Chains, l: Loc)
    requires Sound(s, chains, {}) && HasLoc(s, l)
    requires Counted(VarAt(s, l)) ==>
      VarAt(s, l).val in s.heap && Countable(s.heap[VarAt(s, l).val]) && s.heap[VarAt(s, l).val].ref > 1
    ensures Doomed(s, chains, l) == {}
  {
    forall r | LiveObject(s, r) && forall k :: k in Holders(s, {}, r) ==> k == l || SlotOf(chains, {}, k)
      ensures false
    {
      assert Holders(s, {}, r) <= {l};
      assert |Holders(s, {}, r)| == s.heap[r].ref;
      Reach.SubsetSize(Holders(s, {}, r), {l});
    }
    assert ClosedFor(s, chains, {}, {}, l);
  }

  /** The invariant and Released leave only one possible result. */
  lemma {:induction false} ReleasedIsUnique(s: Store, t: Store, t': Store, chains: Chains, l: Loc)
    requires Released(s, t, chains, l) && Released(s, t', chains, l)
    requires Counts(t, {}) && Counts(t', {})
    ensures t == t'
  {
    var p := Put(s, l, UNDEFINED_VAR);
    assert t.heap.Keys == t'.heap.Keys;
    assert forall k :: HasLoc(t, k) <==> HasLoc(t', k) by {
      forall n | n in t.heap
        ensures HasNode(t, n) <==> HasNode(t', n)
      {
        assert SameButRef(p.heap[n], t.heap[n]) && SameButRef(p.heap[n], t'.heap[n]);
      }
    }
    forall k | HasLoc(t, k)
      ensures VarAt(t, k) == VarAt(t', k)
    {
      if NodeSlot(k) {
        assert SameButRef(p.heap[k.n], t.heap[k.n]) && SameButRef(p.heap[k.n], t'.heap[k.n]);
      }
    }
    forall r | r in t.heap
      ensures t.heap[r] == t'.heap[r]
    {
      assert Holders(t, {}, r) == Holders(t', {}, r);
      assert SameButRef(p.heap[r], t.heap[r]) && SameButRef(p.heap[r], t'.heap[r]);
    }
  }

  lemma UndefinedAfter(s: Store, t: Store, chains: Chains, f: set<Ref>, l: Loc)
    requires HasLoc(s, l) && !NodeSlot(l) && Frees(Put(s, l, UNDEFINED_VAR), t, chains, f, {})
    ensures HasLoc(t, l) && VarAt(t, l) == UNDEFINED_VAR
  {
  }

  /** The cascade of a field's release touches no other field and no root. */
  lemma OnlyThatField(s: Store, t: Store, chains: Chains, f: int)
    requires HasLoc(s, Field(f)) && Released(s, t, chains, Field(f))
    ensures t.roots == s.roots && |t.fields| == |s.fields|
    ensures t.fields == s.fields[f := s.fields[f].(v := UNDEFINED_VAR)]
  {
  }

  lemma OnlyThatRoot(s: Store, t: Store, chains: Chains, i: nat)
    requires HasLoc(s, Root(i)) && Released(s, t, chains, Root(i))
    ensures t.fields == s.fields && t.roots == s.roots[i := UNDEFINED_VAR]
  {
  }

  // ---------- By the kind of the variable ----------

  /** What a release does to the heap, by the kind of its variable: a string or vector goes with
      its last count and nothing else changes, and an array goes with its last count. */
  ghost predicate ByKind(s: Store, t: Store, l: Loc)
    requires HasLoc(s, l)
  {
    var r := VarAt(s, l).val;
    match VarAt(s, l).kind
    case Array => r in s.heap && s.heap[r].VmArray? && OneLess(s, t, r)
    case String => r in s.heap && s.heap[r].VmString? && OneLess(s, t, r)
    case Vector => r in s.heap && s.heap[r].VmVector? && OneLess(s, t, r)
    case _ => t.heap == s.heap
  }

  ghost predicate OneLess(s: Store, t: Store, r: Ref)
    requires r in s.heap && !s.heap[r].VmArrayNode?
  {
    s.heap[r].ref > 0 &&
    if s.heap[r].ref > 1 then OnlyLess(s.heap, t.heap, r)
    else if s.heap[r].VmArray? then r !in t.heap
    else t.heap == s.heap - {r}
  }

  predicate IsLess(o: Object, p: Object) {
    Countable(o) && o.ref > 0 && p == o.(ref := o.ref - 1)
  }

  ghost predicate OnlyLess(h: map<Ref, Object>, h': map<Ref, Object>, r: Ref)
    requires r in h
  {
    && h'.Keys == h.Keys && IsLess(h[r], h'[r])
    && forall q :: q in h && q != r ==> h'[q] == h[q]
  }

  lemma {:induction false} ReleasedByKind(s: Store, t: Store, chains: Chains, l: Loc)
    requires Sound(s, chains, {}) && Sound(t, chains, {}) && Released(s, t, chains, l)
    requires HasLoc(s, l) && !NodeSlot(l)
    ensures ByKind(s, t, l)
  {
    hide Sound, Released, OnlyLess, VarAt, HasLoc, Doomed;
    var v := VarAt(s, l);
    if !Counted(v) {
      Undoomed(s, t, chains, l);
    } else {
      HeldIsCounted(s, chains, l);
      if s.heap[v.val].ref > 1 {
        SharedFreesNothing(s, chains, l);
        Undoomed(s, t, chains, l);
      } else {
        OnlyHolder(s, chains, l);
        if s.heap[v.val].VmArray? {
          DoomedIsGone(s, t, chains, l, v.val);
        } else {
          LeafAlone(s, t, chains, l);
        }
      }
    }
  }

  lemma DoomedIsGone(s: Store, t: Store, chains: Chains, l: Loc, r: Ref)
    requires Released(s, t, chains, l) && r in Doomed(s, chains, l)
    ensures r !in t.heap
  {
  }

  lemma {:induction false} OnlyHolder(s: Store, chains: Chains, l: Loc)
    requires Sound(s, chains, {}) && HasLoc(s, l) && Counted(VarAt(s, l)) && s.heap[VarAt(s, l).val].ref <= 1
    ensures s.heap[VarAt(s, l).val].ref == 1 && VarAt(s, l).val in Doomed(s, chains, l)
  {
    var r := VarAt(s, l).val;
    assert {l} <= Holders(s, {}, r);
    Reach.SubsetSize({l}, Holders(s, {}, r));
    forall k | k in Holders(s, {}, r) ensures k == l {
      if k != l {
        Reach.SubsetSize({l, k}, Holders(s, {}, r));
      }
    }
    DoomedIsClosed(s, chains, l);
  }

  /** While no node goes, l is the only holder that does. */
  lemma {:induction false} OneHolderLess(s: Store, t: Store, chains: Chains, l: Loc, q: Ref)
    requires Released(s, t, chains, l) && !NodeSlot(l)
    requires forall n :: HasNode(s, n) ==> n in t.heap
    ensures Holders(t, {}, q) == Holders(s, {}, q) - {l}
  {
    forall k ensures k in Holders(t, {}, q) <==> k in Holders(s, {}, q) && k != l {
      if NodeSlot(k) && k.n in t.heap {
        assert SameButRef(s.heap[k.n], t.heap[k.n]);
      }
    }
  }

  lemma {:induction false} RefIs(s: Store, chains: Chains, q: Ref)
    requires Sound(s, chains, {}) && q in s.heap && Countable(s.heap[q])
    ensures s.heap[q].ref == |Holders(s, {}, q)|
  {
  }

  lemma SurvivorSame(s: Store, t: Store, chains: Chains, l: Loc, q: Ref)
    requires Released(s, t, chains, l) && !NodeSlot(l) && q in t.heap
    ensures q in s.heap && SameButRef(s.heap[q], t.heap[q])
  {
  }

  lemma {:induction false} Survivor(s: Store, t: Store, chains: Chains, l: Loc, q: Ref)
    requires Sound(s, chains, {}) && Sound(t, chains, {}) && Released(s, t, chains, l) && !NodeSlot(l)
    requires forall n :: HasNode(s, n) ==> n in t.heap
    requires q in t.heap
    ensures q in s.heap
    ensures if Holds(s, l, q) then IsLess(s.heap[q], t.heap[q]) else t.heap[q] == s.heap[q]
  {
    hide Sound, Released, Holders;
    SurvivorSame(s, t, chains, l, q);
    OneHolderLess(s, t, chains, l, q);
    if Holds(s, l, q) {
      HeldIsCounted(s, chains, l);
    }
    if Countable(s.heap[q]) {
      RefIs(s, chains, q);
      RefIs(t, chains, q);
      if Holds(s, l, q) {
        assert l in Holders(s, {}, q);
      } else {
        assert Holders(s, {}, q) - {l} == Holders(s, {}, q);
      }
    }
  }

  lemma {:induction false} Undoomed(s: Store, t: Store, chains: Chains, l: Loc)
    requires Sound(s, chains, {}) && Sound(t, chains, {}) && Released(s, t, chains, l) && !NodeSlot(l)
    requires Counted(VarAt(s, l)) ==> Doomed(s, chains, l) == {}
    ensures if Counted(VarAt(s, l))
            then VarAt(s, l).val in s.heap && OnlyLess(s.heap, t.heap, VarAt(s, l).val)
            else t.heap == s.heap
  {
    if !Counted(VarAt(s, l)) {
      NothingDoomed(s, chains, l);
    } else {
      HeldIsCounted(s, chains, l);
    }
    hide Counts, Lists;
    assert NodesOf(chains, {}) == {};
    assert t.heap.Keys == s.heap.Keys;
    forall q | q in t.heap
      ensures if Holds(s, l, q) then IsLess(s.heap[q], t.heap[q]) else t.heap[q] == s.heap[q]
    {
      Survivor(s, t, chains, l, q);
    }
  }

  lemma {:induction false} HeldIsCounted(s: Store, chains: Chains, l: Loc)
    requires Sound(s, chains, {}) && HasLoc(s, l) && Counted(VarAt(s, l))
    ensures VarAt(s, l).val in s.heap && Matches(VarAt(s, l).kind, s.heap[VarAt(s, l).val])
    ensures Countable(s.heap[VarAt(s, l).val]) && s.heap[VarAt(s, l).val].ref > 0
  {
    assert l in Holders(s, {}, VarAt(s, l).val);
  }

  lemma {:induction false} NothingDoomed(s: Store, chains: Chains, l: Loc)
    requires Sound(s, chains, {}) && HasLoc(s, l) && !Counted(VarAt(s, l))
    ensures Doomed(s, chains, l) == {}
  {
    forall r | LiveObject(s, r)
      ensures exists k :: k in Holders(s, {}, r) && k != l
    {
      RefIs(s, chains, r);
      var k :| k in Holders(s, {}, r);
    }
    assert ClosedFor(s, chains, {}, {}, l);
  }

  /** With its last count goes a string or vector alone. */
  lemma {:induction false} LeafAlone(s: Store, t: Store, chains: Chains, l: Loc)
    requires Sound(s, chains, {}) && Sound(t, chains, {}) && Released(s, t, chains, l) && !NodeSlot(l)
    requires Counted(VarAt(s, l)) && VarAt(s, l).val in Doomed(s, chains, l) && !s.heap[VarAt(s, l).val].VmArray?
    ensures t.heap == s.heap - {VarAt(s, l).val}
  {
    var r := VarAt(s, l).val;
    OnlyLeafDoomed(s, chains, l);
    hide Sound, Counts, ExactCounts, NoDangling;
    assert t.heap.Keys == s.heap.Keys - {r};
    forall q | q in t.heap ensures t.heap[q] == s.heap[q] {
      Survivor(s, t, chains, l, q);
    }
  }

  lemma {:induction false} OnlyLeafDoomed(s: Store, chains: Chains, l: Loc)
    requires Sound(s, chains, {}) && HasLoc(s, l) && !NodeSlot(l)
    requires Counted(VarAt(s, l)) && VarAt(s, l).val in Doomed(s, chains, l) && !s.heap[VarAt(s, l).val].VmArray?
    ensures Doomed(s, chains, l) == {VarAt(s, l).val} && NodesOf(chains, {VarAt(s, l).val}) == {}
  {
    var r := VarAt(s, l).val;
    NoSlotsOf(s, chains, r);
    assert ClosedFor(s, chains, {}, {r}, l) by {
      forall q | LiveObject(s, q) && q != r
        ensures exists k :: k in Holders(s, {}, q) && k != l
      {
        RefIs(s, chains, q);
        var k :| k in Holders(s, {}, q);
      }
    }
  }

  /** Only arrays own nodes. */
  lemma {:induction false} NoSlotsOf(s: Store, chains: Chains, r: Ref)
    requires Lists(s, chains) && r in s.heap && !s.heap[r].VmArray?
    ensures NodesOf(chains, {r}) == {} && forall k :: !SlotOf(chains, {r}, k)
  {
    forall n ensures n !in NodesOf(chains, {r}) {
    }
  }

  // ---------- Moves between operations ----------

  lemma {:induction false} SameObjectsLists(s: Store, t: Store, chains: Chains)
    requires Lists(s, chains) && SameObjects(s, t)
    ensures Lists(t, chains)
  {
    forall r | LiveArray(t, r) ensures LiveArray(s, r) {
      assert !HasNode(s, r);
    }
    SameSkeleton(s, t, chains);
  }

  lemma {:induction false} MoveSound(s: Store, chains: Chains, from: Loc, to: Loc)
    requires Sound(s, chains, {})
    requires HasLoc(s, from) && HasLoc(s, to) && from != to && !Counted(VarAt(s, to))
    ensures Sound(Put(Put(s, to, VarAt(s, from)), from, UNDEFINED_VAR), chains, {})
  {
    hide Counts, Lists;
    Move(s, from, to);
    SameObjectsLists(s, Put(Put(s, to, VarAt(s, from)), from, UNDEFINED_VAR), chains);
  }

  lemma {:induction false} PutUncountedSound(s: Store, chains: Chains, l: Loc, v: VmVar)
    requires Sound(s, chains, {}) && HasLoc(s, l) && !Counted(VarAt(s, l)) && !Counted(v)
    ensures Sound(Put(s, l, v), chains, {})
  {
    hide Counts, Lists;
    PutUncounted(s, {}, l, v);
    PutSameObjects(s, l, v);
    SameObjectsLists(s, Put(s, l, v), chains);
  }

  lemma {:induction false} AddSound(s: Store, t: Store, chains: Chains, l: Loc, v: VmVar)
    requires Sound(s, chains, {}) && Added(s, t, l, v) && s.heap[v.val].VmString?
    ensures Sound(t, chains, {})
  {
    hide Counts, Lists;
    AddCount(s, t, l, v);
    assert Lists(t, chains) by {
      forall r | LiveArray(t, r) ensures LiveArray(s, r) {
        assert !HasNode(s, r);
      }
      SameSkeleton(s, t, chains);
    }
  }

  lemma {:induction false} AddStringSound(s: Store, t: Store, chains: Chains, slot: nat, ref: Ref)
    requires Sound(s, chains, {}) && slot < |s.roots| && !Counted(s.roots[slot])
    requires ref in s.heap && s.heap[ref].VmString?
    requires t == Store(s.heap[ref := WithRef(s.heap[ref], s.heap[ref].ref + 1)], s.roots[slot := VmVar(String, ref)],
      s.fields)
    ensures Sound(t, chains, {})
  {
    hide Sound;
    AddSound(s, t, chains, Root(slot), VmVar(String, ref));
  }

  /** The link word of a field is no variable. */
  lemma {:induction false} LinkIsNoVariable(s: Store, t: Store, chains: Chains)
    requires Sound(s, chains, {})
    requires t.heap == s.heap && t.roots == s.roots && |t.fields| == |s.fields|
    requires forall f :: 0 <= f < |s.fields| ==> t.fields[f].v == s.fields[f].v
    ensures Sound(t, chains, {})
  {
    assert forall k :: HasLoc(t, k) <==> HasLoc(s, k);
    assert forall k :: HasLoc(s, k) ==> VarAt(t, k) == VarAt(s, k);
    forall q ensures Holders(t, {}, q) == Holders(s, {}, q) {
    }
    SameCounts(s, {}, t, {});
    SameSkeleton(s, t, chains);
  }

  // ---------- A string added by its text ----------

  /** After AddString: CreateString gave the new string a count of one, AddStringRef raised it. */
  function AddedByText(s: Store, slot: nat, ref: Ref, hash: nat): Store
    requires slot < |s.roots|
  {
    Store(s.heap[ref := VmString(2, hash)], s.roots[slot := VmVar(String, ref)], s.fields)
  }

  /** After the slot's release: DecRef lowers the count, and the slot is undefined. */
  function ReleasedAgain(t: Store, slot: nat, ref: Ref, hash: nat): Store
    requires slot < |t.roots|
  {
    Store(t.heap[ref := VmString(1, hash)], t.roots[slot := UNDEFINED_VAR], t.fields)
  }

  /** Its count is one above its holders, so that it outlives the last of them. */
  lemma {:induction false} AddStringOvercounts(s: Store, chains: Chains, slot: nat, ref: Ref, hash: nat)
    requires Sound(s, chains, {}) && slot < |s.roots| && ref !in s.heap && !Counted(s.roots[slot])
    ensures var t := AddedByText(s, slot, ref, hash);
      && Holders(t, {}, ref) == {Root(slot)} && t.heap[ref].ref == |Holders(t, {}, ref)| + 1
      && !Counts(t, {})
    ensures var u := ReleasedAgain(AddedByText(s, slot, ref, hash), slot, ref, hash);
      Holders(u, {}, ref) == {} && LiveObject(u, ref)
  {
    var t := AddedByText(s, slot, ref, hash);
    var u := ReleasedAgain(t, slot, ref, hash);
    forall l ensures Holds(t, l, ref) <==> l == Root(slot) {
      if HasLoc(t, l) && l != Root(slot) {
        assert HasLoc(s, l) && VarAt(t, l) == VarAt(s, l);
      }
    }
    forall l ensures !Holds(u, l, ref) {
      if HasLoc(u, l) && l != Root(slot) {
        assert HasLoc(s, l) && VarAt(u, l) == VarAt(s, l);
      }
    }
    assert Holders(t, {}, ref) == {Root(slot)};
    assert t.heap[ref].ref != |Holders(t, {}, ref)| && Countable(t.heap[ref]);
  }
}
