/** What releasing several variables one after the other frees: the least set of objects
    closed under "held only from the released variables and from the set itself". */
module VmCleanup {
  import opened VmStore
  import opened VmStoreLemmas
  import opened VmRelease

  /** g contains every live object whose holders all are in ls or slots of g's own nodes. */
  ghost predicate ClosedForAll(s: Store, chains: Chains, g: set<Ref>, ls: set<Loc>) {
    forall r :: LiveObject(s, r) && (forall k :: k in Holders(s, {}, r) ==> k in ls || SlotOf(chains, g, k)) ==> r in g
  }

  ghost function DoomedAll(s: Store, chains: Chains, ls: set<Loc>): (d: set<Ref>)
    ensures forall r :: r in d <==> LiveObject(s, r) && forall g: set<Ref> :: ClosedForAll(s, chains, g, ls) ==> r in g
  {
    set r | r in s.heap && LiveObject(s, r) && forall g: set<Ref> :: ClosedForAll(s, chains, g, ls) ==> r in g
  }

  lemma {:induction false} DoomedAllIsClosed(s: Store, chains: Chains, ls: set<Loc>)
    ensures ClosedForAll(s, chains, DoomedAll(s, chains, ls), ls)
  {
    var d := DoomedAll(s, chains, ls);
    forall r | LiveObject(s, r) && forall k :: k in Holders(s, {}, r) ==> k in ls || SlotOf(chains, d, k)
      ensures r in d
    {
      forall g: set<Ref> | ClosedForAll(s, chains, g, ls)
        ensures r in g
      {
        assert forall k :: SlotOf(chains, d, k) ==> SlotOf(chains, g, k);
      }
    }
  }

  /** From s to t exactly the objects f and their nodes have gone from the heap; all else in it
      is as it was, but for lower counts. */
  ghost predicate HeapFrees(s: Store, t: Store, chains: Chains, f: set<Ref>) {
    && t.heap.Keys == s.heap.Keys - f - NodesOf(chains, f)
    && (forall r :: r in f ==> LiveObject(s, r))
    && (forall r :: r in t.heap ==> r in s.heap && SameButRef(s.heap[r], t.heap[r]))
  }

  lemma HeapFreesNothing(s: Store, chains: Chains)
    ensures HeapFrees(s, s, chains, {})
  {
  }

  /** One of the releases frees objects of a closed set only, which stays closed. */
  lemma {:induction false} ReleaseStays(s: Store, t: Store, chains: Chains, g: set<Ref>, ls: set<Loc>, l: Loc)
    requires ClosedForAll(s, chains, g, ls) && Released(s, t, chains, l) && l in ls
    ensures Doomed(s, chains, l) <= g && ClosedForAll(t, chains, g, ls)
  {
    var d, p := Doomed(s, chains, l), Put(s, l, UNDEFINED_VAR);
    assert ClosedFor(s, chains, {}, g, l);
    PutSameObjects(s, l, UNDEFINED_VAR);
    forall r | LiveObject(t, r) && forall k :: k in Holders(t, {}, r) ==> k in ls || SlotOf(chains, g, k)
      ensures r in g
    {
      assert SameButRef(p.heap[r], t.heap[r]);
      assert LiveObject(s, r);
      forall k | k in Holders(s, {}, r) ensures k in ls || SlotOf(chains, g, k) {
        if k != l && !SlotOf(chains, d, k) {
          HolderStays(s, t, chains, l, r, k);
        }
      }
    }
  }

  /** A holder that neither is l nor goes with the doomed objects is there afterwards. */
  lemma {:induction false} HolderStays(s: Store, t: Store, chains: Chains, l: Loc, r: Ref, k: Loc)
    requires Released(s, t, chains, l) && k in Holders(s, {}, r) && k != l
    requires !SlotOf(chains, Doomed(s, chains, l), k)
    ensures k in Holders(t, {}, r)
  {
    var p := Put(s, l, UNDEFINED_VAR);
    if NodeSlot(k) {
      assert k.n in t.heap by {
        assert k.n in p.heap && k.n !in Doomed(s, chains, l) && HasNode(p, k.n);
      }
      assert SameButRef(p.heap[k.n], t.heap[k.n]);
    }
    assert HasLoc(t, k) && VarAt(t, k) == VarAt(p, k);
  }

  /** The heap after one more release. */
  lemma {:induction false} HeapFreesThen(s0: Store, s: Store, t: Store, chains: Chains, f: set<Ref>, l: Loc)
    requires HeapFrees(s0, s, chains, f) && Released(s, t, chains, l) && !NodeSlot(l)
    ensures HeapFrees(s0, t, chains, f + Doomed(s, chains, l))
  {
    hide Doomed;
    var d := Doomed(s, chains, l);
    assert Put(s, l, UNDEFINED_VAR).heap == s.heap;
    hide Put;
    assert NodesOf(chains, f + d) == NodesOf(chains, f) + NodesOf(chains, d);
    assert t.heap.Keys == s0.heap.Keys - (f + d) - NodesOf(chains, f + d);
    forall r | r in t.heap ensures r in s0.heap && SameButRef(s0.heap[r], t.heap[r]) {
      assert SameButRef(s.heap[r], t.heap[r]) && SameButRef(s0.heap[r], s.heap[r]);
    }
  }

  /** After the last release everything doomed has gone: what survives has a holder, which
      is none of the released variables. */
  lemma {:induction false} FreedAllIsClosed(s: Store, t: Store, chains: Chains, ls: set<Loc>, f: set<Ref>)
    requires Sound(s, chains, {}) && Sound(t, chains, {}) && HeapFrees(s, t, chains, f)
    requires t.roots == s.roots && |t.fields| == |s.fields|
    requires forall k :: k in ls ==> HasLoc(t, k) && !NodeSlot(k) && !Counted(VarAt(t, k))
    requires forall i :: 0 <= i < |s.fields| && Field(i) !in ls ==> t.fields[i] == s.fields[i]
    ensures DoomedAll(s, chains, ls) <= f
  {
    assert ClosedForAll(s, chains, f, ls) by {
      forall r | LiveObject(s, r) && forall k :: k in Holders(s, {}, r) ==> k in ls || SlotOf(chains, f, k)
        ensures r in f
      {
        if r !in f {
          StillHeld(s, t, chains, ls, f, r);
        }
      }
    }
  }

  lemma {:induction false} StillHeld(s: Store, t: Store, chains: Chains, ls: set<Loc>, f: set<Ref>, r: Ref)
    requires Sound(s, chains, {}) && Sound(t, chains, {}) && HeapFrees(s, t, chains, f)
    requires t.roots == s.roots && |t.fields| == |s.fields|
    requires forall k :: k in ls ==> HasLoc(t, k) && !NodeSlot(k) && !Counted(VarAt(t, k))
    requires forall i :: 0 <= i < |s.fields| && Field(i) !in ls ==> t.fields[i] == s.fields[i]
    requires LiveObject(s, r) && r !in f
    ensures exists k :: k in Holders(s, {}, r) && k !in ls && !SlotOf(chains, f, k)
  {
    assert r !in chains.owner;
    assert r in t.heap && SameButRef(s.heap[r], t.heap[r]);
    assert |Holders(t, {}, r)| > 0;
    var k :| k in Holders(t, {}, r);
    if NodeSlot(k) {
      assert SameButRef(s.heap[k.n], t.heap[k.n]);
      assert k.n !in NodesOf(chains, f);
    }
    assert HasLoc(s, k) && VarAt(s, k) == VarAt(t, k);
  }

  /** An object held by a variable outside the heap that is none of ls is not doomed. */
  lemma {:induction false} HeldElsewhereSurvives(s: Store, chains: Chains, ls: set<Loc>, r: Ref, k: Loc)
    requires k in Holders(s, {}, r) && k !in ls && !NodeSlot(k)
    ensures r !in DoomedAll(s, chains, ls)
  {
    var d := DoomedAll(s, chains, ls);
    DoomedAllIsClosed(s, chains, ls);
    assert ClosedForAll(s, chains, d - {r}, ls) by {
      forall q | LiveObject(s, q) && forall j :: j in Holders(s, {}, q) ==> j in ls || SlotOf(chains, d - {r}, j)
        ensures q in d - {r}
      {
        assert forall j :: SlotOf(chains, d - {r}, j) ==> SlotOf(chains, d, j);
      }
    }
  }

  /** An object whose every holder is one of ls is doomed. */
  lemma {:induction false} HeldFromThereOnly(s: Store, chains: Chains, ls: set<Loc>, r: Ref)
    requires LiveObject(s, r) && Holders(s, {}, r) <= ls
    ensures r in DoomedAll(s, chains, ls)
  {
    DoomedAllIsClosed(s, chains, ls);
  }

  // ---------- The variables of a frame ----------

  ghost function FieldLocs(all: seq<int>): (ls: set<Loc>)
    ensures forall k :: k in ls <==> k.Field? && k.f in all
  {
    set f | f in all :: Field(f)
  }

  /** Every counted object has a holder. */
  ghost predicate NoneAtZero(heap: map<Ref, Object>) {
    forall r :: r in heap && Countable(heap[r]) ==> heap[r].ref > 0
  }

  /** One variable of the frame is released. */
  lemma {:induction false} NextFreed(s0: Store, s: Store, mid: Store, t: Store, chains: Chains, f: set<Ref>,
                                     d: set<Ref>, all: seq<int>, i: nat)
    returns (f': set<Ref>)
    requires i < |all| && f <= d && HeapFrees(s0, s, chains, f) && ClosedForAll(s, chains, d, FieldLocs(all))
    requires Released(s, mid, chains, Field(all[i])) && t.heap == mid.heap && t.roots == mid.roots
    requires |t.fields| == |mid.fields| && forall k :: 0 <= k < |t.fields| ==> t.fields[k].v == mid.fields[k].v
    ensures f' <= d && HeapFrees(s0, t, chains, f') && ClosedForAll(t, chains, d, FieldLocs(all))
  {
    assert Field(all[i]) in FieldLocs(all);
    ReleaseStays(s, mid, chains, d, FieldLocs(all), Field(all[i]));
    HeapFreesThen(s0, s, mid, chains, f, Field(all[i]));
    f' := f + Doomed(s, chains, Field(all[i]));
    hide Released;
    SameVariablesClosed(mid, t, chains, d, FieldLocs(all));
  }

  lemma {:induction false} SameVariablesClosed(s: Store, t: Store, chains: Chains, d: set<Ref>, ls: set<Loc>)
    requires ClosedForAll(s, chains, d, ls) && t.heap == s.heap && t.roots == s.roots && |t.fields| == |s.fields|
    requires forall k :: 0 <= k < |t.fields| ==> t.fields[k].v == s.fields[k].v
    ensures ClosedForAll(t, chains, d, ls)
  {
    forall r | LiveObject(t, r) && forall k :: k in Holders(t, {}, r) ==> k in ls || SlotOf(chains, d, k)
      ensures r in d
    {
      forall k | k in Holders(s, {}, r) ensures k in Holders(t, {}, r) {
        assert VarAt(t, k) == VarAt(s, k);
      }
    }
  }

  /** The whole frame is released. */
  lemma {:induction false} FrameFreed(s: Store, t: Store, chains: Chains, all: seq<int>, f: set<Ref>)
    requires Sound(s, chains, {}) && Sound(t, chains, {}) && HeapFrees(s, t, chains, f)
    requires f <= DoomedAll(s, chains, FieldLocs(all)) && t.roots == s.roots && |t.fields| == |s.fields|
    requires forall j :: 0 <= j < |all| ==> 0 <= all[j] < |t.fields| && t.fields[all[j]].v == UNDEFINED_VAR
    requires forall i :: 0 <= i < |s.fields| && i !in all ==> t.fields[i] == s.fields[i]
    ensures f == DoomedAll(s, chains, FieldLocs(all))
    ensures forall r, k :: k in Holders(s, {}, r) && !NodeSlot(k) && r in s.heap && k !in FieldLocs(all) ==> r in t.heap
    ensures forall r :: LiveObject(s, r) && Holders(s, {}, r) <= FieldLocs(all) ==> r !in t.heap
    ensures forall r :: r in t.heap ==> r in s.heap && SameButRef(s.heap[r], t.heap[r])
    ensures NoneAtZero(s.heap) ==> NoneAtZero(t.heap)
  {
    FreedAllIsClosed(s, t, chains, FieldLocs(all), f);
    forall r, k | k in Holders(s, {}, r) && !NodeSlot(k) && r in s.heap && k !in FieldLocs(all)
      ensures r in t.heap
    {
      HeldElsewhereSurvives(s, chains, FieldLocs(all), r, k);
      assert VarAt(s, k).val == r && Countable(s.heap[r]);
      assert r !in NodesOf(chains, f);
    }
    forall r | LiveObject(s, r) && Holders(s, {}, r) <= FieldLocs(all)
      ensures r !in t.heap
    {
      HeldFromThereOnly(s, chains, FieldLocs(all), r);
    }
    forall r | NoneAtZero(s.heap) && r in t.heap && Countable(t.heap[r]) ensures t.heap[r].ref > 0 {
      assert SameButRef(s.heap[r], t.heap[r]);
    }
  }
}
