/** How each elementary step of the VM changes the holders of every object. */
module VmStoreLemmas {
  import opened VmStore

  /** Lists depend only on kinds, starts and links, and on which arrays are live. */
  lemma {:induction false} SameSkeleton(s: Store, t: Store, chains: Chains)
    requires Lists(s, chains)
    requires t.heap.Keys == s.heap.Keys
    requires forall r :: r in s.heap && s.heap[r].VmArray? ==> t.heap[r].VmArray? && t.heap[r].start == s.heap[r].start
    requires forall r :: LiveArray(t, r) ==> LiveArray(s, r)
    requires forall r :: HasNode(s, r) ==> HasNode(t, r) && s.heap[r].next == t.heap[r].next
    ensures Lists(t, chains)
  {
    forall a | LiveArray(t, a)
      ensures a in chains.list && Chain(t, t.heap[a].start, chains.list[a])
    {
      assert LiveArray(s, a);
    }
  }

  lemma {:induction false} DroppedHolders(s: Store, t: Store, pending: set<Loc>, l: Loc)
    requires forall k :: HasLoc(t, k) <==> HasLoc(s, k)
    requires forall k :: HasLoc(s, k) ==> VarAt(t, k) == VarAt(s, k)
    ensures forall q :: Holders(t, pending + {l}, q) == Holders(s, pending, q) - {l}
  {
    forall q ensures Holders(t, pending + {l}, q) == Holders(s, pending, q) - {l} {
    }
  }

  lemma {:induction false} DroppedCounts(s: Store, t: Store, pending: set<Loc>, l: Loc, r: Ref)
    requires ExactCounts(s, pending) && Holds(s, l, r) && l !in pending
    requires LiveObject(s, r) && t == SetRef(s, r, s.heap[r].ref - 1)
    requires forall q :: Holders(t, pending + {l}, q) == Holders(s, pending, q) - {l}
    ensures ExactCounts(t, pending + {l})
  {
    forall q | q in t.heap && Countable(t.heap[q])
      ensures t.heap[q].ref == |Holders(t, pending + {l}, q)|
    {
      if q == r {
        assert l in Holders(s, pending, q);
      } else {
        assert l !in Holders(s, pending, q);
        assert Holders(s, pending, q) - {l} == Holders(s, pending, q);
      }
    }
  }

  /** A location with a live counted variable gives up its count: one holder less. */
  lemma {:induction false} DropCount(s: Store, pending: set<Loc>, l: Loc)
    requires Counts(s, pending) && HasLoc(s, l) && l !in pending && Counted(VarAt(s, l))
    ensures LiveObject(s, VarAt(s, l).val)
    ensures
      var r := VarAt(s, l).val;
      var t := SetRef(s, r, s.heap[r].ref - 1);
      && Counts(t, pending + {l})
      && (forall q :: Holders(t, pending + {l}, q) == Holders(s, pending, q) - {l})
  {
    var r := VarAt(s, l).val;
    assert l in Holders(s, pending, r);
    assert s.heap[r].ref > 0;
    var t := SetRef(s, r, s.heap[r].ref - 1);
    DroppedHolders(s, t, pending, l);
    DroppedCounts(s, t, pending, l, r);
    assert NoDangling(t, pending + {l}) by { hide ExactCounts; }
  }

  /** The last two assignments of ReleaseVariable change no holder. */
  lemma {:induction false} Overwrite(s: Store, pending: set<Loc>, l: Loc)
    requires Counts(s, pending) && l in pending && HasLoc(s, l)
    ensures Counts(Put(s, l, UNDEFINED_VAR), pending - {l})
    ensures forall q :: Holders(Put(s, l, UNDEFINED_VAR), pending - {l}, q) == Holders(s, pending, q)
  {
    var t := Put(s, l, UNDEFINED_VAR);
    forall q ensures Holders(t, pending - {l}, q) == Holders(s, pending, q) {
    }
    SameCounts(s, pending, t, pending - {l});
  }

  /** Counts depend only on the holders. */
  lemma {:induction false} SameCounts(s: Store, pending: set<Loc>, t: Store, pending': set<Loc>)
    requires Counts(s, pending)
    requires t.heap.Keys == s.heap.Keys
    requires forall r :: r in s.heap && Countable(s.heap[r]) ==> t.heap[r] == s.heap[r]
    requires forall r :: HasNode(s, r) ==> HasNode(t, r)
    requires forall q :: Holders(t, pending', q) == Holders(s, pending, q)
    requires forall k :: HasLoc(t, k) && k !in pending' && Counted(VarAt(t, k)) ==>
      HasLoc(s, k) && k !in pending && VarAt(t, k) == VarAt(s, k)
    ensures Counts(t, pending')
  {
    forall q | q in t.heap && Countable(t.heap[q])
      ensures t.heap[q].ref == |Holders(t, pending', q)|
    {
      assert !HasNode(s, q);
      assert s.heap[q].ref == |Holders(s, pending, q)|;
    }
  }

  /** Freeing a detached node whose slots hold nothing changes no holder. */
  lemma {:induction false} FreeNode(s: Store, pending: set<Loc>, n: Ref)
    requires Counts(s, pending)
    requires HasNode(s, n)
    requires NodeIdx(n) !in pending && NodeItem(n) !in pending
    requires !Counted(s.heap[n].idx) && !Counted(s.heap[n].item)
    ensures Counts(s.(heap := s.heap - {n}), pending)
    ensures forall q :: Holders(s.(heap := s.heap - {n}), pending, q) == Holders(s, pending, q)
  {
    var t := s.(heap := s.heap - {n});
    assert forall k :: HasLoc(t, k) ==> HasLoc(s, k) && VarAt(t, k) == VarAt(s, k);
    assert forall k :: HasLoc(s, k) && !HasLoc(t, k) ==> k == NodeIdx(n) || k == NodeItem(n);
    forall q ensures Holders(t, pending, q) == Holders(s, pending, q) {
    }
  }

  /** Freeing an object without holders changes no holder. */
  lemma {:induction false} FreeObject(s: Store, pending: set<Loc>, r: Ref)
    requires Counts(s, pending)
    requires r in s.heap && Countable(s.heap[r]) && s.heap[r].ref == 0
    ensures Counts(s.(heap := s.heap - {r}), pending)
    ensures forall q :: Holders(s.(heap := s.heap - {r}), pending, q) == Holders(s, pending, q)
  {
    var t := s.(heap := s.heap - {r});
    assert forall k :: HasLoc(t, k) <==> HasLoc(s, k);
    assert forall k :: HasLoc(t, k) ==> VarAt(t, k) == VarAt(s, k);
    assert Holders(s, pending, r) == {};
    forall q ensures Holders(t, pending, q) == Holders(s, pending, q) {
    }
    forall l | HasLoc(t, l) && l !in pending && Counted(VarAt(t, l))
      ensures VarAt(t, l).val in t.heap && Matches(VarAt(t, l).kind, t.heap[VarAt(t, l).val])
    {
      assert l !in Holders(s, pending, r);
    }
  }

  /** s and t differ in variables only. */
  ghost predicate SameObjects(s: Store, t: Store) {
    && t.heap.Keys == s.heap.Keys
    && (forall r :: r in s.heap && Countable(s.heap[r]) ==> t.heap[r] == s.heap[r])
    && (forall r :: HasNode(s, r) ==> HasNode(t, r) && t.heap[r].next == s.heap[r].next)
    && (forall k :: HasLoc(t, k) <==> HasLoc(s, k))
  }

  lemma PutSameObjects(s: Store, l: Loc, v: VmVar)
    requires HasLoc(s, l)
    ensures SameObjects(s, Put(s, l, v))
  {
  }

  /** A variable moves from one location to another that held nothing. */
  lemma {:induction false} Move(s: Store, from: Loc, to: Loc)
    requires Counts(s, {})
    requires HasLoc(s, from) && HasLoc(s, to) && from != to && !Counted(VarAt(s, to))
    ensures SameObjects(s, Put(Put(s, to, VarAt(s, from)), from, UNDEFINED_VAR))
    ensures Counts(Put(Put(s, to, VarAt(s, from)), from, UNDEFINED_VAR), {})
  {
    var p := Put(s, to, VarAt(s, from));
    var t := Put(p, from, UNDEFINED_VAR);
    PutSameObjects(s, to, VarAt(s, from));
    PutSameObjects(p, from, UNDEFINED_VAR);
    MovedCounts(s, t, from, to);
  }

  ghost predicate Moved(s: Store, t: Store, from: Loc, to: Loc) {
    && HasLoc(s, from) && HasLoc(s, to) && from != to && !Counted(VarAt(s, to))
    && SameObjects(s, t)
    && (forall k :: HasLoc(s, k) ==>
          VarAt(t, k) == if k == from then UNDEFINED_VAR else if k == to then VarAt(s, from) else VarAt(s, k))
  }

  lemma {:induction false} MovedCounts(s: Store, t: Store, from: Loc, to: Loc)
    requires Counts(s, {}) && Moved(s, t, from, to)
    ensures Counts(t, {})
  {
    MovedHolders(s, t, from, to);
    MovedNoDangling(s, t, from, to);
    hide Moved, SameObjects, NoDangling;
    assert SameObjects(s, t) && HasLoc(s, from) && HasLoc(s, to) && from != to && !Counted(VarAt(s, to));
    forall q | q in t.heap && Countable(t.heap[q])
      ensures t.heap[q].ref == |Holders(t, {}, q)|
    {
      assert q in s.heap && s.heap[q] == t.heap[q];
      if Holds(s, from, q) {
        assert from in Holders(s, {}, q) && to !in Holders(s, {}, q);
      }
    }
  }

  lemma {:induction false} MovedNoDangling(s: Store, t: Store, from: Loc, to: Loc)
    requires NoDangling(s, {}) && Moved(s, t, from, to)
    ensures NoDangling(t, {})
  {
    forall k | HasLoc(t, k) && Counted(VarAt(t, k))
      ensures VarAt(t, k).val in t.heap && Matches(VarAt(t, k).kind, t.heap[VarAt(t, k).val])
    {
      var k' := if k == to then from else k;
      assert VarAt(t, k) == VarAt(s, k');
    }
  }

  lemma {:induction false} MovedHolders(s: Store, t: Store, from: Loc, to: Loc)
    requires Moved(s, t, from, to)
    ensures forall q ::
      Holders(t, {}, q) == if Holds(s, from, q) then Holders(s, {}, q) - {from} + {to} else Holders(s, {}, q)
  {
    forall q
      ensures Holders(t, {}, q) == if Holds(s, from, q) then Holders(s, {}, q) - {from} + {to} else Holders(s, {}, q)
    {
    }
  }

  /** Overwriting a variable that holds nothing by one that holds nothing changes no holder. */
  lemma {:induction false} PutUncounted(s: Store, pending: set<Loc>, l: Loc, v: VmVar)
    requires Counts(s, pending) && HasLoc(s, l) && l !in pending
    requires !Counted(VarAt(s, l)) && !Counted(v)
    ensures Counts(Put(s, l, v), pending)
  {
    var t := Put(s, l, v);
    forall q ensures Holders(t, pending, q) == Holders(s, pending, q) {
    }
    SameCounts(s, pending, t, pending);
  }

  /** Variable v appears at l, where nothing was held, and its object's count goes up by one. */
  ghost predicate Added(s: Store, t: Store, l: Loc, v: VmVar) {
    && HasLoc(s, l) && !Counted(VarAt(s, l))
    && Counted(v) && v.val in s.heap && Matches(v.kind, s.heap[v.val])
    && t.heap.Keys == s.heap.Keys
    && (forall r :: r in s.heap && Countable(s.heap[r]) ==>
          t.heap[r] == if r == v.val then WithRef(s.heap[r], s.heap[r].ref + 1) else s.heap[r])
    && (forall r :: HasNode(s, r) ==> HasNode(t, r) && t.heap[r].next == s.heap[r].next)
    && (forall k :: HasLoc(t, k) <==> HasLoc(s, k))
    && (forall k :: HasLoc(s, k) ==> VarAt(t, k) == if k == l then v else VarAt(s, k))
  }

  lemma {:induction false} AddCount(s: Store, t: Store, l: Loc, v: VmVar)
    requires Counts(s, {}) && Added(s, t, l, v)
    ensures Counts(t, {})
  {
    AddedHolders(s, t, l, v);
    forall q | q in t.heap && Countable(t.heap[q])
      ensures t.heap[q].ref == |Holders(t, {}, q)|
    {
      assert !HasNode(s, q);
      assert l !in Holders(s, {}, q);
    }
    AddedNoDangling(s, t, l, v);
  }

  lemma {:induction false} AddedNoDangling(s: Store, t: Store, l: Loc, v: VmVar)
    requires NoDangling(s, {}) && Added(s, t, l, v)
    ensures NoDangling(t, {})
  {
    forall k | HasLoc(t, k) && Counted(VarAt(t, k))
      ensures VarAt(t, k).val in t.heap && Matches(VarAt(t, k).kind, t.heap[VarAt(t, k).val])
    {
      var r := VarAt(t, k).val;
      assert r in s.heap && Matches(VarAt(t, k).kind, s.heap[r]);
      assert Countable(s.heap[r]);
    }
  }

  lemma {:induction false} AddedHolders(s: Store, t: Store, l: Loc, v: VmVar)
    requires HasLoc(s, l) && !Counted(VarAt(s, l)) && Counted(v)
    requires forall k :: HasLoc(t, k) <==> HasLoc(s, k)
    requires forall k :: HasLoc(s, k) ==> VarAt(t, k) == if k == l then v else VarAt(s, k)
    ensures forall q :: Holders(t, {}, q) == if q == v.val then Holders(s, {}, q) + {l} else Holders(s, {}, q)
  {
    forall q
      ensures Holders(t, {}, q) == if q == v.val then Holders(s, {}, q) + {l} else Holders(s, {}, q)
    {
    }
  }
}
