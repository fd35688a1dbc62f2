/** The steps of DecRef and ReleaseVariable on stores: each keeps the invariant, and the
    steps of one cascade add up to one set of freed objects. */
module VmCascade {
  import opened VmStore
  import opened VmStoreLemmas

  ghost predicate Lower(s: Store, t: Store) {
    forall r :: LiveObject(t, r) ==> LiveObject(s, r)
  }

  lemma {:induction false} DropCountSound(s: Store, chains: Chains, pending: set<Loc>, l: Loc)
    requires Sound(s, chains, pending) && Releasable(s, chains, l) && l !in pending && Counted(VarAt(s, l))
    ensures LiveObject(s, VarAt(s, l).val)
    ensures
      var r := VarAt(s, l).val;
      var t := SetRef(s, r, s.heap[r].ref - 1);
      Sound(t, chains, pending + {l}) && (forall q :: Holders(t, pending + {l}, q) == Holders(s, pending, q) - {l})
  {
    hide Counts;
    DropCount(s, pending, l);
    var r := VarAt(s, l).val;
    var t := SetRef(s, r, s.heap[r].ref - 1);
    assert Lists(t, chains) by { SameSkeleton(s, t, chains); }
  }

  lemma {:induction false} OverwriteSound(s: Store, chains: Chains, pending: set<Loc>, l: Loc)
    requires Sound(s, chains, pending) && l in pending
    ensures Sound(Put(s, l, UNDEFINED_VAR), chains, pending - {l})
    ensures forall q :: Holders(Put(s, l, UNDEFINED_VAR), pending - {l}, q) == Holders(s, pending, q)
  {
    Overwrite(s, pending, l);
    PutSameObjects(s, l, UNDEFINED_VAR);
    PutLists(s, chains, l, UNDEFINED_VAR);
  }

  lemma {:induction false} PutLists(s: Store, chains: Chains, l: Loc, v: VmVar)
    requires Lists(s, chains) && HasLoc(s, l)
    ensures Lists(Put(s, l, v), chains)
  {
    SameSkeleton(s, Put(s, l, v), chains);
  }

  /** Lists and pending locations survive the loss of a reference no live array uses. */
  lemma {:induction false} RemoveKeepsLists(s: Store, chains: Chains, r: Ref)
    requires Lists(s, chains)
    requires r in s.heap && !LiveObject(s, r) && Detached(s, chains, r)
    ensures Lists(s.(heap := s.heap - {r}), chains)
  {
    var t := s.(heap := s.heap - {r});
    forall a | LiveArray(t, a)
      ensures a in chains.list && Chain(t, t.heap[a].start, chains.list[a])
    {
      assert LiveArray(s, a);
      assert r !in chains.list[a];
    }
  }

  lemma RemoveKeepsPending(s: Store, chains: Chains, pending: set<Loc>, r: Ref)
    requires forall l :: l in pending ==> Releasable(s, chains, l) && (NodeSlot(l) ==> l.n != r)
    ensures forall l :: l in pending ==> Releasable(s.(heap := s.heap - {r}), chains, l)
  {
  }

  lemma {:induction false} FreeNodeSound(s: Store, chains: Chains, pending: set<Loc>, n: Ref)
    requires Sound(s, chains, pending)
    requires HasNode(s, n) && Detached(s, chains, n)
    requires NodeIdx(n) !in pending && NodeItem(n) !in pending
    requires !Counted(s.heap[n].idx) && !Counted(s.heap[n].item)
    ensures Sound(s.(heap := s.heap - {n}), chains, pending)
    ensures forall q :: Holders(s.(heap := s.heap - {n}), pending, q) == Holders(s, pending, q)
  {
    hide Counts, Lists;
    FreeNode(s, pending, n);
    RemoveKeepsLists(s, chains, n);
    RemoveKeepsPending(s, chains, pending, n);
  }

  lemma {:induction false} FreeObjectSound(s: Store, chains: Chains, pending: set<Loc>, r: Ref)
    requires Sound(s, chains, pending)
    requires r in s.heap && Countable(s.heap[r]) && s.heap[r].ref == 0
    ensures Sound(s.(heap := s.heap - {r}), chains, pending)
    ensures forall q :: Holders(s.(heap := s.heap - {r}), pending, q) == Holders(s, pending, q)
  {
    FreeObject(s, pending, r);
    OwnerIsNode(s, chains, r);
    hide Counts, Lists;
    RemoveKeepsLists(s, chains, r);
    RemoveKeepsPending(s, chains, pending, r);
  }

  lemma OwnerIsNode(s: Store, chains: Chains, r: Ref)
    requires Lists(s, chains) && r in s.heap && Countable(s.heap[r])
    ensures Detached(s, chains, r)
  {
  }

  /** g stays closed when only l or slots of g's own nodes stop holding. */
  lemma StaysClosed(s: Store, pending: set<Loc>, t: Store, pending': set<Loc>, chains: Chains,
                    g: set<Ref>, l: Loc)
    requires ClosedFor(s, chains, pending, g, l)
    requires Lower(s, t)
    requires forall q, k :: k in Holders(s, pending, q) ==>
      k in Holders(t, pending', q) || k == l || SlotOf(chains, g, k)
    ensures ClosedFor(t, chains, pending', g, l)
  {
  }

  /** An array whose last holder is l belongs to every closed set. */
  lemma {:induction false} LastHolder(s: Store, chains: Chains, pending: set<Loc>, g: set<Ref>, top: Loc, l: Loc)
    requires Counts(s, pending) && HasLoc(s, l) && l !in pending && Counted(VarAt(s, l))
    requires l == top || SlotOf(chains, g, l)
    requires ClosedFor(s, chains, pending, g, top)
    requires VarAt(s, l).val in s.heap && Countable(s.heap[VarAt(s, l).val]) && s.heap[VarAt(s, l).val].ref == 1
    ensures VarAt(s, l).val in g
  {
    var r := VarAt(s, l).val;
    assert l in Holders(s, pending, r) && |Holders(s, pending, r)| == 1;
    assert |Holders(s, pending, r) - {l}| == 0;
    assert Holders(s, pending, r) == {l};
  }

  /** The state inside DecRef's loop: the first k nodes of array a, and the objects f, are gone. */
  ghost predicate Cleaning(s1: Store, s: Store, chains: Chains, a: Ref, c: seq<Ref>, k: nat, f: set<Ref>) {
    && k <= |c|
    && Frees(s1, s, chains, f, set i | 0 <= i < k :: c[i])
    && a in s.heap && a !in f
    && (forall i :: k <= i < |c| ==> c[i] in s.heap)
  }

  /** Array a has no holder left, and c is its list. */
  ghost predicate Dying(s1: Store, chains: Chains, a: Ref, c: seq<Ref>) {
    && a in s1.heap && s1.heap[a].VmArray? && s1.heap[a].ref == 0 && a !in chains.owner
    && Chain(s1, s1.heap[a].start, c)
    && (forall i :: 0 <= i < |c| ==> c[i] in chains.owner && chains.owner[c[i]] == a)
  }

  /** No pending location lies in a node of array a. */
  ghost predicate Elsewhere(chains: Chains, pending: set<Loc>, a: Ref) {
    forall q :: q in pending && NodeSlot(q) && q.n in chains.owner ==> chains.owner[q.n] != a
  }

  lemma {:induction false} CleanStep(s1: Store, sk: Store, sa: Store, sb: Store, chains: Chains, a: Ref, c: seq<Ref>,
                                     k: nat,
                  f: set<Ref>, fa: set<Ref>, fb: set<Ref>)
    requires Dying(s1, chains, a, c) && k < |c| && Cleaning(s1, sk, chains, a, c, k, f)
    requires HasNode(sk, c[k]) && Frees(Put(sk, NodeIdx(c[k]), UNDEFINED_VAR), sa, chains, fa, {})
    requires HasNode(sa, c[k]) && Frees(Put(sa, NodeItem(c[k]), UNDEFINED_VAR), sb, chains, fb, {})
    ensures Cleaning(s1, sb.(heap := sb.heap - {c[k]}), chains, a, c, k + 1, f + fa + fb)
  {
    var n := c[k];
    var pa := Put(sk, NodeIdx(n), UNDEFINED_VAR);
    var pb := Put(sa, NodeItem(n), UNDEFINED_VAR);
    var t := sb.(heap := sb.heap - {n});
    var cut := set i | 0 <= i < k :: c[i];
    assert (set i | 0 <= i < k + 1 :: c[i]) == cut + {n};
    assert NodesOf(chains, f + fa + fb) == NodesOf(chains, f) + NodesOf(chains, fa) + NodesOf(chains, fb);
    forall r | r in t.heap
      ensures r in s1.heap && SameButRef(s1.heap[r], t.heap[r])
    {
      assert SameButRef(pb.heap[r], sb.heap[r]) && pb.heap[r] == sa.heap[r];
      assert SameButRef(pa.heap[r], sa.heap[r]) && pa.heap[r] == sk.heap[r];
    }
    StillLive(s1, sk, chains, f, cut, pa);
    assert forall r :: r in fa ==> LiveObject(s1, r);
    forall r | r in fb
      ensures LiveObject(s1, r)
    {
      assert LiveObject(sa, r) && r != n;
      assert LiveObject(pa, r);
    }
    assert a !in fa && a !in fb;
    RestStays(s1, sk, sa, sb, chains, a, c, k, f, fa, fb);
  }

  lemma {:induction false} RestStays(s1: Store, sk: Store, sa: Store, sb: Store, chains: Chains, a: Ref, c: seq<Ref>,
                                     k: nat,
                  f: set<Ref>, fa: set<Ref>, fb: set<Ref>)
    requires Dying(s1, chains, a, c) && k < |c| && Cleaning(s1, sk, chains, a, c, k, f)
    requires HasNode(sk, c[k]) && Frees(Put(sk, NodeIdx(c[k]), UNDEFINED_VAR), sa, chains, fa, {})
    requires HasNode(sa, c[k]) && Frees(Put(sa, NodeItem(c[k]), UNDEFINED_VAR), sb, chains, fb, {})
    requires a !in fa && a !in fb
    ensures forall i :: k + 1 <= i < |c| ==> c[i] in sb.heap && c[i] != c[k]
  {
    var pa := Put(sk, NodeIdx(c[k]), UNDEFINED_VAR);
    forall i | k + 1 <= i < |c|
      ensures c[i] in sb.heap && c[i] != c[k]
    {
      assert c[i] != c[k] && c[i] in sk.heap && sk.heap[c[i]] == s1.heap[c[i]];
      assert c[i] !in NodesOf(chains, fa) && c[i] !in fa;
      assert pa.heap[c[i]] == sk.heap[c[i]];
      assert c[i] in sa.heap && sa.heap[c[i]] == pa.heap[c[i]];
    }
  }

  lemma {:induction false} StillLive(s1: Store, sk: Store, chains: Chains, f: set<Ref>, cut: set<Ref>, pa: Store)
    requires Frees(s1, sk, chains, f, cut) && SameObjects(sk, pa)
    ensures forall r :: LiveObject(pa, r) ==> LiveObject(s1, r)
  {
    forall r | LiveObject(pa, r)
      ensures LiveObject(s1, r)
    {
      assert !HasNode(sk, r);
      assert LiveObject(sk, r);
    }
  }

  // ---------- The two ends of DecRef ----------

  lemma {:induction false} DropStep(s: Store, chains: Chains, pending: set<Loc>, g: set<Ref>, top: Loc, l: Loc)
    requires Sound(s, chains, pending) && Releasable(s, chains, l) && l !in pending && Counted(VarAt(s, l))
    requires (l == top || SlotOf(chains, g, l)) && ClosedFor(s, chains, pending, g, top)
    ensures LiveObject(s, VarAt(s, l).val) && Lists(s, chains)
    ensures
      var r := VarAt(s, l).val;
      var t := SetRef(s, r, s.heap[r].ref - 1);
      && Sound(t, chains, pending + {l})
      && ClosedFor(t, chains, pending + {l}, g, top)
      && Elsewhere(chains, pending + {l}, r)
      && (t.heap[r].ref == 0 ==> r in g)
  {
    hide Lists, Counts, ClosedFor;
    DropCountSound(s, chains, pending, l);
    var r := VarAt(s, l).val;
    var t := SetRef(s, r, s.heap[r].ref - 1);
    if t.heap[r].ref == 0 {
      LastHolder(s, chains, pending, g, top, l);
    }
    OwnerIsArray(s, chains, r);
    StaysClosed(s, pending, t, pending + {l}, chains, g, top);
  }

  lemma OwnerIsArray(s: Store, chains: Chains, r: Ref)
    requires Lists(s, chains) && LiveObject(s, r)
    ensures forall n :: n in chains.owner && chains.owner[n] == r ==> LiveArray(s, r)
  {
  }

  lemma StartDying(s: Store, chains: Chains, r: Ref)
    requires Lists(s, chains) && LiveArray(s, r) && s.heap[r].ref == 1
    ensures r in chains.list && Dying(SetRef(s, r, 0), chains, r, chains.list[r])
  {
  }

  lemma DropFrees(s: Store, chains: Chains, r: Ref)
    requires LiveObject(s, r) && s.heap[r].ref > 1
    ensures Frees(s, SetRef(s, r, s.heap[r].ref - 1), chains, {}, {})
  {
  }

  lemma {:induction false} FreeStep(s: Store, chains: Chains, pending: set<Loc>, g: set<Ref>, top: Loc, r: Ref)
    requires Sound(s, chains, pending) && ClosedFor(s, chains, pending, g, top)
    requires r in s.heap && Countable(s.heap[r]) && s.heap[r].ref == 0
    ensures Sound(s.(heap := s.heap - {r}), chains, pending)
    ensures ClosedFor(s.(heap := s.heap - {r}), chains, pending, g, top)
  {
    FreeObjectSound(s, chains, pending, r);
    StaysClosed(s, pending, s.(heap := s.heap - {r}), pending, chains, g, top);
  }

  /** The whole list gone and the array freed: one more object in the freed set. */
  lemma {:induction false} EndArray(s: Store, s1: Store, s2: Store, chains: Chains, r: Ref, f: set<Ref>)
    requires Lists(s, chains) && LiveArray(s, r) && r in chains.list && s.heap[r].ref == 1
    requires s1 == SetRef(s, r, 0)
    requires Cleaning(s1, s2, chains, r, chains.list[r], |chains.list[r]|, f)
    ensures Frees(s, s2.(heap := s2.heap - {r}), chains, f + {r}, {})
  {
    var c := chains.list[r];
    var cut := set i | 0 <= i < |c| :: c[i];
    forall n
      ensures n in NodesOf(chains, f + {r}) <==> n in NodesOf(chains, f) + cut
    {
      if n in chains.owner && chains.owner[n] == r {
        assert n in c;
      }
    }
    assert NodesOf(chains, f + {r}) == NodesOf(chains, f) + cut;
  }

  /** Strings and vectors own no node. */
  lemma {:induction false} EndLeaf(s: Store, s1: Store, chains: Chains, r: Ref)
    requires Lists(s, chains) && LiveObject(s, r) && !s.heap[r].VmArray? && s.heap[r].ref == 1
    requires s1 == SetRef(s, r, 0)
    ensures Frees(s, s1.(heap := s1.heap - {r}), chains, {r}, {})
  {
    forall n ensures n !in NodesOf(chains, {r}) {
      assert n in chains.owner && chains.owner[n] in s.heap ==> s.heap[chains.owner[n]].VmArray?;
    }
  }

  /** A variable that counts nothing may be pending without any change. */
  lemma {:induction false} UncountedPending(s: Store, chains: Chains, pending: set<Loc>, g: set<Ref>, top: Loc, l: Loc)
    requires Sound(s, chains, pending) && Releasable(s, chains, l) && !Counted(VarAt(s, l))
    requires ClosedFor(s, chains, pending, g, top)
    ensures Sound(s, chains, pending + {l}) && ClosedFor(s, chains, pending + {l}, g, top)
    ensures Frees(s, s, chains, {}, {})
  {
    forall q ensures Holders(s, pending + {l}, q) == Holders(s, pending, q) {
    }
  }

  lemma {:induction false} OverwriteStep(s: Store, chains: Chains, pending: set<Loc>, g: set<Ref>, top: Loc, l: Loc)
    requires Sound(s, chains, pending) && l in pending && ClosedFor(s, chains, pending, g, top)
    ensures Sound(Put(s, l, UNDEFINED_VAR), chains, pending - {l})
    ensures ClosedFor(Put(s, l, UNDEFINED_VAR), chains, pending - {l}, g, top)
  {
    OverwriteSound(s, chains, pending, l);
    var t := Put(s, l, UNDEFINED_VAR);
    PutSameObjects(s, l, UNDEFINED_VAR);
    forall r | LiveObject(t, r) ensures LiveObject(s, r) {
      assert !HasNode(s, r);
    }
    StaysClosed(s, pending, t, pending - {l}, chains, g, top);
  }

  /** Overwriting a variable commutes with a cascade that leaves it alone. */
  lemma {:induction false} PutFrees(s: Store, t: Store, chains: Chains, f: set<Ref>, l: Loc)
    requires HasLoc(s, l) && HasLoc(t, l) && Frees(s, t, chains, f, {})
    ensures Frees(Put(s, l, UNDEFINED_VAR), Put(t, l, UNDEFINED_VAR), chains, f, {})
  {
    PutSameObjects(s, l, UNDEFINED_VAR);
  }

  lemma {:induction false} StartCleaning(s: Store, chains: Chains, a: Ref, c: seq<Ref>)
    requires Dying(s, chains, a, c)
    ensures Cleaning(s, s, chains, a, c, 0, {})
  {
    assert NodesOf(chains, {}) == {};
  }

  /** Detached nodes survive a cascade that frees live objects only. */
  lemma DetachedStays(s: Store, t: Store, chains: Chains, f: set<Ref>, n: Ref)
    requires Frees(s, t, chains, f, {}) && HasNode(s, n) && Detached(s, chains, n)
    requires forall r :: r in f && r in chains.owner ==> HasNode(s, r)
    requires n in chains.owner && chains.owner[n] in s.heap && s.heap[chains.owner[n]].VmArray?
    ensures HasNode(t, n) && t.heap[n] == s.heap[n] && Detached(t, chains, n)
  {
  }

  lemma {:induction false} FreeNodeStep(s: Store, chains: Chains, pending: set<Loc>, g: set<Ref>, top: Loc, n: Ref)
    requires Sound(s, chains, pending) && ClosedFor(s, chains, pending, g, top)
    requires HasNode(s, n) && Detached(s, chains, n)
    requires NodeIdx(n) !in pending && NodeItem(n) !in pending
    requires !Counted(s.heap[n].idx) && !Counted(s.heap[n].item)
    ensures Sound(s.(heap := s.heap - {n}), chains, pending)
    ensures ClosedFor(s.(heap := s.heap - {n}), chains, pending, g, top)
  {
    FreeNodeSound(s, chains, pending, n);
    StaysClosed(s, pending, s.(heap := s.heap - {n}), pending, chains, g, top);
  }

  // ---------- The body of DecRef's loop ----------

  lemma {:induction false} FirstSlot(s1: Store, s: Store, chains: Chains, pending: set<Loc>, g: set<Ref>, a: Ref,
                                     c: seq<Ref>, k: nat, f: set<Ref>)
    requires Dying(s1, chains, a, c) && k < |c| && Cleaning(s1, s, chains, a, c, k, f) && Elsewhere(chains, pending, a)
    requires a in g
    ensures HasNode(s, c[k]) && HasNode(s1, c[k]) && s.heap[c[k]] == s1.heap[c[k]] && Detached(s, chains, c[k])
    ensures NodeIdx(c[k]) !in pending && NodeItem(c[k]) !in pending
    ensures SlotOf(chains, g, NodeIdx(c[k])) && SlotOf(chains, g, NodeItem(c[k]))
    ensures LiveArrays(s) <= LiveArrays(s1) && a !in LiveArrays(s)
    ensures s1.heap[c[k]].next == if k + 1 < |c| then c[k + 1] else NULL_REF
  {
    assert SameButRef(s1.heap[a], s.heap[a]);
    forall r | r in LiveArrays(s) ensures r in LiveArrays(s1) {
      assert SameButRef(s1.heap[r], s.heap[r]);
    }
  }

  lemma {:induction false} SecondSlot(s1: Store, sk: Store, sa: Store, chains: Chains, pending: set<Loc>, g: set<Ref>,
                                      a: Ref, c: seq<Ref>,
                   k: nat, f: set<Ref>, fa: set<Ref>)
    requires Dying(s1, chains, a, c) && k < |c| && Cleaning(s1, sk, chains, a, c, k, f) && Elsewhere(chains, pending, a)
    requires a in g && Sound(sk, chains, pending)
    requires HasNode(sk, c[k]) && Frees(Put(sk, NodeIdx(c[k]), UNDEFINED_VAR), sa, chains, fa, {})
    ensures HasNode(sa, c[k]) && Detached(sa, chains, c[k])
    ensures sa.heap[c[k]] == sk.heap[c[k]].(idx := UNDEFINED_VAR)
    ensures LiveArrays(sa) <= LiveArrays(s1) && a !in LiveArrays(sa)
    ensures c[k] in chains.owner && chains.owner[c[k]] == a && a in sa.heap
  {
    var p := Put(sk, NodeIdx(c[k]), UNDEFINED_VAR);
    FirstSlot(s1, sk, chains, pending, g, a, c, k, f);
    DetachedStays(p, sa, chains, fa, c[k]);
    forall r | r in LiveArrays(sa) ensures r in LiveArrays(sk) {
      assert SameButRef(p.heap[r], sa.heap[r]);
    }
  }

  lemma {:induction false} ThirdStore(sa: Store, sb: Store, chains: Chains, pending: set<Loc>, n: Ref, fb: set<Ref>)
    requires Sound(sa, chains, pending) && HasNode(sa, n) && Detached(sa, chains, n)
    requires n in chains.owner && chains.owner[n] in sa.heap
    requires Frees(Put(sa, NodeItem(n), UNDEFINED_VAR), sb, chains, fb, {})
    ensures HasNode(sb, n) && Detached(sb, chains, n) && sb.heap[n] == sa.heap[n].(item := UNDEFINED_VAR)
  {
    DetachedStays(Put(sa, NodeItem(n), UNDEFINED_VAR), sb, chains, fb, n);
  }

  lemma {:induction false} NodeReleased(s1: Store, sk: Store, sa: Store, sb: Store, chains: Chains, pending: set<Loc>,
                                        g: set<Ref>, top: Loc,
                     a: Ref, c: seq<Ref>, k: nat, f: set<Ref>, fa: set<Ref>, fb: set<Ref>)
    requires Dying(s1, chains, a, c) && k < |c| && Cleaning(s1, sk, chains, a, c, k, f) && Elsewhere(chains, pending, a)
    requires a in g && Sound(sk, chains, pending) && Sound(sa, chains, pending)
    requires Sound(sb, chains, pending) && ClosedFor(sb, chains, pending, g, top)
    requires HasNode(sk, c[k]) && Frees(Put(sk, NodeIdx(c[k]), UNDEFINED_VAR), sa, chains, fa, {})
    requires HasNode(sa, c[k]) && Frees(Put(sa, NodeItem(c[k]), UNDEFINED_VAR), sb, chains, fb, {})
    ensures HasNode(sb, c[k]) && sb.heap[c[k]].next == if k + 1 < |c| then c[k + 1] else NULL_REF
    ensures Sound(sb.(heap := sb.heap - {c[k]}), chains, pending)
    ensures ClosedFor(sb.(heap := sb.heap - {c[k]}), chains, pending, g, top)
    ensures Cleaning(s1, sb.(heap := sb.heap - {c[k]}), chains, a, c, k + 1, f + fa + fb)
  {
    hide Sound, ClosedFor, Cleaning, Dying;
    FirstSlot(s1, sk, chains, pending, g, a, c, k, f);
    SecondSlot(s1, sk, sa, chains, pending, g, a, c, k, f, fa);
    ThirdStore(sa, sb, chains, pending, c[k], fb);
    assert s1.heap[c[k]].next == if k + 1 < |c| then c[k + 1] else NULL_REF;
    CleanStep(s1, sk, sa, sb, chains, a, c, k, f, fa, fb);
    FreeNodeStep(sb, chains, pending, g, top, c[k]);
  }

  /** A pending variable and the dying array are left alone by the cleaning. */
  lemma {:induction false} Cleaned(s1: Store, s: Store, chains: Chains, pending: set<Loc>, a: Ref, c: seq<Ref>, k: nat,
                                   f: set<Ref>, l: Loc)
    requires Dying(s1, chains, a, c) && Cleaning(s1, s, chains, a, c, k, f)
    requires Sound(s1, chains, pending) && Sound(s, chains, pending) && l in pending
    ensures a in s.heap && s.heap[a].VmArray? && s.heap[a].ref == 0
    ensures HasLoc(s1, l) && HasLoc(s, l) && VarAt(s, l) == VarAt(s1, l)
    ensures k < |c| ==> c[k] != NULL_REF
  {
    assert SameButRef(s1.heap[a], s.heap[a]);
    if NodeSlot(l) {
      assert SameButRef(s1.heap[l.n], s.heap[l.n]);
    }
  }

  lemma LiveArraysAfterDrop(s: Store, r: Ref)
    requires LiveObject(s, r) && s.heap[r].ref == 1
    ensures s.heap[r].VmArray? ==> LiveArrays(SetRef(s, r, 0)) + {r} == LiveArrays(s)
    ensures !s.heap[r].VmArray? ==> LiveArrays(SetRef(s, r, 0)) == LiveArrays(s)
  {
  }
}
