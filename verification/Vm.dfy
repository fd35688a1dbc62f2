/** The script VM's reference counting. */
module Vm {
  import opened Options
  import opened VmStore
  import opened VmStoreLemmas
  import opened VmCascade
  import opened VmRelease
  import opened VmCleanup
  import opened VmPool

  /** The new variable at `slot` is undefined, or has been moved there from the stack. */
  ghost predicate Taken(s: Store, t: Store, from: Option<nat>, slot: FieldRef) {
    && 0 <= slot < |s.fields| == |t.fields| && t.heap == s.heap
    && (forall i :: 0 <= i < |s.fields| && i != slot ==> t.fields[i] == s.fields[i])
    && if from.None? || from.value >= |s.roots| || s.roots[from.value].kind == Location
       then t.roots == s.roots && t.fields[slot].v == UNDEFINED_VAR
       else t.roots == s.roots[from.value := UNDEFINED_VAR] && t.fields[slot].v == s.roots[from.value]
  }

  /** One step of a run: what the opcode handlers ask of the operations below. */
  datatype Op =
    | CreateVarOp(from: Option<nat>)
    | CleanupOp
    | EnterFrame(index: nat)
    | SetVarOp(id: nat, from: Option<nat>)
    | ReleaseOp(slot: nat)
    | StringOp(slot: nat, ref: Ref)

  class ActsVm {
    var heap: map<Ref, Object>
    var roots: seq<VmVar>
    var fields: seq<VmField>
    var fieldFree: FieldRef
    var frames: seq<Frame>
    var frame: nat

    ghost var freeList: seq<FieldRef>
    ghost var chains: Chains
    ghost var pending: set<Loc>

    function Snapshot(): Store
      reads this
    {
      Store(heap, roots, fields)
    }

    ghost predicate Sound()
      reads this
    {
      VmStore.Sound(Snapshot(), chains, pending)
    }

    method Assign(l: Loc, v: VmVar)
      requires HasLoc(Snapshot(), l)
      modifies `heap, `roots, `fields
      ensures Snapshot() == Put(old(Snapshot()), l, v)
    {
      match l
      case Root(i) => roots := roots[i := v];
      case Field(f) => fields := fields[f := fields[f].(v := v)];
      case NodeIdx(n) => heap := heap[n := heap[n].(idx := v)];
      case NodeItem(n) => heap := heap[n := heap[n].(item := v)];
    }

    /** Gives up the count of the variable at l. The variable itself stays, pending.
        `g` is any closed set of objects; `f` is what the cascade frees. */
    method DecRef(l: Loc, ghost g: set<Ref>, ghost top: Loc) returns (ghost f: set<Ref>)
      requires Sound() && Releasable(Snapshot(), chains, l) && l !in pending
      requires l == top || SlotOf(chains, g, l)
      requires ClosedFor(Snapshot(), chains, pending, g, top)
      modifies `heap, `roots, `fields, `pending
      ensures Sound() && pending == old(pending) + {l}
      ensures f <= g && Frees(old(Snapshot()), Snapshot(), chains, f, {})
      ensures ClosedFor(Snapshot(), chains, pending, g, top)
      decreases LiveArrays(Snapshot()), 3
    {
      hide VmStore.Sound, ClosedFor, Frees;
      f := {};
      ghost var s0 := Snapshot();
      var v := VarAt(Snapshot(), l);
      if Counted(v) {
        DropStep(s0, chains, pending, g, top, l);
        var r := v.val;
        heap := heap[r := WithRef(heap[r], heap[r].ref - 1)];
        pending := pending + {l};
        if heap[r].ref > 0 {
          DropFrees(s0, chains, r);
        } else {
          f := FreeHeld(r, l, s0, g, top);
        }
      } else {
        pending := pending + {l};
        UncountedPending(s0, chains, old(pending), g, top, l);
      }
    }

    /** DecRef's branch for a count that has reached zero. */
    method FreeHeld(r: Ref, l: Loc, ghost s0: Store, ghost g: set<Ref>, ghost top: Loc) returns (ghost f: set<Ref>)
      requires Sound() && l in pending && HasLoc(Snapshot(), l) && VarAt(Snapshot(), l).val == r
      requires Lists(s0, chains) && LiveObject(s0, r) && s0.heap[r].ref == 1 && Snapshot() == SetRef(s0, r, 0)
      requires r in g && ClosedFor(Snapshot(), chains, pending, g, top) && Elsewhere(chains, pending, r)
      modifies `heap, `roots, `fields, `pending
      ensures Sound() && pending == old(pending)
      ensures f <= g && Frees(s0, Snapshot(), chains, f, {})
      ensures ClosedFor(Snapshot(), chains, pending, g, top)
      decreases LiveArrays(s0), 2
    {
      hide VmStore.Sound, ClosedFor, Cleaning, Dying;
      ghost var s1 := Snapshot();
      f := {};
      if heap[r].VmArray? {
        StartDying(s0, chains, r);
        LiveArraysAfterDrop(s0, r);
        f := CleanNodes(r, l, g, top);
        Cleaned(s1, Snapshot(), chains, pending, r, chains.list[r], |chains.list[r]|, f, l);
        EndArray(s0, s1, Snapshot(), chains, r, f);
      } else {
        EndLeaf(s0, s1, chains, r);
      }
      FreeStep(Snapshot(), chains, pending, g, top, r);
      heap := heap - {VarAt(Snapshot(), l).val};
      f := f + {r};
    }

    /** The loop of DecRef: releases and frees every node of array a, whose count is zero. */
    method CleanNodes(a: Ref, l: Loc, ghost g: set<Ref>, ghost top: Loc) returns (ghost f: set<Ref>)
      requires Sound() && l in pending
      requires Elsewhere(chains, pending, a)
      requires a in heap && heap[a].VmArray? && a in chains.list && Dying(Snapshot(), chains, a, chains.list[a])
      requires a in g && ClosedFor(Snapshot(), chains, pending, g, top)
      modifies `heap, `roots, `fields, `pending
      ensures Sound() && pending == old(pending)
      ensures f <= g && Cleaning(old(Snapshot()), Snapshot(), chains, a, chains.list[a], |chains.list[a]|, f)
      ensures ClosedFor(Snapshot(), chains, pending, g, top)
      decreases LiveArrays(Snapshot()) + {a}, 1
    {
      hide VmStore.Sound, ClosedFor, Cleaning;
      ghost var s1 := Snapshot();
      ghost var c := chains.list[a];
      ghost var k: nat := 0;
      f := {};
      var node := heap[a].start;
      StartCleaning(s1, chains, a, c);
      while node != NULL_REF
        invariant Sound() && pending == old(pending)
        invariant k <= |c| && f <= g && Cleaning(s1, Snapshot(), chains, a, c, k, f)
        invariant node == if k < |c| then c[k] else NULL_REF
        invariant ClosedFor(Snapshot(), chains, pending, g, top)
        decreases |c| - k
      {
        ghost var f' := ReleaseNode(node, a, k, s1, f, g, top);
        var next := heap[node].next;
        heap := heap - {node};
        node := next;
        f, k := f + f', k + 1;
      }
      Cleaned(s1, Snapshot(), chains, pending, a, c, k, f, l);
    }

    /** The loop body of DecRef up to the node's release: both its variables go. */
    method ReleaseNode(n: Ref, ghost a: Ref, ghost k: nat, ghost s1: Store, ghost f: set<Ref>, ghost g: set<Ref>,
                       ghost top: Loc)
      returns (ghost f': set<Ref>)
      requires Sound() && Elsewhere(chains, pending, a)
      requires a in chains.list && Dying(s1, chains, a, chains.list[a]) && k < |chains.list[a]|
      requires n == chains.list[a][k]
      requires Cleaning(s1, Snapshot(), chains, a, chains.list[a], k, f)
      requires a in g && ClosedFor(Snapshot(), chains, pending, g, top)
      modifies `heap, `roots, `fields, `pending
      ensures pending == old(pending) && n in heap && heap[n].VmArrayNode?
      ensures heap[n].next == if k + 1 < |chains.list[a]| then chains.list[a][k + 1] else NULL_REF
      ensures VmStore.Sound(Snapshot().(heap := heap - {n}), chains, pending)
      ensures f' <= g && Cleaning(s1, Snapshot().(heap := heap - {n}), chains, a, chains.list[a], k + 1, f + f')
      ensures ClosedFor(Snapshot().(heap := heap - {n}), chains, pending, g, top)
      decreases LiveArrays(s1) + {a}, 0
    {
      hide VmStore.Sound, ClosedFor, Cleaning, Dying, Frees;
      ghost var c := chains.list[a];
      ghost var sk := Snapshot();
      FirstSlot(s1, sk, chains, pending, g, a, c, k, f);
      ghost var fa := ReleaseVariable(NodeIdx(n), g, top);
      ghost var sa := Snapshot();
      SecondSlot(s1, sk, sa, chains, pending, g, a, c, k, f, fa);
      ghost var fb := ReleaseVariable(NodeItem(n), g, top);
      NodeReleased(s1, sk, sa, Snapshot(), chains, pending, g, top, a, c, k, f, fa, fb);
      f' := fa + fb;
      assert f + f' == f + fa + fb;
    }

    method ReleaseVariable(l: Loc, ghost g: set<Ref>, ghost top: Loc) returns (ghost f: set<Ref>)
      requires Sound() && Releasable(Snapshot(), chains, l) && l !in pending
      requires l == top || SlotOf(chains, g, l)
      requires ClosedFor(Snapshot(), chains, pending, g, top)
      modifies `heap, `roots, `fields, `pending
      ensures Sound() && pending == old(pending)
      ensures f <= g && Frees(Put(old(Snapshot()), l, UNDEFINED_VAR), Snapshot(), chains, f, {})
      ensures ClosedFor(Snapshot(), chains, pending, g, top)
      decreases LiveArrays(Snapshot()), 4
    {
      f := DecRef(l, g, top);
      ghost var s2 := Snapshot();
      Assign(l, UNDEFINED_VAR);
      OverwriteStep(s2, chains, pending, g, top, l);
      PutFrees(old(Snapshot()), s2, chains, f, l);
      pending := pending - {l};
    }

    // ---------- Operations outside any cascade ----------

    /** Between operations: no variable is pending, counts are exact, slots are conserved. */
    ghost predicate Valid()
      reads this
    {
      Sound() && pending == {} && Pool(fields, fieldFree, freeList, frames, multiset{}) && frame < |frames|
    }

    /** Releases a variable outside the heap: exactly the doomed objects go. */
    method Release(l: Loc) returns (ghost f: set<Ref>)
      requires Sound() && pending == {} && HasLoc(Snapshot(), l) && !NodeSlot(l)
      modifies `heap, `roots, `fields, `pending
      ensures Sound() && pending == {}
      ensures f == Doomed(old(Snapshot()), chains, l)
      ensures Released(old(Snapshot()), Snapshot(), chains, l)
      ensures HasLoc(Snapshot(), l) && VarAt(Snapshot(), l) == UNDEFINED_VAR
      ensures ByKind(old(Snapshot()), Snapshot(), l)
    {
      hide VmStore.Sound, ClosedFor, Frees;
      ghost var s := Snapshot();
      ghost var d := Doomed(s, chains, l);
      DoomedIsClosed(s, chains, l);
      f := ReleaseVariable(l, d, l);
      FreedIsClosed(s, Snapshot(), chains, l, f);
      assert f == d;
      ReleasedByKind(s, Snapshot(), chains, l);
      UndefinedAfter(s, Snapshot(), chains, f, l);
    }

    method AddStringRef(slot: nat, ref: Ref)
      requires Valid()
      requires slot < |roots| && !Counted(roots[slot])
      requires ref in heap && heap[ref].VmString?
      modifies `heap, `roots
      ensures Valid()
      ensures roots == old(roots)[slot := VmVar(String, ref)]
      ensures heap == old(heap)[ref := WithRef(old(heap)[ref], old(heap)[ref].ref + 1)]
    {
      hide VmStore.Sound, Pool;
      ghost var s := Snapshot();
      roots := roots[slot := VmVar(String, ref)];
      heap := heap[ref := WithRef(heap[ref], heap[ref].ref + 1)];
      AddStringSound(s, Snapshot(), chains, slot, ref);
    }

    /** Takes the head of the free list; moves the variable of stack slot `from` into it.
        Throws, changing nothing, when no slot is free. The slot is then held nowhere. */
    method CreateField(from: Option<nat>) returns (r: Option<FieldRef>)
      requires Valid() && (from.Some? ==> from.value < |roots|)
      modifies `roots, `fields, `fieldFree, `freeList
      ensures r.None? <==> old(freeList) == []
      ensures r.None? ==> Valid() && freeList == old(freeList) && Snapshot() == old(Snapshot())
      ensures r.Some? ==> old(freeList) == [r.value] + freeList && 0 <= r.value < |old(fields)| == |fields|
      ensures r.Some? ==> Sound() && Pool(fields, fieldFree, freeList, frames, multiset{r.value})
      ensures r.Some? ==> fields[r.value].v == if from.None? then UNDEFINED_VAR else old(roots)[from.value]
      ensures r.Some? ==> roots == if from.None? then old(roots) else old(roots)[from.value := UNDEFINED_VAR]
      ensures heap == old(heap)
      ensures r.Some? ==> forall i :: 0 <= i < |fields| && i != r.value ==> fields[i] == old(fields)[i]
    {
      hide VmStore.Sound, Partition, FreeChain;
      EmptyList(fields, fieldFree, freeList, frames, multiset{});
      if fieldFree == INVALID_FIELD_REF {
        return None;
      }
      var f := fieldFree;
      ghost var s := Snapshot();
      TakeHead(fields, fieldFree, freeList, frames, fields);
      fieldFree := fields[f].data;
      match from {
        case Some(i) =>
          MoveSound(s, chains, Root(i), Field(f));
          fields := fields[f := fields[f].(v := roots[i])];
          roots := roots[i := UNDEFINED_VAR];
          assert Snapshot() == Put(Put(s, Field(f), VarAt(s, Root(i))), Root(i), UNDEFINED_VAR);
        case None =>
          PutUncountedSound(s, chains, Field(f), UNDEFINED_VAR);
          fields := fields[f := VmField(UNDEFINED_VAR, 0)];
          LinkIsNoVariable(Put(s, Field(f), UNDEFINED_VAR), Snapshot(), chains);
      }
      TakeHead(s.fields, f, freeList, frames, fields);
      freeList := freeList[1..];
      r := Some(f);
    }

    /** A new variable of the current frame; the source writes past varFields when the
        frame already has FRAME_VARS of them. Throws, changing nothing, when no slot is free. */
    method CreateVar(from: Option<nat>) returns (thrown: bool)
      requires Valid() && (from.Some? ==> from.value < |roots|)
      requires frames[frame].numVars < FRAME_VARS
      modifies `roots, `fields, `fieldFree, `freeList, `frames
      ensures Valid() && thrown == (old(freeList) == []) && |roots| == |old(roots)|
      ensures thrown ==> freeList == old(freeList) && frames == old(frames) && Snapshot() == old(Snapshot())
      ensures !thrown ==> old(freeList) == [old(freeList)[0]] + freeList
      ensures !thrown ==> NewVar(old(frames), frames, frame, old(freeList)[0])
      ensures !thrown ==> Taken(old(Snapshot()), Snapshot(), from, old(freeList)[0])
    {
      hide VmStore.Sound, FreeChain, Partition;
      GoodFrameAt(|fields|, freeList, frames, multiset{}, frame);
      var r := CreateField(if from.None? || roots[from.value].kind == Location then None else from);
      if r.None? {
        return true;
      }
      StoreInFrame(|fields|, freeList, frames, frame, r.value);
      var f := frames[frame];
      frames := frames[frame := VmFunctionFrame(f.numVars + 1, f.varFields[f.numVars := r.value])];
      thrown := false;
    }

    /** Releases the variable of a slot and puts the slot in front of the free list. The
        slot is one of `loose`, those neither free nor held by the frames `held`. `mid` is the
        store between the two. */
    method ReleaseField(field: FieldRef, ghost held: seq<Frame>, ghost loose: multiset<FieldRef>)
      returns (ghost mid: Store)
      requires Sound() && pending == {} && Pool(fields, fieldFree, freeList, held, loose)
      requires field == INVALID_FIELD_REF || field in loose
      modifies `heap, `roots, `fields, `pending, `fieldFree, `freeList
      ensures Sound() && pending == {} && roots == old(roots)
      ensures field == INVALID_FIELD_REF ==> freeList == old(freeList) && Snapshot() == old(Snapshot())
      ensures field != INVALID_FIELD_REF ==>
        && freeList == [field] + old(freeList)
        && Pool(fields, fieldFree, freeList, held, loose - multiset{field})
        && 0 <= field < |old(fields)| && fields == old(fields)[field := VmField(UNDEFINED_VAR, old(fieldFree))]
        && Released(old(Snapshot()), mid, chains, Field(field)) && ByKind(old(Snapshot()), mid, Field(field))
        && heap == mid.heap && roots == mid.roots && |fields| == |mid.fields|
        && (forall i :: 0 <= i < |fields| ==> fields[i].v == mid.fields[i].v)
    {
      hide VmStore.Sound, FreeChain, Partition, Released, ByKind;
      mid := Snapshot();
      if field == INVALID_FIELD_REF {
        return;
      }
      OnceInTable(|fields|, freeList, held, loose, field);
      ghost var s := Snapshot();
      ghost var f := Release(Field(field));
      OnlyThatField(s, Snapshot(), chains, field);
      mid := Snapshot();
      fields := fields[field := fields[field].(data := fieldFree)];
      LinkIsNoVariable(mid, Snapshot(), chains);
      PutBack(s.fields, fieldFree, freeList, held, loose, field, fields);
      fieldFree := field;
      freeList := [field] + freeList;
    }

    /** Every variable of the current frame is released and its slot freed, last one first
        in the free list. Of the heap, exactly what only these variables kept goes. */
    method CleanupFrame()
      requires Valid()
      modifies `heap, `roots, `fields, `pending, `fieldFree, `freeList, `frames
      ensures Valid() && roots == old(roots) && GoodFrame(old(frames[frame]))
      ensures frames == old(frames)[frame := old(frames[frame]).(numVars := 0)]
      ensures freeList == Reversed(old(frames[frame].varFields[..frames[frame].numVars])) + old(freeList)
      ensures |fields| == |old(fields)|
      ensures forall i :: 0 <= i < |fields| && i !in old(frames[frame].varFields[..frames[frame].numVars]) ==>
        fields[i] == old(fields)[i]
      ensures var ls := FieldLocs(old(frames[frame].varFields[..frames[frame].numVars]));
        && HeapFrees(old(Snapshot()), Snapshot(), chains, DoomedAll(old(Snapshot()), chains, ls))
        && (forall r, k :: k in Holders(old(Snapshot()), {}, r) && !NodeSlot(k) && k !in ls && r in old(heap) ==>
              r in heap)
        && (forall r :: LiveObject(old(Snapshot()), r) && Holders(old(Snapshot()), {}, r) <= ls ==> r !in heap)
      ensures forall r :: r in heap ==> r in old(heap) && SameButRef(old(heap)[r], heap[r])
      ensures NoneAtZero(old(heap)) ==> NoneAtZero(heap)
    {
      hide VmStore.Sound, Pool, Reversed, Rest, FrameBag, HeapFrees, Released, ByKind, ClosedForAll;
      LooseFrame(fields, fieldFree, freeList, frames, frame);
      ghost var held := frames[frame := frames[frame].(numVars := 0)];
      ghost var all := frames[frame].varFields[..frames[frame].numVars];
      ghost var s0, ls := Snapshot(), FieldLocs(all);
      ghost var d, freed := DoomedAll(s0, chains, ls), {};
      DoomedAllIsClosed(s0, chains, ls);
      HeapFreesNothing(s0, chains);
      var i := 0;
      AllFields(frames[frame], all);
      while i < frames[frame].numVars
        invariant 0 <= i <= |all| && frames == old(frames) && roots == old(roots)
        invariant Sound() && pending == {} && Pool(fields, fieldFree, freeList, held, Rest(all, i))
        invariant freeList == Reversed(all[..i]) + old(freeList)
        invariant |fields| == |old(fields)|
        invariant forall j :: 0 <= j < |fields| && j !in all ==> fields[j] == old(fields)[j]
        invariant forall j :: 0 <= j < i ==> 0 <= all[j] < |fields| && fields[all[j]].v == UNDEFINED_VAR
        invariant freed <= d && HeapFrees(s0, Snapshot(), chains, freed)
        invariant ClosedForAll(Snapshot(), chains, d, ls)
      {
        NextField(all, i);
        InTable(fields, fieldFree, freeList, held, Rest(all, i), all[i]);
        ghost var s := Snapshot();
        ghost var mid := ReleaseField(frames[frame].varFields[i], held, Rest(all, i));
        freed := NextFreed(s0, s, mid, Snapshot(), chains, freed, d, all, i);
        i := i + 1;
      }
      FrameFreed(s0, Snapshot(), chains, all, freed);
      frames := frames[frame := frames[frame].(numVars := 0)];
    }

    /** Stores the variable of stack slot `from`, or nothing, into a field. `mid` is the
        store between the release of the old value and the move. */
    method SetRefValue(ref: FieldRef, from: Option<nat>) returns (ghost mid: Store)
      requires Valid() && (from.Some? ==> from.value < |roots|)
      requires ref == INVALID_FIELD_REF || ref in UsedBag(frames)
      modifies `heap, `roots, `fields, `pending
      ensures Valid() && |roots| == |old(roots)|
      ensures ref == INVALID_FIELD_REF ==> Snapshot() == old(Snapshot())
      ensures ref != INVALID_FIELD_REF ==>
        && Released(old(Snapshot()), mid, chains, Field(ref)) && HasLoc(mid, Field(ref))
        && match from
           case None => Snapshot() == mid
           case Some(i) =>
             HasLoc(mid, Root(i)) && VarAt(mid, Root(i)) == old(roots)[i] &&
             Snapshot() == Put(Put(mid, Field(ref), old(roots)[i]), Root(i), UNDEFINED_VAR)
    {
      hide VmStore.Sound, FreeChain, Partition, Released;
      mid := Snapshot();
      if ref == INVALID_FIELD_REF {
        return;
      }
      OnceInTable(|fields|, freeList, frames, multiset{}, ref);
      ghost var s := Snapshot();
      ghost var f := Release(Field(ref));
      mid := Snapshot();
      OnlyThatField(s, mid, chains, ref);
      match from {
        case Some(i) =>
          MoveSound(mid, chains, Root(i), Field(ref));
          fields := fields[ref := fields[ref].(v := roots[i])];
          roots := roots[i := UNDEFINED_VAR];
          assert Snapshot() == Put(Put(mid, Field(ref), VarAt(mid, Root(i))), Root(i), UNDEFINED_VAR);
        case None =>
          fields := fields[ref := fields[ref].(v := UNDEFINED_VAR)];
          assert Snapshot() == mid;
      }
      KeepsPool(s.fields, fieldFree, freeList, frames, multiset{}, ref, fields);
    }

    /** Every run from a valid state, whatever its steps, stays valid. Steps whose operands
        do not exist, and the frame overflow CreateVar does not check, are skipped. */
    method Run(ops: seq<Op>)
      requires Valid()
      modifies this
      ensures Valid() && chains == old(chains) && |frames| == |old(frames)| && |roots| == |old(roots)|
    {
      hide VmStore.Sound, Pool, Taken, Released;
      for i := 0 to |ops|
        invariant Valid() && chains == old(chains) && |frames| == |old(frames)| && |roots| == |old(roots)|
      {
        match ops[i] {
          case CreateVarOp(from) =>
            if (from.Some? ==> from.value < |roots|) && frames[frame].numVars < FRAME_VARS {
              var _ := CreateVar(from);
            }
          case CleanupOp => CleanupFrame();
          case EnterFrame(index) =>
            if index < |frames| {
              frame := index;
            }
          case SetVarOp(id, from) =>
            if (from.Some? ==> from.value < |roots|) && id < frames[frame].numVars {
              HeldSlot(fields, fieldFree, freeList, frames, frame, id);
              ghost var _ := SetRefValue(frames[frame].varFields[id], from);
            }
          case ReleaseOp(slot) =>
            if slot < |roots| {
              ghost var s := Snapshot();
              ghost var f := Release(Root(slot));
              OnlyThatRoot(s, Snapshot(), chains, slot);
            }
          case StringOp(slot, ref) =>
            if slot < |roots| && !Counted(roots[slot]) && ref in heap && heap[ref].VmString? {
              AddStringRef(slot, ref);
            }
        }
      }
    }
  }
}
