/** The field pool: the free list threaded through the field table, and the slots that
    the function frames hold. */
module VmPool {
  import opened VmStore

  type FieldRef = int
  const INVALID_FIELD_REF: FieldRef := 0xFFFF_FFFF
  const FIELD_COUNT := 0x4000
  const FRAME_VARS := 0x100

  datatype Frame = VmFunctionFrame(numVars: nat, varFields: seq<FieldRef>)

  predicate GoodFrame(f: Frame) {
    f.numVars <= FRAME_VARS == |f.varFields|
  }

  predicate GoodFrames(frames: seq<Frame>) {
    forall i :: 0 <= i < |frames| ==> GoodFrame(frames[i])
  }

  function NextFree(list: seq<FieldRef>, i: nat): FieldRef
    requires i < |list|
  {
    if i + 1 < |list| then list[i + 1] else INVALID_FIELD_REF
  }

  /** `list` is the free list that starts at `head`. */
  ghost predicate FreeChain(fields: seq<VmField>, head: FieldRef, list: seq<FieldRef>) {
    && head == (if list == [] then INVALID_FIELD_REF else list[0])
    && (forall i :: 0 <= i < |list| ==> 0 <= list[i] < |fields| && !Counted(fields[list[i]].v))
    && (forall i :: 0 <= i < |list| ==> fields[list[i]].data == NextFree(list, i))
  }

  ghost function FrameBag(f: Frame): multiset<FieldRef>
    requires GoodFrame(f)
  {
    multiset(f.varFields[..f.numVars])
  }

  ghost function UsedBag(frames: seq<Frame>): multiset<FieldRef>
    requires GoodFrames(frames)
  {
    if frames == [] then multiset{} else FrameBag(frames[0]) + UsedBag(frames[1..])
  }

  /** The slots below n, each once. */
  ghost function Slots(n: nat): multiset<FieldRef> {
    if n == 0 then multiset{} else Slots(n - 1) + multiset{n - 1}
  }

  lemma {:induction false} SlotsOnce(n: nat, x: FieldRef)
    ensures |Slots(n)| == n && Slots(n)[x] == if 0 <= x < n then 1 else 0
  {
    if n > 0 {
      SlotsOnce(n - 1, x);
    }
  }

  /** Free slots, the slots of all frames and the slots `loose` make up the table exactly once. */
  ghost predicate Partition(size: nat, list: seq<FieldRef>, frames: seq<Frame>, loose: multiset<FieldRef>) {
    && GoodFrames(frames)
    && multiset(list) + UsedBag(frames) + loose == Slots(size)
  }

  ghost predicate Pool(fields: seq<VmField>, head: FieldRef, list: seq<FieldRef>, frames: seq<Frame>,
                       loose: multiset<FieldRef>) {
    |fields| == FIELD_COUNT && FreeChain(fields, head, list) && Partition(|fields|, list, frames, loose)
  }

  lemma {:induction false} UsedBagUpdate(frames: seq<Frame>, c: nat, f: Frame)
    requires GoodFrames(frames) && c < |frames| && GoodFrame(f)
    ensures GoodFrames(frames[c := f])
    ensures UsedBag(frames[c := f]) + FrameBag(frames[c]) == UsedBag(frames) + FrameBag(f)
  {
    var g := frames[c := f];
    assert GoodFrames(g);
    if c == 0 {
      assert g[1..] == frames[1..];
    } else {
      assert g[1..] == frames[1..][c - 1 := f];
      UsedBagUpdate(frames[1..], c - 1, f);
      var a, x, y := FrameBag(frames[0]), UsedBag(frames[1..]), UsedBag(g[1..]);
      assert UsedBag(g) == a + y && UsedBag(frames) == a + x;
      assert (a + y) + FrameBag(frames[c]) == a + (y + FrameBag(frames[c]));
      assert (a + x) + FrameBag(f) == a + (x + FrameBag(f));
    }
  }

  lemma {:induction false} InUsedBag(frames: seq<Frame>, c: nat)
    requires GoodFrames(frames) && c < |frames|
    ensures FrameBag(frames[c]) <= UsedBag(frames)
  {
    if c > 0 {
      assert frames[1..][c - 1] == frames[c];
      InUsedBag(frames[1..], c - 1);
    }
  }

  lemma {:induction false} TwiceInSeq(s: seq<FieldRef>, i: nat, j: nat)
    requires i < j < |s| && s[i] == s[j]
    ensures multiset(s)[s[i]] >= 2
  {
    assert s == s[..j] + [s[j]] + s[j + 1..];
    assert s[i] in s[..j];
  }

  /** The free list never visits a slot twice. */
  lemma {:induction false} FreeListAcyclic(size: nat, list: seq<FieldRef>, frames: seq<Frame>,
                                           loose: multiset<FieldRef>, i: nat, j: nat)
    requires Partition(size, list, frames, loose) && i < j < |list|
    ensures list[i] != list[j]
  {
    if list[i] == list[j] {
      TwiceInSeq(list, i, j);
      SlotsOnce(size, list[i]);
    }
  }

  lemma {:induction false} OnceInTable(size: nat, list: seq<FieldRef>, frames: seq<Frame>, loose: multiset<FieldRef>,
                                       x: FieldRef)
    requires Partition(size, list, frames, loose)
    ensures multiset(list)[x] + UsedBag(frames)[x] + loose[x] == if 0 <= x < size then 1 else 0
  {
    SlotsOnce(size, x);
    assert (multiset(list) + UsedBag(frames) + loose)[x] == multiset(list)[x] + UsedBag(frames)[x] + loose[x];
  }

  /** A slot that a frame holds is a slot of the table and not free. */
  lemma {:induction false} HeldIsNotFree(size: nat, list: seq<FieldRef>, frames: seq<Frame>, a: nat, i: nat)
    requires Partition(size, list, frames, multiset{})
    requires a < |frames| && i < frames[a].numVars
    ensures frames[a].varFields[i] in UsedBag(frames)
    ensures 0 <= frames[a].varFields[i] < size && frames[a].varFields[i] !in list
  {
    assert GoodFrame(frames[a]);
    var x := frames[a].varFields[i];
    InUsedBag(frames, a);
    assert x == frames[a].varFields[..frames[a].numVars][i];
    assert x in FrameBag(frames[a]);
    OnceInTable(size, list, frames, multiset{}, x);
  }

  /** No slot is held at two places. */
  lemma {:induction false} NeverLiveTwice(size: nat, list: seq<FieldRef>, frames: seq<Frame>, a: nat, i: nat, b: nat,
                                          j: nat)
    requires Partition(size, list, frames, multiset{}) && (a, i) != (b, j)
    requires a < |frames| && b < |frames| && i < frames[a].numVars && j < frames[b].numVars
    ensures GoodFrame(frames[a]) && GoodFrame(frames[b])
    ensures frames[a].varFields[i] != frames[b].varFields[j]
  {
    assert GoodFrame(frames[a]) && GoodFrame(frames[b]);
    var x := frames[a].varFields[i];
    var va, vb := frames[a].varFields[..frames[a].numVars], frames[b].varFields[..frames[b].numVars];
    assert x == va[i] && x in va;
    OnceInTable(size, list, frames, multiset{}, x);
    if x == frames[b].varFields[j] {
      assert x == vb[j] && x in vb;
      if a == b {
        TwiceInSeq(va, if i < j then i else j, if i < j then j else i);
        InUsedBag(frames, a);
      } else {
        TwoFrames(frames, a, b, x);
      }
    }
  }

  lemma {:induction false} TwoFrames(frames: seq<Frame>, a: nat, b: nat, x: FieldRef)
    requires GoodFrames(frames)
    requires a < |frames| && b < |frames| && a != b
    requires x in FrameBag(frames[a]) && x in FrameBag(frames[b])
    ensures UsedBag(frames)[x] >= 2
  {
    if a == 0 || b == 0 {
      var o := if a == 0 then b else a;
      assert frames[1..][o - 1] == frames[o];
      InUsedBag(frames[1..], o - 1);
    } else {
      TwoFrames(frames[1..], a - 1, b - 1, x);
    }
  }

  ghost function Live(frames: seq<Frame>): nat {
    if frames == [] then 0 else frames[0].numVars + Live(frames[1..])
  }

  lemma {:induction false} UsedSize(frames: seq<Frame>)
    requires GoodFrames(frames)
    ensures |UsedBag(frames)| == Live(frames)
  {
    if frames != [] {
      UsedSize(frames[1..]);
      assert |FrameBag(frames[0])| == frames[0].numVars;
    }
  }

  /** Slots are conserved: what is not free is held, in number too. */
  lemma {:induction false} SlotsConserved(size: nat, list: seq<FieldRef>, frames: seq<Frame>)
    requires Partition(size, list, frames, multiset{})
    ensures |list| + Live(frames) == size
  {
    UsedSize(frames);
    SlotsOnce(size, 0);
    assert |multiset(list)| == |list|;
    assert |multiset(list) + UsedBag(frames)| == |list| + Live(frames);
  }

  // ---------- Steps of the free list ----------

  lemma EmptyList(fields: seq<VmField>, head: FieldRef, list: seq<FieldRef>, frames: seq<Frame>,
                  loose: multiset<FieldRef>)
    requires Pool(fields, head, list, frames, loose)
    ensures head == INVALID_FIELD_REF <==> list == []
  {
  }

  lemma {:induction false} HeadGoesLoose(size: nat, list: seq<FieldRef>, frames: seq<Frame>)
    requires Partition(size, list, frames, multiset{}) && list != []
    ensures Partition(size, list[1..], frames, multiset{list[0]})
  {
    var u := UsedBag(frames);
    assert list == [list[0]] + list[1..];
    assert multiset(list) == multiset{list[0]} + multiset(list[1..]);
    MoveAcross(multiset(list[1..]), multiset{list[0]}, u, multiset{});
  }

  lemma {:induction false} LooseGoesHead(size: nat, list: seq<FieldRef>, frames: seq<Frame>, loose: multiset<FieldRef>,
                                         f: FieldRef)
    requires Partition(size, list, frames, loose) && f in loose
    ensures Partition(size, [f] + list, frames, loose - multiset{f})
  {
    var u := UsedBag(frames);
    assert multiset([f] + list) == multiset{f} + multiset(list);
    MoveAcross(multiset(list), multiset{f}, u, loose - multiset{f});
    assert multiset{f} + (loose - multiset{f}) == loose;
  }

  lemma MoveAcross(a: multiset<FieldRef>, b: multiset<FieldRef>, u: multiset<FieldRef>,
                   c: multiset<FieldRef>)
    ensures (b + a) + u + c == a + u + (b + c)
    ensures a + (u + b) + c == a + u + (b + c)
  {
  }

  lemma {:induction false} ChainTail(fields: seq<VmField>, head: FieldRef, list: seq<FieldRef>, fields': seq<VmField>)
    requires FreeChain(fields, head, list) && list != []
    requires forall i :: 0 < i < |list| ==> list[i] != list[0]
    requires |fields'| == |fields| && forall i :: 0 <= i < |fields| && i != head ==> fields'[i] == fields[i]
    ensures 0 <= head < |fields| && head == list[0] && !Counted(fields[head].v)
    ensures FreeChain(fields', fields[head].data, list[1..])
  {
    assert fields[list[0]].data == NextFree(list, 0);
    var tail := list[1..];
    forall i | 0 <= i < |tail|
      ensures 0 <= tail[i] < |fields'| && fields'[tail[i]] == fields[tail[i]]
      ensures fields[tail[i]].data == NextFree(tail, i)
      ensures !Counted(fields[tail[i]].v)
    {
      assert tail[i] == list[i + 1];
      assert NextFree(tail, i) == NextFree(list, i + 1);
    }
  }

  lemma {:induction false} ChainCons(fields: seq<VmField>, head: FieldRef, list: seq<FieldRef>, f: FieldRef,
                                     fields': seq<VmField>)
    requires FreeChain(fields, head, list) && f !in list && 0 <= f < |fields|
    requires |fields'| == |fields| && forall i :: 0 <= i < |fields| && i != f ==> fields'[i] == fields[i]
    requires !Counted(fields'[f].v) && fields'[f].data == head
    ensures FreeChain(fields', f, [f] + list)
  {
    var longer := [f] + list;
    forall i | 0 <= i < |longer|
      ensures 0 <= longer[i] < |fields'| && !Counted(fields'[longer[i]].v)
      ensures fields'[longer[i]].data == NextFree(longer, i)
    {
      if i > 0 {
        assert longer[i] == list[i - 1];
        assert fields'[longer[i]] == fields[longer[i]];
        assert NextFree(longer, i) == NextFree(list, i - 1);
      }
    }
  }

  /** Taking the head leaves a well-formed list, whatever is then written to that slot. */
  lemma {:induction false} TakeHead(fields: seq<VmField>, head: FieldRef, list: seq<FieldRef>, frames: seq<Frame>,
                                    fields': seq<VmField>)
    requires Pool(fields, head, list, frames, multiset{}) && list != []
    requires |fields'| == |fields| && forall i :: 0 <= i < |fields| && i != head ==> fields'[i] == fields[i]
    ensures 0 <= head < |fields| && head == list[0] && !Counted(fields[head].v)
    ensures Pool(fields', fields[head].data, list[1..], frames, multiset{head})
  {
    hide Partition, FreeChain;
    HeadGoesLoose(|fields|, list, frames);
    forall i | 0 < i < |list|
      ensures list[i] != list[0]
    {
      FreeListAcyclic(|fields|, list, frames, multiset{}, 0, i);
    }
    ChainTail(fields, head, list, fields');
  }

  /** Putting a loose slot back in front. */
  lemma {:induction false} PutBack(fields: seq<VmField>, head: FieldRef, list: seq<FieldRef>, frames: seq<Frame>,
                                   loose: multiset<FieldRef>,
                f: FieldRef, fields': seq<VmField>)
    requires Pool(fields, head, list, frames, loose) && f in loose
    requires |fields'| == |fields| && forall i :: 0 <= i < |fields| && i != f ==> fields'[i] == fields[i]
    requires 0 <= f < |fields| ==> !Counted(fields'[f].v) && fields'[f].data == head
    ensures 0 <= f < |fields| && f !in list
    ensures Pool(fields', f, [f] + list, frames, loose - multiset{f})
  {
    OnceInTable(|fields|, list, frames, loose, f);
    hide Partition, FreeChain;
    LooseGoesHead(|fields|, list, frames, loose, f);
    ChainCons(fields, head, list, f, fields');
  }

  /** Changing variables of slots that are not free leaves the pool alone. */
  lemma {:induction false} KeepsPool(fields: seq<VmField>, head: FieldRef, list: seq<FieldRef>, frames: seq<Frame>,
                                     loose: multiset<FieldRef>,
                  f: FieldRef, fields': seq<VmField>)
    requires Pool(fields, head, list, frames, loose) && f in UsedBag(frames) + loose
    requires |fields'| == |fields| && forall i :: 0 <= i < |fields| && i != f ==> fields'[i] == fields[i]
    ensures 0 <= f < |fields| && f !in list
    ensures Pool(fields', head, list, frames, loose)
  {
    OnceInTable(|fields|, list, frames, loose, f);
  }

  function Push(f: Frame, r: FieldRef): Frame
    requires GoodFrame(f) && f.numVars < FRAME_VARS
  {
    VmFunctionFrame(f.numVars + 1, f.varFields[f.numVars := r])
  }

  lemma GoodFrameAt(size: nat, list: seq<FieldRef>, frames: seq<Frame>, loose: multiset<FieldRef>,
                    c: nat)
    requires Partition(size, list, frames, loose) && c < |frames|
    ensures GoodFrames(frames) && GoodFrame(frames[c])
  {
  }

  lemma {:induction false} CancelBag(w: multiset<FieldRef>, u: multiset<FieldRef>, b: multiset<FieldRef>,
                                     r: multiset<FieldRef>)
    requires w + b == u + (b + r)
    ensures w == u + r
  {
    forall x ensures w[x] == (u + r)[x] {
      assert (w + b)[x] == (u + (b + r))[x];
    }
  }

  /** Slot r has become the next variable of frame c. */
  ghost predicate NewVar(frames: seq<Frame>, frames': seq<Frame>, c: nat, r: FieldRef) {
    c < |frames| && GoodFrame(frames[c]) && frames[c].numVars < FRAME_VARS && frames' == frames[c := Push(frames[c], r)]
  }

  lemma {:induction false} PushBag(f: Frame, r: FieldRef)
    requires GoodFrame(f) && f.numVars < FRAME_VARS
    ensures FrameBag(Push(f, r)) == FrameBag(f) + multiset{r}
  {
    var g := Push(f, r);
    assert g.varFields[..g.numVars] == f.varFields[..f.numVars] + [r];
  }

  /** A loose slot becomes the next variable of frame c. */
  lemma {:induction false} StoreInFrame(size: nat, list: seq<FieldRef>, frames: seq<Frame>, c: nat, r: FieldRef)
    requires Partition(size, list, frames, multiset{r}) && c < |frames| && frames[c].numVars < FRAME_VARS
    ensures GoodFrame(frames[c]) && Partition(size, list, frames[c := Push(frames[c], r)], multiset{})
  {
    assert GoodFrame(frames[c]);
    var g := Push(frames[c], r);
    UsedBagUpdate(frames, c, g);
    PushBag(frames[c], r);
    var u, w := UsedBag(frames), UsedBag(frames[c := g]);
    CancelBag(w, u, FrameBag(frames[c]), multiset{r});
    MoveAcross(multiset(list), multiset{r}, u, multiset{});
  }

  /** Emptying a frame turns its slots loose. */
  lemma {:induction false} EmptyFrame(size: nat, list: seq<FieldRef>, frames: seq<Frame>, c: nat)
    requires Partition(size, list, frames, multiset{}) && c < |frames|
    ensures GoodFrame(frames[c]) && Partition(size, list, frames[c := frames[c].(numVars := 0)], FrameBag(frames[c]))
  {
    assert GoodFrame(frames[c]);
    var g := frames[c].(numVars := 0);
    UsedBagUpdate(frames, c, g);
    assert FrameBag(g) == multiset{};
    var u, w := UsedBag(frames), UsedBag(frames[c := g]);
    assert w + FrameBag(frames[c]) == u;
    MoveAcross(multiset(list), FrameBag(frames[c]), w, multiset{});
  }

  function Reversed(s: seq<FieldRef>): (r: seq<FieldRef>)
    ensures |r| == |s|
  {
    if s == [] then [] else [s[|s| - 1]] + Reversed(s[..|s| - 1])
  }

  ghost function Rest(all: seq<FieldRef>, i: nat): multiset<FieldRef>
    requires i <= |all|
  {
    multiset(all[i..])
  }

  lemma {:induction false} AllFields(f: Frame, all: seq<FieldRef>)
    requires GoodFrame(f) && all == f.varFields[..f.numVars]
    ensures all == all[..|all|] && Reversed(all[..0]) == []
    ensures FrameBag(f) == Rest(all, 0) && Rest(all, |all|) == multiset{}
  {
    assert all[0..] == all;
  }

  lemma {:induction false} NextField(all: seq<FieldRef>, i: nat)
    requires i < |all|
    ensures all[i] in Rest(all, i) && Rest(all, i) - multiset{all[i]} == Rest(all, i + 1)
    ensures Reversed(all[..i + 1]) == [all[i]] + Reversed(all[..i])
  {
    assert all[i..] == [all[i]] + all[i + 1..];
    assert all[..i + 1][..i] == all[..i];
  }

  lemma {:induction false} LooseFrame(fields: seq<VmField>, head: FieldRef, list: seq<FieldRef>, frames: seq<Frame>,
                                      c: nat)
    requires Pool(fields, head, list, frames, multiset{}) && c < |frames|
    ensures GoodFrame(frames[c])
    ensures Pool(fields, head, list, frames[c := frames[c].(numVars := 0)], FrameBag(frames[c]))
  {
    EmptyFrame(|fields|, list, frames, c);
  }

  lemma {:induction false} InTable(fields: seq<VmField>, head: FieldRef, list: seq<FieldRef>, frames: seq<Frame>,
                                   loose: multiset<FieldRef>, x: FieldRef)
    requires Pool(fields, head, list, frames, loose) && x in loose
    ensures 0 <= x < |fields| && x != INVALID_FIELD_REF && x !in list
  {
    OnceInTable(|fields|, list, frames, loose, x);
  }

  lemma {:induction false} HeldSlot(fields: seq<VmField>, head: FieldRef, list: seq<FieldRef>, frames: seq<Frame>,
                                    c: nat, i: nat)
    requires Pool(fields, head, list, frames, multiset{}) && c < |frames| && i < frames[c].numVars
    ensures GoodFrame(frames[c]) && GoodFrames(frames) && frames[c].varFields[i] in UsedBag(frames)
  {
    HeldIsNotFree(|fields|, list, frames, c, i);
  }
}
