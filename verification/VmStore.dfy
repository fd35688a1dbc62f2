/** The variables, fields and heap objects of the script VM, seen as one value, with
    the reference-count invariant and the lemmas about each elementary change.

    A location is a place that holds a variable. A location is "pending" while its
    variable has given up its count but has not been overwritten yet, which is the
    state between DecRef and the last two assignments of ReleaseVariable. */
module VmStore {

  type Ref = int
  const NULL_REF: Ref := 0

  datatype VarType =
    | Undefined | Thread | Pointer | Integer | Float | Hash | PreCall | Location
    | ScriptFunction | BuiltinFunction | Array | Vector | Struct | String

  datatype VmVar = VmVar(kind: VarType, val: int)

  const UNDEFINED_VAR := VmVar(Undefined, 0)

  datatype VmField = VmField(v: VmVar, data: int)

  datatype Object =
    | VmArray(ref: nat, start: Ref)
    | VmString(ref: nat, hash: int)
    | VmVector(ref: nat, vec: seq<real>)
    | VmArrayNode(idx: VmVar, item: VmVar, next: Ref)

  datatype Loc = Root(i: int) | Field(f: int) | NodeIdx(n: Ref) | NodeItem(n: Ref)

  /** `roots` are the variables outside the heap and the field table: thread stacks and
      the references patched into script code. */
  datatype Store = Store(heap: map<Ref, Object>, roots: seq<VmVar>, fields: seq<VmField>)

  predicate Counted(v: VmVar) {
    v.kind == Array || v.kind == Vector || v.kind == String
  }

  predicate Countable(o: Object) {
    !o.VmArrayNode?
  }

  predicate Matches(k: VarType, o: Object) {
    match o
    case VmArray(_, _) => k == Array
    case VmString(_, _) => k == String
    case VmVector(_, _) => k == Vector
    case VmArrayNode(_, _, _) => false
  }

  function WithRef(o: Object, n: nat): Object
    requires Countable(o)
  {
    match o
    case VmArray(_, start) => VmArray(n, start)
    case VmString(_, hash) => VmString(n, hash)
    case VmVector(_, vec) => VmVector(n, vec)
  }

  predicate HasNode(s: Store, n: Ref) {
    n in s.heap && s.heap[n].VmArrayNode?
  }

  predicate HasLoc(s: Store, l: Loc) {
    match l
    case Root(i) => 0 <= i < |s.roots|
    case Field(f) => 0 <= f < |s.fields|
    case NodeIdx(n) => HasNode(s, n)
    case NodeItem(n) => HasNode(s, n)
  }

  function VarAt(s: Store, l: Loc): VmVar
    requires HasLoc(s, l)
  {
    match l
    case Root(i) => s.roots[i]
    case Field(f) => s.fields[f].v
    case NodeIdx(n) => s.heap[n].idx
    case NodeItem(n) => s.heap[n].item
  }

  function Put(s: Store, l: Loc, v: VmVar): (r: Store)
    requires HasLoc(s, l)
    ensures forall k :: HasLoc(r, k) <==> HasLoc(s, k)
    ensures forall k :: HasLoc(s, k) ==> VarAt(r, k) == if k == l then v else VarAt(s, k)
  {
    match l
    case Root(i) => s.(roots := s.roots[i := v])
    case Field(f) => s.(fields := s.fields[f := s.fields[f].(v := v)])
    case NodeIdx(n) => s.(heap := s.heap[n := s.heap[n].(idx := v)])
    case NodeItem(n) => s.(heap := s.heap[n := s.heap[n].(item := v)])
  }

  function SetRef(s: Store, r: Ref, n: nat): (t: Store)
    requires r in s.heap && Countable(s.heap[r])
    ensures t == s.(heap := s.heap[r := WithRef(s.heap[r], n)])
    ensures forall k :: HasLoc(t, k) <==> HasLoc(s, k)
    ensures forall k :: HasLoc(s, k) ==> VarAt(t, k) == VarAt(s, k)
  {
    s.(heap := s.heap[r := WithRef(s.heap[r], n)])
  }

  ghost function Locs(s: Store): (ls: set<Loc>)
    ensures forall l :: l in ls <==> HasLoc(s, l)
  {
    (set i | 0 <= i < |s.roots| :: Root(i)) +
    (set f | 0 <= f < |s.fields| :: Field(f)) +
    (set n | n in s.heap && HasNode(s, n) :: NodeIdx(n)) +
    (set n | n in s.heap && HasNode(s, n) :: NodeItem(n))
  }

  ghost predicate Holds(s: Store, l: Loc, r: Ref) {
    HasLoc(s, l) && Counted(VarAt(s, l)) && VarAt(s, l).val == r
  }

  /** The locations whose variable is counted in object r. */
  ghost function Holders(s: Store, pending: set<Loc>, r: Ref): (hs: set<Loc>)
    ensures forall l :: l in hs <==> Holds(s, l, r) && l !in pending
  {
    set l | l in Locs(s) && l !in pending && Holds(s, l, r)
  }

  predicate LiveObject(s: Store, r: Ref) {
    r in s.heap && Countable(s.heap[r]) && s.heap[r].ref > 0
  }

  predicate LiveArray(s: Store, r: Ref) {
    LiveObject(s, r) && s.heap[r].VmArray?
  }

  ghost function LiveArrays(s: Store): set<Ref> {
    set r | r in s.heap && LiveArray(s, r)
  }

  // ---------- The invariant ----------

  ghost predicate NoDangling(s: Store, pending: set<Loc>) {
    forall l :: HasLoc(s, l) && l !in pending && Counted(VarAt(s, l)) ==>
      VarAt(s, l).val in s.heap && Matches(VarAt(s, l).kind, s.heap[VarAt(s, l).val])
  }

  ghost predicate ExactCounts(s: Store, pending: set<Loc>) {
    forall r :: r in s.heap && Countable(s.heap[r]) ==> s.heap[r].ref == |Holders(s, pending, r)|
  }

  ghost predicate Counts(s: Store, pending: set<Loc>) {
    NULL_REF !in s.heap && NoDangling(s, pending) && ExactCounts(s, pending)
  }

  /** `c` is the node list that starts at `start`. */
  ghost predicate Chain(s: Store, start: Ref, c: seq<Ref>) {
    && start == (if c == [] then NULL_REF else c[0])
    && (forall i :: 0 <= i < |c| ==>
          HasNode(s, c[i]) && s.heap[c[i]].next == if i + 1 < |c| then c[i + 1] else NULL_REF)
    && (forall i, j :: 0 <= i < j < |c| ==> c[i] != c[j])
  }

  /** The node list of each array, and the array that owns each node. */
  datatype Chains = Chains(list: map<Ref, seq<Ref>>, owner: map<Ref, Ref>)

  /** Each live array has its own node list; no node is on two lists. */
  ghost predicate Lists(s: Store, chains: Chains) {
    && (forall a :: LiveArray(s, a) ==> a in chains.list && Chain(s, s.heap[a].start, chains.list[a]))
    && (forall a, n :: LiveArray(s, a) && n in chains.list[a] ==> n in chains.owner && chains.owner[n] == a)
    && (forall n :: n in chains.owner && LiveArray(s, chains.owner[n]) ==> n in chains.list[chains.owner[n]])
    && (forall n :: n in chains.owner && chains.owner[n] in s.heap ==> s.heap[chains.owner[n]].VmArray?)
    && (forall n :: n in chains.owner && n in s.heap ==> HasNode(s, n))
  }

  /** No live array owns node n. */
  ghost predicate Detached(s: Store, chains: Chains, n: Ref) {
    n in chains.owner ==> !LiveArray(s, chains.owner[n])
  }

  /** A location that may be released: outside the heap, or in a node no live array owns. */
  ghost predicate Releasable(s: Store, chains: Chains, l: Loc) {
    HasLoc(s, l) && (NodeSlot(l) ==> Detached(s, chains, l.n))
  }

  ghost predicate Sound(s: Store, chains: Chains, pending: set<Loc>) {
    && Counts(s, pending)
    && Lists(s, chains)
    && (forall l :: l in pending ==> Releasable(s, chains, l))
  }

  // ---------- What a cascade frees ----------

  /** The nodes owned by the arrays among `f`. */
  ghost function NodesOf(chains: Chains, f: set<Ref>): (ns: set<Ref>)
    ensures forall n :: n in ns <==> n in chains.owner && chains.owner[n] in f
  {
    set n | n in chains.owner && chains.owner[n] in f
  }

  predicate SameButRef(o: Object, p: Object) {
    if Countable(o) then Countable(p) && p == WithRef(o, p.ref) && p.ref <= o.ref && (o.ref > 0 ==> p.ref > 0)
    else p == o
  }

  /** From s to t exactly the objects `f`, their nodes and the nodes `cut` have gone; all
      else is as it was, but for lower counts. */
  ghost predicate Frees(s: Store, t: Store, chains: Chains, f: set<Ref>, cut: set<Ref>) {
    && t.roots == s.roots
    && t.fields == s.fields
    && t.heap.Keys == s.heap.Keys - f - NodesOf(chains, f) - cut
    && (forall r :: r in f ==> LiveObject(s, r))
    && (forall r :: r in t.heap ==> r in s.heap && SameButRef(s.heap[r], t.heap[r]))
  }

  predicate NodeSlot(l: Loc) {
    l.NodeIdx? || l.NodeItem?
  }

  /** The slots of the nodes that the arrays of g own. */
  ghost predicate SlotOf(chains: Chains, g: set<Ref>, l: Loc) {
    NodeSlot(l) && l.n in chains.owner && chains.owner[l.n] in g
  }

  /** g contains every live object whose holders all are l or slots of g's own nodes. */
  ghost predicate ClosedFor(s: Store, chains: Chains, pending: set<Loc>, g: set<Ref>, l: Loc) {
    forall r :: LiveObject(s, r) && (forall k :: k in Holders(s, pending, r) ==> k == l || SlotOf(chains, g, k)) ==>
      r in g
  }
}
