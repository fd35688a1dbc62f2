/** The loader reads back what the pack file holds. */
module PackLaws {
  import opened Options
  import opened Bytes
  import opened PackFormat

  // ---------- What can be stored ----------

  predicate NoZero(s: Text) {
    forall i :: 0 <= i < |s| ==> s[i] != 0
  }

  predicate OpFits(o: Op) {
    o.opcode < 0x1_0000 && o.value < 0x1_0000
  }

  predicate AllOpsFit(ops: seq<Op>) {
    forall i :: 0 <= i < |ops| ==> OpFits(ops[i])
  }

  predicate PlatformFits(p: Platform) {
    p.id < 256 && AllOpsFit(OpsOf(p))
  }

  predicate VmFits(v: Vm) {
    v.magic < Limit(8) && v.flags < Limit(8) && NoZero(v.name) && |v.platforms| < 256 && |v.platforms| <= v.room
    && forall i :: 0 <= i < |v.platforms| ==> PlatformFits(v.platforms[i])
  }

  predicate HashFits(h: Hash) {
    h.value < Limit(8) && NoZero(h.text)
  }

  function AsLoaded(ps: seq<Platform>): (r: seq<LoadedPlatform>)
    ensures |r| == |ps|
  {
    seq(|ps|, i requires 0 <= i < |ps| => LoadedPlatform(ps[i].id, OpsOf(ps[i])))
  }

  function VmAsLoaded(v: Vm): LoadedVm {
    LoadedVm(v.magic, v.name, v.flags, AsLoaded(v.platforms))
  }

  function VmsAsLoaded(vs: seq<Vm>): (r: seq<LoadedVm>)
    ensures |r| == |vs|
  {
    seq(|vs|, i requires 0 <= i < |vs| => VmAsLoaded(vs[i]))
  }

  // ---------- Reading single fields ----------

  lemma {:induction false} ByteAt(data: seq<Byte>, pos: nat, b: Byte)
    requires HasAt(data, pos, [b])
    ensures ReadAt(data, pos, 1) == b && pos < |data| && data[pos] == b
  {
    assert Slice(data, pos, pos + 1) == [b];
    assert [b][1..] == [] && FromBytes([]) == 0 && FromBytes([b]) == b + 256 * FromBytes([]);
    assert data[pos..pos + 1][0] == b;
  }

  /** A string reads back up to its zero. */
  lemma {:induction false} StringRead(data: seq<Byte>, pos: nat, s: Text)
    requires HasAt(data, pos, CString(s)) && NoZero(s)
    ensures ReadString(data, pos) == Some(s)
    decreases |s|
  {
    assert CString(s)[0] == data[pos..pos + |s| + 1][0] == data[pos];
    if s != [] {
      assert CString(s) == [s[0]] + CString(s[1..]);
      HasParts(data, pos, [s[0]], CString(s[1..]));
      StringRead(data, pos + 1, s[1..]);
      assert [s[0]] + s[1..] == s;
    }
  }

  // ---------- Reading tables ----------

  lemma {:induction false} OpsRead(data: seq<Byte>, pos: nat, ops: seq<Op>)
    requires HasAt(data, pos, AllOps(ops)) && AllOpsFit(ops)
    ensures ReadOps(data, pos, |ops|) == ops
    decreases |ops|
  {
    hide OpBytes, HasAt, ReadAt, OpFits, ReadOps;
    if ops == [] {
      assert ReadOps(data, pos, 0) == [] by { NoOps(data, pos); }
    } else {
      var front, last := ops[..|ops| - 1], ops[|ops| - 1];
      HasParts(data, pos, AllOps(front), OpBytes(last));
      OpsRead(data, pos, front);
      OpRead(data, pos + 4 * |front|, last);
      OneMoreOp(data, pos, ops);
    }
  }

  lemma NoOps(data: seq<Byte>, pos: nat)
    ensures ReadOps(data, pos, 0) == []
  {
  }

  lemma {:induction false} OneMoreOp(data: seq<Byte>, pos: nat, ops: seq<Op>)
    requires ops != [] && ReadOps(data, pos, |ops| - 1) == ops[..|ops| - 1]
    requires var p := pos + 4 * (|ops| - 1); Op(ReadAt(data, p, 2), ReadAt(data, p + 2, 2)) == ops[|ops| - 1]
    ensures ReadOps(data, pos, |ops|) == ops
  {
    hide ReadAt;
    assert ops == ops[..|ops| - 1] + [ops[|ops| - 1]];
  }

  lemma {:induction false} OpRead(data: seq<Byte>, pos: nat, o: Op)
    requires HasAt(data, pos, OpBytes(o)) && OpFits(o)
    ensures Op(ReadAt(data, pos, 2), ReadAt(data, pos + 2, 2)) == o
  {
    Limits();
    HasParts(data, pos, ToBytes(o.opcode, 2), ToBytes(o.value, 2));
    NumberAt(data, pos, o.opcode, 2);
    NumberAt(data, pos + 2, o.value, 2);
  }

  lemma {:induction false} PlatformRead(data: seq<Byte>, pos: nat, p: Platform, at: nat)
    requires HasAt(data, pos, PlatformBytes(p, at)) && HasAt(data, at, AllOps(OpsOf(p))) && PlatformFits(p)
    requires |data| < Limit(4)
    ensures ReadPlatform(data, pos) == Some(LoadedPlatform(p.id, OpsOf(p)))
  {
    PlatformRecordRead(data, pos, p, at);
    HasInside(data, at, AllOps(OpsOf(p)));
    if p.ops.Some? {
      OpsRead(data, at, OpsOf(p));
    }
    hide ReadAt, HasAt, Limit;
  }

  lemma {:induction false} PlatformRecordRead(data: seq<Byte>, pos: nat, p: Platform, at: nat)
    requires HasAt(data, pos, PlatformBytes(p, at)) && p.id < 256 && at < Limit(4) && |OpsOf(p)| < Limit(4)
    ensures ReadAt(data, pos, 1) == p.id && ReadAt(data, pos + 8, 4) == |OpsOf(p)|
    ensures ReadAt(data, pos + 4, 4) == if p.ops.None? then 0 else at
  {
    var n, where := |OpsOf(p)|, if p.ops.None? then 0 else at;
    assert ToBytes(p.id % 256, 4) == [p.id] + ToBytes(0, 3);
    hide ToBytes, HasAt, Limit, ReadAt;
    HasParts(data, pos, ToBytes(p.id % 256, 4), ToBytes(where, 4) + ToBytes(n, 4));
    HasParts(data, pos + 4, ToBytes(where, 4), ToBytes(n, 4));
    NumberAt(data, pos + 4, where, 4);
    NumberAt(data, pos + 8, n, 4);
    HasParts(data, pos, [p.id], ToBytes(0, 3));
    ByteAt(data, pos, p.id);
  }

  lemma {:induction false} PlatformsRead(data: seq<Byte>, pos: nat, ps: seq<Platform>, at: nat)
    requires HasAt(data, pos, PlatformTable(ps, at)) && HasAt(data, at, OpBlocks(ps)) && |data| < Limit(4)
    requires forall i :: 0 <= i < |ps| ==> PlatformFits(ps[i])
    ensures ReadPlatforms(data, pos, |ps|) == Some(AsLoaded(ps))
    decreases |ps|
  {
    hide PlatformFits, PlatformBytes, AllOps, ReadPlatform, HasAt, Limit;
    if ps != [] {
      var front, last := ps[..|ps| - 1], ps[|ps| - 1];
      var here := at + |OpBlocks(front)|;
      HasParts(data, pos, PlatformTable(front, at), PlatformBytes(last, here));
      HasParts(data, at, OpBlocks(front), AllOps(OpsOf(last)));
      PlatformsRead(data, pos, front, at);
      PlatformRead(data, pos + 12 * |front|, last, here);
      assert AsLoaded(ps) == AsLoaded(front) + [LoadedPlatform(last.id, OpsOf(last))];
    }
  }

  /** The fields of a VM's record. */
  lemma {:induction false} NewRecordRead(data: seq<Byte>, pos: nat, v: Vm, at: nat)
    requires HasAt(data, pos, NewBytes(v, at)) && VmFits(v) && at + |v.name| + 1 < Limit(4)
    ensures ReadAt(data, pos, 4) == at && ReadAt(data, pos + 8, 8) == v.flags && ReadAt(data, pos + 16, 8) == v.magic
    ensures ReadAt(data, pos + 24, 1) == |v.platforms| && ReadAt(data, pos + 28, 4) == at + |v.name| + 1
  {
    var n: Byte := |v.platforms|;
    var plts := at + |v.name| + 1;
    hide ToBytes, ReadAt, HasAt, Limit, PlatformFits, NoZero;
    var t4: seq<Byte> := [n, 0, 0, 0] + ToBytes(plts, 4);
    var t3 := ToBytes(v.magic, 8) + t4;
    var t2 := ToBytes(v.flags, 8) + t3;
    assert NewBytes(v, at) == ToBytes(at, 4) + ([0, 0, 0, 0] + t2);
    HasParts(data, pos, ToBytes(at, 4), [0, 0, 0, 0] + t2);
    HasParts(data, pos + 4, [0, 0, 0, 0], t2);
    HasParts(data, pos + 8, ToBytes(v.flags, 8), t3);
    HasParts(data, pos + 16, ToBytes(v.magic, 8), t4);
    HasParts(data, pos + 24, [n, 0, 0, 0], ToBytes(plts, 4));
    assert [n, 0, 0, 0] == [n] + [0, 0, 0];
    HasParts(data, pos + 24, [n], [0, 0, 0]);
    ByteAt(data, pos + 24, n);
    NumberAt(data, pos, at, 4);
    NumberAt(data, pos + 8, v.flags, 8);
    NumberAt(data, pos + 16, v.magic, 8);
    NumberAt(data, pos + 28, plts, 4);
  }

  lemma HasInside(data: seq<Byte>, pos: nat, t: seq<Byte>)
    requires HasAt(data, pos, t)
    ensures pos + |t| <= |data|
  {
  }

  lemma {:induction false} FourParts(data: seq<Byte>, at: nat, a: seq<Byte>, b: seq<Byte>, c: seq<Byte>, d: seq<Byte>)
    requires HasAt(data, at, a + (b + (c + d)))
    ensures HasAt(data, at, a) && HasAt(data, at + |a|, b) && HasAt(data, at + |a| + |b| + |c|, d)
    ensures at + |a| + |b| <= |data|
  {
    hide HasAt;
    HasParts(data, at, a, b + (c + d));
    HasParts(data, at + |a|, b, c + d);
    HasParts(data, at + |a| + |b|, c, d);
    HasInside(data, at + |a|, b);
  }

  lemma {:induction false} VmParts(data: seq<Byte>, v: Vm, at: nat)
    requires |v.platforms| <= v.room && HasAt(data, at, VmData(v, at))
    ensures var plts := at + |v.name| + 1;
      && HasAt(data, at, CString(v.name)) && plts <= |data| && plts + 12 * |v.platforms| <= |data|
      && HasAt(data, plts, PlatformTable(v.platforms, plts + 12 * v.room))
      && HasAt(data, plts + 12 * v.room, OpBlocks(v.platforms))
  {
    hide PlatformTable, OpBlocks, Zeros, CString, HasAt;
    FourParts(data, at, CString(v.name), PlatformTable(v.platforms, at + |v.name| + 1 + 12 * v.room),
      Zeros(12 * (v.room - |v.platforms|)), OpBlocks(v.platforms));
  }

  lemma {:induction false} VmRead(data: seq<Byte>, pos: nat, v: Vm, at: nat)
    requires VmFits(v) && HasAt(data, pos, NewBytes(v, at)) && HasAt(data, at, VmData(v, at)) && |data| < Limit(4)
    ensures ReadVm(data, pos) == Some(VmAsLoaded(v))
  {
    hide ToBytes, ReadAt, CString, NewBytes, PlatformTable, OpBlocks;
    hide VmData, HasAt, Limit, ReadString, ReadPlatforms, NoZero, PlatformFits;
    VmParts(data, v, at);
    NewRecordRead(data, pos, v, at);
    StringRead(data, at, v.name);
    PlatformsRead(data, at + |v.name| + 1, v.platforms, at + |v.name| + 1 + 12 * v.room);
    StringInside(data, at, v.name);
  }

  /** The fields of a VM's record in the old table. */
  lemma {:induction false} OldRecordRead(data: seq<Byte>, pos: nat, v: Vm, at: nat)
    requires HasAt(data, pos, OldBytes(v, at)) && VmFits(v) && v.oldId < 256 && at + |v.name| + 1 < Limit(4)
    ensures ReadAt(data, pos, 4) == at && ReadAt(data, pos + 8, 8) == v.flags && ReadAt(data, pos + 16, 1) == v.oldId
    ensures ReadAt(data, pos + 17, 1) == |v.platforms| && ReadAt(data, pos + 20, 4) == at + |v.name| + 1
  {
    var id: Byte, n: Byte := v.oldId, |v.platforms|;
    var plts := at + |v.name| + 1;
    hide ToBytes, ReadAt, HasAt, Limit, PlatformFits, NoZero;
    var t3: seq<Byte> := [id, n, 0, 0] + ToBytes(plts, 4);
    var t2 := ToBytes(v.flags, 8) + t3;
    assert OldBytes(v, at) == ToBytes(at, 4) + ([0, 0, 0, 0] + t2);
    HasParts(data, pos, ToBytes(at, 4), [0, 0, 0, 0] + t2);
    HasParts(data, pos + 4, [0, 0, 0, 0], t2);
    HasParts(data, pos + 8, ToBytes(v.flags, 8), t3);
    HasParts(data, pos + 16, [id, n, 0, 0], ToBytes(plts, 4));
    assert [id, n, 0, 0] == [id] + ([n] + [0, 0]);
    HasParts(data, pos + 16, [id], [n] + [0, 0]);
    HasParts(data, pos + 17, [n], [0, 0]);
    ByteAt(data, pos + 16, id);
    ByteAt(data, pos + 17, n);
    NumberAt(data, pos, at, 4);
    NumberAt(data, pos + 8, v.flags, 8);
    NumberAt(data, pos + 20, plts, 4);
  }

  /** From the old table, a VM is read under the name its old id has today, or passed over. */
  lemma {:induction false} OldVmRead(data: seq<Byte>, pos: nat, v: Vm, at: nat, oldVms: map<nat, nat>)
    requires VmFits(v) && v.oldId < 256 && HasAt(data, pos, OldBytes(v, at)) && HasAt(data, at, VmData(v, at))
    requires |data| < Limit(4)
    ensures ReadOldVm(data, pos, oldVms) == Some(
      if v.oldId in oldVms then [LoadedVm(oldVms[v.oldId], v.name, v.flags, AsLoaded(v.platforms))] else [])
  {
    hide ToBytes, ReadAt, CString, OldBytes, PlatformTable, OpBlocks;
    hide VmData, HasAt, Limit, ReadString, ReadPlatforms, NoZero, PlatformFits;
    VmParts(data, v, at);
    OldRecordRead(data, pos, v, at);
    StringRead(data, at, v.name);
    PlatformsRead(data, at + |v.name| + 1, v.platforms, at + |v.name| + 1 + 12 * v.room);
    StringInside(data, at, v.name);
  }

  lemma {:induction false} VmsRead(data: seq<Byte>, pos: nat, vs: seq<Vm>, at: nat)
    requires Roomy(vs) && HasAt(data, pos, NewTable(vs, at)) && HasAt(data, at, VmDatas(vs, at)) && |data| < Limit(4)
    requires forall i :: 0 <= i < |vs| ==> VmFits(vs[i])
    ensures ReadVms(data, pos, |vs|) == Some(VmsAsLoaded(vs))
    decreases |vs|
  {
    hide VmFits, NewBytes, VmData, ReadVm, HasAt, Limit, VmAsLoaded;
    if vs != [] {
      var front, last := vs[..|vs| - 1], vs[|vs| - 1];
      var here := at + |VmDatas(front, at)|;
      HasParts(data, pos, NewTable(front, at), NewBytes(last, here));
      HasParts(data, at, VmDatas(front, at), VmData(last, here));
      VmsRead(data, pos, front, at);
      VmRead(data, pos + 32 * |front|, last, here);
      assert VmsAsLoaded(vs) == VmsAsLoaded(front) + [VmAsLoaded(last)];
    }
  }

  /** The tables of the first k VMs are the starts of the tables of all. */
  lemma {:induction false} FirstVms(data: seq<Byte>, pos: nat, vs: seq<Vm>, at: nat, k: nat)
    requires Roomy(vs) && HasAt(data, pos, NewTable(vs, at)) && HasAt(data, at, VmDatas(vs, at)) && k <= |vs|
    ensures Roomy(vs[..k]) && HasAt(data, pos, NewTable(vs[..k], at)) && HasAt(data, at, VmDatas(vs[..k], at))
    decreases |vs|
  {
    hide NewBytes, VmData, HasAt;
    if k < |vs| {
      var front, last := vs[..|vs| - 1], vs[|vs| - 1];
      var here := at + |VmDatas(front, at)|;
      HasParts(data, pos, NewTable(front, at), NewBytes(last, here));
      HasParts(data, at, VmDatas(front, at), VmData(last, here));
      FirstVms(data, pos, front, at, k);
      assert front[..k] == vs[..k];
    } else {
      assert vs[..k] == vs;
    }
  }

  lemma {:induction false} HashRecordRead(data: seq<Byte>, pos: nat, h: Hash, at: nat)
    requires HasAt(data, pos, HashBytes(h, at)) && h.value < Limit(8) && at < Limit(4)
    ensures ReadAt(data, pos, 8) == h.value && ReadAt(data, pos + 8, 4) == at
  {
    hide ToBytes, ReadAt, HasAt, Limit;
    HasParts(data, pos, ToBytes(h.value, 8), ToBytes(at, 4) + [0, 0, 0, 0]);
    HasParts(data, pos + 8, ToBytes(at, 4), [0, 0, 0, 0]);
    NumberAt(data, pos, h.value, 8);
    NumberAt(data, pos + 8, at, 4);
  }

  predicate AllHashesFit(hs: seq<Hash>) {
    forall i :: 0 <= i < |hs| ==> HashFits(hs[i])
  }

  lemma {:induction false} HashesRead(data: seq<Byte>, pos: nat, hs: seq<Hash>, at: nat)
    requires HasAt(data, pos, HashTable(hs, at)) && HasAt(data, at, Strings(hs)) && |data| < Limit(4)
    requires AllHashesFit(hs)
    ensures ReadHashes(data, pos, |hs|) == Some(hs)
    decreases |hs|
  {
    hide HashBytes, CString, ReadHash, Limit, HasAt, HashFits, ReadHashes;
    if hs == [] {
      assert ReadHashes(data, pos, 0) == Some([]) by { NoHashes(data, pos); }
    } else {
      var front, last := hs[..|hs| - 1], hs[|hs| - 1];
      var here := at + |Strings(front)|;
      HasParts(data, pos, HashTable(front, at), HashBytes(last, here));
      HasParts(data, at, Strings(front), CString(last.text));
      hide HashTable, Strings;
      HashesRead(data, pos, front, at);
      HashRead(data, pos + 16 * |front|, last, here);
      OneMoreHash(data, pos, hs);
    }
  }

  lemma NoHashes(data: seq<Byte>, pos: nat)
    ensures ReadHashes(data, pos, 0) == Some([])
  {
  }

  lemma {:induction false} OneMoreHash(data: seq<Byte>, pos: nat, hs: seq<Hash>)
    requires hs != [] && ReadHashes(data, pos, |hs| - 1) == Some(hs[..|hs| - 1])
    requires ReadHash(data, pos + 16 * (|hs| - 1)) == Some(hs[|hs| - 1])
    ensures ReadHashes(data, pos, |hs|) == Some(hs)
  {
    hide ReadHash;
    assert hs == hs[..|hs| - 1] + [hs[|hs| - 1]];
  }

  lemma {:induction false} HashRead(data: seq<Byte>, pos: nat, h: Hash, at: nat)
    requires HasAt(data, pos, HashBytes(h, at)) && HasAt(data, at, CString(h.text)) && HashFits(h) && |data| < Limit(4)
    ensures ReadHash(data, pos) == Some(h)
  {
    StringInside(data, at, h.text);
    HashRecordRead(data, pos, h, at);
    StringRead(data, at, h.text);
  }

  lemma StringInside(data: seq<Byte>, at: nat, s: Text)
    requires HasAt(data, at, CString(s))
    ensures at < |data|
  {
  }

  // ---------- The whole file ----------

  predicate HeaderFits(h: Header) {
    h.vms < Limit(4) && h.vmsAt < Limit(4) && h.hashes < Limit(4) && h.hashesAt < Limit(4) && h.flags < Limit(8)
    && h.newVms < Limit(4) && h.newVmsAt < Limit(4)
  }

  lemma {:induction false} HeaderRead(data: seq<Byte>, h: Header)
    requires HasAt(data, 0, HeaderBytes(h)) && HeaderFits(h)
    ensures GoodStart(data) && data[8] == VERSION && ReadHeader(data) == h
  {
    hide ToBytes, ReadAt, Limit;
    var t7 := ToBytes(h.newVms, 4) + ToBytes(h.newVmsAt, 4);
    var t6 := ToBytes(h.flags, 8) + t7;
    var t5 := [0, 0, 0, 0] + t6;
    var t4 := ToBytes(h.hashesAt, 4) + t5;
    var t3 := ToBytes(h.hashes, 4) + t4;
    var t2 := ToBytes(h.vmsAt, 4) + t3;
    var t1 := ToBytes(h.vms, 4) + t2;
    var versions: seq<Byte> := [VERSION, MIN_VERSION, 0, 0];
    assert HeaderBytes(h) == MAGIC + (versions + t1);
    hide HasAt, HeaderBytes;
    HasInside(data, 0, HeaderBytes(h));
    HasParts(data, 0, MAGIC, versions + t1);
    HasParts(data, 8, versions, t1);
    HasParts(data, 12, ToBytes(h.vms, 4), t2);
    HasParts(data, 16, ToBytes(h.vmsAt, 4), t3);
    HasParts(data, 20, ToBytes(h.hashes, 4), t4);
    HasParts(data, 24, ToBytes(h.hashesAt, 4), t5);
    HasParts(data, 28, [0, 0, 0, 0], t6);
    HasParts(data, 32, ToBytes(h.flags, 8), t7);
    HasParts(data, 40, ToBytes(h.newVms, 4), ToBytes(h.newVmsAt, 4));
    StartRead(data);
    NumberAt(data, 12, h.vms, 4);
    NumberAt(data, 16, h.vmsAt, 4);
    NumberAt(data, 20, h.hashes, 4);
    NumberAt(data, 24, h.hashesAt, 4);
    NumberAt(data, 32, h.flags, 8);
    NumberAt(data, 40, h.newVms, 4);
    NumberAt(data, 44, h.newVmsAt, 4);
  }

  lemma {:induction false} StartRead(data: seq<Byte>)
    requires |data| >= HEADER_SIZE && HasAt(data, 0, MAGIC) && HasAt(data, 8, [VERSION, MIN_VERSION, 0, 0])
    ensures GoodStart(data) && data[8] == VERSION
  {
    assert data[8..12][0] == data[8] && data[8..12][1] == data[9];
  }

  predicate AllVmsFit(vs: seq<Vm>) {
    forall i :: 0 <= i < |vs| ==> VmFits(vs[i])
  }

  lemma {:induction false} EightParts(data: seq<Byte>, a: seq<Byte>, b: seq<Byte>, c: seq<Byte>, d: seq<Byte>,
                                      e: seq<Byte>, f: seq<Byte>, g: seq<Byte>, h: seq<Byte>)
    requires data == a + (b + (c + (d + (e + (f + (g + h))))))
    ensures HasAt(data, 0, a) && HasAt(data, |a|, b) && HasAt(data, |a| + |b|, c)
    ensures HasAt(data, |a| + |b| + |c| + |d| + |e|, f)
    ensures HasAt(data, |a| + |b| + |c| + |d| + |e| + |f| + |g|, h)
    ensures |data| == |a| + |b| + |c| + |d| + |e| + |f| + |g| + |h|
  {
    WholeIsThere(data);
    hide HasAt;
    HasParts(data, 0, a, b + (c + (d + (e + (f + (g + h))))));
    HasParts(data, |a|, b, c + (d + (e + (f + (g + h)))));
    HasParts(data, |a| + |b|, c, d + (e + (f + (g + h))));
    HasParts(data, |a| + |b| + |c|, d, e + (f + (g + h)));
    HasParts(data, |a| + |b| + |c| + |d|, e, f + (g + h));
    HasParts(data, |a| + |b| + |c| + |d| + |e|, f, g + h);
    HasParts(data, |a| + |b| + |c| + |d| + |e| + |f|, g, h);
  }

  /** The parts of the file, where they lie. */
  lemma {:induction false} FileParts(data: seq<Byte>, hs: seq<Hash>, vs: seq<Vm>, total: nat)
    requires Roomy(vs) && |vs| <= total && data == FileBytes(hs, vs, total)
    ensures var h, at := FileHeader(hs, vs, total), DataStart(hs, total);
      && HasAt(data, 0, HeaderBytes(h)) && HasAt(data, HEADER_SIZE, HashTable(hs, HEADER_SIZE + 16 * |hs|))
      && HasAt(data, HEADER_SIZE + 16 * |hs|, Strings(hs))
      && HasAt(data, h.newVmsAt, NewTable(vs, at)) && HasAt(data, at, VmDatas(vs, at))
      && h.newVmsAt + 32 * total <= |data|
  {
    hide HasAt, HashTable, Strings, OldTable, NewTable, VmDatas, HeaderBytes, Zeros, Olds;
    var h, at := FileHeader(hs, vs, total), DataStart(hs, total);
    EightParts(data, HeaderBytes(h), HashTable(hs, HEADER_SIZE + 16 * |hs|), Strings(hs), OldTable(vs, at),
      Zeros(24 * (total - Olds(vs))),
      NewTable(vs, at), Zeros(32 * (total - |vs|)), VmDatas(vs, at));
  }

  lemma {:induction false} LoadFrom(data: seq<Byte>, h: Header, hashes: seq<Hash>, vms: seq<LoadedVm>,
                                    oldVms: map<nat, nat>)
    requires GoodStart(data) && data[8] == VERSION && ReadHeader(data) == h && h.flags == 1
    requires TableFits(h.hashesAt, 16, h.hashes, data) && TableFits(h.vmsAt, 32, h.newVms, data)
    requires ReadHashes(data, h.hashesAt, h.hashes) == Some(hashes) && ReadVms(data, h.newVmsAt, h.vms) == Some(vms)
    ensures Load(data, oldVms) == Some(Loaded(hashes, vms))
  {
    hide ReadHashes, ReadVms, ReadOldVms, ReadHeader;
    assert [] + vms == vms;
  }

  /** Loading a pack file registers its hashes, and as many of its VMs as have an old id. */
  lemma {:induction false} LoadsBack(data: seq<Byte>, hs: seq<Hash>, vs: seq<Vm>, total: nat, oldVms: map<nat, nat>)
    requires Roomy(vs) && |vs| <= total && data == FileBytes(hs, vs, total) && |data| < Limit(4)
    requires AllHashesFit(hs) && AllVmsFit(vs)
    ensures Load(data, oldVms) == Some(Loaded(hs, VmsAsLoaded(vs[..Olds(vs)])))
  {
    var h, at := FileHeader(hs, vs, total), DataStart(hs, total);
    hide HasAt, Limit, HashTable, Strings, NewTable, VmDatas, HeaderBytes, FileBytes, Olds, ReadVms, ReadHashes, VmFits,
      VmAsLoaded, GoodStart, ReadHeader, AllHashesFit, Load;
    FileParts(data, hs, vs, total);
    HasInside(data, HEADER_SIZE, HashTable(hs, HEADER_SIZE + 16 * |hs|));
    SmallHeader(h, |data|);
    HeaderRead(data, h);
    HashesRead(data, HEADER_SIZE, hs, HEADER_SIZE + 16 * |hs|);
    FirstVms(data, h.newVmsAt, vs, at, Olds(vs));
    VmsRead(data, h.newVmsAt, vs[..Olds(vs)], at);
    LoadFrom(data, h, hs, VmsAsLoaded(vs[..Olds(vs)]), oldVms);
  }

  lemma {:induction false} SmallHeader(h: Header, size: nat)
    requires size < Limit(4) && h.vms <= h.newVms && h.flags == 1
    requires h.hashesAt == HEADER_SIZE <= h.vmsAt <= h.newVmsAt <= size
    requires 16 * h.hashes <= size && 32 * h.newVms <= size
    ensures HeaderFits(h)
  {
    Limits();
  }

  /** All VMs come back exactly if each has an old id. */
  lemma {:induction false} AllBackIffOlds(vs: seq<Vm>)
    ensures VmsAsLoaded(vs[..Olds(vs)]) == VmsAsLoaded(vs) <==> forall i :: 0 <= i < |vs| ==> vs[i].oldId != 0
  {
    OldsOf(vs);
    if Olds(vs) == |vs| {
      assert vs[..|vs|] == vs;
    }
  }

  lemma {:induction false} OldsOf(vs: seq<Vm>)
    ensures Olds(vs) == |vs| <==> forall i :: 0 <= i < |vs| ==> vs[i].oldId != 0
    decreases |vs|
  {
    if vs != [] {
      var front := vs[..|vs| - 1];
      OldsOf(front);
      assert forall i :: 0 <= i < |front| ==> front[i] == vs[i];
    }
  }
}
