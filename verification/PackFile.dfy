/** The pack file writer, back-patching a growing buffer. */
module PackFile {
  import opened Bytes
  import opened PackFormat

  /** A VM of the map, with all its platforms. */
  datatype Info = Info(magic: nat, name: Text, flags: nat, oldId: nat, platforms: seq<Platform>)

  /** (platform, vm) pairs to pack, platform 0 for any; the empty set packs everything. */
  type Selection = set<(nat, nat)>

  predicate PacksVm(sel: Selection, vm: nat) {
    sel == {} || vm in (set s | s in sel :: s.1)
  }

  predicate PacksPlatform(sel: Selection, vm: nat, platform: nat) {
    sel == {} || (platform, vm) in sel || (0, vm) in sel
  }

  function ChosenPlatforms(sel: Selection, vm: nat, ps: seq<Platform>): (r: seq<Platform>)
    ensures |r| <= |ps|
  {
    if ps == [] then [] else
      var front, last := ChosenPlatforms(sel, vm, ps[..|ps| - 1]), ps[|ps| - 1];
      if PacksPlatform(sel, vm, last.id) then front + [last] else front
  }

  function AsVm(sel: Selection, i: Info): Vm {
    Vm(i.magic, i.name, i.flags, i.oldId, |i.platforms|, ChosenPlatforms(sel, i.magic, i.platforms))
  }

  /** The VMs that go into the file. */
  function Chosen(sel: Selection, infos: seq<Info>): (r: seq<Vm>)
    ensures |r| <= |infos| && Roomy(r)
  {
    if infos == [] then [] else
      var front, last := Chosen(sel, infos[..|infos| - 1]), infos[|infos| - 1];
      if PacksVm(sel, last.magic) then front + [AsVm(sel, last)] else front
  }

  /** A platform is packed exactly if the selection is empty, or names it or platform 0 with the VM;
      the chosen ones stay in their order. */
  lemma {:induction false} PlatformsChosen(sel: Selection, vm: nat, ps: seq<Platform>)
    ensures forall p :: p in ChosenPlatforms(sel, vm, ps) <==>
      p in ps && (sel == {} || (p.id, vm) in sel || (0, vm) in sel)
    ensures sel == {} || (0, vm) in sel ==> ChosenPlatforms(sel, vm, ps) == ps
  {
    if ps != [] {
      var front, last := ps[..|ps| - 1], ps[|ps| - 1];
      PlatformsChosen(sel, vm, front);
      assert ps == front + [last];
    }
  }

  /** v is packed with all platforms of i. */
  predicate IsWhole(v: Vm, i: Info) {
    && v.magic == i.magic && v.name == i.name && v.flags == i.flags && v.oldId == i.oldId
    && v.room == |i.platforms| && v.platforms == i.platforms
  }

  /** A VM is packed exactly if the selection is empty or has a pair with it. */
  lemma {:induction false} VmsChosen(sel: Selection, infos: seq<Info>)
    ensures forall v :: v in Chosen(sel, infos) <==>
      exists i :: i in infos && (sel == {} || exists p :: (p, i.magic) in sel) && v == AsVm(sel, i)
    ensures sel == {} ==> |Chosen(sel, infos)| == |infos|
    ensures sel == {} ==> forall k :: 0 <= k < |infos| ==> IsWhole(Chosen(sel, infos)[k], infos[k])
  {
    if infos != [] {
      var front, last := infos[..|infos| - 1], infos[|infos| - 1];
      VmsChosen(sel, front);
      assert infos == front + [last];
      assert PacksVm(sel, last.magic) <==> sel == {} || exists p :: (p, last.magic) in sel by {
        if sel != {} && last.magic in (set s | s in sel :: s.1) {
          var s :| s in sel && s.1 == last.magic;
          assert (s.0, last.magic) in sel;
        }
        if p :| (p, last.magic) in sel {
          assert (p, last.magic).1 in (set s | s in sel :: s.1);
        }
      }
      PlatformsChosen(sel, last.magic, last.platforms);
    }
  }

  // ---------- Patching ----------

  /** Filling the start of a run of zeros. */
  lemma {:induction false} FillZeros(a: seq<Byte>, n: nat, b: seq<Byte>, x: seq<Byte>)
    requires |x| <= n
    ensures Patched(a + (Zeros(n) + b), |a|, x) == a + (x + (Zeros(n - |x|) + b))
  {
    ZerosSplit(|x|, n);
    var s := a + (Zeros(n) + b);
    hide Zeros;
    assert s[..|a|] == a;
    assert s[|a| + |x|..] == Zeros(n - |x|) + b;
  }

  class PackWriter {
    var data: seq<Byte>

    constructor ()
      ensures data == []
    {
      data := [];
    }

    method AppendString(s: Text) returns (at: nat)
      modifies this
      ensures at == old(|data|) && data == old(data) + CString(s)
    {
      at := |data|;
      for i := 0 to |s|
        invariant data == old(data) + s[..i]
      {
        data := data + [s[i]];
      }
      data := data + [0];
      assert s[..|s|] == s;
    }

    method CreateBlock(size: nat) returns (at: nat)
      modifies this
      ensures at == old(|data|) && data == old(data) + Zeros(size)
    {
      at := |data|;
      ZerosEnd(0);
      for i := 0 to size
        invariant data == old(data) + Zeros(i)
      {
        ZerosEnd(i);
        data := data + [0];
      }
    }

    /** Stores over bytes that are already there. */
    method Patch(at: nat, x: seq<Byte>)
      requires at + |x| <= |data|
      modifies this
      ensures data == Patched(old(data), at, x)
    {
      data := data[..at] + x + data[at + |x|..];
    }

    method WriteOp(o: Op, at: nat, i: nat, ghost base: seq<Byte>, ghost done: seq<Op>, ghost n: nat)
      requires |base| == at && |done| == i < n && data == OpsBuffer(base, done, n)
      modifies this
      ensures data == OpsBuffer(base, done + [o], n)
    {
      hide OpsBuffer, OpBytes, Patched;
      OpStep(base, done, n, o);
      Patch(at + 4 * i, OpBytes(o));
    }

    method WriteOps(ops: seq<Op>) returns (at: nat)
      modifies this
      ensures at == old(|data|) && data == old(data) + AllOps(ops)
    {
      ghost var base := data;
      hide OpsBuffer, Zeros, AllOps;
      at := CreateBlock(4 * |ops|);
      StartOfOps(base, |ops|);
      for i := 0 to |ops|
        invariant data == OpsBuffer(base, ops[..i], |ops|)
      {
        WriteOp(ops[i], at, i, base, ops[..i], |ops|);
        assert ops[..i + 1] == ops[..i] + [ops[i]];
      }
      assert ops[..|ops|] == ops;
      EndOfOps(base, ops);
    }

    /** The opcodes of a platform at the end of the file, and its record in the VM's block. */
    method WritePlatform(p: Platform, plts: nat, count: nat, ghost base: seq<Byte>, ghost done: seq<Platform>,
                         ghost room: nat)
      requires |base| == plts && |done| == count < room
      requires data == VmBuffer(base, done, room)
      modifies this
      ensures data == VmBuffer(base, done + [p], room)
    {
      hide VmBuffer, AllOps, Patched, PlatformRecord;
      var at, n := 0, 0;
      if p.ops.Some? {
        at := WriteOps(p.ops.value);
        n := |p.ops.value|;
      }
      PlatformStep(base, done, room, p, old(data), data);
      Patch(plts + 12 * count, PlatformRecord(p.id, at, n));
    }

    /** The platforms to pack, in a block that has room for all. */
    method WritePlatforms(sel: Selection, vm: nat, ps: seq<Platform>, plts: nat, ghost base: seq<Byte>)
      returns (count: nat)
      requires |base| == plts && data == base + Zeros(12 * |ps|)
      modifies this
      ensures var chosen := ChosenPlatforms(sel, vm, ps);
        count == |chosen| && data == VmBuffer(base, chosen, |ps|)
    {
      count := 0;
      ghost var done: seq<Platform> := [];
      StartOfPlatforms(base, |ps|);
      NoChoice(sel, vm, ps);
      hide VmBuffer, PacksPlatform, ChosenPlatforms;
      for i := 0 to |ps|
        invariant done == ChosenPlatforms(sel, vm, ps[..i]) && count == |done| <= i
        invariant data == VmBuffer(base, done, |ps|)
      {
        ChoiceThen(sel, vm, ps, i);
        if PacksPlatform(sel, vm, ps[i].id) {
          WritePlatform(ps[i], plts, count, base, done, |ps|);
          done := done + [ps[i]];
          count := count + 1;
        }
      }
      assert ps[..|ps|] == ps;
    }

    /** The name, platforms and opcodes of a VM, at the end of the file. */
    method WriteVm(sel: Selection, info: Info) returns (at: nat, plts: nat, count: nat)
      modifies this
      ensures at == old(|data|) && plts == at + |info.name| + 1
      ensures count == |ChosenPlatforms(sel, info.magic, info.platforms)|
      ensures data == old(data) + VmData(AsVm(sel, info), at)
    {
      hide Zeros, VmBuffer, ChosenPlatforms;
      at := AppendString(info.name);
      ghost var base := data;
      plts := CreateBlock(12 * |info.platforms|);
      count := WritePlatforms(sel, info.magic, info.platforms, plts, base);
      VmDataOf(old(data), AsVm(sel, info), at, data);
    }

    /** Room for the hash table, and where it is. */
    method StartHashes(n: nat) returns (table: nat)
      requires data == HeaderBytes(Header(0, 0, 0, 0, 0, 0, 0))
      modifies this
      ensures table == HEADER_SIZE && data == HashBuffer(HeaderBytes(Header(0, 0, n, HEADER_SIZE, 0, 0, 0)), [], n)
    {
      hide Zeros, HeaderBytes, HashBuffer, Patched;
      table := CreateBlock(16 * n);
      StoreHashFields(Header(0, 0, 0, 0, 0, 0, 0), n, table, Zeros(16 * n));
      Patch(20, ToBytes(n, 4) + ToBytes(table, 4));
      StartOfHashes(HeaderBytes(Header(0, 0, n, HEADER_SIZE, 0, 0, 0)), n);
    }

    method WriteHash(h: Hash, table: nat, i: nat, ghost header: seq<Byte>, ghost done: seq<Hash>, ghost n: nat)
      requires |header| == table && |done| == i < n && data == HashBuffer(header, done, n)
      modifies this
      ensures data == HashBuffer(header, done + [h], n)
    {
      hide HashBuffer, Patched, HashRecord, CString;
      var at := AppendString(h.text);
      HashStep(header, done, n, h, old(data), data);
      Patch(table + 16 * i, HashRecord(h.value, at));
    }

    /** The hash table, each entry patched in behind its string. */
    method WriteHashes(hs: seq<Hash>)
      requires data == HeaderBytes(Header(0, 0, 0, 0, 0, 0, 0))
      modifies this
      ensures data == HeaderBytes(Header(0, 0, |hs|, HEADER_SIZE, 0, 0, 0)) +
        (HashTable(hs, HEADER_SIZE + 16 * |hs|) + Strings(hs))
    {
      hide HeaderBytes, HashBuffer, HashTable, Strings;
      var table := StartHashes(|hs|);
      ghost var header := HeaderBytes(Header(0, 0, |hs|, HEADER_SIZE, 0, 0, 0));
      for i := 0 to |hs|
        invariant data == HashBuffer(header, hs[..i], |hs|)
      {
        WriteHash(hs[i], table, i, header, hs[..i], |hs|);
        assert hs[..i + 1] == hs[..i] + [hs[i]];
      }
      assert hs[..|hs|] == hs;
      EndOfHashes(header, hs);
    }

    /** A VM: its data at the end of the file, its records in the two tables. */
    method AddVm(sel: Selection, info: Info, oldTable: nat, olds: nat, newTable: nat, news: nat, ghost head: seq<Byte>,
                 ghost done: seq<Vm>, ghost total: nat)
      requires Roomy(done) && |done| == news < total && olds == Olds(done) && oldTable == |head|
      requires newTable == |head| + 24 * total
      requires data == FileBuffer(head, done, total)
      modifies this
      ensures Roomy(done + [AsVm(sel, info)]) && data == FileBuffer(head, done + [AsVm(sel, info)], total)
    {
      hide FileBuffer, VmData, Patched, OldBytes, NewBytes, ChosenPlatforms;
      ghost var v := AsVm(sel, info);
      ghost var before := data;
      var at, plts, count := WriteVm(sel, info);
      VmAppended(head, done, v, total, before, data);
      if info.oldId != 0 {
        OldRecordIs(v, at);
        Patch(oldTable + 24 * olds, OldRecord(at, info.flags, info.oldId, count, plts));
      }
      NewRecordIs(v, at);
      Patch(newTable + 32 * news, NewRecord(at, info.flags, info.magic, count, plts));
    }

    method StartVms(n: nat) returns (oldTable: nat, newTable: nat)
      modifies this
      ensures oldTable == old(|data|) && newTable == old(|data|) + 24 * n && data == FileBuffer(old(data), [], n)
    {
      hide FileBuffer, Zeros;
      oldTable := CreateBlock(24 * n);
      newTable := CreateBlock(32 * n);
      StartOfVms(old(data), n);
    }

    method WriteVms(sel: Selection, infos: seq<Info>) returns (oldTable: nat, olds: nat, newTable: nat, news: nat)
      modifies this
      ensures oldTable == old(|data|) && newTable == old(|data|) + 24 * |infos|
      ensures olds == Olds(Chosen(sel, infos)) && news == |Chosen(sel, infos)|
      ensures data == FileBuffer(old(data), Chosen(sel, infos), |infos|)
    {
      ghost var head := data;
      hide FileBuffer, PacksVm, AsVm, Chosen, Olds, Roomy;
      oldTable, newTable := StartVms(|infos|);
      olds, news := 0, 0;
      ghost var done: seq<Vm> := [];
      NothingChosen(sel, infos);
      for i := 0 to |infos|
        invariant done == Chosen(sel, infos[..i]) && news == |done| <= i && olds == Olds(done) && Roomy(done)
        invariant data == FileBuffer(head, done, |infos|)
      {
        ChosenThen(sel, infos, i);
        if PacksVm(sel, infos[i].magic) {
          AddVm(sel, infos[i], oldTable, olds, newTable, news, head, done, |infos|);
          OldsThen(done, AsVm(sel, infos[i]));
          AsVmKeepsOld(sel, infos[i]);
          done := done + [AsVm(sel, infos[i])];
          news := news + 1;
          if infos[i].oldId != 0 {
            olds := olds + 1;
          }
        }
      }
      assert infos[..|infos|] == infos;
    }

    method Begin()
      requires data == []
      modifies this
      ensures data == HeaderBytes(Header(0, 0, 0, 0, 0, 0, 0))
    {
      StoreStart();
      hide Zeros, Patched, HeaderBytes;
      ghost var at := CreateBlock(HEADER_SIZE);
      assert [] + Zeros(HEADER_SIZE) == Zeros(HEADER_SIZE);
      Patch(0, MAGIC);
      Patch(8, [VERSION, MIN_VERSION]);
    }

    /** Stores the counts and places of the VM tables. */
    method Finish(olds: nat, oldTable: nat, news: nat, newTable: nat, ghost h: Header, ghost rest: seq<Byte>)
      requires data == HeaderBytes(h) + rest
      modifies this
      ensures data == HeaderBytes(h.(vms := olds, vmsAt := oldTable, flags := 1, newVms := news,
        newVmsAt := newTable)) + rest
    {
      hide ToBytes, Patched, HeaderBytes;
      StoreVmFields(h, olds, oldTable, rest);
      Patch(12, ToBytes(olds, 4) + ToBytes(oldTable, 4));
      StoreNewFields(h.(vms := olds, vmsAt := oldTable), 1, news, newTable, rest);
      Patch(32, ToBytes(1, 8) + (ToBytes(news, 4) + ToBytes(newTable, 4)));
    }

    /** Packs all hashes and the selected VMs. */
    method Pack(hs: seq<Hash>, infos: seq<Info>, sel: Selection)
      requires data == []
      modifies this
      ensures data == FileBytes(hs, Chosen(sel, infos), |infos|)
    {
      hide HeaderBytes, HashTable, Strings, FileBuffer, Chosen, FileBytes, FileRest, Olds;
      Begin();
      WriteHashes(hs);
      ghost var h := Header(0, 0, |hs|, HEADER_SIZE, 0, 0, 0);
      ghost var vs := Chosen(sel, infos);
      var oldTable, olds, newTable, news := WriteVms(sel, infos);
      FileOf(h, hs, vs, |infos|);
      Finish(olds, oldTable, news, newTable, h, FileRest(hs, vs, |infos|));
    }
  }

  function OpsBuffer(base: seq<Byte>, done: seq<Op>, n: nat): seq<Byte>
    requires |done| <= n
  {
    base + (AllOps(done) + (Zeros(4 * (n - |done|)) + []))
  }

  lemma {:induction false} StartOfOps(base: seq<Byte>, n: nat)
    ensures base + Zeros(4 * n) == OpsBuffer(base, [], n)
  {
    hide Zeros;
    assert [] + (Zeros(4 * n) + []) == Zeros(4 * n);
  }

  lemma {:induction false} OpStep(base: seq<Byte>, done: seq<Op>, n: nat, o: Op)
    requires |done| < n
    ensures |base| + 4 * |done| + 4 <= |OpsBuffer(base, done, n)|
    ensures Patched(OpsBuffer(base, done, n), |base| + 4 * |done|, OpBytes(o)) == OpsBuffer(base, done + [o], n)
  {
    assert (done + [o])[..|done|] == done;
    assert AllOps(done + [o]) == AllOps(done) + OpBytes(o);
    hide Zeros, AllOps, OpBytes, Patched;
    FillIn(base, AllOps(done), 4 * (n - |done|), [], OpBytes(o));
  }

  lemma {:induction false} EndOfOps(base: seq<Byte>, ops: seq<Op>)
    ensures OpsBuffer(base, ops, |ops|) == base + AllOps(ops)
  {
    assert Zeros(0) == [] by { ZerosEnd(0); }
    hide Zeros, AllOps;
    assert AllOps(ops) + ([] + []) == AllOps(ops);
  }

  lemma NoChoice(sel: Selection, vm: nat, ps: seq<Platform>)
    ensures ChosenPlatforms(sel, vm, ps[..0]) == []
  {
  }

  lemma {:induction false} ChoiceThen(sel: Selection, vm: nat, ps: seq<Platform>, i: nat)
    requires i < |ps|
    ensures ChosenPlatforms(sel, vm, ps[..i + 1]) ==
      ChosenPlatforms(sel, vm, ps[..i]) + if PacksPlatform(sel, vm, ps[i].id) then [ps[i]] else []
  {
    assert ps[..i + 1][..i] == ps[..i];
    hide PacksPlatform;
  }

  /** A VM under way: what comes before its platform block, the block, and the opcodes so far. */
  function VmBuffer(base: seq<Byte>, done: seq<Platform>, room: nat): seq<Byte>
    requires |done| <= room
  {
    base + (PlatformTable(done, |base| + 12 * room) + (Zeros(12 * (room - |done|)) + OpBlocks(done)))
  }

  lemma {:induction false} StartOfPlatforms(base: seq<Byte>, room: nat)
    ensures base + Zeros(12 * room) == VmBuffer(base, [], room)
  {
    hide Zeros;
    assert Zeros(12 * room) + [] == Zeros(12 * room);
  }

  function PlatformRecord(id: nat, at: nat, n: nat): (r: seq<Byte>)
    ensures |r| == 12
  {
    ToBytes(id % 256, 4) + (ToBytes(at, 4) + ToBytes(n, 4))
  }

  lemma {:induction false} VmDataOf(base: seq<Byte>, v: Vm, at: nat, data: seq<Byte>)
    requires |v.platforms| <= v.room && at == |base| && data == VmBuffer(base + CString(v.name), v.platforms, v.room)
    ensures data == base + VmData(v, at)
  {
    hide Zeros, PlatformTable, OpBlocks, CString;
  }

  lemma {:induction false} TablesGrow(done: seq<Platform>, at: nat, p: Platform)
    ensures PlatformTable(done + [p], at) ==
      PlatformTable(done, at) + PlatformRecord(p.id, if p.ops.None? then 0 else at + |OpBlocks(done)|, |OpsOf(p)|)
    ensures OpBlocks(done + [p]) == OpBlocks(done) + AllOps(OpsOf(p))
  {
    assert (done + [p])[..|done|] == done;
    hide AllOps;
  }

  lemma {:induction false} Regroup(a: seq<Byte>, b: seq<Byte>, c: seq<Byte>, d: seq<Byte>, e: seq<Byte>)
    ensures (a + (b + (c + d))) + e == a + (b + (c + (d + e)))
  {
    assert (c + d) + e == c + (d + e);
    assert (b + (c + d)) + e == b + ((c + d) + e);
    assert (a + (b + (c + d))) + e == a + ((b + (c + d)) + e);
  }

  lemma {:induction false} AppendAndFill(a: seq<Byte>, table: seq<Byte>, n: nat, b: seq<Byte>, more: seq<Byte>,
                                         x: seq<Byte>, data: seq<Byte>)
    requires |x| <= n && data == (a + (table + (Zeros(n) + b))) + more
    ensures |a| + |table| + |x| <= |data|
    ensures Patched(data, |a| + |table|, x) == a + ((table + x) + (Zeros(n - |x|) + (b + more)))
  {
    hide Zeros, Patched;
    Regroup(a, table, Zeros(n), b, more);
    FillIn(a, table, n, b + more, x);
  }

  /** One more platform: its opcodes at the end, its record in the table. */
  lemma {:induction false} PlatformStep(base: seq<Byte>, done: seq<Platform>, room: nat, p: Platform, before: seq<Byte>,
                                        data: seq<Byte>)
    requires |done| < room && before == VmBuffer(base, done, room)
    requires data == if p.ops.None? then before else before + AllOps(p.ops.value)
    ensures |base| + 12 * |done| + 12 <= |data|
    ensures Patched(data, |base| + 12 * |done|,
                    PlatformRecord(p.id, if p.ops.None? then 0 else |before|, |OpsOf(p)|)) ==
      VmBuffer(base, done + [p], room)
  {
    hide Zeros, PlatformTable, OpBlocks, Patched, PlatformRecord;
    var more := AllOps(OpsOf(p));
    assert data == before + more;
    hide AllOps;
    var opsAt, n := |base| + 12 * room, 12 * (room - |done|);
    var table, blocks := PlatformTable(done, opsAt), OpBlocks(done);
    Lengths(base, table, n, blocks);
    var record := PlatformRecord(p.id, if p.ops.None? then 0 else opsAt + |blocks|, |OpsOf(p)|);
    AppendAndFill(base, table, n, blocks, more, record, data);
    TablesGrow(done, opsAt, p);
  }

  lemma Lengths(a: seq<Byte>, b: seq<Byte>, n: nat, c: seq<Byte>)
    ensures |a + (b + (Zeros(n) + c))| == |a| + |b| + n + |c|
  {
  }

  lemma {:induction false} ZerosEnd(n: nat)
    ensures Zeros(n + 1) == Zeros(n) + [0] && Zeros(0) == []
  {
    if n > 0 {
      ZerosEnd(n - 1);
    }
  }

  /** The next record of a table in the middle of the file. */
  lemma {:induction false} FillIn(a: seq<Byte>, table: seq<Byte>, n: nat, b: seq<Byte>, x: seq<Byte>)
    requires |x| <= n
    ensures |a| + |table| + |x| <= |a + (table + (Zeros(n) + b))|
    ensures Patched(a + (table + (Zeros(n) + b)), |a| + |table|, x) == a + ((table + x) + (Zeros(n - |x|) + b))
  {
    FillZeros(a + table, n, b, x);
    hide Zeros, Patched;
    assert (a + table) + (Zeros(n) + b) == a + (table + (Zeros(n) + b));
    assert (a + table) + (x + (Zeros(n - |x|) + b)) == a + ((table + x) + (Zeros(n - |x|) + b));
  }

  // ---------- The hash table under way ----------

  function HashRecord(value: nat, at: nat): (r: seq<Byte>)
    ensures |r| == 16
  {
    ToBytes(value, 8) + (ToBytes(at, 4) + [0, 0, 0, 0])
  }

  function HashBuffer(header: seq<Byte>, done: seq<Hash>, n: nat): seq<Byte>
    requires |done| <= n
  {
    header + (HashTable(done, |header| + 16 * n) + (Zeros(16 * (n - |done|)) + Strings(done)))
  }

  lemma {:induction false} StartOfHashes(header: seq<Byte>, n: nat)
    ensures header + Zeros(16 * n) == HashBuffer(header, [], n)
  {
    hide Zeros;
    assert Zeros(16 * n) + [] == Zeros(16 * n);
  }

  lemma {:induction false} EndOfHashes(header: seq<Byte>, hs: seq<Hash>)
    ensures HashBuffer(header, hs, |hs|) == header + (HashTable(hs, |header| + 16 * |hs|) + Strings(hs))
  {
    assert Zeros(0) + Strings(hs) == Strings(hs) by { ZerosEnd(0); }
    hide Zeros, HashTable, Strings;
  }

  lemma {:induction false} HashTablesGrow(done: seq<Hash>, at: nat, h: Hash)
    ensures HashTable(done + [h], at) == HashTable(done, at) + HashRecord(h.value, at + |Strings(done)|)
    ensures Strings(done + [h]) == Strings(done) + CString(h.text)
  {
    assert (done + [h])[..|done|] == done;
  }

  lemma {:induction false} HashStep(header: seq<Byte>, done: seq<Hash>, n: nat, h: Hash, before: seq<Byte>,
                                    data: seq<Byte>)
    requires |done| < n && before == HashBuffer(header, done, n) && data == before + CString(h.text)
    ensures |header| + 16 * |done| + 16 <= |data|
    ensures Patched(data, |header| + 16 * |done|, HashRecord(h.value, |before|)) == HashBuffer(header, done + [h], n)
  {
    hide Zeros, HashTable, Strings, Patched, HashRecord, CString;
    var at, room := |header| + 16 * n, 16 * (n - |done|);
    var table, strings := HashTable(done, at), Strings(done);
    Lengths(header, table, room, strings);
    AppendAndFill(header, table, room, strings, CString(h.text), HashRecord(h.value, at + |strings|), data);
    HashTablesGrow(done, at, h);
  }

  // ---------- The VM tables under way ----------

  function OldRecord(at: nat, flags: nat, oldId: nat, count: nat, plts: nat): (r: seq<Byte>)
    ensures |r| == 24
  {
    ToBytes(at, 4) + ([0, 0, 0, 0] + (ToBytes(flags, 8) + ([oldId % 256, count % 256, 0, 0] + ToBytes(plts, 4))))
  }

  function NewRecord(at: nat, flags: nat, magic: nat, count: nat, plts: nat): (r: seq<Byte>)
    ensures |r| == 32
  {
    ToBytes(at, 4) +
      ([0, 0, 0, 0] + (ToBytes(flags, 8) + (ToBytes(magic, 8) + ([count % 256, 0, 0, 0] + ToBytes(plts, 4)))))
  }

  lemma OldRecordIs(v: Vm, at: nat)
    ensures OldRecord(at, v.flags, v.oldId, |v.platforms|, at + |v.name| + 1) == OldBytes(v, at)
  {
  }

  lemma NewRecordIs(v: Vm, at: nat)
    ensures NewRecord(at, v.flags, v.magic, |v.platforms|, at + |v.name| + 1) == NewBytes(v, at)
  {
  }

  /** The file under way: what comes before the VM tables, the tables, and the data so far. */
  function FileBuffer(head: seq<Byte>, done: seq<Vm>, total: nat): seq<Byte>
    requires Roomy(done) && |done| <= total
  {
    var at := |head| + 56 * total;
    head + (OldTable(done, at) + (Zeros(24 * (total - Olds(done))) +
      (NewTable(done, at) + (Zeros(32 * (total - |done|)) + VmDatas(done, at)))))
  }

  lemma {:induction false} StartOfVms(head: seq<Byte>, total: nat)
    ensures (head + Zeros(24 * total)) + Zeros(32 * total) == FileBuffer(head, [], total)
  {
    hide Zeros;
    assert Zeros(32 * total) + [] == Zeros(32 * total);
  }

  lemma NothingChosen(sel: Selection, infos: seq<Info>)
    ensures Chosen(sel, infos[..0]) == [] && Olds([]) == 0
  {
  }

  lemma {:induction false} ChosenThen(sel: Selection, infos: seq<Info>, i: nat)
    requires i < |infos|
    ensures Chosen(sel, infos[..i + 1]) ==
      if PacksVm(sel, infos[i].magic) then Chosen(sel, infos[..i]) + [AsVm(sel, infos[i])] else Chosen(sel, infos[..i])
  {
    assert infos[..i + 1][..i] == infos[..i];
    hide PacksVm, AsVm;
  }

  lemma {:induction false} OldsThen(done: seq<Vm>, v: Vm)
    ensures Olds(done + [v]) == Olds(done) + if v.oldId != 0 then 1 else 0
  {
    assert (done + [v])[..|done|] == done;
  }

  lemma AsVmKeepsOld(sel: Selection, info: Info)
    ensures AsVm(sel, info).oldId == info.oldId
  {
  }

  lemma {:induction false} VmTablesGrow(done: seq<Vm>, at: nat, v: Vm)
    requires Roomy(done) && |v.platforms| <= v.room
    ensures Roomy(done + [v]) && VmDatas(done + [v], at) == VmDatas(done, at) + VmData(v, at + |VmDatas(done, at)|)
    ensures NewTable(done + [v], at) == NewTable(done, at) + NewBytes(v, at + |VmDatas(done, at)|)
    ensures OldTable(done + [v], at) == OldTable(done, at) +
      (if v.oldId != 0 then OldBytes(v, at + |VmDatas(done, at)|) else [])
  {
    hide NewBytes, OldBytes, VmData, Olds;
    var all := done + [v];
    assert all[..|all| - 1] == done && all[|all| - 1] == v;
  }

  /** Appending to the end and filling both tables. */
  lemma {:induction false} FillBoth(a: seq<Byte>, t1: seq<Byte>, n1: nat, t2: seq<Byte>, n2: nat, d: seq<Byte>,
                                    v: seq<Byte>, x: seq<Byte>, y: seq<Byte>, data: seq<Byte>)
    requires |x| <= n1 && |y| <= n2 && data == (a + (t1 + (Zeros(n1) + (t2 + (Zeros(n2) + d))))) + v
    ensures |data| == |a| + |t1| + n1 + |t2| + n2 + |d| + |v|
    ensures Patched(Patched(data, |a| + |t1|, x), |a| + |t1| + n1 + |t2|, y) ==
      a + ((t1 + x) + (Zeros(n1 - |x|) + ((t2 + y) + (Zeros(n2 - |y|) + (d + v)))))
  {
    hide Patched, Zeros;
    var tail := t2 + (Zeros(n2) + d);
    Regroup(a, t1, Zeros(n1), tail, v);
    AppendAndFill(a, t1, n1, tail, v, x, data);
    var a2 := a + ((t1 + x) + Zeros(n1 - |x|));
    assert tail + v == t2 + (Zeros(n2) + (d + v));
    Reassociate(a, t1 + x, Zeros(n1 - |x|), t2 + (Zeros(n2) + (d + v)));
    FillIn(a2, t2, n2, d + v, y);
    Reassociate(a, t1 + x, Zeros(n1 - |x|), (t2 + y) + (Zeros(n2 - |y|) + (d + v)));
  }

  lemma Reassociate(a: seq<Byte>, b: seq<Byte>, c: seq<Byte>, d: seq<Byte>)
    ensures a + (b + (c + d)) == (a + (b + c)) + d
  {
  }

  lemma {:induction false} VmAppended(head: seq<Byte>, done: seq<Vm>, v: Vm, total: nat, before: seq<Byte>,
                                      data: seq<Byte>)
    requires Roomy(done) && |done| < total && |v.platforms| <= v.room
    requires before == FileBuffer(head, done, total) && data == before + VmData(v, |before|)
    ensures Roomy(done + [v]) && |data| >= |head| + 56 * total
    ensures var one := if v.oldId != 0 then Patched(data, |head| + 24 * Olds(done), OldBytes(v, |before|)) else data;
      Patched(one, |head| + 24 * total + 32 * |done|, NewBytes(v, |before|)) == FileBuffer(head, done + [v], total)
  {
    hide Zeros, VmData, OldTable, NewTable, VmDatas, Patched, OldBytes, NewBytes, Olds;
    var at, n1, n2 := |head| + 56 * total, 24 * (total - Olds(done)), 32 * (total - |done|);
    var d := VmDatas(done, at);
    FileBufferSize(head, done, total);
    var x: seq<Byte> := if v.oldId != 0 then OldBytes(v, at + |d|) else [];
    FillBoth(head, OldTable(done, at), n1, NewTable(done, at), n2, d, VmData(v, at + |d|), x, NewBytes(v, at + |d|),
      data);
    VmTablesGrow(done, at, v);
    OldsThen(done, v);
    PatchedNothing(data, |head| + 24 * Olds(done));
  }

  lemma PatchedNothing(s: seq<Byte>, at: nat)
    requires at <= |s|
    ensures Patched(s, at, []) == s
  {
  }

  lemma {:induction false} FileBufferSize(head: seq<Byte>, done: seq<Vm>, total: nat)
    requires Roomy(done) && |done| <= total
    ensures |FileBuffer(head, done, total)| == |head| + 56 * total + |VmDatas(done, |head| + 56 * total)|
  {
    hide Zeros, OldTable, NewTable, VmDatas;
  }

  // ---------- The header ----------

  lemma {:induction false} ZeroBytes(w: nat)
    ensures ToBytes(0, w) == Zeros(w)
  {
    if w > 0 {
      ZeroBytes(w - 1);
    }
  }

  lemma {:induction false} ZerosJoin(a: nat, b: nat)
    ensures Zeros(a) + Zeros(b) == Zeros(a + b)
  {
    if a > 0 {
      ZerosJoin(a - 1, b);
      assert Zeros(a) + Zeros(b) == [0] + (Zeros(a - 1) + Zeros(b));
    } else {
      assert [] + Zeros(b) == Zeros(b);
    }
  }

  lemma {:induction false} ZeroHeader()
    ensures HeaderBytes(Header(0, 0, 0, 0, 0, 0, 0)) == MAGIC + ([VERSION, MIN_VERSION, 0, 0] + Zeros(36))
  {
    var four: seq<Byte> := [0, 0, 0, 0];
    assert Zeros(4) == four;
    hide Zeros, ToBytes;
    ZeroBytes(4);
    ZeroBytes(8);
    ZerosJoin(4, 4);
    ZerosJoin(8, 8);
    ZerosJoin(4, 16);
    ZerosJoin(4, 20);
    ZerosJoin(4, 24);
    ZerosJoin(4, 28);
    ZerosJoin(4, 32);
  }

  lemma {:induction false} VersionZeros()
    ensures [VERSION, MIN_VERSION] + Zeros(38) == [VERSION, MIN_VERSION, 0, 0] + Zeros(36)
  {
    var two: seq<Byte> := [0, 0];
    assert Zeros(2) == two;
    ZerosJoin(2, 36);
    hide Zeros;
  }

  lemma {:induction false} StoreStart()
    ensures Patched(Patched(Zeros(HEADER_SIZE), 0, MAGIC), 8, [VERSION, MIN_VERSION]) ==
      HeaderBytes(Header(0, 0, 0, 0, 0, 0, 0))
  {
    hide Zeros, Patched, HeaderBytes;
    ZeroHeader();
    VersionZeros();
    FillZeros([], 48, [], MAGIC);
    FillZeros(MAGIC, 40, [], [VERSION, MIN_VERSION]);
    Plain(Zeros(48));
    Plain(Zeros(40));
    Plain(Zeros(38));
    Plain(MAGIC + Zeros(40));
  }

  lemma Plain(s: seq<Byte>)
    ensures s + [] == s && [] + s == s
  {
  }

  lemma {:induction false} StoreHashFields(h: Header, hashes: nat, at: nat, rest: seq<Byte>)
    ensures Patched(HeaderBytes(h) + rest, 20, ToBytes(hashes, 4) + ToBytes(at, 4)) ==
      HeaderBytes(h.(hashes := hashes, hashesAt := at)) + rest
  {
    hide ToBytes;
  }

  lemma {:induction false} StoreVmFields(h: Header, vms: nat, at: nat, rest: seq<Byte>)
    ensures Patched(HeaderBytes(h) + rest, 12, ToBytes(vms, 4) + ToBytes(at, 4)) ==
      HeaderBytes(h.(vms := vms, vmsAt := at)) + rest
  {
    hide ToBytes;
  }

  lemma {:induction false} StoreNewFields(h: Header, flags: nat, vms: nat, at: nat, rest: seq<Byte>)
    ensures Patched(HeaderBytes(h) + rest, 32, ToBytes(flags, 8) + (ToBytes(vms, 4) + ToBytes(at, 4))) ==
      HeaderBytes(h.(flags := flags, newVms := vms, newVmsAt := at)) + rest
  {
    hide ToBytes;
  }

  /** The file behind its header. */
  function FileRest(hs: seq<Hash>, vs: seq<Vm>, total: nat): seq<Byte>
    requires Roomy(vs) && |vs| <= total
  {
    var at := DataStart(hs, total);
    HashTable(hs, HEADER_SIZE + 16 * |hs|) + (Strings(hs) +
      (OldTable(vs, at) +
        (Zeros(24 * (total - Olds(vs))) + (NewTable(vs, at) + (Zeros(32 * (total - |vs|)) + VmDatas(vs, at))))))
  }

  lemma {:induction false} FileOf(h: Header, hs: seq<Hash>, vs: seq<Vm>, total: nat)
    requires Roomy(vs) && |vs| <= total
    ensures FileBuffer(HeaderBytes(h) + (HashTable(hs, HEADER_SIZE + 16 * |hs|) + Strings(hs)), vs, total) ==
      HeaderBytes(h) + FileRest(hs, vs, total)
    ensures FileBytes(hs, vs, total) == HeaderBytes(FileHeader(hs, vs, total)) + FileRest(hs, vs, total)
  {
    hide Zeros, HashTable, Strings, OldTable, NewTable, VmDatas, HeaderBytes;
    var at := DataStart(hs, total);
    Reassociate2(HeaderBytes(h), HashTable(hs, HEADER_SIZE + 16 * |hs|), Strings(hs),
      OldTable(vs, at) +
        (Zeros(24 * (total - Olds(vs))) + (NewTable(vs, at) + (Zeros(32 * (total - |vs|)) + VmDatas(vs, at)))));
  }

  lemma Reassociate2(a: seq<Byte>, b: seq<Byte>, c: seq<Byte>, d: seq<Byte>)
    ensures (a + (b + c)) + d == a + (b + (c + d))
  {
  }
}
