/** The pack file: its records, and what the loader reads from them. */
module PackFormat {
  import opened Options
  import opened Bytes

  type Text = seq<Byte>

  datatype Op = Op(opcode: nat, value: nat)

  /** A platform of a VM; it may have no opcode table at all. */
  datatype Platform = Platform(id: nat, ops: Option<seq<Op>>)

  /** A VM to pack; `room` platform records are reserved, `oldId` is its old id or 0. */
  datatype Vm = Vm(magic: nat, name: Text, flags: nat, oldId: nat, room: nat, platforms: seq<Platform>)

  datatype Hash = Hash(value: nat, text: Text)

  // ---------- The records ----------

  function CString(s: Text): (r: seq<Byte>)
    ensures |r| == |s| + 1
  {
    s + [0]
  }

  function OpBytes(o: Op): (r: seq<Byte>)
    ensures |r| == 4
  {
    ToBytes(o.opcode, 2) + ToBytes(o.value, 2)
  }

  function AllOps(ops: seq<Op>): (r: seq<Byte>)
    ensures |r| == 4 * |ops|
  {
    if ops == [] then [] else AllOps(ops[..|ops| - 1]) + OpBytes(ops[|ops| - 1])
  }

  function OpsOf(p: Platform): seq<Op> {
    if p.ops.None? then [] else p.ops.value
  }

  /** A platform record, given where its opcodes are. */
  function PlatformBytes(p: Platform, at: nat): (r: seq<Byte>)
    ensures |r| == 12
  {
    ToBytes(p.id % 256, 4) + (ToBytes(if p.ops.None? then 0 else at, 4) + ToBytes(|OpsOf(p)|, 4))
  }

  function OpBlocks(ps: seq<Platform>): seq<Byte> {
    if ps == [] then [] else OpBlocks(ps[..|ps| - 1]) + AllOps(OpsOf(ps[|ps| - 1]))
  }

  function PlatformTable(ps: seq<Platform>, at: nat): (r: seq<Byte>)
    ensures |r| == 12 * |ps|
  {
    if ps == [] then [] else
      PlatformTable(ps[..|ps| - 1], at) + PlatformBytes(ps[|ps| - 1], at + |OpBlocks(ps[..|ps| - 1])|)
  }

  /** Everything about a VM but its record in the tables, when it starts at `at`. */
  function VmData(v: Vm, at: nat): seq<Byte>
    requires |v.platforms| <= v.room
  {
    var plts := at + |v.name| + 1;
    CString(v.name) +
      (PlatformTable(v.platforms, plts + 12 * v.room) + (Zeros(12 * (v.room - |v.platforms|)) + OpBlocks(v.platforms)))
  }

  predicate Roomy(vs: seq<Vm>) {
    forall i :: 0 <= i < |vs| ==> |vs[i].platforms| <= vs[i].room
  }

  function VmDatas(vs: seq<Vm>, at: nat): seq<Byte>
    requires Roomy(vs)
  {
    if vs == [] then [] else
      var front := VmDatas(vs[..|vs| - 1], at);
      front + VmData(vs[|vs| - 1], at + |front|)
  }

  function NewBytes(v: Vm, at: nat): (r: seq<Byte>)
    ensures |r| == 32
  {
    ToBytes(at, 4) + ([0, 0, 0, 0] +
      (ToBytes(v.flags, 8) + (ToBytes(v.magic, 8) + ([|v.platforms| % 256, 0, 0, 0] + ToBytes(at + |v.name| + 1, 4)))))
  }

  function OldBytes(v: Vm, at: nat): (r: seq<Byte>)
    ensures |r| == 24
  {
    ToBytes(at, 4) + ([0, 0, 0, 0] +
      (ToBytes(v.flags, 8) + ([v.oldId % 256, |v.platforms| % 256, 0, 0] + ToBytes(at + |v.name| + 1, 4))))
  }

  function NewTable(vs: seq<Vm>, at: nat): (r: seq<Byte>)
    requires Roomy(vs)
    ensures |r| == 32 * |vs|
  {
    if vs == [] then [] else
      NewTable(vs[..|vs| - 1], at) + NewBytes(vs[|vs| - 1], at + |VmDatas(vs[..|vs| - 1], at)|)
  }

  function Olds(vs: seq<Vm>): (r: nat)
    ensures r <= |vs|
  {
    if vs == [] then 0 else Olds(vs[..|vs| - 1]) + if vs[|vs| - 1].oldId != 0 then 1 else 0
  }

  function OldTable(vs: seq<Vm>, at: nat): (r: seq<Byte>)
    requires Roomy(vs)
    ensures |r| == 24 * Olds(vs)
  {
    if vs == [] then [] else
      OldTable(vs[..|vs| - 1], at) +
      if vs[|vs| - 1].oldId != 0 then OldBytes(vs[|vs| - 1], at + |VmDatas(vs[..|vs| - 1], at)|) else []
  }

  function HashBytes(h: Hash, at: nat): (r: seq<Byte>)
    ensures |r| == 16
  {
    ToBytes(h.value, 8) + (ToBytes(at, 4) + [0, 0, 0, 0])
  }

  function Strings(hs: seq<Hash>): seq<Byte> {
    if hs == [] then [] else Strings(hs[..|hs| - 1]) + CString(hs[|hs| - 1].text)
  }

  function HashTable(hs: seq<Hash>, at: nat): (r: seq<Byte>)
    ensures |r| == 16 * |hs|
  {
    if hs == [] then [] else HashTable(hs[..|hs| - 1], at) + HashBytes(hs[|hs| - 1], at + |Strings(hs[..|hs| - 1])|)
  }

  const MAGIC: seq<Byte> := [0x61, 0x63, 0x74, 0x73, 0x50, 0x41, 0x4b, 0]
  const VERSION: Byte := 0x11
  const MIN_VERSION: Byte := 0x10
  const HEADER_SIZE := 48

  /** The counts and offsets in the header. */
  datatype Header = Header(vms: nat, vmsAt: nat, hashes: nat, hashesAt: nat, flags: nat, newVms: nat, newVmsAt: nat)

  function HeaderBytes(h: Header): (r: seq<Byte>)
    ensures |r| == 48
  {
    MAGIC + ([VERSION, MIN_VERSION, 0, 0] + (ToBytes(h.vms, 4) + (ToBytes(h.vmsAt, 4) + (ToBytes(h.hashes, 4) +
      (ToBytes(h.hashesAt, 4) +
        ([0, 0, 0, 0] + (ToBytes(h.flags, 8) + (ToBytes(h.newVms, 4) + ToBytes(h.newVmsAt, 4)))))))))
  }

  /** The file of a list of hashes and the selected ones of `total` VMs. */
  function FileHeader(hs: seq<Hash>, vs: seq<Vm>, total: nat): Header {
    var vmsAt := HEADER_SIZE + 16 * |hs| + |Strings(hs)|;
    Header(Olds(vs), vmsAt, |hs|, HEADER_SIZE, 1, |vs|, vmsAt + 24 * total)
  }

  function DataStart(hs: seq<Hash>, total: nat): nat {
    HEADER_SIZE + 16 * |hs| + |Strings(hs)| + 24 * total + 32 * total
  }

  function FileBytes(hs: seq<Hash>, vs: seq<Vm>, total: nat): seq<Byte>
    requires Roomy(vs) && |vs| <= total
  {
    var at := DataStart(hs, total);
    HeaderBytes(FileHeader(hs, vs, total)) + (HashTable(hs, HEADER_SIZE + 16 * |hs|) + (Strings(hs) +
      (OldTable(vs, at) +
        (Zeros(24 * (total - Olds(vs))) + (NewTable(vs, at) + (Zeros(32 * (total - |vs|)) + VmDatas(vs, at)))))))
  }

  // ---------- What the loader reads ----------

  /** The bytes up to the first zero; None if the file ends before one. */
  function ReadString(data: seq<Byte>, pos: nat): Option<Text>
    decreases |data| - pos
  {
    if pos >= |data| then None
    else if data[pos] == 0 then Some([])
    else var rest := ReadString(data, pos + 1); if rest.None? then None else Some([data[pos]] + rest.value)
  }

  function ReadOps(data: seq<Byte>, pos: nat, n: nat): (r: seq<Op>)
    ensures |r| == n
  {
    if n == 0 then [] else
      ReadOps(data, pos, n - 1) + [Op(ReadAt(data, pos + 4 * (n - 1), 2), ReadAt(data, pos + 4 * (n - 1) + 2, 2))]
  }

  datatype LoadedPlatform = LoadedPlatform(id: nat, ops: seq<Op>)

  datatype LoadedVm = LoadedVm(magic: nat, name: Text, flags: nat, platforms: seq<LoadedPlatform>)

  datatype Loaded = Loaded(hashes: seq<Hash>, vms: seq<LoadedVm>)

  /** The platform record at pos; None if its opcodes do not fit in the file. */
  function ReadPlatform(data: seq<Byte>, pos: nat): Option<LoadedPlatform> {
    var at, n := ReadAt(data, pos + 4, 4), ReadAt(data, pos + 8, 4);
    if n != 0 && at + 4 * n > |data| then None
    else Some(LoadedPlatform(ReadAt(data, pos, 1), ReadOps(data, at, n)))
  }

  function ReadPlatforms(data: seq<Byte>, pos: nat, n: nat): Option<seq<LoadedPlatform>> {
    if n == 0 then Some([]) else
      var front := ReadPlatforms(data, pos, n - 1);
      if front.None? then None else
        var p := ReadPlatform(data, pos + 12 * (n - 1));
        if p.None? then None else Some(front.value + [p.value])
  }

  /** The record of a VM at pos. */
  function ReadVm(data: seq<Byte>, pos: nat): Option<LoadedVm> {
    var nameAt, n, at := ReadAt(data, pos, 4), ReadAt(data, pos + 24, 1), ReadAt(data, pos + 28, 4);
    if nameAt >= |data| || (n != 0 && at + 12 * n > |data|) then None else
      var name := ReadString(data, nameAt);
      if name.None? then None else
        var ps := ReadPlatforms(data, at, n);
        if ps.None? then None
        else Some(LoadedVm(ReadAt(data, pos + 16, 8), name.value, ReadAt(data, pos + 8, 8), ps.value))
  }

  function ReadVms(data: seq<Byte>, pos: nat, n: nat): Option<seq<LoadedVm>> {
    if n == 0 then Some([]) else
      var front := ReadVms(data, pos, n - 1);
      if front.None? then None else
        var v := ReadVm(data, pos + 32 * (n - 1));
        if v.None? then None else Some(front.value + [v.value])
  }

  function ReadHash(data: seq<Byte>, pos: nat): Option<Hash> {
    var at := ReadAt(data, pos + 8, 4);
    if at > |data| then None else
      var text := ReadString(data, at);
      if text.None? then None else Some(Hash(ReadAt(data, pos, 8), text.value))
  }

  function ReadHashes(data: seq<Byte>, pos: nat, n: nat): Option<seq<Hash>> {
    if n == 0 then Some([]) else
      var front := ReadHashes(data, pos, n - 1);
      if front.None? then None else
        var h := ReadHash(data, pos + 16 * (n - 1));
        if h.None? then None else Some(front.value + [h.value])
  }

  /** A record of the old VM table: None is an error, and a VM unknown today is passed over. */
  function ReadOldVm(data: seq<Byte>, pos: nat, oldVms: map<nat, nat>): Option<seq<LoadedVm>> {
    var nameAt, id, n, at := ReadAt(data, pos, 4), ReadAt(data, pos + 16, 1), ReadAt(data, pos + 17, 1),
      ReadAt(data, pos + 20, 4);
    if nameAt >= |data| || (n != 0 && at + 12 * n > |data|) then None else
      var name := ReadString(data, nameAt);
      if name.None? then None else if id !in oldVms then Some([]) else
        var ps := ReadPlatforms(data, at, n);
        if ps.None? then None else Some([LoadedVm(oldVms[id], name.value, ReadAt(data, pos + 8, 8), ps.value)])
  }

  function ReadOldVms(data: seq<Byte>, pos: nat, n: nat, oldVms: map<nat, nat>): Option<seq<LoadedVm>> {
    if n == 0 then Some([]) else
      var front := ReadOldVms(data, pos, n - 1, oldVms);
      if front.None? then None else
        var v := ReadOldVm(data, pos + 24 * (n - 1), oldVms);
        if v.None? then None else Some(front.value + v.value)
  }

  function ReadHeader(data: seq<Byte>): Header {
    Header(ReadAt(data, 12, 4), ReadAt(data, 16, 4), ReadAt(data, 20, 4), ReadAt(data, 24, 4), ReadAt(data, 32, 8),
      ReadAt(data, 40, 4), ReadAt(data, 44, 4))
  }

  predicate GoodStart(data: seq<Byte>) {
    |data| >= HEADER_SIZE && Slice(data, 0, 8) == MAGIC && data[9] <= VERSION
  }

  predicate TableFits(at: nat, size: nat, count: nat, data: seq<Byte>) {
    at + size * count <= |data|
  }

  /** Whether the old VM table is read, and the new one. */
  predicate ReadsOld(data: seq<Byte>)
    requires |data| >= HEADER_SIZE
  {
    data[8] >= 0x10 && !(data[8] >= 0x11 && ReadHeader(data).flags % 2 == 1)
  }

  /** What the loader registers; None if a check fails. The new VM loop counts with the number
      of old records. */
  function Load(data: seq<Byte>, oldVms: map<nat, nat>): Option<Loaded> {
    if !GoodStart(data) then None else
      var h := ReadHeader(data);
      var hashes :=
        if data[8] < 0x10 then Some([])
        else if h.hashes != 0 && !TableFits(h.hashesAt, 16, h.hashes, data) then None
        else ReadHashes(data, h.hashesAt, h.hashes);
      var olds :=
        if !ReadsOld(data) then Some([])
        else if h.vms != 0 && !TableFits(h.vmsAt, 24, h.vms, data) then None
        else ReadOldVms(data, h.vmsAt, h.vms, oldVms);
      var news :=
        if data[8] < 0x11 then Some([])
        else if h.vms != 0 && !TableFits(h.vmsAt, 32, h.newVms, data) then None
        else ReadVms(data, h.newVmsAt, h.vms);
      if hashes.None? || olds.None? || news.None? then None
      else Some(Loaded(hashes.value, olds.value + news.value))
  }
}
