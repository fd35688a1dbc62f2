/** The pack file loader. */
module PackLoad {
  import opened Options
  import opened Bytes
  import opened PackFormat
  import opened PackLaws
  import opened PackFile

  lemma {:induction false} NoLaterHashes(data: seq<Byte>, pos: nat, k: nat, n: nat)
    requires k <= n && ReadHashes(data, pos, k).None?
    ensures ReadHashes(data, pos, n).None?
    decreases n
  {
    hide ReadHash;
    if k < n {
      NoLaterHashes(data, pos, k, n - 1);
    }
  }

  lemma {:induction false} NoLaterPlatforms(data: seq<Byte>, pos: nat, k: nat, n: nat)
    requires k <= n && ReadPlatforms(data, pos, k).None?
    ensures ReadPlatforms(data, pos, n).None?
    decreases n
  {
    hide ReadPlatform;
    if k < n {
      NoLaterPlatforms(data, pos, k, n - 1);
    }
  }

  lemma {:induction false} NoLaterVms(data: seq<Byte>, pos: nat, k: nat, n: nat)
    requires k <= n && ReadVms(data, pos, k).None?
    ensures ReadVms(data, pos, n).None?
    decreases n
  {
    hide ReadVm;
    if k < n {
      NoLaterVms(data, pos, k, n - 1);
    }
  }

  lemma {:induction false} NoLaterOldVms(data: seq<Byte>, pos: nat, k: nat, n: nat, oldVms: map<nat, nat>)
    requires k <= n && ReadOldVms(data, pos, k, oldVms).None?
    ensures ReadOldVms(data, pos, n, oldVms).None?
    decreases n
  {
    hide ReadOldVm;
    if k < n {
      NoLaterOldVms(data, pos, k, n - 1, oldVms);
    }
  }

  method LoadOps(data: seq<Byte>, pos: nat, n: nat) returns (ops: seq<Op>)
    ensures ops == ReadOps(data, pos, n)
  {
    ops := [];
    for i := 0 to n
      invariant ops == ReadOps(data, pos, i)
    {
      ops := ops + [Op(ReadAt(data, pos + 4 * i, 2), ReadAt(data, pos + 4 * i + 2, 2))];
    }
  }

  method LoadPlatforms(data: seq<Byte>, pos: nat, n: nat) returns (r: Option<seq<LoadedPlatform>>)
    ensures r == ReadPlatforms(data, pos, n)
  {
    hide ReadAt, ReadOps;
    var ps: seq<LoadedPlatform> := [];
    for i := 0 to n
      invariant ReadPlatforms(data, pos, i) == Some(ps)
    {
      var p := pos + 12 * i;
      var at, count := ReadAt(data, p + 4, 4), ReadAt(data, p + 8, 4);
      if count != 0 && at + 4 * count > |data| {
        NoLaterPlatforms(data, pos, i + 1, n);
        return None;
      }
      var ops := LoadOps(data, at, count);
      ps := ps + [LoadedPlatform(ReadAt(data, p, 1), ops)];
    }
    r := Some(ps);
  }

  /** What the process has registered from pack files. */
  class Registry {
    var hashes: seq<Hash>
    var vms: seq<LoadedVm>

    constructor ()
      ensures hashes == [] && vms == []
    {
      hashes, vms := [], [];
    }

    method LoadHashes(data: seq<Byte>, pos: nat, n: nat) returns (ok: bool)
      modifies this`hashes
      ensures ok <==> ReadHashes(data, pos, n).Some?
      ensures ok ==> hashes == old(hashes) + ReadHashes(data, pos, n).value
      ensures old(hashes) <= hashes
    {
      hide ReadAt, ReadString;
      for i := 0 to n
        invariant ReadHashes(data, pos, i).Some? && hashes == old(hashes) + ReadHashes(data, pos, i).value
      {
        var at := ReadAt(data, pos + 16 * i + 8, 4);
        if at > |data| {
          NoLaterHashes(data, pos, i + 1, n);
          return false;
        }
        var text := ReadString(data, at);
        if text.None? {
          NoLaterHashes(data, pos, i + 1, n);
          return false;
        }
        hashes := hashes + [Hash(ReadAt(data, pos + 16 * i, 8), text.value)];
      }
      ok := true;
    }

    method LoadVms(data: seq<Byte>, pos: nat, n: nat) returns (ok: bool)
      modifies this`vms
      ensures ok <==> ReadVms(data, pos, n).Some?
      ensures ok ==> vms == old(vms) + ReadVms(data, pos, n).value
      ensures old(vms) <= vms
    {
      hide ReadVm;
      for i := 0 to n
        invariant ReadVms(data, pos, i).Some? && vms == old(vms) + ReadVms(data, pos, i).value
      {
        var v := LoadVm(data, pos + 32 * i);
        if v.None? {
          NoLaterVms(data, pos, i + 1, n);
          return false;
        }
        vms := vms + [v.value];
      }
      ok := true;
    }

    method LoadOldVms(data: seq<Byte>, pos: nat, n: nat, oldVms: map<nat, nat>) returns (ok: bool)
      modifies this`vms
      ensures ok <==> ReadOldVms(data, pos, n, oldVms).Some?
      ensures ok ==> vms == old(vms) + ReadOldVms(data, pos, n, oldVms).value
      ensures old(vms) <= vms
    {
      hide ReadOldVm;
      for i := 0 to n
        invariant ReadOldVms(data, pos, i, oldVms).Some? && vms == old(vms) + ReadOldVms(data, pos, i, oldVms).value
      {
        var v := LoadOldVm(data, pos + 24 * i, oldVms);
        if v.None? {
          NoLaterOldVms(data, pos, i + 1, n, oldVms);
          return false;
        }
        vms := vms + v.value;
      }
      ok := true;
    }

    method LoadPackFileData(data: seq<Byte>, oldVms: map<nat, nat>) returns (ok: bool)
      modifies this
      ensures ok <==> Load(data, oldVms).Some?
      ensures ok ==>
        hashes == old(hashes) + Load(data, oldVms).value.hashes && vms == old(vms) + Load(data, oldVms).value.vms
      ensures old(hashes) <= hashes && old(vms) <= vms
      ensures ok ==> Checked(data) && HashesAt(data, hashes[|old(hashes)|..])
    {
      hide ReadHashes, ReadOldVms, ReadVms, ReadHeader, Checked, HashesAt;
      if Load(data, oldVms).Some? {
        LoadChecks(data, oldVms);
      }
      if |data| < 10 || Slice(data, 0, 8) != MAGIC || data[9] > VERSION || |data| < HEADER_SIZE {
        return false;
      }
      var h := ReadHeader(data);
      if data[8] >= 0x10 {
        if h.hashes != 0 && h.hashesAt + 16 * h.hashes > |data| {
          return false;
        }
        ok := LoadHashes(data, h.hashesAt, h.hashes);
        if !ok {
          return;
        }
      }
      if data[8] >= 0x10 && !(data[8] >= 0x11 && h.flags % 2 == 1) {
        if h.vms != 0 && h.vmsAt + 24 * h.vms > |data| {
          return false;
        }
        ok := LoadOldVms(data, h.vmsAt, h.vms, oldVms);
        if !ok {
          return;
        }
      }
      if data[8] >= 0x11 {
        if h.vms != 0 && h.vmsAt + 32 * h.newVms > |data| {
          return false;
        }
        // the number of old records, as in the source
        ok := LoadVms(data, h.newVmsAt, h.vms);
        if !ok {
          return;
        }
      }
      ok := true;
    }
  }

  method LoadVm(data: seq<Byte>, pos: nat) returns (r: Option<LoadedVm>)
    ensures r == ReadVm(data, pos)
  {
    hide ReadAt, ReadString, ReadPlatforms;
    var nameAt, n, at := ReadAt(data, pos, 4), ReadAt(data, pos + 24, 1), ReadAt(data, pos + 28, 4);
    if nameAt >= |data| || (n != 0 && at + 12 * n > |data|) {
      return None;
    }
    var name := ReadString(data, nameAt);
    if name.None? {
      return None;
    }
    var ps := LoadPlatforms(data, at, n);
    r := if ps.None? then None
      else Some(LoadedVm(ReadAt(data, pos + 16, 8), name.value, ReadAt(data, pos + 8, 8), ps.value));
  }

  method LoadOldVm(data: seq<Byte>, pos: nat, oldVms: map<nat, nat>) returns (r: Option<seq<LoadedVm>>)
    ensures r == ReadOldVm(data, pos, oldVms)
  {
    hide ReadAt, ReadString, ReadPlatforms;
    var nameAt, id, n, at := ReadAt(data, pos, 4), ReadAt(data, pos + 16, 1), ReadAt(data, pos + 17, 1),
      ReadAt(data, pos + 20, 4);
    if nameAt >= |data| || (n != 0 && at + 12 * n > |data|) {
      return None;
    }
    var name := ReadString(data, nameAt);
    if name.None? {
      return None;
    }
    if id !in oldVms {
      return Some([]);
    }
    var ps := LoadPlatforms(data, at, n);
    r := if ps.None? then None else Some([LoadedVm(oldVms[id], name.value, ReadAt(data, pos + 8, 8), ps.value)]);
  }

  /** The checks on the start of a file: "actsPAK", a version, and tables within the file. */
  predicate Checked(data: seq<Byte>) {
    && |data| >= 48 && data[..8] == [0x61, 0x63, 0x74, 0x73, 0x50, 0x41, 0x4b, 0] && data[9] <= 0x11
    && (data[8] >= 0x10 && ReadAt(data, 20, 4) > 0 ==> ReadAt(data, 24, 4) + 16 * ReadAt(data, 20, 4) <= |data|)
    && (data[8] == 0x10 || (data[8] > 0x10 && ReadAt(data, 32, 8) % 2 == 0) ==>
          ReadAt(data, 12, 4) > 0 ==> ReadAt(data, 16, 4) + 24 * ReadAt(data, 12, 4) <= |data|)
    && (data[8] >= 0x11 && ReadAt(data, 12, 4) > 0 ==>
          ReadAt(data, 16, 4) + 32 * ReadAt(data, 40, 4) <= |data|)
  }

  /** The hashes are those of the table that the header names, if the version has one. */
  predicate HashesAt(data: seq<Byte>, hs: seq<Hash>)
    requires |data| >= 48
  {
    && |hs| == (if data[8] >= 0x10 then ReadAt(data, 20, 4) else 0)
    && forall k :: 0 <= k < |hs| ==> HashAt(data, ReadAt(data, 24, 4) + 16 * k, hs[k])
  }

  predicate HashAt(data: seq<Byte>, pos: nat, h: Hash) {
    && h.value == ReadAt(data, pos, 8) && ReadAt(data, pos + 8, 4) + |h.text| < |data|
    && data[ReadAt(data, pos + 8, 4)..ReadAt(data, pos + 8, 4) + |h.text|] == h.text
    && data[ReadAt(data, pos + 8, 4) + |h.text|] == 0 && forall i :: 0 <= i < |h.text| ==> h.text[i] != 0
  }

  lemma {:induction false} LoadChecks(data: seq<Byte>, oldVms: map<nat, nat>)
    requires Load(data, oldVms).Some?
    ensures Checked(data) && HashesAt(data, Load(data, oldVms).value.hashes)
  {
    hide ReadHashes, ReadOldVms, ReadVms, ReadAt, HashAt;
    assert data[..8] == Slice(data, 0, 8);
    if data[8] >= 0x10 {
      HashesThatWereRead(data, ReadAt(data, 24, 4), ReadAt(data, 20, 4));
    }
  }

  lemma {:induction false} HashesThatWereRead(data: seq<Byte>, pos: nat, n: nat)
    requires ReadHashes(data, pos, n).Some?
    ensures var hs := ReadHashes(data, pos, n).value;
      |hs| == n && forall k :: 0 <= k < n ==> HashAt(data, pos + 16 * k, hs[k])
  {
    hide HashAt, ReadHash;
    if n > 0 {
      HashesThatWereRead(data, pos, n - 1);
      HashThatWasRead(data, pos + 16 * (n - 1));
    }
  }

  lemma {:induction false} HashThatWasRead(data: seq<Byte>, pos: nat)
    requires ReadHash(data, pos).Some?
    ensures HashAt(data, pos, ReadHash(data, pos).value)
  {
    hide ReadAt;
    StringThatWasRead(data, ReadAt(data, pos + 8, 4));
  }

  /** A string is what lies before the first zero. */
  lemma {:induction false} StringThatWasRead(data: seq<Byte>, pos: nat)
    requires ReadString(data, pos).Some?
    ensures var s := ReadString(data, pos).value;
      && pos + |s| < |data| && data[pos..pos + |s|] == s && data[pos + |s|] == 0
      && forall i :: 0 <= i < |s| ==> s[i] != 0
    decreases |data| - pos
  {
    if data[pos] != 0 {
      StringThatWasRead(data, pos + 1);
      var s := ReadString(data, pos).value;
      assert s[1..] == ReadString(data, pos + 1).value;
      assert data[pos..pos + |s|] == [data[pos]] + data[pos + 1..pos + |s|];
    }
  }

  predicate Storable(hs: seq<Hash>, sel: Selection, infos: seq<Info>) {
    AllHashesFit(hs) && AllVmsFit(Chosen(sel, infos))
  }

  /** Loading a packed file below 4 GiB registers the same hashes and, in order, as many of the
      packed VMs as have an old id: all of them, with platforms and opcodes, exactly if each has. */
  method PackThenLoad(hs: seq<Hash>, infos: seq<Info>, sel: Selection, oldVms: map<nat, nat>)
    returns (ok: bool, size: nat, loaded: Loaded)
    requires Storable(hs, sel, infos)
    ensures size < 0x1_0000_0000 ==>
      ok && loaded == Loaded(hs, VmsAsLoaded(Chosen(sel, infos)[..Olds(Chosen(sel, infos))]))
    ensures size < 0x1_0000_0000 ==>
      (loaded.vms == VmsAsLoaded(Chosen(sel, infos)) <==>
        forall i :: 0 <= i < |Chosen(sel, infos)| ==> Chosen(sel, infos)[i].oldId != 0)
    ensures size == |FileBytes(hs, Chosen(sel, infos), |infos|)|
    ensures size < 0x1_0000_0000 && sel == {} && (forall i :: 0 <= i < |infos| ==> infos[i].oldId != 0) ==>
      |loaded.vms| == |infos| && forall k :: 0 <= k < |infos| ==> SameVm(infos[k], loaded.vms[k])
  {
    hide FileBytes, Load, Chosen, VmsAsLoaded, AllHashesFit, AllVmsFit, Olds;
    var writer := new PackWriter();
    writer.Pack(hs, infos, sel);
    size := |writer.data|;
    var registry := new Registry();
    ok := registry.LoadPackFileData(writer.data, oldVms);
    loaded := Loaded(registry.hashes, registry.vms);
    ghost var vs := Chosen(sel, infos);
    if size < 0x1_0000_0000 {
      Limits();
      LoadsBack(writer.data, hs, vs, |infos|, oldVms);
      AllBackIffOlds(vs);
      if sel == {} && forall i :: 0 <= i < |infos| ==> infos[i].oldId != 0 {
        WholeVms(infos);
      }
    }
  }

  /** The loaded VM has the name, flags and platforms of i, with their opcodes. */
  predicate SameVm(i: Info, v: LoadedVm) {
    && v.magic == i.magic && v.name == i.name && v.flags == i.flags && |v.platforms| == |i.platforms|
    && forall k :: 0 <= k < |i.platforms| ==> SamePlatform(i.platforms[k], v.platforms[k])
  }

  predicate SamePlatform(p: Platform, l: LoadedPlatform) {
    l.id == p.id && l.ops == if p.ops.None? then [] else p.ops.value
  }

  lemma {:induction false} WholeVms(infos: seq<Info>)
    requires forall i :: 0 <= i < |infos| ==> infos[i].oldId != 0
    ensures var vs := Chosen({}, infos);
      && |vs| == |infos| && (forall i :: 0 <= i < |vs| ==> vs[i].oldId != 0)
      && forall k :: 0 <= k < |infos| ==> SameVm(infos[k], VmsAsLoaded(vs)[k])
  {
    VmsChosen({}, infos);
    forall k | 0 <= k < |infos| ensures SameVm(infos[k], VmsAsLoaded(Chosen({}, infos))[k]) {
      assert IsWhole(Chosen({}, infos)[k], infos[k]);
    }
  }
}
