/** The script linker of the VM: scripts and their includes go into a bounded table. */
module Linker {
  import opened Reach

  const MAX_LINKED := 0x400
  const VMLO_NOTHING := 0
  const VMLO_CANT_FIND := -1
  const VMLO_ERROR_INCLUDES := -2
  const VMLO_ERROR_TOO_MANY := -3

  /** A script as the linker sees it; scripts are identified by their index. */
  datatype ActScript = ActScript(goodMagic: bool, includes: seq<string>)

  datatype ScriptInfo = ScriptInfo(script: int, group: int)

  /** All scripts in memory, and the host's lookup of a script by name. */
  datatype World = World(scripts: seq<ActScript>, getter: map<string, int>) {
    ghost predicate Valid() {
      forall n :: n in getter ==> 0 <= getter[n] < |scripts|
    }
  }

  /** What a link returns, or that a missing script made it throw. */
  datatype LinkResult = Returned(code: int) | Thrown {
    predicate Ok() {
      Returned? && code >= 0
    }
  }

  function Includes(w: World, s: int): set<int> {
    if 0 <= s < |w.scripts| then set n | n in w.scripts[s].includes && n in w.getter :: w.getter[n] else {}
  }

  function IncludeGraph(w: World): Graph<int> {
    map s | 0 <= s < |w.scripts| :: Includes(w, s)
  }

  /** The script can be linked as far as it alone is concerned. */
  predicate Sane(w: World, s: int) {
    0 <= s < |w.scripts| && w.scripts[s].goodMagic && forall n :: n in w.scripts[s].includes ==> n in w.getter
  }

  ghost function Reachable(w: World, s: int): set<int> {
    set t | 0 <= t < |w.scripts| && Reaches(IncludeGraph(w), s, t)
  }

  function Names(t: seq<ScriptInfo>): (r: seq<int>)
    ensures |r| == |t| && forall i :: 0 <= i < |t| ==> r[i] == t[i].script
  {
    seq(|t|, i requires 0 <= i < |t| => t[i].script)
  }

  /** No script twice, all with a good magic, at most MAX_LINKED. */
  ghost predicate GoodTable(w: World, t: seq<int>) {
    && |t| <= MAX_LINKED
    && (forall i, j :: 0 <= i < j < |t| ==> t[i] != t[j])
    && (forall s :: s in t ==> 0 <= s < |w.scripts| && w.scripts[s].goodMagic)
  }

  /** Every script of the table but those still being linked has all its includes in the table. */
  ghost predicate ClosedBut(w: World, t: seq<int>, open: set<int>) {
    forall s :: s in t && s !in open ==> Sane(w, s) && forall n :: n in w.scripts[s].includes ==> w.getter[n] in t
  }

  /** Something reachable cannot be linked, or does not fit. */
  ghost predicate Blocked(w: World, t: seq<int>, s: int) {
    exists b :: Reaches(IncludeGraph(w), s, b) && (!Sane(w, b) || (|t| == MAX_LINKED && b !in t))
  }

  lemma {:induction false} BlockedHere(w: World, t: seq<int>, s: int)
    requires !Sane(w, s) || (|t| == MAX_LINKED && s !in t)
    ensures Blocked(w, t, s)
  {
    ReachesSelf(IncludeGraph(w), s);
  }

  lemma AppendedTable(w: World, t: seq<int>, s: int)
    requires GoodTable(w, t) && |t| < MAX_LINKED && s !in t && 0 <= s < |w.scripts| && w.scripts[s].goodMagic
    ensures GoodTable(w, t + [s]) && s in t + [s] && forall x :: x in t + [s] && x !in t ==> x == s
  {
  }

  lemma {:induction false} ThroughInclude(w: World, s: int, n: string, t: int)
    requires 0 <= s < |w.scripts| && n in w.scripts[s].includes && n in w.getter
    requires Reaches(IncludeGraph(w), w.getter[n], t)
    ensures Reaches(IncludeGraph(w), s, t)
  {
    ReachesAfter(IncludeGraph(w), s, w.getter[n], t);
  }

  /** An include that cannot be linked blocks the script that includes it. */
  lemma {:induction false} BlockedByInclude(w: World, t: seq<int>, s: int, n: string)
    requires 0 <= s < |w.scripts| && n in w.scripts[s].includes
    requires n in w.getter ==> Blocked(w, t, w.getter[n])
    ensures Blocked(w, t, s)
  {
    ReachesSelf(IncludeGraph(w), s);
    if n in w.getter {
      var b :| Reaches(IncludeGraph(w), w.getter[n], b) && (!Sane(w, b) || (|t| == MAX_LINKED && b !in t));
      ThroughInclude(w, s, n, b);
    } else {
      assert !Sane(w, s);
    }
  }

  lemma {:induction false} NewThroughInclude(w: World, s: int, n: string, t: seq<int>, t': seq<int>)
    requires 0 <= s < |w.scripts| && n in w.scripts[s].includes && n in w.getter
    requires forall x :: x in t' && x !in t ==> Reaches(IncludeGraph(w), w.getter[n], x)
    ensures forall x :: x in t' && x !in t ==> Reaches(IncludeGraph(w), s, x)
  {
    forall x | x in t' && x !in t
      ensures Reaches(IncludeGraph(w), s, x)
    {
      ThroughInclude(w, s, n, x);
    }
  }

  lemma {:induction false} PrefixTable(a: seq<ScriptInfo>, b: seq<ScriptInfo>)
    requires a <= b
    ensures Names(a) <= Names(b)
    ensures forall x :: x in Names(a) ==> x in Names(b)
  {
    assert Names(b)[..|a|] == Names(a);
    forall x | x in Names(a) ensures x in Names(b) {
      var i :| 0 <= i < |a| && Names(a)[i] == x;
      assert Names(b)[i] == x;
    }
  }

  // ---------- The order of registration ----------

  ghost predicate IncludesScript(w: World, s: int, t: int) {
    0 <= s < |w.scripts| && exists n :: n in w.scripts[s].includes && n in w.getter && w.getter[n] == t
  }

  /** From entry `from` on, each script is included by an earlier one of these entries. */
  ghost predicate Ordered(w: World, t: seq<int>, from: nat) {
    forall j :: from < j < |t| ==> exists i :: from <= i < j && IncludesScript(w, t[i], t[j])
  }

  /** From t to t' nothing has come, or first s and then scripts that the ones before include. */
  ghost predicate Grown(w: World, t: seq<int>, t': seq<int>, s: int) {
    t <= t' && (t' == t || (t'[|t|] == s && Ordered(w, t', |t|)))
  }

  predicate InGroup(t: seq<ScriptInfo>, from: nat, group: int) {
    forall i :: from <= i < |t| ==> t[i].group == group
  }

  lemma InGroupThen(t0: seq<ScriptInfo>, t: seq<ScriptInfo>, from: nat, group: int)
    requires t0 <= t && InGroup(t0, from, group) && InGroup(t, |t0|, group)
    ensures InGroup(t, from, group)
  {
  }

  lemma AllInGroup(t: seq<ScriptInfo>, from: nat, group: int)
    requires InGroup(t, from, group)
    ensures forall i :: from <= i < |t| ==> t[i].group == group
  {
  }

  lemma ClosedTable(w: World, t: seq<int>)
    requires GoodTable(w, t) && ClosedBut(w, t, {})
    ensures forall s :: s in t ==> 0 <= s < |w.scripts|
    ensures forall s, n :: s in t && n in w.scripts[s].includes ==>
      w.scripts[s].goodMagic && n in w.getter && w.getter[n] in t
  {
  }

  lemma NowClosed(w: World, t: seq<int>, open: set<int>, script: int)
    requires GoodTable(w, t) && ClosedBut(w, t, open + {script}) && script in t && 0 <= script < |w.scripts|
    requires forall n :: n in w.scripts[script].includes ==> n in w.getter && w.getter[n] in t
    ensures ClosedBut(w, t, open)
  {
  }

  lemma OrderedStart(w: World, t: seq<int>)
    requires t != []
    ensures Ordered(w, t, |t| - 1)
  {
  }

  lemma {:induction false} OrderedThen(w: World, t0: seq<int>, t: seq<int>, from: nat, s: int, n: string)
    requires Ordered(w, t0, from) && from < |t0| && t0[from] == s && n in w.getter && Grown(w, t0, t, w.getter[n])
    requires 0 <= s < |w.scripts| && n in w.scripts[s].includes
    ensures Ordered(w, t, from)
  {
    assert IncludesScript(w, s, w.getter[n]);
    hide IncludesScript;
    assert t0 <= t && t[from] == t0[from];
    forall j | from < j < |t| ensures exists i :: from <= i < j && IncludesScript(w, t[i], t[j]) {
      if j < |t0| {
        assert t[j] == t0[j];
        var i :| from <= i < j && IncludesScript(w, t0[i], t0[j]);
        assert t[i] == t0[i];
      } else if j == |t0| {
        assert t[j] == w.getter[n] && IncludesScript(w, t[from], t[j]);
      } else {
        var i :| |t0| <= i < j && IncludesScript(w, t[i], t[j]);
      }
    }
  }

  /** A chain of includes from s. */
  ghost predicate IncludeChain(w: World, p: seq<int>, s: int) {
    p != [] && p[0] == s && forall i :: 0 <= i < |p| - 1 ==> IncludesScript(w, p[i], p[i + 1])
  }

  /** What is reachable is what a chain of includes leads to. */
  lemma {:induction false} ReachableIs(w: World, s: int, b: int)
    ensures Reaches(IncludeGraph(w), s, b) <==> exists p :: IncludeChain(w, p, s) && p[|p| - 1] == b
  {
    var g := IncludeGraph(w);
    forall x, y ensures x in g && y in g[x] <==> IncludesScript(w, x, y) {
    }
    hide IncludeGraph, IncludesScript;
    if Reaches(g, s, b) {
      var p :| Joins(g, p, s, b);
      forall i | 0 <= i < |p| - 1 ensures IncludesScript(w, p[i], p[i + 1]) {
        assert p[i] in g && p[i + 1] in g[p[i]];
      }
      assert IncludeChain(w, p, s);
    }
    if p :| IncludeChain(w, p, s) && p[|p| - 1] == b {
      forall i | 0 <= i < |p| - 1 ensures p[i] in g && p[i + 1] in g[p[i]] {
        assert IncludesScript(w, p[i], p[i + 1]);
      }
      assert Joins(g, p, s, b);
    }
  }

  /** After k includes of the script that is the last entry of e, the table being e'. */
  ghost predicate Progress(w: World, e: seq<ScriptInfo>, e': seq<ScriptInfo>, script: int, group: int, k: nat) {
    && 0 <= script < |w.scripts| && k <= |w.scripts[script].includes|
    && 0 < |e| && e <= e' && e[|e| - 1].script == script
    && InGroup(e', |e|, group) && Ordered(w, Names(e'), |e| - 1)
    && (forall t :: t in Names(e') && t !in Names(e) ==> Reaches(IncludeGraph(w), script, t))
    && (forall j :: 0 <= j < k ==>
          var n := w.scripts[script].includes[j]; n in w.getter && w.getter[n] in Names(e'))
  }

  lemma {:induction false} ProgressStart(w: World, e: seq<ScriptInfo>, script: int, group: int)
    requires GoodTable(w, Names(e)) && 0 < |e| && e[|e| - 1].script == script
    ensures Progress(w, e, e, script, group, 0)
  {
    assert Names(e)[|e| - 1] in Names(e);
    OrderedStart(w, Names(e));
  }

  lemma {:induction false} ProgressStep(w: World, e: seq<ScriptInfo>, e1: seq<ScriptInfo>, e2: seq<ScriptInfo>,
                                        script: int, group: int, k: nat, ok: bool)
    requires Progress(w, e, e1, script, group, k) && k < |w.scripts[script].includes|
    requires e1 <= e2 && InGroup(e2, |e1|, group) && Ordered(w, Names(e2), |e| - 1)
    requires forall t :: t in Names(e2) && t !in Names(e1) ==> Reaches(IncludeGraph(w), script, t)
    requires ok ==> var n := w.scripts[script].includes[k]; n in w.getter && w.getter[n] in Names(e2)
    ensures Progress(w, e, e2, script, group, if ok then k + 1 else k)
  {
    hide Ordered, Reaches, IncludeGraph;
    PrefixTable(e1, e2);
    InGroupThen(e1, e2, |e|, group);
  }

  lemma {:induction false} ProgressFacts(w: World, e: seq<ScriptInfo>, e': seq<ScriptInfo>, script: int, group: int,
                                         k: nat)
    requires Progress(w, e, e', script, group, k)
    ensures e <= e' && 0 < |e| && e'[|e| - 1].script == script
    ensures InGroup(e', |e|, group) && Ordered(w, Names(e'), |e| - 1)
    ensures 0 <= script < |w.scripts| && script in Names(e')
    ensures forall t :: t in Names(e') && t !in Names(e) ==> Reaches(IncludeGraph(w), script, t)
    ensures forall j :: 0 <= j < k <= |w.scripts[script].includes| ==>
      var n := w.scripts[script].includes[j]; n in w.getter && w.getter[n] in Names(e')
  {
    assert Names(e')[|e| - 1] == script;
  }

  class ActsVm {
    const w: World
    const linkedScripts: array<ScriptInfo>
    var linkedScriptsCount: nat
    var linkGroup: int

    constructor (w: World)
      requires w.Valid()
      ensures Valid({}) && Table() == [] && this.w == w
      ensures fresh(linkedScripts)
    {
      this.w := w;
      linkedScripts := new ScriptInfo[MAX_LINKED](_ => ScriptInfo(0, 0));
      linkedScriptsCount := 0;
      linkGroup := 0;
    }

    ghost function Table(): seq<int>
      requires linkedScriptsCount <= linkedScripts.Length
      reads this, linkedScripts
    {
      Names(Entries())
    }

    ghost function Entries(): seq<ScriptInfo>
      requires linkedScriptsCount <= linkedScripts.Length
      reads this, linkedScripts
    {
      linkedScripts[..linkedScriptsCount]
    }

    /** The entries from n on belong to the present link group. */
    ghost predicate NewGroup(n: nat)
      requires linkedScriptsCount <= linkedScripts.Length
      reads this, linkedScripts
    {
      InGroup(Entries(), n, linkGroup)
    }

    ghost predicate Valid(open: set<int>)
      reads this, linkedScripts
    {
      && w.Valid() && linkedScripts.Length == MAX_LINKED && linkedScriptsCount <= MAX_LINKED
      && GoodTable(w, Table()) && ClosedBut(w, Table(), open)
    }

    method LinkScript(name: string, ghost open: set<int>) returns (r: LinkResult)
      requires Valid(open)
      modifies this`linkedScriptsCount, linkedScripts
      ensures w.Valid() && linkedScripts.Length == MAX_LINKED && linkedScriptsCount <= MAX_LINKED
      ensures GoodTable(w, Table())
      ensures old(Entries()) <= Entries()
      ensures NewGroup(old(linkedScriptsCount))
      ensures name in w.getter ==> Grown(w, old(Table()), Table(), w.getter[name])
      ensures r.Thrown? && name !in w.getter ==> Table() == old(Table())
      ensures name in w.getter ==> forall t ::
        t in Table() && t !in old(Table()) ==> Reaches(IncludeGraph(w), w.getter[name], t)
      ensures r.Ok() ==> name in w.getter && w.getter[name] in Table() && ClosedBut(w, Table(), open)
      ensures name in w.getter && !r.Ok() ==> Blocked(w, Table(), w.getter[name])
      ensures name !in w.getter ==> r.Thrown?
      decreases MAX_LINKED - linkedScriptsCount, 1
    {
      if name !in w.getter {
        return Thrown;
      }
      var info;
      r, info := LinkActsScript(w.getter[name], open);
    }

    /** The entry of a script, or the number of entries when it is not linked. */
    method FindLinked(script: int) returns (i: nat)
      requires linkedScriptsCount <= linkedScripts.Length
      ensures i <= linkedScriptsCount && (i < linkedScriptsCount <==> script in Table())
      ensures i < linkedScriptsCount ==> linkedScripts[i].script == script
    {
      i := 0;
      while i < linkedScriptsCount
        invariant i <= linkedScriptsCount
        invariant script !in Table()[..i]
      {
        if linkedScripts[i].script == script {
          assert Table()[i] == script;
          return;
        }
        i := i + 1;
      }
      assert Table()[..i] == Table();
    }

    /** `open` are the scripts whose includes are being linked up the call stack. */
    method LinkActsScript(script: int, ghost open: set<int>) returns (r: LinkResult, info: int)
      requires Valid(open) && 0 <= script < |w.scripts|
      modifies this`linkedScriptsCount, linkedScripts
      ensures w.Valid() && linkedScripts.Length == MAX_LINKED && linkedScriptsCount <= MAX_LINKED
      ensures GoodTable(w, Table())
      ensures old(Entries()) <= Entries()
      ensures NewGroup(old(linkedScriptsCount)) && Grown(w, old(Table()), Table(), script)
      ensures forall t :: t in Table() && t !in old(Table()) ==> Reaches(IncludeGraph(w), script, t)
      ensures r.Ok() ==>
        0 <= info < linkedScriptsCount && linkedScripts[info].script == script && ClosedBut(w, Table(), open)
      ensures r.Ok() ==> r.code == if script in old(Table()) then 0 else 1 + |w.scripts[script].includes|
      ensures !r.Ok() ==> Blocked(w, Table(), script)
      ensures !w.scripts[script].goodMagic ==> r == Returned(-1)
      ensures w.scripts[script].goodMagic && script !in old(Table()) && old(linkedScriptsCount) == 0x400 ==>
        r == Returned(-3)
      decreases MAX_LINKED - linkedScriptsCount, 0
    {
      hide Blocked, Reaches, IncludeGraph;
      info := -1;
      ReachesSelf(IncludeGraph(w), script);
      if !w.scripts[script].goodMagic {
        BlockedHere(w, Table(), script);
        return Returned(VMLO_CANT_FIND), info;
      }
      var found := FindLinked(script);
      if found < linkedScriptsCount {
        return Returned(VMLO_NOTHING), found;
      }
      if linkedScriptsCount == MAX_LINKED {
        BlockedHere(w, Table(), script);
        return Returned(VMLO_ERROR_TOO_MANY), info;
      }
      info := linkedScriptsCount;
      linkedScripts[linkedScriptsCount] := ScriptInfo(script, linkGroup);
      linkedScriptsCount := linkedScriptsCount + 1;
      assert Table() == old(Table()) + [script];
      AppendedTable(w, old(Table()), script);
      ghost var e1 := linkedScripts[..linkedScriptsCount];
      r := LinkIncludes(script, open);
      assert e1 <= linkedScripts[..linkedScriptsCount];
    }

    /** Links every include of a script that has just been registered. */
    method LinkIncludes(script: int, ghost open: set<int>) returns (r: LinkResult)
      requires Valid(open + {script}) && script in Table()
      requires linkedScriptsCount > 0 && linkedScripts[linkedScriptsCount - 1].script == script
      modifies this`linkedScriptsCount, linkedScripts
      ensures w.Valid() && linkedScripts.Length == MAX_LINKED && linkedScriptsCount <= MAX_LINKED
      ensures GoodTable(w, Table())
      ensures old(Entries()) <= Entries()
      ensures NewGroup(old(linkedScriptsCount)) && Ordered(w, Table(), old(linkedScriptsCount) - 1)
      ensures forall t :: t in Table() && t !in old(Table()) ==> Reaches(IncludeGraph(w), script, t)
      ensures r.Ok() ==> ClosedBut(w, Table(), open) && r.code == 1 + |w.scripts[script].includes|
      ensures !r.Ok() ==> r.Thrown? || r == Returned(-2)
      ensures !r.Ok() ==> Blocked(w, Table(), script)
      decreases MAX_LINKED - linkedScriptsCount, 3
    {
      ghost var e := Entries();
      ProgressStart(w, e, script, linkGroup);
      assert 0 <= script < |w.scripts|;
      hide Blocked, Progress, GoodTable, ClosedBut;
      var k := 0;
      while k < |w.scripts[script].includes|
        invariant k <= |w.scripts[script].includes|
        invariant Valid(open + {script}) && Progress(w, e, Entries(), script, linkGroup, k)
      {
        ghost var e1 := Entries();
        ProgressFacts(w, e, e1, script, linkGroup, k);
        var sub := LinkInclude(script, k, open, |e| - 1);
        ProgressStep(w, e, e1, Entries(), script, linkGroup, k, sub.Ok());
        if !sub.Ok() {
          ProgressFacts(w, e, Entries(), script, linkGroup, k);
          return if sub.Thrown? then Thrown else Returned(VMLO_ERROR_INCLUDES);
        }
        k := k + 1;
      }
      ProgressFacts(w, e, Entries(), script, linkGroup, k);
      NowClosed(w, Table(), open, script);
      r := Returned(1 + |w.scripts[script].includes|);
    }

    /** Links one include of the script that is entry `from`. */
    method LinkInclude(script: int, k: nat, ghost open: set<int>, ghost from: nat) returns (r: LinkResult)
      requires Valid(open + {script}) && script in Table() && k < |w.scripts[script].includes|
      requires from < linkedScriptsCount && linkedScripts[from].script == script && Ordered(w, Table(), from)
      modifies this`linkedScriptsCount, linkedScripts
      ensures w.Valid() && linkedScripts.Length == MAX_LINKED && linkedScriptsCount <= MAX_LINKED
      ensures GoodTable(w, Table())
      ensures old(Entries()) <= Entries()
      ensures NewGroup(old(linkedScriptsCount)) && Ordered(w, Table(), from)
      ensures forall t :: t in Table() && t !in old(Table()) ==> Reaches(IncludeGraph(w), script, t)
      ensures r.Ok() ==> Valid(open + {script})
      ensures r.Ok() ==> var n := w.scripts[script].includes[k]; n in w.getter && w.getter[n] in Table()
      ensures !r.Ok() ==> Blocked(w, Table(), script)
      decreases MAX_LINKED - linkedScriptsCount, 2
    {
      assert 0 <= script < |w.scripts|;
      hide Blocked, Reaches, IncludeGraph, Ordered, Grown, InGroup, GoodTable, ClosedBut;
      ghost var t0, n := Table(), w.scripts[script].includes[k];
      ghost var e0 := Entries();
      r := LinkScript(w.scripts[script].includes[k], open + {script});
      PrefixTable(e0, Entries());
      if n in w.getter {
        NewThroughInclude(w, script, n, t0, Table());
        OrderedThen(w, t0, Table(), from, script, n);
      }
      if !r.Ok() {
        BlockedByInclude(w, Table(), script, n);
      }
    }

    /** The registration part of LoadScript: a new link group, then the script and all it
        includes. It succeeds exactly when everything reachable can be linked and fits. */
    method LoadScript(name: string) returns (ok: bool)
      requires Valid({})
      modifies this`linkedScriptsCount, this`linkGroup, linkedScripts
      ensures ok <==> name in w.getter && Fits(w, old(Table()), w.getter[name])
      ensures ok ==> Valid({}) && w.getter[name] in Table() && old(Table()) <= Table()
      ensures ok ==> Elements(Table()) == Elements(old(Table())) + Reachable(w, w.getter[name])
      ensures linkGroup == old(linkGroup) + 1
      ensures linkedScriptsCount <= linkedScripts.Length && old(Entries()) <= Entries()
      ensures forall i :: old(linkedScriptsCount) <= i < linkedScriptsCount ==>
        linkedScripts[i].group == old(linkGroup) + 1
      ensures name in w.getter ==> Grown(w, old(Table()), Table(), w.getter[name])
      ensures ok ==> forall s, n :: s in Table() && n in w.scripts[s].includes ==>
        w.scripts[s].goodMagic && n in w.getter && w.getter[n] in Table()
    {
      hide Blocked, Fits, Reachable, Grown, InGroup, ClosedBut, GoodTable, Reaches, IncludeGraph;
      linkGroup := linkGroup + 1;
      ghost var t0, e0 := Table(), Entries();
      var r := LinkScript(name, {});
      ok := r.Ok();
      PrefixTable(e0, Entries());
      AllInGroup(Entries(), |e0|, linkGroup);
      assert forall i :: |e0| <= i < linkedScriptsCount ==> Entries()[i] == linkedScripts[i];
      if ok {
        LinkedFits(w, t0, Table(), w.getter[name]);
        ClosedTable(w, Table());
      } else if name in w.getter {
        BlockedDoesNotFit(w, t0, Table(), w.getter[name]);
      }
    }
  }

  /** Everything reachable can be linked, and fits into the table beside what is there. */
  ghost predicate Fits(w: World, t: seq<int>, s: int) {
    && (forall b :: Reaches(IncludeGraph(w), s, b) ==> Sane(w, b))
    && |Elements(t) + Reachable(w, s)| <= 0x400
  }

  lemma {:induction false} DistinctSize(t: seq<int>)
    requires forall i, j :: 0 <= i < j < |t| ==> t[i] != t[j]
    ensures |Elements(t)| == |t|
  {
    if t != [] {
      var u := t[..|t| - 1];
      DistinctSize(u);
      assert t == u + [t[|t| - 1]];
      assert Elements(t) == Elements(u) + {t[|t| - 1]};
    }
  }

  /** A closed table with the script in it holds everything the script reaches. */
  lemma {:induction false} HoldsReachable(w: World, t: seq<int>, s: int)
    requires w.Valid() && GoodTable(w, t) && ClosedBut(w, t, {}) && s in t
    ensures forall b :: Reaches(IncludeGraph(w), s, b) ==> b in t && Sane(w, b)
    ensures Reachable(w, s) <= Elements(t)
  {
    var g := IncludeGraph(w);
    assert ClosedSet(g, Elements(t)) by {
      forall a | a in Elements(t) && a in g
        ensures g[a] <= Elements(t)
      {
        assert Sane(w, a);
      }
    }
    forall b | Reaches(g, s, b)
      ensures b in t && Sane(w, b)
    {
      StaysInside(g, Elements(t), s, b);
    }
  }

  lemma {:induction false} LinkedFits(w: World, t0: seq<int>, t: seq<int>, s: int)
    requires w.Valid() && GoodTable(w, t) && ClosedBut(w, t, {}) && s in t && t0 <= t
    requires forall x :: x in t && x !in t0 ==> Reaches(IncludeGraph(w), s, x)
    ensures Fits(w, t0, s) && Elements(t) == Elements(t0) + Reachable(w, s)
  {
    HoldsReachable(w, t, s);
    DistinctSize(t);
    assert Elements(t) == Elements(t0) + Reachable(w, s);
  }

  lemma {:induction false} BlockedDoesNotFit(w: World, t0: seq<int>, t: seq<int>, s: int)
    requires w.Valid() && GoodTable(w, t) && t0 <= t && Blocked(w, t, s)
    requires forall x :: x in t && x !in t0 ==> Reaches(IncludeGraph(w), s, x)
    ensures !Fits(w, t0, s)
  {
    var b :| Reaches(IncludeGraph(w), s, b) && (!Sane(w, b) || (|t| == MAX_LINKED && b !in t));
    if Sane(w, b) {
      DistinctSize(t);
      var all := Elements(t0) + Reachable(w, s);
      assert b in all && b !in Elements(t);
      assert Elements(t) + {b} <= all;
      SubsetSize(Elements(t) + {b}, all);
    }
  }
}
