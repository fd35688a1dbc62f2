/** What the report of an audit says of single pointers: of members, of array elements and of
    the cases of a union. */
module AuditReport {
  import opened Options
  import opened Reach
  import opened AuditSchema
  import opened AuditFacts

  /** The name of a member can be told from what is printed behind it. */
  predicate Plain(name: string) {
    '[' !in name && '>' !in name
  }

  /** What may be printed behind the name of a member. */
  predicate Tail(s: string) {
    s == "" || "[" <= s || "->[" <= s
  }

  /** The name in front of a path. */
  function NameOf(path: string): string {
    if path == "" || Tail(path) then "" else [path[0]] + NameOf(path[1..])
  }

  lemma {:induction false} NameOfPath(x: string, s: string)
    requires Plain(x) && Tail(s)
    ensures NameOf(x + s) == x
  {
    if x == "" {
      assert x + s == s;
    } else {
      var z := x + s;
      assert z[0] == x[0] && z[1..] == x[1..] + s;
      assert x[0] in x && (|x| > 1 ==> x[1] in x);
      assert |z| > 1 ==> z[1] == if |x| > 1 then x[1] else s[0];
      NameOfPath(x[1..], s);
    }
  }

  lemma {:induction false} SameStart(x: string, s: string, y: string, u: string)
    requires Plain(x) && Plain(y) && Tail(s) && Tail(u) && x + s == y + u
    ensures x == y && s == u
  {
    NameOfPath(x, s);
    NameOfPath(y, u);
    assert (x + s)[|x|..] == s && (y + u)[|y|..] == u;
  }

  // ---------- Printed indices ----------

  function ValueOf(s: string): int {
    if s == "" then 0 else 10 * ValueOf(s[..|s| - 1]) + (s[|s| - 1] as int - '0' as int)
  }

  /** An index is printed in decimal digits, and can be read back. */
  lemma {:induction false} DecimalReads(n: nat)
    ensures ValueOf(Decimal(n)) == n && forall k :: 0 <= k < |Decimal(n)| ==> '0' <= Decimal(n)[k] <= '9'
  {
    var d := "0123456789"[n % 10];
    DigitIs(n % 10);
    if n >= 10 {
      DecimalReads(n / 10);
      assert Decimal(n) == Decimal(n / 10) + [d];
      hide Decimal;
      LastDigit(Decimal(n / 10), d);
    } else {
      assert Decimal(n) == "" + [d] && ValueOf("") == 0;
      hide Decimal;
      LastDigit("", d);
    }
  }

  lemma {:induction false} LastDigit(s: string, d: char)
    ensures ValueOf(s + [d]) == 10 * ValueOf(s) + (d as int - '0' as int)
  {
    assert (s + [d])[..|s|] == s;
  }

  lemma DigitIs(k: nat)
    requires k < 10
    ensures "0123456789"[k] as int - '0' as int == k && '0' <= "0123456789"[k] <= '9'
  {
  }

  function Bracketed(i: nat): string {
    "[" + Decimal(i) + "]"
  }

  /** The digits in front of a string. */
  function Digits(s: string): string {
    if s == "" || !('0' <= s[0] <= '9') then "" else [s[0]] + Digits(s[1..])
  }

  lemma {:induction false} DigitsOf(d: string, rest: string)
    requires (forall k :: 0 <= k < |d| ==> '0' <= d[k] <= '9') && "]" <= rest
    ensures Digits(d + rest) == d
  {
    if d == "" {
      assert d + rest == rest;
    } else {
      assert (d + rest)[1..] == d[1..] + rest && (d + rest)[0] == d[0];
      DigitsOf(d[1..], rest);
    }
  }

  lemma {:induction false} SameIndex(i: nat, j: nat, rest: string)
    requires Bracketed(j) + rest == Bracketed(i)
    ensures i == j && rest == ""
  {
    hide Decimal, ValueOf, Digits;
    var x, y := Decimal(i), Decimal(j);
    DecimalReads(i);
    DecimalReads(j);
    assert Bracketed(i)[1..] == x + "]" && (Bracketed(j) + rest)[1..] == y + ("]" + rest);
    DigitsOf(x, "]");
    DigitsOf(y, "]" + rest);
    assert |Bracketed(i)| == |Bracketed(j) + rest|;
  }

  // ---------- Paths ----------

  /** What is printed behind the path of a place for the places under it. */
  lemma {:induction false} PathUnder(sch: Schema, a: Place, b: Place) returns (s: string)
    requires Under(sch, a, b)
    ensures b.path == a.path + s && Tail(s) && (s == "" ==> b == a)
  {
    var p :| PlaceChain(sch, p) && p[0] == a && p[|p| - 1] == b;
    s := PathAlong(sch, p);
  }

  lemma {:induction false} PathAlong(sch: Schema, p: seq<Place>) returns (s: string)
    requires PlaceChain(sch, p)
    ensures p[|p| - 1].path == p[0].path + s && Tail(s) && (s == "" ==> |p| == 1)
    decreases |p|
  {
    s := "";
    if |p| > 1 {
      var q := p[1..];
      assert PlaceChain(sch, q) by {
        forall i | 0 <= i < |q| - 1 ensures Inner(sch, q[i], q[i + 1]) {
          assert q[i] == p[i + 1] && q[i + 1] == p[i + 2];
        }
      }
      var rest := PathAlong(sch, q);
      var step := PathInner(sch, p[0], p[1]);
      s := step + rest;
      assert p[|p| - 1] == q[|q| - 1];
    }
  }

  lemma {:induction false} PathInner(sch: Schema, a: Place, b: Place) returns (s: string)
    requires Inner(sch, a, b)
    ensures b.path == a.path + s && ("[" <= s || "->[" <= s)
    ensures ElementOf(sch, a, b) ==> exists i: nat :: s == Bracketed(i)
    ensures !ElementOf(sch, a, b) ==> "->[" <= s
  {
    hide Decimal, Stops;
    if ElementOf(sch, a, b) {
      var count: nat, i: nat :| Stands(sch, a.type_, Array(count, b.type_)) && i < count &&
        b.path == a.path + "[" + Decimal(i) + "]" &&
        b.rule == match a.rule case Some(r) => (if i < |r.elements| then r.elements[i] else None) case None => None;
      s := Bracketed(i);
      assert b.path == a.path + s;
    } else {
      s := "->[]";
    }
  }

  // ---------- Gaps by path ----------

  ghost predicate PlainStarts(sch: Schema, n: Name) {
    forall a :: Starts(sch, n, a) ==> Plain(a.path)
  }

  /** A gap with a plain path is that of a place the walk starts with. */
  lemma {:induction false} GapAtStart(sch: Schema, n: Name, name: string)
    requires PlainStarts(sch, n) && Plain(name)
    ensures OwnGap(sch, n, Gap(n, name, PointerExtentRequired)) <==>
      exists a :: Starts(sch, n, a) && a.path == name && Lacks(sch, a)
  {
    hide Starts, Lacks, Under, Chosen;
    var g := Gap(n, name, PointerExtentRequired);
    if OwnGap(sch, n, g) {
      var b :| LooksAt(sch, n, b) && Lacks(sch, b) && g == Gap(n, b.path, PointerExtentRequired);
      var a :| Starts(sch, n, a) && Under(sch, a, b);
      var s := PathUnder(sch, a, b);
      assert name == name + "";
      SameStart(a.path, s, name, "");
    }
    if a :| Starts(sch, n, a) && a.path == name && Lacks(sch, a) {
      UnderSelf(sch, a);
      assert LooksAt(sch, n, a);
    }
  }

  /** A gap at the printed index of an element is that of an element of a place the walk
      starts with. */
  lemma {:induction false} GapAtElement(sch: Schema, n: Name, name: string, i: nat)
    requires PlainStarts(sch, n) && Plain(name)
    ensures OwnGap(sch, n, Gap(n, name + Bracketed(i), PointerExtentRequired)) <==>
      exists a, b :: Starts(sch, n, a) && a.path == name && ElementOf(sch, a, b) && b.path == name + Bracketed(i) &&
        Lacks(sch, b)
  {
    hide Starts, Lacks, Chosen, ElementOf, BehindPointer;
    var g := Gap(n, name + Bracketed(i), PointerExtentRequired);
    if OwnGap(sch, n, g) {
      var b :| LooksAt(sch, n, b) && Lacks(sch, b) && g == Gap(n, b.path, PointerExtentRequired);
      var a :| Starts(sch, n, a) && Under(sch, a, b);
      var s := PathUnder(sch, a, b);
      SameStart(a.path, s, name, Bracketed(i));
      UnderFrom(sch, a, b);
      var c :| Inner(sch, a, c) && Under(sch, c, b);
      ElementItself(sch, a, c, b, i);
    }
    if a, b :|
      Starts(sch, n, a) && a.path == name && ElementOf(sch, a, b) && b.path == name + Bracketed(i) && Lacks(sch, b) {
      UnderSelf(sch, b);
      UnderAfter(sch, a, b, b);
      assert LooksAt(sch, n, b);
    }
  }

  lemma {:induction false} ElementItself(sch: Schema, a: Place, c: Place, b: Place, i: nat)
    requires Inner(sch, a, c) && Under(sch, c, b) && b.path == a.path + Bracketed(i)
    ensures ElementOf(sch, a, c) && b == c
  {
    hide ElementOf, BehindPointer, Under;
    var s := PathInner(sch, a, c);
    var rest := PathUnder(sch, c, b);
    assert b.path == a.path + (s + rest);
    assert s + rest == Bracketed(i) by {
      assert b.path[|a.path|..] == s + rest && b.path[|a.path|..] == Bracketed(i);
    }
    assert s[0] == Bracketed(i)[0] == '[';
    var j: nat :| s == Bracketed(j);
    SameIndex(i, j, rest);
  }

  // ---------- Members ----------

  /** n is looked at member by member; its members' names differ and are plain. */
  ghost predicate ByMembers(sch: Schema, n: Name, ms: seq<Member>) {
    && (exists isUnion :: Stands(sch, n, Composite(isUnion, ms))) && !Chosen(sch, n)
    && (forall i :: 0 <= i < |ms| ==> Plain(ms[i].name))
    && (forall i, j :: 0 <= i < j < |ms| ==> ms[i].name != ms[j].name)
  }

  function MemberPlace(sch: Schema, n: Name, m: Member): Place {
    Place(m.name, m.type_,
      if n in sch.pointers && m.name in sch.pointers[n] then Some(sch.pointers[n][m.name]) else None)
  }

  lemma {:induction false} MemberStart(sch: Schema, n: Name, ms: seq<Member>, m: Member)
    requires ByMembers(sch, n, ms) && m in ms
    ensures PlainStarts(sch, n) && Plain(m.name)
    ensures forall a :: Starts(sch, n, a) && a.path == m.name <==> a == MemberPlace(sch, n, m)
  {
    hide Chosen;
    var isUnion :| Stands(sch, n, Composite(isUnion, ms));
    assert Member(m.name, m.type_) == m;
    forall b | Starts(sch, n, b) ensures Member(b.path, b.type_) in ms {
    }
    assert FromMember(sch, n, MemberPlace(sch, n, m));
  }

  /** A pointer member is a gap exactly if it has no rule and needs one. */
  lemma {:induction false} MemberGap(sch: Schema, n: Name, ms: seq<Member>, m: Member, t: Name)
    requires ByMembers(sch, n, ms) && m in ms && Stands(sch, m.type_, Pointer(t))
    ensures OwnGap(sch, n, Gap(n, m.name, PointerExtentRequired)) <==>
      (n in sch.pointers ==> m.name !in sch.pointers[n]) && t !in sch.roots && !Extentless(t)
  {
    hide ByMembers, Starts, PlainStarts, OwnGap;
    MemberStart(sch, n, ms, m);
    GapAtStart(sch, n, m.name);
    assert Lacks(sch, MemberPlace(sch, n, m)) <==>
      (n in sch.pointers ==> m.name !in sch.pointers[n]) && t !in sch.roots && !Extentless(t);
  }

  /** A ruled pointer to a type that is neither pointer nor array is followed, but for runtime
      data and single references to what is audited by itself. */
  lemma {:induction false} MemberFollowed(sch: Schema, n: Name, ms: seq<Member>, m: Member, t: Name, u: Type)
    requires ByMembers(sch, n, ms) && m in ms && Stands(sch, m.type_, Pointer(t))
    requires Stands(sch, t, u) && !u.Pointer? && !u.Array?
    requires n in sch.pointers && m.name in sch.pointers[n]
    requires var r := sch.pointers[n][m.name]; !r.runtime && !(r.countIsOne && t in sch.roots)
    ensures WalksTo(sch, n, t)
  {
    hide ByMembers, Starts, PlainStarts;
    MemberStart(sch, n, ms, m);
    Followed(sch, n, MemberPlace(sch, n, m), t, u);
  }

  lemma {:induction false} Followed(sch: Schema, n: Name, a: Place, t: Name, u: Type)
    requires Starts(sch, n, a) && Stands(sch, a.type_, Pointer(t)) && !Stops(sch, t, a.rule)
    requires Stands(sch, t, u) && !u.Pointer? && !u.Array?
    ensures WalksTo(sch, n, t)
  {
    hide Starts;
    UnderSelf(sch, a);
    assert LooksAt(sch, n, a) && Goes(sch, a, t);
  }

  /** Behind a runtime pointer nothing is looked at, and it is no gap. */
  lemma {:induction false} RuntimeStops(sch: Schema, a: Place, t: Name)
    requires Stands(sch, a.type_, Pointer(t)) && a.rule.Some? && a.rule.value.runtime
    ensures forall b :: Under(sch, a, b) ==> b == a
    ensures !Lacks(sch, a) && forall k :: !Goes(sch, a, k)
  {
    assert forall c :: !Inner(sch, a, c);
    forall b | Under(sch, a, b) ensures b == a {
      UnderFrom(sch, a, b);
    }
  }

  /** Element i of an array of pointers has the rule of its own that the array's rule gives. */
  function ElementPlace(a: Place, element: Name, i: nat): Place {
    Place(a.path + Bracketed(i), element,
      match a.rule case Some(r) => (if i < |r.elements| then r.elements[i] else None) case None => None)
  }

  lemma {:induction false} ElementOfIs(sch: Schema, a: Place, count: nat, e: Name, i: nat, b: Place)
    requires Stands(sch, a.type_, Array(count, e)) && i < count
    ensures ElementOf(sch, a, b) && b.path == a.path + Bracketed(i) <==> b == ElementPlace(a, e, i)
  {
    assert a.path + Bracketed(i) == a.path + "[" + Decimal(i) + "]";
    if ElementOf(sch, a, b) && b.path == a.path + Bracketed(i) {
      var count': nat, j: nat :| Stands(sch, a.type_, Array(count', b.type_)) && j < count' &&
        b.path == a.path + "[" + Decimal(j) + "]" &&
        b.rule == match a.rule case Some(r) => (if j < |r.elements| then r.elements[j] else None) case None => None;
      assert b.path[|a.path|..] == Bracketed(i) && b.path[|a.path|..] == Bracketed(j);
      assert Bracketed(j) + "" == Bracketed(i);
      SameIndex(i, j, "");
    }
    if b == ElementPlace(a, e, i) {
      assert Stands(sch, a.type_, Array(count, b.type_)) && i < count;
    }
  }

  /** A pointer in an array is a gap, at its printed index, exactly if it has no rule of its own
      and needs one. */
  lemma {:induction false} ElementGap(sch: Schema, n: Name, ms: seq<Member>, m: Member, count: nat, e: Name, i: nat,
                                      t: Name)
    requires ByMembers(sch, n, ms) && m in ms && Stands(sch, m.type_, Array(count, e)) && i < count
    requires Stands(sch, e, Pointer(t))
    ensures OwnGap(sch, n, Gap(n, m.name + "[" + Decimal(i) + "]", PointerExtentRequired)) <==>
      && (n in sch.pointers && m.name in sch.pointers[n] ==>
            var es := sch.pointers[n][m.name].elements; i < |es| ==> es[i] == None)
      && t !in sch.roots && !Extentless(t)
  {
    hide ByMembers, Starts, PlainStarts, OwnGap, ElementOf;
    var a := MemberPlace(sch, n, m);
    MemberStart(sch, n, ms, m);
    GapAtElement(sch, n, m.name, i);
    assert m.name + Bracketed(i) == m.name + "[" + Decimal(i) + "]";
    forall b ensures ElementOf(sch, a, b) && b.path == m.name + Bracketed(i) <==> b == ElementPlace(a, e, i) {
      ElementOfIs(sch, a, count, e, i, b);
    }
    assert Lacks(sch, ElementPlace(a, e, i)) <==>
      ElementPlace(a, e, i).rule == None && t !in sch.roots && !Extentless(t);
  }

  // ---------- Cases of a union ----------

  /** n is a union with a rule; its members' names are plain. */
  ghost predicate ByRule(sch: Schema, n: Name, ms: seq<Member>) {
    && (exists isUnion :: Stands(sch, n, Composite(isUnion, ms))) && Chosen(sch, n) && n in sch.unions
    && (forall i :: 0 <= i < |ms| ==> Plain(ms[i].name))
  }

  lemma {:induction false} CaseStart(sch: Schema, n: Name, ms: seq<Member>, m: Member, t: Type)
    requires ByRule(sch, n, ms) && LastNamed(ms, m.name, m) && Stands(sch, m.type_, t)
    ensures PlainStarts(sch, n) && Plain(m.name) && n in sch.unions
    ensures forall a :: Starts(sch, n, a) && a.path == m.name <==>
      a.path == m.name && a.type_ == m.type_ &&
      exists c :: c in sch.unions[n] && c.member == m.name && RuleOfCase(c, t, a.rule)
  {
    hide Chosen, RuleOfCase;
    var isUnion :| Stands(sch, n, Composite(isUnion, ms));
    forall b | Starts(sch, n, b) ensures Plain(b.path) {
      var c :| c in sch.unions[n] && FromCase(sch, n, c, b);
      assert LastNamed(ms, c.member, Member(b.path, b.type_));
    }
    forall a ensures Starts(sch, n, a) && a.path == m.name <==>
      a.path == m.name && a.type_ == m.type_ &&
      exists c :: c in sch.unions[n] && c.member == m.name && RuleOfCase(c, t, a.rule)
    {
      CaseStartAt(sch, n, ms, m, t, a);
    }
  }

  lemma {:induction false} CaseStartAt(sch: Schema, n: Name, ms: seq<Member>, m: Member, t: Type, a: Place)
    requires ByRule(sch, n, ms) && LastNamed(ms, m.name, m) && Stands(sch, m.type_, t)
    ensures Starts(sch, n, a) && a.path == m.name <==>
      a.path == m.name && a.type_ == m.type_ &&
      exists c :: c in sch.unions[n] && c.member == m.name && RuleOfCase(c, t, a.rule)
  {
    hide Chosen, RuleOfCase;
    var isUnion :| Stands(sch, n, Composite(isUnion, ms));
    if Starts(sch, n, a) && a.path == m.name {
      var c :| c in sch.unions[n] && FromCase(sch, n, c, a);
      assert LastNamed(ms, c.member, Member(a.path, a.type_));
      SameLast(ms, m.name, m, Member(a.path, a.type_));
    }
    if c :| a.path == m.name && a.type_ == m.type_ && c in sch.unions[n] && c.member == m.name &&
            RuleOfCase(c, t, a.rule)
    {
      assert Member(a.path, a.type_) == m;
      assert FromCase(sch, n, c, a);
    }
  }

  lemma SameLast(ms: seq<Member>, name: string, m: Member, k: Member)
    requires LastNamed(ms, name, m) && LastNamed(ms, name, k)
    ensures m == k
  {
  }

  /** A pointer in a union is a gap exactly if some case takes it for a string and it needs a rule. */
  lemma {:induction false} CaseGap(sch: Schema, n: Name, ms: seq<Member>, m: Member, t: Name)
    requires ByRule(sch, n, ms) && LastNamed(ms, m.name, m) && Stands(sch, m.type_, Pointer(t))
    ensures OwnGap(sch, n, Gap(n, m.name, PointerExtentRequired)) <==>
      && (exists c :: c in sch.unions[n] && c.member == m.name && !c.runtime && c.isString && c.elementCount.None?)
      && t !in sch.roots && !Extentless(t)
  {
    hide ByRule, Starts, PlainStarts, OwnGap, Extentless;
    CaseStart(sch, n, ms, m, Pointer(t));
    GapAtStart(sch, n, m.name);
    var a := Place(m.name, m.type_, None);
    assert Lacks(sch, a) <==> t !in sch.roots && !Extentless(t);
    assert forall b: Place :: b.path == m.name && b.type_ == m.type_ && Lacks(sch, b) ==> b == a;
    assert forall c :: RuleOfCase(c, Pointer(t), None) <==> !c.runtime && c.isString && c.elementCount.None?;
  }

  /** A case that takes a pointer for data of a count follows it, but for single references to
      what is audited by itself. */
  lemma {:induction false} CaseFollowed(sch: Schema, n: Name, ms: seq<Member>, m: Member, c: Case, t: Name, u: Type)
    requires ByRule(sch, n, ms) && LastNamed(ms, m.name, m) && Stands(sch, m.type_, Pointer(t))
    requires Stands(sch, t, u) && !u.Pointer? && !u.Array?
    requires c in sch.unions[n] && c.member == m.name && !c.runtime && !c.isString && !(c.countIsOne && t in sch.roots)
    ensures WalksTo(sch, n, t)
  {
    hide ByRule, Starts, PlainStarts;
    CaseStart(sch, n, ms, m, Pointer(t));
    var a := Place(m.name, m.type_, Some(Rule(false, c.countIsOne, None, [])));
    assert RuleOfCase(c, Pointer(t), a.rule);
    assert Starts(sch, n, a);
    Followed(sch, n, a, t, u);
  }

  /** A pointer in an array of a union is a gap exactly if some case gives the array no count for
      its elements, and it needs a rule. */
  lemma {:induction false} CaseElementGap(sch: Schema, n: Name, ms: seq<Member>, m: Member, count: nat, e: Name, i: nat,
                                          t: Name)
    requires ByRule(sch, n, ms) && LastNamed(ms, m.name, m) && Stands(sch, m.type_, Array(count, e)) && i < count
    requires Stands(sch, e, Pointer(t))
    ensures OwnGap(sch, n, Gap(n, m.name + "[" + Decimal(i) + "]", PointerExtentRequired)) <==>
      && (exists c :: c in sch.unions[n] && c.member == m.name && (c.runtime || c.elementCount.None?))
      && t !in sch.roots && !Extentless(t)
  {
    hide ByRule, Starts, PlainStarts, OwnGap, ElementOf, Extentless;
    CaseStart(sch, n, ms, m, Array(count, e));
    GapAtElement(sch, n, m.name, i);
    assert m.name + Bracketed(i) == m.name + "[" + Decimal(i) + "]";
    forall a: Place, b | a.path == m.name && a.type_ == m.type_
      ensures ElementOf(sch, a, b) && b.path == m.name + Bracketed(i) <==> b == ElementPlace(a, e, i)
    {
      ElementOfIs(sch, a, count, e, i, b);
    }
    forall a: Place | a.path == m.name && a.type_ == m.type_
      ensures Lacks(sch, ElementPlace(a, e, i)) <==>
        ElementPlace(a, e, i).rule == None && t !in sch.roots && !Extentless(t)
    {
    }
    if c :| c in sch.unions[n] && c.member == m.name && (c.runtime || c.elementCount.None?) {
      var a := Place(m.name, m.type_, if c.runtime then Some(Rule(true, false, None, [])) else None);
      assert RuleOfCase(c, Array(count, e), a.rule) && Starts(sch, n, a);
      assert ElementPlace(a, e, i).rule == None;
      assert ElementOf(sch, a, ElementPlace(a, e, i)) && ElementPlace(a, e, i).path == m.name + Bracketed(i);
    }
  }

  // ---------- The whole report ----------

  predicate Reported(gaps: set<Gap>, n: Name, path: string) {
    Gap(n, path, PointerExtentRequired) in gaps
  }

  /** Plain pointer members are reported exactly if they have no rule and need one. */
  ghost predicate MembersReported(sch: Schema, seen: set<Name>, gaps: set<Gap>) {
    forall n, ms, m: Member, t :: n in seen && ByMembers(sch, n, ms) && m in ms && Stands(sch, m.type_, Pointer(t)) ==>
      (Reported(gaps, n, m.name) <==>
         (n in sch.pointers ==> m.name !in sch.pointers[n]) && t !in sch.roots && !Extentless(t))
  }

  /** What a rule lets the walk follow has been seen. */
  ghost predicate RuledSeen(sch: Schema, seen: set<Name>) {
    forall n, ms, m: Member, t, u: Type ::
      && n in seen && ByMembers(sch, n, ms) && m in ms && Stands(sch, m.type_, Pointer(t))
      && Stands(sch, t, u) && !u.Pointer? && !u.Array? && n in sch.pointers && m.name in sch.pointers[n]
      && !sch.pointers[n][m.name].runtime && !(sch.pointers[n][m.name].countIsOne && t in sch.roots) ==>
      t in seen
  }

  /** Pointers in arrays are reported at their printed indices, each by the rule of its own. */
  ghost predicate ElementsReported(sch: Schema, seen: set<Name>, gaps: set<Gap>) {
    forall n, ms, m: Member, count: nat, e, i: nat, t ::
      && n in seen && ByMembers(sch, n, ms) && m in ms && Stands(sch, m.type_, Array(count, e)) && i < count
      && Stands(sch, e, Pointer(t)) ==>
      (Reported(gaps, n, m.name + "[" + Decimal(i) + "]") <==>
         && (n in sch.pointers && m.name in sch.pointers[n] && i < |sch.pointers[n][m.name].elements| ==>
               sch.pointers[n][m.name].elements[i] == None)
         && t !in sch.roots && !Extentless(t))
  }

  /** Pointers in a union with a rule are reported exactly if some case takes them for strings. */
  ghost predicate CasesReported(sch: Schema, seen: set<Name>, gaps: set<Gap>) {
    forall n, ms, m: Member, t ::
      && n in seen && ByRule(sch, n, ms) && LastNamed(ms, m.name, m) && Stands(sch, m.type_, Pointer(t)) ==>
      (Reported(gaps, n, m.name) <==>
         && (exists c :: c in sch.unions[n] && c.member == m.name && !c.runtime && c.isString && c.elementCount.None?)
         && t !in sch.roots && !Extentless(t))
  }

  lemma {:induction false} ReportMembers(sch: Schema, root: Name, seen: set<Name>, gaps: set<Gap>)
    requires forall k :: k in seen <==> Walked(sch, root, k)
    requires forall g :: g in gaps <==> exists n :: n in seen && OwnGap(sch, n, g)
    ensures MembersReported(sch, seen, gaps) && RuledSeen(sch, seen)
  {
    hide ByMembers, Extentless, OwnGap, WalksTo, Walked;
    forall n, ms, m: Member, t | n in seen && ByMembers(sch, n, ms) && m in ms && Stands(sch, m.type_, Pointer(t))
      ensures Reported(gaps, n, m.name) <==>
        (n in sch.pointers ==> m.name !in sch.pointers[n]) && t !in sch.roots && !Extentless(t)
    {
      MemberGap(sch, n, ms, m, t);
      OwnerOnly(sch, n, Gap(n, m.name, PointerExtentRequired));
    }
    forall n, ms, m: Member, t, u: Type |
      && n in seen && ByMembers(sch, n, ms) && m in ms && Stands(sch, m.type_, Pointer(t))
      && Stands(sch, t, u) && !u.Pointer? && !u.Array? && n in sch.pointers && m.name in sch.pointers[n]
      && !sch.pointers[n][m.name].runtime && !(sch.pointers[n][m.name].countIsOne && t in sch.roots)
      ensures t in seen
    {
      MemberFollowed(sch, n, ms, m, t, u);
      WalkedOn(sch, root, n, t);
    }
  }

  lemma {:induction false} ReportElements(sch: Schema, seen: set<Name>, gaps: set<Gap>)
    requires forall g :: g in gaps <==> exists n :: n in seen && OwnGap(sch, n, g)
    ensures ElementsReported(sch, seen, gaps)
  {
    hide ByMembers, Extentless, OwnGap, Decimal;
    forall n, ms, m: Member, count: nat, e, i: nat, t |
      && n in seen && ByMembers(sch, n, ms) && m in ms && Stands(sch, m.type_, Array(count, e)) && i < count
      && Stands(sch, e, Pointer(t))
      ensures Reported(gaps, n, m.name + "[" + Decimal(i) + "]") <==>
        && (n in sch.pointers && m.name in sch.pointers[n] && i < |sch.pointers[n][m.name].elements| ==>
              sch.pointers[n][m.name].elements[i] == None)
        && t !in sch.roots && !Extentless(t)
    {
      ElementGap(sch, n, ms, m, count, e, i, t);
      OwnerOnly(sch, n, Gap(n, m.name + "[" + Decimal(i) + "]", PointerExtentRequired));
    }
  }

  lemma {:induction false} ReportCases(sch: Schema, seen: set<Name>, gaps: set<Gap>)
    requires forall g :: g in gaps <==> exists n :: n in seen && OwnGap(sch, n, g)
    ensures CasesReported(sch, seen, gaps)
  {
    hide Extentless, OwnGap, LastNamed;
    forall n, ms, m: Member, t |
      n in seen && ByRule(sch, n, ms) && LastNamed(ms, m.name, m) && Stands(sch, m.type_, Pointer(t))
      ensures Reported(gaps, n, m.name) <==>
        && (exists c :: c in sch.unions[n] && c.member == m.name && !c.runtime && c.isString && c.elementCount.None?)
        && t !in sch.roots && !Extentless(t)
    {
      CaseGap(sch, n, ms, m, t);
      OwnerOnly(sch, n, Gap(n, m.name, PointerExtentRequired));
    }
  }

  lemma {:induction false} OwnerOnly(sch: Schema, n: Name, g: Gap)
    requires g.owner == n
    ensures forall k :: OwnGap(sch, k, g) ==> k == n
  {
    hide LooksAt, Lacks, Chosen;
  }

  lemma {:induction false} WalkedOn(sch: Schema, root: Name, n: Name, k: Name)
    requires Walked(sch, root, n) && WalksTo(sch, n, k)
    ensures Walked(sch, root, k)
  {
    hide WalksTo;
    var p: seq<Name> :| p != [] && p[0] == root && p[|p| - 1] == n &&
      forall i :: 0 <= i < |p| - 1 ==> WalksTo(sch, p[i], p[i + 1]);
    var q := p + [k];
    forall i | 0 <= i < |q| - 1 ensures WalksTo(sch, q[i], q[i + 1]) {
      if i < |p| - 1 {
        assert WalksTo(sch, p[i], p[i + 1]);
      }
    }
    assert q != [] && q[0] == root && q[|q| - 1] == k;
  }

  lemma {:induction false} WalkStepIs(sch: Schema, names: set<Name>, depth: map<Name, nat>, n: Name, k: Name)
    requires Closed(sch, names, depth) && n in names
    ensures WalkGraph(sch, names, depth).Keys == names && WalkGraph(sch, names, depth)[n] <= names
    ensures WalksTo(sch, n, k) <==> k in WalkGraph(sch, names, depth)[n]
  {
    hide Closed, WalksTo, OwnGap, LocalGaps;
    WalkIs(sch, names, depth, n, k, Gap("", "", SelectorRequired));
    NextInside(sch, names, depth, n);
  }

  lemma NextInside(sch: Schema, names: set<Name>, depth: map<Name, nat>, n: Name)
    requires Closed(sch, names, depth) && n in names
    ensures Next(sch, names, depth, n) <= names
  {
  }

  /** The types a search of the walk reaches are those walked from its root. */
  lemma {:induction false} WalkedIs(sch: Schema, names: set<Name>, depth: map<Name, nat>, root: Name, k: Name)
    requires Closed(sch, names, depth) && root in names
    ensures Walked(sch, root, k) <==> Reaches(WalkGraph(sch, names, depth), root, k)
  {
    hide Closed, WalksTo, WalkGraph;
    if Walked(sch, root, k) {
      WalkedReaches(sch, names, depth, root, k);
    }
    if Reaches(WalkGraph(sch, names, depth), root, k) {
      var g := WalkGraph(sch, names, depth);
      var p :| Joins(g, p, root, k);
      WalkStepIs(sch, names, depth, root, root);
      forall i | 0 <= i < |p| - 1 ensures WalksTo(sch, p[i], p[i + 1]) {
        assert p[i] in g && p[i + 1] in g[p[i]];
        WalkStepIs(sch, names, depth, p[i], p[i + 1]);
      }
    }
  }

  lemma {:induction false} WalkedReaches(sch: Schema, names: set<Name>, depth: map<Name, nat>, root: Name, k: Name)
    requires Closed(sch, names, depth) && root in names && Walked(sch, root, k)
    ensures Reaches(WalkGraph(sch, names, depth), root, k)
  {
    hide Closed, WalksTo, WalkGraph;
    var g := WalkGraph(sch, names, depth);
    var p: seq<Name> :| p != [] && p[0] == root && p[|p| - 1] == k &&
      forall i :: 0 <= i < |p| - 1 ==> WalksTo(sch, p[i], p[i + 1]);
    var i := 0;
    while i < |p| - 1
      invariant 0 <= i < |p| && p[i] in names
      invariant forall j :: 0 <= j < i ==> p[j] in g && p[j + 1] in g[p[j]]
    {
      assert WalksTo(sch, p[i], p[i + 1]);
      WalkStepIs(sch, names, depth, p[i], p[i + 1]);
      i := i + 1;
    }
    assert Joins(g, p, root, k);
  }
}
