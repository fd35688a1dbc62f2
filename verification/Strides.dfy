/** Array strides recognised from three sample counts. */
module Strides {
  import opened Options
  import opened Bits

  /** A size expression: literals, the element count, products and shifts; anything else is refused. */
  datatype Expr =
    | Literal(value: nat)
    | Count
    | Times(left: Expr, right: Expr)
    | Shifted(left: Expr, right: Expr)
    | Refused

  predicate Plain(e: Expr) {
    match e
    case Times(l, r) => Plain(l) && Plain(r)
    case Shifted(l, r) => Plain(l) && Plain(r)
    case Refused => false
    case _ => true
  }

  function Value(e: Expr, count: nat): nat
    requires Plain(e)
  {
    match e
    case Literal(v) => v
    case Count => count
    case Times(l, r) => Value(l, count) * Value(r, count)
    case Shifted(l, r) => Value(l, count) * Pow2(Value(r, count))
  }

  /** The evaluator: None is its error. */
  function Size(e: Expr, count: nat): (r: Option<nat>)
    ensures r == if Plain(e) then Some(Value(e, count)) else None
  {
    match e
    case Literal(v) => Some(v)
    case Count => Some(count)
    case Times(l, r) =>
      (var a, b := Size(l, count), Size(r, count); if a.None? || b.None? then None else Some(a.value * b.value))
    case Shifted(l, r) =>
      (var a, b := Size(l, count), Size(r, count); if a.None? || b.None? then None else Some(a.value * Pow2(b.value)))
    case Refused => None
  }

  /** A shift doubles its left side as often as its right side says. */
  lemma {:induction false} ShiftDoubles(l: Expr, r: Expr, r': Expr, n: nat)
    requires Plain(l) && Plain(r) && Plain(r')
    ensures Value(r, n) == 0 ==> Value(Shifted(l, r), n) == Value(l, n)
    ensures Value(r', n) == Value(r, n) + 1 ==> Value(Shifted(l, r'), n) == 2 * Value(Shifted(l, r), n)
  {
    var v, k := Value(l, n), Value(r, n);
    if Value(r', n) == k + 1 {
      assert Value(Shifted(l, r'), n) == v * Pow2(k + 1) && Value(Shifted(l, r), n) == v * Pow2(k);
      assert Pow2(k + 1) == 2 * Pow2(k);
      hide Value, Pow2;
      DoubleRight(v, Pow2(k));
    }
  }

  lemma DoubleRight(v: nat, p: nat)
    ensures v * (2 * p) == 2 * (v * p)
  {
  }

  // ---------- Growth between the sample points ----------

  /** Zero at one element means zero from there on. */
  lemma {:induction false} ZeroStays(e: Expr, n: nat)
    requires Plain(e) && Value(e, 1) == 0 && n >= 1
    ensures Value(e, n) == 0
  {
    match e {
      case Times(l, r) =>
        if Value(l, 1) == 0 {
          ZeroStays(l, n);
        } else {
          Positive(Value(l, 1), Value(r, 1));
          ZeroStays(r, n);
        }
      case Shifted(l, r) =>
        Positive(Value(l, 1), Pow2(Value(r, 1)));
        ZeroStays(l, n);
      case _ =>
    }
  }

  lemma Positive(a: nat, b: nat)
    ensures a * b == 0 <==> a == 0 || b == 0
  {
  }

  lemma {:induction false} Grows(e: Expr)
    requires Plain(e)
    ensures Value(e, 1) <= Value(e, 2)
  {
    match e {
      case Times(l, r) =>
        Grows(l);
        Grows(r);
        Products(Value(l, 1), Value(r, 1), Value(l, 2), Value(r, 2));
      case Shifted(l, r) =>
        Grows(l);
        Grows(r);
        PowersGrow(Value(r, 1), Value(r, 2));
        Products(Value(l, 1), Pow2(Value(r, 1)), Value(l, 2), Pow2(Value(r, 2)));
      case _ =>
    }
  }

  lemma {:induction false} PowersGrow(a: nat, b: nat)
    requires a <= b
    ensures Pow2(a) <= Pow2(b) && (Pow2(a) == Pow2(b) ==> a == b)
    decreases b - a
  {
    if a < b {
      PowersGrow(a + 1, b);
    }
  }

  /** Products of larger factors are larger, and equal only if the factors are. */
  lemma {:induction false} Products(a: nat, b: nat, c: nat, d: nat)
    requires a <= c && b <= d
    ensures a * b <= c * d
    ensures a > 0 && b > 0 && a * b == c * d ==> a == c && b == d
  {
    assert c * d == a * b + (c - a) * b + c * (d - b);
  }

  /** What does not grow from one element to two never changes again. */
  lemma {:induction false} FlatStays(e: Expr, n: nat)
    requires Plain(e) && Value(e, 1) == Value(e, 2) && n >= 1
    ensures Value(e, n) == Value(e, 1)
  {
    if Value(e, 1) == 0 {
      ZeroStays(e, n);
    } else {
      match e {
        case Times(l, r) =>
          Grows(l);
          Grows(r);
          Positive(Value(l, 1), Value(r, 1));
          Products(Value(l, 1), Value(r, 1), Value(l, 2), Value(r, 2));
          FlatStays(l, n);
          FlatStays(r, n);
        case Shifted(l, r) =>
          Grows(l);
          Grows(r);
          PowersGrow(Value(r, 1), Value(r, 2));
          Positive(Value(l, 1), Pow2(Value(r, 1)));
          Products(Value(l, 1), Pow2(Value(r, 1)), Value(l, 2), Pow2(Value(r, 2)));
          FlatStays(l, n);
          FlatStays(r, n);
        case _ =>
      }
    }
  }

  // ---------- The three-point test ----------

  ghost predicate Doubles(e: Expr, n: nat)
    requires Plain(e)
  {
    && Value(e, 1) > 0 && Value(e, 2) >= 2 * Value(e, 1)
    && (Value(e, 2) == 2 * Value(e, 1) ==> Value(e, n) == n * Value(e, 1))
  }

  /** A size that starts at zero at least doubles, and if it just doubles, it is linear. */
  lemma {:induction false} DoublesOrMore(e: Expr, n: nat)
    requires Plain(e) && Value(e, 0) == 0 && Value(e, 1) > 0
    ensures Value(e, 2) >= 2 * Value(e, 1)
    ensures Value(e, 2) == 2 * Value(e, 1) ==> Value(e, n) == n * Value(e, 1)
  {
    match e {
      case Times(l, r) =>
        Positive(Value(l, 0), Value(r, 0));
        Positive(Value(l, 1), Value(r, 1));
        if Value(l, 0) == 0 {
          DoublesOrMore(l, n);
          TimesDoubles(l, r, n);
        } else {
          DoublesOrMore(r, n);
          TimesDoubles(r, l, n);
        }
      case Shifted(l, r) =>
        Positive(Value(l, 0), Pow2(Value(r, 0)));
        Positive(Value(l, 1), Pow2(Value(r, 1)));
        DoublesOrMore(l, n);
        ShiftDoublesSo(l, r, n);
      case _ =>
    }
  }

  lemma {:induction false} TimesDoubles(l: Expr, r: Expr, n: nat)
    requires Plain(l) && Plain(r) && Value(r, 1) > 0 && Doubles(l, n)
    ensures Doubles(Times(l, r), n) && Doubles(Times(r, l), n)
  {
    hide Value;
    FlatAt(r, n);
    TimesAt(l, r, n);
    TimesAt(r, l, n);
    ProductDoubles(n, Value(l, 1), Value(l, 2), Value(l, n), Value(r, 1), Value(r, 2), Value(r, n));
  }

  lemma {:induction false} ShiftDoublesSo(l: Expr, r: Expr, n: nat)
    requires Plain(l) && Plain(r) && Doubles(l, n)
    ensures Doubles(Shifted(l, r), n)
  {
    hide Value, Pow2;
    ShiftedAt(l, r, n);
    PowersAt(r, n);
    ProductDoubles(n, Value(l, 1), Value(l, 2), Value(l, n), Pow2(Value(r, 1)), Pow2(Value(r, 2)), Pow2(Value(r, n)));
  }

  lemma {:induction false} PowersAt(r: Expr, n: nat)
    requires Plain(r)
    ensures Pow2(Value(r, 1)) <= Pow2(Value(r, 2))
    ensures Pow2(Value(r, 1)) == Pow2(Value(r, 2)) && n >= 1 ==> Pow2(Value(r, n)) == Pow2(Value(r, 1))
  {
    hide Value, Pow2;
    FlatAt(r, n);
    PowersGrow(Value(r, 1), Value(r, 2));
  }

  lemma TimesAt(l: Expr, r: Expr, n: nat)
    requires Plain(l) && Plain(r)
    ensures Value(Times(l, r), 1) == Value(l, 1) * Value(r, 1) && Value(Times(l, r), 2) == Value(l, 2) * Value(r, 2)
    ensures Value(Times(l, r), n) == Value(l, n) * Value(r, n)
  {
  }

  lemma ShiftedAt(l: Expr, r: Expr, n: nat)
    requires Plain(l) && Plain(r)
    ensures Value(Shifted(l, r), 1) == Value(l, 1) * Pow2(Value(r, 1))
    ensures Value(Shifted(l, r), 2) == Value(l, 2) * Pow2(Value(r, 2))
    ensures Value(Shifted(l, r), n) == Value(l, n) * Pow2(Value(r, n))
  {
  }

  /** The product of a factor that at least doubles and one that does not shrink. */
  lemma {:induction false} ProductDoubles(n: nat, a1: nat, a2: nat, an: nat, b1: nat, b2: nat, bn: nat)
    requires a1 > 0 && b1 > 0 && a2 >= 2 * a1 && b2 >= b1
    requires a2 == 2 * a1 ==> an == n * a1
    requires b2 == b1 && n >= 1 ==> bn == b1
    ensures a2 * b2 == b2 * a2 >= 2 * (a1 * b1)
    ensures a2 * b2 == 2 * (a1 * b1) ==> an * bn == bn * an == n * (a1 * b1)
  {
    assert (2 * a1) * b1 == 2 * (a1 * b1);
    Products(2 * a1, b1, a2, b2);
    if a2 * b2 == 2 * (a1 * b1) {
      Regroup(n, a1, b1, an, bn);
    }
  }

  lemma {:induction false} FlatAt(e: Expr, n: nat)
    requires Plain(e)
    ensures Value(e, 1) <= Value(e, 2)
    ensures Value(e, 1) == Value(e, 2) && n >= 1 ==> Value(e, n) == Value(e, 1)
  {
    Grows(e);
    if Value(e, 1) == Value(e, 2) && n >= 1 {
      FlatStays(e, n);
    }
  }

  lemma {:induction false} Regroup(n: nat, a: nat, b: nat, c: nat, d: nat)
    requires c == n * a && (n >= 1 ==> d == b)
    ensures c * d == n * (a * b)
  {
    if n >= 1 {
      assert (n * a) * b == n * (a * b);
    }
  }

  /** The size is the count times s, for every count. */
  ghost predicate Linear(e: Expr, s: nat) {
    Plain(e) && forall n: nat :: Value(e, n) == n * s
  }

  /** Three samples decide linearity for all counts. */
  lemma {:induction false} ThreePointsSuffice(e: Expr, s: nat)
    requires Plain(e) && s > 0
    ensures Linear(e, s) <==> Value(e, 0) == 0 && Value(e, 1) == s && Value(e, 2) == 2 * s
  {
    if Value(e, 0) == 0 && Value(e, 1) == s && Value(e, 2) == 2 * s {
      forall n: nat ensures Value(e, n) == n * s {
        DoublesOrMore(e, n);
      }
    }
    if Linear(e, s) {
      assert Value(e, 0) == 0 * s && Value(e, 1) == 1 * s && Value(e, 2) == 2 * s;
    }
  }

  // ---------- The scan over the loaders ----------

  const MAX_STRIDE := 1024 * 1024

  /** A call in a loader's code; `size` is its third argument parsed, None on a syntax error. */
  datatype Call = Call(loader: string, args: seq<string>, size: Option<Expr>)

  const SUFFIX := "Array"

  predicate IsArrayLoader(name: string) {
    |name| >= 5 && name[|name| - 5..] == SUFFIX
  }

  predicate IsStreamCall(c: Call) {
    c.loader == "Load_Stream" && |c.args| == 3 && c.args[0] == "streamStart"
  }

  /** The first call that loads the stream decides. */
  ghost predicate Decides(calls: seq<Call>, i: nat) {
    i < |calls| && IsStreamCall(calls[i]) && forall j :: 0 <= j < i ==> !IsStreamCall(calls[j])
  }

  ghost predicate HasStride(calls: seq<Call>, s: nat) {
    0 < s <= 0x10_0000 && exists i: nat :: Decides(calls, i) && calls[i].size.Some? && Linear(calls[i].size.value, s)
  }

  /** The stride found by sampling counts 0, 1 and 2. */
  method StrideOf(e: Expr) returns (r: Option<nat>)
    ensures forall s: nat :: r == Some(s) <==> 0 < s <= 0x10_0000 && Linear(e, s)
  {
    r := None;
    var stride := Size(e, 1);
    if stride.Some? {
      var s := stride.value;
      forall t: nat | 0 < t
        ensures Plain(e) ==> (Linear(e, t) <==> Value(e, 0) == 0 && Value(e, 1) == t && Value(e, 2) == 2 * t) {
        if Plain(e) {
          ThreePointsSuffice(e, t);
        }
      }
      if 0 < s <= MAX_STRIDE && Size(e, 0) == Some(0) && Size(e, 2) == Some(2 * s) {
        r := Some(s);
      }
    }
  }

  method StrideOfLoader(calls: seq<Call>) returns (r: Option<nat>)
    ensures forall s: nat :: r == Some(s) <==> HasStride(calls, s)
  {
    r := None;
    for i := 0 to |calls|
      invariant r == None && forall j :: 0 <= j < i ==> !IsStreamCall(calls[j])
    {
      if IsStreamCall(calls[i]) {
        assert Decides(calls, i) && forall k: nat :: Decides(calls, k) ==> k == i;
        if calls[i].size.Some? {
          r := StrideOf(calls[i].size.value);
        }
        return;
      }
    }
  }

  /** What is recorded for the loader base + "Array". */
  ghost predicate Recorded(sources: map<string, seq<Call>>, result: map<string, nat>, base: string) {
    if base + SUFFIX in sources then forall s: nat ::
      (base in result && result[base] == s) <==> HasStride(sources[base + SUFFIX], s)
    else base !in result
  }

  lemma {:induction false} SuffixIsInjective(b: string, name: string)
    requires IsArrayLoader(name)
    ensures b + SUFFIX == name <==> b == name[..|name| - 5]
  {
    assert name == name[..|name| - 5] + SUFFIX;
    assert (b + SUFFIX)[..|b|] == b;
  }

  lemma {:induction false} HasNoSuffix(b: string, name: string)
    requires !IsArrayLoader(name)
    ensures b + SUFFIX != name
  {
    assert (b + SUFFIX)[|b + SUFFIX| - 5..] == SUFFIX;
  }

  /** The result lists exactly the array loaders whose first stream call has a size linear in
      the count, each with the factor. */
  method ArrayStrides(sources: map<string, seq<Call>>) returns (result: map<string, nat>)
    ensures forall base :: Recorded(sources, result, base)
  {
    hide HasStride;
    result := map[];
    var names := sources.Keys;
    while names != {}
      invariant names <= sources.Keys
      invariant forall base :: if base + SUFFIX in names then base !in result else Recorded(sources, result, base)
    {
      var name :| name in names;
      names := names - {name};
      ghost var before := result;
      if IsArrayLoader(name) {
        var r := StrideOfLoader(sources[name]);
        if r.Some? {
          result := result[name[..|name| - 5] := r.value];
        }
      }
      forall b: string
        ensures if b + SUFFIX in names then b !in result else Recorded(sources, result, b)
      {
        if IsArrayLoader(name) {
          SuffixIsInjective(b, name);
        } else {
          HasNoSuffix(b, name);
        }
        assert if b + SUFFIX in names + {name} then b !in before else Recorded(sources, before, b);
      }
    }
  }
}
