/** Go's `PrettyCtx` (src/types/types.go): printing a type with its generics renamed
    `t1`, `t2`, … in the order the printer first meets them. The context is threaded
    explicitly; the model proves that names are never reused, that names once handed
    out are kept, that ground types print as `Type.String`, and that structurally
    equal types print identically. */
module PrettyNames {
  import opened Types
  import Decimal
  import StructuralEquality

  datatype PrettyCtx = PrettyCtx(mapping: map<int, string>, counter: int)

  /** A zero-value context, as Go's `PrettyCtx{}`. */
  const Fresh: PrettyCtx := PrettyCtx(map[], 0)

  /** The `k`-th pretty name. */
  function Name(k: int): string {
    "t" + Decimal.IntToString(k)
  }

  /** Every name handed out is `t1` … `t<counter>`, and no two IDs share a name. */
  ghost predicate Inv(ctx: PrettyCtx) {
    && ctx.counter >= 0
    && (forall id :: id in ctx.mapping ==> exists k :: 1 <= k <= ctx.counter && ctx.mapping[id] == Name(k))
    && (forall i, j :: i in ctx.mapping && j in ctx.mapping && i != j ==> ctx.mapping[i] != ctx.mapping[j])
  }

  /** `next` keeps every name of `ctx`. */
  ghost predicate Extends(ctx: PrettyCtx, next: PrettyCtx) {
    && ctx.counter <= next.counter
    && forall id :: id in ctx.mapping ==> id in next.mapping && next.mapping[id] == ctx.mapping[id]
  }

  lemma NameInjective(j: int, k: int)
    requires Name(j) == Name(k)
    ensures j == k
  {
    assert Name(j)[1..] == Decimal.IntToString(j);
    assert Name(k)[1..] == Decimal.IntToString(k);
    Decimal.IntToStringInjective(j, k);
  }

  lemma NameDistinct(j: int, k: int)
    requires j != k
    ensures Name(j) != Name(k)
  {
    if Name(j) == Name(k) {
      NameInjective(j, k);
    }
  }

  /** Go's `get` / the `Generic` case of `String`: the name already given to `id`, or the
      next name, recorded for later. */
  function Get(ctx: PrettyCtx, id: int): (r: (string, PrettyCtx))
    ensures id in r.1.mapping && r.1.mapping[id] == r.0
    ensures id in ctx.mapping ==> r == (ctx.mapping[id], ctx)
    ensures Extends(ctx, r.1)
    ensures r.1.mapping.Keys == ctx.mapping.Keys + {id}
  {
    if id in ctx.mapping then (ctx.mapping[id], ctx)
    else
      var c := ctx.counter + 1;
      var name := Name(c);
      (name, PrettyCtx(ctx.mapping[id := name], c))
  }

  /** The next name differs from every name already handed out. */
  lemma NextNameUnused(ctx: PrettyCtx, other: int)
    requires Inv(ctx) && other in ctx.mapping
    ensures ctx.mapping[other] != Name(ctx.counter + 1)
  {
    var k := NameIndex(ctx, other);
    NameDistinct(k, ctx.counter + 1);
  }

  lemma NameIndex(ctx: PrettyCtx, id: int) returns (k: int)
    requires Inv(ctx) && id in ctx.mapping
    ensures 1 <= k <= ctx.counter && ctx.mapping[id] == Name(k)
  {
    k :| 1 <= k <= ctx.counter && ctx.mapping[id] == Name(k);
  }

  lemma GetInv(ctx: PrettyCtx, id: int)
    requires Inv(ctx)
    ensures Inv(Get(ctx, id).1)
  {
    if id !in ctx.mapping {
      var n := Get(ctx, id).1;
      forall i, j | i in n.mapping && j in n.mapping && i != j
        ensures n.mapping[i] != n.mapping[j]
      {
        if i == id {
          NextNameUnused(ctx, j);
        } else if j == id {
          NextNameUnused(ctx, i);
        }
      }
      forall i | i in n.mapping ensures exists k :: 1 <= k <= n.counter && n.mapping[i] == Name(k) {
        if i == id {
          assert n.mapping[i] == Name(n.counter);
        } else {
          var k :| 1 <= k <= ctx.counter && ctx.mapping[i] == Name(k);
          assert n.mapping[i] == Name(k);
        }
      }
    }
  }

  /** Go's `(*PrettyCtx).String`. `Func` asserts a single argument; a record's fields
      are walked in sequence order. */
  function Pretty(ctx: PrettyCtx, t: Type): (r: (string, PrettyCtx))
    requires SingleArgFuncs(t)
    ensures Extends(ctx, r.1)
    decreases t
  {
    match t
    case String => ("String", ctx)
    case Int => ("Int", ctx)
    case Bool => ("Bool", ctx)
    case Func(args, ret) =>
      var a := Pretty(ctx, args[0]);
      var b := Pretty(a.1, ret);
      ("(" + a.0 + " -> " + b.0 + ")", b.1)
    case Generic(g) => Get(ctx, g.id)
    case Scheme(over, body) =>
      var o := PrettyOver(ctx, over);
      var b := Pretty(o.1, body);
      ("∀" + o.0 + b.0, b.1)
    case Record(fs) =>
      var f := PrettyFields(ctx, fs);
      ("{" + f.0 + "}", f.1)
  }

  function PrettyOver(ctx: PrettyCtx, over: seq<GenericVar>): (r: (string, PrettyCtx))
    ensures Extends(ctx, r.1)
    ensures forall i :: 0 <= i < |over| ==> over[i].id in r.1.mapping
    decreases |over|
  {
    if |over| == 0 then ("", ctx)
    else
      var g := Get(ctx, over[0].id);
      var rest := PrettyOver(g.1, over[1..]);
      assert forall i :: 1 <= i < |over| ==> over[i] == over[1..][i - 1];
      (g.0 + ". " + rest.0, rest.1)
  }

  function PrettyFields(ctx: PrettyCtx, fs: seq<Field>): (r: (string, PrettyCtx))
    requires forall i :: 0 <= i < |fs| ==> SingleArgFuncs(fs[i].typ)
    ensures Extends(ctx, r.1)
    decreases fs
  {
    if |fs| == 0 then ("", ctx)
    else
      var f := Pretty(ctx, fs[0].typ);
      var rest := PrettyFields(f.1, fs[1..]);
      (fs[0].name + ": " + f.0 + ", " + rest.0, rest.1)
  }

  // ---------------------------------------------------------------------------
  // Names stay distinct.

  lemma {:induction false} PrettyInv(ctx: PrettyCtx, t: Type)
    requires Inv(ctx) && SingleArgFuncs(t)
    ensures Inv(Pretty(ctx, t).1)
    decreases t
  {
    match t
    case Func(args, ret) =>
      PrettyInv(ctx, args[0]);
      PrettyInv(Pretty(ctx, args[0]).1, ret);
    case Generic(g) => GetInv(ctx, g.id);
    case Scheme(over, body) =>
      PrettyOverInv(ctx, over);
      PrettyInv(PrettyOver(ctx, over).1, body);
    case Record(fs) => PrettyFieldsInv(ctx, fs);
    case _ =>
  }

  lemma {:induction false} PrettyOverInv(ctx: PrettyCtx, over: seq<GenericVar>)
    requires Inv(ctx)
    ensures Inv(PrettyOver(ctx, over).1)
    decreases |over|
  {
    if |over| > 0 {
      GetInv(ctx, over[0].id);
      PrettyOverInv(Get(ctx, over[0].id).1, over[1..]);
    }
  }

  lemma {:induction false} PrettyFieldsInv(ctx: PrettyCtx, fs: seq<Field>)
    requires Inv(ctx)
    requires forall i :: 0 <= i < |fs| ==> SingleArgFuncs(fs[i].typ)
    ensures Inv(PrettyFields(ctx, fs).1)
    decreases fs
  {
    if |fs| > 0 {
      PrettyInv(ctx, fs[0].typ);
      PrettyFieldsInv(Pretty(ctx, fs[0].typ).1, fs[1..]);
    }
  }

  /** Printing from a fresh context never gives two different generics the same name. */
  lemma DistinctGenericsDistinctNames(t: Type, i: int, j: int)
    requires SingleArgFuncs(t)
    requires i in Pretty(Fresh, t).1.mapping && j in Pretty(Fresh, t).1.mapping && i != j
    ensures Pretty(Fresh, t).1.mapping[i] != Pretty(Fresh, t).1.mapping[j]
  {
    PrettyInv(Fresh, t);
  }

  // ---------------------------------------------------------------------------
  // Names follow first-seen order.

  /** The generic IDs of `t` in the order the printer meets them. */
  function GenericIds(t: Type): seq<int>
    decreases t
  {
    match t
    case Func(args, ret) => (if |args| == 0 then [] else GenericIds(args[0])) + GenericIds(ret)
    case Generic(g) => [g.id]
    case Scheme(over, body) => OverIds(over) + GenericIds(body)
    case Record(fs) => FieldsIds(fs)
    case _ => []
  }

  function OverIds(over: seq<GenericVar>): seq<int> {
    if |over| == 0 then [] else [over[0].id] + OverIds(over[1..])
  }

  function FieldsIds(fs: seq<Field>): seq<int>
    decreases fs
  {
    if |fs| == 0 then [] else GenericIds(fs[0].typ) + FieldsIds(fs[1..])
  }

  /** `order` extended with the IDs of `ids` not met before, in first-seen order. */
  function AddAll(order: seq<int>, ids: seq<int>): (r: seq<int>)
    decreases |ids|
  {
    if |ids| == 0 then order
    else AddAll(if ids[0] in order then order else order + [ids[0]], ids[1..])
  }

  /** The context in which the IDs of `order` are named `t1`, `t2`, … in that order. */
  function Canon(order: seq<int>): PrettyCtx
    decreases |order|
  {
    if |order| == 0 then Fresh
    else
      var prev := Canon(order[..|order| - 1]);
      PrettyCtx(prev.mapping[order[|order| - 1] := Name(|order|)], |order|)
  }

  predicate Distinct(order: seq<int>) {
    forall i, j :: 0 <= i < j < |order| ==> order[i] != order[j]
  }

  lemma {:induction false} CanonKeys(order: seq<int>)
    ensures Canon(order).counter == |order|
    ensures forall id :: id in Canon(order).mapping <==> id in order
    decreases |order|
  {
    if |order| > 0 {
      var init, last := order[..|order| - 1], order[|order| - 1];
      CanonKeys(init);
      assert Canon(order).mapping == Canon(init).mapping[last := Name(|order|)];
      InitLast(order);
    }
  }

  /** Membership in a non-empty sequence splits into its front and its last element. */
  lemma InitLast(order: seq<int>)
    requires |order| > 0
    ensures forall id :: id in order <==> id in order[..|order| - 1] || id == order[|order| - 1]
  {
    assert order == order[..|order| - 1] + [order[|order| - 1]];
  }

  /** In `Canon(order)` the `k`-th ID of a duplicate-free `order` is named `t<k+1>`. */
  lemma {:induction false} CanonNames(order: seq<int>, k: nat)
    requires Distinct(order) && k < |order|
    ensures order[k] in Canon(order).mapping && Canon(order).mapping[order[k]] == Name(k + 1)
    decreases |order|
  {
    var init := order[..|order| - 1];
    CanonKeys(init);
    if k < |order| - 1 {
      CanonNames(init, k);
    }
  }

  lemma GetCanon(order: seq<int>, id: int)
    ensures Get(Canon(order), id).1 == Canon(if id in order then order else order + [id])
  {
    CanonKeys(order);
    if id !in order {
      assert (order + [id])[..|order|] == order;
    }
  }

  lemma {:induction false} AddAllAppend(order: seq<int>, p: seq<int>, q: seq<int>)
    ensures AddAll(order, p + q) == AddAll(AddAll(order, p), q)
    decreases |p|
  {
    if |p| == 0 {
      assert p + q == q;
    } else {
      assert (p + q)[0] == p[0] && (p + q)[1..] == p[1..] + q;
      AddAllAppend(if p[0] in order then order else order + [p[0]], p[1..], q);
    }
  }

  lemma {:induction false} AddAllDistinct(order: seq<int>, ids: seq<int>)
    requires Distinct(order)
    ensures Distinct(AddAll(order, ids))
    decreases |ids|
  {
    if |ids| > 0 {
      AddAllDistinct(if ids[0] in order then order else order + [ids[0]], ids[1..]);
    }
  }

  /** Printing from a first-seen context continues the first-seen naming over the IDs of `t`. */
  lemma {:induction false} PrettyCanon(order: seq<int>, t: Type)
    requires SingleArgFuncs(t)
    ensures Pretty(Canon(order), t).1 == Canon(AddAll(order, GenericIds(t)))
    decreases t
  {
    match t
    case Func(args, ret) =>
      PrettyCanon(order, args[0]);
      var o1 := AddAll(order, GenericIds(args[0]));
      PrettyCanon(o1, ret);
      AddAllAppend(order, GenericIds(args[0]), GenericIds(ret));
    case Generic(g) =>
      GetCanon(order, g.id);
      assert [g.id][1..] == [];
    case Scheme(over, body) =>
      PrettyOverCanon(order, over);
      PrettyCanon(AddAll(order, OverIds(over)), body);
      AddAllAppend(order, OverIds(over), GenericIds(body));
    case Record(fs) =>
      PrettyFieldsCanon(order, fs);
    case _ =>
  }

  lemma {:induction false} PrettyOverCanon(order: seq<int>, over: seq<GenericVar>)
    ensures PrettyOver(Canon(order), over).1 == Canon(AddAll(order, OverIds(over)))
    decreases |over|
  {
    if |over| > 0 {
      var id := over[0].id;
      GetCanon(order, id);
      var o1 := if id in order then order else order + [id];
      PrettyOverCanon(o1, over[1..]);
      assert ([id] + OverIds(over[1..]))[0] == id;
      assert ([id] + OverIds(over[1..]))[1..] == OverIds(over[1..]);
    }
  }

  lemma {:induction false} PrettyFieldsCanon(order: seq<int>, fs: seq<Field>)
    requires forall i :: 0 <= i < |fs| ==> SingleArgFuncs(fs[i].typ)
    ensures PrettyFields(Canon(order), fs).1 == Canon(AddAll(order, FieldsIds(fs)))
    decreases fs
  {
    if |fs| > 0 {
      PrettyCanon(order, fs[0].typ);
      PrettyFieldsCanon(AddAll(order, GenericIds(fs[0].typ)), fs[1..]);
      AddAllAppend(order, GenericIds(fs[0].typ), FieldsIds(fs[1..]));
    }
  }

  /** From a fresh context, the `k`-th distinct generic ID met while printing `t` is
      named `t<k+1>`, and only the IDs met are named. */
  lemma FirstSeenNaming(t: Type, k: nat)
    requires SingleArgFuncs(t)
    requires k < |AddAll([], GenericIds(t))|
    ensures var order := AddAll([], GenericIds(t));
      order[k] in Pretty(Fresh, t).1.mapping && Pretty(Fresh, t).1.mapping[order[k]] == Name(k + 1)
  {
    var order := AddAll([], GenericIds(t));
    assert Canon([]) == Fresh;
    PrettyCanon([], t);
    AddAllDistinct([], GenericIds(t));
    CanonNames(order, k);
  }

  // ---------------------------------------------------------------------------
  // Ground types print as `Type.String`.

  /** No generic and no scheme occurs in `t`. */
  predicate Ground(t: Type) {
    match t
    case Record(fs) => forall i :: 0 <= i < |fs| ==> Ground(fs[i].typ)
    case Func(args, ret) => (forall i :: 0 <= i < |args| ==> Ground(args[i])) && Ground(ret)
    case Generic(_) => false
    case Scheme(_, _) => false
    case _ => true
  }

  lemma {:induction false} SingleArgHasArgs(t: Type)
    requires SingleArgFuncs(t)
    ensures HasArgs(t)
    decreases t
  {
    match t
    case Func(args, ret) =>
      SingleArgHasArgs(args[0]);
      SingleArgHasArgs(ret);
    case Record(fs) =>
      forall i | 0 <= i < |fs| ensures HasArgs(fs[i].typ) {
        SingleArgHasArgs(fs[i].typ);
      }
    case Scheme(_, body) => SingleArgHasArgs(body);
    case _ =>
  }

  /** A type without generics prints the same through a context as through `Type.String`,
      and leaves the context untouched. */
  lemma {:induction false} PrettyGround(ctx: PrettyCtx, t: Type)
    requires SingleArgFuncs(t) && Ground(t)
    ensures HasArgs(t)
    ensures Pretty(ctx, t) == (TypeString(t), ctx)
    decreases t
  {
    SingleArgHasArgs(t);
    match t
    case Func(args, ret) =>
      PrettyGround(ctx, args[0]);
      PrettyGround(ctx, ret);
      assert args[1..] == [];
      assert RestArgsString(args[1..], t) == "";
      var sa, sr := TypeString(args[0]), TypeString(ret);
      assert TypeString(t) == "(" + sa + "" + " -> " + sr + ")";
      assert "(" + sa + "" == "(" + sa;
    case Record(fs) =>
      PrettyFieldsGround(ctx, fs);
      if |fs| == 0 {
        assert FieldsString(fs) == "";
        assert "{" + "" + "}" == "{}";
      }
    case _ =>
  }

  lemma {:induction false} PrettyFieldsGround(ctx: PrettyCtx, fs: seq<Field>)
    requires forall i :: 0 <= i < |fs| ==> SingleArgFuncs(fs[i].typ) && Ground(fs[i].typ)
    ensures forall i :: 0 <= i < |fs| ==> HasArgs(fs[i].typ)
    ensures PrettyFields(ctx, fs) == (FieldsString(fs), ctx)
    decreases fs
  {
    forall i | 0 <= i < |fs| ensures HasArgs(fs[i].typ) {
      SingleArgHasArgs(fs[i].typ);
    }
    if |fs| > 0 {
      PrettyGround(ctx, fs[0].typ);
      PrettyFieldsGround(ctx, fs[1..]);
    }
  }

  // ---------------------------------------------------------------------------
  // Structurally equal types print identically.

  /** No record occurs in `t`: Go walks a record's map in an unspecified order, so two
      equal records need not print alike. */
  predicate RecordFree(t: Type) {
    match t
    case Record(_) => false
    case Func(args, ret) => (forall i :: 0 <= i < |args| ==> RecordFree(args[i])) && RecordFree(ret)
    case Scheme(_, body) => RecordFree(body)
    case _ => true
  }

  /** The renaming maps are mutually inverse. */
  ghost predicate Consistent(m: StructuralEquality.Ctx) {
    && (forall x :: x in m.aToB ==> m.aToB[x] in m.bToA && m.bToA[m.aToB[x]] == x)
    && (forall y :: y in m.bToA ==> m.bToA[y] in m.aToB && m.aToB[m.bToA[y]] == y)
  }

  /** The two printing contexts agree along the renaming `m`. */
  ghost predicate Related(ca: PrettyCtx, cb: PrettyCtx, m: StructuralEquality.Ctx) {
    && Consistent(m)
    && ca.counter == cb.counter
    && (forall x :: x in ca.mapping <==> x in m.aToB)
    && (forall y :: y in cb.mapping <==> y in m.bToA)
    && (forall x :: x in m.aToB ==> ca.mapping[x] == cb.mapping[m.aToB[x]])
  }

  lemma GetRelated(ca: PrettyCtx, cb: PrettyCtx, m: StructuralEquality.Ctx, x: int, y: int)
    requires Related(ca, cb, m)
    requires StructuralEquality.StepPair(m, x, y).0
    ensures Get(ca, x).0 == Get(cb, y).0
    ensures Related(Get(ca, x).1, Get(cb, y).1, StructuralEquality.StepPair(m, x, y).1)
  {
    if x !in m.aToB {
      var m2 := StructuralEquality.StepPair(m, x, y).1;
      assert m2 == StructuralEquality.Ctx(m.aToB[x := y], m.bToA[y := x]);
      assert Consistent(m2);
    }
  }

  lemma {:induction false} PrettyRelated(ca: PrettyCtx, cb: PrettyCtx, m: StructuralEquality.Ctx, a: Type, b: Type)
    requires Related(ca, cb, m)
    requires SchemeFree(a) && RecordFree(a) && SingleArgFuncs(a) && SingleArgFuncs(b)
    requires StructuralEquality.SEq(m, a, b).0
    ensures Pretty(ca, a).0 == Pretty(cb, b).0
    ensures Related(Pretty(ca, a).1, Pretty(cb, b).1, StructuralEquality.SEq(m, a, b).1)
    decreases a
  {
    match a
    case Func(args, ret) =>
      var r1 := StructuralEquality.SEq(m, args[0], b.args[0]);
      assert args[1..] == [] && b.args[1..] == [];
      assert StructuralEquality.SEqArgs(m, args, b.args) == r1;
      PrettyRelated(ca, cb, m, args[0], b.args[0]);
      PrettyRelated(Pretty(ca, args[0]).1, Pretty(cb, b.args[0]).1, r1.1, ret, b.ret);
    case Generic(g) =>
      GetRelated(ca, cb, m, g.id, b.g.id);
    case _ =>
  }

  /** Types equal up to a consistent renaming of generics print the same from fresh
      contexts: the printed names depend only on the order generics are first met. */
  lemma PrettyRespectsStructuralEq(a: Type, b: Type)
    requires SchemeFree(a) && RecordFree(a) && SingleArgFuncs(a) && SingleArgFuncs(b)
    requires StructuralEquality.StructuralEq(a, b)
    ensures Pretty(Fresh, a).0 == Pretty(Fresh, b).0
  {
    PrettyRelated(Fresh, Fresh, StructuralEquality.EmptyCtx, a, b);
  }

  /** `(t1 -> (t2 -> t1))`: the first generic met is `t1`, the second `t2`, whatever their IDs. */
  lemma PrettyExample(x: GenericVar, y: GenericVar)
    requires x.id != y.id
    ensures Pretty(Fresh, Func([Generic(x)], Func([Generic(y)], Generic(x)))).0 == "(t1 -> (t2 -> t1))"
  {
    var c1 := PrettyCtx(map[x.id := "t1"], 1);
    var c2 := PrettyCtx(map[x.id := "t1", y.id := "t2"], 2);
    ExampleGenerics(x, y, c1, c2);
    var inner := Func([Generic(y)], Generic(x));
    ExampleInner(x, y, c1, c2, inner);
    assert SingleArgFuncs(Generic(x)) && SingleArgFuncs(inner);
    assert "(" + "t1" + " -> " + "(t2 -> t1)" + ")" == "(t1 -> (t2 -> t1))";
  }

  lemma ExampleGenerics(x: GenericVar, y: GenericVar, c1: PrettyCtx, c2: PrettyCtx)
    requires x.id != y.id
    requires c1 == PrettyCtx(map[x.id := "t1"], 1)
    requires c2 == PrettyCtx(map[x.id := "t1", y.id := "t2"], 2)
    ensures Pretty(Fresh, Generic(x)) == ("t1", c1)
    ensures Pretty(c1, Generic(y)) == ("t2", c2)
    ensures Pretty(c2, Generic(x)) == ("t1", c2)
  {
    NamesOneTwo();
    assert Get(Fresh, x.id) == ("t1", c1);
    assert Get(c1, y.id) == ("t2", c2);
    assert Get(c2, x.id) == ("t1", c2);
  }

  lemma NamesOneTwo()
    ensures Name(1) == "t1" && Name(2) == "t2"
  {
    assert Decimal.DigitChar(1) == '1' && Decimal.DigitChar(2) == '2';
  }

  lemma ExampleInner(x: GenericVar, y: GenericVar, c1: PrettyCtx, c2: PrettyCtx, inner: Type)
    requires inner == Func([Generic(y)], Generic(x))
    requires Pretty(c1, Generic(y)) == ("t2", c2)
    requires Pretty(c2, Generic(x)) == ("t1", c2)
    ensures SingleArgFuncs(inner) && Pretty(c1, inner) == ("(t2 -> t1)", c2)
  {
    assert inner.args[0] == Generic(y);
    assert "(" + "t2" + " -> " + "t1" + ")" == "(t2 -> t1)";
  }
}
