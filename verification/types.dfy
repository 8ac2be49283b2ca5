/** The type language of the Go solver (src/types/types.go): the sum type
    String | Int | Bool | Record | Func | Generic | TypeScheme, variant equality,
    deep copy, fresh generics and the textual form. Go's `map[string]Type` of a
    record is a sequence of named fields here; Go's map iteration order is
    unspecified, and the model walks the fields in sequence order. */
module Types {
  import opened Wrappers
  import Decimal

  /** A type variable; only `id` takes part in equality. */
  datatype GenericVar = GenericVar(id: int, name: string, comment: string)

  datatype Field = Field(name: string, typ: Type)

  datatype Type =
    | String
    | Int
    | Bool
    | Record(fields: seq<Field>)
    | Func(args: seq<Type>, ret: Type)
    | Generic(g: GenericVar)
    | Scheme(over: seq<GenericVar>, body: Type)
  {
    /** Only the three base types are simple. */
    predicate Simple() {
      String? || Int? || Bool?
    }
  }

  /** The type stored under `name` (the first field of that name). */
  function Lookup(fs: seq<Field>, name: string): (r: Option<Type>)
    ensures r.Some? <==> exists i :: 0 <= i < |fs| && fs[i].name == name
    ensures r.Some? ==> exists i :: 0 <= i < |fs| && fs[i].name == name && fs[i].typ == r.value
  {
    if |fs| == 0 then None
    else if fs[0].name == name then Some(fs[0].typ)
    else
      var r := Lookup(fs[1..], name);
      assert r.Some? ==> exists i :: 0 <= i < |fs[1..]| && fs[1..][i].name == name && fs[1..][i].typ == r.value;
      r
  }

  predicate DistinctNames(fs: seq<Field>) {
    forall i, j :: 0 <= i < j < |fs| ==> fs[i].name != fs[j].name
  }

  lemma LookupDistinct(fs: seq<Field>, i: nat)
    requires DistinctNames(fs) && i < |fs|
    ensures Lookup(fs, fs[i].name) == Some(fs[i].typ)
  {
    if i > 0 {
      assert fs[0].name != fs[i].name;
      LookupDistinct(fs[1..], i - 1);
    }
  }

  /** Every record in `t`, at any depth, has distinct field names (a Go map cannot hold two). */
  predicate WellFormed(t: Type) {
    match t
    case Record(fs) => DistinctNames(fs) && forall i :: 0 <= i < |fs| ==> WellFormed(fs[i].typ)
    case Func(args, ret) => (forall i :: 0 <= i < |args| ==> WellFormed(args[i])) && WellFormed(ret)
    case Scheme(_, body) => WellFormed(body)
    case _ => true
  }

  /** Every function type in `t` takes exactly one argument, the shape `Clone`
      and `Func.Eq` assert. */
  predicate SingleArgFuncs(t: Type) {
    match t
    case Record(fs) => forall i :: 0 <= i < |fs| ==> SingleArgFuncs(fs[i].typ)
    case Func(args, ret) => |args| == 1 && SingleArgFuncs(args[0]) && SingleArgFuncs(ret)
    case Scheme(_, body) => SingleArgFuncs(body)
    case _ => true
  }

  /** Every function type in `t` takes at least one argument, as `Func.String` asserts. */
  predicate HasArgs(t: Type) {
    match t
    case Record(fs) => forall i :: 0 <= i < |fs| ==> HasArgs(fs[i].typ)
    case Func(args, ret) => |args| >= 1 && (forall i :: 0 <= i < |args| ==> HasArgs(args[i])) && HasArgs(ret)
    case Scheme(_, body) => HasArgs(body)
    case _ => true
  }

  /** No type scheme occurs in `t`. */
  predicate SchemeFree(t: Type) {
    match t
    case Record(fs) => forall i :: 0 <= i < |fs| ==> SchemeFree(fs[i].typ)
    case Func(args, ret) => (forall i :: 0 <= i < |args| ==> SchemeFree(args[i])) && SchemeFree(ret)
    case Scheme(_, _) => false
    case _ => true
  }

  /** When `a.Eq(b)` runs without a panic: `TypeScheme.Eq` is a todo panic, a left-hand
      `Func` must be unary and the right-hand `Func` it meets must have an argument. This
      asks for more than Go does: Go's `&&` skips the result types once the arguments
      differ, and a record stops at its first unequal field, so a panic in the part not
      compared never happens there. Types whose functions are all unary, which are all
      the solver builds, meet it either way. */
  predicate EqDefined(a: Type, b: Type) {
    match a
    case Scheme(_, _) => false
    case Func(args, ret) =>
      && |args| == 1
      && (b.Func? ==> |b.args| >= 1 && EqDefined(args[0], b.args[0]) && EqDefined(ret, b.ret))
    case Record(fa) =>
      b.Record? && |fa| == |b.fields| ==>
        forall i :: 0 <= i < |fa| && Lookup(b.fields, fa[i].name).Some? ==>
          EqDefined(fa[i].typ, Lookup(b.fields, fa[i].name).value)
    case _ => true
  }

  /** Go's `a.Eq(b)`: variant equality, by `ID` alone for generics, by the first
      argument and the result for functions, field by field for records. */
  function Eq(a: Type, b: Type): (r: bool)
    requires EqDefined(a, b)
    ensures a.String? ==> (r <==> b.String?)
    ensures a.Int? ==> (r <==> b.Int?)
    ensures a.Bool? ==> (r <==> b.Bool?)
    ensures a.Generic? ==> (r <==> b.Generic? && b.g.id == a.g.id)
    ensures r ==> a.Simple() == b.Simple() && a.Generic? == b.Generic? && a.Func? == b.Func? && a.Record? == b.Record?
  {
    match a
    case String => b.String?
    case Int => b.Int?
    case Bool => b.Bool?
    case Record(fa) =>
      && b.Record?
      && |fa| == |b.fields|
      && forall i :: 0 <= i < |fa| ==>
           && Lookup(b.fields, fa[i].name).Some?
           && Eq(fa[i].typ, Lookup(b.fields, fa[i].name).value)
    case Func(args, ret) => b.Func? && Eq(args[0], b.args[0]) && Eq(ret, b.ret)
    case Generic(g) => b.Generic? && b.g.id == g.id
  }

  lemma {:induction false} EqDefinedSelf(t: Type)
    requires SingleArgFuncs(t) && SchemeFree(t) && WellFormed(t)
    ensures EqDefined(t, t)
  {
    match t
    case Record(fs) =>
      forall i | 0 <= i < |fs| && Lookup(fs, fs[i].name).Some?
        ensures EqDefined(fs[i].typ, Lookup(fs, fs[i].name).value)
      {
        LookupDistinct(fs, i);
        EqDefinedSelf(fs[i].typ);
      }
    case Func(args, ret) =>
      EqDefinedSelf(args[0]);
      EqDefinedSelf(ret);
    case _ =>
  }

  /** `Eq` is reflexive on every type it can compare with itself. */
  lemma {:induction false} EqReflexive(t: Type)
    requires SingleArgFuncs(t) && SchemeFree(t) && WellFormed(t)
    ensures EqDefined(t, t) && Eq(t, t)
  {
    EqDefinedSelf(t);
    match t
    case Record(fs) =>
      forall i | 0 <= i < |fs|
        ensures Lookup(fs, fs[i].name).Some? && Eq(fs[i].typ, Lookup(fs, fs[i].name).value)
      {
        LookupDistinct(fs, i);
        EqReflexive(fs[i].typ);
      }
    case Func(args, ret) =>
      EqReflexive(args[0]);
      EqReflexive(ret);
    case _ =>
  }

  /** `Func.Eq` reads only `Args[0]` of the other function: extra arguments go unnoticed. */
  lemma FuncEqIgnoresExtraArgs(a: Type, x: Type, r: Type)
    requires SingleArgFuncs(a) && SchemeFree(a) && WellFormed(a)
    requires SingleArgFuncs(r) && SchemeFree(r) && WellFormed(r)
    ensures EqDefined(Func([a], r), Func([a, x], r))
    ensures Eq(Func([a], r), Func([a, x], r))
  {
    EqReflexive(a);
    EqReflexive(r);
  }

  /** Go's `Clone`: a deep copy, equal to its input with the same generic IDs;
      it asserts that every function is unary. */
  function Clone(t: Type): (r: Type)
    requires SingleArgFuncs(t)
    ensures r == t
    decreases t
  {
    match t
    case String => String
    case Int => Int
    case Bool => Bool
    case Func(args, ret) => Func([Clone(args[0])], Clone(ret))
    case Generic(g) => Generic(GenericVar(g.id, g.name, g.comment))
    case Scheme(over, body) => Scheme(over[..], Clone(body))
    case Record(fs) => Record(CloneFields(fs))
  }

  function CloneFields(fs: seq<Field>): (r: seq<Field>)
    requires forall i :: 0 <= i < |fs| ==> SingleArgFuncs(fs[i].typ)
    ensures r == fs
    decreases fs
  {
    if |fs| == 0 then [] else [Field(fs[0].name, Clone(fs[0].typ))] + CloneFields(fs[1..])
  }

  /** A clone compares `Eq` to its original in both directions. */
  lemma CloneIsEq(t: Type)
    requires SingleArgFuncs(t) && SchemeFree(t) && WellFormed(t)
    ensures EqDefined(t, Clone(t)) && Eq(t, Clone(t))
    ensures EqDefined(Clone(t), t) && Eq(Clone(t), t)
  {
    EqReflexive(t);
  }

  /** Go's `NewGeneric`, with the process-wide counter passed in and handed back:
      the counter is bumped first and the new generic takes the bumped value. */
  function NewGeneric(counter: int, name: string, comment: string): (r: (GenericVar, int))
    ensures r.0.id > counter && r.1 == r.0.id
    ensures r.0.name == name && r.0.comment == comment
  {
    var next := counter + 1;
    (GenericVar(next, name, comment), next)
  }

  /** A fresh generic differs from every generic issued before it (all of which are at most
      the counter), and the next call issues a strictly larger ID. */
  lemma NewGenericFresh(counter: int, issued: set<int>, n1: string, c1: string, n2: string, c2: string)
    requires forall id :: id in issued ==> id <= counter
    ensures NewGeneric(counter, n1, c1).0.id !in issued
    ensures NewGeneric(NewGeneric(counter, n1, c1).1, n2, c2).0.id > NewGeneric(counter, n1, c1).0.id
  {
  }

  /** Go's `Generic.String`: `t<ID>` when unnamed, `<Name>#<ID>` otherwise. */
  function GenericString(g: GenericVar): (s: string)
    ensures g.name == "" ==> s == "t" + Decimal.IntToString(g.id)
    ensures g.name != "" ==> s == g.name + "#" + Decimal.IntToString(g.id)
  {
    if g.name == "" then "t" + Decimal.IntToString(g.id) else g.name + "#" + Decimal.IntToString(g.id)
  }

  /** Unnamed generics print the same exactly when their IDs agree. */
  lemma UnnamedGenericStringInjective(g1: GenericVar, g2: GenericVar)
    requires g1.name == "" && g2.name == ""
    ensures GenericString(g1) == GenericString(g2) <==> g1.id == g2.id
  {
    if GenericString(g1) == GenericString(g2) {
      assert GenericString(g1)[1..] == Decimal.IntToString(g1.id);
      assert GenericString(g2)[1..] == Decimal.IntToString(g2.id);
      Decimal.IntToStringInjective(g1.id, g2.id);
    }
  }

  /** Go's `Type.String()` for every variant. `Func.String` asserts at least one argument;
      the Go record form walks the field map in an unspecified order. */
  function TypeString(t: Type): (s: string)
    requires HasArgs(t)
    ensures t.Simple() ==> s == (match t case String => "String" case Int => "Int" case _ => "Bool")
    ensures t.Record? && |t.fields| == 0 ==> s == "{}"
    ensures t.Record? && |t.fields| > 0 ==> |s| >= 2 && s[0] == '{' && s[|s| - 1] == '}'
    ensures t.Func? ==> |s| >= 2 && s[0] == '(' && s[|s| - 1] == ')'
    ensures t.Generic? ==> s == GenericString(t.g)
    decreases t
  {
    match t
    case String => "String"
    case Int => "Int"
    case Bool => "Bool"
    case Record(fs) => if |fs| == 0 then "{}" else "{" + FieldsString(fs) + "}"
    case Func(args, ret) => "(" + TypeString(args[0]) + RestArgsString(args[1..], t) + " -> " + TypeString(ret) + ")"
    case Generic(g) => GenericString(g)
    case Scheme(over, body) => "∀" + OverString(over) + TypeString(body)
  }

  /** " , <arg>" for every argument after the first. */
  function RestArgsString(args: seq<Type>, ghost parent: Type): string
    requires forall i :: 0 <= i < |args| ==> HasArgs(args[i]) && args[i] < parent
    decreases parent, |args|
  {
    if |args| == 0 then "" else " , " + TypeString(args[0]) + RestArgsString(args[1..], parent)
  }

  function FieldsString(fs: seq<Field>): string
    requires forall i :: 0 <= i < |fs| ==> HasArgs(fs[i].typ)
    decreases fs
  {
    if |fs| == 0 then "" else fs[0].name + ": " + TypeString(fs[0].typ) + ", " + FieldsString(fs[1..])
  }

  function OverString(over: seq<GenericVar>): string {
    if |over| == 0 then "" else GenericString(over[0]) + ". " + OverString(over[1..])
  }
}
