/** Constraint generation, let-generalisation and instantiation of the solver
    (src/solve/constraints.go, src/solve/generalize.go). The Go code mutates a type table,
    a constraint list and the process-wide generic counter; here the three travel in a
    `State` that every step takes and returns, also when it fails. */
module SolveConstraints {
  import opened Wrappers
  import opened Types
  import opened Unification
  import opened SolveScope
  import SolveBuiltins
  import Ast = GoAst

  datatype State = State(scopes: ScopeStack, cons: seq<Constraint>, counter: int)

  /** A node's type and the generics created while inferring it. */
  datatype Typed = Typed(typ: Type, generics: seq<GenericVar>)

  datatype SolveError =
    | UndefinedVar(name: string)    // ErrUndefinedVar, wrapped with the name
    | CloneFailed                   // the assertion in `Clone` that functions are unary fails
    | UnifyFailed(e: UnifyError)

  datatype Outcome = Outcome(st: State, result: Result<Typed, SolveError>)

  /** What `generalize` returns: the type scheme and the copy of its constraints. */
  datatype Generalized = Generalized(st: State, result: Result<(Type, seq<Constraint>), SolveError>)

  /** The trees `genConstraints` accepts: literals, symbols, `if`, two-child forms,
      one-argument one-body `def`, `fn`, and one-assignment `let`. Every other node panics
      as unhandled, and the single-argument shapes are assertions in the Go code. */
  predicate Inferable(e: Ast.Expr)
    decreases e
  {
    match e
    case IntLiteral(_) => true
    case BoolLiteral(_) => true
    case StrLiteral(_) => true
    case Symbol(_) => true
    case IfExpr(c, a, b) => Inferable(c) && Inferable(a) && Inferable(b)
    case Form(ch) => |ch| == 2 && Inferable(ch[0]) && Inferable(ch[1])
    case FuncDef(_, args, bodies) => |args| == 1 && |bodies| == 1 && Inferable(bodies[0])
    case Fn(_, body) => Inferable(body)
    case LetExpr(asg, body) => |asg| == 1 && Inferable(asg[0].value) && Inferable(body)
    case _ => false
  }

  /** How many `def` nodes the tree holds: each leaves one scope behind. */
  function Defs(e: Ast.Expr): nat
    requires Inferable(e)
    decreases e
  {
    match e
    case IfExpr(c, a, b) => Defs(c) + Defs(a) + Defs(b)
    case Form(ch) => Defs(ch[0]) + Defs(ch[1])
    case FuncDef(_, _, bodies) => 1 + Defs(bodies[0])
    case Fn(_, body) => Defs(body)
    case LetExpr(asg, body) => Defs(asg[0].value) + Defs(body)
    case _ => 0
  }

  /** `r` continues `st`: constraints are only appended, the counter only grows, and the
      scopes that were there are still there, untouched, at the bottom of the stack. */
  predicate Extends(st: State, r: State) {
    && st.cons <= r.cons
    && st.counter <= r.counter
    && |st.scopes.stack| <= |r.scopes.stack|
    && r.scopes.stack[..|st.scopes.stack|] == st.scopes.stack
  }

  lemma ExtendsTrans(a: State, b: State, c: State)
    requires Extends(a, b) && Extends(b, c)
    ensures Extends(a, c)
  {
    assert c.scopes.stack[..|a.scopes.stack|] == c.scopes.stack[..|b.scopes.stack|][..|a.scopes.stack|];
  }

  /** Every generic in `gens` was issued between the two states. */
  predicate IssuedBetween(gens: seq<GenericVar>, st: State, r: State) {
    forall i :: 0 <= i < |gens| ==> st.counter < gens[i].id <= r.counter
  }

  /** The shape every inference step keeps: it extends its state; with no `def` inside,
      the scope depth is restored on every path; on success each `def` has left one scope,
      and the generics it reports are new. */
  predicate Steps(e: Ast.Expr, st: State, r: Outcome)
    requires Inferable(e)
  {
    && Extends(st, r.st)
    && (Defs(e) == 0 ==> |r.st.scopes.stack| == |st.scopes.stack|)
    && (r.result.Ok? ==> |r.st.scopes.stack| == |st.scopes.stack| + Defs(e))
    && (r.result.Ok? ==> IssuedBetween(r.result.value.generics, st, r.st))
  }

  // ---------------------------------------------------------------------------
  // Instantiation

  /** The substitution of `v` by the new generic number `id`, commented with its origin. */
  function FreshSubst(v: GenericVar, id: int): Subst {
    Subst(v, Generic(GenericVar(id, "", "instantiated from " + GenericString(v))))
  }

  /** The substitutions `instantiate` builds: each quantified generic to a new generic,
      issued in order after `counter`. */
  function FreshSubsts(over: seq<GenericVar>, counter: int): (r: seq<Subst>)
    ensures |r| == |over|
    ensures forall i :: 0 <= i < |over| ==> r[i] == FreshSubst(over[i], counter + i + 1)
  {
    seq(|over|, i requires 0 <= i < |over| => FreshSubst(over[i], counter + i + 1))
  }

  /** `instantiate`: an unknown name is an error; a binding that is not a scheme comes back
      as it is; a scheme's body is copied and each quantified generic replaced by a new
      one. The counter is the only state it changes. */
  function Instantiate(scopes: ScopeStack, counter: int, name: string): (r: (int, Result<Type, SolveError>))
    ensures Find(scopes, name).None? ==> r == (counter, Err(UndefinedVar(name)))
    ensures Find(scopes, name).Some? && !Find(scopes, name).value.Scheme? ==> r == (counter, Ok(Find(scopes, name).value))
    ensures Find(scopes, name).Some? && Find(scopes, name).value.Scheme? ==>
      var s := Find(scopes, name).value;
      && r.0 == counter + |s.over|
      && (r.1.Ok? <==> SingleArgFuncs(s.body))
      && (r.1.Ok? ==> r.1.value == ApplyAll(s.body, FreshSubsts(s.over, counter)))
      && (r.1.Err? ==> r.1.error == CloneFailed)
  {
    match Find(scopes, name)
    case None => (counter, Err(UndefinedVar(name)))
    case Some(t) =>
      if !t.Scheme? then (counter, Ok(t))
      else
        var subs := FreshSubsts(t.over, counter);
        var next := counter + |t.over|;
        if !SingleArgFuncs(t.body) then (next, Err(CloneFailed))
        else (next, Ok(ApplyAll(Clone(t.body), subs)))
  }

  // ---------------------------------------------------------------------------
  // Constraint generation

  /** `genConstraints`. */
  function Infer(e: Ast.Expr, st: State): (r: Outcome)
    requires Inferable(e)
    ensures Steps(e, st, r)
    decreases e, 1
  {
    match e
    case IntLiteral(_) => Outcome(st, Ok(Typed(Int, [])))
    case BoolLiteral(_) => Outcome(st, Ok(Typed(Bool, [])))
    case StrLiteral(_) => Outcome(st, Ok(Typed(String, [])))
    case IfExpr(_, _, _) => InferIf(e, st)
    case Form(_) => InferCall(e, st)
    case FuncDef(_, _, _) => InferFunc(e, st)
    case Fn(_, _) => InferFn(e, st)
    case Symbol(name) =>
      var (counter, res) := Instantiate(st.scopes, st.counter, name);
      var st' := State(st.scopes, st.cons, counter);
      if res.Err? then Outcome(st', Err(res.error)) else Outcome(st', Ok(Typed(res.value, [])))
    case LetExpr(_, _) => InferLet(e, st)
  }

  /** The leaves: a literal has its builtin type and no generics; an unknown symbol is an
      error; a symbol bound to a plain type has that type. None of them changes the state. */
  lemma InferLeaves(e: Ast.Expr, st: State)
    requires Inferable(e)
    ensures SolveBuiltins.LiteralType(e).Some? ==> Infer(e, st) == Outcome(st, Ok(Typed(SolveBuiltins.LiteralType(e).value, [])))
    ensures e.Symbol? && Find(st.scopes, e.name).None? ==> Infer(e, st) == Outcome(st, Err(UndefinedVar(e.name)))
    ensures e.Symbol? && Find(st.scopes, e.name).Some? && !Find(st.scopes, e.name).value.Scheme? ==>
      Infer(e, st) == Outcome(st, Ok(Typed(Find(st.scopes, e.name).value, [])))
  {
  }

  /** `genIfExpr`: the node's type is a generic made before the children are visited;
      after the children's constraints come `cond = Bool`, `t = then` and `t = else`. The
      node's own generic is not among the generics it reports. */
  function InferIf(e: Ast.Expr, st: State): (r: Outcome)
    requires e.IfExpr? && Inferable(e)
    ensures Steps(e, st, r)
    decreases e, 0
  {
    var (t, next) := NewGeneric(st.counter, "", "if expr");
    var cond := Infer(e.condition, State(st.scopes, st.cons, next));
    match cond.result
    case Err(err) => Outcome(cond.st, Err(err))
    case Ok(Typed(condType, g1)) =>
      var cons := Infer(e.consequence, cond.st);
      match cons.result
      case Err(err) =>
        ExtendsTrans(st, cond.st, cons.st);
        Outcome(cons.st, Err(err))
      case Ok(Typed(consType, g2)) =>
        var alt := Infer(e.alternative, cons.st);
        match alt.result
        case Err(err) =>
          ExtendsTrans(st, cond.st, cons.st);
          ExtendsTrans(st, cons.st, alt.st);
          Outcome(alt.st, Err(err))
        case Ok(Typed(altType, g3)) =>
          var added := [Constraint(condType, Bool), Constraint(Generic(t), consType), Constraint(Generic(t), altType)];
          var last := State(alt.st.scopes, alt.st.cons + added, alt.st.counter);
          var gens := g1 + g2 + g3;
          IfStepsOk(e, st, t, cond, cons, alt);
          Outcome(last, Ok(Typed(Generic(t), gens)))
  }

  /** The successful `if`: the three children's steps combine into the node's. */
  lemma IfStepsOk(e: Ast.Expr, st: State, t: GenericVar, cond: Outcome, cons: Outcome, alt: Outcome)
    requires e.IfExpr? && Inferable(e)
    requires t.id == st.counter + 1
    requires Steps(e.condition, State(st.scopes, st.cons, t.id), cond) && cond.result.Ok?
    requires Steps(e.consequence, cond.st, cons) && cons.result.Ok?
    requires Steps(e.alternative, cons.st, alt) && alt.result.Ok?
    ensures var added := [Constraint(cond.result.value.typ, Bool), Constraint(Generic(t), cons.result.value.typ),
                          Constraint(Generic(t), alt.result.value.typ)];
      var gens := cond.result.value.generics + cons.result.value.generics + alt.result.value.generics;
      && Steps(e, st, Outcome(State(alt.st.scopes, alt.st.cons + added, alt.st.counter), Ok(Typed(Generic(t), gens))))
      && (forall i :: 0 <= i < |gens| ==> gens[i].id != st.counter + 1)
  {
    var st1 := State(st.scopes, st.cons, t.id);
    var added := [Constraint(cond.result.value.typ, Bool), Constraint(Generic(t), cons.result.value.typ),
                  Constraint(Generic(t), alt.result.value.typ)];
    var last := State(alt.st.scopes, alt.st.cons + added, alt.st.counter);
    var g1, g2, g3 := cond.result.value.generics, cons.result.value.generics, alt.result.value.generics;
    var gens := g1 + g2 + g3;
    ExtendsTrans(st, st1, cond.st);
    ExtendsTrans(st, cond.st, cons.st);
    ExtendsTrans(st, cons.st, alt.st);
    ExtendsTrans(st, alt.st, last);
    forall i | 0 <= i < |gens| ensures st1.counter < gens[i].id <= alt.st.counter {
      if i < |g1| { assert gens[i] == g1[i]; }
      else if i < |g1| + |g2| { assert gens[i] == g2[i - |g1|]; }
      else { assert gens[i] == g3[i - |g1| - |g2|]; }
    }
  }

  /** `genForCall`: callee, then argument, then a new generic for the result; one
      constraint `callee = Func([arg], result)` is appended and the result generic is the
      last generic reported. */
  function InferCall(e: Ast.Expr, st: State): (r: Outcome)
    requires e.Form? && Inferable(e)
    ensures Steps(e, st, r)
    decreases e, 0
  {
    var callee := Infer(e.children[0], st);
    match callee.result
    case Err(err) => Outcome(callee.st, Err(err))
    case Ok(Typed(calleeType, g1)) =>
      var arg := Infer(e.children[1], callee.st);
      match arg.result
      case Err(err) => Outcome(arg.st, Err(err))
      case Ok(Typed(argType, g2)) =>
        var (form, next) := NewGeneric(arg.st.counter, "", "form expression");
        var added := Constraint(calleeType, Func([argType], Generic(form)));
        Outcome(State(arg.st.scopes, arg.st.cons + [added], next), Ok(Typed(Generic(form), g1 + g2 + [form])))
  }

  /** `genForFunc`: pushes a scope, binds the argument to a new generic, and infers the
      body, but never pops the scope. */
  function InferFunc(e: Ast.Expr, st: State): (r: Outcome)
    requires e.FuncDef? && Inferable(e)
    ensures Steps(e, st, r)
    ensures |r.st.scopes.stack| >= |st.scopes.stack| + 1
    decreases e, 0
  {
    var pushed := AddScope(st.scopes);
    var (arg, next) := NewGeneric(st.counter, "", "type of function arg " + e.name);
    var defined := DefSymbol(pushed, e.args[0], Generic(arg)).0;
    var body := Infer(e.bodies[0], State(defined, st.cons, next));
    match body.result
    case Err(err) =>
      ScopedSteps(e, st, e.args[0], arg, e.bodies[0], body, Err(err));
      Outcome(body.st, Err(err))
    case Ok(Typed(bodyType, gens)) =>
      var res := Ok(Typed(Func([Generic(arg)], bodyType), gens + [arg]));
      ScopedSteps(e, st, e.args[0], arg, e.bodies[0], body, res);
      Outcome(body.st, res)
  }

  /** `genForFn`: like a definition, but the pushed scope is popped on every exit. */
  function InferFn(e: Ast.Expr, st: State): (r: Outcome)
    requires e.Fn? && Inferable(e)
    ensures Steps(e, st, r)
    decreases e, 0
  {
    var pushed := AddScope(st.scopes);
    var (arg, next) := NewGeneric(st.counter, "", "type of anonymous function arg");
    var defined := DefSymbol(pushed, e.arg, Generic(arg)).0;
    var body := Infer(e.body, State(defined, st.cons, next));
    match body.result
    case Err(err) =>
      ScopedSteps(e, st, e.arg, arg, e.body, body, Err(err));
      PopSteps(e, st, body.st, Err(err));
      Outcome(State(Pop(body.st.scopes).0, body.st.cons, body.st.counter), Err(err))
    case Ok(Typed(bodyType, gens)) =>
      var res := Ok(Typed(Func([Generic(arg)], bodyType), gens + [arg]));
      ScopedSteps(e, st, e.arg, arg, e.body, body, res);
      PopSteps(e, st, body.st, res);
      Outcome(State(Pop(body.st.scopes).0, body.st.cons, body.st.counter), res)
  }

  /** An anonymous function pops the innermost table after its body, on every path. */
  lemma PopSteps(e: Ast.Expr, st: State, b: State, res: Result<Typed, SolveError>)
    requires e.Fn? && Inferable(e)
    requires Extends(st, b) && |b.scopes.stack| >= |st.scopes.stack| + 1
    requires Defs(e) == 0 ==> |b.scopes.stack| == |st.scopes.stack| + 1
    requires res.Ok? ==> |b.scopes.stack| == |st.scopes.stack| + 1 + Defs(e)
    requires res.Ok? ==> IssuedBetween(res.value.generics, st, b)
    ensures Steps(e, st, Outcome(State(Pop(b.scopes).0, b.cons, b.counter), res))
  {
    var popped := Pop(b.scopes).0;
    assert popped.stack == b.scopes.stack[..|b.scopes.stack| - 1];
    assert popped.stack[..|st.scopes.stack|] == b.scopes.stack[..|st.scopes.stack|];
  }

  /** Pushing a scope and defining one name in it leaves the stack one table deeper with
      the old tables beneath. */
  lemma PushDefine(ss: ScopeStack, name: string, typ: Type)
    ensures var d := DefSymbol(AddScope(ss), name, typ).0;
      |d.stack| == |ss.stack| + 1 && d.stack[..|ss.stack|] == ss.stack
  {
    var a := AddScope(ss);
    var d := DefSymbol(a, name, typ).0;
    if DefSymbol(a, name, typ).1.None? {
      assert d.stack[..|ss.stack|] == d.stack[..|a.stack| - 1][..|ss.stack|];
    }
  }

  /** A definition or anonymous function: the argument's generic is the next one, the body
      is inferred in a scope pushed on top of `st`'s, and the reported generics are the
      body's followed by the argument's. Before any pop, the step extends `st` by one more
      scope than the body adds. */
  lemma ScopedSteps(e: Ast.Expr, st: State, x: string, arg: GenericVar, inner: Ast.Expr, body: Outcome, res: Result<Typed, SolveError>)
    requires (e.Fn? || e.FuncDef?) && Inferable(e) && Inferable(inner)
    requires Defs(e) == Defs(inner) + (if e.FuncDef? then 1 else 0)
    requires arg.id == st.counter + 1
    requires Steps(inner, State(DefSymbol(AddScope(st.scopes), x, Generic(arg)).0, st.cons, arg.id), body)
    requires res.Ok? ==> body.result.Ok? && res.value.generics == body.result.value.generics + [arg]
    ensures Extends(st, body.st) && |body.st.scopes.stack| >= |st.scopes.stack| + 1
    ensures Defs(inner) == 0 ==> |body.st.scopes.stack| == |st.scopes.stack| + 1
    ensures res.Ok? ==> |body.st.scopes.stack| == |st.scopes.stack| + 1 + Defs(inner)
    ensures res.Ok? ==> IssuedBetween(res.value.generics, st, body.st)
  {
    var s1 := State(DefSymbol(AddScope(st.scopes), x, Generic(arg)).0, st.cons, arg.id);
    PushDefine(st.scopes, x, Generic(arg));
    ExtendsTrans(st, s1, body.st);
    if res.Ok? {
      var gens := res.value.generics;
      forall i | 0 <= i < |gens| ensures st.counter < gens[i].id <= body.st.counter {
        if i < |gens| - 1 { assert gens[i] == body.result.value.generics[i]; }
      }
    }
  }

  /** `genForLet`: generalises the assigned value, appends the copy of its constraints,
      binds the name to the scheme in a new scope, infers the body there and pops the
      scope, also when the body fails. */
  function InferLet(e: Ast.Expr, st: State): (r: Outcome)
    requires e.LetExpr? && Inferable(e)
    ensures Steps(e, st, r)
    ensures Generalize(e.assignments[0].value, st).result.Err? ==>
      r.result == Err(Generalize(e.assignments[0].value, st).result.error)
    ensures var g := Generalize(e.assignments[0].value, st);
      g.result.Ok? ==>
        var inner := State(DefSymbol(AddScope(g.st.scopes), e.assignments[0].variable, g.result.value.0).0,
                           st.cons + g.result.value.1, g.st.counter);
        && r.result == Infer(e.body, inner).result
        && st.cons + g.result.value.1 <= r.st.cons
    decreases e, 0
  {
    var g := Generalize(e.assignments[0].value, st);
    match g.result
    case Err(err) => Outcome(g.st, Err(err))
    case Ok((scheme, copy)) =>
      var pushed := AddScope(g.st.scopes);
      var defined := DefSymbol(pushed, e.assignments[0].variable, scheme).0;
      var body := Infer(e.body, State(defined, g.st.cons + copy, g.st.counter));
      LetSteps(e, st, g, body);
      Outcome(State(Pop(body.st.scopes).0, body.st.cons, body.st.counter), body.result)
  }

  /** A successful generalisation, the body inferred in the pushed scope, and the pop
      combine into the `let` node's step. */
  lemma LetSteps(e: Ast.Expr, st: State, g: Generalized, body: Outcome)
    requires e.LetExpr? && Inferable(e)
    requires g.result.Ok? && Extends(st, g.st) && g.st.cons == st.cons
    requires |g.st.scopes.stack| == |st.scopes.stack| + Defs(e.assignments[0].value)
    requires Steps(e.body, State(DefSymbol(AddScope(g.st.scopes), e.assignments[0].variable, g.result.value.0).0,
                                 g.st.cons + g.result.value.1, g.st.counter), body)
    ensures |body.st.scopes.stack| > 0
    ensures Steps(e, st, Outcome(State(Pop(body.st.scopes).0, body.st.cons, body.st.counter), body.result))
  {
    var s1 := State(DefSymbol(AddScope(g.st.scopes), e.assignments[0].variable, g.result.value.0).0,
                    g.st.cons + g.result.value.1, g.st.counter);
    PushDefine(g.st.scopes, e.assignments[0].variable, g.result.value.0);
    ExtendsTrans(st, g.st, s1);
    var popped := Pop(body.st.scopes).0;
    assert popped.stack == body.st.scopes.stack[..|body.st.scopes.stack| - 1];
    assert popped.stack[..|st.scopes.stack|] == body.st.scopes.stack[..|st.scopes.stack|];
    assert popped.stack[..|g.st.scopes.stack|] == body.st.scopes.stack[..|g.st.scopes.stack|];
  }

  /** `genIfExpr` in terms of its children: the node's generic `t` is made first; the
      condition, the consequence and the alternative are inferred in turn, each from the
      state the one before left; the first failure is the node's failure; on success
      `cond = Bool`, `t = then` and `t = else` are appended, and the node's type is `t`,
      which is not among the reported generics. */
  lemma IfShape(e: Ast.Expr, st: State)
    requires e.IfExpr? && Inferable(e)
    ensures var t := Generic(GenericVar(st.counter + 1, "", "if expr"));
      var cond := Infer(e.condition, State(st.scopes, st.cons, st.counter + 1));
      var cons := Infer(e.consequence, cond.st);
      var alt := Infer(e.alternative, cons.st);
      var r := InferIf(e, st);
      && (cond.result.Err? ==> r == Outcome(cond.st, Err(cond.result.error)))
      && (cond.result.Ok? && cons.result.Err? ==> r == Outcome(cons.st, Err(cons.result.error)))
      && (cond.result.Ok? && cons.result.Ok? && alt.result.Err? ==> r == Outcome(alt.st, Err(alt.result.error)))
      && (cond.result.Ok? && cons.result.Ok? && alt.result.Ok? ==>
            && r.st == State(alt.st.scopes, alt.st.cons + [Constraint(cond.result.value.typ, Bool),
                             Constraint(t, cons.result.value.typ), Constraint(t, alt.result.value.typ)], alt.st.counter)
            && r.result == Ok(Typed(t, cond.result.value.generics + cons.result.value.generics + alt.result.value.generics))
            && (forall i :: 0 <= i < |r.result.value.generics| ==> r.result.value.generics[i].id != st.counter + 1))
  {
    var t := GenericVar(st.counter + 1, "", "if expr");
    var cond := Infer(e.condition, State(st.scopes, st.cons, t.id));
    if cond.result.Ok? {
      var cons := Infer(e.consequence, cond.st);
      if cons.result.Ok? {
        var alt := Infer(e.alternative, cons.st);
        if alt.result.Ok? {
          IfStepsOk(e, st, t, cond, cons, alt);
        }
      }
    }
  }

  /** What the constraints of an `if` mean: any substitution that unifies them makes the
      condition `Bool` and both branches the node's type. */
  lemma IfSolved(e: Ast.Expr, st: State, ss: seq<Subst>)
    requires e.IfExpr? && Inferable(e)
    requires Unifies(ss, InferIf(e, st).st.cons)
    ensures var cond := Infer(e.condition, State(st.scopes, st.cons, st.counter + 1));
      var cons := Infer(e.consequence, cond.st);
      var alt := Infer(e.alternative, cons.st);
      var r := InferIf(e, st);
      r.result.Ok? ==>
        && cond.result.Ok? && cons.result.Ok? && alt.result.Ok?
        && Norm(ApplyAll(cond.result.value.typ, ss)) == Bool
        && Norm(ApplyAll(cons.result.value.typ, ss)) == Norm(ApplyAll(r.result.value.typ, ss))
        && Norm(ApplyAll(alt.result.value.typ, ss)) == Norm(ApplyAll(r.result.value.typ, ss))
  {
    IfShape(e, st);
    var r := InferIf(e, st);
    if r.result.Ok? {
      var n := |r.st.cons|;
      assert r.st.cons[n - 3].rhs == Bool;
      assert r.st.cons[n - 2].lhs == r.st.cons[n - 1].lhs == r.result.value.typ;
      assert Norm(ApplyAll(r.st.cons[n - 2].lhs, ss)) == Norm(ApplyAll(r.st.cons[n - 2].rhs, ss));
      assert Norm(ApplyAll(r.st.cons[n - 1].lhs, ss)) == Norm(ApplyAll(r.st.cons[n - 1].rhs, ss));
      ApplyAllBase(Bool, ss);
    }
  }

  /** `genForCall` in terms of its children: the callee, then the argument, each from the
      state the one before left; the first failure is the node's failure; on success a new
      generic `f` is made for the result, `callee = Func([arg], f)` is appended, and `f` is
      the node's type and the last generic reported. */
  lemma CallShape(e: Ast.Expr, st: State)
    requires e.Form? && Inferable(e)
    ensures var callee := Infer(e.children[0], st);
      var arg := Infer(e.children[1], callee.st);
      var r := InferCall(e, st);
      && (callee.result.Err? ==> r == Outcome(callee.st, Err(callee.result.error)))
      && (callee.result.Ok? && arg.result.Err? ==> r == Outcome(arg.st, Err(arg.result.error)))
      && (callee.result.Ok? && arg.result.Ok? ==>
            var f := GenericVar(arg.st.counter + 1, "", "form expression");
            && r.st == State(arg.st.scopes, arg.st.cons + [Constraint(callee.result.value.typ,
                             Func([arg.result.value.typ], Generic(f)))], arg.st.counter + 1)
            && r.result == Ok(Typed(Generic(f), callee.result.value.generics + arg.result.value.generics + [f])))
  {
  }

  /** What the constraint of a call means: any substitution that unifies the constraints
      turns the callee's type into a one-argument function from the argument's type to the
      node's type. */
  lemma CallSolved(e: Ast.Expr, st: State, ss: seq<Subst>)
    requires e.Form? && Inferable(e)
    requires Unifies(ss, InferCall(e, st).st.cons)
    ensures var callee := Infer(e.children[0], st);
      var arg := Infer(e.children[1], callee.st);
      var r := InferCall(e, st);
      r.result.Ok? ==>
        && callee.result.Ok? && arg.result.Ok?
        && Norm(ApplyAll(callee.result.value.typ, ss))
             == Func([Norm(ApplyAll(arg.result.value.typ, ss))], Norm(ApplyAll(r.result.value.typ, ss)))
  {
    CallShape(e, st);
    var r := InferCall(e, st);
    if r.result.Ok? {
      var c := r.st.cons[|r.st.cons| - 1];
      assert Norm(ApplyAll(c.lhs, ss)) == Norm(ApplyAll(c.rhs, ss));
      ApplyAllFunc(c.rhs, ss);
      var f := ApplyAll(c.rhs, ss);
      assert f == Func([f.args[0]], f.ret);
    }
  }

  /** `genForFunc` in terms of its body: the argument's generic `a` is made first and bound
      in a pushed scope, the body is inferred there, and the scope stays. A failing body is
      the node's failure; otherwise the node's type is `a -> body` and `a` is reported after
      the body's generics. */
  lemma FuncShape(e: Ast.Expr, st: State)
    requires e.FuncDef? && Inferable(e)
    ensures var a := GenericVar(st.counter + 1, "", "type of function arg " + e.name);
      var body := Infer(e.bodies[0], State(DefSymbol(AddScope(st.scopes), e.args[0], Generic(a)).0, st.cons, st.counter + 1));
      var r := InferFunc(e, st);
      && r.st == body.st
      && (body.result.Err? ==> r.result == Err(body.result.error))
      && (body.result.Ok? ==> r.result == Ok(Typed(Func([Generic(a)], body.result.value.typ), body.result.value.generics + [a])))
  {
  }

  /** The same for an anonymous function, whose pushed scope is popped again. */
  lemma FnShape(e: Ast.Expr, st: State)
    requires e.Fn? && Inferable(e)
    ensures var a := GenericVar(st.counter + 1, "", "type of anonymous function arg");
      var body := Infer(e.body, State(DefSymbol(AddScope(st.scopes), e.arg, Generic(a)).0, st.cons, st.counter + 1));
      var r := InferFn(e, st);
      && |body.st.scopes.stack| > 0
      && r.st == State(Pop(body.st.scopes).0, body.st.cons, body.st.counter)
      && (body.result.Err? ==> r.result == Err(body.result.error))
      && (body.result.Ok? ==> r.result == Ok(Typed(Func([Generic(a)], body.result.value.typ), body.result.value.generics + [a])))
  {
  }

  /** Every function type in every constraint is unary, so `Constraint.Clone` succeeds. */
  predicate Cloneable(cs: seq<Constraint>) {
    forall i :: 0 <= i < |cs| ==> SingleArgFuncs(cs[i].lhs) && SingleArgFuncs(cs[i].rhs)
  }

  /** `generalize`: infers the value against a fresh constraint list, copies that list,
      unifies it and substitutes the solution into the value's type; the scheme quantifies
      over the generics the inference reported. The outer constraint list is untouched. */
  function Generalize(e: Ast.Expr, st: State): (r: Generalized)
    requires Inferable(e)
    ensures r.st.cons == st.cons && st.counter <= r.st.counter
    ensures |st.scopes.stack| <= |r.st.scopes.stack| && r.st.scopes.stack[..|st.scopes.stack|] == st.scopes.stack
    ensures Defs(e) == 0 ==> |r.st.scopes.stack| == |st.scopes.stack|
    ensures r.result.Ok? ==> |r.st.scopes.stack| == |st.scopes.stack| + Defs(e)
    ensures var inner := Infer(e, State(st.scopes, [], st.counter));
      && (inner.result.Err? ==> r.result == Err(inner.result.error))
      && (r.result.Ok? ==>
            && inner.result.Ok?
            && r.result.value.1 == inner.st.cons
            && Unify(inner.st.cons).Ok?
            && r.result.value.0 == Scheme(inner.result.value.generics, ApplyAll(inner.result.value.typ, Unify(inner.st.cons).value)))
    decreases e, 2
  {
    var inner := Infer(e, State(st.scopes, [], st.counter));
    var after := State(inner.st.scopes, st.cons, inner.st.counter);
    match inner.result
    case Err(err) => Generalized(after, Err(err))
    case Ok(Typed(typ, generics)) =>
      var cs := inner.st.cons;
      if !Cloneable(cs) then Generalized(after, Err(CloneFailed))
      else
        var copy := seq(|cs|, i requires 0 <= i < |cs| && Cloneable(cs) => Constraint(Clone(cs[i].lhs), Clone(cs[i].rhs)));
        match Unify(cs)
        case Err(u) => Generalized(after, Err(UnifyFailed(u)))
        case Ok(subst) => Generalized(after, Ok((Scheme(generics, ApplyAll(typ, subst)), copy)))
  }

  /** `initConstraints`: inference from an empty type table and constraint list. */
  function InitConstraints(e: Ast.Expr, counter: int): (r: Outcome)
    requires Inferable(e)
    ensures Steps(e, State(ScopeStack([]), [], counter), r)
  {
    Infer(e, State(ScopeStack([]), [], counter))
  }

  // ---------------------------------------------------------------------------
  // Properties across inference and unification

  /** A successful `generalize` holds a substitution that solves the constraints the
      value produced. */
  lemma GeneralizeSound(e: Ast.Expr, st: State)
    requires Inferable(e)
    ensures var inner := Infer(e, State(st.scopes, [], st.counter));
      Generalize(e, st).result.Ok? ==>
        && inner.result.Ok?
        && Unify(inner.st.cons).Ok?
        && Unifies(Unify(inner.st.cons).value, inner.st.cons)
  {
    var inner := Infer(e, State(st.scopes, [], st.counter));
    if Generalize(e, st).result.Ok? {
      UnifySound(inner.st.cons);
    }
  }

  /** `(if [true] 1 2)` from an empty table: the node's generic is constrained to `Int`
      twice, and the solution gives it `Int`. */
  lemma IfLiteralExample()
    ensures var e := Ast.IfExpr(Ast.BoolLiteral(true), Ast.IntLiteral(1), Ast.IntLiteral(2));
      var t := GenericVar(1, "", "if expr");
      var r := InitConstraints(e, 0);
      && r.result == Ok(Typed(Generic(t), []))
      && r.st.cons == [Constraint(Bool, Bool), Constraint(Generic(t), Int), Constraint(Generic(t), Int)]
      && Unify(r.st.cons) == Ok([Subst(t, Int)])
      && ApplyAll(Generic(t), [Subst(t, Int)]) == Int
  {
    var e := Ast.IfExpr(Ast.BoolLiteral(true), Ast.IntLiteral(1), Ast.IntLiteral(2));
    var t := GenericVar(1, "", "if expr");
    IfLiteralInfers(e, t);
    IfLiteralSolves(t);
  }

  lemma IfLiteralInfers(e: Ast.Expr, t: GenericVar)
    requires e == Ast.IfExpr(Ast.BoolLiteral(true), Ast.IntLiteral(1), Ast.IntLiteral(2))
    requires t == GenericVar(1, "", "if expr")
    ensures InitConstraints(e, 0) ==
      Outcome(State(ScopeStack([]), [Constraint(Bool, Bool), Constraint(Generic(t), Int), Constraint(Generic(t), Int)], 1),
              Ok(Typed(Generic(t), [])))
  {
    var st := State(ScopeStack([]), [], 0);
    var st1 := State(ScopeStack([]), [], 1);
    assert Infer(e.condition, st1) == Outcome(st1, Ok(Typed(Bool, [])));
    assert Infer(e.consequence, st1) == Outcome(st1, Ok(Typed(Int, [])));
    assert Infer(e.alternative, st1) == Outcome(st1, Ok(Typed(Int, [])));
    var cs := [Constraint(Bool, Bool), Constraint(Generic(t), Int), Constraint(Generic(t), Int)];
    var none: seq<GenericVar> := [];
    assert [] + cs == cs && none + none + none == none;
    assert InferIf(e, st) == Outcome(State(ScopeStack([]), cs, 1), Ok(Typed(Generic(t), [])));
  }

  lemma IfLiteralSolves(t: GenericVar)
    ensures Unify([Constraint(Bool, Bool), Constraint(Generic(t), Int), Constraint(Generic(t), Int)]) == Ok([Subst(t, Int)])
    ensures ApplyAll(Generic(t), [Subst(t, Int)]) == Int
  {
    var cs := [Constraint(Bool, Bool), Constraint(Generic(t), Int), Constraint(Generic(t), Int)];
    var s := Subst(t, Int);
    assert Ids(Int) == {};
    assert ApplyC(cs[1..][1..], s) == [Constraint(Int, Int)];
    assert Unify([Constraint(Int, Int)]) == Ok([]);
    assert Unify(cs[1..]) == Ok([s] + []);
    assert [s] + [] == [s];
    assert Unify(cs) == Unify(cs[1..]);
  }

  /** `(def foo [x] (if [x] 0 1))` from an empty table, for any function name and any
      argument name that is not an operator: the argument is constrained to `Bool` and the
      result to `Int`, so the function has type `Bool -> Int`; the scope the definition
      pushed is still on the stack afterwards. */
  lemma DefIfExample(name: string, x: string)
    requires !SolveBuiltins.IsOperator(x)
    ensures var e := Ast.FuncDef(name, [x], [Ast.IfExpr(Ast.Symbol(x), Ast.IntLiteral(0), Ast.IntLiteral(1))]);
      var a := GenericVar(1, "", "type of function arg " + name);
      var t := GenericVar(2, "", "if expr");
      var r := InitConstraints(e, 0);
      && r.result == Ok(Typed(Func([Generic(a)], Generic(t)), [a]))
      && r.st.scopes == ScopeStack([map[x := Generic(a)]])
      && r.st.cons == [Constraint(Generic(a), Bool), Constraint(Generic(t), Int), Constraint(Generic(t), Int)]
      && Unify(r.st.cons) == Ok([Subst(a, Bool), Subst(t, Int)])
      && ApplyAll(r.result.value.typ, Unify(r.st.cons).value) == Func([Bool], Int)
  {
    var e := Ast.FuncDef(name, [x], [Ast.IfExpr(Ast.Symbol(x), Ast.IntLiteral(0), Ast.IntLiteral(1))]);
    var a := GenericVar(1, "", "type of function arg " + name);
    var t := GenericVar(2, "", "if expr");
    DefIfInfers(e, name, x, a, t);
    DefIfSolves(a, t);
  }

  lemma DefIfInfers(e: Ast.Expr, name: string, x: string, a: GenericVar, t: GenericVar)
    requires !SolveBuiltins.IsOperator(x)
    requires e == Ast.FuncDef(name, [x], [Ast.IfExpr(Ast.Symbol(x), Ast.IntLiteral(0), Ast.IntLiteral(1))])
    requires a == GenericVar(1, "", "type of function arg " + name) && t == GenericVar(2, "", "if expr")
    ensures InitConstraints(e, 0) ==
      Outcome(State(ScopeStack([map[x := Generic(a)]]),
                    [Constraint(Generic(a), Bool), Constraint(Generic(t), Int), Constraint(Generic(t), Int)], 2),
              Ok(Typed(Func([Generic(a)], Generic(t)), [a])))
  {
    var scopes := ScopeStack([map[x := Generic(a)]]);
    DefInEmpty(x, Generic(a), scopes);
    var cs := [Constraint(Generic(a), Bool), Constraint(Generic(t), Int), Constraint(Generic(t), Int)];
    DefIfBody(e.bodies[0], x, a, t, scopes);
    assert NewGeneric(0, "", "type of function arg " + name) == (a, 1);
    assert InferFunc(e, State(ScopeStack([]), [], 0)) == Outcome(State(scopes, cs, 2), Ok(Typed(Func([Generic(a)], Generic(t)), [] + [a])));
    assert [] + [a] == [a];
  }

  /** Defining a name that is not an operator in a fresh scope over an empty table. */
  lemma DefInEmpty(x: string, typ: Type, scopes: ScopeStack)
    requires !SolveBuiltins.IsOperator(x)
    requires scopes == ScopeStack([map[x := typ]])
    ensures DefSymbol(AddScope(ScopeStack([])), x, typ).0 == scopes
    ensures Find(scopes, x) == Some(typ)
  {
    assert AddScope(ScopeStack([])) == ScopeStack([map[]]);
  }

  lemma DefIfBody(body: Ast.Expr, x: string, a: GenericVar, t: GenericVar, scopes: ScopeStack)
    requires body == Ast.IfExpr(Ast.Symbol(x), Ast.IntLiteral(0), Ast.IntLiteral(1)) && Inferable(body)
    requires t == GenericVar(2, "", "if expr")
    requires Find(scopes, x) == Some(Generic(a))
    ensures Infer(body, State(scopes, [], 1)) ==
      Outcome(State(scopes, [Constraint(Generic(a), Bool), Constraint(Generic(t), Int), Constraint(Generic(t), Int)], 2),
              Ok(Typed(Generic(t), [])))
  {
    var st2 := State(scopes, [], 2);
    assert Infer(body.condition, st2) == Outcome(st2, Ok(Typed(Generic(a), [])));
    assert Infer(body.consequence, st2) == Outcome(st2, Ok(Typed(Int, [])));
    assert Infer(body.alternative, st2) == Outcome(st2, Ok(Typed(Int, [])));
    var cs := [Constraint(Generic(a), Bool), Constraint(Generic(t), Int), Constraint(Generic(t), Int)];
    var none: seq<GenericVar> := [];
    assert [] + cs == cs && none + none + none == none;
    assert InferIf(body, State(scopes, [], 1)) == Outcome(State(scopes, cs, 2), Ok(Typed(Generic(t), none)));
  }

  lemma DefIfSolves(a: GenericVar, t: GenericVar)
    requires a.id == 1 && t.id == 2
    ensures var cs := [Constraint(Generic(a), Bool), Constraint(Generic(t), Int), Constraint(Generic(t), Int)];
      && Unify(cs) == Ok([Subst(a, Bool), Subst(t, Int)])
      && ApplyAll(Func([Generic(a)], Generic(t)), [Subst(a, Bool), Subst(t, Int)]) == Func([Bool], Int)
  {
    var cs := [Constraint(Generic(a), Bool), Constraint(Generic(t), Int), Constraint(Generic(t), Int)];
    var sa, sb := Subst(a, Bool), Subst(t, Int);
    assert Ids(Int) == {} && Ids(Bool) == {};
    assert ApplyC(cs[1..], sa) == cs[1..];
    assert ApplyC(cs[1..][1..], sb) == [Constraint(Int, Int)];
    assert Unify([Constraint(Int, Int)]) == Ok([]);
    assert Unify(cs[1..]) == Ok([sb] + []);
    assert [sb] + [] == [sb];
    assert !SameSimple(cs[0].lhs, cs[0].rhs) && cs[0].lhs.Generic? && cs[0].lhs.g.id !in Ids(cs[0].rhs);
    assert Unify(ApplyC(cs[1..], sa)) == Ok([sb]);
    assert Unify(cs) == Ok([sa] + [sb]);
    assert [sa] + [sb] == [sa, sb];
    ApplyAllFunc(Func([Generic(a)], Generic(t)), [sa, sb]);
    assert ApplyAll(Generic(a), [sa, sb]) == ApplyAll(Bool, [sb]) == Bool;
    assert ApplyAll(Generic(t), [sa, sb]) == ApplyAll(Generic(t), [sb]) == Int;
    var r := ApplyAll(Func([Generic(a)], Generic(t)), [sa, sb]);
    assert r.args == [Bool];
  }

  /** `(let [v (fn [x] x)] (v true))` from an empty table: the identity is generalised to
      `forall t1. t1 -> t1`, the use instantiates it with a new generic, and the solution
      gives the whole expression the type `Bool`. No scope is left behind. */
  lemma LetIdentityExample(v: string, x: string)
    requires !SolveBuiltins.IsOperator(v) && !SolveBuiltins.IsOperator(x)
    ensures var e := Ast.LetExpr([Ast.Assignment(v, Ast.Fn(x, Ast.Symbol(x)))],
                                 Ast.Form([Ast.Symbol(v), Ast.BoolLiteral(true)]));
      Inferable(e) &&
      var r := InitConstraints(e, 0);
      && r.result.Ok?
      && r.st.scopes == ScopeStack([])
      && Unify(r.st.cons).Ok?
      && ApplyAll(r.result.value.typ, Unify(r.st.cons).value) == Bool
  {
    var e := Ast.LetExpr([Ast.Assignment(v, Ast.Fn(x, Ast.Symbol(x)))], Ast.Form([Ast.Symbol(v), Ast.BoolLiteral(true)]));
    var g1 := GenericVar(1, "", "type of anonymous function arg");
    var g2 := GenericVar(2, "", "instantiated from " + GenericString(g1));
    var g3 := GenericVar(3, "", "form expression");
    IdentityLet(e, v, x, g1, g2, g3);
    IdentityUseSolves(g2, g3);
  }

  lemma IdentityLet(e: Ast.Expr, v: string, x: string, g1: GenericVar, g2: GenericVar, g3: GenericVar)
    requires !SolveBuiltins.IsOperator(v) && !SolveBuiltins.IsOperator(x)
    requires e == Ast.LetExpr([Ast.Assignment(v, Ast.Fn(x, Ast.Symbol(x)))], Ast.Form([Ast.Symbol(v), Ast.BoolLiteral(true)]))
    requires Inferable(e)
    requires g1 == GenericVar(1, "", "type of anonymous function arg")
    requires g2 == GenericVar(2, "", "instantiated from " + GenericString(g1))
    requires g3 == GenericVar(3, "", "form expression")
    ensures InitConstraints(e, 0) ==
      Outcome(State(ScopeStack([]), [Constraint(Func([Generic(g2)], Generic(g2)), Func([Bool], Generic(g3)))], 3),
              Ok(Typed(Generic(g3), [g3])))
  {
    var st0 := State(ScopeStack([]), [], 0);
    var scheme := Scheme([g1], Func([Generic(g1)], Generic(g1)));
    var scopes := ScopeStack([map[v := scheme]]);
    var c := Constraint(Func([Generic(g2)], Generic(g2)), Func([Bool], Generic(g3)));
    var empty: seq<Constraint> := [];
    IdentityGeneralizes(e.assignments[0].value, x, g1);
    DefInEmpty(v, scheme, scopes);
    IdentityUse(e.body, v, scheme, scopes, g1, g2, g3);
    assert empty + empty == empty;
    var body := Outcome(State(scopes, [c], 3), Ok(Typed(Generic(g3), [g3])));
    LetUnfold(e, st0, scheme, empty, State(ScopeStack([]), [], 1), body);
    assert Pop(scopes).0 == ScopeStack([]);
  }

  /** One `let` step from its parts: the generalised value and the body inferred with the
      name defined in a pushed scope. */
  lemma LetUnfold(e: Ast.Expr, st: State, scheme: Type, copy: seq<Constraint>, gst: State, body: Outcome)
    requires e.LetExpr? && Inferable(e)
    requires Generalize(e.assignments[0].value, st) == Generalized(gst, Ok((scheme, copy)))
    requires Infer(e.body, State(DefSymbol(AddScope(gst.scopes), e.assignments[0].variable, scheme).0,
                                 gst.cons + copy, gst.counter)) == body
    ensures |body.st.scopes.stack| > 0
    ensures Infer(e, st) == Outcome(State(Pop(body.st.scopes).0, body.st.cons, body.st.counter), body.result)
  {
  }

  lemma IdentityGeneralizes(value: Ast.Expr, x: string, g1: GenericVar)
    requires !SolveBuiltins.IsOperator(x)
    requires value == Ast.Fn(x, Ast.Symbol(x)) && g1 == GenericVar(1, "", "type of anonymous function arg")
    ensures Generalize(value, State(ScopeStack([]), [], 0)) ==
      Generalized(State(ScopeStack([]), [], 1), Ok((Scheme([g1], Func([Generic(g1)], Generic(g1))), [])))
  {
    var scopes := ScopeStack([map[x := Generic(g1)]]);
    assert AddScope(ScopeStack([])) == ScopeStack([map[]]);
    assert DefSymbol(ScopeStack([map[]]), x, Generic(g1)).0 == scopes;
    assert Find(scopes, x) == Some(Generic(g1));
    assert Infer(value.body, State(scopes, [], 1)) == Outcome(State(scopes, [], 1), Ok(Typed(Generic(g1), [])));
    assert Pop(scopes).0 == ScopeStack([]);
    var none: seq<GenericVar> := [];
    assert none + [g1] == [g1];
    assert Infer(value, State(ScopeStack([]), [], 0)) == Outcome(State(ScopeStack([]), [], 1), Ok(Typed(Func([Generic(g1)], Generic(g1)), [g1])));
    assert Unify([]) == Ok([]);
  }

  lemma IdentityUse(use: Ast.Expr, v: string, scheme: Type, scopes: ScopeStack, g1: GenericVar, g2: GenericVar, g3: GenericVar)
    requires !SolveBuiltins.IsOperator(v)
    requires use == Ast.Form([Ast.Symbol(v), Ast.BoolLiteral(true)]) && Inferable(use)
    requires scheme == Scheme([g1], Func([Generic(g1)], Generic(g1))) && scopes == ScopeStack([map[v := scheme]])
    requires g1.id == 1 && g2 == GenericVar(2, "", "instantiated from " + GenericString(g1))
    requires g3 == GenericVar(3, "", "form expression")
    ensures Infer(use, State(scopes, [], 1)) ==
      Outcome(State(scopes, [Constraint(Func([Generic(g2)], Generic(g2)), Func([Bool], Generic(g3)))], 3), Ok(Typed(Generic(g3), [g3])))
  {
    assert Find(scopes, v) == Some(scheme);
    var subs := FreshSubsts([g1], 1);
    assert subs == [Subst(g1, Generic(g2))];
    ApplyUnary(Generic(g1), Generic(g1), subs[0]);
    assert ApplyAll(Func([Generic(g1)], Generic(g1)), subs) == Func([Generic(g2)], Generic(g2));
    assert SingleArgFuncs(scheme.body);
    assert Instantiate(scopes, 1, v) == (2, Ok(Func([Generic(g2)], Generic(g2))));
    var callee := State(scopes, [], 2);
    assert Infer(use.children[0], State(scopes, [], 1)) == Outcome(callee, Ok(Typed(Func([Generic(g2)], Generic(g2)), [])));
    assert Infer(use.children[1], callee) == Outcome(callee, Ok(Typed(Bool, [])));
    var none: seq<GenericVar> := [];
    assert none + none + [g3] == [g3];
    assert [] + [Constraint(Func([Generic(g2)], Generic(g2)), Func([Bool], Generic(g3)))]
        == [Constraint(Func([Generic(g2)], Generic(g2)), Func([Bool], Generic(g3)))];
  }

  lemma IdentityUseSolves(g2: GenericVar, g3: GenericVar)
    requires g2.id == 2 && g3.id == 3
    ensures var cs := [Constraint(Func([Generic(g2)], Generic(g2)), Func([Bool], Generic(g3)))];
      && Unify(cs) == Ok([Subst(g2, Bool), Subst(g3, Bool)])
      && ApplyAll(Generic(g3), Unify(cs).value) == Bool
  {
    var cs := [Constraint(Func([Generic(g2)], Generic(g2)), Func([Bool], Generic(g3)))];
    var s1 := [Constraint(Generic(g2), Bool), Constraint(Generic(g2), Generic(g3))];
    assert Split(cs) == s1;
    assert Unify(cs) == Unify(s1);
    var sa, sb := Subst(g2, Bool), Subst(g3, Bool);
    assert Ids(Bool) == {};
    assert ApplyC(s1[1..], sa) == [Constraint(Bool, Generic(g3))];
    assert ApplyC([Constraint(Bool, Generic(g3))][1..], sb) == [];
    assert Unify([Constraint(Bool, Generic(g3))]) == Ok([sb] + []);
    assert [sb] + [] == [sb];
    assert Unify(s1) == Ok([sa] + [sb]);
    assert [sa] + [sb] == [sa, sb];
    assert ApplyAll(Generic(g3), [sa, sb]) == ApplyAll(Generic(g3), [sb]) == Bool;
  }
}
