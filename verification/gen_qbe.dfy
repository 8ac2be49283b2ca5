/** The QBE code generator (src/genqbe/gen.go): it walks the parsed program with the
    top-level type table and drives the IL builder. Every `panic` and failed assertion of
    the Go code is a `GenError` here; the generator stops at the first one. */
module GenQbe {
  import opened Wrappers
  import opened Types
  import IL = QbeIL
  import Ast = GoAst
  import Decimal

  datatype GenError =
    | NotAFunction(name: string)   // the top-level type of a defined or called name is not a function
    | ArityMismatch(name: string)  // argument count differs from the signature
    | EmptyBody(name: string)      // a definition without body expressions
    | EmptyForm                    // `()` in call position
    | WrongArgCount                // `+` with other than two operands
    | UnsupportedCallee            // a callee that is not a symbol
    | UnsupportedType              // `toILType` of a type other than Int or Bool
    | UnsupportedExpr              // `genLet`, and node kinds `gen` has no case for

  /** The generator's context: the builder and the top-level types. `statics` is never
      filled, so it is not carried. */
  datatype Ctx = Ctx(il: IL.Builder, topLevels: map<string, Type>)

  datatype Generated = Generated(ctx: Ctx, val: Result<IL.Value, GenError>)

  /** `toILType`: Int is a long, Bool a word, and nothing else has an IL type. */
  function ToILType(t: Type): (r: Result<IL.ILType, GenError>)
    ensures r == Ok(IL.Base(IL.Long)) <==> t.Int?
    ensures r == Ok(IL.Base(IL.Word)) <==> t.Bool?
    ensures r.Err? <==> !t.Int? && !t.Bool?
    ensures r.Err? ==> r.error == UnsupportedType
  {
    match t
    case Int => Ok(IL.Base(IL.Long))
    case Bool => Ok(IL.Base(IL.Word))
    case _ => Err(UnsupportedType)
  }

  /** What every generation step keeps: text is only appended, temporaries are only
      handed out, the type table is untouched, and a step that succeeds ends at the
      indentation it started at. */
  predicate Keeps(c: Ctx, r: Ctx, ok: bool) {
    && c.il.out <= r.il.out
    && c.il.tempID <= r.il.tempID
    && r.topLevels == c.topLevels
    && (ok ==> r.il.indentLvl == c.il.indentLvl)
  }

  lemma KeepsTrans(a: Ctx, b: Ctx, c: Ctx, ok1: bool, ok2: bool)
    requires Keeps(a, b, ok1) && Keeps(b, c, ok2)
    ensures Keeps(a, c, ok1 && ok2)
  {
  }

  function FuncSig(ctx: Ctx, name: string): Option<Type> {
    if name in ctx.topLevels && ctx.topLevels[name].Func? then Some(ctx.topLevels[name]) else None
  }

  /** `gen`: an integer literal is a constant and a symbol a variable, global exactly
      when the name is a top level; neither writes anything. Definitions and forms
      have their own functions; `let` and every other node kind are unsupported. */
  function GenExpr(ctx: Ctx, e: Ast.Expr): (r: Generated)
    requires ctx.il.indentLvl >= 0
    ensures Keeps(ctx, r.ctx, r.val.Ok?)
    ensures e.IntLiteral? ==> r == Generated(ctx, Ok(IL.IntLit(e.number)))
    ensures e.Symbol? ==> r == Generated(ctx, Ok(IL.Var(e.name in ctx.topLevels, e.name)))
    ensures !e.IntLiteral? && !e.Symbol? && !e.FuncDef? && !e.Form? ==> r == Generated(ctx, Err(UnsupportedExpr))
    decreases e, 2, 0
  {
    match e
    case IntLiteral(n) => Generated(ctx, Ok(IL.IntLit(n)))
    case FuncDef(_, _, _) => GenFunc(ctx, e)
    case Form(_) => GenCall(ctx, e)
    case Symbol(name) => Generated(ctx, Ok(IL.Var(name in ctx.topLevels, name)))
    case _ => Generated(ctx, Err(UnsupportedExpr))
  }

  /** The parameters of a definition, typed from the signature in order; the first type
      without an IL type stops it. */
  function TypeParams(types: seq<Type>, names: seq<string>): (r: Result<seq<IL.TypedVar>, GenError>)
    requires |types| == |names|
    ensures r.Ok? <==> forall i :: 0 <= i < |types| ==> ToILType(types[i]).Ok?
    ensures r.Ok? ==> |r.value| == |names|
    ensures r.Ok? ==> forall i :: 0 <= i < |names| ==>
      r.value[i] == IL.TypedVar(ToILType(types[i]).value, IL.Var(false, names[i]))
    decreases |types|
  {
    if |types| == 0 then Ok([])
    else
      match ToILType(types[0])
      case Err(err) => Err(err)
      case Ok(t) =>
        match TypeParams(types[1..], names[1..])
        case Err(err) => Err(err)
        case Ok(rest) => Ok([IL.TypedVar(t, IL.Var(false, names[0]))] + rest)
  }

  /** The header line `genFunc` asks for: `main` is exported and returns a word, every
      other function has no linkage and returns the IL type of its result. */
  function FuncLinkage(name: string): (r: IL.Linkage)
    ensures name == "main" <==> r.flags == IL.Export
    ensures name != "main" ==> r.flags == 0
    ensures IL.LinkageString(r) == Some(if name == "main" then "export thread" else "")
  {
    IL.ExportAlsoThread("", "");
    IL.NoLinkage("", "");
    if name == "main" then IL.Linkage(IL.Export, "", "") else IL.Linkage(0, "", "")
  }

  /** The first line of a generated function: `main` is written `export thread function`,
      as the flag values make `Export` print, the rest plain `function`; then the return
      type, `$name` and the parameters. */
  function Header(name: string, ret: IL.ILType, params: seq<IL.TypedVar>): string {
    IL.FuncHeader(if name == "main" then "export thread" else "", Some(ret), IL.ValueIL(IL.Var(true, name)), params)
  }

  /** `out` extends `before` with a whole function at depth `d`: the header and `@start`
      first, and at the end `ret` of `v` one level deeper and the closing brace. */
  predicate FuncText(before: string, out: string, d: nat, header: string, v: IL.Value) {
    var head := before + IL.Tabs(d) + header + IL.Tabs(d) + "@start\n";
    var tail := IL.Tabs(d + 1) + ("ret " + IL.ValueIL(v) + "\n") + IL.Tabs(d) + "}\n";
    |out| >= |head| + |tail| && out[..|head|] == head && out[|out| - |tail|..] == tail
  }

  /** `out` is what `genFunc` writes for `e` from `ctx`: the function text whose `ret`
      carries the value of the last body expression, generated after the others. */
  predicate FuncGenerated(ctx: Ctx, e: Ast.Expr, params: seq<IL.TypedVar>, ret: IL.ILType, out: string)
    requires e.FuncDef? && ctx.il.indentLvl >= 0 && |e.bodies| >= 1
    decreases e, 0, |e.bodies| + 1
  {
    var eff := GenEffects(Open(ctx, FuncLinkage(e.name), ret, e.name, params), e, 0);
    && eff.1.None?
    && var last := GenExpr(eff.0, e.bodies[|e.bodies| - 1]);
       && last.val.Ok?
       && FuncText(ctx.il.out, out, ctx.il.indentLvl, Header(e.name, ret, params), last.val.value)
  }

  /** `genFunc`: checks the signature, opens the function, generates all body
      expressions but the last for their effect, returns the last one's value and
      closes the function. Its value is the function's global name. */
  function GenFunc(ctx: Ctx, e: Ast.Expr): (r: Generated)
    requires e.FuncDef? && ctx.il.indentLvl >= 0
    ensures Keeps(ctx, r.ctx, r.val.Ok?)
    ensures FuncSig(ctx, e.name).None? ==> r.val == Err(NotAFunction(e.name))
    ensures r.val.Ok? ==> r.val.value == IL.Var(true, e.name)
    ensures r.val.Ok? ==>
      && FuncSig(ctx, e.name).Some?
      && |e.args| == |FuncSig(ctx, e.name).value.args|
      && |e.bodies| >= 1
    ensures r.val.Ok? ==> Closes(ctx.il.out, r.ctx.il.out)
    ensures r.val.Ok? ==>
      && FuncSig(ctx, e.name).Some?
      && var sig := FuncSig(ctx, e.name).value;
         && |e.args| == |sig.args| && |e.bodies| >= 1
         && TypeParams(sig.args, e.args).Ok? && ToILType(sig.ret).Ok?
         && FuncGenerated(ctx, e, TypeParams(sig.args, e.args).value,
                          if e.name == "main" then IL.Base(IL.Word) else ToILType(sig.ret).value, r.ctx.il.out)
    decreases e, 1, 0
  {
    match FuncSig(ctx, e.name)
    case None => Generated(ctx, Err(NotAFunction(e.name)))
    case Some(sig) =>
      if |e.args| != |sig.args| then Generated(ctx, Err(ArityMismatch(e.name)))
      else if |e.bodies| == 0 then Generated(ctx, Err(EmptyBody(e.name)))
      else
        match TypeParams(sig.args, e.args)
        case Err(err) => Generated(ctx, Err(err))
        case Ok(params) =>
          match ToILType(sig.ret)
          case Err(err) => Generated(ctx, Err(err))
          case Ok(retTyp) =>
            GenFuncBody(ctx, e, params, if e.name == "main" then IL.Base(IL.Word) else retTyp)
  }

  /** The rest of `genFunc` once the signature is converted: the header, the body
      expressions, and `ret` of the last one's value. */
  function GenFuncBody(ctx: Ctx, e: Ast.Expr, params: seq<IL.TypedVar>, ret: IL.ILType): (r: Generated)
    requires e.FuncDef? && ctx.il.indentLvl >= 0 && |e.bodies| >= 1
    ensures Keeps(ctx, r.ctx, r.val.Ok?)
    ensures r.val.Ok? ==> r.val.value == IL.Var(true, e.name)
    ensures r.val.Ok? ==> Closes(ctx.il.out, r.ctx.il.out)
    ensures r.val.Ok? ==> FuncGenerated(ctx, e, params, ret, r.ctx.il.out)
    decreases e, 0, |e.bodies| + 3
  {
    var inner := Open(ctx, FuncLinkage(e.name), ret, e.name, params);
    var (effects, err) := GenEffects(inner, e, 0);
    if err.Some? then
      KeepsTrans(ctx, inner, effects, false, false);
      Generated(effects, Err(err.value))
    else
      var last := GenExpr(effects, e.bodies[|e.bodies| - 1]);
      match last.val
      case Err(err) =>
        KeepsTrans(ctx, inner, effects, false, true);
        KeepsTrans(ctx, effects, last.ctx, false, false);
        Generated(last.ctx, Err(err))
      case Ok(v) =>
        FuncBodyText(ctx, e, params, ret, inner, effects, last, v);
        Generated(Close(ctx, last.ctx, v), Ok(IL.Var(true, e.name)))
  }

  /** A function whose body expressions all generate is closed at the depth it was
      opened at, and its text is the whole function. */
  lemma FuncBodyText(ctx: Ctx, e: Ast.Expr, params: seq<IL.TypedVar>, ret: IL.ILType,
                     inner: Ctx, effects: Ctx, last: Generated, v: IL.Value)
    requires e.FuncDef? && ctx.il.indentLvl >= 0 && |e.bodies| >= 1
    requires inner == Open(ctx, FuncLinkage(e.name), ret, e.name, params)
    requires GenEffects(inner, e, 0) == (effects, None)
    requires last == GenExpr(effects, e.bodies[|e.bodies| - 1]) && last.val == Ok(v)
    ensures last.ctx.il.indentLvl == ctx.il.indentLvl + 1 && Keeps(ctx, last.ctx, false)
    ensures FuncGenerated(ctx, e, params, ret, Close(ctx, last.ctx, v).il.out)
    decreases e, 0, |e.bodies| + 2
  {
    KeepsTrans(ctx, inner, effects, false, true);
    KeepsTrans(ctx, effects, last.ctx, false, true);
    KeepsTrans(inner, effects, last.ctx, true, true);
    OpenCloseText(ctx, inner, last.ctx, Header(e.name, ret, params), v);
  }

  /** `after` extends `before` with text that ends in a closing brace line. */
  predicate Closes(before: string, after: string) {
    |after| >= |before| + 2 && after[|after| - 2..] == "}\n"
  }

  /** The function header and `@start`, one level deeper. */
  function Open(ctx: Ctx, linkage: IL.Linkage, ret: IL.ILType, name: string, params: seq<IL.TypedVar>): (r: Ctx)
    requires ctx.il.indentLvl >= 0 && IL.LinkageString(linkage).Some?
    ensures Keeps(ctx, r, false) && r.il.indentLvl == ctx.il.indentLvl + 1
    ensures r.il.out == ctx.il.out + IL.Tabs(ctx.il.indentLvl)
      + IL.FuncHeader(IL.LinkageString(linkage).value, Some(ret), IL.ValueIL(IL.Var(true, name)), params)
      + IL.Tabs(ctx.il.indentLvl) + "@start\n"
  {
    Ctx(IL.Func(ctx.il, linkage, Some(ret), IL.ValueIL(IL.Var(true, name)), params), ctx.topLevels)
  }

  /** `ret` with the last value, and the closing brace back at the function's depth. */
  function Close(ctx: Ctx, body: Ctx, v: IL.Value): (r: Ctx)
    requires ctx.il.indentLvl >= 0 && body.il.indentLvl == ctx.il.indentLvl + 1
    requires Keeps(ctx, body, false)
    ensures Keeps(ctx, r, true)
    ensures Closes(ctx.il.out, r.il.out)
  {
    var closed := IL.EndFunc(IL.Ret(body.il, v));
    assert closed.out[|closed.out| - 2..] == "}\n";
    Ctx(closed, ctx.topLevels)
  }

  /** The header written first stays at the front, and `ret` and the closing brace come
      last. */
  lemma OpenCloseText(ctx: Ctx, inner: Ctx, body: Ctx, header: string, v: IL.Value)
    requires ctx.il.indentLvl >= 0 && body.il.indentLvl == ctx.il.indentLvl + 1
    requires inner.il.out == ctx.il.out + IL.Tabs(ctx.il.indentLvl) + header + IL.Tabs(ctx.il.indentLvl) + "@start\n"
    requires inner.il.out <= body.il.out
    ensures FuncText(ctx.il.out, IL.EndFunc(IL.Ret(body.il, v)).out, ctx.il.indentLvl, header, v)
  {
    var d := ctx.il.indentLvl;
    var tail := IL.Tabs(d + 1) + ("ret " + IL.ValueIL(v) + "\n") + IL.Tabs(d) + "}\n";
    RetEndText(body.il, v, d);
    PrefixThenSuffix(inner.il.out, body.il.out, tail);
  }

  /** `ret` and the closing brace append exactly their two lines. */
  lemma RetEndText(b: IL.Builder, v: IL.Value, d: nat)
    requires b.indentLvl == d + 1
    ensures IL.EndFunc(IL.Ret(b, v)).out == b.out + (IL.Tabs(d + 1) + ("ret " + IL.ValueIL(v) + "\n") + IL.Tabs(d) + "}\n")
  {
    var line := "ret " + IL.ValueIL(v) + "\n";
    var a, t := IL.Tabs(d + 1), IL.Tabs(d);
    var r1 := IL.Ret(b, v);
    assert r1.out == b.out + a + line;
    assert IL.EndFunc(r1).out == r1.out + t + "}\n";
    IL.Assoc(b.out, a, line);
    IL.Assoc(b.out, a + line, t);
    IL.Assoc(b.out, a + line + t, "}\n");
  }

  /** Text that starts `a` still starts `a + t`, which ends with `t`. */
  lemma PrefixThenSuffix(p: string, a: string, t: string)
    requires p <= a
    ensures |a + t| >= |p| + |t| && (a + t)[..|p|] == p && (a + t)[|a + t| - |t|..] == t
  {
    assert (a + t)[..|p|] == a[..|p|];
  }

  /** The body expressions before the last, generated in order for their effect only. */
  function GenEffects(ctx: Ctx, e: Ast.Expr, i: nat): (r: (Ctx, Option<GenError>))
    requires e.FuncDef? && ctx.il.indentLvl >= 0 && i < |e.bodies|
    ensures Keeps(ctx, r.0, r.1.None?)
    decreases e, 0, |e.bodies| - i
  {
    if i == |e.bodies| - 1 then (ctx, None)
    else
      var g := GenExpr(ctx, e.bodies[i]);
      if g.val.Err? then (g.ctx, Some(g.val.error))
      else
        var rest := GenEffects(g.ctx, e, i + 1);
        KeepsTrans(ctx, g.ctx, rest.0, true, rest.1.None?);
        rest
  }

  /** `genCall`: the callee must be a symbol; `+` is built in, any other name must be
      a top-level function. */
  function GenCall(ctx: Ctx, e: Ast.Expr): (r: Generated)
    requires e.Form? && ctx.il.indentLvl >= 0
    ensures Keeps(ctx, r.ctx, r.val.Ok?)
    ensures |e.children| == 0 ==> r.val == Err(EmptyForm)
    ensures |e.children| > 0 && !e.children[0].Symbol? ==> r.val == Err(UnsupportedCallee)
    ensures |e.children| > 0 && e.children[0] == Ast.Symbol("+") ==> r == GenPlus(ctx, e)
    ensures |e.children| > 0 && e.children[0].Symbol? && e.children[0].name != "+" ==> r == GenFuncCall(ctx, e)
    decreases e, 1, 1
  {
    if |e.children| == 0 then Generated(ctx, Err(EmptyForm))
    else if !e.children[0].Symbol? then Generated(ctx, Err(UnsupportedCallee))
    else if e.children[0].name == "+" then GenPlus(ctx, e)
    else GenFuncCall(ctx, e)
  }

  /** `+`: exactly two operands, generated left to right, then one long `add` into a new
      temporary, the last one handed out, which is the value. */
  function GenPlus(ctx: Ctx, e: Ast.Expr): (r: Generated)
    requires e.Form? && |e.children| > 0 && ctx.il.indentLvl >= 0
    ensures Keeps(ctx, r.ctx, r.val.Ok?)
    ensures |e.children| != 3 ==> r == Generated(ctx, Err(WrongArgCount))
    ensures r.val.Ok? ==>
      && r.ctx.il.tempID > ctx.il.tempID
      && r.val.value == IL.Var(false, IL.TempName(r.ctx.il.tempID))
    decreases e, 1, 0
  {
    if |e.children| != 3 then Generated(ctx, Err(WrongArgCount))
    else
      var left := GenExpr(ctx, e.children[1]);
      if left.val.Err? then left
      else
        var right := GenExpr(left.ctx, e.children[2]);
        if right.val.Err? then right
        else
          PlusEmit(right.ctx, left.val.value, right.val.value)
  }

  /** The one line `+` writes: a long `add` of the two operands into the next temporary. */
  function PlusEmit(c: Ctx, lv: IL.Value, rv: IL.Value): (r: Generated)
    requires c.il.indentLvl >= 0
    ensures Keeps(c, r.ctx, true) && r.ctx.il.tempID == c.il.tempID + 1
    ensures r.val == Ok(IL.Var(false, IL.TempName(c.il.tempID + 1)))
    ensures r.ctx.il.out == c.il.out + IL.Tabs(c.il.indentLvl)
      + ("%" + IL.TempName(c.il.tempID + 1) + " =l add " + IL.ValueIL(lv) + ", " + IL.ValueIL(rv) + "\n")
  {
    var (b, target) := IL.TempVar(c.il, false);
    var ops := [lv, rv];
    assert IL.JoinComma(IL.ValuesIL(ops)) == IL.ValueIL(lv) + ", " + IL.ValueIL(rv) by {
      assert IL.ValuesIL(ops)[1..] == [IL.ValueIL(rv)];
    }
    assert IL.TypeIL(IL.Base(IL.Long)) == "l";
    var tv := IL.ValueIL(target);
    var joined := IL.JoinComma(IL.ValuesIL(ops));
    var text := tv + " =" + IL.TypeIL(IL.Base(IL.Long)) + " " + "add" + " " + joined + "\n";
    var b' := IL.Arithmetic(b, tv, Some(IL.Base(IL.Long)), "add", ops);
    assert b' == IL.Indented(b, text);
    assert b'.out == b.out + IL.Tabs(b.indentLvl) + text;
    AddLineText(IL.TempName(c.il.tempID + 1), IL.ValueIL(lv), IL.ValueIL(rv));
    assert text == "%" + IL.TempName(c.il.tempID + 1) + " =l add " + IL.ValueIL(lv) + ", " + IL.ValueIL(rv) + "\n";
    Generated(Ctx(b', c.topLevels), Ok(target))
  }

  lemma AddLineText(t: string, a: string, b: string)
    ensures ("%" + t) + " =" + "l" + " " + "add" + " " + (a + ", " + b) + "\n" == "%" + t + " =l add " + a + ", " + b + "\n"
  {
  }

  /** A call of a top-level function: the target temporary is taken first, then each
      argument is typed from the signature and generated in order, then the result type
      is converted, and one `call` is written. */
  function GenFuncCall(ctx: Ctx, e: Ast.Expr): (r: Generated)
    requires e.Form? && |e.children| > 0 && e.children[0].Symbol? && ctx.il.indentLvl >= 0
    ensures Keeps(ctx, r.ctx, r.val.Ok?)
    ensures FuncSig(ctx, e.children[0].name).None? ==> r == Generated(ctx, Err(NotAFunction(e.children[0].name)))
    ensures r.val.Ok? ==>
      && FuncSig(ctx, e.children[0].name).Some?
      && |e.children| == |FuncSig(ctx, e.children[0].name).value.args| + 1
      && r.ctx.il.tempID > ctx.il.tempID
      && r.val.value == IL.Var(false, IL.TempName(ctx.il.tempID + 1))
      && ToILType(FuncSig(ctx, e.children[0].name).value.ret).Ok?
      && var run := GenArgs(Ctx(IL.TempVar(ctx.il, false).0, ctx.topLevels), e, FuncSig(ctx, e.children[0].name).value.args, 1);
         && run.1.Ok?
         && r.ctx.il.out == run.0.il.out + IL.Tabs(ctx.il.indentLvl)
              + CallLine(IL.TempName(ctx.il.tempID + 1), ToILType(FuncSig(ctx, e.children[0].name).value.ret).value,
                         e.children[0].name, run.1.value)
    decreases e, 1, 0
  {
    var name := e.children[0].name;
    match FuncSig(ctx, name)
    case None => Generated(ctx, Err(NotAFunction(name)))
    case Some(sig) =>
      if |e.children| != |sig.args| + 1 then Generated(ctx, Err(ArityMismatch(name)))
      else
        var (b, target) := IL.TempVar(ctx.il, false);
        var (after, args) := GenArgs(Ctx(b, ctx.topLevels), e, sig.args, 1);
        if args.Err? then Generated(after, Err(args.error))
        else
          match ToILType(sig.ret)
          case Err(err) => Generated(after, Err(err))
          case Ok(retTyp) =>
            var b' := IL.Call(after.il, target, retTyp, IL.Var(true, name), args.value);
            CallText(after.il, ctx.il.tempID + 1, retTyp, name, args.value);
            Generated(Ctx(b', ctx.topLevels), Ok(target))
  }

  /** The line a call writes into the local temporary `t`: the result type, the global
      callee and the typed arguments between parentheses, separated by commas. */
  function CallLine(t: string, ret: IL.ILType, name: string, args: seq<IL.TypedValue>): string {
    "%" + t + " =" + IL.TypeIL(ret) + " call $" + name + " (" + IL.JoinComma(IL.TypedValuesIL(args)) + ")\n"
  }

  lemma CallText(b: IL.Builder, n: int, ret: IL.ILType, name: string, args: seq<IL.TypedValue>)
    requires b.indentLvl >= 0
    ensures IL.Call(b, IL.Var(false, IL.TempName(n)), ret, IL.Var(true, name), args).out
      == b.out + IL.Tabs(b.indentLvl) + CallLine(IL.TempName(n), ret, name, args)
  {
    var target := IL.ValueIL(IL.Var(false, IL.TempName(n)));
    var callee := IL.ValueIL(IL.Var(true, name));
    var tail := " (" + IL.JoinComma(IL.TypedValuesIL(args)) + ")\n";
    assert target == "%" + IL.TempName(n) && callee == "$" + name;
    CallLineText(IL.TempName(n), IL.TypeIL(ret), name, IL.JoinComma(IL.TypedValuesIL(args)));
  }

  lemma CallLineText(t: string, ty: string, name: string, joined: string)
    ensures ("%" + t) + " =" + ty + " call " + ("$" + name) + " (" + joined + ")\n"
      == "%" + t + " =" + ty + " call $" + name + " (" + joined + ")\n"
  {
    assert " call " + "$" == " call $";
  }

  /** `vs` are the arguments the children from `i` on generate, in order: each value is
      what `gen` gives for its child on the context the children before it leave, and
      `after` is the context the last one leaves. */
  predicate ArgValues(ctx: Ctx, e: Ast.Expr, i: nat, vs: seq<IL.TypedValue>, after: Ctx)
    requires e.Form?
    decreases e, 0, |e.children| - i, 0
  {
    if |vs| == 0 then after == ctx
    else
      && i < |e.children| && ctx.il.indentLvl >= 0
      && GenExpr(ctx, e.children[i]).val == Ok(vs[0].value)
      && ArgValues(GenExpr(ctx, e.children[i]).ctx, e, i + 1, vs[1..], after)
  }

  /** The arguments of a call from child `i` on, each typed by parameter `i - 1` of the
      signature before it is generated. */
  function GenArgs(ctx: Ctx, e: Ast.Expr, params: seq<Type>, i: nat): (r: (Ctx, Result<seq<IL.TypedValue>, GenError>))
    requires e.Form? && ctx.il.indentLvl >= 0
    requires 1 <= i <= |e.children| && |e.children| == |params| + 1
    ensures Keeps(ctx, r.0, r.1.Ok?)
    ensures r.1.Ok? ==> |r.1.value| == |e.children| - i
    ensures r.1.Ok? ==> forall k :: 0 <= k < |r.1.value| ==> ToILType(params[i - 1 + k]) == Ok(r.1.value[k].typ)
    ensures r.1.Ok? ==> ArgValues(ctx, e, i, r.1.value, r.0)
    decreases e, 0, |e.children| - i
  {
    if i == |e.children| then (ctx, Ok([]))
    else
      match ToILType(params[i - 1])
      case Err(err) => (ctx, Err(err))
      case Ok(t) =>
        var g := GenExpr(ctx, e.children[i]);
        if g.val.Err? then (g.ctx, Err(g.val.error))
        else
          var (after, rest) := GenArgs(g.ctx, e, params, i + 1);
          KeepsTrans(ctx, g.ctx, after, true, rest.Ok?);
          if rest.Err? then (after, rest)
          else
            ArgTypesCons(params, i, t, g.val.value, rest.value);
            assert ([IL.TypedValue(t, g.val.value)] + rest.value)[1..] == rest.value;
            (after, Ok([IL.TypedValue(t, g.val.value)] + rest.value))
  }

  /** Typing one more argument in front of the typed rest. */
  lemma ArgTypesCons(params: seq<Type>, i: nat, t: IL.ILType, v: IL.Value, rest: seq<IL.TypedValue>)
    requires 1 <= i && i + |rest| <= |params|
    requires ToILType(params[i - 1]) == Ok(t)
    requires forall k :: 0 <= k < |rest| ==> ToILType(params[i + k]) == Ok(rest[k].typ)
    ensures forall k :: 0 <= k < |rest| + 1 ==> ToILType(params[i - 1 + k]) == Ok(([IL.TypedValue(t, v)] + rest)[k].typ)
  {
    forall k | 0 <= k < |rest| + 1
      ensures ToILType(params[i - 1 + k]) == Ok(([IL.TypedValue(t, v)] + rest)[k].typ)
    {
      if k > 0 {
        assert ([IL.TypedValue(t, v)] + rest)[k] == rest[k - 1];
      }
    }
  }

  /** A call of a binary long function on two integer constants writes one line: the
      call into the next temporary, both arguments typed `l`, in order. */
  lemma CallOfConstants(c: Ctx, f: string, m: int, n: int)
    requires c.il.indentLvl >= 0 && f != "+"
    requires f in c.topLevels && c.topLevels[f] == Func([Int, Int], Int)
    ensures var g := GenExpr(c, Ast.Form([Ast.Symbol(f), Ast.IntLiteral(m), Ast.IntLiteral(n)]));
      && g.val == Ok(IL.Var(false, IL.TempName(c.il.tempID + 1)))
      && g.ctx.il.out == c.il.out + IL.Tabs(c.il.indentLvl)
           + ("%" + IL.TempName(c.il.tempID + 1) + " =l call $" + f
              + " (l " + Decimal.IntToString(m) + ", l " + Decimal.IntToString(n) + ")\n")
  {
    var e := Ast.Form([Ast.Symbol(f), Ast.IntLiteral(m), Ast.IntLiteral(n)]);
    CallDispatch(c, e);
    var start := Ctx(IL.TempVar(c.il, false).0, c.topLevels);
    ConstantArgs(start, e, [Int, Int], m, n);
    var args := [IL.TypedValue(IL.Base(IL.Long), IL.IntLit(m)), IL.TypedValue(IL.Base(IL.Long), IL.IntLit(n))];
    CallConstantsOut(c, e, f, args);
    CallOfConstantsLine(IL.TempName(c.il.tempID + 1), f, m, n, args);
  }

  /** A form headed by a symbol other than `+` is a call of a top-level function. */
  lemma CallDispatch(c: Ctx, e: Ast.Expr)
    requires c.il.indentLvl >= 0 && e.Form? && |e.children| > 0
    requires e.children[0].Symbol? && e.children[0].name != "+"
    ensures GenExpr(c, e) == GenFuncCall(c, e)
  {
    assert GenExpr(c, e) == GenCall(c, e);
  }

  lemma CallConstantsOut(c: Ctx, e: Ast.Expr, f: string, args: seq<IL.TypedValue>)
    requires c.il.indentLvl >= 0 && e.Form? && |e.children| == 3 && e.children[0] == Ast.Symbol(f)
    requires f in c.topLevels && c.topLevels[f] == Func([Int, Int], Int)
    requires GenArgs(Ctx(IL.TempVar(c.il, false).0, c.topLevels), e, [Int, Int], 1)
      == (Ctx(IL.TempVar(c.il, false).0, c.topLevels), Ok(args))
    ensures GenFuncCall(c, e).val == Ok(IL.Var(false, IL.TempName(c.il.tempID + 1)))
    ensures GenFuncCall(c, e).ctx.il.out
      == c.il.out + IL.Tabs(c.il.indentLvl) + CallLine(IL.TempName(c.il.tempID + 1), IL.Base(IL.Long), f, args)
  {
    assert FuncSig(c, f) == Some(Func([Int, Int], Int));
    assert ToILType(Int) == Ok(IL.Base(IL.Long));
  }

  lemma ConstantArgs(start: Ctx, e: Ast.Expr, params: seq<Type>, m: int, n: int)
    requires start.il.indentLvl >= 0 && params == [Int, Int]
    requires e.Form? && |e.children| == 3 && e.children[1] == Ast.IntLiteral(m) && e.children[2] == Ast.IntLiteral(n)
    ensures GenArgs(start, e, params, 1)
      == (start, Ok([IL.TypedValue(IL.Base(IL.Long), IL.IntLit(m)), IL.TypedValue(IL.Base(IL.Long), IL.IntLit(n))]))
  {
    var tm := IL.TypedValue(IL.Base(IL.Long), IL.IntLit(m));
    var tn := IL.TypedValue(IL.Base(IL.Long), IL.IntLit(n));
    assert GenExpr(start, e.children[2]) == Generated(start, Ok(IL.IntLit(n)));
    assert GenArgs(start, e, params, 3) == (start, Ok([]));
    assert [tn] + [] == [tn];
    assert GenArgs(start, e, params, 2) == (start, Ok([tn]));
    assert GenExpr(start, e.children[1]) == Generated(start, Ok(IL.IntLit(m)));
    assert [tm] + [tn] == [tm, tn];
  }

  lemma CallOfConstantsLine(t: string, f: string, m: int, n: int, args: seq<IL.TypedValue>)
    requires args == [IL.TypedValue(IL.Base(IL.Long), IL.IntLit(m)), IL.TypedValue(IL.Base(IL.Long), IL.IntLit(n))]
    ensures CallLine(t, IL.Base(IL.Long), f, args)
      == "%" + t + " =l call $" + f + " (l " + Decimal.IntToString(m) + ", l " + Decimal.IntToString(n) + ")\n"
  {
    var texts := IL.TypedValuesIL(args);
    var sm := Decimal.IntToString(m);
    var sn := Decimal.IntToString(n);
    assert IL.TypeIL(IL.Base(IL.Long)) == "l";
    assert texts[0] == "l" + " " + sm && texts[1] == "l" + " " + sn;
    assert "l" + " " == "l ";
    assert texts[1..] == ["l " + sn];
    assert IL.JoinComma(texts) == "l " + sm + ", " + ("l " + sn);
    CallConstantsRegroup(t, f, sm, sn);
  }

  lemma CallConstantsRegroup(t: string, f: string, sm: string, sn: string)
    ensures "%" + t + " =" + "l" + " call $" + f + " (" + ("l " + sm + ", " + ("l " + sn)) + ")\n"
      == "%" + t + " =l call $" + f + " (l " + sm + ", l " + sn + ")\n"
  {
    assert " =" + "l" + " call $" == " =l call $";
    assert " (" + "l " == " (l ";
    assert ", " + "l " == ", l ";
  }

  /** `Gen`: generates every top-level expression in order into one buffer and returns
      the text. */
  function Gen(topLevels: map<string, Type>, program: seq<Ast.Expr>): (r: Result<string, GenError>)
  {
    var (ctx, err) := GenAll(Ctx(IL.Builder("", 0, 0), topLevels), program);
    if err.Some? then Err(err.value) else Ok(ctx.il.out)
  }

  function GenAll(ctx: Ctx, program: seq<Ast.Expr>): (r: (Ctx, Option<GenError>))
    requires ctx.il.indentLvl >= 0
    ensures Keeps(ctx, r.0, r.1.None?)
    decreases |program|
  {
    if |program| == 0 then (ctx, None)
    else
      var g := GenExpr(ctx, program[0]);
      if g.val.Err? then (g.ctx, Some(g.val.error))
      else
        var rest := GenAll(g.ctx, program[1..]);
        KeepsTrans(ctx, g.ctx, rest.0, true, rest.1.None?);
        rest
  }

  // ---------------------------------------------------------------------------
  // Examples

  /** `(def foo [x y] (+ x (+ y 1)))` with `foo : (Int, Int) -> Int`, for any names with
      `x` and `y` not top levels: the inner sum is computed first into `_tmp_1`, the outer
      one into `_tmp_2`, which is returned. */
  lemma GenSumExample(topLevels: map<string, Type>, program: seq<Ast.Expr>, foo: string, x: string, y: string)
    requires foo != "main" && x != foo && y != foo
    requires topLevels == map[foo := Func([Int, Int], Int)]
    requires program == [Ast.FuncDef(foo, [x, y],
      [Ast.Form([Ast.Symbol("+"), Ast.Symbol(x), Ast.Form([Ast.Symbol("+"), Ast.Symbol(y), Ast.IntLiteral(1)])])])]
    ensures Gen(topLevels, program) ==
      Ok(("function l $" + foo + "(l %" + x + ", l %" + y + ") {\n") + "@start\n"
        + ("\t%_tmp_1 =l add %" + y + ", 1\n") + ("\t%_tmp_2 =l add %" + x + ", %_tmp_1\n")
        + "\tret %_tmp_2\n" + "}\n")
  {
    var e := program[0];
    var ctx := Ctx(IL.Builder("", 0, 0), topLevels);
    var params := [IL.TypedVar(IL.Base(IL.Long), IL.Var(false, x)), IL.TypedVar(IL.Base(IL.Long), IL.Var(false, y))];
    var closed := SumFunc(topLevels, e, foo, x, y, ctx, params);
    assert GenExpr(ctx, e) == Generated(closed, Ok(IL.Var(true, foo)));
    assert GenAll(ctx, program) == GenAll(closed, []);
  }

  /** `genFunc` on the definition of `foo`: its signature converts, and the body is
      written between the header and the closing brace. */
  lemma SumFunc(topLevels: map<string, Type>, e: Ast.Expr, foo: string, x: string, y: string,
                ctx: Ctx, params: seq<IL.TypedVar>) returns (closed: Ctx)
    requires foo != "main" && x != foo && y != foo
    requires topLevels == map[foo := Func([Int, Int], Int)]
    requires e == Ast.FuncDef(foo, [x, y],
      [Ast.Form([Ast.Symbol("+"), Ast.Symbol(x), Ast.Form([Ast.Symbol("+"), Ast.Symbol(y), Ast.IntLiteral(1)])])])
    requires ctx == Ctx(IL.Builder("", 0, 0), topLevels)
    requires params == [IL.TypedVar(IL.Base(IL.Long), IL.Var(false, x)), IL.TypedVar(IL.Base(IL.Long), IL.Var(false, y))]
    ensures closed.il.out ==
      ("function l $" + foo + "(l %" + x + ", l %" + y + ") {\n") + "@start\n"
        + ("\t%_tmp_1 =l add %" + y + ", 1\n") + ("\t%_tmp_2 =l add %" + x + ", %_tmp_1\n")
        + "\tret %_tmp_2\n" + "}\n"
    ensures GenFunc(ctx, e) == Generated(closed, Ok(IL.Var(true, foo)))
  {
    assert FuncSig(ctx, foo) == Some(Func([Int, Int], Int));
    SumTypeParams(params, x, y);
    assert ToILType(Int) == Ok(IL.Base(IL.Long));
    assert GenFunc(ctx, e) == GenFuncBody(ctx, e, params, IL.Base(IL.Long));
    closed := SumFuncBody(e, foo, x, y, ctx, params);
  }

  lemma SumFuncBody(e: Ast.Expr, foo: string, x: string, y: string, ctx: Ctx, params: seq<IL.TypedVar>)
    returns (closed: Ctx)
    requires foo != "main" && x != foo && y != foo
    requires ctx.il == IL.Builder("", 0, 0) && x !in ctx.topLevels && y !in ctx.topLevels
    requires e == Ast.FuncDef(foo, [x, y],
      [Ast.Form([Ast.Symbol("+"), Ast.Symbol(x), Ast.Form([Ast.Symbol("+"), Ast.Symbol(y), Ast.IntLiteral(1)])])])
    requires params == [IL.TypedVar(IL.Base(IL.Long), IL.Var(false, x)), IL.TypedVar(IL.Base(IL.Long), IL.Var(false, y))]
    ensures closed.il.out ==
      ("function l $" + foo + "(l %" + x + ", l %" + y + ") {\n") + "@start\n"
        + ("\t%_tmp_1 =l add %" + y + ", 1\n") + ("\t%_tmp_2 =l add %" + x + ", %_tmp_1\n")
        + "\tret %_tmp_2\n" + "}\n"
    ensures GenFuncBody(ctx, e, params, IL.Base(IL.Long)) == Generated(closed, Ok(IL.Var(true, foo)))
  {
    var header := "function l $" + foo + "(l %" + x + ", l %" + y + ") {\n";
    var inner := SumOpen(ctx, foo, params, header, x, y);
    assert GenEffects(inner, e, 0) == (inner, None);
    var afterBody := SumBody(inner, e.bodies[0], x, y);
    var out := SumClose(ctx, afterBody);
    closed := Close(ctx, afterBody, IL.Var(false, "_tmp_2"));
  }

  lemma SumTypeParams(params: seq<IL.TypedVar>, x: string, y: string)
    requires params == [IL.TypedVar(IL.Base(IL.Long), IL.Var(false, x)), IL.TypedVar(IL.Base(IL.Long), IL.Var(false, y))]
    ensures TypeParams([Int, Int], [x, y]) == Ok(params)
  {
    var ints: seq<Type> := [Int, Int];
    var names: seq<string> := [x, y];
    assert ints[1..] == [Int] && names[1..] == [y];
    assert [Int][1..] == [] && [y][1..] == [];
    assert TypeParams([], []) == Ok([]);
    assert TypeParams([Int], [y]) == Ok([params[1]] + []);
    assert [params[1]] + [] == [params[1]];
    assert [params[0]] + [params[1]] == params;
  }

  /** The header and `@start` of `foo`, at depth zero with nothing written before. */
  lemma SumOpen(ctx: Ctx, foo: string, params: seq<IL.TypedVar>, header: string, x: string, y: string) returns (inner: Ctx)
    requires ctx.il == IL.Builder("", 0, 0) && foo != "main"
    requires params == [IL.TypedVar(IL.Base(IL.Long), IL.Var(false, x)), IL.TypedVar(IL.Base(IL.Long), IL.Var(false, y))]
    requires header == "function l $" + foo + "(l %" + x + ", l %" + y + ") {\n"
    ensures IL.LinkageString(FuncLinkage(foo)).Some?
    ensures inner == Ctx(IL.Builder(header + "@start\n", 1, 0), ctx.topLevels)
    ensures Open(ctx, FuncLinkage(foo), IL.Base(IL.Long), foo, params) == inner
  {
    IL.NoLinkage("", "");
    assert FuncLinkage(foo) == IL.Linkage(0, "", "");
    SumHeader(params, foo, x, y);
    assert IL.Tabs(0) == "";
    var b := IL.Func(ctx.il, FuncLinkage(foo), Some(IL.Base(IL.Long)), IL.ValueIL(IL.Var(true, foo)), params);
    assert b.out == "" + "" + header + "" + "@start\n";
    assert "" + "" + header + "" + "@start\n" == header + "@start\n";
    inner := Ctx(IL.Builder(header + "@start\n", 1, 0), ctx.topLevels);
    assert b == inner.il;
  }

  lemma SumHeader(params: seq<IL.TypedVar>, foo: string, x: string, y: string)
    requires params == [IL.TypedVar(IL.Base(IL.Long), IL.Var(false, x)), IL.TypedVar(IL.Base(IL.Long), IL.Var(false, y))]
    ensures IL.FuncHeader("", Some(IL.Base(IL.Long)), IL.ValueIL(IL.Var(true, foo)), params)
      == "function l $" + foo + "(l %" + x + ", l %" + y + ") {\n"
  {
    var joined := IL.JoinComma(IL.ArgsIL(params));
    SumParams(params, x, y);
    HeaderParts(foo, params, joined);
    HeaderText(foo, x, y, joined);
  }

  lemma HeaderParts(foo: string, params: seq<IL.TypedVar>, joined: string)
    requires joined == IL.JoinComma(IL.ArgsIL(params))
    ensures IL.FuncHeader("", Some(IL.Base(IL.Long)), IL.ValueIL(IL.Var(true, foo)), params)
      == "" + "function " + ("l" + " ") + ("$" + foo) + "(" + joined + ") {\n"
  {
    assert IL.TypeIL(IL.Base(IL.Long)) == "l";
    assert IL.ValueIL(IL.Var(true, foo)) == "$" + foo;
  }

  lemma HeaderText(foo: string, x: string, y: string, joined: string)
    requires joined == "l %" + x + ", l %" + y
    ensures "" + "function " + ("l" + " ") + ("$" + foo) + "(" + joined + ") {\n"
      == "function l $" + foo + "(l %" + x + ", l %" + y + ") {\n"
  {
  }

  lemma SumParams(params: seq<IL.TypedVar>, x: string, y: string)
    requires params == [IL.TypedVar(IL.Base(IL.Long), IL.Var(false, x)), IL.TypedVar(IL.Base(IL.Long), IL.Var(false, y))]
    ensures IL.JoinComma(IL.ArgsIL(params)) == "l %" + x + ", l %" + y
  {
    var strs := IL.ArgsIL(params);
    assert IL.TypeIL(IL.Base(IL.Long)) == "l";
    assert strs[0] == "l" + " " + ("%" + x) && strs[1] == "l" + " " + ("%" + y);
    assert strs[1..] == [strs[1]];
    assert IL.JoinComma(strs) == strs[0] + ", " + strs[1];
  }

  /** The body `(+ x (+ y 1))` at depth one, starting from temporary 0. */
  lemma SumBody(inner: Ctx, body: Ast.Expr, x: string, y: string) returns (after: Ctx)
    requires inner.il.indentLvl == 1 && inner.il.tempID == 0 && x !in inner.topLevels && y !in inner.topLevels
    requires body == Ast.Form([Ast.Symbol("+"), Ast.Symbol(x), Ast.Form([Ast.Symbol("+"), Ast.Symbol(y), Ast.IntLiteral(1)])])
    ensures after == Ctx(IL.Builder(inner.il.out + ("\t%_tmp_1 =l add %" + y + ", 1\n") + ("\t%_tmp_2 =l add %" + x + ", %_tmp_1\n"), 1, 2), inner.topLevels)
    ensures GenExpr(inner, body) == Generated(after, Ok(IL.Var(false, "_tmp_2")))
  {
    var mid := InnerSum(inner, body.children[2], y);
    PlusStep(inner, body, Ast.Symbol(x), body.children[2],
      Generated(inner, Ok(IL.Var(false, x))), Generated(mid, Ok(IL.Var(false, "_tmp_1"))));
    after := OuterEmit(mid, x);
  }

  /** The nested `(+ y 1)`: the first temporary. */
  lemma InnerSum(inner: Ctx, nested: Ast.Expr, y: string) returns (mid: Ctx)
    requires inner.il.indentLvl == 1 && inner.il.tempID == 0 && y !in inner.topLevels
    requires nested == Ast.Form([Ast.Symbol("+"), Ast.Symbol(y), Ast.IntLiteral(1)])
    ensures mid == Ctx(IL.Builder(inner.il.out + ("\t%_tmp_1 =l add %" + y + ", 1\n"), 1, 1), inner.topLevels)
    ensures GenExpr(inner, nested) == Generated(mid, Ok(IL.Var(false, "_tmp_1")))
  {
    PlusStep(inner, nested, Ast.Symbol(y), Ast.IntLiteral(1),
      Generated(inner, Ok(IL.Var(false, y))), Generated(inner, Ok(IL.IntLit(1))));
    mid := InnerEmit(inner, y);
  }

  /** A `+` of two operands that generate is the `add` line after both. */
  lemma PlusStep(c: Ctx, e: Ast.Expr, a: Ast.Expr, b: Ast.Expr, left: Generated, right: Generated)
    requires c.il.indentLvl >= 0 && e == Ast.Form([Ast.Symbol("+"), a, b])
    requires GenExpr(c, a) == left && left.val.Ok?
    requires left.ctx.il.indentLvl >= 0 && GenExpr(left.ctx, b) == right && right.val.Ok?
    ensures right.ctx.il.indentLvl >= 0
    ensures GenExpr(c, e) == PlusEmit(right.ctx, left.val.value, right.val.value)
  {
    assert e.children[1] == a && e.children[2] == b;
    assert GenCall(c, e) == GenPlus(c, e);
  }

  /** `_tmp_1 = y + 1`, written at depth one. */
  lemma InnerEmit(c: Ctx, y: string) returns (mid: Ctx)
    requires c.il.indentLvl == 1 && c.il.tempID == 0
    ensures mid == Ctx(IL.Builder(c.il.out + ("\t%_tmp_1 =l add %" + y + ", 1\n"), 1, 1), c.topLevels)
    ensures PlusEmit(c, IL.Var(false, y), IL.IntLit(1)) == Generated(mid, Ok(IL.Var(false, "_tmp_1")))
  {
    var emitted := PlusEmit(c, IL.Var(false, y), IL.IntLit(1));
    assert Decimal.NatToString(1) == [Decimal.DigitChar(1)];
    assert IL.TempName(1) == "_tmp_1";
    assert Decimal.IntToString(1) == "1";
    assert IL.Tabs(1) == "\t";
    assert IL.ValueIL(IL.Var(false, y)) == "%" + y;
    var line := "%" + "_tmp_1" + " =l add " + ("%" + y) + ", " + "1" + "\n";
    assert emitted.ctx.il.out == c.il.out + "\t" + line;
    InnerLine(y);
    IL.Assoc(c.il.out, "\t", line);
    mid := emitted.ctx;
  }

  /** `_tmp_2 = x + _tmp_1`, written at depth one. */
  lemma OuterEmit(c: Ctx, x: string) returns (after: Ctx)
    requires c.il.indentLvl == 1 && c.il.tempID == 1
    ensures after == Ctx(IL.Builder(c.il.out + ("\t%_tmp_2 =l add %" + x + ", %_tmp_1\n"), 1, 2), c.topLevels)
    ensures PlusEmit(c, IL.Var(false, x), IL.Var(false, "_tmp_1")) == Generated(after, Ok(IL.Var(false, "_tmp_2")))
  {
    var emitted := PlusEmit(c, IL.Var(false, x), IL.Var(false, "_tmp_1"));
    assert IL.TempName(2) == "_tmp_2" by { assert Decimal.NatToString(2) == [Decimal.DigitChar(2)]; }
    assert IL.Tabs(1) == "\t";
    assert IL.ValueIL(IL.Var(false, x)) == "%" + x && IL.ValueIL(IL.Var(false, "_tmp_1")) == "%" + "_tmp_1";
    var line := "%" + "_tmp_2" + " =l add " + ("%" + x) + ", " + ("%" + "_tmp_1") + "\n";
    assert emitted.ctx.il.out == c.il.out + "\t" + line;
    OuterLine(x);
    IL.Assoc(c.il.out, "\t", line);
    after := emitted.ctx;
  }

  lemma InnerLine(y: string)
    ensures "\t" + ("%" + "_tmp_1" + " =l add " + ("%" + y) + ", " + "1" + "\n") == "\t%_tmp_1 =l add %" + y + ", 1\n"
  {
  }

  lemma OuterLine(x: string)
    ensures "\t" + ("%" + "_tmp_2" + " =l add " + ("%" + x) + ", " + ("%" + "_tmp_1") + "\n") == "\t%_tmp_2 =l add %" + x + ", %_tmp_1\n"
  {
  }

  lemma RetLine()
    ensures "\t" + ("ret " + ("%" + "_tmp_2") + "\n") == "\tret %_tmp_2\n"
  {
  }

  /** `ret` and the closing brace after the body. */
  lemma SumClose(ctx: Ctx, afterBody: Ctx) returns (out: string)
    requires ctx.il.indentLvl == 0 && afterBody.il.indentLvl == 1 && Keeps(ctx, afterBody, false)
    ensures out == afterBody.il.out + "\tret %_tmp_2\n" + "}\n"
    ensures Close(ctx, afterBody, IL.Var(false, "_tmp_2")).il.out == out
  {
    assert IL.ValueIL(IL.Var(false, "_tmp_2")) == "%" + "_tmp_2";
    assert IL.Tabs(1) == "\t" && IL.Tabs(0) == "";
    var ret := IL.Ret(afterBody.il, IL.Var(false, "_tmp_2"));
    assert ret.out == afterBody.il.out + "\t" + ("ret " + ("%" + "_tmp_2") + "\n");
    RetLine();
    IL.Assoc(afterBody.il.out, "\t", "ret " + ("%" + "_tmp_2") + "\n");
    assert IL.EndFunc(ret).out == ret.out + "" + "}\n";
    out := afterBody.il.out + "\tret %_tmp_2\n" + "}\n";
  }

}
