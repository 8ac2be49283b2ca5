/** The Go syntax tree (src/parse/ast.go) and its `Pretty` printer. Node identifiers are
    not modelled; `FuncDef`'s optional signature is not either. */
module GoAst {
  import Decimal

  datatype Expr =
    | Form(children: seq<Expr>)
    | Symbol(name: string)
    | Int(intValue: int)
    | FuncDef(name: string, args: seq<string>, bodies: seq<Expr>)
    | Set(name: string, rvalue: Expr)
    | IfExpr(condition: Expr, consequence: Expr, alternative: Expr)
    | StrLiteral(content: string)
    | IntLiteral(number: int)
    | BoolLiteral(truth: bool)
    | LetExpr(assignments: seq<Assignment>, body: Expr)
    | Fn(arg: string, body: Expr)
    | Record(fields: seq<RecordField>)

  datatype Assignment = Assignment(variable: string, value: Expr)

  datatype RecordField = RecordField(name: string, value: Expr)

  /** `strings.Join(xs, sep)`. With a space it is also what `%v` prints between the brackets
      of a `[]string`. */
  function Join(xs: seq<string>, sep: string): string {
    if |xs| == 0 then ""
    else if |xs| == 1 then xs[0]
    else xs[0] + sep + Join(xs[1..], sep)
  }

  /** The layout of each node's printed form, as the `Pretty` methods of ast.go write it. A
      `[]string` goes through `%v`, so the children of a form and the arguments and bodies of a
      definition are printed inside square brackets. An integer is any decimal spelling that
      reads back as its value. */
  predicate Printed(e: Expr, r: string)
    decreases e, 0
  {
    match e
    case Symbol(name) => r == name
    case Int(value) => Decimal.Signed(r) && Decimal.ParseInt(r) == value
    case IntLiteral(number) => Decimal.Signed(r) && Decimal.ParseInt(r) == number
    case BoolLiteral(truth) => (r == "true" <==> truth) && (r == "false" <==> !truth)
    case StrLiteral(content) => |r| == |content| + 2 && r[0] == r[|r| - 1] == '"' && r[1..|r| - 1] == content
    case Form(children) =>
      |r| >= 4 && r[..2] == "([" && r[|r| - 2..] == "])" && r[2..|r| - 2] == Join(PrettyAll(children), " ")
    case FuncDef(name, args, bodies) =>
      r == "(def " + name + " [[" + Join(args, " ") + "]] [" + Join(PrettyAll(bodies), " ") + "])"
    case Set(name, rvalue) => r == "(set " + name + " " + Pretty(rvalue) + ")"
    case IfExpr(c, a, b) => r == "(if [" + Pretty(c) + "] " + Pretty(a) + " " + Pretty(b) + ")"
    case LetExpr(assignments, body) => r == "(let [" + Join(BindingTexts(assignments), "") + "]" + Pretty(body) + ")"
    case Fn(arg, body) => r == "(fn [" + arg + "] " + Pretty(body) + ")"
    case Record(fields) =>
      && r == "{" + Join(FieldTexts(fields), ", ") + "}"
      && (|fields| == 0 ==> r == "{}")
  }

  /** `Expr.Pretty()`: the printed form of a node, laid out as `Printed` says. */
  function Pretty(e: Expr): (r: string)
    ensures Printed(e, r)
    decreases e, 1
  {
    match e
    case Form(children) =>
      var inner := Join(PrettyAll(children), " ");
      assert ("([" + inner + "])")[2..|inner| + 2] == inner;
      "([" + inner + "])"
    case Symbol(name) => name
    case Int(value) =>
      Decimal.IntToStringSigned(value);
      Decimal.IntToStringRoundTrip(value);
      Decimal.IntToString(value)
    case FuncDef(name, args, body) =>
      "(def " + name + " [[" + Join(args, " ") + "]] [" + Join(PrettyAll(body), " ") + "])"
    case Set(name, value) => "(set " + name + " " + Pretty(value) + ")"
    case IfExpr(c, a, b) => "(if [" + Pretty(c) + "] " + Pretty(a) + " " + Pretty(b) + ")"
    case StrLiteral(content) =>
      assert ("\"" + content + "\"")[1..|content| + 1] == content;
      "\"" + content + "\""
    case IntLiteral(number) =>
      Decimal.IntToStringSigned(number);
      Decimal.IntToStringRoundTrip(number);
      Decimal.IntToString(number)
    case BoolLiteral(value) => if value then "true" else "false"
    case LetExpr(assignments, body) => "(let [" + PrettyAssignments(assignments) + "]" + Pretty(body) + ")"
    case Fn(arg, body) => "(fn [" + arg + "] " + Pretty(body) + ")"
    case Record(fields) =>
      if |fields| == 0 then
        assert |FieldTexts(fields)| == 0;
        "{}"
      else "{" + PrettyFields(fields) + "}"
  }

  /** `prettySlice`: one printed string per node, in order. */
  function PrettyAll(es: seq<Expr>): (r: seq<string>)
    ensures |r| == |es|
    ensures forall i :: 0 <= i < |es| ==> r[i] == Pretty(es[i])
    decreases es, 0
  {
    if |es| == 0 then [] else [Pretty(es[0])] + PrettyAll(es[1..])
  }

  /** The bindings of a `let`, as the loop of `LetExpr.Pretty` writes them: the variable,
      a space, the value and a space, binding after binding. */
  function PrettyAssignments(assignments: seq<Assignment>): (r: string)
    ensures r == Join(BindingTexts(assignments), "")
    decreases assignments, 1
  {
    if |assignments| == 0 then ""
    else
      var rest := PrettyAssignments(assignments[1..]);
      assert BindingTexts(assignments)[1..] == BindingTexts(assignments[1..]);
      assignments[0].variable + " " + Pretty(assignments[0].value) + " " + rest
  }

  /** The text of each binding of a `let`, in order. */
  function BindingTexts(assignments: seq<Assignment>): (r: seq<string>)
    ensures |r| == |assignments|
    ensures forall i :: 0 <= i < |assignments| ==>
      r[i] == assignments[i].variable + " " + Pretty(assignments[i].value) + " "
    decreases assignments, 0
  {
    if |assignments| == 0 then []
    else [assignments[0].variable + " " + Pretty(assignments[0].value) + " "] + BindingTexts(assignments[1..])
  }

  /** The fields of a non-empty record, as the loop of `Record.Pretty` writes them: the
      first field, then ", " before each further one. */
  function PrettyFields(fields: seq<RecordField>): (r: string)
    requires |fields| > 0
    ensures r == Join(FieldTexts(fields), ", ")
    decreases fields, 1
  {
    var head := fields[0].name + ":" + Pretty(fields[0].value);
    if |fields| == 1 then head
    else
      assert FieldTexts(fields)[1..] == FieldTexts(fields[1..]);
      head + ", " + PrettyFields(fields[1..])
  }

  /** Each field of a record as `name:value`, in order. */
  function FieldTexts(fields: seq<RecordField>): (r: seq<string>)
    ensures |r| == |fields|
    ensures forall i :: 0 <= i < |fields| ==> r[i] == fields[i].name + ":" + Pretty(fields[i].value)
    decreases fields, 0
  {
    if |fields| == 0 then []
    else [fields[0].name + ":" + Pretty(fields[0].value)] + FieldTexts(fields[1..])
  }

  // ---------------------------------------------------------------------------
  // Parenthesis balance

  /** Opening minus closing parentheses in `s`. */
  function Net(s: string): int {
    if |s| == 0 then 0
    else (if s[0] == '(' then 1 else if s[0] == ')' then -1 else 0) + Net(s[1..])
  }

  lemma {:induction false} NetAppend(a: string, b: string)
    ensures Net(a + b) == Net(a) + Net(b)
    decreases |a|
  {
    if |a| > 0 {
      assert (a + b)[0] == a[0];
      assert (a + b)[1..] == a[1..] + b;
      NetAppend(a[1..], b);
    } else {
      assert a + b == b;
    }
  }

  /** A string without parentheses. */
  predicate NoParens(s: string) {
    forall i :: 0 <= i < |s| ==> s[i] != '(' && s[i] != ')'
  }

  lemma {:induction false} NetNoParens(s: string)
    requires NoParens(s)
    ensures Net(s) == 0
    decreases |s|
  {
    if |s| > 0 {
      NetNoParens(s[1..]);
    }
  }

  lemma {:induction false} NetJoin(xs: seq<string>)
    requires forall i :: 0 <= i < |xs| ==> Net(xs[i]) == 0
    ensures Net(Join(xs, " ")) == 0
    decreases |xs|
  {
    if |xs| > 1 {
      NetJoin(xs[1..]);
      NetAppend(xs[0] + " ", Join(xs[1..], " "));
      NetAppend(xs[0], " ");
    }
  }

  lemma NetDecimal(i: int)
    ensures Net(Decimal.IntToString(i)) == 0
  {
    var s := Decimal.IntToString(i);
    forall k | 0 <= k < |s| ensures s[k] != '(' && s[k] != ')' {
      if i < 0 {
        var d := Decimal.NatToString(-i);
        if k > 0 {
          assert s[k] == d[k - 1];
        }
      }
    }
    NetNoParens(s);
  }

  /** Every name, argument, variable and string content in the tree is free of parentheses. */
  predicate Plain(e: Expr)
    decreases e, 1
  {
    match e
    case Form(children) => PlainAll(children)
    case Symbol(name) => NoParens(name)
    case Int(_) => true
    case FuncDef(name, args, body) =>
      NoParens(name) && (forall i :: 0 <= i < |args| ==> NoParens(args[i])) && PlainAll(body)
    case Set(name, value) => NoParens(name) && Plain(value)
    case IfExpr(c, a, b) => Plain(c) && Plain(a) && Plain(b)
    case StrLiteral(content) => NoParens(content)
    case IntLiteral(_) => true
    case BoolLiteral(_) => true
    case LetExpr(assignments, body) => PlainAssignments(assignments) && Plain(body)
    case Fn(arg, body) => NoParens(arg) && Plain(body)
    case Record(fields) => PlainFields(fields)
  }

  predicate PlainAll(es: seq<Expr>)
    decreases es, 0
  {
    forall i :: 0 <= i < |es| ==> Plain(es[i])
  }

  predicate PlainAssignments(assignments: seq<Assignment>)
    decreases assignments
  {
    forall i :: 0 <= i < |assignments| ==> NoParens(assignments[i].variable) && Plain(assignments[i].value)
  }

  predicate PlainFields(fields: seq<RecordField>)
    decreases fields
  {
    forall i :: 0 <= i < |fields| ==> NoParens(fields[i].name) && Plain(fields[i].value)
  }

  /** The printed form of a tree whose names and strings hold no parentheses has as many
      closing as opening parentheses. */
  lemma {:induction false} PrettyBalanced(e: Expr)
    requires Plain(e)
    ensures Net(Pretty(e)) == 0
    decreases e, 2
  {
    match e
    case Form(children) =>
      PrettyAllBalanced(children);
      NetJoin(PrettyAll(children));
      NetAppend("([" + Join(PrettyAll(children), " "), "])");
      NetAppend("([", Join(PrettyAll(children), " "));
    case Symbol(name) => NetNoParens(name);
    case Int(value) => NetDecimal(value);
    case FuncDef(_, _, _) => FuncDefBalanced(e);
    case Set(_, _) => SetBalanced(e);
    case IfExpr(_, _, _) => IfBalanced(e);
    case StrLiteral(content) =>
      NetNoParens(content);
      NetAppend("\"" + content, "\"");
      NetAppend("\"", content);
    case IntLiteral(number) => NetDecimal(number);
    case BoolLiteral(_) => NetNoParens(Pretty(e));
    case LetExpr(_, _) => LetBalanced(e);
    case Fn(_, _) => FnBalanced(e);
    case Record(fields) =>
      if |fields| > 0 {
        PrettyFieldsBalanced(fields);
        NetAppend("{" + PrettyFields(fields), "}");
        NetAppend("{", PrettyFields(fields));
      } else {
        NetNoParens(Pretty(e));
      }
  }

  lemma {:induction false} FuncDefBalanced(e: Expr)
    requires e.FuncDef? && Plain(e)
    ensures Net(Pretty(e)) == 0
    decreases e, 1
  {
    var FuncDef(name, args, body) := e;
    forall i | 0 <= i < |args| ensures Net(args[i]) == 0 {
      NetNoParens(args[i]);
    }
    NetJoin(args);
    PrettyAllBalanced(body);
    NetJoin(PrettyAll(body));
    NetNoParens(name);
    var a := "(def " + name + " [[" + Join(args, " ") + "]] [";
    NetAppend(a + Join(PrettyAll(body), " "), "])");
    NetAppend(a, Join(PrettyAll(body), " "));
    FuncDefHead(name, Join(args, " "));
  }

  /** The text before a definition's body opens one parenthesis. */
  lemma FuncDefHead(name: string, joined: string)
    requires Net(name) == 0 && Net(joined) == 0
    ensures Net("(def " + name + " [[" + joined + "]] [") == 1
  {
    NetAppend("(def " + name + " [[" + joined, "]] [");
    NetAppend("(def " + name + " [[", joined);
    NetAppend("(def " + name, " [[");
    NetAppend("(def ", name);
  }

  lemma {:induction false} SetBalanced(e: Expr)
    requires e.Set? && Plain(e)
    ensures Net(Pretty(e)) == 0
    decreases e, 1
  {
    var Set(name, value) := e;
    PrettyBalanced(value);
    NetNoParens(name);
    NetAppend("(set " + name + " " + Pretty(value), ")");
    NetAppend("(set " + name + " ", Pretty(value));
    NetAppend("(set " + name, " ");
    NetAppend("(set ", name);
  }

  lemma {:induction false} IfBalanced(e: Expr)
    requires e.IfExpr? && Plain(e)
    ensures Net(Pretty(e)) == 0
    decreases e, 1
  {
    var IfExpr(c, a, b) := e;
    PrettyBalanced(c);
    PrettyBalanced(a);
    PrettyBalanced(b);
    IfText(Pretty(c), Pretty(a), Pretty(b));
  }

  /** The `if` layout around balanced parts is balanced. */
  lemma IfText(c: string, a: string, b: string)
    requires Net(c) == 0 && Net(a) == 0 && Net(b) == 0
    ensures Net("(if [" + c + "] " + a + " " + b + ")") == 0
  {
    var p := "(if [" + c + "] " + a + " ";
    NetAppend(p + b, ")");
    NetAppend(p, b);
    NetAppend("(if [" + c + "] " + a, " ");
    NetAppend("(if [" + c + "] ", a);
    NetAppend("(if [" + c, "] ");
    NetAppend("(if [", c);
  }

  lemma {:induction false} LetBalanced(e: Expr)
    requires e.LetExpr? && Plain(e)
    ensures Net(Pretty(e)) == 0
    decreases e, 1
  {
    var LetExpr(assignments, body) := e;
    PrettyAssignmentsBalanced(assignments);
    PrettyBalanced(body);
    var p := "(let [" + PrettyAssignments(assignments) + "]";
    NetAppend(p + Pretty(body), ")");
    NetAppend(p, Pretty(body));
    NetAppend("(let [" + PrettyAssignments(assignments), "]");
    NetAppend("(let [", PrettyAssignments(assignments));
  }

  lemma {:induction false} FnBalanced(e: Expr)
    requires e.Fn? && Plain(e)
    ensures Net(Pretty(e)) == 0
    decreases e, 1
  {
    var Fn(arg, body) := e;
    PrettyBalanced(body);
    NetNoParens(arg);
    NetAppend("(fn [" + arg + "] " + Pretty(body), ")");
    NetAppend("(fn [" + arg + "] ", Pretty(body));
    NetAppend("(fn [" + arg, "] ");
    NetAppend("(fn [", arg);
  }

  lemma {:induction false} PrettyAllBalanced(es: seq<Expr>)
    requires PlainAll(es)
    ensures forall i :: 0 <= i < |es| ==> Net(PrettyAll(es)[i]) == 0
    decreases es, 0
  {
    forall i | 0 <= i < |es| ensures Net(PrettyAll(es)[i]) == 0 {
      PrettyBalanced(es[i]);
    }
  }

  lemma {:induction false} PrettyAssignmentsBalanced(assignments: seq<Assignment>)
    requires PlainAssignments(assignments)
    ensures Net(PrettyAssignments(assignments)) == 0
    decreases assignments
  {
    if |assignments| > 0 {
      var a := assignments[0];
      PrettyBalanced(a.value);
      NetNoParens(a.variable);
      PrettyAssignmentsBalanced(assignments[1..]);
      var p := a.variable + " " + Pretty(a.value) + " ";
      NetAppend(p, PrettyAssignments(assignments[1..]));
      NetAppend(a.variable + " " + Pretty(a.value), " ");
      NetAppend(a.variable + " ", Pretty(a.value));
      NetAppend(a.variable, " ");
    }
  }

  lemma {:induction false} PrettyFieldsBalanced(fields: seq<RecordField>)
    requires |fields| > 0 && PlainFields(fields)
    ensures Net(PrettyFields(fields)) == 0
    decreases fields
  {
    var f := fields[0];
    PrettyBalanced(f.value);
    NetNoParens(f.name);
    var head := f.name + ":" + Pretty(f.value);
    NetAppend(f.name + ":", Pretty(f.value));
    NetAppend(f.name, ":");
    if |fields| > 1 {
      PrettyFieldsBalanced(fields[1..]);
      NetAppend(head + ", ", PrettyFields(fields[1..]));
      NetAppend(head, ", ");
    }
  }
}
