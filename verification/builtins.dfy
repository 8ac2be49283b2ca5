/** The solver's built-in names and literal types (src/solve/builtins.go). */
module SolveBuiltins {
  import opened Wrappers
  import opened Types
  import Ast = GoAst

  /** The type of the four integer operators: two `Int`s to an `Int`. */
  const IntBinaryOp: Type := Func([Int, Int], Int)

  predicate IsOperator(name: string) {
    name == "+" || name == "-" || name == "*" || name == "/"
  }

  /** `builtinsType`: the four arithmetic operators have the binary integer type, every
      other name has none. */
  function BuiltinsType(name: string): (r: Option<Type>)
    ensures r.Some? <==> IsOperator(name)
    ensures r.Some? ==> r.value == Func([Int, Int], Int)
  {
    match name
    case "+" => Some(IntBinaryOp)
    case "-" => Some(IntBinaryOp)
    case "*" => Some(IntBinaryOp)
    case "/" => Some(IntBinaryOp)
    case _ => None
  }

  /** `literalType`: the type of a boolean, integer or string literal; none for any other
      node. */
  function LiteralType(e: Ast.Expr): (r: Option<Type>)
    ensures r.Some? <==> e.BoolLiteral? || e.IntLiteral? || e.StrLiteral?
    ensures e.BoolLiteral? ==> r == Some(Bool)
    ensures e.IntLiteral? ==> r == Some(Int)
    ensures e.StrLiteral? ==> r == Some(String)
  {
    if e.BoolLiteral? then Some(Bool)
    else if e.IntLiteral? then Some(Int)
    else if e.StrLiteral? then Some(String)
    else None
  }

  /** No built-in type is a scheme, and each is a function of two arguments, which is
      why `Clone` cannot copy one. */
  lemma BuiltinShape(name: string)
    requires BuiltinsType(name).Some?
    ensures !BuiltinsType(name).value.Scheme?
    ensures !SingleArgFuncs(BuiltinsType(name).value)
  {
  }
}
