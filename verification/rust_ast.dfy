/** The Rust front end's syntax tree (src/ast.rs): a program is a sequence of
    expressions, and an expression is a list, a symbol or an `i32` literal. */
module RustAst {

  datatype Expr = List(items: seq<Expr>) | Symbol(name: string) | IntLiteral(value: int)

  type Program = seq<Expr>
}
