/** The evaluator's values (src/eval/object.rs): an `i32`, nil, or a function object
    holding a program. The reference-counted box is modelled as the value it holds. */
module RustObject {
  import A = RustAst

  datatype Object = Int(value: int) | Nil | Func(body: A.Program)
}
