# typee in Dafny

A model of the front end and code generator of *typee*, a small Lisp-like language with
Hindley–Milner style type inference. The repository holds two implementations; this
project models the core of both:

- **Go, types** (`src/types/types.go`): the `Type` variants, `Eq`, `Clone`, `NewGeneric`,
  `String`, `StructuralEq` / `ListStructuralEq` and the `PrettyCtx` printer. Modules
  `Types`, `StructuralEquality` and `PrettyNames`.
- **Go, solver front half** (`src/solve/`): the scope stack, the builtin types, constraint
  generation for every node kind, `generalize` / `instantiate`, and unification as the
  doc comment of `constraints.go` describes it. Modules `SolveScope`, `SolveBuiltins`,
  `SolveConstraints` and `Unification`.
- **Go, front end** (`src/combinator/`, `src/lex/lex.go`, `src/parse/`): the parser
  combinators, the lexer, the parser and the AST pretty-printer. Modules `Combinator`,
  `GoLex`, `GoParse` and `GoAst`.
- **Go, QBE back end** (`src/genqbe/`): the IL builder (`qbeil`) and the generator
  (`gen.go`). Modules `QbeIL` and `GenQbe`.
- **Rust** (`src/lex.rs`, `src/parse.rs`, `src/eval/`): the nom lexer and parser and the
  evaluator skeleton. Modules `RustLex`, `RustParse`, `RustScope` and `RustEval`.

Shared pieces are `Wrappers` (`Option` / `Result`), `Decimal` (decimal spelling of integers,
as Go's `%d` and Rust's `{}` write them) and the small datatype modules `GoErrors`,
`RustAst` and `RustObject`.

Everything is a pure function over immutable values. The Go code threads mutable state
through pointers: the constraint list, the scope stack, the global generic counter, the
builder's output buffer and temporary counter. The model passes that state in and hands
it back. A Go `panic` or failed `assert` becomes an error value or a precondition. Where a
precondition excludes input that ordinary programs reach, "Left out" names it. Parsers return a `Reply` that keeps the remaining input
on failure too, because the Go combinators pass it on.

Where the Go tree is mid-refactor, the model follows the code that is there:

- `parse.go` builds `FuncDef.Args` from pairs of symbol names, while `ast.go`, the solver
  and the generator treat each argument as one name. The model keeps the first name of
  each pair.
- The token kinds `LBracket`, `RBracket`, `StrLiteral`, `TrueLiteral`, `FalseLiteral` and
  `If`, used by `lex.go`, are part of the token datatype.
- `unify` and `substituteAllToType` are not part of this model's sources. Unification is
  modelled from the algorithm in the doc comment of `constraints.go`. A function type of
  several arguments is decomposed curried, which is what the solver test at
  `src/solve/unify_test.go:225-235` expects.
- `scope.go` looks names up in a `builtins` map that the solver sources do not define. The
  model takes it to be the table of `builtinsType` in `src/solve/builtins.go:9-26`
  (`SolveScope.Find`, `SolveScope.DefSymbol`).
- `src/genqbe/gen.go:98,107` call `ctx.il.TempVar()` without an argument, while `src/genqbe/qbeil/il.go:137` declares
  `TempVar(global bool)`. The model takes function-local temporaries
  (`IL.TempVar(…, false)` in `GenQbe.PlusEmit` and `GenQbe.GenFuncCall`), which is what the
  generator test expects.
- `src/genqbe/gen.go:109` calls `fun.ZipMap`, but `src/fun/util.go` defines only `Map`. The model takes
  `ZipMap` to apply the closure to the arguments and the signature's parameter types pairwise,
  in order, and so each argument's IL type is worked out before its code is generated
  (`GenQbe.GenArgs`).
- `src/parse/parse.go:98` builds `Form{children: …}` and `parse.go:162` builds `Set{rvalue: …}`, while
  `src/parse/ast.go:21` and `:42` name those fields `Children` and `Value`. The model takes each
  pair to be one field: `GoAst.Form.children` and `GoAst.Set.rvalue`.
- The code generates QBE IL. The gccjit back end (`src/backend/mod.rs`) is all `todo!()`,
  so it is not modelled.

## Model

| member | source | states |
|---|---|---|
| Types.Eq | src/types/types.go:57-107 | A base type equals exactly the same base type, and a generic exactly a generic with the same ID whatever its name; a true result always relates two types of the same variant. |
| Types.EqReflexive | src/types/types.go:57-107 | `Eq(t, t)` holds and is free of panics for every well-formed, scheme-free type whose functions are unary. |
| Types.FuncEqIgnoresExtraArgs | src/types/types.go:92-100 | `Func.Eq` looks only at the other function's first argument, so `a -> r` equals `a, x -> r`. |
| Types.Clone | src/types/types.go:277-307 | A clone is the same value with the same generic IDs; cloning demands unary functions, as the Go assertion does. |
| Types.CloneIsEq | src/types/types.go:277-307 | A clone is `Eq` to its original in both directions. |
| Types.NewGeneric | src/types/types.go:161-170 | The counter is bumped first and the new generic takes the bumped value; name and comment are kept. |
| Types.NewGenericFresh | src/types/types.go:161-170 | A fresh generic differs from every generic issued before it, and the next one is strictly larger. |
| Types.UnnamedGenericStringInjective | src/types/types.go:144-149 | Unnamed generics (`t<ID>`) print alike exactly when their IDs are equal. |
| Types.TypeString | src/types/types.go:109-159 | Base types print their names, an empty record `{}`, a record in braces, a function in parentheses, a generic as `Generic.String`. |
| StructuralEquality.SEqIsFold | src/types/types.go:206-275 | The recursive walk succeeds exactly when the shapes match and folding the generic-pairing step over the pairs met succeeds; it then leaves the same context. |
| StructuralEquality.StepPairBijective | src/types/types.go:224-241 | The generic case accepts a pair exactly when the pairing stays one-to-one, and records it in both maps. |
| StructuralEquality.FoldBijective | src/types/types.go:224-241 | Folding the generic step over a list of pairs succeeds exactly when the whole pairing is one-to-one. |
| StructuralEquality.StructuralEqIff | src/types/types.go:174-177 | `StructuralEq` holds exactly when the types have the same shape and the generic IDs at matching positions pair up one-to-one. |
| StructuralEquality.ListStructuralEqIff | src/types/types.go:183-199 | The list version needs equal lengths and one one-to-one pairing shared by all positions. |
| StructuralEquality.StructuralEqReflexive | src/types/types.go:206-275 | Every well-formed, scheme-free type is structurally equal to itself. |
| StructuralEquality.GenericsAlwaysMatch | src/types/types_test.go:46-51 | Two generics are structurally equal whatever their IDs. |
| StructuralEquality.ListSharesRenaming | src/types/types.go:179-199 | `['a, 'a]` is not structurally equal to `['b, 'c]`, because the renaming is shared. |
| StructuralEquality.ListLengthMismatch | src/types/types.go:183-186 | Lists of different lengths are never structurally equal. |
| StructuralEquality.NestedDifferentStructure | src/types/types_test.go:58-63 | A generic argument never matches `Bool`, even when the results are both generics. |
| PrettyNames.Get | src/types/types.go:323-331 | The name of `id` is recorded; a name already given is returned unchanged; no other name changes and only `id` is added. |
| PrettyNames.NextNameUnused | src/types/types.go:323-331 | The next name `t<counter+1>` differs from every name already handed out. |
| PrettyNames.GetInv | src/types/types.go:323-331 | `get` keeps the invariant that the names given are `t1` to `t<counter>`, one per ID. |
| PrettyNames.PrettyInv | src/types/types.go:333-375 | Printing a type keeps the naming invariant. |
| PrettyNames.DistinctGenericsDistinctNames | src/types/types.go:333-375 | Printing from a fresh context never gives two generics the same name. |
| PrettyNames.FirstSeenNaming | src/types/types.go:333-375 | From a fresh context, the k-th distinct generic met while printing is named `t<k+1>`. |
| PrettyNames.PrettyGround | src/types/types.go:333-375 | A type without generics prints as `Type.String` does and leaves the context unchanged. |
| PrettyNames.PrettyRespectsStructuralEq | src/types/types.go:333-375 | Types that are structurally equal, with no records, print the same from fresh contexts. |
| PrettyNames.PrettyExample | src/types/types.go:333-375 | `'x -> ('y -> 'x)` prints as `(t1 -> (t2 -> t1))` whatever the IDs. |
| SolveScope.Find | src/solve/scope.go:37-51 | Builtins come first; otherwise the binding in the innermost table that has the name. |
| SolveScope.FindFound | src/solve/scope.go:37-51 | `Find` succeeds exactly for the four operators and for names bound in some table. |
| SolveScope.AddScope | src/solve/scope.go:53 | One more empty innermost table, with the old ones beneath. |
| SolveScope.Pop | src/solve/scope.go:55-62 | The innermost table is removed and returned. |
| SolveScope.PopAddScope | src/solve/scope.go:53-62 | Pushing and popping gives back the stack and an empty table. |
| SolveScope.DefSymbol | src/solve/scope.go:64-83 | A builtin or a name bound in any table is an error that leaves the stack unchanged; otherwise only the innermost table changes, and it gains the binding. |
| SolveScope.DefThenFind | src/solve/scope.go:64-83 | After a successful definition, `Find` returns the new binding. |
| SolveScope.DefLeavesOthers | src/solve/scope.go:64-83 | A definition changes what no other name resolves to. |
| SolveScope.NoShadowing | src/solve/scope.go:71-78 | A name visible from an outer table cannot be defined again in a new inner one. |
| SolveBuiltins.BuiltinsType | src/solve/builtins.go:9-26 | Exactly `+ - * /` have a type, and it is `Int, Int -> Int`. |
| SolveBuiltins.BuiltinShape | src/solve/builtins.go:9-26 | No builtin type is a scheme, and none has single-argument functions only, so `Clone` rejects them. |
| SolveBuiltins.LiteralType | src/solve/builtins.go:28-39 | Boolean, integer and string literals have `Bool`, `Int` and `String`; other nodes have no literal type. |
| Unification.Apply | src/solve/constraints.go:175-181 | Substitution replaces the variable by its ID, leaves base types and other variables alone, and goes into function types argument by argument. |
| Unification.ApplyC | src/solve/constraints.go:175-181 | Substituting into a constraint list substitutes into both sides of each constraint and keeps the length. |
| Unification.ApplyAllCompose | src/solve/constraints.go:183-191 | Sequential composition: `t (S1; S2) = (t S1) S2`. |
| Unification.ApplyNoOccur | src/solve/constraints.go:175-181 | A substitution for a variable that does not occur in `t` leaves `t` unchanged. |
| Unification.ApplyIds | src/solve/constraints.go:175-181 | After `{new / 'x}`, `'x` occurs only if `new` brings it, and no other variable appears. |
| Unification.EliminationShrinks | src/solve/constraints.go:224-242 | Eliminating a variable leaves strictly fewer variables in the rest, which is why unification ends. |
| Unification.Unify | src/solve/constraints.go:224-242 | An empty list unifies with no substitutions; a variable that does not occur on the other side is eliminated first. |
| Unification.EliminationSound | src/solve/constraints.go:224-242 | Eliminating `'x := t`, then applying a unifier of the substituted rest, unifies the whole list. |
| Unification.SplitSound | src/solve/constraints.go:224-242 | A unifier of the list with a function constraint split into argument and result also unifies the original. |
| Unification.UnifySound | src/solve/constraints.go:224-242 | When unification succeeds, its substitutions make both sides of every constraint equal. |
| Unification.UnifyCallExample | src/solve/unify_test.go:225-235 | The constraints of `(def foo [x] ((+ x) 2))` give `t1 := Int`, `t2 := Int -> Int`, `t3 := Int`, and these unify them. |
| SolveConstraints.Instantiate | src/solve/generalize.go:54-77 | Unknown names are errors. A plain type is returned as is. A scheme's variables are replaced by fresh generics issued in order, and the counter advances by their number. |
| SolveConstraints.Infer | src/solve/constraints.go:304-345 | Every step only appends constraints and raises the counter. The scopes below are untouched. Each `def` leaves one scope. Reported generics are new. |
| SolveConstraints.InferLeaves | src/solve/constraints.go:304-345 | Literals have their builtin type, an unknown symbol is an error, a bound plain symbol has its type; none changes the state. |
| SolveConstraints.InferIf | src/solve/constraints.go:347-375 | The `if` step keeps the inference invariant. |
| SolveConstraints.IfShape | src/solve/constraints.go:347-375 | The generic `t` is made first; condition, consequence and alternative are inferred in turn and the first failure is the node's. On success exactly `condType = Bool`, `t = consType` and `t = altType` are appended to the alternative's constraints, with the children's types, and the node's type is `t`. |
| SolveConstraints.IfSolved | src/solve/constraints.go:366-371 | Any substitution unifying a successful `if`'s constraints makes the condition `Bool` and both branches equal to the node's type. |
| SolveConstraints.InferCall | src/solve/constraints.go:415-441 | The call step keeps the inference invariant. |
| SolveConstraints.CallShape | src/solve/constraints.go:415-441 | The callee, then the argument, are inferred; the first failure is the node's. On success a new generic `f` is made, exactly `calleeType = Func([argType], f)` is appended, and `f` is the node's type and the last generic reported. |
| SolveConstraints.CallSolved | src/solve/constraints.go:432-438 | Any substitution unifying a successful call's constraints turns the callee's type into a one-argument function from the argument's type to the node's type. |
| SolveConstraints.InferFunc | src/solve/constraints.go:377-395 | A definition keeps the inference invariant and leaves its pushed scope on the stack. |
| SolveConstraints.FuncShape | src/solve/constraints.go:377-395 | The argument's generic `a` is made first and bound in a pushed scope; the body is inferred there and the scope stays. A failing body is the node's failure; otherwise the type is `a -> bodyType`, and `a` follows the body's generics. |
| SolveConstraints.InferFn | src/solve/constraints.go:397-413 | An anonymous function keeps the inference invariant and pops its scope on every path. |
| SolveConstraints.FnShape | src/solve/constraints.go:397-413 | The same for an anonymous function, whose type is `a -> bodyType`; the pushed scope is popped after the body on every path. |
| SolveConstraints.InferLet | src/solve/constraints.go:443-458 | A `let` keeps the inference invariant. A failing generalisation of the value is the node's error. Otherwise the result is the body's, inferred with the name bound to the scheme in a new scope and the copied constraints appended after the outer ones. |
| SolveConstraints.Generalize | src/solve/generalize.go:23-50 | The outer constraints are untouched. The value is inferred against a fresh list, and that list is copied and unified. The scheme quantifies the reported generics over the solved type. |
| SolveConstraints.GeneralizeSound | src/solve/generalize.go:23-50 | A successful generalisation holds a substitution that solves the value's constraints. |
| SolveConstraints.InitConstraints | src/solve/constraints.go:289-298 | Inference from an empty table and constraint list keeps the inference invariant. |
| SolveConstraints.IfLiteralExample | src/solve/unify_test.go:33-37 | `(if [true] 1 2)` constrains its generic to `Int` twice, and the solution makes it `Int`. |
| SolveConstraints.DefIfExample | src/solve/unify_test.go:211-223 | `(def foo [x] (if [x] 0 1))` has type `t1 -> t2` with `t1 := Bool`, the `if` generic `:= Int`, and solves to `Bool -> Int`. |
| SolveConstraints.LetIdentityExample | src/solve/unify_test.go:80-84 | `(let [id (fn [x] x)] (id true))`, the inner use from the test, infers, leaves no scope, and solves to `Bool`. |
| Combinator.Many0From | src/combinator/lib.go:7-22 | `Many0` never fails. Its outputs are a run of successes of `p`, and it stops where `p` fails or would not consume. |
| Combinator.Many0Maximal | src/combinator/lib.go:7-22 | For a consuming parser, `Many0` stops exactly where `p` first fails. |
| Combinator.Many0Unique | src/combinator/lib.go:7-22 | Conversely, any maximal run of a consuming parser is what `Many0` returns. |
| Combinator.ManyFrom | src/combinator/lib.go:24-45 | A first failure is returned with the failing parser's rest; otherwise at least one output, the first being `p`'s. |
| Combinator.ManyIsMany0 | src/combinator/lib.go:24-45 | `Many` fails exactly when the first application fails, and is `Many0` otherwise. |
| Combinator.AnyFrom | src/combinator/lib.go:47-62 | The reply of the first alternative that succeeds, else `ErrNoMatch` at the original input. |
| Combinator.AnyFirstSuccess | src/combinator/lib.go:47-62 | When alternative k succeeds and all before it fail, `Any` is alternative k. |
| Combinator.AnyAllFail | src/combinator/lib.go:47-62 | When all alternatives fail, `Any` reports `ErrNoMatch` at the original input. |
| Combinator.AnyConsuming | src/combinator/lib.go:47-62 | Alternatives that all consume give a consuming `Any`. |
| Combinator.WithSuffixSpec | src/combinator/lib.go:64-74 | Succeeds exactly when main and then suffix do, keeping main's output; main's failure is passed through. |
| Combinator.WithSuffixConsuming | src/combinator/lib.go:64-74 | A consuming main with a suffix that never lengthens the input is consuming. |
| Combinator.SurroundSpec | src/combinator/lib.go:76-96 | Every failure reports the original input; success needs all three parts and returns main's output. |
| Combinator.ThenSpec | src/combinator/lib.go:103-113 | A first failure becomes `ErrNoMatch`; the second's error is passed on; success pairs both outputs. |
| Combinator.SeperatedBySpec | src/combinator/lib.go:115-130 | A failure of left or separator becomes `ErrNoMatch`; success needs all three parts. |
| Combinator.SeperatedByTrivialSep | src/combinator/lib.go:115-130 | Separating by a parser that always succeeds without consuming is `Then`. |
| Combinator.DelimitedFrom | src/combinator/lib.go:132-153 | Never fails. No item gives an empty list at the input. Otherwise the outputs are those of items read one after another with a successful separator between each two. The list ends right after the last item, or after one trailing separator that no item follows. |
| Combinator.DelimitedUnique | src/combinator/lib.go:132-153 | Conversely, for a consuming item parser and a separator that never adds input, every such separated run that stops where the loop stops is exactly what `Delimited` returns. |
| Combinator.DelimitedTrailingSep | src/combinator/lib.go:132-153 | A trailing separator is consumed. |
| Combinator.MaybeSpec | src/combinator/lib.go:155-163 | Never fails; a failure becomes `None` at the unchanged input. |
| Combinator.MatchOne | src/combinator/slice.go:7-13 | Succeeds exactly when the first element equals the item, consuming it; otherwise `ErrNoMatch`. |
| GoLex.LexLParen | src/lex/lex.go:36 | Succeeds exactly on a leading `(`, consuming it. |
| GoLex.LexRParen | src/lex/lex.go:37 | Succeeds exactly on a leading `)`, consuming it. |
| GoLex.LexLBracket | src/lex/lex.go:38 | Succeeds exactly on a leading `[`, consuming it. |
| GoLex.LexRBracket | src/lex/lex.go:39 | Succeeds exactly on a leading `]`, consuming it. |
| GoLex.DoubleQuote | src/lex/lex.go:40-42 | Succeeds exactly on a leading `"`, consuming it. |
| GoLex.NotDoubleQuote | src/lex/lex.go:58-67 | Succeeds exactly when a `"` follows. It takes the `"`-free text before it and leaves the `"`; without one, it fails with the input dropped. |
| GoLex.QuotedShape | src/lex/lex.go:44-56 | The surrounded parser accepts exactly `"…"` with a closing quote and returns the text between. |
| GoLex.LexStrLiteral | src/lex/lex.go:44-56 | A string literal is a `"`, `"`-free content and a `"`, with no escapes; an unterminated one fails. |
| GoLex.LexIntLiteral | src/lex/lex.go:69-88 | Succeeds exactly on a leading digit and reads the maximal digit run as a decimal number. |
| GoLex.SymbolStr | src/lex/lex.go:112-138 | The maximal non-empty prefix free of `()[]{}:` and white space. A first character in Unicode category N (`unicode.IsNumber`, Unicode 15.0 tables) is an error. |
| GoLex.NonLatinNumberStarts | src/lex/lex.go:112-115 | Numbers beyond Latin-1 are numbers too: an Arabic-Indic digit one or a Roman numeral one cannot start a symbol, and a source starting with one is a lexing error. |
| GoLex.KeywordOrSymbol | src/lex/lex.go:90-110 | A symbol name, turned into the keyword token when it spells `def`, `set`, `true`, `false` or `if`. |
| GoLex.SkipWhitespace | src/lex/lex.go:140-149 | Never fails, and drops exactly the leading white space. |
| GoLex.TokenParserConsuming | src/lex/lex.go:14-26 | Every token with its trailing white space consumes input. |
| GoLex.LexString | src/lex/lex.go:14-26 | An error exactly when no token lexes after the leading white space; otherwise at least one token. |
| GoLex.LexStringMaximal | src/lex/lex.go:14-26 | The tokens returned are the maximal run of tokens after the leading white space; the rest is dropped. |
| GoLex.LexBlank | src/lex/lex.go:14-26 | Empty and all-white-space sources are errors. |
| GoLex.SpellingLexes | src/lex/lex.go:14-26 | Each lexable token's spelling, followed by anything that delimits it, is lexed back as that token. |
| GoLex.LexRenderRoundTrip | src/lex/lex.go:14-26 | Lexing the space-separated spelling of any non-empty list of lexable tokens gives back the list. |
| GoLex.LexParenthesisedFoo | src/lex/lex_test.go:18-25 | `(foo)` lexes to `(`, `foo`, `)`. |
| GoParse.WrapIfErr | src/parse/parse.go:256-268 | No error stays no error. An error is wrapped with its position: the end, all tokens when at most ten, else the first ten. |
| GoParse.TokenAt | src/parse/parse.go:224-230 | The token at the index when it is in range, none otherwise. |
| GoParse.MatchKind | src/parse/parse.go:211-221 | Succeeds exactly on a token of the kind. A failure drops the input and wraps the position twice. |
| GoParse.SymbolName | src/parse/parse.go:180-190 | Succeeds exactly on a leading symbol token and returns its name. |
| GoParse.SymbolExpr | src/parse/parse.go:168-178 | Succeeds exactly on a leading symbol token and returns a `Symbol` node. |
| GoParse.StrLiteralExpr | src/parse/parse.go:41-51 | Succeeds exactly on a leading string token and returns a `StrLiteral` node. |
| GoParse.IntLiteralExpr | src/parse/parse.go:53-63 | Succeeds exactly on a leading integer token and returns an `IntLiteral` node. |
| GoParse.FuncArg | src/parse/parse.go:136-143 | Succeeds exactly on two symbol tokens and returns both names. |
| GoParse.FuncArgsReads | src/parse/parse.go:128-134 | `[`, any number of name pairs and `]` are read back as those pairs. |
| GoParse.ParseExprIsAny | src/parse/parse.go:32-39 | `expr` is `Any(formLike, symbol, strLiteral, intLiteral)`. |
| GoParse.FormLike | src/parse/parse.go:65-89 | Every success consumes tokens. |
| GoParse.ParenFormIsSurround | src/parse/parse.go:91-99 | `form` is `Surround(lparen, Many(expr), rparen)` with the children in a `Form`. |
| GoParse.DefFormLeavesClose | src/parse/parse.go:101-126 | `(def name [pairs] body…` reads back as the definition, and the closing `)` is left unread. |
| GoParse.SetFormLeavesClose | src/parse/parse.go:145-166 | `(set name value` reads back as the assignment, and the closing `)` is left unread. |
| GoParse.SetProgramDropsClose | src/parse/parse.go:145-166 | So a whole `(set …)` program yields the assignment and leaves its `)` unconsumed. |
| GoParse.ManyExprIsMany | src/parse/parse.go:17-19 | The program loop is `Many(expr)`. |
| GoParse.Many0ExprIsMany0 | src/combinator/lib.go:7-22 | The loop after the first expression is `Many0(expr)`. |
| GoParse.ProgramMaximal | src/parse/parse.go:17-19 | A program is the maximal run of expressions from the start; later tokens are dropped. |
| GoParse.ProgramFails | src/parse/parse.go:17-19 | A program fails exactly when its first expression does. |
| GoParse.ReadBack | src/parse/parse.go:32-39 | Every readable tree is parsed back from its tokens, whatever follows. |
| GoParse.ParseString | src/parse/parse.go:21-30 | A lexer error is joined behind `LexError`. Otherwise parsing fails exactly when the first token begins no expression, and a success holds at least one expression. |
| GoParse.ParseRenderRoundTrip | src/parse/parse.go:21-30 | The space-separated text of a readable tree's tokens parses back to exactly that tree. |
| GoParse.PrettyAtomReparses | src/parse/ast.go:160-176 | A symbol, string or non-negative integer is printed so that it parses back to itself. |
| GoAst.Pretty | src/parse/ast.go:159-216 | Each node prints in its own exact layout (`GoAst.Printed`). A symbol prints its name, an integer a decimal spelling that reads back as the value, a boolean `true`/`false`, a string its content between quotes. A form is `([` + space-joined children + `])`. A definition is `(def name [[args]] [bodies])`, with args and printed bodies space-joined. `set` is `(set name value)`, `if` is `(if [c] a b)` and `fn` is `(fn [arg] body)`. A `let` is `(let [`, then `var value ` for each binding, then `]`, the body and `)`. A record is `{}` when empty, otherwise `{n1:v1, n2:v2, …}`. |
| GoAst.PrettyAssignments | src/parse/ast.go:179-192 | The loop over a `let`'s bindings writes exactly the binding texts `var value `, one after another. |
| GoAst.PrettyFields | src/parse/ast.go:196-216 | The record loop writes the first field, then `, ` before each further one: the `name:value` texts joined by `, `. |
| GoAst.PrettyAll | src/parse/ast.go:150-157 | One printed string per node, in order. |
| GoAst.PrettyBalanced | src/parse/ast.go:159-216 | The printed form of a tree whose names and strings hold no parentheses is balanced. |
| QbeIL.CodeIL | src/genqbe/qbeil/type.go:32-45 | The four base codes spell one letter each; any other code is the unreachable panic. |
| QbeIL.BaseILInjective | src/genqbe/qbeil/type.go:32-45 | Distinct base types are spelled differently. |
| QbeIL.TypeIL | src/genqbe/qbeil/type.go:46-48 | A base type is its letter; an aggregate is `:` and its name. |
| QbeIL.AlignPart | src/genqbe/qbeil/type.go:50-78 | The `align n` part appears exactly when the alignment is non-zero. |
| QbeIL.DefineMentionsName | src/genqbe/qbeil/type.go:50-78 | A declaration names the aggregate after `type ` and ends with its closing brace. |
| QbeIL.VarRoundTrip | src/genqbe/qbeil/value.go:22-28 | A variable's spelling reads back as that variable: the sigil gives the scope, the rest the name. |
| QbeIL.VarILInjective | src/genqbe/qbeil/value.go:22-28 | Two variables with the same spelling are the same. |
| QbeIL.IntLitRoundTrip | src/genqbe/qbeil/value.go:30-32 | A constant's spelling reads back as its value. |
| QbeIL.FlagValues | src/genqbe/qbeil/linkage.go:13-17 | The flags are 2, 3 and 5, so `Export` and `Thread`, and `Thread` and `Section`, share bits. |
| QbeIL.LinkageString | src/genqbe/qbeil/linkage.go:19-38 | A section flag is the panic; otherwise `export` and `thread` are written when their bits are set. |
| QbeIL.NoLinkage | src/genqbe/qbeil/linkage.go:19-38 | No flags write nothing. |
| QbeIL.ExportAlsoThread | src/genqbe/qbeil/linkage.go:13-38 | Asking for `Export` alone also writes `thread`. |
| QbeIL.Indented | src/genqbe/qbeil/il.go:35-47 | The buffer only grows: the old text, then as many tabs as the depth, then the line; depth and counter are kept. |
| QbeIL.Func | src/genqbe/qbeil/il.go:49-89 | The header and `@start` at the current depth, then one level deeper. |
| QbeIL.EndFunc | src/genqbe/qbeil/il.go:91-94 | One level shallower, then the closing brace at that depth. |
| QbeIL.FuncEndFuncBalanced | src/genqbe/qbeil/il.go:49-94 | A `Func` … `EndFunc` pair restores the depth. |
| QbeIL.LabelReadsBack | src/genqbe/qbeil/il.go:96-98 | A label line reads back as `@` and the label's name. |
| QbeIL.RetReadsBack | src/genqbe/qbeil/il.go:100-102 | The operand of a `ret` line reads back as the returned variable. |
| QbeIL.ArithmeticReadsBack | src/genqbe/qbeil/il.go:103-113 | An arithmetic line read word by word gives back the target variable, `=` with the type, the operation, and the operands split at `, `. |
| QbeIL.CallReadsBack | src/genqbe/qbeil/il.go:122-135 | A call line read word by word gives back the target, `=` with the type, `call`, the callee, and each argument's type and value. |
| QbeIL.SplitJoinComma | src/genqbe/qbeil/il.go:103-135 | A `, `-joined list of comma-free operands splits back into the operands. |
| QbeIL.TempNamesDistinct | src/genqbe/qbeil/il.go:137-140 | Temporaries with different numbers have different names. |
| QbeIL.TempVarFresh | src/genqbe/qbeil/il.go:137-140 | Two successive temporaries are different variables. |
| GenQbe.ToILType | src/genqbe/gen.go:143-152 | `Int` is a long, `Bool` a word, and every other type is the unsupported-type panic. |
| GenQbe.GenExpr | src/genqbe/gen.go:30-49 | Output only grows, and on success the depth is back where it was. Constants and symbols write nothing, and a symbol is global exactly when it is a top level. Nodes other than these, definitions and forms are errors. |
| GenQbe.TypeParams | src/genqbe/gen.go:58-65 | Parameters convert exactly when every signature type has an IL type, and then each is a local named after its argument. |
| GenQbe.FuncLinkage | src/genqbe/gen.go:67-72 | `main` is exported, which writes `export thread`; every other function has no linkage and writes none. |
| GenQbe.GenFunc | src/genqbe/gen.go:51-85 | A name without a function signature is an error. On success the value is the function's global name and the counts agree with the signature. The text written starts with the header: `export thread` and return type `w` for `main`, otherwise no linkage and the IL type of the result, then `$name` and the typed parameters, and `@start`. It ends with `ret` of the last body expression's value and the closing brace. |
| GenQbe.GenCall | src/genqbe/gen.go:87-121 | An empty form or a non-symbol callee is an error; `+` is built in; any other name is a call. |
| GenQbe.GenPlus | src/genqbe/gen.go:93-101 | `+` needs exactly two operands; its value is the latest temporary. |
| GenQbe.PlusEmit | src/genqbe/gen.go:98-99 | One long `add` of the operands into the next temporary, at the current depth. |
| GenQbe.GenFuncCall | src/genqbe/gen.go:102-116 | The callee must be a top-level function with matching arity. The target temporary is taken before the arguments are generated. On success the text is what the arguments wrote, then one line at the current depth: `%<target> =<result type> call $<name> (<type> <value>, …)`, with the arguments in order. The value is the target. |
| GenQbe.GenArgs | src/genqbe/gen.go:109-111 | Each argument is typed by the corresponding parameter of the signature. Its value is what `gen` gives for the matching child, on the context the earlier arguments leave, and the context returned is the one the last argument leaves (`GenQbe.ArgValues`). |
| GenQbe.CallOfConstants | src/genqbe/gen.go:102-116 | `(f m n)` with `f : Int, Int -> Int` writes exactly `%_tmp_<next> =l call $f (l m, l n)` at the current depth, and its value is that temporary. |
| GenQbe.GenAll | src/genqbe/gen.go:20-28 | Output only grows, the top-level table is untouched, and a run without error ends at the depth it started at. |
| GenQbe.GenSumExample | src/genqbe/gen_test.go:18-28 | The tree of `(def foo [x y] (+ x (+ y 1)))`, built by hand with the two argument names `x` and `y` and given the test's signature, generates exactly the expected QBE function text. It does not start from the source text: the model's parser keeps only the first name of `[x y]`. |
| RustLex.SkipIgnored | src/lex.rs:29-43 | Whitespace and `;` comments are skipped; what is left starts with neither. |
| RustLex.CommentToNewline | src/lex.rs:29-43 | A comment runs to the next newline and no further. |
| RustLex.CommentToEnd | src/lex.rs:29-43 | A comment without a newline runs to the end of the input. |
| RustLex.LexNumber | src/lex.rs:45-50 | A number has an optional sign and digits, and fits an `i32`. |
| RustLex.LexNumberText | src/lex.rs:45-50 | The decimal spelling of any `i32`, followed by a non-digit, reads back as that number. |
| RustLex.LexSymbol | src/lex.rs:52-63 | Succeeds exactly on a symbol character; takes the longest run of them. |
| RustLex.LexToken | src/lex.rs:20-27 | `(` and `)` first, then a number, then a symbol; a `"` or the end lexes nothing. |
| RustLex.Lex | src/lex.rs:16-27 | The empty source is no tokens, and a non-empty source of only whitespace and comments is an error. An error carries the non-empty rest of the source that was not lexed. |
| RustLex.QuoteRejected | src/lex.rs:16-63 | A `"` anywhere outside comment text makes the whole source an error. Comment text is what the lexer's own scan reads as a comment (`RustLex.Commented`): from a `;` where ignorables may stand, up to the next newline or the end. A `;` inside a symbol starts no comment. |
| RustLex.QuoteSurvives | src/lex.rs:16-27 | The input left by the token run still holds such a quote, so it is not empty. |
| RustLex.QuoteAfterSemicolons | src/lex.rs:16-63 | `a;b "`, where the `;` is part of a symbol, and `;c`, newline, `"`, where the comment ends at the newline, are both errors. |
| RustLex.LexRender | src/lex.rs:16-27 | Lexing the space-separated text of well-formed tokens gives back those tokens. |
| RustLex.NumberThenCloses | src/lex.rs:69-86 | As in the lexer test, an integer followed by `))` lexes to the integer and two `)`. |
| RustParse.One | src/parse.rs:69-76 | Takes the first token; the end of input is an error. |
| RustParse.LParenTok | src/parse.rs:35-41 | Succeeds exactly on `(`; a wrong token is reported after it. |
| RustParse.RParenTok | src/parse.rs:43-49 | Succeeds exactly on `)`; a wrong token is reported after it. |
| RustParse.ParseSymbol | src/parse.rs:51-58 | Succeeds exactly on a symbol token and keeps its text. |
| RustParse.ParseIntLiteral | src/parse.rs:60-67 | Succeeds exactly on an integer token and keeps its value. |
| RustParse.ParseList | src/parse.rs:28-33 | A list consumes at least its two parentheses. |
| RustParse.ManyNeverFails | src/parse.rs:16-18 | Every expression parser consumes, so `many0` always succeeds. |
| RustParse.ParseFlatten | src/parse.rs:20-33 | Every expression is parsed back from its tokens, whatever follows. |
| RustParse.ExprTokens | src/parse.rs:20-33 | A parsed expression is exactly the tokens it was read from. |
| RustParse.ExprFails | src/parse.rs:20-49 | An expression fails only at the end, at `)`, or at a `(` whose list is not closed. |
| RustParse.ParseTokensSplit | src/parse.rs:16-18 | A program stops at the end, at `)` or at an unclosed `(`; what it read is exactly the tokens before. |
| RustParse.ParsesWhole | src/parse.rs:16-18 | All tokens are consumed exactly when they are the tokens of some program. |
| RustParse.ParseTokensFlatten | src/parse.rs:16-18 | A program's tokens parse back to the program. |
| RustParse.ReadBack | src/parse.rs:16-18 | A well-formed program written as text lexes and parses back to itself. |
| RustParse.ParseTestTokens | src/parse.rs:92-110 | The parser test's tokens parse to the expected list. |
| RustScope.New | src/eval/scope.rs:17-19 | One empty table; no name is bound. |
| RustScope.Find | src/eval/scope.rs:21-27 | Nothing when no table binds the name; otherwise the binding of the innermost table that does. |
| RustScope.Declare | src/eval/scope.rs:29-36 | Only the innermost table changes. The name then finds the value, and every other name finds what it found before. |
| RustScope.DeclareTwice | src/eval/scope.rs:29-36 | Declaring a name twice in one table keeps only the second value. |
| RustScope.AddScope | src/eval/scope.rs:38-40 | Pushes an empty table that hides nothing. |
| RustScope.Shadow | src/eval/scope.rs:21-40 | A declaration in a new inner table hides an outer binding and leaves the outer tables as they were. |
| RustEval.NewState | src/eval/mod.rs:14-18 | One empty table; no name is bound. |
| RustEval.EvalExpr | src/eval/mod.rs:37-43 | An integer is its value; a symbol is its binding or `UnboundVar`. |
| RustEval.EvalOk | src/eval/mod.rs:37-43 | An expression has a value exactly when it is an integer or a bound symbol. |
| RustEval.EvalList | src/eval/mod.rs:45-50 | A list form never has a value; an empty one is `EmptyListForm`. |
| RustEval.ListError | src/eval/mod.rs:45-50 | A list fails with the error of its innermost head. |
| RustEval.EvalAst | src/eval/mod.rs:28-35 | An empty program is `Nil`. Otherwise the first error stops evaluation; with none, the value is the last expression's. |
| RustEval.EvalProgram | src/eval/mod.rs:22-26 | A lexing error is the panic; otherwise the program has a value exactly when every parsed expression has one. |

## Left out

- Token positions (`LocatedSpan` in the Rust lexer) and node IDs in the Go AST are not modelled: no property depends on them.
- nom's `i32` parser is not part of this model's sources; `RustLex.LexNumber` follows its documented behaviour: an optional sign, then digits, and a value outside the `i32` range is no number. `RustLex.LexToken` then reads such text as a symbol.
- `eval_list` ends in a `match` with no arms on an `Object`, which is not empty, so Rust rejects it (error E0004) and the source does not compile as written. The model's own reading is the error `NoForm` for every evaluated head.
- `GoParse.ParseString`: on a lexer error `parseString` also prints the tokens with
  `fmt.Printf` (`src/parse/parse.go:24`); the output is left out and only the joined error is
  modelled.
- `eval_program`'s `println!` is left out; `RustEval.EvalProgram` returns the value it would print. `Rc` boxing and the garbage collector (`src/eval/gc/`) have no counterpart.
- `RustEval.EvalProgram` models only the lexing `expect`; the parsing `expect` can never fail.
- `RustScope.Declare` requires a non-empty stack, which is the `expect("bug: empty scope stack")` panic.
- Types.TypeString: fixes the text of base types, empty records and generics, but only the delimiters of functions and records; the record form depends on Go's map order.
- GoParse.FormLike: states only that a success consumes tokens; what each form reads back as is stated by `GoParse.ReadBack`, `GoParse.DefFormLeavesClose` and `GoParse.SetFormLeavesClose`.
- RustLex.NumberThenCloses: states the lexer test's pieces (an integer before `))`, and `(` and a symbol before the rest) rather than the one literal token list.
- RustParse.ParseTestTokens: starts from the test's tokens, not from its source text.
- The gccjit back end (`src/backend/mod.rs`), `src/main.rs`, the CLI (`src/cli/`) and `test.c` are not modelled: the back end is unimplemented and the rest is I/O.
- The superseded `src/solve/unify.go` and `src/solve/typeid.go`, the debug tracing of the solver, and `Constraint.String` are not modelled.
- Go's `Many0`/`Many`/`Delimited` loop forever when a parser succeeds without consuming. The model stops the loop there instead (`Combinator.Many0From`, `Combinator.DelimitedFrom`); every parser the lexer and parser build consumes, so this changes nothing for them.
- `strconv.Atoi` overflow in `intLiteral` is not modelled: integers are unbounded.
- Record types: Go walks a record's field map in an unspecified order. The model walks fields in sequence order, and `PrettyNames.PrettyRespectsStructuralEq` excludes records for that reason.
- `TypeScheme.Eq` and the scheme case of `structuralEq` panic in Go; the model excludes schemes from `Types.Eq` and `StructuralEquality.StructuralEq` by precondition.
- SolveConstraints.Infer: requires `Inferable`, which excludes the nodes `genConstraints` panics on (`src/solve/constraints.go:342`) and the shapes its assertions reject: calls other than one callee and one argument, `def` with other than one argument and one body expression, `let` with other than one binding (`src/solve/constraints.go:378-379`, `416`, `444`). Ordinary programs reach these panics: `(+ 1 2)` is a form of three children, and the generator test's `(def foo [x y] …)` has two arguments. The model has no error outcome for them.
- Types.Eq: requires `EqDefined`, which asks both the arguments and the results of two functions, and every field of two records, to be comparable. Go's `&&` and the record loop stop at the first difference, so Go does not panic on a part it never compares. Every function type the solver builds is unary, so these types meet both conditions.
- `Clone`'s single-argument assertion inside `generalize` and `instantiate` is modelled as the error `CloneFailed`.
- The error texts of the Go parser (`fmt` formatting of positions) are modelled as structured error values.
- `genLet` and `Builder.Command` are not modelled: `genLet` is an unconditional panic (the model's `UnsupportedExpr`), and `Command` is never called.
- `Builder.Call` with a nil target is not modelled: the generator always passes a target.
- `ctx.finish` is not modelled: the generator never adds to `statics`, so it writes nothing.
- The `io.Writer` of `Gen` and the builder is a string buffer, and write errors are not modelled.
- `QbeIL.Label`, `QbeIL.Ret`, `QbeIL.Arithmetic`, `QbeIL.Call`, `QbeIL.TypedVarIL` and `QbeIL.TempVar` have contracts that give the exact text written; their properties are stated by the rows above (`Indented`, `LabelReadsBack`, `RetReadsBack`, `ArithmeticReadsBack`, `CallReadsBack`, `TempVarFresh`). The read-back lemmas assume names free of spaces and commas, as the lexer's symbols are.
- SolveConstraints.LetIdentityExample: states the inner use of the identity from the test's nested `let`, not the whole two-level expression.
- The process-wide generic counter of `NewGeneric` is a parameter threaded through the solver.
- `genForFunc` never pops the scope it pushes, and `defForm`/`setForm` never consume their closing `)`. The model keeps both behaviours as written (`SolveConstraints.InferFunc`, `GoParse.DefFormLeavesClose`, `GoParse.SetProgramDropsClose`).
- The linkage flags are `1 << iota + 1`, that is 2, 3 and 5, so `Export` also prints `thread`. The model keeps the values as written (`QbeIL.FlagValues`, `QbeIL.ExportAlsoThread`).
