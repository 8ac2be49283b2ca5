/** The QBE intermediate-language writer (src/genqbe/qbeil): IL types, values, linkage
    flags, and the `Builder` that appends text to its buffer while it tracks the current
    indentation and the last temporary number handed out. The builder is a value here:
    each operation returns the builder after it has written. */
module QbeIL {
  import opened Wrappers
  import Decimal

  // ---------------------------------------------------------------------------
  // Types

  /** `BaseType`, an `int` whose four named values are numbered by `iota`. */
  datatype BaseType = Word | Long | Single | Double

  /** The integer a base type is in the Go code. */
  function Code(t: BaseType): (n: int)
    ensures 0 <= n < 4
  {
    match t
    case Word => 0
    case Long => 1
    case Single => 2
    case Double => 3
  }

  /** `BaseType.IL` on the underlying integer: the four codes spell `w`, `l`, `s`, `d`;
      any other value reaches the `unreachable` panic, here `None`. */
  function CodeIL(n: int): (r: Option<string>)
    ensures r.Some? <==> 0 <= n < 4
    ensures r.Some? ==> |r.value| == 1
  {
    if n == 0 then Some("w")
    else if n == 1 then Some("l")
    else if n == 2 then Some("s")
    else if n == 3 then Some("d")
    else None
  }

  function BaseIL(t: BaseType): (r: string)
    ensures CodeIL(Code(t)) == Some(r)
    ensures |r| == 1
  {
    CodeIL(Code(t)).value
  }

  /** Distinct base types are spelled differently, so a spelling names its type. */
  lemma BaseILInjective(a: BaseType, b: BaseType)
    requires BaseIL(a) == BaseIL(b)
    ensures a == b
  {
  }

  /** An IL type: a base type, or an aggregate `type :name = …` declared elsewhere. */
  datatype ILType =
    | Base(base: BaseType)
    | Struct(align: int, name: string, fields: seq<ILType>)

  /** `Type.IL`: a base type's letter, or an aggregate's name after a colon. */
  function TypeIL(t: ILType): (r: string)
    ensures t.Base? ==> r == BaseIL(t.base)
    ensures t.Struct? ==> |r| == |t.name| + 1 && r[0] == ':' && r[1..] == t.name
  {
    match t
    case Base(b) => BaseIL(b)
    case Struct(_, name, _) => ":" + name
  }

  /** The field types written one after another, with no separator. */
  function FieldsIL(fields: seq<ILType>): (r: string)
    ensures |fields| == 0 ==> r == ""
    decreases |fields|
  {
    if |fields| == 0 then "" else TypeIL(fields[0]) + FieldsIL(fields[1..])
  }

  /** `StructType.Define`: `type :name = `, `align n` only for a non-zero alignment, and
      the fields between braces. */
  function Define(t: ILType): (r: string)
    requires t.Struct?
    ensures r == "type :" + t.name + " = " + AlignPart(t.align) + "{" + FieldsIL(t.fields) + "}"
  {
    "type :" + t.name + " = " + AlignPart(t.align) + "{" + FieldsIL(t.fields) + "}"
  }

  function AlignPart(align: int): (r: string)
    ensures align == 0 <==> r == ""
    ensures align != 0 ==> r == "align " + Decimal.IntToString(align)
  {
    if align == 0 then "" else "align " + Decimal.IntToString(align)
  }

  /** A declaration's text starts with the aggregate's own spelling after `type `, and
      ends with its closing brace. */
  lemma DefineMentionsName(t: ILType)
    requires t.Struct?
    ensures var d := Define(t); var n := |TypeIL(t)|;
      && |d| >= 5 + n + 4
      && d[5..5 + n] == TypeIL(t)
      && d[|d| - 1] == '}'
  {
    var tail := " = " + AlignPart(t.align) + "{" + FieldsIL(t.fields) + "}";
    DefineSplit(t, tail);
    Middle("type ", TypeIL(t), tail);
    assert tail[|tail| - 1] == '}';
  }

  lemma DefineSplit(t: ILType, tail: string)
    requires t.Struct?
    requires tail == " = " + AlignPart(t.align) + "{" + FieldsIL(t.fields) + "}"
    ensures Define(t) == "type " + TypeIL(t) + tail
  {
    var p := "type " + TypeIL(t);
    assert TypeIL(t) == ":" + t.name;
    assert p == "type :" + t.name;
    var a, f := AlignPart(t.align), FieldsIL(t.fields);
    Assoc(p, " = ", a);
    Assoc(p, " = " + a, "{");
    Assoc(p, " = " + a + "{", f);
    Assoc(p, " = " + a + "{" + f, "}");
  }

  lemma Assoc(a: string, b: string, c: string)
    ensures a + b + c == a + (b + c)
  {
  }

  lemma Middle(a: string, b: string, c: string)
    ensures |a + b + c| == |a| + |b| + |c|
    ensures (a + b + c)[|a|..|a| + |b|] == b
    ensures c != [] ==> (a + b + c)[|a + b + c| - 1] == c[|c| - 1]
  {
  }

  // ---------------------------------------------------------------------------
  // Values

  /** A value operand: a named variable, global (`$`) or local (`%`), or an integer constant. */
  datatype Value =
    | Var(global: bool, name: string)
    | IntLit(value: int)

  function ValueIL(v: Value): (r: string)
    ensures v.Var? && v.global ==> r == "$" + v.name
    ensures v.Var? && !v.global ==> r == "%" + v.name
    ensures v.IntLit? ==> r == Decimal.IntToString(v.value)
  {
    match v
    case Var(global, name) => (if global then "$" else "%") + name
    case IntLit(n) => Decimal.IntToString(n)
  }

  /** Reading a variable operand back: the sigil gives the scope, the rest the name. */
  function ReadVar(s: string): (r: Option<Value>)
    ensures r.Some? ==> r.value.Var?
    ensures r.Some? <==> |s| >= 1 && (s[0] == '$' || s[0] == '%')
  {
    if |s| >= 1 && s[0] == '$' then Some(Var(true, s[1..]))
    else if |s| >= 1 && s[0] == '%' then Some(Var(false, s[1..]))
    else None
  }

  lemma VarRoundTrip(v: Value)
    requires v.Var?
    ensures ReadVar(ValueIL(v)) == Some(v)
  {
    var s := ValueIL(v);
    assert s[1..] == v.name;
  }

  /** Two variables with the same spelling are the same variable. */
  lemma VarILInjective(a: Value, b: Value)
    requires a.Var? && b.Var? && ValueIL(a) == ValueIL(b)
    ensures a == b
  {
    VarRoundTrip(a);
    VarRoundTrip(b);
  }

  /** A constant's spelling reads back as its value. */
  lemma IntLitRoundTrip(v: Value)
    requires v.IntLit?
    ensures Decimal.ParseInt(ValueIL(v)) == v.value
  {
    Decimal.IntToStringRoundTrip(v.value);
  }

  // ---------------------------------------------------------------------------
  // Linkage

  /** The linkage flags, a Go `int`; `&` on it is two's-complement, as on a 64-bit vector. */
  const Export: bv64 := (1 << 0) + 1
  const Thread: bv64 := (1 << 1) + 1
  const Section: bv64 := (1 << 2) + 1

  datatype Linkage = Linkage(flags: bv64, secName: string, secFlags: string)

  /** The flag constants are meant as single bits but `1 << iota + 1` makes them 2, 3
      and 5, which share bits. */
  lemma FlagValues()
    ensures Export == 2 && Thread == 3 && Section == 5
    ensures Export & Thread != 0 && Thread & Section != 0
  {
  }

  /** `Linkage.String`: `export` when a flag bit of `Export` is set, `thread` when one of
      `Thread` is, separated by one space; any bit of `Section` panics as unimplemented,
      here `None`. */
  function LinkageString(l: Linkage): (r: Option<string>)
    ensures r.None? <==> l.flags & Section != 0
    ensures r.Some? && l.flags & Export != 0 && l.flags & Thread != 0 ==> r.value == "export thread"
    ensures r.Some? && l.flags & Export != 0 && l.flags & Thread == 0 ==> r.value == "export"
    ensures r.Some? && l.flags & Export == 0 && l.flags & Thread != 0 ==> r.value == "thread"
    ensures r.Some? && l.flags & Export == 0 && l.flags & Thread == 0 ==> r.value == ""
  {
    var s := if l.flags & Export != 0 then "export" else "";
    var s := if l.flags & Thread != 0 then (if |s| != 0 then s + " " else s) + "thread" else s;
    if l.flags & Section != 0 then None else Some(s)
  }

  /** No flags: nothing is written. */
  lemma NoLinkage(secName: string, secFlags: string)
    ensures LinkageString(Linkage(0, secName, secFlags)) == Some("")
  {
  }

  /** Asking for `Export` alone also writes `thread`, because 2 & 3 is not zero. */
  lemma ExportAlsoThread(secName: string, secFlags: string)
    ensures LinkageString(Linkage(Export, secName, secFlags)) == Some("export thread")
  {
    FlagValues();
  }

  // ---------------------------------------------------------------------------
  // Builder

  /** The text written so far, the indentation depth and the last temporary's number. */
  datatype Builder = Builder(out: string, indentLvl: int, tempID: int)

  /** A typed function parameter, written `<type> <var>`. */
  datatype TypedVar = TypedVar(typ: ILType, name: Value)

  /** A typed call argument, written `<type> <value>`. */
  datatype TypedValue = TypedValue(typ: ILType, value: Value)

  function TypedVarIL(v: TypedVar): (r: string)
    ensures r == TypeIL(v.typ) + " " + ValueIL(v.name)
  {
    TypeIL(v.typ) + " " + ValueIL(v.name)
  }

  function Tabs(n: nat): (r: string)
    ensures |r| == n && forall i :: 0 <= i < n ==> r[i] == '\t'
  {
    if n == 0 then "" else "\t" + Tabs(n - 1)
  }

  /** `strings.Join(xs, ", ")`. */
  function JoinComma(xs: seq<string>): (r: string)
    ensures |xs| == 0 ==> r == ""
    ensures |xs| == 1 ==> r == xs[0]
    decreases |xs|
  {
    if |xs| == 0 then "" else if |xs| == 1 then xs[0] else xs[0] + ", " + JoinComma(xs[1..])
  }

  function ArgsIL(args: seq<TypedVar>): (r: seq<string>)
    ensures |r| == |args| && forall i :: 0 <= i < |args| ==> r[i] == TypedVarIL(args[i])
  {
    seq(|args|, i requires 0 <= i < |args| => TypedVarIL(args[i]))
  }

  function ValuesIL(vs: seq<Value>): (r: seq<string>)
    ensures |r| == |vs| && forall i :: 0 <= i < |vs| ==> r[i] == ValueIL(vs[i])
  {
    seq(|vs|, i requires 0 <= i < |vs| => ValueIL(vs[i]))
  }

  function TypedValuesIL(vs: seq<TypedValue>): (r: seq<string>)
    ensures |r| == |vs| && forall i :: 0 <= i < |vs| ==> r[i] == TypeIL(vs[i].typ) + " " + ValueIL(vs[i].value)
  {
    seq(|vs|, i requires 0 <= i < |vs| => TypeIL(vs[i].typ) + " " + ValueIL(vs[i].value))
  }

  /** `indented`: the current number of tabs, then the text. `strings.Repeat` panics on a
      negative count, so the depth must not be negative. */
  function Indented(b: Builder, text: string): (r: Builder)
    requires b.indentLvl >= 0
    ensures r.indentLvl == b.indentLvl && r.tempID == b.tempID
    ensures |r.out| == |b.out| + b.indentLvl + |text|
    ensures r.out[..|b.out|] == b.out
    ensures forall i :: |b.out| <= i < |b.out| + b.indentLvl ==> r.out[i] == '\t'
    ensures r.out[|b.out| + b.indentLvl..] == text
  {
    Builder(b.out + Tabs(b.indentLvl) + text, b.indentLvl, b.tempID)
  }

  /** The first line of a function: linkage and a space when there is any linkage text,
      `function `, the return type and a space when there is one, the name, and the
      parameters between parentheses. */
  function FuncHeader(linkage: string, ret: Option<ILType>, name: string, args: seq<TypedVar>): string
  {
    var link := if linkage != "" then linkage + " " else "";
    var retStr := if ret.Some? then TypeIL(ret.value) + " " else "";
    link + "function " + retStr + name + "(" + JoinComma(ArgsIL(args)) + ") {\n"
  }

  /** `Builder.Func`: the header at the current indentation, the `@start` label at the
      same indentation, and then one level deeper. */
  function Func(b: Builder, linkage: Linkage, ret: Option<ILType>, name: string, args: seq<TypedVar>): (r: Builder)
    requires b.indentLvl >= 0
    requires LinkageString(linkage).Some?
    ensures r.indentLvl == b.indentLvl + 1 && r.tempID == b.tempID
    ensures r.out == b.out + Tabs(b.indentLvl) + FuncHeader(LinkageString(linkage).value, ret, name, args)
                    + Tabs(b.indentLvl) + "@start\n"
  {
    var text := FuncHeader(LinkageString(linkage).value, ret, name, args);
    var labelled := Label(Indented(b, text), "start");
    HeaderThenStart(b, text);
    Builder(labelled.out, labelled.indentLvl + 1, labelled.tempID)
  }

  /** A line and then `@start`, both at the builder's depth. */
  lemma HeaderThenStart(b: Builder, text: string)
    requires b.indentLvl >= 0
    ensures var r := Label(Indented(b, text), "start");
      && r.out == b.out + Tabs(b.indentLvl) + text + Tabs(b.indentLvl) + "@start\n"
      && r.indentLvl == b.indentLvl && r.tempID == b.tempID
  {
    assert "@" + "start" + "\n" == "@start\n";
  }

  /** `Builder.EndFunc`: one level shallower, then the closing brace. */
  function EndFunc(b: Builder): (r: Builder)
    requires b.indentLvl >= 1
    ensures r.indentLvl == b.indentLvl - 1 && r.tempID == b.tempID
    ensures r.out == b.out + Tabs(b.indentLvl - 1) + "}\n"
  {
    Indented(Builder(b.out, b.indentLvl - 1, b.tempID), "}\n")
  }

  /** A `Func` … `EndFunc` pair leaves the indentation where it was, whatever was
      written in between at the same depth. */
  lemma FuncEndFuncBalanced(b: Builder, linkage: Linkage, ret: Option<ILType>, name: string, args: seq<TypedVar>, body: Builder)
    requires b.indentLvl >= 0 && LinkageString(linkage).Some?
    requires body.indentLvl == Func(b, linkage, ret, name, args).indentLvl
    ensures EndFunc(body).indentLvl == b.indentLvl
  {
  }

  function Label(b: Builder, name: string): (r: Builder)
    requires b.indentLvl >= 0
    ensures r == Indented(b, "@" + name + "\n")
  {
    Indented(b, "@" + name + "\n")
  }

  function Ret(b: Builder, v: Value): (r: Builder)
    requires b.indentLvl >= 0
    ensures r == Indented(b, "ret " + ValueIL(v) + "\n")
  {
    Indented(b, "ret " + ValueIL(v) + "\n")
  }

  /** The line `Label` writes names the label: after the tabs come `@`, the name and the
      end of the line. */
  lemma LabelReadsBack(b: Builder, name: string)
    requires b.indentLvl >= 0
    ensures var line := Label(b, name).out[|b.out| + b.indentLvl..];
      |line| == |name| + 2 && line[0] == '@' && line[1..|line| - 1] == name && line[|line| - 1] == '\n'
  {
    var line := Label(b, name).out[|b.out| + b.indentLvl..];
    assert line == "@" + name + "\n";
    assert line[1..|line| - 1] == name;
  }

  /** The operand of a `ret` line reads back as the returned variable. */
  lemma RetReadsBack(b: Builder, v: Value)
    requires b.indentLvl >= 0 && v.Var?
    ensures var line := Ret(b, v).out[|b.out| + b.indentLvl..];
      |line| >= 6 && line[..4] == "ret " && line[|line| - 1] == '\n' && ReadVar(line[4..|line| - 1]) == Some(v)
  {
    var line := Ret(b, v).out[|b.out| + b.indentLvl..];
    assert line == "ret " + ValueIL(v) + "\n";
    assert line[4..|line| - 1] == ValueIL(v);
    VarRoundTrip(v);
  }

  /** `Builder.Arithmetic`: `<target> =<type> <op> <operands>`; with no type the
      `=<type>` part is empty and two spaces remain. */
  function Arithmetic(b: Builder, target: string, ret: Option<ILType>, op: string, args: seq<Value>): (r: Builder)
    requires b.indentLvl >= 0
    ensures ret.Some? ==> r == Indented(b, target + " =" + TypeIL(ret.value) + " " + op + " " + JoinComma(ValuesIL(args)) + "\n")
    ensures ret.None? ==> r == Indented(b, target + "  " + op + " " + JoinComma(ValuesIL(args)) + "\n")
  {
    if ret.Some? then Indented(b, target + " =" + TypeIL(ret.value) + " " + op + " " + JoinComma(ValuesIL(args)) + "\n")
    else Indented(b, target + "  " + op + " " + JoinComma(ValuesIL(args)) + "\n")
  }

  /** `Builder.Call` with a target: `<target> =<type> call <name> (<type> <value>, …)`. */
  function Call(b: Builder, target: Value, typ: ILType, name: Value, args: seq<TypedValue>): (r: Builder)
    requires b.indentLvl >= 0
    ensures r == Indented(b, ValueIL(target) + " =" + TypeIL(typ) + " call " + ValueIL(name) + " (" + JoinComma(TypedValuesIL(args)) + ")\n")
  {
    Indented(b, ValueIL(target) + " =" + TypeIL(typ) + " call " + ValueIL(name) + " (" + JoinComma(TypedValuesIL(args)) + ")\n")
  }

  /** The name of the temporary numbered `n`. */
  function TempName(n: int): string {
    "_tmp_" + Decimal.IntToString(n)
  }

  /** `Builder.TempVar`: the counter is advanced first, so the first temporary is `_tmp_1`. */
  function TempVar(b: Builder, global: bool): (r: (Builder, Value))
    ensures r.0 == Builder(b.out, b.indentLvl, b.tempID + 1)
    ensures r.1 == Var(global, TempName(b.tempID + 1))
  {
    (Builder(b.out, b.indentLvl, b.tempID + 1), Var(global, TempName(b.tempID + 1)))
  }

  /** Temporaries with different numbers have different names. */
  lemma TempNamesDistinct(m: int, n: int)
    requires m != n
    ensures TempName(m) != TempName(n)
  {
    if TempName(m) == TempName(n) {
      assert TempName(m)[5..] == Decimal.IntToString(m);
      assert TempName(n)[5..] == Decimal.IntToString(n);
      Decimal.IntToStringInjective(m, n);
    }
  }

  /** Two successive `TempVar` calls give two different variables. */
  lemma TempVarFresh(b: Builder, global: bool)
    ensures TempVar(TempVar(b, global).0, global).1 != TempVar(b, global).1
  {
    TempNamesDistinct(b.tempID + 1, b.tempID + 2);
  }

  // ---------------------------------------------------------------------------
  // Reading instruction lines back

  /** The index of the first `c` in `s`, or `|s|`. */
  function FirstIndex(s: string, c: char): (k: nat)
    ensures k <= |s| && (forall j :: 0 <= j < k ==> s[j] != c) && (k < |s| ==> s[k] == c)
    decreases |s|
  {
    if |s| == 0 || s[0] == c then 0 else 1 + FirstIndex(s[1..], c)
  }

  /** The text before the first `c` and the text after it; all of `s` and nothing when
      there is no `c`. */
  function Cut(s: string, c: char): (string, string) {
    var k := FirstIndex(s, c);
    if k < |s| then (s[..k], s[k + 1..]) else (s, "")
  }

  /** Cutting at the first `c` splits exactly after a `c`-free first word. */
  lemma CutAt(a: string, c: char, rest: string)
    requires c !in a
    ensures Cut(a + [c] + rest, c) == (a, rest)
  {
    var s := a + [c] + rest;
    var k := FirstIndex(s, c);
    assert s[|a|] == c;
    assert k == |a|;
    assert s[..k] == a;
    assert s[k + 1..] == rest;
  }

  /** The items of a `, `-separated list. */
  function SplitComma(s: string): seq<string>
    decreases |s|
  {
    var k := FirstIndex(s, ',');
    if k == |s| then [s]
    else if k + 1 < |s| && s[k + 1] == ' ' then [s[..k]] + SplitComma(s[k + 2..])
    else [s[..k]] + SplitComma(s[k + 1..])
  }

  /** `JoinComma` of comma-free items splits back into the items. */
  lemma {:induction false} SplitJoinComma(xs: seq<string>)
    requires |xs| >= 1 && forall i :: 0 <= i < |xs| ==> ',' !in xs[i]
    ensures SplitComma(JoinComma(xs)) == xs
    decreases |xs|
  {
    if |xs| == 1 {
      SplitCommaLast(xs[0]);
    } else {
      SplitCommaStep(xs[0], JoinComma(xs[1..]));
      SplitJoinComma(xs[1..]);
      assert xs == [xs[0]] + xs[1..];
    }
  }

  lemma SplitCommaLast(a: string)
    requires ',' !in a
    ensures SplitComma(a) == [a]
  {
  }

  lemma SplitCommaStep(a: string, rest: string)
    requires ',' !in a
    ensures SplitComma(a + ", " + rest) == [a] + SplitComma(rest)
  {
    var s := a + ", " + rest;
    assert s == a + [','] + (" " + rest);
    CutAt(a, ',', " " + rest);
    assert s[..|a|] == a;
    assert s[|a| + 2..] == rest;
  }

  /** Text free of the two separators a line is read back by. */
  predicate Plain(s: string) {
    ' ' !in s && ',' !in s
  }

  /** A value whose spelling is `Plain`: constants always are, variables when their name is. */
  predicate PlainValue(v: Value) {
    v.Var? ==> Plain(v.name)
  }

  lemma ValuePlain(v: Value)
    requires PlainValue(v)
    ensures Plain(ValueIL(v))
  {
    var s := ValueIL(v);
    forall j | 0 <= j < |s| ensures s[j] != ' ' && s[j] != ','
    {
      if v.Var? {
        if j > 0 {
          assert s[j] == v.name[j - 1];
        }
      } else if v.value < 0 && j > 0 {
        assert s[j] == Decimal.NatToString(-v.value)[j - 1];
      }
    }
  }

  /** A variable whose name has no space is spelled without one. */
  lemma VarNoSpace(v: Value)
    requires v.Var? && ' ' !in v.name
    ensures ' ' !in ValueIL(v)
  {
    var s := ValueIL(v);
    assert s[1..] == v.name;
  }

  lemma ValuesPlain(vs: seq<Value>)
    requires forall i :: 0 <= i < |vs| ==> PlainValue(vs[i])
    ensures forall i :: 0 <= i < |vs| ==> ',' !in ValuesIL(vs)[i]
  {
    forall i | 0 <= i < |vs| ensures ',' !in ValuesIL(vs)[i] {
      ValuePlain(vs[i]);
    }
  }

  /** An arithmetic line reads back word by word: the target variable, `=` with the type,
      the operation, and then the operands, split at `, `. */
  lemma ArithmeticReadsBack(b: Builder, target: Value, t: ILType, op: string, args: seq<Value>)
    requires b.indentLvl >= 0 && target.Var? && ' ' !in target.name && ' ' !in TypeIL(t) && ' ' !in op
    requires forall i :: 0 <= i < |args| ==> PlainValue(args[i])
    ensures var line := Arithmetic(b, ValueIL(target), Some(t), op, args).out[|b.out| + b.indentLvl..];
      var w1 := Cut(line, ' ');
      var w2 := Cut(w1.1, ' ');
      var w3 := Cut(w2.1, ' ');
      && ReadVar(w1.0) == Some(target)
      && w2.0 == "=" + TypeIL(t)
      && w3.0 == op
      && |w3.1| >= 1 && w3.1[|w3.1| - 1] == '\n'
      && (|args| >= 1 ==> SplitComma(w3.1[..|w3.1| - 1]) == ValuesIL(args))
  {
    var tv, ty, j := ValueIL(target), TypeIL(t), JoinComma(ValuesIL(args));
    VarNoSpace(target);
    var r3 := j + "\n";
    var r2 := op + [' '] + r3;
    var r1 := ("=" + ty) + [' '] + r2;
    ArithmeticLine(tv, ty, op, j);
    CutAt(tv, ' ', r1);
    CutAt("=" + ty, ' ', r2);
    CutAt(op, ' ', r3);
    VarRoundTrip(target);
    assert r3[..|r3| - 1] == j;
    if |args| >= 1 {
      ValuesPlain(args);
      SplitJoinComma(ValuesIL(args));
    }
  }

  lemma ArithmeticLine(tv: string, ty: string, op: string, j: string)
    ensures tv + " =" + ty + " " + op + " " + j + "\n" == tv + [' '] + (("=" + ty) + [' '] + (op + [' '] + (j + "\n")))
  {
  }

  /** A call line reads back word by word: the target, `=` with the type, `call`, the
      callee, and the parenthesised arguments, each a type and a value split at the space. */
  lemma CallReadsBack(b: Builder, target: Value, typ: ILType, name: Value, args: seq<TypedValue>)
    requires b.indentLvl >= 0 && target.Var? && name.Var? && ' ' !in target.name && ' ' !in name.name
    requires ' ' !in TypeIL(typ)
    requires forall i :: 0 <= i < |args| ==> Plain(TypeIL(args[i].typ)) && PlainValue(args[i].value)
    ensures var line := Call(b, target, typ, name, args).out[|b.out| + b.indentLvl..];
      var w1 := Cut(line, ' ');
      var w2 := Cut(w1.1, ' ');
      var w3 := Cut(w2.1, ' ');
      var w4 := Cut(w3.1, ' ');
      var inner := w4.1;
      && ReadVar(w1.0) == Some(target)
      && w2.0 == "=" + TypeIL(typ)
      && w3.0 == "call"
      && ReadVar(w4.0) == Some(name)
      && |inner| >= 3 && inner[0] == '(' && inner[|inner| - 2..] == ")\n"
      && (|args| == 0 ==> inner == "()\n")
      && (|args| >= 1 ==>
            var pieces := SplitComma(inner[1..|inner| - 2]);
            && |pieces| == |args|
            && forall i :: 0 <= i < |args| ==> Cut(pieces[i], ' ') == (TypeIL(args[i].typ), ValueIL(args[i].value)))
  {
    var tv, ty, nv, j := ValueIL(target), TypeIL(typ), ValueIL(name), JoinComma(TypedValuesIL(args));
    VarNoSpace(target);
    VarNoSpace(name);
    var text := tv + " =" + ty + " call " + nv + " (" + j + ")\n";
    assert Call(b, target, typ, name, args).out[|b.out| + b.indentLvl..] == text;
    CallWords(tv, ty, nv, j);
    ParenText(j);
    VarRoundTrip(target);
    VarRoundTrip(name);
    if |args| >= 1 {
      TypedPiecesCut(args);
      SplitJoinComma(TypedValuesIL(args));
    }
  }

  /** The word-by-word reading of a call line's text. */
  lemma CallWords(tv: string, ty: string, nv: string, j: string)
    requires ' ' !in tv && ' ' !in ty && ' ' !in nv
    ensures var w1 := Cut(tv + " =" + ty + " call " + nv + " (" + j + ")\n", ' ');
      var w2 := Cut(w1.1, ' ');
      var w3 := Cut(w2.1, ' ');
      var w4 := Cut(w3.1, ' ');
      && w1.0 == tv && w2.0 == "=" + ty && w3.0 == "call" && w4 == (nv, "(" + j + ")\n")
  {
    var r4 := "(" + j + ")\n";
    var r3 := nv + [' '] + r4;
    var r2 := "call" + [' '] + r3;
    var r1 := ("=" + ty) + [' '] + r2;
    CallLine(tv, ty, nv, j);
    CutAt(tv, ' ', r1);
    CutAt("=" + ty, ' ', r2);
    CutAt("call", ' ', r3);
    CutAt(nv, ' ', r4);
  }

  lemma ParenText(j: string)
    ensures var inner := "(" + j + ")\n";
      && |inner| >= 3 && inner[0] == '(' && inner[|inner| - 2..] == ")\n" && inner[1..|inner| - 2] == j
      && (j == "" ==> inner == "()\n")
  {
    var inner := "(" + j + ")\n";
    assert inner[1..|inner| - 2] == j;
  }

  lemma CallLine(tv: string, ty: string, nv: string, j: string)
    ensures tv + " =" + ty + " call " + nv + " (" + j + ")\n"
      == tv + [' '] + (("=" + ty) + [' '] + ("call" + [' '] + (nv + [' '] + ("(" + j + ")\n"))))
  {
  }

  /** Each typed argument is comma-free and cuts into its type and its value. */
  lemma TypedPiecesCut(args: seq<TypedValue>)
    requires forall i :: 0 <= i < |args| ==> Plain(TypeIL(args[i].typ)) && PlainValue(args[i].value)
    ensures forall i :: 0 <= i < |args| ==> ',' !in TypedValuesIL(args)[i]
    ensures forall i :: 0 <= i < |args| ==> Cut(TypedValuesIL(args)[i], ' ') == (TypeIL(args[i].typ), ValueIL(args[i].value))
  {
    forall i | 0 <= i < |args|
      ensures ',' !in TypedValuesIL(args)[i]
      ensures Cut(TypedValuesIL(args)[i], ' ') == (TypeIL(args[i].typ), ValueIL(args[i].value))
    {
      var ty, v := TypeIL(args[i].typ), ValueIL(args[i].value);
      ValuePlain(args[i].value);
      assert TypedValuesIL(args)[i] == ty + [' '] + v;
      CutAt(ty, ' ', v);
    }
  }
}
