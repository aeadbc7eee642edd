/** cmd/reset/main.go: the text generateReset appends to its buffer, the fields generatePackage
    visits, and what a whole generated body does. */
module ResetBodies {
  import opened Metrics
  import opened ResetPaths
  import opened ResetGenerator
  import opened ResetText

  /** bytes.Buffer, as far as fmt.Fprintf needs it. */
  class Buffer {
    var text: string

    constructor ()
      ensures text == ""
    { text := ""; }

    method Write(s: string)
      modifies this
      ensures text == old(text) + s
    { text := text + s; }
  }

  lemma AppendBlock(before: string, head: string, body: string, tail: string)
    ensures before + head + body + tail == before + Block(head, body, tail)
  {
  }

  /** Appends exactly the statements ResetStmts emits; expression is the printed form of p. */
  method GenerateReset(output: Buffer, expression: string, ty: GoType, level: nat, ghost p: Path)
    requires expression == Expression(p)
    modifies output
    ensures output.text == old(output.text) + PrintAll(ResetStmts(p, ty), level)
    decreases ty
  {
    hide Parenthesize, LiteralText, Indent, Block;
    var indent := Indent(level);
    if ResetStmts(p, ty) != [] { PrintSingle(ResetStmts(p, ty)[0], level); }
    match ty {
      case TypeParam(name, _) =>
        output.Write(indent + "{\n" + indent + "\tvar zero " + name + "\n" + indent + "\t" + expression + " = zero\n" + indent + "}\n");
      case Pointer(_, elem) =>
        output.Write(indent + "if " + expression + " != nil {\n");
        GenerateReset(output, "*" + Parenthesize(expression), elem, level + 1, Deref(p));
        output.Write(indent + "}\n");
        AppendBlock(old(output.text), indent + "if " + expression + " != nil {\n",
                    PrintAll(ResetStmts(Deref(p), elem), level + 1), indent + "}\n");
      case Interface =>
        output.Write(indent + "if resetter, ok := " + Parenthesize(expression) + ASSERTION + "; ok {\n" + indent + "\tresetter.Reset()\n" + indent + "}\n");
      case Struct(_, _) =>
        if ConcreteResetCall(ty) { output.Write(indent + Parenthesize(expression) + ".Reset()\n"); }
      case Basic(kind) =>
        match kind {
          case Boolean => output.Write(indent + expression + " = " + LiteralText(False) + "\n");
          case String => output.Write(indent + expression + " = " + LiteralText(EmptyString) + "\n");
          case Numeric => output.Write(indent + expression + " = " + LiteralText(Zero) + "\n");
          case UnsafePointer => output.Write(indent + expression + " = " + LiteralText(Nil) + "\n");
          case OtherBasic =>
        }
      case Slice => output.Write(indent + expression + " = " + Parenthesize(expression) + TO_ZERO + "\n");
      case Map => output.Write(indent + "clear(" + expression + ")\n");
      case Array(_, elem) =>
        output.Write(indent + "for i := range " + expression + " {\n");
        GenerateReset(output, Parenthesize(expression) + "[i]", elem, level + 1, Index(p));
        output.Write(indent + "}\n");
        AppendBlock(old(output.text), indent + "for i := range " + expression + " {\n",
                    PrintAll(ResetStmts(Index(p), elem), level + 1), indent + "}\n");
      case Chan => output.Write(indent + expression + " = " + LiteralText(Nil) + "\n");
      case Func => output.Write(indent + expression + " = " + LiteralText(Nil) + "\n");
    }
  }

  // ---- Fields ----

  datatype TypeExpr =
    | Ident(name: string)
    | SelectorExpr(x: TypeExpr, sel: string)
    | StarExpr(x: TypeExpr)
    | IndexExpr(x: TypeExpr)
    | IndexListExpr(x: TypeExpr)
    | ParenExpr(x: TypeExpr)
    | OtherExpr

  datatype FieldDecl = FieldDecl(names: seq<string>, typeExpr: TypeExpr, ty: GoType)

  function EmbeddedFieldName(e: TypeExpr): string {
    match e
    case Ident(name) => name
    case SelectorExpr(_, sel) => sel
    case StarExpr(x) => EmbeddedFieldName(x)
    case IndexExpr(x) => EmbeddedFieldName(x)
    case IndexListExpr(x) => EmbeddedFieldName(x)
    case ParenExpr(x) => EmbeddedFieldName(x)
    case OtherExpr => ""
  }

  function NotBlank(names: seq<string>): seq<string> {
    if names == [] then [] else (if names[0] == "_" then [] else [names[0]]) + NotBlank(names[1..])
  }

  function FieldNames(f: FieldDecl): seq<string> {
    if f.names != [] then NotBlank(f.names)
    else if EmbeddedFieldName(f.typeExpr) != "" then [EmbeddedFieldName(f.typeExpr)]
    else []
  }

  datatype NamedField = NamedField(name: string, ty: GoType)

  /** The fields a body covers: every one that can be named, in declaration order. */
  function NamedFields(decls: seq<FieldDecl>): seq<NamedField>
    decreases |decls|
  {
    if decls == [] then []
    else
      NamedFields(decls[..|decls| - 1]) + Declared(decls[|decls| - 1])
  }

  function FieldMap(fields: seq<NamedField>): map<string, GoType>
    decreases |fields|
  {
    if fields == [] then map[]
    else FieldMap(fields[..|fields| - 1])[fields[|fields| - 1].name := fields[|fields| - 1].ty]
  }

  function BodyStmts(fields: seq<NamedField>): seq<Stmt>
    decreases |fields|
  {
    if fields == [] then []
    else
      var f := fields[|fields| - 1];
      BodyStmts(fields[..|fields| - 1]) + ResetStmts(Field(f.name), f.ty)
  }

  function Declared(f: FieldDecl): seq<NamedField> {
    var names := FieldNames(f);
    seq(|names|, k requires 0 <= k < |names| => NamedField(names[k], f.ty))
  }

  // ---- What the names are, and how the text of a body reads ----

  /** A blank name cannot be selected; all others are kept, in order. */
  lemma {:induction false} NotBlankKeepsOrder(a: seq<string>, b: seq<string>, name: string)
    ensures NotBlank(a + b) == NotBlank(a) + NotBlank(b)
    ensures NotBlank([name]) == if name == "_" then [] else [name]
    decreases |a|
  {
    assert [name][1..] == [];
    assert NotBlank([]) == [];
    if a == [] {
      assert a + b == b;
    } else {
      assert (a + b)[1..] == a[1..] + b;
      NotBlankKeepsOrder(a[1..], b, name);
      var first := if a[0] == "_" then [] else [a[0]];
      assert NotBlank(a + b) == first + NotBlank(a[1..] + b);
    }
  }

  /** How the type of an embedded field is written, without type arguments. */
  function TypeText(e: TypeExpr): string {
    match e
    case Ident(name) => name
    case SelectorExpr(x, sel) => TypeText(x) + "." + sel
    case StarExpr(x) => "*" + TypeText(x)
    case IndexExpr(x) => TypeText(x) + "[]"
    case IndexListExpr(x) => TypeText(x) + "[]"
    case ParenExpr(x) => "(" + TypeText(x) + ")"
    case OtherExpr => "?"
  }

  predicate WellNamedExpr(e: TypeExpr) {
    match e
    case Ident(name) => IsIdentifier(name)
    case SelectorExpr(x, sel) => WellNamedExpr(x) && IsIdentifier(sel)
    case StarExpr(x) => WellNamedExpr(x)
    case IndexExpr(x) => WellNamedExpr(x)
    case IndexListExpr(x) => WellNamedExpr(x)
    case ParenExpr(x) => WellNamedExpr(x)
    case OtherExpr => false
  }

  /** The last identifier in a text. */
  function LastName(s: string): string
    decreases |s|
  {
    if s == "" then ""
    else if IsIdentChar(s[|s| - 1]) then TrailingName(s)
    else LastName(s[..|s| - 1])
  }

  function TrailingName(s: string): string
    decreases |s|
  {
    if s == "" || !IsIdentChar(s[|s| - 1]) then "" else TrailingName(s[..|s| - 1]) + [s[|s| - 1]]
  }

  lemma {:induction false} TrailingIs(before: string, name: string)
    requires forall i :: 0 <= i < |name| ==> IsIdentChar(name[i])
    requires before == "" || !IsIdentChar(before[|before| - 1])
    ensures TrailingName(before + name) == name
    decreases |name|
  {
    if name == "" {
      assert before + name == before;
    } else {
      var s := before + name;
      assert s[..|s| - 1] == before + name[..|name| - 1];
      TrailingIs(before, name[..|name| - 1]);
      assert name[..|name| - 1] + [name[|name| - 1]] == name;
    }
  }

  lemma LastIs(before: string, name: string)
    requires IsIdentifier(name) && (before == "" || !IsIdentChar(before[|before| - 1]))
    ensures LastName(before + name) == name
  {
    TrailingIs(before, name);
    assert (before + name)[|before + name| - 1] == name[|name| - 1];
  }

  lemma LastSkips(s: string, c: char)
    requires !IsIdentChar(c)
    ensures LastName(s + [c]) == LastName(s)
  {
    assert (s + [c])[..|s|] == s;
  }

  lemma {:induction false} LastBehind(s: string, c: char)
    requires !IsIdentChar(c)
    ensures LastName([c] + s) == LastName(s) && TrailingName([c] + s) == TrailingName(s)
    decreases |s|
  {
    if s == "" {
      assert [c] + s == [c] && [c][..0] == "";
    } else {
      assert ([c] + s)[..|s|] == [c] + s[..|s| - 1];
      LastBehind(s[..|s| - 1], c);
    }
  }

  /** An embedded field is called by the unqualified name of its type, the last name in the text. */
  lemma {:induction false} EmbeddedByUnqualifiedName(e: TypeExpr)
    requires WellNamedExpr(e)
    ensures EmbeddedFieldName(e) == LastName(TypeText(e)) && IsIdentifier(EmbeddedFieldName(e))
  {
    match e {
      case Ident(name) =>
        LastIs("", name);
        assert "" + name == name;
      case SelectorExpr(x, sel) => LastIs(TypeText(x) + ".", sel);
      case StarExpr(x) =>
        EmbeddedByUnqualifiedName(x);
        LastBehind(TypeText(x), '*');
      case IndexExpr(x) => EmbeddedByUnqualifiedName(x); BracketsEnd(TypeText(x));
      case IndexListExpr(x) => EmbeddedByUnqualifiedName(x); BracketsEnd(TypeText(x));
      case ParenExpr(x) =>
        EmbeddedByUnqualifiedName(x);
        LastBehind(TypeText(x), '(');
        LastSkips("(" + TypeText(x), ')');
    }
  }

  /** A declaration has the fields it names, or is an embedded field; a type that is neither a name nor
      made from one gives no field. */
  lemma FieldsOfDeclaration(f: FieldDecl)
    ensures f.names != [] ==> FieldNames(f) == NotBlank(f.names)
    ensures f.names == [] && WellNamedExpr(f.typeExpr) ==> FieldNames(f) == [LastName(TypeText(f.typeExpr))]
    ensures f.names == [] && f.typeExpr.OtherExpr? ==> FieldNames(f) == []
  {
    hide LastName, TypeText;
    if WellNamedExpr(f.typeExpr) { EmbeddedByUnqualifiedName(f.typeExpr); }
  }

  lemma BracketsEnd(s: string)
    ensures LastName(s + "[]") == LastName(s)
  {
    LastSkips(s, '[');
    LastSkips(s + "[", ']');
    assert s + "[]" == s + "[" + "]";
  }

  /** Every name is an identifier and stands for one field, as Go demands. */
  ghost predicate WellNamedFields(fields: seq<NamedField>, types: map<string, GoType>) {
    forall f :: f in fields ==> f.name in types && types[f.name] == f.ty && IsIdentifier(f.name) && WellNamedType(f.ty)
  }

  lemma {:induction false} BodyUnderstood(fields: seq<NamedField>, types: map<string, GoType>)
    requires WellNamedFields(fields, types)
    ensures WellNamedAll(BodyStmts(fields)) && UnderstoodAll(types, SyntaxAll(BodyStmts(fields))) == Some(BodyStmts(fields))
    decreases |fields|
  {
    if fields != [] {
      var front, f := fields[..|fields| - 1], fields[|fields| - 1];
      BodyUnderstood(front, types);
      ResetIsWellNamed(Field(f.name), f.ty);
      ResetUnderstood(types, Field(f.name), f.ty);
      Together(types, BodyStmts(front), ResetStmts(Field(f.name), f.ty));
    }
  }

  /** A Go compiler reads the text of a body as exactly the statements of its fields. */
  lemma BodyReadsBack(fields: seq<NamedField>)
    requires WellNamedFields(fields, FieldMap(fields))
    ensures Compiled(FieldMap(fields), PrintAll(BodyStmts(fields), 1)) == Some(BodyStmts(fields))
  {
    BodyUnderstood(fields, FieldMap(fields));
    CompiledWhole(FieldMap(fields), BodyStmts(fields), 1);
  }

  /** The inner loop of generatePackage around generateReset. */
  method GenerateField(output: Buffer, f: FieldDecl, ghost before: seq<NamedField>)
    requires output.text == PrintAll(BodyStmts(before), 1)
    modifies output
    ensures output.text == PrintAll(BodyStmts(before + Declared(f)), 1)
  {
    hide PrintAll, BodyStmts, ResetStmts, FieldNames;
    var names := FieldNames(f);
    ghost var mine := Declared(f);
    assert before + mine[..0] == before;
    for k := 0 to |names|
      invariant output.text == PrintAll(BodyStmts(before + mine[..k]), 1)
    {
      GenerateReset(output, "x." + names[k], f.ty, 1, Field(names[k]));
      BodyStep(before + mine[..k], mine[k]);
      assert before + mine[..k] + [mine[k]] == before + mine[..k + 1];
    }
    assert mine[..|names|] == mine;
  }

  lemma BodyStep(fields: seq<NamedField>, f: NamedField)
    ensures PrintAll(BodyStmts(fields + [f]), 1) == PrintAll(BodyStmts(fields), 1) + PrintAll(ResetStmts(Field(f.name), f.ty), 1)
  {
    assert (fields + [f])[..|fields|] == fields;
    PrintConcat(BodyStmts(fields), ResetStmts(Field(f.name), f.ty), 1);
  }

  /** The outer loop: the body of one structure's Reset method. */
  method GenerateBody(decls: seq<FieldDecl>) returns (body: string)
    ensures body == PrintAll(BodyStmts(NamedFields(decls)), 1)
    ensures var fields := NamedFields(decls);
            WellNamedFields(fields, FieldMap(fields)) ==> Compiled(FieldMap(fields), body) == Some(BodyStmts(fields))
  {
    var output := new Buffer();
    for d := 0 to |decls|
      invariant fresh(output) && output.text == PrintAll(BodyStmts(NamedFields(decls[..d])), 1)
    {
      GenerateField(output, decls[d], NamedFields(decls[..d]));
      assert decls[..d + 1][..d] == decls[..d];
    }
    assert decls[..|decls|] == decls;
    body := output.text;
    ghost var fields := NamedFields(decls);
    if WellNamedFields(fields, FieldMap(fields)) { BodyReadsBack(fields); }
  }

  // ---- A whole body ----

  /** Resetting a receiver: its fields one after the other. */
  function ResetFields(call: Calls, x: Loc, structure: string, fields: seq<NamedField>, s: State): Option<State>
    decreases |fields|
  {
    if fields == [] then Some(s)
    else
      var f := fields[|fields| - 1];
      match ResetFields(call, x, structure, fields[..|fields| - 1], s)
      case None => None
      case Some(s') => ResetValue(call, f.ty, FieldOf(x, FieldId(structure, f.name)), s')
  }

  lemma {:induction false} ExecConcat(env: Env, i: Option<nat>, a: seq<Stmt>, b: seq<Stmt>, s: State)
    ensures ExecAll(env, i, a + b, s) ==
            match ExecAll(env, i, a, s) case None => None case Some(s') => ExecAll(env, i, b, s')
    decreases |a|
  {
    if a == [] {
      assert a + b == b;
    } else {
      assert (a + b)[1..] == a[1..] + b;
      var m := Exec(env, i, a[0], s);
      if m.Some? { ExecConcat(env, i, a[1..], b, m.value); }
    }
  }

  /** A generated Reset body resets every named field of its receiver, in order, when no field
      nests arrays (other than arrays of length 1): on every heap when no field has longer arrays
      behind pointers, or resetting it writes no pointer, and otherwise when the pointers are kept
      apart. */
  lemma {:induction false} BodyMeetsSpec(pointers: set<Loc>, env: Env, fields: seq<NamedField>, s: State)
    requires forall f :: f in fields ==> f.name in env.fields && env.fields[f.name] == f.ty && Flat(f.ty)
    requires (forall f :: f in fields ==> Steady(f.ty) || WritesNoPointer(env.call, f.ty)) || Safe(pointers, env, s.heap)
    ensures ExecAll(env, None, BodyStmts(fields), s) == ResetFields(env.call, env.x, env.structure, fields, s)
    ensures var r := ResetFields(env.call, env.x, env.structure, fields, s);
            r.Some? && Safe(pointers, env, s.heap) ==> Safe(pointers, env, r.value.heap)
    decreases |fields|
  {
    hide Flat, Steady, WritesNoPointer, Safe;
    if fields != [] {
      var front, f := fields[..|fields| - 1], fields[|fields| - 1];
      BodyMeetsSpec(pointers, env, front, s);
      ExecConcat(env, None, BodyStmts(front), ResetStmts(Field(f.name), f.ty), s);
      var m := ResetFields(env.call, env.x, env.structure, front, s);
      if m.Some? {
        FieldMeetsSpec(pointers, env, f.name, m.value);
        if Safe(pointers, env, s.heap) { FieldKeepsSafe(pointers, env, f.name, m.value); }
      }
    }
  }

  /** From the text to its effect: a compiler reads the generated body as code that resets every
      named field of the receiver, in order. */
  lemma TextMeetsSpec(pointers: set<Loc>, env: Env, fields: seq<NamedField>, s: State)
    requires env.fields == FieldMap(fields) && WellNamedFields(fields, env.fields)
    requires forall f :: f in fields ==> Flat(f.ty)
    requires (forall f :: f in fields ==> Steady(f.ty) || WritesNoPointer(env.call, f.ty)) || Safe(pointers, env, s.heap)
    ensures var code := Compiled(env.fields, PrintAll(BodyStmts(fields), 1));
            code.Some? && ExecAll(env, None, code.value, s) == ResetFields(env.call, env.x, env.structure, fields, s)
  {
    hide Flat, Steady, WritesNoPointer, Safe, Compiled, PrintAll, BodyStmts, ExecAll, ResetFields;
    BodyReadsBack(fields);
    BodyMeetsSpec(pointers, env, fields, s);
  }

  lemma FieldKeepsSafe(pointers: set<Loc>, env: Env, name: string, s: State)
    requires name in env.fields && Safe(pointers, env, s.heap)
    ensures var r := ResetValue(env.call, env.fields[name], FieldLoc(env, name), s);
            r.Some? ==> Safe(pointers, env, r.value.heap)
  {
    var ty := env.fields[name];
    var r := ResetValue(env.call, ty, FieldLoc(env, name), s);
    ResetKeepsPointers(env.call, pointers, ty, FieldLoc(env, name), s);
    if r.Some? {
      forall other | other in env.fields
        ensures Guarded(pointers, env.fields[other], FieldLoc(env, other), r.value.heap)
      {
        GuardedAgrees(pointers, env.fields[other], FieldLoc(env, other), s.heap, r.value.heap);
      }
    }
  }

  // ---- Generated structures inside generated structures ----

  /** The structures Reset is generated for, each with its fields, and the number of the structure
      that lives at an address. A structure contains, by value, structures of lower numbers only. */
  datatype Program = Program(structs: seq<Structure>, owner: Loc -> Option<nat>)

  datatype Structure = Structure(name: string, fields: seq<NamedField>)

  /** Reset methods: the generated ones of the structures numbered below n run their bodies; what
      other Reset methods do is given. */
  function GeneratedResets(program: Program, others: Calls, n: nat): Calls
    decreases n, 0
  {
    (l: Loc, h: Heap) =>
      match program.owner(l)
      case None => others(l, h)
      case Some(k) => if k < n && k < |program.structs| then RunBody(program, others, k, l, h) else others(l, h)
  }

  function RunBody(program: Program, others: Calls, k: nat, l: Loc, h: Heap): Option<Heap>
    requires k < |program.structs|
    decreases k, 1
  {
    var structure := program.structs[k];
    var env := Env(l, structure.name, FieldMap(structure.fields), GeneratedResets(program, others, k));
    match ExecAll(env, None, BodyStmts(structure.fields), State(h, []))
    case None => None
    case Some(r) => Some(r.heap)
  }

  /** What they mean: every field is reset, those of structures inside by the same rule. */
  function NestedResets(program: Program, others: Calls, n: nat): Calls
    decreases n, 0
  {
    (l: Loc, h: Heap) =>
      match program.owner(l)
      case None => others(l, h)
      case Some(k) => if k < n && k < |program.structs| then ResetNest(program, others, k, l, h) else others(l, h)
  }

  function ResetNest(program: Program, others: Calls, k: nat, l: Loc, h: Heap): Option<Heap>
    requires k < |program.structs|
    decreases k, 1
  {
    var structure := program.structs[k];
    match ResetFields(NestedResets(program, others, k), l, structure.name, structure.fields, State(h, []))
    case None => None
    case Some(r) => Some(r.heap)
  }

  ghost predicate SameCalls(a: Calls, b: Calls) {
    forall l, h :: a(l, h) == b(l, h)
  }

  lemma {:induction false} SameCallsValue(a: Calls, b: Calls, ty: GoType, l: Loc, s: State)
    requires SameCalls(a, b)
    ensures ResetValue(a, ty, l, s) == ResetValue(b, ty, l, s)
    decreases ty, 0
  {
    match ty {
      case Pointer(_, elem) =>
        if l in s.heap && s.heap[l].PtrCell? && s.heap[l].target.Some? { SameCallsValue(a, b, elem, s.heap[l].target.value, s); }
      case Array(length, elem) => SameCallsElements(a, b, elem, l, 0, length, s);
      case _ =>
    }
  }

  lemma {:induction false} SameCallsElements(a: Calls, b: Calls, elem: GoType, l: Loc, from: nat, length: nat, s: State)
    requires SameCalls(a, b)
    ensures ResetElements(a, elem, l, from, length, s) == ResetElements(b, elem, l, from, length, s)
    decreases elem, 1, length - from
  {
    if from < length {
      SameCallsValue(a, b, elem, ElemOf(l, from), s);
      var r := ResetValue(a, elem, ElemOf(l, from), s);
      if r.Some? { SameCallsElements(a, b, elem, l, from + 1, length, r.value); }
    }
  }

  lemma {:induction false} SameCallsFields(a: Calls, b: Calls, x: Loc, structure: string, fields: seq<NamedField>, s: State)
    requires SameCalls(a, b)
    ensures ResetFields(a, x, structure, fields, s) == ResetFields(b, x, structure, fields, s)
    decreases |fields|
  {
    hide SameCalls, ResetValue;
    if fields != [] {
      var front, f := fields[..|fields| - 1], fields[|fields| - 1];
      SameCallsFields(a, b, x, structure, front, s);
      var m := ResetFields(a, x, structure, front, s);
      if m.Some? { SameCallsValue(a, b, f.ty, FieldOf(x, FieldId(structure, f.name)), m.value); }
    }
  }

  /** No field ends in a type parameter that stands for a type with a pointer in it. */
  predicate ZeroesNoPointer(fields: seq<NamedField>) {
    forall f :: f in fields ==> !(LeafType(f.ty).TypeParam? && HoldsPointer(LeafType(f.ty).zero))
  }

  /** Reset methods of the program redirect no pointer. */
  ghost predicate NoRedirects(program: Program, others: Calls) {
    (forall structure :: structure in program.structs ==> ZeroesNoPointer(structure.fields)) && CallsWriteNoPointer(others)
  }

  lemma ValueKeepsPointers(call: Calls, ty: GoType, l: Loc, s: State)
    requires WritesNoPointer(call, ty)
    ensures var r := ResetValue(call, ty, l, s); r.Some? ==> SamePointers(s.heap, r.value.heap)
  {
    hide WritesNoPointer, ResetValue, Guarded;
    var pointers := set k | k in s.heap && s.heap[k].PtrCell?;
    ResetKeepsPointers(call, pointers, ty, l, s);
  }

  lemma {:induction false} FieldsKeepPointers(call: Calls, x: Loc, structure: string, fields: seq<NamedField>, s: State)
    requires ZeroesNoPointer(fields) && CallsWriteNoPointer(call)
    ensures var r := ResetFields(call, x, structure, fields, s); r.Some? ==> SamePointers(s.heap, r.value.heap)
    decreases |fields|
  {
    hide CallsWriteNoPointer, ResetValue, HoldsPointer;
    if fields != [] {
      var front, f := fields[..|fields| - 1], fields[|fields| - 1];
      FieldsKeepPointers(call, x, structure, front, s);
      var m := ResetFields(call, x, structure, front, s);
      if m.Some? {
        assert f in fields;
        ValueKeepsPointers(call, f.ty, FieldOf(x, FieldId(structure, f.name)), m.value);
      }
    }
  }

  /** Generated methods redirect no pointer unless the other methods they end in do. */
  lemma {:induction false} GeneratedKeepPointers(program: Program, others: Calls, n: nat)
    requires NoRedirects(program, others)
    ensures CallsWriteNoPointer(NestedResets(program, others, n))
    decreases n
  {
    hide ZeroesNoPointer, ResetFields, SamePointers;
    var call := NestedResets(program, others, n);
    forall l, h | call(l, h).Some?
      ensures SamePointers(h, call(l, h).value)
    {
      var k := program.owner(l);
      if k.Some? && k.value < n && k.value < |program.structs| {
        GeneratedKeepPointers(program, others, k.value);
        var structure := program.structs[k.value];
        FieldsKeepPointers(NestedResets(program, others, k.value), l, structure.name, structure.fields, State(h, []));
        assert call(l, h) == ResetNest(program, others, k.value, l, h);
      } else {
        assert call(l, h) == others(l, h);
      }
    }
  }

  /** Field names differ, and the code of every field is right on every heap. */
  ghost predicate WellFormed(program: Program, others: Calls) {
    forall k, f :: 0 <= k < |program.structs| && f in program.structs[k].fields ==>
      && f.name in FieldMap(program.structs[k].fields) && FieldMap(program.structs[k].fields)[f.name] == f.ty
      && Flat(f.ty) && (Steady(f.ty) || Tame(f.ty) || (CallsReset(f.ty) && NoRedirects(program, others)))
  }

  /** The generated methods together: on every heap, calling Reset on a structure resets its fields,
      and those of all structures inside it, recursively and in order. */
  lemma {:induction false} NestMeetsSpec(program: Program, others: Calls, n: nat)
    requires WellFormed(program, others)
    ensures SameCalls(GeneratedResets(program, others, n), NestedResets(program, others, n))
    decreases n
  {
    forall l, h
      ensures GeneratedResets(program, others, n)(l, h) == NestedResets(program, others, n)(l, h)
    {
      var k := program.owner(l);
      if k.Some? && k.value < n && k.value < |program.structs| {
        NestMeetsSpec(program, others, k.value);
        BodyOfNest(program, others, k.value, l, h);
      }
    }
  }

  lemma SameCallsWrite(a: Calls, b: Calls)
    requires SameCalls(a, b) && CallsWriteNoPointer(b)
    ensures CallsWriteNoPointer(a)
  {
    hide SamePointers;
    assert forall l, h :: a(l, h) == b(l, h);
  }

  lemma BodyOfNest(program: Program, others: Calls, k: nat, l: Loc, h: Heap)
    requires WellFormed(program, others) && k < |program.structs|
    requires SameCalls(GeneratedResets(program, others, k), NestedResets(program, others, k))
    ensures RunBody(program, others, k, l, h) == ResetNest(program, others, k, l, h)
  {
    hide SameCalls, GeneratedResets, NestedResets, Flat, Steady, Tame, ExecAll, ResetFields, BodyStmts, CallsWriteNoPointer, CallsReset;
    var structure := program.structs[k];
    var env := Env(l, structure.name, FieldMap(structure.fields), GeneratedResets(program, others, k));
    if NoRedirects(program, others) {
      GeneratedKeepPointers(program, others, k);
      SameCallsWrite(env.call, NestedResets(program, others, k));
    }
    BodyMeetsSpec({}, env, structure.fields, State(h, []));
    SameCallsFields(env.call, NestedResets(program, others, k), l, structure.name, structure.fields, State(h, []));
  }
}
