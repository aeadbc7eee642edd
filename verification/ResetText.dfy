/** The text of the generated statements, and how a Go parser reads it ("Blocks", "Assignment
    statements", "If statements", "For statements" and "Integer literals" of the Go specification). */
module ResetText {
  import opened Metrics
  import opened ResetPaths
  import opened ResetGenerator

  function Indent(level: nat): string {
    seq(level, _ => '\t')
  }

  function LiteralText(literal: Literal): string {
    match literal case False => "false" case EmptyString => "\"\"" case Zero => "0" case Nil => "nil"
  }

  function Block(head: string, body: string, tail: string): string {
    head + body + tail
  }

  /** How a statement is written, one line per element of the generated file. */
  function Print(stmt: Stmt, level: nat): string
    decreases stmt
  {
    var at, e := Indent(level), Expression(stmt.target);
    match stmt
    case ZeroVar(_, name, _) =>
      at + "{\n" + at + "\tvar zero " + name + "\n" + at + "\t" + e + " = zero\n" + at + "}\n"
    case Assign(_, literal) => at + e + " = " + LiteralText(literal) + "\n"
    case Truncate(_) => at + e + " = " + Parenthesize(e) + TO_ZERO + "\n"
    case Clear(_) => at + "clear(" + e + ")\n"
    case IfNotNil(_, body) => Block(at + "if " + e + " != nil {\n", PrintAll(body, level + 1), at + "}\n")
    case IfResetter(_) =>
      at + "if resetter, ok := " + Parenthesize(e) + ASSERTION + "; ok {\n" + at + "\tresetter.Reset()\n" + at + "}\n"
    case CallReset(_) => at + Parenthesize(e) + ".Reset()\n"
    case ForRange(_, _, body) => Block(at + "for i := range " + e + " {\n", PrintAll(body, level + 1), at + "}\n")
  }

  function PrintAll(stmts: seq<Stmt>, level: nat): string
    decreases stmts, 0
  {
    if stmts == [] then "" else Print(stmts[0], level) + PrintAll(stmts[1..], level)
  }

  lemma PrintSingle(stmt: Stmt, level: nat)
    ensures PrintAll([stmt], level) == Print(stmt, level)
  {
    assert [stmt][1..] == [];
  }

  lemma {:induction false} PrintConcat(a: seq<Stmt>, b: seq<Stmt>, level: nat)
    ensures PrintAll(a + b, level) == PrintAll(a, level) + PrintAll(b, level)
    decreases |a|
  {
    if a == [] {
      assert a + b == b;
    } else {
      assert (a + b)[1..] == a[1..] + b;
      PrintConcat(a[1..], b, level);
    }
  }

  // ---- The reader: the part of Go's statement grammar the generator needs ----

  datatype GoStmt =
    | Assignment(lhs: Expr, rhs: Expr)
    | Evaluation(e: Expr)
    | VarDecl(name: string, typeName: string)
    | Nested(body: seq<GoStmt>)
    | If(init: Option<ShortDecl>, condition: Condition, body: seq<GoStmt>)
    | RangeOver(index: string, operand: Expr, body: seq<GoStmt>)

  /** `first, second := e` */
  datatype ShortDecl = ShortDecl(first: string, second: string, e: Expr)

  datatype Condition = Holds(e: Expr) | NotEqual(e: Expr, other: Expr)

  /** One thing read, and the text after it. */
  datatype Read<T> = Read(value: T, rest: string)

  function SkipTabs(s: string): (r: string)
    ensures |r| <= |s|
  {
    if s != "" && s[0] == '\t' then SkipTabs(s[1..]) else s
  }

  /** The text behind a fixed piece of text, if s starts with that. */
  function Skip(piece: string, s: string): (r: Option<string>)
    ensures r.Some? ==> |r.value| + |piece| == |s|
  {
    if piece <= s then Some(s[|piece|..]) else None
  }

  /** Statements, each ended by a newline, up to a closing brace or the end of the text. */
  function ParseStmts(s: string): (r: Option<Read<seq<GoStmt>>>)
    ensures r.Some? ==> |r.value.rest| <= |s|
    decreases |s|, 2
  {
    var t := SkipTabs(s);
    if t == "" || t[0] == '}' then Some(Read([], t))
    else
      match ParseStmt(t)
      case None => None
      case Some(first) =>
        if first.rest == "" || first.rest[0] != '\n' then None
        else match ParseStmts(first.rest[1..])
          case None => None
          case Some(more) => Some(Read([first.value] + more.value, more.rest))
  }

  function ParseStmt(s: string): (r: Option<Read<GoStmt>>)
    ensures r.Some? ==> |r.value.rest| <= |s|
    decreases |s|, 1
  {
    if "{" <= s then
      match ParseBlock(s) case None => None case Some(b) => Some(Read(Nested(b.value), b.rest))
    else if "if " <= s then ParseIf(s[3..])
    else if "for " <= s then ParseFor(s[4..])
    else if "var " <= s then ParseVar(s[4..])
    else
      match ParseUnary(s)
      case None => None
      case Some(left) =>
        match Skip(" = ", left.rest)
        case None => Some(Read(Evaluation(left.expr), left.rest))
        case Some(t) =>
          match ParseUnary(t) case None => None case Some(right) => Some(Read(Assignment(left.expr, right.expr), right.rest))
  }

  function ParseBlock(s: string): (r: Option<Read<seq<GoStmt>>>)
    ensures r.Some? ==> |r.value.rest| <= |s|
    decreases |s|, 0
  {
    match Skip("{\n", s)
    case None => None
    case Some(t) =>
      match ParseStmts(t)
      case None => None
      case Some(b) => if b.rest == "" || b.rest[0] != '}' then None else Some(Read(b.value, b.rest[1..]))
  }

  function ParseIf(s: string): (r: Option<Read<GoStmt>>)
    ensures r.Some? ==> |r.value.rest| <= |s|
    decreases |s|, 0
  {
    match ParseHeader(s)
    case None => None
    case Some(header) =>
      match ParseBlock(header.rest)
      case None => None
      case Some(b) => Some(Read(If(header.value.0, header.value.1, b.value), b.rest))
  }

  /** A condition, with a declaration and a semicolon in front of it or without. */
  function ParseHeader(s: string): (r: Option<Read<(Option<ShortDecl>, Condition)>>)
    ensures r.Some? ==> |r.value.rest| < |s|
  {
    match ParseDecl(s)
    case None => (match ParseCondition(s) case None => None case Some(c) => Some(Read((None, c.value), c.rest)))
    case Some(d) => (match ParseCondition(d.rest) case None => None case Some(c) => Some(Read((Some(d.value), c.value), c.rest)))
  }

  function ParseDecl(s: string): (r: Option<Read<ShortDecl>>)
    ensures r.Some? ==> |r.value.rest| < |s|
  {
    var k := IdentLength(s);
    match Skip(", ", s[k..])
    case None => None
    case Some(t) =>
      var n := IdentLength(t);
      match Skip(" := ", t[n..])
      case None => None
      case Some(u) =>
        if k == 0 || n == 0 then None
        else match ParseUnary(u)
          case None => None
          case Some(p) =>
            match Skip("; ", p.rest) case None => None case Some(v) => Some(Read(ShortDecl(s[..k], t[..n], p.expr), v))
  }

  /** An expression or `!=` between two, and the space in front of the block. */
  function ParseCondition(s: string): (r: Option<Read<Condition>>)
    ensures r.Some? ==> |r.value.rest| < |s|
  {
    match ParseUnary(s)
    case None => None
    case Some(left) =>
      match Skip(" != ", left.rest)
      case None => (match Skip(" ", left.rest) case None => None case Some(t) => Some(Read(Holds(left.expr), t)))
      case Some(t) =>
        match ParseUnary(t)
        case None => None
        case Some(right) =>
          match Skip(" ", right.rest)
          case None => None
          case Some(u) => Some(Read(NotEqual(left.expr, right.expr), u))
  }

  function ParseFor(s: string): (r: Option<Read<GoStmt>>)
    ensures r.Some? ==> |r.value.rest| <= |s|
    decreases |s|, 0
  {
    var k := IdentLength(s);
    match Skip(" := range ", s[k..])
    case None => None
    case Some(t) =>
      match ParseUnary(t)
      case None => None
      case Some(p) =>
        match Skip(" ", p.rest)
        case None => None
        case Some(u) =>
          match ParseBlock(u)
          case None => None
          case Some(b) => if k == 0 then None else Some(Read(RangeOver(s[..k], p.expr, b.value), b.rest))
  }

  function ParseVar(s: string): (r: Option<Read<GoStmt>>)
    ensures r.Some? ==> |r.value.rest| <= |s|
  {
    var k := IdentLength(s);
    match Skip(" ", s[k..])
    case None => None
    case Some(t) =>
      var n := IdentLength(t);
      if k == 0 || n == 0 then None else Some(Read(VarDecl(s[..k], t[..n]), t[n..]))
  }

  // ---- What the syntax means to the type checker ----

  /** The location an expression denotes. */
  function PathOf(e: Expr): Option<Path> {
    match e
    case Selector(Name(receiver), name) => if receiver == "x" then Some(Field(name)) else None
    case Star(f) => (match PathOf(f) case None => None case Some(p) => Some(Deref(p)))
    case Indexed(f, Name(index)) =>
      if index == "i" then (match PathOf(f) case None => None case Some(p) => Some(Index(p))) else None
    case _ => None
  }

  /** The value assigned: a constant, nil, or the target itself sliced to length 0. */
  function Assigned(target: Path, lhs: Expr, rhs: Expr): Option<Stmt> {
    match rhs
    case IntLit(n) => if n == 0 then Some(Assign(target, Zero)) else None
    case StringLit(text) => if text == "" then Some(Assign(target, EmptyString)) else None
    case Name(id) =>
      if id == "false" then Some(Assign(target, False)) else if id == "nil" then Some(Assign(target, Nil)) else None
    case SliceToZero(e) => if e == lhs then Some(Truncate(target)) else None
    case _ => None
  }

  /** The statement of the model that a Go statement is, given the types of the receiver's fields. */
  function Understood(fields: map<string, GoType>, g: GoStmt): Option<Stmt>
    decreases g
  {
    match g
    case Assignment(lhs, rhs) => (match PathOf(lhs) case None => None case Some(p) => Assigned(p, lhs, rhs))
    case Evaluation(Call(Selector(e, sel))) =>
      (match PathOf(e) case None => None case Some(p) => if sel == "Reset" then Some(CallReset(p)) else None)
    case Evaluation(CallWith(Name(f), e)) =>
      (match PathOf(e) case None => None case Some(p) => if f == "clear" then Some(Clear(p)) else None)
    case Nested(body) => UnderstoodZeroing(fields, body)
    case If(None, NotEqual(e, Name(nil)), body) =>
      (match (PathOf(e), UnderstoodAll(fields, body))
       case (Some(p), Some(inner)) => if nil == "nil" then Some(IfNotNil(p, inner)) else None
       case _ => None)
    case If(Some(ShortDecl(v, ok, AssertResetter(e))), Holds(Name(tested)), body) =>
      (match PathOf(e)
       case None => None
       case Some(p) =>
         if v != ok && tested == ok && body == [Evaluation(Call(Selector(Name(v), "Reset")))] then Some(IfResetter(p)) else None)
    case RangeOver(index, e, body) =>
      (match (PathOf(e), UnderstoodAll(fields, body))
       case (Some(p), Some(inner)) =>
         (match TypeOf(fields, p)
          case Some(Array(length, _)) => if index == "i" then Some(ForRange(p, length, inner)) else None
          case _ => None)
       case _ => None)
    case _ => None
  }

  /** A variable that is declared and never assigned holds the zero value of its type. */
  function UnderstoodZeroing(fields: map<string, GoType>, body: seq<GoStmt>): Option<Stmt> {
    if !(|body| == 2 && body[0].VarDecl? && body[1].Assignment? && body[1].rhs == Name(body[0].name)) then None
    else match PathOf(body[1].lhs)
      case None => None
      case Some(p) =>
        match TypeOf(fields, p)
        case Some(TypeParam(name, zero)) => if name == body[0].typeName then Some(ZeroVar(p, name, zero)) else None
        case _ => None
  }

  function UnderstoodAll(fields: map<string, GoType>, gs: seq<GoStmt>): Option<seq<Stmt>>
    decreases gs
  {
    if gs == [] then Some([])
    else match (Understood(fields, gs[0]), UnderstoodAll(fields, gs[1..]))
      case (Some(first), Some(more)) => Some([first] + more)
      case _ => None
  }

  /** What a Go compiler makes of the text of a body. */
  function Compiled(fields: map<string, GoType>, text: string): Option<seq<Stmt>> {
    match ParseStmts(text)
    case None => None
    case Some(r) => if r.rest == "" then UnderstoodAll(fields, r.value) else None
  }

  // ---- Well-named statements ----

  predicate WellNamedStmt(stmt: Stmt)
    decreases stmt
  {
    && WellNamed(stmt.target)
    && (stmt.ZeroVar? ==> IsIdentifier(stmt.typeName))
    && (stmt.IfNotNil? || stmt.ForRange? ==> WellNamedAll(stmt.body))
  }

  predicate WellNamedAll(stmts: seq<Stmt>)
    decreases stmts
  {
    stmts == [] || (WellNamedStmt(stmts[0]) && WellNamedAll(stmts[1..]))
  }

  /** The names the type of a field brings in. */
  predicate WellNamedType(ty: GoType) {
    match ty
    case Pointer(_, elem) => WellNamedType(elem)
    case Array(_, elem) => WellNamedType(elem)
    case TypeParam(name, _) => IsIdentifier(name)
    case _ => true
  }

  lemma {:induction false} ResetIsWellNamed(p: Path, ty: GoType)
    requires WellNamed(p) && WellNamedType(ty)
    ensures WellNamedAll(ResetStmts(p, ty))
    decreases ty
  {
    if ResetStmts(p, ty) != [] { assert ResetStmts(p, ty)[1..] == []; }
    match ty {
      case Pointer(_, elem) => ResetIsWellNamed(Deref(p), elem);
      case Array(_, elem) => ResetIsWellNamed(Index(p), elem);
      case _ =>
    }
  }

  // ---- The syntax trees of the statements ----

  function LiteralSyntax(literal: Literal): Expr {
    match literal case False => Name("false") case EmptyString => StringLit("") case Zero => IntLit(0) case Nil => Name("nil")
  }

  function Syntax(stmt: Stmt): GoStmt
    decreases stmt
  {
    var e := Meaning(stmt.target);
    match stmt
    case ZeroVar(_, name, _) => Nested([VarDecl("zero", name), Assignment(e, Name("zero"))])
    case Assign(_, literal) => Assignment(e, LiteralSyntax(literal))
    case Truncate(_) => Assignment(e, SliceToZero(e))
    case Clear(_) => Evaluation(CallWith(Name("clear"), e))
    case IfNotNil(_, body) => If(None, NotEqual(e, Name("nil")), SyntaxAll(body))
    case IfResetter(_) =>
      If(Some(ShortDecl("resetter", "ok", AssertResetter(e))), Holds(Name("ok")),
         [Evaluation(Call(Selector(Name("resetter"), "Reset")))])
    case CallReset(_) => Evaluation(Call(Selector(e, "Reset")))
    case ForRange(_, _, body) => RangeOver("i", e, SyntaxAll(body))
  }

  function SyntaxAll(stmts: seq<Stmt>): seq<GoStmt>
    decreases stmts, 0
  {
    if stmts == [] then [] else [Syntax(stmts[0])] + SyntaxAll(stmts[1..])
  }

  // ---- Pieces of text read back ----

  lemma Join3(a: string, b: string, c: string)
    ensures a + b + c == a + (b + c)
  {
  }

  lemma Join4(a: string, b: string, c: string, d: string)
    ensures a + b + c + d == a + (b + (c + d))
  {
    Join3(a, b, c);
    Join3(a, b + c, d);
    Join3(b, c, d);
  }

  lemma Join5(a: string, b: string, c: string, d: string, e: string)
    ensures a + b + c + d + e == a + (b + (c + (d + e)))
  {
    Join4(a, b, c, d);
    Join3(a, b + (c + d), e);
    Join3(b, c + d, e);
    Join3(c, d, e);
  }

  lemma Join6(a: string, b: string, c: string, d: string, e: string, f: string)
    ensures a + b + c + d + e + f == a + (b + (c + (d + (e + f))))
  {
    Join5(a, b, c, d, e);
    Join3(a, b + (c + (d + e)), f);
    Join4(b, c, d + e, f);
    Join3(b, c + (d + e), f);
    Join3(c, d + e, f);
    Join3(d, e, f);
  }

  lemma {:induction false} SkipIndent(level: nat, s: string)
    requires s == "" || s[0] != '\t'
    ensures SkipTabs(Indent(level) + s) == s
  {
    if level == 0 {
      assert Indent(level) + s == s;
    } else {
      assert (Indent(level) + s)[1..] == Indent(level - 1) + s;
      SkipIndent(level - 1, s);
    }
  }

  lemma SkipPiece(piece: string, rest: string)
    ensures Skip(piece, piece + rest) == Some(rest)
  {
  }

  lemma OtherStart(piece: string, s: string)
    ensures (exists k :: 0 <= k < |piece| && k < |s| && piece[k] != s[k]) ==> !(piece <= s) && Skip(piece, s).None?
  {
  }

  lemma {:induction false} AllIdentChars(s: string)
    requires forall i :: 0 <= i < |s| ==> IsIdentChar(s[i])
    ensures IdentChars(s) == |s|
  {
    if s != "" { AllIdentChars(s[1..]); }
  }

  /** The words of Go the generator uses. */
  predicate IsWord(s: string) {
    s in ["false", "nil", "zero", "clear", "resetter", "ok", "i", "Reset"]
  }

  lemma WordIsIdentifier(s: string)
    requires IsWord(s)
    ensures IsIdentifier(s)
  {
    assert forall i :: 0 <= i < |s| ==> IsLetter(s[i]);
    AllIdentChars(s);
  }

  lemma ReadWord(name: string, rest: string)
    requires IsIdentifier(name) && EndsName(rest) && Closed(rest)
    ensures ParseUnary(name + rest) == Some(Parsed(Name(name), rest))
  {
    IdentifierPrefix(name, rest);
    ReadNothing(Name(name), rest);
    hide ParsePostfix;
    assert IsLetter((name + rest)[0]) by { assert (name + rest)[0] == name[0]; }
  }

  lemma ReadZero(rest: string)
    requires rest == "" || !IsDigit(rest[0])
    ensures ParseUnary("0" + rest) == Some(Parsed(IntLit(0), rest))
  {
    var s := "0" + rest;
    assert s[1..] == rest && s[..1] == "0";
    assert Digits(s) == 1;
    assert Decimal("0") == 0 by { assert "0"[..0] == ""; }
  }

  lemma ReadEmptyString(rest: string)
    ensures ParseUnary("\"\"" + rest) == Some(Parsed(StringLit(""), rest))
  {
    var s := "\"\"" + rest;
    assert s[1..1] == "" && s[2..] == rest;
  }

  /** A location in front of something that does not belong to it. */
  lemma ReadPlain(p: Path, rest: string)
    requires WellNamed(p) && EndsName(rest) && Closed(rest)
    ensures ParseUnary(Expression(p) + rest) == Some(Parsed(Meaning(p), rest))
  {
    hide ParseUnary;
    ReadBack(p, rest);
    ReadNothing(Meaning(p), rest);
  }

  lemma {:induction false} FirstChar(p: Path)
    ensures Expression(p) != "" && Expression(p)[0] in "x*("
    ensures Parenthesize(Expression(p)) != "" && Parenthesize(Expression(p))[0] in "x("
  {
    match p {
      case Field(_) =>
      case Deref(q) =>
      case Index(q) => FirstChar(q);
    }
  }

  lemma LiteralReads(literal: Literal, rest: string)
    ensures ParseUnary(LiteralText(literal) + ("\n" + rest)) == Some(Parsed(LiteralSyntax(literal), "\n" + rest))
  {
    match literal {
      case False => WordIsIdentifier("false"); ReadWord("false", "\n" + rest);
      case EmptyString => ReadEmptyString("\n" + rest);
      case Zero => ReadZero("\n" + rest);
      case Nil => WordIsIdentifier("nil"); ReadWord("nil", "\n" + rest);
    }
  }

  // ---- Statements read back ----

  function Prepend(g: GoStmt, r: Option<Read<seq<GoStmt>>>): Option<Read<seq<GoStmt>>> {
    match r case None => None case Some(more) => Some(Read([g] + more.value, more.rest))
  }

  function PrependAll(gs: seq<GoStmt>, r: Option<Read<seq<GoStmt>>>): Option<Read<seq<GoStmt>>> {
    match r case None => None case Some(more) => Some(Read(gs + more.value, more.rest))
  }

  /** A line, or several, of which the first is indented. */
  lemma ReadLine(t: string, g: GoStmt, level: nat, tail: string)
    requires t != "" && t[0] != '\t' && t[0] != '}'
    requires ParseStmt(t + ("\n" + tail)) == Some(Read(g, "\n" + tail))
    ensures ParseStmts(Indent(level) + (t + ("\n" + tail))) == Prepend(g, ParseStmts(tail))
  {
    hide ParseStmt, Indent;
    var s := t + ("\n" + tail);
    assert s[0] == t[0];
    SkipIndent(level, s);
    assert ("\n" + tail)[1..] == tail;
  }

  /** Neither a block nor a keyword. */
  predicate StartsSimple(s: string) {
    (s != "" && s[0] in "x*(") || "clear(" <= s || "resetter." <= s
  }

  lemma SimpleStmt(s: string)
    requires StartsSimple(s)
    ensures ParseStmt(s) ==
              match ParseUnary(s)
              case None => None
              case Some(left) =>
                match Skip(" = ", left.rest)
                case None => Some(Read(Evaluation(left.expr), left.rest))
                case Some(t) =>
                  match ParseUnary(t) case None => None case Some(right) => Some(Read(Assignment(left.expr, right.expr), right.rest))
  {
    hide ParseUnary, Skip;
    assert s[0] in "x*(cr";
  }

  lemma ReadAssignment(p: Path, v: string, e: Expr, tail: string)
    requires WellNamed(p) && ParseUnary(v + ("\n" + tail)) == Some(Parsed(e, "\n" + tail))
    ensures ParseStmt((Expression(p) + " = " + v) + ("\n" + tail)) == Some(Read(Assignment(Meaning(p), e), "\n" + tail))
  {
    hide ParseUnary, ParseStmt;
    var rest := v + ("\n" + tail);
    var s := (Expression(p) + " = " + v) + ("\n" + tail);
    assert s == Expression(p) + (" = " + rest);
    FirstChar(p);
    assert s[0] == Expression(p)[0];
    ReadPlain(p, " = " + rest);
    SkipPiece(" = ", rest);
    SimpleStmt(s);
  }

  lemma ReadTruncation(p: Path, tail: string)
    requires WellNamed(p)
    ensures ParseUnary((Parenthesize(Expression(p)) + TO_ZERO) + ("\n" + tail)) == Some(Parsed(SliceToZero(Meaning(p)), "\n" + tail))
  {
    hide ParseUnary, ParsePostfix;
    var rest := TO_ZERO + ("\n" + tail);
    assert (Parenthesize(Expression(p)) + TO_ZERO) + ("\n" + tail) == Parenthesize(Expression(p)) + rest;
    ReadOperand(p, rest);
    SliceSuffix(Meaning(p), "\n" + tail);
  }

  lemma SliceSuffix(e: Expr, rest: string)
    requires Closed(rest)
    ensures ParsePostfix(e, TO_ZERO + rest) == Some(Parsed(SliceToZero(e), rest))
  {
    ReadNothing(SliceToZero(e), rest);
    assert (TO_ZERO + rest)[|TO_ZERO|..] == rest;
    assert TO_ZERO <= TO_ZERO + rest;
  }

  lemma ResetSuffix(e: Expr, rest: string)
    requires Closed(rest)
    ensures ParsePostfix(e, ".Reset()" + rest) == Some(Parsed(Call(Selector(e, "Reset")), rest))
  {
    hide ParsePostfix;
    WordIsIdentifier("Reset");
    ReadSelector(e, "Reset", "()" + rest);
    assert ".Reset()" + rest == "." + "Reset" + ("()" + rest);
    CallSuffix(Selector(e, "Reset"), rest);
  }

  lemma CallSuffix(e: Expr, rest: string)
    requires Closed(rest)
    ensures ParsePostfix(e, "()" + rest) == Some(Parsed(Call(e), rest))
  {
    ReadNothing(Call(e), rest);
    assert ("()" + rest)[2..] == rest;
  }

  lemma AssertionSuffix(e: Expr, rest: string)
    requires Closed(rest)
    ensures ParsePostfix(e, ASSERTION + rest) == Some(Parsed(AssertResetter(e), rest))
  {
    ReadNothing(AssertResetter(e), rest);
    assert (ASSERTION + rest)[|ASSERTION|..] == rest;
    assert ASSERTION <= ASSERTION + rest;
  }

  lemma ReadCall(p: Path, tail: string)
    requires WellNamed(p)
    ensures ParseStmt((Parenthesize(Expression(p)) + ".Reset()") + ("\n" + tail)) ==
            Some(Read(Evaluation(Call(Selector(Meaning(p), "Reset"))), "\n" + tail))
  {
    hide ParseUnary, ParsePostfix, ParseStmt, Parenthesize;
    var rest := ".Reset()" + ("\n" + tail);
    var s := (Parenthesize(Expression(p)) + ".Reset()") + ("\n" + tail);
    assert s == Parenthesize(Expression(p)) + rest;
    FirstChar(p);
    assert s[0] == Parenthesize(Expression(p))[0];
    ReadOperand(p, rest);
    ResetSuffix(Meaning(p), "\n" + tail);
    SimpleStmt(s);
  }

  lemma ReadClear(p: Path, tail: string)
    requires WellNamed(p)
    ensures ParseStmt(("clear(" + Expression(p) + ")") + ("\n" + tail)) ==
            Some(Read(Evaluation(CallWith(Name("clear"), Meaning(p))), "\n" + tail))
  {
    hide ParseUnary, ParsePostfix, ParseStmt, Expression, Meaning, WellNamed, IsIdentifier;
    var e, nl := Expression(p), "\n" + tail;
    var s := ("clear(" + e + ")") + nl;
    ClearLayout(e, nl);
    WordIsIdentifier("clear");
    WordStarts("clear", "(" + (e + (")" + nl)));
    ReadPlain(p, ")" + nl);
    FirstChar(p);
    ArgumentSuffix(Name("clear"), e, Meaning(p), nl);
    SimpleStmt(s);
  }

  lemma ClearLayout(e: string, nl: string)
    ensures ("clear(" + e + ")") + nl == "clear" + ("(" + (e + (")" + nl)))
    ensures "clear(" <= ("clear(" + e + ")") + nl
  {
    Join4("clear(", e, ")", nl);
    Join3("clear", "(", e + (")" + nl));
    assert "clear(" == "clear" + "(";
  }

  lemma WordStarts(name: string, rest: string)
    requires IsIdentifier(name) && EndsName(rest)
    ensures ParseUnary(name + rest) == ParsePostfix(Name(name), rest)
  {
    IdentifierPrefix(name, rest);
    hide ParsePostfix;
    assert IsLetter((name + rest)[0]) by { assert (name + rest)[0] == name[0]; }
  }

  lemma ArgumentSuffix(f: Expr, a: string, e: Expr, rest: string)
    requires a != "" && a[0] != ')' && Closed(rest)
    requires ParseUnary(a + (")" + rest)) == Some(Parsed(e, ")" + rest))
    ensures ParsePostfix(f, "(" + (a + (")" + rest))) == Some(Parsed(CallWith(f, e), rest))
  {
    var s := "(" + (a + (")" + rest));
    assert s[1..] == a + (")" + rest);
    assert !("()" <= s) by { assert s[1] == a[0]; }
    assert (")" + rest)[1..] == rest;
    ReadNothing(CallWith(f, e), rest);
  }

  // ---- Blocks read back ----

  lemma ReadBlock(inner: string, gs: seq<GoStmt>, level: nat, rest: string)
    requires ParseStmts(inner + (Indent(level) + ("}" + rest))) == PrependAll(gs, ParseStmts(Indent(level) + ("}" + rest)))
    ensures ParseBlock("{\n" + (inner + (Indent(level) + ("}" + rest)))) == Some(Read(gs, rest))
  {
    hide ParseStmts, Indent;
    ReadEnd(level, rest);
    SkipPiece("{\n", inner + (Indent(level) + ("}" + rest)));
    assert gs + [] == gs;
    assert ("}" + rest)[1..] == rest;
  }

  lemma ReadEnd(level: nat, rest: string)
    ensures ParseStmts(Indent(level) + ("}" + rest)) == Some(Read([], "}" + rest))
  {
    SkipIndent(level, "}" + rest);
  }

  /** No list of names in front of a location. */
  lemma NoDecl(p: Path, rest: string)
    requires WellNamed(p)
    ensures ParseDecl(Expression(p) + rest).None?
  {
    hide ParseUnary;
    FirstChar(p);
    var s := Expression(p) + rest;
    assert s[0] == Expression(p)[0];
    if s[0] == 'x' {
      FirstDot(p);
      assert s[1] == '.';
      assert IdentChars(s) == 1 by { assert IdentChars(s[1..]) == 0; }
      assert s[1..][0] == '.';
    }
  }

  lemma {:induction false} FirstDot(p: Path)
    requires Expression(p) != "" && Expression(p)[0] == 'x'
    ensures |Expression(p)| > 1 && Expression(p)[1] == '.'
  {
    match p {
      case Field(_) =>
      case Deref(_) =>
      case Index(q) =>
        FirstChar(q);
        FirstDot(q);
    }
  }

  lemma ReadNilTest(p: Path, block: string)
    requires WellNamed(p)
    ensures ParseHeader(Expression(p) + (" != nil " + block)) == Some(Read((None, NotEqual(Meaning(p), Name("nil"))), block))
  {
    hide ParseUnary, ParseDecl, Skip, Expression, Meaning, WellNamed, IsIdentifier;
    NoDecl(p, " != nil " + block);
    NilTestLayout(block);
    ReadPlain(p, " != nil " + block);
    SkipPiece(" != ", "nil" + (" " + block));
    WordIsIdentifier("nil");
    ReadWord("nil", " " + block);
    SkipPiece(" ", block);
  }

  lemma NilTestLayout(block: string)
    ensures " != nil " + block == " != " + ("nil" + (" " + block))
  {
    Join4(" != ", "nil", " ", block);
    assert " != nil " == " != " + "nil" + " ";
  }

  lemma ReadOkTest(p: Path, block: string)
    requires WellNamed(p) && "{" <= block
    ensures ParseHeader("resetter, ok := " + (Parenthesize(Expression(p)) + (ASSERTION + ("; ok " + block)))) ==
            Some(Read((Some(ShortDecl("resetter", "ok", AssertResetter(Meaning(p)))), Holds(Name("ok"))), block))
  {
    hide ParseUnary, ParsePostfix, ParseDecl, Skip, Parenthesize;
    DeclReads(p, "ok " + block);
    assert ASSERTION + ("; ok " + block) == ASSERTION + ("; " + ("ok " + block));
    assert "ok " + block == "ok" + (" " + block);
    WordIsIdentifier("ok");
    ReadWord("ok", " " + block);
    assert " != "[1] != (" " + block)[1];
    OtherStart(" != ", " " + block);
    SkipPiece(" ", block);
  }

  lemma DeclReads(p: Path, rest: string)
    requires WellNamed(p)
    ensures ParseDecl("resetter, ok := " + (Parenthesize(Expression(p)) + (ASSERTION + ("; " + rest)))) ==
            Some(Read(ShortDecl("resetter", "ok", AssertResetter(Meaning(p))), rest))
  {
    hide ParseUnary, ParsePostfix, Parenthesize, Skip, IdentLength, Expression, Meaning, WellNamed;
    var tested := Parenthesize(Expression(p)) + (ASSERTION + ("; " + rest));
    var second := "ok" + (" := " + tested);
    assert "resetter, ok := " + tested == "resetter" + (", " + second);
    WordIsIdentifier("resetter");
    WordIsIdentifier("ok");
    IdentifierPrefix("resetter", ", " + second);
    SkipPiece(", ", second);
    IdentifierPrefix("ok", " := " + tested);
    SkipPiece(" := ", tested);
    ReadOperand(p, ASSERTION + ("; " + rest));
    AssertionSuffix(Meaning(p), "; " + rest);
    SkipPiece("; ", rest);
  }

  lemma IfReads(header: string, init: Option<ShortDecl>, c: Condition, block: string, gs: seq<GoStmt>, rest: string)
    requires ParseHeader(header + block) == Some(Read((init, c), block)) && ParseBlock(block) == Some(Read(gs, rest))
    ensures ParseStmt("if " + (header + block)) == Some(Read(If(init, c, gs), rest))
  {
    hide ParseHeader, ParseBlock;
    var s := "if " + (header + block);
    assert s[3..] == header + block;
    assert s[0] == 'i' && !("{" <= s);
  }

  lemma ForReads(p: Path, block: string, gs: seq<GoStmt>, rest: string)
    requires WellNamed(p) && ParseBlock(block) == Some(Read(gs, rest))
    ensures ParseStmt("for i := range " + (Expression(p) + (" " + block))) == Some(Read(RangeOver("i", Meaning(p), gs), rest))
  {
    hide ParseBlock, ParseUnary, Skip;
    var over := Expression(p) + (" " + block);
    var s := "for i := range " + over;
    assert s[4..] == "i" + (" := range " + over);
    assert s[0] == 'f' && !("{" <= s) && !("if " <= s) && "for " <= s;
    WordIsIdentifier("i");
    IdentifierPrefix("i", " := range " + over);
    SkipPiece(" := range ", over);
    ReadPlain(p, " " + block);
    SkipPiece(" ", block);
  }

  lemma BlockReads(block: string, gs: seq<GoStmt>, rest: string)
    requires "{" <= block && ParseBlock(block) == Some(Read(gs, rest))
    ensures ParseStmt(block) == Some(Read(Nested(gs), rest))
  {
    hide ParseBlock;
  }

  lemma VarReads(name: string, tail: string)
    requires IsIdentifier(name)
    ensures ParseStmt(("var zero " + name) + ("\n" + tail)) == Some(Read(VarDecl("zero", name), "\n" + tail))
  {
    hide Skip, ParseUnary;
    var second := name + ("\n" + tail);
    var s := ("var zero " + name) + ("\n" + tail);
    assert s == "var " + ("zero" + (" " + second));
    assert s[4..] == "zero" + (" " + second);
    assert s[0] == 'v' && !("{" <= s) && !("if " <= s) && !("for " <= s) && "var " <= s;
    WordIsIdentifier("zero");
    IdentifierPrefix("zero", " " + second);
    SkipPiece(" ", second);
    IdentifierPrefix(name, "\n" + tail);
  }

  // ---- All statements read back ----

  ghost predicate ReadsAs(stmt: Stmt, level: nat, tail: string) {
    ParseStmts(Print(stmt, level) + tail) == Prepend(Syntax(stmt), ParseStmts(tail))
  }

  lemma AssignReads(stmt: Stmt, level: nat, tail: string)
    requires WellNamedStmt(stmt) && (stmt.Assign? || stmt.Truncate?)
    ensures ReadsAs(stmt, level, tail)
  {
    hide ParseUnary, ParseStmt, ParseStmts, Indent, Parenthesize, Expression, Meaning;
    var p := stmt.target;
    var v := if stmt.Assign? then LiteralText(stmt.literal) else Parenthesize(Expression(p)) + TO_ZERO;
    if stmt.Assign? { LiteralReads(stmt.literal, tail); } else { ReadTruncation(p, tail); }
    ReadAssignment(p, v, Syntax(stmt).rhs, tail);
    FirstChar(p);
    var t := Expression(p) + " = " + v;
    assert t[0] == Expression(p)[0];
    assert Print(stmt, level) + tail == Indent(level) + (t + ("\n" + tail));
    ReadLine(t, Syntax(stmt), level, tail);
  }

  lemma CallReads(stmt: Stmt, level: nat, tail: string)
    requires WellNamedStmt(stmt) && (stmt.CallReset? || stmt.Clear?)
    ensures ReadsAs(stmt, level, tail)
  {
    hide ParseUnary, ParseStmt, ParseStmts, Indent, Parenthesize, Expression, Meaning;
    var p := stmt.target;
    FirstChar(p);
    var t := if stmt.CallReset? then Parenthesize(Expression(p)) + ".Reset()" else "clear(" + Expression(p) + ")";
    if stmt.CallReset? {
      ReadCall(p, tail);
      assert t[0] == Parenthesize(Expression(p))[0];
    } else {
      ReadClear(p, tail);
      assert t[0] == 'c';
    }
    assert Print(stmt, level) + tail == Indent(level) + (t + ("\n" + tail));
    ReadLine(t, Syntax(stmt), level, tail);
  }

  lemma BlockLayout(at: string, before: string, inner: string, tail: string)
    ensures (before + "{\n" + inner + at + "}") + ("\n" + tail) == before + ("{\n" + (inner + (at + ("}" + ("\n" + tail)))))
    ensures at + before + "{\n" + inner + at + "}\n" + tail == at + ((before + "{\n" + inner + at + "}") + ("\n" + tail))
  {
    var nl := "\n" + tail;
    Join6(before, "{\n", inner, at, "}", nl);
    Join6(at + before, "{\n", inner, at, "}\n", tail);
    Join3("}", "\n", tail);
    assert "}\n" == "}" + "\n";
    Join3(at, before, "{\n" + (inner + (at + ("}" + nl))));
  }

  /** A header, a block of which the lines are read back, and the rest. */
  lemma BlockLine(before: string, inner: string, gs: seq<GoStmt>, g: GoStmt, level: nat, tail: string)
    requires before == "" || (before[0] != '\t' && before[0] != '}')
    requires var block := "{\n" + (inner + (Indent(level) + ("}" + ("\n" + tail))));
             ParseBlock(block) == Some(Read(gs, "\n" + tail)) ==> ParseStmt(before + block) == Some(Read(g, "\n" + tail))
    requires var end := Indent(level) + ("}" + ("\n" + tail)); ParseStmts(inner + end) == PrependAll(gs, ParseStmts(end))
    ensures ParseStmts(Indent(level) + before + "{\n" + inner + Indent(level) + "}\n" + tail) == Prepend(g, ParseStmts(tail))
  {
    hide ParseStmt, ParseStmts, ParseBlock, Indent;
    ReadBlock(inner, gs, level, "\n" + tail);
    BlockLayout(Indent(level), before, inner, tail);
    var t := before + "{\n" + inner + Indent(level) + "}";
    FirstOf(before, inner, Indent(level));
    ReadLine(t, g, level, tail);
  }

  lemma FirstOf(before: string, inner: string, at: string)
    ensures var t := before + "{\n" + inner + at + "}"; t != "" && t[0] == if before == "" then '{' else before[0]
  {
    Join5(before, "{\n", inner, at, "}");
    assert (before + ("{\n" + (inner + (at + "}"))))[0] == if before == "" then '{' else before[0];
  }

  lemma Deeper(level: nat)
    ensures Indent(level) + "\t" == Indent(level + 1)
  {
  }

  function ZeroingText(p: Path, name: string, level: nat): string {
    Indent(level) + ("var zero " + name + ("\n" + (Indent(level) + (Expression(p) + " = zero" + "\n"))))
  }

  lemma ZeroingLines(p: Path, name: string, level: nat, end: string)
    requires WellNamed(p) && IsIdentifier(name)
    ensures ParseStmts(ZeroingText(p, name, level) + end) ==
            PrependAll([VarDecl("zero", name), Assignment(Meaning(p), Name("zero"))], ParseStmts(end))
  {
    hide ParseUnary, ParseStmt, ParseStmts, Indent, Expression, Meaning, WellNamed, IsIdentifier;
    var first, second := "var zero " + name, Expression(p) + " = zero";
    var one, two := VarDecl("zero", name), Assignment(Meaning(p), Name("zero"));
    var rest := Indent(level) + (second + ("\n" + end));
    VarReads(name, rest);
    ReadLine(first, one, level, rest);
    WordIsIdentifier("zero");
    ReadWord("zero", "\n" + end);
    ReadAssignment(p, "zero", Name("zero"), end);
    assert second == Expression(p) + " = " + "zero";
    FirstChar(p);
    assert second[0] == Expression(p)[0];
    ReadLine(second, two, level, end);
    assert ZeroingText(p, name, level) + end == Indent(level) + (first + ("\n" + rest));
    PrependTwice(one, two, ParseStmts(end));
  }

  lemma ZeroingReads(stmt: Stmt, level: nat, tail: string)
    requires WellNamedStmt(stmt) && stmt.ZeroVar?
    ensures ReadsAs(stmt, level, tail)
  {
    hide ParseUnary, ParseStmt, ParseStmts, ParseBlock, Indent, Expression, Meaning, WellNamed, IsIdentifier;
    var p, name := stmt.target, stmt.typeName;
    var gs := [VarDecl("zero", name), Assignment(Meaning(p), Name("zero"))];
    var inner := ZeroingText(p, name, level + 1);
    ZeroingLines(p, name, level + 1, Indent(level) + ("}" + ("\n" + tail)));
    NestedReads(inner, gs, level, tail);
    BlockLine("", inner, gs, Syntax(stmt), level, tail);
    Deeper(level);
    ZeroingLayout(Indent(level), name, Expression(p), tail);
  }

  lemma ZeroingLayout(at: string, name: string, e: string, tail: string)
    ensures at + "{\n" + at + "\tvar zero " + name + "\n" + at + "\t" + e + " = zero\n" + at + "}\n" + tail
         == at + "" + "{\n" + ((at + "\t") + ("var zero " + name + ("\n" + ((at + "\t") + (e + " = zero" + "\n"))))) + at + "}\n" + tail
  {
    var a, b := at + "\tvar zero " + name + "\n", at + "\t" + e + " = zero\n";
    assert "\tvar zero " == "\t" + "var zero " && " = zero\n" == " = zero" + "\n";
    assert (at + "\t") + (e + " = zero" + "\n") == b;
    assert (at + "\t") + ("var zero " + name + ("\n" + b)) == a + b;
    assert at + "{\n" + at + "\tvar zero " + name + "\n" + at + "\t" + e + " = zero\n" == at + "{\n" + (a + b);
    assert at + "" == at;
  }

  lemma NestedReads(inner: string, gs: seq<GoStmt>, level: nat, tail: string)
    ensures var block := "{\n" + (inner + (Indent(level) + ("}" + ("\n" + tail))));
            ParseBlock(block) == Some(Read(gs, "\n" + tail)) ==> ParseStmt("" + block) == Some(Read(Nested(gs), "\n" + tail))
  {
    hide ParseBlock, Indent;
    var block := "{\n" + (inner + (Indent(level) + ("}" + ("\n" + tail))));
    assert "" + block == block;
    if ParseBlock(block) == Some(Read(gs, "\n" + tail)) { BlockReads(block, gs, "\n" + tail); }
  }

  lemma PrependTwice(a: GoStmt, b: GoStmt, r: Option<Read<seq<GoStmt>>>)
    ensures Prepend(a, Prepend(b, r)) == PrependAll([a, b], r)
  {
    if r.Some? { assert [a] + ([b] + r.value.value) == [a, b] + r.value.value; }
  }

  lemma PrependOnce(a: GoStmt, r: Option<Read<seq<GoStmt>>>)
    ensures Prepend(a, r) == PrependAll([a], r)
  {
  }

  lemma ResetterLine(level: nat, end: string)
    ensures ParseStmts((Indent(level) + "resetter.Reset()\n") + end) ==
            PrependAll([Evaluation(Call(Selector(Name("resetter"), "Reset")))], ParseStmts(end))
  {
    hide ParseStmt, ParseStmts, Indent;
    var call := Evaluation(Call(Selector(Name("resetter"), "Reset")));
    ResetterCall(end);
    ReadLine("resetter.Reset()", call, level, end);
    assert (Indent(level) + "resetter.Reset()\n") + end == Indent(level) + ("resetter.Reset()" + ("\n" + end));
    PrependOnce(call, ParseStmts(end));
  }

  lemma ResetterHeader(p: Path, block: string, gs: seq<GoStmt>, rest: string)
    requires WellNamed(p) && "{" <= block
    ensures ParseBlock(block) == Some(Read(gs, rest)) ==>
              ParseStmt(("if resetter, ok := " + Parenthesize(Expression(p)) + ASSERTION + "; ok ") + block) ==
              Some(Read(If(Some(ShortDecl("resetter", "ok", AssertResetter(Meaning(p)))), Holds(Name("ok")), gs), rest))
  {
    hide ParseStmt, ParseBlock, ParseHeader, Expression, Meaning, WellNamed, Parenthesize;
    var operand := Parenthesize(Expression(p));
    var header := "resetter, ok := " + operand + ASSERTION + "; ok ";
    ReadOkTest(p, block);
    OkTestLayout(operand, ASSERTION, block);
    if ParseBlock(block) == Some(Read(gs, rest)) {
      IfReads(header, Some(ShortDecl("resetter", "ok", AssertResetter(Meaning(p)))), Holds(Name("ok")), block, gs, rest);
    }
  }

  lemma OkTestLayout(operand: string, assertion: string, block: string)
    ensures ("resetter, ok := " + operand + assertion + "; ok ") + block
         == "resetter, ok := " + (operand + (assertion + ("; ok " + block)))
    ensures ("if resetter, ok := " + operand + assertion + "; ok ") + block
         == "if " + (("resetter, ok := " + operand + assertion + "; ok ") + block)
  {
    Join5("resetter, ok := ", operand, assertion, "; ok ", block);
    Join5("if resetter, ok := ", operand, assertion, "; ok ", block);
    assert "if resetter, ok := " == "if " + "resetter, ok := ";
    Join3("if ", "resetter, ok := ", operand + (assertion + ("; ok " + block)));
  }

  lemma ResetterReads(stmt: Stmt, level: nat, tail: string)
    requires WellNamedStmt(stmt) && stmt.IfResetter?
    ensures ReadsAs(stmt, level, tail)
  {
    hide ParseStmt, ParseStmts, ParseBlock, Indent, Expression, Meaning, WellNamed, Parenthesize;
    var operand := Parenthesize(Expression(stmt.target));
    var end := Indent(level) + ("}" + ("\n" + tail));
    var inner := Indent(level + 1) + "resetter.Reset()\n";
    var gs := [Evaluation(Call(Selector(Name("resetter"), "Reset")))];
    ResetterLine(level + 1, end);
    ResetterHeader(stmt.target, "{\n" + (inner + end), gs, "\n" + tail);
    var before := "if resetter, ok := " + operand + ASSERTION + "; ok ";
    BlockLine(before, inner, gs, Syntax(stmt), level, tail);
    Deeper(level);
    ResetterLayout(Indent(level), operand, ASSERTION, tail);
  }

  lemma ResetterLayout(at: string, operand: string, assertion: string, tail: string)
    ensures at + "if resetter, ok := " + operand + assertion + "; ok {\n" + at + "\tresetter.Reset()\n" + at + "}\n" + tail
         == at + ("if resetter, ok := " + operand + assertion + "; ok ") + "{\n" + (at + "\t" + "resetter.Reset()\n") + at + "}\n" + tail
  {
    var before := "if resetter, ok := " + operand + assertion;
    assert "; ok {\n" == "; ok " + "{\n" && "\tresetter.Reset()\n" == "\t" + "resetter.Reset()\n";
    Join4(at, "if resetter, ok := ", operand, assertion);
    Join3("if resetter, ok := ", operand, assertion);
    Join4(at, before, "; ok ", "{\n");
    Join3(before, "; ok ", "{\n");
    Join3(at, before + "; ok ", "{\n");
    Join3(at, before, "; ok {\n");
    var head := at + (before + "; ok ") + "{\n";
    Join3(at, "\t", "resetter.Reset()\n");
    Join3(head, at, "\tresetter.Reset()\n");
  }

  lemma ResetterCall(tail: string)
    ensures ParseStmt("resetter.Reset()" + ("\n" + tail)) ==
            Some(Read(Evaluation(Call(Selector(Name("resetter"), "Reset"))), "\n" + tail))
  {
    hide ParseUnary, ParsePostfix, ParseStmt;
    var s := "resetter.Reset()" + ("\n" + tail);
    assert s == "resetter" + (".Reset()" + ("\n" + tail)) && "resetter." <= s;
    WordIsIdentifier("resetter");
    WordStarts("resetter", ".Reset()" + ("\n" + tail));
    ResetSuffix(Name("resetter"), "\n" + tail);
    SimpleStmt(s);
  }

  lemma NilTestReads(stmt: Stmt, level: nat, tail: string)
    requires WellNamedStmt(stmt) && stmt.IfNotNil?
    requires var end := Indent(level) + ("}" + ("\n" + tail));
             ParseStmts(PrintAll(stmt.body, level + 1) + end) == PrependAll(SyntaxAll(stmt.body), ParseStmts(end))
    ensures ReadsAs(stmt, level, tail)
  {
    hide ParseUnary, ParseStmt, ParseStmts, ParseBlock, ParseHeader, Indent, Expression, Meaning, WellNamed, PrintAll, SyntaxAll;
    var inner, gs := PrintAll(stmt.body, level + 1), SyntaxAll(stmt.body);
    var header := Expression(stmt.target) + " != nil ";
    var block := "{\n" + (inner + (Indent(level) + ("}" + ("\n" + tail))));
    ReadNilTest(stmt.target, block);
    Join3(Expression(stmt.target), " != nil ", block);
    Join3("if ", header, block);
    if ParseBlock(block) == Some(Read(gs, "\n" + tail)) {
      IfReads(header, None, Syntax(stmt).condition, block, gs, "\n" + tail);
    }
    BlockLine("if " + header, inner, gs, Syntax(stmt), level, tail);
    HeaderLayout(Indent(level), "if ", Expression(stmt.target), " != nil ", inner, tail);
    assert " != nil {\n" == " != nil " + "{\n";
  }

  lemma HeaderLayout(at: string, keyword: string, e: string, after: string, inner: string, tail: string)
    ensures Block(at + keyword + e + (after + "{\n"), inner, at + "}\n") + tail
         == at + (keyword + (e + after)) + "{\n" + inner + at + "}\n" + tail
  {
    Join4(at, keyword, e, after + "{\n");
    Join3(e, after, "{\n");
    Join3(keyword, e + after, "{\n");
    Join3(at, keyword + (e + after), "{\n");
    Join3(at + (keyword + (e + after)) + "{\n" + inner, at, "}\n");
  }

  lemma LoopReads(stmt: Stmt, level: nat, tail: string)
    requires WellNamedStmt(stmt) && stmt.ForRange?
    requires var end := Indent(level) + ("}" + ("\n" + tail));
             ParseStmts(PrintAll(stmt.body, level + 1) + end) == PrependAll(SyntaxAll(stmt.body), ParseStmts(end))
    ensures ReadsAs(stmt, level, tail)
  {
    hide ParseUnary, ParseStmt, ParseStmts, ParseBlock, Indent, Expression, Meaning, WellNamed, PrintAll, SyntaxAll;
    var inner, gs := PrintAll(stmt.body, level + 1), SyntaxAll(stmt.body);
    var before := "for i := range " + (Expression(stmt.target) + " ");
    var block := "{\n" + (inner + (Indent(level) + ("}" + ("\n" + tail))));
    if ParseBlock(block) == Some(Read(gs, "\n" + tail)) {
      ForReads(stmt.target, block, gs, "\n" + tail);
      Join3(Expression(stmt.target), " ", block);
      Join3("for i := range ", Expression(stmt.target) + " ", block);
    }
    BlockLine(before, inner, gs, Syntax(stmt), level, tail);
    HeaderLayout(Indent(level), "for i := range ", Expression(stmt.target), " ", inner, tail);
    assert " {\n" == " " + "{\n";
  }

  lemma {:induction false} StmtReads(stmt: Stmt, level: nat, tail: string)
    requires WellNamedStmt(stmt)
    ensures ReadsAs(stmt, level, tail)
    decreases stmt
  {
    hide ReadsAs, ParseStmts, PrependAll, Print;
    match stmt {
      case ZeroVar(_, _, _) => ZeroingReads(stmt, level, tail);
      case Assign(_, _) => AssignReads(stmt, level, tail);
      case Truncate(_) => AssignReads(stmt, level, tail);
      case Clear(_) => CallReads(stmt, level, tail);
      case CallReset(_) => CallReads(stmt, level, tail);
      case IfResetter(_) => ResetterReads(stmt, level, tail);
      case IfNotNil(_, body) =>
        AllRead(body, level + 1, Indent(level) + ("}" + ("\n" + tail)));
        NilTestReads(stmt, level, tail);
      case ForRange(_, _, body) =>
        AllRead(body, level + 1, Indent(level) + ("}" + ("\n" + tail)));
        LoopReads(stmt, level, tail);
    }
  }

  lemma {:induction false} AllRead(stmts: seq<Stmt>, level: nat, tail: string)
    requires WellNamedAll(stmts)
    ensures ParseStmts(PrintAll(stmts, level) + tail) == PrependAll(SyntaxAll(stmts), ParseStmts(tail))
    decreases stmts
  {
    hide ParseStmts, Print;
    if stmts == [] {
      assert PrintAll(stmts, level) + tail == tail;
      if ParseStmts(tail).Some? { assert [] + ParseStmts(tail).value.value == ParseStmts(tail).value.value; }
    } else {
      StmtReads(stmts[0], level, PrintAll(stmts[1..], level) + tail);
      AllRead(stmts[1..], level, tail);
      assert PrintAll(stmts, level) + tail == Print(stmts[0], level) + (PrintAll(stmts[1..], level) + tail);
      if ParseStmts(tail).Some? {
        assert [Syntax(stmts[0])] + (SyntaxAll(stmts[1..]) + ParseStmts(tail).value.value)
            == SyntaxAll(stmts) + ParseStmts(tail).value.value;
      }
    }
  }

  // ---- ... and are understood ----

  lemma {:induction false} PathOfMeaning(p: Path)
    ensures PathOf(Meaning(p)) == Some(p)
  {
    match p {
      case Field(_) =>
      case Deref(q) => PathOfMeaning(q);
      case Index(q) => PathOfMeaning(q);
    }
  }

  lemma UnderstoodOne(fields: map<string, GoType>, stmt: Stmt)
    requires Understood(fields, Syntax(stmt)) == Some(stmt)
    ensures UnderstoodAll(fields, SyntaxAll([stmt])) == Some([stmt])
  {
    hide Understood, Syntax;
    assert [stmt][1..] == [];
    assert SyntaxAll([stmt]) == [Syntax(stmt)];
    assert [Syntax(stmt)][1..] == [] && UnderstoodAll(fields, []) == Some([]);
    assert [stmt] + [] == [stmt];
  }

  lemma LeafUnderstood(fields: map<string, GoType>, p: Path, ty: GoType)
    requires TypeOf(fields, p) == Some(ty) && !ty.Pointer? && !ty.Array? && !Inert(ty)
    ensures |ResetStmts(p, ty)| == 1 && Understood(fields, Syntax(ResetStmts(p, ty)[0])) == Some(ResetStmts(p, ty)[0])
  {
    PathOfMeaning(p);
    hide PathOf, Meaning, TypeOf;
    match ty
    case Basic(kind) => match kind { case Boolean => case String => case Numeric => case UnsafePointer => case OtherBasic => }
    case _ =>
  }

  lemma {:induction false} ResetUnderstood(fields: map<string, GoType>, p: Path, ty: GoType)
    requires TypeOf(fields, p) == Some(ty)
    ensures UnderstoodAll(fields, SyntaxAll(ResetStmts(p, ty))) == Some(ResetStmts(p, ty))
    decreases ty
  {
    PathOfMeaning(p);
    match ty {
      case Pointer(_, elem) =>
        ResetUnderstood(fields, Deref(p), elem);
        UnderstoodOne(fields, ResetStmts(p, ty)[0]);
      case Array(_, elem) =>
        ResetUnderstood(fields, Index(p), elem);
        UnderstoodOne(fields, ResetStmts(p, ty)[0]);
      case _ =>
        if !Inert(ty) {
          LeafUnderstood(fields, p, ty);
          UnderstoodOne(fields, ResetStmts(p, ty)[0]);
          assert ResetStmts(p, ty) == [ResetStmts(p, ty)[0]];
        }
    }
  }

  lemma {:induction false} Together(fields: map<string, GoType>, a: seq<Stmt>, b: seq<Stmt>)
    requires WellNamedAll(a) && UnderstoodAll(fields, SyntaxAll(a)) == Some(a)
    requires WellNamedAll(b) && UnderstoodAll(fields, SyntaxAll(b)) == Some(b)
    ensures WellNamedAll(a + b) && UnderstoodAll(fields, SyntaxAll(a + b)) == Some(a + b)
    decreases |a|
  {
    hide WellNamedStmt, Syntax, Understood;
    if a == [] {
      assert a + b == b;
    } else {
      assert SyntaxAll(a)[1..] == SyntaxAll(a[1..]);
      assert a == [a[0]] + a[1..];
      Together(fields, a[1..], b);
      assert (a + b)[1..] == a[1..] + b;
      assert SyntaxAll(a + b)[1..] == SyntaxAll(a[1..] + b);
      assert [a[0]] + (a[1..] + b) == a + b;
    }
  }

  lemma CompiledWhole(fields: map<string, GoType>, stmts: seq<Stmt>, level: nat)
    requires WellNamedAll(stmts) && UnderstoodAll(fields, SyntaxAll(stmts)) == Some(stmts)
    ensures Compiled(fields, PrintAll(stmts, level)) == Some(stmts)
  {
    hide UnderstoodAll, WellNamedAll, SyntaxAll, PrintAll;
    AllRead(stmts, level, "");
    assert PrintAll(stmts, level) + "" == PrintAll(stmts, level);
    assert SyntaxAll(stmts) + [] == SyntaxAll(stmts);
  }

  /** A Go compiler reads the text written for a location, at any depth of indentation, as exactly
      the statements that reset the location. */
  lemma ResetTextReadsBack(fields: map<string, GoType>, p: Path, ty: GoType, level: nat)
    requires WellNamed(p) && WellNamedType(ty) && TypeOf(fields, p) == Some(ty)
    ensures Compiled(fields, PrintAll(ResetStmts(p, ty), level)) == Some(ResetStmts(p, ty))
  {
    ResetIsWellNamed(p, ty);
    ResetUnderstood(fields, p, ty);
    CompiledWhole(fields, ResetStmts(p, ty), level);
  }
}
