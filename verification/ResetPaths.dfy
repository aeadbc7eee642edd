/** cmd/reset/main.go: the expressions the generator writes for a location, and how a Go parser
    reads them ("Primary expressions" and "Operators" of the Go language specification). */
module ResetPaths {
  import opened Metrics

  /** Where a value lives, seen from the receiver x: a field, the target of a pointer, or the
      element of an array at the loop variable i. */
  datatype Path = Field(name: string) | Deref(inner: Path) | Index(inner: Path)

  function Parenthesize(expression: string): string {
    if "*" <= expression then "(" + expression + ")" else expression
  }

  function Expression(p: Path): string {
    match p
    case Field(name) => "x." + name
    case Deref(q) => "*" + Parenthesize(Expression(q))
    case Index(q) => Parenthesize(Expression(q)) + "[i]"
  }

  predicate IsLetter(c: char) {
    'a' <= c <= 'z' || 'A' <= c <= 'Z' || c == '_' || c >= 128 as char
  }

  predicate IsIdentChar(c: char) {
    IsLetter(c) || '0' <= c <= '9'
  }

  function IdentChars(s: string): (n: nat)
    ensures n <= |s|
    ensures forall i :: 0 <= i < n ==> IsIdentChar(s[i])
    ensures n < |s| ==> !IsIdentChar(s[n])
  {
    if s == "" || !IsIdentChar(s[0]) then 0 else 1 + IdentChars(s[1..])
  }

  /** The length of the identifier s starts with, 0 if there is none. */
  function IdentLength(s: string): (n: nat)
    ensures n <= |s|
  {
    if s == "" || !IsLetter(s[0]) then 0 else IdentChars(s)
  }

  predicate IsIdentifier(s: string) {
    s != "" && IdentLength(s) == |s|
  }

  predicate WellNamed(p: Path) {
    match p
    case Field(name) => IsIdentifier(name)
    case Deref(q) => WellNamed(q)
    case Index(q) => WellNamed(q)
  }

  // ---- The reader: the part of Go's expression grammar the generator needs ----

  datatype Expr =
    | Name(id: string)
    | Selector(x: Expr, sel: string)
    | Star(x: Expr)
    | Indexed(x: Expr, index: Expr)
    | Call(f: Expr)
    | CallWith(f: Expr, argument: Expr)
    | IntLit(value: nat)
    | StringLit(text: string)
    | SliceToZero(x: Expr)
    | AssertResetter(x: Expr)

  const ASSERTION := ".(interface{ Reset() })"
  const TO_ZERO := "[:0]"

  datatype Parsed = Parsed(expr: Expr, rest: string)

  predicate IsDigit(c: char) {
    '0' <= c <= '9'
  }

  function Digits(s: string): (n: nat)
    ensures n <= |s|
    ensures s != "" && IsDigit(s[0]) ==> n > 0
  {
    if s == "" || !IsDigit(s[0]) then 0 else 1 + Digits(s[1..])
  }

  function Decimal(digits: string): nat
    requires forall i :: 0 <= i < |digits| ==> IsDigit(digits[i])
  {
    if digits == "" then 0
    else
      var last := digits[|digits| - 1];
      assert IsDigit(last);
      10 * Decimal(digits[..|digits| - 1]) + (last as int - '0' as int)
  }

  lemma {:induction false} DigitsAreDigits(s: string)
    ensures forall i :: 0 <= i < Digits(s) ==> IsDigit(s[i])
  {
    if s != "" && IsDigit(s[0]) { DigitsAreDigits(s[1..]); }
  }

  /** An integer literal; a 0 in front of other digits would make it octal. */
  function ParseInt(s: string): (r: Option<Parsed>)
    requires s != "" && IsDigit(s[0])
    ensures r.Some? ==> |r.value.rest| < |s|
  {
    var n := Digits(s);
    DigitsAreDigits(s);
    if n > 1 && s[0] == '0' then None else Some(Parsed(IntLit(Decimal(s[..n])), s[n..]))
  }

  /** Up to the closing quote; there are no escapes. */
  function ParseString(s: string, start: nat): (r: Option<Parsed>)
    requires 1 <= start <= |s|
    ensures r.Some? ==> |r.value.rest| < |s|
    decreases |s| - start
  {
    if start == |s| || s[start] == '\\' || s[start] == '\n' then None
    else if s[start] == '"' then Some(Parsed(StringLit(s[1..start]), s[start + 1..]))
    else ParseString(s, start + 1)
  }

  function ParseUnary(s: string): (r: Option<Parsed>)
    ensures r.Some? ==> |r.value.rest| < |s|
    decreases |s|, 1
  {
    if s != "" && s[0] == '*' then
      match ParseUnary(s[1..])
      case None => None
      case Some(p) => Some(Parsed(Star(p.expr), p.rest))
    else ParsePrimary(s)
  }

  function ParsePrimary(s: string): (r: Option<Parsed>)
    ensures r.Some? ==> |r.value.rest| < |s|
    decreases |s|, 0
  {
    if s != "" && s[0] == '(' then
      match ParseUnary(s[1..])
      case None => None
      case Some(p) => if p.rest != "" && p.rest[0] == ')' then ParsePostfix(p.expr, p.rest[1..]) else None
    else if s != "" && IsDigit(s[0]) then ParseInt(s)
    else if s != "" && s[0] == '"' then ParseString(s, 1)
    else
      var k := IdentLength(s);
      if k == 0 then None else ParsePostfix(Name(s[..k]), s[k..])
  }

  function ParsePostfix(e: Expr, s: string): (r: Option<Parsed>)
    ensures r.Some? ==> |r.value.rest| <= |s|
    decreases |s|, 0
  {
    if s == "" then Some(Parsed(e, s))
    else if s[0] == '.' then
      if ASSERTION <= s then ParsePostfix(AssertResetter(e), s[|ASSERTION|..])
      else
        var k := IdentLength(s[1..]);
        if k == 0 then None else ParsePostfix(Selector(e, s[1..][..k]), s[1 + k..])
    else if s[0] == '[' then
      if TO_ZERO <= s then ParsePostfix(SliceToZero(e), s[|TO_ZERO|..])
      else
        match ParseUnary(s[1..])
        case None => None
        case Some(p) => if p.rest != "" && p.rest[0] == ']' then ParsePostfix(Indexed(e, p.expr), p.rest[1..]) else None
    else if "()" <= s then ParsePostfix(Call(e), s[2..])
    else if s[0] == '(' then
      match ParseUnary(s[1..])
      case None => None
      case Some(p) => if p.rest != "" && p.rest[0] == ')' then ParsePostfix(CallWith(e, p.expr), p.rest[1..]) else None
    else Some(Parsed(e, s))
  }

  /** s is exactly one expression. */
  ghost predicate Reads(s: string, e: Expr) {
    ParseUnary(s) == Some(Parsed(e, ""))
  }

  /** The location a path means, as Go's own syntax tree. */
  function Meaning(p: Path): Expr {
    match p
    case Field(name) => Selector(Name("x"), name)
    case Deref(q) => Star(Meaning(q))
    case Index(q) => Indexed(Meaning(q), Name("i"))
  }

  /** Nothing that would still belong to a primary expression. */
  predicate Closed(rest: string) {
    rest == "" || (rest[0] != '.' && rest[0] != '[' && rest[0] != '(')
  }

  /** Nothing that would extend an identifier. */
  predicate EndsName(rest: string) {
    rest == "" || !IsIdentChar(rest[0])
  }

  lemma {:induction false} IdentifierPrefix(name: string, rest: string)
    requires IsIdentifier(name) && EndsName(rest)
    ensures IdentLength(name + rest) == |name|
    ensures (name + rest)[..|name|] == name && (name + rest)[|name|..] == rest
  {
    CharsPrefix(name, rest);
    assert (name + rest)[0] == name[0];
  }

  lemma {:induction false} CharsPrefix(name: string, rest: string)
    requires IdentChars(name) == |name| && EndsName(rest)
    ensures IdentChars(name + rest) == |name|
  {
    if name == "" {
      assert name + rest == rest;
    } else {
      assert (name + rest)[1..] == name[1..] + rest;
      CharsPrefix(name[1..], rest);
    }
  }

  lemma {:induction false} ReadField(name: string, rest: string)
    requires IsIdentifier(name) && EndsName(rest)
    ensures ParseUnary("x." + name + rest) == ParsePostfix(Meaning(Field(name)), rest)
  {
    var s, t := "x." + name + rest, "." + name + rest;
    assert s == "x" + t;
    assert IdentChars("x") == 1 by { assert "x"[1..] == ""; }
    IdentifierPrefix("x", t);
    assert ParseUnary(s) == ParsePostfix(Name("x"), t);
    ReadSelector(Name("x"), name, rest);
  }

  lemma {:induction false} ReadSelector(e: Expr, name: string, rest: string)
    requires IsIdentifier(name) && EndsName(rest)
    ensures ParsePostfix(e, "." + name + rest) == ParsePostfix(Selector(e, name), rest)
  {
    IdentifierPrefix(name, rest);
    var t := "." + name + rest;
    assert t[1..] == name + rest;
    assert !(ASSERTION <= t) by { assert IsLetter(name[0]) && t[1] == name[0]; }
    assert t[1 + |name|..] == rest;
  }

  lemma {:induction false} ReadIndex(e: Expr, rest: string)
    ensures ParsePostfix(e, "[i]" + rest) == ParsePostfix(Indexed(e, Name("i")), rest)
  {
    var s := "[i]" + rest;
    assert !(TO_ZERO <= s) by { assert s[1] == 'i'; }
    assert s[1..] == "i" + ("]" + rest);
    assert IdentChars("i") == 1 by { assert "i"[1..] == ""; }
    IdentifierPrefix("i", "]" + rest);
    assert ParsePrimary("i" + ("]" + rest)) == ParsePostfix(Name("i"), "]" + rest);
    assert ParsePostfix(Name("i"), "]" + rest) == Some(Parsed(Name("i"), "]" + rest));
    assert ("]" + rest)[1..] == rest;
  }

  lemma ReadStar(s: string)
    ensures ParseUnary("*" + s) == match ParseUnary(s) case None => None case Some(p) => Some(Parsed(Star(p.expr), p.rest))
  {
    assert ("*" + s)[1..] == s;
  }

  lemma ReadNothing(e: Expr, rest: string)
    requires Closed(rest)
    ensures ParsePostfix(e, rest) == Some(Parsed(e, rest))
  {
  }

  lemma {:induction false} StartsWithStar(p: Path)
    ensures Expression(p) != ""
    ensures "*" <= Expression(p) <==> p.Deref?
  {
    match p {
      case Field(_) =>
        assert Expression(p)[0] == 'x';
      case Deref(_) =>
      case Index(q) =>
        StartsWithStar(q);
        assert Expression(p)[0] == Parenthesize(Expression(q))[0];
    }
  }

  /** A path that does not start with `*` reads as an operand, whatever follows is applied to
      it; one that starts with `*` reads as that path when nothing follows. */
  lemma {:induction false} ReadBack(p: Path, rest: string)
    requires WellNamed(p) && EndsName(rest)
    ensures !p.Deref? ==> ParseUnary(Expression(p) + rest) == ParsePostfix(Meaning(p), rest)
    ensures p.Deref? && Closed(rest) ==> ParseUnary(Expression(p) + rest) == Some(Parsed(Meaning(p), rest))
    decreases p, 0
  {
    hide ParseUnary, ParsePrimary, ParsePostfix, Parenthesize;
    match p {
      case Field(name) =>
        assert Expression(p) + rest == "x." + name + rest;
        ReadField(name, rest);
      case Deref(q) =>
        ReadOperand(q, rest);
        var operand := Parenthesize(Expression(q)) + rest;
        assert Expression(p) + rest == "*" + operand;
        ReadStar(operand);
        if Closed(rest) { ReadNothing(Meaning(q), rest); }
      case Index(q) =>
        assert Expression(p) + rest == Parenthesize(Expression(q)) + ("[i]" + rest);
        ReadOperand(q, "[i]" + rest);
        ReadIndex(Meaning(q), rest);
    }
  }

  /** A parenthesized path is an operand: what is written behind it applies to the whole path. */
  lemma {:induction false} ReadOperand(p: Path, rest: string)
    requires WellNamed(p) && EndsName(rest)
    ensures ParseUnary(Parenthesize(Expression(p)) + rest) == ParsePostfix(Meaning(p), rest)
    decreases p, 1
  {
    StartsWithStar(p);
    hide Expression;
    ReadBack(p, rest);
    if p.Deref? {
      ReadBack(p, ")" + rest);
      assert Parenthesize(Expression(p)) + rest == "(" + (Expression(p) + (")" + rest));
      ReadGroup(Expression(p), Meaning(p), rest);
    }
  }

  lemma ReadGroup(s: string, e: Expr, rest: string)
    requires ParseUnary(s + (")" + rest)) == Some(Parsed(e, ")" + rest))
    ensures ParseUnary("(" + (s + (")" + rest))) == ParsePostfix(e, rest)
  {
    var t := "(" + (s + (")" + rest));
    assert t[1..] == s + (")" + rest);
    assert (")" + rest)[1..] == rest;
  }

  /** Every printed location, and every suffix the generator puts behind a parenthesized one,
      is read by Go as the intended location. */
  lemma {:induction false} PrintedPathsReadBack(p: Path)
    requires WellNamed(p)
    ensures Reads(Expression(p), Meaning(p))
    ensures Reads(Parenthesize(Expression(p)) + ".Reset()", Call(Selector(Meaning(p), "Reset")))
    ensures Reads(Parenthesize(Expression(p)) + ASSERTION, AssertResetter(Meaning(p)))
    ensures Reads(Parenthesize(Expression(p)) + TO_ZERO, SliceToZero(Meaning(p)))
  {
    hide ParseUnary, ParsePrimary, Parenthesize, Expression;
    var m := Meaning(p);
    ReadBack(p, "");
    ReadNothing(m, "");
    assert Expression(p) + "" == Expression(p);
    ReadOperand(p, ".Reset()");
    ReadReset(m);
    ReadOperand(p, ASSERTION);
    ReadAssertion(m);
    ReadOperand(p, TO_ZERO);
    ReadToZero(m);
  }

  lemma ReadAssertion(e: Expr)
    ensures ParsePostfix(e, ASSERTION) == Some(Parsed(AssertResetter(e), ""))
  {
    assert ASSERTION[|ASSERTION|..] == "";
  }

  lemma ReadToZero(e: Expr)
    ensures ParsePostfix(e, TO_ZERO) == Some(Parsed(SliceToZero(e), ""))
  {
    assert TO_ZERO[|TO_ZERO|..] == "";
  }

  lemma {:induction false} ReadReset(e: Expr)
    ensures ParsePostfix(e, ".Reset()") == Some(Parsed(Call(Selector(e, "Reset")), ""))
  {
    var s := ".Reset()";
    assert s[1..] == "Reset" + "()";
    assert IsIdentifier("Reset") by { IdentReset(); }
    IdentifierPrefix("Reset", "()");
    assert !(ASSERTION <= s);
    assert s[6..] == "()" && s[1..][..5] == "Reset";
    assert "()"[2..] == "";
  }

  lemma {:induction false} IdentReset()
    ensures IdentChars("Reset") == 5
  {
    assert "Reset"[1..] == "eset" && "eset"[1..] == "set" && "set"[1..] == "et" && "et"[1..] == "t" && "t"[1..] == "";
    assert IdentChars("") == 0;
    assert IdentChars("t") == 1;
    assert IdentChars("et") == 2;
    assert IdentChars("set") == 3;
    assert IdentChars("eset") == 4;
  }

  lemma {:induction false} MeaningInjective(p: Path, q: Path)
    requires Meaning(p) == Meaning(q)
    ensures p == q
  {
    match p {
      case Field(_) =>
      case Deref(p') => MeaningInjective(p', q.inner);
      case Index(p') => MeaningInjective(p', q.inner);
    }
  }

  /** Two locations are never printed alike. */
  lemma ExpressionInjective(p: Path, q: Path)
    requires WellNamed(p) && WellNamed(q) && Expression(p) == Expression(q)
    ensures p == q
  {
    PrintedPathsReadBack(p);
    PrintedPathsReadBack(q);
    MeaningInjective(p, q);
  }

  /** Without the parentheses an index behind a dereference would move inside it. */
  lemma ParenthesesAreNeeded(q: Path)
    requires WellNamed(q) && !q.Deref?
    ensures Reads(Expression(Deref(q)) + "[i]", Star(Indexed(Meaning(q), Name("i"))))
    ensures !Reads(Expression(Deref(q)) + "[i]", Meaning(Index(Deref(q))))
  {
    hide WellNamed, ParseUnary, ParsePostfix, Meaning;
    StarIndex(q);
    assert Star(Indexed(Meaning(q), Name("i"))) != Meaning(Index(Deref(q))) by { MeaningOfIndex(Deref(q)); }
  }

  lemma MeaningOfIndex(p: Path)
    ensures Meaning(Index(p)) == Indexed(Meaning(p), Name("i"))
  {
  }

  lemma StarIndex(q: Path)
    requires WellNamed(q) && !q.Deref?
    ensures ParseUnary(Expression(Deref(q)) + "[i]") == Some(Parsed(Star(Indexed(Meaning(q), Name("i"))), ""))
  {
    hide ParseUnary, ParsePostfix, Meaning, WellNamed;
    ReadBack(q, "[i]");
    IndexAtEnd(Meaning(q));
    StartsWithStar(q);
    assert Expression(Deref(q)) + "[i]" == "*" + (Expression(q) + "[i]");
    ReadStar(Expression(q) + "[i]");
  }

  lemma IndexAtEnd(e: Expr)
    ensures ParsePostfix(e, "[i]") == Some(Parsed(Indexed(e, Name("i")), ""))
  {
    ReadIndex(e, "");
    assert "[i]" + "" == "[i]";
  }
}
