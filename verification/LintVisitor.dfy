/** cmd/linter/analyzer.go: the walk that reports panic, log.Fatal and os.Exit. A call is named by
    its path from the root of the file. */
module LintVisitor {
  import opened Metrics

  /** What type checking says of the function a call names; an object may belong to no package. */
  datatype Callee = Builtin(name: string) | OtherIdent | Selector(target: Option<Object>) | OtherExpression

  datatype Object = Object(package: Option<string>, name: string)

  /** The parts of a node come in the order ast.Inspect visits them. */
  datatype Node =
    | Call(callee: Callee, parts: seq<Node>)
    | FuncLit(signature: Node, body: Node)
    | FuncDecl(hasReceiver: bool, name: string, signature: Node, block: Option<Node>)
    | Other(parts: seq<Node>)

  type Path = seq<nat>

  /** In a function, declared or literal, the body comes after the signature. */
  const BODY := 1

  datatype Offence = Panic | Fatal | Exit

  datatype Report = Report(path: Path, offence: Offence)

  function Children(n: Node): (r: seq<Node>)
    ensures forall i :: 0 <= i < |r| ==> r[i] < n
  {
    match n
    case Call(_, parts) => parts
    case FuncLit(signature, body) => [signature, body]
    case FuncDecl(_, _, signature, None) => [signature]
    case FuncDecl(_, _, signature, Some(block)) => [signature, block]
    case Other(parts) => parts
  }

  /** decl is the declaration whose body is walked, or none inside a literal. */
  predicate IsMainFunction(pkg: string, decl: Option<Node>) {
    && pkg == "main" && decl.Some? && decl.value.FuncDecl?
    && !decl.value.hasReceiver && decl.value.name == "main"
  }

  /** What checkCall reports, if anything. */
  function Verdict(callee: Callee, inMain: bool): Option<Offence> {
    match callee
    case Builtin(name) => if name == "panic" then Some(Panic) else None
    case Selector(target) =>
      if inMain || target.None? || target.value.package.None? then None
      else if target.value.package.value == "log" && target.value.name == "Fatal" then Some(Fatal)
      else if target.value.package.value == "os" && target.value.name == "Exit" then Some(Exit)
      else None
    case _ => None
  }

  function CallReport(n: Node, path: Path, inMain: bool): seq<Report> {
    if n.Call? && Verdict(n.callee, inMain).Some? then [Report(path, Verdict(n.callee, inMain).value)] else []
  }

  function BodyReports(n: Node, path: Path, inMain: bool): seq<Report>
    decreases n, |Children(n)| + 1
  {
    if n.FuncLit? then BodyReports(n.body, path + [BODY], false)
    else CallReport(n, path, inMain) + BodyReportsUpTo(n, path, inMain, |Children(n)|)
  }

  function BodyReportsUpTo(n: Node, path: Path, inMain: bool, i: nat): seq<Report>
    requires i <= |Children(n)|
    decreases n, i
  {
    if i == 0 then []
    else BodyReportsUpTo(n, path, inMain, i - 1) + BodyReports(Children(n)[i - 1], path + [i - 1], inMain)
  }

  /** None is a nil dereference: the walk enters the body of a declaration that has none. */
  function FileReports(pkg: string, n: Node, path: Path): Option<seq<Report>>
    decreases n, |Children(n)| + 1
  {
    if n.FuncDecl? then
      if n.block.None? then None
      else Some(BodyReports(n.block.value, path + [BODY], IsMainFunction(pkg, Some(n))))
    else FileReportsUpTo(pkg, n, path, |Children(n)|)
  }

  function FileReportsUpTo(pkg: string, n: Node, path: Path, i: nat): Option<seq<Report>>
    requires i <= |Children(n)|
    decreases n, i
  {
    if i == 0 then Some([])
    else
      var front := FileReportsUpTo(pkg, n, path, i - 1);
      if front.None? then None
      else
        var last := FileReports(pkg, Children(n)[i - 1], path + [i - 1]);
        if last.None? then None else Some(front.value + last.value)
  }

  class Pass {
    const pkg: string
    var reports: seq<Report>

    constructor (pkg: string)
      ensures this.pkg == pkg && reports == []
    {
      this.pkg := pkg;
      reports := [];
    }

    method InspectFile(n: Node, path: Path) returns (ok: bool)
      modifies this
      ensures ok <==> FileReports(pkg, n, path).Some?
      ensures ok ==> reports == old(reports) + FileReports(pkg, n, path).value
      decreases n
    {
      if n.FuncDecl? {
        if n.block.None? {
          return false;
        }
        InspectBody(n.block.value, path + [BODY], Some(n));
        return true;
      }
      for i := 0 to |Children(n)|
        invariant FileReportsUpTo(pkg, n, path, i).Some?
        invariant reports == old(reports) + FileReportsUpTo(pkg, n, path, i).value
      {
        var child := InspectFile(Children(n)[i], path + [i]);
        if !child {
          StaysNone(pkg, n, path, i + 1, |Children(n)|);
          return false;
        }
      }
      return true;
    }

    method InspectBody(n: Node, path: Path, decl: Option<Node>)
      modifies this
      ensures reports == old(reports) + BodyReports(n, path, IsMainFunction(pkg, decl))
      decreases n
    {
      if n.FuncLit? {
        InspectBody(n.body, path + [BODY], None);
        return;
      }
      if n.Call? {
        CheckCall(n, path, decl);
      }
      ghost var own := CallReport(n, path, IsMainFunction(pkg, decl));
      for i := 0 to |Children(n)|
        invariant reports == old(reports) + own + BodyReportsUpTo(n, path, IsMainFunction(pkg, decl), i)
      {
        InspectBody(Children(n)[i], path + [i], decl);
      }
    }

    method CheckCall(n: Node, path: Path, decl: Option<Node>)
      requires n.Call?
      modifies this
      ensures reports == old(reports) + CallReport(n, path, IsMainFunction(pkg, decl))
    {
      match n.callee {
        case Builtin(name) =>
          if name == "panic" {
            reports := reports + [Report(path, Panic)];
          }
        case Selector(target) =>
          if IsMainFunction(pkg, decl) {
            return;
          }
          if target.None? || target.value.package.None? {
            return;
          }
          var packagePath := target.value.package.value;
          if packagePath == "log" && target.value.name == "Fatal" {
            reports := reports + [Report(path, Fatal)];
          }
          if packagePath == "os" && target.value.name == "Exit" {
            reports := reports + [Report(path, Exit)];
          }
        case _ =>
      }
    }
  }

  lemma {:induction false} StaysNone(pkg: string, n: Node, path: Path, i: nat, j: nat)
    requires i <= j <= |Children(n)| && FileReportsUpTo(pkg, n, path, i).None?
    ensures FileReportsUpTo(pkg, n, path, j).None?
    decreases j - i
  {
    if i < j { StaysNone(pkg, n, path, i + 1, j); }
  }

  // ---- The same, said of paths ----

  function At(n: Node, path: Path): Option<Node>
    decreases |path|
  {
    if path == [] then Some(n)
    else if path[0] < |Children(n)| then At(Children(n)[path[0]], path[1..])
    else None
  }

  /** Node number i on the way along the path. */
  ghost predicate LitOn(n: Node, path: Path, i: nat)
    requires i <= |path|
  {
    At(n, path[..i]).Some? && At(n, path[..i]).value.FuncLit?
  }

  ghost predicate DeclOn(n: Node, path: Path, i: nat)
    requires i <= |path|
  {
    At(n, path[..i]).Some? && At(n, path[..i]).value.FuncDecl?
  }

  /** What the linter forbids: panic anywhere, and log.Fatal and os.Exit outside main.main. */
  predicate Forbidden(callee: Callee, inMain: bool, offence: Offence) {
    match offence
    case Panic => callee == Builtin("panic")
    case Fatal => !inMain && callee == Selector(Some(Object(Some("log"), "Fatal")))
    case Exit => !inMain && callee == Selector(Some(Object(Some("os"), "Exit")))
  }

  lemma VerdictExactly(callee: Callee, inMain: bool, offence: Offence)
    ensures Verdict(callee, inMain) == Some(offence) <==> Forbidden(callee, inMain, offence)
  {
    assert "log"[0] != "os"[0];
  }

  /** The function main of the package main. */
  predicate MainOfMain(pkg: string, decl: Option<Node>) {
    match decl case Some(FuncDecl(false, name, _, _)) => pkg == "main" && name == "main" case _ => false
  }

  lemma MainExactly(pkg: string, decl: Option<Node>)
    ensures IsMainFunction(pkg, decl) <==> MainOfMain(pkg, decl)
  {
  }

  /** Below a body, a call is seen unless it is in the signature of a literal; the exemption of
      main.main does not reach into literals. */
  ghost predicate OffendsInBody(n: Node, path: Path, inMain: bool, offence: Offence) {
    && At(n, path).Some? && At(n, path).value.Call?
    && LitsByBody(n, path) && Forbidden(At(n, path).value.callee, inMain && NoLit(n, path), offence)
  }

  /** Every literal on the way is left through its body. */
  ghost predicate LitsByBody(n: Node, path: Path) {
    forall i :: 0 <= i < |path| && LitOn(n, path, i) ==> path[i] == BODY
  }

  ghost predicate NoLit(n: Node, path: Path) {
    forall i :: 0 <= i < |path| ==> !LitOn(n, path, i)
  }

  /** The declaration at the d-th place of the path makes the call offend. */
  ghost predicate OffendsFrom(pkg: string, n: Node, path: Path, d: nat, o: Offence)
    requires d < |path|
  {
    && OutermostDecl(n, path, d) && path[d] == BODY
    && OffendsInBody(At(n, path[..d + 1]).value, path[d + 1..], MainOfMain(pkg, At(n, path[..d])), o)
  }

  /** A call offends when the outermost declaration around it has it in its body; calls outside
      every declaration never do. */
  ghost predicate Offends(pkg: string, n: Node, path: Path, offence: Offence) {
    exists d :: 0 <= d < |path| && OffendsFrom(pkg, n, path, d, offence)
  }

  ghost predicate OutermostDecl(n: Node, path: Path, d: nat)
    requires d < |path|
  {
    At(n, path[..d + 1]).Some? && DeclOn(n, path, d) && forall i :: 0 <= i < d ==> !DeclOn(n, path, i)
  }

  lemma OneDown(n: Node, c: nat, rest: Path, i: nat)
    requires c < |Children(n)| && i <= |rest|
    ensures At(n, [c] + rest) == At(Children(n)[c], rest)
    ensures At(n, ([c] + rest)[..i + 1]) == At(Children(n)[c], rest[..i])
    ensures LitOn(n, [c] + rest, i + 1) <==> LitOn(Children(n)[c], rest, i)
    ensures DeclOn(n, [c] + rest, i + 1) <==> DeclOn(Children(n)[c], rest, i)
  {
    assert ([c] + rest)[1..] == rest;
    assert ([c] + rest)[..i + 1] == [c] + rest[..i];
    assert ([c] + rest[..i])[1..] == rest[..i];
  }

  lemma NoLitDown(n: Node, c: nat, rest: Path)
    requires c < |Children(n)|
    ensures NoLit(n, [c] + rest) <==> !n.FuncLit? && NoLit(Children(n)[c], rest)
  {
    hide LitOn, DeclOn, At;
    var path := [c] + rest;
    LitAtTop(n, path);
    forall i | 0 <= i < |rest|
      ensures LitOn(Children(n)[c], rest, i) <==> LitOn(n, path, i + 1)
    {
      OneDown(n, c, rest, i);
    }
    assert forall j :: 0 < j < |path| ==> (LitOn(n, path, j) <==> LitOn(Children(n)[c], rest, j - 1));
  }

  lemma LitsByBodyDown(n: Node, c: nat, rest: Path)
    requires c < |Children(n)|
    ensures LitsByBody(n, [c] + rest) <==> (n.FuncLit? ==> c == BODY) && LitsByBody(Children(n)[c], rest)
  {
    hide LitOn, DeclOn, At;
    var path := [c] + rest;
    LitAtTop(n, path);
    forall i | 0 <= i < |rest|
      ensures path[i + 1] == rest[i] && (LitOn(Children(n)[c], rest, i) <==> LitOn(n, path, i + 1))
    {
      OneDown(n, c, rest, i);
    }
    assert forall j :: 0 < j < |path| ==> path[j] == rest[j - 1] && (LitOn(n, path, j) <==> LitOn(Children(n)[c], rest, j - 1));
  }

  lemma LitAtTop(n: Node, path: Path)
    ensures LitOn(n, path, 0) <==> n.FuncLit?
    ensures DeclOn(n, path, 0) <==> n.FuncDecl?
  {
    assert path[..0] == [];
  }

  /** What makes a path offend, one node further down. */
  lemma OffendsBelow(n: Node, c: nat, rest: Path, inMain: bool, o: Offence)
    requires c < |Children(n)|
    ensures OffendsInBody(n, [c] + rest, inMain, o) <==>
            (n.FuncLit? ==> c == BODY) && OffendsInBody(Children(n)[c], rest, inMain && !n.FuncLit?, o)
  {
    hide LitOn, DeclOn, At, NoLit, LitsByBody;
    OneDown(n, c, rest, 0);
    NoLitDown(n, c, rest);
    LitsByBodyDown(n, c, rest);
  }

  lemma OffendsHere(n: Node, inMain: bool, o: Offence)
    ensures OffendsInBody(n, [], inMain, o) <==> n.Call? && Verdict(n.callee, inMain) == Some(o)
  {
    if n.Call? { VerdictExactly(n.callee, inMain, o); }
  }

  lemma NotAPath(n: Node, path: Path, inMain: bool, o: Offence)
    requires path != [] && path[0] >= |Children(n)|
    ensures !OffendsInBody(n, path, inMain, o)
  {
  }

  // ---- The walk inside one body ----

  lemma Split(p: Path, base: Path, c: nat)
    ensures base + [c] <= p <==> base < p && p[|base|] == c
    ensures base < p ==> p[|base|..] == [p[|base|]] + p[|base| + 1..]
    ensures base <= p && !(base < p) ==> p == base && p[|base|..] == []
  {
    if base < p && p[|base|] == c {
      assert p[..|base| + 1] == base + [c];
    }
  }

  /** The walk of a body reports exactly the offending calls. */
  lemma {:induction false} BodyExact(n: Node, base: Path, inMain: bool, r: Report)
    ensures r in BodyReports(n, base, inMain) <==>
            base <= r.path && OffendsInBody(n, r.path[|base|..], inMain, r.offence)
    decreases n, |Children(n)| + 1
  {
    hide OffendsInBody, Verdict;
    var p := r.path;
    Split(p, base, BODY);
    OffendsHere(n, inMain, r.offence);
    if base < p {
      var c, rest := p[|base|], p[|base| + 1..];
      if c < |Children(n)| {
        OffendsBelow(n, c, rest, inMain, r.offence);
      } else {
        NotAPath(n, p[|base|..], inMain, r.offence);
      }
    }
    if n.FuncLit? {
      BodyExact(n.body, base + [BODY], false, r);
    } else {
      UpToExact(n, base, inMain, |Children(n)|, r);
    }
  }

  lemma {:induction false} UpToExact(n: Node, base: Path, inMain: bool, i: nat, r: Report)
    requires i <= |Children(n)| && !n.FuncLit?
    ensures r in BodyReportsUpTo(n, base, inMain, i) <==>
            base < r.path && r.path[|base|] < i &&
            OffendsInBody(Children(n)[r.path[|base|]], r.path[|base| + 1..], inMain, r.offence)
    decreases n, i
  {
    hide OffendsInBody;
    if i > 0 {
      UpToExact(n, base, inMain, i - 1, r);
      BodyExact(Children(n)[i - 1], base + [i - 1], inMain, r);
      Split(r.path, base, i - 1);
    }
  }

  ghost predicate Distinct(rs: seq<Report>) {
    forall i, j :: 0 <= i < j < |rs| ==> rs[i].path != rs[j].path
  }

  lemma DistinctJoin(a: seq<Report>, b: seq<Report>)
    requires Distinct(a) && Distinct(b)
    requires forall x, y :: x in a && y in b ==> x.path != y.path
    ensures Distinct(a + b)
  {
    forall i, j | 0 <= i < j < |a + b|
      ensures (a + b)[i].path != (a + b)[j].path
    {
      if i < |a| && j >= |a| {
        assert a[i] in a && b[j - |a|] in b;
      }
    }
  }

  /** No call is reported twice. */
  lemma {:induction false} BodyDistinct(n: Node, base: Path, inMain: bool)
    ensures Distinct(BodyReports(n, base, inMain))
    decreases n, |Children(n)| + 1
  {
    hide OffendsInBody, Verdict;
    if n.FuncLit? {
      BodyDistinct(n.body, base + [BODY], false);
    } else {
      var own, below := CallReport(n, base, inMain), BodyReportsUpTo(n, base, inMain, |Children(n)|);
      UpToDistinct(n, base, inMain, |Children(n)|);
      forall y | y in below
        ensures y.path != base
      {
        UpToExact(n, base, inMain, |Children(n)|, y);
      }
      DistinctJoin(own, below);
    }
  }

  lemma {:induction false} UpToDistinct(n: Node, base: Path, inMain: bool, i: nat)
    requires i <= |Children(n)| && !n.FuncLit?
    ensures Distinct(BodyReportsUpTo(n, base, inMain, i))
    decreases n, i
  {
    hide OffendsInBody, Distinct;
    if i == 0 {
      DistinctNothing();
    } else {
      var front, last := BodyReportsUpTo(n, base, inMain, i - 1), BodyReports(Children(n)[i - 1], base + [i - 1], inMain);
      UpToDistinct(n, base, inMain, i - 1);
      BodyDistinct(Children(n)[i - 1], base + [i - 1], inMain);
      forall x, y | x in front && y in last
        ensures x.path != y.path
      {
        UpToExact(n, base, inMain, i - 1, x);
        BodyExact(Children(n)[i - 1], base + [i - 1], inMain, y);
        Split(y.path, base, i - 1);
      }
      DistinctJoin(front, last);
    }
  }

  lemma DistinctNothing()
    ensures Distinct([])
  {
  }

  // ---- The walk of a file ----

  lemma OffendsInDecl(pkg: string, n: Node, c: nat, rest: Path, o: Offence)
    requires n.FuncDecl?
    ensures Offends(pkg, n, [c] + rest, o) <==>
            c == BODY && n.block.Some? && OffendsInBody(n.block.value, rest, IsMainFunction(pkg, Some(n)), o)
  {
    hide OffendsInBody, IsMainFunction, MainOfMain;
    var path := [c] + rest;
    LitAtTop(n, path);
    assert path[..0] == [] && path[..1] == [c] && path[1..] == rest && rest[..0] == [];
    if c < |Children(n)| { OneDown(n, c, rest, 0); }
    assert forall d :: 0 < d < |path| ==> !OffendsFrom(pkg, n, path, d, o);
    MainExactly(pkg, Some(n));
    assert OffendsFrom(pkg, n, path, 0, o) <==>
           c == BODY && n.block.Some? && OffendsInBody(n.block.value, rest, IsMainFunction(pkg, Some(n)), o);
  }

  lemma OutermostDown(n: Node, c: nat, rest: Path, d: nat)
    requires !n.FuncDecl? && c < |Children(n)| && d < |rest|
    ensures OutermostDecl(n, [c] + rest, d + 1) <==> OutermostDecl(Children(n)[c], rest, d)
  {
    hide LitOn, DeclOn, At;
    var path := [c] + rest;
    LitAtTop(n, path);
    forall i | 0 <= i <= |rest|
      ensures DeclOn(Children(n)[c], rest, i) <==> DeclOn(n, path, i + 1)
    {
      OneDown(n, c, rest, i);
    }
    OneDown(n, c, rest, d + 1);
    assert forall j :: 0 < j <= d ==> (DeclOn(n, path, j) <==> DeclOn(Children(n)[c], rest, j - 1));
  }

  lemma OffendsFromDown(pkg: string, n: Node, c: nat, rest: Path, d: nat, o: Offence)
    requires !n.FuncDecl? && c < |Children(n)| && d < |rest|
    ensures OffendsFrom(pkg, n, [c] + rest, d + 1, o) <==> OffendsFrom(pkg, Children(n)[c], rest, d, o)
  {
    hide OffendsInBody, IsMainFunction, LitOn, DeclOn, At;
    OneDown(n, c, rest, d);
    OneDown(n, c, rest, d + 1);
    OutermostDown(n, c, rest, d);
    assert ([c] + rest)[d + 2..] == rest[d + 1..];
  }

  lemma OffendsOutside(pkg: string, n: Node, c: nat, rest: Path, o: Offence)
    requires !n.FuncDecl? && c < |Children(n)|
    ensures Offends(pkg, n, [c] + rest, o) <==> Offends(pkg, Children(n)[c], rest, o)
  {
    LitAtTop(n, [c] + rest);
    hide OffendsFrom, OffendsInBody, LitOn, At;
    assert !OffendsFrom(pkg, n, [c] + rest, 0, o) by { NotFromTop(pkg, n, [c] + rest, o); }
    forall d | 0 <= d < |rest|
      ensures OffendsFrom(pkg, n, [c] + rest, d + 1, o) <==> OffendsFrom(pkg, Children(n)[c], rest, d, o)
    {
      OffendsFromDown(pkg, n, c, rest, d, o);
    }
    assert forall d :: 0 < d < |[c] + rest| ==>
             (OffendsFrom(pkg, n, [c] + rest, d, o) <==> OffendsFrom(pkg, Children(n)[c], rest, d - 1, o));
  }

  lemma NotFromTop(pkg: string, n: Node, path: Path, o: Offence)
    requires !n.FuncDecl? && path != []
    ensures !OffendsFrom(pkg, n, path, 0, o)
  {
    LitAtTop(n, path);
  }

  lemma NotInFile(pkg: string, n: Node, path: Path, o: Offence)
    requires path == [] || path[0] >= |Children(n)|
    ensures !Offends(pkg, n, path, o)
  {
    forall d | 0 <= d < |path|
      ensures !OffendsFrom(pkg, n, path, d, o)
    {
      assert path[..d + 1][0] == path[0];
    }
  }

  /** The walk of a file that ends reports exactly the offending calls, each once. */
  lemma {:induction false} FileExact(pkg: string, n: Node, base: Path, r: Report)
    requires FileReports(pkg, n, base).Some?
    ensures r in FileReports(pkg, n, base).value <==> base <= r.path && Offends(pkg, n, r.path[|base|..], r.offence)
    decreases n, |Children(n)| + 1
  {
    hide Offends, OffendsInBody, IsMainFunction, BodyReports;
    var p := r.path;
    Split(p, base, BODY);
    if base < p {
      var c, rest := p[|base|], p[|base| + 1..];
      if n.FuncDecl? {
        OffendsInDecl(pkg, n, c, rest, r.offence);
      } else if c < |Children(n)| {
        OffendsOutside(pkg, n, c, rest, r.offence);
      } else {
        NotInFile(pkg, n, p[|base|..], r.offence);
      }
    } else if base <= p {
      NotInFile(pkg, n, p[|base|..], r.offence);
    }
    if n.FuncDecl? {
      BodyExact(n.block.value, base + [BODY], IsMainFunction(pkg, Some(n)), r);
    } else {
      FileUpToExact(pkg, n, base, |Children(n)|, r);
    }
  }

  lemma {:induction false} FileUpToExact(pkg: string, n: Node, base: Path, i: nat, r: Report)
    requires i <= |Children(n)| && !n.FuncDecl? && FileReportsUpTo(pkg, n, base, i).Some?
    ensures r in FileReportsUpTo(pkg, n, base, i).value <==>
            base < r.path && r.path[|base|] < i &&
            Offends(pkg, Children(n)[r.path[|base|]], r.path[|base| + 1..], r.offence)
    decreases n, i
  {
    hide Offends, IsMainFunction, FileReports;
    if i > 0 {
      FileUpToExact(pkg, n, base, i - 1, r);
      FileExact(pkg, Children(n)[i - 1], base + [i - 1], r);
      Split(r.path, base, i - 1);
    }
  }

  lemma {:induction false} FileDistinct(pkg: string, n: Node, base: Path)
    requires FileReports(pkg, n, base).Some?
    ensures Distinct(FileReports(pkg, n, base).value)
    decreases n, |Children(n)| + 1
  {
    hide Distinct, BodyReports, IsMainFunction;
    if n.FuncDecl? {
      BodyDistinct(n.block.value, base + [BODY], IsMainFunction(pkg, Some(n)));
    } else {
      FileUpToDistinct(pkg, n, base, |Children(n)|);
    }
  }

  lemma {:induction false} FileUpToDistinct(pkg: string, n: Node, base: Path, i: nat)
    requires i <= |Children(n)| && !n.FuncDecl? && FileReportsUpTo(pkg, n, base, i).Some?
    ensures Distinct(FileReportsUpTo(pkg, n, base, i).value)
    decreases n, i
  {
    hide Distinct, Offends, FileReports;
    if i == 0 {
      DistinctNothing();
    } else {
      FileUpToDistinct(pkg, n, base, i - 1);
      FileDistinct(pkg, Children(n)[i - 1], base + [i - 1]);
      var front, last := FileReportsUpTo(pkg, n, base, i - 1).value, FileReports(pkg, Children(n)[i - 1], base + [i - 1]).value;
      forall x, y | x in front && y in last
        ensures x.path != y.path
      {
        FileUpToExact(pkg, n, base, i - 1, x);
        FileExact(pkg, Children(n)[i - 1], base + [i - 1], y);
        Split(y.path, base, i - 1);
      }
      DistinctJoin(front, last);
    }
  }

  // ---- When the walk does not end ----

  /** A declaration without a body is reached, before any other declaration on the way. */
  ghost predicate BodilessAt(n: Node, path: Path) {
    && At(n, path).Some? && At(n, path).value.FuncDecl? && At(n, path).value.block.None?
    && forall i :: 0 <= i < |path| ==> !DeclOn(n, path, i)
  }

  /** The linter panics exactly on files that declare a function without a body. */
  lemma {:induction false} PanicsExactly(pkg: string, n: Node, base: Path)
    ensures FileReports(pkg, n, base).None? <==> exists path :: BodilessAt(n, path)
    decreases n, |Children(n)| + 1
  {
    hide BodilessAt, BodyReports;
    BodilessHere(n);
    if n.FuncDecl? {
      forall path | BodilessAt(n, path)
        ensures path == []
      {
        if path != [] { BodilessBelow(n, path); }
      }
    } else {
      UpToPanicsExactly(pkg, n, base, |Children(n)|);
      forall path | BodilessAt(n, path)
        ensures path != [] && path[0] < |Children(n)| && BodilessAt(Children(n)[path[0]], path[1..])
      {
        if path != [] { BodilessBelow(n, path); }
      }
      forall c, rest | 0 <= c < |Children(n)| && BodilessAt(Children(n)[c], rest)
        ensures BodilessAt(n, [c] + rest)
      {
        assert ([c] + rest)[1..] == rest;
        BodilessBelow(n, [c] + rest);
      }
    }
  }

  lemma {:induction false} UpToPanicsExactly(pkg: string, n: Node, base: Path, i: nat)
    requires i <= |Children(n)| && !n.FuncDecl?
    ensures FileReportsUpTo(pkg, n, base, i).None? <==> exists c, path :: 0 <= c < i && BodilessAt(Children(n)[c], path)
    decreases n, i
  {
    hide BodilessAt, FileReports;
    if i > 0 {
      UpToPanicsExactly(pkg, n, base, i - 1);
      PanicsExactly(pkg, Children(n)[i - 1], base + [i - 1]);
    }
  }

  lemma BodilessHere(n: Node)
    ensures BodilessAt(n, []) <==> n.FuncDecl? && n.block.None?
  {
  }

  lemma BodilessBelow(n: Node, path: Path)
    requires path != []
    ensures BodilessAt(n, path) <==>
            !n.FuncDecl? && path[0] < |Children(n)| && BodilessAt(Children(n)[path[0]], path[1..])
  {
    LitAtTop(n, path);
    if path[0] < |Children(n)| {
      var c, rest := path[0], path[1..];
      assert path == [c] + rest;
      forall i | 0 <= i < |rest|
        ensures DeclOn(n, path, i + 1) <==> DeclOn(Children(n)[c], rest, i)
      {
        OneDown(n, c, rest, i);
      }
      assert forall j :: 0 < j < |path| ==> (DeclOn(n, path, j) <==> DeclOn(Children(n)[c], rest, j - 1));
    }
  }
}
