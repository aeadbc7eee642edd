/** cmd/reset/main.go: generateReset as a compiler from Go types to Go statements, and what the
    statements do to a heap. */
module ResetGenerator {
  import opened Metrics
  import opened ResetPaths

  // ---- Types, as the generator distinguishes them ----

  datatype BasicKind = Boolean | String | Numeric | UnsafePointer | OtherBasic

  /** A method a struct type declares or is promoted to, with the number of its parameters and
      results. */
  datatype Method = Method(name: string, pointerReceiver: bool, parameters: nat, results: nat)

  /** A field type with its names resolved. A struct carries what concreteResetCall asks about it:
      whether it is itself generated, and its methods. A type parameter carries the zero value of the type it stands for, and a pointer
      type the name of the type it points to: pointers to different types are never the same
      variable. */
  datatype GoType =
    | TypeParam(name: string, zero: Instance)
    | Pointer(to: string, elem: GoType)
    | Interface
    | Struct(generated: bool, methods: seq<Method>)
    | Basic(kind: BasicKind)
    | Slice
    | Map
    | Array(length: nat, elem: GoType)
    | Chan
    | Func

  /** The methods of a struct type, or those of the type of pointers to it. */
  function MethodSet(methods: seq<Method>, ofPointer: bool): set<Method> {
    set m | m in methods && (m.pointerReceiver ==> ofPointer)
  }

  predicate IsReset(m: Method) {
    m.name == "Reset" && m.parameters == 0 && m.results == 0
  }

  predicate HasResetMethod(methods: set<Method>) {
    exists m :: m in methods && IsReset(m)
  }

  predicate ConcreteResetCall(ty: GoType) {
    ty.Struct? && (ty.generated || HasResetMethod(MethodSet(ty.methods, false)) || HasResetMethod(MethodSet(ty.methods, true)))
  }

  // ---- The heap ----

  /** A field of a structure, which stands for all struct types with the same underlying type. */
  datatype FieldId = FieldId(structure: string, name: string)

  /** An address; fields and elements have addresses of their own, so pointers may lead into
      structs and arrays and may share targets. */
  datatype Loc = Object(id: nat) | FieldOf(base: Loc, field: FieldId) | ElemOf(base: Loc, index: nat)

  datatype Cell =
    | BoolCell(b: bool)
    | StringCell(s: string)
    | NumberCell(n: real)
    | UnsafeCell(address: Option<nat>)
    | PtrCell(target: Option<Loc>, to: string)
    | SliceCell(backing: Option<Loc>, len: nat, cap: nat)
    | MapCell(table: Option<Loc>)
    | TableCell(entries: map<int, int>)
    | ChanCell(channel: Option<nat>)
    | FuncCell(code: Option<nat>)
    | InterfaceCell(dynamic: Option<nat>, resetter: bool)
    | OpaqueCell(content: int)

  /** A zero value points nowhere. */
  type ZeroCell = c: Cell | !(c.PtrCell? && c.target.Some?) witness BoolCell(false)

  type Heap = map<Loc, Cell>

  /** The way from a value to a part of it, through fields and elements of arrays. */
  datatype Part = InField(field: FieldId) | InArray(index: nat)

  type Offset = seq<Part>

  /** The zero value of a type: its cells, by where they lie in the value. A struct or an array has
      any number of them, none included. */
  type Instance = map<Offset, ZeroCell>

  function Into(l: Loc, part: Part): Loc {
    match part case InField(field) => FieldOf(l, field) case InArray(index) => ElemOf(l, index)
  }

  function At(l: Loc, off: Offset): Loc {
    if off == [] then l else Into(At(l, off[..|off| - 1]), off[|off| - 1])
  }

  /** The way from l to k, if k is l or a part of it. */
  function Below(l: Loc, k: Loc): (r: Option<Offset>) {
    if k == l then Some([])
    else match k
      case Object(_) => None
      case FieldOf(b, field) => (match Below(l, b) case None => None case Some(off) => Some(off + [InField(field)]))
      case ElemOf(b, index) => (match Below(l, b) case None => None case Some(off) => Some(off + [InArray(index)]))
  }

  function Depth(l: Loc): nat {
    match l case Object(_) => 0 case FieldOf(b, _) => 1 + Depth(b) case ElemOf(b, _) => 1 + Depth(b)
  }

  lemma {:induction false} DepthAt(l: Loc, off: Offset)
    ensures Depth(At(l, off)) == Depth(l) + |off|
  {
    if off != [] { DepthAt(l, off[..|off| - 1]); }
  }

  lemma BelowInto(l: Loc, k: Loc, part: Part)
    requires Into(k, part) != l
    ensures Below(l, Into(k, part)) == match Below(l, k) case None => None case Some(off) => Some(off + [part])
  {
  }

  lemma {:induction false} BelowAt(l: Loc, off: Offset)
    ensures Below(l, At(l, off)) == Some(off)
  {
    hide Below;
    DepthAt(l, off);
    if off == [] {
      BelowSelf(l);
    } else {
      var front, last := off[..|off| - 1], off[|off| - 1];
      BelowAt(l, front);
      BelowInto(l, At(l, front), last);
      assert off == front + [last];
    }
  }

  lemma BelowSelf(l: Loc)
    ensures Below(l, l) == Some([])
  {
  }

  lemma {:induction false} AtBelow(l: Loc, k: Loc)
    ensures Below(l, k).Some? ==> At(l, Below(l, k).value) == k
  {
    if k != l {
      match k {
        case Object(_) =>
        case FieldOf(b, field) =>
          AtBelow(l, b);
          if Below(l, b).Some? { assert (Below(l, b).value + [InField(field)])[..|Below(l, b).value|] == Below(l, b).value; }
        case ElemOf(b, index) =>
          AtBelow(l, b);
          if Below(l, b).Some? { assert (Below(l, b).value + [InArray(index)])[..|Below(l, b).value|] == Below(l, b).value; }
      }
    }
  }

  /** What calling Reset on the value at an address does; None is a panic. */
  type Calls = (Loc, Heap) -> Option<Heap>

  /** One value reset, with the heap just before. */
  datatype Action = Action(loc: Loc, before: Heap)

  /** The heap, and what was reset so far in order. */
  datatype State = State(heap: Heap, acted: seq<Action>)

  function Act(s: State, l: Loc, result: Option<Heap>): Option<State> {
    match result case None => None case Some(h) => Some(State(h, s.acted + [Action(l, s.heap)]))
  }

  // ---- What "reset this value" means ----

  predicate SameKind(a: Cell, b: Cell) {
    match a
    case BoolCell(_) => b.BoolCell?
    case StringCell(_) => b.StringCell?
    case NumberCell(_) => b.NumberCell?
    case UnsafeCell(_) => b.UnsafeCell?
    case PtrCell(_, to) => b.PtrCell? && b.to == to
    case SliceCell(_, _, _) => b.SliceCell?
    case MapCell(_) => b.MapCell?
    case TableCell(_) => b.TableCell?
    case ChanCell(_) => b.ChanCell?
    case FuncCell(_) => b.FuncCell?
    case InterfaceCell(_, _) => b.InterfaceCell?
    case OpaqueCell(_) => b.OpaqueCell?
  }

  /** The zero of a value kept in one cell; slices keep their storage and capacity. */
  function Zeroed(ty: GoType, c: Cell): Option<Cell> {
    match (ty, c)
    case (Basic(Boolean), BoolCell(_)) => Some(BoolCell(false))
    case (Basic(String), StringCell(_)) => Some(StringCell(""))
    case (Basic(Numeric), NumberCell(_)) => Some(NumberCell(0.0))
    case (Basic(UnsafePointer), UnsafeCell(_)) => Some(UnsafeCell(None))
    case (Slice, SliceCell(backing, _, cap)) => Some(SliceCell(backing, 0, cap))
    case (Chan, ChanCell(_)) => Some(ChanCell(None))
    case (Func, FuncCell(_)) => Some(FuncCell(None))
    case _ => None
  }

  /** Nothing is ever done about these: structs without Reset and basic types without a zero. */
  predicate Inert(ty: GoType) {
    (ty.Struct? && !ConcreteResetCall(ty)) || ty == Basic(OtherBasic)
  }

  /** The cells of the type a value at l has, where they are. */
  predicate LiesAt(zero: Instance, l: Loc, h: Heap) {
    forall off :: off in zero ==> At(l, off) in h && SameKind(h[At(l, off)], zero[off])
  }

  /** Assigning a zero value writes every cell of it. */
  function ZeroAt(zero: Instance, l: Loc, h: Heap): Option<Heap> {
    if !LiesAt(zero, l, h) then None
    else Some(map k | k in h :: if Below(l, k).Some? && Below(l, k).value in zero then zero[Below(l, k).value] else h[k])
  }

  function ClearTable(c: Cell, h: Heap): Option<Heap> {
    if !c.MapCell? then None
    else if c.table.None? then Some(h)
    else if c.table.value in h && h[c.table.value].TableCell? then Some(h[c.table.value := TableCell(map[])])
    else None
  }

  function CallIfResetter(call: Calls, l: Loc, h: Heap): Option<Heap> {
    if !(l in h && h[l].InterfaceCell?) then None
    else if h[l].dynamic.Some? && h[l].resetter then call(l, h)
    else Some(h)
  }

  function ResetLeaf(call: Calls, ty: GoType, l: Loc, h: Heap): Option<Heap> {
    match ty
    case Interface => CallIfResetter(call, l, h)
    case Struct(_, _) => call(l, h)
    case Map => if l in h then ClearTable(h[l], h) else None
    case TypeParam(_, zero) => ZeroAt(zero, l, h)
    case _ =>
      if l !in h then None
      else match Zeroed(ty, h[l]) case None => None case Some(c) => Some(h[l := c])
  }

  /** The recursive specification: pointers are kept and their targets reset, arrays are reset
      element by element, everything else by its kind. */
  function ResetValue(call: Calls, ty: GoType, l: Loc, s: State): Option<State>
    decreases ty, 0
  {
    match ty
    case Pointer(_, elem) =>
      if !(l in s.heap && s.heap[l].PtrCell?) then None
      else (match s.heap[l].target case None => Some(s) case Some(t) => ResetValue(call, elem, t, s))
    case Array(length, elem) => ResetElements(call, elem, l, 0, length, s)
    case _ => if Inert(ty) then Some(s) else Act(s, l, ResetLeaf(call, ty, l, s.heap))
  }

  function ResetElements(call: Calls, elem: GoType, l: Loc, from: nat, length: nat, s: State): Option<State>
    decreases elem, 1, length - from
  {
    if from >= length then Some(s)
    else match ResetValue(call, elem, ElemOf(l, from), s)
      case None => None
      case Some(s') => ResetElements(call, elem, l, from + 1, length, s')
  }

  // ---- The emitted statements and their execution ----

  datatype Literal = False | EmptyString | Zero | Nil

  datatype Stmt =
    | ZeroVar(target: Path, typeName: string, zero: Instance)
    | Assign(target: Path, literal: Literal)
    | Truncate(target: Path)
    | Clear(target: Path)
    | IfNotNil(target: Path, body: seq<Stmt>)
    | IfResetter(target: Path)
    | CallReset(target: Path)
    | ForRange(target: Path, length: nat, body: seq<Stmt>)

  function ResetStmts(p: Path, ty: GoType): seq<Stmt>
    decreases ty
  {
    match ty
    case TypeParam(name, zero) => [ZeroVar(p, name, zero)]
    case Pointer(_, elem) => [IfNotNil(p, ResetStmts(Deref(p), elem))]
    case Interface => [IfResetter(p)]
    case Struct(_, _) => if ConcreteResetCall(ty) then [CallReset(p)] else []
    case Basic(kind) =>
      (match kind
       case Boolean => [Assign(p, False)]
       case String => [Assign(p, EmptyString)]
       case Numeric => [Assign(p, Zero)]
       case UnsafePointer => [Assign(p, Nil)]
       case OtherBasic => [])
    case Slice => [Truncate(p)]
    case Map => [Clear(p)]
    case Array(length, elem) => [ForRange(p, length, ResetStmts(Index(p), elem))]
    case Chan => [Assign(p, Nil)]
    case Func => [Assign(p, Nil)]
  }

  /** A field is addressable, so Reset() can be called on a struct whatever the receiver of the method
      is; the code calls it exactly when there is such a method or will be. */
  lemma CallsResetExactly(p: Path, ty: GoType)
    requires ty.Struct?
    ensures ResetStmts(p, ty) ==
            if ty.generated || exists m :: m in ty.methods && m.name == "Reset" && m.parameters == 0 == m.results
            then [CallReset(p)] else []
  {
    if m :| m in ty.methods && IsReset(m) {
      assert m in MethodSet(ty.methods, true);
    }
  }

  /** The receiver, its structure and field types, and the Reset methods of the program. */
  datatype Env = Env(x: Loc, structure: string, fields: map<string, GoType>, call: Calls)

  function FieldLoc(env: Env, name: string): Loc {
    FieldOf(env.x, FieldId(env.structure, name))
  }

  datatype Place = Place(loc: Loc, ty: GoType)

  /** Evaluates an address; None is a nil dereference or an index out of range. There is one
      variable i, the innermost loop's. */
  function Resolve(env: Env, i: Option<nat>, p: Path, h: Heap): Option<Place> {
    match p
    case Field(name) => if name in env.fields then Some(Place(FieldLoc(env, name), env.fields[name])) else None
    case Deref(q) =>
      (match Resolve(env, i, q, h)
       case None => None
       case Some(at) =>
         if at.ty.Pointer? && at.loc in h && h[at.loc].PtrCell? && h[at.loc].target.Some?
         then Some(Place(h[at.loc].target.value, at.ty.elem)) else None)
    case Index(q) =>
      (match Resolve(env, i, q, h)
       case None => None
       case Some(at) =>
         if at.ty.Array? && i.Some? && i.value < at.ty.length
         then Some(Place(ElemOf(at.loc, i.value), at.ty.elem)) else None)
  }

  /** The literal converted to the static type of the assigned location. */
  function AssignCell(literal: Literal, ty: GoType, c: Cell): Option<Cell> {
    match (literal, ty, c)
    case (False, Basic(Boolean), BoolCell(_)) => Some(BoolCell(false))
    case (EmptyString, Basic(String), StringCell(_)) => Some(StringCell(""))
    case (Zero, Basic(Numeric), NumberCell(_)) => Some(NumberCell(0.0))
    case (Nil, Basic(UnsafePointer), UnsafeCell(_)) => Some(UnsafeCell(None))
    case (Nil, Chan, ChanCell(_)) => Some(ChanCell(None))
    case (Nil, Func, FuncCell(_)) => Some(FuncCell(None))
    case _ => None
  }

  /** A statement without a body, at the address its target evaluates to. */
  function ExecAt(env: Env, stmt: Stmt, ty: GoType, l: Loc, h: Heap): Option<Heap> {
    match stmt
    case IfResetter(_) => CallIfResetter(env.call, l, h)
    case CallReset(_) => env.call(l, h)
    case ZeroVar(_, _, zero) => ZeroAt(zero, l, h)
    case Assign(_, literal) =>
      if l !in h then None
      else (match AssignCell(literal, ty, h[l]) case None => None case Some(c) => Some(h[l := c]))
    case Truncate(_) => if l in h && h[l].SliceCell? then Some(h[l := h[l].(len := 0)]) else None
    case Clear(_) => if l in h then ClearTable(h[l], h) else None
    case IfNotNil(_, _) => None
    case ForRange(_, _, _) => None
  }

  function Exec(env: Env, i: Option<nat>, stmt: Stmt, s: State): Option<State>
    decreases stmt
  {
    match stmt
    case IfNotNil(p, body) =>
      (match Resolve(env, i, p, s.heap)
       case None => None
       case Some(at) =>
         if !(at.loc in s.heap && s.heap[at.loc].PtrCell?) then None
         else if s.heap[at.loc].target.None? then Some(s)
         else ExecAll(env, i, body, s))
    case ForRange(_, length, body) => ExecLoop(env, body, 0, length, s)
    case _ =>
      match Resolve(env, i, stmt.target, s.heap)
      case None => None
      case Some(at) => Act(s, at.loc, ExecAt(env, stmt, at.ty, at.loc, s.heap))
  }

  function ExecAll(env: Env, i: Option<nat>, stmts: seq<Stmt>, s: State): Option<State>
    decreases stmts, 0, 0
  {
    if stmts == [] then Some(s)
    else match Exec(env, i, stmts[0], s)
      case None => None
      case Some(s') => ExecAll(env, i, stmts[1..], s')
  }

  /** The range expression of `for i := range p` is an array, so it is not evaluated; the loop's
      own i hides an outer one. */
  function ExecLoop(env: Env, body: seq<Stmt>, from: nat, length: nat, s: State): Option<State>
    decreases body, 1, length - from
  {
    if from >= length then Some(s)
    else match ExecAll(env, Some(from), body, s)
      case None => None
      case Some(s') => ExecLoop(env, body, from + 1, length, s')
  }

  lemma ExecSingle(env: Env, i: Option<nat>, stmt: Stmt, s: State)
    ensures ExecAll(env, i, [stmt], s) == Exec(env, i, stmt, s)
  {
    assert [stmt][1..] == [];
  }

  /** Clearing a nil map does nothing, as clearing any other empties its table; an interface value is
      left alone unless it is there and has a method Reset. */
  lemma SharedMeaning(call: Calls, l: Loc, h: Heap)
    requires l in h
    ensures h[l] == MapCell(None) ==> ResetLeaf(call, Map, l, h) == Some(h)
    ensures forall t :: h[l] == MapCell(Some(t)) && t in h && h[t].TableCell? ==>
              ResetLeaf(call, Map, l, h) == Some(h[t := TableCell(map[])])
    ensures h[l].InterfaceCell? ==>
              ResetLeaf(call, Interface, l, h) ==
              match h[l] case InterfaceCell(Some(_), true) => call(l, h) case _ => Some(h)
  {
  }

  // ---- The record of what was reset ----

  /** Nothing changes without a record: while no value has been reset, the heap is as it was. */
  lemma {:induction false} ChangesAreRecorded(env: Env, i: Option<nat>, stmts: seq<Stmt>, s: State)
    ensures var r := ExecAll(env, i, stmts, s);
            r.Some? ==> |r.value.acted| >= |s.acted| && (|r.value.acted| == |s.acted| ==> r.value == s)
    decreases stmts, 0, 0
  {
    hide Resolve, ExecAt;
    if stmts != [] {
      ChangeIsRecorded(env, i, stmts[0], s);
      var m := Exec(env, i, stmts[0], s);
      if m.Some? { ChangesAreRecorded(env, i, stmts[1..], m.value); }
    }
  }

  lemma {:induction false} ChangeIsRecorded(env: Env, i: Option<nat>, stmt: Stmt, s: State)
    ensures var r := Exec(env, i, stmt, s);
            r.Some? ==> |r.value.acted| >= |s.acted| && (|r.value.acted| == |s.acted| ==> r.value == s)
    decreases stmt
  {
    hide Resolve, ExecAt;
    match stmt {
      case IfNotNil(_, body) => ChangesAreRecorded(env, i, body, s);
      case ForRange(_, length, body) => LoopIsRecorded(env, body, 0, length, s);
      case _ =>
    }
  }

  lemma {:induction false} LoopIsRecorded(env: Env, body: seq<Stmt>, from: nat, length: nat, s: State)
    ensures var r := ExecLoop(env, body, from, length, s);
            r.Some? ==> |r.value.acted| >= |s.acted| && (|r.value.acted| == |s.acted| ==> r.value == s)
    decreases body, 1, length - from
  {
    if from < length {
      ChangesAreRecorded(env, Some(from), body, s);
      var m := ExecAll(env, Some(from), body, s);
      if m.Some? { LoopIsRecorded(env, body, from + 1, length, m.value); }
    }
  }

  // ---- Types, by what resetting them does to pointers ----

  function LeafType(ty: GoType): (r: GoType)
    ensures !r.Pointer? && !r.Array?
  {
    match ty case Pointer(_, elem) => LeafType(elem) case Array(_, elem) => LeafType(elem) case _ => ty
  }

  /** Resetting the value ends in a Reset method. */
  predicate CallsReset(ty: GoType) {
    LeafType(ty).Interface? || ConcreteResetCall(LeafType(ty))
  }

  /** The type has a pointer in it. */
  predicate HoldsPointer(zero: Instance) {
    exists off :: off in zero && zero[off].PtrCell?
  }

  /** Resetting the value writes no pointer: it calls no Reset method, and zeroes no value of a
      type parameter that stands for a type with a pointer in it. */
  predicate Tame(ty: GoType) {
    !CallsReset(ty) && !(LeafType(ty).TypeParam? && HoldsPointer(LeafType(ty).zero))
  }

  /** Neither does it if all the Reset methods it may call write no pointer. */
  ghost predicate WritesNoPointer(call: Calls, ty: GoType) {
    Tame(ty) || (CallsReset(ty) && CallsWriteNoPointer(call))
  }

  ghost predicate CallsWriteNoPointer(call: Calls) {
    forall l, h :: call(l, h).Some? ==> SamePointers(h, call(l, h).value)
  }

  ghost predicate SamePointers(h: Heap, h': Heap) {
    && (forall k :: k in h && h[k].PtrCell? ==> k in h' && h'[k] == h[k])
    && (forall k :: k in h' && h'[k].PtrCell? ==> k in h && h[k].PtrCell?)
  }

  /** No array on the way has two or more elements. */
  predicate ShortArrays(ty: GoType) {
    match ty
    case Pointer(_, elem) => ShortArrays(elem)
    case Array(length, elem) => length <= 1 && ShortArrays(elem)
    case _ => true
  }

  /** No array of two or more elements stands behind a pointer, so no address is evaluated again
      after a pointer on it may have changed. */
  predicate Steady(ty: GoType) {
    match ty
    case Pointer(_, elem) => ShortArrays(elem)
    case Array(_, elem) => Steady(elem)
    case _ => true
  }

  // ---- Memory safety: which cells are pointers on the way ----

  /** The value of type ty at l, with everything its pointers lead to, lies where its type says. */
  ghost predicate WellTyped(ty: GoType, l: Loc, h: Heap)
    decreases ty
  {
    match ty
    case Pointer(to, elem) =>
      l in h && h[l].PtrCell? && h[l].to == to && (h[l].target.Some? ==> WellTyped(elem, h[l].target.value, h))
    case Array(length, elem) => forall j :: 0 <= j < length ==> WellTyped(elem, ElemOf(l, j), h)
    case _ => true
  }

  /** It is well typed, its pointers are cells of `pointers`, and no value of a type parameter that
      is reset in the end has any of them in it. */
  ghost predicate Guarded(pointers: set<Loc>, ty: GoType, l: Loc, h: Heap)
    requires AllPointers(pointers, h)
    decreases ty
  {
    match ty
    case Pointer(to, elem) =>
      l in pointers && h[l].to == to && (h[l].target.Some? ==> Guarded(pointers, elem, h[l].target.value, h))
    case Array(length, elem) => forall j :: 0 <= j < length ==> Guarded(pointers, elem, ElemOf(l, j), h)
    case TypeParam(_, zero) => forall off :: off in zero && zero[off].PtrCell? ==> At(l, off) !in pointers
    case _ => true
  }

  ghost predicate AllPointers(pointers: set<Loc>, h: Heap) {
    forall k :: k in pointers ==> k in h && h[k].PtrCell?
  }

  ghost predicate NoOtherPointers(pointers: set<Loc>, h: Heap) {
    forall k :: k in h && h[k].PtrCell? ==> k in pointers
  }

  ghost predicate Agree(pointers: set<Loc>, h: Heap, h': Heap) {
    forall k :: k in pointers ==> k in h && k in h' && h'[k] == h[k]
  }

  /** Reset methods do not redirect these pointers. */
  ghost predicate CallsKeep(call: Calls, pointers: set<Loc>) {
    forall l, h :: AllPointers(pointers, h) && call(l, h).Some? ==> Agree(pointers, h, call(l, h).value)
  }

  /** Why resetting the value at l leaves `pointers` alone: either it writes no pointer at all, or
      what it writes is kept apart from them. */
  ghost predicate Kept(pointers: set<Loc>, call: Calls, ty: GoType, l: Loc, h: Heap) {
    && AllPointers(pointers, h)
    && ((WritesNoPointer(call, ty) && NoOtherPointers(pointers, h))
        || (Guarded(pointers, ty, l, h) && (CallsReset(ty) ==> CallsKeep(call, pointers))))
  }

  /** What a reset keeps. */
  ghost predicate KeepsPointers(pointers: set<Loc>, all: bool, h: Heap, h': Heap) {
    Agree(pointers, h, h') && (all && NoOtherPointers(pointers, h) ==> NoOtherPointers(pointers, h'))
  }

  lemma {:induction false} GuardedAgrees(pointers: set<Loc>, ty: GoType, l: Loc, h: Heap, h': Heap)
    requires AllPointers(pointers, h) && Guarded(pointers, ty, l, h) && Agree(pointers, h, h')
    ensures AllPointers(pointers, h') && Guarded(pointers, ty, l, h')
    decreases ty
  {
    match ty {
      case Pointer(_, elem) =>
        if h[l].target.Some? { GuardedAgrees(pointers, elem, h[l].target.value, h, h'); }
      case Array(length, elem) =>
        forall j | 0 <= j < length
          ensures Guarded(pointers, elem, ElemOf(l, j), h')
        {
          GuardedAgrees(pointers, elem, ElemOf(l, j), h, h');
        }
      case _ =>
    }
  }

  lemma KeptAgrees(pointers: set<Loc>, call: Calls, ty: GoType, l: Loc, h: Heap, h': Heap)
    requires Kept(pointers, call, ty, l, h) && KeepsPointers(pointers, WritesNoPointer(call, ty), h, h')
    ensures Kept(pointers, call, ty, l, h')
  {
    hide Guarded, WritesNoPointer;
    if !(WritesNoPointer(call, ty) && NoOtherPointers(pointers, h)) { GuardedAgrees(pointers, ty, l, h, h'); }
  }

  lemma ZeroAtWrites(zero: Instance, l: Loc, h: Heap, k: Loc)
    requires LiesAt(zero, l, h) && k in h
    ensures ZeroAt(zero, l, h).value.Keys == h.Keys
    ensures ZeroAt(zero, l, h).value[k] == h[k] ||
            exists off :: off in zero && At(l, off) == k && ZeroAt(zero, l, h).value[k] == zero[off] && SameKind(h[k], zero[off])
  {
    AtBelow(l, k);
  }

  lemma LeafKeepsPointers(call: Calls, pointers: set<Loc>, ty: GoType, l: Loc, h: Heap)
    requires !ty.Pointer? && !ty.Array? && !Inert(ty) && Kept(pointers, call, ty, l, h)
    ensures var r := ResetLeaf(call, ty, l, h); r.Some? ==> KeepsPointers(pointers, WritesNoPointer(call, ty), h, r.value)
  {
    if ty.TypeParam? {
      if LiesAt(ty.zero, l, h) { ZeroKeepsPointers(call, pointers, ty, l, h); }
    } else if CallsReset(ty) {
      CallKeepsPointers(call, pointers, ty, l, h);
    }
  }

  lemma ZeroKeepsPointers(call: Calls, pointers: set<Loc>, ty: GoType, l: Loc, h: Heap)
    requires ty.TypeParam? && Kept(pointers, call, ty, l, h) && LiesAt(ty.zero, l, h)
    ensures KeepsPointers(pointers, WritesNoPointer(call, ty), h, ZeroAt(ty.zero, l, h).value)
  {
    hide ZeroAt, LiesAt, At;
    ZeroAtKeys(ty.zero, l, h);
    forall k | k in h
      ensures k in pointers || WritesNoPointer(call, ty) ==>
                h[k] == ZeroAt(ty.zero, l, h).value[k] || (!h[k].PtrCell? && !ZeroAt(ty.zero, l, h).value[k].PtrCell?)
    {
      ZeroAtWrites(ty.zero, l, h, k);
    }
  }

  lemma ZeroAtKeys(zero: Instance, l: Loc, h: Heap)
    requires LiesAt(zero, l, h)
    ensures ZeroAt(zero, l, h).Some? && ZeroAt(zero, l, h).value.Keys == h.Keys
  {
  }

  lemma CallKeepsPointers(call: Calls, pointers: set<Loc>, ty: GoType, l: Loc, h: Heap)
    requires CallsReset(ty) && !ty.Pointer? && !ty.Array? && Kept(pointers, call, ty, l, h)
    ensures var r := ResetLeaf(call, ty, l, h); r.Some? ==> KeepsPointers(pointers, WritesNoPointer(call, ty), h, r.value)
  {
    hide Guarded;
    var r := call(l, h);
    assert CallsWriteNoPointer(call) && r.Some? ==> SamePointers(h, r.value);
  }

  /** Resetting a value moves no pointer that is kept apart from what it writes. */
  lemma {:induction false} ResetKeepsPointers(call: Calls, pointers: set<Loc>, ty: GoType, l: Loc, s: State)
    requires Kept(pointers, call, ty, l, s.heap)
    ensures var r := ResetValue(call, ty, l, s); r.Some? ==> KeepsPointers(pointers, WritesNoPointer(call, ty), s.heap, r.value.heap)
    decreases ty, 0
  {
    match ty {
      case Pointer(_, elem) =>
        if l in s.heap && s.heap[l].PtrCell? && s.heap[l].target.Some? {
          ResetKeepsPointers(call, pointers, elem, s.heap[l].target.value, s);
        }
      case Array(length, elem) => ElementsKeepPointers(call, pointers, elem, l, 0, length, s);
      case _ => if !Inert(ty) { LeafKeepsPointers(call, pointers, ty, l, s.heap); }
    }
  }

  lemma {:induction false} ElementsKeepPointers(call: Calls, pointers: set<Loc>, elem: GoType, l: Loc, from: nat, length: nat, s: State)
    requires from < length ==> Kept(pointers, call, Array(length, elem), l, s.heap)
    requires AllPointers(pointers, s.heap)
    ensures var r := ResetElements(call, elem, l, from, length, s);
            r.Some? ==> KeepsPointers(pointers, WritesNoPointer(call, elem), s.heap, r.value.heap)
    decreases elem, 1, length - from
  {
    if from < length {
      ElementKept(pointers, call, length, elem, l, from, s.heap);
      ResetKeepsPointers(call, pointers, elem, ElemOf(l, from), s);
      var r := ResetValue(call, elem, ElemOf(l, from), s);
      if r.Some? {
        KeptAgrees(pointers, call, Array(length, elem), l, s.heap, r.value.heap);
        ElementsKeepPointers(call, pointers, elem, l, from + 1, length, r.value);
      }
    }
  }

  lemma ElementKept(pointers: set<Loc>, call: Calls, length: nat, elem: GoType, l: Loc, j: nat, h: Heap)
    requires Kept(pointers, call, Array(length, elem), l, h) && j < length
    ensures Kept(pointers, call, elem, ElemOf(l, j), h)
  {
  }

  // ---- The emitted code meets the specification ----

  /** Every pointer the address goes through is one of `pointers`. */
  ghost predicate Through(pointers: set<Loc>, env: Env, i: Option<nat>, p: Path, h: Heap) {
    match p
    case Field(_) => true
    case Deref(q) =>
      && Through(pointers, env, i, q, h)
      && (Resolve(env, i, q, h).Some? ==> Resolve(env, i, q, h).value.loc in pointers)
    case Index(q) => Through(pointers, env, i, q, h)
  }

  lemma {:induction false} ResolveAgrees(pointers: set<Loc>, env: Env, i: Option<nat>, p: Path, h: Heap, h': Heap)
    requires Through(pointers, env, i, p, h) && Agree(pointers, h, h')
    ensures Resolve(env, i, p, h') == Resolve(env, i, p, h) && Through(pointers, env, i, p, h')
  {
    match p {
      case Field(_) =>
      case Deref(q) => ResolveAgrees(pointers, env, i, q, h, h');
      case Index(q) => ResolveAgrees(pointers, env, i, q, h, h');
    }
  }

  predicate HasIndex(p: Path) {
    match p case Field(_) => false case Deref(q) => HasIndex(q) case Index(_) => true
  }

  lemma {:induction false} UnindexedIgnoresLoop(pointers: set<Loc>, env: Env, i: Option<nat>, j: Option<nat>, p: Path, h: Heap)
    requires !HasIndex(p)
    ensures Resolve(env, i, p, h) == Resolve(env, j, p, h)
    ensures Through(pointers, env, i, p, h) == Through(pointers, env, j, p, h)
  {
    match p {
      case Field(_) =>
      case Deref(q) => UnindexedIgnoresLoop(pointers, env, i, j, q, h);
      case Index(_) =>
    }
  }

  predicate Derefs(p: Path) {
    match p case Field(_) => false case Deref(_) => true case Index(q) => Derefs(q)
  }

  lemma {:induction false} UndereferencedIgnoresHeap(env: Env, i: Option<nat>, p: Path, h: Heap, h': Heap)
    requires !Derefs(p)
    ensures Resolve(env, i, p, h) == Resolve(env, i, p, h')
  {
    match p {
      case Field(_) =>
      case Deref(_) =>
      case Index(q) => UndereferencedIgnoresHeap(env, i, q, h, h');
    }
  }

  /** An inner loop's i always equals the outer one it hides. */
  ghost predicate Coherent(indexed: bool, i: Option<nat>, ty: GoType)
    decreases ty
  {
    match ty
    case Pointer(_, elem) => Coherent(indexed, i, elem)
    case Array(length, elem) =>
      forall j {:trigger Coherent(true, Some(j), elem)} :: 0 <= j < length ==>
        (indexed ==> i == Some(j)) && Coherent(true, Some(j), elem)
    case _ => true
  }

  /** No address of the code below p is evaluated again after a pointer on it may have changed. */
  predicate Rigid(p: Path, ty: GoType) {
    if Derefs(p) then ShortArrays(ty) else Steady(ty)
  }

  /** Why evaluating p again gives the same address: either it is not evaluated again behind a
      pointer, or the pointers on it are kept. */
  ghost predicate Fixed(pointers: set<Loc>, env: Env, i: Option<nat>, p: Path, ty: GoType, l: Loc, h: Heap) {
    Rigid(p, ty) || (Kept(pointers, env.call, ty, l, h) && Through(pointers, env, i, p, h))
  }

  lemma {:induction false} CodeMeetsSpec(pointers: set<Loc>, env: Env, i: Option<nat>, p: Path, ty: GoType, l: Loc, s: State)
    requires Resolve(env, i, p, s.heap) == Some(Place(l, ty)) && Fixed(pointers, env, i, p, ty, l, s.heap)
    requires Coherent(HasIndex(p), i, ty)
    ensures ExecAll(env, i, ResetStmts(p, ty), s) == ResetValue(env.call, ty, l, s)
    decreases ty, 0
  {
    if ResetStmts(p, ty) != [] {
      ExecSingle(env, i, ResetStmts(p, ty)[0], s);
    }
    match ty {
      case Pointer(_, elem) =>
        if l in s.heap && s.heap[l].PtrCell? && s.heap[l].target.Some? {
          CodeMeetsSpec(pointers, env, i, Deref(p), elem, s.heap[l].target.value, s);
        }
      case Array(length, elem) =>
        LoopMeetsSpec(pointers, env, i, p, length, elem, l, 0, s);
      case _ =>
        if !Inert(ty) { LeafMeetsSpec(env, p, ty, l, s.heap); }
    }
  }

  lemma LeafMeetsSpec(env: Env, p: Path, ty: GoType, l: Loc, h: Heap)
    requires !ty.Pointer? && !ty.Array? && !Inert(ty)
    ensures |ResetStmts(p, ty)| == 1 && ResetStmts(p, ty)[0].target == p
    ensures !ResetStmts(p, ty)[0].IfNotNil? && !ResetStmts(p, ty)[0].ForRange?
    ensures ExecAt(env, ResetStmts(p, ty)[0], ty, l, h) == ResetLeaf(env.call, ty, l, h)
  {
    match ty
    case Basic(kind) => match kind { case Boolean => case String => case Numeric => case UnsafePointer => case OtherBasic => }
    case TypeParam(_, _) =>
    case Interface =>
    case Struct(_, _) =>
    case Slice => if l in h && h[l].SliceCell? { assert h[l].(len := 0) == SliceCell(h[l].backing, 0, h[l].cap); }
    case Map =>
    case Chan =>
    case Func =>
  }

  lemma {:induction false} LoopMeetsSpec(pointers: set<Loc>, env: Env, i: Option<nat>, p: Path, length: nat, elem: GoType,
                                         l: Loc, from: nat, s: State)
    requires from < length ==>
               && Resolve(env, i, p, s.heap) == Some(Place(l, Array(length, elem)))
               && Fixed(pointers, env, i, p, Array(length, elem), l, s.heap)
    requires Coherent(HasIndex(p), i, Array(length, elem))
    ensures ExecLoop(env, ResetStmts(Index(p), elem), from, length, s)
            == ResetElements(env.call, elem, l, from, length, s)
    decreases elem, 1, length - from
  {
    if from < length {
      assert Coherent(true, Some(from), elem);
      if !HasIndex(p) { UnindexedIgnoresLoop(pointers, env, i, Some(from), p, s.heap); }
      ElementFixed(pointers, env, i, p, length, elem, l, from, s.heap);
      CodeMeetsSpec(pointers, env, Some(from), Index(p), elem, ElemOf(l, from), s);
      var r := ResetValue(env.call, elem, ElemOf(l, from), s);
      if r.Some? {
        if from + 1 < length { StillFixed(pointers, env, i, p, length, elem, l, from, s, r.value); }
        LoopMeetsSpec(pointers, env, i, p, length, elem, l, from + 1, r.value);
      }
    }
  }

  lemma ElementFixed(pointers: set<Loc>, env: Env, i: Option<nat>, p: Path, length: nat, elem: GoType, l: Loc, j: nat, h: Heap)
    requires Fixed(pointers, env, i, p, Array(length, elem), l, h) && j < length
    requires Through(pointers, env, Some(j), p, h) == Through(pointers, env, i, p, h)
    ensures Fixed(pointers, env, Some(j), Index(p), elem, ElemOf(l, j), h)
  {
    if !Rigid(p, Array(length, elem)) { ElementKept(pointers, env.call, length, elem, l, j, h); }
  }

  lemma StillFixed(pointers: set<Loc>, env: Env, i: Option<nat>, p: Path, length: nat, elem: GoType, l: Loc, j: nat, s: State, r: State)
    requires Fixed(pointers, env, i, p, Array(length, elem), l, s.heap) && j + 1 < length
    requires ResetValue(env.call, elem, ElemOf(l, j), s) == Some(r)
    ensures Resolve(env, i, p, r.heap) == Resolve(env, i, p, s.heap)
    ensures Fixed(pointers, env, i, p, Array(length, elem), l, r.heap)
  {
    hide Kept, KeepsPointers, Through, Resolve, ResetValue;
    if Rigid(p, Array(length, elem)) {
      UndereferencedIgnoresHeap(env, i, p, s.heap, r.heap);
    } else {
      ElementKept(pointers, env.call, length, elem, l, j, s.heap);
      ResetKeepsPointers(env.call, pointers, elem, ElemOf(l, j), s);
      KeptAgrees(pointers, env.call, Array(length, elem), l, s.heap, r.heap);
      assert Agree(pointers, s.heap, r.heap) by { KeepsAgrees(pointers, WritesNoPointer(env.call, elem), s.heap, r.heap); }
      ResolveAgrees(pointers, env, i, p, s.heap, r.heap);
    }
  }

  lemma KeepsAgrees(pointers: set<Loc>, all: bool, h: Heap, h': Heap)
    requires KeepsPointers(pointers, all, h, h')
    ensures Agree(pointers, h, h')
  {
  }

  // ---- Nested arrays ----

  function ArrayDepth(ty: GoType): nat {
    match ty
    case Pointer(_, elem) => ArrayDepth(elem)
    case Array(_, elem) => 1 + ArrayDepth(elem)
    case _ => 0
  }

  /** Every array on the way has exactly one element. */
  predicate UnitArrays(ty: GoType) {
    match ty
    case Pointer(_, elem) => UnitArrays(elem)
    case Array(length, elem) => length == 1 && UnitArrays(elem)
    case _ => true
  }

  /** No array is nested in another, or only arrays of length 1 are. */
  predicate Flat(ty: GoType) {
    ArrayDepth(ty) <= 1 || UnitArrays(ty)
  }

  lemma {:induction false} NoArrayCoherent(indexed: bool, i: Option<nat>, ty: GoType)
    requires ArrayDepth(ty) == 0
    ensures Coherent(indexed, i, ty)
    decreases ty
  {
    if ty.Pointer? { NoArrayCoherent(indexed, i, ty.elem); }
  }

  lemma {:induction false} UnitCoherent(indexed: bool, i: Option<nat>, ty: GoType)
    requires UnitArrays(ty) && (indexed ==> i == Some(0))
    ensures Coherent(indexed, i, ty)
    decreases ty
  {
    match ty {
      case Pointer(_, elem) => UnitCoherent(indexed, i, elem);
      case Array(_, elem) => UnitCoherent(true, Some(0), elem);
      case _ =>
    }
  }

  lemma {:induction false} OneArrayCoherent(i: Option<nat>, ty: GoType)
    requires ArrayDepth(ty) <= 1
    ensures Coherent(false, i, ty)
    decreases ty
  {
    match ty {
      case Pointer(_, elem) => OneArrayCoherent(i, elem);
      case Array(length, elem) =>
        forall j | 0 <= j < length
          ensures Coherent(true, Some(j), elem)
        {
          NoArrayCoherent(true, Some(j), elem);
        }
      case _ =>
    }
  }

  /** The receiver's fields are kept apart from `pointers`, and no Reset method moves those. */
  ghost predicate Safe(pointers: set<Loc>, env: Env, h: Heap) {
    && AllPointers(pointers, h)
    && forall name :: name in env.fields ==>
         && Guarded(pointers, env.fields[name], FieldLoc(env, name), h)
         && (CallsReset(env.fields[name]) ==> CallsKeep(env.call, pointers))
  }

  /** The statements emitted for a field do to any heap exactly what resetting the field means:
      same resulting heap, same order of resets, same panics. For a field without longer arrays
      behind pointers, or without pointers and Reset methods at its end, that holds on every heap
      and for every set of Reset methods; for one that ends in Reset methods, on every heap when
      those write no pointer; and otherwise, when pointers are kept apart. */
  lemma FieldMeetsSpec(pointers: set<Loc>, env: Env, name: string, s: State)
    requires name in env.fields && Flat(env.fields[name])
    requires Steady(env.fields[name]) || WritesNoPointer(env.call, env.fields[name]) || Safe(pointers, env, s.heap)
    ensures ExecAll(env, None, ResetStmts(Field(name), env.fields[name]), s)
            == ResetValue(env.call, env.fields[name], FieldLoc(env, name), s)
  {
    var ty := env.fields[name];
    if ArrayDepth(ty) <= 1 { OneArrayCoherent(None, ty); } else { UnitCoherent(false, None, ty); }
    var kept := if WritesNoPointer(env.call, ty) then set k | k in s.heap && s.heap[k].PtrCell? else pointers;
    CodeMeetsSpec(kept, env, None, Field(name), ty, FieldLoc(env, name), s);
  }

  // ---- Which elements the code reaches ----

  /** The address, below p, that is finally reset. */
  function LeafPath(p: Path, ty: GoType): Path
    decreases ty
  {
    match ty
    case Pointer(_, elem) => LeafPath(Deref(p), elem)
    case Array(_, elem) => LeafPath(Index(p), elem)
    case _ => p
  }

  function TypeOf(fields: map<string, GoType>, p: Path): Option<GoType> {
    match p
    case Field(name) => if name in fields then Some(fields[name]) else None
    case Deref(q) => (match TypeOf(fields, q) case Some(Pointer(_, elem)) => Some(elem) case _ => None)
    case Index(q) => (match TypeOf(fields, q) case Some(Array(_, elem)) => Some(elem) case _ => None)
  }

  lemma {:induction false} ResolveTyped(env: Env, i: Option<nat>, p: Path, h: Heap)
    ensures Resolve(env, i, p, h).Some? ==> TypeOf(env.fields, p) == Some(Resolve(env, i, p, h).value.ty)
  {
    match p {
      case Field(_) =>
      case Deref(q) => ResolveTyped(env, i, q, h);
      case Index(q) => ResolveTyped(env, i, q, h);
    }
  }

  /** The value reset is the one p leads to, at that moment, when every index in p is the same. */
  ghost predicate OnDiagonal(env: Env, p: Path, a: Action) {
    exists j :: Resolve(env, j, p, a.before).Some? && Resolve(env, j, p, a.before).value.loc == a.loc
  }

  ghost predicate ActsOnDiagonal(env: Env, p: Path, s: State, r: State) {
    && s.acted <= r.acted
    && forall k :: |s.acted| <= k < |r.acted| ==> OnDiagonal(env, p, r.acted[k])
  }

  /** For every type, however deep its arrays are nested, on every heap and for every set of Reset
      methods: the code only ever resets elements whose indices are all equal, because the inner i
      hides the outer one. */
  lemma {:induction false} OnlyEqualIndices(env: Env, i: Option<nat>, p: Path, ty: GoType, s: State)
    requires TypeOf(env.fields, p) == Some(ty)
    ensures var r := ExecAll(env, i, ResetStmts(p, ty), s);
            r.Some? ==> ActsOnDiagonal(env, LeafPath(p, ty), s, r.value)
    decreases ty, 0
  {
    if ResetStmts(p, ty) != [] {
      ExecSingle(env, i, ResetStmts(p, ty)[0], s);
    }
    match ty {
      case Pointer(_, elem) => OnlyEqualIndices(env, i, Deref(p), elem, s);
      case Array(length, elem) => LoopOnlyEqualIndices(env, p, length, elem, 0, s);
      case _ =>
        if !Inert(ty) {
          ResolveTyped(env, i, p, s.heap);
          LeafRuns(env, i, p, ty, s);
        }
    }
  }

  lemma LeafRuns(env: Env, i: Option<nat>, p: Path, ty: GoType, s: State)
    requires !ty.Pointer? && !ty.Array? && !Inert(ty)
    requires Resolve(env, i, p, s.heap).Some? ==> Resolve(env, i, p, s.heap).value.ty == ty
    ensures ExecAll(env, i, ResetStmts(p, ty), s) ==
            match Resolve(env, i, p, s.heap)
            case None => None
            case Some(at) => Act(s, at.loc, ResetLeaf(env.call, ty, at.loc, s.heap))
  {
    hide Resolve, ResetLeaf, ResetStmts;
    var at := Resolve(env, i, p, s.heap);
    LeafMeetsSpec(env, p, ty, if at.Some? then at.value.loc else env.x, s.heap);
    ExecSingle(env, i, ResetStmts(p, ty)[0], s);
    assert ResetStmts(p, ty) == [ResetStmts(p, ty)[0]];
  }

  lemma {:induction false} LoopOnlyEqualIndices(env: Env, p: Path, length: nat, elem: GoType, from: nat, s: State)
    requires TypeOf(env.fields, p) == Some(Array(length, elem))
    ensures var r := ExecLoop(env, ResetStmts(Index(p), elem), from, length, s);
            r.Some? ==> ActsOnDiagonal(env, LeafPath(Index(p), elem), s, r.value)
    decreases elem, 1, length - from
  {
    hide OnDiagonal;
    if from < length {
      OnlyEqualIndices(env, Some(from), Index(p), elem, s);
      var m := ExecAll(env, Some(from), ResetStmts(Index(p), elem), s);
      if m.Some? { LoopOnlyEqualIndices(env, p, length, elem, from + 1, m.value); }
    }
  }
}
