/** Fields with nothing to reset: their code changes nothing, but the addresses in it are evaluated
    with the innermost i. Exactly which of them never panic, and for which fields the code compiles. */
module ResetIdle {
  import opened Metrics
  import opened ResetPaths
  import opened ResetGenerator
  import opened ResetNested

  // ---- The addresses in such code: those of nil checks, and of values without cells ----

  /** Every address evaluated in the code emitted for p leads somewhere, and to a pointer where it is
      compared with nil. */
  predicate Passes(env: Env, i: Option<nat>, p: Path, ty: GoType, h: Heap)
    decreases ty
  {
    match ty
    case Pointer(_, elem) =>
      var at := Resolve(env, i, p, h);
      && at.Some? && at.value.loc in h && h[at.value.loc].PtrCell?
      && (h[at.value.loc].target.Some? ==> Passes(env, i, Deref(p), elem, h))
    case Array(length, elem) => forall j :: 0 <= j < length ==> Passes(env, Some(j), Index(p), elem, h)
    case TypeParam(_, _) => Resolve(env, i, p, h).Some?
    case _ => true
  }

  /** The heap is left as it was, or there is a panic. */
  predicate Unchanged(s: State, passes: bool, r: Option<State>) {
    r.Some? == passes && (passes ==> r.value.heap == s.heap)
  }

  lemma ZeroNothing(l: Loc, h: Heap)
    ensures ZeroAt(map[], l, h) == Some(h)
  {
    assert ZeroAt(map[], l, h).value == h;
  }

  lemma {:induction false} PassesMeans(env: Env, i: Option<nat>, p: Path, ty: GoType, s: State)
    requires !HasWork(ty)
    ensures Unchanged(s, Passes(env, i, p, ty, s.heap), ExecAll(env, i, ResetStmts(p, ty), s))
    decreases ty, 0
  {
    if ResetStmts(p, ty) != [] {
      ExecSingle(env, i, ResetStmts(p, ty)[0], s);
    }
    match ty {
      case Pointer(_, elem) => PassesMeans(env, i, Deref(p), elem, s);
      case Array(length, elem) => if length > 0 { LoopPassesMeans(env, p, elem, 0, length, s); }
      case TypeParam(_, _) =>
        var at := Resolve(env, i, p, s.heap);
        if at.Some? { ZeroNothing(at.value.loc, s.heap); }
      case _ =>
    }
  }

  lemma {:induction false} LoopPassesMeans(env: Env, p: Path, elem: GoType, from: nat, length: nat, s: State)
    requires !HasWork(elem)
    ensures Unchanged(s, forall j :: from <= j < length ==> Passes(env, Some(j), Index(p), elem, s.heap),
                      ExecLoop(env, ResetStmts(Index(p), elem), from, length, s))
    decreases elem, 1, length - from
  {
    hide Passes;
    if from < length {
      PassesMeans(env, Some(from), Index(p), elem, s);
      var m := ExecAll(env, Some(from), ResetStmts(Index(p), elem), s);
      if m.Some? { LoopPassesMeans(env, p, elem, from + 1, length, m.value); }
    }
  }

  lemma {:induction false} NothingToReset(call: Calls, ty: GoType, l: Loc, s: State)
    requires !HasWork(ty) && WellTyped(ty, l, s.heap)
    ensures Unchanged(s, true, ResetValue(call, ty, l, s))
    decreases ty, 0
  {
    match ty {
      case Pointer(_, elem) => if s.heap[l].target.Some? { NothingToReset(call, elem, s.heap[l].target.value, s); }
      case Array(length, elem) => if length > 0 { NoElementsToReset(call, length, elem, l, 0, s); }
      case TypeParam(_, _) => ZeroNothing(l, s.heap);
      case _ =>
    }
  }

  lemma {:induction false} NoElementsToReset(call: Calls, length: nat, elem: GoType, l: Loc, from: nat, s: State)
    requires !HasWork(elem) && WellTyped(Array(length, elem), l, s.heap)
    ensures Unchanged(s, true, ResetElements(call, elem, l, from, length, s))
    decreases elem, 1, length - from
  {
    if from < length {
      NothingToReset(call, elem, ElemOf(l, from), s);
      NoElementsToReset(call, length, elem, l, from + 1, ResetValue(call, elem, ElemOf(l, from), s).value);
    }
  }

  // ---- When all checks pass, read off the type ----

  /** An address is evaluated, inside arrays that are not empty. */
  predicate HasCheck(ty: GoType) {
    match ty
    case Pointer(_, _) => true
    case TypeParam(_, _) => true
    case Array(length, elem) => length > 0 && HasCheck(elem)
    case _ => false
  }

  predicate ShortestLast(around: seq<nat>) {
    forall k :: 0 <= k < |around| ==> around[|around| - 1] <= around[k]
  }

  /** Wherever an address is evaluated, the innermost array around it is the shortest of those around
      it. `around` are the lengths of the arrays, outermost first. */
  predicate IndicesFit(ty: GoType, around: seq<nat>) {
    match ty
    case Pointer(_, elem) => ShortestLast(around) && IndicesFit(elem, around)
    case Array(length, elem) => length == 0 || IndicesFit(elem, around + [length])
    case TypeParam(_, _) => ShortestLast(around)
    case _ => true
  }

  /** Below this pointer, another loop starts in which an address is evaluated. */
  predicate ChecksFurther(ty: GoType) {
    match ty
    case Pointer(_, elem) => ChecksFurther(elem)
    case Array(length, elem) => length > 0 && HasCheck(elem)
    case _ => false
  }

  /** A pointer that is checked with one index, and then followed with another: it stands in an
      array of two or more elements and leads to an array in whose loop an address is evaluated. */
  predicate Crosses(ty: GoType, long: bool) {
    match ty
    case Pointer(_, elem) => if long then ChecksFurther(elem) else Crosses(elem, false)
    case Array(length, elem) => length > 0 && Crosses(elem, length >= 2)
    case _ => false
  }

  predicate NeverPanics(ty: GoType) {
    IndicesFit(ty, []) && !Crosses(ty, false)
  }

  // ---- ... they do pass ----

  ghost predicate Good(env: Env, i: Option<nat>, p: Path, ty: GoType, h: Heap) {
    var at := Resolve(env, i, p, h);
    at.Some? && at.value.ty == ty && WellTyped(ty, at.value.loc, h)
  }

  /** Every index that fits all arrays around leads p to a value. */
  ghost predicate Free(env: Env, p: Path, ty: GoType, around: seq<nat>, h: Heap) {
    && (around == [] ==> !HasIndex(p))
    && forall j: nat :: (forall k :: 0 <= k < |around| ==> j < around[k]) ==> Good(env, Some(j), p, ty, h)
  }

  lemma {:induction false} NoCheckPasses(env: Env, i: Option<nat>, p: Path, ty: GoType, h: Heap)
    requires !HasCheck(ty)
    ensures Passes(env, i, p, ty, h)
    decreases ty
  {
    match ty {
      case Array(length, elem) =>
        forall j | 0 <= j < length ensures Passes(env, Some(j), Index(p), elem, h) {
          NoCheckPasses(env, Some(j), Index(p), elem, h);
        }
      case _ =>
    }
  }

  lemma {:induction false} PassesBelow(env: Env, i: Option<nat>, p: Path, ty: GoType, h: Heap)
    requires Good(env, i, p, ty, h) && !ChecksFurther(ty)
    ensures Passes(env, i, p, ty, h)
    decreases ty
  {
    match ty {
      case Pointer(_, elem) =>
        var at := Resolve(env, i, p, h).value;
        if h[at.loc].target.Some? { PassesBelow(env, i, Deref(p), elem, h); }
      case Array(length, elem) =>
        forall j | 0 <= j < length ensures Passes(env, Some(j), Index(p), elem, h) {
          NoCheckPasses(env, Some(j), Index(p), elem, h);
        }
      case _ =>
    }
  }

  lemma {:induction false} PassesFree(env: Env, i: Option<nat>, p: Path, ty: GoType, around: seq<nat>, long: bool, h: Heap)
    requires Free(env, p, ty, around, h) && IndicesFit(ty, around) && !Crosses(ty, long)
    requires if around == [] then !long else
               i.Some? && i.value < around[|around| - 1] && (long <==> around[|around| - 1] >= 2)
    ensures Passes(env, i, p, ty, h)
    decreases ty
  {
    match ty {
      case Pointer(_, elem) =>
        CheckedIndexIsGood(env, i, p, ty, around, h);
        var at := Resolve(env, i, p, h).value;
        if h[at.loc].target.Some? {
          if long { PassesBelow(env, i, Deref(p), elem, h); }
          else {
            FreeBelow(env, i, p, ty, elem, around, h);
            PassesFree(env, i, Deref(p), elem, around, false, h);
          }
        }
      case Array(length, elem) =>
        forall j | 0 <= j < length ensures Passes(env, Some(j), Index(p), elem, h) {
          FreeElements(env, p, length, elem, around, h);
          PassesFree(env, Some(j), Index(p), elem, around + [length], length >= 2, h);
        }
      case TypeParam(_, _) => CheckedIndexIsGood(env, i, p, ty, around, h);
      case _ =>
    }
  }

  lemma CheckedIndexIsGood(env: Env, i: Option<nat>, p: Path, ty: GoType, around: seq<nat>, h: Heap)
    requires (ty.Pointer? || ty.TypeParam?) && Free(env, p, ty, around, h) && IndicesFit(ty, around)
    requires around != [] ==> i.Some? && i.value < around[|around| - 1]
    ensures Good(env, i, p, ty, h)
  {
    if around == [] {
      assert Good(env, Some(0), p, ty, h);
      UnindexedIgnoresLoop({}, env, i, Some(0), p, h);
    } else {
      assert forall k :: 0 <= k < |around| ==> i.value < around[k];
    }
  }

  lemma FreeBelow(env: Env, i: Option<nat>, p: Path, ty: GoType, elem: GoType, around: seq<nat>, h: Heap)
    requires ty.Pointer? && ty.elem == elem && Free(env, p, ty, around, h) && Good(env, i, Deref(p), elem, h)
    requires around == [] || (i == Some(0) && around[|around| - 1] == 1)
    ensures Free(env, Deref(p), elem, around, h)
  {
    forall j: nat | forall k :: 0 <= k < |around| ==> j < around[k]
      ensures Good(env, Some(j), Deref(p), elem, h)
    {
      if around == [] {
        UnindexedIgnoresLoop({}, env, i, Some(j), Deref(p), h);
      } else {
        assert j < around[|around| - 1];
      }
    }
  }

  lemma FreeElements(env: Env, p: Path, length: nat, elem: GoType, around: seq<nat>, h: Heap)
    requires Free(env, p, Array(length, elem), around, h)
    ensures Free(env, Index(p), elem, around + [length], h)
  {
    forall j: nat | forall k :: 0 <= k < |around + [length]| ==> j < (around + [length])[k]
      ensures Good(env, Some(j), Index(p), elem, h)
    {
      assert j < (around + [length])[|around|];
      assert forall k :: 0 <= k < |around| ==> j < (around + [length])[k] == around[k];
      assert Good(env, Some(j), p, Array(length, elem), h);
    }
  }

  lemma NeverPanicsPasses(env: Env, name: string, ty: GoType, h: Heap)
    requires name in env.fields && env.fields[name] == ty && NeverPanics(ty) && WellTyped(ty, FieldLoc(env, name), h)
    ensures Passes(env, None, Field(name), ty, h)
  {
    PassesFree(env, None, Field(name), ty, [], false, h);
  }

  // ---- ... and when the type says otherwise, some heap makes one fail ----

  lemma {:induction false} GuardedIsTyped(pointers: set<Loc>, ty: GoType, l: Loc, h: Heap)
    requires AllPointers(pointers, h) && Guarded(pointers, ty, l, h)
    ensures WellTyped(ty, l, h)
    decreases ty
  {
    match ty {
      case Pointer(_, elem) => if h[l].target.Some? { GuardedIsTyped(pointers, elem, h[l].target.value, h); }
      case Array(length, elem) =>
        forall j | 0 <= j < length ensures WellTyped(elem, ElemOf(l, j), h) {
          GuardedIsTyped(pointers, elem, ElemOf(l, j), h);
        }
      case _ =>
    }
  }

  /** Every pointer leads on, except that `nil` is nil. */
  predicate Pointing(h: Heap, nil: Option<Loc>) {
    forall k :: k in h && h[k].PtrCell? ==> h[k].target == if nil == Some(k) then None else Some(Behind(k))
  }

  function PointingHeap(ty: GoType, l: Loc, nil: Option<Loc>): Heap {
    var h := Fill(ty, l, None);
    if nil.Some? && nil.value in h && h[nil.value].PtrCell? then h[nil.value := h[nil.value].(target := None)] else h
  }

  lemma {:induction false} FillPoints(ty: GoType, l: Loc)
    requires !HasWork(ty)
    ensures Pointing(Fill(ty, l, None), None)
    decreases ty, 0
  {
    match ty {
      case Pointer(_, elem) => FillPoints(elem, Behind(l));
      case Array(length, elem) => if length > 0 { FillElementsPoint(elem, l, length); }
      case _ =>
    }
  }

  lemma {:induction false} FillElementsPoint(elem: GoType, l: Loc, length: nat)
    requires !HasWork(elem)
    ensures Pointing(FillElements(elem, l, length, None), None)
    decreases elem, 1, length
  {
    if length > 0 {
      FillElementsPoint(elem, l, length - 1);
      FillPoints(elem, ElemOf(l, length - 1));
    }
  }

  lemma PointingHeapPoints(ty: GoType, l: Loc, nil: Option<Loc>)
    requires !HasWork(ty) && (nil.Some? ==> nil.value in Fill(ty, l, None) && Fill(ty, l, None)[nil.value].PtrCell?)
    ensures Pointing(PointingHeap(ty, l, nil), nil)
  {
    hide Fill;
    FillPoints(ty, l);
  }

  /** Pointers may be nil. */
  predicate SomeNil(h: Heap, h': Heap) {
    forall k :: k in h ==> k in h' && (h'[k] == h[k] || (h[k].PtrCell? && h'[k] == h[k].(target := None)))
  }

  lemma {:induction false} PointingGuarded(pointers: set<Loc>, ty: GoType, l: Loc, h: Heap, h': Heap)
    requires !HasWork(ty) && Filled(ty, l, h, None) && SomeNil(h, h')
    requires forall k :: k in pointers <==> k in h' && h'[k].PtrCell?
    ensures Guarded(pointers, ty, l, h')
    decreases ty
  {
    match ty {
      case Pointer(_, elem) => PointingGuarded(pointers, elem, Behind(l), h, h');
      case Array(length, elem) =>
        forall j | 0 <= j < length ensures Guarded(pointers, elem, ElemOf(l, j), h') {
          PointingGuarded(pointers, elem, ElemOf(l, j), h, h');
        }
      case _ =>
    }
  }

  /** No index past one of the arrays around leads p anywhere. */
  ghost predicate Bounded(env: Env, p: Path, around: seq<nat>, h: Heap) {
    forall j: nat, k :: 0 <= k < |around| && around[k] <= j ==> Resolve(env, Some(j), p, h).None?
  }

  lemma {:induction false} MisfitFails(env: Env, p: Path, ty: GoType, around: seq<nat>, h: Heap) returns (i: Option<nat>)
    requires TypeOf(env.fields, p) == Some(ty) && Pointing(h, None) && !IndicesFit(ty, around) && Bounded(env, p, around, h)
    requires around != [] ==> around[|around| - 1] > 0
    ensures !Passes(env, i, p, ty, h)
    ensures if around == [] then i == None else i.Some? && i.value < around[|around| - 1]
    decreases ty
  {
    match ty {
      case Pointer(_, elem) =>
        if k :| 0 <= k < |around| && around[k] < around[|around| - 1] {
          i := Some(around[k]);
        } else {
          i := MisfitFails(env, Deref(p), elem, around, h);
        }
      case Array(length, elem) =>
        forall j: nat, k | 0 <= k < |around + [length]| && (around + [length])[k] <= j
          ensures Resolve(env, Some(j), Index(p), h).None?
        {
          ResolveTyped(env, Some(j), p, h);
        }
        var j := MisfitFails(env, Index(p), elem, around + [length], h);
        i := if around == [] then None else Some(0);
      case TypeParam(_, _) =>
        var k :| 0 <= k < |around| && around[k] < around[|around| - 1];
        i := Some(around[k]);
      case _ =>
    }
  }

  /** The first pointer that is checked in an array of two or more elements, in its element 0. */
  function CrossedAt(ty: GoType, l: Loc, long: bool): (q: Loc)
    ensures Depth(q) >= Depth(l)
    decreases ty
  {
    match ty
    case Pointer(_, elem) => if long then l else CrossedAt(elem, Behind(l), false)
    case Array(length, elem) => CrossedAt(elem, ElemOf(l, 0), length >= 2)
    case _ => l
  }

  lemma {:induction false} CrossedIsThere(ty: GoType, l: Loc, long: bool, h: Heap)
    requires Crosses(ty, long) && Filled(ty, l, h, None)
    ensures CrossedAt(ty, l, long) in h && h[CrossedAt(ty, l, long)].PtrCell?
    decreases ty
  {
    match ty {
      case Pointer(_, elem) => if !long { CrossedIsThere(elem, Behind(l), false, h); }
      case Array(length, elem) => CrossedIsThere(elem, ElemOf(l, 0), length >= 2, h);
      case _ =>
    }
  }

  lemma {:induction false} NowhereFails(env: Env, p: Path, ty: GoType, h: Heap)
    requires HasCheck(ty) && Resolve(env, Some(0), p, h).None?
    ensures !Passes(env, Some(0), p, ty, h)
    decreases ty
  {
    if ty.Array? { NowhereFails(env, Index(p), ty.elem, h); }
  }

  /** Followed with index 1, the pointer leads to a loop that follows it with index 0. */
  lemma {:induction false} CrossedFails(env: Env, p: Path, ty: GoType, q: Loc, h: Heap)
    requires p.Deref? && ChecksFurther(ty) && Pointing(h, Some(q)) && q.ElemOf?
    requires Resolve(env, Some(0), p, h).None?
    ensures !Passes(env, Some(1), p, ty, h)
    decreases ty
  {
    match ty {
      case Pointer(_, elem) => CrossedFails(env, Deref(p), elem, q, h);
      case Array(length, elem) =>
        NowhereFails(env, Index(p), elem, h);
        assert 0 < length;
      case _ =>
    }
  }

  lemma {:induction false} CrossingFails(env: Env, p: Path, ty: GoType, l: Loc, long: bool, h: Heap) returns (i: nat)
    requires Crosses(ty, long) && Pointing(h, Some(CrossedAt(ty, l, long)))
    requires Resolve(env, Some(0), p, h).Some? ==> Resolve(env, Some(0), p, h).value.loc == l
    requires long ==> p.Index? && l.ElemOf? && l.index == 0
    ensures !Passes(env, Some(i), p, ty, h) && i <= if long then 1 else 0
    decreases ty
  {
    match ty {
      case Pointer(_, elem) =>
        if long {
          i := 1;
          CrossedFails(env, Deref(p), elem, l, h);
        } else {
          i := CrossingFails(env, Deref(p), elem, Behind(l), false, h);
        }
      case Array(length, elem) =>
        var j := CrossingFails(env, Index(p), elem, ElemOf(l, 0), length >= 2, h);
        i := 0;
        assert j < length;
      case _ =>
    }
  }

  /** Outside every loop there is no index to choose. */
  lemma {:induction false} OutsideCrossingFails(env: Env, p: Path, ty: GoType, l: Loc, h: Heap)
    requires Crosses(ty, false) && Pointing(h, Some(CrossedAt(ty, l, false))) && !HasIndex(p)
    requires Resolve(env, None, p, h).Some? ==> Resolve(env, None, p, h).value.loc == l
    ensures !Passes(env, None, p, ty, h)
    decreases ty
  {
    match ty {
      case Pointer(_, elem) => OutsideCrossingFails(env, Deref(p), elem, Behind(l), h);
      case Array(length, elem) =>
        UnindexedIgnoresLoop({}, env, None, Some(0), p, h);
        var j := CrossingFails(env, Index(p), elem, ElemOf(l, 0), length >= 2, h);
        assert j < length;
      case _ =>
    }
  }

  function NoReset(): Calls {
    (l: Loc, h: Heap) => Some(h)
  }

  lemma FailsOn(env: Env, name: string, ty: GoType, nil: Option<Loc>)
    requires !HasWork(ty) && env == Env(env.x, env.structure, map[name := ty], NoReset())
    requires !Passes(env, None, Field(name), ty, PointingHeap(ty, FieldLoc(env, name), nil))
    ensures !MeetsSpecWhenSafe(FieldId(env.structure, name), ty)
  {
    hide Passes, HasWork, WellTyped, Resolve, ResetValue, ExecAll, ResetStmts, Fill;
    var l := FieldLoc(env, name);
    var h := PointingHeap(ty, l, nil);
    var s := State(h, []);
    var pointers := set k | k in h && h[k].PtrCell?;
    FillFills(ty, l, Fill(ty, l, None), None);
    PointingGuarded(pointers, ty, l, Fill(ty, l, None), h);
    hide Guarded;
    GuardedIsTyped(pointers, ty, l, h);
    assert Safe(pointers, env, h);
    PassesMeans(env, None, Field(name), ty, s);
    NothingToReset(env.call, ty, l, s);
    assert Has(env, FieldId(env.structure, name), ty) && !Meets(env, name, s);
  }

  lemma PanicsSomewhere(field: FieldId, ty: GoType)
    requires !HasWork(ty) && !NeverPanics(ty)
    ensures !MeetsSpecWhenSafe(field, ty)
  {
    hide Passes, HasWork, Crosses, IndicesFit, Fill;
    var env := Env(Object(0), field.structure, map[field.name := ty], NoReset());
    var l := FieldLoc(env, field.name);
    if IndicesFit(ty, []) {
      var q := CrossedAt(ty, l, false);
      FillFills(ty, l, Fill(ty, l, None), None);
      CrossedIsThere(ty, l, false, Fill(ty, l, None));
      PointingHeapPoints(ty, l, Some(q));
      OutsideCrossingFails(env, Field(field.name), ty, l, PointingHeap(ty, l, Some(q)));
      FailsOn(env, field.name, ty, Some(q));
    } else {
      PointingHeapPoints(ty, l, None);
      var i := MisfitFails(env, Field(field.name), ty, [], PointingHeap(ty, l, None));
      FailsOn(env, field.name, ty, None);
    }
  }

  lemma {:induction false} LoopPanics(env: Env, body: seq<Stmt>, from: nat, j: nat, length: nat, s: State)
    requires from <= j < length && forall s' :: ExecAll(env, Some(j), body, s').None?
    ensures ExecLoop(env, body, from, length, s).None?
    decreases j - from
  {
    if from < j {
      var m := ExecAll(env, Some(from), body, s);
      if m.Some? { LoopPanics(env, body, from + 1, j, length, m.value); }
    }
  }

  /** An array of longer arrays of pointers: whatever the pointers lead to, and on every heap, the
      check of the pointer runs past the end of the outer array. */
  lemma NestedPointersPanic(env: Env, name: string, n: nat, m: nat, to: string, elem: GoType, s: State)
    requires 0 < n < m && name in env.fields && env.fields[name] == Array(n, Array(m, Pointer(to, elem)))
    ensures ExecAll(env, None, ResetStmts(Field(name), env.fields[name]), s).None?
  {
    var cell := Index(Index(Field(name)));
    var check := ResetStmts(cell, Pointer(to, elem));
    var inner := ForRange(Index(Field(name)), m, check);
    forall s'
      ensures ExecAll(env, Some(n), check, s').None?
    {
      assert Resolve(env, Some(n), Index(Field(name)), s'.heap).None?;
      assert Resolve(env, Some(n), cell, s'.heap).None?;
      ExecSingle(env, Some(n), check[0], s');
    }
    forall s'
      ensures ExecAll(env, Some(0), [inner], s').None?
    {
      LoopPanics(env, check, 0, n, m, s');
      ExecSingle(env, Some(0), inner, s');
    }
    LoopPanics(env, [inner], 0, 0, n, s);
    ExecSingle(env, None, ForRange(Field(name), n, [inner]), s);
  }

  // ---- Loops around nothing ----

  /** Some expression among these statements, outside inner loops, mentions the loop's i. */
  predicate UsesI(stmts: seq<Stmt>)
    decreases stmts
  {
    stmts != [] &&
    (HasIndex(stmts[0].target) || (stmts[0].IfNotNil? && UsesI(stmts[0].body)) || UsesI(stmts[1..]))
  }

  /** No loop declares an i it does not use, which Go compilers reject. */
  predicate Compiles(stmts: seq<Stmt>)
    decreases stmts
  {
    stmts == [] ||
    (&& (stmts[0].IfNotNil? ==> Compiles(stmts[0].body))
     && (stmts[0].ForRange? ==> UsesI(stmts[0].body) && Compiles(stmts[0].body))
     && Compiles(stmts[1..]))
  }

  /** An array, somewhere on the way, of values about which nothing is ever done. */
  predicate ArrayOfInert(ty: GoType) {
    match ty
    case Pointer(_, elem) => ArrayOfInert(elem)
    case Array(_, elem) => Inert(elem) || ArrayOfInert(elem)
    case _ => false
  }

  /** The code emitted for a field compiles exactly when its type has no array of plain structs. */
  lemma {:induction false} CompilesExactly(p: Path, ty: GoType)
    ensures Compiles(ResetStmts(p, ty)) <==> !ArrayOfInert(ty)
    ensures HasIndex(p) && !Inert(ty) ==> UsesI(ResetStmts(p, ty))
    decreases ty
  {
    match ty {
      case Pointer(_, elem) => CompilesExactly(Deref(p), elem);
      case Array(_, elem) => CompilesExactly(Index(p), elem);
      case _ =>
    }
  }
}
