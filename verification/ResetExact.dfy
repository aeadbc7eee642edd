/** Exactly for which field types the generated code is right: on every well-typed heap and for every
    set of Reset methods, and on the heaps whose pointers nothing that is reset can touch. */
module ResetExact {
  import opened Metrics
  import opened ResetPaths
  import opened ResetGenerator
  import opened ResetNested
  import opened ResetIdle

  /** For every receiver, every well-typed heap and every set of Reset methods, the code emitted for
      this field, if it is of this type, leaves the heap that resetting the field leaves. */
  ghost predicate AlwaysMeetsSpec(field: FieldId, ty: GoType) {
    forall env: Env, s: State ::
      Has(env, field, ty) && WellTyped(ty, FieldLoc(env, field.name), s.heap) ==> Meets(env, field.name, s)
  }

  /** The pointers before the array, by the types they point to. */
  function Way(ty: GoType): set<string> {
    match ty case Pointer(to, elem) => {to} + Way(elem) case _ => {}
  }

  /** The type of the array's elements. */
  function ElementType(ty: GoType): GoType {
    match ty case Pointer(_, elem) => ElementType(elem) case Array(_, elem) => elem case _ => ty
  }

  /** A part of a value that may be this field: it is declared as this field, or it is the whole
      value, and that stands behind a pointer of its own. */
  predicate MayBe(field: FieldId, off: Offset, behind: bool) {
    if off == [] then behind else off[|off| - 1] == InField(field)
  }

  /** This part of a value that is zeroed may be a pointer before the array it is reached through: the
      first of those is the field, the others can be any pointers of their types. */
  predicate MayCut(field: FieldId, ty: GoType, zero: Instance, off: Offset)
    requires ty.Pointer? && off in zero
  {
    zero[off].PtrCell? &&
    (zero[off].to in Way(ty.elem) || (zero[off].to == ty.to && MayBe(field, off, ElementType(ty).Pointer?)))
  }

  /** What is zeroed has no pointer of the way in it. */
  predicate OutOfReach(field: FieldId, ty: GoType) {
    && ty.Pointer? && LeafType(ty).TypeParam?
    && forall off :: off in LeafType(ty).zero ==> !MayCut(field, ty, LeafType(ty).zero, off)
  }

  /** Nothing that is reset can change a pointer before the code follows it again. */
  predicate PointersHold(field: FieldId, ty: GoType) {
    Steady(ty) || Tame(ty) || OutOfReach(field, ty)
  }

  // ---- Values that cannot hold a pointer of the way ----

  /** The pointer at k is the field, or has the type of one of those behind it. */
  predicate OnTheWay(env: Env, name: string, h: Heap, k: Loc)
    requires name in env.fields && env.fields[name].Pointer?
  {
    var ty := env.fields[name];
    k in h && h[k].PtrCell? && (h[k].to in Way(ty.elem) || (h[k].to == ty.to && k == FieldLoc(env, name)))
  }

  ghost predicate AllOnTheWay(pointers: set<Loc>, env: Env, name: string, h: Heap)
    requires name in env.fields && env.fields[name].Pointer?
  {
    forall k :: k in pointers ==> OnTheWay(env, name, h, k)
  }

  predicate Reaches(env: Env, name: string, elem: GoType) {
    && name in env.fields && OutOfReach(FieldId(env.structure, name), env.fields[name])
    && ElementType(env.fields[name]) == elem && LeafType(env.fields[name]) == LeafType(elem) && ArrayDepth(elem) == 0
  }

  lemma {:induction false} WayStays(pointers: set<Loc>, env: Env, name: string, elem: GoType, ty: GoType, l: Loc, s: State)
    requires Reaches(env, name, elem) && AllOnTheWay(pointers, env, name, s.heap)
    requires ArrayDepth(ty) == 0 && LeafType(ty) == LeafType(elem) && (!elem.Pointer? ==> !ty.Pointer? && l.ElemOf?)
    ensures var r := ResetValue(env.call, ty, l, s); r.Some? ==> Agree(pointers, s.heap, r.value.heap)
    decreases ty
  {
    hide LiesAt, Way, ElementType;
    if ty.Pointer? {
      if l in s.heap && s.heap[l].PtrCell? && s.heap[l].target.Some? {
        WayStays(pointers, env, name, elem, ty.elem, s.heap[l].target.value, s);
      }
    } else if LiesAt(ty.zero, l, s.heap) {
      ZeroAtKeys(ty.zero, l, s.heap);
      forall k | k in pointers
        ensures ZeroAt(ty.zero, l, s.heap).value[k] == s.heap[k]
      {
        assert OnTheWay(env, name, s.heap, k);
        ZeroAtWrites(ty.zero, l, s.heap, k);
        if off :| off in ty.zero && At(l, off) == k && SameKind(s.heap[k], ty.zero[off]) {
          assert !MayCut(FieldId(env.structure, name), env.fields[name], ty.zero, off);
        }
      }
    }
  }

  lemma {:induction false} ElementsMeet(pointers: set<Loc>, env: Env, name: string, p: Path, n: nat, elem: GoType, t: Loc,
                                        from: nat, s: State)
    requires Reaches(env, name, elem) && AllOnTheWay(pointers, env, name, s.heap)
    requires !HasIndex(p) && Derefs(p) && Resolve(env, None, p, s.heap) == Some(Place(t, Array(n, elem)))
    requires Through(pointers, env, None, p, s.heap)
    ensures ExecLoop(env, ResetStmts(Index(p), elem), from, n, s) == ResetElements(env.call, elem, t, from, n, s)
    decreases n - from
  {
    hide ResetStmts, ResetValue, ExecAll, OutOfReach, Way;
    if from < n {
      NoArrayIsShort(elem);
      NoArrayCoherent(true, Some(from), elem);
      UnindexedIgnoresLoop({}, env, None, Some(from), p, s.heap);
      CodeMeetsSpec({}, env, Some(from), Index(p), elem, ElemOf(t, from), s);
      WayStays(pointers, env, name, elem, elem, ElemOf(t, from), s);
      var r := ResetValue(env.call, elem, ElemOf(t, from), s);
      if r.Some? {
        ResolveAgrees(pointers, env, None, p, s.heap, r.value.heap);
        ElementsMeet(pointers, env, name, p, n, elem, t, from + 1, r.value);
      }
    }
  }

  lemma {:induction false} WayMeets(pointers: set<Loc>, env: Env, name: string, p: Path, ty: GoType, l: Loc, s: State)
    requires ArrayDepth(ty) == 1 && Reaches(env, name, ElementType(ty)) && WellTyped(ty, l, s.heap)
    requires pointers == set k | k in s.heap && OnTheWay(env, name, s.heap, k)
    requires !HasIndex(p) && Resolve(env, None, p, s.heap) == Some(Place(l, ty)) && Through(pointers, env, None, p, s.heap)
    requires if Derefs(p) then Way(ty) <= Way(env.fields[name].elem) else ty == env.fields[name] && l == FieldLoc(env, name)
    ensures ExecAll(env, None, ResetStmts(p, ty), s) == ResetValue(env.call, ty, l, s)
    decreases ty
  {
    if ty.Pointer? {
      if s.heap[l].target.Some? {
        CodeFollows(env, p, ty, l, s);
        assert OnTheWay(env, name, s.heap, l);
        WayMeets(pointers, env, name, Deref(p), ty.elem, s.heap[l].target.value, s);
      } else {
        ExecSingle(env, None, ResetStmts(p, ty)[0], s);
      }
    } else {
      ElementsMeet(pointers, env, name, p, ty.length, ty.elem, l, 0, s);
      ExecSingle(env, None, ResetStmts(p, ty)[0], s);
    }
  }

  lemma OutOfReachMeets(env: Env, name: string, s: State)
    requires name in env.fields && ArrayDepth(env.fields[name]) == 1
    requires OutOfReach(FieldId(env.structure, name), env.fields[name])
    requires WellTyped(env.fields[name], FieldLoc(env, name), s.heap)
    ensures Meets(env, name, s)
  {
    var ty := env.fields[name];
    ElementsAre(ty);
    var pointers := set k | k in s.heap && OnTheWay(env, name, s.heap, k);
    WayMeets(pointers, env, name, Field(name), ty, FieldLoc(env, name), s);
  }

  lemma {:induction false} ElementsAre(ty: GoType)
    requires ArrayDepth(ty) == 1
    ensures ArrayDepth(ElementType(ty)) == 0 && LeafType(ElementType(ty)) == LeafType(ty)
  {
    if ty.Pointer? { ElementsAre(ty.elem); }
  }

  // ---- Code that follows a pointer twice ----

  /** Code below an address that leads nowhere panics. */
  lemma NowherePanics(env: Env, i: Option<nat>, p: Path, ty: GoType, s: State)
    requires HasWork(ty) && !ty.Array? && Resolve(env, i, p, s.heap).None?
    ensures ExecAll(env, i, ResetStmts(p, ty), s).None?
  {
    if ty.Pointer? {
      ExecSingle(env, i, ResetStmts(p, ty)[0], s);
    } else {
      LeafRuns(env, i, p, ty, s);
    }
  }

  lemma {:induction false} NoArrayIsShort(ty: GoType)
    requires ArrayDepth(ty) == 0
    ensures ShortArrays(ty)
  {
    if ty.Pointer? { NoArrayIsShort(ty.elem); }
  }

  /** If resetting element 0 cuts the way to the array, the code panics at element 1. */
  lemma SecondElementPanics(env: Env, p: Path, n: nat, elem: GoType, l: Loc, s: State, r: State)
    requires Resolve(env, None, p, s.heap) == Some(Place(l, Array(n, elem))) && !HasIndex(p) && Derefs(p)
    requires n >= 2 && ArrayDepth(elem) == 0 && HasWork(elem)
    requires ResetValue(env.call, elem, ElemOf(l, 0), s) == Some(r) && Resolve(env, Some(1), p, r.heap).None?
    ensures ExecAll(env, None, ResetStmts(p, Array(n, elem)), s).None?
  {
    UnindexedIgnoresLoop({}, env, None, Some(0), p, s.heap);
    NoArrayIsShort(elem);
    NoArrayCoherent(true, Some(0), elem);
    CodeMeetsSpec({}, env, Some(0), Index(p), elem, ElemOf(l, 0), s);
    NowherePanics(env, Some(1), Index(p), elem, r);
    var body := ResetStmts(Index(p), elem);
    assert ExecLoop(env, body, 1, n, r).None?;
    ExecSingle(env, None, ForRange(p, n, body), s);
  }

  lemma CodeFollows(env: Env, p: Path, ty: GoType, l: Loc, s: State)
    requires ty.Pointer? && Resolve(env, None, p, s.heap) == Some(Place(l, ty))
    requires l in s.heap && s.heap[l].PtrCell? && s.heap[l].target.Some?
    ensures ExecAll(env, None, ResetStmts(p, ty), s) == ExecAll(env, None, ResetStmts(Deref(p), ty.elem), s)
    ensures Resolve(env, None, Deref(p), s.heap) == Some(Place(s.heap[l].target.value, ty.elem))
  {
    ExecSingle(env, None, ResetStmts(p, ty)[0], s);
  }

  // ---- Heaps on which resetting runs through and sets no pointer but to nil ----

  /** What is reset in the end answers to Reset, or is a value of a type parameter. */
  predicate Ends(leaf: GoType) {
    leaf.Interface? || ConcreteResetCall(leaf) || leaf.TypeParam?
  }

  ghost predicate Ready(ty: GoType, l: Loc, h: Heap)
    decreases ty
  {
    match ty
    case Pointer(to, elem) =>
      l in h && h[l].PtrCell? && h[l].to == to && (h[l].target.Some? ==> Ready(elem, h[l].target.value, h))
    case Array(length, elem) => forall j :: 0 <= j < length ==> Ready(elem, ElemOf(l, j), h)
    case TypeParam(_, zero) => LiesAt(zero, l, h)
    case Interface => l in h && h[l].InterfaceCell?
    case _ => true
  }

  lemma {:induction false} ReadyIsTyped(ty: GoType, l: Loc, h: Heap)
    requires Ready(ty, l, h)
    ensures WellTyped(ty, l, h)
    decreases ty
  {
    match ty {
      case Pointer(_, elem) => if h[l].target.Some? { ReadyIsTyped(elem, h[l].target.value, h); }
      case Array(length, elem) =>
        forall j | 0 <= j < length ensures WellTyped(elem, ElemOf(l, j), h) { ReadyIsTyped(elem, ElemOf(l, j), h); }
      case _ =>
    }
  }

  /** Cells keep their kind, and pointers stay or have become nil. */
  predicate Nilled(h: Heap, h': Heap) {
    forall k :: k in h ==> k in h' && SameKind(h[k], h'[k]) && (h[k].PtrCell? ==> h'[k] == h[k] || h'[k].target.None?)
  }

  lemma SameKindTransitive(a: Cell, b: Cell, c: Cell)
    requires SameKind(a, b) && SameKind(a, c)
    ensures SameKind(b, c) && SameKind(b, b)
  {
  }

  lemma StillLies(zero: Instance, l: Loc, h: Heap, h': Heap)
    requires LiesAt(zero, l, h)
    requires forall k :: k in h ==> k in h' && SameKind(h[k], h'[k])
    ensures LiesAt(zero, l, h')
  {
    hide SameKind;
    forall off | off in zero
      ensures At(l, off) in h' && SameKind(h'[At(l, off)], zero[off])
    {
      SameKindTransitive(h[At(l, off)], h'[At(l, off)], zero[off]);
    }
  }

  lemma {:induction false} ReadyNilled(ty: GoType, l: Loc, h: Heap, h': Heap)
    requires Ready(ty, l, h) && Nilled(h, h')
    ensures Ready(ty, l, h')
    decreases ty
  {
    hide LiesAt;
    match ty {
      case Pointer(_, elem) => if h'[l].target.Some? { ReadyNilled(elem, h[l].target.value, h, h'); }
      case Array(length, elem) =>
        forall j | 0 <= j < length ensures Ready(elem, ElemOf(l, j), h') { ReadyNilled(elem, ElemOf(l, j), h, h'); }
      case TypeParam(_, zero) => StillLies(zero, l, h, h');
      case _ =>
    }
  }

  lemma NilledFurther(h: Heap, h': Heap, h'': Heap)
    requires Nilled(h, h') && Nilled(h', h'')
    ensures Nilled(h, h'')
  {
  }

  /** A Reset method that sets the pointer at p to nil. */
  function Cutting(p: Loc): Calls {
    (l: Loc, h: Heap) => Some(if p in h && h[p].PtrCell? then h[p := h[p].(target := None)] else h)
  }

  lemma CutNils(p: Loc, h: Heap)
    requires p in h && h[p].PtrCell?
    ensures Nilled(h, h[p := h[p].(target := None)])
  {
  }

  lemma ZeroNils(zero: Instance, l: Loc, h: Heap)
    requires LiesAt(zero, l, h)
    ensures Nilled(h, ZeroAt(zero, l, h).value)
  {
    hide LiesAt, ZeroAt, At;
    ZeroAtKeys(zero, l, h);
    forall k | k in h
      ensures var c := ZeroAt(zero, l, h).value[k];
              SameKind(h[k], c) && (h[k].PtrCell? ==> c == h[k] || c.target.None?)
    {
      ZeroAtWrites(zero, l, h, k);
    }
  }

  lemma {:induction false} SpecRuns(p: Loc, ty: GoType, l: Loc, s: State)
    requires Ready(ty, l, s.heap) && Ends(LeafType(ty)) && p in s.heap && s.heap[p].PtrCell?
    ensures var r := ResetValue(Cutting(p), ty, l, s); r.Some? && Nilled(s.heap, r.value.heap)
    decreases ty, 0
  {
    hide LiesAt, ZeroAt, Nilled;
    CutNils(p, s.heap);
    SameIsNilled(s.heap);
    match ty {
      case Pointer(_, elem) => if s.heap[l].target.Some? { SpecRuns(p, elem, s.heap[l].target.value, s); }
      case Array(length, elem) => ElementsRun(p, length, elem, l, 0, s);
      case TypeParam(_, zero) => ZeroNils(zero, l, s.heap); ZeroAtKeys(zero, l, s.heap);
      case _ =>
    }
  }

  lemma SameIsNilled(h: Heap)
    ensures Nilled(h, h)
  {
  }

  lemma {:induction false} ElementsRun(p: Loc, length: nat, elem: GoType, l: Loc, from: nat, s: State)
    requires Ready(Array(length, elem), l, s.heap) && Ends(LeafType(elem)) && p in s.heap && s.heap[p].PtrCell?
    ensures var r := ResetElements(Cutting(p), elem, l, from, length, s); r.Some? && Nilled(s.heap, r.value.heap)
    decreases elem, 1, length - from
  {
    if from < length {
      SpecRuns(p, elem, ElemOf(l, from), s);
      var r := ResetValue(Cutting(p), elem, ElemOf(l, from), s).value;
      ReadyNilled(Array(length, elem), l, s.heap, r.heap);
      ElementsRun(p, length, elem, l, from + 1, r);
      NilledFurther(s.heap, r.heap, ResetElements(Cutting(p), elem, l, from + 1, length, r).value.heap);
    } else {
      SameIsNilled(s.heap);
    }
  }

  // ---- The way to the array is cut ----

  /** Following k pointers from l leads to the pointer at q. */
  ghost predicate Leads(ty: GoType, l: Loc, h: Heap, k: nat, q: Loc)
    decreases k
  {
    ty.Pointer? &&
    if k == 0 then l == q
    else && l in h && h[l].PtrCell? && h[l].to == ty.to && h[l].target.Some?
         && Leads(ty.elem, h[l].target.value, h, k - 1, q)
  }

  /** The pointer at q is one of those that lead from l to the array. */
  ghost predicate GoesThrough(ty: GoType, l: Loc, h: Heap, q: Loc)
    decreases ty
  {
    ty.Pointer? &&
    (l == q || (l in h && h[l].PtrCell? && h[l].target.Some? && GoesThrough(ty.elem, h[l].target.value, h, q)))
  }

  predicate IsNil(h: Heap, q: Loc) {
    q in h && h[q].PtrCell? && h[q].target.None?
  }

  /** Resetting element 0 of the array that the pointers from l lead to sets the pointer at q to nil. */
  ghost predicate Cuts(call: Calls, ty: GoType, l: Loc, s: State, q: Loc)
    decreases ty
  {
    match ty
    case Pointer(_, elem) =>
      l in s.heap && s.heap[l].PtrCell? && s.heap[l].target.Some? && Cuts(call, elem, s.heap[l].target.value, s, q)
    case Array(_, elem) =>
      var r := ResetValue(call, elem, ElemOf(l, 0), s);
      r.Some? && Nilled(s.heap, r.value.heap) && IsNil(r.value.heap, q)
    case _ => false
  }

  lemma {:induction false} ResolveNilled(env: Env, i: Option<nat>, p: Path, h: Heap, h': Heap)
    requires Nilled(h, h')
    ensures Resolve(env, i, p, h').Some? && Resolve(env, i, p, h).Some? ==> Resolve(env, i, p, h') == Resolve(env, i, p, h)
  {
    match p {
      case Field(_) =>
      case Deref(q) => ResolveNilled(env, i, q, h, h');
      case Index(q) => ResolveNilled(env, i, q, h, h');
    }
  }

  /** The address p dereferences the pointer at q. */
  ghost predicate Via(env: Env, q: Loc, p: Path, h: Heap) {
    p.Deref? &&
    ((Resolve(env, None, p.inner, h).Some? && Resolve(env, None, p.inner, h).value.loc == q) || Via(env, q, p.inner, h))
  }

  lemma {:induction false} ViaCut(env: Env, q: Loc, p: Path, h: Heap, h': Heap)
    requires Via(env, q, p, h) && Nilled(h, h') && IsNil(h', q)
    ensures Resolve(env, None, p, h').None?
  {
    hide Nilled;
    ResolveNilled(env, None, p.inner, h, h');
    if Via(env, q, p.inner, h) { ViaCut(env, q, p.inner, h, h'); }
  }

  lemma {:induction false} CutCodePanics(env: Env, p: Path, ty: GoType, l: Loc, s: State, q: Loc)
    requires Resolve(env, None, p, s.heap) == Some(Place(l, ty)) && !HasIndex(p)
    requires ArrayDepth(ty) == 1 && !ShortArrays(ty) && HasWork(ty)
    requires Cuts(env.call, ty, l, s, q) && (Via(env, q, p, s.heap) || GoesThrough(ty, l, s.heap, q))
    ensures ExecAll(env, None, ResetStmts(p, ty), s).None?
    decreases ty
  {
    hide ResetValue, ResetStmts, Nilled;
    if ty.Pointer? {
      CodeFollows(env, p, ty, l, s);
      CutCodePanics(env, Deref(p), ty.elem, s.heap[l].target.value, s, q);
    } else {
      NoArrayIsShort(ty.elem);
      var r := ResetValue(env.call, ty.elem, ElemOf(l, 0), s).value;
      ViaCut(env, q, p, s.heap, r.heap);
      UnindexedIgnoresLoop({}, env, None, Some(1), p, r.heap);
      SecondElementPanics(env, p, ty.length, ty.elem, l, s, r);
    }
  }

  /** The k-th pointer on the way. */
  function PointerAt(ty: GoType, k: nat): GoType {
    if k == 0 || !ty.Pointer? then ty else PointerAt(ty.elem, k - 1)
  }

  lemma {:induction false} LeadsOn(call: Calls, ty: GoType, l: Loc, s: State, k: nat, q: Loc)
    requires Leads(ty, l, s.heap, k, q) && PointerAt(ty, k).Pointer?
    requires q in s.heap && s.heap[q].PtrCell? && s.heap[q].to == PointerAt(ty, k).to && s.heap[q].target.Some?
    requires Ready(PointerAt(ty, k).elem, s.heap[q].target.value, s.heap)
    requires Cuts(call, PointerAt(ty, k).elem, s.heap[q].target.value, s, q)
    ensures Ready(ty, l, s.heap) && Cuts(call, ty, l, s, q) && GoesThrough(ty, l, s.heap, q)
    decreases k
  {
    if k > 0 { LeadsOn(call, ty.elem, s.heap[l].target.value, s, k - 1, q); }
  }

  // ---- A heap on which that happens ----

  /** Some pointers that were nil lead somewhere. */
  predicate Redirects(h: Heap, h': Heap) {
    forall k :: k in h ==> k in h' && (h'[k] == h[k] || (IsNil(h, k) && h'[k].PtrCell? && h'[k].to == h[k].to))
  }

  lemma RedirectedKinds(h: Heap, h': Heap)
    requires Redirects(h, h')
    ensures forall k :: k in h ==> k in h' && SameKind(h[k], h'[k])
  {
  }

  lemma {:induction false} FilledReady(ty: GoType, l: Loc, h: Heap, h': Heap)
    requires Filled(ty, l, h, None) && Ends(LeafType(ty)) && Redirects(h, h')
    ensures Ready(ty, l, h')
    decreases ty
  {
    hide LiesAt, InstanceCells;
    match ty {
      case Pointer(_, elem) => FilledReady(elem, Behind(l), h, h');
      case Array(length, elem) =>
        forall j | 0 <= j < length ensures Ready(elem, ElemOf(l, j), h') { FilledReady(elem, ElemOf(l, j), h, h'); }
      case TypeParam(_, zero) =>
        InstanceLies(zero, l, h, true);
        RedirectedKinds(h, h');
        StillLies(zero, l, h, h');
      case Interface => assert l in LeafCells(Interface, l, true);
      case _ =>
    }
  }

  lemma {:induction false} ResetsLeaf(call: Calls, ty: GoType, l: Loc, h: Heap, s: State)
    requires Filled(ty, l, h, None) && ArrayDepth(ty) == 0 && Redirects(h, s.heap) && !Inert(LeafType(ty))
    ensures var leaf := LeafAt(ty, l, []);
            ResetValue(call, ty, l, s) == Act(s, leaf, ResetLeaf(call, LeafType(ty), leaf, s.heap))
    decreases ty
  {
    if ty.Pointer? { ResetsLeaf(call, ty.elem, Behind(l), h, s); }
  }

  /** The value reset first. */
  function First(ty: GoType, l: Loc): Loc
    requires ArrayDepth(ty) == 1
  {
    LeafAt(ty, l, [0])
  }

  predicate NilsFirst(ty: GoType, l: Loc, h: Heap, q: Loc)
    requires ArrayDepth(ty) == 1
  {
    var r := ResetLeaf(Cutting(q), LeafType(ty), First(ty, l), h);
    r.Some? ==> IsNil(r.value, q)
  }

  lemma {:induction false} FilledCuts(ty: GoType, l: Loc, h: Heap, s: State, q: Loc)
    requires Filled(ty, l, h, None) && Redirects(h, s.heap) && ArrayDepth(ty) == 1 && HasWork(ty) && Ends(LeafType(ty))
    requires q in s.heap && s.heap[q].PtrCell? && NilsFirst(ty, l, s.heap, q)
    ensures Cuts(Cutting(q), ty, l, s, q)
    decreases ty
  {
    hide ResetLeaf, Redirects, LeafCells, Nilled, Ends;
    match ty {
      case Pointer(_, elem) =>
        FilledReady(ty, l, h, s.heap);
        FilledStays(ty, l, h, s.heap);
        FilledCuts(elem, Behind(l), h, s, q);
      case Array(_, elem) =>
        assert [0][1..] == [];
        WorkAtLeaf(elem);
        ResetsLeaf(Cutting(q), elem, ElemOf(l, 0), h, s);
        FilledReady(elem, ElemOf(l, 0), h, s.heap);
        SpecRuns(q, elem, ElemOf(l, 0), s);
      case _ =>
    }
  }

  lemma FilledStays(ty: GoType, l: Loc, h: Heap, h': Heap)
    requires ty.Pointer? && Filled(ty, l, h, None) && Redirects(h, h')
    ensures l in h' && h'[l] == PtrCell(Some(Behind(l)), ty.to)
  {
  }

  /** k pointers that lead from l to q. */
  function Lead(ty: GoType, l: Loc, k: nat, q: Loc): Heap
    decreases k
  {
    if k == 0 || !ty.Pointer? then map[]
    else Lead(ty.elem, Behind(l), k - 1, q)[l := PtrCell(Some(if k == 1 then q else Behind(l)), ty.to)]
  }

  lemma {:induction false} LeadUnder(ty: GoType, l: Loc, k: nat, q: Loc)
    ensures forall c :: c in Lead(ty, l, k, q) ==> Under(l, c)
    decreases k
  {
    if k > 0 && ty.Pointer? {
      LeadUnder(ty.elem, Behind(l), k - 1, q);
      forall c | Under(Behind(l), c) ensures Under(l, c) { UnderParent(Behind(l), c); }
    }
  }

  lemma {:induction false} LeadLeads(ty: GoType, l: Loc, h: Heap, k: nat, q: Loc)
    requires Includes(h, Lead(ty, l, k, q)) && PointerAt(ty, k).Pointer? && (k == 0 ==> l == q)
    ensures Leads(ty, l, h, k, q)
    decreases k
  {
    if k > 0 {
      PointerBefore(ty, k);
      assert l in Lead(ty, l, k, q) && h[l] == Lead(ty, l, k, q)[l];
      if k > 1 {
        var further := Lead(ty.elem, Behind(l), k - 1, q);
        LeadUnder(ty.elem, Behind(l), k - 1, q);
        forall c | c in further ensures c != l { UnderParent(Behind(l), c); }
        assert forall c :: c in further ==> Lead(ty, l, k, q)[c] == further[c];
        LeadLeads(ty.elem, Behind(l), h, k - 1, q);
      } else {
        LeadLeads(ty.elem, q, h, 0, q);
      }
    }
  }

  lemma PointerBefore(ty: GoType, k: nat)
    requires PointerAt(ty, k).Pointer?
    ensures ty.Pointer?
  {
  }

  function Store(field: FieldId): Loc {
    FieldOf(Object(1), field)
  }

  /** Behind the k-th pointer, an array of values that are zero. */
  function Stored(field: FieldId, ty: GoType, k: nat): Heap
    requires PointerAt(ty, k).Pointer?
  {
    Fill(PointerAt(ty, k).elem, Store(field), None)
  }

  /** The field, if q is to be the k-th pointer. */
  function Start(field: FieldId, k: nat, q: Loc): Loc {
    if k == 0 then q else FieldOf(Object(0), field)
  }

  /** The pointer q to it, and the way from the field to q. */
  function CutHeap(field: FieldId, ty: GoType, k: nat, q: Loc): Heap
    requires PointerAt(ty, k).Pointer?
  {
    Stored(field, ty, k)[q := PtrCell(Some(Store(field)), PointerAt(ty, k).to)] + Lead(ty, Start(field, k, q), k, q)
  }

  lemma Apart(i: nat, j: nat, k: Loc)
    requires Under(Object(i), k) && Under(Object(j), k)
    ensures i == j
  {
  }

  /** The k-th pointer can be at q: as a cell of what is stored it is a nil pointer of its type. */
  predicate Fits(field: FieldId, ty: GoType, k: nat, q: Loc) {
    && PointerAt(ty, k).Pointer?
    && (if k == 0 then q.FieldOf? && q.field == field else !Under(Object(0), q))
    && (q in Stored(field, ty, k) ==> IsNil(Stored(field, ty, k), q) && Stored(field, ty, k)[q].to == PointerAt(ty, k).to)
  }

  lemma CutHeapIs(field: FieldId, ty: GoType, k: nat, q: Loc)
    requires Fits(field, ty, k, q)
    ensures var h, l := CutHeap(field, ty, k, q), Start(field, k, q);
            && Redirects(Stored(field, ty, k), h) && Leads(ty, l, h, k, q)
            && q in h && h[q] == PtrCell(Some(Store(field)), PointerAt(ty, k).to)
  {
    hide Fill, Leads, Under, PointerAt;
    var l := Start(field, k, q);
    FillUnder(PointerAt(ty, k).elem, Store(field), None);
    LeadUnder(ty, l, k, q);
    forall c | c in Lead(ty, l, k, q)
      ensures c != q && c !in Stored(field, ty, k)
    {
      UnderParent(l, c);
      if Under(Store(field), c) { UnderParent(Store(field), c); Apart(0, 1, c); }
    }
    LeadLeads(ty, l, CutHeap(field, ty, k, q), k, q);
  }

  lemma {:induction false} Shape(ty: GoType, k: nat)
    requires ArrayDepth(ty) == 1 && PointerAt(ty, k).Pointer?
    ensures ArrayDepth(PointerAt(ty, k).elem) == 1 && LeafType(PointerAt(ty, k).elem) == LeafType(ty)
    ensures HasWork(ty) ==> HasWork(PointerAt(ty, k).elem)
    decreases k
  {
    PointerBefore(ty, k);
    if k > 0 { Shape(ty.elem, k - 1); }
  }

  lemma {:induction false} UnsteadyIsPointer(ty: GoType)
    requires ArrayDepth(ty) == 1 && !Steady(ty)
    ensures ty.Pointer? && !ShortArrays(ty)
  {
    if ty.Array? { NoArrayIsSteady(ty.elem); }
  }

  /** If the k-th pointer can be at q, and resetting the first value sets it to nil, the code panics
      where resetting the field goes on. */
  lemma CutGoesWrong(field: FieldId, ty: GoType, k: nat, q: Loc)
    requires HasWork(ty) && ArrayDepth(ty) == 1 && !Steady(ty) && Ends(LeafType(ty)) && Fits(field, ty, k, q)
    requires ArrayDepth(PointerAt(ty, k).elem) == 1
    requires NilsFirst(PointerAt(ty, k).elem, Store(field), CutHeap(field, ty, k, q), q)
    ensures !AlwaysMeetsSpec(field, ty)
  {
    hide Fill, Filled, Ready, Leads, Cuts, GoesThrough, Under, HasWork, ResetValue, ResetLeaf, Redirects, LeafAt, CutHeap,
         Steady, ExecAll, ResetStmts, PointerAt, Ends, ArrayDepth, LeafType;
    var rest, l := PointerAt(ty, k).elem, Start(field, k, q);
    var env := Env(l.base, field.structure, map[field.name := ty], Cutting(q));
    var s := State(CutHeap(field, ty, k, q), []);
    Shape(ty, k);
    UnsteadyIsPointer(ty);
    CutHeapIs(field, ty, k, q);
    FillFills(rest, Store(field), Stored(field, ty, k), None);
    FilledReady(rest, Store(field), Stored(field, ty, k), s.heap);
    FilledCuts(rest, Store(field), Stored(field, ty, k), s, q);
    LeadsOn(env.call, ty, l, s, k, q);
    assert FieldLoc(env, field.name) == l;
    ReadyIsTyped(ty, l, s.heap);
    SpecRuns(q, ty, l, s);
    CutCodePanics(env, Field(field.name), ty, l, s, q);
    assert Has(env, field, ty) && !Meets(env, field.name, s);
  }

  lemma FirstStored(field: FieldId, ty: GoType, k: nat)
    requires HasWork(ty) && ArrayDepth(ty) == 1 && PointerAt(ty, k).Pointer?
    ensures ArrayDepth(PointerAt(ty, k).elem) == 1
    ensures Includes(Stored(field, ty, k), LeafCells(LeafType(ty), First(PointerAt(ty, k).elem, Store(field)), true))
    ensures forall c :: c in Stored(field, ty, k) ==> Under(Store(field), c)
  {
    hide Fill, Filled, HasWork, LeafCells, Under, PointerAt, LeafAt, InRange;
    var rest := PointerAt(ty, k).elem;
    Shape(ty, k);
    FillUnder(rest, Store(field), None);
    FillFills(rest, Store(field), Stored(field, ty, k), None);
    var idx := Origin(rest);
    assert idx == [0];
    LeafOfFilled(rest, Store(field), Stored(field, ty, k), None, idx);
  }

  /** A Reset method may set the field to nil. */
  lemma CallingGoesWrong(field: FieldId, ty: GoType)
    requires HasWork(ty) && ArrayDepth(ty) == 1 && !Steady(ty) && CallsReset(ty)
    ensures !AlwaysMeetsSpec(field, ty)
  {
    hide Fill, HasWork, Under, First, Steady, ShortArrays, ArrayDepth, CutHeap, LeafType;
    UnsteadyIsPointer(ty);
    var q := FieldOf(Object(0), field);
    FirstStored(field, ty, 0);
    FieldUnder(field);
    if Under(Store(field), q) { UnderParent(Store(field), q); Apart(0, 1, q); }
    CutHeapIs(field, ty, 0, q);
    assert First(ty.elem, Store(field)) in LeafCells(LeafType(ty), First(ty.elem, Store(field)), true);
    assert LeafType(ty.elem) == LeafType(ty) by { Shape(ty, 0); }
    CutGoesWrong(field, ty, 0, q);
  }

  lemma FieldUnder(field: FieldId)
    ensures Under(Object(0), FieldOf(Object(0), field))
  {
  }

  /** A pointer in a value of a type parameter may be one of those that lead to the array: the field,
      because the value can have the receiver in it, or one behind it, which can lie anywhere. */
  lemma MayCutGoesWrong(field: FieldId, ty: GoType, off: Offset)
    requires HasWork(ty) && ArrayDepth(ty) == 1 && !Steady(ty) && LeafType(ty).TypeParam? && ty.Pointer?
    requires off in LeafType(ty).zero && MayCut(field, ty, LeafType(ty).zero, off)
    ensures !AlwaysMeetsSpec(field, ty)
  {
    hide HasWork, Steady;
    var to := LeafType(ty).zero[off].to;
    if to in Way(ty.elem) {
      var k := OnWay(ty.elem, to);
      StoredCutGoesWrong(field, ty, k + 1, off);
    } else {
      StoredCutGoesWrong(field, ty, 0, off);
    }
  }

  lemma {:induction false} OnWay(ty: GoType, to: string) returns (k: nat)
    requires to in Way(ty)
    ensures PointerAt(ty, k).Pointer? && PointerAt(ty, k).to == to
  {
    if ty.to == to { k := 0; } else { k := OnWay(ty.elem, to); k := k + 1; }
  }

  lemma StoredCutGoesWrong(field: FieldId, ty: GoType, k: nat, off: Offset)
    requires HasWork(ty) && ArrayDepth(ty) == 1 && !Steady(ty) && LeafType(ty).TypeParam? && PointerAt(ty, k).Pointer?
    requires off in LeafType(ty).zero && LeafType(ty).zero[off].PtrCell?
    requires LeafType(ty).zero[off].to == PointerAt(ty, k).to
    requires k == 0 ==> MayBe(field, off, ElementType(ty).Pointer?)
    ensures !AlwaysMeetsSpec(field, ty)
  {
    hide Fill, HasWork, Under, LeafAt, InstanceCells, Steady, LiesAt, ZeroAt, At, LeafType, PointerAt, ArrayDepth, CutHeap, MayBe;
    FirstStored(field, ty, k);
    Shape(ty, k);
    var zero, rest, h := LeafType(ty).zero, PointerAt(ty, k).elem, Stored(field, ty, k);
    var first := First(rest, Store(field));
    var q := At(first, off);
    InstanceLies(zero, first, h, true);
    LiesIn(zero, first, h, off);
    UnderParent(Store(field), q);
    if Under(Object(0), q) { Apart(0, 1, q); }
    if k == 0 {
      FirstPointer(ty);
      FirstIsField(field, ty.elem, Store(field), off);
    }
    CutHeapIs(field, ty, k, q);
    var cut := CutHeap(field, ty, k, q);
    RedirectedKinds(h, cut);
    StillLies(zero, first, h, cut);
    ZeroAtIs(zero, first, cut, off);
    CutGoesWrong(field, ty, k, q);
  }

  lemma LiesIn(zero: Instance, l: Loc, h: Heap, off: Offset)
    requires LiesAt(zero, l, h) && off in zero
    ensures At(l, off) in h
  {
  }

  lemma FirstPointer(ty: GoType)
    ensures PointerAt(ty, 0) == ty
    ensures ty.Pointer? ==> ElementType(ty) == ElementType(ty.elem)
  {
  }

  lemma {:induction false} FirstIsField(field: FieldId, ty: GoType, l: Loc, off: Offset)
    requires ArrayDepth(ty) == 1 && MayBe(field, off, ElementType(ty).Pointer?) && FieldNear(l) == field
    ensures At(First(ty, l), off).FieldOf? && At(First(ty, l), off).field == field
    decreases ty
  {
    if ty.Pointer? {
      FirstIsField(field, ty.elem, Behind(l), off);
    } else {
      assert [0][1..] == [];
      LeafIsField(ty.elem, ElemOf(l, 0));
    }
  }

  lemma {:induction false} LeafIsField(ty: GoType, l: Loc)
    requires ArrayDepth(ty) == 0
    ensures var leaf := LeafAt(ty, l, []); ty.Pointer? ==> leaf.FieldOf? && leaf.field == FieldNear(l)
    decreases ty
  {
    if ty.Pointer? { LeafIsField(ty.elem, Behind(l)); }
  }

  // ---- The exact conditions ----

  lemma {:induction false} UnitIsSteady(ty: GoType)
    requires UnitArrays(ty)
    ensures ShortArrays(ty) && Steady(ty)
  {
    match ty {
      case Pointer(_, elem) => UnitIsSteady(elem);
      case Array(_, elem) => UnitIsSteady(elem);
      case _ =>
    }
  }

  lemma {:induction false} NoArrayIsSteady(ty: GoType)
    requires ArrayDepth(ty) == 0
    ensures Steady(ty)
  {
    if ty.Pointer? { NoArrayIsShort(ty.elem); }
  }

  lemma FlatIsShallow(ty: GoType)
    requires Flat(ty) && !Steady(ty)
    ensures ArrayDepth(ty) == 1
  {
    if UnitArrays(ty) { UnitIsSteady(ty); }
    if ArrayDepth(ty) == 0 { NoArrayIsSteady(ty); }
  }

  lemma UnsteadyGoesWrong(field: FieldId, ty: GoType)
    requires HasWork(ty) && Flat(ty) && !PointersHold(field, ty)
    ensures !AlwaysMeetsSpec(field, ty)
  {
    hide HasWork, AlwaysMeetsSpec;
    FlatIsShallow(ty);
    UnsteadyIsPointer(ty);
    if CallsReset(ty) {
      CallingGoesWrong(field, ty);
    } else {
      var off :| off in LeafType(ty).zero && MayCut(field, ty, LeafType(ty).zero, off);
      MayCutGoesWrong(field, ty, off);
    }
  }

  lemma ArrayOfLeaves(n: nat, leaf: GoType)
    requires leaf.TypeParam?
    ensures LeafType(Array(n, leaf)) == leaf && ArrayDepth(Array(n, leaf)) == 1 && ElementType(Array(n, leaf)) == leaf
    ensures Way(Array(n, leaf)) == {} && ShortArrays(Array(n, leaf)) == (n <= 1)
    ensures HasWork(Array(n, leaf)) <==> n > 0 && leaf.zero != map[]
  {
    assert LeafType(leaf) == leaf && ArrayDepth(leaf) == 0 && ShortArrays(leaf);
  }

  lemma PointerToArray(field: FieldId, n: nat, to: string, leaf: GoType, off: Offset)
    requires n >= 2 && leaf.TypeParam? && off in leaf.zero && leaf.zero[off] == PtrCell(None, to) && MayBe(field, off, false)
    ensures !AlwaysMeetsSpec(field, Pointer(to, Array(n, leaf)))
  {
    var ty := Pointer(to, Array(n, leaf));
    ArrayOfLeaves(n, leaf);
    MayCutGoesWrong(field, ty, off);
  }

  /** The smallest such field: a pointer to an array of structs, each with a receiver in it. */
  lemma ReceiversInTheArray(field: FieldId, n: nat, to: string)
    requires n >= 2
    ensures var receiver := [InField(FieldId("T", "s")), InField(field)];
            !AlwaysMeetsSpec(field, Pointer(to, Array(n, TypeParam("T", map[receiver := PtrCell(None, to)]))))
  {
    var off: Offset := [InField(FieldId("T", "s")), InField(field)];
    PointerToArray(field, n, to, TypeParam("T", map[off := PtrCell(None, to)]), off);
  }

  /** The same array of structs that have a pointer of that type, but no receiver, in them is reset
      correctly. */
  lemma OtherPointersInTheArray(field: FieldId, n: nat, to: string, other: FieldId)
    requires other != field
    ensures AlwaysMeetsSpec(field, Pointer(to, Array(n, TypeParam("T", map[[InField(other)] := PtrCell(None, to)]))))
  {
    var leaf := TypeParam("T", map[[InField(other)] := PtrCell(None, to)]);
    var ty := Pointer(to, Array(n, leaf));
    ArrayOfLeaves(n, leaf);
    assert OutOfReach(field, ty);
    forall env: Env, s: State | Has(env, field, ty) && WellTyped(ty, FieldLoc(env, field.name), s.heap)
      ensures Meets(env, field.name, s)
    {
      OutOfReachMeets(env, field.name, s);
    }
  }

  lemma AlwaysIsWhenSafe(field: FieldId, ty: GoType)
    requires AlwaysMeetsSpec(field, ty)
    ensures MeetsSpecWhenSafe(field, ty)
  {
    hide Meets, Guarded, WellTyped;
    forall pointers: set<Loc>, env: Env, s: State | Has(env, field, ty) && Safe(pointers, env, s.heap)
      ensures Meets(env, field.name, s)
    {
      GuardedIsTyped(pointers, ty, FieldLoc(env, field.name), s.heap);
    }
  }

  lemma IdleMeets(env: Env, name: string, s: State)
    requires name in env.fields && !HasWork(env.fields[name]) && NeverPanics(env.fields[name])
    requires WellTyped(env.fields[name], FieldLoc(env, name), s.heap)
    ensures Meets(env, name, s)
  {
    var ty := env.fields[name];
    NeverPanicsPasses(env, name, ty, s.heap);
    PassesMeans(env, None, Field(name), ty, s);
    NothingToReset(env.call, ty, FieldLoc(env, name), s);
  }

  /** For every field type, on every well-typed heap and for every set of Reset methods. */
  lemma MeetsSpecExactly(field: FieldId, ty: GoType)
    ensures AlwaysMeetsSpec(field, ty) <==>
            if HasWork(ty) then Flat(ty) && PointersHold(field, ty) else NeverPanics(ty)
  {
    hide Meets, WellTyped, HasWork, Flat, Steady, Tame, NeverPanics, MeetsSpecWhenSafe;
    if HasWork(ty) {
      if !Flat(ty) {
        NestedArraysGoWrong(field, ty);
        if AlwaysMeetsSpec(field, ty) { AlwaysIsWhenSafe(field, ty); }
      } else if !PointersHold(field, ty) {
        UnsteadyGoesWrong(field, ty);
      } else {
        forall env: Env, s: State | Has(env, field, ty) && WellTyped(ty, FieldLoc(env, field.name), s.heap)
          ensures Meets(env, field.name, s)
        {
          if Steady(ty) || Tame(ty) {
            FlatMeets({}, env, field.name, s);
          } else {
            FlatIsShallow(ty);
            OutOfReachMeets(env, field.name, s);
          }
        }
      }
    } else if NeverPanics(ty) {
      forall env: Env, s: State | Has(env, field, ty) && WellTyped(ty, FieldLoc(env, field.name), s.heap)
        ensures Meets(env, field.name, s)
      {
        IdleMeets(env, field.name, s);
      }
    } else {
      PanicsSomewhere(field, ty);
      if AlwaysMeetsSpec(field, ty) { AlwaysIsWhenSafe(field, ty); }
    }
  }

  /** For a field whose values are in the end reset by Reset methods: whatever those do, the code is
      right exactly when no array of two or more elements stands behind a pointer. */
  lemma RedirectingResetGoesWrong(field: FieldId, ty: GoType)
    requires HasWork(ty) && Flat(ty) && CallsReset(ty)
    ensures AlwaysMeetsSpec(field, ty) <==> Steady(ty)
  {
    hide AlwaysMeetsSpec, HasWork, Flat, Steady;
    MeetsSpecExactly(field, ty);
  }

  lemma FlatMeets(pointers: set<Loc>, env: Env, name: string, s: State)
    requires name in env.fields && Flat(env.fields[name])
    requires Steady(env.fields[name]) || WritesNoPointer(env.call, env.fields[name]) || Safe(pointers, env, s.heap)
    ensures Meets(env, name, s)
  {
    FieldMeetsSpec(pointers, env, name, s);
  }

  /** For every field type, on the heaps whose pointers are kept apart from what is reset. */
  lemma MeetsSpecWhenSafeExactly(field: FieldId, ty: GoType)
    ensures MeetsSpecWhenSafe(field, ty) <==> if HasWork(ty) then Flat(ty) else NeverPanics(ty)
  {
    hide Meets, WellTyped, Guarded, HasWork, Flat, NeverPanics;
    if HasWork(ty) && Flat(ty) {
      forall pointers: set<Loc>, env: Env, s: State | Has(env, field, ty) && Safe(pointers, env, s.heap)
        ensures Meets(env, field.name, s)
      {
        FlatMeets(pointers, env, field.name, s);
      }
    } else if HasWork(ty) {
      NestedArraysGoWrong(field, ty);
    } else if NeverPanics(ty) {
      forall pointers: set<Loc>, env: Env, s: State | Has(env, field, ty) && Safe(pointers, env, s.heap)
        ensures Meets(env, field.name, s)
      {
        GuardedIsTyped(pointers, ty, FieldLoc(env, field.name), s.heap);
        IdleMeets(env, field.name, s);
      }
    } else {
      PanicsSomewhere(field, ty);
    }
  }
}
