/** Arrays nested in arrays: the generated code resets them wrongly, whatever else holds. */
module ResetNested {
  import opened Metrics
  import opened ResetPaths
  import opened ResetGenerator

  /** Resetting the value never changes a cell: nothing is done, or a value without cells, such as
      one of an empty struct type, is zeroed. */
  predicate Idle(ty: GoType) {
    Inert(ty) || (ty.TypeParam? && ty.zero == map[])
  }

  /** There is something to reset, and arrays on the way are not empty. */
  predicate HasWork(ty: GoType) {
    match ty
    case Pointer(_, elem) => HasWork(elem)
    case Array(length, elem) => length > 0 && HasWork(elem)
    case _ => !Idle(ty)
  }

  lemma {:induction false} WorkAtLeaf(ty: GoType)
    requires HasWork(ty)
    ensures !Idle(LeafType(ty))
  {
    match ty {
      case Pointer(_, elem) => WorkAtLeaf(elem);
      case Array(_, elem) => WorkAtLeaf(elem);
      case _ =>
    }
  }

  predicate SameHeap(a: Option<State>, b: Option<State>) {
    a.Some? == b.Some? && (a.Some? ==> a.value.heap == b.value.heap)
  }

  /** The code emitted for the field leaves the heap that resetting the field leaves. */
  predicate Meets(env: Env, name: string, s: State)
    requires name in env.fields
  {
    var ty := env.fields[name];
    SameHeap(ExecAll(env, None, ResetStmts(Field(name), ty), s), ResetValue(env.call, ty, FieldLoc(env, name), s))
  }

  /** The receiver has this field, with this type. */
  predicate Has(env: Env, field: FieldId, ty: GoType) {
    env.structure == field.structure && field.name in env.fields && env.fields[field.name] == ty
  }

  /** It does so for every receiver, whenever the pointers on the way are kept apart from what is
      reset. */
  ghost predicate MeetsSpecWhenSafe(field: FieldId, ty: GoType) {
    forall pointers: set<Loc>, env: Env, s: State ::
      Has(env, field, ty) && Safe(pointers, env, s.heap) ==> Meets(env, field.name, s)
  }

  // ---- A heap in which every pointer leads to storage of its own and one value is not zero ----

  /** A Reset method that sets a struct or an interface value to zero. */
  function ZeroingCall(): Calls {
    (l: Loc, h: Heap) =>
      if l in h && h[l].OpaqueCell? then Some(h[l := OpaqueCell(0)])
      else if l in h && h[l].InterfaceCell? then Some(h[l := InterfaceCell(Some(0), true)])
      else Some(h)
  }

  /** A cell that holds another value of the same kind. */
  function Other(c: ZeroCell): (r: Cell)
    ensures SameKind(r, c) && r != c
  {
    match c
    case BoolCell(b) => BoolCell(!b)
    case StringCell(s) => StringCell(if s == "" then "a" else "")
    case NumberCell(n) => NumberCell(n + 1.0)
    case UnsafeCell(a) => UnsafeCell(if a.None? then Some(0) else None)
    case PtrCell(_, to) => PtrCell(Some(Object(0)), to)
    case SliceCell(b, len, cap) => SliceCell(b, len + 1, cap)
    case MapCell(table) => MapCell(if table.None? then Some(Object(0)) else None)
    case TableCell(m) => TableCell(if 0 in m then map[] else map[0 := 0])
    case ChanCell(c) => ChanCell(if c.None? then Some(0) else None)
    case FuncCell(f) => FuncCell(if f.None? then Some(0) else None)
    case InterfaceCell(d, r) => InterfaceCell(d, !r)
    case OpaqueCell(n) => OpaqueCell(n + 1)
  }

  /** The cells of a value that is already reset, or of one that is not. */
  function LeafCells(ty: GoType, l: Loc, clean: bool): Heap {
    match ty
    case TypeParam(_, zero) => InstanceCells(zero, l, clean)
    case Basic(Boolean) => map[l := BoolCell(!clean)]
    case Basic(String) => map[l := StringCell(if clean then "" else "a")]
    case Basic(Numeric) => map[l := NumberCell(if clean then 0.0 else 1.0)]
    case Basic(UnsafePointer) => map[l := UnsafeCell(if clean then None else Some(0))]
    case Slice => map[l := SliceCell(None, if clean then 0 else 1, 1)]
    case Map => map[l := MapCell(Some(Behind(l))), Behind(l) := TableCell(if clean then map[] else map[0 := 0])]
    case Chan => map[l := ChanCell(if clean then None else Some(0))]
    case Func => map[l := FuncCell(if clean then None else Some(0))]
    case Interface => map[l := InterfaceCell(Some(if clean then 0 else 1), true)]
    case _ => map[l := OpaqueCell(if clean then 0 else 1)]
  }

  /** The cells of a type's zero value at l, or of a value in which none of them is zero. */
  function InstanceCells(zero: Instance, l: Loc, clean: bool): Heap {
    map k | k in (set off | off in zero :: At(l, off)) && Below(l, k).Some? && Below(l, k).value in zero ::
      if clean then zero[Below(l, k).value] else Other(zero[Below(l, k).value])
  }

  lemma InstanceCellsAt(zero: Instance, l: Loc, clean: bool)
    ensures forall off :: off in zero ==>
              && At(l, off) in InstanceCells(zero, l, clean)
              && InstanceCells(zero, l, clean)[At(l, off)] == if clean then zero[off] else Other(zero[off])
    ensures forall k :: k in InstanceCells(zero, l, clean) ==> exists off :: off in zero && k == At(l, off)
  {
    forall off | off in zero
      ensures At(l, off) in InstanceCells(zero, l, clean)
      ensures Below(l, At(l, off)) == Some(off)
    {
      BelowAt(l, off);
    }
  }

  /** The variable that the pointer at l leads to; it is in a field named like the one l is in. */
  function Behind(l: Loc): Loc {
    FieldOf(l, FieldNear(l))
  }

  function FieldNear(l: Loc): FieldId {
    match l case Object(_) => FieldId("", "") case FieldOf(_, field) => field case ElemOf(b, _) => FieldNear(b)
  }

  /** The pointers of the value lead to separate storage; every leaf but `dirty` is zero. */
  predicate Filled(ty: GoType, l: Loc, h: Heap, dirty: Option<Loc>)
    decreases ty
  {
    match ty
    case Pointer(to, elem) => l in h && h[l] == PtrCell(Some(Behind(l)), to) && Filled(elem, Behind(l), h, dirty)
    case Array(length, elem) => forall j :: 0 <= j < length ==> Filled(elem, ElemOf(l, j), h, dirty)
    case _ => Includes(h, LeafCells(ty, l, dirty != Some(l)))
  }

  function Fill(ty: GoType, l: Loc, dirty: Option<Loc>): Heap
    decreases ty, 0
  {
    match ty
    case Pointer(to, elem) => Fill(elem, Behind(l), dirty)[l := PtrCell(Some(Behind(l)), to)]
    case Array(length, elem) => FillElements(elem, l, length, dirty)
    case _ => LeafCells(ty, l, dirty != Some(l))
  }

  function FillElements(elem: GoType, l: Loc, length: nat, dirty: Option<Loc>): Heap
    decreases elem, 1, length
  {
    if length == 0 then map[]
    else FillElements(elem, l, length - 1, dirty) + Fill(elem, ElemOf(l, length - 1), dirty)
  }

  function Ancestor(l: Loc, depth: nat): Loc
    requires depth <= Depth(l)
  {
    if depth == Depth(l) then l
    else match l case Object(_) => l case FieldOf(b, _) => Ancestor(b, depth) case ElemOf(b, _) => Ancestor(b, depth)
  }

  /** m is l or a part of it. */
  predicate Under(l: Loc, m: Loc) {
    Depth(l) <= Depth(m) && Ancestor(m, Depth(l)) == l
  }

  lemma {:induction false} AncestorStep(m: Loc, d: nat)
    requires d < Depth(m)
    ensures Depth(Ancestor(m, d + 1)) == d + 1
    ensures !Ancestor(m, d + 1).Object? && Ancestor(m, d + 1).base == Ancestor(m, d)
  {
    match m {
      case Object(_) =>
      case FieldOf(b, _) => if d + 1 < Depth(m) { AncestorStep(b, d); }
      case ElemOf(b, _) => if d + 1 < Depth(m) { AncestorStep(b, d); }
    }
  }

  lemma UnderParent(l: Loc, m: Loc)
    requires !l.Object? && Under(l, m)
    ensures Under(l.base, m) && m != l.base
  {
    AncestorStep(m, Depth(l.base));
  }

  lemma UnderSelf(l: Loc)
    ensures Under(l, l) && Under(l, Behind(l)) && Behind(l) != l
  {
    UnderParent(Behind(l), Behind(l));
  }

  lemma {:induction false} AtUnder(l: Loc, off: Offset)
    ensures Under(l, At(l, off))
  {
    DepthAt(l, off);
    if off != [] {
      AtUnder(l, off[..|off| - 1]);
      DepthAt(l, off[..|off| - 1]);
    }
  }

  lemma LeafCellsUnder(ty: GoType, l: Loc, clean: bool)
    ensures forall k :: k in LeafCells(ty, l, clean) ==> Under(l, k)
  {
    UnderParent(Behind(l), Behind(l));
    if ty.TypeParam? {
      InstanceCellsAt(ty.zero, l, clean);
      forall off | off in ty.zero ensures Under(l, At(l, off)) { AtUnder(l, off); }
    }
  }

  lemma {:induction false} FillUnder(ty: GoType, l: Loc, dirty: Option<Loc>)
    ensures forall k :: k in Fill(ty, l, dirty) ==> Under(l, k)
    decreases ty, 0
  {
    match ty {
      case Pointer(_, elem) =>
        FillUnder(elem, Behind(l), dirty);
        forall k | k in Fill(elem, Behind(l), dirty) ensures Under(l, k) { UnderParent(Behind(l), k); }
      case Array(length, elem) =>
        FillElementsUnder(elem, l, length, dirty);
        forall k | k in Fill(ty, l, dirty) ensures Under(l, k) {
          assert k in FillElements(elem, l, length, dirty);
          var j :| 0 <= j < length && Under(ElemOf(l, j), k);
          UnderParent(ElemOf(l, j), k);
        }
      case _ => LeafCellsUnder(ty, l, dirty != Some(l));
    }
  }

  lemma {:induction false} FillElementsUnder(elem: GoType, l: Loc, length: nat, dirty: Option<Loc>)
    ensures forall k :: k in FillElements(elem, l, length, dirty) ==> exists j :: 0 <= j < length && Under(ElemOf(l, j), k)
    decreases elem, 1, length
  {
    if length > 0 {
      FillElementsUnder(elem, l, length - 1, dirty);
      FillUnder(elem, ElemOf(l, length - 1), dirty);
    }
  }

  predicate Includes(h: Heap, part: Heap) {
    forall k :: k in part ==> k in h && h[k] == part[k]
  }

  lemma {:induction false} FillFills(ty: GoType, l: Loc, h: Heap, dirty: Option<Loc>)
    requires Includes(h, Fill(ty, l, dirty))
    ensures Filled(ty, l, h, dirty)
    decreases ty, 0
  {
    match ty {
      case Pointer(_, elem) =>
        FillUnder(elem, Behind(l), dirty);
        forall k | k in Fill(elem, Behind(l), dirty) ensures k != l { UnderParent(Behind(l), k); }
        assert h[l] == Fill(ty, l, dirty)[l];
        assert forall k :: k in Fill(elem, Behind(l), dirty) ==> Fill(ty, l, dirty)[k] == Fill(elem, Behind(l), dirty)[k];
        FillFills(elem, Behind(l), h, dirty);
      case Array(length, elem) => FillElementsFill(elem, l, length, h, dirty);
      case _ =>
    }
  }

  lemma {:induction false} FillElementsFill(elem: GoType, l: Loc, length: nat, h: Heap, dirty: Option<Loc>)
    requires Includes(h, FillElements(elem, l, length, dirty))
    ensures forall j :: 0 <= j < length ==> Filled(elem, ElemOf(l, j), h, dirty)
    decreases elem, 1, length
  {
    if length > 0 {
      var front, last := FillElements(elem, l, length - 1, dirty), Fill(elem, ElemOf(l, length - 1), dirty);
      assert FillElements(elem, l, length, dirty) == front + last;
      FillElementsUnder(elem, l, length - 1, dirty);
      FillUnder(elem, ElemOf(l, length - 1), dirty);
      forall k | k in front
        ensures k !in last
      {
        var j :| 0 <= j < length - 1 && Under(ElemOf(l, j), k);
        assert Depth(ElemOf(l, j)) == Depth(ElemOf(l, length - 1));
      }
      FillElementsFill(elem, l, length - 1, h, dirty);
      FillFills(elem, ElemOf(l, length - 1), h, dirty);
    }
  }

  // ---- The positions of a filled value ----

  predicate InRange(ty: GoType, idx: seq<nat>)
    decreases ty
  {
    match ty
    case Pointer(_, elem) => InRange(elem, idx)
    case Array(length, elem) => idx != [] && idx[0] < length && InRange(elem, idx[1..])
    case _ => idx == []
  }

  function LeafAt(ty: GoType, l: Loc, idx: seq<nat>): Loc
    requires |idx| == ArrayDepth(ty)
    decreases ty
  {
    match ty
    case Pointer(_, elem) => LeafAt(elem, Behind(l), idx)
    case Array(_, elem) => LeafAt(elem, ElemOf(l, idx[0]), idx[1..])
    case _ => l
  }

  lemma {:induction false} LeafUnder(ty: GoType, l: Loc, idx: seq<nat>)
    requires |idx| == ArrayDepth(ty)
    ensures Under(l, LeafAt(ty, l, idx))
    decreases ty
  {
    match ty {
      case Pointer(_, elem) =>
        LeafUnder(elem, Behind(l), idx);
        UnderParent(Behind(l), LeafAt(ty, l, idx));
      case Array(_, elem) =>
        LeafUnder(elem, ElemOf(l, idx[0]), idx[1..]);
        UnderParent(ElemOf(l, idx[0]), LeafAt(ty, l, idx));
      case _ =>
    }
  }

  lemma {:induction false} LeafAtInjective(ty: GoType, l: Loc, idx: seq<nat>, jdx: seq<nat>)
    requires |idx| == |jdx| == ArrayDepth(ty)
    requires LeafAt(ty, l, idx) == LeafAt(ty, l, jdx)
    ensures idx == jdx
    decreases ty
  {
    match ty {
      case Pointer(_, elem) => LeafAtInjective(elem, Behind(l), idx, jdx);
      case Array(_, elem) =>
        LeafUnder(elem, ElemOf(l, idx[0]), idx[1..]);
        LeafUnder(elem, ElemOf(l, jdx[0]), jdx[1..]);
        assert Depth(ElemOf(l, idx[0])) == Depth(ElemOf(l, jdx[0]));
        LeafAtInjective(elem, ElemOf(l, idx[0]), idx[1..], jdx[1..]);
        assert idx == [idx[0]] + idx[1..] && jdx == [jdx[0]] + jdx[1..];
      case _ =>
    }
  }

  function Repeat(j: nat, n: nat): (r: seq<nat>)
    ensures |r| == n && forall k :: 0 <= k < n ==> r[k] == j
  {
    seq(n, _ => j)
  }

  /** With one index for all arrays, code and storage agree on the diagonal only. */
  lemma {:induction false} DiagonalLeaf(env: Env, j: nat, p: Path, ty: GoType, l: Loc, h: Heap, dirty: Option<Loc>)
    requires Filled(ty, l, h, dirty) && Resolve(env, Some(j), p, h) == Some(Place(l, ty))
    ensures var at := Resolve(env, Some(j), LeafPath(p, ty), h);
            at.Some? ==> at.value.loc == LeafAt(ty, l, Repeat(j, ArrayDepth(ty)))
    decreases ty
  {
    match ty {
      case Pointer(_, elem) => DiagonalLeaf(env, j, Deref(p), elem, Behind(l), h, dirty);
      case Array(length, elem) =>
        assert Repeat(j, ArrayDepth(ty))[1..] == Repeat(j, ArrayDepth(elem));
        if j < length { DiagonalLeaf(env, j, Index(p), elem, ElemOf(l, j), h, dirty); }
        else { UnresolvedBelow(env, Some(j), Index(p), elem, h); }
      case _ =>
    }
  }

  lemma {:induction false} UnresolvedBelow(env: Env, i: Option<nat>, p: Path, ty: GoType, h: Heap)
    requires Resolve(env, i, p, h).None?
    ensures Resolve(env, i, LeafPath(p, ty), h).None?
    decreases ty
  {
    match ty {
      case Pointer(_, elem) => UnresolvedBelow(env, i, Deref(p), elem, h);
      case Array(_, elem) => UnresolvedBelow(env, i, Index(p), elem, h);
      case _ =>
    }
  }

  // ---- The specification cleans every position ----

  ghost predicate AgreeOutside(l: Loc, h: Heap, h': Heap) {
    forall k :: !Under(l, k) ==> (k in h <==> k in h') && (k in h ==> h[k] == h'[k])
  }

  ghost predicate AgreeUnder(l: Loc, h: Heap, h': Heap) {
    forall k :: Under(l, k) ==> (k in h <==> k in h') && (k in h ==> h[k] == h'[k])
  }

  lemma {:induction false} FilledFrame(ty: GoType, l: Loc, h: Heap, h': Heap, dirty: Option<Loc>)
    requires Filled(ty, l, h, dirty) && AgreeUnder(l, h, h')
    ensures Filled(ty, l, h', dirty)
    decreases ty
  {
    assert Under(l, l);
    match ty {
      case Pointer(_, elem) =>
        forall k | Under(Behind(l), k) ensures Under(l, k) { UnderParent(Behind(l), k); }
        FilledFrame(elem, Behind(l), h, h', dirty);
      case Array(length, elem) =>
        forall j | 0 <= j < length
          ensures Filled(elem, ElemOf(l, j), h', dirty)
        {
          forall k | Under(ElemOf(l, j), k) ensures Under(l, k) { UnderParent(ElemOf(l, j), k); }
          FilledFrame(elem, ElemOf(l, j), h, h', dirty);
        }
      case _ => LeafCellsUnder(ty, l, dirty != Some(l));
    }
  }

  lemma InstanceLies(zero: Instance, l: Loc, h: Heap, clean: bool)
    requires Includes(h, InstanceCells(zero, l, clean))
    ensures LiesAt(zero, l, h)
    ensures forall off :: off in zero ==> h[At(l, off)] == if clean then zero[off] else Other(zero[off])
  {
    hide At, InstanceCells;
    InstanceCellsAt(zero, l, clean);
  }

  lemma ZeroAtIs(zero: Instance, l: Loc, h: Heap, off: Offset)
    requires LiesAt(zero, l, h) && off in zero
    ensures At(l, off) in ZeroAt(zero, l, h).value && ZeroAt(zero, l, h).value[At(l, off)] == zero[off]
  {
    BelowAt(l, off);
  }

  lemma InstanceCleans(zero: Instance, l: Loc, h: Heap, clean: bool)
    requires Includes(h, InstanceCells(zero, l, clean))
    ensures LiesAt(zero, l, h) && Includes(ZeroAt(zero, l, h).value, InstanceCells(zero, l, true))
    ensures AgreeOutside(l, h, ZeroAt(zero, l, h).value)
    ensures clean ==> ZeroAt(zero, l, h).value == h
  {
    hide At, Below, InstanceCells, ZeroAt, LiesAt, Under, Other;
    InstanceLies(zero, l, h, clean);
    InstanceCellsAt(zero, l, true);
    ZeroAtKeys(zero, l, h);
    var r := ZeroAt(zero, l, h).value;
    forall k | k in InstanceCells(zero, l, true)
      ensures k in r && r[k] == InstanceCells(zero, l, true)[k]
    {
      var off :| off in zero && k == At(l, off);
      ZeroAtIs(zero, l, h, off);
    }
    forall k | k in h && (clean || !Under(l, k))
      ensures r[k] == h[k]
    {
      ZeroAtWrites(zero, l, h, k);
      if r[k] != h[k] {
        var off :| off in zero && At(l, off) == k && r[k] == zero[off];
        AtUnder(l, off);
      }
    }
  }

  ghost predicate Cleans(ty: GoType, l: Loc, h: Heap, clean: bool) {
    var r := ResetLeaf(ZeroingCall(), ty, l, h);
    && r.Some? && Includes(r.value, LeafCells(ty, l, true)) && AgreeOutside(l, h, r.value)
    && (clean ==> r.value == h)
  }

  lemma LeafCleans(ty: GoType, l: Loc, h: Heap, clean: bool)
    requires !ty.Pointer? && !ty.Array? && !Inert(ty) && Includes(h, LeafCells(ty, l, clean))
    ensures Cleans(ty, l, h, clean)
  {
    UnderSelf(l);
    if ty.TypeParam? {
      InstanceCleans(ty.zero, l, h, clean);
    } else if ty.Map? {
      MapCleans(l, h, clean);
    } else if ty.Basic? {
      BasicCleans(ty.kind, l, h, clean);
    } else {
      assert l in LeafCells(ty, l, clean);
    }
  }

  lemma MapCleans(l: Loc, h: Heap, clean: bool)
    requires Includes(h, LeafCells(Map, l, clean))
    ensures Cleans(Map, l, h, clean)
  {
    hide Under, Behind;
    UnderSelf(l);
    assert l in LeafCells(Map, l, clean) && Behind(l) in LeafCells(Map, l, clean);
  }

  lemma BasicCleans(kind: BasicKind, l: Loc, h: Heap, clean: bool)
    requires kind != OtherBasic && Includes(h, LeafCells(Basic(kind), l, clean))
    ensures Cleans(Basic(kind), l, h, clean)
  {
    hide Under, Behind;
    UnderSelf(l);
    assert l in LeafCells(Basic(kind), l, clean);
    match kind { case Boolean => case String => case Numeric => case UnsafePointer => case OtherBasic => }
  }

  lemma {:induction false} SpecCleans(ty: GoType, l: Loc, s: State, dirty: Option<Loc>)
    requires Filled(ty, l, s.heap, dirty) && HasWork(ty)
    ensures var r := ResetValue(ZeroingCall(), ty, l, s);
            r.Some? && Filled(ty, l, r.value.heap, None) && AgreeOutside(l, s.heap, r.value.heap)
    decreases ty, 0
  {
    hide LeafCells, ResetLeaf;
    match ty {
      case Pointer(_, elem) =>
        SpecCleans(elem, Behind(l), s, dirty);
        forall k | Under(Behind(l), k) ensures Under(l, k) && k != l { UnderParent(Behind(l), k); }
      case Array(length, elem) => SpecCleansElements(elem, l, 0, length, s, dirty);
      case _ => LeafCleans(ty, l, s.heap, dirty != Some(l));
    }
  }

  lemma {:induction false} SpecCleansElements(elem: GoType, l: Loc, from: nat, length: nat, s: State, dirty: Option<Loc>)
    requires HasWork(elem) && from <= length
    requires forall j :: 0 <= j < from ==> Filled(elem, ElemOf(l, j), s.heap, None)
    requires forall j :: from <= j < length ==> Filled(elem, ElemOf(l, j), s.heap, dirty)
    ensures var r := ResetElements(ZeroingCall(), elem, l, from, length, s);
            && r.Some? && AgreeOutside(l, s.heap, r.value.heap)
            && forall j :: 0 <= j < length ==> Filled(elem, ElemOf(l, j), r.value.heap, None)
    decreases elem, 1, length - from
  {
    hide Filled, HasWork, Under, ResetValue;
    if from < length {
      SpecCleans(elem, ElemOf(l, from), s, dirty);
      var s' := ResetValue(ZeroingCall(), elem, ElemOf(l, from), s).value;
      forall j | 0 <= j < length && j != from
        ensures Filled(elem, ElemOf(l, j), s'.heap, if j < from then None else dirty)
      {
        OtherElement(l, from, j, s.heap, s'.heap);
        FilledFrame(elem, ElemOf(l, j), s.heap, s'.heap, if j < from then None else dirty);
      }
      forall k | Under(ElemOf(l, from), k) ensures Under(l, k) { UnderParent(ElemOf(l, from), k); }
      SpecCleansElements(elem, l, from + 1, length, s', dirty);
    }
  }

  lemma OtherElement(l: Loc, i: nat, j: nat, h: Heap, h': Heap)
    requires i != j && AgreeOutside(ElemOf(l, i), h, h')
    ensures AgreeUnder(ElemOf(l, j), h, h')
  {
    forall k | Under(ElemOf(l, j), k)
      ensures !Under(ElemOf(l, i), k)
    {
      assert Depth(ElemOf(l, i)) == Depth(ElemOf(l, j));
    }
  }

  lemma {:induction false} LeafOfFilled(ty: GoType, l: Loc, h: Heap, dirty: Option<Loc>, idx: seq<nat>)
    requires Filled(ty, l, h, dirty) && InRange(ty, idx) && |idx| == ArrayDepth(ty)
    ensures Includes(h, LeafCells(LeafType(ty), LeafAt(ty, l, idx), dirty != Some(LeafAt(ty, l, idx))))
    decreases ty
  {
    match ty {
      case Pointer(_, elem) => LeafOfFilled(elem, Behind(l), h, dirty, idx);
      case Array(_, elem) => LeafOfFilled(elem, ElemOf(l, idx[0]), h, dirty, idx[1..]);
      case _ =>
    }
  }

  // ---- The code leaves the heap alone when the diagonal is clean ----

  ghost predicate DiagonalClean(env: Env, p: Path, ty: GoType, h: Heap)
    requires !ty.Pointer? && !ty.Array?
  {
    forall j :: Resolve(env, j, p, h).Some? ==>
      Includes(h, LeafCells(ty, Resolve(env, j, p, h).value.loc, true)) && Resolve(env, j, p, h).value.ty == ty
  }

  lemma {:induction false} CodeKeepsCleanHeap(env: Env, i: Option<nat>, p: Path, ty: GoType, s: State)
    requires env.call == ZeroingCall() && HasWork(ty) && DiagonalClean(env, LeafPath(p, ty), LeafType(ty), s.heap)
    ensures var r := ExecAll(env, i, ResetStmts(p, ty), s);
            r.Some? ==> r.value.heap == s.heap
    decreases ty, 0
  {
    if ResetStmts(p, ty) != [] {
      ExecSingle(env, i, ResetStmts(p, ty)[0], s);
    }
    match ty {
      case Pointer(_, elem) => CodeKeepsCleanHeap(env, i, Deref(p), elem, s);
      case Array(length, elem) => LoopKeepsCleanHeap(env, p, length, elem, 0, s);
      case _ =>
        var at := Resolve(env, i, p, s.heap);
        if at.Some? {
          LeafMeetsSpec(env, p, ty, at.value.loc, s.heap);
          LeafCleans(ty, at.value.loc, s.heap, true);
        }
    }
  }

  lemma {:induction false} LoopKeepsCleanHeap(env: Env, p: Path, length: nat, elem: GoType, from: nat, s: State)
    requires env.call == ZeroingCall() && HasWork(elem)
    requires DiagonalClean(env, LeafPath(Index(p), elem), LeafType(elem), s.heap)
    ensures var r := ExecLoop(env, ResetStmts(Index(p), elem), from, length, s);
            r.Some? ==> r.value.heap == s.heap
    decreases elem, 1, length - from
  {
    if from < length {
      CodeKeepsCleanHeap(env, Some(from), Index(p), elem, s);
      var m := ExecAll(env, Some(from), ResetStmts(Index(p), elem), s);
      if m.Some? { LoopKeepsCleanHeap(env, p, length, elem, from + 1, m.value); }
    }
  }

  // ---- Where the code goes wrong ----

  /** A position whose indices are not all equal. */
  lemma {:induction false} OffDiagonal(ty: GoType) returns (idx: seq<nat>)
    requires HasWork(ty) && ArrayDepth(ty) >= 2 && !UnitArrays(ty)
    ensures InRange(ty, idx) && |idx| == ArrayDepth(ty)
    ensures exists a, b :: 0 <= a < b < |idx| && idx[a] != idx[b]
    decreases ty
  {
    match ty {
      case Pointer(_, elem) => idx := OffDiagonal(elem);
      case Array(length, elem) =>
        if length >= 2 {
          var rest := Origin(elem);
          idx := [1] + rest;
          assert idx[1..] == rest && idx[0] != idx[1];
        } else {
          var rest := NotAllZero(elem);
          idx := [0] + rest;
          assert idx[1..] == rest;
          var k :| 0 <= k < |rest| && rest[k] != 0;
          assert idx[0] != idx[k + 1];
        }
      case _ =>
    }
  }

  lemma {:induction false} Origin(ty: GoType) returns (idx: seq<nat>)
    requires HasWork(ty)
    ensures InRange(ty, idx) && |idx| == ArrayDepth(ty)
    ensures forall k :: 0 <= k < |idx| ==> idx[k] == 0
    decreases ty
  {
    match ty {
      case Pointer(_, elem) => idx := Origin(elem);
      case Array(_, elem) =>
        var rest := Origin(elem);
        idx := [0] + rest;
        assert idx[1..] == rest;
      case _ => idx := [];
    }
  }

  lemma {:induction false} NotAllZero(ty: GoType) returns (idx: seq<nat>)
    requires HasWork(ty) && !UnitArrays(ty)
    ensures InRange(ty, idx) && |idx| == ArrayDepth(ty)
    ensures exists k :: 0 <= k < |idx| && idx[k] != 0
    decreases ty
  {
    match ty {
      case Pointer(_, elem) => idx := NotAllZero(elem);
      case Array(length, elem) =>
        if length >= 2 {
          var rest := Origin(elem);
          idx := [1] + rest;
          assert idx[1..] == rest && idx[0] != 0;
        } else {
          var rest := NotAllZero(elem);
          idx := [0] + rest;
          assert idx[1..] == rest;
          var k :| 0 <= k < |rest| && rest[k] != 0;
          assert idx[k + 1] != 0;
        }
      case _ => idx := [];
    }
  }

  lemma {:induction false} FilledGuarded(pointers: set<Loc>, ty: GoType, l: Loc, h: Heap, dirty: Option<Loc>)
    requires Filled(ty, l, h, dirty) && AllPointers(pointers, h)
    requires forall k :: k in pointers <==> k in h && h[k].PtrCell? && h[k].target == Some(Behind(k))
    ensures Guarded(pointers, ty, l, h)
    decreases ty
  {
    match ty {
      case Pointer(_, elem) => FilledGuarded(pointers, elem, Behind(l), h, dirty);
      case Array(length, elem) =>
        forall j | 0 <= j < length
          ensures Guarded(pointers, elem, ElemOf(l, j), h)
        {
          FilledGuarded(pointers, elem, ElemOf(l, j), h, dirty);
        }
      case TypeParam(_, zero) => InstanceGuarded(pointers, zero, l, h, dirty != Some(l));
      case _ =>
    }
  }

  /** A pointer of the way leads behind itself, and no pointer in a value reset in the end does. */
  lemma InstanceGuarded(pointers: set<Loc>, zero: Instance, l: Loc, h: Heap, clean: bool)
    requires Includes(h, InstanceCells(zero, l, clean))
    requires forall k :: k in pointers ==> k in h && h[k].PtrCell? && h[k].target == Some(Behind(k))
    ensures forall off :: off in zero && zero[off].PtrCell? ==> At(l, off) !in pointers
  {
    hide At, InstanceCells, Includes;
    InstanceLies(zero, l, h, clean);
  }

  /** Outside every loop no i is in scope. */
  lemma {:induction false} IndexNeedsLoop(env: Env, p: Path, ty: GoType, h: Heap)
    requires ArrayDepth(ty) > 0
    ensures Resolve(env, None, LeafPath(p, ty), h).None?
    decreases ty
  {
    match ty {
      case Pointer(_, elem) => IndexNeedsLoop(env, Deref(p), elem, h);
      case Array(_, elem) => UnresolvedBelow(env, None, Index(p), elem, h);
      case _ =>
    }
  }

  lemma {:induction false} ResolvedInRange(env: Env, j: nat, p: Path, ty: GoType, h: Heap)
    requires Resolve(env, Some(j), p, h).Some? ==> Resolve(env, Some(j), p, h).value.ty == ty
    requires Resolve(env, Some(j), LeafPath(p, ty), h).Some?
    ensures InRange(ty, Repeat(j, ArrayDepth(ty))) && Resolve(env, Some(j), LeafPath(p, ty), h).value.ty == LeafType(ty)
    decreases ty
  {
    match ty {
      case Pointer(_, elem) => ResolvedInRange(env, j, Deref(p), elem, h);
      case Array(length, elem) =>
        if Resolve(env, Some(j), Index(p), h).None? { UnresolvedBelow(env, Some(j), Index(p), elem, h); }
        assert Repeat(j, ArrayDepth(ty))[1..] == Repeat(j, ArrayDepth(elem));
        ResolvedInRange(env, j, Index(p), elem, h);
      case _ =>
    }
  }

  /** If the dirty leaf has unequal indices, everything the code can reach is clean. */
  lemma DiagonalIsClean(env: Env, name: string, ty: GoType, h: Heap, idx: seq<nat>)
    requires name in env.fields && env.fields[name] == ty && |idx| == ArrayDepth(ty) > 0
    requires Filled(ty, FieldLoc(env, name), h, Some(LeafAt(ty, FieldLoc(env, name), idx)))
    requires exists a, b :: 0 <= a < b < |idx| && idx[a] != idx[b]
    ensures DiagonalClean(env, LeafPath(Field(name), ty), LeafType(ty), h)
  {
    var p, l := LeafPath(Field(name), ty), FieldLoc(env, name);
    var dirty := Some(LeafAt(ty, l, idx));
    forall j | Resolve(env, j, p, h).Some?
      ensures Includes(h, LeafCells(LeafType(ty), Resolve(env, j, p, h).value.loc, true))
      ensures Resolve(env, j, p, h).value.ty == LeafType(ty)
    {
      if j.None? {
        IndexNeedsLoop(env, Field(name), ty, h);
      } else {
        var same := Repeat(j.value, ArrayDepth(ty));
        DiagonalLeaf(env, j.value, Field(name), ty, l, h, dirty);
        ResolvedInRange(env, j.value, Field(name), ty, h);
        LeafOfFilled(ty, l, h, dirty, same);
        if LeafAt(ty, l, same) == LeafAt(ty, l, idx) { LeafAtInjective(ty, l, idx, same); }
      }
    }
  }

  /** Two arrays, one inside the other and not both of length 1, are never reset correctly: on
      some heap the code stops in a panic or leaves a value as it was. */
  lemma NestedArraysGoWrong(field: FieldId, ty: GoType)
    requires HasWork(ty) && !Flat(ty)
    ensures !MeetsSpecWhenSafe(field, ty)
  {
    hide Filled, Fill, Guarded, DiagonalClean, LeafCells, ExecAll, ResetStmts, ResetValue;
    var env := Env(Object(0), field.structure, map[field.name := ty], ZeroingCall());
    var l := FieldLoc(env, field.name);
    var idx := OffDiagonal(ty);
    WorkAtLeaf(ty);
    var leaf := LeafAt(ty, l, idx);
    var s := State(Fill(ty, l, Some(leaf)), []);
    FillFills(ty, l, s.heap, Some(leaf));
    var pointers := set k | k in s.heap && s.heap[k].PtrCell? && s.heap[k].target == Some(Behind(k));
    FilledGuarded(pointers, ty, l, s.heap, Some(leaf));
    assert Safe(pointers, env, s.heap);
    SpecCleans(ty, l, s, Some(leaf));
    DiagonalIsClean(env, field.name, ty, s.heap, idx);
    CodeKeepsCleanHeap(env, None, Field(field.name), ty, s);
    var code, spec := ExecAll(env, None, ResetStmts(Field(field.name), ty), s), ResetValue(env.call, ty, l, s);
    LeafOfFilled(ty, l, s.heap, Some(leaf), idx);
    LeafOfFilled(ty, l, spec.value.heap, None, idx);
    DirtyDiffers(LeafType(ty), leaf, s.heap, spec.value.heap);
    assert !SameHeap(code, spec) && !Meets(env, field.name, s);
  }

  lemma DirtyDiffers(ty: GoType, l: Loc, h: Heap, h': Heap)
    requires !ty.Pointer? && !ty.Array? && !Idle(ty)
    requires Includes(h, LeafCells(ty, l, false)) && Includes(h', LeafCells(ty, l, true))
    ensures h != h'
  {
    var off: Offset := if ty.TypeParam? then var o :| o in ty.zero; o else [];
    var k := if ty.Map? then Behind(l) else At(l, off);
    if ty.TypeParam? {
      InstanceCellsAt(ty.zero, l, false);
      InstanceCellsAt(ty.zero, l, true);
    }
    assert k in LeafCells(ty, l, false) && k in LeafCells(ty, l, true);
    assert LeafCells(ty, l, false)[k] != LeafCells(ty, l, true)[k] by {
      if ty.Map? { assert 0 in map[0 := 0]; }
    }
  }
}
