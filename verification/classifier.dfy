/** `whatType` (Utils.h:131-196): the differentiability classifier. It
    descends through pointers, arrays and structs, carrying the set of types
    on the current descent path (`seen`, passed by value) so that a type met
    again on the same path is taken as `CONSTANT`. */
module Classifier {
  import opened Results
  import opened DiffeTypes
  import opened TypeGraph

  /** Which reading of the struct loop's outer `switch` (Utils.h:158-182) to use.
      `AsWritten`: no `break` after the inner switches, so every case falls
      through to `case DUP_ARG: return DUP_ARG`. `WithBreaks`: each case ends
      after its inner switch and the loop goes on to the next field. */
  datatype StructSwitch = AsWritten | WithBreaks

  /** Outcome of one trip through the loop body: keep going with the
      accumulator, or leave `whatType` with a value. */
  datatype Step = Continue(acc: DiffeType) | Return(ret: DiffeType)

  /** Inner switch under `case OUT_DIFF` (Utils.h:160-168). */
  function OutDiffArm(acc: DiffeType): Step {
    match acc
    case OutDiff => Continue(OutDiff)
    case Constant => Continue(OutDiff)
    case DupArg => Return(DupArg)
  }

  /** Inner switch under `case CONSTANT` (Utils.h:170-179). */
  function ConstantArm(acc: DiffeType): Step {
    match acc
    case OutDiff => Continue(OutDiff)
    case Constant => Continue(Constant)
    case DupArg => Return(DupArg)
  }

  /** `case DUP_ARG: return DUP_ARG` (Utils.h:180-181). */
  function DupArgArm(acc: DiffeType): Step {
    Return(DupArg)
  }

  /** Control reaching the end of one case label falls into the next one. */
  function FallInto(s: Step, next: DiffeType -> Step): Step {
    if s.Return? then s else next(s.acc)
  }

  /** One execution of the loop body, given the field's classification. */
  function FieldStep(sw: StructSwitch, field: DiffeType, acc: DiffeType): Step {
    match sw
    case AsWritten => (
      match field
      case OutDiff => FallInto(FallInto(OutDiffArm(acc), ConstantArm), DupArgArm)
      case Constant => FallInto(ConstantArm(acc), DupArgArm)
      case DupArg => DupArgArm(acc))
    case WithBreaks => (
      match field
      case OutDiff => OutDiffArm(acc)
      case Constant => ConstantArm(acc)
      case DupArg => DupArgArm(acc))
  }

  /** A failure is always reported at a type whose shape has no rule. */
  ghost predicate Localized(g: Graph, r: Result<DiffeType>) {
    r.Err? ==> r.error.UnsupportedTypeShape? && r.error.ty in g && Unsupported(g[r.error.ty])
  }

  /** `whatType(t, seen)`, reading the struct switch as `sw`. Terminates on any
      closed graph, cyclic or not: each descent adds a new type to `seen`. */
  function Classify(g: Graph, sw: StructSwitch, t: TypeId, seen: set<TypeId>): (r: Result<DiffeType>)
    requires Closed(g) && t in g
    decreases g.Keys - seen, 1, 0
    ensures t in seen ==> r == Ok(Constant)
    ensures Localized(g, r)
    ensures r.Err? ==> Reaches(g, t, r.error.ty, seen)
    ensures g[t].PointerTy? && r.Ok? ==> r.value != OutDiff
  {
    if t in seen then Ok(Constant)
    else if g[t].PointerTy? then
      match Classify(g, sw, g[t].pointee, seen + {t})
      case Err(e) => assert Edges(g[t])[0] == g[t].pointee; Err(e)
      case Ok(OutDiff) => Ok(DupArg)
      case Ok(Constant) => Ok(Constant)
      case Ok(DupArg) => Ok(DupArg)
    else if g[t].ArrayTy? then
      assert Edges(g[t])[0] == g[t].elem;
      Classify(g, sw, g[t].elem, seen + {t})
    else if g[t].StructTy? then
      assert Edges(g[t]) == g[t].fields;
      if |g[t].fields| == 0 then Ok(Constant) else StructLoop(g, sw, t, 0, Constant, seen)
    else if IsIntOrIntVectorTy(g[t]) || g[t].FunctionTy? then
      Ok(Constant)
    else if IsFPOrFPVectorTy(g[t]) then
      Ok(OutDiff)
    else
      Err(UnsupportedTypeShape(t))
  }

  /** The `for` loop over the fields of struct `t` (Utils.h:156-185), from
      field `i` on with accumulator `acc`; every field is classified with the
      same path set, `seen` plus `t`. */
  function StructLoop(g: Graph, sw: StructSwitch, t: TypeId, i: nat, acc: DiffeType, seen: set<TypeId>): (r: Result<DiffeType>)
    requires Closed(g) && t in g && t !in seen && g[t].StructTy? && i <= |g[t].fields|
    decreases g.Keys - seen, 0, |g[t].fields| - i
    ensures Localized(g, r)
    ensures r.Err? ==> exists j :: i <= j < |g[t].fields| && Reaches(g, g[t].fields[j], r.error.ty, seen + {t})
    ensures r.Err? ==> exists j :: i <= j < |g[t].fields| && Classify(g, sw, g[t].fields[j], seen + {t}) == r
                                   && forall k :: i <= k < j ==> Classify(g, sw, g[t].fields[k], seen + {t}).Ok?
    ensures sw.AsWritten? && i < |g[t].fields| && r.Ok? ==> r.value == DupArg
  {
    var fs := g[t].fields;
    if i == |fs| then Ok(acc)
    else
      match Classify(g, sw, fs[i], seen + {t})
      case Err(e) => Err(e)
      case Ok(c) => (
        match FieldStep(sw, c, acc)
        case Return(v) => Ok(v)
        case Continue(acc') => StructLoop(g, sw, t, i + 1, acc', seen))
  }

  /** `whatType(arg)` as the header defines it: default (empty) `seen`, struct
      switch as written. */
  function WhatType(g: Graph, t: TypeId): (r: Result<DiffeType>)
    requires Closed(g) && t in g
    ensures Localized(g, r)
    ensures r.Err? ==> Reaches(g, t, r.error.ty, {})
    ensures r.Ok? && g[t].StructTy? && |g[t].fields| > 0 ==> r.value == DupArg
  {
    Classify(g, AsWritten, t, {})
  }
}
