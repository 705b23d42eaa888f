/** LLVM's type universe as a finite graph. A `llvm::Type*` becomes a
    `TypeId`. The intended reading gives each uniqued LLVM type one key, but
    nothing here depends on that: every property holds for any closed graph.
    Named structs may refer back to themselves, so the graph may be cyclic. */
module TypeGraph {

  type TypeId = nat

  /** The floating-point kinds of LLVM's type system. */
  datatype FloatKind = Half | Float | Double | X86Fp80 | Fp128 | PpcFp128

  /** The element type of a fixed vector: an integer, a float or a pointer. */
  datatype Elem = IntElem(bits: nat) | FpElem(kind: FloatKind) | PtrElem(pointee: TypeId)

  /** One node of the type graph: the shape of a type and the types it refers to. */
  datatype Shape =
    | IntTy(bits: nat)
    | FpTy(kind: FloatKind)
    | VectorTy(lane: Elem, count: nat)
    | PointerTy(pointee: TypeId)
    | ArrayTy(elem: TypeId, count: nat)
    | StructTy(fields: seq<TypeId>)
    | FunctionTy(result: TypeId, params: seq<TypeId>)
    | VoidTy
    | LabelTy
    | MetadataTy
    | TokenTy
    | X86MmxTy

  type Graph = map<TypeId, Shape>

  function FloatBits(k: FloatKind): nat {
    match k
    case Half => 16
    case Float => 32
    case Double => 64
    case X86Fp80 => 80
    case Fp128 => 128
    case PpcFp128 => 128
  }

  /** `Type::isIntOrIntVectorTy`. */
  predicate IsIntOrIntVectorTy(s: Shape) {
    s.IntTy? || (s.VectorTy? && s.lane.IntElem?)
  }

  /** `Type::isFPOrFPVectorTy`. */
  predicate IsFPOrFPVectorTy(s: Shape) {
    s.FpTy? || (s.VectorTy? && s.lane.FpElem?)
  }

  /** The shapes `whatType` has no rule for: void, label, metadata, token,
      x86_mmx and vectors of pointers. */
  predicate Unsupported(s: Shape) {
    !(s.PointerTy? || s.ArrayTy? || s.StructTy? || s.FunctionTy?
      || IsIntOrIntVectorTy(s) || IsFPOrFPVectorTy(s))
  }

  /** Every type id that `s` mentions is a key of `keys`. */
  predicate RefsIn(s: Shape, keys: set<TypeId>) {
    match s
    case VectorTy(e, _) => e.PtrElem? ==> e.pointee in keys
    case PointerTy(p) => p in keys
    case ArrayTy(e, _) => e in keys
    case StructTy(fs) => forall i :: 0 <= i < |fs| ==> fs[i] in keys
    case FunctionTy(res, ps) => res in keys && forall i :: 0 <= i < |ps| ==> ps[i] in keys
    case _ => true
  }

  /** A well-formed graph: no dangling type references (every `Type*` is a real type). */
  predicate Closed(g: Graph) {
    forall t :: t in g ==> RefsIn(g[t], g.Keys)
  }

  /** Every edge `whatType` descends along (pointee, array element, struct
      field) leads to a type of strictly lower rank than `r`. */
  predicate RankedShape(s: Shape, rank: map<TypeId, nat>, r: nat) {
    match s
    case PointerTy(p) => p in rank && rank[p] < r
    case ArrayTy(e, _) => e in rank && rank[e] < r
    case StructTy(fs) => forall i :: 0 <= i < |fs| ==> fs[i] in rank && rank[fs[i]] < r
    case _ => true
  }

  /** The edges classification descends along: a pointer's pointee, an
      array's element, a struct's fields. */
  function Edges(s: Shape): seq<TypeId> {
    match s
    case PointerTy(p) => [p]
    case ArrayTy(e, _) => [e]
    case StructTy(fs) => fs
    case _ => []
  }

  /** `target` is reachable from `t` along `Edges` by a path that visits no
      type of `seen` and no type twice. */
  ghost predicate Reaches(g: Graph, t: TypeId, target: TypeId, seen: set<TypeId>)
    decreases g.Keys - seen
  {
    t in g && t !in seen
    && (t == target
        || exists i :: 0 <= i < |Edges(g[t])| && Reaches(g, Edges(g[t])[i], target, seen + {t}))
  }

  /** `rank` witnesses that the part of `g` that classification descends
      through is acyclic (the case the header's comment assumes: "this doesn't
      handle recursive types"). */
  predicate Ranked(g: Graph, rank: map<TypeId, nat>) {
    forall t :: t in g ==> t in rank && RankedShape(g[t], rank, rank[t])
  }
}
