/** `FloatToIntTy` / `IntToFloatTy` (Utils.h:206-232): the integer type of
    the same width as a floating-point type, and back, lifted lane-wise over
    fixed vectors. These map type shapes; no value is converted. */
module FloatInt {
  import opened Results
  import opened TypeGraph

  /** The float kind of a float or float-vector shape. */
  function FloatKindOf(s: Shape): FloatKind
    requires IsFPOrFPVectorTy(s)
  {
    if s.FpTy? then s.kind else s.lane.kind
  }

  /** The bit width of an integer or integer-vector shape. */
  function IntBitsOf(s: Shape): nat
    requires IsIntOrIntVectorTy(s)
  {
    if s.IntTy? then s.bits else s.lane.bits
  }

  /** Vector-ness and, for vectors, the lane count agree. */
  predicate SameLanes(a: Shape, b: Shape) {
    a.VectorTy? == b.VectorTy? && (a.VectorTy? ==> a.count == b.count)
  }

  function FloatToIntTy(s: Shape): (r: Result<Shape>)
    requires IsFPOrFPVectorTy(s)
    decreases if s.VectorTy? then 1 else 0
    ensures r.Ok? <==> FloatKindOf(s) in {Half, Float, Double}
    ensures r.Ok? ==> IsIntOrIntVectorTy(r.value) && IntBitsOf(r.value) == FloatBits(FloatKindOf(s)) && SameLanes(s, r.value)
    ensures r.Err? ==> r.error == UnsupportedFloatType(FloatBits(FloatKindOf(s)))
  {
    if s.VectorTy? then
      match FloatToIntTy(FpTy(s.lane.kind))
      case Err(e) => Err(e)
      case Ok(e) => Ok(VectorTy(IntElem(e.bits), s.count))
    else if s.kind == Half then Ok(IntTy(16))
    else if s.kind == Float then Ok(IntTy(32))
    else if s.kind == Double then Ok(IntTy(64))
    else Err(UnsupportedFloatType(FloatBits(s.kind)))
  }

  function IntToFloatTy(s: Shape): (r: Result<Shape>)
    requires IsIntOrIntVectorTy(s)
    decreases if s.VectorTy? then 1 else 0
    ensures r.Ok? <==> IntBitsOf(s) in {16, 32, 64}
    ensures r.Ok? ==> IsFPOrFPVectorTy(r.value) && FloatBits(FloatKindOf(r.value)) == IntBitsOf(s) && SameLanes(s, r.value)
    ensures r.Err? ==> r.error == UnsupportedBitWidth(IntBitsOf(s))
  {
    if s.VectorTy? then
      match IntToFloatTy(IntTy(s.lane.bits))
      case Err(e) => Err(e)
      case Ok(e) => Ok(VectorTy(FpElem(e.kind), s.count))
    else if s.bits == 16 then Ok(FpTy(Half))
    else if s.bits == 32 then Ok(FpTy(Float))
    else if s.bits == 64 then Ok(FpTy(Double))
    else Err(UnsupportedBitWidth(s.bits))
  }

  /** Half, float, double and vectors of them come back unchanged from the
      integer shape. */
  lemma FloatIntRoundTrip(s: Shape)
    requires IsFPOrFPVectorTy(s) && FloatKindOf(s) in {Half, Float, Double}
    ensures FloatToIntTy(s).Ok?
    ensures IntToFloatTy(FloatToIntTy(s).value) == Ok(s)
  {
  }

  /** i16, i32, i64 and vectors of them come back unchanged from the float
      shape. */
  lemma IntFloatRoundTrip(s: Shape)
    requires IsIntOrIntVectorTy(s) && IntBitsOf(s) in {16, 32, 64}
    ensures IntToFloatTy(s).Ok?
    ensures FloatToIntTy(IntToFloatTy(s).value) == Ok(s)
  {
  }
}
