/** The activity classification `DIFFE_TYPE` (Utils.h:109-127) and the
    generic `max` helper (Utils.h:44-48). */
module DiffeTypes {
  import opened Results

  /** How a value of a given type carries its derivative. */
  datatype DiffeType =
    | OutDiff   // the derivative is added to the output struct
    | DupArg    // the argument is duplicated and the derivative stored in the shadow
    | Constant  // no derivative

  /** The enumerator's underlying integer value. */
  function Ordinal(d: DiffeType): (n: nat)
    ensures n < 3
    ensures FromOrdinal(n) == Some(d)
  {
    match d
    case OutDiff => 0
    case DupArg => 1
    case Constant => 2
  }

  /** Reading an integer back as a `DIFFE_TYPE`; values outside 0..2 name no enumerator. */
  function FromOrdinal(n: int): Option<DiffeType> {
    if n == 0 then Some(OutDiff)
    else if n == 1 then Some(DupArg)
    else if n == 2 then Some(Constant)
    else None
  }

  /** `tostring(DIFFE_TYPE)`: the enumerator's own spelling. */
  function ToString(d: DiffeType): (s: string)
    ensures |s| > 0
    ensures Parse(s) == Some(d)
  {
    match d
    case OutDiff => "OUT_DIFF"
    case Constant => "CONSTANT"
    case DupArg => "DUP_ARG"
  }

  /** Inverse of `ToString` on the three spellings. */
  function Parse(s: string): Option<DiffeType> {
    if s == "OUT_DIFF" then Some(OutDiff)
    else if s == "DUP_ARG" then Some(DupArg)
    else if s == "CONSTANT" then Some(Constant)
    else None
  }

  /** Distinct enumerators print distinctly. */
  lemma ToStringInjective(a: DiffeType, b: DiffeType)
    ensures ToString(a) == ToString(b) <==> a == b
  {
  }

  /** `max(a, b)` for a type ordered by `key`: `a` only when strictly greater,
      so on a tie the second argument is returned. */
  function Max<T>(a: T, b: T, key: T -> int): (r: T)
    ensures r == a || r == b
    ensures key(r) >= key(a) && key(r) >= key(b)
    ensures key(a) == key(b) ==> r == b
  {
    if key(a) > key(b) then a else b
  }
}
