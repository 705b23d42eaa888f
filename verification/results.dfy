/** Optional values and error-carrying results for the failure paths of the
    utility header: where the source prints a diagnostic and aborts
    (`assert(0)`, `llvm_unreachable`), the model returns an `Err`. */
module Results {
  import TypeGraph

  /** A possibly-absent value; stands for a nullable pointer. */
  datatype Option<+T> = None | Some(value: T)

  /** The fatal conditions of the header, as values. */
  datatype Error =
    | UnsupportedTypeShape(ty: TypeGraph.TypeId) // whatType reached a type it has no rule for
    | UnsupportedFloatType(bits: nat)            // FloatToIntTy on a float kind other than half/float/double
    | UnsupportedBitWidth(bits: nat)             // IntToFloatTy on an integer width other than 16/32/64
    | NoSubsequentInstruction(at: nat)           // getNextNonDebugInstruction found no successor

  /** Either a value or the error that stopped the computation. */
  datatype Result<+T> = Ok(value: T) | Err(error: Error)
}
