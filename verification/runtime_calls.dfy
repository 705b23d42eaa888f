/** The runtime-call exemption tables `isCertainMallocOrFree`,
    `isCertainPrintOrFree` and `isCertainPrintMallocOrFree`
    (Utils.h:234-292), for LLVM versions above 6 (so `dbg.label` is listed). */
module RuntimeCalls {
  import opened Results

  /** `Function::getIntrinsicID()`: `NotIntrinsic` for ordinary functions. */
  datatype IntrinsicId =
    | NotIntrinsic
    | DbgDeclare | DbgValue | DbgLabel | DbgAddr
    | LifetimeStart | LifetimeEnd
    | OtherIntrinsic(id: nat)

  /** A called function: its symbol name and intrinsic identity. */
  datatype Callee = Callee(name: string, iid: IntrinsicId)

  const PrintRoutines: set<string> := {"printf", "puts"}
  const AllocRoutines: set<string> := {"malloc", "_Znwm"}          // C malloc, C++ operator new(unsigned long)
  const FreeRoutines: set<string> := {"free", "_ZdlPv", "_ZdlPvm"} // C free, C++ operator delete (unsized, sized)

  /** The intrinsics that are `llvm::DbgInfoIntrinsic`s. */
  const DebugIntrinsics: set<IntrinsicId> := {DbgDeclare, DbgValue, DbgLabel, DbgAddr}
  const LifetimeMarkers: set<IntrinsicId> := {LifetimeStart, LifetimeEnd}

  /** The `switch (called->getIntrinsicID())` shared by all three predicates. */
  predicate ExemptIntrinsic(iid: IntrinsicId) {
    match iid
    case DbgDeclare => true
    case DbgValue => true
    case DbgLabel => true
    case DbgAddr => true
    case LifetimeStart => true
    case LifetimeEnd => true
    case _ => false
  }

  function IsCertainMallocOrFree(called: Option<Callee>): (r: bool)
    ensures called.None? ==> !r
    ensures r <==> called.Some?
                   && (called.value.name in PrintRoutines + AllocRoutines + FreeRoutines
                       || called.value.iid in DebugIntrinsics + LifetimeMarkers)
  {
    match called
    case None => false
    case Some(f) =>
      if f.name == "printf" || f.name == "puts" || f.name == "malloc" || f.name == "_Znwm"
         || f.name == "_ZdlPv" || f.name == "_ZdlPvm" || f.name == "free" then true
      else ExemptIntrinsic(f.iid)
  }

  function IsCertainPrintOrFree(called: Option<Callee>): (r: bool)
    ensures called.None? ==> !r
    ensures r <==> called.Some?
                   && (called.value.name in PrintRoutines + FreeRoutines
                       || called.value.iid in DebugIntrinsics + LifetimeMarkers)
  {
    match called
    case None => false
    case Some(f) =>
      if f.name == "printf" || f.name == "puts" || f.name == "_ZdlPv" || f.name == "_ZdlPvm"
         || f.name == "free" then true
      else ExemptIntrinsic(f.iid)
  }

  function IsCertainPrintMallocOrFree(called: Option<Callee>): (r: bool)
    ensures called.None? ==> !r
    ensures r <==> called.Some?
                   && (called.value.name in PrintRoutines + AllocRoutines + FreeRoutines
                       || called.value.iid in DebugIntrinsics + LifetimeMarkers)
  {
    match called
    case None => false
    case Some(f) =>
      if f.name == "printf" || f.name == "puts" || f.name == "malloc" || f.name == "_Znwm"
         || f.name == "_ZdlPv" || f.name == "_ZdlPvm" || f.name == "free" then true
      else ExemptIntrinsic(f.iid)
  }

  /** The malloc/free table and the print/malloc/free table are the same table. */
  lemma MallocOrFreeIsPrintMallocOrFree(called: Option<Callee>)
    ensures IsCertainMallocOrFree(called) == IsCertainPrintMallocOrFree(called)
  {
  }

  /** The print/free table is the other one without the allocation routines:
      it implies both, and differs from them exactly on a call to `malloc` or
      `_Znwm` that is not also an exempt intrinsic. */
  lemma PrintOrFreeOmitsOnlyAllocation(called: Option<Callee>)
    ensures IsCertainPrintOrFree(called) ==> IsCertainMallocOrFree(called) && IsCertainPrintMallocOrFree(called)
    ensures IsCertainPrintOrFree(called) != IsCertainMallocOrFree(called)
            <==> called.Some? && called.value.name in AllocRoutines
                 && called.value.iid !in DebugIntrinsics + LifetimeMarkers
  {
  }
}
