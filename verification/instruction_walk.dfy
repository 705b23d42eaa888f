/** `getNextNonDebugInstructionOrNull` / `getNextNonDebugInstruction`
    (Utils.h:75-90). A basic block is a sequence of instructions and an
    instruction is addressed by its index in the block. */
module InstructionWalk {
  import opened Results
  import opened RuntimeCalls

  datatype Instr =
    | Call(callee: Option<Callee>)   // a call, to a known function or an indirect one
    | Op(opcode: string)             // any other instruction

  type Block = seq<Instr>

  /** `isa<DbgInfoIntrinsic>`: a call to `dbg.declare`, `dbg.value`,
      `dbg.label` or `dbg.addr`. Lifetime markers are not debug info. */
  predicate IsDebug(i: Instr) {
    i.Call? && i.callee.Some? && i.callee.value.iid in DebugIntrinsics
  }

  /** Only debug instructions lie strictly between `from` and `to`. */
  ghost predicate DebugBetween(b: Block, from: nat, to: nat)
    requires to <= |b|
  {
    forall k :: from < k < to ==> IsDebug(b[k])
  }

  method GetNextNonDebugInstructionOrNull(b: Block, z: nat) returns (r: Option<nat>)
    requires z < |b|
    ensures r.Some? ==> z < r.value < |b| && !IsDebug(b[r.value]) && DebugBetween(b, z, r.value)
    ensures r.None? <==> DebugBetween(b, z, |b|)
  {
    var i := z + 1;
    while i < |b|
      invariant z < i <= |b|
      invariant DebugBetween(b, z, i)
    {
      if !IsDebug(b[i]) {
        return Some(i);
      }
      i := i + 1;
    }
    return None;
  }

  /** The failing variant: aborts (here, reports an error) exactly when
      nothing but debug instructions follows `z`. */
  method GetNextNonDebugInstruction(b: Block, z: nat) returns (r: Result<nat>)
    requires z < |b|
    ensures r.Ok? ==> z < r.value < |b| && !IsDebug(b[r.value]) && DebugBetween(b, z, r.value)
    ensures r.Err? <==> DebugBetween(b, z, |b|)
    ensures r.Err? ==> r.error == NoSubsequentInstruction(z)
  {
    var next := GetNextNonDebugInstructionOrNull(b, z);
    if next.Some? {
      return Ok(next.value);
    }
    return Err(NoSubsequentInstruction(z));
  }
}
