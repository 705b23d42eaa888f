# Enzyme utility header, modelled in Dafny

This project models the pure decision procedures in Enzyme's `Utils.h`.
Enzyme is an LLVM automatic-differentiation pass. The procedures modelled are:

- `whatType`, the differentiability classifier. It maps an LLVM type to a
  `DIFFE_TYPE`: `OUT_DIFF` (the derivative goes to the output struct),
  `DUP_ARG` (the argument is duplicated and the derivative is stored in the
  shadow) or `CONSTANT` (no derivative).
- `FloatToIntTy` / `IntToFloatTy`, which map a float type to the integer type
  of the same width and back.
- The three runtime-call exemption tables `isCertain*`.
- The walk to the next non-debug instruction.
- `tostring(DIFFE_TYPE)` and `max`.

Files:

- `results.dfy`: `Option`, and a `Result` whose errors stand for the header's
  fatal paths.
- `diffe_type.dfy`: `DIFFE_TYPE`, its underlying values, `tostring` and `max`.
- `type_graph.dfy`: the type universe as a finite, possibly cyclic graph
  `map<TypeId, Shape>`. A graph is `Closed` when it has no dangling type
  references. A `rank` map witnesses acyclicity.
- `classifier.dfy`: `whatType`. It is parameterised by the reading of the
  struct loop's `switch`: `AsWritten` is the source's behaviour and
  `WithBreaks` is the corrected one (see Findings).
- `classifier_props.dfy`: the per-shape rules, the struct loop as a fold, the
  fall-through finding, and the role of `seen`.
- `float_int.dfy`: the float/int shape conversions and their round trips.
- `runtime_calls.dfy`: the exemption tables.
- `instruction_walk.dfy`: the instruction walk.

Two points about the code that a reader might not expect:

- The struct loop (Utils.h:156-185) has `break`s inside its inner
  `switch`es and a final `return ty` (Utils.h:185), which suggest a
  precedence fold over the fields was intended. As written, any non-empty
  struct whose first field classifies is `DUP_ARG` (see Findings).
- Fixed vectors never take the array branch, because `isArrayTy` is
  array-only. Integer vectors are `CONSTANT` and float vectors are
  `OUT_DIFF`, both through the leaf tests (Utils.h:186-189). Vectors of
  pointers are an error.

## Model

| member | source | states |
|---|---|---|
| DiffeTypes.Ordinal | enzyme/Enzyme/Utils.h:109-113 | `OUT_DIFF`, `DUP_ARG` and `CONSTANT` have the values 0, 1 and 2; each value below 3 reads back as its enumerator |
| DiffeTypes.ToString | enzyme/Enzyme/Utils.h:115-127 | each enumerator prints as a non-empty spelling that parses back to the same enumerator |
| DiffeTypes.ToStringInjective | enzyme/Enzyme/Utils.h:115-127 | two enumerators print the same exactly when they are equal |
| DiffeTypes.Max | enzyme/Enzyme/Utils.h:44-48 | the result is one of the two arguments and no smaller than either; on a tie it is the second argument `b` |
| Classifier.Classify | enzyme/Enzyme/Utils.h:131-196 | terminates on every closed graph, cyclic or not; a type already on the descent path is `CONSTANT`; a pointer is never `OUT_DIFF`; every failure names a type whose own shape has no rule and which is reachable from the classified type along pointee, element and field edges without revisiting the path |
| Classifier.StructLoop | enzyme/Enzyme/Utils.h:156-185 | the field loop fails only with the error of the first field, from index `i` on, whose classification fails, every earlier field having classified; that error names an unsupported type reachable from that field; as written, once it has a field to look at, it can only succeed with `DUP_ARG` |
| Classifier.WhatType | enzyme/Enzyme/Utils.h:131-196 | `whatType` with an empty `seen`: any non-empty struct that classifies is `DUP_ARG`; a failure names an unsupported type reachable from the argument |
| ClassifierProps.PointerRule | enzyme/Enzyme/Utils.h:137-149 | a pointer is `DUP_ARG` when its pointee is `OUT_DIFF` or `DUP_ARG`, `CONSTANT` when the pointee is `CONSTANT`, and fails when the pointee fails; the pointee is classified with the pointer added to the path |
| ClassifierProps.ArrayRule | enzyme/Enzyme/Utils.h:150-151 | an array classifies exactly as its element type, with the array added to the path |
| ClassifierProps.LeafRules | enzyme/Enzyme/Utils.h:186-195 | int, int-vector and function types are `CONSTANT`; fp and fp-vector types are `OUT_DIFF`; the result is the unsupported-shape error naming the type itself exactly when the type's own shape has no rule (void, label, metadata, token, x86_mmx, vector of pointers); a type with a rule can still fail with an error naming a type below it |
| ClassifierProps.EmptyStructRule | enzyme/Enzyme/Utils.h:152-154 | a struct without fields is `CONSTANT` |
| ClassifierProps.AsWrittenStepReturnsDupArg | enzyme/Enzyme/Utils.h:158-182 | with no `break` after the inner switches, every case of the outer switch ends at `return DUP_ARG`, whatever the field and the accumulator |
| ClassifierProps.AsWrittenStructRule | enzyme/Enzyme/Utils.h:152-185 | a non-empty struct fails when field 0 fails and is `DUP_ARG` otherwise; fields 1 and beyond are never classified |
| ClassifierProps.StructLoopIsFold | enzyme/Enzyme/Utils.h:156-185 | when the remaining fields all classify, the lazy field loop equals the loop body folded over their classifications |
| ClassifierProps.StructIsFold | enzyme/Enzyme/Utils.h:152-185 | when every field classifies, a struct's classification is the loop body folded over the field classifications, starting from `CONSTANT` |
| ClassifierProps.AsWrittenFoldIsDupArg | enzyme/Enzyme/Utils.h:158-182 | as written, folding the loop body over any non-empty list of field classifications gives `DUP_ARG` |
| ClassifierProps.WithBreaksFoldIsPrecedence | enzyme/Enzyme/Utils.h:156-185 | with the `break`s in place, the loop computes the precedence rule over the accumulator and the fields: any `DUP_ARG` wins, then any `OUT_DIFF`, else `CONSTANT` |
| ClassifierProps.WithBreaksStructRule | enzyme/Enzyme/Utils.h:152-185 | corrected struct rule: a struct whose fields all classify is the precedence combination of its fields |
| ClassifierProps.WithBreaksOrderIndependent | enzyme/Enzyme/Utils.h:156-185 | with the `break`s in place, permuting the field classifications does not change the struct's classification |
| ClassifierProps.StructFallThroughCounterexample | enzyme/Enzyme/Utils.h:158-182 | `struct { double, double }` is `DUP_ARG` as written but `OUT_DIFF` with the `break`s; `struct { double, void }` is `DUP_ARG` as written but an unsupported-shape error naming `void` with the `break`s |
| ClassifierProps.CyclicGraphExample | enzyme/Enzyme/Utils.h:131-135 | for `%node = { double, %node* }`, classification terminates; the back pointer to the node is `CONSTANT` because the node is already on the path |
| ClassifierProps.SeenIrrelevantWhenAcyclic | enzyme/Enzyme/Utils.h:131-135 | on an acyclic graph, starting from any path of ancestors gives the same classification as an empty path, so `seen` only ever decides anything on cycles |
| ClassifierProps.StructLoopSeenIrrelevant | enzyme/Enzyme/Utils.h:156-158 | the same for the field loop: on an acyclic graph its result does not depend on the path it is given |
| FloatInt.FloatToIntTy | enzyme/Enzyme/Utils.h:206-216 | succeeds exactly for half, float and double lanes; the result is an integer shape of the same bit width with the same vector lane count; any other float kind is an error naming its width |
| FloatInt.IntToFloatTy | enzyme/Enzyme/Utils.h:218-232 | succeeds exactly for widths 16, 32 and 64; the result is a float shape of the same bit width with the same lane count; any other width is an error naming it |
| FloatInt.FloatIntRoundTrip | enzyme/Enzyme/Utils.h:206-232 | `IntToFloatTy(FloatToIntTy(T)) == T` for half, float, double and vectors of them |
| FloatInt.IntFloatRoundTrip | enzyme/Enzyme/Utils.h:206-232 | `FloatToIntTy(IntToFloatTy(iN)) == iN` for N in {16, 32, 64} and vectors of them |
| RuntimeCalls.IsCertainMallocOrFree | enzyme/Enzyme/Utils.h:234-252 | false for a null callee; true exactly for a print, allocation or deallocation routine, or a debug or lifetime intrinsic |
| RuntimeCalls.IsCertainPrintOrFree | enzyme/Enzyme/Utils.h:254-272 | false for a null callee; true exactly for a print or deallocation routine, or a debug or lifetime intrinsic |
| RuntimeCalls.IsCertainPrintMallocOrFree | enzyme/Enzyme/Utils.h:274-292 | false for a null callee; true exactly for a print, allocation or deallocation routine, or a debug or lifetime intrinsic |
| RuntimeCalls.MallocOrFreeIsPrintMallocOrFree | enzyme/Enzyme/Utils.h:234-292 | `isCertainMallocOrFree` and `isCertainPrintMallocOrFree` agree on every callee |
| RuntimeCalls.PrintOrFreeOmitsOnlyAllocation | enzyme/Enzyme/Utils.h:234-292 | `isCertainPrintOrFree` implies both others; it differs from them exactly on a call to `malloc` or `_Znwm` that is not also an exempt intrinsic |
| InstructionWalk.GetNextNonDebugInstructionOrNull | enzyme/Enzyme/Utils.h:75-80 | returns the least index after `z` whose instruction is not debug info, so everything strictly between is debug info; returns null exactly when only debug info follows `z` |
| InstructionWalk.GetNextNonDebugInstruction | enzyme/Enzyme/Utils.h:82-90 | the same successor; fails with a no-subsequent-instruction error exactly when the null variant would return null |

## Left out

- `getOrInsertDifferentialFloatMemcpy` / `getOrInsertDifferentialFloatMemmove` (Utils.h:294-298) are declarations only. Their bodies are not part of this model, and their job is to mutate an LLVM module.
- `dumpMap`, `dumpSet` and `to_string(std::set)` are diagnostic printing and formatting to `llvm::errs()`.
- `getFast`, `hasMetadata` and `isReturned` are thin wrappers over LLVM fast-math flags, metadata and use lists.
- The `ReturnType` enum has no behaviour in the header.
- The diagnostics printed before each failure are not modelled. The failures inside the functions become `Err` values, as in a build with assertions enabled. Under `NDEBUG` the source behaves differently: `whatType` prints and returns `CONSTANT`, the scalar conversions return a null type; for a vector with such a lane, that null is passed to `VectorType::get`, which is undefined behaviour; and reaching `llvm_unreachable` in `getNextNonDebugInstruction` (Utils.h:87) is undefined behaviour.
- The entry assertions are preconditions, not errors. `assert(arg)` (Utils.h:133) becomes `t in g` on a closed graph. `assert(T->isFPOrFPVectorTy())` (Utils.h:207) and `assert(T->isIntOrIntVectorTy())` (Utils.h:219) become the `requires` of `FloatToIntTy` and `IntToFloatTy`. A non-null instruction in its block becomes `z < |b|` for the instruction walk.
- DiffeTypes.ToString: the `default` branch ("illegal diffetype") is not modelled. It is reachable only for an integer cast to `DIFFE_TYPE` outside 0..2, which the datatype cannot hold.
- DiffeTypes.Max: `operator>` of the template parameter is modelled as a comparison of integer keys, so only orders given by a key are covered.
- LLVM versions 6 and below (no `dbg.label`) are not modelled. The tables are those of later versions.
- LLVM type uniquing and contexts are abstracted as `TypeId` keys of a finite map. A pointer vector's lane keeps its pointee id only for closedness; the classifier and the conversions do not look at it.
- Function types keep their result and parameter ids only for closedness. The classifier does not look at them, as in the source.
- The instruction walk is confined to one basic block, as `getNextNode` is. Block and instruction printing on the failure path is left out.

## Findings

| source | as written | input that shows it | evidently intended | confidence | as-written member | corrected member |
|---|---|---|---|---|---|---|
| enzyme/Enzyme/Utils.h:158-182 | no `break` after either inner `switch`, so every case falls through to `case DUP_ARG: return DUP_ARG` on the first field | `struct { double, double }` classifies as `DUP_ARG`; and an unsupported field after field 0 is never detected: `struct { double, void }` is `DUP_ARG` as written, but an unsupported-shape error naming `void` with the `break`s | each case ends after its inner switch: any `DUP_ARG` field gives `DUP_ARG`, else any `OUT_DIFF` field gives `OUT_DIFF`, else `CONSTANT`, independent of field order | high (the inner `break`s and the final `return ty` only make sense if the loop continues); not executed | ClassifierProps.StructFallThroughCounterexample | ClassifierProps.WithBreaksStructRule |

The as-written reading is the one `Classifier.WhatType` uses, because that is
what the header does. The corrected reading is `Classifier.Classify` with
`WithBreaks`. Its precedence rule and order independence are proved in
`ClassifierProps.WithBreaksFoldIsPrecedence` and
`ClassifierProps.WithBreaksOrderIndependent`.
