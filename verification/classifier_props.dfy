/** Properties of `whatType`: the per-shape rules, the struct loop read as a
    fold over field classifications, the consequence of its missing `break`s,
    and the role of the `seen` set. */
module ClassifierProps {
  import opened Results
  import opened DiffeTypes
  import opened TypeGraph
  import opened Classifier

  /** The pointer rule: an `OUT_DIFF` payload behind a pointer is carried in
      a shadow, everything else passes through. */
  function ThroughPointer(pointee: Result<DiffeType>): Result<DiffeType> {
    match pointee
    case Err(e) => Err(e)
    case Ok(Constant) => Ok(Constant)
    case Ok(_) => Ok(DupArg)
  }

  lemma PointerRule(g: Graph, sw: StructSwitch, t: TypeId, seen: set<TypeId>)
    requires Closed(g) && t in g && t !in seen && g[t].PointerTy?
    ensures Classify(g, sw, t, seen) == ThroughPointer(Classify(g, sw, g[t].pointee, seen + {t}))
    ensures Classify(g, sw, t, seen) != Ok(OutDiff)
  {
  }

  /** An array classifies as its element, one level deeper on the path. */
  lemma ArrayRule(g: Graph, sw: StructSwitch, t: TypeId, seen: set<TypeId>)
    requires Closed(g) && t in g && t !in seen && g[t].ArrayTy?
    ensures Classify(g, sw, t, seen) == Classify(g, sw, g[t].elem, seen + {t})
  {
  }

  /** Integers, integer vectors and function types are `CONSTANT`; floats and
      float vectors are `OUT_DIFF`; every other shape is an error. */
  lemma LeafRules(g: Graph, sw: StructSwitch, t: TypeId, seen: set<TypeId>)
    requires Closed(g) && t in g && t !in seen
    ensures IsIntOrIntVectorTy(g[t]) || g[t].FunctionTy? ==> Classify(g, sw, t, seen) == Ok(Constant)
    ensures IsFPOrFPVectorTy(g[t]) ==> Classify(g, sw, t, seen) == Ok(OutDiff)
    ensures Unsupported(g[t]) <==> Classify(g, sw, t, seen) == Err(UnsupportedTypeShape(t))
  {
  }

  /** A struct without fields is `CONSTANT`. */
  lemma EmptyStructRule(g: Graph, sw: StructSwitch, t: TypeId, seen: set<TypeId>)
    requires Closed(g) && t in g && t !in seen && g[t] == StructTy([])
    ensures Classify(g, sw, t, seen) == Ok(Constant)
  {
  }

  /** Every case of the struct switch as written ends in `return DUP_ARG`. */
  lemma AsWrittenStepReturnsDupArg(field: DiffeType, acc: DiffeType)
    ensures FieldStep(AsWritten, field, acc) == Return(DupArg)
  {
  }

  /** As written, a non-empty struct is decided by its first field alone: it
      fails when field 0 fails and is `DUP_ARG` otherwise; fields 1 and
      beyond are never classified. */
  lemma AsWrittenStructRule(g: Graph, t: TypeId, seen: set<TypeId>)
    requires Closed(g) && t in g && t !in seen && g[t].StructTy? && |g[t].fields| > 0
    ensures Classify(g, AsWritten, t, seen)
         == (if Classify(g, AsWritten, g[t].fields[0], seen + {t}).Err?
             then Classify(g, AsWritten, g[t].fields[0], seen + {t})
             else Ok(DupArg))
  {
  }

  // ---------------------------------------------------------------------
  // The struct loop as a fold over already computed field classifications

  /** The loop body run over a sequence of field classifications. */
  function StructFold(sw: StructSwitch, cs: seq<DiffeType>, acc: DiffeType): DiffeType {
    if |cs| == 0 then acc
    else
      match FieldStep(sw, cs[0], acc)
      case Return(v) => v
      case Continue(acc') => StructFold(sw, cs[1..], acc')
  }

  /** Classify every field, left to right, stopping at the first failure. */
  function FieldClasses(g: Graph, sw: StructSwitch, fs: seq<TypeId>, path: set<TypeId>): (r: Result<seq<DiffeType>>)
    requires Closed(g) && forall i :: 0 <= i < |fs| ==> fs[i] in g
    ensures r.Ok? ==> |r.value| == |fs|
  {
    if |fs| == 0 then Ok([])
    else
      match Classify(g, sw, fs[0], path)
      case Err(e) => Err(e)
      case Ok(c) => (
        match FieldClasses(g, sw, fs[1..], path)
        case Err(e) => Err(e)
        case Ok(cs) => Ok([c] + cs))
  }

  lemma {:induction false} StructLoopIsFold(g: Graph, sw: StructSwitch, t: TypeId, i: nat, acc: DiffeType,
                                            seen: set<TypeId>, cs: seq<DiffeType>)
    requires Closed(g) && t in g && t !in seen && g[t].StructTy? && i <= |g[t].fields|
    requires FieldClasses(g, sw, g[t].fields[i..], seen + {t}) == Ok(cs)
    ensures StructLoop(g, sw, t, i, acc, seen) == Ok(StructFold(sw, cs, acc))
    decreases |g[t].fields| - i
  {
    var fs := g[t].fields;
    if i < |fs| {
      assert fs[i..][0] == fs[i];
      assert fs[i..][1..] == fs[i + 1..];
      var c := Classify(g, sw, fs[i], seen + {t});
      var rest := FieldClasses(g, sw, fs[i + 1..], seen + {t});
      assert c.Ok? && rest.Ok? && cs == [c.value] + rest.value;
      assert cs[1..] == rest.value;
      match FieldStep(sw, c.value, acc)
      case Return(v) =>
      case Continue(acc') =>
        StructLoopIsFold(g, sw, t, i + 1, acc', seen, rest.value);
    }
  }

  /** When every field of a struct classifies, the struct's classification is
      the loop body folded over those classifications. */
  lemma StructIsFold(g: Graph, sw: StructSwitch, t: TypeId, seen: set<TypeId>, cs: seq<DiffeType>)
    requires Closed(g) && t in g && t !in seen && g[t].StructTy?
    requires FieldClasses(g, sw, g[t].fields, seen + {t}) == Ok(cs)
    ensures Classify(g, sw, t, seen) == Ok(StructFold(sw, cs, Constant))
  {
    if |g[t].fields| > 0 {
      assert g[t].fields[0..] == g[t].fields;
      StructLoopIsFold(g, sw, t, 0, Constant, seen, cs);
    }
  }

  // ---------------------------------------------------------------------
  // The missing `break`s

  /** The combination rule for struct fields: any `DUP_ARG` field makes the
      struct `DUP_ARG`, otherwise any `OUT_DIFF` field makes it `OUT_DIFF`,
      otherwise it is `CONSTANT`. */
  function Precedence(cs: seq<DiffeType>): DiffeType {
    if DupArg in cs then DupArg
    else if OutDiff in cs then OutDiff
    else Constant
  }

  /** With the `break`s, the loop computes the precedence rule over the
      accumulator and the remaining fields. */
  lemma {:induction false} WithBreaksFoldIsPrecedence(cs: seq<DiffeType>, acc: DiffeType)
    ensures StructFold(WithBreaks, cs, acc) == Precedence([acc] + cs)
  {
    if |cs| > 0 {
      var s := FieldStep(WithBreaks, cs[0], acc);
      assert forall x :: x in [acc] + cs <==> x == acc || x == cs[0] || x in cs[1..];
      if s.Continue? {
        WithBreaksFoldIsPrecedence(cs[1..], s.acc);
        assert forall x :: x in [s.acc] + cs[1..] <==> x == s.acc || x in cs[1..];
      }
    }
  }

  /** Corrected struct rule: with the `break`s in place, a struct whose fields
      all classify is the precedence combination of its fields. */
  lemma WithBreaksStructRule(g: Graph, t: TypeId, seen: set<TypeId>, cs: seq<DiffeType>)
    requires Closed(g) && t in g && t !in seen && g[t].StructTy?
    requires FieldClasses(g, WithBreaks, g[t].fields, seen + {t}) == Ok(cs)
    ensures Classify(g, WithBreaks, t, seen) == Ok(Precedence(cs))
  {
    StructIsFold(g, WithBreaks, t, seen, cs);
    WithBreaksFoldIsPrecedence(cs, Constant);
    assert forall x :: x in [Constant] + cs <==> x == Constant || x in cs;
  }

  /** With the `break`s, reordering the field classifications does not change
      the struct's classification. */
  lemma WithBreaksOrderIndependent(cs: seq<DiffeType>, ds: seq<DiffeType>)
    requires multiset(cs) == multiset(ds)
    ensures StructFold(WithBreaks, cs, Constant) == StructFold(WithBreaks, ds, Constant)
  {
    WithBreaksFoldIsPrecedence(cs, Constant);
    WithBreaksFoldIsPrecedence(ds, Constant);
    assert forall x :: x in cs <==> x in multiset(cs);
    assert forall x :: x in ds <==> x in multiset(ds);
    assert forall x :: x in [Constant] + cs <==> x == Constant || x in cs;
    assert forall x :: x in [Constant] + ds <==> x == Constant || x in ds;
  }

  /** As written, the fold over a non-empty struct's fields is `DUP_ARG`,
      whatever the fields are. */
  lemma AsWrittenFoldIsDupArg(cs: seq<DiffeType>, acc: DiffeType)
    requires |cs| > 0
    ensures StructFold(AsWritten, cs, acc) == DupArg
  {
  }

  /** `struct { double, double }` (type 1 below, fields both type 0): the
      source classifies it `DUP_ARG`, the corrected loop `OUT_DIFF`. */
  function TwoDoubles(): Graph {
    map[0 := FpTy(Double), 1 := StructTy([0, 0])]
  }

  /** `struct { double, void }` (type 2 below): the unsupported second
      field is never looked at as written. */
  function DoubleThenVoid(): Graph {
    map[0 := FpTy(Double), 1 := VoidTy, 2 := StructTy([0, 1])]
  }

  lemma StructFallThroughCounterexample()
    ensures Closed(TwoDoubles())
    ensures WhatType(TwoDoubles(), 1) == Ok(DupArg)
    ensures Classify(TwoDoubles(), WithBreaks, 1, {}) == Ok(OutDiff)
    ensures Closed(DoubleThenVoid())
    ensures WhatType(DoubleThenVoid(), 2) == Ok(DupArg)
    ensures Classify(DoubleThenVoid(), WithBreaks, 2, {}) == Err(UnsupportedTypeShape(1))
  {
  }

  // ---------------------------------------------------------------------
  // The `seen` set

  /** `%node = type { double, %node* }` (type 0), its field types 1 and 2,
      where 2 is the pointer back to 0. */
  function SelfReferential(): Graph {
    map[0 := StructTy([1, 2]), 1 := FpTy(Double), 2 := PointerTy(0)]
  }

  /** A cyclic graph classifies without looping: the back edge to the struct
      is cut by `seen` and its pointer counts as `CONSTANT`. */
  lemma CyclicGraphExample()
    ensures Closed(SelfReferential())
    ensures Classify(SelfReferential(), WithBreaks, 2, {0}) == Ok(Constant)
    ensures Classify(SelfReferential(), WithBreaks, 0, {}) == Ok(OutDiff)
    ensures WhatType(SelfReferential(), 0) == Ok(DupArg)
    ensures WhatType(SelfReferential(), 2) == Ok(DupArg)
  {
  }

  /** Every type on the path ranks above `t`. */
  ghost predicate PathAbove(rank: map<TypeId, nat>, t: TypeId, seen: set<TypeId>)
    requires t in rank
  {
    forall s :: s in seen ==> s in rank && rank[s] > rank[t]
  }

  /** On an acyclic graph the `seen` set never decides anything: from any path
      of ancestors the classification equals the one from an empty path. */
  lemma {:induction false} SeenIrrelevantWhenAcyclic(g: Graph, rank: map<TypeId, nat>, sw: StructSwitch,
                                                     t: TypeId, seen: set<TypeId>)
    requires Closed(g) && Ranked(g, rank) && t in g && t in rank && PathAbove(rank, t, seen)
    ensures Classify(g, sw, t, seen) == Classify(g, sw, t, {})
    decreases rank[t], 1, 0
  {
    assert t !in seen;
    var s := g[t];
    assert RankedShape(s, rank, rank[t]);
    assert {} + {t} == {t};
    if s.PointerTy? {
      SeenIrrelevantWhenAcyclic(g, rank, sw, s.pointee, seen + {t});
      SeenIrrelevantWhenAcyclic(g, rank, sw, s.pointee, {t});
    } else if s.ArrayTy? {
      SeenIrrelevantWhenAcyclic(g, rank, sw, s.elem, seen + {t});
      SeenIrrelevantWhenAcyclic(g, rank, sw, s.elem, {t});
    } else if s.StructTy? && |s.fields| > 0 {
      StructLoopSeenIrrelevant(g, rank, sw, t, 0, Constant, seen);
    }
  }

  lemma {:induction false} StructLoopSeenIrrelevant(g: Graph, rank: map<TypeId, nat>, sw: StructSwitch,
                                                    t: TypeId, i: nat, acc: DiffeType, seen: set<TypeId>)
    requires Closed(g) && Ranked(g, rank) && t in g && t in rank && PathAbove(rank, t, seen)
    requires g[t].StructTy? && i <= |g[t].fields|
    ensures t !in seen
    ensures StructLoop(g, sw, t, i, acc, seen) == StructLoop(g, sw, t, i, acc, {})
    decreases rank[t], 0, |g[t].fields| - i
  {
    assert t !in seen;
    var fs := g[t].fields;
    if i < |fs| {
      assert RankedShape(g[t], rank, rank[t]);
      SeenIrrelevantWhenAcyclic(g, rank, sw, fs[i], seen + {t});
      SeenIrrelevantWhenAcyclic(g, rank, sw, fs[i], {t});
      assert {} + {t} == {t};
      var c := Classify(g, sw, fs[i], seen + {t});
      if c.Ok? && FieldStep(sw, c.value, acc).Continue? {
        StructLoopSeenIrrelevant(g, rank, sw, t, i + 1, FieldStep(sw, c.value, acc).acc, seen);
      }
    }
  }
}
