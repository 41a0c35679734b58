/**
 * Compile-time evaluation of collection literals: the invariants of the
 * statically instantiable constants, sets and maps; which `setOf` calls can
 * be laid out as a static set; and the lowering that turns a `listOf` over
 * string constants into a call of `listOfInternal`.
 */
module CompileTimeEvaluation {
  import opened Wrappers
  import opened Sequences

  /** Largest number of elements a static map may hold. */
  const SmallMapThreshold: nat := 30
  /** Largest number of elements a static set may hold. */
  const SmallSetThreshold: nat := 30

  // ---------------------------------------------------------------------
  // The part of the IR the lowering looks at
  // ---------------------------------------------------------------------

  datatype ConstKind = Null | Boolean | Char | Byte | Short | Int | Long | String | Float | Double

  /** A constant; its value is kept as text, which is all equality needs here. */
  datatype IrConst = IrConst(kind: ConstKind, value: string)

  datatype Intrinsic = SetOf | OtherIntrinsic(name: string)

  /** The called function: its qualified name, arity and intrinsic annotation. */
  datatype Callee = Callee(fqName: string, valueParameterCount: nat, intrinsic: Option<Intrinsic>)

  datatype IrType = IrType(name: string)

  datatype IrExpr =
    | Const(c: IrConst)
    | Vararg(elements: seq<IrExpr>)
    | Spread(expr: IrExpr)
      /** A missing type or value argument is `None`. */
    | Call(callee: Callee, typeArguments: seq<Option<IrType>>, arguments: seq<Option<IrExpr>>)
      /** Any other expression, by its sub-expressions. */
    | Other(children: seq<IrExpr>)

  /** A constant whose type is `String` (constants of that type have kind `String`). */
  predicate IsStringConst(e: IrExpr) {
    e.Const? && e.c.kind == String
  }

  // ---------------------------------------------------------------------
  // Static expressions and their invariants
  // ---------------------------------------------------------------------

  datatype StaticConst = StaticConst(backing: IrConst)

  datatype StaticExpr =
    | StaticSet(keys: seq<StaticConst>)
    | StaticMap(keys: seq<StaticConst>, values: seq<StaticConst>)

  /** Equality as the native runtime defines it: same kind and same value. */
  function RuntimeEqualityKey(c: StaticConst): (ConstKind, string) {
    (c.backing.kind, c.backing.value)
  }

  /** What the constructors of the static expressions assert. */
  predicate ValidStatic(e: StaticExpr) {
    (forall i :: 0 <= i < |e.keys| ==> e.keys[i].backing.kind == String) &&
    DistinctBy(e.keys, RuntimeEqualityKey) == e.keys &&
    match e
    case StaticSet(keys) => |keys| <= SmallSetThreshold
    case StaticMap(keys, values) =>
      |keys| == |values| && |keys| <= SmallMapThreshold &&
      (forall i :: 0 <= i < |values| ==> values[i].backing.kind == String)
  }

  /**
   * The uniqueness check of the invariants says what it means: a key list is
   * unchanged by `distinctBy` exactly when no two keys are equal at run time.
   */
  lemma ValidStaticIffUnique(e: StaticExpr)
    ensures ValidStatic(e) <==>
      (forall i :: 0 <= i < |e.keys| ==> e.keys[i].backing.kind == String) &&
      UniqueBy(e.keys, RuntimeEqualityKey) &&
      |e.keys| <= (if e.StaticSet? then SmallSetThreshold else SmallMapThreshold) &&
      (e.StaticMap? ==>
         |e.keys| == |e.values| && forall i :: 0 <= i < |e.values| ==> e.values[i].backing.kind == String)
  {
    DistinctByFixedIffUnique(e.keys, RuntimeEqualityKey);
  }

  // ---------------------------------------------------------------------
  // Static evaluation of `setOf`
  // ---------------------------------------------------------------------

  /** The elements of the first argument when it is a `vararg`, as `tryCreateStaticSet` reads it. */
  function VarargElements(e: IrExpr): Option<seq<IrExpr>>
    requires e.Call?
  {
    if |e.arguments| == 0 || e.arguments[0].None? || !e.arguments[0].value.Vararg? then None
    else Some(e.arguments[0].value.elements)
  }

  predicate AllStringConsts(elements: seq<IrExpr>) {
    forall i :: 0 <= i < |elements| ==> IsStringConst(elements[i])
  }

  function StaticConsts(elements: seq<IrExpr>): (r: seq<StaticConst>)
    requires AllStringConsts(elements)
    ensures |r| == |elements|
    ensures forall i :: 0 <= i < |r| ==> r[i].backing.kind == String
  {
    seq(|elements|, i requires 0 <= i < |elements| => StaticConst(elements[i].c))
  }

  /**
   * A `setOf` whose argument is a `vararg` of string constants becomes the set
   * of those constants, each kept at its first occurrence, provided fewer than
   * the threshold remain.
   */
  function TryCreateStaticSet(e: IrExpr): (r: Option<StaticExpr>)
    requires e.Call? && e.callee.intrinsic == Some(SetOf)
    ensures r.Some? ==> r.value.StaticSet? && ValidStatic(r.value) && |r.value.keys| < SmallSetThreshold
  {
    var elements := VarargElements(e);
    if elements.None? || !AllStringConsts(elements.value) then None
    else
      var setElements := DistinctBy(StaticConsts(elements.value), RuntimeEqualityKey);
      if |setElements| >= SmallSetThreshold then None
      else
        DistinctBySpec(StaticConsts(elements.value), RuntimeEqualityKey);
        Some(StaticSet(setElements))
  }

  /** Only calls of the `SET_OF` intrinsic are statically evaluated. */
  function TryCreateStaticExpr(e: IrExpr): (r: Option<StaticExpr>)
    ensures r.Some? ==> e.Call? && e.callee.intrinsic == Some(SetOf)
    ensures r.Some? ==> r.value.StaticSet? && ValidStatic(r.value)
  {
    if !e.Call? then None
    else if e.callee.intrinsic == Some(SetOf) then TryCreateStaticSet(e)
    else None
  }

  function CanStaticallyEvaluate(e: IrExpr): bool {
    TryCreateStaticExpr(e).Some?
  }

  /**
   * When static evaluation succeeds: exactly when the call is `setOf` over a
   * `vararg` of string constants with fewer than 30 distinct values; every
   * element is represented; each key kept is the first element with that
   * key; and the kept keys appear in the order of the arguments.
   */
  lemma StaticSetSpec(e: IrExpr)
    ensures CanStaticallyEvaluate(e) <==>
      e.Call? && e.callee.intrinsic == Some(SetOf) &&
      VarargElements(e).Some? && AllStringConsts(VarargElements(e).value) &&
      |DistinctBy(StaticConsts(VarargElements(e).value), RuntimeEqualityKey)| < SmallSetThreshold
    ensures CanStaticallyEvaluate(e) ==>
      var args := StaticConsts(VarargElements(e).value);
      var keys := TryCreateStaticExpr(e).value.keys;
      keys == DistinctBy(args, RuntimeEqualityKey) &&
      (forall i :: 0 <= i < |args| ==>
        exists j :: 0 <= j < |keys| && RuntimeEqualityKey(keys[j]) == RuntimeEqualityKey(args[i])) &&
      (forall j :: 0 <= j < |keys| ==> FirstWithKey(args, keys[j])) &&
      (exists pos :: SubsequenceAt(keys, args, pos))
  {
    if CanStaticallyEvaluate(e) {
      var args := StaticConsts(VarargElements(e).value);
      var keys := TryCreateStaticExpr(e).value.keys;
      DistinctBySpec(args, RuntimeEqualityKey);
      forall j | 0 <= j < |keys| ensures FirstWithKey(args, keys[j]) {
        DistinctFromFirst(args, RuntimeEqualityKey, {}, j);
      }
    }
  }

  /** `c` occurs in `args` with no element before it that is equal at run time. */
  ghost predicate FirstWithKey(args: seq<StaticConst>, c: StaticConst) {
    exists i :: 0 <= i < |args| && args[i] == c &&
                (forall i' :: 0 <= i' < i ==> RuntimeEqualityKey(args[i']) != RuntimeEqualityKey(c))
  }

  function StringConst(value: string): IrExpr {
    Const(IrConst(String, value))
  }

  function SetOfCall(values: seq<string>): IrExpr {
    Call(Callee("kotlin.collections.setOf", 1, Some(SetOf)), [Some(IrType("kotlin.String"))],
         [Some(Vararg(seq(|values|, i requires 0 <= i < |values| => StringConst(values[i]))))])
  }

  function StaticString(value: string): StaticConst {
    StaticConst(IrConst(String, value))
  }

  /** Duplicates are dropped and the remaining elements iterate in source order. */
  lemma SetOfExamples()
    ensures TryCreateStaticExpr(SetOfCall(["a", "a", "b", "c"])) ==
      Some(StaticSet([StaticString("a"), StaticString("b"), StaticString("c")]))
    ensures TryCreateStaticExpr(SetOfCall(["b", "c", "a"])) ==
      Some(StaticSet([StaticString("b"), StaticString("c"), StaticString("a")]))
  {
    var a, b, c := StaticString("a"), StaticString("b"), StaticString("c");
    var k := RuntimeEqualityKey;
    var e1 := SetOfCall(["a", "a", "b", "c"]);
    assert VarargElements(e1).value == [StringConst("a"), StringConst("a"), StringConst("b"), StringConst("c")];
    var args1 := StaticConsts(VarargElements(e1).value);
    assert args1 == [a, a, b, c];
    assert DistinctFrom([c], k, {k(a), k(b)}) == [c] by {
      assert [c][1..] == [];
    }
    assert DistinctFrom([b, c], k, {k(a)}) == [b, c] by {
      assert [b, c][1..] == [c];
      assert k(b) !in {k(a)} && {k(a)} + {k(b)} == {k(a), k(b)};
    }
    assert DistinctFrom([a, b, c], k, {k(a)}) == [b, c] by {
      assert [a, b, c][1..] == [b, c];
    }
    assert DistinctFrom(args1, k, {}) == [a, b, c] by {
      assert args1[1..] == [a, b, c];
      assert {} + {k(a)} == {k(a)};
    }
    var e2 := SetOfCall(["b", "c", "a"]);
    assert VarargElements(e2).value == [StringConst("b"), StringConst("c"), StringConst("a")];
    var args2 := StaticConsts(VarargElements(e2).value);
    assert args2 == [b, c, a];
    assert DistinctFrom([a], k, {k(b), k(c)}) == [a] by {
      assert [a][1..] == [];
    }
    assert DistinctFrom([c, a], k, {k(b)}) == [c, a] by {
      assert [c, a][1..] == [a];
      assert k(c) !in {k(b)} && {k(b)} + {k(c)} == {k(b), k(c)};
    }
    assert DistinctFrom(args2, k, {}) == [b, c, a] by {
      assert args2[1..] == [c, a];
      assert {} + {k(b)} == {k(b)};
    }
  }

  // ---------------------------------------------------------------------
  // Map literals with repeated keys
  // ---------------------------------------------------------------------

  /**
   * The entries of a map literal: for a repeated key the last pair wins, and
   * it sits where that last pair stands.
   */
  function MapLiteralEntries<K(==), V>(pairs: seq<(K, V)>): seq<(K, V)> {
    LastBy(pairs, (p: (K, V)) => p.0)
  }

  /**
   * Each key appears once, every key of the literal appears, each entry is
   * the last pair with its key, and the entries keep the literal's order.
   */
  lemma MapLiteralEntriesSpec<K, V>(pairs: seq<(K, V)>)
    ensures UniqueBy(MapLiteralEntries(pairs), (p: (K, V)) => p.0)
    ensures forall i :: 0 <= i < |pairs| ==>
      exists j :: 0 <= j < |MapLiteralEntries(pairs)| && MapLiteralEntries(pairs)[j].0 == pairs[i].0
    ensures forall j :: 0 <= j < |MapLiteralEntries(pairs)| ==>
      IsLastWithKey(pairs, (p: (K, V)) => p.0, MapLiteralEntries(pairs)[j])
    ensures exists pos :: SubsequenceAt(MapLiteralEntries(pairs), pairs, pos)
  {
    LastBySpec(pairs, (p: (K, V)) => p.0);
  }

  /** `mapOf("b" to "c", "a" to "b", "b" to "e")` prints as `{a=b, b=e}`. */
  lemma MapLiteralExample()
    ensures MapLiteralEntries([("b", "c"), ("a", "b"), ("b", "e")]) == [("a", "b"), ("b", "e")]
  {
    var k := (p: (string, string)) => p.0;
    var s := [("b", "c"), ("a", "b"), ("b", "e")];
    var rs := Reverse(s);
    assert rs == [("b", "e"), ("a", "b"), ("b", "c")];
    assert DistinctFrom([("b", "c")], k, {"b", "a"}) == [] by {
      assert [("b", "c")][1..] == [];
    }
    assert DistinctFrom([("a", "b"), ("b", "c")], k, {"b"}) == [("a", "b")] by {
      assert [("a", "b"), ("b", "c")][1..] == [("b", "c")];
      assert "a" != "b" && {"b"} + {"a"} == {"b", "a"};
    }
    assert DistinctFrom(rs, k, {}) == [("b", "e"), ("a", "b")] by {
      assert rs[1..] == [("a", "b"), ("b", "c")];
      assert {} + {"b"} == {"b"};
    }
    assert Reverse([("b", "e"), ("a", "b")]) == [("a", "b"), ("b", "e")];
  }

  // ---------------------------------------------------------------------
  // Lowering `listOf` over string constants
  // ---------------------------------------------------------------------

  const ListOfFqName: string := "kotlin.collections.listOf"
  const ListOfInternal: Callee := Callee("kotlin.collections.listOfInternal", 1, None)

  /**
   * The conditions under which the lowering replaces a call: the callee is
   * `kotlin.collections.listOf` with one value parameter, whose argument is a
   * `vararg` without spread elements, all of whose elements are string
   * constants.
   */
  predicate ListOfRewritable(call: IrExpr)
    requires call.Call?
  {
    call.callee.fqName == ListOfFqName && call.callee.valueParameterCount == 1 &&
    VarargElements(call).Some? &&
    !(exists i :: 0 <= i < |VarargElements(call).value| && VarargElements(call).value[i].Spread?) &&
    AllStringConsts(VarargElements(call).value)
  }

  /**
   * `visitCall` on a call whose children are already lowered: a rewritable
   * `listOf` becomes `listOfInternal` with the same type argument and the
   * same `vararg`; a missing type argument is a failure; anything else is
   * returned as it is.
   */
  function RewriteListOf(call: IrExpr): (r: Result<IrExpr>)
    requires call.Call?
    ensures !ListOfRewritable(call) ==> r == Ok(call)
    ensures ListOfRewritable(call) ==>
      (r.Err? <==> |call.typeArguments| == 0 || call.typeArguments[0].None?)
    ensures ListOfRewritable(call) && r.Ok? ==>
      r.value.Call? && r.value.callee == ListOfInternal &&
      r.value.typeArguments == [call.typeArguments[0]] &&
      r.value.arguments == [call.arguments[0]] &&
      r.value.arguments[0].value == Vararg(VarargElements(call).value)
  {
    if !ListOfRewritable(call) then Ok(call)
    else if |call.typeArguments| == 0 || call.typeArguments[0].None? then Err(Abort)
    else Ok(Call(ListOfInternal, [call.typeArguments[0]], [Some(call.arguments[0].value)]))
  }

  /** The first failure among `rs`, or all their values. */
  function Collect<T>(rs: seq<Result<T>>): (r: Result<seq<T>>)
    ensures r.Ok? <==> forall i :: 0 <= i < |rs| ==> rs[i].Ok?
    ensures r.Ok? ==> |r.value| == |rs| && forall i :: 0 <= i < |rs| ==> r.value[i] == rs[i].value
  {
    if rs == [] then Ok([])
    else if rs[0].Err? then Err(rs[0].error)
    else match Collect(rs[1..])
      case Ok(tail) => Ok([rs[0].value] + tail)
      case Err(error) => Err(error)
  }

  /** A missing argument stays missing; a present one is lowered. */
  function LowerArgument(arg: Option<IrExpr>, lowered: Result<IrExpr>): Result<Option<IrExpr>> {
    if arg.None? then Ok(None)
    else match lowered
      case Ok(v) => Ok(Some(v))
      case Err(error) => Err(error)
  }

  /** The lowering over a whole tree: children first, then the call itself. */
  function Lower(e: IrExpr): Result<IrExpr>
    decreases e
  {
    match e
    case Const(_) => Ok(e)
    case Spread(x) =>
      (match Lower(x) case Ok(v) => Ok(Spread(v)) case Err(error) => Err(error))
    case Vararg(es) =>
      (match Collect(seq(|es|, i requires 0 <= i < |es| => Lower(es[i])))
       case Ok(vs) => Ok(Vararg(vs))
       case Err(error) => Err(error))
    case Other(cs) =>
      (match Collect(seq(|cs|, i requires 0 <= i < |cs| => Lower(cs[i])))
       case Ok(vs) => Ok(Other(vs))
       case Err(error) => Err(error))
    case Call(callee, typeArguments, arguments) =>
      var lowered := seq(|arguments|, i requires 0 <= i < |arguments| =>
        LowerArgument(arguments[i], if arguments[i].Some? then Lower(arguments[i].value) else Ok(e)));
      match Collect(lowered)
      case Ok(args) => RewriteListOf(Call(callee, typeArguments, args))
      case Err(error) => Err(error)
  }

  /** No call anywhere in `e` is one the lowering would rewrite. */
  predicate NoRewritable(e: IrExpr)
    decreases e
  {
    match e
    case Const(_) => true
    case Spread(x) => NoRewritable(x)
    case Vararg(es) => forall i :: 0 <= i < |es| ==> NoRewritable(es[i])
    case Other(cs) => forall i :: 0 <= i < |cs| ==> NoRewritable(cs[i])
    case Call(_, _, args) =>
      !ListOfRewritable(e) && forall i :: 0 <= i < |args| && args[i].Some? ==> NoRewritable(args[i].value)
  }

  /** A tree with nothing to rewrite comes out of the lowering unchanged. */
  lemma {:induction false} LowerUnchanged(e: IrExpr)
    requires NoRewritable(e)
    ensures Lower(e) == Ok(e)
    decreases e
  {
    match e
    case Const(_) =>
    case Spread(x) =>
      LowerUnchanged(x);
    case Vararg(es) =>
      var rs := seq(|es|, i requires 0 <= i < |es| => Lower(es[i]));
      forall i | 0 <= i < |es| ensures rs[i] == Ok(es[i]) {
        LowerUnchanged(es[i]);
      }
      assert Collect(rs).value == es;
    case Other(cs) =>
      var rs := seq(|cs|, i requires 0 <= i < |cs| => Lower(cs[i]));
      forall i | 0 <= i < |cs| ensures rs[i] == Ok(cs[i]) {
        LowerUnchanged(cs[i]);
      }
      assert Collect(rs).value == cs;
    case Call(callee, typeArguments, arguments) =>
      var lowered := seq(|arguments|, i requires 0 <= i < |arguments| =>
        LowerArgument(arguments[i], if arguments[i].Some? then Lower(arguments[i].value) else Ok(e)));
      forall i | 0 <= i < |arguments| ensures lowered[i] == Ok(arguments[i]) {
        if arguments[i].Some? {
          LowerUnchanged(arguments[i].value);
        }
      }
      assert Collect(lowered).value == arguments;
  }

  /** A successful lowering leaves nothing that it would rewrite again. */
  lemma {:induction false} LowerLeavesNothingToRewrite(e: IrExpr)
    requires Lower(e).Ok?
    ensures NoRewritable(Lower(e).value)
    decreases e
  {
    match e
    case Const(_) =>
    case Spread(x) =>
      LowerLeavesNothingToRewrite(x);
    case Vararg(es) =>
      var rs := seq(|es|, i requires 0 <= i < |es| => Lower(es[i]));
      assert Collect(rs).Ok?;
      forall i | 0 <= i < |es| ensures NoRewritable(rs[i].value) {
        LowerLeavesNothingToRewrite(es[i]);
      }
    case Other(cs) =>
      var rs := seq(|cs|, i requires 0 <= i < |cs| => Lower(cs[i]));
      assert Collect(rs).Ok?;
      forall i | 0 <= i < |cs| ensures NoRewritable(rs[i].value) {
        LowerLeavesNothingToRewrite(cs[i]);
      }
    case Call(callee, typeArguments, arguments) =>
      var lowered := seq(|arguments|, i requires 0 <= i < |arguments| =>
        LowerArgument(arguments[i], if arguments[i].Some? then Lower(arguments[i].value) else Ok(e)));
      var args := Collect(lowered).value;
      forall i | 0 <= i < |args| && args[i].Some? ensures NoRewritable(args[i].value) {
        LowerLeavesNothingToRewrite(arguments[i].value);
      }
      var c := Call(callee, typeArguments, args);
      if ListOfRewritable(c) {
        var r := RewriteListOf(c).value;
        var elements := VarargElements(c).value;
        forall i | 0 <= i < |elements| ensures NoRewritable(elements[i]) {
          assert IsStringConst(elements[i]);
        }
        assert NoRewritable(r.arguments[0].value);
      }
  }

  /** Lowering twice is lowering once. */
  lemma LowerIdempotent(e: IrExpr)
    requires Lower(e).Ok?
    ensures Lower(Lower(e).value) == Lower(e)
  {
    LowerLeavesNothingToRewrite(e);
    LowerUnchanged(Lower(e).value);
  }
}
