/**
 * What the basic IR generator promises, stated about the functions of
 * `BasicIrGen` that its methods are proved equal to.
 */
module BasicIrFacts {
  import opened Wrappers
  import opened Registry
  import opened BasicLexer
  import opened BasicAst
  import opened Backend
  import opened Emission
  import opened BasicIrGen

  /**
   * Every variable of `e` is bound and every call names a registered
   * prototype with as many parameters as it has arguments.
   */
  predicate WellScoped(e: Expr, bindings: map<string, Value>, registry: map<string, Prototype>)
  {
    match e
    case Binary(lhs, _, rhs) => WellScoped(lhs, bindings, registry) && WellScoped(rhs, bindings, registry)
    case Call(name, args) =>
      && name in registry && |registry[name].params| == |args|
      && forall k :: 0 <= k < |args| ==> WellScoped(args[k], bindings, registry)
    case Variable(name) => name in bindings
    case Number(_) => true
  }

  /** An expression emits without throwing exactly when it is well scoped. */
  lemma {:induction false} EmitsIffWellScoped(e: Expr, bindings: map<string, Value>, registry: map<string, Prototype>, s: ModuleState)
    requires s.Positioned()
    ensures ExprEmission(e, bindings, registry, s).0.Ok? <==> WellScoped(e, bindings, registry)
    decreases e, 1
  {
    match e
    case Binary(lhs, _, rhs) =>
      EmitsIffWellScoped(lhs, bindings, registry, s);
      var (l, s1) := ExprEmission(lhs, bindings, registry, s);
      if l.Ok? {
        EmitsIffWellScoped(rhs, bindings, registry, s1);
      }
    case Call(name, args) =>
      if name in registry && |registry[name].params| == |args| {
        ArgsEmitIffWellScoped(args, 0, [], bindings, registry, s);
      }
    case Variable(_) =>
    case Number(_) =>
  }

  lemma {:induction false} ArgsEmitIffWellScoped(args: seq<Expr>, i: nat, vals: seq<Value>, bindings: map<string, Value>, registry: map<string, Prototype>, s: ModuleState)
    requires i <= |args| && s.Positioned()
    ensures ArgsEmission(args, i, vals, bindings, registry, s).0.Ok? <==>
      forall k :: i <= k < |args| ==> WellScoped(args[k], bindings, registry)
    decreases args, |args| - i
  {
    if i < |args| {
      EmitsIffWellScoped(args[i], bindings, registry, s);
      var (v, s1) := ExprEmission(args[i], bindings, registry, s);
      if v.Ok? {
        ArgsEmitIffWellScoped(args, i + 1, vals + [v.value], bindings, registry, s1);
      }
    }
  }

  /**
   * A call is checked before any argument is emitted: an unknown callee
   * throws `unknownFunction`, then a count mismatch throws `arityMismatch`
   * with the prototype's and the call's counts, and in both cases the
   * module is untouched. A call that emits ends with one call instruction,
   * to a function of the prototype's name, with one value per argument.
   */
  lemma CallChecks(name: string, args: seq<Expr>, bindings: map<string, Value>, registry: map<string, Prototype>, s: ModuleState)
    requires s.Positioned()
    ensures var (r, s1) := ExprEmission(Call(name, args), bindings, registry, s);
      && (name !in registry ==> r == Threw(UnknownFunction(name)) && s1 == s)
      && (name in registry && |registry[name].params| != |args| ==>
            r == Threw(ArityMismatch(name, |registry[name].params|, |args|)) && s1 == s)
      && (r.Ok? ==>
            && |s1.instructions| > |s.instructions|
            && r.value == Result(|s1.instructions| - 1)
            && var last := s1.instructions[|s1.instructions| - 1].instruction;
            && last.CallFunction? && |last.args| == |args|
            && last.callee < |s1.functions| && s1.functions[last.callee].name == registry[name].name)
  {
    if name in registry && |registry[name].params| == |args| {
      var (vs, s1) := ArgsEmission(args, 0, [], bindings, registry, s);
      if vs.Ok? {
        DeclareShape(s1, registry[name]);
      }
    }
  }

  /** Of the two operands of a binary operator, the left one's error is the one thrown. */
  lemma LeftOperandFirst(lhs: Expr, op: BinaryOperator, rhs: Expr, bindings: map<string, Value>, registry: map<string, Prototype>, s: ModuleState)
    requires s.Positioned()
    ensures var (l, s1) := ExprEmission(lhs, bindings, registry, s);
      !l.Ok? ==> ExprEmission(Binary(lhs, op, rhs), bindings, registry, s) == (l, s1)
    ensures var (l, s1) := ExprEmission(lhs, bindings, registry, s);
      l.Ok? ==> ExprEmission(Binary(lhs, op, rhs), bindings, registry, s).0.Ok? == ExprEmission(rhs, bindings, registry, s1).0.Ok?
  {
  }

  /**
   * `emitBinary` maps the five operators one-to-one onto instructions: each
   * appends exactly one instruction on the two operands to the insertion
   * block and yields its value, and two operators emit the same module
   * exactly when they are the same operator.
   */
  lemma OperatorsOneToOne(op1: BinaryOperator, op2: BinaryOperator, l: Value, r: Value, s: ModuleState)
    requires s.Positioned()
    ensures var (s1, v) := OperatorEmission(op1, l, r, s);
      && s1 == s.(instructions := s1.instructions)
      && |s1.instructions| == |s.instructions| + 1 && s.instructions < s1.instructions
      && v == Result(|s.instructions|)
      && s1.instructions[|s.instructions|].block == s.insertBlock.value
      && s1.instructions[|s.instructions|].instruction.lhs == l
      && s1.instructions[|s.instructions|].instruction.rhs == r
    ensures OperatorEmission(op1, l, r, s).0 == OperatorEmission(op2, l, r, s).0 <==> op1 == op2
  {
    if op1 != op2 {
      var n := |s.instructions|;
      assert OperatorEmission(op1, l, r, s).0.instructions[n] != OperatorEmission(op2, l, r, s).0.instructions[n];
    }
  }

  /**
   * `emitDefinition` traps exactly when the module already has a function
   * of that name with fewer parameters than the prototype has names; a
   * newly declared function never traps. After a body that emits, the
   * result is the declared function and `withScope` has put the earlier
   * bindings back; after a throw, the parameters stay bound on top of
   * them. It emits exactly when the body is well scoped under the earlier
   * bindings with the parameters added.
   */
  lemma DefinitionScope(d: Definition, bindings: map<string, Value>, registry: map<string, Prototype>, s: ModuleState)
    ensures var (r, b, _) := DefinitionEmission(d, bindings, registry, s);
      var (s1, f) := DeclarePrototype(s, d.prototype);
      && (r.Trapped? <==> |d.prototype.params| > s1.functions[f].Arity())
      && (s.FunctionNamed(d.prototype.name).None? ==> !r.Trapped?)
      && (r.Ok? ==> r.value == f && b == bindings)
      && (r.Threw? ==> b == Bound(bindings, d.prototype.params, f))
      && (r.Ok? <==> !r.Trapped? && WellScoped(d.expr, Bound(bindings, d.prototype.params, f), registry))
  {
    var params := d.prototype.params;
    var (s1, f) := DeclarePrototype(s, d.prototype);
    DeclareShape(s, d.prototype);
    var arity := s1.functions[f].Arity();
    BindDone(bindings, params, 0, f, arity);
    if |params| <= arity {
      BindUpTo(bindings, params, |params|, f, arity);
      assert params[..|params|] == params;
      var (s2, entry) := s1.AppendBlock(f, "entry");
      EmitsIffWellScoped(d.expr, Bound(bindings, params, f), registry, s2.PositionAtEnd(entry));
    }
  }

  /** The names of the functions the calls in `e` declare. */
  function CalledNames(e: Expr, registry: map<string, Prototype>): (r: set<string>)
    decreases e, 1
  {
    match e
    case Binary(lhs, _, rhs) => CalledNames(lhs, registry) + CalledNames(rhs, registry)
    case Call(name, args) =>
      (if name in registry then {registry[name].name} else {}) + ArgsCalledNames(args, 0, registry)
    case Variable(_) => {}
    case Number(_) => {}
  }

  function ArgsCalledNames(args: seq<Expr>, i: nat, registry: map<string, Prototype>): (r: set<string>)
    requires i <= |args|
    decreases args, |args| - i
  {
    if i == |args| then {} else CalledNames(args[i], registry) + ArgsCalledNames(args, i + 1, registry)
  }

  /** Every function `later` has beyond those of `earlier` has a name in `names`. */
  predicate AddsOnly(earlier: ModuleState, later: ModuleState, names: set<string>)
  {
    forall k :: |earlier.functions| <= k < |later.functions| ==> later.functions[k].name in names
  }

  lemma AddsOnlyChain(a: ModuleState, b: ModuleState, c: ModuleState, n1: set<string>, n2: set<string>)
    requires a.Extends(b) && b.Extends(c) && AddsOnly(a, b, n1) && AddsOnly(b, c, n2)
    ensures AddsOnly(a, c, n1 + n2)
  {
    forall k | |a.functions| <= k < |c.functions|
      ensures c.functions[k].name in n1 + n2
    {
      if k < |b.functions| {
        assert c.functions[k] == b.functions[k];
      }
    }
  }

  /** Emitting an expression declares only functions it calls. */
  lemma {:induction false} ExprDeclaresOnlyCalled(e: Expr, bindings: map<string, Value>, registry: map<string, Prototype>, s: ModuleState)
    requires s.Positioned()
    ensures AddsOnly(s, ExprEmission(e, bindings, registry, s).1, CalledNames(e, registry))
    decreases e, 1
  {
    match e
    case Binary(lhs, _, rhs) =>
      ExprDeclaresOnlyCalled(lhs, bindings, registry, s);
      var (l, s1) := ExprEmission(lhs, bindings, registry, s);
      if l.Ok? {
        ExprDeclaresOnlyCalled(rhs, bindings, registry, s1);
        var s2 := ExprEmission(rhs, bindings, registry, s1).1;
        AddsOnlyChain(s, s1, s2, CalledNames(lhs, registry), CalledNames(rhs, registry));
      }
    case Call(name, args) =>
      if name in registry && |registry[name].params| == |args| {
        ArgsDeclareOnlyCalled(args, 0, [], bindings, registry, s);
        var (vs, s1) := ArgsEmission(args, 0, [], bindings, registry, s);
        if vs.Ok? {
          DeclareShape(s1, registry[name]);
          var s3 := ExprEmission(e, bindings, registry, s).1;
          AddsOnlyChain(s, s1, s3, ArgsCalledNames(args, 0, registry), {registry[name].name});
        }
      }
    case Variable(_) =>
    case Number(_) =>
  }

  lemma {:induction false} ArgsDeclareOnlyCalled(args: seq<Expr>, i: nat, vals: seq<Value>, bindings: map<string, Value>, registry: map<string, Prototype>, s: ModuleState)
    requires i <= |args| && s.Positioned()
    ensures AddsOnly(s, ArgsEmission(args, i, vals, bindings, registry, s).1, ArgsCalledNames(args, i, registry))
    decreases args, |args| - i
  {
    if i < |args| {
      ExprDeclaresOnlyCalled(args[i], bindings, registry, s);
      var (v, s1) := ExprEmission(args[i], bindings, registry, s);
      if v.Ok? {
        ArgsDeclareOnlyCalled(args, i + 1, vals + [v.value], bindings, registry, s1);
        var s2 := ArgsEmission(args, i + 1, vals + [v.value], bindings, registry, s1).1;
        AddsOnlyChain(s, s1, s2, CalledNames(args[i], registry), ArgsCalledNames(args, i + 1, registry));
      }
    }
  }

  /** A definition declares only itself and the functions its body calls. */
  lemma DefinitionDeclaresOnly(d: Definition, bindings: map<string, Value>, registry: map<string, Prototype>, s: ModuleState)
    ensures var s1 := DefinitionEmission(d, bindings, registry, s).2;
      s.Extends(s1) && AddsOnly(s, s1, {d.prototype.name} + CalledNames(d.expr, registry))
  {
    var (s1, f) := DeclarePrototype(s, d.prototype);
    DeclareShape(s, d.prototype);
    var (done, b1) := BindFrom(bindings, d.prototype.params, 0, f, s1.functions[f].Arity());
    if done {
      var (s2, entry) := s1.AppendBlock(f, "entry");
      var s3 := s2.PositionAtEnd(entry);
      ExprDeclaresOnlyCalled(d.expr, b1, registry, s3);
      var s4 := ExprEmission(d.expr, b1, registry, s3).1;
      AddsOnlyChain(s, s1, s4, {d.prototype.name}, CalledNames(d.expr, registry));
    }
  }

  /** The names of definitions `j` on, and of the functions their bodies call. */
  function DefinitionsNames(defs: seq<Definition>, j: nat, registry: map<string, Prototype>): (r: set<string>)
    requires j <= |defs|
    decreases |defs| - j
  {
    if j == |defs| then {} else {defs[j].prototype.name} + CalledNames(defs[j].expr, registry) + DefinitionsNames(defs, j + 1, registry)
  }

  /**
   * `emit()` declares only the definitions and the functions their bodies
   * call, whether or not it stops early; it restores the bindings it
   * started with when every definition emits.
   */
  lemma {:induction false} EmitDeclaresLazily(defs: seq<Definition>, j: nat, bindings: map<string, Value>, registry: map<string, Prototype>, s: ModuleState)
    requires j <= |defs|
    ensures var (r, b, s1) := DefinitionsEmission(defs, j, bindings, registry, s);
      && s.Extends(s1) && AddsOnly(s, s1, DefinitionsNames(defs, j, registry))
      && (r.Ok? ==> b == bindings)
    decreases |defs| - j
  {
    if j < |defs| {
      DefinitionDeclaresOnly(defs[j], bindings, registry, s);
      DefinitionScope(defs[j], bindings, registry, s);
      var (d, b1, s1) := DefinitionEmission(defs[j], bindings, registry, s);
      if d.Ok? {
        EmitDeclaresLazily(defs, j + 1, b1, registry, s1);
        var s2 := DefinitionsEmission(defs, j + 1, b1, registry, s1).2;
        AddsOnlyChain(s, s1, s2, {defs[j].prototype.name} + CalledNames(defs[j].expr, registry), DefinitionsNames(defs, j + 1, registry));
      }
    }
  }

  /**
   * On a fresh module, an extern that no definition calls and that no
   * definition shares a name with is never declared.
   */
  lemma UncalledExternNotDeclared(defs: seq<Definition>, registry: map<string, Prototype>, name: string)
    requires name !in DefinitionsNames(defs, 0, registry)
    ensures DefinitionsEmission(defs, 0, map[], registry, EmptyModule).2.FunctionNamed(name).None?
  {
    EmitDeclaresLazily(defs, 0, map[], registry, EmptyModule);
  }
}
