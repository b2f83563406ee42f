/**
 * What the extended IR generator promises, stated about the functions of
 * `ExtIrGen` that its methods are proved equal to.
 */
module ExtIrFacts {
  import opened Wrappers
  import opened Registry
  import opened ExtLexer
  import opened ExtAst
  import opened Backend
  import opened Emission
  import opened ExtIrGen

  /**
   * Every variable of `e` is bound and every call names a registered
   * prototype with as many parameters as it has arguments.
   */
  predicate WellScoped(e: Expr, bindings: map<string, Value>, registry: map<string, Prototype>)
  {
    match e
    case Variable(name) => name in bindings
    case Number(_) => true
    case Binary(lhs, _, rhs) => WellScoped(lhs, bindings, registry) && WellScoped(rhs, bindings, registry)
    case Call(name, args) =>
      && name in registry && |registry[name].params| == |args|
      && forall k :: 0 <= k < |args| ==> WellScoped(args[k], bindings, registry)
    case IfElse(cond, thenExpr, elseExpr) =>
      WellScoped(cond, bindings, registry) && WellScoped(thenExpr, bindings, registry) && WellScoped(elseExpr, bindings, registry)
  }

  /** An expression emits without throwing exactly when it is well scoped. */
  lemma {:induction false} EmitsIffWellScoped(e: Expr, bindings: map<string, Value>, registry: map<string, Prototype>, s: ModuleState, rule: PhiRule)
    requires s.Positioned()
    ensures ExprEmission(e, bindings, registry, s, rule).0.Ok? <==> WellScoped(e, bindings, registry)
    decreases e, 2
  {
    match e
    case Variable(_) =>
    case Number(_) =>
    case Binary(lhs, _, rhs) =>
      EmitsIffWellScoped(lhs, bindings, registry, s, rule);
      var (l, s1) := ExprEmission(lhs, bindings, registry, s, rule);
      if l.Ok? {
        EmitsIffWellScoped(rhs, bindings, registry, s1, rule);
      }
    case Call(name, args) =>
      if name in registry && |registry[name].params| == |args| {
        ArgsEmitIffWellScoped(args, 0, [], bindings, registry, s, rule);
      }
    case IfElse(_, _, _) =>
      IfElseEmitsIffWellScoped(e, bindings, registry, s, rule);
  }

  lemma {:induction false} ArgsEmitIffWellScoped(args: seq<Expr>, i: nat, vals: seq<Value>, bindings: map<string, Value>, registry: map<string, Prototype>, s: ModuleState, rule: PhiRule)
    requires i <= |args| && s.Positioned()
    ensures ArgsEmission(args, i, vals, bindings, registry, s, rule).0.Ok? <==>
      forall k :: i <= k < |args| ==> WellScoped(args[k], bindings, registry)
    decreases args, |args| - i
  {
    if i < |args| {
      EmitsIffWellScoped(args[i], bindings, registry, s, rule);
      var (v, s1) := ExprEmission(args[i], bindings, registry, s, rule);
      if v.Ok? {
        ArgsEmitIffWellScoped(args, i + 1, vals + [v.value], bindings, registry, s1, rule);
      }
    }
  }

  lemma {:induction false} IfElseEmitsIffWellScoped(e: Expr, bindings: map<string, Value>, registry: map<string, Prototype>, s: ModuleState, rule: PhiRule)
    requires e.IfElse? && s.Positioned()
    ensures IfElseEmission(e, bindings, registry, s, rule).0.Ok? <==> WellScoped(e, bindings, registry)
    decreases e, 1
  {
    EmitsIffWellScoped(e.cond, bindings, registry, s, rule);
    var (c, s1) := ExprEmission(e.cond, bindings, registry, s, rule);
    if c.Ok? {
      var (s2, check) := s1.Build(FCmp(c.value, Zero, OrderedNotEqual));
      var fn := s2.CurrentFunction();
      var (s3, thenBB) := s2.AppendBlock(fn, "then");
      var (s4, elseBB) := s3.AppendBlock(fn, "else");
      var (s5, mergeBB) := s4.AppendBlock(fn, "merge");
      var (s6, _) := s5.Build(CondBr(check, thenBB, elseBB));
      ArmsEmitIffWellScoped(e, thenBB, elseBB, mergeBB, bindings, registry, s6, rule);
    }
  }

  lemma {:induction false} ArmsEmitIffWellScoped(e: Expr, thenBB: nat, elseBB: nat, mergeBB: nat, bindings: map<string, Value>, registry: map<string, Prototype>, s: ModuleState, rule: PhiRule)
    requires e.IfElse? && s.Positioned() && thenBB < |s.blocks| && elseBB < |s.blocks| && mergeBB < |s.blocks|
    ensures ArmsEmission(e, thenBB, elseBB, mergeBB, bindings, registry, s, rule).0.Ok? <==>
      WellScoped(e.thenExpr, bindings, registry) && WellScoped(e.elseExpr, bindings, registry)
    decreases e, 0
  {
    EmitsIffWellScoped(e.thenExpr, bindings, registry, s.PositionAtEnd(thenBB), rule);
    var (t, s1) := ExprEmission(e.thenExpr, bindings, registry, s.PositionAtEnd(thenBB), rule);
    if t.Ok? {
      var (s2, _) := s1.Build(Br(mergeBB));
      EmitsIffWellScoped(e.elseExpr, bindings, registry, s2.PositionAtEnd(elseBB), rule);
    }
  }

  /**
   * `.ifelse` once its condition has emitted the value `c`: the condition
   * is compared `c != 0.0` (ordered), blocks `then`, `else` and `merge`
   * are appended to the current function, and a conditional branch goes to
   * `then` or `else`; the rest is the arms (`ArmsShape`) from that module.
   */
  lemma IfElseShape(e: Expr, bindings: map<string, Value>, registry: map<string, Prototype>, s: ModuleState)
    requires e.IfElse? && s.Positioned()
    ensures var (c, s1) := ExprEmission(e.cond, bindings, registry, s, CreatedBlocks);
      c.Ok? ==>
        var n, b, at, fn := |s1.instructions|, |s1.blocks|, s1.insertBlock.value, s1.CurrentFunction();
        var branched := IfElseOpening(c.value, s1);
        && branched.functions == s1.functions && branched.insertBlock == s1.insertBlock
        && branched.instructions == s1.instructions + [Placed(at, FCmp(c.value, Zero, OrderedNotEqual)), Placed(at, CondBr(Result(n), b, b + 1))]
        && branched.blocks == s1.blocks + [Block(fn, "then"), Block(fn, "else"), Block(fn, "merge")]
        && IfElseEmission(e, bindings, registry, s, CreatedBlocks) == ArmsEmission(e, b, b + 1, b + 2, bindings, registry, branched, CreatedBlocks)
  {
    IfElseOpens(e, bindings, registry, s);
  }

  /** The module once `.ifelse` has compared its condition `c`, appended its three blocks and branched. */
  function IfElseOpening(c: Value, s1: ModuleState): (r: ModuleState)
    requires s1.Positioned()
    ensures r.Positioned() && |r.blocks| == |s1.blocks| + 3
  {
    var n, b, at, fn := |s1.instructions|, |s1.blocks|, s1.insertBlock.value, s1.CurrentFunction();
    ModuleState(s1.functions, s1.blocks + [Block(fn, "then"), Block(fn, "else"), Block(fn, "merge")],
      s1.instructions + [Placed(at, FCmp(c, Zero, OrderedNotEqual)), Placed(at, CondBr(Result(n), b, b + 1))], Some(at))
  }

  /** The builder steps between the condition and the arms of `.ifelse` produce `IfElseOpening`. */
  lemma OpeningSteps(c: Value, s1: ModuleState)
    requires s1.Positioned()
    ensures var (s2, check) := s1.Build(FCmp(c, Zero, OrderedNotEqual));
      var fn := s2.CurrentFunction();
      var (s3, thenBB) := s2.AppendBlock(fn, "then");
      var (s4, elseBB) := s3.AppendBlock(fn, "else");
      var (s5, mergeBB) := s4.AppendBlock(fn, "merge");
      && thenBB == |s1.blocks| && elseBB == thenBB + 1 && mergeBB == thenBB + 2
      && s5.Build(CondBr(check, thenBB, elseBB)).0 == IfElseOpening(c, s1)
  {
    var (s2, check) := s1.Build(FCmp(c, Zero, OrderedNotEqual));
    var fn := s2.CurrentFunction();
    assert fn == s1.CurrentFunction();
    var (s3, thenBB) := s2.AppendBlock(fn, "then");
    var (s4, elseBB) := s3.AppendBlock(fn, "else");
    var (s5, mergeBB) := s4.AppendBlock(fn, "merge");
    var (s6, _) := s5.Build(CondBr(check, thenBB, elseBB));
    assert s6.blocks == s1.blocks + [Block(fn, "then"), Block(fn, "else"), Block(fn, "merge")];
    assert s6.instructions == s1.instructions + [Placed(s1.insertBlock.value, FCmp(c, Zero, OrderedNotEqual)),
      Placed(s1.insertBlock.value, CondBr(check, thenBB, elseBB))];
  }

  /** Once the condition emits, `.ifelse` goes on with its arms from `IfElseOpening`. */
  lemma IfElseOpens(e: Expr, bindings: map<string, Value>, registry: map<string, Prototype>, s: ModuleState)
    requires e.IfElse? && s.Positioned()
    ensures var (c, s1) := ExprEmission(e.cond, bindings, registry, s, CreatedBlocks);
      c.Ok? ==>
        var b := |s1.blocks|;
        IfElseEmission(e, bindings, registry, s, CreatedBlocks)
          == ArmsEmission(e, b, b + 1, b + 2, bindings, registry, IfElseOpening(c.value, s1), CreatedBlocks)
  {
    var (c, s1) := ExprEmission(e.cond, bindings, registry, s, CreatedBlocks);
    if c.Ok? {
      OpeningSteps(c.value, s1);
    }
  }

  /**
   * The arms of `.ifelse`: the then arm is emitted from the start of
   * `thenBB` and closed by a branch to `mergeBB`, then the else arm from
   * the start of `elseBB`, closed the same way. When both emit, the
   * builder ends in `mergeBB` after a phi that takes the then value from
   * `thenBB` and the else value from `elseBB`, and the blocks where the
   * arms finished both branch to `mergeBB`.
   */
  lemma ArmsShape(e: Expr, thenBB: nat, elseBB: nat, mergeBB: nat, bindings: map<string, Value>, registry: map<string, Prototype>, s: ModuleState)
    requires e.IfElse? && s.Positioned() && thenBB < |s.blocks| && elseBB < |s.blocks| && mergeBB < |s.blocks|
    ensures var (r, s5) := ArmsEmission(e, thenBB, elseBB, mergeBB, bindings, registry, s, CreatedBlocks);
      var (t, s1) := ExprEmission(e.thenExpr, bindings, registry, s.PositionAtEnd(thenBB), CreatedBlocks);
      r.Ok? ==>
        && t.Ok?
        && var elseStart := s1.Build(Br(mergeBB)).0.PositionAtEnd(elseBB);
           var (f, s3) := ExprEmission(e.elseExpr, bindings, registry, elseStart, CreatedBlocks);
           && f.Ok?
           && s5.insertBlock == Some(mergeBB) && r.value == Result(|s5.instructions| - 1)
           && s5.instructions == s3.instructions + [Placed(s3.insertBlock.value, Br(mergeBB)), Placed(mergeBB, Phi([(t.value, thenBB), (f.value, elseBB)]))]
           && s5.BranchesTo(s1.insertBlock.value, mergeBB) && s5.BranchesTo(s3.insertBlock.value, mergeBB)
  {
    var (t, s1) := ExprEmission(e.thenExpr, bindings, registry, s.PositionAtEnd(thenBB), CreatedBlocks);
    if t.Ok? {
      var (s2, _) := s1.Build(Br(mergeBB));
      BranchBuilt(s1, mergeBB);
      var (f, s3) := ExprEmission(e.elseExpr, bindings, registry, s2.PositionAtEnd(elseBB), CreatedBlocks);
      if f.Ok? {
        ArmsClose(t.value, thenBB, s1.insertBlock.value, s2, f.value, elseBB, s3, mergeBB);
      }
    }
  }

  /**
   * Closing the arms: once the then arm's final block branches to `merge`,
   * the branch from the else arm's final block and the phi naming the
   * created blocks leave the builder in `merge` after that phi, with both
   * final blocks branching to `merge`.
   */
  lemma ArmsClose(tv: Value, thenBB: nat, thenEnd: nat, s2: ModuleState, fv: Value, elseBB: nat, s3: ModuleState, mergeBB: nat)
    requires s3.Positioned() && s2.Extends(s3) && s2.BranchesTo(thenEnd, mergeBB) && mergeBB < |s3.blocks|
    ensures var s4 := s3.Build(Br(mergeBB)).0;
      var (s5, phi) := s4.PositionAtEnd(mergeBB).Build(Phi([(tv, thenBB), (fv, elseBB)]));
      && s5.insertBlock == Some(mergeBB) && phi == Result(|s5.instructions| - 1)
      && s5.instructions == s3.instructions + [Placed(s3.insertBlock.value, Br(mergeBB)), Placed(mergeBB, Phi([(tv, thenBB), (fv, elseBB)]))]
      && s5.BranchesTo(thenEnd, mergeBB) && s5.BranchesTo(s3.insertBlock.value, mergeBB)
  {
    var s4 := s3.Build(Br(mergeBB)).0;
    BranchBuilt(s3, mergeBB);
    var s5 := s4.PositionAtEnd(mergeBB).Build(Phi([(tv, thenBB), (fv, elseBB)])).0;
    BranchesPersist(s2, s5, thenEnd, mergeBB);
    BranchesPersist(s4, s5, s3.insertBlock.value, mergeBB);
  }

  /**
   * A call is checked before any argument is emitted: an unknown callee
   * throws `unknownFunction`, then a count mismatch throws
   * `wrongNumberOfArgs` with the prototype's and the call's counts, and in
   * both cases the module is untouched. A call that emits ends with one
   * call instruction, to a function of that name, with one value per
   * argument.
   */
  lemma CallChecks(name: string, args: seq<Expr>, bindings: map<string, Value>, registry: map<string, Prototype>, s: ModuleState, rule: PhiRule)
    requires s.Positioned()
    ensures var (r, s1) := ExprEmission(Call(name, args), bindings, registry, s, rule);
      && (name !in registry ==> r == Threw(UnknownFunction(name)) && s1 == s)
      && (name in registry && |registry[name].params| != |args| ==>
            r == Threw(WrongNumberOfArgs(name, |registry[name].params|, |args|)) && s1 == s)
      && (r.Ok? ==>
            && |s1.instructions| > |s.instructions|
            && r.value == Result(|s1.instructions| - 1)
            && var last := s1.instructions[|s1.instructions| - 1].instruction;
            && last.CallFunction? && |last.args| == |args|
            && last.callee < |s1.functions| && s1.functions[last.callee].name == registry[name].name)
  {
    if name in registry && |registry[name].params| == |args| {
      var (vs, s1) := ArgsEmission(args, 0, [], bindings, registry, s, rule);
      if vs.Ok? {
        DeclareShape(s1, registry[name]);
      }
    }
  }

  /** Of the two operands of a binary operator, the left one's error is the one thrown. */
  lemma LeftOperandFirst(lhs: Expr, op: BinaryOperator, rhs: Expr, bindings: map<string, Value>, registry: map<string, Prototype>, s: ModuleState, rule: PhiRule)
    requires s.Positioned()
    ensures var (l, s1) := ExprEmission(lhs, bindings, registry, s, rule);
      !l.Ok? ==> ExprEmission(Binary(lhs, op, rhs), bindings, registry, s, rule) == (l, s1)
    ensures var (l, s1) := ExprEmission(lhs, bindings, registry, s, rule);
      l.Ok? ==> ExprEmission(Binary(lhs, op, rhs), bindings, registry, s, rule).0.Ok? == ExprEmission(rhs, bindings, registry, s1, rule).0.Ok?
  {
  }

  /**
   * An operator appends to the insertion block and yields the last
   * instruction's value: one arithmetic instruction on the two operands, or
   * for `==` an ordered-equal comparison followed by its unsigned
   * conversion to double.
   */
  lemma OperatorAppends(op: BinaryOperator, l: Value, r: Value, s: ModuleState)
    requires s.Positioned()
    ensures var (s1, v) := OperatorEmission(op, l, r, s);
      && s1 == s.(instructions := s1.instructions)
      && s.instructions < s1.instructions
      && v == Result(|s1.instructions| - 1)
      && (forall k :: |s.instructions| <= k < |s1.instructions| ==> s1.instructions[k].block == s.insertBlock.value)
      && (op.Equals? <==> |s1.instructions| == |s.instructions| + 2)
      && (op.Equals? ==>
            && s1.instructions[|s.instructions|].instruction == FCmp(l, r, OrderedEqual)
            && s1.instructions[|s.instructions| + 1].instruction == UIToFP(Result(|s.instructions|)))
      && (!op.Equals? ==>
            var i := s1.instructions[|s.instructions|].instruction;
            && (i.FAdd? || i.FSub? || i.FMul? || i.FDiv? || i.FRem?)
            && i.lhs == l && i.rhs == r)
  {
  }

  /** Different operators emit different instructions. */
  lemma OperatorsDistinct(op1: BinaryOperator, op2: BinaryOperator, l: Value, r: Value, s: ModuleState)
    requires s.Positioned() && op1 != op2
    ensures OperatorEmission(op1, l, r, s).0 != OperatorEmission(op2, l, r, s).0
  {
    var n := |s.instructions|;
    var a := OperatorEmission(op1, l, r, s).0.instructions;
    var b := OperatorEmission(op2, l, r, s).0.instructions;
    assert a[n] != b[n] || |a| != |b|;
  }

  /**
   * `emitDefinition` traps exactly when the module already has a function
   * of that name with fewer parameters than the prototype has names; a
   * newly declared function never traps. After a body that emits, the
   * result is the declared function and the bindings are empty; after a
   * throw, the bindings keep the parameters. It emits exactly when the
   * body is well scoped under the bindings with the parameters added.
   */
  lemma DefinitionBindings(d: Definition, bindings: map<string, Value>, registry: map<string, Prototype>, s: ModuleState)
    ensures var (r, b, _) := DefinitionEmission(d, bindings, registry, s);
      var (s1, f) := DeclarePrototype(s, d.prototype);
      && (r.Trapped? <==> |d.prototype.params| > s1.functions[f].Arity())
      && (s.FunctionNamed(d.prototype.name).None? ==> !r.Trapped?)
      && (r.Ok? ==> r.value == f && b == map[])
      && (r.Threw? ==> b == Bound(bindings, d.prototype.params, f))
      && (r.Ok? <==> !r.Trapped? && WellScoped(d.expr, Bound(bindings, d.prototype.params, f), registry))
  {
    var params := d.prototype.params;
    var (s1, f) := DeclarePrototype(s, d.prototype);
    DeclareShape(s, d.prototype);
    var arity := s1.functions[f].Arity();
    BindDone(bindings, params, 0, f, arity);
    if |params| <= arity {
      BindUpTo(bindings, params, |params|, f, arity);
      assert params[..|params|] == params;
      var (s2, entry) := s1.AppendBlock(f, "entry");
      EmitsIffWellScoped(d.expr, Bound(bindings, params, f), registry, s2.PositionAtEnd(entry), CreatedBlocks);
    }
  }

  /**
   * Declaring the externs keeps the blocks, the instructions and the
   * insertion point, keeps every function already found by name, and
   * leaves each extern's name declared.
   */
  lemma {:induction false} ExternsDeclared(externs: seq<Prototype>, i: nat, s: ModuleState)
    requires i <= |externs|
    ensures var s1 := ExternsDeclaration(externs, i, s);
      && s.Extends(s1) && s1.blocks == s.blocks && s1.instructions == s.instructions && s1.insertBlock == s.insertBlock
      && (forall name :: s.FunctionNamed(name).Some? ==> s1.FunctionNamed(name) == s.FunctionNamed(name))
      && (forall k :: i <= k < |externs| ==> s1.FunctionNamed(externs[k].name).Some?)
    decreases |externs| - i
  {
    if i < |externs| {
      var s0 := DeclarePrototype(s, externs[i]).0;
      DeclareShape(s, externs[i]);
      ExternsDeclared(externs, i + 1, s0);
      var s1 := ExternsDeclaration(externs, i, s);
      forall name | s.FunctionNamed(name).Some?
        ensures s1.FunctionNamed(name) == s.FunctionNamed(name)
      {
        FunctionNamedPersists(s, s0, name);
      }
    }
  }

  /** A definition only adds to the module. */
  lemma DefinitionExtends(d: Definition, bindings: map<string, Value>, registry: map<string, Prototype>, s: ModuleState)
    ensures var (r, _, s1) := DefinitionEmission(d, bindings, registry, s);
      s.Extends(s1) && s1.FunctionNamed(d.prototype.name).Some?
  {
    DeclareShape(s, d.prototype);
    var (s0, f) := DeclarePrototype(s, d.prototype);
    FunctionNamedPersists(s0, DefinitionEmission(d, bindings, registry, s).2, d.prototype.name);
  }

  /**
   * Definitions are emitted in order until the first one that fails; when
   * none fails, each definition's name is declared and the bindings end
   * empty (or as they began, when there are no definitions).
   */
  lemma {:induction false} DefinitionsDeclared(defs: seq<Definition>, j: nat, bindings: map<string, Value>, registry: map<string, Prototype>, s: ModuleState)
    requires j <= |defs|
    ensures var (r, b, s1) := DefinitionsEmission(defs, j, bindings, registry, s);
      && s.Extends(s1)
      && (r.Ok? ==> forall k :: j <= k < |defs| ==> s1.FunctionNamed(defs[k].prototype.name).Some?)
      && (r.Ok? && j < |defs| ==> b == map[])
    decreases |defs| - j
  {
    if j < |defs| {
      var (d, b1, s1) := DefinitionEmission(defs[j], bindings, registry, s);
      assert s.Extends(s1) && s1.FunctionNamed(defs[j].prototype.name).Some? by {
        DefinitionExtends(defs[j], bindings, registry, s);
      }
      if d.Ok? {
        assert b1 == map[] by {
          DefinitionBindings(defs[j], bindings, registry, s);
        }
        var (r, b, s2) := DefinitionsEmission(defs, j + 1, b1, registry, s1);
        assert DefinitionsEmission(defs, j, bindings, registry, s) == (r, b, s2);
        DefinitionsDeclared(defs, j + 1, b1, registry, s1);
        ExtendsTransitive(s, s1, s2);
        if r.Ok? {
          forall k | j <= k < |defs|
            ensures s2.FunctionNamed(defs[k].prototype.name).Some?
          {
            if k == j {
              FunctionNamedPersists(s1, s2, defs[j].prototype.name);
            }
          }
        }
      }
    }
  }

  /** The first definition that fails ends the loop, and its failure is the loop's. */
  lemma DefinitionsStopAtFailure(defs: seq<Definition>, j: nat, bindings: map<string, Value>, registry: map<string, Prototype>, s: ModuleState)
    requires j < |defs|
    ensures var (d, b1, s1) := DefinitionEmission(defs[j], bindings, registry, s);
      !d.Ok? ==> DefinitionsEmission(defs, j, bindings, registry, s) == (d.Propagate(), b1, s1)
  {
  }

  /** No value in these bindings is a global string. */
  predicate PlainBindings(bindings: map<string, Value>)
  {
    forall name :: name in bindings ==> !bindings[name].GlobalString?
  }

  /** A call whose first of two arguments is a global string: the shape of every print. */
  predicate Prints(i: Instruction)
  {
    i.CallFunction? && |i.args| == 2 && i.args[0].GlobalString?
  }

  /** The value an instruction prints through `printf` with format `text`: the second argument of that call. */
  function PrintedBy(i: Instruction, printf: nat, text: string): (r: seq<Value>)
  {
    if i.CallFunction? && i.callee == printf && |i.args| == 2 && i.args[0] == GlobalString(text) then [i.args[1]] else []
  }

  /** The values a list of instructions prints through `printf` with format `text`, in order. */
  function PrintedValues(instrs: seq<Placed>, printf: nat, text: string): (r: seq<Value>)
  {
    if instrs == [] then [] else PrintedValues(instrs[..|instrs| - 1], printf, text) + PrintedBy(instrs[|instrs| - 1].instruction, printf, text)
  }

  lemma PrintedAppend(instrs: seq<Placed>, p: Placed, printf: nat, text: string)
    ensures PrintedValues(instrs + [p], printf, text) == PrintedValues(instrs, printf, text) + PrintedBy(p.instruction, printf, text)
  {
    assert (instrs + [p])[..|instrs|] == instrs;
  }

  /** No instruction from position `from` on prints. */
  predicate PrintFree(instrs: seq<Placed>, from: nat)
  {
    forall k :: from <= k < |instrs| ==> !Prints(instrs[k].instruction)
  }

  lemma {:induction false} PrintFreeKeepsPrinted(a: seq<Placed>, b: seq<Placed>, printf: nat, text: string)
    requires a <= b && PrintFree(b, |a|)
    ensures PrintedValues(b, printf, text) == PrintedValues(a, printf, text)
    decreases |b|
  {
    if |b| > |a| {
      assert !Prints(b[|b| - 1].instruction);
      PrintFreeKeepsPrinted(a, b[..|b| - 1], printf, text);
    } else {
      assert a == b;
    }
  }

  lemma PrintFreeChain(a: seq<Placed>, b: seq<Placed>, c: seq<Placed>)
    requires a <= b <= c && PrintFree(b, |a|) && PrintFree(c, |b|)
    ensures PrintFree(c, |a|)
  {
    forall k | |a| <= k < |c|
      ensures !Prints(c[k].instruction)
    {
      if k < |b| {
        assert c[k] == b[k];
      }
    }
  }

  /**
   * An expression never yields a global string and never emits a call
   * whose first argument is one, so no expression prints.
   */
  lemma {:induction false} ExprPrintsNothing(e: Expr, bindings: map<string, Value>, registry: map<string, Prototype>, s: ModuleState, rule: PhiRule)
    requires s.Positioned() && PlainBindings(bindings)
    ensures var (r, s1) := ExprEmission(e, bindings, registry, s, rule);
      (r.Ok? ==> !r.value.GlobalString?) && PrintFree(s1.instructions, |s.instructions|)
    decreases e, 3
  {
    match e
    case Variable(_) =>
    case Number(_) =>
    case Binary(_, _, _) => BinaryPrintsNothing(e, bindings, registry, s, rule);
    case Call(_, _) => CallPrintsNothing(e, bindings, registry, s, rule);
    case IfElse(_, _, _) => IfElsePrintsNothing(e, bindings, registry, s, rule);
  }

  lemma {:induction false} BinaryPrintsNothing(e: Expr, bindings: map<string, Value>, registry: map<string, Prototype>, s: ModuleState, rule: PhiRule)
    requires e.Binary? && s.Positioned() && PlainBindings(bindings)
    ensures var (r, s1) := ExprEmission(e, bindings, registry, s, rule);
      (r.Ok? ==> !r.value.GlobalString?) && PrintFree(s1.instructions, |s.instructions|)
    decreases e, 2
  {
    ExprPrintsNothing(e.lhs, bindings, registry, s, rule);
    var (l, s1) := ExprEmission(e.lhs, bindings, registry, s, rule);
    if l.Ok? {
      ExprPrintsNothing(e.rhs, bindings, registry, s1, rule);
      var (rv, s2) := ExprEmission(e.rhs, bindings, registry, s1, rule);
      PrintFreeChain(s.instructions, s1.instructions, s2.instructions);
      if rv.Ok? {
        OperatorAppends(e.op, l.value, rv.value, s2);
        PrintFreeChain(s.instructions, s2.instructions, OperatorEmission(e.op, l.value, rv.value, s2).0.instructions);
      }
    }
  }

  lemma {:induction false} CallPrintsNothing(e: Expr, bindings: map<string, Value>, registry: map<string, Prototype>, s: ModuleState, rule: PhiRule)
    requires e.Call? && s.Positioned() && PlainBindings(bindings)
    ensures var (r, s1) := ExprEmission(e, bindings, registry, s, rule);
      (r.Ok? ==> !r.value.GlobalString?) && PrintFree(s1.instructions, |s.instructions|)
    decreases e, 2
  {
    var name, args := e.callee, e.args;
    if name in registry && |registry[name].params| == |args| {
      ArgsPrintNothing(args, 0, [], bindings, registry, s, rule);
      var (vs, s1) := ArgsEmission(args, 0, [], bindings, registry, s, rule);
      if vs.Ok? {
        var (s2, f) := DeclarePrototype(s1, registry[name]);
        DeclareShape(s1, registry[name]);
        var s3 := s2.Build(CallFunction(f, vs.value)).0;
        assert !Prints(CallFunction(f, vs.value)) by {
          if |vs.value| == 2 {
            assert !vs.value[0].GlobalString?;
          }
        }
        PrintFreeChain(s.instructions, s1.instructions, s3.instructions);
      }
    }
  }

  lemma {:induction false} ArgsPrintNothing(args: seq<Expr>, i: nat, vals: seq<Value>, bindings: map<string, Value>, registry: map<string, Prototype>, s: ModuleState, rule: PhiRule)
    requires i <= |args| && s.Positioned() && PlainBindings(bindings)
    requires forall k :: 0 <= k < |vals| ==> !vals[k].GlobalString?
    ensures var (r, s1) := ArgsEmission(args, i, vals, bindings, registry, s, rule);
      (r.Ok? ==> forall k :: 0 <= k < |r.value| ==> !r.value[k].GlobalString?) && PrintFree(s1.instructions, |s.instructions|)
    decreases args, |args| - i
  {
    if i < |args| {
      ExprPrintsNothing(args[i], bindings, registry, s, rule);
      var (v, s1) := ExprEmission(args[i], bindings, registry, s, rule);
      if v.Ok? {
        ArgsPrintNothing(args, i + 1, vals + [v.value], bindings, registry, s1, rule);
        PrintFreeChain(s.instructions, s1.instructions, ArgsEmission(args, i + 1, vals + [v.value], bindings, registry, s1, rule).1.instructions);
      }
    }
  }

  lemma {:induction false} IfElsePrintsNothing(e: Expr, bindings: map<string, Value>, registry: map<string, Prototype>, s: ModuleState, rule: PhiRule)
    requires e.IfElse? && s.Positioned() && PlainBindings(bindings)
    ensures var (r, s1) := IfElseEmission(e, bindings, registry, s, rule);
      (r.Ok? ==> !r.value.GlobalString?) && PrintFree(s1.instructions, |s.instructions|)
    decreases e, 2
  {
    ExprPrintsNothing(e.cond, bindings, registry, s, rule);
    var (c, s1) := ExprEmission(e.cond, bindings, registry, s, rule);
    if c.Ok? {
      var (s2, check) := s1.Build(FCmp(c.value, Zero, OrderedNotEqual));
      var fn := s2.CurrentFunction();
      var (s3, thenBB) := s2.AppendBlock(fn, "then");
      var (s4, elseBB) := s3.AppendBlock(fn, "else");
      var (s5, mergeBB) := s4.AppendBlock(fn, "merge");
      var (s6, _) := s5.Build(CondBr(check, thenBB, elseBB));
      PrintFreeChain(s.instructions, s1.instructions, s6.instructions);
      ArmsPrintNothing(e, thenBB, elseBB, mergeBB, bindings, registry, s6, rule);
      PrintFreeChain(s.instructions, s6.instructions, ArmsEmission(e, thenBB, elseBB, mergeBB, bindings, registry, s6, rule).1.instructions);
    }
  }

  lemma {:induction false} ArmsPrintNothing(e: Expr, thenBB: nat, elseBB: nat, mergeBB: nat, bindings: map<string, Value>, registry: map<string, Prototype>, s: ModuleState, rule: PhiRule)
    requires e.IfElse? && s.Positioned() && thenBB < |s.blocks| && elseBB < |s.blocks| && mergeBB < |s.blocks|
    requires PlainBindings(bindings)
    ensures var (r, s1) := ArmsEmission(e, thenBB, elseBB, mergeBB, bindings, registry, s, rule);
      (r.Ok? ==> !r.value.GlobalString?) && PrintFree(s1.instructions, |s.instructions|)
    decreases e, 1
  {
    ExprPrintsNothing(e.thenExpr, bindings, registry, s.PositionAtEnd(thenBB), rule);
    var (t, s1) := ExprEmission(e.thenExpr, bindings, registry, s.PositionAtEnd(thenBB), rule);
    if t.Ok? {
      var (s2, _) := s1.Build(Br(mergeBB));
      PrintFreeChain(s.instructions, s1.instructions, s2.instructions);
      ExprPrintsNothing(e.elseExpr, bindings, registry, s2.PositionAtEnd(elseBB), rule);
      var (f, s3) := ExprEmission(e.elseExpr, bindings, registry, s2.PositionAtEnd(elseBB), rule);
      PrintFreeChain(s.instructions, s2.instructions, s3.instructions);
      if f.Ok? {
        var (s4, _) := s3.Build(Br(mergeBB));
        var incoming := if rule == CreatedBlocks then [(t.value, thenBB), (f.value, elseBB)] else [(t.value, s1.insertBlock.value), (f.value, s3.insertBlock.value)];
        var s5 := s4.PositionAtEnd(mergeBB).Build(Phi(incoming)).0;
        PrintFreeChain(s.instructions, s3.instructions, s5.instructions);
      }
    }
  }

  /**
   * One turn of the loop of `emitMain`: from `before`, expression `e`
   * emits the value `v`, and `after` is the module reached with the call
   * `printf(text, v)` appended to the insertion block.
   */
  predicate PrintedOnce(e: Expr, v: Value, text: string, printf: nat, bindings: map<string, Value>, registry: map<string, Prototype>, before: ModuleState, after: ModuleState)
  {
    before.Positioned() &&
    var (r, s1) := ExprEmission(e, bindings, registry, before, CreatedBlocks);
    r == Ok(v) && after == s1.Build(CallFunction(printf, [GlobalString(text), v])).0
  }

  /**
   * The loop of `emitMain` run to the end over `exprs[i..]`: `states[k]`
   * is the module before expression `i + k`, `vs[k]` the value printed
   * for it, and every turn is `PrintedOnce`.
   */
  predicate PrintLoop(exprs: seq<Expr>, i: nat, text: string, printf: nat, bindings: map<string, Value>, registry: map<string, Prototype>, states: seq<ModuleState>, vs: seq<Value>)
  {
    && i <= |exprs| && |vs| == |exprs| - i && |states| == |vs| + 1 && states[|vs|].Positioned()
    && forall k :: 0 <= k < |vs| ==> PrintedOnce(exprs[i + k], vs[k], text, printf, bindings, registry, states[k], states[k + 1])
  }

  /** A turn followed by the loop from the next expression is the loop from this one. */
  lemma PrintLoopCons(exprs: seq<Expr>, i: nat, text: string, printf: nat, bindings: map<string, Value>, registry: map<string, Prototype>, v: Value, s: ModuleState, states: seq<ModuleState>, vs: seq<Value>)
    requires i < |exprs| && PrintLoop(exprs, i + 1, text, printf, bindings, registry, states, vs)
    requires PrintedOnce(exprs[i], v, text, printf, bindings, registry, s, states[0])
    ensures PrintLoop(exprs, i, text, printf, bindings, registry, [s] + states, [v] + vs)
  {
    var states', vs' := [s] + states, [v] + vs;
    forall k | 0 <= k < |vs'|
      ensures PrintedOnce(exprs[i + k], vs'[k], text, printf, bindings, registry, states'[k], states'[k + 1])
    {
      if k > 0 {
        assert exprs[i + k] == exprs[(i + 1) + (k - 1)];
        assert PrintedOnce(exprs[(i + 1) + (k - 1)], vs[k - 1], text, printf, bindings, registry, states[k - 1], states[k]);
      }
    }
  }

  /**
   * When the print loop from expression `i` finishes, it has emitted the
   * expressions of `exprs[i..]` in order, each followed by the call
   * `printf(text, v)` on the value `v` it emitted; those calls are the
   * only prints it added.
   */
  lemma {:induction false} PrintsInOrder(exprs: seq<Expr>, i: nat, text: string, printf: nat, bindings: map<string, Value>, registry: map<string, Prototype>, s: ModuleState)
    requires i <= |exprs| && s.Positioned() && PlainBindings(bindings)
    ensures var (r, s1) := PrintsEmission(exprs, i, GlobalString(text), printf, bindings, registry, s);
      r.Ok? ==>
        exists states: seq<ModuleState>, vs: seq<Value> ::
          && PrintLoop(exprs, i, text, printf, bindings, registry, states, vs)
          && states[0] == s && states[|vs|] == s1
          && PrintedValues(s1.instructions, printf, text) == PrintedValues(s.instructions, printf, text) + vs
    decreases |exprs| - i
  {
    if i == |exprs| {
      var states: seq<ModuleState>, vs: seq<Value> := [s], [];
      assert PrintedValues(s.instructions, printf, text) + vs == PrintedValues(s.instructions, printf, text);
      assert PrintLoop(exprs, i, text, printf, bindings, registry, states, vs) && states[0] == s && states[|vs|] == s;
    } else {
      PrintTurn(exprs[i], text, printf, bindings, registry, s);
      var (v, s1) := ExprEmission(exprs[i], bindings, registry, s, CreatedBlocks);
      if v.Ok? {
        var s2 := s1.Build(CallFunction(printf, [GlobalString(text), v.value])).0;
        PrintsInOrder(exprs, i + 1, text, printf, bindings, registry, s2);
        var (r, s3) := PrintsEmission(exprs, i + 1, GlobalString(text), printf, bindings, registry, s2);
        if r.Ok? {
          var states: seq<ModuleState>, vs: seq<Value> :| PrintLoop(exprs, i + 1, text, printf, bindings, registry, states, vs)
            && states[0] == s2 && states[|vs|] == s3
            && PrintedValues(s3.instructions, printf, text) == PrintedValues(s2.instructions, printf, text) + vs;
          PrintsStep(exprs, i, text, printf, bindings, registry, v.value, s, states, vs);
          assert PrintsEmission(exprs, i, GlobalString(text), printf, bindings, registry, s) == (r, s3);
        }
      }
    }
  }

  /** The loop from expression `i` is one turn followed by the loop from `i + 1`. */
  lemma PrintsStep(exprs: seq<Expr>, i: nat, text: string, printf: nat, bindings: map<string, Value>, registry: map<string, Prototype>, v: Value, s: ModuleState, states: seq<ModuleState>, vs: seq<Value>)
    requires i < |exprs| && PrintLoop(exprs, i + 1, text, printf, bindings, registry, states, vs)
    requires PrintedOnce(exprs[i], v, text, printf, bindings, registry, s, states[0])
    requires PrintedValues(states[0].instructions, printf, text) == PrintedValues(s.instructions, printf, text) + [v]
    requires PrintedValues(states[|vs|].instructions, printf, text) == PrintedValues(states[0].instructions, printf, text) + vs
    ensures exists states': seq<ModuleState>, vs': seq<Value> ::
      && PrintLoop(exprs, i, text, printf, bindings, registry, states', vs')
      && states'[0] == s && states'[|vs'|] == states[|vs|]
      && PrintedValues(states[|vs|].instructions, printf, text) == PrintedValues(s.instructions, printf, text) + vs'
  {
    PrintLoopCons(exprs, i, text, printf, bindings, registry, v, s, states, vs);
    var before := PrintedValues(s.instructions, printf, text);
    assert before + [v] + vs == before + ([v] + vs);
    var states', vs' := [s] + states, [v] + vs;
    assert states'[|vs'|] == states[|vs|];
    assert PrintLoop(exprs, i, text, printf, bindings, registry, states', vs');
  }

  /** One turn of the print loop prints the emitted value and nothing else. */
  lemma PrintTurn(e: Expr, text: string, printf: nat, bindings: map<string, Value>, registry: map<string, Prototype>, s: ModuleState)
    requires s.Positioned() && PlainBindings(bindings)
    ensures var (v, s1) := ExprEmission(e, bindings, registry, s, CreatedBlocks);
      v.Ok? ==>
        var s2 := s1.Build(CallFunction(printf, [GlobalString(text), v.value])).0;
        && PrintedOnce(e, v.value, text, printf, bindings, registry, s, s2)
        && PrintedValues(s2.instructions, printf, text) == PrintedValues(s.instructions, printf, text) + [v.value]
  {
    ExprPrintsNothing(e, bindings, registry, s, CreatedBlocks);
    var (v, s1) := ExprEmission(e, bindings, registry, s, CreatedBlocks);
    PrintFreeKeepsPrinted(s.instructions, s1.instructions, printf, text);
    if v.Ok? {
      var call := CallFunction(printf, [GlobalString(text), v.value]);
      PrintedAppend(s1.instructions, Placed(s1.insertBlock.value, call), printf, text);
    }
  }

  /**
   * `emitPrintf`: a function already named `printf` is returned and the
   * module is unchanged; otherwise exactly one function is added at the
   * end, variadic, taking an `i8*` and returning `i32`. Either way the
   * name `printf` now finds the result, and declaring again adds nothing.
   */
  lemma PrintfShape(s: ModuleState)
    ensures var (s1, f) := PrintfDeclaration(s);
      && s1.FunctionNamed("printf") == Some(f)
      && s1.blocks == s.blocks && s1.instructions == s.instructions && s1.insertBlock == s.insertBlock
      && (s.FunctionNamed("printf").Some? ==> s1 == s)
      && (s.FunctionNamed("printf").None? ==> f == |s.functions| && s1.functions == s.functions + [PrintfFunction])
      && PrintfDeclaration(s1) == (s1, f)
  {
    var (s1, f) := PrintfDeclaration(s);
    if s.FunctionNamed("printf").None? {
      assert FirstNamed(s1.functions, "printf", |s.functions|) == Some(f);
      FirstNamedSkips(s1.functions, "printf", 0, |s.functions|);
    }
  }

  /**
   * The start of `emitMain`: a new function `main`, taking nothing and
   * returning void, with a new block `entry` where the builder now sits,
   * and `printf` declared; no instruction is emitted yet.
   */
  lemma MainEntryShape(s: ModuleState)
    ensures var (s1, printf) := MainEntry(s);
      && |s.functions| < |s1.functions| && s1.functions[|s.functions|] == MainFunction
      && s.functions + [MainFunction] <= s1.functions && |s1.functions| <= |s.functions| + 2
      && s1.blocks == s.blocks + [Block(|s.functions|, "entry")] && s1.insertBlock == Some(|s.blocks|)
      && s1.instructions == s.instructions
      && s1.FunctionNamed("printf") == Some(printf)
  {
    var (s1, main) := s.AddFunction(MainFunction);
    var (s2, entry) := s1.AppendBlock(main, "entry");
    PrintfShape(s2.PositionAtEnd(entry));
  }

  /**
   * `emitMain` adds `main` and its entry block, starts there with `printf`
   * declared, and succeeds exactly when every loose expression is well
   * scoped; later lookups of `printf` find the function it printed with.
   */
  lemma MainShape(exprs: seq<Expr>, bindings: map<string, Value>, registry: map<string, Prototype>, s: ModuleState)
    ensures var (r, s1) := MainEmission(exprs, bindings, registry, s);
      var (s0, printf) := MainEntry(s);
      && s.Extends(s1) && s0.Extends(s1)
      && |s1.functions| > |s.functions| && s1.functions[|s.functions|] == MainFunction
      && |s1.blocks| > |s.blocks| && s1.blocks[|s.blocks|] == Block(|s.functions|, "entry")
      && s0.insertBlock == Some(|s.blocks|) && s1.FunctionNamed("printf") == Some(printf)
      && (r.Ok? <==> forall k :: 0 <= k < |exprs| ==> WellScoped(exprs[k], bindings, registry))
  {
    MainEntryShape(s);
    var (s0, printf) := MainEntry(s);
    PrintsEmitIffWellScoped(exprs, 0, GlobalString("%f\n"), printf, bindings, registry, s0);
    var (p, s4) := PrintsEmission(exprs, 0, GlobalString("%f\n"), printf, bindings, registry, s0);
    FunctionNamedPersists(s0, s4, "printf");
    if p.Ok? {
      FunctionNamedPersists(s4, s4.Build(RetVoid).0, "printf");
    }
  }

  /**
   * When `emitMain` succeeds, its loop emitted each loose expression in
   * order from the entry block, each followed by the call
   * `printf("%f\n", v)` on its value `v`; those are all the prints it
   * added, and `main` ends with `ret void`.
   */
  lemma MainPrints(exprs: seq<Expr>, bindings: map<string, Value>, registry: map<string, Prototype>, s: ModuleState)
    requires PlainBindings(bindings)
    ensures var (r, s1) := MainEmission(exprs, bindings, registry, s);
      var (s0, printf) := MainEntry(s);
      r.Ok? ==>
        exists states: seq<ModuleState>, vs: seq<Value> ::
          && PrintLoop(exprs, 0, "%f\n", printf, bindings, registry, states, vs)
          && states[0] == s0 && s1 == states[|vs|].Build(RetVoid).0
          && PrintedValues(s1.instructions, printf, "%f\n") == PrintedValues(s.instructions, printf, "%f\n") + vs
  {
    MainEntryShape(s);
    var (s0, printf) := MainEntry(s);
    PrintsInOrder(exprs, 0, "%f\n", printf, bindings, registry, s0);
    var (p, s4) := PrintsEmission(exprs, 0, GlobalString("%f\n"), printf, bindings, registry, s0);
    if p.Ok? {
      var states: seq<ModuleState>, vs: seq<Value> :| PrintLoop(exprs, 0, "%f\n", printf, bindings, registry, states, vs)
        && states[0] == s0 && states[|vs|] == s4
        && PrintedValues(s4.instructions, printf, "%f\n") == PrintedValues(s0.instructions, printf, "%f\n") + vs;
      PrintedAppend(s4.instructions, Placed(s4.insertBlock.value, RetVoid), printf, "%f\n");
      assert PrintLoop(exprs, 0, "%f\n", printf, bindings, registry, states, vs) && s4.Build(RetVoid).0 == states[|vs|].Build(RetVoid).0;
    }
  }

  lemma {:induction false} PrintsEmitIffWellScoped(exprs: seq<Expr>, i: nat, format: Value, printf: nat, bindings: map<string, Value>, registry: map<string, Prototype>, s: ModuleState)
    requires i <= |exprs| && s.Positioned()
    ensures PrintsEmission(exprs, i, format, printf, bindings, registry, s).0.Ok? <==>
      forall k :: i <= k < |exprs| ==> WellScoped(exprs[k], bindings, registry)
    decreases |exprs| - i
  {
    if i < |exprs| {
      EmitsIffWellScoped(exprs[i], bindings, registry, s, CreatedBlocks);
      var (v, s1) := ExprEmission(exprs[i], bindings, registry, s, CreatedBlocks);
      if v.Ok? {
        var (s2, _) := s1.Build(CallFunction(printf, [format, v.value]));
        PrintsEmitIffWellScoped(exprs, i + 1, format, printf, bindings, registry, s2);
      }
    }
  }

  /**
   * `emit()` on a fresh module: externs first, then definitions, then
   * `main`. When it returns normally every extern and definition name is
   * declared, and the only prints in the module are `main`'s calls
   * `printf("%f\n", v)`, one per loose expression in order, `v` the value
   * that expression emitted under the bindings the definitions left;
   * the last instruction is `main`'s `ret void`.
   */
  lemma EmitOrder(externs: seq<Prototype>, defs: seq<Definition>, exprs: seq<Expr>, registry: map<string, Prototype>)
    ensures var (r, b, s) := FileEmission(externs, defs, exprs, registry, map[], EmptyModule);
      r.Ok? ==>
        && (forall k :: 0 <= k < |externs| ==> s.FunctionNamed(externs[k].name).Some?)
        && (forall k :: 0 <= k < |defs| ==> s.FunctionNamed(defs[k].prototype.name).Some?)
        && s.FunctionNamed("printf").Some?
        && var printf := s.FunctionNamed("printf").value;
           exists states: seq<ModuleState>, vs: seq<Value> ::
             && PrintLoop(exprs, 0, "%f\n", printf, b, registry, states, vs)
             && PrintedValues(s.instructions, printf, "%f\n") == vs
             && s == states[|vs|].Build(RetVoid).0
  {
    var s1 := ExternsDeclaration(externs, 0, EmptyModule);
    ExternsDeclared(externs, 0, EmptyModule);
    DefinitionsDeclared(defs, 0, map[], registry, s1);
    var (d, b2, s2) := DefinitionsEmission(defs, 0, map[], registry, s1);
    if d.Ok? {
      assert PlainBindings(b2);
      MainShape(exprs, b2, registry, s2);
      MainPrints(exprs, b2, registry, s2);
      var (m, s3) := MainEmission(exprs, b2, registry, s2);
      var printf := MainEntry(s2).1;
      assert PrintedValues(s2.instructions, printf, "%f\n") == [] by {
        DefinitionsPrintNothing(defs, 0, map[], registry, s1);
        PrintFreeKeepsPrinted(s1.instructions, s2.instructions, printf, "%f\n");
      }
      forall k | 0 <= k < |externs|
        ensures s3.FunctionNamed(externs[k].name).Some?
      {
        FunctionNamedPersists(s1, s2, externs[k].name);
        FunctionNamedPersists(s2, s3, externs[k].name);
      }
      forall k | 0 <= k < |defs|
        ensures s3.FunctionNamed(defs[k].prototype.name).Some?
      {
        FunctionNamedPersists(s2, s3, defs[k].prototype.name);
      }
    }
  }

  lemma {:induction false} DefinitionsPrintNothing(defs: seq<Definition>, j: nat, bindings: map<string, Value>, registry: map<string, Prototype>, s: ModuleState)
    requires j <= |defs|
    requires forall name :: name in bindings ==> bindings[name].Parameter?
    ensures var (r, b, s1) := DefinitionsEmission(defs, j, bindings, registry, s);
      PrintFree(s1.instructions, |s.instructions|) && forall name :: name in b ==> b[name].Parameter?
    decreases |defs| - j
  {
    if j < |defs| {
      DefinitionPrintsNothing(defs[j], bindings, registry, s);
      DefinitionExtends(defs[j], bindings, registry, s);
      var (d, b1, s1) := DefinitionEmission(defs[j], bindings, registry, s);
      if d.Ok? {
        DefinitionsPrintNothing(defs, j + 1, b1, registry, s1);
        DefinitionsDeclared(defs, j + 1, b1, registry, s1);
        PrintFreeChain(s.instructions, s1.instructions, DefinitionsEmission(defs, j + 1, b1, registry, s1).2.instructions);
      }
    }
  }

  lemma DefinitionPrintsNothing(d: Definition, bindings: map<string, Value>, registry: map<string, Prototype>, s: ModuleState)
    requires forall name :: name in bindings ==> bindings[name].Parameter?
    ensures var (r, b, s1) := DefinitionEmission(d, bindings, registry, s);
      PrintFree(s1.instructions, |s.instructions|) && forall name :: name in b ==> b[name].Parameter?
  {
    var (s1, f) := DeclarePrototype(s, d.prototype);
    DeclareShape(s, d.prototype);
    var (done, b1) := BindFrom(bindings, d.prototype.params, 0, f, s1.functions[f].Arity());
    BindParameters(bindings, d.prototype.params, 0, f, s1.functions[f].Arity());
    if done {
      assert PlainBindings(b1);
      var (s2, entry) := s1.AppendBlock(f, "entry");
      ExprPrintsNothing(d.expr, b1, registry, s2.PositionAtEnd(entry), CreatedBlocks);
      var (v, s3) := ExprEmission(d.expr, b1, registry, s2.PositionAtEnd(entry), CreatedBlocks);
      if v.Ok? {
        PrintFreeChain(s.instructions, s3.instructions, s3.Build(Ret(v.value)).0.instructions);
      }
    }
  }

  /** Binding parameters binds nothing but parameters. */
  lemma {:induction false} BindParameters(bindings: map<string, Value>, params: seq<string>, k: nat, fn: nat, arity: nat)
    requires k <= |params| && forall name :: name in bindings ==> bindings[name].Parameter?
    ensures forall name :: name in BindFrom(bindings, params, k, fn, arity).1 ==> BindFrom(bindings, params, k, fn, arity).1[name].Parameter?
    decreases |params| - k
  {
    if k < |params| && k < arity {
      assert BindFrom(bindings, params, k, fn, arity) == BindFrom(bindings[params[k] := Parameter(fn, k)], params, k + 1, fn, arity);
      BindParameters(bindings[params[k] := Parameter(fn, k)], params, k + 1, fn, arity);
    }
  }

  /** The decimal text of a natural number determines the number. */
  lemma {:induction false} NatTextInjective(n: nat, m: nat)
    requires NatText(n) == NatText(m)
    ensures n == m
    decreases n
  {
    if n >= 10 && m >= 10 {
      var a := NatText(n);
      assert a[..|a| - 1] == NatText(n / 10) && NatText(m)[..|a| - 1] == NatText(m / 10);
      NatTextInjective(n / 10, m / 10);
    }
  }

  /** The text of an `Int` starts with a minus sign exactly when it is negative. */
  lemma IntTextSign(n: int)
    ensures |IntText(n)| > 0 && (IntText(n)[0] == '-' <==> n < 0)
  {
    if n >= 0 {
      assert '0' <= NatText(n)[0] <= '9';
    }
  }

  lemma IntTextInjective(n: int, m: int)
    requires IntText(n) == IntText(m)
    ensures n == m
  {
    IntTextSign(n);
    IntTextSign(m);
    if n < 0 && m < 0 {
      assert NatText(-n) == IntText(n)[1..] == IntText(m)[1..] == NatText(-m);
      NatTextInjective(-n, -m);
    } else if n >= 0 && m >= 0 {
      NatTextInjective(n, m);
    }
  }

  /** Different input numbers give `createREPLInput` functions different names. */
  lemma ReplInputNamesDistinct(n: int, m: int)
    requires n != m
    ensures ReplInputName(n) != ReplInputName(m)
  {
    var a, b := ReplInputName(n), ReplInputName(m);
    assert a[13..|a| - 2] == IntText(n);
    assert b[13..|b| - 2] == IntText(m);
    if a == b {
      IntTextInjective(n, m);
    }
  }

  /**
   * `createREPLInput` adds a function with the input's name, no parameters
   * and a double result, gives it an entry block, and returns it exactly
   * when the expression is well scoped.
   */
  lemma ReplInputShape(e: Expr, number: int, bindings: map<string, Value>, registry: map<string, Prototype>, s: ModuleState)
    ensures var (r, s1) := ReplInputEmission(e, number, bindings, registry, s);
      && s.Extends(s1)
      && |s1.functions| > |s.functions|
      && s1.functions[|s.functions|].name == ReplInputName(number)
      && s1.functions[|s.functions|].Arity() == 0 && s1.functions[|s.functions|].fnType.result == DoubleType
      && |s1.blocks| > |s.blocks| && s1.blocks[|s.blocks|] == Block(|s.functions|, "entry")
      && (r.Ok? <==> WellScoped(e, bindings, registry))
      && (r.Ok? ==> r.value == |s.functions|)
  {
    var (s1, f) := s.AddFunction(Function(ReplInputName(number), FunctionType([], DoubleType, false), []));
    var (s2, entry) := s1.AppendBlock(f, "entry");
    EmitsIffWellScoped(e, bindings, registry, s2.PositionAtEnd(entry), CreatedBlocks);
  }
}
