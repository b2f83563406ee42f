/**
 * IR generator of the extended front end
 * (Part4/Sources/Kaleidoscope/IRGenerator.swift), over a `File` and the
 * abstract module of `Backend`.
 *
 * Each method of `IRGenerator` is proved equal to a function of the
 * generator's state before the call: `ExprEmission` for `emitExpr`,
 * `DefinitionEmission` for `emitDefinition`, and so on. The properties the
 * generator promises are lemmas about those functions.
 */
module ExtIrGen {
  import opened Wrappers
  import opened Registry
  import opened ExtLexer
  import opened ExtAst
  import opened Backend
  import opened Emission

  /** `enum IRError`. */
  datatype IRError =
    | UnknownFunction(name: string)
    | UnknownVariable(name: string)
    | WrongNumberOfArgs(name: string, expected: nat, got: nat)

  /** A value returned, an error thrown, or the trap of a failed force unwrap. */
  datatype Outcome<+T> = Ok(value: T) | Threw(error: IRError) | Trapped
  {
    /** The same failure, for a caller returning another type. */
    function Propagate<U>(): (r: Outcome<U>)
      requires !Ok?
    {
      if Threw? then Threw(error) else Trapped
    }
  }

  /**
   * Which blocks the phi of a conditional names: as written, the `then` and
   * `else` blocks created for it; as evidently intended, the blocks the
   * builder is in when each arm branches to `merge`.
   */
  datatype PhiRule = CreatedBlocks | BranchingBlocks

  /** The instructions for `lhs op rhs`. */
  function OperatorEmission(op: BinaryOperator, l: Value, r: Value, s: ModuleState): (result: (ModuleState, Value))
    requires s.Positioned()
  {
    match op
    case Plus => s.Build(FAdd(l, r))
    case Minus => s.Build(FSub(l, r))
    case Divide => s.Build(FDiv(l, r))
    case Times => s.Build(FMul(l, r))
    case Mod => s.Build(FRem(l, r))
    case Equals =>
      var (s1, comparison) := s.Build(FCmp(l, r, OrderedEqual));
      s1.Build(UIToFP(comparison))
  }

  /**
   * `emitExpr(e)` with parameter bindings `bindings`, the file's
   * `prototypeMap` as `registry`, and module `s`: the value or the error,
   * and the module afterwards. Emission only adds to the module and leaves
   * the builder positioned; it never traps.
   */
  function ExprEmission(e: Expr, bindings: map<string, Value>, registry: map<string, Prototype>, s: ModuleState, rule: PhiRule): (r: (Outcome<Value>, ModuleState))
    requires s.Positioned()
    ensures !r.0.Trapped? && r.1.Positioned() && s.Extends(r.1)
    decreases e, 2
  {
    match e
    case Variable(name) =>
      if name in bindings then (Ok(bindings[name]), s) else (Threw(UnknownVariable(name)), s)
    case Number(lexeme) => (Ok(Constant(lexeme)), s)
    case Binary(lhs, op, rhs) =>
      var (l, s1) := ExprEmission(lhs, bindings, registry, s, rule);
      if !l.Ok? then (l, s1)
      else
        var (rv, s2) := ExprEmission(rhs, bindings, registry, s1, rule);
        if !rv.Ok? then (rv, s2)
        else
          var (s3, v) := OperatorEmission(op, l.value, rv.value, s2);
          (Ok(v), s3)
    case Call(name, args) =>
      if name !in registry then (Threw(UnknownFunction(name)), s)
      else if |registry[name].params| != |args| then
        (Threw(WrongNumberOfArgs(name, |registry[name].params|, |args|)), s)
      else
        var (vs, s1) := ArgsEmission(args, 0, [], bindings, registry, s, rule);
        if !vs.Ok? then (vs.Propagate(), s1)
        else
          var (s2, f) := DeclarePrototype(s1, registry[name]);
          var (s3, v) := s2.Build(CallFunction(f, vs.value));
          (Ok(v), s3)
    case IfElse(_, _, _) => IfElseEmission(e, bindings, registry, s, rule)
  }

  /** `args.map(emitExpr)` from argument `i` on, after the values `vals` of the earlier ones. */
  function ArgsEmission(args: seq<Expr>, i: nat, vals: seq<Value>, bindings: map<string, Value>, registry: map<string, Prototype>, s: ModuleState, rule: PhiRule): (r: (Outcome<seq<Value>>, ModuleState))
    requires i <= |args| && s.Positioned()
    ensures !r.0.Trapped? && r.1.Positioned() && s.Extends(r.1)
    ensures r.0.Ok? ==> |r.0.value| == |vals| + |args| - i && vals <= r.0.value
    decreases args, |args| - i
  {
    if i == |args| then (Ok(vals), s)
    else
      var (v, s1) := ExprEmission(args[i], bindings, registry, s, rule);
      if !v.Ok? then (v.Propagate(), s1)
      else ArgsEmission(args, i + 1, vals + [v.value], bindings, registry, s1, rule)
  }

  /**
   * The condition of `.ifelse`: compared `!= 0.0`, then three blocks
   * `then`, `else`, `merge` appended to the current function and a
   * conditional branch to the first two.
   */
  function IfElseEmission(e: Expr, bindings: map<string, Value>, registry: map<string, Prototype>, s: ModuleState, rule: PhiRule): (r: (Outcome<Value>, ModuleState))
    requires e.IfElse? && s.Positioned()
    ensures !r.0.Trapped? && r.1.Positioned() && s.Extends(r.1)
    decreases e, 1
  {
    var (c, s1) := ExprEmission(e.cond, bindings, registry, s, rule);
    if !c.Ok? then (c, s1)
    else
      var (s2, check) := s1.Build(FCmp(c.value, Zero, OrderedNotEqual));
      var fn := s2.CurrentFunction();
      var (s3, thenBB) := s2.AppendBlock(fn, "then");
      var (s4, elseBB) := s3.AppendBlock(fn, "else");
      var (s5, mergeBB) := s4.AppendBlock(fn, "merge");
      var (s6, _) := s5.Build(CondBr(check, thenBB, elseBB));
      ArmsEmission(e, thenBB, elseBB, mergeBB, bindings, registry, s6, rule)
  }

  /** The two arms of `.ifelse`, each ending in a branch to `merge`, and the phi at the start of `merge`. */
  function ArmsEmission(e: Expr, thenBB: nat, elseBB: nat, mergeBB: nat, bindings: map<string, Value>, registry: map<string, Prototype>, s: ModuleState, rule: PhiRule): (r: (Outcome<Value>, ModuleState))
    requires e.IfElse? && s.Positioned() && thenBB < |s.blocks| && elseBB < |s.blocks| && mergeBB < |s.blocks|
    ensures !r.0.Trapped? && r.1.Positioned() && s.Extends(r.1)
    decreases e, 0
  {
    var (t, s1) := ExprEmission(e.thenExpr, bindings, registry, s.PositionAtEnd(thenBB), rule);
    if !t.Ok? then (t, s1)
    else
      var thenEnd := s1.insertBlock.value;
      var (s2, _) := s1.Build(Br(mergeBB));
      var (f, s3) := ExprEmission(e.elseExpr, bindings, registry, s2.PositionAtEnd(elseBB), rule);
      if !f.Ok? then (f, s3)
      else
        var elseEnd := s3.insertBlock.value;
        var (s4, _) := s3.Build(Br(mergeBB));
        var incoming := if rule == CreatedBlocks then [(t.value, thenBB), (f.value, elseBB)] else [(t.value, thenEnd), (f.value, elseEnd)];
        var (s5, phi) := s4.PositionAtEnd(mergeBB).Build(Phi(incoming));
        (Ok(phi), s5)
  }

  /**
   * `emitDefinition(d)`: the function, the parameter bindings afterwards
   * and the module. The bindings are emptied after a body that emits, and
   * keep the parameters when the body throws.
   */
  function DefinitionEmission(d: Definition, bindings: map<string, Value>, registry: map<string, Prototype>, s: ModuleState): (r: (Outcome<nat>, map<string, Value>, ModuleState))
  {
    var (s1, f) := DeclarePrototype(s, d.prototype);
    var (done, b1) := BindFrom(bindings, d.prototype.params, 0, f, s1.functions[f].Arity());
    if !done then (Trapped, b1, s1)
    else
      var (s2, entry) := s1.AppendBlock(f, "entry");
      var (v, s3) := ExprEmission(d.expr, b1, registry, s2.PositionAtEnd(entry), CreatedBlocks);
      if !v.Ok? then (v.Propagate(), b1, s3)
      else
        var (s4, _) := s3.Build(Ret(v.value));
        (Ok(f), map[], s4)
  }

  /** The declaration `emitPrintf` adds: variadic, taking an `i8*`, returning `i32`. */
  const PrintfFunction := Function("printf", FunctionType([Int8PointerType], Int32Type, true), [])

  /** The function `printf` declared in the module, or a new variadic one. */
  function PrintfDeclaration(s: ModuleState): (r: (ModuleState, nat))
  {
    match s.FunctionNamed("printf")
    case Some(f) => (s, f)
    case None => s.AddFunction(PrintfFunction)
  }

  /** The loop of `emitMain` from expression `i` on: each value printed with `printf`. */
  function PrintsEmission(exprs: seq<Expr>, i: nat, format: Value, printf: nat, bindings: map<string, Value>, registry: map<string, Prototype>, s: ModuleState): (r: (Outcome<()>, ModuleState))
    requires i <= |exprs| && s.Positioned()
    ensures !r.0.Trapped? && r.1.Positioned() && s.Extends(r.1)
    decreases |exprs| - i
  {
    if i == |exprs| then (Ok(()), s)
    else
      var (v, s1) := ExprEmission(exprs[i], bindings, registry, s, CreatedBlocks);
      if !v.Ok? then (v.Propagate(), s1)
      else
        var (s2, _) := s1.Build(CallFunction(printf, [format, v.value]));
        PrintsEmission(exprs, i + 1, format, printf, bindings, registry, s2)
  }

  const MainFunction := Function("main", FunctionType([], VoidType, false), [])

  /** The start of `emitMain()`: `main` added, its entry block appended, the builder there, `printf` declared. */
  function MainEntry(s: ModuleState): (r: (ModuleState, nat))
    ensures r.0.Positioned() && s.Extends(r.0)
  {
    var (s1, main) := s.AddFunction(MainFunction);
    var (s2, entry) := s1.AppendBlock(main, "entry");
    PrintfDeclaration(s2.PositionAtEnd(entry))
  }

  /** `emitMain()`: a `main` function whose entry block prints every loose expression, then returns. */
  function MainEmission(exprs: seq<Expr>, bindings: map<string, Value>, registry: map<string, Prototype>, s: ModuleState): (r: (Outcome<()>, ModuleState))
  {
    var (s3, printf) := MainEntry(s);
    var (p, s4) := PrintsEmission(exprs, 0, GlobalString("%f\n"), printf, bindings, registry, s3);
    if !p.Ok? then (p, s4)
    else
      var (s5, _) := s4.Build(RetVoid);
      (Ok(()), s5)
  }

  /** The loop over `file.externs` in `emit()` from extern `i` on. */
  function ExternsDeclaration(externs: seq<Prototype>, i: nat, s: ModuleState): (r: ModuleState)
    requires i <= |externs|
    decreases |externs| - i
  {
    if i == |externs| then s else ExternsDeclaration(externs, i + 1, DeclarePrototype(s, externs[i]).0)
  }

  /** The loop over `file.definitions` in `emit()` from definition `j` on, stopping at the first failure. */
  function DefinitionsEmission(defs: seq<Definition>, j: nat, bindings: map<string, Value>, registry: map<string, Prototype>, s: ModuleState): (r: (Outcome<()>, map<string, Value>, ModuleState))
    requires j <= |defs|
    decreases |defs| - j
  {
    if j == |defs| then (Ok(()), bindings, s)
    else
      var (d, b1, s1) := DefinitionEmission(defs[j], bindings, registry, s);
      if !d.Ok? then (d.Propagate(), b1, s1)
      else DefinitionsEmission(defs, j + 1, b1, registry, s1)
  }

  /** `emit()`: every extern declared, every definition emitted, then `main`. */
  function FileEmission(externs: seq<Prototype>, defs: seq<Definition>, exprs: seq<Expr>, registry: map<string, Prototype>, bindings: map<string, Value>, s: ModuleState): (r: (Outcome<()>, map<string, Value>, ModuleState))
  {
    var s1 := ExternsDeclaration(externs, 0, s);
    var (d, b2, s2) := DefinitionsEmission(defs, 0, bindings, registry, s1);
    if !d.Ok? then (d, b2, s2)
    else
      var (m, s3) := MainEmission(exprs, b2, registry, s2);
      (m, b2, s3)
  }

  /** The decimal digits of a natural number, as Swift's string interpolation writes them. */
  function NatText(n: nat): (r: string)
    ensures |r| > 0 && forall k :: 0 <= k < |r| ==> '0' <= r[k] <= '9'
  {
    if n < 10 then [('0' as int + n) as char] else NatText(n / 10) + [('0' as int + n % 10) as char]
  }

  /** An `Int` as Swift's string interpolation writes it. */
  function IntText(n: int): (r: string)
  {
    if n < 0 then "-" + NatText(-n) else NatText(n)
  }

  /** The name of the function `createREPLInput` builds for input `number`. */
  function ReplInputName(number: int): (r: string)
  {
    "__repl_input_" + IntText(number) + "__"
  }

  /** `createREPLInput(e, number:)`: a function without parameters returning the expression's value. */
  function ReplInputEmission(e: Expr, number: int, bindings: map<string, Value>, registry: map<string, Prototype>, s: ModuleState): (r: (Outcome<nat>, ModuleState))
  {
    var (s1, f) := s.AddFunction(Function(ReplInputName(number), FunctionType([], DoubleType, false), []));
    var (s2, entry) := s1.AppendBlock(f, "entry");
    var (v, s3) := ExprEmission(e, bindings, registry, s2.PositionAtEnd(entry), CreatedBlocks);
    if !v.Ok? then (v.Propagate(), s3)
    else
      var (s4, _) := s3.Build(Ret(v.value));
      (Ok(f), s4)
  }

  /**
   * `class IRGenerator`: the module and builder, the `File` it reads, and
   * the `parameterValues` dictionary of the definition being emitted.
   */
  class IRGenerator {
    const ir: Module
    const file: File
    var parameterValues: map<string, Value>

    constructor (file: File)
      ensures this.file == file && fresh(ir)
      ensures ir.State() == EmptyModule && parameterValues == map[]
    {
      this.file := file;
      ir := new Module();
      parameterValues := map[];
    }

    method Emit() returns (r: Outcome<()>)
      requires file.Valid()
      modifies this, ir
      ensures (r, parameterValues, ir.State())
        == FileEmission(file.externs, file.definitions, file.expressions, file.prototypeMap, old(parameterValues), old(ir.State()))
    {
      var i := 0;
      while i < |file.externs|
        invariant i <= |file.externs|
        invariant ExternsDeclaration(file.externs, 0, old(ir.State())) == ExternsDeclaration(file.externs, i, ir.State())
        invariant parameterValues == old(parameterValues)
      {
        var f := EmitPrototype(file.externs[i]);
        i := i + 1;
      }
      ghost var s1 := ir.State();
      var j := 0;
      while j < |file.definitions|
        invariant j <= |file.definitions|
        invariant DefinitionsEmission(file.definitions, 0, old(parameterValues), file.prototypeMap, s1)
          == DefinitionsEmission(file.definitions, j, parameterValues, file.prototypeMap, ir.State())
      {
        var d := EmitDefinition(file.definitions[j]);
        if !d.Ok? {
          return d.Propagate();
        }
        j := j + 1;
      }
      r := EmitMain();
    }

    method EmitPrintf() returns (f: nat)
      modifies ir
      ensures (ir.State(), f) == PrintfDeclaration(old(ir.State()))
    {
      var existing := ir.State().FunctionNamed("printf");
      if existing.Some? {
        return existing.value;
      }
      f := ir.AddFunction(PrintfFunction);
    }

    method EmitMain() returns (r: Outcome<()>)
      requires file.Valid()
      modifies ir
      ensures (r, ir.State()) == MainEmission(file.expressions, parameterValues, file.prototypeMap, old(ir.State()))
    {
      var main := ir.AddFunction(MainFunction);
      var entry := ir.AppendBlock(main, "entry");
      ir.PositionAtEnd(entry);
      var formatString := GlobalString("%f\n");
      var printf := EmitPrintf();
      ghost var s3 := ir.State();
      var i := 0;
      while i < |file.expressions|
        invariant i <= |file.expressions| && ir.State().Positioned()
        invariant PrintsEmission(file.expressions, 0, formatString, printf, parameterValues, file.prototypeMap, s3)
          == PrintsEmission(file.expressions, i, formatString, printf, parameterValues, file.prototypeMap, ir.State())
      {
        var v := EmitExpr(file.expressions[i]);
        if !v.Ok? {
          return v.Propagate();
        }
        var call := ir.Build(CallFunction(printf, [formatString, v.value]));
        i := i + 1;
      }
      var ret := ir.Build(RetVoid);
      r := Ok(());
    }

    method CreateReplInput(e: Expr, number: int) returns (r: Outcome<nat>)
      requires file.Valid()
      modifies ir
      ensures (r, ir.State()) == ReplInputEmission(e, number, parameterValues, file.prototypeMap, old(ir.State()))
    {
      var fn := ir.AddFunction(Function(ReplInputName(number), FunctionType([], DoubleType, false), []));
      var entry := ir.AppendBlock(fn, "entry");
      ir.PositionAtEnd(entry);
      var v := EmitExpr(e);
      if !v.Ok? {
        return v.Propagate();
      }
      var ret := ir.Build(Ret(v.value));
      r := Ok(fn);
    }

    /** `addDefinition(d)`: registered in the file first, so its body may call it. */
    method AddDefinition(d: Definition) returns (r: Outcome<nat>)
      requires file.Valid()
      modifies this, ir, file
      ensures file.Valid()
      ensures file.definitions == old(file.definitions) + [d]
      ensures file.prototypeMap == old(file.prototypeMap)[d.prototype.name := d.prototype]
      ensures file.externs == old(file.externs) && file.expressions == old(file.expressions)
      ensures (r, parameterValues, ir.State()) == DefinitionEmission(d, old(parameterValues), file.prototypeMap, old(ir.State()))
    {
      file.AddDefinition(d);
      r := EmitDefinition(d);
    }

    /** `addExtern(p)`: registered in the file, then declared. */
    method AddExtern(p: Prototype) returns (f: nat)
      requires file.Valid()
      modifies ir, file
      ensures file.Valid()
      ensures file.externs == old(file.externs) + [p]
      ensures file.prototypeMap == old(file.prototypeMap)[p.name := p]
      ensures file.definitions == old(file.definitions) && file.expressions == old(file.expressions)
      ensures (ir.State(), f) == DeclarePrototype(old(ir.State()), p)
    {
      file.AddExtern(p);
      f := EmitPrototype(p);
    }

    method EmitPrototype(p: Prototype) returns (f: nat)
      modifies ir
      ensures (ir.State(), f) == DeclarePrototype(old(ir.State()), p)
    {
      var existing := ir.State().FunctionNamed(p.name);
      if existing.Some? {
        return existing.value;
      }
      f := ir.AddFunction(PrototypeFunction(p));
    }

    method EmitDefinition(d: Definition) returns (r: Outcome<nat>)
      requires file.Valid()
      modifies this, ir
      ensures (r, parameterValues, ir.State()) == DefinitionEmission(d, old(parameterValues), file.prototypeMap, old(ir.State()))
    {
      var fn := EmitPrototype(d.prototype);
      var arity := ir.functions[fn].Arity();
      var params := d.prototype.params;
      ghost var s1 := ir.State();
      var idx := 0;
      while idx < |params|
        invariant idx <= |params| && ir.State() == s1
        invariant BindFrom(old(parameterValues), params, 0, fn, arity) == BindFrom(parameterValues, params, idx, fn, arity)
      {
        if idx >= arity {
          assert BindFrom(parameterValues, params, idx, fn, arity) == (false, parameterValues);
          return Trapped;
        }
        parameterValues := parameterValues[params[idx] := Parameter(fn, idx)];
        idx := idx + 1;
      }
      var entryBlock := ir.AppendBlock(fn, "entry");
      ir.PositionAtEnd(entryBlock);
      var v := EmitExpr(d.expr);
      if !v.Ok? {
        return v.Propagate();
      }
      var ret := ir.Build(Ret(v.value));
      parameterValues := map[];
      r := Ok(fn);
    }

    method EmitExpr(e: Expr) returns (r: Outcome<Value>)
      requires file.Valid() && ir.State().Positioned()
      modifies ir
      ensures (r, ir.State()) == ExprEmission(e, parameterValues, file.prototypeMap, old(ir.State()), CreatedBlocks)
      decreases e, 2
    {
      match e
      case Variable(name) =>
        if name in parameterValues {
          r := Ok(parameterValues[name]);
        } else {
          r := Threw(UnknownVariable(name));
        }
      case Number(lexeme) =>
        r := Ok(Constant(lexeme));
      case Binary(lhs, op, rhs) =>
        var lhsVal := EmitExpr(lhs);
        if !lhsVal.Ok? {
          return lhsVal;
        }
        var rhsVal := EmitExpr(rhs);
        if !rhsVal.Ok? {
          return rhsVal;
        }
        var v := EmitOperator(op, lhsVal.value, rhsVal.value);
        r := Ok(v);
      case Call(name, args) =>
        var prototype := file.LookupPrototype(name);
        if prototype.None? {
          return Threw(UnknownFunction(name));
        }
        if |prototype.value.params| != |args| {
          return Threw(WrongNumberOfArgs(name, |prototype.value.params|, |args|));
        }
        var callArgs := EmitArgs(args);
        if !callArgs.Ok? {
          return callArgs.Propagate();
        }
        var fn := EmitPrototype(prototype.value);
        var v := ir.Build(CallFunction(fn, callArgs.value));
        r := Ok(v);
      case IfElse(_, _, _) =>
        r := EmitIfElse(e);
    }

    method EmitOperator(op: BinaryOperator, lhsVal: Value, rhsVal: Value) returns (v: Value)
      requires ir.State().Positioned()
      modifies ir
      ensures (ir.State(), v) == OperatorEmission(op, lhsVal, rhsVal, old(ir.State()))
    {
      match op
      case Plus => v := ir.Build(FAdd(lhsVal, rhsVal));
      case Minus => v := ir.Build(FSub(lhsVal, rhsVal));
      case Divide => v := ir.Build(FDiv(lhsVal, rhsVal));
      case Times => v := ir.Build(FMul(lhsVal, rhsVal));
      case Mod => v := ir.Build(FRem(lhsVal, rhsVal));
      case Equals =>
        var comparison := ir.Build(FCmp(lhsVal, rhsVal, OrderedEqual));
        v := ir.Build(UIToFP(comparison));
    }

    /** `try args.map(emitExpr)`. */
    method EmitArgs(args: seq<Expr>) returns (r: Outcome<seq<Value>>)
      requires file.Valid() && ir.State().Positioned()
      modifies ir
      ensures (r, ir.State()) == ArgsEmission(args, 0, [], parameterValues, file.prototypeMap, old(ir.State()), CreatedBlocks)
      decreases args
    {
      var vals: seq<Value> := [];
      var i := 0;
      while i < |args|
        invariant i <= |args| && ir.State().Positioned()
        invariant ArgsEmission(args, 0, [], parameterValues, file.prototypeMap, old(ir.State()), CreatedBlocks)
          == ArgsEmission(args, i, vals, parameterValues, file.prototypeMap, ir.State(), CreatedBlocks)
      {
        var v := EmitExpr(args[i]);
        if !v.Ok? {
          return v.Propagate();
        }
        vals := vals + [v.value];
        i := i + 1;
      }
      r := Ok(vals);
    }

    /** The `.ifelse` case of `emitExpr`. */
    method EmitIfElse(e: Expr) returns (r: Outcome<Value>)
      requires e.IfElse? && file.Valid() && ir.State().Positioned()
      modifies ir
      ensures (r, ir.State()) == IfElseEmission(e, parameterValues, file.prototypeMap, old(ir.State()), CreatedBlocks)
      decreases e, 1
    {
      var cond := EmitExpr(e.cond);
      if !cond.Ok? {
        return cond;
      }
      var checkCond := ir.Build(FCmp(cond.value, Zero, OrderedNotEqual));
      var fn := ir.State().CurrentFunction();
      var thenBB := ir.AppendBlock(fn, "then");
      var elseBB := ir.AppendBlock(fn, "else");
      var mergeBB := ir.AppendBlock(fn, "merge");
      var branch := ir.Build(CondBr(checkCond, thenBB, elseBB));
      r := EmitArms(e, thenBB, elseBB, mergeBB);
    }

    /** The arms and the phi of the `.ifelse` case of `emitExpr`. */
    method EmitArms(e: Expr, thenBB: nat, elseBB: nat, mergeBB: nat) returns (r: Outcome<Value>)
      requires e.IfElse? && file.Valid() && ir.State().Positioned()
      requires thenBB < |ir.blocks| && elseBB < |ir.blocks| && mergeBB < |ir.blocks|
      modifies ir
      ensures (r, ir.State()) == ArmsEmission(e, thenBB, elseBB, mergeBB, parameterValues, file.prototypeMap, old(ir.State()), CreatedBlocks)
      decreases e, 0
    {
      ir.PositionAtEnd(thenBB);
      var thenVal := EmitExpr(e.thenExpr);
      if !thenVal.Ok? {
        return thenVal;
      }
      var thenBr := ir.Build(Br(mergeBB));
      ir.PositionAtEnd(elseBB);
      var elseVal := EmitExpr(e.elseExpr);
      if !elseVal.Ok? {
        return elseVal;
      }
      var elseBr := ir.Build(Br(mergeBB));
      ir.PositionAtEnd(mergeBB);
      var phi := ir.Build(Phi([(thenVal.value, thenBB), (elseVal.value, elseBB)]));
      r := Ok(phi);
    }
  }
}
