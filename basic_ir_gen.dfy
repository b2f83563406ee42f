/**
 * IR generator of the basic front end
 * (Sources/Kaleidoscope/IRGenerator.swift), over a `TopLevel` and the
 * abstract module of `Backend`.
 *
 * It differs from the extended generator in four ways: it emits only the
 * definitions (an extern is declared when a call first needs it), it has
 * no conditionals and no `==`, an arity error is `arityMismatch`, and the
 * bindings of a definition are restored afterwards instead of emptied.
 */
module BasicIrGen {
  import opened Wrappers
  import opened Registry
  import opened BasicLexer
  import opened BasicAst
  import opened Backend
  import opened Emission

  /** `enum IRError`. */
  datatype IRError =
    | UnknownFunction(name: string)
    | UnknownVariable(name: string)
    | ArityMismatch(name: string, expected: nat, got: nat)

  /** A value returned, an error thrown, or the trap of a failed force unwrap. */
  datatype Outcome<+T> = Ok(value: T) | Threw(error: IRError) | Trapped
  {
    /** The same failure, for a caller returning another type. */
    function Propagate<U>(): (r: Outcome<U>)
      requires !Ok?
    {
      if Threw? then Threw(error) else Trapped
    }
  }

  /** `emitBinary` once both operands are emitted: one instruction per operator. */
  function OperatorEmission(op: BinaryOperator, l: Value, r: Value, s: ModuleState): (result: (ModuleState, Value))
    requires s.Positioned()
  {
    match op
    case Plus => s.Build(FAdd(l, r))
    case Minus => s.Build(FSub(l, r))
    case Divide => s.Build(FDiv(l, r))
    case Times => s.Build(FMul(l, r))
    case Mod => s.Build(FRem(l, r))
  }

  /**
   * `emitExpr(e)` with bindings `bindings`, the top level's `prototypeMap`
   * as `registry`, and module `s`: the value or the error, and the module
   * afterwards. Emission only adds to the module, keeps the insertion
   * block, and never traps.
   */
  function ExprEmission(e: Expr, bindings: map<string, Value>, registry: map<string, Prototype>, s: ModuleState): (r: (Outcome<Value>, ModuleState))
    requires s.Positioned()
    ensures !r.0.Trapped? && r.1.insertBlock == s.insertBlock && s.Extends(r.1)
    decreases e, 1
  {
    match e
    case Binary(lhs, op, rhs) =>
      var (l, s1) := ExprEmission(lhs, bindings, registry, s);
      if !l.Ok? then (l, s1)
      else
        var (rv, s2) := ExprEmission(rhs, bindings, registry, s1);
        if !rv.Ok? then (rv, s2)
        else
          var (s3, v) := OperatorEmission(op, l.value, rv.value, s2);
          (Ok(v), s3)
    case Call(name, args) =>
      if name !in registry then (Threw(UnknownFunction(name)), s)
      else if |registry[name].params| != |args| then
        (Threw(ArityMismatch(name, |registry[name].params|, |args|)), s)
      else
        var (vs, s1) := ArgsEmission(args, 0, [], bindings, registry, s);
        if !vs.Ok? then (vs.Propagate(), s1)
        else
          var (s2, f) := DeclarePrototype(s1, registry[name]);
          var (s3, v) := s2.Build(CallFunction(f, vs.value));
          (Ok(v), s3)
    case Variable(name) =>
      if name in bindings then (Ok(bindings[name]), s) else (Threw(UnknownVariable(name)), s)
    case Number(lexeme) => (Ok(Constant(lexeme)), s)
  }

  /** `args.map(emitExpr)` from argument `i` on, after the values `vals` of the earlier ones. */
  function ArgsEmission(args: seq<Expr>, i: nat, vals: seq<Value>, bindings: map<string, Value>, registry: map<string, Prototype>, s: ModuleState): (r: (Outcome<seq<Value>>, ModuleState))
    requires i <= |args| && s.Positioned()
    ensures !r.0.Trapped? && r.1.insertBlock == s.insertBlock && s.Extends(r.1)
    ensures r.0.Ok? ==> |r.0.value| == |vals| + |args| - i && vals <= r.0.value
    decreases args, |args| - i
  {
    if i == |args| then (Ok(vals), s)
    else
      var (v, s1) := ExprEmission(args[i], bindings, registry, s);
      if !v.Ok? then (v.Propagate(), s1)
      else ArgsEmission(args, i + 1, vals + [v.value], bindings, registry, s1)
  }

  /**
   * `emitDefinition(d)`: the function, the bindings afterwards and the
   * module. The parameters are bound inside `withScope`, which puts the
   * earlier bindings back when the body emits and, having no `defer`,
   * leaves the parameters bound when it throws.
   */
  function DefinitionEmission(d: Definition, bindings: map<string, Value>, registry: map<string, Prototype>, s: ModuleState): (r: (Outcome<nat>, map<string, Value>, ModuleState))
  {
    var (s1, f) := DeclarePrototype(s, d.prototype);
    var (done, b1) := BindFrom(bindings, d.prototype.params, 0, f, s1.functions[f].Arity());
    if !done then (Trapped, b1, s1)
    else
      var (s2, entry) := s1.AppendBlock(f, "entry");
      var (v, s3) := ExprEmission(d.expr, b1, registry, s2.PositionAtEnd(entry));
      if !v.Ok? then (v.Propagate(), b1, s3)
      else
        var (s4, _) := s3.Build(Ret(v.value));
        (Ok(f), bindings, s4)
  }

  /** The loop of `emit()` from definition `j` on, stopping at the first failure. */
  function DefinitionsEmission(defs: seq<Definition>, j: nat, bindings: map<string, Value>, registry: map<string, Prototype>, s: ModuleState): (r: (Outcome<()>, map<string, Value>, ModuleState))
    requires j <= |defs|
    decreases |defs| - j
  {
    if j == |defs| then (Ok(()), bindings, s)
    else
      var (d, b1, s1) := DefinitionEmission(defs[j], bindings, registry, s);
      if !d.Ok? then (d.Propagate(), b1, s1)
      else DefinitionsEmission(defs, j + 1, b1, registry, s1)
  }

  /**
   * `class IRGenerator`: the module and builder, the `TopLevel` it reads,
   * and the `varBindings` dictionary.
   */
  class IRGenerator {
    const ir: Module
    const topLevel: TopLevel
    var varBindings: map<string, Value>

    constructor (topLevel: TopLevel)
      ensures this.topLevel == topLevel && fresh(ir)
      ensures ir.State() == EmptyModule && varBindings == map[]
    {
      this.topLevel := topLevel;
      ir := new Module();
      varBindings := map[];
    }

    /** `emit()`: the definitions only, in order; externs are declared when first called. */
    method Emit() returns (r: Outcome<()>)
      requires topLevel.Valid()
      modifies this, ir
      ensures (r, varBindings, ir.State()) == DefinitionsEmission(topLevel.definitions, 0, old(varBindings), topLevel.prototypeMap, old(ir.State()))
    {
      var j := 0;
      while j < |topLevel.definitions|
        invariant j <= |topLevel.definitions|
        invariant DefinitionsEmission(topLevel.definitions, 0, old(varBindings), topLevel.prototypeMap, old(ir.State()))
          == DefinitionsEmission(topLevel.definitions, j, varBindings, topLevel.prototypeMap, ir.State())
      {
        var d := EmitDefinition(topLevel.definitions[j]);
        if !d.Ok? {
          return d.Propagate();
        }
        j := j + 1;
      }
      r := Ok(());
    }

    method EmitPrototype(p: Prototype) returns (f: nat)
      modifies ir
      ensures (ir.State(), f) == DeclarePrototype(old(ir.State()), p)
    {
      var existing := ir.State().FunctionNamed(p.name);
      if existing.Some? {
        return existing.value;
      }
      f := ir.AddFunction(PrototypeFunction(p));
    }

    /** `emitDefinition(d)`, with the body of `withScope` written in place. */
    method EmitDefinition(d: Definition) returns (r: Outcome<nat>)
      requires topLevel.Valid()
      modifies this, ir
      ensures (r, varBindings, ir.State()) == DefinitionEmission(d, old(varBindings), topLevel.prototypeMap, old(ir.State()))
    {
      var fn := EmitPrototype(d.prototype);
      var oldBindings := varBindings;
      var arity := ir.functions[fn].Arity();
      var params := d.prototype.params;
      ghost var s1 := ir.State();
      var idx := 0;
      while idx < |params|
        invariant idx <= |params| && ir.State() == s1
        invariant BindFrom(oldBindings, params, 0, fn, arity) == BindFrom(varBindings, params, idx, fn, arity)
      {
        if idx >= arity {
          assert BindFrom(varBindings, params, idx, fn, arity) == (false, varBindings);
          return Trapped;
        }
        varBindings := varBindings[params[idx] := Parameter(fn, idx)];
        idx := idx + 1;
      }
      var entry := ir.AppendBlock(fn, "entry");
      ir.PositionAtEnd(entry);
      var v := EmitExpr(d.expr);
      if !v.Ok? {
        return v.Propagate();
      }
      var ret := ir.Build(Ret(v.value));
      varBindings := oldBindings;
      r := Ok(fn);
    }

    method EmitExpr(e: Expr) returns (r: Outcome<Value>)
      requires topLevel.Valid() && ir.State().Positioned()
      modifies ir
      ensures (r, ir.State()) == ExprEmission(e, varBindings, topLevel.prototypeMap, old(ir.State()))
      decreases e, 1
    {
      match e
      case Binary(lhs, op, rhs) =>
        r := EmitBinary(lhs, op, rhs);
      case Call(name, args) =>
        var prototype := topLevel.LookupPrototype(name);
        if prototype.None? {
          return Threw(UnknownFunction(name));
        }
        if |prototype.value.params| != |args| {
          return Threw(ArityMismatch(name, |prototype.value.params|, |args|));
        }
        var callArgs := EmitArgs(args);
        if !callArgs.Ok? {
          return callArgs.Propagate();
        }
        var fn := EmitPrototype(prototype.value);
        var v := ir.Build(CallFunction(fn, callArgs.value));
        r := Ok(v);
      case Variable(name) =>
        if name in varBindings {
          r := Ok(varBindings[name]);
        } else {
          r := Threw(UnknownVariable(name));
        }
      case Number(lexeme) =>
        r := Ok(Constant(lexeme));
    }

    method EmitBinary(lhs: Expr, op: BinaryOperator, rhs: Expr) returns (r: Outcome<Value>)
      requires topLevel.Valid() && ir.State().Positioned()
      modifies ir
      ensures (r, ir.State()) == ExprEmission(Binary(lhs, op, rhs), varBindings, topLevel.prototypeMap, old(ir.State()))
      decreases Binary(lhs, op, rhs), 0
    {
      var lhsVal := EmitExpr(lhs);
      if !lhsVal.Ok? {
        return lhsVal;
      }
      var rhsVal := EmitExpr(rhs);
      if !rhsVal.Ok? {
        return rhsVal;
      }
      var v: Value;
      match op {
        case Plus => v := ir.Build(FAdd(lhsVal.value, rhsVal.value));
        case Minus => v := ir.Build(FSub(lhsVal.value, rhsVal.value));
        case Divide => v := ir.Build(FDiv(lhsVal.value, rhsVal.value));
        case Times => v := ir.Build(FMul(lhsVal.value, rhsVal.value));
        case Mod => v := ir.Build(FRem(lhsVal.value, rhsVal.value));
      }
      r := Ok(v);
    }

    /** `try args.map(emitExpr)`. */
    method EmitArgs(args: seq<Expr>) returns (r: Outcome<seq<Value>>)
      requires topLevel.Valid() && ir.State().Positioned()
      modifies ir
      ensures (r, ir.State()) == ArgsEmission(args, 0, [], varBindings, topLevel.prototypeMap, old(ir.State()))
      decreases args
    {
      var vals: seq<Value> := [];
      var i := 0;
      while i < |args|
        invariant i <= |args| && ir.State().Positioned()
        invariant ArgsEmission(args, 0, [], varBindings, topLevel.prototypeMap, old(ir.State()))
          == ArgsEmission(args, i, vals, varBindings, topLevel.prototypeMap, ir.State())
      {
        var v := EmitExpr(args[i]);
        if !v.Ok? {
          return v.Propagate();
        }
        vals := vals + [v.value];
        i := i + 1;
      }
      r := Ok(vals);
    }
  }
}
