/**
 * The part of LLVM that both IR generators use, reduced to what they
 * observe: a module whose functions, basic blocks and instructions only
 * grow, and the builder's insertion point. Function, block and instruction
 * handles are positions in those lists. Nothing is evaluated: a number
 * constant keeps its lexeme.
 */
module Backend {
  import opened Wrappers

  datatype IRType = DoubleType | VoidType | Int32Type | Int8PointerType

  datatype FunctionType = FunctionType(params: seq<IRType>, result: IRType, isVarArg: bool)

  /** A declared function and the names given to its parameters. */
  datatype Function = Function(name: string, fnType: FunctionType, paramNames: seq<string>)
  {
    function Arity(): (r: nat) { |fnType.params| }
  }

  /** A basic block, appended to the function with handle `owner`. */
  datatype Block = Block(owner: nat, name: string)

  datatype Value =
    | Constant(lexeme: string)              // `FloatType.double.constant(value)`
    | Zero                                  // `FloatType.double.constant(0.0)`
    | Parameter(fn: nat, index: nat)        // `function.parameter(at: index)`
    | Result(instruction: nat)              // the value an instruction computes
    | GlobalString(text: string)            // `buildGlobalStringPtr(text)`

  datatype Comparison = OrderedEqual | OrderedNotEqual

  datatype Instruction =
    | FAdd(lhs: Value, rhs: Value)
    | FSub(lhs: Value, rhs: Value)
    | FMul(lhs: Value, rhs: Value)
    | FDiv(lhs: Value, rhs: Value)
    | FRem(lhs: Value, rhs: Value)
    | FCmp(lhs: Value, rhs: Value, comparison: Comparison)
    | UIToFP(operand: Value)
    | CallFunction(callee: nat, args: seq<Value>)
    | CondBr(condition: Value, thenBlock: nat, elseBlock: nat)
    | Br(target: nat)
    | Phi(incoming: seq<(Value, nat)>)
    | Ret(value: Value)
    | RetVoid

  /** An instruction and the block it was appended to. */
  datatype Placed = Placed(block: nat, instruction: Instruction)

  /** The first function called `name`: LLVM keeps names unique by renaming later ones. */
  function FirstNamed(fs: seq<Function>, name: string, from: nat): (r: Option<nat>)
    requires from <= |fs|
    ensures r.Some? ==> from <= r.value < |fs| && fs[r.value].name == name
    ensures r.Some? ==> forall k :: from <= k < r.value ==> fs[k].name != name
    ensures r.None? ==> forall k :: from <= k < |fs| ==> fs[k].name != name
    decreases |fs| - from
  {
    if from == |fs| then None
    else if fs[from].name == name then Some(from)
    else FirstNamed(fs, name, from + 1)
  }

  /** A snapshot of a module together with the builder's insertion block. */
  datatype ModuleState = ModuleState(
    functions: seq<Function>,
    blocks: seq<Block>,
    instructions: seq<Placed>,
    insertBlock: Option<nat>)
  {
    /** The builder has been positioned at the end of an existing block. */
    predicate Positioned()
    {
      insertBlock.Some? && insertBlock.value < |blocks|
    }

    /** `builder.currentFunction`: the function owning the insertion block. */
    function CurrentFunction(): (r: nat)
      requires Positioned()
    {
      blocks[insertBlock.value].owner
    }

    /** `module.function(named:)`. */
    function FunctionNamed(name: string): (r: Option<nat>)
    {
      FirstNamed(functions, name, 0)
    }

    /** `builder.addFunction`: the new function's handle is its position. */
    function AddFunction(f: Function): (r: (ModuleState, nat))
    {
      (this.(functions := functions + [f]), |functions|)
    }

    /** `function.appendBasicBlock(named:)`. */
    function AppendBlock(owner: nat, name: string): (r: (ModuleState, nat))
    {
      (this.(blocks := blocks + [Block(owner, name)]), |blocks|)
    }

    /** `builder.positionAtEnd(of:)`. */
    function PositionAtEnd(block: nat): (r: ModuleState)
      requires block < |blocks|
    {
      this.(insertBlock := Some(block))
    }

    /** Any `builder.build…` call: the instruction goes to the end of the insertion block. */
    function Build(i: Instruction): (r: (ModuleState, Value))
      requires Positioned()
    {
      (this.(instructions := instructions + [Placed(insertBlock.value, i)]), Result(|instructions|))
    }

    /** `later` is this module after further additions. */
    predicate Extends(later: ModuleState)
    {
      functions <= later.functions && blocks <= later.blocks && instructions <= later.instructions
    }

    /** The block `from` holds a branch to the block `to`. */
    ghost predicate BranchesTo(from: nat, to: nat)
    {
      exists k :: 0 <= k < |instructions| && instructions[k].block == from &&
        (instructions[k].instruction == Br(to) ||
         (instructions[k].instruction.CondBr? &&
          (instructions[k].instruction.thenBlock == to || instructions[k].instruction.elseBlock == to)))
    }
  }

  /** The empty module, before the builder is positioned. */
  const EmptyModule := ModuleState([], [], [], None)

  lemma ExtendsTransitive(a: ModuleState, b: ModuleState, c: ModuleState)
    requires a.Extends(b) && b.Extends(c)
    ensures a.Extends(c)
  {
  }

  /** A function found by name stays the one found in every later module. */
  lemma FunctionNamedPersists(a: ModuleState, b: ModuleState, name: string)
    requires a.Extends(b) && a.FunctionNamed(name).Some?
    ensures b.FunctionNamed(name) == a.FunctionNamed(name)
  {
    FirstNamedPersists(a.functions, b.functions, name, 0);
  }

  lemma {:induction false} FirstNamedPersists(fs: seq<Function>, gs: seq<Function>, name: string, from: nat)
    requires fs <= gs && from <= |fs| && FirstNamed(fs, name, from).Some?
    ensures FirstNamed(gs, name, from) == FirstNamed(fs, name, from)
    decreases |fs| - from
  {
    if fs[from].name != name {
      FirstNamedPersists(fs, gs, name, from + 1);
    }
  }

  /** Building a branch in the insertion block makes that block branch to its target. */
  lemma BranchBuilt(s: ModuleState, to: nat)
    requires s.Positioned()
    ensures s.Build(Br(to)).0.BranchesTo(s.insertBlock.value, to)
  {
    assert s.Build(Br(to)).0.instructions[|s.instructions|] == Placed(s.insertBlock.value, Br(to));
  }

  /** A branch, once emitted, stays in every later module. */
  lemma BranchesPersist(a: ModuleState, b: ModuleState, from: nat, to: nat)
    requires a.Extends(b) && a.BranchesTo(from, to)
    ensures b.BranchesTo(from, to)
  {
    var k :| 0 <= k < |a.instructions| && a.instructions[k].block == from &&
      (a.instructions[k].instruction == Br(to) ||
       (a.instructions[k].instruction.CondBr? &&
        (a.instructions[k].instruction.thenBlock == to || a.instructions[k].instruction.elseBlock == to)));
    assert b.instructions[k] == a.instructions[k];
  }

  /**
   * The LLVM module and builder of an `IRGenerator`, updated in place; its
   * state is the snapshot `State()`.
   */
  class Module {
    var functions: seq<Function>
    var blocks: seq<Block>
    var instructions: seq<Placed>
    var insertBlock: Option<nat>

    function State(): (r: ModuleState)
      reads this
    {
      ModuleState(functions, blocks, instructions, insertBlock)
    }

    constructor ()
      ensures State() == EmptyModule
    {
      functions, blocks, instructions, insertBlock := [], [], [], None;
    }

    method AddFunction(f: Function) returns (h: nat)
      modifies this
      ensures (State(), h) == old(State()).AddFunction(f)
    {
      h := |functions|;
      functions := functions + [f];
    }

    method AppendBlock(owner: nat, name: string) returns (b: nat)
      modifies this
      ensures (State(), b) == old(State()).AppendBlock(owner, name)
    {
      b := |blocks|;
      blocks := blocks + [Block(owner, name)];
    }

    method PositionAtEnd(block: nat)
      requires block < |blocks|
      modifies this
      ensures State() == old(State()).PositionAtEnd(block)
    {
      insertBlock := Some(block);
    }

    method Build(i: Instruction) returns (v: Value)
      requires State().Positioned()
      modifies this
      ensures (State(), v) == old(State()).Build(i)
    {
      v := Result(|instructions|);
      instructions := instructions + [Placed(insertBlock.value, i)];
    }
  }
}
