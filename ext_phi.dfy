/**
 * The incoming blocks of the phi that closes a conditional
 * (Part4/Sources/Kaleidoscope/IRGenerator.swift, lines 168-192).
 *
 * As written, the phi names the `then` and `else` blocks created for the
 * conditional. When an arm is itself a conditional, the arm's branch to
 * `merge` is emitted from the inner conditional's `merge` block, so the
 * block the phi names is not a predecessor of `merge` and LLVM's module
 * verifier rejects the function. The evident intent, that each incoming
 * block is a predecessor of `merge`, holds when the phi names the blocks
 * the builder was in when it emitted each branch (`BranchingBlocks`).
 */
module ExtPhi {
  import opened Wrappers
  import opened Registry
  import opened ExtLexer
  import opened ExtAst
  import opened Backend
  import opened ExtIrGen

  /** The last instruction of a module is a phi in block `block` with exactly these incoming pairs. */
  predicate EndsWithPhi(s: ModuleState, block: nat, incoming: seq<(Value, nat)>)
  {
    |s.instructions| > 0 && s.instructions[|s.instructions| - 1] == Placed(block, Phi(incoming))
  }

  /**
   * `v` is the last instruction of `s`, a phi in block `merge` over two
   * incoming pairs whose blocks each branch to `merge`.
   */
  ghost predicate PhiOverPredecessors(v: Value, s: ModuleState, merge: nat)
  {
    exists incoming: seq<(Value, nat)> ::
      && EndsWithPhi(s, merge, incoming) && |incoming| == 2
      && v == Result(|s.instructions| - 1)
      && s.BranchesTo(incoming[0].1, merge) && s.BranchesTo(incoming[1].1, merge)
  }

  /**
   * With the corrected rule, a conditional that emits ends with a phi at
   * the builder's final block, one of the blocks it appended, and each
   * block the phi names branches to that block.
   */
  lemma IntendedPhiPredecessors(e: Expr, bindings: map<string, Value>, registry: map<string, Prototype>, s: ModuleState)
    requires e.IfElse? && s.Positioned()
    ensures var (r, s1) := IfElseEmission(e, bindings, registry, s, BranchingBlocks);
      r.Ok? ==>
        && |s.blocks| <= s1.insertBlock.value
        && PhiOverPredecessors(r.value, s1, s1.insertBlock.value)
  {
    var (c, s1) := ExprEmission(e.cond, bindings, registry, s, BranchingBlocks);
    if c.Ok? {
      var (s2, check) := s1.Build(FCmp(c.value, Zero, OrderedNotEqual));
      var fn := s2.CurrentFunction();
      var (s3, thenBB) := s2.AppendBlock(fn, "then");
      var (s4, elseBB) := s3.AppendBlock(fn, "else");
      var (s5, mergeBB) := s4.AppendBlock(fn, "merge");
      var (s6, _) := s5.Build(CondBr(check, thenBB, elseBB));
      assert IfElseEmission(e, bindings, registry, s, BranchingBlocks) == ArmsEmission(e, thenBB, elseBB, mergeBB, bindings, registry, s6, BranchingBlocks);
      assert |s.blocks| <= mergeBB;
      ArmsPredecessors(e, thenBB, elseBB, mergeBB, bindings, registry, s6);
    }
  }

  lemma ArmsPredecessors(e: Expr, thenBB: nat, elseBB: nat, mergeBB: nat, bindings: map<string, Value>, registry: map<string, Prototype>, s: ModuleState)
    requires e.IfElse? && s.Positioned() && thenBB < |s.blocks| && elseBB < |s.blocks| && mergeBB < |s.blocks|
    ensures var (r, s1) := ArmsEmission(e, thenBB, elseBB, mergeBB, bindings, registry, s, BranchingBlocks);
      r.Ok? ==>
        && s1.insertBlock == Some(mergeBB)
        && PhiOverPredecessors(r.value, s1, mergeBB)
  {
    var (t, s1) := ExprEmission(e.thenExpr, bindings, registry, s.PositionAtEnd(thenBB), BranchingBlocks);
    if t.Ok? {
      var (s2, _) := s1.Build(Br(mergeBB));
      BranchBuilt(s1, mergeBB);
      var (f, s3) := ExprEmission(e.elseExpr, bindings, registry, s2.PositionAtEnd(elseBB), BranchingBlocks);
      if f.Ok? {
        PhiCloses(t.value, s1.insertBlock.value, s2, f.value, s3, mergeBB);
      }
    }
  }

  /**
   * Closing the arms: once the `then` arm's final block branches to
   * `merge`, the branch from the `else` arm's final block and the phi over
   * both final blocks leave a phi at `merge` whose two incoming blocks
   * branch to `merge`.
   */
  lemma PhiCloses(tv: Value, thenEnd: nat, s2: ModuleState, fv: Value, s3: ModuleState, mergeBB: nat)
    requires s3.Positioned() && s2.Extends(s3) && s2.BranchesTo(thenEnd, mergeBB) && mergeBB < |s3.blocks|
    ensures var s4 := s3.Build(Br(mergeBB)).0;
      var incoming := [(tv, thenEnd), (fv, s3.insertBlock.value)];
      var (s5, phi) := s4.PositionAtEnd(mergeBB).Build(Phi(incoming));
      s5.insertBlock == Some(mergeBB) && PhiOverPredecessors(phi, s5, mergeBB)
  {
    var s4 := s3.Build(Br(mergeBB)).0;
    BranchBuilt(s3, mergeBB);
    var incoming := [(tv, thenEnd), (fv, s3.insertBlock.value)];
    var s5 := s4.PositionAtEnd(mergeBB).Build(Phi(incoming)).0;
    BranchesPersist(s2, s5, thenEnd, mergeBB);
    BranchesPersist(s4, s5, s3.insertBlock.value, mergeBB);
    assert EndsWithPhi(s5, mergeBB, incoming);
  }

  /** `if a then (if b then 1 else 2) else 3`. */
  const Nested := IfElse(Variable("a"), IfElse(Variable("b"), Expr.Number("1"), Expr.Number("2")), Expr.Number("3"))

  /** A function `f(a, b)` whose entry block is the builder's insertion block. */
  const InF := ModuleState(
    [Function("f", FunctionType([DoubleType, DoubleType], DoubleType, false), ["a", "b"])],
    [Block(0, "entry")], [], Some(0))

  const ParamsOfF := map["a" := Parameter(0, 0), "b" := Parameter(0, 1)]

  /** The blocks appended while emitting `Nested` in `f`, after the entry block. */
  const NestedBlocks := [Block(0, "entry"), Block(0, "then"), Block(0, "else"), Block(0, "merge"),
    Block(0, "then"), Block(0, "else"), Block(0, "merge")]

  /** The instructions emitting `Nested` in `f` places, in order. */
  const NestedInstructions := [
    Placed(0, FCmp(Parameter(0, 0), Zero, OrderedNotEqual)),
    Placed(0, CondBr(Result(0), 1, 2)),
    Placed(1, FCmp(Parameter(0, 1), Zero, OrderedNotEqual)),
    Placed(1, CondBr(Result(2), 4, 5)),
    Placed(4, Br(6)),
    Placed(5, Br(6)),
    Placed(6, Phi([(Constant("1"), 4), (Constant("2"), 5)])),
    Placed(6, Br(3)),
    Placed(2, Br(3)),
    Placed(3, Phi([(Result(6), 1), (Constant("3"), 2)]))]

  lemma SliceFacts()
    ensures NestedBlocks[..4] == [Block(0, "entry"), Block(0, "then"), Block(0, "else"), Block(0, "merge")]
    ensures NestedInstructions[..10] == NestedInstructions
    ensures forall n :: 0 <= n < |NestedInstructions| ==> NestedInstructions[..n + 1] == NestedInstructions[..n] + [NestedInstructions[n]]
  {
    forall n | 0 <= n < |NestedInstructions|
      ensures NestedInstructions[..n + 1] == NestedInstructions[..n] + [NestedInstructions[n]]
    {
    }
  }

  /** The module after `count` instructions and `blocks` blocks, with the builder in block `at`. */
  function NestedState(blocks: nat, count: nat, at: nat): (r: ModuleState)
    requires blocks <= |NestedBlocks| && count <= |NestedInstructions|
  {
    ModuleState(InF.functions, NestedBlocks[..blocks], NestedInstructions[..count], Some(at))
  }

  /** The outer condition: compared, three blocks appended, and the conditional branch. */
  lemma OuterCondition()
    ensures IfElseEmission(Nested, ParamsOfF, map[], InF, CreatedBlocks) == ArmsEmission(Nested, 1, 2, 3, ParamsOfF, map[], NestedState(4, 2, 0), CreatedBlocks)
  {
    SliceFacts();
    assert ExprEmission(Variable("a"), ParamsOfF, map[], InF, CreatedBlocks) == (Ok(Parameter(0, 0)), InF);
    var (t2, check) := InF.Build(FCmp(Parameter(0, 0), Zero, OrderedNotEqual));
    assert check == Result(0) && t2.instructions == NestedInstructions[..1];
    assert t2.CurrentFunction() == 0;
    var t5 := t2.AppendBlock(0, "then").0.AppendBlock(0, "else").0.AppendBlock(0, "merge").0;
    assert t5.blocks == NestedBlocks[..4];
    assert t5.Build(CondBr(check, 1, 2)).0 == NestedState(4, 2, 0);
  }

  /** The inner condition, in the outer `then` block. */
  lemma InnerCondition()
    ensures IfElseEmission(Nested.thenExpr, ParamsOfF, map[], NestedState(4, 2, 1), CreatedBlocks) == ArmsEmission(Nested.thenExpr, 4, 5, 6, ParamsOfF, map[], NestedState(7, 4, 1), CreatedBlocks)
  {
    SliceFacts();
    var s := NestedState(4, 2, 1);
    assert ExprEmission(Variable("b"), ParamsOfF, map[], s, CreatedBlocks) == (Ok(Parameter(0, 1)), s);
    var (t2, check) := s.Build(FCmp(Parameter(0, 1), Zero, OrderedNotEqual));
    assert check == Result(2) && t2.instructions == NestedInstructions[..3];
    assert t2.CurrentFunction() == 0;
    var t5 := t2.AppendBlock(0, "then").0.AppendBlock(0, "else").0.AppendBlock(0, "merge").0;
    assert t5.blocks == NestedBlocks[..7];
    assert t5.Build(CondBr(check, 4, 5)).0 == NestedState(7, 4, 1);
  }

  /** The inner arms and phi. */
  lemma InnerArms()
    ensures ArmsEmission(Nested.thenExpr, 4, 5, 6, ParamsOfF, map[], NestedState(7, 4, 1), CreatedBlocks) == (Ok(Result(6)), NestedState(7, 7, 6))
  {
    SliceFacts();
    var inner := Nested.thenExpr;
    var s := NestedState(7, 4, 1);
    assert ExprEmission(Expr.Number("1"), ParamsOfF, map[], s.PositionAtEnd(4), CreatedBlocks) == (Ok(Constant("1")), s.PositionAtEnd(4));
    assert s.PositionAtEnd(4).Build(Br(6)).0 == NestedState(7, 5, 4);
    assert ExprEmission(Expr.Number("2"), ParamsOfF, map[], NestedState(7, 5, 5), CreatedBlocks) == (Ok(Constant("2")), NestedState(7, 5, 5));
    assert NestedState(7, 5, 5).Build(Br(6)).0 == NestedState(7, 6, 5);
    assert NestedState(7, 6, 6).Build(Phi([(Constant("1"), 4), (Constant("2"), 5)])) == (NestedState(7, 7, 6), Result(6));
  }

  /** The outer arms and phi. */
  lemma OuterArms()
    ensures ArmsEmission(Nested, 1, 2, 3, ParamsOfF, map[], NestedState(4, 2, 0), CreatedBlocks) == (Ok(Result(9)), NestedState(7, 10, 3))
  {
    SliceFacts();
    InnerCondition();
    InnerArms();
    assert ExprEmission(Nested.thenExpr, ParamsOfF, map[], NestedState(4, 2, 1), CreatedBlocks) == (Ok(Result(6)), NestedState(7, 7, 6));
    assert NestedState(7, 7, 6).Build(Br(3)).0 == NestedState(7, 8, 6);
    assert ExprEmission(Expr.Number("3"), ParamsOfF, map[], NestedState(7, 8, 2), CreatedBlocks) == (Ok(Constant("3")), NestedState(7, 8, 2));
    assert NestedState(7, 8, 2).Build(Br(3)).0 == NestedState(7, 9, 2);
    assert NestedState(7, 9, 3).Build(Phi([(Result(6), 1), (Constant("3"), 2)])) == (NestedState(7, 10, 3), Result(9));
  }

  /** In the final module, block 1 does not branch to block 3, and block 6 does. */
  lemma NestedBranches()
    ensures !NestedState(7, 10, 3).BranchesTo(1, 3) && NestedState(7, 10, 3).BranchesTo(6, 3)
  {
    SliceFacts();
    var s := NestedState(7, 10, 3);
    assert s.instructions == NestedInstructions;
    assert s.instructions[7] == Placed(6, Br(3));
  }

  /**
   * As written, emitting `Nested` in `f` ends with a phi at the outer
   * `merge` (block 3) that names the outer `then` block (block 1). Block 1
   * holds only the inner conditional branch, to blocks 4 and 5, so it is
   * not a predecessor of block 3; the actual predecessor is the inner
   * `merge` (block 6).
   */
  lemma NestedPhiNamesNonPredecessor()
    ensures var (r, s1) := ExprEmission(Nested, ParamsOfF, map[], InF, CreatedBlocks);
      && r.Ok?
      && EndsWithPhi(s1, 3, [(Result(6), 1), (Constant("3"), 2)])
      && !s1.BranchesTo(1, 3) && s1.BranchesTo(6, 3)
  {
    OuterCondition();
    OuterArms();
    NestedBranches();
    SliceFacts();
  }
}
