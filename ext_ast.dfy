/**
 * AST of the extended front end (Part3/Sources/Kaleidoscope/AST.swift):
 * expressions with conditionals, definitions, and the `File` registry that
 * collects externs, definitions and loose top-level expressions.
 */
module ExtAst {
  import opened Wrappers
  import opened Registry
  import opened ExtLexer

  datatype Expr =
    | Number(lexeme: string)
    | Variable(name: string)
    | Binary(lhs: Expr, op: BinaryOperator, rhs: Expr)
    | IfElse(cond: Expr, thenExpr: Expr, elseExpr: Expr)
    | Call(callee: string, args: seq<Expr>)

  datatype Definition = Definition(prototype: Prototype, expr: Expr)

  /** The prototypes of a list of definitions, in order. */
  function PrototypesOf(defs: seq<Definition>): (ps: seq<Prototype>)
    ensures |ps| == |defs|
    ensures forall k :: 0 <= k < |defs| ==> ps[k] == defs[k].prototype
  {
    if defs == [] then [] else PrototypesOf(defs[..|defs| - 1]) + [defs[|defs| - 1].prototype]
  }

  /**
   * `class File`. The ghost `registrations` records every prototype passed
   * to `addExtern` or `addDefinition`, in call order; the invariant says
   * that `prototypeMap` holds the last registration of each name and that
   * the registrations are exactly the two lists, interleaved.
   */
  class File {
    var externs: seq<Prototype>
    var definitions: seq<Definition>
    var expressions: seq<Expr>
    var prototypeMap: map<string, Prototype>
    ghost var registrations: seq<Prototype>

    ghost predicate Valid()
      reads this
    {
      prototypeMap == LastWins(registrations) &&
      IsMerge(registrations, externs, PrototypesOf(definitions))
    }

    constructor ()
      ensures Valid()
      ensures externs == [] && definitions == [] && expressions == [] && prototypeMap == map[]
      ensures registrations == []
    {
      externs, definitions, expressions, prototypeMap := [], [], [], map[];
      registrations := [];
    }

    /** `prototype(name:)`: the most recent registration of `name`, or nil if it was never registered. */
    function LookupPrototype(name: string): (r: Option<Prototype>)
      reads this
      requires Valid()
      ensures r.Some? <==> LastRegistration(registrations, name).Some?
      ensures r.Some? ==> r.value == registrations[LastRegistration(registrations, name).value]
      ensures r.Some? ==> r.value.name == name && (r.value in externs || r.value in PrototypesOf(definitions))
    {
      LastWinsIsLastRegistration(registrations, name);
      MergeMembers(registrations, externs, PrototypesOf(definitions));
      if name in prototypeMap then Some(prototypeMap[name]) else None
    }

    method AddExpression(expression: Expr)
      requires Valid()
      modifies this
      ensures Valid()
      ensures expressions == old(expressions) + [expression]
      ensures externs == old(externs) && definitions == old(definitions)
      ensures prototypeMap == old(prototypeMap) && registrations == old(registrations)
    {
      expressions := expressions + [expression];
    }

    method AddExtern(prototype: Prototype)
      requires Valid()
      modifies this
      ensures Valid()
      ensures externs == old(externs) + [prototype]
      ensures prototypeMap == old(prototypeMap)[prototype.name := prototype]
      ensures registrations == old(registrations) + [prototype]
      ensures definitions == old(definitions) && expressions == old(expressions)
    {
      RegisterFirst(registrations, externs, PrototypesOf(definitions), prototype);
      externs := externs + [prototype];
      prototypeMap := prototypeMap[prototype.name := prototype];
      registrations := registrations + [prototype];
    }

    method AddDefinition(definition: Definition)
      requires Valid()
      modifies this
      ensures Valid()
      ensures definitions == old(definitions) + [definition]
      ensures prototypeMap == old(prototypeMap)[definition.prototype.name := definition.prototype]
      ensures registrations == old(registrations) + [definition.prototype]
      ensures externs == old(externs) && expressions == old(expressions)
    {
      RegisterSecond(registrations, externs, PrototypesOf(definitions), definition.prototype);
      assert (definitions + [definition])[..|definitions|] == definitions;
      definitions := definitions + [definition];
      prototypeMap := prototypeMap[definition.prototype.name := definition.prototype];
      registrations := registrations + [definition.prototype];
    }
  }
}
