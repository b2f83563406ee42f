/**
 * AST of the basic front end (Part4/Sources/Kaleidoscope/AST.swift):
 * expressions without conditionals, definitions, and the `TopLevel`
 * registry of externs and definitions.
 */
module BasicAst {
  import opened Wrappers
  import opened Registry
  import opened BasicLexer

  datatype Expr =
    | Number(lexeme: string)
    | Variable(name: string)
    | Binary(lhs: Expr, op: BinaryOperator, rhs: Expr)
    | Call(callee: string, args: seq<Expr>)

  datatype Definition = Definition(prototype: Prototype, expr: Expr)

  /** The prototypes of a list of definitions, in order. */
  function PrototypesOf(defs: seq<Definition>): (ps: seq<Prototype>)
    ensures |ps| == |defs|
    ensures forall k :: 0 <= k < |defs| ==> ps[k] == defs[k].prototype
  {
    if defs == [] then [] else PrototypesOf(defs[..|defs| - 1]) + [defs[|defs| - 1].prototype]
  }

  /**
   * `class TopLevel`. The ghost `registrations` records every prototype
   * passed to `addExtern` or `addDefinition`, in call order.
   */
  class TopLevel {
    var externs: seq<Prototype>
    var definitions: seq<Definition>
    var prototypeMap: map<string, Prototype>
    ghost var registrations: seq<Prototype>

    ghost predicate Valid()
      reads this
    {
      prototypeMap == LastWins(registrations) &&
      IsMerge(registrations, externs, PrototypesOf(definitions))
    }

    /**
     * `init(externs:definitions:)`: registers every extern, then every
     * definition, so a definition's prototype replaces a same-named extern's.
     */
    constructor (externs0: seq<Prototype>, definitions0: seq<Definition>)
      ensures Valid()
      ensures externs == externs0 && definitions == definitions0
      ensures registrations == externs0 + PrototypesOf(definitions0)
      ensures prototypeMap == LastWins(externs0 + PrototypesOf(definitions0))
    {
      externs, definitions, prototypeMap := [], [], map[];
      registrations := [];
      new;
      var i := 0;
      while i < |externs0|
        invariant 0 <= i <= |externs0|
        invariant Valid()
        invariant externs == externs0[..i] && definitions == []
        invariant registrations == externs0[..i]
      {
        assert externs0[..i + 1] == externs0[..i] + [externs0[i]];
        AddExtern(externs0[i]);
        i := i + 1;
      }
      assert externs0[..i] == externs0;
      var j := 0;
      while j < |definitions0|
        invariant 0 <= j <= |definitions0|
        invariant Valid()
        invariant externs == externs0 && definitions == definitions0[..j]
        invariant registrations == externs0 + PrototypesOf(definitions0[..j])
      {
        assert PrototypesOf(definitions0[..j + 1]) == PrototypesOf(definitions0[..j]) + [definitions0[j].prototype] by {
          assert definitions0[..j + 1][..j] == definitions0[..j];
        }
        AddDefinition(definitions0[j]);
        j := j + 1;
      }
      assert definitions0[..j] == definitions0;
    }

    /** `prototype(name:)`: the most recent registration of `name`, or nil if it was never registered. */
    function LookupPrototype(name: string): (r: Option<Prototype>)
      reads this
      requires Valid()
      ensures r.Some? <==> LastRegistration(registrations, name).Some?
      ensures r.Some? ==> r.value == registrations[LastRegistration(registrations, name).value]
      ensures r.Some? ==> r.value.name == name && (r.value in externs || r.value in PrototypesOf(definitions))
    {
      LastWinsIsLastRegistration(registrations, name);
      MergeMembers(registrations, externs, PrototypesOf(definitions));
      if name in prototypeMap then Some(prototypeMap[name]) else None
    }

    method AddExtern(prototype: Prototype)
      requires Valid()
      modifies this
      ensures Valid()
      ensures externs == old(externs) + [prototype]
      ensures prototypeMap == old(prototypeMap)[prototype.name := prototype]
      ensures registrations == old(registrations) + [prototype]
      ensures definitions == old(definitions)
    {
      RegisterFirst(registrations, externs, PrototypesOf(definitions), prototype);
      externs := externs + [prototype];
      prototypeMap := prototypeMap[prototype.name := prototype];
      registrations := registrations + [prototype];
    }

    method AddDefinition(definition: Definition)
      requires Valid()
      modifies this
      ensures Valid()
      ensures definitions == old(definitions) + [definition]
      ensures prototypeMap == old(prototypeMap)[definition.prototype.name := definition.prototype]
      ensures registrations == old(registrations) + [definition.prototype]
      ensures externs == old(externs)
    {
      RegisterSecond(registrations, externs, PrototypesOf(definitions), definition.prototype);
      assert (definitions + [definition])[..|definitions|] == definitions;
      definitions := definitions + [definition];
      prototypeMap := prototypeMap[definition.prototype.name := definition.prototype];
      registrations := registrations + [definition.prototype];
    }
  }

  /**
   * After `init`, a name that some definition declares maps to the last
   * such definition's prototype, whatever externs of that name came first;
   * a name only externs declare maps to the last such extern.
   */
  lemma InitPrefersDefinitions(externs0: seq<Prototype>, definitions0: seq<Definition>, name: string)
    ensures var m := LastWins(externs0 + PrototypesOf(definitions0));
      var lastDef := LastRegistration(PrototypesOf(definitions0), name);
      var lastExt := LastRegistration(externs0, name);
      && (lastDef.Some? ==> name in m && m[name] == definitions0[lastDef.value].prototype)
      && (lastDef.None? && lastExt.Some? ==> name in m && m[name] == externs0[lastExt.value])
      && (lastDef.None? && lastExt.None? ==> name !in m)
  {
    LaterRegistrationsWin(externs0, PrototypesOf(definitions0), name);
    LastWinsIsLastRegistration(PrototypesOf(definitions0), name);
    LastWinsIsLastRegistration(externs0, name);
  }
}
