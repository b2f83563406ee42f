/**
 * The two steps that both IR generators perform identically: declaring a
 * prototype (`emitPrototype`) and binding a definition's parameter names
 * to the function's parameters.
 */
module Emission {
  import opened Wrappers
  import opened Registry
  import opened Backend

  /** The function `emitPrototype` adds for `p`: one double parameter per name, returning double. */
  function PrototypeFunction(p: Prototype): (r: Function)
  {
    Function(p.name, FunctionType(seq(|p.params|, _ => DoubleType), DoubleType, false), p.params)
  }

  /**
   * `emitPrototype(p)`: the function the module already has under
   * `p.name`, or else a newly added one.
   */
  function DeclarePrototype(s: ModuleState, p: Prototype): (r: (ModuleState, nat))
  {
    match s.FunctionNamed(p.name)
    case Some(f) => (s, f)
    case None => s.AddFunction(PrototypeFunction(p))
  }

  /**
   * When the module has no function of that name, `emitPrototype` adds
   * exactly one, at the end, with `p.params.count` double parameters named
   * in order and a double result; later lookups of the name find it.
   * Otherwise it changes nothing and returns the existing function.
   */
  lemma DeclareShape(s: ModuleState, p: Prototype)
    ensures var (s1, f) := DeclarePrototype(s, p);
      && s.Extends(s1) && s1.blocks == s.blocks && s1.instructions == s.instructions
      && s1.insertBlock == s.insertBlock
      && f < |s1.functions| && s1.functions[f].name == p.name && s1.FunctionNamed(p.name) == Some(f)
      && (s.FunctionNamed(p.name).Some? ==> s1 == s && Some(f) == s.FunctionNamed(p.name))
      && (s.FunctionNamed(p.name).None? ==>
            && f == |s.functions| && s1.functions == s.functions + [s1.functions[f]]
            && s1.functions[f].Arity() == |p.params|
            && (forall k :: 0 <= k < |p.params| ==> s1.functions[f].fnType.params[k] == DoubleType)
            && s1.functions[f].fnType.result == DoubleType && !s1.functions[f].fnType.isVarArg
            && s1.functions[f].paramNames == p.params)
  {
    var (s1, f) := DeclarePrototype(s, p);
    if s.FunctionNamed(p.name).None? {
      assert s1.functions == s.functions + [PrototypeFunction(p)];
      assert FirstNamed(s1.functions, p.name, |s.functions|) == Some(f);
      FirstNamedSkips(s1.functions, p.name, 0, |s.functions|);
    }
  }

  /** A name absent from a prefix of the functions is looked up in the rest. */
  lemma {:induction false} FirstNamedSkips(fs: seq<Function>, name: string, from: nat, to: nat)
    requires from <= to <= |fs|
    requires forall k :: from <= k < to ==> fs[k].name != name
    ensures FirstNamed(fs, name, from) == FirstNamed(fs, name, to)
    decreases |fs| - from
  {
    if from < to {
      FirstNamedSkips(fs, name, from + 1, to);
    }
  }

  /** `emitPrototype` is idempotent by name: a second declaration returns the same function and adds nothing. */
  lemma DeclareIdempotent(s: ModuleState, p: Prototype)
    ensures DeclarePrototype(DeclarePrototype(s, p).0, p) == DeclarePrototype(s, p)
  {
    DeclareShape(s, p);
  }

  /**
   * The loop `for (idx, arg) in params.enumerated() { bindings[arg] =
   * function.parameter(at: idx)! }` from position `k`: the bindings
   * reached, and whether the loop finished (`false` when an index is not
   * below the function's `arity`, where the force unwrap traps).
   */
  function BindFrom(bindings: map<string, Value>, params: seq<string>, k: nat, fn: nat, arity: nat): (r: (bool, map<string, Value>))
    requires k <= |params|
    decreases |params| - k
  {
    if k == |params| then (true, bindings)
    else if k >= arity then (false, bindings)
    else BindFrom(bindings[params[k] := Parameter(fn, k)], params, k + 1, fn, arity)
  }

  /** The last position of `name` in `params`, if it occurs. */
  function LastIndexOf(params: seq<string>, name: string): (r: Option<nat>)
    ensures r.Some? ==> r.value < |params| && params[r.value] == name
    ensures r.Some? ==> forall j :: r.value < j < |params| ==> params[j] != name
    ensures r.None? ==> name !in params
  {
    if params == [] then None
    else if params[|params| - 1] == name then Some(|params| - 1)
    else LastIndexOf(params[..|params| - 1], name)
  }

  /**
   * Binding parameters completes exactly when the function has at least
   * as many parameters as there are names. Each name is then bound to the
   * parameter at its last position (a later duplicate wins), and every
   * other name keeps its earlier binding.
   */
  lemma BindMeaning(bindings: map<string, Value>, params: seq<string>, fn: nat, arity: nat, name: string)
    ensures BindFrom(bindings, params, 0, fn, arity).0 <==> |params| <= arity
    ensures var (done, m) := BindFrom(bindings, params, 0, fn, arity);
      done ==>
        && (name in params ==> name in m && m[name] == Parameter(fn, LastIndexOf(params, name).value))
        && (name !in params ==> (name in m <==> name in bindings) && (name in bindings ==> m[name] == bindings[name]))
  {
    BindDone(bindings, params, 0, fn, arity);
    if |params| <= arity {
      BindUpTo(bindings, params, |params|, fn, arity);
      assert params[..|params|] == params;
      BoundMeaning(bindings, params, fn, name);
    }
  }

  lemma {:induction false} BindDone(bindings: map<string, Value>, params: seq<string>, k: nat, fn: nat, arity: nat)
    requires k <= |params|
    ensures BindFrom(bindings, params, k, fn, arity).0 <==> k == |params| || |params| <= arity
    decreases |params| - k
  {
    if k < |params| && k < arity {
      BindDone(bindings[params[k] := Parameter(fn, k)], params, k + 1, fn, arity);
    }
  }

  /** The loop's invariant: after `k` names, the bindings are those of the closed form. */
  lemma {:induction false} BindUpTo(bindings: map<string, Value>, params: seq<string>, k: nat, fn: nat, arity: nat)
    requires k <= |params| && k <= arity
    ensures BindFrom(bindings, params, 0, fn, arity) == BindFrom(Bound(bindings, params[..k], fn), params, k, fn, arity)
    decreases k
  {
    if k > 0 {
      BindUpTo(bindings, params, k - 1, fn, arity);
      assert params[..k][..k - 1] == params[..k - 1];
    } else {
      assert params[..0] == [];
    }
  }

  /** The bindings after all of `names` were bound from position 0, as a closed form. */
  function Bound(bindings: map<string, Value>, names: seq<string>, fn: nat): (r: map<string, Value>)
  {
    if names == [] then bindings
    else Bound(bindings, names[..|names| - 1], fn)[names[|names| - 1] := Parameter(fn, |names| - 1)]
  }

  lemma {:induction false} BoundMeaning(bindings: map<string, Value>, names: seq<string>, fn: nat, name: string)
    ensures name in names ==>
      name in Bound(bindings, names, fn) && Bound(bindings, names, fn)[name] == Parameter(fn, LastIndexOf(names, name).value)
    ensures name !in names ==>
      (name in Bound(bindings, names, fn) <==> name in bindings) &&
      (name in bindings ==> Bound(bindings, names, fn)[name] == bindings[name])
  {
    if names != [] {
      var init := names[..|names| - 1];
      BoundMeaning(bindings, init, fn, name);
      if name != names[|names| - 1] {
        assert name in names <==> name in init by {
          assert names == init + [names[|names| - 1]];
        }
      }
    }
  }

  /**
   * Starting from no bindings, the body of a definition sees exactly its
   * parameter names, each bound to the function's parameter at the name's
   * last position.
   */
  lemma FreshScope(params: seq<string>, f: nat, name: string)
    ensures name in Bound(map[], params, f) <==> name in params
    ensures name in params ==> Bound(map[], params, f)[name] == Parameter(f, LastIndexOf(params, name).value)
  {
    BoundMeaning(map[], params, f, name);
  }
}
