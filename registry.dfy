/**
 * The name-to-prototype registry shared by `File` (the extended front end)
 * and `TopLevel` (the basic one): an append-only history of registrations
 * and the dictionary `prototypeMap` in which the last registration of a
 * name wins.
 */
module Registry {
  import opened Wrappers

  /** `struct Prototype { let name: String; let params: [String] }` */
  datatype Prototype = Prototype(name: string, params: seq<string>)

  /**
   * The dictionary obtained by performing `prototypeMap[p.name] = p` for
   * every `p` of `regs`, in order, starting from the empty dictionary.
   */
  function LastWins(regs: seq<Prototype>): (r: map<string, Prototype>)
  {
    if regs == [] then map[]
    else LastWins(regs[..|regs| - 1])[regs[|regs| - 1].name := regs[|regs| - 1]]
  }

  /** The position of the most recent registration of `name`, if any. */
  function LastRegistration(regs: seq<Prototype>, name: string): (r: Option<nat>)
    ensures r.Some? ==> r.value < |regs| && regs[r.value].name == name
    ensures r.Some? ==> forall j :: r.value < j < |regs| ==> regs[j].name != name
    ensures r.None? ==> forall j :: 0 <= j < |regs| ==> regs[j].name != name
  {
    if regs == [] then None
    else if regs[|regs| - 1].name == name then Some(|regs| - 1)
    else LastRegistration(regs[..|regs| - 1], name)
  }

  /**
   * A name is a key of the registry exactly when it was registered, and
   * its entry is its most recent registration.
   */
  lemma {:induction false} LastWinsIsLastRegistration(regs: seq<Prototype>, name: string)
    ensures name in LastWins(regs) <==> LastRegistration(regs, name).Some?
    ensures name in LastWins(regs) ==> LastWins(regs)[name] == regs[LastRegistration(regs, name).value]
  {
    if regs != [] {
      LastWinsIsLastRegistration(regs[..|regs| - 1], name);
    }
  }

  /**
   * Registering `later` after `earlier`: a name registered in `later`
   * takes its entry from `later`, whatever `earlier` held; any other name
   * keeps its entry from `earlier`.
   */
  lemma {:induction false} LaterRegistrationsWin(earlier: seq<Prototype>, later: seq<Prototype>, name: string)
    ensures name in LastWins(later) ==> name in LastWins(earlier + later) && LastWins(earlier + later)[name] == LastWins(later)[name]
    ensures name !in LastWins(later) ==>
      (name in LastWins(earlier + later) <==> name in LastWins(earlier)) &&
      (name in LastWins(earlier) ==> LastWins(earlier + later)[name] == LastWins(earlier)[name])
  {
    if later == [] {
      assert earlier + later == earlier;
    } else {
      var n := |later| - 1;
      assert (earlier + later)[..|earlier + later| - 1] == earlier + later[..n];
      LaterRegistrationsWin(earlier, later[..n], name);
    }
  }

  /**
   * `regs` is an interleaving of `a` and `b` that keeps the order of each:
   * the history of registrations made through two append-only lists.
   */
  ghost predicate IsMerge(regs: seq<Prototype>, a: seq<Prototype>, b: seq<Prototype>)
    decreases |regs|
  {
    if regs == [] then a == [] && b == []
    else
      var last := regs[|regs| - 1];
      (a != [] && a[|a| - 1] == last && IsMerge(regs[..|regs| - 1], a[..|a| - 1], b)) ||
      (b != [] && b[|b| - 1] == last && IsMerge(regs[..|regs| - 1], a, b[..|b| - 1]))
  }

  /** Registering `p` through the first list keeps the interleaving and makes `p` win for its name. */
  lemma RegisterFirst(regs: seq<Prototype>, a: seq<Prototype>, b: seq<Prototype>, p: Prototype)
    requires IsMerge(regs, a, b)
    ensures IsMerge(regs + [p], a + [p], b)
    ensures LastWins(regs + [p]) == LastWins(regs)[p.name := p]
  {
    assert (regs + [p])[..|regs|] == regs;
    assert (a + [p])[..|a|] == a;
  }

  /** Registering `p` through the second list keeps the interleaving and makes `p` win for its name. */
  lemma RegisterSecond(regs: seq<Prototype>, a: seq<Prototype>, b: seq<Prototype>, p: Prototype)
    requires IsMerge(regs, a, b)
    ensures IsMerge(regs + [p], a, b + [p])
    ensures LastWins(regs + [p]) == LastWins(regs)[p.name := p]
  {
    assert (regs + [p])[..|regs|] == regs;
    assert (b + [p])[..|b|] == b;
  }

  /** Every registration comes from one of the two lists, and every entry of either list was registered. */
  lemma {:induction false} MergeMembers(regs: seq<Prototype>, a: seq<Prototype>, b: seq<Prototype>)
    requires IsMerge(regs, a, b)
    ensures |regs| == |a| + |b|
    ensures forall p :: p in regs <==> p in a || p in b
  {
    if regs != [] {
      var n := |regs| - 1;
      if a != [] && a[|a| - 1] == regs[n] && IsMerge(regs[..n], a[..|a| - 1], b) {
        MergeMembers(regs[..n], a[..|a| - 1], b);
        assert regs == regs[..n] + [regs[n]];
        assert a == a[..|a| - 1] + [a[|a| - 1]];
      } else {
        MergeMembers(regs[..n], a, b[..|b| - 1]);
        assert regs == regs[..n] + [regs[n]];
        assert b == b[..|b| - 1] + [b[|b| - 1]];
      }
    }
  }

  /**
   * Invariant of the registry: each key of `LastWins(regs)` is the name of
   * an entry of one of the two lists, and its value is such an entry.
   */
  lemma RegistryKeysComeFromLists(regs: seq<Prototype>, a: seq<Prototype>, b: seq<Prototype>, name: string)
    requires IsMerge(regs, a, b)
    requires name in LastWins(regs)
    ensures LastWins(regs)[name].name == name
    ensures LastWins(regs)[name] in a || LastWins(regs)[name] in b
  {
    LastWinsIsLastRegistration(regs, name);
    MergeMembers(regs, a, b);
  }
}
