/** The dependency graph of one recalculation: each line's `dependencies`
    (the lines its variable and `_calcN` references resolve to) and the
    transposed `dependents` lists the propagation walks. */
module Graph {
  import opened Wrappers
  import opened References
  import opened Keys
  import opened Identity

  /** The lines the variable references `refs` of line `i` resolve to
      through the variable table, in reference order, leaving out the line
      itself and names no line assigns. */
  function ResolveVariables(variables: map<string, nat>, refs: seq<string>, i: nat): (d: seq<nat>)
    ensures i !in d
    ensures forall x :: x in d ==> exists r :: r in refs && r in variables && variables[r] == x
  {
    if |refs| == 0 then []
    else
      var r := refs[0];
      (if r in variables && variables[r] != i then [variables[r]] else []) + ResolveVariables(variables, refs[1..], i)
  }

  lemma {:induction false} ResolveVariablesComplete(variables: map<string, nat>, refs: seq<string>, i: nat, r: string)
    requires r in refs && r in variables && variables[r] != i
    ensures variables[r] in ResolveVariables(variables, refs, i)
  {
    if refs[0] != r {
      assert r in refs[1..];
      ResolveVariablesComplete(variables, refs[1..], i, r);
    }
  }

  /** The lines the `_calcN` references `refs` of line `i` resolve to
      through `findLineIndexById`, leaving out the line itself and ids no
      line holds. */
  function ResolveCalcs(idMapping: map<nat, string>, refs: seq<CalcRef>, i: nat): (d: seq<nat>)
    ensures i !in d
    ensures forall x :: x in d ==> exists c :: c in refs && FindLineIndexById(idMapping, c.id) == x
  {
    if |refs| == 0 then []
    else
      var at := FindLineIndexById(idMapping, refs[0].id);
      (if at != -1 && at != i then [at as nat] else []) + ResolveCalcs(idMapping, refs[1..], i)
  }

  lemma {:induction false} ResolveCalcsComplete(idMapping: map<nat, string>, refs: seq<CalcRef>, i: nat, c: CalcRef)
    requires c in refs && FindLineIndexById(idMapping, c.id) != -1 && FindLineIndexById(idMapping, c.id) != i
    ensures FindLineIndexById(idMapping, c.id) as nat in ResolveCalcs(idMapping, refs, i)
  {
    if refs[0] != c {
      assert c in refs[1..];
      ResolveCalcsComplete(idMapping, refs[1..], i, c);
    }
  }

  /** `dependencies[i]` for a line that takes part: its variable references'
      lines, then its `_calcN` references' lines (duplicates kept). */
  function Dependencies(variables: map<string, nat>, idMapping: map<nat, string>, line: string, i: nat): seq<nat> {
    ResolveVariables(variables, FindVariableReferences(line), i) + ResolveCalcs(idMapping, FindCalcReferences(line), i)
  }

  /** A line depends on `x` exactly when `x` is not the line itself and one
      of its variable tokens is assigned on line `x` or one of its
      `_calcN` references names an id whose first holder is `x`. A `_calcN`
      whose id no line holds resolves to -1 and so adds nothing. */
  lemma DependenciesMeaning(variables: map<string, nat>, idMapping: map<nat, string>, line: string, i: nat, x: nat)
    ensures x in Dependencies(variables, idMapping, line, i) <==>
            x != i
            && ((exists r :: r in FindVariableReferences(line) && r in variables && variables[r] == x)
                || (exists c :: c in FindCalcReferences(line) && FindLineIndexById(idMapping, c.id) == x))
  {
    if x != i {
      if r :| r in FindVariableReferences(line) && r in variables && variables[r] == x {
        ResolveVariablesComplete(variables, FindVariableReferences(line), i, r);
      }
      if c :| c in FindCalcReferences(line) && FindLineIndexById(idMapping, c.id) == x {
        ResolveCalcsComplete(idMapping, FindCalcReferences(line), i, c);
      }
    }
  }

  /** The two tables the second pass builds. */
  datatype Graph = Graph(dependencies: map<nat, seq<nat>>, dependents: map<nat, seq<nat>>)

  /** `dependents[a] || []`. */
  function DependentsOf(dependents: map<nat, seq<nat>>, a: nat): seq<nat> {
    if a in dependents then dependents[a] else []
  }

  /** Record that line `i` depends on `d`, unless `dependents[d]` already
      lists it. */
  function AddDependent(dependents: map<nat, seq<nat>>, d: nat, i: nat): map<nat, seq<nat>> {
    var cur := DependentsOf(dependents, d);
    if i in cur then dependents else dependents[d := cur + [i]]
  }

  function AddDependents(dependents: map<nat, seq<nat>>, deps: seq<nat>, i: nat): map<nat, seq<nat>>
    decreases |deps|
  {
    if |deps| == 0 then dependents else AddDependents(AddDependent(dependents, deps[0], i), deps[1..], i)
  }

  /** Adding line `i` under each of `deps` appends `i` once to the list of
      every line in `deps` that does not list it yet, and touches no other
      list. */
  lemma {:induction false} AddDependentsEffect(dependents: map<nat, seq<nat>>, deps: seq<nat>, i: nat, a: nat)
    ensures DependentsOf(AddDependents(dependents, deps, i), a) ==
            if a in deps && i !in DependentsOf(dependents, a) then DependentsOf(dependents, a) + [i]
            else DependentsOf(dependents, a)
    decreases |deps|
  {
    if |deps| > 0 {
      var next := AddDependent(dependents, deps[0], i);
      AddDependentsEffect(next, deps[1..], i, a);
      assert a in deps <==> a == deps[0] || a in deps[1..];
    }
  }

  /** Per line: nothing for a skipped line, else its dependencies. */
  function Edges(lines: seq<string>, variables: map<string, nat>, idMapping: map<nat, string>): (es: seq<Option<seq<nat>>>)
    ensures |es| == |lines|
    ensures forall i :: 0 <= i < |lines| ==>
              es[i] == if IsSkipped(lines[i]) then None else Some(Dependencies(variables, idMapping, lines[i], i))
  {
    seq(|lines|, i requires 0 <= i < |lines| =>
          if IsSkipped(lines[i]) then None else Some(Dependencies(variables, idMapping, lines[i], i)))
  }

  /** One turn of the second pass's graph building, for line `i`. */
  function BuildStep(g: Graph, e: Option<seq<nat>>, i: nat): Graph {
    match e
    case None => g
    case Some(deps) => Graph(g.dependencies[i := deps], AddDependents(g.dependents, deps, i))
  }

  /** The graph after the second pass has visited the lines below `n`. */
  function BuildUpTo(es: seq<Option<seq<nat>>>, n: nat): Graph
    requires n <= |es|
  {
    if n == 0 then Graph(map[], map[]) else BuildStep(BuildUpTo(es, n - 1), es[n - 1], n - 1)
  }

  /** Among the lines below `n`, line `b` takes part and depends on `a`. */
  predicate DependsOn(es: seq<Option<seq<nat>>>, n: nat, b: nat, a: nat) {
    b < n <= |es| && es[b].Some? && a in es[b].value
  }

  /** `g` is the transpose of the per-line dependencies of the lines below
      `n`, with strictly increasing dependents lists. */
  ghost predicate Transposes(es: seq<Option<seq<nat>>>, n: nat, g: Graph)
    requires n <= |es|
  {
    && (forall b: nat :: b in g.dependencies <==> b < n && es[b].Some?)
    && (forall b: nat :: b in g.dependencies ==> g.dependencies[b] == es[b].value)
    && (forall a: nat, b: nat :: b in DependentsOf(g.dependents, a) <==> DependsOn(es, n, b, a))
    && (forall a: nat :: StrictlyIncreasing(DependentsOf(g.dependents, a)))
  }

  lemma DependentsStep(es: seq<Option<seq<nat>>>, n: nat, g: Graph, a: nat)
    requires n < |es| && Transposes(es, n, g) && es[n].Some?
    ensures forall b: nat :: b in DependentsOf(AddDependents(g.dependents, es[n].value, n), a) <==> DependsOn(es, n + 1, b, a)
    ensures StrictlyIncreasing(DependentsOf(AddDependents(g.dependents, es[n].value, n), a))
  {
    var deps := es[n].value;
    AddDependentsEffect(g.dependents, deps, n, a);
    var l0 := DependentsOf(g.dependents, a);
    forall b | b in l0
      ensures b < n
    {
      assert b in DependentsOf(g.dependents, a);
    }
    if a in deps {
      AppendKeepsIncreasing(l0, n);
    }
  }

  lemma BuildStepTransposes(es: seq<Option<seq<nat>>>, n: nat, g: Graph)
    requires n < |es| && Transposes(es, n, g)
    ensures Transposes(es, n + 1, BuildStep(g, es[n], n))
  {
    if es[n].Some? {
      forall a: nat
        ensures forall b: nat :: b in DependentsOf(AddDependents(g.dependents, es[n].value, n), a) <==> DependsOn(es, n + 1, b, a)
        ensures StrictlyIncreasing(DependentsOf(AddDependents(g.dependents, es[n].value, n), a))
      {
        DependentsStep(es, n, g, a);
      }
    }
  }

  /** The graph is the transpose of the per-line dependencies: `b` is among
      `a`'s dependents exactly when `a` is among `b`'s dependencies, and
      every dependents list is strictly increasing, so it has no
      duplicates. */
  lemma {:induction false} BuildUpToTransposes(es: seq<Option<seq<nat>>>, n: nat)
    requires n <= |es|
    ensures Transposes(es, n, BuildUpTo(es, n))
  {
    if n > 0 {
      BuildUpToTransposes(es, n - 1);
      BuildStepTransposes(es, n - 1, BuildUpTo(es, n - 1));
    } else {
      assert forall a: nat :: DependentsOf(map[], a) == [];
    }
  }

  /** `dependencies` and `dependents` as the second pass leaves them. */
  function BuildGraph(lines: seq<string>, variables: map<string, nat>, idMapping: map<nat, string>): Graph {
    BuildUpTo(Edges(lines, variables, idMapping), |lines|)
  }

  /** The graph has an entry in `dependencies` for exactly the lines that
      take part, holding that line's `Dependencies`; no line depends on
      itself or lists itself as a dependent; `b` is a dependent of `a`
      exactly when `a` is a dependency of `b`; dependents lists hold no
      duplicates and only line indices of the document. */
  lemma BuildGraphShape(lines: seq<string>, variables: map<string, nat>, idMapping: map<nat, string>, a: nat, b: nat)
    ensures var g := BuildGraph(lines, variables, idMapping);
            && (b in g.dependencies <==> b < |lines| && !IsSkipped(lines[b]))
            && (b in g.dependencies ==> g.dependencies[b] == Dependencies(variables, idMapping, lines[b], b))
            && (b in g.dependencies ==> b !in g.dependencies[b])
            && b !in DependentsOf(g.dependents, b)
    ensures var g := BuildGraph(lines, variables, idMapping);
            && (b in DependentsOf(g.dependents, a) <==> b in g.dependencies && a in g.dependencies[b])
            && (b in DependentsOf(g.dependents, a) ==> b < |lines|)
            && StrictlyIncreasing(DependentsOf(g.dependents, a))
  {
    BuildUpToTransposes(Edges(lines, variables, idMapping), |lines|);
  }
}
