/** The evaluation pass: the scope each line is evaluated in, the
    evaluation of one line, the full pass over the document in line order,
    and the list of lines whose result changed. */
module Evaluation {
  import opened Wrappers
  import opened References
  import opened Keys
  import opened Identity
  import opened Cells
  import opened Presentation

  /** Everything a line's evaluation reads besides the results table;
      `skipped` and `exprs` record each line's skip test and the text the
      evaluator is given for it. */
  datatype Document = Document(lines: seq<string>, skipped: seq<bool>, exprs: seq<string>,
                               variables: map<string, nat>, idMapping: map<nat, string>,
                               eval: Evaluator, show: Value -> string)

  /** The skip test of each line. */
  function Skips(lines: seq<string>): (r: seq<bool>)
    ensures |r| == |lines| && forall i :: 0 <= i < |lines| ==> r[i] == IsSkipped(lines[i])
  {
    seq(|lines|, i requires 0 <= i < |lines| => IsSkipped(lines[i]))
  }

  /** The text the evaluator is given for a line: an assignment's
      right-hand side, or else the whole line. */
  function Expression(line: string): (e: string)
    ensures ParseVariableAssignment(line).Some? ==> e == ParseVariableAssignment(line).value.expression
    ensures ParseVariableAssignment(line).Some? ==>
              exists a: nat, b: nat, c: nat, d: nat :: IsAssignmentAt(line, a, b, c, d) && e == line[d..]
    ensures ParseVariableAssignment(line).Some? ==> |e| < |line| && e == line[|line| - |e|..]
    ensures ParseVariableAssignment(line).None? ==> e == line
  {
    match ParseVariableAssignment(line)
    case Some(a) => a.expression
    case None => line
  }

  function Exprs(lines: seq<string>): (r: seq<string>)
    ensures |r| == |lines| && forall i :: 0 <= i < |lines| ==> r[i] == Expression(lines[i])
  {
    seq(|lines|, i requires 0 <= i < |lines| => Expression(lines[i]))
  }

  /** The document of a recalculation over `lines`. */
  function MakeDocument(lines: seq<string>, variables: map<string, nat>, idMapping: map<nat, string>,
                        eval: Evaluator, show: Value -> string): (doc: Document)
    ensures Valid(doc)
  {
    Document(lines, Skips(lines), Exprs(lines), variables, idMapping, eval, show)
  }

  predicate Valid(doc: Document) {
    |doc.skipped| == |doc.lines| && |doc.exprs| == |doc.lines|
  }

  /** The results table and the reference labels, the two tables the
      evaluation writes. */
  datatype Pass = Pass(results: map<nat, Cell>, labels: map<string, string>)

  // ---------------------------------------------------------------------------
  // The scope

  /** The variables whose line's entry is not `undefined`. */
  function VariableScope(results: map<nat, Cell>, variables: map<string, nat>): Scope {
    map v | v in variables && Read(results, variables[v]) != Undefined :: Read(results, variables[v])
  }

  /** Bind `_id` for each line of `order` (in that order) whose entry is
      not `undefined`; a later line overrides an earlier one with the same
      id. */
  function AddReferences(sc: Scope, results: map<nat, Cell>, idMapping: map<nat, string>, order: seq<nat>): Scope
    requires forall k :: 0 <= k < |order| ==> order[k] in idMapping
    decreases |order|
  {
    if |order| == 0 then sc
    else
      var i := order[0];
      var next := if Read(results, i) != Undefined then sc[GenerateReference(idMapping[i]) := Read(results, i)] else sc;
      AddReferences(next, results, idMapping, order[1..])
  }

  /** The last line of `order` with a defined entry whose reference is `name`. */
  function LastBinder(results: map<nat, Cell>, idMapping: map<nat, string>, order: seq<nat>, name: string): (r: Option<nat>)
    requires forall k :: 0 <= k < |order| ==> order[k] in idMapping
    ensures r.Some? ==> r.value in order && Read(results, r.value) != Undefined && GenerateReference(idMapping[r.value]) == name
    ensures r.None? ==> forall k :: 0 <= k < |order| && Read(results, order[k]) != Undefined ==> GenerateReference(idMapping[order[k]]) != name
    ensures r.Some? && StrictlyIncreasing(order) ==>
              forall k :: 0 <= k < |order| && Read(results, order[k]) != Undefined && GenerateReference(idMapping[order[k]]) == name ==> order[k] <= r.value
    decreases |order|
  {
    if |order| == 0 then None
    else
      var rest := LastBinder(results, idMapping, order[1..], name);
      if rest.Some? then rest
      else if Read(results, order[0]) != Undefined && GenerateReference(idMapping[order[0]]) == name then Some(order[0])
      else None
  }

  /** Adding the references binds exactly the names some line of `order`
      gives, to that line's result, and leaves every other name alone. */
  lemma {:induction false} AddReferencesBinds(sc: Scope, results: map<nat, Cell>, idMapping: map<nat, string>, order: seq<nat>, name: string)
    requires forall k :: 0 <= k < |order| ==> order[k] in idMapping
    ensures var r := AddReferences(sc, results, idMapping, order);
            var b := LastBinder(results, idMapping, order, name);
            && (name in r <==> name in sc || b.Some?)
            && (b.Some? ==> r[name] == Read(results, b.value))
            && (b.None? && name in sc ==> r[name] == sc[name])
    decreases |order|
  {
    if |order| > 0 {
      var i := order[0];
      var next := if Read(results, i) != Undefined then sc[GenerateReference(idMapping[i]) := Read(results, i)] else sc;
      AddReferencesBinds(next, results, idMapping, order[1..], name);
    }
  }

  /** The scope a line is evaluated in: each variable bound to its
      assigning line's entry, then `_id` for each line with an id, in
      increasing line order. */
  function BuildScope(results: map<nat, Cell>, variables: map<string, nat>, idMapping: map<nat, string>): Scope {
    AddReferences(VariableScope(results, variables), results, idMapping, Ascending(idMapping.Keys))
  }

  /** A name that does not start with `_` is bound exactly when it is a
      variable whose line's entry is not `undefined`, to that entry. `_id`
      is bound exactly when some line with that id has such an entry, to
      the entry of the last such line. */
  lemma BuildScopeBinds(results: map<nat, Cell>, variables: map<string, nat>, idMapping: map<nat, string>, name: string, id: string)
    requires forall v :: v in variables ==> IsIdentifier(v)
    ensures var sc := BuildScope(results, variables, idMapping);
            (name == "" || name[0] != '_') ==>
              && (name in sc <==> name in variables && Read(results, variables[name]) != Undefined)
              && (name in sc ==> sc[name] == Read(results, variables[name]))
    ensures var sc := BuildScope(results, variables, idMapping);
            && (GenerateReference(id) in sc <==> exists i :: i in idMapping && idMapping[i] == id && Read(results, i) != Undefined)
            && (GenerateReference(id) in sc ==>
                  exists i :: && i in idMapping && idMapping[i] == id && Read(results, i) != Undefined
                              && sc[GenerateReference(id)] == Read(results, i)
                              && forall j :: j in idMapping && idMapping[j] == id && Read(results, j) != Undefined ==> j <= i)
  {
    var order := Ascending(idMapping.Keys);
    var vs := VariableScope(results, variables);
    AddReferencesBinds(vs, results, idMapping, order, name);
    AddReferencesBinds(vs, results, idMapping, order, GenerateReference(id));
    var ref := GenerateReference(id);
    assert ref !in variables;
    var b := LastBinder(results, idMapping, order, ref);
    if b.Some? {
      assert idMapping[b.value][..] == GenerateReference(idMapping[b.value])[1..];
    } else {
      forall i | i in idMapping && idMapping[i] == id
        ensures Read(results, i) == Undefined
      {
        var k :| 0 <= k < |order| && order[k] == i;
      }
    }
    if b.Some? {
      forall j | j in idMapping && idMapping[j] == id && Read(results, j) != Undefined
        ensures j <= b.value
      {
        var k :| 0 <= k < |order| && order[k] == j;
      }
    }
  }

  // ---------------------------------------------------------------------------
  // Evaluating a line

  /** What the evaluator does with line `i` when the results table is `results`. */
  function OutcomeOf(doc: Document, i: nat, results: map<nat, Cell>): Outcome
    requires Valid(doc) && i < |doc.lines|
  {
    doc.eval(doc.exprs[i], BuildScope(results, doc.variables, doc.idMapping))
  }

  /** `newReferenceLabels[id] = generateReferenceLabel(line, result)` when
      line `i` has an id. */
  function Label(doc: Document, i: nat, labels: map<string, string>, c: Cell): (r: map<string, string>)
    requires Valid(doc) && i < |doc.lines|
    ensures r.Keys <= labels.Keys + (if i in doc.idMapping then {doc.idMapping[i]} else {})
    ensures Truthy(doc.idMapping, i) ==> doc.idMapping[i] in r
    ensures forall id :: id in labels && !(Truthy(doc.idMapping, i) && id == doc.idMapping[i]) ==>
              id in r && r[id] == labels[id]
  {
    if Truthy(doc.idMapping, i) then labels[doc.idMapping[i] := GenerateReferenceLabel(doc.lines[i], ResultText(c, doc.show))]
    else labels
  }

  /** Evaluate line `i` in the scope the current results give and store the
      outcome: on a throw the error marker, leaving the labels alone;
      otherwise the returned value (or `undefined`) and, when the line has
      an id, a fresh label for it. */
  function Recompute(doc: Document, i: nat, st: Pass): (r: Pass)
    requires Valid(doc) && i < |doc.lines|
    ensures r.results.Keys == st.results.Keys + {i}
    ensures forall k :: k in st.results && k != i ==> r.results[k] == st.results[k]
    ensures r.results[i] != Blank
    ensures r.results[i].ErrorMarker? ==> r.labels == st.labels
    ensures r.labels.Keys <= st.labels.Keys + (if i in doc.idMapping then {doc.idMapping[i]} else {})
    ensures r.results[i] == ErrorMarker <==> OutcomeOf(doc, i, st.results).Threw?
    ensures OutcomeOf(doc, i, st.results).Returned? ==> r.results[i] == Computed(OutcomeOf(doc, i, st.results).value)
    ensures OutcomeOf(doc, i, st.results).NoValue? ==> r.results[i] == Undefined
  {
    var out := OutcomeOf(doc, i, st.results);
    match out
    case Threw => st.(results := st.results[i := ErrorMarker])
    case NoValue => Pass(st.results[i := Undefined], Label(doc, i, st.labels, Undefined))
    case Returned(v) => Pass(st.results[i := Computed(v)], Label(doc, i, st.labels, Computed(v)))
  }

  /** When the evaluator returns, a line with an id gets the label built
      from its line and the stored entry's text; every other label is left
      alone. */
  lemma RecomputeLabels(doc: Document, i: nat, st: Pass)
    requires Valid(doc) && i < |doc.lines|
    ensures var r := Recompute(doc, i, st);
            !OutcomeOf(doc, i, st.results).Threw? && Truthy(doc.idMapping, i) ==>
              doc.idMapping[i] in r.labels
              && r.labels[doc.idMapping[i]] == GenerateReferenceLabel(doc.lines[i], ResultText(r.results[i], doc.show))
    ensures var r := Recompute(doc, i, st);
            forall id :: id in st.labels && !(Truthy(doc.idMapping, i) && id == doc.idMapping[i]) ==>
              id in r.labels && r.labels[id] == st.labels[id]
  {
    var r := Recompute(doc, i, st);
    match OutcomeOf(doc, i, st.results)
    case Threw =>
    case NoValue =>
      assert r.labels == Label(doc, i, st.labels, Undefined);
    case Returned(v) =>
      assert r.labels == Label(doc, i, st.labels, Computed(v));
  }

  // ---------------------------------------------------------------------------
  // The full pass

  /** One turn of the second pass for line `i`: a skipped line gets `""`,
      any other line is evaluated. */
  function PassStep(doc: Document, i: nat, st: Pass): Pass
    requires Valid(doc) && i < |doc.lines|
  {
    if doc.skipped[i] then st.(results := st.results[i := Blank]) else Recompute(doc, i, st)
  }

  /** The second pass over the lines below `n`, starting from `st`. */
  function PassUpTo(doc: Document, st: Pass, n: nat): Pass
    requires Valid(doc) && n <= |doc.lines|
  {
    if n == 0 then st else PassStep(doc, n - 1, PassUpTo(doc, st, n - 1))
  }

  /** The second pass writes an entry for each line below `n` and for no
      other key: an entry at or past `n` keeps its earlier value. A line
      gets `""` exactly when it is skipped. */
  lemma {:induction false} PassUpToWrites(doc: Document, st: Pass, n: nat)
    requires Valid(doc) && n <= |doc.lines|
    ensures var r := PassUpTo(doc, st, n).results;
            && (forall k: nat :: k in r <==> k in st.results || k < n)
            && (forall k :: k in st.results && k >= n ==> r[k] == st.results[k])
            && (forall k :: 0 <= k < n ==> (r[k] == Blank <==> doc.skipped[k]))
  {
    forall k: nat
      ensures var r := PassUpTo(doc, st, n).results;
              && (k in r <==> k in st.results || k < n)
              && (k in st.results && k >= n ==> r[k] == st.results[k])
              && (k < n ==> (r[k] == Blank <==> doc.skipped[k]))
    {
      PassUpToWritesAt(doc, st, n, k);
    }
  }

  /** `PassUpToWrites` for the entry of one key. */
  lemma {:induction false} PassUpToWritesAt(doc: Document, st: Pass, n: nat, k: nat)
    requires Valid(doc) && n <= |doc.lines|
    ensures var r := PassUpTo(doc, st, n).results;
            && (k in r <==> k in st.results || k < n)
            && (k in st.results && k >= n ==> r[k] == st.results[k])
            && (k < n ==> (r[k] == Blank <==> doc.skipped[k]))
  {
    if n > 0 {
      var p := PassUpTo(doc, st, n - 1);
      assert PassUpTo(doc, st, n) == PassStep(doc, n - 1, p);
      PassUpToWritesAt(doc, st, n - 1, k);
      PassStepWrites(doc, n - 1, p);
    }
  }

  /** One turn writes the entry of its line, `""` exactly when the line is
      skipped, and keeps every other entry. */
  lemma PassStepWrites(doc: Document, i: nat, st: Pass)
    requires Valid(doc) && i < |doc.lines|
    ensures var r := PassStep(doc, i, st).results;
            && r.Keys == st.results.Keys + {i}
            && (forall k :: k in st.results && k != i ==> r[k] == st.results[k])
            && (r[i] == Blank <==> doc.skipped[i])
  {
  }

  /** Later turns leave the entry of a line below `k` alone. */
  lemma {:induction false} PassUpToKeepsEarlier(doc: Document, st: Pass, j: nat, k: nat, n: nat)
    requires Valid(doc) && j < k <= n <= |doc.lines|
    ensures Agrees(PassUpTo(doc, st, k).results, PassUpTo(doc, st, n).results, j)
    decreases n - k
  {
    if k < n {
      PassUpToKeepsEarlier(doc, st, j, k, n - 1);
      PassStepKeepsEntry(doc, n - 1, PassUpTo(doc, st, n - 1), j);
    } else {
      PassUpToWrites(doc, st, k);
    }
  }

  /** Both tables hold the same entry for `j`. */
  predicate Agrees(a: map<nat, Cell>, b: map<nat, Cell>, j: nat) {
    j in a && j in b && a[j] == b[j]
  }

  /** Results are threaded in line order: when line `k` is evaluated, the
      lines above it already hold their final entries of this pass and the
      lines from `k` on still hold the entries from before the pass. */
  lemma PassUpToThreads(doc: Document, st: Pass, k: nat, n: nat)
    requires Valid(doc) && k <= n <= |doc.lines|
    ensures var mid := PassUpTo(doc, st, k).results;
            var r := PassUpTo(doc, st, n).results;
            && (forall j :: 0 <= j < k ==> j in mid && j in r && mid[j] == r[j])
            && (forall j :: j in st.results && j >= k ==> j in mid && mid[j] == st.results[j])
  {
    PassUpToWrites(doc, st, k);
    forall j | 0 <= j < k
      ensures Agrees(PassUpTo(doc, st, k).results, PassUpTo(doc, st, n).results, j)
    {
      PassUpToKeepsEarlier(doc, st, j, k, n);
    }
  }

  /** One turn leaves the entries of other lines alone. */
  lemma PassStepKeepsEntry(doc: Document, i: nat, st: Pass, j: nat)
    requires Valid(doc) && i < |doc.lines| && j != i && j in st.results
    ensures Agrees(st.results, PassStep(doc, i, st).results, j)
  {
  }

  /** The second pass of `updateCalculations`: every line in order, with
      the labels table starting empty. */
  function FullPass(doc: Document, results: map<nat, Cell>): Pass
    requires Valid(doc)
  {
    PassUpTo(doc, Pass(results, map[]), |doc.lines|)
  }

  /** Every label belongs to the id of a line that takes part. */
  lemma {:induction false} PassUpToLabels(doc: Document, st: Pass, n: nat)
    requires Valid(doc) && n <= |doc.lines|
    ensures forall id :: id in PassUpTo(doc, st, n).labels ==>
              id in st.labels || exists i :: 0 <= i < n && i in doc.idMapping && doc.idMapping[i] == id
  {
    if n > 0 {
      PassUpToLabels(doc, st, n - 1);
    }
  }

  // ---------------------------------------------------------------------------
  // Changed lines

  /** The keys of the table after the pass whose entry is not equal to
      the one before it, where a missing entry reads as `undefined`, in
      increasing order. */
  function ChangedLines(before: map<nat, Cell>, after: map<nat, Cell>): (r: seq<nat>)
    ensures StrictlyIncreasing(r)
    ensures forall k :: k in r <==> k in after && Read(before, k) != after[k]
  {
    Ascending(set k | k in after && Read(before, k) != after[k])
  }
}
