/** Propagation of changed results: the recursive walk over `dependents`
    that re-evaluates every dependent of a changed line, guarded by the set
    of lines already expanded, so that it ends on any graph, cyclic ones
    included. */
module Propagation {
  import opened Cells
  import opened Graph
  import opened Evaluation

  /** The walk's state: the tables it writes and `processedLines`. */
  datatype Walk = Walk(pass: Pass, processed: set<nat>)

  /** The indices below `n`. */
  function Below(n: nat): (s: set<nat>)
    ensures forall k: nat :: k in s <==> k < n
  {
    if n == 0 then {} else Below(n - 1) + {n - 1}
  }

  /** Every dependent is a line of the document that takes part, and every
      line of the document lies in `universe`, the set of lines the walk
      may expand. */
  ghost predicate Closed(doc: Document, dependents: map<nat, seq<nat>>, universe: set<nat>) {
    && Valid(doc)
    && (forall a: nat, b: nat {:trigger b in DependentsOf(dependents, a)} ::
          b in DependentsOf(dependents, a) ==> b < |doc.lines| && !doc.skipped[b])
    && (forall k: nat :: k < |doc.lines| ==> k in universe)
  }

  /** The entry of `k` is new or different in `after`. */
  predicate Changed(before: map<nat, Cell>, after: map<nat, Cell>, k: nat) {
    k in after && (k !in before || before[k] != after[k])
  }

  /** From `w` to `r` the processed set only grows, within `universe`, and
      no entry is dropped. */
  predicate Grows(w: Walk, r: Walk, universe: set<nat>) {
    w.processed <= r.processed <= universe && w.pass.results.Keys <= r.pass.results.Keys
  }

  /** Every entry written from `w` to `r` is not `""` (a value, `undefined`
      or the error marker) and sits at a dependent of a processed line. */
  ghost predicate WritesUnder(dependents: map<nat, seq<nat>>, w: Walk, r: Walk) {
    forall k: nat :: Changed(w.pass.results, r.pass.results, k) ==>
      r.pass.results[k] != Blank && exists a :: a in r.processed && k in DependentsOf(dependents, a)
  }

  /** Every label added from `w` to `r` belongs to the id of some line. */
  predicate LabelsFrom(doc: Document, w: Walk, r: Walk) {
    r.pass.labels.Keys <= w.pass.labels.Keys + doc.idMapping.Values
  }

  lemma SubsetShrinks(universe: set<nat>, a: set<nat>, b: set<nat>)
    requires a <= b
    ensures |universe - b| <= |universe - a|
  {
    var small, big := universe - b, universe - a;
    assert big == small + (big - small) && small * (big - small) == {};
  }

  lemma AddShrinks(universe: set<nat>, a: set<nat>, x: nat)
    requires x in universe && x !in a
    ensures |universe - (a + {x})| < |universe - a|
  {
    assert universe - (a + {x}) == (universe - a) - {x};
  }

  /** Writes under a processed line stay so as the processed set grows. */
  lemma WritesCompose(doc: Document, dependents: map<nat, seq<nat>>, w: Walk, m: Walk, r: Walk)
    requires m.processed <= r.processed && m.pass.results.Keys <= r.pass.results.Keys
    requires WritesUnder(dependents, w, m) && WritesUnder(dependents, m, r)
    requires LabelsFrom(doc, w, m) && LabelsFrom(doc, m, r)
    ensures WritesUnder(dependents, w, r) && LabelsFrom(doc, w, r)
  {
    forall k: nat | Changed(w.pass.results, r.pass.results, k)
      ensures r.pass.results[k] != Blank && exists a :: a in r.processed && k in DependentsOf(dependents, a)
    {
      if !Changed(m.pass.results, r.pass.results, k) {
        assert Changed(w.pass.results, m.pass.results, k);
        var a :| a in m.processed && k in DependentsOf(dependents, a);
        assert a in r.processed;
      }
    }
  }

  /** Re-evaluating a dependent of a processed line writes under it. */
  lemma RecomputeWrites(doc: Document, dependents: map<nat, seq<nat>>, owner: nat, d: nat, w: Walk)
    requires Valid(doc) && d < |doc.lines| && owner in w.processed && d in DependentsOf(dependents, owner)
    ensures WritesUnder(dependents, w, w.(pass := Recompute(doc, d, w.pass)))
    ensures LabelsFrom(doc, w, w.(pass := Recompute(doc, d, w.pass)))
  {
  }

  /** `updateDependents(node)`: nothing when `node` was expanded before;
      otherwise mark it and visit its dependents. */
  function Expand(doc: Document, dependents: map<nat, seq<nat>>, universe: set<nat>, node: nat, w: Walk): (r: Walk)
    requires Valid(doc) && Closed(doc, dependents, universe)
    requires node in universe && w.processed <= universe
    ensures Grows(w, r, universe) && node in r.processed
    ensures WritesUnder(dependents, w, r)
    ensures LabelsFrom(doc, w, r)
    decreases |universe - w.processed|, 0
  {
    if node in w.processed then w
    else
      AddShrinks(universe, w.processed, node);
      Visit(doc, dependents, universe, node, 0, w.(processed := w.processed + {node}))
  }

  /** The loop over `dependents[owner]` from position `j`: re-evaluate each
      dependent; when the evaluator returns (a value or `undefined`) expand
      the dependent in turn, when it throws leave the error marker and go
      on. */
  function Visit(doc: Document, dependents: map<nat, seq<nat>>, universe: set<nat>, owner: nat, j: nat, w: Walk): (r: Walk)
    requires Valid(doc) && Closed(doc, dependents, universe)
    requires owner in w.processed && w.processed <= universe
    requires j <= |DependentsOf(dependents, owner)|
    ensures Grows(w, r, universe)
    ensures WritesUnder(dependents, w, r)
    ensures LabelsFrom(doc, w, r)
    decreases |universe - w.processed|, 1, |DependentsOf(dependents, owner)| - j
  {
    var deps := DependentsOf(dependents, owner);
    if j == |deps| then w
    else
      var d := deps[j];
      assert d in deps;
      var w1 := w.(pass := Recompute(doc, d, w.pass));
      RecomputeWrites(doc, dependents, owner, d, w);
      if !w1.pass.results[d].ErrorMarker? then
        var w2 := Expand(doc, dependents, universe, d, w1);
        SubsetShrinks(universe, w.processed, w2.processed);
        var r := Visit(doc, dependents, universe, owner, j + 1, w2);
        WritesCompose(doc, dependents, w, w1, w2);
        WritesCompose(doc, dependents, w, w2, r);
        r
      else
        var r := Visit(doc, dependents, universe, owner, j + 1, w1);
        WritesCompose(doc, dependents, w, w1, r);
        r
  }

  /** `changedLines.forEach(updateDependents)`, sharing one processed set. */
  function PropagateFrom(doc: Document, dependents: map<nat, seq<nat>>, universe: set<nat>, roots: seq<nat>, w: Walk): (r: Walk)
    requires Valid(doc) && Closed(doc, dependents, universe)
    requires (forall k :: 0 <= k < |roots| ==> roots[k] in universe) && w.processed <= universe
    ensures Grows(w, r, universe)
    ensures forall k :: 0 <= k < |roots| ==> roots[k] in r.processed
    ensures WritesUnder(dependents, w, r)
    ensures LabelsFrom(doc, w, r)
    decreases |roots|
  {
    if |roots| == 0 then w
    else PropagateFrom(doc, dependents, universe, roots[1..], Expand(doc, dependents, universe, roots[0], w))
  }

  /** A turn of the loop whose dependent throws, in whatever state the walk
      has reached, stores the error marker and expands nothing: the loop
      goes on with the next dependent. */
  lemma VisitFailStep(doc: Document, dependents: map<nat, seq<nat>>, universe: set<nat>, owner: nat, j: nat, w: Walk)
    requires Valid(doc) && Closed(doc, dependents, universe)
    requires owner in w.processed && w.processed <= universe
    requires j < |DependentsOf(dependents, owner)| && DependentsOf(dependents, owner)[j] < |doc.lines|
    requires OutcomeOf(doc, DependentsOf(dependents, owner)[j], w.pass.results).Threw?
    ensures var d := DependentsOf(dependents, owner)[j];
            Visit(doc, dependents, universe, owner, j, w)
              == Visit(doc, dependents, universe, owner, j + 1, w.(pass := w.pass.(results := w.pass.results[d := ErrorMarker])))
  {
    var d := DependentsOf(dependents, owner)[j];
    assert d in DependentsOf(dependents, owner);
    assert Recompute(doc, d, w.pass) == w.pass.(results := w.pass.results[d := ErrorMarker]);
  }

  /** A turn of the loop whose dependent returns (a value or `undefined`),
      in whatever state the walk has reached, stores the new entry and
      label by `Recompute`, expands the dependent in that state, and goes
      on with the next dependent. */
  lemma VisitReturnStep(doc: Document, dependents: map<nat, seq<nat>>, universe: set<nat>, owner: nat, j: nat, w: Walk)
    requires Valid(doc) && Closed(doc, dependents, universe)
    requires owner in w.processed && w.processed <= universe
    requires j < |DependentsOf(dependents, owner)| && DependentsOf(dependents, owner)[j] < |doc.lines|
    requires !OutcomeOf(doc, DependentsOf(dependents, owner)[j], w.pass.results).Threw?
    ensures var d := DependentsOf(dependents, owner)[j];
            var w1 := w.(pass := Recompute(doc, d, w.pass));
            && d in universe && w1.processed <= universe
            && Visit(doc, dependents, universe, owner, j, w)
                 == Visit(doc, dependents, universe, owner, j + 1, Expand(doc, dependents, universe, d, w1))
  {
    var d := DependentsOf(dependents, owner)[j];
    assert d in DependentsOf(dependents, owner);
  }

  /** A turn of the loop whose dependent returns (a value or `undefined`)
      expands that dependent, so it ends up processed. */
  lemma VisitReturnExpands(doc: Document, dependents: map<nat, seq<nat>>, universe: set<nat>, owner: nat, j: nat, w: Walk)
    requires Valid(doc) && Closed(doc, dependents, universe)
    requires owner in w.processed && w.processed <= universe
    requires j < |DependentsOf(dependents, owner)| && DependentsOf(dependents, owner)[j] < |doc.lines|
    requires !OutcomeOf(doc, DependentsOf(dependents, owner)[j], w.pass.results).Threw?
    ensures DependentsOf(dependents, owner)[j] in Visit(doc, dependents, universe, owner, j, w).processed
  {
    var d := DependentsOf(dependents, owner)[j];
    assert d in DependentsOf(dependents, owner);
    RecomputeLabels(doc, d, w.pass);
  }

  /** Every entry changed from `before` to `after` is the error marker, and
      no entry is dropped. */
  ghost predicate OnlyMarks(before: map<nat, Cell>, after: map<nat, Cell>) {
    before.Keys <= after.Keys && forall k: nat :: Changed(before, after, k) ==> after[k] == ErrorMarker
  }

  lemma OnlyMarksCompose(a: map<nat, Cell>, b: map<nat, Cell>, c: map<nat, Cell>, d: nat)
    requires OnlyMarks(a, b) && OnlyMarks(b, c) && d in b && b[d] == ErrorMarker
    ensures OnlyMarks(a, c) && c[d] == ErrorMarker
  {
    assert forall k: nat :: Changed(a, c, k) ==> Changed(a, b, k) || Changed(b, c, k);
  }

  /** Line `d`'s expression throws in every scope, as a malformed
      expression does. */
  ghost predicate AlwaysThrows(doc: Document, d: nat) {
    d < |doc.exprs| && forall sc :: doc.eval(doc.exprs[d], sc).Threw?
  }

  /** The dependents of `owner` from position `j` on all throw in every scope. */
  ghost predicate RestThrows(doc: Document, dependents: map<nat, seq<nat>>, owner: nat, j: nat) {
    forall k :: j <= k < |DependentsOf(dependents, owner)| ==> AlwaysThrows(doc, DependentsOf(dependents, owner)[k])
  }

  /** When the remaining dependents all throw, the visit walks into none of
      them. */
  lemma {:induction false} VisitAllFail(doc: Document, dependents: map<nat, seq<nat>>, universe: set<nat>, owner: nat, j: nat, w: Walk)
    requires Valid(doc) && Closed(doc, dependents, universe)
    requires owner in w.processed && w.processed <= universe
    requires j <= |DependentsOf(dependents, owner)|
    requires RestThrows(doc, dependents, owner, j)
    ensures Visit(doc, dependents, universe, owner, j, w).processed == w.processed
    decreases |DependentsOf(dependents, owner)| - j
  {
    var deps := DependentsOf(dependents, owner);
    if j < |deps| {
      assert AlwaysThrows(doc, deps[j]);
      VisitFailStep(doc, dependents, universe, owner, j, w);
      VisitAllFail(doc, dependents, universe, owner, j + 1, w.(pass := w.pass.(results := w.pass.results[deps[j] := ErrorMarker])));
    }
  }

  /** When the remaining dependents all throw, the visit writes nothing but
      the error marker. */
  lemma {:induction false} VisitAllFailMarks(doc: Document, dependents: map<nat, seq<nat>>, universe: set<nat>, owner: nat, j: nat, w: Walk)
    requires Valid(doc) && Closed(doc, dependents, universe)
    requires owner in w.processed && w.processed <= universe
    requires j <= |DependentsOf(dependents, owner)|
    requires RestThrows(doc, dependents, owner, j)
    ensures OnlyMarks(w.pass.results, Visit(doc, dependents, universe, owner, j, w).pass.results)
    decreases |DependentsOf(dependents, owner)| - j
  {
    var deps := DependentsOf(dependents, owner);
    if j < |deps| {
      var w1 := w.(pass := w.pass.(results := w.pass.results[deps[j] := ErrorMarker]));
      assert AlwaysThrows(doc, deps[j]);
      VisitFailStep(doc, dependents, universe, owner, j, w);
      VisitAllFailMarks(doc, dependents, universe, owner, j + 1, w1);
      OnlyMarksCompose(w.pass.results, w1.pass.results, Visit(doc, dependents, universe, owner, j + 1, w1).pass.results, deps[j]);
    }
  }

  /** When the remaining dependents all throw, each of them ends up with
      the error marker. */
  lemma {:induction false} VisitAllFailCovers(doc: Document, dependents: map<nat, seq<nat>>, universe: set<nat>, owner: nat, j: nat, w: Walk, k: nat)
    requires Valid(doc) && Closed(doc, dependents, universe)
    requires owner in w.processed && w.processed <= universe
    requires j <= k < |DependentsOf(dependents, owner)|
    requires RestThrows(doc, dependents, owner, j)
    ensures var r := Visit(doc, dependents, universe, owner, j, w).pass.results;
            DependentsOf(dependents, owner)[k] in r && r[DependentsOf(dependents, owner)[k]] == ErrorMarker
    decreases k - j
  {
    var deps := DependentsOf(dependents, owner);
    var w1 := w.(pass := w.pass.(results := w.pass.results[deps[j] := ErrorMarker]));
    assert AlwaysThrows(doc, deps[j]);
    VisitFailStep(doc, dependents, universe, owner, j, w);
    if j < k {
      VisitAllFailCovers(doc, dependents, universe, owner, j + 1, w1, k);
    } else {
      VisitAllFailMarks(doc, dependents, universe, owner, j + 1, w1);
      var r := Visit(doc, dependents, universe, owner, j + 1, w1).pass.results;
      assert !Changed(w1.pass.results, r, deps[k]) || r[deps[k]] == ErrorMarker;
    }
  }

  /** When every dependent of a new line throws, expanding the line
      processes only that line: no failed dependent is expanded. */
  lemma ExpandAllFail(doc: Document, dependents: map<nat, seq<nat>>, universe: set<nat>, node: nat, w: Walk)
    requires Valid(doc) && Closed(doc, dependents, universe)
    requires node in universe && w.processed <= universe && node !in w.processed
    requires RestThrows(doc, dependents, node, 0)
    ensures Expand(doc, dependents, universe, node, w).processed == w.processed + {node}
  {
    VisitAllFail(doc, dependents, universe, node, 0, w.(processed := w.processed + {node}));
  }

  /** Line `d` has been dealt with: it was expanded, or its last
      re-evaluation threw and left the error marker. */
  ghost predicate Settled(w: Walk, d: nat) {
    d in w.processed || (d in w.pass.results && w.pass.results[d] == ErrorMarker)
  }

  /** Every line that became processed between `w` and `r` has all its
      dependents settled in `r`. */
  ghost predicate Covered(dependents: map<nat, seq<nat>>, w: Walk, r: Walk) {
    forall a: nat, k :: a in r.processed && a !in w.processed && 0 <= k < |DependentsOf(dependents, a)| ==>
      Settled(r, DependentsOf(dependents, a)[k])
  }

  /** No line settled in `w` is unsettled in `r`. */
  ghost predicate KeepsSettled(w: Walk, r: Walk) {
    forall x: nat :: Settled(w, x) ==> Settled(r, x)
  }

  lemma CoveredCompose(dependents: map<nat, seq<nat>>, w: Walk, m: Walk, r: Walk)
    requires Covered(dependents, w, m) && Covered(dependents, m, r)
    requires KeepsSettled(w, m) && KeepsSettled(m, r)
    ensures Covered(dependents, w, r) && KeepsSettled(w, r)
  {
    forall a: nat, k | a in r.processed && a !in w.processed && 0 <= k < |DependentsOf(dependents, a)|
      ensures Settled(r, DependentsOf(dependents, a)[k])
    {
      if a in m.processed {
        assert Settled(m, DependentsOf(dependents, a)[k]);
      }
    }
  }

  /** Expanding a line settles every dependent of every line it newly
      processes, and unsettles nothing. */
  lemma {:induction false} ExpandSettles(doc: Document, dependents: map<nat, seq<nat>>, universe: set<nat>, node: nat, w: Walk)
    requires Valid(doc) && Closed(doc, dependents, universe)
    requires node in universe && w.processed <= universe
    ensures var r := Expand(doc, dependents, universe, node, w);
            Covered(dependents, w, r) && KeepsSettled(w, r)
    decreases |universe - w.processed|, 0
  {
    if node !in w.processed {
      AddShrinks(universe, w.processed, node);
      var w' := w.(processed := w.processed + {node});
      var r := Visit(doc, dependents, universe, node, 0, w');
      assert Expand(doc, dependents, universe, node, w) == r;
      VisitSettles(doc, dependents, universe, node, 0, w');
      assert KeepsSettled(w, w');
      forall a: nat, k | a in r.processed && a !in w.processed && 0 <= k < |DependentsOf(dependents, a)|
        ensures Settled(r, DependentsOf(dependents, a)[k])
      {
        if a != node {
          assert a !in w'.processed;
        }
      }
    }
  }

  /** The loop from position `j` settles each of the remaining dependents
      of `owner`, covers every line it newly processes, and unsettles
      nothing. */
  lemma {:induction false} VisitSettles(doc: Document, dependents: map<nat, seq<nat>>, universe: set<nat>, owner: nat, j: nat, w: Walk)
    requires Valid(doc) && Closed(doc, dependents, universe)
    requires owner in w.processed && w.processed <= universe
    requires j <= |DependentsOf(dependents, owner)|
    ensures var r := Visit(doc, dependents, universe, owner, j, w);
            && Covered(dependents, w, r) && KeepsSettled(w, r)
            && forall k :: j <= k < |DependentsOf(dependents, owner)| ==> Settled(r, DependentsOf(dependents, owner)[k])
    decreases |universe - w.processed|, 1, |DependentsOf(dependents, owner)| - j
  {
    var deps := DependentsOf(dependents, owner);
    if j < |deps| {
      var d := deps[j];
      assert d in deps;
      var w1 := w.(pass := Recompute(doc, d, w.pass));
      var r := Visit(doc, dependents, universe, owner, j, w);
      if !w1.pass.results[d].ErrorMarker? {
        var w2 := Expand(doc, dependents, universe, d, w1);
        SubsetShrinks(universe, w.processed, w2.processed);
        assert r == Visit(doc, dependents, universe, owner, j + 1, w2);
        ExpandSettles(doc, dependents, universe, d, w1);
        VisitSettles(doc, dependents, universe, owner, j + 1, w2);
        forall x: nat | Settled(w, x) ensures Settled(w2, x) {
          if x != d {
            assert Settled(w1, x);
          }
        }
        CoveredCompose(dependents, w, w2, r);
        forall k | j <= k < |deps| ensures Settled(r, deps[k]) {
          if k == j {
            assert Settled(w2, d);
          }
        }
      } else {
        assert r == Visit(doc, dependents, universe, owner, j + 1, w1);
        VisitSettles(doc, dependents, universe, owner, j + 1, w1);
        forall x: nat | Settled(w, x) ensures Settled(w1, x) {
        }
        CoveredCompose(dependents, w, w1, r);
        forall k | j <= k < |deps| ensures Settled(r, deps[k]) {
          if k == j {
            assert Settled(w1, d);
          }
        }
      }
    }
  }

  /** Propagating from the changed lines settles every dependent of every
      line the walk newly processes; from an empty processed set, that is
      every dependent of every changed line. */
  lemma {:induction false} PropagateFromSettles(doc: Document, dependents: map<nat, seq<nat>>, universe: set<nat>, roots: seq<nat>, w: Walk)
    requires Valid(doc) && Closed(doc, dependents, universe)
    requires (forall k :: 0 <= k < |roots| ==> roots[k] in universe) && w.processed <= universe
    ensures var r := PropagateFrom(doc, dependents, universe, roots, w);
            && Covered(dependents, w, r) && KeepsSettled(w, r)
            && (w.processed == {} ==>
                  forall i, k :: 0 <= i < |roots| && 0 <= k < |DependentsOf(dependents, roots[i])| ==>
                    Settled(r, DependentsOf(dependents, roots[i])[k]))
    decreases |roots|
  {
    if |roots| > 0 {
      var m := Expand(doc, dependents, universe, roots[0], w);
      ExpandSettles(doc, dependents, universe, roots[0], w);
      PropagateFromSettles(doc, dependents, universe, roots[1..], m);
      CoveredCompose(dependents, w, m, PropagateFrom(doc, dependents, universe, roots, w));
    }
  }
}
