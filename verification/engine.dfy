/** One recalculation of the whole document (`updateCalculations`) as a
    function from the engine's tables and the editor's text to the next
    tables, the change handler that then records the text, and the widget
    texts `updateUI` places beside the lines. */
module Engine {
  import opened Wrappers
  import opened Text
  import opened Changes
  import opened Identity
  import opened Cells
  import opened Graph
  import opened Evaluation
  import opened Presentation
  import opened Propagation

  /** `kalu.calculations` together with `lastContent`, the text the next
      change is compared against. */
  datatype EngineState = EngineState(tables: IdTables, lineReferences: map<nat, string>, graph: Graph,
                                     results: map<nat, Cell>, labels: map<string, string>,
                                     lastContent: string)

  /** The tables at load time, before any saved state is restored. */
  function Initial(): EngineState {
    EngineState(IdTables(map[], map[], map[], 0), map[], Graph(map[], map[]), map[], map[], "")
  }

  /** The built graph's dependents are lines of the document that take
      part, so the walk over them stays within the document. */
  lemma GraphClosed(lines: seq<string>, first: FirstPass, eval: Evaluator, show: Value -> string)
    ensures Closed(MakeDocument(lines, first.variables, first.tables.idMapping, eval, show),
                   BuildGraph(lines, first.variables, first.tables.idMapping).dependents, Below(|lines|))
  {
    var doc := MakeDocument(lines, first.variables, first.tables.idMapping, eval, show);
    var g := BuildGraph(lines, first.variables, first.tables.idMapping);
    forall a: nat, b: nat | b in DependentsOf(g.dependents, a)
      ensures b < |lines| && !doc.skipped[b]
    {
      BuildGraphShape(lines, first.variables, first.tables.idMapping, a, b);
    }
  }

  /** The lines whose entry the second pass changed all lie in the document. */
  lemma ChangedInDocument(doc: Document, results: map<nat, Cell>)
    requires Valid(doc)
    ensures var changed := ChangedLines(results, FullPass(doc, results).results);
            forall k :: 0 <= k < |changed| ==> changed[k] < |doc.lines|
  {
    PassUpToWrites(doc, Pass(results, map[]), |doc.lines|);
    var changed := ChangedLines(results, FullPass(doc, results).results);
    assert forall k :: 0 <= k < |changed| ==> changed[k] in changed;
  }

  /** A walk that writes only at dependents keeps the shape the second
      pass left: skipped lines keep `""`, lines that take part stay
      non-blank, entries past the document are not touched. */
  lemma WalkKeepsShape(doc: Document, dependents: map<nat, seq<nat>>, w: Walk, r: Walk)
    requires Closed(doc, dependents, Below(|doc.lines|))
    requires w.pass.results.Keys <= r.pass.results.Keys && WritesUnder(dependents, w, r)
    requires forall k: nat :: k < |doc.lines| ==> k in w.pass.results && (w.pass.results[k] == Blank <==> doc.skipped[k])
    ensures forall k: nat :: k in r.pass.results <==> k in w.pass.results || k < |doc.lines|
    ensures forall k: nat :: k < |doc.lines| ==> (r.pass.results[k] == Blank <==> doc.skipped[k])
    ensures forall k: nat :: k in w.pass.results && k >= |doc.lines| ==> r.pass.results[k] == w.pass.results[k]
  {
    forall k: nat | Changed(w.pass.results, r.pass.results, k)
      ensures k < |doc.lines| && !doc.skipped[k] && r.pass.results[k] != Blank
    {
      var a :| a in r.processed && k in DependentsOf(dependents, a);
    }
  }

  /** The second pass and the propagation after it: every line of the
      document gets an entry, `""` exactly when it is skipped; entries past
      the document keep their value; every label is the id of a line. */
  function Recalculate(doc: Document, dependents: map<nat, seq<nat>>, results: map<nat, Cell>): (p: Pass)
    requires Closed(doc, dependents, Below(|doc.lines|))
    ensures forall k: nat :: k in p.results <==> k in results || k < |doc.lines|
    ensures forall k: nat :: k < |doc.lines| ==> (p.results[k] == Blank <==> doc.skipped[k])
    ensures forall k: nat :: k in results && k >= |doc.lines| ==> p.results[k] == results[k]
    ensures p.labels.Keys <= doc.idMapping.Values
  {
    var pass := FullPass(doc, results);
    PassUpToWrites(doc, Pass(results, map[]), |doc.lines|);
    PassUpToLabels(doc, Pass(results, map[]), |doc.lines|);
    ChangedInDocument(doc, results);
    var w := PropagateFrom(doc, dependents, Below(|doc.lines|), ChangedLines(results, pass.results), Walk(pass, {}));
    WalkKeepsShape(doc, dependents, Walk(pass, {}), w);
    w.pass
  }

  /** The second pass and the propagation over the lines of a text, given
      the first pass's tables: every line gets an entry, `""` exactly on
      the blank and comment lines; entries past the text keep their value;
      every label is the id of a line. */
  function Evaluate(lines: seq<string>, first: FirstPass, results: map<nat, Cell>, eval: Evaluator, show: Value -> string): (p: Pass)
    ensures forall k: nat :: k in p.results <==> k in results || k < |lines|
    ensures forall k: nat :: k < |lines| ==> k in p.results && (p.results[k] == Blank <==> IsSkipped(lines[k]))
    ensures forall k: nat :: k in results && k >= |lines| ==> k in p.results && p.results[k] == results[k]
    ensures p.labels.Keys <= first.tables.idMapping.Values
  {
    var doc := MakeDocument(lines, first.variables, first.tables.idMapping, eval, show);
    GraphClosed(lines, first, eval, show);
    Recalculate(doc, BuildGraph(lines, first.variables, first.tables.idMapping).dependents, results)
  }

  /** `updateCalculations` on the editor text `content`: classify the lines
      against the last text, assign ids, build the graph, evaluate every
      line in order, then propagate from the lines whose result changed. */
  function UpdateCalculations(st: EngineState, content: string, eval: Evaluator, show: Value -> string): EngineState {
    var lines := Split(content);
    var first := AssignIds(st.tables, DetectChangedLines(st.lastContent, content), lines);
    var p := Evaluate(lines, first, st.results, eval, show);
    EngineState(first.tables, first.lineReferences, BuildGraph(lines, first.variables, first.tables.idMapping),
                p.results, p.labels, st.lastContent)
  }

  /** The change handler: recalculate, then `saveContent` records the text
      as the one the next change is compared against. */
  function OnChange(st: EngineState, content: string, eval: Evaluator, show: Value -> string): EngineState {
    UpdateCalculations(st, content, eval, show).(lastContent := content)
  }

  /** After a recalculation the results table has an entry for every line
      of the text, `""` exactly on the blank and comment lines and a value,
      `undefined` or the error marker on the others; entries of indices past the text
      (left from a longer earlier text) are kept as they were, and no
      other entry appears. */
  lemma UpdateCalculationsResults(st: EngineState, content: string, eval: Evaluator, show: Value -> string)
    ensures var r := UpdateCalculations(st, content, eval, show).results;
            var lines := Split(content);
            && (forall k: nat :: k in r <==> k in st.results || k < |lines|)
            && (forall k: nat :: k < |lines| ==> k in r && (r[k] == Blank <==> IsSkipped(lines[k])))
            && (forall k: nat :: k in st.results && k >= |lines| ==> k in r && r[k] == st.results[k])
  {
    var lines := Split(content);
    var first := AssignIds(st.tables, DetectChangedLines(st.lastContent, content), lines);
    assert UpdateCalculations(st, content, eval, show).results == Evaluate(lines, first, st.results, eval, show).results;
  }

  /** The ids of a recalculation follow the rules of `AssignIds`: exactly
      the lines that take part have a non-empty id, the position history
      equals the mapping, and every reference label is the id of a line. */
  lemma UpdateCalculationsIds(st: EngineState, content: string, eval: Evaluator, show: Value -> string, i: nat)
    ensures var r := UpdateCalculations(st, content, eval, show);
            var lines := Split(content);
            && (i in r.tables.idMapping <==> i < |lines| && !IsSkipped(lines[i]))
            && (i in r.tables.idMapping ==> r.tables.idMapping[i] != "")
            && r.tables.lineHistory == r.tables.idMapping
            && r.labels.Keys <= r.tables.idMapping.Values
  {
    var lines := Split(content);
    var first := AssignIds(st.tables, DetectChangedLines(st.lastContent, content), lines);
    AssignIdsRules(st.tables, DetectChangedLines(st.lastContent, content), lines, i);
  }

  /** Recalculating the text that was just recorded finds every line
      unchanged, so every line that takes part keeps the id it was given. */
  lemma OnChangeSameTextKeepsIds(st: EngineState, content: string, eval: Evaluator, show: Value -> string, i: nat)
    requires i < |Split(content)| && !IsSkipped(Split(content)[i])
    ensures var s1 := OnChange(st, content, eval, show);
            var s2 := OnChange(s1, content, eval, show);
            i in s1.tables.idMapping && i in s2.tables.idMapping && s2.tables.idMapping[i] == s1.tables.idMapping[i]
  {
    var s1 := OnChange(st, content, eval, show);
    UpdateCalculationsIds(st, content, eval, show, i);
    var changes := DetectChangedLines(content, content);
    assert Kind(Trimmed(Split(content)), Trimmed(Split(content)), i).Unchanged?;
    assert i in changes.same;
    AssignIdsRules(s1.tables, changes, Split(content), i);
  }

  /** `updateUI`: the text of the widget beside each line, if it gets one. */
  function Widgets(lines: seq<string>, results: map<nat, Cell>, show: Value -> string): (ws: seq<Option<string>>)
    ensures |ws| == |lines|
    ensures forall i :: 0 <= i < |lines| ==>
              (ws[i].Some? <==> !IsSkipped(lines[i]) && Read(results, i) != Undefined && Read(results, i) != Blank)
    ensures forall i :: 0 <= i < |lines| && ws[i].Some? ==> |ws[i].value| <= 40
    ensures forall i :: 0 <= i < |lines| && ws[i].Some? && |ResultText(Read(results, i), show)| <= 40 ==>
              ws[i].value == ResultText(Read(results, i), show)
    ensures forall i :: 0 <= i < |lines| && ws[i].Some? && |ResultText(Read(results, i), show)| > 40 ==>
              ws[i].value == ResultText(Read(results, i), show)[..37] + "..."
  {
    seq(|lines|, i requires 0 <= i < |lines| => if IsSkipped(lines[i]) then None else DisplayResult(Read(results, i), show))
  }

  /** With an entry for every line, `""` exactly on the skipped ones, a
      line shows a widget exactly when it takes part and its entry is not
      `undefined`; the error marker shows as `...`. */
  lemma WidgetsShown(lines: seq<string>, results: map<nat, Cell>, show: Value -> string, i: nat)
    requires forall k: nat :: k < |lines| ==> k in results && (results[k] == Blank <==> IsSkipped(lines[k]))
    requires i < |lines|
    ensures var ws := Widgets(lines, results, show);
            && (ws[i].Some? <==> !IsSkipped(lines[i]) && results[i] != Undefined)
            && (results[i] == ErrorMarker ==> ws[i] == Some("..."))
  {
  }

  /** After a change a line shows a widget of at most 40 characters exactly
      when it takes part and its result is not `undefined`; blank and
      comment lines show none. */
  lemma OnChangeWidgets(st: EngineState, content: string, eval: Evaluator, show: Value -> string, i: nat)
    requires i < |Split(content)|
    ensures var r := OnChange(st, content, eval, show).results;
            var ws := Widgets(Split(content), r, show);
            && i in r
            && (ws[i].Some? <==> !IsSkipped(Split(content)[i]) && r[i] != Undefined)
            && (ws[i].Some? ==> |ws[i].value| <= 40)
  {
    UpdateCalculationsResults(st, content, eval, show);
    WidgetsShown(Split(content), OnChange(st, content, eval, show).results, show, i);
  }
}
