# kalu recalculation engine in Dafny

kalu is a notepad calculator. Each line of the editor holds an expression or
an assignment `name = expression`. After every edit the whole document is
recalculated:

1. The new text is split into lines.
2. Each line is compared with the text last saved (`detectChangedLines`).
3. Every line that is not blank and not a `//` comment gets a stable id
   `calcN`. The id is kept from the previous recalculation where the rules
   allow it, and otherwise is freshly minted from a counter. Other lines can
   refer to the line's result as `_calcN`.
4. The dependency graph is built. A line depends on the lines that assign
   the variables it mentions and on the lines whose ids its `_calcN`
   references name.
5. Every line is evaluated in document order, in a scope of the current
   results.
6. A recursive walk over `dependents` re-evaluates the dependents of every
   line whose result changed. A `processedLines` set guards the walk.

Finally `updateUI` shows each result, cut to 40 characters, beside its line.

The model follows `script.js`:

- Text helpers: `Text`, `References`, and `Identity`'s id formatting.
- The change classifier: `Changes`.
- Id assignment, the first pass: `Identity`.
- The graph: `Graph`.
- The evaluation pass: `Evaluation`. It uses the shared cell type in `Cells`
  and the formatting rules in `Presentation`.
- Propagation: `Propagation`.
- One whole recalculation and the change handler: `Engine`.

Strings are `seq<char>`. The per-line JavaScript objects are `map<nat, …>`
and `map<string, …>`. `math.evaluate` is a parameter
`eval: (string, Scope) -> Outcome` over an abstract value type. The
`Outcome` is `Threw` for a thrown error, `NoValue` when the evaluation
returns `undefined` (an expression with no content, such as a lone
comment), and `Returned(v)` for a value. The text form `result + ""` is a
parameter `show: Value -> string`. A results entry is a `Cell`:

- `Blank` is the source's `""`;
- `ErrorMarker` is its `"..."`;
- `Undefined` is `undefined`, whether stored from an evaluation or read
  from a missing key;
- `Computed(v)` is a value.

Every `!== undefined` test of the source treats both kinds of `undefined`
alike. This applies to the scope, the changed-line test and the widgets.

## Model

| member | source | states |
|---|---|---|
| Text.Trim | script.js:183 | `trim` leaves no whitespace at either end of its result |
| Text.TrimIsInfix | script.js:183 | the trimmed text is an infix of the input, and everything removed on both sides is whitespace |
| Text.TrimIdempotent | script.js:183 | trimming twice is trimming once |
| Text.Collapse | script.js:183 | `replace(/\s+/g, " ")` leaves only single blanks as whitespace, keeps the words (maximal non-whitespace runs) in order, is empty only for the empty text, and keeps whether the text starts and ends with whitespace |
| Text.CollapseKeepsSingleBlanks | script.js:183 | a text whose whitespace is already single blanks is left unchanged |
| Text.TrimKeepsWords | script.js:183 | `trim` keeps the words of the text |
| Text.Normalize | script.js:182-184 | `normalizeContent` yields a text with no whitespace at the ends and no two adjacent whitespace characters, with the same words as the input, so texts that split into words differently get different keys |
| Text.NormalizeKeepsNormal | script.js:182-184 | an already normal text is its own normal form |
| Text.NormalizeIdempotent | script.js:182-184 | normalising twice is normalising once |
| Text.Split | script.js:188-189 | `split("\n")` gives at least one piece and no piece holds a newline |
| Text.JoinSplit | script.js:188-189 | joining the pieces with newlines gives the text back |
| Text.SplitJoin | script.js:188-189 | splitting a join of newline-free lines gives the lines back |
| References.ParseVariableAssignment | script.js:108-119 | a match has an identifier target and a non-empty expression without line terminators, and the line is whitespace, the target, whitespace, `=`, whitespace and the expression |
| References.ParseVariableAssignmentComplete | script.js:108-119 | every line of assignment shape is matched, with that target and with an expression that is a suffix of the right-hand side; together with the contract above, the parser returns nothing exactly when no such split exists |
| References.CalcMatchText | script.js:122-137 | a match's `ref` is `_calc` followed by digits, and its `id` is `calc` followed by the same digits |
| References.FindCalcReferences | script.js:122-137 | every match is `_calc` and a maximal digit run found at its `index`; the matches are in increasing order and do not overlap |
| References.FindCalcReferencesComplete | script.js:122-137 | the match offsets are exactly the positions where `_calc` and a digit occur |
| References.FindVariableReferences | script.js:140-169 | every reported name is an identifier and not one of the math function or constant names |
| References.FindVariableReferencesSound | script.js:140-144 | every reported name stands in the expression as a whole token, with no word character just before or after it |
| References.FindVariableReferencesComplete | script.js:140-169 | every whole identifier token that is not a math name is reported |
| Keys.Ascending | script.js:501-506 | the integer keys of an object are visited in increasing order, each once |
| Changes.RecordAt | script.js:197-219 | one turn of the loop puts index `k` on the list of its kind and changes no other membership |
| Changes.ClassifyUpToAt | script.js:197-220 | after the turns for the indices below `n`, an index is on a list exactly when it is below `n` and of that list's kind |
| Changes.ClassifyUpToIncreasing | script.js:197-220 | after the turns for the indices below `n`, each list is strictly increasing and holds only indices below `n` |
| Changes.ClassifyUpToClassifies | script.js:197-220 | after the loop, each of the four lists holds exactly the indices of its kind, in increasing order |
| Changes.DetectChangedLines | script.js:187-222 | an index is added when only the new text has that line and removed when only the old text has it; otherwise it is modified exactly when the two lines differ once trimmed, and the rest are unchanged; each list is strictly increasing |
| Changes.DetectChangedLinesPartition | script.js:187-222 | each index below the larger line count is in exactly one list and no other index is in any; added iff `old ≤ i < new`, removed iff `new ≤ i < old` |
| Identity.Decimal | script.js:80 | the counter's decimal text is non-empty digits with no leading zero |
| Identity.DecimalRoundTrip | script.js:80 | reading the decimal text back gives the number |
| Identity.GenerateUniqueId | script.js:79-81 | a minted id is `calc` followed by decimal digits, and those digits read back as the counter |
| Identity.GenerateUniqueIdInjective | script.js:79-81 | two counters give the same id exactly when they are equal |
| Identity.GenerateReference | script.js:84-86 | the reference is `_` followed by the id |
| Identity.ReferenceRoundTrip | script.js:84-86 | scanning a minted id's reference finds exactly one match, at offset 0, naming that id |
| Identity.DigitsReference | script.js:122-137 | `_calc` followed by a non-empty digit run scans as exactly one match, at offset 0, naming `calc` and those digits |
| Identity.FindLineIndexById | script.js:172-179 | the result is -1 exactly when no line has the id, and otherwise it is the least line index that has the id, which is the first key a `for...in` loop reaches |
| Identity.IsCommentMatches | script.js:322 | the comment test holds exactly when the line is optional whitespace followed by `//` |
| Identity.KeptId | script.js:339-363 | rules 1 to 4: an unchanged or modified line with an old id keeps it; a kept id is never empty; there is no kept id exactly when all four rules fail |
| Identity.KeptIdSources | script.js:339-363 | rules 3 and 4: a line that does not keep its position's id takes the content index's id when its text has one, and otherwise the id its position has in the history; a kept id always comes from one of the previous tables |
| Identity.IdRule | script.js:339-366 | the id of a line is never empty: the kept id, or a freshly minted one |
| Identity.AssignUpToIds | script.js:321-384 | the first pass gives ids to exactly the lines that take part, by the rule chain; the history equals the mapping; each line reference is `_` plus the line's id; the counter moved once per fresh id |
| Identity.AssignUpToContent | script.js:370 | the content index maps each normalised text to the id of the last line with that text, and has no other keys |
| Identity.AssignUpToVariables | script.js:375-378 | the variable table maps each name to the last line assigning it, and has no other keys |
| Identity.FreshBeforeGrows | script.js:79-81 | the counter strictly increases past each freshly minted id |
| Identity.FreshIdsDistinct | script.js:364-366 | two lines of one pass that both mint ids get different ids |
| Identity.AssignIdsRules | script.js:321-384 | exactly the non-blank, non-comment lines get an id, never empty; the history equals the mapping; an unchanged or modified line with an old id keeps it |
| Presentation.Truncate | script.js:94-96 | a text within the limit is kept; a longer one becomes its first `keep` characters and `...` |
| Presentation.TruncateIdempotent | script.js:94-96 | truncating a truncated text changes nothing, and the result fits the limit |
| Presentation.GenerateReferenceLabel | script.js:89-105 | a label is between 3 and 33 characters long |
| Presentation.GenerateReferenceLabelShape | script.js:89-105 | a label is a preview of at most 20 characters, ` = `, and a result text of at most 10; each part is kept whole when it fits and is otherwise its first 17 (or 7) characters and `...` |
| Presentation.DisplayResult | script.js:608-615 | nothing is shown exactly for an `undefined` or `""` entry; the error marker shows as `...`; a shown text has at most 40 characters; it is the full text when that fits and otherwise the text's first 37 characters and `...` |
| Graph.ResolveVariables | script.js:403-416 | the resolved lines never include the line itself, and each comes from a mentioned variable |
| Graph.ResolveVariablesComplete | script.js:403-416 | every mentioned variable assigned on another line contributes that line |
| Graph.ResolveCalcs | script.js:419-433 | the resolved lines never include the line itself, and each is the first holder of a referenced id |
| Graph.ResolveCalcsComplete | script.js:419-433 | every reference whose id some other line holds first contributes that line |
| Graph.DependenciesMeaning | script.js:400-433 | a line depends on `x` exactly when `x` is another line that assigns one of its variables or first holds one of its `_calcN` ids; an unknown id adds no edge |
| Graph.AddDependentsEffect | script.js:407-415 | recording line `i` under its dependencies appends `i` once to each list that lacks it and changes nothing else |
| Graph.BuildUpToTransposes | script.js:387-434 | after the loop, `b` is among `a`'s dependents exactly when `a` is among `b`'s dependencies, and every dependents list is strictly increasing |
| Graph.BuildGraphShape | script.js:387-434 | `dependencies` has an entry for exactly the lines that take part; no line depends on itself or lists itself; dependents is the exact transpose, holds only line indices, and has no duplicates |
| Evaluation.Expression | script.js:461-470 | an assignment line is evaluated on the expression the parser returns, which is the text after `=` and the whitespace that follows it, a proper suffix of the line; any other line is evaluated whole |
| Evaluation.AddReferencesBinds | script.js:446-457 | after the id loop, `_id` is bound exactly when a line with that id has an entry that is not `undefined`, to the entry of the last such line; other names keep their binding |
| Evaluation.BuildScopeBinds | script.js:439-457 | a plain name is bound exactly when it is a variable whose line's entry is not `undefined`, to that entry; `_id` is bound exactly when some line with that id has an entry that is not `undefined`, to the entry of the greatest such line |
| Evaluation.Label | script.js:474-479 | a line with an id gets a label under that id; no other id gains a label, and every other label is kept |
| Evaluation.Recompute | script.js:437-493 | evaluating a line writes that line's entry and no other; the entry is the error marker exactly when the evaluator throws, and otherwise the returned value or `undefined`; it is never `""`; a throw leaves the labels alone; only the line's own id can gain a label |
| Evaluation.RecomputeLabels | script.js:471-479 | when the evaluator does not throw, a line with an id gets the label built from its line and its new entry's text; every other label is kept |
| Evaluation.PassUpToWrites | script.js:387-494 | the pass writes an entry for every line and for no other key; entries past the text keep their values; a line gets `""` exactly when it is blank or a comment |
| Evaluation.PassUpToWritesAt | script.js:387-494 | the same for the entry of one key |
| Evaluation.PassUpToKeepsEarlier | script.js:387-494 | later turns never change the entry of an earlier line |
| Evaluation.PassUpToThreads | script.js:387-494 | when line `k` is evaluated, the lines above it already hold their final entries and the lines from `k` on still hold their entries from before the pass |
| Evaluation.PassUpToLabels | script.js:475-479 | every label written by the pass belongs to the id of one of its lines |
| Evaluation.ChangedLines | script.js:500-506 | the changed lines are exactly the keys of the new table whose entry is not equal to the old one, a missing old entry reading as `undefined`; they are in increasing order |
| Propagation.Expand | script.js:510-515 | `updateDependents` ends on any graph; it marks the node processed; the processed set only grows within the document; each entry it writes is not `""` and sits at a dependent of a processed line; labels are only added for ids |
| Propagation.Visit | script.js:514-565 | the loop over a node's dependents keeps the same guarantees: only dependents of processed lines are written, never with `""`, and no entry is dropped |
| Propagation.PropagateFrom | script.js:569 | walking from every changed line processes all of them, with the same locality guarantees |
| Propagation.VisitFailStep | script.js:515-564 | in any walk state, a turn whose dependent throws stores the error marker for it and goes on with the next dependent without expanding it |
| Propagation.VisitReturnStep | script.js:515-561 | in any walk state, a turn whose dependent returns a value or `undefined` first stores that line's new entry and label as `Evaluation.Recompute` gives them (`Computed(v)` or `undefined`), then expands the dependent from that state, and then goes on with the next dependent |
| Propagation.VisitReturnExpands | script.js:549-561 | in any walk state, a turn whose dependent returns a value or `undefined` expands that dependent, which ends up processed |
| Propagation.VisitAllFail | script.js:515-564 | when each remaining dependent's expression throws in every scope, the loop walks into none of them |
| Propagation.VisitAllFailMarks | script.js:562-564 | when each remaining dependent's expression throws in every scope, the loop writes nothing but the error marker and drops no entry |
| Propagation.VisitAllFailCovers | script.js:515-564 | when each remaining dependent's expression throws in every scope, every dependent from the loop position on ends with the error marker |
| Propagation.ExpandAllFail | script.js:510-564 | when every dependent of a new line throws in every scope, expanding the line processes only that line |
| Propagation.ExpandSettles | script.js:510-565 | after expanding a line, every dependent of every line it newly processes is expanded or holds the error marker; no line already dealt with loses that state |
| Propagation.VisitSettles | script.js:514-565 | the loop leaves every dependent from its position on expanded or holding the error marker, and the same holds for the dependents of every line it newly processes |
| Propagation.PropagateFromSettles | script.js:509-569 | starting from an empty processed set, after the walk every dependent of every changed line is expanded or holds the error marker, and so is every dependent of every line the walk processes |
| Engine.GraphClosed | script.js:387-434 | every dependent in the built graph is a line of the text that takes part |
| Engine.WalkKeepsShape | script.js:509-569 | propagation keeps `""` on blank and comment lines, keeps the other lines non-blank, and does not touch entries past the text |
| Engine.Recalculate | script.js:387-569 | after the pass and the propagation, every line has an entry, `""` exactly when skipped; entries past the text are unchanged; every label is the id of a line |
| Engine.Evaluate | script.js:387-569 | the same, stated on the text's lines and the first pass's ids |
| Engine.UpdateCalculationsResults | script.js:293-569 | after a recalculation the results table has an entry for every line of the text, `""` exactly on blank and comment lines; entries left from a longer earlier text keep their values; no other entry appears |
| Engine.UpdateCalculationsIds | script.js:293-497 | after a recalculation exactly the lines that take part have a non-empty id, the history equals the mapping, and every reference label is an id of a line |
| Engine.OnChangeSameTextKeepsIds | script.js:665-671 | running the change handler again on the text it just saved keeps every line's id |
| Engine.Widgets | script.js:602-615 | one widget slot per line; a line shows a widget exactly when it is not blank or a comment and its entry is neither `undefined` nor `""`; the text has at most 40 characters and is the entry's full text when that fits, and otherwise its first 37 characters and `...` |
| Engine.WidgetsShown | script.js:602-615 | with an entry for every line, `""` exactly on the skipped ones, a line shows a widget exactly when it takes part and its entry is not `undefined`; the error marker shows as `...` |
| Engine.OnChangeWidgets | script.js:593-615 | after a change every line has an entry, and a line shows a widget of at most 40 characters exactly when it takes part and its result is not `undefined` |

## Left out

- Persistence (`saveContent`, `getLastSavedContent`, localStorage and JSON, script.js:26-76) is input and output. `OnChange` only records the saved text as `lastContent`, and `Engine.Initial` gives the empty tables of a first load.
- DOM and CodeMirror work is not modelled: reference highlighting, widget nodes and tooltips, `onResultClick`, editor set-up, `init` and the demo `fetch`. Only the texts of the widgets are modelled (`Engine.Widgets`).
- The debounce timer in the change handler is event-loop scheduling. `OnChange` is the callback that runs when the timer fires.
- `math.evaluate` is the parameter `eval`. The value type is abstract and `show` renders it, so number formatting is not modelled.
- Evaluation.ChangedLines: values are compared with Dafny's `==`, which is reflexive. The source's `!==` is not: a `NaN` result (from `0/0`, say) differs from itself, so the source reports that line as changed on every recalculation, and an object result (a unit or a matrix, say) is compared by reference, so it always counts as changed. The model reports neither.
- A result that is itself the string `""` or `"..."` is kept apart from the blank entry and the error marker. In the source it cannot be told apart from them: a `""` result shows no widget, and `"..."` looks like an error.
- Object keys that collide with `Object.prototype` names, such as `constructor`, are not modelled.
- Strings are sequences of characters. UTF-16 code units and surrogate pairs are not modelled.
- Identity.GenerateUniqueId: the counter is unbounded. The source's number formatting switches to exponent form from 1e21 on, and its counter loses precision past 2^53; neither is modelled.
- `idMapping` is not injective. A duplicated line can take the same id as an existing line through the content index, so no injectivity is claimed.
- `dependencies[i]` can hold the same line twice; the graph only de-duplicates `dependents`.
- Propagation.Visit: its own contract states only where the loop writes and that it drops nothing. What each turn stores is stated turn by turn in `Propagation.VisitFailStep` and `Propagation.VisitReturnStep`, because a later turn can overwrite an entry and so the final table does not show what an earlier turn stored.
- Propagation.VisitReturnExpands: states only that the dependent ends up processed; the entry stored before the expansion is stated in `Propagation.VisitReturnStep`.
- A line reachable from several processed lines is re-evaluated once per parent. No claim is made that each line is evaluated once.

