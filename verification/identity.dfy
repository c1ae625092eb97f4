/** Line identity: the `calcN` ids, their `_calcN` references, the lookup
    from an id back to its line, and the first pass of a recalculation,
    which gives every non-blank, non-comment line an id by a five-rule
    priority chain and collects the variable table. */
module Identity {
  import opened Wrappers
  import opened Text
  import opened References
  import opened Changes
  import opened Keys

  // ---------------------------------------------------------------------------
  // Ids and references

  function DigitChar(d: nat): (c: char)
    requires d < 10
    ensures IsDigit(c)
  {
    (48 + d) as char
  }

  function DigitValue(c: char): (d: nat)
    requires IsDigit(c)
    ensures d < 10
  {
    c as int - 48
  }

  /** The decimal numeral of `n`, as a template literal writes a counter. */
  function Decimal(n: nat): (r: string)
    ensures |r| >= 1 && AllDigits(r)
    ensures |r| == 1 || r[0] != '0'
    decreases n
  {
    if n < 10 then [DigitChar(n)] else Decimal(n / 10) + [DigitChar(n % 10)]
  }

  /** The number a string of digits denotes. */
  function DecimalValue(s: string): nat
    requires AllDigits(s)
    decreases |s|
  {
    if |s| == 0 then 0 else 10 * DecimalValue(s[..|s| - 1]) + DigitValue(s[|s| - 1])
  }

  lemma {:induction false} DecimalRoundTrip(n: nat)
    ensures DecimalValue(Decimal(n)) == n
    decreases n
  {
    if n >= 10 {
      DecimalRoundTrip(n / 10);
      var r := Decimal(n);
      assert r[..|r| - 1] == Decimal(n / 10);
    }
  }

  /** `generateUniqueId`: the id minted from counter value `counter` (the
      source then bumps the counter). */
  function GenerateUniqueId(counter: nat): (id: string)
    ensures |id| > 4 && id[..4] == "calc" && AllDigits(id[4..])
    ensures DecimalValue(id[4..]) == counter
  {
    DecimalRoundTrip(counter);
    assert ("calc" + Decimal(counter))[4..] == Decimal(counter);
    "calc" + Decimal(counter)
  }

  /** Distinct counter values mint distinct ids. */
  lemma GenerateUniqueIdInjective(m: nat, n: nat)
    ensures GenerateUniqueId(m) == GenerateUniqueId(n) <==> m == n
  {
    assert GenerateUniqueId(m)[4..] == Decimal(m);
    assert GenerateUniqueId(n)[4..] == Decimal(n);
    DecimalRoundTrip(m);
    DecimalRoundTrip(n);
  }

  /** `generateReference`: the name under which a line's result is visible. */
  function GenerateReference(id: string): (r: string)
    ensures |r| == |id| + 1 && r[0] == '_' && r[1..] == id
  {
    "_" + id
  }

  /** The reference of a minted id, scanned by `FindCalcReferences`, is one
      match that names that id: references the engine hands out are the
      ones it recognises. */
  lemma ReferenceRoundTrip(counter: nat)
    ensures var id := GenerateUniqueId(counter);
            var s := GenerateReference(id);
            FindCalcReferences(s) == [CalcRef(s, id, 0)]
  {
    var id := GenerateUniqueId(counter);
    var digits := id[4..];
    assert id == "calc" + digits;
    assert GenerateReference(id) == "_calc" + digits;
    DigitsReference(digits);
  }

  /** `_calc` and a run of digits scans as one match naming `calc` and
      those digits. */
  lemma DigitsReference(digits: string)
    requires |digits| > 0 && AllDigits(digits)
    ensures var s := "_calc" + digits;
            FindCalcReferences(s) == [CalcRef(s, "calc" + digits, 0)]
  {
    var s := "_calc" + digits;
    assert forall k :: 5 <= k < |s| ==> s[k] == digits[k - 5];
    assert RefStartsAt(s, 0);
    assert SpanDigits(s, 5) == |s|;
    assert s[0..|s|] == s && s[1..|s|] == "calc" + digits;
    assert CalcRefsFrom(s, 0) == [CalcRef(s, "calc" + digits, 0)] + CalcRefsFrom(s, |s|);
  }

  /** `findLineIndexById`: the first line that `idMapping` gives the id, or
      -1. A `for...in` loop visits the integer keys of an object in
      increasing order, and `idMapping` has only integer keys, so the
      first match is the least such index. */
  function FindLineIndexById(idMapping: map<nat, string>, id: string): (r: int)
    ensures r == -1 <==> forall i :: i in idMapping ==> idMapping[i] != id
    ensures r != -1 ==> r >= 0 && r in idMapping && idMapping[r] == id
    ensures r != -1 ==> forall i :: i in idMapping && idMapping[i] == id ==> r <= i
  {
    var holders := set i | i in idMapping && idMapping[i] == id;
    assert forall i :: i in idMapping && idMapping[i] == id ==> i in holders;
    if holders == {} then -1 else Least(holders)
  }

  // ---------------------------------------------------------------------------
  // Which lines take part

  /** `/^\s*\/\//`: the first non-whitespace characters are `//`. */
  predicate IsComment(line: string) {
    var p := SpanSpaces(line, 0);
    p + 1 < |line| && line[p] == '/' && line[p + 1] == '/'
  }

  /** The pattern matches exactly when some whitespace prefix is followed
      by `//`. */
  lemma IsCommentMatches(line: string)
    ensures IsComment(line) <==>
            exists p: nat :: p + 1 < |line| && SpacesBetween(line, 0, p) && line[p] == '/' && line[p + 1] == '/'
  {
    var q := SpanSpaces(line, 0);
    if exists p: nat :: p + 1 < |line| && SpacesBetween(line, 0, p) && line[p] == '/' && line[p + 1] == '/' {
      var p: nat :| p + 1 < |line| && SpacesBetween(line, 0, p) && line[p] == '/' && line[p + 1] == '/';
      assert !IsSpace(line[p]);
      assert q == p;
    }
  }

  /** Blank and comment lines carry no id and no result (the skip test of
      both passes). */
  predicate IsSkipped(line: string) {
    Trim(line) == "" || IsComment(line)
  }

  // ---------------------------------------------------------------------------
  // The first pass

  /** The id tables kept from one recalculation to the next. */
  datatype IdTables = IdTables(idMapping: map<nat, string>, contentToId: map<string, string>,
                               lineHistory: map<nat, string>, idCounter: nat)

  /** A JavaScript lookup `m[k]` used as a condition: present and not the
      empty string. */
  predicate Truthy<K>(m: map<K, string>, k: K) {
    k in m && m[k] != ""
  }

  /** Rules 1 to 4 of the id chain for line `i` with normalised text `key`:
      the id kept from the previous tables, or nothing when rule 5 must mint
      a fresh one. An unchanged or modified line keeps its position's id;
      otherwise the content index, then the position history, is asked. */
  function KeptId(prev: IdTables, changes: LineChanges, i: nat, key: string): (r: Option<string>)
    ensures r.Some? ==> r.value != ""
    ensures r.None? <==> && !((i in changes.same || i in changes.modified) && Truthy(prev.idMapping, i))
                         && !Truthy(prev.contentToId, key) && !Truthy(prev.lineHistory, i)
    ensures (i in changes.same || i in changes.modified) && Truthy(prev.idMapping, i) ==> r == Some(prev.idMapping[i])
  {
    if i in changes.same && Truthy(prev.idMapping, i) then Some(prev.idMapping[i])
    else if i in changes.modified && Truthy(prev.idMapping, i) then Some(prev.idMapping[i])
    else if Truthy(prev.contentToId, key) then Some(prev.contentToId[key])
    else if Truthy(prev.lineHistory, i) then Some(prev.lineHistory[i])
    else None
  }

  /** Rules 3 and 4: a line that does not keep its position's id takes the
      content index's id when its normalised text has one, and failing that
      the id its position had in the history. Whatever is kept comes from
      one of the previous tables, never from elsewhere. */
  lemma KeptIdSources(prev: IdTables, changes: LineChanges, i: nat, key: string)
    ensures var r := KeptId(prev, changes, i, key);
            !((i in changes.same || i in changes.modified) && Truthy(prev.idMapping, i)) && Truthy(prev.contentToId, key) ==>
              r == Some(prev.contentToId[key])
    ensures var r := KeptId(prev, changes, i, key);
            && !((i in changes.same || i in changes.modified) && Truthy(prev.idMapping, i))
            && !Truthy(prev.contentToId, key) && Truthy(prev.lineHistory, i) ==>
              r == Some(prev.lineHistory[i])
    ensures var r := KeptId(prev, changes, i, key);
            r.Some? ==> (i in prev.idMapping && r.value == prev.idMapping[i])
                        || (key in prev.contentToId && r.value == prev.contentToId[key])
                        || (i in prev.lineHistory && r.value == prev.lineHistory[i])
  {
  }

  /** What the first pass reads off one line: whether it is skipped, its
      normalised text (the content index key) and the variable it assigns. */
  datatype LineView = LineView(skipped: bool, key: string, target: Option<string>)

  function View(line: string): (v: LineView)
    ensures v.skipped == IsSkipped(line) && v.key == Normalize(line)
    ensures v.target.Some? <==> ParseVariableAssignment(line).Some?
    ensures v.target.Some? ==> v.target.value == ParseVariableAssignment(line).value.variable
  {
    var a := ParseVariableAssignment(line);
    LineView(IsSkipped(line), Normalize(line), if a.Some? then Some(a.value.variable) else None)
  }

  function Views(lines: seq<string>): (vs: seq<LineView>)
    ensures |vs| == |lines| && forall i :: 0 <= i < |lines| ==> vs[i] == View(lines[i])
  {
    seq(|lines|, i requires 0 <= i < |lines| => View(lines[i]))
  }

  /** Line `i` is one for which rule 5 mints a fresh id. */
  predicate IsFresh(prev: IdTables, changes: LineChanges, vs: seq<LineView>, i: nat)
    requires i < |vs|
  {
    !vs[i].skipped && KeptId(prev, changes, i, vs[i].key).None?
  }

  /** How many of the lines below `n` mint a fresh id. */
  function FreshBefore(prev: IdTables, changes: LineChanges, vs: seq<LineView>, n: nat): nat
    requires n <= |vs|
  {
    if n == 0 then 0
    else FreshBefore(prev, changes, vs, n - 1) + (if IsFresh(prev, changes, vs, n - 1) then 1 else 0)
  }

  /** The id the chain gives line `i`, stated per line rather than as a
      fold: the kept id, or the id minted from the counter after one bump
      per earlier fresh line. */
  function IdRule(prev: IdTables, changes: LineChanges, vs: seq<LineView>, i: nat): (id: string)
    requires i < |vs|
    ensures id != ""
  {
    match KeptId(prev, changes, i, vs[i].key)
    case Some(kept) => kept
    case None => GenerateUniqueId(prev.idCounter + FreshBefore(prev, changes, vs, i))
  }

  /** What the first pass builds: the new tables, the `_calcN` reference of
      every line with an id, and the variable table. */
  datatype FirstPass = FirstPass(tables: IdTables, lineReferences: map<nat, string>, variables: map<string, nat>)

  /** One turn of the first pass's loop, for line `i`. */
  function AssignStep(prev: IdTables, changes: LineChanges, v: LineView, i: nat, acc: FirstPass): FirstPass {
    if v.skipped then acc
    else
      var t := acc.tables;
      var kept := KeptId(prev, changes, i, v.key);
      var id := if kept.Some? then kept.value else GenerateUniqueId(t.idCounter);
      var counter := if kept.Some? then t.idCounter else t.idCounter + 1;
      var tables := IdTables(t.idMapping[i := id], t.contentToId[v.key := id], t.lineHistory[i := id], counter);
      var variables := if v.target.Some? then acc.variables[v.target.value := i] else acc.variables;
      FirstPass(tables, acc.lineReferences[i := GenerateReference(id)], variables)
  }

  /** The first pass over the lines below `n`. */
  function AssignUpTo(prev: IdTables, changes: LineChanges, vs: seq<LineView>, n: nat): FirstPass
    requires n <= |vs|
  {
    if n == 0 then FirstPass(IdTables(map[], map[], map[], prev.idCounter), map[], map[])
    else AssignStep(prev, changes, vs[n - 1], n - 1, AssignUpTo(prev, changes, vs, n - 1))
  }

  /** The first pass of `updateCalculations`. */
  function AssignIds(prev: IdTables, changes: LineChanges, lines: seq<string>): FirstPass {
    AssignUpTo(prev, changes, Views(lines), |lines|)
  }

  /** The ids the fold hands out are those of `IdRule`, on exactly the
      lines that take part; the history equals the mapping, each reference
      names its line's id, and the counter moved once per fresh line. */
  lemma AssignUpToIds(prev: IdTables, changes: LineChanges, vs: seq<LineView>, n: nat)
    requires n <= |vs|
    ensures var t := AssignUpTo(prev, changes, vs, n).tables;
            && (forall i: nat :: i in t.idMapping <==> i < n && !vs[i].skipped)
            && (forall i: nat :: i in t.idMapping ==> t.idMapping[i] == IdRule(prev, changes, vs, i))
            && t.lineHistory == t.idMapping
            && t.idCounter == prev.idCounter + FreshBefore(prev, changes, vs, n)
    ensures var acc := AssignUpTo(prev, changes, vs, n);
            forall i: nat :: i in acc.lineReferences <==> i in acc.tables.idMapping
    ensures var acc := AssignUpTo(prev, changes, vs, n);
            forall i: nat :: i in acc.lineReferences ==> acc.lineReferences[i] == GenerateReference(acc.tables.idMapping[i])
  {
    AssignUpToCounter(prev, changes, vs, n);
    var acc := AssignUpTo(prev, changes, vs, n);
    forall i: nat
      ensures && (i in acc.tables.idMapping <==> i < n && !vs[i].skipped)
              && (i in acc.tables.idMapping ==> acc.tables.idMapping[i] == IdRule(prev, changes, vs, i))
              && (i in acc.lineReferences <==> i in acc.tables.idMapping)
              && (i in acc.lineReferences ==> acc.lineReferences[i] == GenerateReference(acc.tables.idMapping[i]))
    {
      AssignUpToIdsAt(prev, changes, vs, n, i);
    }
  }

  /** `AssignUpToIds` for line `i`. */
  lemma {:induction false} AssignUpToIdsAt(prev: IdTables, changes: LineChanges, vs: seq<LineView>, n: nat, i: nat)
    requires n <= |vs|
    ensures var acc := AssignUpTo(prev, changes, vs, n);
            && (i in acc.tables.idMapping <==> i < n && !vs[i].skipped)
            && (i in acc.tables.idMapping ==> acc.tables.idMapping[i] == IdRule(prev, changes, vs, i))
            && (i in acc.lineReferences <==> i in acc.tables.idMapping)
            && (i in acc.lineReferences ==> acc.lineReferences[i] == GenerateReference(acc.tables.idMapping[i]))
  {
    if n > 0 {
      var acc := AssignUpTo(prev, changes, vs, n - 1);
      assert AssignUpTo(prev, changes, vs, n) == AssignStep(prev, changes, vs[n - 1], n - 1, acc);
      AssignUpToIdsAt(prev, changes, vs, n - 1, i);
      AssignUpToCounter(prev, changes, vs, n - 1);
      AssignStepIds(prev, changes, vs[n - 1], n - 1, acc);
    }
  }

  /** The history equals the mapping, and the counter moved once per fresh
      line. */
  lemma {:induction false} AssignUpToCounter(prev: IdTables, changes: LineChanges, vs: seq<LineView>, n: nat)
    requires n <= |vs|
    ensures var t := AssignUpTo(prev, changes, vs, n).tables;
            && t.lineHistory == t.idMapping
            && t.idCounter == prev.idCounter + FreshBefore(prev, changes, vs, n)
  {
    if n > 0 {
      var acc := AssignUpTo(prev, changes, vs, n - 1);
      assert AssignUpTo(prev, changes, vs, n) == AssignStep(prev, changes, vs[n - 1], n - 1, acc);
      AssignUpToCounter(prev, changes, vs, n - 1);
      AssignStepIds(prev, changes, vs[n - 1], n - 1, acc);
    }
  }

  /** One turn gives line `i` the kept id or a fresh one from the counter,
      in the mapping, the history and the references alike. */
  lemma AssignStepIds(prev: IdTables, changes: LineChanges, v: LineView, i: nat, acc: FirstPass)
    ensures var r := AssignStep(prev, changes, v, i, acc);
            v.skipped ==> r == acc
    ensures var r := AssignStep(prev, changes, v, i, acc);
            var kept := KeptId(prev, changes, i, v.key);
            var id := if kept.Some? then kept.value else GenerateUniqueId(acc.tables.idCounter);
            !v.skipped ==>
              && r.tables.idMapping == acc.tables.idMapping[i := id]
              && r.tables.lineHistory == acc.tables.lineHistory[i := id]
              && r.tables.idCounter == acc.tables.idCounter + (if kept.Some? then 0 else 1)
              && r.lineReferences == acc.lineReferences[i := GenerateReference(id)]
  {
  }

  /** The last line below `n` that takes part and normalises to `key`. */
  function LastWithContent(vs: seq<LineView>, n: nat, key: string): (r: Option<nat>)
    requires n <= |vs|
    ensures r.Some? ==> r.value < n && !vs[r.value].skipped && vs[r.value].key == key
    ensures r.Some? ==> forall j :: r.value < j < n && !vs[j].skipped ==> vs[j].key != key
    ensures r.None? ==> forall j :: 0 <= j < n && !vs[j].skipped ==> vs[j].key != key
  {
    if n == 0 then None
    else if !vs[n - 1].skipped && vs[n - 1].key == key then Some(n - 1)
    else LastWithContent(vs, n - 1, key)
  }

  /** The content index: a key is present exactly when some line has that
      normalised text, and then holds the id of the last such line. */
  lemma {:induction false} AssignUpToContent(prev: IdTables, changes: LineChanges, vs: seq<LineView>, n: nat)
    requires n <= |vs|
    ensures var t := AssignUpTo(prev, changes, vs, n).tables;
            forall key :: key in t.contentToId <==> LastWithContent(vs, n, key).Some?
    ensures var t := AssignUpTo(prev, changes, vs, n).tables;
            forall key :: key in t.contentToId ==>
              LastWithContent(vs, n, key).value in t.idMapping
              && t.contentToId[key] == t.idMapping[LastWithContent(vs, n, key).value]
  {
    if n > 0 {
      AssignUpToContent(prev, changes, vs, n - 1);
    }
  }

  /** The last line below `n` that takes part and assigns variable `name`. */
  function LastAssignment(vs: seq<LineView>, n: nat, name: string): (r: Option<nat>)
    requires n <= |vs|
    ensures r.Some? ==> r.value < n && !vs[r.value].skipped && vs[r.value].target == Some(name)
    ensures r.Some? ==> forall j :: r.value < j < n && !vs[j].skipped ==> vs[j].target != Some(name)
    ensures r.None? ==> forall j :: 0 <= j < n && !vs[j].skipped ==> vs[j].target != Some(name)
  {
    if n == 0 then None
    else if !vs[n - 1].skipped && vs[n - 1].target == Some(name) then Some(n - 1)
    else LastAssignment(vs, n - 1, name)
  }

  /** The variable table: the last assignment to a name wins. */
  lemma {:induction false} AssignUpToVariables(prev: IdTables, changes: LineChanges, vs: seq<LineView>, n: nat)
    requires n <= |vs|
    ensures var vars := AssignUpTo(prev, changes, vs, n).variables;
            forall name :: name in vars <==> LastAssignment(vs, n, name).Some?
    ensures var vars := AssignUpTo(prev, changes, vs, n).variables;
            forall name :: name in vars ==> vars[name] == LastAssignment(vs, n, name).value
  {
    if n > 0 {
      AssignUpToVariables(prev, changes, vs, n - 1);
    }
  }

  lemma {:induction false} FreshBeforeGrows(prev: IdTables, changes: LineChanges, vs: seq<LineView>, i: nat, j: nat)
    requires i < j <= |vs| && IsFresh(prev, changes, vs, i)
    ensures FreshBefore(prev, changes, vs, i) < FreshBefore(prev, changes, vs, j)
    decreases j
  {
    if j > i + 1 {
      FreshBeforeGrows(prev, changes, vs, i, j - 1);
    }
  }

  /** Ids minted in one pass are pairwise distinct. */
  lemma FreshIdsDistinct(prev: IdTables, changes: LineChanges, vs: seq<LineView>, i: nat, j: nat)
    requires i < j < |vs|
    requires IsFresh(prev, changes, vs, i) && IsFresh(prev, changes, vs, j)
    ensures IdRule(prev, changes, vs, i) != IdRule(prev, changes, vs, j)
  {
    FreshBeforeGrows(prev, changes, vs, i, j);
    GenerateUniqueIdInjective(prev.idCounter + FreshBefore(prev, changes, vs, i),
                              prev.idCounter + FreshBefore(prev, changes, vs, j));
  }

  /** Every line that takes part gets exactly one id and no other line gets
      one; an unchanged or modified line that had an id keeps it; the new
      history equals the new mapping. */
  lemma AssignIdsRules(prev: IdTables, changes: LineChanges, lines: seq<string>, i: nat)
    ensures var t := AssignIds(prev, changes, lines).tables;
            && (i in t.idMapping <==> i < |lines| && !IsSkipped(lines[i]))
            && t.lineHistory == t.idMapping
            && (i in t.idMapping ==> t.idMapping[i] != "")
    ensures var t := AssignIds(prev, changes, lines).tables;
            (i < |lines| && !IsSkipped(lines[i]) && (i in changes.same || i in changes.modified)
             && Truthy(prev.idMapping, i)) ==> t.idMapping[i] == prev.idMapping[i]
  {
    AssignUpToIds(prev, changes, Views(lines), |lines|);
  }
}
