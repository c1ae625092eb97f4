/** The reference parser: the assignment pattern and the two reference
    scanners, written as hand matchers equivalent to the source's regular
    expressions. */
module References {
  import opened Text
  import opened Wrappers

  /** A letter followed by letters, digits and underscores. */
  predicate IsIdentifier(s: string) {
    |s| >= 1 && IsLetter(s[0]) && forall k :: 1 <= k < |s| ==> IsWordChar(s[k])
  }

  predicate HasLineTerminator(s: string) {
    exists k :: 0 <= k < |s| && IsLineTerminator(s[k])
  }

  /** End of the run of word characters starting at `i`. */
  function SpanWord(s: string, i: nat): (j: nat)
    requires i <= |s|
    ensures i <= j <= |s|
    ensures forall k :: i <= k < j ==> IsWordChar(s[k])
    ensures j == |s| || !IsWordChar(s[j])
    decreases |s| - i
  {
    if i < |s| && IsWordChar(s[i]) then SpanWord(s, i + 1) else i
  }

  /** End of the run of decimal digits starting at `i`. */
  function SpanDigits(s: string, i: nat): (j: nat)
    requires i <= |s|
    ensures i <= j <= |s|
    ensures forall k :: i <= k < j ==> IsDigit(s[k])
    ensures j == |s| || !IsDigit(s[j])
    decreases |s| - i
  {
    if i < |s| && IsDigit(s[i]) then SpanDigits(s, i + 1) else i
  }

  // ---------------------------------------------------------------------------
  // parseVariableAssignment

  datatype Assignment = Assignment(variable: string, expression: string)

  predicate SpacesBetween(s: string, i: nat, j: nat)
    requires i <= j <= |s|
  {
    forall k :: i <= k < j ==> IsSpace(s[k])
  }

  predicate NoTerminatorFrom(s: string, d: nat)
    requires d <= |s|
  {
    forall k :: d <= k < |s| ==> !IsLineTerminator(s[k])
  }

  /** `s[a..b]` is an identifier. */
  predicate IdentifierBetween(s: string, a: nat, b: nat)
    requires a <= b <= |s|
  {
    a < b && IsLetter(s[a]) && forall k :: a < k < b ==> IsWordChar(s[k])
  }

  /** Offsets `a <= b <= c < d` split `line` the way
      `^\s*([a-zA-Z][a-zA-Z0-9_]*)\s*=\s*(.+)$` can match it: whitespace,
      the identifier `line[a..b]`, whitespace, `=` at `c`, whitespace, then
      the non-empty expression `line[d..]`, which `.` must match entirely. */
  predicate IsAssignmentAt(line: string, a: nat, b: nat, c: nat, d: nat) {
    && a <= b <= c < d < |line|
    && SpacesBetween(line, 0, a) && IdentifierBetween(line, a, b) && SpacesBetween(line, b, c)
    && line[c] == '=' && SpacesBetween(line, c + 1, d) && NoTerminatorFrom(line, d)
  }

  /** `\s*(.+)$` applied from offset `i`: where the expression starts. The
      whitespace run is taken greedily, except that one character is given
      back to `(.+)` when only whitespace is left. */
  function MatchExpression(line: string, i: nat): (d: Option<nat>)
    requires i <= |line|
    ensures d.Some? ==> i <= d.value < |line| && SpacesBetween(line, i, d.value) && NoTerminatorFrom(line, d.value)
    ensures d.Some? ==> d.value + 1 == |line| || !IsSpace(line[d.value])
  {
    if i == |line| then None
    else
      var w := SpanSpaces(line, i);
      var d := if w < |line| then w else |line| - 1;
      if exists k :: d <= k < |line| && IsLineTerminator(line[k]) then None else Some(d)
  }

  lemma MatchExpressionComplete(line: string, i: nat, d0: nat)
    requires i <= d0 < |line| && SpacesBetween(line, i, d0) && NoTerminatorFrom(line, d0)
    ensures MatchExpression(line, i).Some? && d0 <= MatchExpression(line, i).value
  {
  }

  /** `^\s*([a-zA-Z][a-zA-Z0-9_]*)\s*=`: where the target starts and stops
      and where the `=` stands. */
  datatype Cuts = Cuts(start: nat, stop: nat, eq: nat)

  function MatchTarget(line: string): (c: Option<Cuts>)
    ensures c.Some? ==> c.value.start <= c.value.stop <= c.value.eq < |line| && line[c.value.eq] == '='
    ensures c.Some? ==> SpacesBetween(line, 0, c.value.start) && SpacesBetween(line, c.value.stop, c.value.eq)
    ensures c.Some? ==> IdentifierBetween(line, c.value.start, c.value.stop)
  {
    var p := SpanSpaces(line, 0);
    if p == |line| || !IsLetter(line[p]) then None
    else
      var q := SpanWord(line, p + 1);
      var m := SpanSpaces(line, q);
      if m == |line| || line[m] != '=' then None
      else Some(Cuts(p, q, m))
  }

  lemma MatchTargetComplete(line: string, a: nat, b: nat, c: nat, d: nat)
    requires IsAssignmentAt(line, a, b, c, d)
    ensures MatchTarget(line) == Some(Cuts(a, b, c))
  {
    assert SpanSpaces(line, 0) == a;
    assert b < c ==> IsSpace(line[b]);
    assert !IsWordChar(line[b]);
    assert SpanWord(line, a + 1) == b;
  }

  /** `parseVariableAssignment`: the target and the expression of an
      assignment line, or nothing. */
  function ParseVariableAssignment(line: string): (r: Option<Assignment>)
    ensures r.Some? ==> IsIdentifier(r.value.variable)
    ensures r.Some? ==> |r.value.expression| >= 1 && !HasLineTerminator(r.value.expression)
    ensures r.Some? ==> |r.value.expression| == 1 || !IsSpace(r.value.expression[0])
    ensures r.Some? ==> exists a: nat, b: nat, c: nat, d: nat ::
                          (IsAssignmentAt(line, a, b, c, d)
                           && r.value.variable == line[a..b] && r.value.expression == line[d..])
  {
    match MatchTarget(line)
    case None => None
    case Some(c) =>
      match MatchExpression(line, c.eq + 1)
      case None => None
      case Some(d) =>
        var v, e := line[c.start..c.stop], line[d..];
        assert IsAssignmentAt(line, c.start, c.stop, c.eq, d);
        assert forall k :: 1 <= k < |v| ==> v[k] == line[c.start + k];
        assert forall k :: 0 <= k < |e| ==> e[k] == line[d + k];
        Some(Assignment(v, e))
  }

  /** Every way the pattern can cut the line is found: the same target, and
      an expression that starts at or after the cut's (the whitespace after
      `=` is taken greedily). So `ParseVariableAssignment` returns nothing
      exactly when the line has no assignment shape. */
  lemma ParseVariableAssignmentComplete(line: string, a: nat, b: nat, c: nat, d: nat)
    requires IsAssignmentAt(line, a, b, c, d)
    ensures ParseVariableAssignment(line).Some?
    ensures ParseVariableAssignment(line).value.variable == line[a..b]
    ensures var e := ParseVariableAssignment(line).value.expression;
            |e| <= |line| - d && e == line[|line| - |e|..]
  {
    MatchTargetComplete(line, a, b, c, d);
    MatchExpressionComplete(line, c + 1, d);
  }

  // ---------------------------------------------------------------------------
  // findCalcReferences

  /** One match of `/_calc(\d+)/g`: the matched text, the id it names and
      its offset in the line. */
  datatype CalcRef = CalcRef(ref: string, id: string, index: nat)

  predicate AllDigits(s: string) {
    forall k :: 0 <= k < |s| ==> IsDigit(s[k])
  }

  predicate DigitsBetween(s: string, i: nat, j: nat)
    requires i <= j <= |s|
  {
    forall k :: i <= k < j ==> IsDigit(s[k])
  }

  /** `s` holds the pattern `_calc` followed by a digit at offset `p`. */
  predicate RefStartsAt(s: string, p: nat) {
    p + 5 < |s| && s[p] == '_' && s[p + 1] == 'c' && s[p + 2] == 'a' && s[p + 3] == 'l' && s[p + 4] == 'c'
    && IsDigit(s[p + 5])
  }

  /** `m` is a match in `s`: `ref` is the text at `index`, `_calc` and a
      maximal run of digits, and `id` is `ref` without its underscore. */
  predicate IsCalcMatch(s: string, m: CalcRef) {
    var end := m.index + |m.ref|;
    && RefStartsAt(s, m.index) && m.index + 5 < end <= |s|
    && m.ref == s[m.index..end] && m.id == s[m.index + 1..end]
    && DigitsBetween(s, m.index + 5, end) && (end == |s| || !IsDigit(s[end]))
  }

  /** What a match looks like as text: `_calc` and digits, and an id that is
      `calc` and the same digits. */
  lemma CalcMatchText(s: string, m: CalcRef)
    requires IsCalcMatch(s, m)
    ensures |m.ref| > 5 && m.ref[..5] == "_calc" && AllDigits(m.ref[5..])
    ensures m.ref == "_" + m.id && m.id[..4] == "calc"
  {
    var end := m.index + |m.ref|;
    assert m.ref[..5] == s[m.index..m.index + 5];
    assert forall k :: 0 <= k < |m.ref| - 5 ==> m.ref[5..][k] == s[m.index + 5 + k];
    assert m.ref == [m.ref[0]] + m.ref[1..];
  }

  function Indices(r: seq<CalcRef>): (ix: seq<nat>)
    ensures |ix| == |r| && forall j :: 0 <= j < |r| ==> ix[j] == r[j].index
  {
    if |r| == 0 then [] else [r[0].index] + Indices(r[1..])
  }

  function CalcRefsFrom(s: string, i: nat): (r: seq<CalcRef>)
    requires i <= |s|
    ensures forall j :: 0 <= j < |r| ==> IsCalcMatch(s, r[j]) && i <= r[j].index
    ensures forall j :: 0 <= j < |r| - 1 ==> r[j].index + |r[j].ref| <= r[j + 1].index
    decreases |s| - i
  {
    if i == |s| then []
    else if RefStartsAt(s, i) then
      var q := SpanDigits(s, i + 5);
      [CalcRef(s[i..q], s[i + 1..q], i)] + CalcRefsFrom(s, q)
    else
      CalcRefsFrom(s, i + 1)
  }

  /** The scan misses no occurrence and reports nothing else: matches never
      overlap a later occurrence, since `calc` and digits hold no `_`. */
  lemma CalcRefsFromComplete(s: string, i: nat)
    requires i <= |s|
    ensures forall p :: i <= p < |s| ==> (RefStartsAt(s, p) <==> p in Indices(CalcRefsFrom(s, i)))
  {
    forall p | i <= p < |s| ensures RefStartsAt(s, p) <==> p in Indices(CalcRefsFrom(s, i)) {
      CalcRefsFromFinds(s, i, p);
    }
  }

  /** `CalcRefsFromComplete` at offset `p`. */
  lemma {:induction false} CalcRefsFromFinds(s: string, i: nat, p: nat)
    requires i <= p < |s|
    ensures RefStartsAt(s, p) <==> p in Indices(CalcRefsFrom(s, i))
    decreases |s| - i
  {
    ScanStep(s, i, p);
    if RefStartsAt(s, i) {
      var q := SpanDigits(s, i + 5);
      if p >= q {
        CalcRefsFromFinds(s, q, p);
      } else if p > i {
        NoRefInside(s, i, p);
        IndicesBelow(s, q, p);
      }
    } else if p > i {
      CalcRefsFromFinds(s, i + 1, p);
    } else {
      IndicesBelow(s, i + 1, p);
    }
  }

  /** One step of the scan: an occurrence at `i` is reported and the scan
      resumes after its digits; otherwise it moves on by one. */
  lemma ScanStep(s: string, i: nat, p: nat)
    requires i < |s|
    ensures RefStartsAt(s, i) ==>
              (p in Indices(CalcRefsFrom(s, i)) <==> p == i || p in Indices(CalcRefsFrom(s, SpanDigits(s, i + 5))))
    ensures !RefStartsAt(s, i) ==> CalcRefsFrom(s, i) == CalcRefsFrom(s, i + 1)
  {
    if RefStartsAt(s, i) {
      var q := SpanDigits(s, i + 5);
      var m := CalcRef(s[i..q], s[i + 1..q], i);
      assert CalcRefsFrom(s, i) == [m] + CalcRefsFrom(s, q);
      IndicesCons(m, CalcRefsFrom(s, q), p);
    }
  }

  /** No occurrence starts inside another's `calc` or digits, since neither
      holds an underscore. */
  lemma NoRefInside(s: string, i: nat, p: nat)
    requires RefStartsAt(s, i) && i < p < SpanDigits(s, i + 5)
    ensures !RefStartsAt(s, p)
  {
    if p < i + 5 {
      assert s[p] in "calc";
    } else {
      assert IsDigit(s[p]);
    }
  }

  /** No match of a scan from `i` stands before `i`. */
  lemma IndicesBelow(s: string, i: nat, p: nat)
    requires i <= |s| && p < i
    ensures p !in Indices(CalcRefsFrom(s, i))
  {
  }

  lemma IndicesCons(m: CalcRef, rest: seq<CalcRef>, p: nat)
    ensures p in Indices([m] + rest) <==> p == m.index || p in Indices(rest)
  {
    assert ([m] + rest)[1..] == rest;
  }

  /** `findCalcReferences`: the matches of `/_calc(\d+)/g` in order, none
      overlapping; see `FindCalcReferencesComplete` for the converse. */
  function FindCalcReferences(expr: string): (r: seq<CalcRef>)
    ensures forall j :: 0 <= j < |r| ==> IsCalcMatch(expr, r[j])
    ensures forall j :: 0 <= j < |r| - 1 ==> r[j].index + |r[j].ref| <= r[j + 1].index
  {
    CalcRefsFrom(expr, 0)
  }

  /** The match offsets are exactly the occurrences of `_calc` and a digit. */
  lemma FindCalcReferencesComplete(expr: string)
    ensures forall p :: 0 <= p < |expr| ==> (RefStartsAt(expr, p) <==> p in Indices(FindCalcReferences(expr)))
  {
    CalcRefsFromComplete(expr, 0);
  }

  // ---------------------------------------------------------------------------
  // findVariableReferences

  /** The math function and constant names that are never variable references. */
  const MathNames: seq<string> :=
    ["sin", "cos", "tan", "log", "exp", "sqrt", "abs", "ceil", "floor", "round", "max", "min", "pi", "e"]

  /** `t` is an identifier standing at offset `p` of `s` with no word
      character immediately before or after it: what
      `(?<![a-zA-Z0-9_])([a-zA-Z][a-zA-Z0-9_]*)(?![a-zA-Z0-9_])` matches. */
  predicate IsTokenAt(s: string, p: nat, t: string) {
    && p + |t| <= |s| && s[p..p + |t|] == t && IsIdentifier(t)
    && (p == 0 || !IsWordChar(s[p - 1]))
    && (p + |t| == |s| || !IsWordChar(s[p + |t|]))
  }

  /** An identifier token and the offset it stands at. */
  datatype Token = Token(at: nat, text: string)

  function TokensFrom(s: string, i: nat): (r: seq<Token>)
    requires i <= |s|
    requires i == 0 || !IsWordChar(s[i - 1])
    ensures forall k :: 0 <= k < |r| ==> IsTokenAt(s, r[k].at, r[k].text) && i <= r[k].at && r[k].text !in MathNames
    ensures forall k :: 0 <= k < |r| - 1 ==> r[k].at < r[k + 1].at
    decreases |s| - i
  {
    if i == |s| then []
    else if !IsWordChar(s[i]) then TokensFrom(s, i + 1)
    else
      var j := SpanWord(s, i);
      var t := s[i..j];
      var rest := if j == |s| then [] else TokensFrom(s, j + 1);
      if IsLetter(s[i]) && t !in MathNames && t[0] != '_' then
        RunIsToken(s, i, j);
        [Token(i, t)] + rest
      else
        rest
  }

  /** A maximal word run that starts with a letter is a token. */
  lemma RunIsToken(s: string, i: nat, j: nat)
    requires i < j <= |s| && IsLetter(s[i])
    requires i == 0 || !IsWordChar(s[i - 1])
    requires forall k :: i <= k < j ==> IsWordChar(s[k])
    requires j == |s| || !IsWordChar(s[j])
    ensures IsTokenAt(s, i, s[i..j])
  {
    var t := s[i..j];
    assert forall k :: 1 <= k < |t| ==> t[k] == s[i + k];
  }

  /** A token starting inside the word run `s[i..j]` must start at `i` and
      end at `j`. */
  lemma TokenEndsAtRunEnd(s: string, i: nat, j: nat, p: nat, t: string)
    requires i <= p < j <= |s|
    requires forall k :: i <= k < j ==> IsWordChar(s[k])
    requires j == |s| || !IsWordChar(s[j])
    requires IsTokenAt(s, p, t)
    ensures p == i && t == s[i..j]
  {
    var e := p + |t|;
    assert forall k :: p <= k < e ==> IsWordChar(s[k]) by {
      forall k | p <= k < e
        ensures IsWordChar(s[k])
      {
        assert s[k] == s[p..e][k - p] == t[k - p];
      }
    }
  }

  /** Every identifier token that is not a math name is reported. */
  lemma {:induction false} TokensFromComplete(s: string, i: nat, p: nat, t: string)
    requires i <= |s|
    requires i == 0 || !IsWordChar(s[i - 1])
    requires i <= p && IsTokenAt(s, p, t) && t !in MathNames
    ensures Token(p, t) in TokensFrom(s, i)
    decreases |s| - i
  {
    if !IsWordChar(s[i]) {
      TokensFromComplete(s, i + 1, p, t);
    } else {
      var j := SpanWord(s, i);
      var rest := if j == |s| then [] else TokensFrom(s, j + 1);
      if p < j {
        TokenEndsAtRunEnd(s, i, j, p, t);
        assert IsLetter(s[i]) && s[i..j][0] != '_';
        assert TokensFrom(s, i) == [Token(i, s[i..j])] + rest;
      } else {
        assert p != j;
        TokensFromComplete(s, j + 1, p, t);
        assert Token(p, t) in rest;
      }
    }
  }

  function Texts(ts: seq<Token>): (r: seq<string>)
    ensures |r| == |ts| && forall k :: 0 <= k < |ts| ==> r[k] == ts[k].text
  {
    if |ts| == 0 then [] else [ts[0].text] + Texts(ts[1..])
  }

  /** `findVariableReferences`: every identifier token of `expr` that is not
      a math name, in order of occurrence. The source's extra filter on a
      leading `_` never fires, since every token starts with a letter. */
  function FindVariableReferences(expr: string): (r: seq<string>)
    ensures forall k :: 0 <= k < |r| ==> IsIdentifier(r[k]) && r[k] !in MathNames
  {
    Texts(TokensFrom(expr, 0))
  }

  /** Each reported name stands in `expr` as a whole token. */
  lemma FindVariableReferencesSound(expr: string, k: nat)
    requires k < |FindVariableReferences(expr)|
    ensures exists p :: IsTokenAt(expr, p, FindVariableReferences(expr)[k])
  {
    var t := TokensFrom(expr, 0)[k];
    assert IsTokenAt(expr, t.at, FindVariableReferences(expr)[k]);
  }

  /** Every identifier token of `expr` that is not a math name is reported. */
  lemma FindVariableReferencesComplete(expr: string, p: nat, t: string)
    requires IsTokenAt(expr, p, t) && t !in MathNames
    ensures t in FindVariableReferences(expr)
  {
    TokensFromComplete(expr, 0, p, t);
    var ts := TokensFrom(expr, 0);
    var k :| 0 <= k < |ts| && ts[k] == Token(p, t);
    assert FindVariableReferences(expr)[k] == t;
  }
}
