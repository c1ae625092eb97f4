/** Character classes and whitespace handling shared by every part of the engine:
    JavaScript's `\s` class, `String.prototype.trim`, the whitespace-collapsing
    normalisation used as the content index key, and `split("\n")`. */
module Text {

  /** The characters JavaScript's `\s` matches and `trim` removes
      (WhiteSpace and LineTerminator of ECMA-262). */
  predicate IsSpace(c: char) {
    var n := c as int;
    n == 0x09 || n == 0x0A || n == 0x0B || n == 0x0C || n == 0x0D || n == 0x20
    || n == 0xA0 || n == 0x1680 || (0x2000 <= n <= 0x200A)
    || n == 0x2028 || n == 0x2029 || n == 0x202F || n == 0x205F || n == 0x3000 || n == 0xFEFF
  }

  /** The characters a regular-expression `.` does not match. */
  predicate IsLineTerminator(c: char) {
    c == '\n' || c == '\r' || c as int == 0x2028 || c as int == 0x2029
  }

  predicate IsLetter(c: char) {
    ('a' <= c <= 'z') || ('A' <= c <= 'Z')
  }

  predicate IsDigit(c: char) {
    '0' <= c <= '9'
  }

  /** `[a-zA-Z0-9_]`, the class the identifier patterns use. */
  predicate IsWordChar(c: char) {
    IsLetter(c) || IsDigit(c) || c == '_'
  }

  predicate AllSpace(s: string) {
    forall k :: 0 <= k < |s| ==> IsSpace(s[k])
  }

  predicate NoSpaceAtEnds(s: string) {
    |s| == 0 || (!IsSpace(s[0]) && !IsSpace(s[|s| - 1]))
  }

  /** End of the whitespace run that starts at `i`. */
  function SpanSpaces(s: string, i: nat): (j: nat)
    requires i <= |s|
    ensures i <= j <= |s|
    ensures forall k :: i <= k < j ==> IsSpace(s[k])
    ensures j == |s| || !IsSpace(s[j])
    decreases |s| - i
  {
    if i < |s| && IsSpace(s[i]) then SpanSpaces(s, i + 1) else i
  }

  /** Start of the whitespace run that ends at `j`, not going below `lo`. */
  function BackSpaces(s: string, j: nat, lo: nat): (i: nat)
    requires lo <= j <= |s|
    ensures lo <= i <= j
    ensures forall k :: i <= k < j ==> IsSpace(s[k])
    ensures i == lo || !IsSpace(s[i - 1])
    decreases j
  {
    if j > lo && IsSpace(s[j - 1]) then BackSpaces(s, j - 1, lo) else j
  }

  /** `String.prototype.trim`: the infix left after removing leading and
      trailing whitespace. */
  function Trim(s: string): (r: string)
    ensures NoSpaceAtEnds(r)
  {
    var a := SpanSpaces(s, 0);
    s[a..BackSpaces(s, |s|, a)]
  }

  /** What `Trim` removes is whitespace on both sides of the infix it keeps. */
  lemma TrimIsInfix(s: string)
    ensures var r := Trim(s);
            exists a :: 0 <= a <= |s| - |r| && r == s[a..a + |r|]
                        && AllSpace(s[..a]) && AllSpace(s[a + |r|..])
  {
    var a := SpanSpaces(s, 0);
    var b := BackSpaces(s, |s|, a);
    assert AllSpace(s[..a]) && AllSpace(s[b..]);
  }

  lemma TrimKeepsTrimmed(s: string)
    requires NoSpaceAtEnds(s)
    ensures Trim(s) == s
  {
  }

  lemma {:induction false} TrimIdempotent(s: string)
    ensures Trim(Trim(s)) == Trim(s)
  {
    TrimKeepsTrimmed(Trim(s));
  }

  /** The non-whitespace characters of `s`, in order. */
  function NonSpace(s: string): string
  {
    if |s| == 0 then ""
    else (if IsSpace(s[0]) then "" else [s[0]]) + NonSpace(s[1..])
  }

  lemma {:induction false} NonSpaceSkipsSpaces(s: string, j: nat)
    requires j <= |s|
    requires forall k :: 0 <= k < j ==> IsSpace(s[k])
    ensures NonSpace(s[j..]) == NonSpace(s)
    decreases j
  {
    if j > 0 {
      assert s[1..][j - 1..] == s[j..];
      NonSpaceSkipsSpaces(s[1..], j - 1);
    }
  }

  /** Every whitespace character is a plain blank and no two are adjacent. */
  predicate SingleBlanks(s: string) {
    forall k :: 0 <= k < |s| && IsSpace(s[k]) ==> s[k] == ' ' && (k + 1 == |s| || !IsSpace(s[k + 1]))
  }

  /** The shape `normalizeContent` produces. */
  predicate IsNormal(s: string) {
    NoSpaceAtEnds(s) && SingleBlanks(s)
  }

  /** No character of `w` is whitespace. */
  predicate NoSpaceIn(w: string) {
    forall m :: 0 <= m < |w| ==> !IsSpace(w[m])
  }

  /** The words of `s`: its maximal runs of non-whitespace characters, in
      order. */
  function Words(s: string): (ws: seq<string>)
    ensures |s| > 0 && !IsSpace(s[0]) ==> |ws| > 0
    ensures forall k :: 0 <= k < |ws| ==> |ws[k]| > 0 && NoSpaceIn(ws[k])
    decreases |s|
  {
    if |s| == 0 then []
    else
      var rest := Words(s[1..]);
      if IsSpace(s[0]) then rest
      else if |s| > 1 && !IsSpace(s[1]) then
        assert NoSpaceIn([s[0]] + rest[0]) by {
          forall m | 0 <= m < |[s[0]] + rest[0]| ensures !IsSpace(([s[0]] + rest[0])[m]) {
            if m > 0 { assert ([s[0]] + rest[0])[m] == rest[0][m - 1]; }
          }
        }
        [[s[0]] + rest[0]] + rest[1..]
      else [[s[0]]] + rest
  }

  /** Leading whitespace does not change the words. */
  lemma {:induction false} WordsSkipsSpaces(s: string, j: nat)
    requires j <= |s|
    requires forall k :: 0 <= k < j ==> IsSpace(s[k])
    ensures Words(s[j..]) == Words(s)
    decreases j
  {
    if j > 0 {
      assert s[1..][j - 1..] == s[j..];
      WordsSkipsSpaces(s[1..], j - 1);
    }
  }

  /** Trailing whitespace does not change the words. */
  lemma {:induction false} WordsAppendSpaces(x: string, w: string)
    requires AllSpace(w)
    ensures Words(x + w) == Words(x)
    decreases |x|
  {
    if |x| == 0 {
      assert x + w == w && w[|w|..] == "";
      WordsSkipsSpaces(w, |w|);
    } else {
      assert (x + w)[1..] == x[1..] + w;
      WordsAppendSpaces(x[1..], w);
      if |x| > 1 {
        assert (x + w)[1] == x[1];
      } else if |w| > 0 {
        assert (x + w)[1] == w[0];
      }
    }
  }

  /** A non-whitespace character in front of two texts with the same words
      that agree on starting a word gives texts with the same words. */
  lemma WordsCons(c: char, t: string, x: string)
    requires !IsSpace(c) && Words(x) == Words(t)
    requires (|x| > 0 && !IsSpace(x[0])) <==> (|t| > 0 && !IsSpace(t[0]))
    ensures Words([c] + x) == Words([c] + t)
  {
    assert ([c] + x)[1..] == x && ([c] + t)[1..] == t;
  }

  /** `replace(/\s+/g, " ")`: every maximal whitespace run becomes one
      blank, so the words and the whitespace at either end are kept and
      all remaining whitespace is single blanks. */
  function Collapse(s: string): (r: string)
    ensures SingleBlanks(r)
    ensures |r| == 0 <==> |s| == 0
    ensures (|r| > 0 && IsSpace(r[0])) <==> (|s| > 0 && IsSpace(s[0]))
    ensures (|r| > 0 && IsSpace(r[|r| - 1])) <==> (|s| > 0 && IsSpace(s[|s| - 1]))
    ensures NonSpace(r) == NonSpace(s)
    ensures Words(r) == Words(s)
    decreases |s|
  {
    if |s| == 0 then ""
    else if IsSpace(s[0]) then
      var j := SpanSpaces(s, 0);
      NonSpaceSkipsSpaces(s, j);
      WordsSkipsSpaces(s, j);
      var x := Collapse(s[j..]);
      BlankBefore(x);
      " " + x
    else
      var x := Collapse(s[1..]);
      WordsCons(s[0], s[1..], x);
      CharBefore(s[0], x);
      assert [s[0]] + s[1..] == s;
      [s[0]] + x
  }

  /** A blank in front of a text that starts with no whitespace keeps its
      blanks single, its non-whitespace characters and its words. */
  lemma BlankBefore(x: string)
    requires SingleBlanks(x) && (|x| == 0 || !IsSpace(x[0]))
    ensures SingleBlanks(" " + x)
    ensures NonSpace(" " + x) == NonSpace(x)
    ensures Words(" " + x) == Words(x)
    ensures |x| > 0 ==> (" " + x)[|x|] == x[|x| - 1]
  {
    BlankBeforeBlanks(x);
    assert (" " + x)[1..] == x;
  }

  lemma BlankBeforeBlanks(x: string)
    requires SingleBlanks(x) && (|x| == 0 || !IsSpace(x[0]))
    ensures SingleBlanks(" " + x)
  {
    var r := " " + x;
    forall k | 0 <= k < |r| && IsSpace(r[k]) ensures r[k] == ' ' && (k + 1 == |r| || !IsSpace(r[k + 1])) {
      if k > 0 {
        assert r[k] == x[k - 1];
        if k + 1 < |r| { assert r[k + 1] == x[k]; }
      } else if k + 1 < |r| {
        assert r[1] == x[0];
      }
    }
  }

  /** A non-whitespace character in front keeps the blanks single. */
  lemma CharBefore(c: char, x: string)
    requires !IsSpace(c) && SingleBlanks(x)
    ensures SingleBlanks([c] + x)
    ensures NonSpace([c] + x) == [c] + NonSpace(x)
    ensures |x| > 0 ==> ([c] + x)[|x|] == x[|x| - 1]
  {
    CharBeforeBlanks(c, x);
    assert ([c] + x)[1..] == x;
  }

  lemma CharBeforeBlanks(c: char, x: string)
    requires !IsSpace(c) && SingleBlanks(x)
    ensures SingleBlanks([c] + x)
  {
    var r := [c] + x;
    forall k | 0 <= k < |r| && IsSpace(r[k]) ensures r[k] == ' ' && (k + 1 == |r| || !IsSpace(r[k + 1])) {
      assert k > 0;
      assert r[k] == x[k - 1];
      if k + 1 < |r| { assert r[k + 1] == x[k]; }
    }
  }

  lemma {:induction false} CollapseKeepsSingleBlanks(s: string)
    requires SingleBlanks(s)
    ensures Collapse(s) == s
    decreases |s|
  {
    if |s| > 0 {
      SingleBlanksTail(s);
      CollapseKeepsSingleBlanks(s[1..]);
      if IsSpace(s[0]) {
        assert SpanSpaces(s, 0) == 1;
      }
    }
  }

  lemma SingleBlanksTail(s: string)
    requires |s| > 0 && SingleBlanks(s)
    ensures SingleBlanks(s[1..])
  {
    var t := s[1..];
    forall k | 0 <= k < |t| ensures t[k] == s[k + 1] {
    }
  }

  /** `normalizeContent`: trim, then collapse internal whitespace runs.
      The words are kept, so texts that differ in where whitespace
      separates words get different keys. */
  function Normalize(s: string): (r: string)
    ensures IsNormal(r)
    ensures NonSpace(r) == NonSpace(s)
    ensures Words(r) == Words(s)
  {
    TrimKeepsNonSpace(s);
    TrimKeepsWords(s);
    Collapse(Trim(s))
  }

  /** `Trim(s)` sits between a whitespace prefix of length `a` and a
      whitespace suffix `w`. */
  lemma TrimParts(s: string) returns (a: nat, w: string)
    ensures a <= |s| && forall k :: 0 <= k < a ==> IsSpace(s[k])
    ensures AllSpace(w) && s[a..] == Trim(s) + w
  {
    a := SpanSpaces(s, 0);
    var b := BackSpaces(s, |s|, a);
    w := s[b..];
    assert AllSpace(w) by {
      forall k | 0 <= k < |w| ensures IsSpace(w[k]) {
        assert w[k] == s[b + k];
      }
    }
    assert s[a..] == s[a..b] + w;
  }

  lemma TrimKeepsWords(s: string)
    ensures Words(Trim(s)) == Words(s)
  {
    var a, w := TrimParts(s);
    WordsSkipsSpaces(s, a);
    WordsAppendSpaces(Trim(s), w);
  }

  lemma TrimKeepsNonSpace(s: string)
    ensures NonSpace(Trim(s)) == NonSpace(s)
  {
    var a, w := TrimParts(s);
    NonSpaceSkipsSpaces(s, a);
    NonSpaceAppendSpaces(Trim(s), w);
  }

  lemma {:induction false} NonSpaceAppendSpaces(s: string, w: string)
    requires AllSpace(w)
    ensures NonSpace(s + w) == NonSpace(s)
    decreases |s|
  {
    if |s| == 0 {
      assert s + w == w && w[|w|..] == "";
      NonSpaceSkipsSpaces(w, |w|);
    } else {
      assert (s + w)[1..] == s[1..] + w;
      NonSpaceAppendSpaces(s[1..], w);
    }
  }

  /** Normal strings are left alone, so normalising twice changes nothing. */
  lemma {:induction false} NormalizeKeepsNormal(s: string)
    requires IsNormal(s)
    ensures Normalize(s) == s
  {
    TrimKeepsTrimmed(s);
    CollapseKeepsSingleBlanks(s);
  }

  lemma {:induction false} NormalizeIdempotent(s: string)
    ensures Normalize(Normalize(s)) == Normalize(s)
  {
    NormalizeKeepsNormal(Normalize(s));
  }

  /** `split("\n")`: always at least one piece, none containing a newline. */
  function Split(s: string): (r: seq<string>)
    ensures |r| >= 1
    ensures forall i :: 0 <= i < |r| ==> '\n' !in r[i]
    decreases |s|
  {
    if |s| == 0 then [""]
    else
      var rest := Split(s[1..]);
      if s[0] == '\n' then [""] + rest
      else [[s[0]] + rest[0]] + rest[1..]
  }

  /** `join("\n")`, the inverse of `Split`. */
  function Join(ls: seq<string>): string
    requires |ls| >= 1
    decreases |ls|
  {
    if |ls| == 1 then ls[0] else ls[0] + "\n" + Join(ls[1..])
  }

  lemma {:induction false} JoinSplit(s: string)
    ensures Join(Split(s)) == s
    decreases |s|
  {
    if |s| > 0 {
      var rest := Split(s[1..]);
      JoinSplit(s[1..]);
      if s[0] == '\n' {
        assert Split(s) == [""] + rest;
        assert ([""] + rest)[1..] == rest;
      } else {
        var r := Split(s);
        assert r == [[s[0]] + rest[0]] + rest[1..];
        if |rest| == 1 {
          assert r == [[s[0]] + rest[0]];
        } else {
          assert r[1..] == rest[1..];
          assert Join(r) == [s[0]] + rest[0] + "\n" + Join(rest[1..]);
        }
      }
    }
  }

  lemma {:induction false} SplitWithoutNewline(a: string)
    requires '\n' !in a
    ensures Split(a) == [a]
    decreases |a|
  {
    if |a| > 0 {
      assert '\n' !in a[1..] by {
        forall k | 0 <= k < |a| - 1 ensures a[1..][k] != '\n' {
          assert a[1..][k] == a[k + 1];
        }
      }
      SplitWithoutNewline(a[1..]);
      assert a[0] != '\n';
      assert [a[0]] + a[1..] == a;
    }
  }

  lemma {:induction false} SplitAtNewline(a: string, b: string)
    requires '\n' !in a
    ensures Split(a + "\n" + b) == [a] + Split(b)
    decreases |a|
  {
    var s := a + "\n" + b;
    if |a| == 0 {
      assert s[1..] == b;
    } else {
      assert s[1..] == a[1..] + "\n" + b;
      assert '\n' !in a[1..] by {
        forall k | 0 <= k < |a| - 1 ensures a[1..][k] != '\n' {
          assert a[1..][k] == a[k + 1];
        }
      }
      SplitAtNewline(a[1..], b);
      assert [a[0]] + a[1..] == a;
    }
  }

  /** Splitting a join of newline-free lines gives the lines back. */
  lemma {:induction false} SplitJoin(ls: seq<string>)
    requires |ls| >= 1
    requires forall i :: 0 <= i < |ls| ==> '\n' !in ls[i]
    ensures Split(Join(ls)) == ls
    decreases |ls|
  {
    if |ls| == 1 {
      SplitWithoutNewline(ls[0]);
    } else {
      SplitJoin(ls[1..]);
      SplitAtNewline(ls[0], Join(ls[1..]));
    }
  }
}
