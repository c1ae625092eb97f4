/** The change detector: a position-by-position comparison of the previous
    and the current document that sorts every line index into exactly one
    of four lists. */
module Changes {
  import opened Text
  import opened Keys

  /** The four lists of `detectChangedLines`; `same` is the source's `unchanged` list. */
  datatype LineChanges = LineChanges(added: seq<nat>, removed: seq<nat>, modified: seq<nat>, same: seq<nat>)

  function Max(a: nat, b: nat): nat {
    if a < b then b else a
  }

  /** The list a line index goes on. */
  datatype LineKind = Added | Removed | Modified | Unchanged

  /** Every line with its surrounding whitespace removed: the form in which
      the detector compares lines. */
  function Trimmed(lines: seq<string>): (t: seq<string>)
    ensures |t| == |lines|
    ensures forall i :: 0 <= i < |lines| ==> t[i] == Trim(lines[i])
  {
    seq(|lines|, i requires 0 <= i < |lines| => Trim(lines[i]))
  }

  /** Index `i`'s kind by the source's rule, over trimmed lines: past the
      old text's lines it is added, else past the new text's lines it is
      removed, else the two lines are compared. */
  function Kind(oldLines: seq<string>, newLines: seq<string>, i: nat): LineKind {
    if i >= |oldLines| then Added
    else if i >= |newLines| then Removed
    else if oldLines[i] != newLines[i] then Modified
    else Unchanged
  }

  /** `c` sorts the indices below `k` by `Kind`, each list in increasing order. */
  ghost predicate Classifies(c: LineChanges, oldLines: seq<string>, newLines: seq<string>, k: nat) {
    && (forall i: nat :: i in c.added <==> i < k && Kind(oldLines, newLines, i).Added?)
    && (forall i: nat :: i in c.removed <==> i < k && Kind(oldLines, newLines, i).Removed?)
    && (forall i: nat :: i in c.modified <==> i < k && Kind(oldLines, newLines, i).Modified?)
    && (forall i: nat :: i in c.same <==> i < k && Kind(oldLines, newLines, i).Unchanged?)
    && StrictlyIncreasing(c.added) && StrictlyIncreasing(c.removed)
    && StrictlyIncreasing(c.modified) && StrictlyIncreasing(c.same)
  }

  /** One turn of the source's loop: put index `i` on its list. */
  function Record(c: LineChanges, oldLines: seq<string>, newLines: seq<string>, i: nat): LineChanges {
    var kind := Kind(oldLines, newLines, i);
    if kind.Added? then c.(added := c.added + [i])
    else if kind.Removed? then c.(removed := c.removed + [i])
    else if kind.Modified? then c.(modified := c.modified + [i])
    else c.(same := c.same + [i])
  }

  /** The classification of the indices below `n`, built in index order. */
  function ClassifyUpTo(oldLines: seq<string>, newLines: seq<string>, n: nat): LineChanges
  {
    if n == 0 then LineChanges([], [], [], [])
    else Record(ClassifyUpTo(oldLines, newLines, n - 1), oldLines, newLines, n - 1)
  }

  /** Index `i` is on the list its kind names, and only there, once the
      indices below `n` are classified. */
  lemma {:induction false} ClassifyUpToAt(oldLines: seq<string>, newLines: seq<string>, n: nat, i: nat)
    ensures var c := ClassifyUpTo(oldLines, newLines, n);
            && (i in c.added <==> i < n && Kind(oldLines, newLines, i).Added?)
            && (i in c.removed <==> i < n && Kind(oldLines, newLines, i).Removed?)
            && (i in c.modified <==> i < n && Kind(oldLines, newLines, i).Modified?)
            && (i in c.same <==> i < n && Kind(oldLines, newLines, i).Unchanged?)
  {
    if n > 0 {
      var c := ClassifyUpTo(oldLines, newLines, n - 1);
      assert ClassifyUpTo(oldLines, newLines, n) == Record(c, oldLines, newLines, n - 1);
      ClassifyUpToAt(oldLines, newLines, n - 1, i);
      RecordAt(c, oldLines, newLines, n - 1, i);
    }
  }

  /** One turn adds index `k` to its kind's list and nothing else. */
  lemma RecordAt(c: LineChanges, oldLines: seq<string>, newLines: seq<string>, k: nat, i: nat)
    ensures var r := Record(c, oldLines, newLines, k);
            var kind := Kind(oldLines, newLines, k);
            && (i in r.added <==> i in c.added || (i == k && kind.Added?))
            && (i in r.removed <==> i in c.removed || (i == k && kind.Removed?))
            && (i in r.modified <==> i in c.modified || (i == k && kind.Modified?))
            && (i in r.same <==> i in c.same || (i == k && kind.Unchanged?))
  {
  }

  /** The four lists stay in increasing order and below `n`. */
  lemma {:induction false} ClassifyUpToIncreasing(oldLines: seq<string>, newLines: seq<string>, n: nat)
    ensures var c := ClassifyUpTo(oldLines, newLines, n);
            && StrictlyIncreasing(c.added) && StrictlyIncreasing(c.removed)
            && StrictlyIncreasing(c.modified) && StrictlyIncreasing(c.same)
            && (forall y :: y in c.added ==> y < n) && (forall y :: y in c.removed ==> y < n)
            && (forall y :: y in c.modified ==> y < n) && (forall y :: y in c.same ==> y < n)
  {
    if n > 0 {
      var c := ClassifyUpTo(oldLines, newLines, n - 1);
      assert ClassifyUpTo(oldLines, newLines, n) == Record(c, oldLines, newLines, n - 1);
      ClassifyUpToIncreasing(oldLines, newLines, n - 1);
      var kind := Kind(oldLines, newLines, n - 1);
      if kind.Added? {
        AppendKeepsIncreasing(c.added, n - 1);
      } else if kind.Removed? {
        AppendKeepsIncreasing(c.removed, n - 1);
      } else if kind.Modified? {
        AppendKeepsIncreasing(c.modified, n - 1);
      } else {
        AppendKeepsIncreasing(c.same, n - 1);
      }
    }
  }

  lemma ClassifyUpToClassifies(oldLines: seq<string>, newLines: seq<string>, n: nat)
    ensures Classifies(ClassifyUpTo(oldLines, newLines, n), oldLines, newLines, n)
  {
    var c := ClassifyUpTo(oldLines, newLines, n);
    forall i: nat
      ensures && (i in c.added <==> i < n && Kind(oldLines, newLines, i).Added?)
              && (i in c.removed <==> i < n && Kind(oldLines, newLines, i).Removed?)
              && (i in c.modified <==> i < n && Kind(oldLines, newLines, i).Modified?)
              && (i in c.same <==> i < n && Kind(oldLines, newLines, i).Unchanged?)
    {
      ClassifyUpToAt(oldLines, newLines, n, i);
    }
    ClassifyUpToIncreasing(oldLines, newLines, n);
  }

  /** `detectChangedLines`: compare the two texts line by line, up to the
      longer one's line count. */
  function DetectChangedLines(oldContent: string, newContent: string): (c: LineChanges)
    ensures Classifies(c, Trimmed(Split(oldContent)), Trimmed(Split(newContent)), Max(|Split(oldContent)|, |Split(newContent)|))
  {
    var oldLines, newLines := Trimmed(Split(oldContent)), Trimmed(Split(newContent));
    ClassifyUpToClassifies(oldLines, newLines, Max(|oldLines|, |newLines|));
    ClassifyUpTo(oldLines, newLines, Max(|oldLines|, |newLines|))
  }

  /** Every index below the longer line count is in exactly one list, and no
      other index is in any; an index is added exactly when only the new text
      has that line, removed exactly when only the old text has it. */
  lemma DetectChangedLinesPartition(oldContent: string, newContent: string, i: nat)
    ensures var c := DetectChangedLines(oldContent, newContent);
            var o, n := Split(oldContent), Split(newContent);
            var count := (if i in c.added then 1 else 0) + (if i in c.removed then 1 else 0)
                         + (if i in c.modified then 1 else 0) + (if i in c.same then 1 else 0);
            && count == (if i < Max(|o|, |n|) then 1 else 0)
            && (i in c.added <==> |o| <= i < |n|)
            && (i in c.removed <==> |n| <= i < |o|)
  {
  }
}
