/** The two-row table of acts/utils.py and the similarity score built on it. */
module Levenshtein {
  import opened EditDistance

  /** row holds the distances from the string s to every prefix of t, as far as it goes. */
  ghost predicate IsRowOf(row: seq<nat>, s: string, t: string) {
    |row| <= |t| + 1 && forall j :: 0 <= j < |row| ==> row[j] == Distance(s, t[..j])
  }

  /** One more cell of the current row, from its three neighbours. */
  lemma ExtendRow(previous: seq<nat>, current: seq<nat>, s: string, x: char, t: string, j: nat)
    requires j < |t| && |previous| == |t| + 1 && |current| == j + 1
    requires IsRowOf(previous, s, t) && IsRowOf(current, s + [x], t)
    ensures IsRowOf(current + [NextCell(previous, current, x, t, j)], s + [x], t)
  {
    assert t[..j + 1] == t[..j] + [t[j]];
    DistanceOfSnoc(s, x, t[..j], t[j]);
    AppendCell(current, NextCell(previous, current, x, t, j), s + [x], t);
  }

  lemma AppendCell(row: seq<nat>, cell: nat, s: string, t: string)
    requires |row| <= |t| && IsRowOf(row, s, t) && cell == Distance(s, t[..|row|])
    ensures IsRowOf(row + [cell], s, t)
  {
  }

  function NextCell(previous: seq<nat>, current: seq<nat>, x: char, t: string, j: nat): nat
    requires j < |t| && |previous| == |t| + 1 && |current| == j + 1
  {
    var insertions := previous[j + 1] + 1;
    var deletions := current[j] + 1;
    var substitutions := previous[j] + Mismatch(x, t[j]);
    Min(Min(insertions, deletions), substitutions)
  }

  /** The result is the least number of edits that turns string1 into string2. */
  method Levenshtein(string1: string, string2: string) returns (distance: nat)
    ensures distance == Distance(string1, string2)
    ensures IsEditDistance(string1, string2, distance)
    decreases |string2|
  {
    DistanceIsEditDistance(string1, string2, Distance(string1, string2));
    if |string1| < |string2| {
      DistanceIsSymmetric(string1, string2);
      distance := Levenshtein(string2, string1);
    } else {
      distance := TwoRows(string1, string2);
    }
  }

  /** The table, row by row. */
  method TwoRows(string1: string, string2: string) returns (distance: nat)
    requires |string1| >= |string2|
    ensures distance == Distance(string1, string2)
  {
    if |string2| == 0 {
      return |string1|;
    }
    var previousRow: seq<nat> := seq(|string2| + 1, (j: nat) => j);
    for i := 0 to |string1|
      invariant |previousRow| == |string2| + 1
      invariant IsRowOf(previousRow, string1[..i], string2)
    {
      assert string1[..i + 1] == string1[..i] + [string1[i]];
      previousRow := NextRow(previousRow, i, string1[..i], string1[i], string2);
    }
    assert string1[..|string1|] == string1 && string2[..|string2|] == string2;
    distance := previousRow[|string2|];
  }

  /** The inner loop: the row of one more character. */
  method NextRow(previousRow: seq<nat>, i: nat, ghost prefix: string, char1: char, string2: string)
    returns (currentRow: seq<nat>)
    requires i == |prefix| && |previousRow| == |string2| + 1 && IsRowOf(previousRow, prefix, string2)
    ensures |currentRow| == |string2| + 1 && IsRowOf(currentRow, prefix + [char1], string2)
  {
    currentRow := [i + 1];
    for j := 0 to |string2|
      invariant |currentRow| == j + 1
      invariant IsRowOf(currentRow, prefix + [char1], string2)
    {
      ExtendRow(previousRow, currentRow, prefix, char1, string2, j);
      currentRow := currentRow + [NextCell(previousRow, currentRow, char1, string2, j)];
    }
  }

  /** score is the percentage of the longer string's characters that no edit touched. */
  ghost predicate IsShareKept(score: real, lev: nat, longer: nat) {
    score * longer as real == (longer as real - lev as real) * 100.0
  }

  /** The score: a perfect 100 only for equal strings, 0 only when nothing can be kept. */
  method StringSimilarity(s1: string, s2: string) returns (result: real)
    ensures 0.0 <= result <= 100.0
    ensures result == 100.0 <==> s1 == s2
    ensures result == 0.0 <==> Distance(s1, s2) == Max(|s1|, |s2|) && s1 + s2 != []
    ensures IsShareKept(result, Distance(s1, s2), Max(|s1|, |s2|))
  {
    var lev := Levenshtein(s1, s2);
    DistanceBounds(s1, s2);
    ZeroDistanceIffEqual(s1, s2);
    var longer := Max(|s1|, |s2|);
    if longer == 0 {
      // the ZeroDivisionError branch
      result := if s2 == [] then 100.0 else 0.0;
    } else {
      var levRatio := lev as real / longer as real;
      result := (1.0 - levRatio) * 100.0;
      ScoreOfRatio(lev, longer, levRatio, result);
    }
  }

  lemma ScoreOfRatio(lev: nat, longer: nat, ratio: real, score: real)
    requires lev <= longer && longer > 0
    requires ratio == lev as real / longer as real && score == (1.0 - ratio) * 100.0
    ensures 0.0 <= score <= 100.0
    ensures score == 100.0 <==> lev == 0
    ensures score == 0.0 <==> lev == longer
    ensures IsShareKept(score, lev, longer)
  {
    var l := longer as real;
    assert ratio * l == lev as real;
    assert 0.0 <= ratio <= 1.0;
    assert score * l == 100.0 * l - (ratio * l) * 100.0;
  }
}
