/** Fuzzy string matching (src/utils/string/fuzzyMatch.ts): the Levenshtein
    distance filled in a matrix row by row, and the threshold test built on it. */
module FuzzyMatch {
  import opened Strings

  function Min3(x: nat, y: nat, z: nat): (m: nat)
    ensures m <= x && m <= y && m <= z
    ensures m == x || m == y || m == z
  {
    if x <= y && x <= z then x else if y <= z then y else z
  }

  function Max(x: nat, y: nat): nat {
    if x >= y then x else y
  }

  /** Substituting a character costs nothing when it is already right. */
  function Cost(x: char, y: char): nat {
    if x == y then 0 else 1
  }

  /** The edit distance: the fewest single-character deletions, insertions
      and substitutions turning `a` into `b`, by the recurrence on the last
      characters that the matrix below tabulates. */
  function Lev(a: string, b: string): nat
    decreases |a| + |b|
  {
    if |a| == 0 then |b|
    else if |b| == 0 then |a|
    else
      var i, j := |a| - 1, |b| - 1;
      Min3(Lev(a[..i], b) + 1,                    // deletion
           Lev(a, b[..j]) + 1,                    // insertion
           Lev(a[..i], b[..j]) + Cost(a[i], b[j])) // substitution
  }

  /** The recurrence read on prefixes: cell (i, j) from its three neighbours. */
  lemma LevStep(a: string, b: string, i: nat, j: nat)
    requires 1 <= i <= |a| && 1 <= j <= |b|
    ensures Lev(a[..i], b[..j]) ==
      Min3(Lev(a[..i - 1], b[..j]) + 1,
           Lev(a[..i], b[..j - 1]) + 1,
           Lev(a[..i - 1], b[..j - 1]) + Cost(a[i - 1], b[j - 1]))
  {
    assert a[..i][..i - 1] == a[..i - 1];
    assert b[..j][..j - 1] == b[..j - 1];
  }

  /** The same recurrence on the lengths of the prefixes, as the matrix
      indexes it: `LevAt(a, b, i, j)` is the distance between the first `i`
      characters of `a` and the first `j` of `b` (`LevAtIsLev`). */
  function LevAt(a: string, b: string, i: nat, j: nat): nat
    requires i <= |a| && j <= |b|
    decreases i + j
  {
    if i == 0 then j
    else if j == 0 then i
    else Min3(LevAt(a, b, i - 1, j) + 1,
              LevAt(a, b, i, j - 1) + 1,
              LevAt(a, b, i - 1, j - 1) + Cost(a[i - 1], b[j - 1]))
  }

  lemma {:induction false} LevAtIsLev(a: string, b: string, i: nat, j: nat)
    requires i <= |a| && j <= |b|
    ensures LevAt(a, b, i, j) == Lev(a[..i], b[..j])
    decreases i + j
  {
    if i == 0 {
      assert |b[..j]| == j;
    } else if j == 0 {
      assert |a[..i]| == i;
    } else {
      LevAtIsLev(a, b, i - 1, j);
      LevAtIsLev(a, b, i, j - 1);
      LevAtIsLev(a, b, i - 1, j - 1);
      LevAtStep(a, b, i, j);
    }
  }

  /** The inductive step of `LevAtIsLev`: both recurrences agree on a cell
      when they agree on its three neighbours. */
  lemma LevAtStep(a: string, b: string, i: nat, j: nat)
    requires 1 <= i <= |a| && 1 <= j <= |b|
    requires LevAt(a, b, i - 1, j) == Lev(a[..i - 1], b[..j])
    requires LevAt(a, b, i, j - 1) == Lev(a[..i], b[..j - 1])
    requires LevAt(a, b, i - 1, j - 1) == Lev(a[..i - 1], b[..j - 1])
    ensures LevAt(a, b, i, j) == Lev(a[..i], b[..j])
  {
    LevStep(a, b, i, j);
  }

  /** Cell (k, l) of the matrix is the minimum of deletion, insertion and
      substitution computed from its three neighbours. */
  ghost predicate CellFollows(matrix: array2<nat>, a: string, b: string, k: nat, l: nat)
    reads matrix
    requires matrix.Length0 == |a| + 1 && matrix.Length1 == |b| + 1
    requires 1 <= k <= |a| && 1 <= l <= |b|
  {
    matrix[k, l] == Min3(matrix[k - 1, l] + 1, matrix[k, l - 1] + 1,
                         matrix[k - 1, l - 1] + Cost(a[k - 1], b[l - 1]))
  }

  /** Cells 1..upto-1 of row `k` follow the recurrence. */
  ghost predicate RowFollows(matrix: array2<nat>, a: string, b: string, k: nat, upto: nat)
    reads matrix
    requires matrix.Length0 == |a| + 1 && matrix.Length1 == |b| + 1
    requires 1 <= k <= |a| && upto <= |b| + 1
  {
    forall l :: 1 <= l < upto ==> CellFollows(matrix, a, b, k, l)
  }

  /** The first column holds 0..|a|, the first row 0..|b|, and rows
      1..rows-1 are filled by the recurrence. */
  ghost predicate Filled(matrix: array2<nat>, a: string, b: string, rows: nat)
    reads matrix
    requires matrix.Length0 == |a| + 1 && matrix.Length1 == |b| + 1
  {
    (forall k {:trigger matrix[k, 0]} :: 0 <= k <= |a| ==> matrix[k, 0] == k) &&
    (forall l {:trigger matrix[0, l]} :: 0 <= l <= |b| ==> matrix[0, l] == l) &&
    (forall k, l :: 1 <= k < rows && k <= |a| && 1 <= l <= |b| ==> CellFollows(matrix, a, b, k, l))
  }

  /** A filled cell holds the distance between the prefixes it stands for. */
  lemma {:induction false} FilledCell(matrix: array2<nat>, a: string, b: string, k: nat, l: nat)
    requires matrix.Length0 == |a| + 1 && matrix.Length1 == |b| + 1
    requires Filled(matrix, a, b, |a| + 1)
    requires k <= |a| && l <= |b|
    ensures matrix[k, l] == LevAt(a, b, k, l)
    decreases k + l
  {
    if k != 0 && l != 0 {
      FilledCell(matrix, a, b, k - 1, l);
      FilledCell(matrix, a, b, k, l - 1);
      FilledCell(matrix, a, b, k - 1, l - 1);
      assert CellFollows(matrix, a, b, k, l);
    }
  }

  /** `levenshteinDistance(a, b)`: the empty-string shortcuts, then the first
      column and first row set to 0..n, then every other cell the minimum of
      deletion, insertion and substitution. Cell (i, j) ends up holding the
      distance between the first i characters of `a` and the first j of `b`. */
  method LevenshteinDistance(a: string, b: string) returns (d: nat)
    ensures |a| == 0 ==> d == |b|
    ensures |b| == 0 ==> d == |a|
    ensures d == Lev(a, b)
  {
    if |a| == 0 {
      return |b|;
    }
    if |b| == 0 {
      return |a|;
    }
    var matrix := new nat[|a| + 1, |b| + 1];
    for i := 0 to |a| + 1
      invariant forall k :: 0 <= k < i ==> matrix[k, 0] == k
    {
      matrix[i, 0] := i;
    }
    for j := 0 to |b| + 1
      invariant forall k :: 0 <= k <= |a| ==> matrix[k, 0] == k
      invariant forall l :: 0 <= l < j ==> matrix[0, l] == l
    {
      matrix[0, j] := j;
    }
    for i := 1 to |a| + 1
      invariant Filled(matrix, a, b, i)
    {
      FillRow(matrix, a, b, i);
    }
    FilledCell(matrix, a, b, |a|, |b|);
    LevAtIsLev(a, b, |a|, |b|);
    assert a[..|a|] == a && b[..|b|] == b;
    return matrix[|a|, |b|];
  }

  /** The inner loop of the matrix fill: row `i`, column by column, from the
      row above and the cell to the left; the cells already filled are left
      as they were. */
  method FillRow(matrix: array2<nat>, a: string, b: string, i: nat)
    requires matrix.Length0 == |a| + 1 && matrix.Length1 == |b| + 1
    requires 1 <= i <= |a|
    requires Filled(matrix, a, b, i)
    modifies matrix
    ensures Filled(matrix, a, b, i + 1)
  {
    for j := 1 to |b| + 1
      invariant Filled(matrix, a, b, i)
      invariant RowFollows(matrix, a, b, i, j)
    {
      var cost := if a[i - 1] == b[j - 1] then 0 else 1;
      label Before:
      matrix[i, j] := Min3(matrix[i - 1, j] + 1, matrix[i, j - 1] + 1, matrix[i - 1, j - 1] + cost);
      // only cell (i, j) changed, and no earlier cell reads it
      forall k, l | 1 <= k < i && 1 <= l <= |b|
        ensures CellFollows(matrix, a, b, k, l)
      {
        assert old@Before(CellFollows(matrix, a, b, k, l));
      }
      forall l | 1 <= l < j
        ensures CellFollows(matrix, a, b, i, l)
      {
        assert old@Before(CellFollows(matrix, a, b, i, l));
      }
    }
  }

  /** A string is at distance 0 from itself. */
  lemma {:induction false} LevSelf(a: string)
    ensures Lev(a, a) == 0
    decreases |a|
  {
    if |a| > 0 {
      LevSelf(a[..|a| - 1]);
    }
  }

  /** Distance 0 means equal strings. */
  lemma {:induction false} LevZeroIffEqual(a: string, b: string)
    ensures Lev(a, b) == 0 <==> a == b
    decreases |a| + |b|
  {
    if a == b {
      LevSelf(a);
    } else if |a| > 0 && |b| > 0 && Lev(a, b) == 0 {
      var i, j := |a| - 1, |b| - 1;
      LevZeroIffEqual(a[..i], b[..j]);
    }
  }

  /** The distance never exceeds the longer length. */
  lemma {:induction false} LevAtMostLonger(a: string, b: string)
    ensures Lev(a, b) <= Max(|a|, |b|)
    decreases |a| + |b|
  {
    if |a| > 0 && |b| > 0 {
      LevAtMostLonger(a[..|a| - 1], b[..|b| - 1]);
    }
  }

  /** The distance is at least the difference of the lengths. */
  lemma LevAtLeastLengthGap(a: string, b: string)
    ensures Lev(a, b) >= |a| - |b| && Lev(a, b) >= |b| - |a|
  {
    LevCoversSurplus(a, b);
    LevCoversSurplus(b, a);
    LevSymmetric(a, b);
  }

  /** Every character `a` has beyond the length of `b` costs an edit. */
  lemma {:induction false} LevCoversSurplus(a: string, b: string)
    ensures Lev(a, b) + |b| >= |a|
    decreases |a| + |b|
  {
    if |a| > 0 && |b| > 0 {
      var i, j := |a| - 1, |b| - 1;
      LevCoversSurplus(a[..i], b);
      LevCoversSurplus(a, b[..j]);
      LevCoversSurplus(a[..i], b[..j]);
    }
  }

  /** Turning `a` into `b` costs the same as turning `b` into `a`. */
  lemma {:induction false} LevSymmetric(a: string, b: string)
    ensures Lev(a, b) == Lev(b, a)
    decreases |a| + |b|
  {
    if |a| > 0 && |b| > 0 {
      var i, j := |a| - 1, |b| - 1;
      LevSymmetric(a[..i], b);
      LevSymmetric(a, b[..j]);
      LevSymmetric(a[..i], b[..j]);
    }
  }

  /** Appending the same text to both strings never increases the distance. */
  lemma {:induction false} LevCommonSuffix(s: string, t: string, u: string)
    ensures Lev(s + u, t + u) <= Lev(s, t)
    decreases |u|
  {
    if u == [] {
      assert s + u == s && t + u == t;
    } else {
      var v := u[..|u| - 1];
      LevCommonSuffix(s, t, v);
      var a, b := s + u, t + u;
      assert a[..|a| - 1] == s + v && b[..|b| - 1] == t + v;
      assert a[|a| - 1] == b[|b| - 1];
    }
  }

  /** The number of characters of `s` drawn from `cs`. */
  function CountIn(s: string, cs: set<char>): (n: nat)
    ensures n <= |s|
  {
    if s == [] then 0
    else CountIn(s[..|s| - 1], cs) + (if s[|s| - 1] in cs then 1 else 0)
  }

  /** Every character of `cs` that `b` has more of than `a` costs at least one
      edit: a lower bound on the distance. */
  lemma {:induction false} LevAtLeastCountGap(a: string, b: string, cs: set<char>)
    ensures Lev(a, b) >= CountIn(b, cs) - CountIn(a, cs)
    decreases |a| + |b|
  {
    if |a| > 0 && |b| > 0 {
      var i, j := |a| - 1, |b| - 1;
      LevAtLeastCountGap(a[..i], b, cs);
      LevAtLeastCountGap(a, b[..j], cs);
      LevAtLeastCountGap(a[..i], b[..j], cs);
    }
  }

  /** A non-negative threshold written as a fraction `num / den`, so that the
      ratio test is exact integer arithmetic. */
  datatype Ratio = Ratio(num: nat, den: nat)
  type Threshold = r: Ratio | r.den > 0 witness Ratio(0, 1)

  /** The threshold `isFuzzyMatch` uses when none is given: 0.3. */
  const DefaultThreshold: Threshold := Ratio(3, 10)

  /** `distance / maxLen <= threshold`, cross-multiplied (both lengths are
      positive, so the comparison is unchanged). */
  predicate WithinRatio(distance: nat, maxLen: nat, threshold: Threshold) {
    distance * threshold.den <= threshold.num * maxLen
  }

  /** `isFuzzyMatch(source, target, threshold)`: never for an empty string;
      always when one string contains the other (case-sensitive); otherwise
      when the distance between the lower-cased strings, divided by the
      longer length, is within the threshold. The source's guard for a zero
      longer length cannot fire here, since both strings are non-empty by
      then. */
  predicate IsFuzzyMatch(source: string, target: string, threshold: Threshold)
  {
    if source == [] || target == [] then false
    else if Contains(source, target) || Contains(target, source) then true
    else WithinRatio(Lev(ToLower(source), ToLower(target)), Max(|source|, |target|), threshold)
  }

  /** A non-empty string always matches itself. */
  lemma FuzzyMatchReflexive(s: string, threshold: Threshold)
    requires s != []
    ensures IsFuzzyMatch(s, s, threshold)
  {
    ContainsSelf(s);
  }

  /** Two non-empty strings match, whatever the threshold, when either
      contains the other. */
  lemma ContainedMatches(s: string, t: string, threshold: Threshold)
    requires s != [] && t != [] && (Contains(s, t) || Contains(t, s))
    ensures IsFuzzyMatch(s, t, threshold) && IsFuzzyMatch(t, s, threshold)
  {
  }

  /** The order of the arguments does not matter. */
  lemma FuzzyMatchSymmetric(s: string, t: string, threshold: Threshold)
    ensures IsFuzzyMatch(s, t, threshold) == IsFuzzyMatch(t, s, threshold)
  {
    LevSymmetric(ToLower(s), ToLower(t));
  }

  /** With a threshold of at least 1 any two non-empty strings match, since
      the distance never exceeds the longer length. */
  lemma FuzzyMatchWideThreshold(s: string, t: string, threshold: Threshold)
    requires s != [] && t != [] && threshold.num >= threshold.den
    ensures IsFuzzyMatch(s, t, threshold)
  {
    var d, m := Lev(ToLower(s), ToLower(t)), Max(|s|, |t|);
    LevAtMostLonger(ToLower(s), ToLower(t));
    assert d * threshold.den <= m * threshold.den by {
      MulMonotone(d, m, threshold.den);
    }
    assert m * threshold.den <= m * threshold.num by {
      MulMonotone(threshold.den, threshold.num, m);
    }
  }

  lemma MulMonotone(x: nat, y: nat, k: nat)
    requires x <= y
    ensures x * k <= y * k && k * x <= k * y
  {
  }

  /** Raising the threshold never loses a match. */
  lemma FuzzyMatchMonotone(s: string, t: string, lo: Threshold, hi: Threshold)
    requires lo.num * hi.den <= hi.num * lo.den
    requires IsFuzzyMatch(s, t, lo)
    ensures IsFuzzyMatch(s, t, hi)
  {
    if !Contains(s, t) && !Contains(t, s) {
      RatioMonotone(Lev(ToLower(s), ToLower(t)), Max(|s|, |t|), lo, hi);
    }
  }

  lemma RatioMonotone(d: nat, m: nat, lo: Threshold, hi: Threshold)
    requires lo.num * hi.den <= hi.num * lo.den
    requires WithinRatio(d, m, lo)
    ensures WithinRatio(d, m, hi)
  {
  }


  lemma NotContainedOnePiece()
    ensures !Contains("one piece", "onepiece") && !Contains("onepiece", "one piece")
  {
    var s, t := "one piece", "onepiece";
    assert !OccursAt(s, t, 0) by { assert s[..8][3] != t[3]; }
    assert !OccursAt(s, t, 1) by { assert s[1..9][0] != t[0]; }
    assert forall i :: !OccursAt(s, t, i);
  }

  lemma LevOnePiece()
    ensures Lev("one piece", "onepiece") <= 1
  {
    assert Lev("one ", "one") <= 1 by {
      LevSelf("one");
      assert "one "[..3] == "one";
    }
    assert "one piece" == "one " + "piece" && "onepiece" == "one" + "piece";
    LevCommonSuffix("one ", "one", "piece");
  }

  /** "one piece" and "onepiece" differ by one edit, within 0.3 of 9. */
  lemma FuzzyMatchOnePiece()
    ensures IsFuzzyMatch("one piece", "onepiece", DefaultThreshold)
  {
    NotContainedOnePiece();
    LevOnePiece();
    LowerOnePiece();
  }

  lemma LowerOnePiece()
    ensures ToLower("one piece") == "one piece" && ToLower("onepiece") == "onepiece"
  {
  }

  lemma NotContainedBleachNaruto()
    ensures !Contains("bleach", "naruto") && !Contains("naruto", "bleach")
  {
    var x, y := "bleach", "naruto";
    assert !OccursAt(x, y, 0) by { assert x[0..6][0] != y[0]; }
    assert forall i :: !OccursAt(x, y, i);
    assert !OccursAt(y, x, 0) by { assert y[0..6][0] != x[0]; }
    assert forall i :: !OccursAt(y, x, i);
  }

  lemma LevBleachNaruto()
    ensures Lev("bleach", "naruto") >= 5
  {
    var x, y := "bleach", "naruto";
    var cs := {'n', 'r', 'u', 't', 'o'};
    assert CountIn(y, cs) == 5 by {
      assert y[..5] == "narut" && "narut"[..4] == "naru" && "naru"[..3] == "nar";
      assert "nar"[..2] == "na" && "na"[..1] == "n" && "n"[..0] == "";
    }
    assert CountIn(x, cs) == 0 by {
      assert x[..5] == "bleac" && "bleac"[..4] == "blea" && "blea"[..3] == "ble";
      assert "ble"[..2] == "bl" && "bl"[..1] == "b" && "b"[..0] == "";
    }
    LevAtLeastCountGap(x, y, cs);
  }

  /** "bleach" and "naruto" need at least five edits: too many for 0.3 of 6. */
  lemma FuzzyMatchBleachNaruto()
    ensures !IsFuzzyMatch("bleach", "naruto", DefaultThreshold)
  {
    NotContainedBleachNaruto();
    LevBleachNaruto();
    LowerBleachNaruto();
  }

  lemma LowerBleachNaruto()
    ensures ToLower("bleach") == "bleach" && ToLower("naruto") == "naruto"
  {
  }
}
