/** The longest common substring of two strings. */
module CommonSubstring {
  import opened Basics

  /** The length of the longest common suffix of the first `i` characters of `a` and the first `j` of `b`. */
  function SuffixLength(a: string, b: string, i: nat, j: nat): (n: nat)
    requires i <= |a| && j <= |b|
    ensures n <= i && n <= j
    ensures n == i || n == j || a[i - n - 1] != b[j - n - 1]
  {
    if i == 0 || j == 0 || a[i - 1] != b[j - 1] then 0 else SuffixLength(a, b, i - 1, j - 1) + 1
  }

  /** `s` stands in `a`, ending at position `end`. */
  predicate EndsAt(s: string, a: string, end: nat) {
    |s| <= end <= |a| && a[end - |s|..end] == s
  }

  ghost predicate Common(s: string, a: string, b: string) {
    exists i, j :: EndsAt(s, a, i) && EndsAt(s, b, j)
  }

  /** The suffixes of that length agree. */
  lemma {:induction false} SuffixAgrees(a: string, b: string, i: nat, j: nat)
    requires i <= |a| && j <= |b|
    ensures var n := SuffixLength(a, b, i, j);
            EndsAt(a[i - n..i], a, i) && EndsAt(a[i - n..i], b, j)
  {
    var n := SuffixLength(a, b, i, j);
    if n > 0 {
      SuffixAgrees(a, b, i - 1, j - 1);
      OneMore(a, b, i, j, n);
    }
  }

  lemma OneMore(a: string, b: string, i: nat, j: nat, n: pos)
    requires n <= i <= |a| && n <= j <= |b| && a[i - 1] == b[j - 1] && a[i - n..i - 1] == b[j - n..j - 1]
    ensures EndsAt(a[i - n..i], a, i) && EndsAt(a[i - n..i], b, j)
  {
    assert a[i - n..i] == a[i - n..i - 1] + [a[i - 1]] && b[j - n..j] == b[j - n..j - 1] + [b[j - 1]];
  }

  /** A substring that ends at both places is no longer than the longest common suffix there. */
  lemma SuffixLongest(s: string, a: string, b: string, i: nat, j: nat)
    requires EndsAt(s, a, i) && EndsAt(s, b, j)
    ensures |s| <= SuffixLength(a, b, i, j)
    decreases |s|
  {
  }

  /** The cells that the loops have filled in, row by row from the second row and column on. */
  predicate Visited(i: nat, j: nat, row: nat, column: nat) {
    i < row || (i == row && j < column)
  }

  /** `len` is the greatest length in a visited cell, and `end` the first row in which it is reached. */
  ghost predicate Best(a: string, b: string, row: nat, column: nat, len: nat, end: nat) {
    && (forall i, j :: 0 <= i <= |a| && 0 <= j <= |b| && Visited(i, j, row, column) ==>
          SuffixLength(a, b, i, j) <= len && (SuffixLength(a, b, i, j) == len != 0 ==> end <= i))
    && (if len == 0 then end == 0
        else end <= |a| && exists j :: 0 <= j <= |b| && Visited(end, j, row, column) && SuffixLength(a, b, end, j) == len)
  }

  lemma BestNext(a: string, b: string, row: nat, column: nat, len: nat, end: nat)
    requires 1 <= row <= |a| && 1 <= column <= |b| && Best(a, b, row, column, len, end)
    ensures var n := SuffixLength(a, b, row, column);
            if n > len then Best(a, b, row, column + 1, n, row) else Best(a, b, row, column + 1, len, end)
  {
  }

  lemma BestRow(a: string, b: string, row: nat, len: nat, end: nat)
    requires row <= |a| && Best(a, b, row, |b| + 1, len, end)
    ensures Best(a, b, row + 1, 1, len, end)
  {
  }

  ghost predicate Filled(dp: array2<nat>, a: string, b: string, row: nat, column: nat)
    requires dp.Length0 == |a| + 1 && dp.Length1 == |b| + 1
    reads dp
  {
    forall i, j :: 0 <= i <= |a| && 0 <= j <= |b| ==>
      dp[i, j] == if Visited(i, j, row, column) then SuffixLength(a, b, i, j) else 0
  }

  /** Every entry of the table is the longest common suffix length of the two prefixes. */
  method FillTable(a: string, b: string) returns (dp: array2<nat>, bestLen: nat, bestEnd: nat)
    ensures fresh(dp) && dp.Length0 == |a| + 1 && dp.Length1 == |b| + 1
    ensures forall i, j :: 0 <= i <= |a| && 0 <= j <= |b| ==> dp[i, j] == SuffixLength(a, b, i, j)
    ensures Best(a, b, |a| + 1, 1, bestLen, bestEnd)
  {
    hide Best;
    dp := new nat[|a| + 1, |b| + 1]((i, j) => 0);
    bestLen, bestEnd := 0, 0;
    NothingVisited(a, b);
    for i := 1 to |a| + 1
      invariant Filled(dp, a, b, i, 1) && Best(a, b, i, 1, bestLen, bestEnd)
    {
      for j := 1 to |b| + 1
        invariant Filled(dp, a, b, i, j) && Best(a, b, i, j, bestLen, bestEnd)
      {
        BestNext(a, b, i, j, bestLen, bestEnd);
        assert dp[i - 1, j - 1] == SuffixLength(a, b, i - 1, j - 1) && dp[i, j] == 0;
        if a[i - 1] == b[j - 1] {
          dp[i, j] := dp[i - 1, j - 1] + 1;
          if dp[i, j] > bestLen {
            bestLen := dp[i, j];
            bestEnd := i;
          }
        }
      }
      BestRow(a, b, i, bestLen, bestEnd);
    }
  }

  lemma NothingVisited(a: string, b: string)
    ensures Best(a, b, 1, 1, 0, 0)
    ensures forall j :: 0 <= j <= |b| ==> SuffixLength(a, b, 0, j) == 0
    ensures forall i :: 0 <= i <= |a| ==> SuffixLength(a, b, i, 0) == 0
  {
  }

  /**
   * The result stands in both strings; no common substring is longer, and none of that length ends earlier in `a`.
   */
  method StringLcs(a: string, b: string) returns (s: string, ghost end: nat)
    ensures EndsAt(s, a, end) && Common(s, a, b)
    ensures forall t :: Common(t, a, b) ==> |t| <= |s|
    ensures forall t, i :: Common(t, a, b) && EndsAt(t, a, i) && |t| == |s| != 0 ==> end <= i
  {
    if |a| == 0 || |b| == 0 {
      assert EndsAt("", a, 0) && EndsAt("", b, 0);
      return "", 0;
    }
    var _, bestLen, bestEnd := FillTable(a, b);
    end := bestEnd;
    s := a[bestEnd - bestLen..bestEnd];
    BestIsLongest(a, b, bestLen, bestEnd);
  }

  /** The result stands in both strings. */
  lemma BestIsCommon(a: string, b: string, len: nat, end: nat)
    requires Best(a, b, |a| + 1, 1, len, end)
    ensures len <= end <= |a| && EndsAt(a[end - len..end], a, end) && Common(a[end - len..end], a, b)
  {
    hide SuffixLength;
    if len == 0 {
      assert EndsAt(a[end - len..end], b, 0);
    } else {
      var j :| 0 <= j <= |b| && SuffixLength(a, b, end, j) == len;
      SuffixAgrees(a, b, end, j);
    }
  }

  /** What ends at both places is no longer, and if it is as long it ends no earlier. */
  lemma BestBounds(a: string, b: string, len: nat, end: nat, t: string, i: nat, j: nat)
    requires Best(a, b, |a| + 1, 1, len, end) && EndsAt(t, a, i) && EndsAt(t, b, j)
    ensures |t| <= len && (|t| == len != 0 ==> end <= i)
  {
    hide SuffixLength;
    SuffixLongest(t, a, b, i, j);
    hide EndsAt;
    assert Visited(i, j, |a| + 1, 1);
  }

  lemma BestIsLongest(a: string, b: string, len: nat, end: nat)
    requires Best(a, b, |a| + 1, 1, len, end)
    ensures len <= end <= |a|
    ensures var s := a[end - len..end];
            && EndsAt(s, a, end) && Common(s, a, b)
            && (forall t :: Common(t, a, b) ==> |t| <= len)
            && (forall t, i :: Common(t, a, b) && EndsAt(t, a, i) && |t| == len != 0 ==> end <= i)
  {
    BestIsCommon(a, b, len, end);
    hide SuffixLength, Best, EndsAt;
    forall t | Common(t, a, b)
      ensures |t| <= len && forall i :: EndsAt(t, a, i) && |t| == len != 0 ==> end <= i
    {
      var i', j :| EndsAt(t, a, i') && EndsAt(t, b, j);
      BestBounds(a, b, len, end, t, i', j);
      forall i | EndsAt(t, a, i) && |t| == len != 0
        ensures end <= i
      {
        BestBounds(a, b, len, end, t, i, j);
      }
    }
  }
}
