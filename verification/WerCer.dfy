/** Word and character error rates: the full-table and rolling-row algorithms, proved against
    `EditDistance`. Text normalization and word splitting enter as an arbitrary function. */
module WerCer {
  import opened Sequences
  import opened EditDistance

  /** What a table or row cell holds. */
  function Cell<T(==)>(ref: seq<T>, hyp: seq<T>, i: nat, j: nat): nat
    requires i <= |ref| && j <= |hyp|
  {
    Distance(ref[..i], hyp[..j])
  }

  lemma Prefixes<T>(s: seq<T>, k: nat)
    requires 0 < k <= |s|
    ensures s[..k] != [] && Init(s[..k]) == s[..k - 1] && Last(s[..k]) == s[k - 1]
  {
  }

  lemma CellRecurrence<T>(ref: seq<T>, hyp: seq<T>, i: nat, j: nat)
    requires 0 < i <= |ref| && 0 < j <= |hyp|
    ensures Cell(ref, hyp, i, j) ==
            if ref[i - 1] == hyp[j - 1] then Cell(ref, hyp, i - 1, j - 1)
            else 1 + Min(Min(Cell(ref, hyp, i - 1, j - 1), Cell(ref, hyp, i - 1, j)), Cell(ref, hyp, i, j - 1))
  {
    Prefixes(ref, i);
    Prefixes(hyp, j);
  }

  lemma CellBorders<T>(ref: seq<T>, hyp: seq<T>, i: nat, j: nat)
    requires i <= |ref| && j <= |hyp|
    ensures Cell(ref, hyp, i, 0) == i && Cell(ref, hyp, 0, j) == j
  {
  }

  ghost predicate IsTable<T>(dp: array2<nat>, ref: seq<T>, hyp: seq<T>)
    reads dp
  {
    && dp.Length0 == |ref| + 1 && dp.Length1 == |hyp| + 1
    && forall i, j :: 0 <= i <= |ref| && 0 <= j <= |hyp| ==> dp[i, j] == Cell(ref, hyp, i, j)
  }

  /** `left(i, j)`, the operations still to be counted from cell (i, j), obeys the branch the walk
      takes there. A step to the left is only ever taken with a column left to go to. */
  ghost predicate WalkStep<T>(dp: array2<nat>, ref: seq<T>, hyp: seq<T>, left: (nat, nat) -> Tally, i: nat, j: nat)
    requires dp.Length0 == |ref| + 1 && dp.Length1 == |hyp| + 1
    requires i <= |ref| && j <= |hyp|
    reads dp
  {
    if i == 0 && j == 0 then
      left(i, j) == Tally(0, 0, 0)
    else if i > 0 && j > 0 && ref[i - 1] == hyp[j - 1] then
      left(i, j) == left(i - 1, j - 1)
    else if i > 0 && j > 0 && dp[i, j] == dp[i - 1, j - 1] + 1 then
      left(i, j) == left(i - 1, j - 1).Plus(1, 0, 0)
    else if i > 0 && dp[i, j] == dp[i - 1, j] + 1 then
      left(i, j) == left(i - 1, j).Plus(0, 1, 0)
    else
      j > 0 && left(i, j) == left(i, j - 1).Plus(0, 0, 1)
  }

  method WalkBack<T(==)>(dp: array2<nat>, ref: seq<T>, hyp: seq<T>, ghost left: (nat, nat) -> Tally)
    returns (substitutions: nat, deletions: nat, insertions: nat)
    requires dp.Length0 == |ref| + 1 && dp.Length1 == |hyp| + 1
    requires forall i: nat, j: nat | i <= |ref| && j <= |hyp| :: WalkStep(dp, ref, hyp, left, i, j)
    ensures Tally(substitutions, deletions, insertions) == left(|ref|, |hyp|)
  {
    var i: nat, j: nat := |ref|, |hyp|;
    substitutions, deletions, insertions := 0, 0, 0;
    while i > 0 || j > 0
      invariant i <= |ref| && j <= |hyp|
      invariant left(|ref|, |hyp|) == left(i, j).Plus(substitutions, deletions, insertions)
      decreases i + j
    {
      assert WalkStep(dp, ref, hyp, left, i, j);
      if i > 0 && j > 0 && ref[i - 1] == hyp[j - 1] {
        i, j := i - 1, j - 1;
      } else if i > 0 && j > 0 && dp[i, j] == dp[i - 1, j - 1] + 1 {
        substitutions := substitutions + 1;
        i, j := i - 1, j - 1;
      } else if i > 0 && dp[i, j] == dp[i - 1, j] + 1 {
        deletions := deletions + 1;
        i := i - 1;
      } else {
        insertions := insertions + 1;
        j := j - 1;
      }
    }
    assert WalkStep(dp, ref, hyp, left, i, j);
  }

  method FillTable<T(==)>(ref: seq<T>, hyp: seq<T>) returns (dp: array2<nat>)
    ensures fresh(dp) && IsTable(dp, ref, hyp)
  {
    var n, m := |ref|, |hyp|;
    dp := new nat[n + 1, m + 1]((_, _) => 0);
    for i := 0 to n + 1
      invariant forall a :: 0 <= a < i ==> dp[a, 0] == a
    {
      dp[i, 0] := i;
    }
    for j := 0 to m + 1
      invariant forall a :: 0 <= a <= n ==> dp[a, 0] == a
      invariant forall b :: 0 <= b < j ==> dp[0, b] == b
    {
      dp[0, j] := j;
    }
    forall a, b | 0 <= a <= n && 0 <= b <= m
      ensures Cell(ref, hyp, a, 0) == a && Cell(ref, hyp, 0, b) == b
    {
      CellBorders(ref, hyp, a, b);
    }
    for i := 1 to n + 1
      invariant forall a :: 0 <= a <= n ==> dp[a, 0] == a
      invariant forall a, b :: 0 <= a < i && 0 <= b <= m ==> dp[a, b] == Cell(ref, hyp, a, b)
    {
      for j := 1 to m + 1
        invariant forall a :: 0 <= a <= n ==> dp[a, 0] == a
        invariant forall a, b :: 0 <= a < i && 0 <= b <= m ==> dp[a, b] == Cell(ref, hyp, a, b)
        invariant forall b :: 0 <= b < j ==> dp[i, b] == Cell(ref, hyp, i, b)
      {
        CellRecurrence(ref, hyp, i, j);
        if ref[i - 1] == hyp[j - 1] {
          dp[i, j] := dp[i - 1, j - 1];
        } else {
          dp[i, j] := 1 + Min(Min(dp[i - 1, j - 1], dp[i - 1, j]), dp[i, j - 1]);
        }
      }
    }
  }

  lemma Backtrace<T>(dp: array2<nat>, ref: seq<T>, hyp: seq<T>, left: (nat, nat) -> Tally, i: nat, j: nat)
    requires IsTable(dp, ref, hyp)
    requires i <= |ref| && j <= |hyp|
    requires forall a: nat, b: nat | a <= i && b <= j :: left(a, b) == TallyOf(Alignment(ref[..a], hyp[..b]))
    ensures WalkStep(dp, ref, hyp, left, i, j)
  {
    if i > 0 { Prefixes(ref, i); }
    if j > 0 { Prefixes(hyp, j); }
  }

  /** Fill the whole table, then walk back from its corner counting operations. */
  method EditOps<T(==)>(ref: seq<T>, hyp: seq<T>) returns (substitutions: nat, deletions: nat, insertions: nat)
    ensures Tally(substitutions, deletions, insertions) == TallyOf(Alignment(ref, hyp))
    ensures substitutions + deletions + insertions == Distance(ref, hyp)
    ensures |ref| - deletions == |hyp| - insertions
  {
    var dp := FillTable(ref, hyp);
    ghost var left := (i: nat, j: nat) =>
      if i <= |ref| && j <= |hyp| then TallyOf(Alignment(ref[..i], hyp[..j])) else Tally(0, 0, 0);
    forall i: nat, j: nat | i <= |ref| && j <= |hyp|
      ensures WalkStep(dp, ref, hyp, left, i, j)
    {
      Backtrace(dp, ref, hyp, left, i, j);
    }
    substitutions, deletions, insertions := WalkBack(dp, ref, hyp, left);
    assert ref[..|ref|] == ref && hyp[..|hyp|] == hyp;
    AlignmentIsOptimal(ref, hyp);
    TallyBalances(Alignment(ref, hyp));
  }

  /** Keep only one row of the table, over the shorter sequence. */
  method RollingDistance<T(==)>(reference: seq<T>, hypothesis: seq<T>) returns (distance: nat)
    ensures distance == Distance(reference, hypothesis)
  {
    var ref, hyp := reference, hypothesis;
    if |ref| < |hyp| {
      Symmetric(reference, hypothesis);
      ref, hyp := hyp, ref;
    }
    var n, m := |ref|, |hyp|;
    var previous := new nat[m + 1](j => j);
    for i := 1 to n + 1
      invariant previous.Length == m + 1 && fresh(previous)
      invariant forall b :: 0 <= b <= m ==> previous[b] == Cell(ref, hyp, i - 1, b)
    {
      var current := new nat[m + 1](j => if j == 0 then i else 0);
      CellBorders(ref, hyp, i, 0);
      for j := 1 to m + 1
        invariant current != previous
        invariant forall b :: 0 <= b <= m ==> previous[b] == Cell(ref, hyp, i - 1, b)
        invariant forall b :: 0 <= b < j ==> current[b] == Cell(ref, hyp, i, b)
      {
        CellRecurrence(ref, hyp, i, j);
        if ref[i - 1] == hyp[j - 1] {
          current[j] := previous[j - 1];
        } else {
          current[j] := 1 + Min(Min(previous[j - 1], previous[j]), current[j - 1]);
        }
      }
      previous := current;
    }
    assert ref[..n] == ref && hyp[..m] == hyp;
    distance := previous[m];
  }

  /** An error rate; an empty reference with a nonempty hypothesis has no finite one. */
  datatype Rate = Finite(value: real) | Infinite

  predicate IsQuotient(r: real, distance: nat, count: nat) {
    r * count as real == distance as real
  }

  function Ratio(distance: nat, count: nat): (r: real)
    requires count > 0
    ensures IsQuotient(r, distance, count)
    ensures r == 0.0 <==> distance == 0
    ensures 0.0 <= r
    ensures r <= 1.0 <==> distance <= count
  {
    distance as real / count as real
  }

  /** `rate` is edits per reference token. */
  ghost predicate IsErrorRate<T>(rate: Rate, ref: seq<T>, hyp: seq<T>) {
    if ref == [] then rate == if hyp == [] then Finite(0.0) else Infinite
    else rate == Finite(Ratio(Distance(ref, hyp), |ref|))
  }

  method WordErrorRate(reference: string, hypothesis: string, words: string -> seq<string>)
    returns (wer: Rate, substitutions: nat, deletions: nat, insertions: nat, refWordCount: nat)
    ensures IsErrorRate(wer, words(reference), words(hypothesis))
    ensures Tally(substitutions, deletions, insertions) == TallyOf(Alignment(words(reference), words(hypothesis)))
    ensures substitutions + deletions + insertions == Distance(words(reference), words(hypothesis))
    ensures refWordCount - deletions == |words(hypothesis)| - insertions
    ensures refWordCount == |words(reference)|
  {
    var refTokens, hypTokens := words(reference), words(hypothesis);
    substitutions, deletions, insertions := EditOps(refTokens, hypTokens);
    refWordCount := |refTokens|;
    if refWordCount == 0 {
      wer := if hypTokens == [] then Finite(0.0) else Infinite;
    } else {
      wer := Finite(Ratio(substitutions + deletions + insertions, refWordCount));
    }
  }

  method CharErrorRate(reference: string, hypothesis: string, normalize: string -> string)
    returns (cer: Rate, distance: nat, refCharCount: nat)
    ensures IsErrorRate(cer, normalize(reference), normalize(hypothesis))
    ensures distance == Distance(normalize(reference), normalize(hypothesis))
    ensures refCharCount == |normalize(reference)|
  {
    var refChars, hypChars := normalize(reference), normalize(hypothesis);
    refCharCount := |refChars|;
    if refCharCount == 0 {
      cer := if hypChars == [] then Finite(0.0) else Infinite;
      distance := |hypChars|;
    } else {
      distance := RollingDistance(refChars, hypChars);
      cer := Finite(Ratio(distance, refCharCount));
    }
  }

  /** An error rate is the number of edits per reference token, and infinite exactly if there is none but
      something was heard. It is 0 exactly on equal sequences, is never negative, and passes 1 only when
      the hypothesis is longer than the reference. */
  lemma ErrorRateMeaning<T>(rate: Rate, ref: seq<T>, hyp: seq<T>)
    requires IsErrorRate(rate, ref, hyp)
    ensures rate.Infinite? <==> ref == [] && hyp != []
    ensures ref != [] ==> rate.Finite? && IsQuotient(rate.value, Distance(ref, hyp), |ref|)
    ensures rate == Finite(0.0) <==> ref == hyp
    ensures rate.Finite? ==> 0.0 <= rate.value
    ensures rate.Infinite? || rate.value > 1.0 ==> |hyp| > |ref|
  {
    ZeroIffEqual(ref, hyp);
    LengthBounds(ref, hyp);
  }
}
