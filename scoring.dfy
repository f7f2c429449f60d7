/**
 * Scoring the user's attempt against the generated sequence.
 *
 * Positions 0 .. |expected| - 1 are compared. A position the user has not
 * played (the attempt is shorter) counts as an error; notes played beyond
 * the length of the expected sequence are ignored.
 */
module Scoring {

  /** Position i of the expected sequence was not reproduced. */
  predicate Mismatch(expected: seq<int>, actual: seq<int>, i: nat)
    requires i < |expected|
  {
    i >= |actual| || actual[i] != expected[i]
  }

  /** The number of mismatching positions among the first k. */
  function ErrorsBefore(expected: seq<int>, actual: seq<int>, k: nat): (n: nat)
    requires k <= |expected|
    ensures n <= k
  {
    if k == 0 then 0
    else ErrorsBefore(expected, actual, k - 1) + (if Mismatch(expected, actual, k - 1) then 1 else 0)
  }

  /** The score of an attempt: the number of mismatching positions. */
  function ErrorCount(expected: seq<int>, actual: seq<int>): (n: nat)
    ensures n <= |expected|
  {
    ErrorsBefore(expected, actual, |expected|)
  }

  /** The positions where the attempt fails. */
  ghost function MismatchPositions(expected: seq<int>, actual: seq<int>, k: nat): set<nat>
    requires k <= |expected|
  {
    set i: nat | i < k && Mismatch(expected, actual, i)
  }

  lemma {:induction false} ErrorsBeforeCountsPositions(expected: seq<int>, actual: seq<int>, k: nat)
    requires k <= |expected|
    ensures ErrorsBefore(expected, actual, k) == |MismatchPositions(expected, actual, k)|
  {
    if k > 0 {
      ErrorsBeforeCountsPositions(expected, actual, k - 1);
      var before := MismatchPositions(expected, actual, k - 1);
      if Mismatch(expected, actual, k - 1) {
        assert MismatchPositions(expected, actual, k) == before + {k - 1};
      } else {
        assert MismatchPositions(expected, actual, k) == before;
      }
    }
  }

  /** The score is the number of positions where the attempt fails. */
  lemma ErrorCountIsMismatchCount(expected: seq<int>, actual: seq<int>)
    ensures ErrorCount(expected, actual) == |MismatchPositions(expected, actual, |expected|)|
  {
    ErrorsBeforeCountsPositions(expected, actual, |expected|);
  }

  lemma {:induction false} ErrorsBeforeZero(expected: seq<int>, actual: seq<int>, k: nat)
    requires k <= |expected|
    ensures ErrorsBefore(expected, actual, k) == 0 <==> forall i :: 0 <= i < k ==> !Mismatch(expected, actual, i)
  {
    if k > 0 {
      ErrorsBeforeZero(expected, actual, k - 1);
    }
  }

  /**
   * No error if and only if the attempt starts with the whole expected
   * sequence.
   */
  lemma ErrorCountZeroIff(expected: seq<int>, actual: seq<int>)
    ensures ErrorCount(expected, actual) == 0 <==> |expected| <= |actual| && actual[..|expected|] == expected
  {
    ErrorsBeforeZero(expected, actual, |expected|);
    if |expected| <= |actual| && actual[..|expected|] == expected {
      forall i | 0 <= i < |expected| ensures !Mismatch(expected, actual, i) {
        assert actual[..|expected|][i] == actual[i];
      }
    }
    if !(|expected| <= |actual| && actual[..|expected|] == expected) {
      if |expected| > |actual| {
        assert Mismatch(expected, actual, |actual|);
      } else {
        var i :| 0 <= i < |expected| && actual[..|expected|][i] != expected[i];
        assert Mismatch(expected, actual, i);
      }
    }
  }

  /** Reproducing the sequence exactly scores zero. */
  lemma IdenticalScoresZero(notes: seq<int>)
    ensures ErrorCount(notes, notes) == 0
  {
    ErrorCountZeroIff(notes, notes);
  }

  lemma {:induction false} ErrorsBeforeOnlyReadsPrefix(expected: seq<int>, actual: seq<int>, extra: seq<int>, k: nat)
    requires k <= |expected| <= |actual|
    ensures ErrorsBefore(expected, actual + extra, k) == ErrorsBefore(expected, actual, k)
  {
    if k > 0 {
      ErrorsBeforeOnlyReadsPrefix(expected, actual, extra, k - 1);
      assert (actual + extra)[k - 1] == actual[k - 1];
    }
  }

  /** Notes played after the length of the expected sequence are not scored. */
  lemma ExtraNotesIgnored(expected: seq<int>, actual: seq<int>, extra: seq<int>)
    requires |expected| <= |actual|
    ensures ErrorCount(expected, actual + extra) == ErrorCount(expected, actual)
  {
    ErrorsBeforeOnlyReadsPrefix(expected, actual, extra, |expected|);
  }

  lemma {:induction false} ErrorsBeforeMissing(expected: seq<int>, actual: seq<int>, k: nat)
    requires |actual| <= k <= |expected|
    ensures ErrorsBefore(expected, actual, k) == ErrorsBefore(expected, actual, |actual|) + (k - |actual|)
  {
    if k > |actual| {
      ErrorsBeforeMissing(expected, actual, k - 1);
    }
  }

  /** Every position the user has not played yet counts as one error. */
  lemma MissingNotesAreErrors(expected: seq<int>, actual: seq<int>)
    requires |actual| <= |expected|
    ensures ErrorCount(expected, actual) == ErrorsBefore(expected, actual, |actual|) + (|expected| - |actual|)
    ensures ErrorCount(expected, actual) >= |expected| - |actual|
  {
    ErrorsBeforeMissing(expected, actual, |expected|);
  }

  /** The three worked examples of the game: an exact copy, one wrong key, and an attempt of two keys. */
  lemma WorkedExamples()
    ensures ErrorCount([60, 62, 64, 65, 67], [60, 62, 64, 65, 67]) == 0
    ensures ErrorCount([60, 62, 64, 65, 67], [60, 99, 64, 65, 67]) == 1
    ensures ErrorCount([60, 62, 64, 65, 67], [60, 62]) == 3
  {
    var expected := [60, 62, 64, 65, 67];
    IdenticalScoresZero(expected);
    var oneWrong := [60, 99, 64, 65, 67];
    assert ErrorsBefore(expected, oneWrong, 1) == 0;
    assert ErrorsBefore(expected, oneWrong, 2) == 1;
    assert ErrorsBefore(expected, oneWrong, 3) == 1;
    assert ErrorsBefore(expected, oneWrong, 4) == 1;
    var twoKeys := [60, 62];
    MissingNotesAreErrors(expected, twoKeys);
    assert ErrorsBefore(expected, twoKeys, 1) == 0;
    assert ErrorsBefore(expected, twoKeys, 2) == 0;
  }

  /** The counting loop of the comparison. */
  method CountErrors(expected: seq<int>, actual: seq<int>) returns (errors: nat)
    ensures errors == ErrorCount(expected, actual)
  {
    errors := 0;
    for i := 0 to |expected|
      invariant errors == ErrorsBefore(expected, actual, i)
    {
      if i >= |actual| || expected[i] != actual[i] {
        errors := errors + 1;
      }
    }
  }
}
