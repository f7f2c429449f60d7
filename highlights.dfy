/**
 * The list of highlighted keys and the two updates the timers apply to it.
 *
 * The list is an ordered list, not a set: highlighting appends the note at
 * the end (duplicates included), and clearing a note filters out EVERY
 * occurrence of that note value, whichever playback added it.
 */
module Highlights {

  /** The filter update: `notes` without any occurrence of `n`, in the original order. */
  function RemoveAll(notes: seq<int>, n: int): (r: seq<int>)
    ensures forall x :: x in r <==> x in notes && x != n
    ensures forall x :: x != n ==> multiset(r)[x] == multiset(notes)[x]
    ensures |r| == |notes| - multiset(notes)[n]
  {
    if notes == [] then []
    else
      assert notes == [notes[0]] + notes[1..];
      if notes[0] == n then RemoveAll(notes[1..], n)
      else [notes[0]] + RemoveAll(notes[1..], n)
  }

  /** Filtering distributes over concatenation, so the relative order of the kept notes is the original one. */
  lemma {:induction false} RemoveAllConcat(a: seq<int>, b: seq<int>, n: int)
    ensures RemoveAll(a + b, n) == RemoveAll(a, n) + RemoveAll(b, n)
  {
    if a != [] {
      assert (a + b)[0] == a[0];
      assert (a + b)[1..] == a[1..] + b;
      RemoveAllConcat(a[1..], b, n);
      if a[0] != n {
        calc {
          RemoveAll(a + b, n);
          [a[0]] + RemoveAll(a[1..] + b, n);
          [a[0]] + (RemoveAll(a[1..], n) + RemoveAll(b, n));
          ([a[0]] + RemoveAll(a[1..], n)) + RemoveAll(b, n);
        }
      }
    } else {
      assert a + b == b;
    }
  }

  /** Clearing a note that is not highlighted changes nothing. */
  lemma {:induction false} RemoveAllAbsent(notes: seq<int>, n: int)
    requires n !in notes
    ensures RemoveAll(notes, n) == notes
  {
    if notes != [] {
      assert notes[0] != n;
      assert n !in notes[1..];
      RemoveAllAbsent(notes[1..], n);
    }
  }

  /** Clearing the same note twice is the same as clearing it once. */
  lemma {:induction false} RemoveAllIdempotent(notes: seq<int>, n: int)
    ensures RemoveAll(RemoveAll(notes, n), n) == RemoveAll(notes, n)
  {
    RemoveAllAbsent(RemoveAll(notes, n), n);
  }

  /** Highlighting a note and then clearing it leaves no copy of it, older copies included. */
  lemma RemoveAllAppended(notes: seq<int>, n: int)
    ensures RemoveAll(notes + [n], n) == RemoveAll(notes, n)
  {
    RemoveAllConcat(notes, [n], n);
    assert RemoveAll([n], n) == RemoveAll([], n);
  }

  /**
   * `notes` after every note of `played` has been cleared, in play order:
   * what is left of the highlights once all clearing timers of a playback
   * of `played` have fired.
   */
  function RemoveEach(notes: seq<int>, played: seq<int>): (r: seq<int>)
    ensures forall x :: x in r <==> x in notes && x !in played
    decreases |played|
  {
    if played == [] then notes
    else
      var last := |played| - 1;
      assert forall x :: x in played <==> x in played[..last] || x == played[last];
      RemoveAll(RemoveEach(notes, played[..last]), played[last])
  }

  /** Clearing keys from an empty list leaves it empty. */
  lemma {:induction false} RemoveEachFromNothing(played: seq<int>)
    ensures RemoveEach([], played) == []
    decreases |played|
  {
    if played != [] {
      RemoveEachFromNothing(played[..|played| - 1]);
    }
  }
}
