/**
 * The game engine: the five pieces of state of the application component
 * and the handlers that overwrite them.
 *
 * Timers are explicit: a handler that would start a timer returns the
 * Event instead, and the simulated clock hands each Event back to Fire
 * when its time comes. Each handler acts on the current state.
 */
module PianoGame {
  import opened NoteRange
  import opened Highlights
  import opened Playback
  import opened Scoring

  class App {
    /** The keys shown as highlighted, in the order they were highlighted. */
    var highlightedNotes: seq<int>
    /** The sequence of the current round. */
    var randomSequence: seq<int>
    /** What the user has played during the current turn. */
    var userSequence: seq<int>
    /** The score of the last comparison. */
    var errorCount: nat
    /** Whether the keyboard's notes are being recorded. */
    var userTurn: bool

    /** A round's sequence is either not generated yet or five keys of the keyboard; a score never exceeds five. */
    ghost predicate Valid()
      reads this
    {
      && (randomSequence == [] || |randomSequence| == SEQUENCE_LENGTH)
      && (forall i :: 0 <= i < |randomSequence| ==> InRange(randomSequence[i]))
      && errorCount <= SEQUENCE_LENGTH
    }

    constructor ()
      ensures Valid()
      ensures highlightedNotes == [] && randomSequence == [] && userSequence == []
      ensures errorCount == 0 && !userTurn
    {
      highlightedNotes := [];
      randomSequence := [];
      userSequence := [];
      errorCount := 0;
      userTurn := false;
    }

    /**
     * Generates a new sequence from five draws, makes it the round's
     * sequence, then starts its playback; returns the playback's timers.
     */
    method PlayRandomSequence(draws: seq<int>) returns (timers: seq<Event>)
      requires Valid()
      requires |draws| == SEQUENCE_LENGTH
      requires forall i :: 0 <= i < |draws| ==> ValidDraw(draws[i])
      modifies this
      ensures Valid()
      ensures |randomSequence| == SEQUENCE_LENGTH
      ensures forall i :: 0 <= i < SEQUENCE_LENGTH ==> randomSequence[i] == NoteOfDraw(draws[i])
      ensures |timers| == SEQUENCE_LENGTH
      ensures forall i :: 0 <= i < SEQUENCE_LENGTH ==>
                timers[i] == Event(i * NOTE_SPACING, Highlight(randomSequence[i])) && timers[i] == Schedule(randomSequence)[2 * i]
      ensures highlightedNotes == old(highlightedNotes) && userSequence == old(userSequence)
      ensures errorCount == old(errorCount) && userTurn == old(userTurn)
    {
      var newSequence := GenerateSequence(draws);
      randomSequence := newSequence;
      timers := PlaySequence(newSequence);
    }

    /**
     * The callback of a playback timer, firing at `now`: highlights the
     * note and returns the timer that clears it.
     */
    method PlayNoteAndHighlight(midiNumber: int, now: nat) returns (clearTimer: Event)
      requires Valid()
      modifies this
      ensures Valid()
      ensures highlightedNotes == old(highlightedNotes) + [midiNumber]
      ensures clearTimer == Event(now + HIGHLIGHT_DURATION, Unhighlight(midiNumber))
      ensures randomSequence == old(randomSequence) && userSequence == old(userSequence)
      ensures errorCount == old(errorCount) && userTurn == old(userTurn)
    {
      highlightedNotes := highlightedNotes + [midiNumber];
      clearTimer := FollowUp(midiNumber, now);
    }

    /** The callback of a clearing timer: every occurrence of the note stops being highlighted. */
    method ClearHighlight(midiNumber: int)
      requires Valid()
      modifies this
      ensures Valid()
      ensures highlightedNotes == RemoveAll(old(highlightedNotes), midiNumber)
      ensures midiNumber !in highlightedNotes
      ensures forall x :: x != midiNumber ==> multiset(highlightedNotes)[x] == multiset(old(highlightedNotes))[x]
      ensures randomSequence == old(randomSequence) && userSequence == old(userSequence)
      ensures errorCount == old(errorCount) && userTurn == old(userTurn)
    {
      highlightedNotes := RemoveAll(highlightedNotes, midiNumber);
    }

    /** The simulated clock fires one timer; returns the timers its callback starts. */
    method Fire(timer: Event) returns (started: seq<Event>)
      requires Valid()
      modifies this
      ensures Valid()
      ensures highlightedNotes == Apply(old(highlightedNotes), timer.effect)
      ensures started == if timer.effect.Highlight? then [FollowUp(timer.effect.note, timer.time)] else []
      ensures randomSequence == old(randomSequence) && userSequence == old(userSequence)
      ensures errorCount == old(errorCount) && userTurn == old(userTurn)
    {
      match timer.effect
      case Highlight(n) =>
        var clearTimer := PlayNoteAndHighlight(n, timer.time);
        started := [clearTimer];
      case Unhighlight(n) =>
        ClearHighlight(n);
        started := [];
    }

    /** Starts the user's turn with an empty attempt. */
    method HandleUserTurn()
      requires Valid()
      modifies this
      ensures Valid()
      ensures userTurn && userSequence == []
      ensures highlightedNotes == old(highlightedNotes) && randomSequence == old(randomSequence)
      ensures errorCount == old(errorCount)
    {
      userTurn := true;
      userSequence := [];
    }

    /** A key played on the keyboard: recorded only during the user's turn. */
    method HandleUserSequence(midiNumber: int)
      requires Valid()
      modifies this
      ensures Valid()
      ensures userTurn ==> userSequence == old(userSequence) + [midiNumber]
      ensures !userTurn ==> userSequence == old(userSequence)
      ensures highlightedNotes == old(highlightedNotes) && randomSequence == old(randomSequence)
      ensures errorCount == old(errorCount) && userTurn == old(userTurn)
    {
      if userTurn {
        userSequence := userSequence + [midiNumber];
      }
    }

    /** Scores the attempt, overwriting the previous score. The turn does not end. */
    method CompareSequences()
      requires Valid()
      modifies this
      ensures Valid()
      ensures errorCount == ErrorCount(randomSequence, userSequence)
      ensures highlightedNotes == old(highlightedNotes) && randomSequence == old(randomSequence)
      ensures userSequence == old(userSequence) && userTurn == old(userTurn)
    {
      var errors := CountErrors(randomSequence, userSequence);
      errorCount := errors;
    }

    /** Sets the score back to zero. */
    method ResetErrorCount()
      requires Valid()
      modifies this
      ensures Valid()
      ensures errorCount == 0
      ensures highlightedNotes == old(highlightedNotes) && randomSequence == old(randomSequence)
      ensures userSequence == old(userSequence) && userTurn == old(userTurn)
    {
      errorCount := 0;
    }
  }
}
