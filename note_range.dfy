/**
 * The playable note range of the game and the generation of a fresh
 * five-note sequence from random draws.
 *
 * Notes are MIDI numbers under the C4 = 60 numbering of the keyboard
 * widget, so the range C3..F4 is 48..65. The random source is not modelled:
 * every draw is an integer in [0, LAST_NOTE - FIRST_NOTE], which is what
 * `floor(random() * (last - first + 1))` yields for a random number in [0, 1).
 */
module NoteRange {

  /** MIDI number of C3, the lowest key on the keyboard. */
  const FIRST_NOTE: int := 48
  /** MIDI number of F4, the highest key on the keyboard. */
  const LAST_NOTE: int := 65
  /** Number of notes in every generated sequence. */
  const SEQUENCE_LENGTH: nat := 5

  predicate InRange(note: int) {
    FIRST_NOTE <= note <= LAST_NOTE
  }

  /** A draw is a valid outcome of the random source. */
  predicate ValidDraw(r: int) {
    0 <= r <= LAST_NOTE - FIRST_NOTE
  }

  /** The note chosen by one draw: the draw is an offset from the lowest key. */
  function NoteOfDraw(r: int): (note: int)
    requires ValidDraw(r)
    ensures InRange(note)
  {
    r + FIRST_NOTE
  }

  /**
   * The generation loop: one note per draw, pushed in draw order, exactly
   * SEQUENCE_LENGTH of them, each on the keyboard.
   */
  method GenerateSequence(draws: seq<int>) returns (notes: seq<int>)
    requires |draws| == SEQUENCE_LENGTH
    requires forall i :: 0 <= i < |draws| ==> ValidDraw(draws[i])
    ensures |notes| == SEQUENCE_LENGTH
    ensures forall i :: 0 <= i < |notes| ==> notes[i] == NoteOfDraw(draws[i])
    ensures forall i :: 0 <= i < |notes| ==> InRange(notes[i])
  {
    notes := [];
    for i := 0 to SEQUENCE_LENGTH
      invariant |notes| == i
      invariant forall j :: 0 <= j < i ==> notes[j] == NoteOfDraw(draws[j])
    {
      var randomNote := NoteOfDraw(draws[i]);
      notes := notes + [randomNote];
    }
  }
}
