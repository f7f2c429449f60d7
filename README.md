# Piano game: a verified model of the note-memory engine

The application shows a piano keyboard from C3 to F4. "Reproducción Aleatoria" generates five random keys
and plays them back: each key is highlighted for a moment, one key per second. "Tu Turno" starts the
user's turn. Keys played during the turn are recorded. "Comprobar Errores" scores the attempt by
counting mismatching positions. "Reiniciar Contador" sets the score back to zero.

This project models that engine in Dafny:

- `NoteRange` (`note_range.dfy`): the key range. It is MIDI 48..65 under the keyboard widget's
  C4 = 60 numbering. The module also turns one random draw into a key, and holds the five-step
  generation loop.
- `Highlights` (`highlights.dfy`): the list of highlighted keys and its two updates. Highlighting
  appends the key. Clearing a key filters out every occurrence of it.
- `Playback` (`playback.dfy`): the timers, modelled on a simulated clock. An `Event` is a firing time
  (ms after the click) plus the callback's effect. `Schedule` lists all callbacks of one playback in
  firing order. `Replay` applies callbacks in order. `FiredBy` selects the callbacks that are due at a
  given time. `PlaySequence` is the loop that starts one timer per key.
- `Scoring` (`scoring.dfy`): the mismatch count (`ErrorCount`), the counting loop (`CountErrors`)
  and the lemmas about the score.
- `PianoGame` (`game.dfy`): class `App`. It holds the five state fields (`highlightedNotes`,
  `randomSequence`, `userSequence`, `errorCount`, `userTurn`) and has one method per handler.
  Each method states the new value of every field. `Valid()` is the class invariant: the round's
  sequence is empty or has five in-range keys, and the score never exceeds five.

Randomness is a parameter. Each draw is an integer in `[0, 65 - 48]`, which is what flooring a random
number in `[0, 1)` times 18 yields. Timers are values: a handler that would start a timer returns the
`Event`, and the caller's simulated clock passes it to `App.Fire` when it is due.

The model follows the code in three places where a reader might expect otherwise:

- Timing uses the code's constants, 1000 ms between notes and 800 ms of highlight. The comments beside
  them in `src/App.js` (lines 44 and 55) say 500 ms and 300 ms.
- The highlighted keys form an ordered list with duplicates, not a set. A clearing timer removes every
  occurrence of its key, not one instance. This includes copies added by another playback.
- Nothing ends the user's turn. `userTurn` is set to true and never back to false, and neither
  comparing nor resetting the score changes it.

## Model

| member | source | states |
|---|---|---|
| NoteRange.NoteOfDraw | src/App.js:32 | every draw in range gives a key between the first (C3 = 48) and last (F4 = 65) keys inclusive |
| NoteRange.GenerateSequence | src/App.js:30-34 | the generation loop yields exactly 5 keys, key i from draw i (draw order), every key in range |
| Highlights.RemoveAll | src/App.js:54 | clearing a key: it no longer occurs; every other key keeps its membership and multiplicity; the length drops by the number of removed copies |
| Highlights.RemoveAllConcat | src/App.js:54 | the filter distributes over concatenation, so the kept keys stay in their original relative order |
| Highlights.RemoveAllAbsent | src/App.js:54 | clearing a key that is not highlighted changes nothing |
| Highlights.RemoveAllIdempotent | src/App.js:54 | clearing the same key twice equals clearing it once |
| Highlights.RemoveAllAppended | src/App.js:52-54 | highlighting a key and then clearing it is the same as only clearing it, including older copies |
| Highlights.RemoveEachFromNothing | src/App.js:53-54 | clearing keys from an empty highlight list leaves it empty |
| Highlights.RemoveEach | src/App.js:53-54 | after clearing each played key, a key remains iff it was highlighted before and was not played |
| Playback.Apply | src/App.js:52-54 | a highlight appends its key at the end and keeps all earlier entries; a clear leaves no copy of its key and never lengthens the list |
| Playback.Schedule | src/App.js:41-44 | one playback of n keys fires exactly 2n callbacks |
| Playback.SchedulePrefix | src/App.js:41-44 | the callbacks of the first i keys are the first 2i callbacks of the playback |
| Playback.ScheduleAt | src/App.js:41-55 | key i is highlighted at i*1000 ms and cleared at i*1000+800 ms |
| Playback.ScheduleTime | src/App.js:41-55 | callback j fires at (j/2)*1000 + (j%2)*800 ms |
| Playback.ScheduleStrictlyOrdered | src/App.js:41-55 | within one playback, callback times strictly increase, so no two callbacks coincide |
| Playback.ClearBeforeNextHighlight | src/App.js:41-55 | key i is cleared strictly before key i+1 is highlighted, even when they are the same key |
| Playback.ReplaySchedule | src/App.js:41-55 | a complete playback started over leftover highlights ends with exactly the leftovers that were not played |
| Playback.PlaybackEndsClear | src/App.js:41-55 | a playback started on a clear keyboard ends with a clear keyboard |
| Playback.FiredBy | src/App.js:42-53 | the callbacks fired by time t are exactly those whose time is at most t |
| Playback.FiredByPrefix | src/App.js:42-53 | if the first m callbacks are due by t and the rest are later, exactly the first m have fired |
| Playback.ReplayBeforeNote | src/App.js:41-55 | after the first 2i callbacks of a playback on a clear keyboard, nothing is highlighted |
| Playback.ReplayAtNote | src/App.js:41-55 | one callback later, key i and only key i is highlighted |
| Playback.HighlightWindow | src/App.js:41-55 | from i*1000 to before i*1000+800, key i and only key i is highlighted |
| Playback.ClearWindow | src/App.js:41-55 | from i*1000+800 until key i+1 starts, or forever after the last key, nothing is highlighted |
| Playback.PlaySequence | src/App.js:40-46 | the playback loop starts one timer per key, key i due at i*1000; these are the highlight callbacks of the schedule, and each clear callback is the follow-up its highlight starts |
| Scoring.ErrorsBefore | src/App.js:71-75 | the mismatches among the first k positions number at most k |
| Scoring.ErrorCount | src/App.js:69-77 | the score is at most the length of the generated sequence |
| Scoring.ErrorCountIsMismatchCount | src/App.js:71-75 | the score is the number of positions i below the sequence length where the attempt is too short or differs |
| Scoring.ErrorCountZeroIff | src/App.js:71-75 | the score is zero iff the attempt begins with the whole generated sequence |
| Scoring.IdenticalScoresZero | src/App.js:71-75 | an exact reproduction scores zero |
| Scoring.ExtraNotesIgnored | src/App.js:71 | keys played past the length of the generated sequence do not change the score |
| Scoring.MissingNotesAreErrors | src/App.js:71-72 | every position the attempt does not reach counts as one error |
| Scoring.WorkedExamples | src/App.js:69-77 | [60,62,64,65,67] scores 0 against itself, 1 against [60,99,64,65,67], and 3 against [60,62] |
| Scoring.CountErrors | src/App.js:70-75 | the counting loop returns the score |
| PianoGame.App.constructor | src/App.js:23-27 | initial state: no highlights, empty sequences, score 0, not the user's turn |
| PianoGame.App.PlayRandomSequence | src/App.js:29-38 | the round's sequence becomes the 5 keys drawn, in draw order, and the playback timers for exactly that sequence are returned; nothing else changes |
| PianoGame.App.PlayNoteAndHighlight | src/App.js:48-56 | appends the key to the highlights and returns a clear timer due 800 ms after now; nothing else changes |
| PianoGame.App.ClearHighlight | src/App.js:53-54 | removes every copy of the key from the highlights and keeps every other key with its multiplicity; nothing else changes |
| PianoGame.App.Fire | src/App.js:42-54 | firing a timer applies its callback's effect to the highlights and returns the timers that callback starts |
| PianoGame.App.HandleUserTurn | src/App.js:58-61 | afterwards it is the user's turn and the attempt is empty; the round's sequence, highlights and score are unchanged |
| PianoGame.App.HandleUserSequence | src/App.js:63-67 | during the turn the key is appended to the attempt; otherwise the attempt is unchanged; the turn flag never changes |
| PianoGame.App.CompareSequences | src/App.js:69-77 | the score is overwritten with the mismatch count of the current attempt; the turn does not end |
| PianoGame.App.ResetErrorCount | src/App.js:79-81 | the score becomes 0 whatever it was; the other four fields are unchanged |

## Left out

- Rendering, buttons and styling (src/App.js:83-121): presentation with no game logic.
- `ResponsivePiano`, the dimensions and soundfont providers and the audio context (src/App.js:9-10, 124-150):
  audio and layout live in external libraries. Sounding a note is not modelled; only its highlight is.
  `DimensionsProvider` and `SoundfontProvider` are not part of this model.
- Keyboard shortcuts and `MidiNumbers.fromNote` (src/App.js:2, 13-20) are library calls. The two range
  ends are constants, 48 and 65.
- `Math.random` and `Math.floor` (src/App.js:32) involve floating point. They are replaced by an integer
  draw that the caller supplies. The model does not state that draws are uniform.
- Wall-clock timers (src/App.js:42, 53) are replaced by `Event` values on a simulated clock. Concurrency
  between timers is not modelled.
- Playback.HighlightWindow, Playback.ClearWindow: both state what is highlighted at a given time for a
  single playback started on a clear keyboard. Two playbacks whose timers interleave are covered one
  callback at a time by `App.Fire` and `RemoveAll`, not by a timeline lemma.
- React's asynchronous state batching and stale closures are not modelled. For example,
  `handleUserSequence` reads `userTurn` from the render it was created in. Each handler acts on the
  current state.
- The `console.log` call (src/App.js:50) is output only.
