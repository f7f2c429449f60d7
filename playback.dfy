/**
 * Timed playback of a sequence on a simulated clock.
 *
 * Each one-shot timer of the game is an Event: the time it fires at, in
 * milliseconds from the moment playback was requested, and the effect its
 * callback has on the highlighted keys. Playing a sequence starts one timer
 * per note, the note at index i at i * NOTE_SPACING; when such a timer fires
 * it highlights its note and starts a second timer that clears that note
 * HIGHLIGHT_DURATION later. Because HIGHLIGHT_DURATION < NOTE_SPACING, the
 * whole playback is the strictly time-ordered Schedule below.
 */
module Playback {
  import opened Highlights

  /** Delay between the starts of two consecutive notes, in milliseconds. */
  const NOTE_SPACING: nat := 1000
  /** How long a played note stays highlighted, in milliseconds. */
  const HIGHLIGHT_DURATION: nat := 800

  datatype Effect = Highlight(note: int) | Unhighlight(note: int)

  datatype Event = Event(time: nat, effect: Effect)

  /** What a timer callback does to the list of highlighted keys. */
  function Apply(highlighted: seq<int>, effect: Effect): (r: seq<int>)
    ensures effect.Highlight? ==> |r| == |highlighted| + 1 && r[..|highlighted|] == highlighted && r[|highlighted|] == effect.note
    ensures effect.Unhighlight? ==> effect.note !in r && |r| <= |highlighted|
  {
    match effect
    case Highlight(n) => highlighted + [n]
    case Unhighlight(n) => RemoveAll(highlighted, n)
  }

  /** The highlighted keys after `events` have fired, one after the other, starting from `highlighted`. */
  function Replay(highlighted: seq<int>, events: seq<Event>): seq<int>
    decreases |events|
  {
    if events == [] then highlighted
    else Replay(Apply(highlighted, events[0].effect), events[1..])
  }

  lemma {:induction false} ReplayConcat(highlighted: seq<int>, a: seq<Event>, b: seq<Event>)
    ensures Replay(highlighted, a + b) == Replay(Replay(highlighted, a), b)
    decreases |a|
  {
    if a != [] {
      var next := Apply(highlighted, a[0].effect);
      assert (a + b)[0] == a[0];
      assert (a + b)[1..] == a[1..] + b;
      assert Replay(highlighted, a + b) == Replay(next, a[1..] + b);
      ReplayConcat(next, a[1..], b);
    } else {
      assert a + b == b;
    }
  }

  /** The clearing timer that highlighting `note` at time `now` starts. */
  function FollowUp(note: int, now: nat): Event {
    Event(now + HIGHLIGHT_DURATION, Unhighlight(note))
  }

  /** Every timer callback of one playback of `notes`, in the order they fire. */
  function Schedule(notes: seq<int>): (r: seq<Event>)
    ensures |r| == 2 * |notes|
  {
    if notes == [] then []
    else
      var i := |notes| - 1;
      Schedule(notes[..i]) + [Event(i * NOTE_SPACING, Highlight(notes[i])), FollowUp(notes[i], i * NOTE_SPACING)]
  }

  /** The schedule of a prefix of the sequence is the matching prefix of the schedule. */
  lemma {:induction false} SchedulePrefix(notes: seq<int>, i: nat)
    requires i <= |notes|
    ensures Schedule(notes)[..2 * i] == Schedule(notes[..i])
    decreases |notes|
  {
    if i == |notes| {
      assert notes[..i] == notes;
    } else {
      var last := |notes| - 1;
      var front := notes[..last];
      assert Schedule(notes)[..2 * i] == Schedule(front)[..2 * i];
      SchedulePrefix(front, i);
      assert front[..i] == notes[..i];
    }
  }

  /**
   * The note at index i is highlighted at i * NOTE_SPACING and cleared at
   * i * NOTE_SPACING + HIGHLIGHT_DURATION.
   */
  lemma {:induction false} ScheduleAt(notes: seq<int>, i: nat)
    requires i < |notes|
    ensures Schedule(notes)[2 * i] == Event(i * NOTE_SPACING, Highlight(notes[i]))
    ensures Schedule(notes)[2 * i + 1] == Event(i * NOTE_SPACING + HIGHLIGHT_DURATION, Unhighlight(notes[i]))
  {
    SchedulePrefix(notes, i + 1);
    var prefix := notes[..i + 1];
    assert prefix[..i] == notes[..i];
    assert Schedule(prefix)[2 * i] == Schedule(notes)[..2 * i + 2][2 * i];
    assert Schedule(prefix)[2 * i + 1] == Schedule(notes)[..2 * i + 2][2 * i + 1];
  }

  /** The firing time of the callback at position j of any schedule. */
  lemma {:induction false} ScheduleTime(notes: seq<int>, j: nat)
    requires j < |Schedule(notes)|
    ensures Schedule(notes)[j].time == (j / 2) * NOTE_SPACING + (j % 2) * HIGHLIGHT_DURATION
  {
    ScheduleAt(notes, j / 2);
  }

  /** The schedule fires in strictly increasing time: no two callbacks of one playback coincide. */
  lemma ScheduleStrictlyOrdered(notes: seq<int>)
    ensures forall j, k :: 0 <= j < k < |Schedule(notes)| ==> Schedule(notes)[j].time < Schedule(notes)[k].time
  {
    forall j, k | 0 <= j < k < |Schedule(notes)|
      ensures Schedule(notes)[j].time < Schedule(notes)[k].time
    {
      ScheduleTime(notes, j);
      ScheduleTime(notes, k);
      if j / 2 < k / 2 {
        assert (j / 2) * NOTE_SPACING + NOTE_SPACING <= (k / 2) * NOTE_SPACING;
      }
    }
  }

  /**
   * The clearing of note i fires before the highlighting of note i + 1, even
   * when the two notes are the same key.
   */
  lemma {:induction false} ClearBeforeNextHighlight(notes: seq<int>, i: nat)
    requires i + 1 < |notes|
    ensures Schedule(notes)[2 * i + 1].time < Schedule(notes)[2 * i + 2].time
    ensures Schedule(notes)[2 * i + 1].effect == Unhighlight(notes[i])
    ensures Schedule(notes)[2 * i + 2].effect == Highlight(notes[i + 1])
  {
    ScheduleAt(notes, i);
    ScheduleAt(notes, i + 1);
  }

  /**
   * A complete playback, started while other keys were still highlighted,
   * clears exactly the keys it played and keeps the others.
   */
  lemma {:induction false} ReplaySchedule(highlighted: seq<int>, notes: seq<int>)
    ensures Replay(highlighted, Schedule(notes)) == RemoveEach(highlighted, notes)
    decreases |notes|
  {
    if notes != [] {
      var last := |notes| - 1;
      var front := notes[..last];
      var note := notes[last];
      var pair := [Event(last * NOTE_SPACING, Highlight(note)), FollowUp(note, last * NOTE_SPACING)];
      assert Schedule(notes) == Schedule(front) + pair;
      ReplayConcat(highlighted, Schedule(front), pair);
      ReplaySchedule(highlighted, front);
      var mid := RemoveEach(highlighted, front);
      assert Replay(mid, pair) == RemoveAll(mid + [note], note) by {
        assert Replay(mid, pair) == Replay(mid + [note], pair[1..]);
        assert Replay(mid + [note], pair[1..]) == Replay(RemoveAll(mid + [note], note), []);
      }
      RemoveAllAppended(mid, note);
      assert RemoveEach(highlighted, notes) == RemoveAll(mid, note);
    }
  }

  /** A playback from a clear keyboard ends with a clear keyboard. */
  lemma PlaybackEndsClear(notes: seq<int>)
    ensures Replay([], Schedule(notes)) == []
  {
    ReplaySchedule([], notes);
    RemoveEachFromNothing(notes);
  }

  /** The callbacks among `events` whose time has come by time `t`, in order. */
  function FiredBy(events: seq<Event>, t: nat): (r: seq<Event>)
    ensures forall e :: e in r ==> e in events && e.time <= t
    ensures forall e :: e in events && e.time <= t ==> e in r
  {
    if events == [] then []
    else if events[0].time <= t then [events[0]] + FiredBy(events[1..], t)
    else FiredBy(events[1..], t)
  }

  /** When the first m events are due by t and the rest are not, exactly those m have fired. */
  lemma {:induction false} FiredByPrefix(events: seq<Event>, t: nat, m: nat)
    requires m <= |events|
    requires forall j :: 0 <= j < m ==> events[j].time <= t
    requires forall j :: m <= j < |events| ==> events[j].time > t
    ensures FiredBy(events, t) == events[..m]
  {
    if events != [] {
      var rest := events[1..];
      if m == 0 {
        assert events[0].time > t;
        assert forall j :: 0 <= j < |rest| ==> rest[j] == events[j + 1];
        FiredByPrefix(rest, t, 0);
      } else {
        assert forall j :: 0 <= j < |rest| ==> rest[j] == events[j + 1];
        FiredByPrefix(rest, t, m - 1);
        assert events[..m] == [events[0]] + rest[..m - 1];
      }
    }
  }

  /** The keys highlighted at time t of a playback of `notes` started on a clear keyboard. */
  function HighlightedAt(notes: seq<int>, t: nat): seq<int>
  {
    Replay([], FiredBy(Schedule(notes), t))
  }

  /** The first m callbacks of the schedule are exactly those due by t. */
  lemma ScheduleFiredBy(notes: seq<int>, t: nat, m: nat)
    requires m <= 2 * |notes|
    requires forall j :: 0 <= j < m ==> (j / 2) * NOTE_SPACING + (j % 2) * HIGHLIGHT_DURATION <= t
    requires forall j :: m <= j < 2 * |notes| ==> (j / 2) * NOTE_SPACING + (j % 2) * HIGHLIGHT_DURATION > t
    ensures FiredBy(Schedule(notes), t) == Schedule(notes)[..m]
  {
    forall j | 0 <= j < |Schedule(notes)| {
      ScheduleTime(notes, j);
    }
    FiredByPrefix(Schedule(notes), t, m);
  }

  /** After the first 2i callbacks of a playback on a clear keyboard, nothing is highlighted. */
  lemma ReplayBeforeNote(notes: seq<int>, i: nat)
    requires i <= |notes|
    ensures Replay([], Schedule(notes)[..2 * i]) == []
  {
    SchedulePrefix(notes, i);
    PlaybackEndsClear(notes[..i]);
  }

  /** After one more callback, note i and only note i is highlighted. */
  lemma ReplayAtNote(notes: seq<int>, i: nat)
    requires i < |notes|
    ensures Replay([], Schedule(notes)[..2 * i + 1]) == [notes[i]]
  {
    var events := Schedule(notes);
    ReplayBeforeNote(notes, i);
    ScheduleAt(notes, i);
    TakeOneMore(events, 2 * i);
    ReplayConcat([], events[..2 * i], [events[2 * i]]);
    ReplayOne([], events[2 * i]);
  }

  lemma ReplayOne(highlighted: seq<int>, e: Event)
    ensures Replay(highlighted, [e]) == Apply(highlighted, e.effect)
  {
    assert [e][1..] == [];
  }

  lemma TakeOneMore<T>(s: seq<T>, k: nat)
    requires k < |s|
    ensures s[..k + 1] == s[..k] + [s[k]]
  {
  }

  /**
   * From i * NOTE_SPACING until HIGHLIGHT_DURATION later, note i and only
   * note i is highlighted.
   */
  lemma HighlightWindow(notes: seq<int>, i: nat, t: nat)
    requires i < |notes|
    requires i * NOTE_SPACING <= t < i * NOTE_SPACING + HIGHLIGHT_DURATION
    ensures HighlightedAt(notes, t) == [notes[i]]
  {
    forall j | 0 <= j < 2 * i + 1
      ensures (j / 2) * NOTE_SPACING + (j % 2) * HIGHLIGHT_DURATION <= t
    {
      assert j / 2 <= i;
      if j / 2 < i {
        assert (j / 2) * NOTE_SPACING + NOTE_SPACING <= i * NOTE_SPACING;
      }
    }
    forall j | 2 * i + 1 <= j < 2 * |notes|
      ensures (j / 2) * NOTE_SPACING + (j % 2) * HIGHLIGHT_DURATION > t
    {
      if j / 2 > i {
        assert i * NOTE_SPACING + NOTE_SPACING <= (j / 2) * NOTE_SPACING;
      }
    }
    ScheduleFiredBy(notes, t, 2 * i + 1);
    ReplayAtNote(notes, i);
  }

  /**
   * Once note i has been cleared, and until note i + 1 starts (or for ever
   * after the last note), no key is highlighted.
   */
  lemma ClearWindow(notes: seq<int>, i: nat, t: nat)
    requires i < |notes|
    requires i * NOTE_SPACING + HIGHLIGHT_DURATION <= t
    requires i + 1 < |notes| ==> t < (i + 1) * NOTE_SPACING
    ensures HighlightedAt(notes, t) == []
  {
    forall j | 0 <= j < 2 * i + 2
      ensures (j / 2) * NOTE_SPACING + (j % 2) * HIGHLIGHT_DURATION <= t
    {
      assert j / 2 <= i;
      if j / 2 < i {
        assert (j / 2) * NOTE_SPACING + NOTE_SPACING <= i * NOTE_SPACING;
      }
    }
    forall j | 2 * i + 2 <= j < 2 * |notes|
      ensures (j / 2) * NOTE_SPACING + (j % 2) * HIGHLIGHT_DURATION > t
    {
      assert j / 2 >= i + 1;
      assert (i + 1) * NOTE_SPACING <= (j / 2) * NOTE_SPACING;
    }
    ScheduleFiredBy(notes, t, 2 * i + 2);
    if i + 1 < |notes| {
      ReplayBeforeNote(notes, i + 1);
    } else {
      assert Schedule(notes)[..2 * i + 2] == Schedule(notes);
      PlaybackEndsClear(notes);
    }
  }

  /**
   * The playback loop: one timer per note, the note at index i due at
   * i * NOTE_SPACING. These are the highlighting callbacks of the Schedule;
   * each clearing callback in between is the FollowUp its highlight starts.
   */
  method PlaySequence(notes: seq<int>) returns (timers: seq<Event>)
    ensures |timers| == |notes|
    ensures forall i :: 0 <= i < |notes| ==> timers[i] == Event(i * NOTE_SPACING, Highlight(notes[i]))
    ensures forall i :: 0 <= i < |notes| ==>
              Schedule(notes)[2 * i] == timers[i] && Schedule(notes)[2 * i + 1] == FollowUp(notes[i], timers[i].time)
  {
    timers := [];
    for index := 0 to |notes|
      invariant |timers| == index
      invariant forall i :: 0 <= i < index ==> timers[i] == Event(i * NOTE_SPACING, Highlight(notes[i]))
    {
      timers := timers + [Event(index * NOTE_SPACING, Highlight(notes[index]))];
    }
    forall i | 0 <= i < |notes|
      ensures Schedule(notes)[2 * i] == timers[i] && Schedule(notes)[2 * i + 1] == FollowUp(notes[i], timers[i].time)
    {
      ScheduleAt(notes, i);
    }
  }
}
