/**
 * The playback engine (teleprompter/src/playback/engine.ts): one interval
 * timer that, once per four-beat measure, moves the session to its next
 * window and shows it, and stops playback at the last window. The timer is
 * an abstract handle; the set of handles the timer service still runs is a
 * ghost field.
 */
module Engine {
  import opened Wrappers
  import Store
  import Fragmenter

  const BeatsPerWindow := 4
  const MsPerMinute := 60000

  /** The period of the interval timer, in milliseconds, for a tempo in beats per minute. */
  function IntervalMs(bpm: int): (ms: real)
    requires bpm != 0
    ensures ms * (bpm as real) == (MsPerMinute * BeatsPerWindow) as real
    ensures Store.MinBpm <= bpm <= Store.MaxBpm ==> 800.0 <= ms <= 6000.0
  {
    var msPerBeat := MsPerMinute as real / bpm as real;
    msPerBeat * BeatsPerWindow as real
  }

  /** A running interval timer: its handle and the period it was started with. */
  datatype Timer = Timer(handle: nat, periodMs: real)

  /** The window index after `n` ticks from `index` over `count` windows. */
  function IndexAfterTicks(index: int, count: nat, n: nat): (r: int)
    decreases n
  {
    if n == 0 || index >= count - 1 then index else IndexAfterTicks(index + 1, count, n - 1)
  }

  /** The windows shown by `n` ticks from `index`, in order. */
  function ShownByTicks(windows: seq<string>, index: nat, n: nat): (shown: seq<string>)
    decreases n
  {
    if n == 0 || index >= |windows| - 1 then [] else [windows[index + 1]] + ShownByTicks(windows, index + 1, n - 1)
  }

  /**
   * Ticks only move forward, one window at a time, and stop at the last
   * window: after `n` ticks from a valid index the index is the smaller of
   * `index + n` and the last index, and exactly the windows in between were
   * shown, each once, in order.
   */
  lemma {:induction false} TicksAdvance(windows: seq<string>, index: nat, n: nat)
    requires index < |windows|
    ensures IndexAfterTicks(index, |windows|, n) == Fragmenter.Min(index + n, |windows| - 1)
    ensures ShownByTicks(windows, index, n) == windows[index + 1..Fragmenter.Min(index + n, |windows| - 1) + 1]
    decreases n
  {
    if n > 0 && index < |windows| - 1 {
      TicksAdvance(windows, index + 1, n - 1);
      assert windows[index + 1..Fragmenter.Min(index + n, |windows| - 1) + 1]
          == [windows[index + 1]] + windows[index + 2..Fragmenter.Min(index + n, |windows| - 1) + 1];
    }
  }

  class PlaybackEngine {
    var timerId: Option<Timer>
    var nextHandle: nat
    /** Handles of the interval timers that have been started and not cleared. */
    ghost var live: set<nat>

    /** The only live timer is the one `timerId` holds, so at most one timer runs. */
    ghost predicate Valid()
      reads this
    {
      (timerId.None? ==> live == {}) &&
      (timerId.Some? ==> live == {timerId.value.handle} && timerId.value.handle < nextHandle)
    }

    constructor ()
      ensures Valid() && timerId == None && live == {}
    {
      timerId := None;
      nextHandle := 0;
      live := {};
    }

    /** `start`: a no-op while a timer exists; otherwise one new timer with the period for the current tempo. */
    method Start(s: Store.Session)
      requires Valid() && s.bpm != 0
      modifies this
      ensures Valid()
      ensures |live| <= 1
      ensures old(timerId).Some? ==> timerId == old(timerId) && live == old(live)
      ensures old(timerId).None? ==>
        timerId == Some(Timer(old(nextHandle), IntervalMs(s.bpm))) && live == {old(nextHandle)}
    {
      if timerId.Some? {
        return;
      }
      var t := Timer(nextHandle, IntervalMs(s.bpm));
      nextHandle := nextHandle + 1;
      timerId := Some(t);
      live := live + {t.handle};
    }

    /** `stop`: clears the timer if there is one; with none it changes nothing. */
    method Stop()
      requires Valid()
      modifies this
      ensures Valid()
      ensures timerId == None && live == {}
      ensures nextHandle == old(nextHandle)
    {
      if timerId.Some? {
        live := live - {timerId.value.handle};
        timerId := None;
      }
    }

    /**
     * The body of the effect `initPlaybackEngine` installs, run after every
     * change of `isPlaying` or `bpm`: stop, then start again when playing.
     * Afterwards a timer runs exactly when the session is playing, at the
     * current tempo.
     */
    method Effect(s: Store.Session)
      requires Valid() && s.Valid()
      modifies this
      ensures Valid()
      ensures timerId.Some? <==> s.isPlaying
      ensures s.isPlaying ==> timerId.value.periodMs == IntervalMs(s.bpm) && live == {timerId.value.handle}
      ensures !s.isPlaying ==> live == {}
    {
      Stop();
      if s.isPlaying {
        Start(s);
      }
    }

    /**
     * The interval callback: before the last window it moves to the next one
     * and returns it as the text to show; at the last window (or with no
     * windows) it stops playback and shows nothing.
     */
    method Tick(s: Store.Session) returns (shown: Option<string>)
      requires s.Valid()
      modifies s`windowIndex, s`isPlaying
      ensures s.Valid()
      ensures old(s.windowIndex) < |s.windows| - 1 ==>
        s.windowIndex == old(s.windowIndex) + 1 && shown == Some(s.windows[s.windowIndex]) &&
        s.isPlaying == old(s.isPlaying)
      ensures old(s.windowIndex) >= |s.windows| - 1 ==>
        s.windowIndex == old(s.windowIndex) && shown == None && !s.isPlaying
      ensures s.windowIndex == IndexAfterTicks(old(s.windowIndex), |s.windows|, 1)
      ensures shown.Some? ==> [shown.value] == ShownByTicks(s.windows, old(s.windowIndex), 1)
    {
      var idx := s.windowIndex;
      var wins := s.windows;
      if idx < |wins| - 1 {
        s.windowIndex := idx + 1;
        shown := Some(wins[idx + 1]);
      } else {
        s.isPlaying := false;
        shown := None;
      }
    }

    /**
     * One firing of the live timer followed by the effect that reacts to
     * `isPlaying`: at the last window the timer is cleared.
     */
    method OnInterval(s: Store.Session) returns (shown: Option<string>)
      requires Valid() && s.Valid() && timerId.Some? && s.isPlaying
      modifies this, s`windowIndex, s`isPlaying
      ensures Valid() && s.Valid()
      ensures shown.None? <==> old(s.windowIndex) >= |s.windows| - 1
      ensures shown.None? ==> timerId == None && live == {} && !s.isPlaying
      ensures shown.Some? ==> timerId == old(timerId) && live == old(live) && s.isPlaying
    {
      shown := Tick(s);
      if !s.isPlaying {
        Effect(s);
      }
    }
  }
}
