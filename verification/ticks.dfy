/**
 The tick-unit conversions of Tone.js's `TicksClass`.

 A `TicksClass` value resolves every time expression to a count of transport
 ticks. Its base class splits an expression into amounts of beats, seconds and
 ticks and asks the subclass for three primitives that land each of them in
 ticks; the class also reads its own value back as ticks or as seconds.

 Every conversion is a pure function of a tempo snapshot (the transport's
 beats per minute and pulses per quarter note) and one input number. The
 arithmetic is exact: JavaScript doubles are modelled as `real`, and
 `Math.floor` as `real.Floor`.
 */
module Ticks {

  /** The tempo snapshot a conversion reads: `_getBpm()` and `_getPPQ()`. */
  datatype Tempo = Tempo(bpm: real, ppq: int) {

    /** The code divides by both numbers and raises no error; zero gives Infinity, NaN or 0 and negative values flip signs, so these are excluded. */
    predicate Valid() {
      bpm > 0.0 && ppq > 0
    }
  }

  /** Length in seconds of one beat (a quarter note): `60 / bpm`. */
  function BeatDuration(t: Tempo): (d: real)
    requires t.Valid()
    ensures d > 0.0
    ensures d * t.bpm == 60.0
  {
    60.0 / t.bpm
  }

  /** Length in seconds of one tick: a beat holds `ppq` ticks. */
  function TickDuration(t: Tempo): (d: real)
    requires t.Valid()
    ensures d > 0.0
    ensures d * t.ppq as real == BeatDuration(t)
  {
    60.0 / (t.bpm * t.ppq as real)
  }

  /**
   Reference measure, independent of the formulas in Tone.js: how many ticks,
   possibly a fraction, pass in `seconds` at this tempo. The tempo plays
   `bpm / 60` beats per second and every beat holds `ppq` ticks.
   */
  function ElapsedTicks(t: Tempo, seconds: real): real {
    seconds * (t.bpm / 60.0) * t.ppq as real
  }

  /** `_beatsToUnits`: beats become `ppq * beats` ticks. */
  function BeatsToUnits(t: Tempo, beats: real): (r: real)
    requires t.Valid()
    ensures r == ElapsedTicks(t, beats * BeatDuration(t))
  {
    t.ppq as real * beats
  }

  /** `_secondsToUnits`: seconds become whole ticks, rounded down by `Math.floor`. */
  function SecondsToUnits(t: Tempo, seconds: real): (r: int)
    requires t.Valid()
    ensures r as real <= ElapsedTicks(t, seconds) < r as real + 1.0
  {
    (seconds / (60.0 / t.bpm) * t.ppq as real).Floor
  }

  /** `_ticksToUnits`: a tick count is already in this class's unit. */
  function TicksToUnits(ticks: real): (r: real)
    ensures r == ticks
  {
    ticks
  }

  /** `toTicks`: the evaluated value, `valueOf()`, is already a tick count. */
  function ToTicks(value: real): (r: real)
    ensures r == value
  {
    value
  }

  /** `toSeconds`: `(valueOf() / ppq) * (60 / bpm)`. */
  function ToSeconds(t: Tempo, value: real): (r: real)
    requires t.Valid()
    ensures ElapsedTicks(t, r) == value
    ensures r == value * TickDuration(t)
  {
    (value / t.ppq as real) * (60.0 / t.bpm)
  }

  /** The three domains a time expression is reduced to before it lands in ticks. */
  datatype Quantity = Beats(beats: real) | Seconds(seconds: real) | TickCount(ticks: real)

  /**
   Lands one amount in ticks through the primitive for its domain: an
   abstraction of the base class's per-term dispatch, after the expression has
   been reduced to beats, seconds and ticks.
   */
  function Land(t: Tempo, q: Quantity): real
    requires t.Valid()
  {
    match q
    case Beats(b) => BeatsToUnits(t, b)
    case Seconds(s) => SecondsToUnits(t, s) as real
    case TickCount(k) => TicksToUnits(k)
  }

  /** Reference duration in seconds of an amount, written without the tick unit. */
  function DurationOf(t: Tempo, q: Quantity): real
    requires t.Valid()
  {
    match q
    case Beats(b) => b * BeatDuration(t)
    case Seconds(s) => s
    case TickCount(k) => k * TickDuration(t)
  }
}
