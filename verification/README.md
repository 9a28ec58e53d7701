# Tick conversions of Tone.js `TicksClass`

This project models the unit conversions of Tone.js's `Ticks` time type
(`TicksClass` in `Tone/core/type/Ticks.ts`) and proves how they relate.

A `Ticks` value resolves every time expression to a count of transport ticks.
Its base class reduces an expression to amounts of beats, seconds and ticks, and
`TicksClass` supplies the three primitives that land each amount in ticks:

- beats to ticks: `ppq * beats`;
- seconds to ticks: `floor(seconds / (60 / bpm) * ppq)`;
- ticks to ticks: unchanged.

It also reads its evaluated value back as ticks (unchanged) and as seconds,
`(value / ppq) * (60 / bpm)`.

Every conversion is a pure function of a tempo snapshot, `Tempo(bpm, ppq)`,
and one number. `Tempo.Valid()` asks for `bpm > 0` and `ppq > 0`.
`Ticks.ts` checks neither value and raises no error; the model excludes the
other values (see "## Left out"). Arithmetic is exact: JavaScript numbers are
`real` and `Math.floor` is `real.Floor`.

Files:

- `ticks.dfy`, module `Ticks`: the tempo snapshot, the primitives, the two
  accessors, and a reference measure `ElapsedTicks(t, s)`, the possibly
  fractional number of ticks that pass in `s` seconds (`bpm / 60` beats per
  second, `ppq` ticks per beat). The contracts state each conversion against
  that measure instead of repeating its formula. `Quantity` and `Land` are an
  abstraction of the base class's per-term dispatch: one amount, already
  reduced to beats, seconds or ticks, goes through the matching primitive.
  How an expression is split into such amounts is not modelled.
- `ticks_properties.dfy`, module `TicksProperties`: the lemmas relating the
  conversions: linearity of beats, order and sign of seconds, and the round
  trips between ticks and seconds.

Rounding: `Math.floor` (Tone/core/type/Ticks.ts:38) rounds negative values
down, away from zero. `SecondsToUnits` floors likewise, and
`SecondsToUnitsSign` and `SecondsRoundTrip` hold for negative times too.

## Model

| member | source | states |
|---|---|---|
| `Ticks.BeatsToUnits` | Tone/core/type/Ticks.ts:30-32 | the ticks a beat count lands on are exactly the ticks that elapse while that many beats play |
| `Ticks.SecondsToUnits` | Tone/core/type/Ticks.ts:37-39 | under exact arithmetic, the result is the whole number `k` with `k <= ticks elapsed in the given seconds < k + 1` |
| `Ticks.TicksToUnits` | Tone/core/type/Ticks.ts:44-46 | a tick amount lands on itself |
| `Ticks.ToTicks` | Tone/core/type/Ticks.ts:51-53 | reading the value as ticks returns the evaluated value unchanged |
| `Ticks.ToSeconds` | Tone/core/type/Ticks.ts:58-60 | the seconds returned are exactly long enough for `value` ticks to elapse, i.e. `value` times one tick's duration `60 / (bpm * ppq)` |
| `TicksProperties.ElapsedTicksDifference` | Tone/core/type/Ticks.ts:37-39 | the ticks elapsing between two times are their distance divided by one tick's duration |
| `TicksProperties.QuarterNoteIsPpq` | Tone/core/type/Ticks.ts:11 | one beat (a quarter note, `"4n"`) is exactly `ppq` ticks at every tempo |
| `TicksProperties.BeatsToUnitsLinear` | Tone/core/type/Ticks.ts:30-32 | beats to ticks preserves sums and scalar multiples |
| `TicksProperties.FourBeatsAt192Ppq` | Tone/core/type/Ticks.ts:30-32 | at 192 pulses per quarter, four beats are 768 ticks at every tempo |
| `TicksProperties.SecondsToUnitsZero` | Tone/core/type/Ticks.ts:37-39 | zero seconds lands on tick zero |
| `TicksProperties.SecondsToUnitsMonotone` | Tone/core/type/Ticks.ts:37-39 | a later time never lands on an earlier tick |
| `TicksProperties.SecondsToUnitsSign` | Tone/core/type/Ticks.ts:37-39 | the tick is non-negative if and only if the time is non-negative |
| `TicksProperties.OneBeatAt120Bpm` | Tone/core/type/Ticks.ts:58-60 | at 120 bpm and 192 pulses per quarter, 192 ticks read back as 0.5 seconds |
| `TicksProperties.BeatsToSecondsAgree` | Tone/core/type/Ticks.ts:30-32 | beats landed in ticks and read back as seconds equal the beats' duration `beats * 60 / bpm` |
| `TicksProperties.SecondsRoundTrip` | Tone/core/type/Ticks.ts:37-39 | seconds to ticks to seconds gives a time no later than the original and less than one tick's duration earlier |
| `TicksProperties.TicksRoundTrip` | Tone/core/type/Ticks.ts:58-60 | under exact arithmetic, whole ticks to seconds and back to ticks returns the same tick count |
| `TicksProperties.BeatsAndSecondsAgree` | Tone/core/type/Ticks.ts:30-39 | under exact arithmetic, landing the duration of some beats through the seconds primitive gives the floor of landing the beats directly |
| `TicksProperties.LandWithinOneTick` | Tone/core/type/Ticks.ts:30-46 | any amount, in beats, seconds or ticks, lands on ticks that read back as its duration: exactly for beats and ticks, within one tick below for seconds |

## Left out

- `_now()` (Tone/core/type/Ticks.ts:23-25) reads the transport's live tick
  counter, which another component advances; the model takes the evaluated
  value as an input instead.
- The `Ticks(...)` factory (Tone/core/type/Ticks.ts:67-69) reads a global
  audio context; the model passes the tempo snapshot explicitly.
- `name` and `defaultUnits = "i"` (Tone/core/type/Ticks.ts:16-18) only label
  the class and choose how the base class reads a bare number; nothing here
  depends on them.
- The expression grammar, the evaluation of `valueOf()` and the arithmetic on
  time values belong to the base classes `TimeBase` and `TransportTime`, which
  are not part of this model; so do measures, note fractions and the
  commutativity of adding time values. `Land` abstracts only the last step of
  that evaluation, one amount through one primitive.
- JavaScript numbers are IEEE-754 doubles; the model uses exact reals. Because
  `_secondsToUnits` floors, a rounding error just below a whole number costs a
  whole tick, so the three members below hold for the exact-real model only.
- Ticks.SecondsToUnits: the floor bound is stated against exact reals; in
  doubles `seconds / (60 / bpm) * ppq` can fall one ulp below a whole number,
  e.g. the duration of 1 tick at bpm 75.3 and ppq 192 floors to 0.
- TicksProperties.TicksRoundTrip: holds under exact arithmetic only; in doubles,
  at ppq 192, 19 ticks read back as seconds and landed again give 18 at bpm 90,
  and 47 give 46 at bpm 100.
- TicksProperties.BeatsAndSecondsAgree: holds under exact arithmetic only; in
  doubles, at bpm 75.3 and ppq 192, the duration of 50 beats lands on 9599
  ticks while `ppq * 50` is 9600.
- `bpm <= 0` or `ppq <= 0`: `Ticks.ts` defines no error for them. In
  JavaScript, bpm 0 makes `60 / bpm` Infinity, so `_secondsToUnits` returns 0
  for every finite time and `toSeconds` returns Infinity, or NaN for a zero
  value; ppq 0 makes `toSeconds` divide by zero; negative values flip the sign
  of tick counts and seconds. The model excludes all of these by
  `Tempo.Valid()`.
