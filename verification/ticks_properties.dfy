/**
 Properties relating the tick conversions of module `Ticks` to each other:
 how beats, seconds and ticks correspond, and how far a trip through the
 rounded seconds-to-ticks conversion can move a time.
 */
module TicksProperties {
  import opened Ticks

  /** The reference measure is linear: ticks elapsed between two times are their distance over one tick. */
  lemma ElapsedTicksDifference(t: Tempo, x: real, y: real)
    requires t.Valid()
    ensures (ElapsedTicks(t, x) - ElapsedTicks(t, y)) * TickDuration(t) == x - y
  {
  }

  /** A quarter note is exactly `ppq` ticks at every tempo. */
  lemma QuarterNoteIsPpq(bpm: real, ppq: int)
    requires bpm > 0.0 && ppq > 0
    ensures BeatsToUnits(Tempo(bpm, ppq), 1.0) == ppq as real
  {
  }

  /** Beats land in ticks linearly: sums and multiples of beats give sums and multiples of ticks. */
  lemma BeatsToUnitsLinear(t: Tempo, a: real, b: real, k: real)
    requires t.Valid()
    ensures BeatsToUnits(t, a + b) == BeatsToUnits(t, a) + BeatsToUnits(t, b)
    ensures BeatsToUnits(t, k * a) == k * BeatsToUnits(t, a)
  {
  }

  /** At 192 pulses per quarter, a four-beat bar is 768 ticks. */
  lemma FourBeatsAt192Ppq(bpm: real)
    requires bpm > 0.0
    ensures BeatsToUnits(Tempo(bpm, 192), 4.0) == 768.0
  {
  }

  /** Zero seconds is zero ticks. */
  lemma SecondsToUnitsZero(t: Tempo)
    requires t.Valid()
    ensures SecondsToUnits(t, 0.0) == 0
  {
  }

  /** Rounding down keeps the order of times: a later time never lands on an earlier tick. */
  lemma SecondsToUnitsMonotone(t: Tempo, s1: real, s2: real)
    requires t.Valid()
    requires s1 <= s2
    ensures SecondsToUnits(t, s1) <= SecondsToUnits(t, s2)
  {
    ElapsedTicksDifference(t, s2, s1);
    assert ElapsedTicks(t, s1) <= ElapsedTicks(t, s2);
  }

  /** Non-negative times land on non-negative ticks; negative ones on negative ticks. */
  lemma SecondsToUnitsSign(t: Tempo, s: real)
    requires t.Valid()
    ensures SecondsToUnits(t, s) >= 0 <==> s >= 0.0
  {
  }

  /** At 120 bpm and 192 pulses per quarter, 192 ticks last half a second. */
  lemma OneBeatAt120Bpm()
    ensures ToSeconds(Tempo(120.0, 192), 192.0) == 0.5
  {
  }

  /** A beat count turned into ticks and read back as seconds lasts that many beats. */
  lemma BeatsToSecondsAgree(t: Tempo, b: real)
    requires t.Valid()
    ensures ToSeconds(t, BeatsToUnits(t, b)) == b * BeatDuration(t)
  {
  }

  /**
   Seconds to ticks and back: the time read back is never later than the
   original and falls short of it by less than one tick.
   */
  lemma SecondsRoundTrip(t: Tempo, s: real)
    requires t.Valid()
    ensures ToSeconds(t, SecondsToUnits(t, s) as real) <= s
    ensures s - ToSeconds(t, SecondsToUnits(t, s) as real) < TickDuration(t)
  {
    var k := SecondsToUnits(t, s);
    var r := ToSeconds(t, k as real);
    var d := TickDuration(t);
    ElapsedTicksDifference(t, s, r);
    var e := ElapsedTicks(t, s) - ElapsedTicks(t, r);
    assert 0.0 <= e < 1.0;
    assert s - r == e * d;
    assert e * d < d;
  }

  /** Whole ticks to seconds and back is the identity. */
  lemma TicksRoundTrip(t: Tempo, k: int)
    requires t.Valid()
    ensures SecondsToUnits(t, ToSeconds(t, k as real)) == k
  {
  }

  /** The seconds primitive applied to the length of some beats rounds down what the beats primitive gives. */
  lemma BeatsAndSecondsAgree(t: Tempo, b: real)
    requires t.Valid()
    ensures SecondsToUnits(t, b * BeatDuration(t)) == BeatsToUnits(t, b).Floor
  {
  }

  /**
   Whatever domain an amount is given in, the ticks it lands on read back as
   its duration: exactly for beats and ticks, and for seconds no later than the
   duration and less than one tick short of it.
   */
  lemma LandWithinOneTick(t: Tempo, q: Quantity)
    requires t.Valid()
    ensures ToSeconds(t, Land(t, q)) <= DurationOf(t, q) < ToSeconds(t, Land(t, q)) + TickDuration(t)
    ensures !q.Seconds? ==> ToSeconds(t, Land(t, q)) == DurationOf(t, q)
  {
    match q
    case Beats(b) =>
      BeatsToSecondsAgree(t, b);
    case Seconds(s) =>
      SecondsRoundTrip(t, s);
    case TickCount(k) =>
  }
}
