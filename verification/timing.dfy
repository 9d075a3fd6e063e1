/**
  Timestamps and the running clock of the schedule. The source computes in
  `float`; the model computes exactly in `real`, except that a division by
  zero, which in `float` gives an infinity or NaN, gives `NonFinite`, and every
  sum or product involving a non-finite value stays non-finite.
 */
module Timing {
  import opened Text
  import opened MetaParser

  /** A timestamp in seconds: an exact value, or one of the IEEE infinities and NaN. */
  datatype Time = Finite(sec: real) | NonFinite

  function Plus(a: Time, b: Time): Time {
    if a.Finite? && b.Finite? then Finite(a.sec + b.sec) else NonFinite
  }

  /** `k * t` for a factor read from the file; the factors are never negative. */
  function Scale(k: real, t: Time): Time {
    if t.Finite? then Finite(k * t.sec) else NonFinite
  }

  /** `a` is no later than `b`, both finite. */
  predicate NotAfter(a: Time, b: Time) {
    a.Finite? && b.Finite? && a.sec <= b.sec
  }

  /** `a` is strictly earlier than `b`, both finite. */
  predicate Before(a: Time, b: Time) {
    a.Finite? && b.Finite? && a.sec < b.sec
  }

  /** Seconds per beat, `_clock = 60f / bpm`; a zero bpm divides by zero. */
  function Clock(m: Meta): Time {
    if m.bpm == 0 then NonFinite else Finite(60.0 / m.bpm as real)
  }

  /** When the first lyric line starts, `introEndBeat * _clock`. */
  function StartTime(m: Meta): Time {
    Scale(m.intro as real, Clock(m))
  }

  /**
    Beats in a line of `bars` bars, `_beat * barCount`. `_beat` is a `float`
    holding the meta line's `int`, so the product is taken in floating point
    and never wraps.
   */
  function LineBeats(m: Meta, bars: nat): nat {
    m.beat * bars
  }

  /** How far a line of `bars` bars moves the clock, `_beat * barCount * _clock`. */
  function LineLength(m: Meta, bars: nat): Time {
    Scale(LineBeats(m, bars) as real, Clock(m))
  }

  /** Beats taken by lines of the given bar counts, one after the other. */
  function Elapsed(m: Meta, bars: seq<nat>): nat
    decreases |bars|
  {
    if bars == [] then 0 else Elapsed(m, bars[..|bars| - 1]) + LineBeats(m, bars[|bars| - 1])
  }

  /**
    The clock after the intro and lines of the given bar counts, in closed form:
    intro beats plus the beats of every line, of 60/bpm seconds each.
   */
  function TimeAfter(m: Meta, bars: seq<nat>): Time {
    Scale((m.intro + Elapsed(m, bars)) as real, Clock(m))
  }

  /** The running clock agrees with the closed form at the start and after each line. */
  lemma ClockSteps(m: Meta, bars: seq<nat>, b: nat)
    ensures StartTime(m) == TimeAfter(m, [])
    ensures Plus(TimeAfter(m, bars), LineLength(m, b)) == TimeAfter(m, bars + [b])
  {
    assert (bars + [b])[..|bars|] == bars;
    if m.bpm != 0 {
      var c := Clock(m).sec;
      var x := m.intro + Elapsed(m, bars);
      var y := LineBeats(m, b);
      assert x as real * c + y as real * c == (x + y) as real * c;
    }
  }

  /** Every line has at least one bar. */
  predicate AllPositive(bars: seq<nat>) {
    forall k :: 0 <= k < |bars| ==> bars[k] > 0
  }

  /** A line takes beats exactly when the meta line has a beat and the line has bars. */
  lemma LineBeatsPositive(m: Meta, b: nat)
    ensures LineBeats(m, b) > 0 <==> m.beat > 0 && b > 0
  {
    if m.beat > 0 && b > 0 {
      MulMonotone(m.beat, 0, b);
    }
  }

  /** Longer prefixes take no fewer beats, and strictly more when every line has beats. */
  lemma {:induction false} ElapsedPrefixGrows(m: Meta, xs: seq<nat>, i: nat, j: nat)
    requires i <= j <= |xs|
    ensures Elapsed(m, xs[..i]) <= Elapsed(m, xs[..j])
    ensures m.beat > 0 && AllPositive(xs) && i < j ==> Elapsed(m, xs[..i]) < Elapsed(m, xs[..j])
    decreases j - i
  {
    if i < j {
      ElapsedPrefixGrows(m, xs, i, j - 1);
      assert xs[..j][..j - 1] == xs[..j - 1];
      assert xs[..j][j - 1] == xs[j - 1];
      LineBeatsPositive(m, xs[j - 1]);
    }
  }

  lemma MulMonotone(k: nat, a: nat, b: nat)
    requires a <= b
    ensures k * a <= k * b
    ensures k > 0 && a < b ==> k * a < k * b
  {
    assert k * b == k * a + k * (b - a);
  }

  /** Scaling a positive duration by a larger factor gives a later time. */
  lemma ScaleMonotone(x: real, y: real, t: Time)
    requires x <= y && t.Finite? && t.sec > 0.0
    ensures NotAfter(Scale(x, t), Scale(y, t))
    ensures x < y ==> Before(Scale(x, t), Scale(y, t))
  {
    assert y * t.sec - x * t.sec == (y - x) * t.sec;
  }

  lemma ClockPositive(m: Meta)
    requires m.bpm > 0
    ensures Clock(m).Finite? && Clock(m).sec > 0.0
  {
  }

  /**
    With a positive tempo, the clock after a longer prefix of the lines is no
    earlier, and strictly later when every line has beats.
   */
  lemma TimeAfterMonotone(m: Meta, xs: seq<nat>, i: nat, j: nat)
    requires m.bpm > 0
    requires i <= j <= |xs|
    ensures NotAfter(TimeAfter(m, xs[..i]), TimeAfter(m, xs[..j]))
    ensures m.beat > 0 && AllPositive(xs) && i < j ==> Before(TimeAfter(m, xs[..i]), TimeAfter(m, xs[..j]))
  {
    ClockPositive(m);
    ElapsedPrefixGrows(m, xs, i, j);
    ScaleMonotone((m.intro + Elapsed(m, xs[..i])) as real, (m.intro + Elapsed(m, xs[..j])) as real, Clock(m));
  }
}
