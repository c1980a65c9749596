/** The modulation clock advanced by every frame of `tick`: a phase that
    climbs by a fixed step and, on passing 1, resets, hands the lead to the
    next colour channel and redraws the oscillation amplitude. Phases are
    exact reals; the random draw is a parameter. */
module Modulation {

  /** `channel`: 0 = red, 1 = green, 2 = blue. */
  datatype Clock = Clock(phase: real, channel: int, amplitude: real)

  /** The ranges the clock keeps: phase in [0, 1], channel one of 0, 1, 2. */
  predicate InRange(c: Clock) {
    0.0 <= c.phase <= 1.0 && 0 <= c.channel <= 2
  }

  /** `(channel === 2) ? 0 : channel + 1`: the cyclic successor 0 -> 1 -> 2 -> 0. */
  function NextChannel(channel: int): (n: int)
    ensures 0 <= channel <= 2 ==> 0 <= n <= 2 && n == (channel + 1) % 3
  {
    if channel == 2 then 0 else channel + 1
  }

  /** One frame: `phase += phaseStep`; past 1 the phase resets to 0, the
      channel rotates, and the amplitude becomes `base + range * r` for the
      draw `r`. Below or at 1 nothing else changes. */
  function Advance(c: Clock, step: real, base: real, range: real, r: real): (n: Clock)
    ensures c.phase + step > 1.0 ==>
      n.phase == 0.0 && n.channel == NextChannel(c.channel) && n.amplitude == base + range * r
    ensures c.phase + step <= 1.0 ==>
      n.phase == c.phase + step && n.channel == c.channel && n.amplitude == c.amplitude
    ensures InRange(c) && 0.0 <= step ==> InRange(n)
  {
    var p := c.phase + step;
    if p > 1.0 then Clock(0.0, NextChannel(c.channel), base + range * r)
    else c.(phase := p)
  }

  /** A redrawn amplitude lies in [base, base + range) for a draw in [0, 1). */
  lemma RedrawnAmplitudeInRange(c: Clock, step: real, base: real, range: real, r: real)
    requires 0.0 <= r < 1.0 && 0.0 < range
    requires c.phase + step > 1.0
    ensures base <= Advance(c, step, base, range, r).amplitude < base + range
  {
    assert range * r < range * 1.0;
  }

  /** The clock after one frame per draw in `rs`, the last draw last. */
  function AdvanceAll(c: Clock, step: real, base: real, range: real, rs: seq<real>): Clock
    decreases |rs|
  {
    if rs == [] then c
    else Advance(AdvanceAll(c, step, base, range, rs[..|rs| - 1]), step, base, range, rs[|rs| - 1])
  }

  /** While the accumulated phase stays at or below 1 the frames only add to
      the phase: channel and amplitude are not touched. */
  lemma {:induction false} NoWrapUpToOne(c: Clock, step: real, base: real, range: real, rs: seq<real>)
    requires 0.0 <= step
    requires c.phase + (|rs| as real) * step <= 1.0
    ensures AdvanceAll(c, step, base, range, rs) == c.(phase := c.phase + (|rs| as real) * step)
    decreases |rs|
  {
    if rs != [] {
      var n := |rs| as real;
      assert (n - 1.0) * step <= n * step;
      NoWrapUpToOne(c, step, base, range, rs[..|rs| - 1]);
      assert |rs[..|rs| - 1]| as real == n - 1.0;
      assert c.phase + (n - 1.0) * step + step == c.phase + n * step;
    }
  }

  /** From phase 0, with `n` the number of frames whose accumulated phase
      stays at or below 1 and frame `n + 1` passing it, frame `n + 1` is the
      first wrap: it rotates the channel once and redraws the amplitude from
      that frame's draw. */
  lemma WrapsAfterThreshold(c: Clock, step: real, base: real, range: real, rs: seq<real>)
    requires c.phase == 0.0 && 0.0 < step && |rs| > 0
    requires ((|rs| - 1) as real) * step <= 1.0 < (|rs| as real) * step
    ensures AdvanceAll(c, step, base, range, rs)
      == Clock(0.0, NextChannel(c.channel), base + range * rs[|rs| - 1])
  {
    var n := |rs| - 1;
    NoWrapUpToOne(c, step, base, range, rs[..n]);
    var before := AdvanceAll(c, step, base, range, rs[..n]);
    assert before.phase == (n as real) * step && before.channel == c.channel;
    assert (n as real) * step + step == (|rs| as real) * step;
    assert rs[..|rs| - 1] == rs[..n];
    assert AdvanceAll(c, step, base, range, rs) == Advance(before, step, base, range, rs[n]);
    assert 1.0 < (|rs| as real) * step;
    assert before.phase + step == (|rs| as real) * step;
    assert before.phase + step > 1.0;
  }

  /** Three wraps bring the lead back to the channel it started from. */
  lemma ChannelCycleIsThree(channel: int)
    requires 0 <= channel <= 2
    ensures NextChannel(NextChannel(NextChannel(channel))) == channel
    ensures NextChannel(channel) != channel
  {
  }
}
