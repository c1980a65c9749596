/** The `glitcher` object: its step sequencer, modulation clock, text
    fitter and per-frame render, as one object whose methods update its
    fields in place. Timers are replaced by the continuation they would run
    (`pending`), the random draws and the canvas measurements by parameters,
    and each rewrite of the location fragment by an entry in `published`. */
module Glitch {
  import opened Options
  import opened Sequencer
  import HashDecode
  import Modulation
  import Positions
  import Fitter
  import Scanline

  class Glitcher {
    /** The step list and the index of the step shown. */
    var sequence: seq<Step>
    var activeStep: nat
    /** The continuation the step timer would run, `None` when no timer is pending. */
    var pending: Option<seq<Step>>
    /** Every step list written to the location fragment, oldest first. */
    var published: seq<seq<Step>>

    /** The text shown, its font size (in `vw`) and its measured width. */
    var text: string
    var fontSize: int
    var textWidth: int

    /** The modulation clock. */
    var phase: real
    var channel: int
    var amplitude: real

    /** `window.innerWidth`, which the fitter aims at, and the canvas size
        `offsetWidth` x `innerHeight` taken at start. */
    const viewportWidth: int
    const width: int
    const height: int
    /** The canvas measurement: the width of a text at a font size, rounded up. */
    const measure: (string, int) -> int

    const phaseStep: real := 0.05
    const amplitudeBase: real := 2.0
    const amplitudeRange: real := 2.0
    const scanlineBase: int := 40
    const scanlineRange: int := 40
    const scanlineShift: int := 15

    /** The widths the fitter aims between: 12% and 80% of the viewport. */
    function MinWidth(): real { 0.12 * viewportWidth as real }
    function MaxWidth(): real { 0.8 * viewportWidth as real }

    function ModState(): Modulation.Clock
      reads this`phase, this`channel, this`amplitude
    {
      Modulation.Clock(phase, channel, amplitude)
    }

    /** The canvas measurement lets both font walks terminate for every text,
        and the empty text is 0 wide at every size. */
    ghost predicate Measurable() {
      Fitter.Adequate(measure, MinWidth(), MaxWidth()) && forall n :: measure("", n) == 0
    }

    /** The clock ranges, which hold between any two operations. */
    ghost predicate Configured()
      reads this`phase, this`channel
    {
      Modulation.InRange(Modulation.Clock(phase, channel, 0.0))
    }

    /** The object invariant: the clock in range and the step state consistent. */
    ghost predicate Valid()
      reads this
    {
      Configured() && Consistent(sequence, activeStep, pending)
    }

    /** `initOptions`: the defaults and the step list decoded from the
        fragment `hash`, `parsed` being what the decoder returned for it.
        The source leaves `text` and `textWidth` unset until the first run;
        the model starts them at the empty text and width 0. */
    constructor (hash: string, parsed: Option<seq<Step>>, viewportWidth: int, width: int, height: int,
                 measure: (string, int) -> int)
      ensures Valid()
      ensures sequence == HashDecode.InitialSequence(hash, parsed)
      ensures activeStep == 0 && pending == None && published == []
      ensures fontSize == 12 && text == "" && textWidth == 0
      ensures phase == 0.0 && channel == 0 && amplitude == 0.0
      ensures this.viewportWidth == viewportWidth && this.width == width && this.height == height
      ensures this.measure == measure
    {
      this.viewportWidth := viewportWidth;
      this.width := width;
      this.height := height;
      this.measure := measure;
      fontSize := 12;
      channel := 0;
      phase := 0.0;
      amplitude := 0.0;
      sequence := HashDecode.InitialSequence(hash, parsed);
      activeStep := 0;
      pending := None;
      published := [];
      text := "";
      textWidth := 0;
    }

    /** One frame of `tick`: the clock advances by `phaseStep`; on passing 1
        the phase resets, the channel rotates and the amplitude is redrawn
        from the draw `r`. */
    method Tick(r: real)
      requires Valid()
      requires 0.0 <= r < 1.0
      modifies this`phase, this`channel, this`amplitude
      ensures Valid()
      ensures ModState() == Modulation.Advance(old(ModState()), phaseStep, amplitudeBase, amplitudeRange, r)
      ensures 0 <= channel <= 2
      ensures old(phase) + phaseStep > 1.0 ==>
        phase == 0.0 && channel == (old(channel) + 1) % 3
        && amplitudeBase <= amplitude < amplitudeBase + amplitudeRange
      ensures old(phase) + phaseStep <= 1.0 ==> channel == old(channel) && amplitude == old(amplitude)
    {
      phase := phase + phaseStep;
      if phase > 1.0 {
        phase := 0.0;
        channel := if channel == 2 then 0 else channel + 1;
        amplitude := amplitudeBase + amplitudeRange * r;
        assert amplitudeRange * r < amplitudeRange;
      }
    }

    /** `fitByIncrement`: grow the font one step at a time while the text is
        narrower than `MinWidth()`. */
    method FitByIncrement()
      requires Measurable()
      requires |text| > 0
      modifies this`fontSize
      ensures Fitter.Grown(measure, text, MinWidth(), old(fontSize), fontSize)
    {
      assert Fitter.Reaches(measure, text, MinWidth(), MaxWidth());
      ghost var hi :| measure(text, hi) as real >= MinWidth();
      while measure(text, fontSize) as real < MinWidth()
        invariant old(fontSize) <= fontSize
        invariant forall k :: old(fontSize) <= k < fontSize ==> measure(text, k) as real < MinWidth()
        decreases hi - fontSize
      {
        assert hi <= fontSize ==> measure(text, hi) <= measure(text, fontSize);
        fontSize := fontSize + 1;
      }
    }

    /** `fitByDecrement`: shrink the font one step at a time while the text
        is wider than `MaxWidth()`. */
    method FitByDecrement()
      requires Measurable()
      requires |text| > 0
      modifies this`fontSize
      ensures Fitter.Shrunk(measure, text, MaxWidth(), old(fontSize), fontSize)
    {
      assert Fitter.Reaches(measure, text, MinWidth(), MaxWidth());
      ghost var lo :| measure(text, lo) as real <= MaxWidth();
      while measure(text, fontSize) as real > MaxWidth()
        invariant fontSize <= old(fontSize)
        invariant forall k :: fontSize < k <= old(fontSize) ==> measure(text, k) as real > MaxWidth()
        decreases fontSize - lo
      {
        assert fontSize <= lo ==> measure(text, fontSize) <= measure(text, lo);
        fontSize := fontSize - 1;
      }
    }

    /** `changeText`: show `newText`, fit a non-empty text by the two walks,
        and measure the result. */
    method ChangeText(newText: string)
      requires Measurable()
      modifies this`text, this`fontSize, this`textWidth
      ensures text == newText
      ensures Fitter.Fitted(measure, text, MinWidth(), MaxWidth(), old(fontSize), fontSize)
      ensures |text| > 0 ==> measure(text, fontSize) as real <= MaxWidth()
      ensures textWidth == measure(text, fontSize)
      ensures |text| == 0 ==> textWidth == 0
    {
      text := newText;
      if |text| > 0 {
        ghost var before := fontSize;
        FitByIncrement();
        ghost var grown := fontSize;
        FitByDecrement();
        assert Fitter.Grown(measure, text, MinWidth(), before, grown);
      }
      textWidth := measure(text, fontSize);
    }

    /** `runSequence(steps)`: cancel the pending timer, show the first step
        of `steps` (of the whole list when `steps` is missing or empty), and
        when its duration is positive schedule the rest of `steps`. On an
        empty list there is no first step: reading its text throws, which
        `ok == false` stands for. */
    method RunSequence(steps: Option<seq<Step>>) returns (ok: bool)
      requires Measurable()
      requires Configured()
      requires steps.Some? ==> IsSuffix(steps.value, sequence)
      modifies this`activeStep, this`pending, this`text, this`fontSize, this`textWidth
      ensures Valid()
      ensures ok <==> |sequence| > 0
      ensures activeStep == ActiveIndex(sequence, steps)
      ensures pending == Scheduled(sequence, activeStep)
      ensures ok ==> text == sequence[activeStep].t
      ensures ok ==> Fitter.Fitted(measure, text, MinWidth(), MaxWidth(), old(fontSize), fontSize)
      ensures ok ==> textWidth == measure(text, fontSize)
      ensures !ok ==> text == old(text) && fontSize == old(fontSize) && textWidth == old(textWidth)
    {
      var st := if steps.None? then sequence else steps.value;
      pending := None;
      if |st| == 0 {
        st := sequence;
      }
      assert st == Effective(sequence, steps);
      RunIsConsistent(sequence, steps);
      activeStep := |sequence| - |st|;
      if |st| == 0 {
        ok := false;
        return;
      }
      SuffixStartsAtActive(sequence, steps);
      var current, following := st[0], st[1..];
      ok := true;
      ChangeText(current.t);
      if current.s > 0.0 {
        pending := Some(following);
      }
    }

    /** The step timer firing: run the continuation it was set with. The
        shown step advances by one, from the last step back to the first. */
    method Fire()
      requires Measurable()
      requires Valid() && pending.Some?
      modifies this`activeStep, this`pending, this`text, this`fontSize, this`textWidth
      ensures Valid()
      ensures activeStep == (old(activeStep) + 1) % |sequence|
      ensures text == sequence[activeStep].t
      ensures Fitter.Fitted(measure, text, MinWidth(), MaxWidth(), old(fontSize), fontSize)
      ensures textWidth == measure(text, fontSize)
      ensures pending == Scheduled(sequence, activeStep)
    {
      var next := pending.value;
      ContinuationAdvances(sequence, activeStep);
      assert IsSuffix(next, sequence);
      var ok := RunSequence(Some(next));
    }

    /** `restartStep(step)`: run from `step || activeStep`, so that 0 means
        the active step and a start past the end means step 0. */
    method RestartStep(step: nat) returns (ok: bool)
      requires Measurable()
      requires Configured()
      modifies this`activeStep, this`pending, this`text, this`fontSize, this`textWidth
      ensures Valid()
      ensures ok <==> |sequence| > 0
      ensures var j := RestartFrom(old(activeStep), step);
        activeStep == if j < |sequence| then j else 0
      ensures pending == Scheduled(sequence, activeStep)
      ensures ok ==> text == sequence[activeStep].t && textWidth == measure(text, fontSize)
      ensures ok ==> Fitter.Fitted(measure, text, MinWidth(), MaxWidth(), old(fontSize), fontSize)
      ensures !ok ==> text == old(text) && fontSize == old(fontSize) && textWidth == old(textWidth)
    {
      RestartLandsOn(sequence, activeStep, step);
      ok := RunSequence(Some(Slice(sequence, RestartFrom(activeStep, step))));
    }

    /** `addStep`: append the default step and restart the active step, so it
        stays active and a timer now runs on into the new step. The fragment
        is not rewritten. */
    method AddStep()
      requires Measurable()
      requires Valid()
      modifies this`sequence, this`activeStep, this`pending, this`text, this`fontSize, this`textWidth
      ensures Valid()
      ensures sequence == old(sequence) + [DefaultStep]
      ensures activeStep == old(activeStep)
      ensures text == sequence[activeStep].t && textWidth == measure(text, fontSize)
      ensures Fitter.Fitted(measure, text, MinWidth(), MaxWidth(), old(fontSize), fontSize)
      ensures pending == Scheduled(sequence, activeStep)
      ensures published == old(published)
    {
      sequence := sequence + [DefaultStep];
      var ok := RestartStep(0);
    }

    /** `removeStep(index)` as written: it refuses only on an empty list, so
        it can remove the only step, and then the restart that follows throws
        (`ok == false`). Otherwise it splices out step `index`, publishes the
        list and restarts at the old active index, or at step 0 when that is
        now past the end. */
    method RemoveStep(index: nat) returns (ok: bool)
      requires Measurable()
      requires Valid()
      modifies this`sequence, this`published, this`activeStep, this`pending, this`text, this`fontSize, this`textWidth
      ensures Valid()
      ensures old(|sequence|) == 0 ==> ok && unchanged(this)
      ensures old(|sequence|) > 0 ==>
        sequence == Removed(old(sequence), index)
        && published == old(published) + [sequence]
        && (ok <==> |sequence| > 0)
        && activeStep == (if old(activeStep) < |sequence| then old(activeStep) else 0)
        && pending == Scheduled(sequence, activeStep)
        && (ok ==> text == sequence[activeStep].t && textWidth == measure(text, fontSize)
                   && Fitter.Fitted(measure, text, MinWidth(), MaxWidth(), old(fontSize), fontSize))
      ensures !ok ==> text == old(text) && fontSize == old(fontSize) && textWidth == old(textWidth)
      ensures old(|sequence|) == 1 && index == 0 ==> !ok && sequence == [] && pending == None
      ensures phase == old(phase) && channel == old(channel) && amplitude == old(amplitude)
    {
      ok := true;
      if |sequence| == 0 {
        return;
      }
      sequence := Removed(sequence, index);
      published := published + [sequence];
      ok := RestartStep(0);
    }

    /** `removeStep` with the guard it evidently needs: the only remaining step
        is kept, so a sequence always keeps at least one step and the restart
        never throws. */
    method RemoveStepKeepingOne(index: nat)
      requires Measurable()
      requires Valid() && |sequence| >= 1
      modifies this`sequence, this`published, this`activeStep, this`pending, this`text, this`fontSize, this`textWidth
      ensures Valid() && |sequence| >= 1
      ensures sequence == RemovedKeepingOne(old(sequence), index)
      ensures old(|sequence|) == 1 ==> unchanged(this)
      ensures old(|sequence|) > 1 ==>
        published == old(published) + [sequence]
        && activeStep == (if old(activeStep) < |sequence| then old(activeStep) else 0)
        && pending == Scheduled(sequence, activeStep)
        && text == sequence[activeStep].t && textWidth == measure(text, fontSize)
        && Fitter.Fitted(measure, text, MinWidth(), MaxWidth(), old(fontSize), fontSize)
      ensures phase == old(phase) && channel == old(channel) && amplitude == old(amplitude)
    {
      if |sequence| <= 1 {
        return;
      }
      sequence := Removed(sequence, index);
      published := published + [sequence];
      var ok := RestartStep(0);
    }

    /** A control-panel edit that replaced step `index` by `step`: the
        pending continuation shares the step objects, so it sees the edit;
        when the edited step is the active one it restarts at once; the list
        is published either way. */
    method EditStep(index: nat, step: Step)
      requires Measurable()
      requires Valid() && index < |sequence|
      modifies this`sequence, this`activeStep, this`pending, this`text, this`fontSize, this`textWidth,
        this`published
      ensures Valid()
      ensures sequence == old(sequence)[index := step]
      ensures published == old(published) + [sequence]
      ensures activeStep == old(activeStep)
      ensures old(activeStep) == index ==>
        text == step.t && pending == (if step.s > 0.0 then Some(sequence[index + 1..]) else None)
        && Fitter.Fitted(measure, text, MinWidth(), MaxWidth(), old(fontSize), fontSize)
        && textWidth == measure(text, fontSize)
      ensures old(activeStep) != index ==>
        text == old(text) && fontSize == old(fontSize) && textWidth == old(textWidth)
        && pending == (if old(pending).Some? then Some(sequence[activeStep + 1..]) else None)
    {
      sequence := sequence[index := step];
      if pending.Some? {
        pending := Some(sequence[activeStep + 1..]);
      }
      if activeStep == index {
        var ok := RestartStep(index);
      }
      published := published + [sequence];
    }

    /** `render` for the oscillation offset `x0` (already multiplied when the
        glitch draw fired) and the scanline draws `y`, `s`, `x`: the three
        positions handed to the channel copies, then the scanline pass.
        `pixels` is the canvas after the frame has been cleared and the
        three copies drawn, so `old(pixels)` is that freshly drawn frame;
        the clearing and drawing themselves are not modelled. On a canvas of
        width 0, `getImageData` throws before the row is touched, which
        `scanned == false` stands for. */
    method Render(x0: int, pixels: array2<Scanline.Byte>, y: int, s: int, x: int)
      returns (drawn: Option<Positions.Triple>, scanned: bool)
      requires Valid()
      requires pixels.Length0 == height && pixels.Length1 == 4 * width
      requires 0 <= y < height
      requires scanlineBase <= s < scanlineBase + scanlineRange
      requires -scanlineShift <= x < scanlineShift
      modifies pixels
      ensures drawn == Positions.ChannelPositions(channel, x0, width, textWidth) && drawn.Some?
      ensures scanned <==> width > 0
      ensures !scanned ==> unchanged(pixels)
      ensures forall r, j :: 0 <= r < pixels.Length0 && 0 <= j < pixels.Length1 && r != y ==>
        pixels[r, j] == old(pixels[r, j])
      ensures scanned ==>
        Scanline.Row(pixels, y)
        == Scanline.Shifted(old(Scanline.Row(pixels, y)), Scanline.Brightened(old(Scanline.Row(pixels, y)), s), x)
    {
      var x1 := Positions.Centre(width, textWidth);
      var x2 := x1 + x0;
      var x3 := x1 - x0;
      if channel == 0 {
        drawn := Some(Positions.Triple(x1, x2, x3));
      } else if channel == 1 {
        drawn := Some(Positions.Triple(x2, x3, x1));
      } else {
        drawn := Some(Positions.Triple(x3, x1, x2));
      }
      scanned := width > 0;
      if scanned {
        Scanline.Corrupt(pixels, y, s, x);
      }
    }
  }

  /** Two one-second steps: the first run shows "A" and schedules "B"; the
      timer then shows "B" and schedules the wrap; the next firing is back at "A". */
  method TwoStepsAlternate(g: Glitcher)
    requires g.Valid() && g.Measurable()
    requires g.sequence == [Step("A", 1.0), Step("B", 1.0)]
    modifies g`activeStep, g`pending, g`text, g`fontSize, g`textWidth
    ensures g.Valid() && g.sequence == old(g.sequence)
    ensures g.activeStep == 0 && g.text == "A" && g.pending == Some([Step("B", 1.0)])
  {
    FirstRunShowsFirst(g);
    FirstStepGivesWay(g);
    LastStepWraps(g);
  }

  /** The first run over two one-second steps shows "A" and schedules "B". */
  method FirstRunShowsFirst(g: Glitcher)
    requires g.Valid() && g.Measurable()
    requires g.sequence == [Step("A", 1.0), Step("B", 1.0)]
    modifies g`activeStep, g`pending, g`text, g`fontSize, g`textWidth
    ensures g.Valid()
    ensures g.activeStep == 0 && g.text == "A" && g.pending == Some([Step("B", 1.0)])
  {
    var ok := g.RunSequence(None);
    assert g.sequence[1..] == [Step("B", 1.0)];
  }

  /** With the first of two one-second steps shown, the timer shows "B" and
      leaves the empty rest of the list pending. */
  method FirstStepGivesWay(g: Glitcher)
    requires g.Valid() && g.Measurable()
    requires g.sequence == [Step("A", 1.0), Step("B", 1.0)]
    requires g.activeStep == 0 && g.pending.Some?
    modifies g`activeStep, g`pending, g`text, g`fontSize, g`textWidth
    ensures g.Valid()
    ensures g.activeStep == 1 && g.text == "B" && g.pending == Some([])
  {
    g.Fire();
    assert g.sequence[2..] == [];
  }

  /** With the last of two one-second steps shown, the timer wraps back to
      the first step and schedules the second again. */
  method LastStepWraps(g: Glitcher)
    requires g.Valid() && g.Measurable()
    requires g.sequence == [Step("A", 1.0), Step("B", 1.0)]
    requires g.activeStep == 1 && g.pending == Some([])
    modifies g`activeStep, g`pending, g`text, g`fontSize, g`textWidth
    ensures g.Valid()
    ensures g.activeStep == 0 && g.text == "A" && g.pending == Some([Step("B", 1.0)])
  {
    g.Fire();
    assert g.sequence[1..] == [Step("B", 1.0)];
  }

  /** A step with duration 0 is shown and no timer is left pending. */
  method HeldStepSchedulesNothing(g: Glitcher)
    requires g.Valid() && g.Measurable()
    requires g.sequence == [Step("A", 0.0)]
    modifies g`activeStep, g`pending, g`text, g`fontSize, g`textWidth
    ensures g.Valid() && g.activeStep == 0 && g.text == "A" && g.pending == None
  {
    var ok := g.RunSequence(None);
  }
}
