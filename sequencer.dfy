/** The step list of the glitcher and the index arithmetic of its sequencer:
    which step `runSequence` shows for a given suffix of the list, what
    `restartStep` slices off, and what `removeStep`'s `splice` leaves. */
module Sequencer {
  import opened Options

  /** One step: the text `t` shown and its duration `s` in seconds.
      A duration that is not positive holds the step forever. */
  datatype Step = Step(t: string, s: real)

  /** The step that `addStep` appends. */
  const DefaultStep: Step := Step("", 1.0)

  /** `a` is a trailing part of `b`. */
  predicate IsSuffix(a: seq<Step>, b: seq<Step>) {
    |a| <= |b| && b[|b| - |a|..] == a
  }

  /** `Array.prototype.slice(k)` for a non-negative start `k`. */
  function Slice(s: seq<Step>, k: nat): (r: seq<Step>)
    ensures IsSuffix(r, s)
    ensures k <= |s| ==> |r| == |s| - k
    ensures k >= |s| ==> r == []
  {
    if k < |s| then s[k..] else []
  }

  /** `Array.prototype.splice(k, 1)` for a non-negative `k`: the list it leaves. */
  function Removed(s: seq<Step>, k: nat): (r: seq<Step>)
    ensures k < |s| ==> |r| == |s| - 1
    ensures k < |s| ==> forall i :: 0 <= i < k ==> r[i] == s[i]
    ensures k < |s| ==> forall i :: k <= i < |r| ==> r[i] == s[i + 1]
    ensures k < |s| ==> multiset(r) + multiset{s[k]} == multiset(s)
    ensures k >= |s| ==> r == s
  {
    if k < |s| then
      assert s == s[..k] + [s[k]] + s[k + 1..];
      s[..k] + s[k + 1..]
    else
      s
  }

  /** The list `runSequence` walks: its argument, or the whole sequence when
      the argument is missing (`steps || this.sequence`) or empty. */
  function Effective(sequence: seq<Step>, steps: Option<seq<Step>>): (r: seq<Step>)
    ensures steps.Some? && |steps.value| > 0 ==> r == steps.value
    ensures (steps.None? || |steps.value| == 0) ==> r == sequence
    ensures |r| == 0 <==> |sequence| == 0 && (steps.None? || |steps.value| == 0)
  {
    if steps.Some? && |steps.value| > 0 then steps.value else sequence
  }

  /** `sequence.length - steps.length`, the index `runSequence` stores in `activeStep`. */
  function ActiveIndex(sequence: seq<Step>, steps: Option<seq<Step>>): int {
    |sequence| - |Effective(sequence, steps)|
  }

  /** The step state between two operations: the active index names a step
      of the list (or is 0 for an empty list), and a pending timer would
      continue with the steps after the active one. */
  predicate Consistent(sequence: seq<Step>, active: nat, pending: Option<seq<Step>>) {
    (|sequence| > 0 ==> active < |sequence|)
    && (|sequence| == 0 ==> active == 0)
    && (pending.Some? ==> active < |sequence| && pending.value == sequence[active + 1..])
  }

  /** The timer a run showing step `a` leaves behind: the steps after it
      while its duration is positive, none when the step is held (or missing). */
  function Scheduled(sequence: seq<Step>, a: nat): (p: Option<seq<Step>>)
    ensures p.Some? <==> a < |sequence| && sequence[a].s > 0.0
    ensures p.Some? ==> IsSuffix(p.value, sequence) && |p.value| == |sequence| - a - 1
  {
    if a < |sequence| && sequence[a].s > 0.0 then Some(sequence[a + 1..]) else None
  }

  /** The start `restartStep(step)` slices from: `step || this.activeStep`,
      so that step 0 (or no argument) stands for the active step. */
  function RestartFrom(active: nat, step: nat): (j: nat)
    ensures step == 0 ==> j == active
    ensures step != 0 ==> j == step
  {
    if step == 0 then active else step
  }

  /** A suffix taken at `k` is shown from step `k`; the empty suffix wraps to step 0. */
  lemma ActiveIndexOfSuffix(sequence: seq<Step>, k: nat)
    requires k <= |sequence|
    ensures ActiveIndex(sequence, Some(sequence[k..])) == if k < |sequence| then k else 0
    ensures k < |sequence| ==> Effective(sequence, Some(sequence[k..]))[0] == sequence[k]
    ensures k < |sequence| ==> Effective(sequence, Some(sequence[k..]))[1..] == sequence[k + 1..]
  {
    if k < |sequence| {
      assert |sequence[k..]| == |sequence| - k > 0;
    } else {
      assert |sequence[k..]| == 0;
    }
  }

  /** Every suffix of the sequence starts at the step it is shown as:
      the first step of the walked list is the step at the active index. */
  lemma SuffixStartsAtActive(sequence: seq<Step>, steps: Option<seq<Step>>)
    requires steps.Some? ==> IsSuffix(steps.value, sequence)
    requires |sequence| > 0
    ensures 0 <= ActiveIndex(sequence, steps) < |sequence|
    ensures Effective(sequence, steps) == sequence[ActiveIndex(sequence, steps)..]
    ensures Effective(sequence, steps)[0] == sequence[ActiveIndex(sequence, steps)]
    ensures Effective(sequence, steps)[1..] == sequence[ActiveIndex(sequence, steps) + 1..]
  {
    var st := Effective(sequence, steps);
    var k := ActiveIndex(sequence, steps);
    if steps.Some? && |steps.value| > 0 {
      assert st == sequence[|sequence| - |st|..];
    } else {
      assert st == sequence;
      assert sequence[0..] == sequence;
    }
    assert st[1..] == sequence[k..][1..] == sequence[k + 1..];
  }

  /** Whatever suffix a run is given, the index it stores and the timer it
      leaves are consistent with the list. */
  lemma RunIsConsistent(sequence: seq<Step>, steps: Option<seq<Step>>)
    requires steps.Some? ==> IsSuffix(steps.value, sequence)
    ensures 0 <= ActiveIndex(sequence, steps)
    ensures Consistent(sequence, ActiveIndex(sequence, steps), Scheduled(sequence, ActiveIndex(sequence, steps)))
  {
    if |sequence| > 0 {
      SuffixStartsAtActive(sequence, steps);
    }
  }

  /** `restartStep(step)` lands on `step || activeStep` when that is a step of
      the list, and on step 0 otherwise. */
  lemma RestartLandsOn(sequence: seq<Step>, active: nat, step: nat)
    ensures var j := RestartFrom(active, step);
      ActiveIndex(sequence, Some(Slice(sequence, j))) == if j < |sequence| then j else 0
    ensures step == 0 ==> RestartFrom(active, step) == active
  {
    var j := RestartFrom(active, step);
    if j < |sequence| {
      ActiveIndexOfSuffix(sequence, j);
    } else {
      assert Slice(sequence, j) == [];
    }
  }

  /** The continuation scheduled while step `a` is shown, once it runs, shows
      step `(a + 1) % |sequence|`: the last step wraps around to the first. */
  lemma ContinuationAdvances(sequence: seq<Step>, a: nat)
    requires a < |sequence|
    ensures ActiveIndex(sequence, Some(sequence[a + 1..])) == (a + 1) % |sequence|
  {
    ActiveIndexOfSuffix(sequence, a + 1);
    if a + 1 == |sequence| {
      assert (a + 1) % |sequence| == 0;
    } else {
      assert (a + 1) % |sequence| == a + 1;
    }
  }

  /** `splice` at the index of the only step leaves the sequence empty, and a
      run over an empty sequence has no first step to show. */
  lemma RemovingOnlyStepEmpties(s: seq<Step>)
    requires |s| == 1
    ensures Removed(s, 0) == []
    ensures Effective(Removed(s, 0), Some(Slice(Removed(s, 0), 0))) == []
  {
  }

  /** The corrected removal: `splice` only while more than one step remains. */
  function RemovedKeepingOne(s: seq<Step>, k: nat): (r: seq<Step>)
    ensures |s| >= 1 ==> |r| >= 1
    ensures |s| > 1 ==> r == Removed(s, k)
    ensures |s| <= 1 ==> r == s
  {
    if |s| <= 1 then s else Removed(s, k)
  }

  /** The list after the corrected removal is applied at each index of `ks` in turn. */
  function RemoveEach(s: seq<Step>, ks: seq<nat>): seq<Step>
    decreases |ks|
  {
    if ks == [] then s else RemoveEach(RemovedKeepingOne(s, ks[0]), ks[1..])
  }

  /** However many removals follow, the corrected removal never empties a
      non-empty list, never lengthens it, and once one step is left every
      further removal leaves it as it is. */
  lemma {:induction false} RemovalsNeverEmpty(s: seq<Step>, ks: seq<nat>)
    requires |s| >= 1
    ensures 1 <= |RemoveEach(s, ks)| <= |s|
    ensures |s| == 1 ==> RemoveEach(s, ks) == s
    decreases |ks|
  {
    if ks != [] {
      var s' := RemovedKeepingOne(s, ks[0]);
      assert |s'| <= |s|;
      RemovalsNeverEmpty(s', ks[1..]);
    }
  }
}
