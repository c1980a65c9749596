/** The step list `initOptions` starts from: the default step, the steps
    decoded from the location fragment, or one of two fallback steps when
    decoding throws. */
module HashDecode {
  import opened Options
  import opened Sequencer

  /** The step shown when there is no fragment. */
  const DefaultSequence: seq<Step> := [Step("ô", -1.0)]

  /** The text shown when a fragment that looks encoded cannot be decoded. */
  const FailureText: string := "<you failed/>"

  /** The marker that starts every encoded step list. */
  const EncodedMarker: char := '~'

  /** `hash` is the fragment without its leading `#` ("" when there is none);
      `parsed` is what the decoder returned for it, `None` when it threw. */
  function InitialSequence(hash: string, parsed: Option<seq<Step>>): (r: seq<Step>)
    ensures hash == "" ==> r == DefaultSequence
    ensures hash != "" && parsed.Some? ==> r == parsed.value
    ensures hash != "" && parsed.None? && hash[0] != EncodedMarker ==> r == [Step(hash, -1.0)]
    ensures hash != "" && parsed.None? && hash[0] == EncodedMarker ==> r == [Step(FailureText, -1.0)]
  {
    if hash == "" then DefaultSequence
    else if parsed.Some? then parsed.value
    else if hash[0] != EncodedMarker then [Step(hash, -1.0)]
    else [Step(FailureText, -1.0)]
  }

  /** Whenever the fragment was not decoded, the list is one step that is
      held forever, and it shows the raw fragment exactly when the fragment
      does not start with the marker. */
  lemma FallbackIsOneHeldStep(hash: string, parsed: Option<seq<Step>>)
    requires hash == "" || parsed.None?
    ensures var r := InitialSequence(hash, parsed);
      |r| == 1 && r[0].s <= 0.0
    ensures hash != "" ==>
      (InitialSequence(hash, parsed)[0].t == hash <==> hash[0] != EncodedMarker)
  {
    if hash != "" && hash[0] == EncodedMarker {
      assert FailureText[0] != hash[0];
    }
  }

  /** The starting list is empty only when a fragment decoded to the empty list. */
  lemma EmptyOnlyFromEmptyDecode(hash: string, parsed: Option<seq<Step>>)
    ensures |InitialSequence(hash, parsed)| == 0 <==> hash != "" && parsed == Some([])
  {
  }

  /** A plain fragment becomes its own text; a garbled encoded one the failure text. */
  lemma FallbackExamples()
    ensures InitialSequence("not-encoded-but-plain", None) == [Step("not-encoded-but-plain", -1.0)]
    ensures InitialSequence("~garbled", None) == [Step(FailureText, -1.0)]
  {
  }
}
