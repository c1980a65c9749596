/** The position arithmetic of `render`: the centred base position of the
    text, the two copies displaced by the oscillation offset `x0`, and the
    rotation of the three positions among the red, green and blue copies
    chosen by the active channel. */
module Positions {
  import opened Options

  /** The horizontal positions of the red, green and blue copies, in the
      order `renderChannels` draws them. */
  datatype Triple = Triple(red: int, green: int, blue: int)

  /** `width - textWidth >> 1`: an arithmetic shift, so the floor of half. */
  function Centre(width: int, textWidth: int): (x1: int)
    ensures 2 * x1 <= width - textWidth < 2 * x1 + 2
  {
    (width - textWidth) / 2
  }

  /** The three candidate positions `[x1, x2, x3]` with `x2 = x1 + x0` and
      `x3 = x1 - x0`: two copies placed symmetrically about the centre. */
  function Candidates(x0: int, width: int, textWidth: int): (p: seq<int>)
    ensures |p| == 3 && p[0] == Centre(width, textWidth)
    ensures p[1] - p[0] == p[0] - p[2] == x0
    ensures p[1] + p[2] == 2 * p[0]
  {
    var x1 := Centre(width, textWidth);
    [x1, x1 + x0, x1 - x0]
  }

  /** The `switch (this.channel)` of `render`: channel `k` gives red the
      candidate `k`, green the candidate `k + 1` and blue the candidate
      `k + 2`, cyclically; any other channel value draws nothing. */
  function ChannelPositions(channel: int, x0: int, width: int, textWidth: int): (r: Option<Triple>)
    ensures r.Some? <==> 0 <= channel <= 2
    ensures r.Some? ==>
      var p := Candidates(x0, width, textWidth);
      r.value.red == p[channel] && r.value.green == p[(channel + 1) % 3]
      && r.value.blue == p[(channel + 2) % 3]
  {
    var x1 := Centre(width, textWidth);
    var x2 := x1 + x0;
    var x3 := x1 - x0;
    if channel == 0 then Some(Triple(x1, x2, x3))
    else if channel == 1 then
      assert (channel + 1) % 3 == 2 && (channel + 2) % 3 == 0;
      Some(Triple(x2, x3, x1))
    else if channel == 2 then
      assert (channel + 1) % 3 == 0 && (channel + 2) % 3 == 1;
      Some(Triple(x3, x1, x2))
    else None
  }

  /** A cyclic rotation of a sequence keeps its elements and their multiplicities. */
  lemma RotationKeepsElements(s: seq<int>, k: nat)
    requires k <= |s|
    ensures multiset(s[k..] + s[..k]) == multiset(s)
  {
    assert s == s[..k] + s[k..];
  }

  /** Whatever the channel, the colours take the candidates in a cyclic
      rotation, so the three copies are drawn at the three candidates, each
      used once. */
  lemma PositionsArePermutation(channel: int, x0: int, width: int, textWidth: int)
    requires 0 <= channel <= 2
    ensures var r := ChannelPositions(channel, x0, width, textWidth).value;
      var p := Candidates(x0, width, textWidth);
      [r.red, r.green, r.blue] == p[channel..] + p[..channel]
      && multiset([r.red, r.green, r.blue]) == multiset(p)
  {
    var p := Candidates(x0, width, textWidth);
    var r := ChannelPositions(channel, x0, width, textWidth).value;
    assert [r.red, r.green, r.blue] == p[channel..] + p[..channel];
    RotationKeepsElements(p, channel);
  }

  /** Without oscillation all three copies coincide at the centre; with it,
      the next channel, channel 2 wrapping round to 0, hands each colour the
      next colour's candidate. */
  lemma RotationShiftsColours(channel: int, x0: int, width: int, textWidth: int)
    requires 0 <= channel <= 2
    ensures var a := ChannelPositions(channel, x0, width, textWidth).value;
      var b := ChannelPositions((channel + 1) % 3, x0, width, textWidth).value;
      b.red == a.green && b.green == a.blue && b.blue == a.red
    ensures x0 == 0 ==>
      var c := Centre(width, textWidth);
      ChannelPositions(channel, x0, width, textWidth) == Some(Triple(c, c, c))
  {
  }
}
