/** The scanline corruption of `renderScanline`: read one full-width pixel
    row, add a brightness offset to every byte of it, and write it back
    shifted sideways. The pixel store has one row per canvas row and four
    bytes (R, G, B, A) per pixel, so byte `j` of a row belongs to pixel
    column `j / 4`. */
module Scanline {

  /** One element of a `Uint8ClampedArray`. */
  type Byte = b: int | 0 <= b < 256

  /** ToUint8Clamp (section 7.1.11 of ECMAScript 2015) on an integer: the byte
      nearest to `v`, which is what a store into a `Uint8ClampedArray` keeps. */
  function Distance(a: int, b: int): nat {
    if a <= b then b - a else a - b
  }

  function Clamp(v: int): (b: Byte)
    ensures forall c: Byte :: Distance(b, v) <= Distance(c, v)
    ensures 0 <= v < 256 ==> b == v
  {
    if v < 0 then 0 else if v > 255 then 255 else v
  }

  /** The row after `d[i] += s` for every index `i`. */
  function Brightened(row: seq<Byte>, s: int): (r: seq<Byte>)
    ensures |r| == |row|
    ensures forall j :: 0 <= j < |row| ==> r[j] == Clamp(row[j] + s)
  {
    seq(|row|, j requires 0 <= j < |row| => Clamp(row[j] + s))
  }

  /** Two non-negative offsets applied one after the other saturate exactly
      as their sum does: brightening composes. */
  lemma BrightenedComposes(row: seq<Byte>, s1: int, s2: int)
    requires 0 <= s1 && 0 <= s2
    ensures Brightened(Brightened(row, s1), s2) == Brightened(row, s1 + s2)
  {
    var a := Brightened(Brightened(row, s1), s2);
    var b := Brightened(row, s1 + s2);
    forall j | 0 <= j < |row| ensures a[j] == b[j] {
      assert a[j] == Clamp(Clamp(row[j] + s1) + s2);
    }
  }

  /** A non-negative offset never darkens a byte and leaves only saturated
      bytes unchanged; an offset of 255 or more turns the whole row to 255. */
  lemma BrightenedRaises(row: seq<Byte>, s: int)
    requires 0 <= s
    ensures forall j :: 0 <= j < |row| ==> row[j] <= Brightened(row, s)[j]
    ensures 0 < s ==> forall j :: 0 <= j < |row| ==> (Brightened(row, s)[j] == row[j] <==> row[j] == 255)
    ensures 255 <= s ==> forall j :: 0 <= j < |row| ==> Brightened(row, s)[j] == 255
  {
  }

  /** Destination row `dest` after `putImageData` of the one-row image `src`
      at horizontal offset `x`: destination byte `j` takes source byte
      `j - 4 * x` (pixel column `c` takes source column `c - x`) where that
      exists; bytes outside the copied span keep their old value. */
  function Shifted(dest: seq<Byte>, src: seq<Byte>, x: int): (r: seq<Byte>)
    ensures |r| == |dest|
  {
    seq(|dest|, j requires 0 <= j < |dest| => if 0 <= j - 4 * x < |src| then src[j - 4 * x] else dest[j])
  }

  /** Put back at offset 0 a row of the same width overwrites the whole row;
      at an offset of a full row width or more, in either direction, nothing
      of it lands on the canvas. */
  lemma ShiftedEdges(dest: seq<Byte>, src: seq<Byte>, x: int)
    requires |src| == |dest|
    ensures x == 0 ==> Shifted(dest, src, x) == src
    ensures |dest| <= 4 * x || 4 * x <= -|dest| ==> Shifted(dest, src, x) == dest
  {
  }

  /** `getImageData(0, y, width, 1).data`: a fresh copy of row `y`. */
  method ReadRow(pixels: array2<Byte>, y: int) returns (d: array<Byte>)
    requires 0 <= y < pixels.Length0
    requires pixels.Length1 > 0
    ensures fresh(d) && d.Length == pixels.Length1
    ensures forall j :: 0 <= j < d.Length ==> d[j] == pixels[y, j]
    ensures d[..] == Row(pixels, y)
  {
    d := new Byte[pixels.Length1](j reads pixels => if 0 <= j < pixels.Length1 then pixels[y, j] else 0);
    RowFromCells(pixels, y, d[..]);
  }

  /** The `while (i-- > 0) { d[i] += s; }` loop: every byte of the row,
      from the last to the first, and each stored through the clamp. */
  method Brighten(d: array<Byte>, s: int)
    modifies d
    ensures d[..] == Brightened(old(d[..]), s)
  {
    var i := d.Length;
    while i > 0
      invariant 0 <= i <= d.Length
      invariant forall j :: 0 <= j < i ==> d[j] == old(d[j])
      invariant forall j :: i <= j < d.Length ==> d[j] == Clamp(old(d[j]) + s)
    {
      i := i - 1;
      d[i] := Clamp(d[i] + s);
    }
  }

  /** `putImageData(o, x, y)` of a one-row image: row `y` of the canvas,
      clipped to the canvas, is replaced by the image shifted by `x` pixels;
      every other pixel keeps its value. The copy overwrites, it does not blend. */
  method PutRow(pixels: array2<Byte>, d: array<Byte>, x: int, y: int)
    requires 0 <= y < pixels.Length0
    modifies pixels
    ensures forall r, j :: 0 <= r < pixels.Length0 && 0 <= j < pixels.Length1 && r != y ==>
      pixels[r, j] == old(pixels[r, j])
    ensures forall j :: 0 <= j < pixels.Length1 ==>
      pixels[y, j] == if 0 <= j - 4 * x < d.Length then d[j - 4 * x] else old(pixels[y, j])
    ensures Row(pixels, y) == Shifted(old(Row(pixels, y)), d[..], x)
  {
    ghost var before := Row(pixels, y);
    forall j | 0 <= j < pixels.Length1 && 0 <= j - 4 * x < d.Length {
      pixels[y, j] := d[j - 4 * x];
    }
    RowFromCells(pixels, y, Shifted(before, d[..], x));
  }

  /** Row `y` of the canvas as a sequence. */
  ghost function Row(pixels: array2<Byte>, y: int): (r: seq<Byte>)
    requires 0 <= y < pixels.Length0
    reads pixels
    ensures |r| == pixels.Length1
  {
    seq(pixels.Length1, j requires 0 <= j < pixels.Length1 reads pixels => pixels[y, j])
  }

  /** A row is the sequence of its cells. */
  lemma RowFromCells(pixels: array2<Byte>, y: int, cells: seq<Byte>)
    requires 0 <= y < pixels.Length0 && |cells| == pixels.Length1
    requires forall j :: 0 <= j < |cells| ==> pixels[y, j] == cells[j]
    ensures Row(pixels, y) == cells
  {
  }

  /** `renderScanline` for the drawn row `y`, offset `s` and shift `x`: row
      `y` becomes the brightened copy of itself put back at offset `x`, and
      no other row changes. */
  method Corrupt(pixels: array2<Byte>, y: int, s: int, x: int)
    requires 0 <= y < pixels.Length0
    requires pixels.Length1 > 0
    modifies pixels
    ensures forall r, j :: 0 <= r < pixels.Length0 && 0 <= j < pixels.Length1 && r != y ==>
      pixels[r, j] == old(pixels[r, j])
    ensures Row(pixels, y) == Shifted(old(Row(pixels, y)), Brightened(old(Row(pixels, y)), s), x)
  {
    var d := ReadRow(pixels, y);
    Brighten(d, s);
    PutRow(pixels, d, x, y);
  }
}
