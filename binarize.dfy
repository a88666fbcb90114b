/**
 * The last step of `preprocessImage`: the `image.scan` callback that turns
 * the (already greyscaled) RGBA bitmap into black and white, in place.
 *
 * The bitmap's bytes are laid out pixel by pixel, four bytes per pixel (red,
 * green, blue, alpha). For every pixel the callback averages the red, green
 * and blue bytes and writes 255 into all three when the average exceeds 128,
 * and 0 otherwise; the alpha byte is never written.
 */
module Preprocess {

  /** One byte of the bitmap buffer (a Node.js Buffer holds 0..255). */
  type Byte = x: int | 0 <= x < 256

  /** `(red + green + blue) / 3 > 128`, with exact division. */
  predicate Bright(red: Byte, green: Byte, blue: Byte)
  {
    (red as int + green as int + blue as int) as real / 3.0 > 128.0
  }

  /** The value written to the red, green and blue bytes of a pixel: white exactly when r+g+b > 384, black otherwise. */
  function BinaryValue(red: Byte, green: Byte, blue: Byte): (r: Byte)
    ensures r == 0 || r == 255
    ensures r == 255 <==> red as int + green as int + blue as int > 384
  {
    if Bright(red, green, blue) then 255 else 0
  }

  /** Byte `i` of the buffer after the pass over the whole of `s`. */
  function BinarizedAt(s: seq<Byte>, i: nat): Byte
    requires |s| % 4 == 0 && i < |s|
  {
    var px := i - i % 4;
    if i % 4 == 3 then s[i] else BinaryValue(s[px], s[px + 1], s[px + 2])
  }

  /** The buffer after the pass over every pixel of `s`. */
  function Binarized(s: seq<Byte>): (r: seq<Byte>)
    requires |s| % 4 == 0
  {
    seq(|s|, i requires 0 <= i < |s| => BinarizedAt(s, i))
  }

  /** The average test is the integer test `red + green + blue > 384`. */
  lemma BrightIsSumAbove384(red: Byte, green: Byte, blue: Byte)
    ensures Bright(red, green, blue) <==> red as int + green as int + blue as int > 384
  {
  }

  /**
   * After the pass every pixel is pure black or pure white: its red, green
   * and blue bytes are equal, 255 exactly when they summed to more than 384
   * before; its alpha byte and the length of the buffer are unchanged.
   */
  lemma BinarizedPixel(s: seq<Byte>, p: nat)
    requires |s| % 4 == 0 && 4 * p < |s|
    ensures |Binarized(s)| == |s|
    ensures Binarized(s)[4 * p] == Binarized(s)[4 * p + 1] == Binarized(s)[4 * p + 2]
    ensures Binarized(s)[4 * p] in {0, 255}
    ensures Binarized(s)[4 * p] == 255 <==> s[4 * p] as int + s[4 * p + 1] as int + s[4 * p + 2] as int > 384
    ensures Binarized(s)[4 * p + 3] == s[4 * p + 3]
  {
    var r := Binarized(s);
    assert r[4 * p] == BinarizedAt(s, 4 * p);
    assert r[4 * p + 1] == BinarizedAt(s, 4 * p + 1);
    assert r[4 * p + 2] == BinarizedAt(s, 4 * p + 2);
    assert r[4 * p + 3] == BinarizedAt(s, 4 * p + 3);
    BrightIsSumAbove384(s[4 * p], s[4 * p + 1], s[4 * p + 2]);
  }

  /** A black-and-white image stays as it is when binarised again. */
  lemma BinarizedIdempotent(s: seq<Byte>)
    requires |s| % 4 == 0
    ensures Binarized(Binarized(s)) == Binarized(s)
  {
    var r := Binarized(s);
    forall i | 0 <= i < |s|
      ensures Binarized(r)[i] == r[i]
    {
      var p := i / 4;
      BinarizedPixel(s, p);
      assert i == 4 * p + i % 4;
    }
  }

  /**
   * `image.scan(0, 0, width, height, cb)`: the callback is run for the
   * pixels in row order (x inner), at byte offsets 0, 4, 8, ... of
   * `bitmap.data`, and overwrites the red, green and blue bytes in place.
   */
  method Binarize(data: array<Byte>, width: nat, height: nat)
    requires data.Length == 4 * (width * height)
    modifies data
    ensures data[..] == Binarized(old(data[..]))
  {
    ghost var original := data[..];
    var pixels := width * height;
    var p := 0;
    while p < pixels
      invariant 0 <= p <= pixels
      invariant forall j :: 0 <= j < 4 * p ==> data[j] == BinarizedAt(original, j)
      invariant forall j :: 4 * p <= j < data.Length ==> data[j] == original[j]
    {
      var idx := 4 * p;
      var red: int, green: int, blue: int := data[idx], data[idx + 1], data[idx + 2];
      var binaryValue: Byte := if (red + green + blue) as real / 3.0 > 128.0 then 255 else 0;
      data[idx] := binaryValue;
      data[idx + 1] := binaryValue;
      data[idx + 2] := binaryValue;
      assert forall j :: idx <= j < idx + 4 ==> j - j % 4 == idx;
      p := p + 1;
    }
  }
}
