/** The contrast step of `preprocessImage` (src/App.jsx:38-52): every pixel
    of the RGBA buffer becomes pure black or pure white, alpha untouched. */
module Binarize {
  import opened Ocr

  /** The value the three colour bytes of a pixel take: white when the sum
      of the channels is above 384, black otherwise. */
  function Threshold(r: byte, g: byte, b: byte): byte
  {
    if r as int + g as int + b as int > 384 then 255 else 0
  }

  /** The test of src/App.jsx:45-46, on the real average of the channels:
      the average is above 128 exactly when the sum is above 384. */
  function Level(r: byte, g: byte, b: byte): (v: byte)
    ensures v == Threshold(r, g, b)
  {
    if (r as real + g as real + b as real) / 3.0 > 128.0 then 255 else 0
  }

  /** One pixel `[r, g, b, a]` after thresholding. */
  function PixelOut(p: seq<byte>): (q: seq<byte>)
    requires |p| == 4
  {
    var v := Threshold(p[0], p[1], p[2]);
    [v, v, v, p[3]]
  }

  /** The whole buffer after the loop of src/App.jsx:44-48, pixel by pixel
      from the front; defined from the back so that it follows the loop. */
  function Binarized(s: seq<byte>): (r: seq<byte>)
    requires |s| % 4 == 0
    ensures |r| == |s|
    decreases |s|
  {
    if |s| == 0 then [] else Binarized(s[..|s| - 4]) + PixelOut(s[|s| - 4..])
  }

  /** What the loop writes at every pixel: the three colour bytes all become
      Threshold of the pixel (255 exactly when r + g + b > 384, that is when
      the average is above 128, and 0 otherwise), and the alpha byte is
      left as it was. */
  lemma {:induction false} BinarizedPixel(s: seq<byte>, p: nat)
    requires |s| % 4 == 0 && p % 4 == 0 && p < |s|
    ensures p + 3 < |s|
    ensures var v := Threshold(s[p], s[p + 1], s[p + 2]);
      Binarized(s)[p] == v && Binarized(s)[p + 1] == v && Binarized(s)[p + 2] == v
    ensures Binarized(s)[p + 3] == s[p + 3]
    decreases |s|
  {
    var n := |s| - 4;
    if p < n {
      BinarizedPixel(s[..n], p);
      assert Binarized(s) == Binarized(s[..n]) + PixelOut(s[n..]);
    }
  }

  /** A black-or-white pixel is a fixed point of the threshold. */
  lemma PixelOutIdempotent(p: seq<byte>)
    requires |p| == 4
    ensures PixelOut(PixelOut(p)) == PixelOut(p)
  {
    var v := Threshold(p[0], p[1], p[2]);
    assert Threshold(v, v, v) == v;
  }

  /** Binarizing an already binarized buffer changes nothing. */
  lemma {:induction false} BinarizedIdempotent(s: seq<byte>)
    requires |s| % 4 == 0
    ensures Binarized(Binarized(s)) == Binarized(s)
    decreases |s|
  {
    if |s| > 0 {
      var n := |s| - 4;
      var front, last := Binarized(s[..n]), PixelOut(s[n..]);
      var b := front + last;
      assert b[..n] == front && b[n..] == last;
      BinarizedIdempotent(s[..n]);
      PixelOutIdempotent(s[n..]);
      assert Binarized(b) == Binarized(front) + PixelOut(last);
    }
  }

  /** The loop of src/App.jsx:44-48 over the canvas buffer, in place. */
  method Binarize(data: array<byte>)
    requires data.Length % 4 == 0
    modifies data
    ensures data[..] == Binarized(old(data[..]))
  {
    ghost var orig := data[..];
    ghost var target := Binarized(orig);
    var i := 0;
    while i < data.Length
      invariant 0 <= i <= data.Length && i % 4 == 0
      invariant forall k | 0 <= k < i :: data[k] == target[k]
      invariant forall k | i <= k < data.Length :: data[k] == orig[k]
    {
      BinarizedPixel(orig, i);
      var newVal := Level(data[i], data[i + 1], data[i + 2]);
      data[i] := newVal;
      data[i + 1] := newVal;
      data[i + 2] := newVal;
      i := i + 4;
    }
    assert data[..] == target;
  }
}
