/** The RGBA copy performed when a decoded image is read back from the
    off-screen 2D canvas (src/stores/selection.ts, lines 96-103). */
module Rgba {

  /** One element of a `Uint8Array` / `Uint8ClampedArray`. */
  newtype byte = x: int | 0 <= x < 256

  /** `k` zero bytes: what a freshly allocated `Uint8Array(k)` holds. */
  function Zeros(k: nat): (z: seq<byte>)
  {
    if k == 0 then [] else [0] + Zeros(k - 1)
  }

  /** The source bytes cut down, or padded with zeros, to exactly `n` bytes. */
  function Fit(pixels: seq<byte>, n: nat): (r: seq<byte>)
  {
    if n <= |pixels| then pixels[..n] else pixels + Zeros(n - |pixels|)
  }

  lemma {:induction false} ZerosAt(k: nat, j: nat)
    requires j < k
    ensures |Zeros(k)| == k && Zeros(k)[j] == 0
  {
    if j > 0 {
      ZerosAt(k - 1, j - 1);
    } else if k > 1 {
      ZerosAt(k - 1, 0);
    }
  }

  lemma {:induction false} ZerosLength(k: nat)
    ensures |Zeros(k)| == k
  {
    if k > 0 {
      ZerosLength(k - 1);
    }
  }

  /** Element `j` of `Fit(pixels, n)` is the source byte when there is one, else 0. */
  lemma FitAt(pixels: seq<byte>, n: nat, j: nat)
    requires j < n
    ensures |Fit(pixels, n)| == n
    ensures Fit(pixels, n)[j] == if j < |pixels| then pixels[j] else 0
  {
    FitLength(pixels, n);
    if n > |pixels| && j >= |pixels| {
      ZerosAt(n - |pixels|, j - |pixels|);
    }
  }

  /** The copy always yields exactly `n` bytes. */
  lemma FitLength(pixels: seq<byte>, n: nat)
    ensures |Fit(pixels, n)| == n
  {
    if n > |pixels| {
      ZerosLength(n - |pixels|);
    }
  }

  /** When the source already has `n` bytes the copy is the identity. */
  lemma FitExact(pixels: seq<byte>, n: nat)
    requires |pixels| == n
    ensures Fit(pixels, n) == pixels
  {
  }

  /** Writes `rgba[j] = pixels[j]` with the typed-array semantics of JavaScript:
      a write past the end of `rgba` is dropped, and reading past the end of
      `pixels` yields `undefined`, which a `Uint8Array` stores as 0. */
  method CopyByte(rgba: array<byte>, pixels: seq<byte>, j: nat)
    modifies rgba
    ensures j < rgba.Length ==> rgba[j] == if j < |pixels| then pixels[j] else 0
    ensures forall k :: 0 <= k < rgba.Length && k != j ==> rgba[k] == old(rgba[k])
  {
    if j < rgba.Length {
      rgba[j] := if j < |pixels| then pixels[j] else 0;
    }
  }

  /** The loop of lines 98-103 over an already zeroed buffer: copies the
      read-back pixels four bytes (one pixel) at a time, for as long as the
      source has bytes. */
  method CopyPixels(rgba: array<byte>, pixels: seq<byte>)
    requires forall j :: 0 <= j < rgba.Length ==> rgba[j] == 0
    modifies rgba
    ensures forall j :: 0 <= j < rgba.Length ==> rgba[j] == if j < |pixels| then pixels[j] else 0
  {
    var i := 0;
    while i < |pixels|
      invariant 0 <= i <= |pixels| + 3
      invariant forall j :: 0 <= j < rgba.Length ==> rgba[j] == if j < i && j < |pixels| then pixels[j] else 0
    {
      CopyByte(rgba, pixels, i);
      CopyByte(rgba, pixels, i + 1);
      CopyByte(rgba, pixels, i + 2);
      CopyByte(rgba, pixels, i + 3);
      i := i + 4;
    }
  }

  /** Lines 97-103 and the `Array.from` of line 117: allocates `width*height*4`
      zeroed bytes, copies the read-back pixels into them and returns the
      buffer as a sequence. */
  method CopyRgba(pixels: seq<byte>, width: nat, height: nat) returns (data: seq<byte>)
    ensures |data| == width * height * 4
    ensures data == Fit(pixels, width * height * 4)
    ensures |pixels| == width * height * 4 ==> data == pixels
    ensures forall j :: 0 <= j < |data| && j < |pixels| ==> data[j] == pixels[j]
  {
    var n := width * height * 4;
    var rgba := new byte[n](_ => 0);
    CopyPixels(rgba, pixels);
    data := rgba[..];
    FitLength(pixels, n);
    forall j | 0 <= j < n
      ensures data[j] == Fit(pixels, n)[j]
    {
      FitAt(pixels, n, j);
    }
    if |pixels| == n {
      FitExact(pixels, n);
    }
  }
}
