/** The conditioning image of the batch: a zero-filled view, and the reference photo mapped
    from 8-bit values to the model's range by `v / 127.5 - 1`. */
module Conditioning {

  /** An image as rows of columns of channel values. */
  type Grid<T> = seq<seq<seq<T>>>

  /** RGB. */
  const Channels: nat := 3

  /** `g` has `h` rows of `w` columns of `c` channels. */
  predicate HasShape<T>(g: Grid<T>, h: nat, w: nat, c: nat)
  {
    |g| == h && forall i :: 0 <= i < h ==> |g[i]| == w && forall j :: 0 <= j < w ==> |g[i][j]| == c
  }

  /** One view of `torch.zeros((1, 8, resolution, resolution, 3))`. */
  function ZeroView(resolution: nat): (z: Grid<real>)
    ensures HasShape(z, resolution, resolution, Channels)
    ensures forall i, j, k :: 0 <= i < resolution && 0 <= j < resolution && 0 <= k < Channels ==>
      z[i][j][k] == 0.0
  {
    seq(resolution, _ => seq(resolution, _ => seq(Channels, _ => 0.0)))
  }

  /** `v / 127.5 - 1` for one channel value. */
  function Scale(v: int): (x: real)
    ensures (x + 1.0) * 127.5 == v as real
  {
    v as real / 127.5 - 1.0
  }

  /** An 8-bit value lands in [-1, 1]; 0 goes to -1 and 255 to 1. */
  lemma ScaleRange(v: int)
    requires 0 <= v <= 255
    ensures -1.0 <= Scale(v) <= 1.0
    ensures v == 0 ==> Scale(v) == -1.0
    ensures v == 255 ==> Scale(v) == 1.0
  {
  }

  /** The scaling loses nothing: `(x + 1) * 127.5` recovers the value. */
  lemma ScaleInverse(v: int)
    ensures (Scale(v) + 1.0) * 127.5 == v as real
  {
  }

  /** `img / 127.5 - 1` applied to every channel value of the photo. */
  function Normalize(img: Grid<int>): (r: Grid<real>)
    ensures |r| == |img|
    ensures forall i :: 0 <= i < |img| ==> |r[i]| == |img[i]|
    ensures forall i, j :: 0 <= i < |img| && 0 <= j < |img[i]| ==> |r[i][j]| == |img[i][j]|
    ensures forall i, j, k :: 0 <= i < |img| && 0 <= j < |img[i]| && 0 <= k < |img[i][j]| ==>
      r[i][j][k] == Scale(img[i][j][k])
  {
    seq(|img|, i requires 0 <= i < |img| =>
      seq(|img[i]|, j requires 0 <= j < |img[i]| =>
        seq(|img[i][j]|, k requires 0 <= k < |img[i][j]| => Scale(img[i][j][k]))))
  }

  /** Normalising keeps the shape. */
  lemma NormalizeKeepsShape(img: Grid<int>, h: nat, w: nat, c: nat)
    ensures HasShape(Normalize(img), h, w, c) <==> HasShape(img, h, w, c)
  {
  }

  /** Every value of an 8-bit photo is normalised into [-1, 1]. */
  lemma NormalizeRange(img: Grid<int>)
    requires forall i, j, k :: 0 <= i < |img| && 0 <= j < |img[i]| && 0 <= k < |img[i][j]| ==>
      0 <= img[i][j][k] <= 255
    ensures var r := Normalize(img);
      forall i, j, k :: 0 <= i < |r| && 0 <= j < |r[i]| && 0 <= k < |r[i][j]| ==>
        -1.0 <= r[i][j][k] <= 1.0
  {
    var r := Normalize(img);
    forall i, j, k | 0 <= i < |r| && 0 <= j < |r[i]| && 0 <= k < |r[i][j]|
      ensures -1.0 <= r[i][j][k] <= 1.0
    {
      ScaleRange(img[i][j][k]);
    }
  }

  /** Two photos with the same normalised image are the same photo. */
  lemma NormalizeInjective(a: Grid<int>, b: Grid<int>)
    requires Normalize(a) == Normalize(b)
    ensures a == b
  {
    var r := Normalize(a);
    assert |a| == |b|;
    forall i | 0 <= i < |a| ensures a[i] == b[i] {
      assert |a[i]| == |b[i]|;
      forall j | 0 <= j < |a[i]| ensures a[i][j] == b[i][j] {
        assert |a[i][j]| == |b[i][j]|;
        forall k | 0 <= k < |a[i][j]| ensures a[i][j][k] == b[i][j][k] {
          ScaleInverse(a[i][j][k]);
          ScaleInverse(b[i][j][k]);
        }
      }
    }
  }
}
