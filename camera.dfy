/** The eight-camera rig: the yaw schedule of the loop at the top level of the script and
    the intrinsic matrix K built by `get_K_R`. The focal length (a tangent of the field of view)
    and the rotation R (two Rodrigues rotations) are opaque inputs. */
module CameraRig {

  /** A 3 x 3 matrix as a sequence of rows. */
  type Matrix3 = seq<seq<real>>

  /** Number of views in the rig. */
  const ViewCount: nat := 8

  /** Degrees between neighbouring views. */
  const YawStep: nat := 45

  predicate IsMatrix3(m: Matrix3)
  {
    |m| == 3 && forall i :: 0 <= i < 3 ==> |m[i]| == 3
  }

  /** Every entry below the diagonal is zero. */
  predicate UpperTriangular(m: Matrix3)
    requires IsMatrix3(m)
  {
    forall i, j :: 0 <= j < i < 3 ==> m[i][j] == 0.0
  }

  /** `K` of `get_K_R` for focal length `f` and an image of `height` x `width` pixels:
      `[[f, 0, cx], [0, f, cy], [0, 0, 1]]` with the principal point `((width-1)/2, (height-1)/2)`. */
  function Intrinsic(f: real, height: nat, width: nat): (k: Matrix3)
    ensures IsMatrix3(k) && UpperTriangular(k)
    ensures k[0][0] == f && k[1][1] == f && k[0][1] == 0.0
    ensures k[2] == [0.0, 0.0, 1.0]
    // the principal point lies as far from the first pixel centre (0) as from the last (width-1, height-1)
    ensures k[0][2] - 0.0 == (width - 1) as real - k[0][2]
    ensures k[1][2] - 0.0 == (height - 1) as real - k[1][2]
  {
    var cx := (width - 1) as real / 2.0;
    var cy := (height - 1) as real / 2.0;
    [[f, 0.0, cx], [0.0, f, cy], [0.0, 0.0, 1.0]]
  }

  /** The matrix-vector product `m * v`. */
  function Apply(m: Matrix3, v: seq<real>): (r: seq<real>)
    requires IsMatrix3(m) && |v| == 3
    ensures |r| == 3
  {
    seq(3, i requires 0 <= i < 3 => m[i][0] * v[0] + m[i][1] * v[1] + m[i][2] * v[2])
  }

  /** The direction of the optical axis lands, in homogeneous pixel coordinates, on the
      principal point: the centre of the image. */
  lemma OpticalAxisHitsCentre(f: real, height: nat, width: nat)
    ensures Apply(Intrinsic(f, height, width), [0.0, 0.0, 1.0]) ==
      [(width - 1) as real / 2.0, (height - 1) as real / 2.0, 1.0]
  {
    var k := Intrinsic(f, height, width);
    var r := Apply(k, [0.0, 0.0, 1.0]);
    assert r[0] == k[0][2] && r[1] == k[1][2] && r[2] == 1.0;
  }

  /** The rig renders square views, so both coordinates of the principal point agree. */
  lemma SquarePrincipalPoint(f: real, resolution: nat)
    ensures Intrinsic(f, resolution, resolution)[0][2] == Intrinsic(f, resolution, resolution)[1][2]
  {
  }

  /** `degree = (45*i) % 360` for view `i`. */
  function Yaw(i: int): (d: int)
    ensures 0 <= d < 360
    ensures 0 <= i < ViewCount ==> d == YawStep * i
  {
    (YawStep * i) % 360
  }

  /** The yaws the rig loop visits, in view order. */
  function YawSchedule(): (s: seq<int>)
    ensures |s| == ViewCount && forall i :: 0 <= i < ViewCount ==> s[i] == YawStep * i
  {
    seq(ViewCount, i => Yaw(i))
  }

  /** The schedule is 0, 45, ..., 315: in range, evenly spaced by 45, strictly increasing and
      closing the circle (the step after the last view returns to the first). */
  lemma YawScheduleSweepsCircle()
    ensures YawSchedule() == [0, 45, 90, 135, 180, 225, 270, 315]
    ensures forall i :: 0 <= i < ViewCount ==> 0 <= YawSchedule()[i] < 360
    ensures forall i :: 0 < i < ViewCount ==> YawSchedule()[i] - YawSchedule()[i - 1] == YawStep
    ensures forall i, j :: 0 <= i < j < ViewCount ==> YawSchedule()[i] < YawSchedule()[j]
    ensures (YawSchedule()[ViewCount - 1] + YawStep) % 360 == YawSchedule()[0]
  {
  }

  /** Going once more around the loop's index space repeats the schedule: eight views cover the
      circle exactly once. */
  lemma YawPeriodic(i: int)
    ensures Yaw(i + ViewCount) == Yaw(i)
  {
    var x := YawStep * i;
    assert YawStep * (i + ViewCount) == x + 360;
    var q, r := x / 360, x % 360;
    assert x + 360 == 360 * (q + 1) + r;
  }

  /** The top-level rig loop: for views 0..7 call `get_K_R(90, degree, 0, resolution, resolution)`
      and append R and K. `f` is the focal length `get_K_R` computes for a 90 degree field of view,
      `rotation(theta, phi)` the rotation it composes. */
  method BuildRig(resolution: nat, f: real, rotation: (int, int) -> Matrix3)
    returns (rs: seq<Matrix3>, ks: seq<Matrix3>)
    ensures |rs| == ViewCount && |ks| == ViewCount
    ensures forall i :: 0 <= i < ViewCount ==>
      rs[i] == rotation(YawSchedule()[i], 0) && ks[i] == Intrinsic(f, resolution, resolution)
  {
    rs, ks := [], [];
    for i := 0 to ViewCount
      invariant |rs| == i && |ks| == i
      invariant forall j :: 0 <= j < i ==> rs[j] == rotation(Yaw(j), 0)
      invariant forall j :: 0 <= j < i ==> ks[j] == Intrinsic(f, resolution, resolution)
    {
      var degree := (YawStep * i) % 360;
      var k, r := Intrinsic(f, resolution, resolution), rotation(degree, 0);
      rs := rs + [r];
      ks := ks + [k];
    }
  }
}
