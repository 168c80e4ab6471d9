/** Naming of the run's artifacts: the results directory, `prompt.txt`, and one `i.png` per view,
    collected in view order for the video tool. */
module Outputs {
  import opened PyStr
  import CameraRig

  /** `os.path.join('outputs/', 'results' + stamp)`, where `stamp` is the formatted clock time. */
  function ResultsDir(stamp: string): (dir: string)
    ensures dir == "outputs/results" + stamp
  {
    PathJoin("outputs/", "results" + stamp)
  }

  /** `'{}.png'.format(i)`. */
  function ImageName(i: nat): (name: string)
    ensures |name| > 4 && '0' <= name[0] <= '9'
  {
    NatToString(i) + ".png"
  }

  /** An image name is a stem and the extension `.png`; the stem is the view index in decimal,
      without leading zeros, and it reads back as the index. */
  lemma ImageNameParts(i: nat)
    ensures var name := ImageName(i); name[|name| - 4..] == ".png"
    ensures var name := ImageName(i); var stem := name[..|name| - 4];
      AllDigits(stem) && (stem[0] == '0' <==> i == 0) && ParseNat(stem) == i
  {
    var name := ImageName(i);
    ParseNatToString(i);
    assert name[..|name| - 4] == NatToString(i);
  }

  /** `os.path.join(res_dir, '{}.png'.format(i))`: the image name inside the results directory. */
  function ImagePath(resDir: string, i: nat): (path: string)
    ensures var name := ImageName(i);
      resDir <= path && |resDir| + |name| <= |path| && path[|path| - |name|..] == name
    ensures resDir != [] ==> path[|path| - |ImageName(i)| - 1] == '/'
  {
    PathJoin(resDir, ImageName(i))
  }

  /** `os.path.join(res_dir, 'prompt.txt')`: `prompt.txt` inside the results directory. */
  function PromptPath(resDir: string): (path: string)
    ensures resDir <= path && |resDir| + 10 <= |path| && path[|path| - 10..] == "prompt.txt"
    ensures resDir != [] ==> path[|path| - 11] == '/'
  {
    PathJoin(resDir, "prompt.txt")
  }

  /** The views are saved as `0.png` to `7.png`. */
  lemma ViewImageNames()
    ensures seq(CameraRig.ViewCount, i requires 0 <= i => ImageName(i)) ==
      ["0.png", "1.png", "2.png", "3.png", "4.png", "5.png", "6.png", "7.png"]
  {
    assert ImageName(0) == "0.png" && ImageName(1) == "1.png" && ImageName(2) == "2.png";
    assert ImageName(3) == "3.png" && ImageName(4) == "4.png" && ImageName(5) == "5.png";
    assert ImageName(6) == "6.png" && ImageName(7) == "7.png";
  }

  /** Two views never share a file: different indices give different paths. */
  lemma ImagePathsDistinct(resDir: string, i: nat, j: nat)
    ensures ImagePath(resDir, i) == ImagePath(resDir, j) ==> i == j
  {
    var a, b := ImageName(i), ImageName(j);
    PathJoinInjective(resDir, a, b);
    if a == b {
      assert NatToString(i) == a[..|a| - 4];
      assert NatToString(j) == b[..|b| - 4];
      NatToStringInjective(i, j);
    }
  }

  /** No image overwrites the saved prompt. */
  lemma PromptPathIsNoImagePath(resDir: string, i: nat)
    ensures PromptPath(resDir) != ImagePath(resDir, i)
  {
    var a := ImageName(i);
    PathJoinInjective(resDir, "prompt.txt", a);
    assert a[0] == NatToString(i)[0];
  }

  /** The saving loop: for views 0..7, the path of the view's image is appended, so the list the
      video tool receives is in view order, not in the order a directory listing would give. */
  method SaveImagePaths(resDir: string) returns (paths: seq<string>)
    ensures |paths| == CameraRig.ViewCount
    ensures forall i :: 0 <= i < |paths| ==> paths[i] == ImagePath(resDir, i)
  {
    paths := [];
    for i := 0 to CameraRig.ViewCount
      invariant |paths| == i
      invariant forall j :: 0 <= j < i ==> paths[j] == ImagePath(resDir, j)
    {
      var imagePath := PathJoin(resDir, ImageName(i));
      paths := paths + [imagePath];
    }
  }
}
