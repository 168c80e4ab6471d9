/** The top level of the demo script up to the model call: the metadata prompt, the camera rig,
    the image tensor with the reference photo in view 0, the prompt list, and the batch. */
module Demo {
  import opened Wrappers
  import opened Failures
  import opened CameraRig
  import opened Conditioning
  import opened Prompts
  import PyStr
  import Crop

  /** A reference photo for outpainting: its pixels after colour conversion and
      `resize_and_center_crop`, and the metadata the reader returned for its file. */
  datatype Reference = Reference(pixels: Grid<int>, metadata: map<string, string>)

  /** The `batch` handed to `model.inference`, without the leading batch axis of length one. */
  datatype InferenceBatch = InferenceBatch(
    images: seq<Grid<real>>,
    prompt: seq<string>,
    rotations: seq<Matrix3>,
    intrinsics: seq<Matrix3>)

  /** The batch and the text later written to `prompt.txt`. */
  datatype Prepared = Prepared(batch: InferenceBatch, displayText: string)

  /** `images[0,0] = img` succeeds only for an image of the view's shape. */
  predicate Fits<T>(img: Grid<T>, resolution: nat)
  {
    HasShape(img, resolution, resolution, Channels)
  }

  /** The image tensor after the assignment: the normalised reference in view 0 when there is
      one, zeros everywhere else. */
  function ConditionedViews(resolution: nat, reference: Option<Reference>): (views: seq<Grid<real>>)
    ensures |views| == ViewCount
    ensures forall v :: 1 <= v < ViewCount ==> views[v] == ZeroView(resolution)
    ensures views[0] == if reference.Some? then Normalize(reference.value.pixels) else ZeroView(resolution)
  {
    seq(ViewCount, v requires 0 <= v < ViewCount =>
      if v == 0 && reference.Some? then Normalize(reference.value.pixels) else ZeroView(resolution))
  }

  /** The metadata of the reference photo, read only when there is one. */
  function MetadataOf(reference: Option<Reference>): Option<map<string, string>>
  {
    if reference.Some? then Some(reference.value.metadata) else None
  }

  /** What the script computes before the model call, in its order: the metadata block may raise,
      then the assignment of the reference into view 0, then the prompt block. */
  function ExpectedRun(
    resolution: nat, f: real, rotation: (int, int) -> Matrix3,
    text: string, reference: Option<Reference>, promptFile: Option<string>): (r: Result<Prepared, Error>)
    ensures r.Ok? ==> reference.Some? ==> Fits(reference.value.pixels, resolution)
    ensures r.Ok? ==>
      && |r.value.batch.images| == ViewCount && |r.value.batch.rotations| == ViewCount
      && |r.value.batch.intrinsics| == ViewCount && |r.value.batch.prompt| >= ViewCount
      && r.value.displayText == r.value.batch.prompt[0]
  {
    match TextAfterMetadata(text, MetadataOf(reference))
    case Err(e) => Err(e)
    case Ok(text') =>
      if reference.Some? && !Fits(reference.value.pixels, resolution) then Err(ReferenceShapeMismatch)
      else
        match ResolvePromptSet(text', promptFile)
        case Err(e) => Err(e)
        case Ok(ps) =>
          var rotations := seq(ViewCount, i requires 0 <= i < ViewCount => rotation(YawSchedule()[i], 0));
          var intrinsics := seq(ViewCount, _ => Intrinsic(f, resolution, resolution));
          Ok(Prepared(InferenceBatch(ConditionedViews(resolution, reference), ps.prompt, rotations, intrinsics),
                      ps.displayText))
  }

  /** The script from reading the reference photo to building `batch`. `text` is `--text`,
      `promptFile` the content of `--text_path` when given, `f` and `rotation` stand for the
      trigonometry of `get_K_R`. */
  method PrepareRun(
    resolution: nat, f: real, rotation: (int, int) -> Matrix3,
    text: string, reference: Option<Reference>, promptFile: Option<string>)
    returns (r: Result<Prepared, Error>)
    ensures r == ExpectedRun(resolution, f, rotation, text, reference, promptFile)
  {
    var argsText := text;
    var img: Option<Grid<real>> := None;
    if reference.Some? {
      img := Some(Normalize(reference.value.pixels));
      var embedded := ReadEmbeddedPrompt(reference.value.metadata);
      if embedded.Err? {
        return Err(embedded.error);
      }
      if embedded.value.Some? {
        argsText := embedded.value.value.positive;
      }
    }
    var rs, ks := BuildRig(resolution, f, rotation);
    var images := new Grid<real>[ViewCount](_ => ZeroView(resolution));
    if img.Some? {
      NormalizeKeepsShape(reference.value.pixels, resolution, resolution, Channels);
      if !Fits(img.value, resolution) {
        return Err(ReferenceShapeMismatch);
      }
      images[0] := img.value;
    }
    var prompts := ResolvePrompts(argsText, promptFile);
    if prompts.Err? {
      return Err(prompts.error);
    }
    assert images[..] == ConditionedViews(resolution, reference);
    assert rs == seq(ViewCount, i requires 0 <= i < ViewCount => rotation(YawSchedule()[i], 0));
    assert ks == seq(ViewCount, _ => Intrinsic(f, resolution, resolution));
    r := Ok(Prepared(InferenceBatch(images[..], prompts.value.prompt, rs, ks), prompts.value.displayText));
  }

  /** Every view of the image tensor has the model's shape when the reference does. */
  lemma ConditionedViewsLayout(resolution: nat, reference: Option<Reference>)
    requires reference.Some? ==> Fits(reference.value.pixels, resolution)
    ensures var views := ConditionedViews(resolution, reference);
      forall v :: 0 <= v < |views| ==> HasShape(views[v], resolution, resolution, Channels)
  {
    if reference.Some? {
      NormalizeKeepsShape(reference.value.pixels, resolution, resolution, Channels);
    }
  }

  /** Layout of a prepared batch: the conditioned views, eight rotations at the rig's yaws
      0, 45, ..., 315, eight identical intrinsics, and at least eight prompts, the first of which
      is the display text. A successful run always had a reference of the view's shape. */
  lemma BatchLayout(
    resolution: nat, f: real, rotation: (int, int) -> Matrix3,
    text: string, reference: Option<Reference>, promptFile: Option<string>)
    requires ExpectedRun(resolution, f, rotation, text, reference, promptFile).Ok?
    ensures reference.Some? ==> Fits(reference.value.pixels, resolution)
    ensures var p := ExpectedRun(resolution, f, rotation, text, reference, promptFile).value;
      && p.batch.images == ConditionedViews(resolution, reference)
      && |p.batch.rotations| == ViewCount && |p.batch.intrinsics| == ViewCount
      && (forall i :: 0 <= i < ViewCount ==> p.batch.rotations[i] == rotation(45 * i, 0))
      && (forall i :: 0 <= i < ViewCount ==> p.batch.intrinsics[i] == Intrinsic(f, resolution, resolution))
      && |p.batch.prompt| >= ViewCount && p.displayText == p.batch.prompt[0]
  {
    var t := TextAfterMetadata(text, MetadataOf(reference));
    var ps := ResolvePromptSet(t.value, promptFile);
    var p := ExpectedRun(resolution, f, rotation, text, reference, promptFile).value;
    assert p.batch.rotations == seq(ViewCount, i requires 0 <= i < ViewCount => rotation(YawSchedule()[i], 0));
    assert p.batch.prompt == ps.value.prompt && p.displayText == ps.value.displayText;
    forall i | 0 <= i < ViewCount ensures p.batch.rotations[i] == rotation(45 * i, 0) {
      assert YawSchedule()[i] == Yaw(i);
    }
  }

  /** The run fails exactly when the metadata field has no second line, the reference does not
      have the view's shape, or the prompt file has fewer than eight lines; and the first of these
      in the script's order is the error reported. */
  lemma RunFailsIff(
    resolution: nat, f: real, rotation: (int, int) -> Matrix3,
    text: string, reference: Option<Reference>, promptFile: Option<string>)
    ensures var r := ExpectedRun(resolution, f, rotation, text, reference, promptFile);
      var badMetadata := reference.Some? && ParametersKey in reference.value.metadata &&
        '\n' !in reference.value.metadata[ParametersKey];
      var badShape := reference.Some? && !Fits(reference.value.pixels, resolution);
      var shortFile := promptFile.Some? && |PyStr.FileLines(promptFile.value)| < ViewCount;
      && (r.Err? <==> badMetadata || badShape || shortFile)
      && (badMetadata ==> r == Err(MissingNegativePrompt))
      && (!badMetadata && badShape ==> r == Err(ReferenceShapeMismatch))
      && (!badMetadata && !badShape && shortFile ==>
            r == Err(TooFewPromptLines))
  {
  }

  /** Precedence of the prompt sources in a successful run: a prompt file beats the embedded
      prompt, which beats `--text`. */
  lemma PromptPrecedence(
    resolution: nat, f: real, rotation: (int, int) -> Matrix3,
    text: string, reference: Option<Reference>, promptFile: Option<string>)
    requires ExpectedRun(resolution, f, rotation, text, reference, promptFile).Ok?
    ensures var p := ExpectedRun(resolution, f, rotation, text, reference, promptFile).value;
      var embedded := reference.Some? && ParametersKey in reference.value.metadata;
      && (promptFile.Some? ==>
            p.batch.prompt == StrippedLines(promptFile.value) &&
            p.displayText == PyStr.Strip(PyStr.FileLines(promptFile.value)[0]))
      && (promptFile.None? && embedded ==>
            var positive := PyStr.Split(reference.value.metadata[ParametersKey], '\n')[0];
            p.batch.prompt == Broadcast(positive) && p.displayText == positive)
      && (promptFile.None? && !embedded ==>
            p.batch.prompt == Broadcast(text) && p.displayText == text)
  {
    if reference.Some? {
      EmbeddedPromptOverridesText(text, reference.value.metadata);
    }
    if promptFile.Some? {
      StripEachAt(PyStr.FileLines(promptFile.value), 0);
    }
  }

  /** With the crop as written, a reference of the cropped shape fits view 0 exactly when the
      source is square or the resize leaves a surplus; otherwise the run stops at the assignment. */
  lemma AsWrittenCropFitsIff(src: Crop.Shape, resolution: nat, pixels: Grid<int>)
    requires Crop.ValidSource(src) && resolution > 0
    requires var s := Crop.ResizeAndCenterCrop(src, resolution); HasShape(pixels, s.height, s.width, Channels)
    ensures Fits(pixels, resolution) <==>
      src.height == src.width || Crop.CurrentSize(src, resolution) > resolution
  {
    var s := Crop.ResizeAndCenterCrop(src, resolution);
    if !(src.height == src.width || Crop.CurrentSize(src, resolution) > resolution) {
      if src.height > src.width {
        assert |pixels| == 0;
      } else {
        assert |pixels[0]| == 0;
      }
    }
  }

  /** With the corrected crop, the reference always fits view 0. */
  lemma FixedCropFits(src: Crop.Shape, resolution: nat, pixels: Grid<int>)
    requires Crop.ValidSource(src) && resolution > 0
    requires var s := Crop.CenterCropFixed(src, resolution); HasShape(pixels, s.height, s.width, Channels)
    ensures Fits(pixels, resolution)
  {
  }

  /** Scenario of an embedded `pos\nneg` prompt and no prompt file: every view is prompted with
      `pos` and `pos` becomes the display text, whatever `--text` said. */
  lemma EmbeddedPromptScenario(
    resolution: nat, f: real, rotation: (int, int) -> Matrix3, text: string, pixels: Grid<int>)
    requires Fits(pixels, resolution)
    ensures var r := ExpectedRun(resolution, f, rotation, text,
                                 Some(Reference(pixels, map[ParametersKey := "pos\nneg"])), None);
      r.Ok? && r.value.displayText == "pos" && r.value.batch.prompt == Broadcast("pos")
  {
    EmbeddedPromptExample(text);
  }
}
