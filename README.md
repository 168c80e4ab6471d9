# Panorama demo: rig, conditioning batch and prompts, modelled in Dafny

This project models the part of the multi-view panorama demo (`demo.py`) that decides
what is handed to the generative model, and how its output is named:

- `resize_and_center_crop`: the square, tall and wide branches, the resized long side
  `current_size`, the two crop margins, and Python's slicing of the resized image.
  `cv2.resize` is modelled by the shape it returns.
- The camera rig: the yaw schedule `(45*i) % 360` of the eight views, and the structure of
  the intrinsic matrix `K` built by `get_K_R`.
- The conditioning tensor: eight zero views. View 0 is replaced by the reference photo
  mapped to `v / 127.5 - 1` when there is one. The assignment fails when the shapes differ.
- Prompt resolution, with these sources from highest to lowest precedence:
  - a prompt file, read line by line and stripped, and rejected when it has fewer than eight lines;
  - the prompt embedded in the reference PNG's `PNG:Parameters` field (its first line; reading
    the second line raises when it is missing);
  - the `--text` argument, repeated for every view.
- Output naming: `outputs/results<stamp>`, `prompt.txt`, and `0.png` to `7.png`, collected in view order.

Modules, one per file:

- `Wrappers`, `Failures`: `Option`/`Result` and the three ways a run stops before the model call.
- `PySlice`: Python `s[start:stop]`.
- `Crop`: `resize_and_center_crop` on shapes and on pixel grids, as written and as evidently
  intended.
- `CameraRig`: `K`, the yaw schedule and the rig loop (a method).
- `PyStr`: the Python string built-ins the script relies on: `strip`, `split`, reading a text
  file line by line, `'{}'.format(n)` and `os.path.join`.
- `Conditioning`: zero views and normalisation.
- `Prompts`: the metadata block, the prompt-file loop (a method) and the prompt block.
- `Outputs`: the results directory and the image-path loop (a method).
- `Demo`: the script from the reference photo to `batch`. The method `PrepareRun` updates an
  array of eight views in place. It is proved equal to the specification function `ExpectedRun`.

Where the behaviour one would expect from the script differs from what its code does, the model
follows the code:

- One might expect a prompt file to need exactly eight lines, one per view. The code rejects only
  files of fewer than eight lines, so longer files are accepted (`Prompts.ResolvePromptSet`).
- One might expect a metadata field with fewer than two lines to count as absent. The code
  indexes `[1]` of the split field and raises (`Prompts.ReadEmbeddedPrompt`).
- One might expect prompt lines to lose only their line ends. The code calls `strip()`, which
  removes leading and trailing whitespace.
- The crop is meant to yield `size` x `size`. It does not always (see Findings).

## Model

| member | source | states |
|---|---|---|
| PySlice.Bound | demo.py:67-73 | a slice bound resolves as Python does: a negative bound counts from the end, and the result is clamped to [0, n] |
| PySlice.Slice | demo.py:67-73 | `s[start:stop]` has the resolved length, and its k-th element is the source's element at the resolved start plus k |
| PySlice.TrailingMarginSlice | demo.py:67-73 | `s[l:-m]` keeps n-l-m elements when m > 0 and none when m == 0, because `-0` is the bound 0 |
| Crop.CurrentSize | demo.py:62-69 | the resized long side `int(size*long/short)` is at least `size` for a non-square source |
| Crop.Plan | demo.py:59-72 | the branch is square exactly when H == W and rows exactly when H > W; the margins are non-negative, add up with `size` to `current_size`, and the trailing margin is the leading one or one more |
| Crop.ResizeAndCenterCrop | demo.py:57-74 | the output shape as written: `size` x `size` for a square source; for a tall (wide) source the width (height) is `size` and the height (width) is `size` when `current_size > size`, else 0 |
| Crop.SurplusIff | demo.py:62-67 | the resized long side exceeds `size` exactly when `size*(long-short) >= short` |
| Crop.AsWrittenSquareIff | demo.py:59-73 | the output is square iff the source is square, or tall with `size*(H-W) >= W`, or wide with `size*(W-H) >= H` |
| Crop.EmptyCropExample | demo.py:62-67 | a 1000 x 999 source at size 512 gives `current_size` 512 and an empty crop of shape 0 x 512 |
| Crop.EmptyColumnCropExample | demo.py:69-73 | a 999 x 1000 source at size 512 gives `current_size` 512 and an empty crop of shape 512 x 0 |
| Crop.CenterCropFixed | demo.py:65-73 | the crop with the slice `[margin_l:margin_l+size]` always yields `size` x `size` |
| Crop.CropGrid | demo.py:67-73 | the square branch keeps the resized grid; a row crop keeps as many whole rows as the slice selects, row i being resized row `margin_l + i` (resolved); a column crop keeps every row, each cut to the slice's length, pixel (i, j) being resized pixel (i, `margin_l + j`) |
| Crop.CropRowsWindow | demo.py:63-67 | on a resized grid of `current_size` rows of width `size`, the row crop keeps `size` rows when `margin_r > 0` and none when it is 0; kept row i is resized row `margin_l + i` |
| Crop.CropColsWindow | demo.py:70-73 | on a resized grid of `size` rows of `current_size` columns, the column crop keeps every row with `size` columns when `margin_r > 0` and none when it is 0; kept pixel (i, j) is resized pixel (i, `margin_l + j`) |
| Crop.CropGridShape | demo.py:57-74 | slicing the grid `cv2.resize` returns gives a grid of exactly the shape `ResizeAndCenterCrop` states |
| CameraRig.Intrinsic | demo.py:28-34 | K is 3 x 3 and upper triangular, with `K[0][0] == K[1][1] == f`, `K[0][1] == 0`, last row `[0, 0, 1]`, and a principal point midway between the first and last pixel centres on both axes |
| CameraRig.OpticalAxisHitsCentre | demo.py:28-34 | K maps the optical axis (0, 0, 1) to ((width-1)/2, (height-1)/2, 1) |
| CameraRig.SquarePrincipalPoint | demo.py:120-121 | with height == width == resolution, `cx == cy` |
| CameraRig.Yaw | demo.py:119 | the yaw lies in [0, 360), and is `45*i` for the views 0..7 |
| CameraRig.YawSchedule | demo.py:118-119 | the schedule has eight entries and entry i is `45*i` |
| CameraRig.YawScheduleSweepsCircle | demo.py:118-119 | the schedule is 0, 45, ..., 315: in range, step 45, strictly increasing (so distinct), and the step after view 7 returns to view 0 |
| CameraRig.YawPeriodic | demo.py:118-119 | view i+8 would get view i's yaw: eight views cover the circle once |
| CameraRig.BuildRig | demo.py:116-124 | the loop appends eight Rs and Ks; R_i is the rotation for the i-th scheduled yaw and pitch 0, and every K_i is `K(f, resolution, resolution)` |
| Conditioning.ZeroView | demo.py:126 | a view of `torch.zeros` has shape resolution x resolution x 3 and every entry 0 |
| Conditioning.Scale | demo.py:98 | `v/127.5-1` is the value x with `(x+1)*127.5 == v` |
| Conditioning.ScaleRange | demo.py:98 | `v/127.5-1` maps 0..255 into [-1, 1], with 0 to -1 and 255 to 1 |
| Conditioning.ScaleInverse | demo.py:98 | `(x+1)*127.5` recovers the 8-bit value |
| Conditioning.Normalize | demo.py:98 | `img/127.5-1` keeps every axis length and maps each channel value by the scaling |
| Conditioning.NormalizeKeepsShape | demo.py:98 | the normalised image has a given shape iff the photo has it |
| Conditioning.NormalizeRange | demo.py:98 | an 8-bit photo normalises into [-1, 1] everywhere |
| Conditioning.NormalizeInjective | demo.py:98 | different photos give different normalised images |
| PyStr.SkipSpace | demo.py:135 | the forward scan of `strip()` stops at the first non-whitespace index, and everything it passes is whitespace |
| PyStr.SkipSpaceBack | demo.py:135 | the backward scan of `strip()` stops just past the last non-whitespace character, and everything it passes is whitespace |
| PyStr.SkipSpaceStopsAt | demo.py:135 | any index with only whitespace before it and none at it is where the forward scan stops |
| PyStr.SkipSpaceBackStopsAt | demo.py:135 | any index with only whitespace after it and none just before it is where the backward scan stops |
| PyStr.Strip | demo.py:135 | `strip()` returns a string that neither starts nor ends with whitespace |
| PyStr.StripRemovesOnlySpace | demo.py:135 | the result is a contiguous part of the line, with only whitespace before and after it |
| PyStr.StripUnique | demo.py:135 | whenever a line is whitespace, then a trimmed string, then whitespace, `strip()` returns that trimmed string |
| PyStr.StripKeepsTrimmed | demo.py:135 | `strip()` leaves a trimmed line unchanged |
| PyStr.StripAppendSpace | demo.py:135 | the newline ending a line read from a file does not change `line.strip()` |
| PyStr.Split | demo.py:108 | `split("\n")` yields at least one piece and no piece contains the separator; it yields exactly one piece iff the separator is absent |
| PyStr.JoinSplit | demo.py:108 | joining the pieces of a split with the separator gives back the string |
| PyStr.SplitJoin | demo.py:108 | splitting the join of separator-free pieces gives back the pieces |
| PyStr.SplitFirstTwo | demo.py:108-110 | with two pieces or more, the string starts with piece 0, the separator and piece 1, and piece 1 runs up to the next separator or the end |
| PyStr.FileLines | demo.py:133-134 | iterating a text file yields non-empty lines, and none exactly for an empty file |
| PyStr.FileLinesWellFormed | demo.py:133-134 | every line but the last ends with its newline, and no line has a newline elsewhere |
| PyStr.ConcatFileLines | demo.py:133-134 | the lines concatenate back to the file's content |
| PyStr.FileLinesTerminated | demo.py:133-134 | a file written as newline-terminated lines reads back as those lines, each with its newline |
| PyStr.NatToString | demo.py:161 | `'{}'.format(i)` is a non-empty string of decimal digits that starts with `0` only for 0 |
| PyStr.ParseNatToString | demo.py:161 | reading the digits back gives the number |
| PyStr.NatToStringInjective | demo.py:161 | different numbers give different strings |
| PyStr.PathJoin | demo.py:153-161 | an absolute name replaces the directory; a relative name gives a path that starts with the directory and is at most one character longer than directory and name together |
| PyStr.PathJoinRelative | demo.py:153-161 | a relative name ends the path, preceded by `/` when the directory is non-empty; no `/` is added after a directory ending in one, and an empty directory gives the name itself |
| PyStr.PathJoinInjective | demo.py:161 | joining one directory with different relative names gives different paths |
| Prompts.ReadEmbeddedPrompt | demo.py:106-110 | no `PNG:Parameters` field gives no embedded prompt; a field raises iff it has no newline; a field with a newline always yields a prompt pair; the positive and negative prompts are newline-free, the field starts with positive, newline, negative, and the negative runs up to the next newline or the end of the field |
| Prompts.TextAfterMetadata | demo.py:106-113 | without metadata or without the field the text is kept; the step raises iff the field has no newline; otherwise the new text is newline-free and the field starts with it and a newline |
| Prompts.EmbeddedPromptOverridesText | demo.py:106-113 | an absent field leaves the text; a field with a newline replaces the text by its first line; one without a newline raises |
| Prompts.EmbeddedPromptExample | demo.py:106-113 | the field `pos\nneg` makes the text `pos` |
| Prompts.StripEach | demo.py:132-135 | the prompt list has one entry per line |
| Prompts.StripEachAt | demo.py:132-135 | prompt i is line i, stripped |
| Prompts.StrippedLines | demo.py:132-135 | the file yields as many prompts as it has lines |
| Prompts.ReadPromptFile | demo.py:132-135 | the loop appending `line.strip()` for every line gives the stripped lines of the file |
| Prompts.Broadcast | demo.py:140 | `[text]*8` has eight entries, each the text |
| Prompts.ResolvePromptSet | demo.py:131-140 | without a file, the text is broadcast; with one, the run fails iff the file has fewer than eight lines, with the fixed too-few-lines error, and the prompts are its stripped lines; a successful result has at least eight prompts and its display text is prompt 0 |
| Prompts.ResolvePrompts | demo.py:131-140 | the prompt block as the script runs it agrees with `ResolvePromptSet` |
| Prompts.StrippedLinesOfFile | demo.py:132-135 | a file of newline-terminated lines yields those lines, each stripped |
| Prompts.PromptFileRoundTrip | demo.py:131-138 | a file of eight or more trimmed lines, empty ones included, gives exactly those lines as prompts and line 0 as display text, whatever the text was |
| Prompts.ShortPromptFileRejected | demo.py:136-137 | a file of fewer than eight lines is rejected with the too-few-lines error |
| Outputs.ResultsDir | demo.py:153 | the results directory is `outputs/results` followed by the stamp, with no doubled slash |
| Outputs.ImageName | demo.py:161 | the name is longer than `.png` and starts with a digit, so it is relative |
| Outputs.ImageNameParts | demo.py:161 | the name ends in `.png`, and its stem is the index in decimal, without leading zeros, reading back as the index |
| Outputs.ImagePath | demo.py:161 | the path starts with the results directory and ends with the image name, preceded by `/` when the directory is non-empty |
| Outputs.PromptPath | demo.py:156 | the path starts with the results directory and ends with `prompt.txt`, preceded by `/` when the directory is non-empty |
| Outputs.ViewImageNames | demo.py:159-161 | the views are saved as `0.png` to `7.png` |
| Outputs.ImagePathsDistinct | demo.py:159-161 | two views never share an image path |
| Outputs.PromptPathIsNoImagePath | demo.py:156-161 | no image path is the path of `prompt.txt` |
| Outputs.SaveImagePaths | demo.py:158-162 | the loop collects eight paths, path i being `res_dir/i.png`, in view order |
| Demo.PrepareRun | demo.py:95-150 | the script up to `batch` (metadata block, rig loop, zero tensor with view 0 assigned in place, prompt block) computes exactly `ExpectedRun` |
| Demo.ExpectedRun | demo.py:106-150 | a successful run had a reference that fits the view, and its batch holds eight images, eight rotations, eight intrinsics and at least eight prompts, prompt 0 being the display text |
| Demo.ConditionedViews | demo.py:126-128 | the tensor has eight views; views 1..7 are zero; view 0 is the normalised reference, or zero without one |
| Demo.ConditionedViewsLayout | demo.py:126-128 | when the reference fits, every view has the model's shape |
| Demo.BatchLayout | demo.py:115-150 | a prepared batch holds the conditioned views, eight rotations at yaws 45*i with pitch 0, eight equal intrinsics, and at least eight prompts of which prompt 0 is the display text; any reference had the view's shape |
| Demo.RunFailsIff | demo.py:106-137 | a run fails iff the metadata field lacks a second line, the reference does not fit, or the prompt file is short; the first of these in script order is the error |
| Demo.PromptPrecedence | demo.py:106-140 | in a successful run a prompt file beats the embedded prompt, which beats `--text` |
| Demo.AsWrittenCropFitsIff | demo.py:97-128 | with the crop as written, the reference fits view 0 iff the source is square or `current_size > size` |
| Demo.FixedCropFits | demo.py:97-128 | with the corrected crop the reference always fits view 0 |
| Demo.EmbeddedPromptScenario | demo.py:106-140 | an embedded `pos\nneg` and no prompt file prompt every view with `pos` and make `pos` the display text |

## Left out

- Debugger attach, environment setup and the global seed: process plumbing with no effect on the modelled values.
- Argument parsing, YAML loading, checkpoint loading and `.cuda()`: I/O and device placement. `--text`, the prompt file's content, the resolution and the reference are parameters.
- The focal length `f = 0.5*width/tan(FOV/2)` and the Rodrigues rotations of `get_K_R`: floating-point trigonometry and a foreign call. `f` is a real parameter (for the rig's 90 degree field of view it is `resolution/2` in exact arithmetic), and R is an opaque function of yaw and pitch.
- Pixel contents of `cv2.imread`, `cvtColor` and `cv2.resize`: foreign image routines. Only the shape `cv2.resize` returns is modelled, and the reference is given as the grid the crop produced.
- `ExifToolHelper`: an external process. Its result for the photo is given as a string map.
- `model.inference`, `Image.save`, `os.makedirs`, the write of `prompt.txt` and `generate_video`: an opaque model, the filesystem and an external tool. The clock reading for the results directory is a parameter.
- Floating point: `float32`/`float64` values are modelled as reals.
- Crop.CurrentSize, Crop.Plan, Crop.ResizeAndCenterCrop: a target size of 0, which `cv2.resize` rejects, is excluded; the configured resolution is positive.
- Crop.CurrentSize: `int(size*H/W)` is modelled as exact floor division, not as a float division followed by truncation. The two can differ for very large sides.
- Demo.PrepareRun: the leading batch axis of length 1 is dropped. The assignment `images[0,0] = img` is modelled as succeeding exactly when the shapes are equal. Torch broadcasting of an axis of length 1 is not modelled.
- PyStr.FileLines: text-mode decoding and universal-newline translation are not modelled. The content is taken as already decoded, with `\n` line ends.
- Pixel-level idempotence of the crop on a square photo of the target size depends on `cv2.resize` returning its input unchanged, which is a foreign routine.

## Findings

| source | as written | input that shows it | evidently intended | confidence | as-written member | corrected member |
|---|---|---|---|---|---|---|
| demo.py:67 | `img[margin_l:-margin_r, :]` keeps no rows when `margin_r == 0`, which happens whenever `int(size*H/W) == size` | size 512, a 1000 x 999 photo: `current_size` 512, margins 0 and 0, output 0 x 512, and `images[0,0] = img` then fails | keep `size` rows: `img[margin_l:margin_l+size, :]` | high, not executed | Crop.EmptyCropExample | Crop.CenterCropFixed |
| demo.py:73 | `img[:, margin_l:-margin_r]` keeps no columns when `margin_r == 0` | size 512, a 999 x 1000 photo: output 512 x 0 | keep `size` columns: `img[:, margin_l:margin_l+size]` | high, not executed | Crop.EmptyColumnCropExample | Crop.CenterCropFixed |
