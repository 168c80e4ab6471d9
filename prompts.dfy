/** Where the per-view prompts come from: the prompt embedded in the reference PNG's metadata,
    a prompt file read line by line, or the `--text` argument repeated for every view. */
module Prompts {
  import opened Wrappers
  import opened Failures
  import opened PyStr
  import CameraRig

  /** The metadata field that carries the generation parameters of a PNG. */
  const ParametersKey: string := "PNG:Parameters"

  /** The positive and negative prompt recovered from the metadata. */
  datatype EmbeddedPrompt = EmbeddedPrompt(positive: string, negative: string)

  /** The prompt text written to `prompt.txt` and the per-view prompt list of the batch. */
  datatype PromptSet = PromptSet(displayText: string, prompt: seq<string>)

  /** The metadata block: no field means no embedded prompt; otherwise the field is split on
      newlines and its first two pieces are the positive and negative prompt, and a field
      without a newline has no second piece, so indexing it raises. */
  function ReadEmbeddedPrompt(metadata: map<string, string>): (r: Result<Option<EmbeddedPrompt>, Error>)
    ensures ParametersKey !in metadata ==> r == Ok(None)
    ensures ParametersKey in metadata ==> (r.Err? <==> '\n' !in metadata[ParametersKey])
    ensures r.Err? ==> r.error == MissingNegativePrompt
    ensures ParametersKey in metadata && '\n' in metadata[ParametersKey] ==> r.Ok? && r.value.Some?
    ensures r.Ok? && r.value.Some? ==>
      && ParametersKey in metadata
      && '\n' !in r.value.value.positive && '\n' !in r.value.value.negative
      && r.value.value.positive + "\n" + r.value.value.negative <= metadata[ParametersKey]
    // the negative prompt runs up to the next newline or to the end of the field
    ensures r.Ok? && r.value.Some? ==>
      var n := |r.value.value.positive| + 1 + |r.value.value.negative|;
      n == |metadata[ParametersKey]| || metadata[ParametersKey][n] == '\n'
  {
    if ParametersKey !in metadata then Ok(None)
    else
      var parsed := Split(metadata[ParametersKey], '\n');
      if |parsed| < 2 then Err(MissingNegativePrompt)
      else
        SplitFirstTwo(metadata[ParametersKey], '\n');
        Ok(Some(EmbeddedPrompt(parsed[0], parsed[1])))
  }

  /** `args.text` after the metadata block; `metadata` is present exactly when a reference
      image was given, and only then is the block run. */
  function TextAfterMetadata(text: string, metadata: Option<map<string, string>>): (r: Result<string, Error>)
    ensures (metadata.None? || ParametersKey !in metadata.value) ==> r == Ok(text)
    ensures r.Err? <==>
      metadata.Some? && ParametersKey in metadata.value && '\n' !in metadata.value[ParametersKey]
    ensures r.Err? ==> r.error == MissingNegativePrompt
    ensures r.Ok? && metadata.Some? && ParametersKey in metadata.value ==>
      '\n' !in r.value && r.value + "\n" <= metadata.value[ParametersKey]
  {
    match metadata
    case None => Ok(text)
    case Some(m) =>
      match ReadEmbeddedPrompt(m)
      case Err(e) => Err(e)
      case Ok(None) => Ok(text)
      case Ok(Some(e)) => Ok(e.positive)
  }

  /** A well-formed embedded prompt replaces the text by the metadata's first line, whatever
      the text was; a missing field leaves the text alone. */
  lemma EmbeddedPromptOverridesText(text: string, metadata: map<string, string>)
    ensures ParametersKey !in metadata ==> TextAfterMetadata(text, Some(metadata)) == Ok(text)
    ensures ParametersKey in metadata && '\n' in metadata[ParametersKey] ==>
      TextAfterMetadata(text, Some(metadata)) == Ok(Split(metadata[ParametersKey], '\n')[0])
    ensures ParametersKey in metadata && '\n' !in metadata[ParametersKey] ==>
      TextAfterMetadata(text, Some(metadata)) == Err(MissingNegativePrompt)
  {
  }

  /** `pos\nneg` in the metadata makes the text `pos`. */
  lemma EmbeddedPromptExample(text: string)
    ensures TextAfterMetadata(text, Some(map[ParametersKey := "pos\nneg"])) == Ok("pos")
  {
    var v := "pos\nneg";
    SplitJoin(["pos", "neg"], '\n');
    assert Join(["pos", "neg"], '\n') == v;
  }

  /** `line.strip()` of every line, in order. */
  function StripEach(lines: seq<string>): (r: seq<string>)
    ensures |r| == |lines|
  {
    if lines == [] then [] else StripEach(lines[..|lines| - 1]) + [Strip(lines[|lines| - 1])]
  }

  /** The `i`-th prompt is the `i`-th line, stripped. */
  lemma {:induction false} StripEachAt(lines: seq<string>, i: nat)
    requires i < |lines|
    ensures StripEach(lines)[i] == Strip(lines[i])
  {
    var init := lines[..|lines| - 1];
    assert StripEach(lines) == StripEach(init) + [Strip(lines[|lines| - 1])];
    if i < |init| {
      StripEachAt(init, i);
      assert init[i] == lines[i];
      assert StripEach(lines)[i] == StripEach(init)[i];
    } else {
      assert i == |StripEach(init)|;
      assert StripEach(lines)[i] == Strip(lines[|lines| - 1]);
    }
  }

  /** The prompts a file yields: its lines, each stripped. */
  function StrippedLines(content: string): (prompt: seq<string>)
    ensures |prompt| == |FileLines(content)|
  {
    StripEach(FileLines(content))
  }

  /** The loop that reads the prompt file: append the stripped line for every line of the file. */
  method ReadPromptFile(content: string) returns (prompt: seq<string>)
    ensures prompt == StrippedLines(content)
  {
    var lines := FileLines(content);
    prompt := [];
    var i := 0;
    while i < |lines|
      invariant 0 <= i <= |lines|
      invariant prompt == StripEach(lines[..i])
    {
      assert lines[..i + 1][..i] == lines[..i];
      prompt := prompt + [Strip(lines[i])];
      i := i + 1;
    }
    assert lines[..i] == lines;
  }

  /** `[text] * 8`. */
  function Broadcast(text: string): (prompt: seq<string>)
    ensures |prompt| == CameraRig.ViewCount
    ensures forall i :: 0 <= i < |prompt| ==> prompt[i] == text
  {
    seq(CameraRig.ViewCount, _ => text)
  }

  /** The prompt block: with a prompt file, its stripped lines, rejected when there are fewer than
      eight, and the display text becomes the first of them; without one, the text for every view. */
  function ResolvePromptSet(text: string, promptFile: Option<string>): (r: Result<PromptSet, Error>)
    ensures promptFile.None? ==> r == Ok(PromptSet(text, Broadcast(text)))
    ensures promptFile.Some? ==> (r.Err? <==> |FileLines(promptFile.value)| < CameraRig.ViewCount)
    ensures promptFile.Some? && r.Err? ==> r.error == TooFewPromptLines
    ensures promptFile.Some? && r.Ok? ==> r.value.prompt == StrippedLines(promptFile.value)
    ensures r.Ok? ==> |r.value.prompt| >= CameraRig.ViewCount && r.value.displayText == r.value.prompt[0]
  {
    match promptFile
    case None => Ok(PromptSet(text, Broadcast(text)))
    case Some(content) =>
      var prompt := StrippedLines(content);
      if |prompt| < CameraRig.ViewCount then Err(TooFewPromptLines)
      else Ok(PromptSet(prompt[0], prompt))
  }

  /** The prompt block as the script runs it. */
  method ResolvePrompts(text: string, promptFile: Option<string>) returns (r: Result<PromptSet, Error>)
    ensures r == ResolvePromptSet(text, promptFile)
  {
    if promptFile.Some? {
      var prompt := ReadPromptFile(promptFile.value);
      if |prompt| < CameraRig.ViewCount {
        return Err(TooFewPromptLines);
      }
      r := Ok(PromptSet(prompt[0], prompt));
    } else {
      r := Ok(PromptSet(text, Broadcast(text)));
    }
  }

  /** A file holding the given lines (each ended by a newline) yields those lines, stripped. */
  lemma StrippedLinesOfFile(lines: seq<string>, i: nat)
    requires forall j :: 0 <= j < |lines| ==> '\n' !in lines[j]
    requires i < |lines|
    ensures |StrippedLines(Terminated(lines))| == |lines|
    ensures StrippedLines(Terminated(lines))[i] == Strip(lines[i])
  {
    FileLinesTerminated(lines);
    StripEachAt(FileLines(Terminated(lines)), i);
    StripAppendSpace(lines[i], '\n');
  }

  /** A prompt file of at least eight trimmed lines, empty ones included, gives exactly those
      lines as the prompts and its first line as the display text, whatever the text was. */
  lemma PromptFileRoundTrip(text: string, lines: seq<string>)
    requires |lines| >= CameraRig.ViewCount
    requires forall i :: 0 <= i < |lines| ==> '\n' !in lines[i] && Strip(lines[i]) == lines[i]
    ensures ResolvePromptSet(text, Some(Terminated(lines))) == Ok(PromptSet(lines[0], lines))
  {
    FileLinesTerminated(lines);
    var prompt := StrippedLines(Terminated(lines));
    forall i | 0 <= i < |lines| ensures prompt[i] == lines[i] {
      StrippedLinesOfFile(lines, i);
    }
    assert prompt == lines;
  }

  /** A prompt file of fewer than eight lines is rejected. */
  lemma ShortPromptFileRejected(text: string, lines: seq<string>)
    requires |lines| < CameraRig.ViewCount
    requires forall i :: 0 <= i < |lines| ==> '\n' !in lines[i]
    ensures ResolvePromptSet(text, Some(Terminated(lines))) == Err(TooFewPromptLines)
  {
    FileLinesTerminated(lines);
  }
}
