/** Optional values and results with an error, shared by the modules of the demo script. */
module Wrappers {

  datatype Option<+T> = None | Some(value: T)

  datatype Result<+T, +E> = Ok(value: T) | Err(error: E)
}

/** The run-aborting errors the demo script can raise in the part that is modelled. */
module Failures {

  datatype Error =
    /** `parsed_parameters[1]` on embedded PNG parameters without a second line (an IndexError). */
    | MissingNegativePrompt
    /** `images[0,0] = img` with an image that is not resolution x resolution x 3 (a torch shape error). */
    | ReferenceShapeMismatch
    /** A prompt file with fewer than eight lines (a ValueError with a fixed message). */
    | TooFewPromptLines
}
