/** The inference backend as the analyzer sees it: `SendRequestWithImage`
    sends one of three assistant prompts together with one image file and
    yields either an error or the model's output text. The answer is an
    oracle fixed in advance for each prompt and file; the client keeps the
    log of the requests it was asked to send. */
module Inference {
  import opened Entities

  /** The three assistant prompts of the analyzer. */
  datatype Prompt = CoverPage | TableOfContent | GameTested

  /** The `(string, error)` pair of `SendRequestWithImage`: an error, or the output text. */
  datatype Response = Failed | Text(s: string)

  /** One call of `SendRequestWithImage`: the prompt and the image file it was given. */
  datatype Request = Request(prompt: Prompt, file: Path)

  class InferenceClient {
    const answer: (Prompt, Path) -> Response
    /** Every request sent so far, oldest first. */
    var requests: seq<Request>

    constructor (answer: (Prompt, Path) -> Response)
      ensures this.answer == answer && requests == []
    {
      this.answer := answer;
      requests := [];
    }

    /** `imageRead` is whether copying the opened image into the base64 encoder
        succeeded; when it did not, the call fails before the backend is asked. */
    method SendRequestWithImage(prompt: Prompt, file: Path, imageRead: bool) returns (r: Response)
      modifies this
      ensures r == if imageRead then answer(prompt, file) else Failed
      ensures requests == old(requests) + [Request(prompt, file)]
    {
      if imageRead {
        r := answer(prompt, file);
      } else {
        r := Failed;
      }
      requests := requests + [Request(prompt, file)];
    }
  }
}
