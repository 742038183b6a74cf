/** The entry point of the action: reading the inputs, checking that the
    event is a pull request, and running list, analyse, summarise and review
    in turn. The event context, the inputs and the three remote endpoints are
    parameters. */
module Action {
  import opened Wrappers
  import opened Seqs
  import opened JsText
  import opened Types
  import opened Config
  import opened Messages
  import opened Templates
  import opened Gemini
  import opened GitHub

  /** `parseOptionalNumber`: `None` for an empty input, for text that does
      not start with a number, and for a number that is not positive. */
  function ParseOptionalNumber(value: string): (r: Option<int>)
    ensures value == "" ==> r.None?
    ensures r.Some? ==> r.value > 0
    ensures r.Some? <==> value != "" && ParseInt(value).Some? && ParseInt(value).value > 0
    ensures r.Some? ==> r.value == ParseInt(value).value
  {
    if value == "" then None
    else
      match ParseInt(value)
      case None => None
      case Some(n) => if n <= 0 then None else Some(n)
  }

  /** A positive number written in digits is read, whatever non-digit text
      follows it. */
  lemma ParseOptionalDigits(ds: string, rest: string)
    requires ds != [] && forall i :: 0 <= i < |ds| ==> IsDigit(ds[i])
    requires rest == [] || !IsDigit(rest[0])
    requires DecimalValue(ds) > 0
    ensures ParseOptionalNumber(ds + rest) == Some(DecimalValue(ds))
  {
    ParseIntDigits(ds, rest);
  }

  /** A minus sign in front of any text never gives a number. */
  lemma ParseOptionalNegative(t: string)
    ensures ParseOptionalNumber("-" + t).None?
  {
    ParseIntMinus(t);
  }

  /** The decimal text of a positive number reads back as that number. */
  lemma ParseOptionalRoundTrip(n: nat)
    requires n >= 1
    ensures ParseOptionalNumber(NatToString(n)) == Some(n)
  {
    DecimalValueOfNatToString(n);
    assert NatToString(n) + "" == NatToString(n);
    ParseOptionalDigits(NatToString(n), "");
  }

  /** `"42"` and `"42abc"` give 42; `"0"`, `"-3"`, `"abc"` and `""` give
      nothing. */
  lemma ParseOptionalExamples()
    ensures ParseOptionalNumber("42") == Some(42)
    ensures ParseOptionalNumber("42abc") == Some(42)
    ensures ParseOptionalNumber("0").None?
    ensures ParseOptionalNumber("-3").None?
    ensures ParseOptionalNumber("abc").None?
    ensures ParseOptionalNumber("").None?
  {
    ParseIntExample42();
    ParseIntExample42abc();
    ParseIntExampleZeroNegative();
    ParseIntExampleNaN();
  }

  /** The pull request in the event payload, when there is one. */
  datatype PullRequestPayload = PullRequestPayload(number: int)

  /** `validatePullRequestEvent`: the pull request's number, or the
      invalid-event error when the event carries no pull request. */
  function ValidatePullRequestEvent(pullRequest: Option<PullRequestPayload>): (r: Result<int, string>)
    ensures pullRequest.None? <==> r == Failure(InvalidPrEvent)
    ensures pullRequest.Some? ==> r == Success(pullRequest.value.number)
  {
    match pullRequest
    case None => Failure(InvalidPrEvent)
    case Some(pr) => Success(pr.number)
  }

  /** The inputs as `core.getInput` returns them: text, empty when not set. */
  datatype RawInputs = RawInputs(
    geminiApiKey: string, githubToken: string,
    geminiModel: string, maxChanges: string, maxComments: string)

  /** The inputs as the action uses them. */
  datatype Inputs = Inputs(
    geminiApiKey: string, githubToken: string,
    geminiModel: Option<string>, maxChanges: Option<int>, maxComments: Option<int>)

  /** `getInputs`: an empty model name means the default model; the two
      limits are read with `parseOptionalNumber`. */
  function GetInputs(raw: RawInputs): (r: Inputs)
    ensures r.geminiApiKey == raw.geminiApiKey && r.githubToken == raw.githubToken
    ensures r.geminiModel.None? <==> raw.geminiModel == ""
    ensures r.geminiModel.Some? ==> r.geminiModel.value == raw.geminiModel
    ensures r.maxChanges == ParseOptionalNumber(raw.maxChanges)
    ensures r.maxComments == ParseOptionalNumber(raw.maxComments)
  {
    Inputs(raw.geminiApiKey, raw.githubToken,
           if raw.geminiModel == "" then None else Some(raw.geminiModel),
           ParseOptionalNumber(raw.maxChanges), ParseOptionalNumber(raw.maxComments))
  }

  /** The model client the entry point builds from its inputs. */
  function GeminiClientOf(raw: RawInputs): GeminiClient {
    var inputs := GetInputs(raw);
    NewGeminiClient(inputs.geminiModel, inputs.maxChanges, inputs.maxComments)
  }

  /** Whatever the inputs, the client the entry point builds has a positive
      change threshold and a positive comment cap, so every interpreted
      answer keeps at most that many comments. */
  lemma ClientLimitsPositive(raw: RawInputs)
    ensures GeminiClientOf(raw).maxChanges >= 1 && GeminiClientOf(raw).maxComments >= 1
    ensures forall response: string, decode: Decode ::
              |GeminiClientOf(raw).ParseResponse(response, decode).comments| <= GeminiClientOf(raw).maxComments
  {
  }

  /** The event context: the pull request of the payload, the repository,
      the issue number, and the inputs. */
  datatype Context = Context(
    pullRequest: Option<PullRequestPayload>,
    repoOwner: string, repoName: string, issueNumber: int,
    inputs: RawInputs)

  /** The GitHub client the entry point builds from the context. */
  function GitHubClientOf(ctx: Context): GitHubClient {
    NewGitHubClient(ctx.repoOwner, ctx.repoName, ctx.issueNumber)
  }

  /** The message `setFailed` reports. */
  function FailedMessage(message: string): (r: string)
    ensures StartsWith(r, "실패: ") && r[|"실패: "|..] == message
  {
    "실패: " + message
  }

  /** How a run ends: failed with a reported message, stopped because the
      pull request changes no file, or with a review created. */
  datatype RunOutcome = Failed(message: string) | NoFiles | Reviewed(request: ReviewRequest)

  /** `run`. Outside a pull request it fails before any request. When the
      listing has no file it stops without analysing and without reviewing.
      Otherwise it analyses the files, renders the summary from all listed
      files and the analysis, and submits one review. `listed` and
      `submitted` are the list-files and create-review requests made. */
  method Run(ctx: Context, listFiles: ListFiles, generate: Generate, decode: Decode,
             submit: SubmitReview)
    returns (outcome: RunOutcome, listed: seq<ListFilesRequest>, submitted: seq<ReviewRequest>)
    requires ctx.pullRequest.Some? ==> exists n :: 1 <= n && GitHubClientOf(ctx).PageEnds(listFiles, n)
    ensures ctx.pullRequest.None? ==>
              outcome == Failed(FailedMessage(InvalidPrEvent)) && listed == [] && submitted == []
    ensures ctx.pullRequest.Some? ==>
              1 <= |listed| && forall k :: 0 <= k < |listed| ==> listed[k] == GitHubClientOf(ctx).PageRequest(k + 1)
    ensures ctx.pullRequest.Some? ==>
              GitHubClientOf(ctx).PageEnds(listFiles, |listed|)
              && forall k :: 1 <= k < |listed| ==> GitHubClientOf(ctx).PageFull(listFiles, k)
    ensures |submitted| <= 1
    ensures outcome.NoFiles? <==>
              ctx.pullRequest.Some? && GitHubClientOf(ctx).Fetch(listFiles, |listed|).Success?
              && GitHubClientOf(ctx).FilesUpTo(listFiles, |listed|) == []
    ensures outcome.NoFiles? ==> submitted == []
    ensures outcome.Reviewed? ==>
              var github := GitHubClientOf(ctx);
              var files := github.FilesUpTo(listFiles, |listed|);
              var analysis := GeminiClientOf(ctx.inputs).AnalyzeCode(files, generate, decode);
              && files != [] && analysis.Success?
              && outcome.request
                 == github.ReviewRequestFor(CreateReviewSummary(files, analysis.value), analysis.value.comments)
              && submitted == [outcome.request]
              && submit(outcome.request).None?
    ensures outcome.Failed? ==> StartsWith(outcome.message, "실패: ")
    ensures ctx.pullRequest.Some? && GitHubClientOf(ctx).Fetch(listFiles, |listed|).Failure? ==>
              outcome == Failed(FailedMessage(CreateErrorMessage(GetFilesError,
                                                GitHubClientOf(ctx).Fetch(listFiles, |listed|).error)))
              && submitted == []
    ensures ctx.pullRequest.Some? && GitHubClientOf(ctx).Fetch(listFiles, |listed|).Success? ==>
              var github := GitHubClientOf(ctx);
              var files := github.FilesUpTo(listFiles, |listed|);
              var analysis := GeminiClientOf(ctx.inputs).AnalyzeCode(files, generate, decode);
              files != [] ==>
                && (analysis.Failure? ==> outcome == Failed(FailedMessage(analysis.error)) && submitted == [])
                && (analysis.Success? ==>
                      var request := github.ReviewRequestFor(CreateReviewSummary(files, analysis.value),
                                                             analysis.value.comments);
                      && submitted == [request]
                      && (submit(request).None? ==> outcome == Reviewed(request))
                      && (submit(request).Some? ==>
                            outcome == Failed(FailedMessage(CreateErrorMessage(CreateReviewError,
                                                                               submit(request).value)))))
  {
    var inputs := GetInputs(ctx.inputs);
    var prNumber := ValidatePullRequestEvent(ctx.pullRequest);
    if prNumber.Failure? {
      return Failed(FailedMessage(prNumber.error)), [], [];
    }
    var github := NewGitHubClient(ctx.repoOwner, ctx.repoName, ctx.issueNumber);
    var gemini := NewGeminiClient(inputs.geminiModel, inputs.maxChanges, inputs.maxComments);
    var files;
    files, listed := github.GetChangedFiles(listFiles);
    if files.Failure? {
      return Failed(FailedMessage(files.error)), listed, [];
    }
    if |files.value| == 0 {
      return NoFiles, listed, [];
    }
    var analysis := gemini.AnalyzeCode(files.value, generate, decode);
    if analysis.Failure? {
      return Failed(FailedMessage(analysis.error)), listed, [];
    }
    var summary := CreateReviewSummary(files.value, analysis.value);
    var request := github.ReviewRequestFor(summary, analysis.value.comments);
    submitted := [request];
    match github.CreateReview(summary, analysis.value.comments, submit)
    case Fail(message) =>
      outcome := Failed(FailedMessage(message));
    case Pass =>
      outcome := Reviewed(request);
  }
}
