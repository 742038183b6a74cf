# Revisor review pipeline — a Dafny model

Revisor is a GitHub Action that reviews a pull request with a language
model. This project models its decision logic:

- The run lists the changed files of the pull request page by page.
- It keeps the files worth analysing: a non-empty patch, fewer changes than
  the threshold, and not a binary file.
- It renders a prompt for those files and sends it to the model.
- It reads the model's free-text answer back into a summary and a capped
  list of line comments.
- It renders the Markdown review summary.
- It submits one review carrying only the comments GitHub can anchor.

The model endpoint, `JSON.parse`, the two GitHub REST endpoints and the event
context are parameters of the model, so each statement about a run holds
whatever those collaborators answer.

Modules, in dependency order:

- `Wrappers`: `Option`, `Result` and `Outcome`.
- `Seqs`: the JavaScript array and string methods the code relies on
  (`filter`, `join`, `slice(0, n)` and `endsWith`). It also holds the prefix
  and substring relations the proofs use to state their facts.
- `JsText`: `trim`, ASCII `toLowerCase`, the decimal text of a number, and
  `parseInt(s, 10)`.
- `Config`, `Messages`, `Types`: the constants, the message strings, the
  records, and `createErrorMessage`.
- `Templates` (`src/templates.ts`): the review summary and the prompt. Each
  template literal is written as its list of pieces, and the text is their
  concatenation.
- `Gemini` (`src/gemini.ts`): the file filter, the binary-file test, the
  regular-expression location of the JSON payload, `parseResponse`,
  `callGemini` and `analyzeCode`. The client's fields are set only by its
  constructor, so the client is a datatype with member functions.
- `GitHub` (`build/github.js`): the page loop of `getChangedFiles` is an
  imperative method with loop invariants. The comment filter and the request
  that `createReview` submits are functions.
- `Action` (`build/index.js`): `parseOptionalNumber`, `getInputs`,
  `validatePullRequestEvent`, and `run` as a method. `run` reports the
  requests it made and how it ended.

Both text builders are Dafny functions, so their output depends on their
arguments alone.

## Model

| member | source | states |
|---|---|---|
| Seqs.Filter | src/gemini.ts:48-52 | `filter` keeps only elements satisfying the predicate, as an order-preserving subsequence no longer than the input |
| Seqs.FilterMultiset | build/github.js:72 | `filter` keeps each passing element exactly as often as it occurs and drops every other element; membership in the result is "in the input and passes" |
| Seqs.FilterKeepsAll | build/github.js:72 | a filter that every element passes returns its input unchanged |
| Seqs.JoinAround | src/templates.ts:30 | `join(sep)` puts the i-th part right after the parts before it and right before the parts after it, with a separator exactly between neighbours |
| Seqs.JoinSnoc | src/templates.ts:30 | joining one more part appends the separator and that part |
| Seqs.SlicePrefix | src/gemini.ts:81 | `slice(0, end)` is a prefix whose length is `min(end, n)` for `end >= 0`, and `max(n + end, 0)` for negative `end` |
| JsText.TrimStartSpec | src/templates.ts:18 | `trimStart` removes only whitespace, keeps a suffix, and the suffix does not start with whitespace |
| JsText.TrimEndSpec | src/templates.ts:18 | `trimEnd` removes only whitespace, keeps a prefix, and the prefix does not end with whitespace |
| JsText.Trim | src/templates.ts:18 | defines `trim` as `trimEnd` after `trimStart`; its properties are in `TrimStartSpec`, `TrimEndSpec` and `TrimFramed` |
| JsText.TrimFramed | src/templates.ts:4-18 | trimming text framed by whitespace gives back exactly the text when the text neither starts nor ends with whitespace |
| JsText.ToLower | src/gemini.ts:92 | lower-casing keeps the length |
| JsText.NatToString | src/templates.ts:8-9 | the decimal text of a number is non-empty, all digits, and starts with `0` only for zero |
| JsText.DecimalValueOfNatToString | src/templates.ts:8-9 | reading the decimal text of `n` back gives `n` |
| JsText.ParseInt | build/index.js:44 | defines `parseInt(s, 10)`: skip leading whitespace, an optional sign, then the digit run; its properties are in `ParseIntDigits`, `ParseIntMinus` and the examples |
| JsText.LeadingDigitsSpec | build/index.js:44 | the digit run `parseInt` reads is a prefix, and no longer digit run starts the text |
| JsText.ParseDigits | build/index.js:44-45 | a digit run gives a number exactly when the text starts with a digit; otherwise `NaN` |
| JsText.ParseIntDigits | build/index.js:44 | `parseInt` of digits followed by a non-digit is the value of those digits |
| JsText.ParseIntMinus | build/index.js:44 | a leading minus negates the value of the digits after it, and gives `NaN` when no digit follows |
| JsText.ParseIntExample42 | build/index.js:44 | `parseInt("42")` is 42 |
| JsText.ParseIntExample42abc | build/index.js:44 | `parseInt("42abc")` is 42 |
| JsText.ParseIntExampleZeroNegative | build/index.js:44 | `parseInt("0")` is 0 and `parseInt("-3")` is -3 |
| JsText.ParseIntExampleNaN | build/index.js:44 | `parseInt("abc")` is `NaN` |
| Types.CreateErrorMessage | src/gemini.ts:6-8 | the wrapped text is the category prefix, `": "`, then the `Error`'s message, or the unknown-error text for a thrown non-`Error` |
| Templates.CreateReviewSummary | src/templates.ts:3-19 | defines the summary text; no contract of its own, its properties are in `SummaryLayout`, `SummaryStartsWithTitle`, `SummaryReportsCounts`, `SummaryQuotesAnalysis` and `SummaryDetailsIffComments` |
| Templates.SummaryLayout | src/templates.ts:3-19 | trimming removes exactly the template's framing newline and indentation, and never touches the analysis summary |
| Templates.SummaryStartsWithTitle | src/templates.ts:4-5 | the summary begins with `## Revisor AI Code Review` |
| Templates.SummaryReportsCounts | src/templates.ts:8-9 | the summary contains the file-count line for `files.length` and the issue-count line for the number of comments |
| Templates.SummaryQuotesAnalysis | src/templates.ts:11-12 | the analysis summary appears verbatim right after the 요약 heading |
| Templates.SummaryDetailsIffComments | src/templates.ts:14-17 | the summary ends with the footer, and the text before the footer ends with the 세부 사항 section if and only if there are comments |
| Templates.FileBlock | src/templates.ts:22-30 | defines one file's block; its contents are in `FileBlockContents` |
| Templates.FileSection | src/templates.ts:22-30 | defines the blocks joined by blank lines; its shape is in `FileSectionShape` and `FileSectionAround` |
| Templates.Blocks | src/templates.ts:22-30 | `files.map(...)` yields one block per file, in input order |
| Templates.FileSectionShape | src/templates.ts:22-30 | no files give an empty section, one file gives its block, and each further file adds a blank line and its block at the end |
| Templates.FileSectionAround | src/templates.ts:22-30 | the i-th file's block sits between the blocks of the earlier files and those of the later files, with blank lines between |
| Templates.FileBlockContents | src/templates.ts:22-29 | each block holds the file name, the status, `+additions -deletions`, and the patch verbatim inside a `diff` fence |
| Templates.BuildCodeReviewPrompt | src/templates.ts:21-54 | defines the prompt text; no contract of its own, its properties are in `PromptLayout`, `PromptBlocksInOrder`, `PromptHoldsBlock` and `PromptContents` |
| Templates.PromptLayout | src/templates.ts:32-53 | the prompt is the fixed introduction, the file section, and the fixed instructions, in that order |
| Templates.PromptBlocksInOrder | src/templates.ts:22-35 | in the prompt, each file's block comes after the earlier files' blocks and before the later ones' |
| Templates.PromptHoldsBlock | src/templates.ts:22-35 | the prompt contains the block of each file |
| Templates.InstructionLayoutHolds | src/templates.ts:37-52 | the instructions contain the output format and the comment-cap sentence |
| Templates.PromptContents | src/templates.ts:21-54 | the prompt contains every file's block, the literal JSON output format, and the cap sentence carrying `maxComments` |
| Templates.JsonShapeNamesFields | src/templates.ts:39-49 | the output format names `summary`, `issuesFound` and `comments`, and each comment's `path`, `line` and `body` |
| Gemini.EndsWithAny | src/gemini.ts:93 | `some(ext => s.endsWith(ext))` holds if and only if some extension ends the text |
| Gemini.IsBinaryFile | src/gemini.ts:91-94 | a file is binary if and only if its lower-cased name ends with one of the binary extensions |
| Gemini.BinaryBySuffix | src/gemini.ts:91-94 | any name ending in a text that lower-cases to a binary extension is binary, whatever the case |
| Gemini.EndsWithNoneByLastChar | src/gemini.ts:93 | a text ends with none of the extensions when its last character ends none of them |
| Gemini.NoExtensionEndsInS | src/config.ts:10-16 | no binary extension ends in `s` |
| Gemini.NotBinaryEndingInS | src/gemini.ts:91-94 | a name whose last character lower-cases to `s` is never binary |
| Gemini.BinaryExamples | src/gemini.ts:91-94 | `A.PNG` is binary and `png.ts` is not |
| Gemini.FirstIndexOf | src/gemini.ts:72 | the first index of a character: it holds the character, none before it does, and there is none exactly when the character is absent |
| Gemini.LastIndexOf | src/gemini.ts:72 | the last index of a character: it holds the character, none after it does, and there is none exactly when the character is absent |
| Gemini.JsonSpan | src/gemini.ts:72 | `/\{[\s\S]*\}/` matches exactly when some `{` precedes some `}`; the match is the leftmost and longest, with no `{` before it and no `}` after it |
| Gemini.JsonCandidate | src/gemini.ts:72-77 | the decoded candidate is the span from the first `{` to the last `}`, inclusive, and there is none when no `{` precedes a `}` |
| Gemini.CandidateOfEmbedded | src/gemini.ts:72-77 | a braced payload in prose with no `{` before it and no `}` after it is exactly the candidate found |
| Gemini.GeminiClient.IsAnalyzable | src/gemini.ts:48-51 | defines the filter condition: truthy patch, fewer changes than the threshold, non-binary name; used by `FilterAnalyzableFiles` and `FilterKeepsAnalyzable` |
| Gemini.GeminiClient.FilterAnalyzableFiles | src/gemini.ts:47-53 | the kept files are an order-preserving subsequence, and each has a non-empty patch, strictly fewer changes than the threshold, and a non-binary name |
| Gemini.GeminiClient.FilterKeepsAnalyzable | src/gemini.ts:47-53 | every analysable file is kept as often as it occurs, and every other file is dropped |
| Gemini.GeminiClient.ParseResponse | src/gemini.ts:70-89 | never fails. With no match or a failed decode it gives the parsing fallback. Otherwise the summary is the parsed summary when truthy, else the default, and the comments are the first `min(maxComments, n)` parsed comments in order. There are at most `maxComments` comments |
| Gemini.GeminiClient.CallGemini | src/gemini.ts:55-68 | the model's text, or its failure wrapped with the API-error prefix |
| Gemini.GeminiClient.AnalyzeCode | src/gemini.ts:28-45 | with no analysable file, the fixed no-files result. Otherwise the prompt for the analysable files goes to the model through `callGemini`. A success is interpreted by `parseResponse`; a failure is wrapped with the analysis-error prefix. There are at most `maxComments` comments |
| Gemini.NewGeminiClient | src/gemini.ts:16-26 | each absent argument takes its configured default, and each given one is kept |
| Gemini.AnalyzeCodeOutcome | src/gemini.ts:38-44 | a model failure reaches the caller wrapped twice, API error inside analysis error; a model answer is interpreted by `parseResponse` |
| Gemini.ParseEmbeddedPayload | src/gemini.ts:70-82 | a payload embedded in prose is read back: its truthy summary and its first `maxComments` comments in order |
| Gemini.ParseWithoutBrace | src/gemini.ts:72-75 | text without `{` gives the parsing fallback, whatever the decoder |
| Gemini.AnalyzeConsultsModelOnce | src/gemini.ts:29-41 | with no analysable file the model is never consulted; otherwise the result depends on the model only through its answer to the one prompt |
| Gemini.FilterIdempotent | src/gemini.ts:47-53 | filtering the filtered files changes nothing |
| Gemini.FilterTwo | src/gemini.ts:47-53 | of two files where only the second is analysable, the filter keeps just the second |
| Gemini.FilterExample | src/gemini.ts:47-53 | of a PNG image and a TypeScript file with patches and few changes, only the TypeScript file is kept |
| Gemini.ExampleImageIsBinary | src/gemini.ts:91-94 | `a.png` is binary |
| Gemini.ParseExample | src/gemini.ts:70-82 | prose followed by a payload with summary `ok` and one comment gives that summary and that comment |
| Gemini.ParseProseExample | src/gemini.ts:83-88 | plain prose gives the parsing fallback |
| GitHub.ValidComments | build/github.js:72 | exactly the comments with a positive line, a non-empty path and a non-empty body, in their original order, each as often as in the input |
| GitHub.AllValidCommentsKept | build/github.js:72 | comments that are all valid are submitted unchanged |
| GitHub.GitHubClient.PageRequest | build/github.js:53-59 | each page request targets the client's repository and pull request, at `FILES_PER_PAGE` per page |
| GitHub.GitHubClient.GetChangedFiles | build/github.js:47-69 | pages are requested as 1, 2, 3, … in turn. Every page before the last one requested was full, and the last one ends the listing. On success the result is the concatenation of all fetched pages in page order. A failing request gives the get-files wrapped error |
| GitHub.GitHubClient.ReviewRequestFor | build/github.js:72-80 | the request carries the client's repository and pull request, the summary as its body, the `COMMENT` event, and exactly the valid comments, in their original order (`ValidComments`) |
| GitHub.GitHubClient.CreateReview | build/github.js:70-85 | a completed submit passes; a failed one is wrapped with the create-review prefix |
| GitHub.NewGitHubClient | build/github.js:41-46 | the client targets the context's repository and issue number |
| GitHub.FilesUpToLength | build/github.js:49-63 | after `n - 1` full pages, the listing holds `(n - 1) * FILES_PER_PAGE` files plus those of the last page |
| GitHub.FilesUpToPosition | build/github.js:49-63 | file `j` of page `k` sits at position `(k - 1) * FILES_PER_PAGE + j`: pages keep their order, and so do the files within each page |
| GitHub.SinglePageListing | build/github.js:49-64 | a listing whose first page is short is that page alone |
| Action.ParseOptionalNumber | build/index.js:41-46 | empty input gives nothing; a result is positive and is what `parseInt` reads; a result exists exactly when the input is non-empty and `parseInt` reads a positive number |
| Action.ParseOptionalDigits | build/index.js:41-46 | a positive number in digits is read, whatever non-digit text follows |
| Action.ParseOptionalNegative | build/index.js:44-45 | input starting with a minus sign never gives a number |
| Action.ParseOptionalRoundTrip | build/index.js:41-46 | the decimal text of a positive number reads back as that number |
| Action.ParseOptionalExamples | build/index.js:41-46 | `"42"` and `"42abc"` give 42; `"0"`, `"-3"`, `"abc"` and `""` give nothing |
| Action.ValidatePullRequestEvent | build/index.js:56-61 | fails with the invalid-event message exactly when the event has no pull request; otherwise gives its number |
| Action.GetInputs | build/index.js:47-55 | keeps the key and the token; an empty model name means the default model; both limits are read by `parseOptionalNumber` |
| Action.GeminiClientOf | build/index.js:69 | defines the model client built from the inputs; its limits are in `ClientLimitsPositive` |
| Action.GitHubClientOf | build/index.js:68 | defines the GitHub client built from the context; its target is in `NewGitHubClient` |
| Action.ClientLimitsPositive | build/index.js:52-69 | the client a run builds has a positive threshold and a positive cap, so every interpreted answer keeps at most that many comments |
| Action.FailedMessage | build/index.js:85-87 | the failure report is `실패: ` followed by the message |
| Action.Run | build/index.js:62-90 | Outside a pull request the run fails before any request. Otherwise it requests pages 1, 2, … up to the first page that ends the listing, every earlier page being full. It stops without analysis or review exactly when the listing succeeds and is empty. A failed listing, analysis or submit fails the run with that error's message. Otherwise it submits exactly one review, built by `ReviewRequestFor` from the summary of all listed files and the analysis |

## Left out

- The network and SDK transport are function-typed parameters. This covers
  the `GoogleGenAI` call, the text extraction from its response in
  `callGemini`, and the octokit `listFiles` and `createReview` calls.
  `src/types-genai.d.ts` is not part of this model.
- `JSON.parse` is an abstract decoder that yields an optional summary and
  optional comments. A payload whose fields have unexpected JSON types is not
  modelled.
- Asynchrony, `core.info` logging, and `run` rethrowing after `setFailed` are
  not modelled. `run` returns how it ended instead.
- `core.getInput` is abstract: input trimming and the exception for a
  missing required input are left out.
- JavaScript numbers are unbounded integers here. Precision loss of very long
  digit strings in `parseInt`, and non-integer counts, are not modelled.
- JsText.ToLower: maps only ASCII letters. Every binary extension is ASCII,
  so only non-ASCII characters that Unicode lower-cases to ASCII could make
  the two disagree. There are two: the Kelvin sign (U+212A) gives `k`, which
  no extension contains; `İ` (U+0130) gives `i` followed by U+0307, and no
  extension contains U+0307 or ends in `i`. So the binary test agrees with
  Unicode lower-casing on every name.
- Action.Run: for a context with a pull request, requires that some page
  ends the listing (a finite listing), as `GetChangedFiles` does. Without a
  pull request nothing is required.
- GitHub.GitHubClient.GetChangedFiles: requires that some page ends the
  listing (a finite listing). With an endpoint that answers every page in
  full, the source loops forever.
- Gemini.GeminiClient.ParseResponse: the bound `|comments| <= maxComments`
  is stated only for `maxComments >= 0`. With a negative cap, `slice` counts
  from the end, and the model states that exact length instead.
- `src/github.ts` and `src/index.ts` are older wrappers without pagination
  or validation, and are not part of this model.
- The compiled copies under `dist/` and `build/` are older variants of
  `src/gemini.ts` and `src/config.ts`; the model follows `src/`. They
  differ: `build/config.js` sets the default model to `'gemini-pro'`, and
  `build/index.js` loads that copy, so a run of that entry point without a
  model input asks for `'gemini-pro'` where `Config.DefaultModel` is
  `'gemini-2.5-flash'`; `build/gemini.js` and `dist/gemini.js` use the older
  `@google/generative-ai` SDK; `dist/gemini.js` inlines its own messages and
  prompt builder.
- `src/templates.ts` defines only three messages. The keys for unknown
  error, JSON parse error, API error, analysis error, get-files error,
  create-review error, invalid event and no files are used but defined in
  none of the modelled source files. `Messages` gives them distinct
  placeholder strings.
- Comment annotation (emoji and category classification, emphasis) and the
  replacement of earlier reviews appear in no modelled file and are not
  modelled.
- An `Error` with an empty `message` yields an empty cause text; the
  unknown-error text is used only for a thrown value that is not an
  `Error`.
- The review summary counts all listed files, not only the analysed ones,
  and the GitHub client targets the context's issue number. The model
  follows the code in both.
