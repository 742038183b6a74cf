/** The language-model client: which changed files are worth analysing, the
    prompt it sends, and how it reads the model's free-text answer back into
    a `CodeAnalysis`. The model endpoint and `JSON.parse` are parameters. */
module Gemini {
  import opened Wrappers
  import opened Seqs
  import opened JsText
  import opened Types
  import opened Config
  import opened Messages
  import opened Templates

  // ---------------------------------------------------------------------
  // Binary files
  // ---------------------------------------------------------------------

  /** `exts.some(ext => s.endsWith(ext))`. */
  function EndsWithAny(s: string, exts: seq<string>): (b: bool)
    ensures b <==> exists i :: 0 <= i < |exts| && EndsWith(s, exts[i])
    decreases |exts|
  {
    if exts == [] then false
    else if EndsWith(s, exts[0]) then true
    else
      var b := EndsWithAny(s, exts[1..]);
      assert forall i :: 1 <= i < |exts| ==> exts[i] == exts[1..][i - 1];
      b
  }

  /** `isBinaryFile`: the lower-cased file name ends with one of the binary
      extensions. */
  function IsBinaryFile(filename: string): (b: bool)
    ensures b <==> exists ext :: ext in BinaryExtensions && EndsWith(ToLower(filename), ext)
  {
    EndsWithAny(ToLower(filename), BinaryExtensions)
  }

  /** Lower-casing distributes over concatenation. */
  lemma ToLowerAppend(a: string, b: string)
    ensures ToLower(a + b) == ToLower(a) + ToLower(b)
  {
    assert forall i :: 0 <= i < |a + b| ==> ToLower(a + b)[i] == (ToLower(a) + ToLower(b))[i];
  }

  /** Whatever the stem, a name whose ending lower-cases to a binary
      extension is binary: the match ignores case. */
  lemma BinaryBySuffix(stem: string, suffix: string)
    requires ToLower(suffix) in BinaryExtensions
    ensures IsBinaryFile(stem + suffix)
  {
    ToLowerAppend(stem, suffix);
    var lower := ToLower(stem + suffix);
    assert lower[|lower| - |suffix|..] == ToLower(suffix);
  }

  /** A text ends with none of the extensions when its last character ends
      none of them. */
  lemma {:induction false} EndsWithNoneByLastChar(s: string, exts: seq<string>)
    requires s != []
    requires forall i :: 0 <= i < |exts| ==> exts[i] != [] && exts[i][|exts[i]| - 1] != s[|s| - 1]
    ensures !EndsWithAny(s, exts)
    decreases |exts|
  {
    if exts != [] {
      EndsWithNoneByLastChar(s, exts[1..]);
    }
  }

  /** No binary extension ends in `s`. */
  lemma NoExtensionEndsInS()
    ensures forall i :: 0 <= i < |BinaryExtensions| ==>
              BinaryExtensions[i] != [] && BinaryExtensions[i][|BinaryExtensions[i]| - 1] != 's'
  {
  }

  /** A name whose last character lower-cases to `s` is never binary. */
  lemma NotBinaryEndingInS(filename: string)
    requires filename != [] && LowerChar(filename[|filename| - 1]) == 's'
    ensures !IsBinaryFile(filename)
  {
    NoExtensionEndsInS();
    EndsWithNoneByLastChar(ToLower(filename), BinaryExtensions);
  }

  /** An upper-case image extension is binary; a TypeScript file whose name
      merely contains an extension is not. */
  lemma BinaryExamples()
    ensures IsBinaryFile("A.PNG")
    ensures !IsBinaryFile("png.ts")
  {
    assert ToLower(".PNG") == ".png";
    BinaryBySuffix("A", ".PNG");
    assert "A" + ".PNG" == "A.PNG";
    NotBinaryEndingInS("png.ts");
  }

  // ---------------------------------------------------------------------
  // Locating the JSON payload
  // ---------------------------------------------------------------------

  /** `s.indexOf(c)`, with `None` for -1. */
  function FirstIndexOf(s: string, c: char): (r: Option<nat>)
    ensures r.None? <==> c !in s
    ensures r.Some? ==> r.value < |s| && s[r.value] == c && c !in s[..r.value]
    decreases |s|
  {
    if s == [] then None
    else if s[0] == c then Some(0)
    else
      match FirstIndexOf(s[1..], c)
      case None => None
      case Some(i) =>
        assert s[..i + 1] == [s[0]] + s[1..][..i];
        Some(i + 1)
  }

  /** `s.lastIndexOf(c)`, with `None` for -1. */
  function LastIndexOf(s: string, c: char): (r: Option<nat>)
    ensures r.None? <==> c !in s
    ensures r.Some? ==> r.value < |s| && s[r.value] == c && c !in s[r.value + 1..]
    decreases |s|
  {
    if s == [] then None
    else if s[|s| - 1] == c then Some(|s| - 1)
    else
      var init := s[..|s| - 1];
      match LastIndexOf(init, c)
      case None =>
        assert s == init + [s[|s| - 1]];
        None
      case Some(i) =>
        assert s[i + 1..] == init[i + 1..] + [s[|s| - 1]];
        Some(i)
  }

  /** `s[p..e]` is a match of the regular expression `/\{[\s\S]*\}/`: an
      opening brace, anything, and a closing brace. */
  predicate BraceMatch(s: string, p: int, e: int) {
    0 <= p && p + 2 <= e <= |s| && s[p] == '{' && s[e - 1] == '}'
  }

  /** The span `String.prototype.match` returns for `/\{[\s\S]*\}/`: the
      leftmost start of any match, and at that start the longest match, since
      `[\s\S]*` is greedy and matches every character. */
  function JsonSpan(s: string): (r: Option<(nat, nat)>)
    ensures r.None? <==> forall p, e :: !BraceMatch(s, p, e)
    ensures r.Some? ==> BraceMatch(s, r.value.0, r.value.1)
    ensures r.Some? ==> forall p, e :: BraceMatch(s, p, e) ==> r.value.0 <= p && e <= r.value.1
    ensures r.Some? ==> '{' !in s[..r.value.0] && '}' !in s[r.value.1..]
  {
    var first, last := FirstIndexOf(s, '{'), LastIndexOf(s, '}');
    if first.Some? && last.Some? && first.value < last.value then
      var p, q := first.value, last.value;
      assert BraceMatch(s, p, q + 1);
      Some((p, q + 1))
    else
      None
  }

  /** `response.match(/\{[\s\S]*\}/)?.[0]`: the text from the first opening
      brace to the last closing brace, when the former precedes the latter. */
  function JsonCandidate(response: string): (r: Option<string>)
    ensures r.None? <==> forall p, e :: !BraceMatch(response, p, e)
    ensures r.Some? ==> exists p, e :: BraceMatch(response, p, e) && r.value == response[p..e]
                         && '{' !in response[..p] && '}' !in response[e..]
  {
    match JsonSpan(response)
    case None => None
    case Some((p, e)) => Some(response[p..e])
  }

  /** Wrapping a braced payload in prose that contains no opening brace
      before it and no closing brace after it, the payload is what is found. */
  lemma {:induction false} CandidateOfEmbedded(before: string, json: string, after: string)
    requires '{' !in before && '}' !in after
    requires |json| >= 2 && json[0] == '{' && json[|json| - 1] == '}'
    ensures JsonCandidate(before + json + after) == Some(json)
  {
    var s := before + json + after;
    var p, e := |before|, |before| + |json|;
    assert s[p] == '{' && s[e - 1] == '}';
    assert BraceMatch(s, p, e);
    var span := JsonSpan(s);
    var (p', e') := span.value;
    assert p' <= p && e <= e';
    assert s[..p] == before && s[e..] == after;
    assert s[p..e] == json;
  }

  // ---------------------------------------------------------------------
  // The client
  // ---------------------------------------------------------------------

  /** What `JSON.parse` yields for the model's payload, as far as the client
      reads it: the `summary` and `comments` properties, either of which may
      be missing. */
  datatype Parsed = Parsed(summary: Option<string>, comments: Option<seq<ReviewComment>>)

  /** The answer the client gets for a prompt: the model's text, or the value
      the SDK threw. */
  type Generate = (string, string) -> Result<string, ErrorCause>

  /** `JSON.parse` on a candidate payload: `None` when it throws. */
  type Decode = string -> Option<Parsed>

  /** The analysis returned when the model's answer cannot be read. */
  const ParsingFallback: CodeAnalysis := CodeAnalysis(ParsingErrorSummary, [])

  /** The analysis returned when no file is worth sending to the model. */
  const NothingToAnalyze: CodeAnalysis := CodeAnalysis(NoAnalyzableFiles, [])

  /** The number of comments `slice(0, maxComments)` keeps of `n`. */
  function KeptCount(n: nat, maxComments: int): nat {
    SliceEnd(n, maxComments)
  }

  /** A client: the model name, the change-count threshold and the comment cap. */
  datatype GeminiClient = GeminiClient(model: string, maxChanges: int, maxComments: int) {

    /** The condition of `filterAnalyzableFiles`: a truthy patch, fewer
        changes than the threshold (strictly), and not a binary file. */
    predicate IsAnalyzable(file: ChangedFile) {
      IsTruthy(file.patch) && file.changes < maxChanges && !IsBinaryFile(file.filename)
    }

    /** `filterAnalyzableFiles`: only analysable files, in input order. */
    function FilterAnalyzableFiles(files: seq<ChangedFile>): (r: seq<ChangedFile>)
      ensures IsSubsequence(r, files)
      ensures forall i :: 0 <= i < |r| ==>
                r[i].patch.Some? && r[i].patch.value != ""
                && r[i].changes < maxChanges && !IsBinaryFile(r[i].filename)
    {
      Filter(files, f => IsAnalyzable(f))
    }

    /** The filter drops nothing analysable: each analysable file is kept as
        often as it occurs, and every other file is dropped. */
    lemma FilterKeepsAnalyzable(files: seq<ChangedFile>)
      ensures forall f :: multiset(FilterAnalyzableFiles(files))[f]
                          == if IsAnalyzable(f) then multiset(files)[f] else 0
      ensures forall f :: f in FilterAnalyzableFiles(files) <==> f in files && IsAnalyzable(f)
    {
      FilterMultiset(files, f => IsAnalyzable(f));
    }

    /** `parseResponse`: never fails. The text between the first opening
        brace and the last closing brace is decoded; without such a text, or
        when decoding fails, the result is the parsing fallback. Otherwise a
        falsy summary becomes the default summary and the comments are cut to
        the first `maxComments`. */
    function ParseResponse(response: string, decode: Decode): (r: CodeAnalysis)
      ensures 0 <= maxComments ==> |r.comments| <= maxComments
      ensures JsonCandidate(response).None? ==> r == ParsingFallback
      ensures JsonCandidate(response).Some? && decode(JsonCandidate(response).value).None?
              ==> r == ParsingFallback
      ensures JsonCandidate(response).Some? && decode(JsonCandidate(response).value).Some? ==>
                var parsed := decode(JsonCandidate(response).value).value;
                var all := parsed.comments.GetOr([]);
                && r.summary == (if IsTruthy(parsed.summary) then parsed.summary.value
                                 else DefaultAnalysisSummary)
                && |r.comments| == KeptCount(|all|, maxComments)
                && r.comments == all[..|r.comments|]
    {
      match JsonCandidate(response)
      case None => ParsingFallback
      case Some(json) =>
        match decode(json)
        case None => ParsingFallback
        case Some(parsed) =>
          var summary := if IsTruthy(parsed.summary) then parsed.summary.value
                         else DefaultAnalysisSummary;
          CodeAnalysis(summary, SlicePrefix(parsed.comments.GetOr([]), maxComments))
    }

    /** `callGemini`: the model's text, or the SDK's failure wrapped with the
        API-error prefix. */
    function CallGemini(prompt: string, generate: Generate): (r: Result<string, string>)
      ensures generate(model, prompt).Success? ==> r == Success(generate(model, prompt).value)
      ensures generate(model, prompt).Failure? ==>
                r == Failure(CreateErrorMessage(GeminiApiError, generate(model, prompt).error))
    {
      match generate(model, prompt)
      case Success(text) => Success(text)
      case Failure(cause) => Failure(CreateErrorMessage(GeminiApiError, cause))
    }

    /** `analyzeCode`: with no analysable file, the fixed result; otherwise the
        prompt for the analysable files goes to the model and its answer is
        interpreted. A model failure surfaces wrapped twice, first by
        `callGemini`, then with the analysis-error prefix. */
    function AnalyzeCode(files: seq<ChangedFile>, generate: Generate, decode: Decode)
      : (r: Result<CodeAnalysis, string>)
      ensures FilterAnalyzableFiles(files) == [] ==> r == Success(NothingToAnalyze)
      ensures FilterAnalyzableFiles(files) != [] ==>
                var call := CallGemini(BuildCodeReviewPrompt(FilterAnalyzableFiles(files), maxComments), generate);
                && (call.Success? ==> r == Success(ParseResponse(call.value, decode)))
                && (call.Failure? ==> r == Failure(CreateErrorMessage(GeminiAnalysisError, JsError(call.error))))
      ensures r.Success? && 0 <= maxComments ==> |r.value.comments| <= maxComments
    {
      var analyzable := FilterAnalyzableFiles(files);
      if |analyzable| == 0 then Success(NothingToAnalyze)
      else
        match CallGemini(BuildCodeReviewPrompt(analyzable, maxComments), generate)
        case Success(text) => Success(ParseResponse(text, decode))
        case Failure(message) => Failure(CreateErrorMessage(GeminiAnalysisError, JsError(message)))
    }
  }

  /** The constructor: an absent argument takes its configured default. */
  function NewGeminiClient(model: Option<string>, maxChanges: Option<int>, maxComments: Option<int>)
    : (c: GeminiClient)
    ensures model.Some? ==> c.model == model.value
    ensures model.None? ==> c.model == DefaultModel
    ensures maxChanges.Some? ==> c.maxChanges == maxChanges.value
    ensures maxChanges.None? ==> c.maxChanges == MaxFileChanges
    ensures maxComments.Some? ==> c.maxComments == maxComments.value
    ensures maxComments.None? ==> c.maxComments == MaxReviewComments
  {
    GeminiClient(model.GetOr(DefaultModel), maxChanges.GetOr(MaxFileChanges),
                 maxComments.GetOr(MaxReviewComments))
  }

  // ---------------------------------------------------------------------
  // Properties across calls
  // ---------------------------------------------------------------------

  /** A payload embedded in prose is read back: its summary when truthy, and
      its first `maxComments` comments in their original order. */
  lemma ParseEmbeddedPayload(client: GeminiClient, before: string, json: string, after: string,
                             decode: Decode, summary: string, comments: seq<ReviewComment>)
    requires '{' !in before && '}' !in after
    requires |json| >= 2 && json[0] == '{' && json[|json| - 1] == '}'
    requires decode(json) == Some(Parsed(Some(summary), Some(comments))) && summary != ""
    requires 0 <= client.maxComments
    ensures var r := client.ParseResponse(before + json + after, decode);
            && r.summary == summary
            && |r.comments| == (if client.maxComments < |comments| then client.maxComments else |comments|)
            && r.comments == comments[..|r.comments|]
  {
    CandidateOfEmbedded(before, json, after);
  }

  /** Text without an opening brace holds no payload and yields the parsing
      fallback, whatever the decoder. */
  lemma ParseWithoutBrace(client: GeminiClient, response: string, decode: Decode)
    requires '{' !in response
    ensures client.ParseResponse(response, decode) == ParsingFallback
  {
    assert forall p :: 0 <= p < |response| ==> response[p] != '{';
  }

  /** With no analysable file the model is not consulted: any two model
      endpoints give the same result. Otherwise the result depends on the
      model only through its answer to the prompt for the analysable files. */
  lemma AnalyzeConsultsModelOnce(client: GeminiClient, files: seq<ChangedFile>,
                                 g1: Generate, g2: Generate, decode: Decode)
    requires var analyzable := client.FilterAnalyzableFiles(files);
             analyzable == []
             || g1(client.model, BuildCodeReviewPrompt(analyzable, client.maxComments))
                == g2(client.model, BuildCodeReviewPrompt(analyzable, client.maxComments))
    ensures client.AnalyzeCode(files, g1, decode) == client.AnalyzeCode(files, g2, decode)
  {
  }

  /** A model failure surfaces from `analyzeCode` wrapped twice: first with
      the API-error prefix, then with the analysis-error prefix. A model
      answer is interpreted by `parseResponse`. */
  lemma AnalyzeCodeOutcome(client: GeminiClient, files: seq<ChangedFile>, generate: Generate, decode: Decode)
    requires client.FilterAnalyzableFiles(files) != []
    ensures var answer := generate(client.model,
                                   BuildCodeReviewPrompt(client.FilterAnalyzableFiles(files), client.maxComments));
            && (answer.Success? ==>
                  client.AnalyzeCode(files, generate, decode) == Success(client.ParseResponse(answer.value, decode)))
            && (answer.Failure? ==>
                  client.AnalyzeCode(files, generate, decode)
                  == Failure(CreateErrorMessage(GeminiAnalysisError,
                                                JsError(CreateErrorMessage(GeminiApiError, answer.error)))))
  {
  }

  /** Filtering the analysable files twice changes nothing more. */
  lemma FilterIdempotent(client: GeminiClient, files: seq<ChangedFile>)
    ensures client.FilterAnalyzableFiles(client.FilterAnalyzableFiles(files))
         == client.FilterAnalyzableFiles(files)
  {
    var once := client.FilterAnalyzableFiles(files);
    FilterKeepsAll(once, f => client.IsAnalyzable(f));
  }

  /** A filter over two files that drops the first and keeps the second. */
  lemma FilterTwo(client: GeminiClient, dropped: ChangedFile, kept: ChangedFile)
    requires !client.IsAnalyzable(dropped) && client.IsAnalyzable(kept)
    ensures client.FilterAnalyzableFiles([dropped, kept]) == [kept]
  {
    FilterPair(dropped, kept, f => client.IsAnalyzable(f));
  }

  const ExampleImage: ChangedFile := ChangedFile("a.png", Modified, 5, 5, 10, Some("..."), None)
  const ExampleCode: ChangedFile := ChangedFile("b.ts", Modified, 10, 10, 20, Some("diff text"), None)

  /** The eligibility example: of a PNG image and a TypeScript file, both
      with patches and few changes, only the TypeScript file is kept. */
  lemma FilterExample()
    ensures NewGeminiClient(None, Some(500), None).FilterAnalyzableFiles([ExampleImage, ExampleCode])
         == [ExampleCode]
  {
    var client := NewGeminiClient(None, Some(500), None);
    assert client.maxChanges == 500;
    ExampleImageIsBinary();
    NotBinaryEndingInS("b.ts");
    FilterTwo(client, ExampleImage, ExampleCode);
  }

  lemma ExampleImageIsBinary()
    ensures IsBinaryFile("a.png")
  {
    var name := "a.png";
    assert ToLower(name) == name;
    assert name[|name| - 4..] == ".png";
    assert BinaryExtensions[0] == ".png";
  }

  const ExamplePayload: string :=
    "{" + "\"summary\":\"ok\",\"comments\":[{\"path\":\"b.ts\",\"line\":5,\"body\":\"성능 이슈 발견\"}]" + "}"

  /** The interpretation example: prose before a payload with summary `ok`
      and one comment gives that summary and that comment. */
  lemma ParseExample(decode: Decode, comment: ReviewComment)
    requires decode(ExamplePayload) == Some(Parsed(Some("ok"), Some([comment])))
    ensures NewGeminiClient(None, None, None).ParseResponse("Here you go: " + ExamplePayload, decode)
         == CodeAnalysis("ok", [comment])
  {
    var before := "Here you go: ";
    assert forall i :: 0 <= i < |before| ==> before[i] != '{';
    assert '{' !in before;
    assert before + ExamplePayload + "" == before + ExamplePayload;
    ParseEmbeddedPayload(NewGeminiClient(None, None, None), before, ExamplePayload, "", decode,
                         "ok", [comment]);
  }

  /** Plain prose gives the parsing fallback. */
  lemma ParseProseExample(decode: Decode)
    ensures NewGeminiClient(None, None, None).ParseResponse("not json at all", decode) == ParsingFallback
  {
    ParseWithoutBrace(NewGeminiClient(None, None, None), "not json at all", decode);
  }
}
