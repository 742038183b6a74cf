/** The two text builders of the review action: the Markdown summary posted
    as the review body, and the prompt sent to the language model. Both are
    functions of their arguments only. Each template literal is written as the
    list of its fixed pieces and interpolated values, in order; the text is
    their concatenation. */
module Templates {
  import opened Wrappers
  import opened Seqs
  import opened JsText
  import opened Types

  // ---------------------------------------------------------------------
  // Review summary
  // ---------------------------------------------------------------------

  const Title: string := "## Revisor AI Code Review"

  const SummaryHeading: string := "### 요약\n"

  /** The section shown only when the analysis produced comments. */
  const DetailsSection: string := "### 세부 사항\n아래 라인별 코멘트를 확인하세요."

  const Footer: string := "\n\n---\n*Powered by Google Gemini AI*"

  function FileCountLine(n: int): string {
    "- **변경된 파일**: " + IntToString(n) + "개"
  }

  function IssueCountLine(n: int): string {
    "- **발견된 이슈**: " + IntToString(n) + "개"
  }

  /** The pieces of the summary template between its leading newline and its
      trailing indentation. */
  function SummaryParts(files: seq<ChangedFile>, analysis: CodeAnalysis): seq<string> {
    [ Title, "\n\n### 분석 결과\n",
      FileCountLine(|files|), "\n",
      IssueCountLine(|analysis.comments|), "\n\n",
      SummaryHeading, analysis.summary, "\n\n",
      if |analysis.comments| > 0 then DetailsSection else "",
      Footer ]
  }

  /** `createReviewSummary`: the template literal, trimmed. */
  function CreateReviewSummary(files: seq<ChangedFile>, analysis: CodeAnalysis): string {
    Trim("\n" + Concat(SummaryParts(files, analysis)) + "\n  ")
  }

  /** Trimming removes exactly the template's framing whitespace and nothing
      of the analysis summary, whatever it holds. */
  lemma SummaryLayout(files: seq<ChangedFile>, analysis: CodeAnalysis)
    ensures CreateReviewSummary(files, analysis) == Concat(SummaryParts(files, analysis))
  {
    var parts := SummaryParts(files, analysis);
    var text := Concat(parts);
    assert text == Title + Concat(parts[1..]);
    ConcatRange(parts, 10, 11);
    assert parts[10..11] == [Footer] && Concat([Footer]) == Footer;
    assert parts[11..] == [];
    assert text[|text| - 1] == Footer[|Footer| - 1] == '*';
    TrimFramed("\n", text, "\n  ");
  }

  /** The summary begins with the review title. */
  lemma SummaryStartsWithTitle(files: seq<ChangedFile>, analysis: CodeAnalysis)
    ensures StartsWith(CreateReviewSummary(files, analysis), Title)
  {
    SummaryLayout(files, analysis);
    var parts := SummaryParts(files, analysis);
    assert Concat(parts) == Title + Concat(parts[1..]);
  }

  /** The summary reports the number of changed files and the number of
      comments. */
  lemma SummaryReportsCounts(files: seq<ChangedFile>, analysis: CodeAnalysis)
    ensures IsInfix(FileCountLine(|files|), CreateReviewSummary(files, analysis))
    ensures IsInfix(IssueCountLine(|analysis.comments|), CreateReviewSummary(files, analysis))
  {
    SummaryLayout(files, analysis);
    ConcatPart(SummaryParts(files, analysis), 2);
    ConcatPart(SummaryParts(files, analysis), 4);
  }

  /** The analysis summary appears verbatim right under the summary heading. */
  lemma SummaryQuotesAnalysis(files: seq<ChangedFile>, analysis: CodeAnalysis)
    ensures IsInfix(SummaryHeading + analysis.summary, CreateReviewSummary(files, analysis))
  {
    SummaryLayout(files, analysis);
    ConcatAdjacent(SummaryParts(files, analysis), 6);
  }

  /** The summary ends with the footer, and what precedes the footer ends with
      the details section exactly when the analysis has comments. */
  lemma SummaryDetailsIffComments(files: seq<ChangedFile>, analysis: CodeAnalysis)
    ensures EndsWith(CreateReviewSummary(files, analysis), Footer)
    ensures var r := CreateReviewSummary(files, analysis);
            EndsWith(r[..|r| - |Footer|], DetailsSection) <==> |analysis.comments| > 0
  {
    SummaryLayout(files, analysis);
    var parts := SummaryParts(files, analysis);
    var r := CreateReviewSummary(files, analysis);
    ConcatSnoc(parts);
    ConcatSnoc(parts[..10]);
    ConcatSnoc(parts[..9]);
    assert parts[..10][..9] == parts[..9] && parts[..9][..8] == parts[..8];
    var body := Concat(parts[..10]);
    assert r == body + Footer;
    assert r[..|r| - |Footer|] == body;
    if |analysis.comments| == 0 {
      assert body == Concat(parts[..8]) + "\n\n" + "";
      assert body[|body| - 1] == '\n';
      assert DetailsSection[|DetailsSection| - 1] == '.';
    }
  }

  // ---------------------------------------------------------------------
  // Prompt
  // ---------------------------------------------------------------------

  const PromptIntro: string :=
    "\n당신은 전문 코드 리뷰어입니다. 다음 Pull Request 변경사항을 분석하고 리뷰해주세요.\n\n"

  const FormatInstruction: string := "다음 JSON 형식으로만 응답하세요 (마크다운 없이 순수 JSON만):"

  /** The pieces of the literal output format the model is asked to follow;
      the odd-numbered ones are the field names. */
  const JsonShapeParts: seq<string> :=
    [ "{\n  ", "\"summary\":", " \"전체 리뷰 요약 (한국어)\",\n  ",
      "\"issuesFound\":", " 발견된_이슈_개수,\n  ",
      "\"comments\":", " [\n    {\n      ",
      "\"path\":", " \"파일명\",\n      ",
      "\"line\":", " 라인번호,\n      ",
      "\"body\":", " \"코멘트 (한국어)\"\n    }\n  ]\n}" ]

  /** The literal output format the model is asked to follow. */
  const JsonShape: string := Concat(JsonShapeParts)

  const FocusInstruction: string := "보안 취약점, 버그, 성능 이슈에 집중하세요."

  /** The sentence capping the number of comments the model should write. */
  function CapSentence(maxComments: int): string {
    "중요한 이슈만 최대 " + IntToString(maxComments) + "개까지 코멘트하세요."
  }

  /** The pieces of the prompt after the file section. */
  function InstructionParts(maxComments: int): seq<string> {
    InstructionLayout(JsonShape, CapSentence(maxComments))
  }

  /** The fixed layout of the instructions around the output format and the
      comment cap. */
  function InstructionLayout(shape: string, cap: string): seq<string> {
    [ "\n\n", FormatInstruction, "\n\n", shape, "\n\n", cap, "\n", FocusInstruction, "\n" ]
  }

  /** What `${file.patch}` renders: the patch, or `undefined` when absent. */
  function PatchText(patch: Option<string>): string {
    match patch
    case Some(p) => p
    case None => "undefined"
  }

  function NameLine(file: ChangedFile): string {
    "## 파일: " + file.filename
  }

  function StatusLine(file: ChangedFile): string {
    "상태: " + file.status.Text()
  }

  function ChangeLine(file: ChangedFile): string {
    "변경: +" + IntToString(file.additions) + " -" + IntToString(file.deletions)
  }

  function DiffFence(file: ChangedFile): string {
    "```diff\n" + PatchText(file.patch) + "\n```"
  }

  function FileBlockParts(file: ChangedFile): seq<string> {
    [ "\n", NameLine(file), "\n", StatusLine(file), "\n", ChangeLine(file), "\n\n",
      DiffFence(file), "\n" ]
  }

  /** The block describing one file in the prompt. */
  function FileBlock(file: ChangedFile): string {
    Concat(FileBlockParts(file))
  }

  /** `files.map(...)`: one block per file. */
  function Blocks(files: seq<ChangedFile>): (r: seq<string>)
    ensures |r| == |files|
    ensures forall i :: 0 <= i < |r| ==> r[i] == FileBlock(files[i])
  {
    seq(|files|, i requires 0 <= i < |files| => FileBlock(files[i]))
  }

  /** `files.map(...).join('\n\n')`. */
  function FileSection(files: seq<ChangedFile>): string {
    Join(Blocks(files), "\n\n")
  }

  /** `buildCodeReviewPrompt`. */
  function BuildCodeReviewPrompt(files: seq<ChangedFile>, maxComments: int): string {
    Concat([PromptIntro, FileSection(files)] + InstructionParts(maxComments))
  }

  /** The file section is empty for no files, one block for one file, and
      grows at the end by a blank line and the next block, in input order. */
  lemma FileSectionShape(files: seq<ChangedFile>, file: ChangedFile)
    ensures FileSection([]) == ""
    ensures FileSection([file]) == FileBlock(file)
    ensures files != [] ==> FileSection(files + [file]) == FileSection(files) + "\n\n" + FileBlock(file)
  {
    assert Blocks([file]) == [FileBlock(file)];
    if files != [] {
      assert Blocks(files + [file]) == Blocks(files) + [FileBlock(file)];
      JoinSnoc(Blocks(files), FileBlock(file), "\n\n");
    }
  }

  /** The block of the `i`-th file sits in the file section exactly after the
      blocks of the files before it and before the blocks of the files after
      it, separated by blank lines. */
  lemma FileSectionAround(files: seq<ChangedFile>, i: nat)
    requires i < |files|
    ensures FileSection(files)
         == FileSection(files[..i]) + (if 0 < i then "\n\n" else "") + FileBlock(files[i])
            + (if i + 1 < |files| then "\n\n" else "") + FileSection(files[i + 1..])
  {
    var bs := Blocks(files);
    JoinAround(bs, "\n\n", i);
    assert bs[..i] == Blocks(files[..i]);
    assert bs[i + 1..] == Blocks(files[i + 1..]);
  }

  /** The prompt is the fixed introduction, the file section, and the fixed
      instructions, in that order. */
  lemma PromptLayout(files: seq<ChangedFile>, maxComments: int)
    ensures BuildCodeReviewPrompt(files, maxComments)
         == PromptIntro + FileSection(files) + Concat(InstructionParts(maxComments))
  {
    var head := [PromptIntro, FileSection(files)];
    ConcatAppend(head, InstructionParts(maxComments));
    ConcatPair(head);
  }

  /** In the prompt, the block of the `i`-th file comes right after the
      blocks of the files before it and right before those of the files after
      it, between the fixed introduction and the fixed instructions. */
  lemma PromptBlocksInOrder(files: seq<ChangedFile>, maxComments: int, i: nat)
    requires i < |files|
    ensures BuildCodeReviewPrompt(files, maxComments)
         == PromptIntro
            + (FileSection(files[..i]) + (if 0 < i then "\n\n" else "") + FileBlock(files[i])
               + (if i + 1 < |files| then "\n\n" else "") + FileSection(files[i + 1..]))
            + Concat(InstructionParts(maxComments))
  {
    PromptLayout(files, maxComments);
    FileSectionAround(files, i);
  }

  /** Every file block holds the file name, its status, its change counts and
      its patch verbatim inside a `diff` fence. */
  lemma FileBlockContents(file: ChangedFile)
    ensures IsInfix("## 파일: " + file.filename, FileBlock(file))
    ensures IsInfix("상태: " + file.status.Text(), FileBlock(file))
    ensures IsInfix("변경: +" + IntToString(file.additions) + " -" + IntToString(file.deletions), FileBlock(file))
    ensures file.patch.Some? ==> IsInfix("```diff\n" + file.patch.value + "\n```", FileBlock(file))
  {
    ConcatPart(FileBlockParts(file), 1);
    ConcatPart(FileBlockParts(file), 3);
    ConcatPart(FileBlockParts(file), 5);
    ConcatPart(FileBlockParts(file), 7);
  }

  /** The prompt holds the block of each file. */
  lemma PromptHoldsBlock(files: seq<ChangedFile>, maxComments: int, i: nat)
    requires i < |files|
    ensures IsInfix(FileBlock(files[i]), BuildCodeReviewPrompt(files, maxComments))
  {
    PromptBlocksInOrder(files, maxComments, i);
    InfixNested(PromptIntro, FileSection(files[..i]), if 0 < i then "\n\n" else "",
                FileBlock(files[i]), if i + 1 < |files| then "\n\n" else "",
                FileSection(files[i + 1..]), Concat(InstructionParts(maxComments)));
  }

  /** The prompt holds every file's block, the literal JSON output format and
      the comment cap. */
  lemma PromptContents(files: seq<ChangedFile>, maxComments: int)
    ensures forall i :: 0 <= i < |files| ==> IsInfix(FileBlock(files[i]), BuildCodeReviewPrompt(files, maxComments))
    ensures IsInfix(JsonShape, BuildCodeReviewPrompt(files, maxComments))
    ensures IsInfix(CapSentence(maxComments), BuildCodeReviewPrompt(files, maxComments))
  {
    forall i | 0 <= i < |files| {
      PromptHoldsBlock(files, maxComments, i);
    }
    PromptLayout(files, maxComments);
    var instructions := Concat(InstructionParts(maxComments));
    InstructionLayoutHolds(JsonShape, CapSentence(maxComments));
    InfixPrepend(JsonShape, PromptIntro + FileSection(files), instructions);
    InfixPrepend(CapSentence(maxComments), PromptIntro + FileSection(files), instructions);
  }

  /** The instructions hold the output format and the comment cap, whatever
      their texts. */
  lemma InstructionLayoutHolds(shape: string, cap: string)
    ensures IsInfix(shape, Concat(InstructionLayout(shape, cap)))
    ensures IsInfix(cap, Concat(InstructionLayout(shape, cap)))
  {
    ConcatPart(InstructionLayout(shape, cap), 3);
    ConcatPart(InstructionLayout(shape, cap), 5);
  }

  /** The output format names the fields `summary`, `issuesFound` and
      `comments`, and each comment's `path`, `line` and `body`. */
  lemma JsonShapeNamesFields()
    ensures IsInfix("\"summary\":", JsonShape)
    ensures IsInfix("\"issuesFound\":", JsonShape)
    ensures IsInfix("\"comments\":", JsonShape)
    ensures IsInfix("\"path\":", JsonShape)
    ensures IsInfix("\"line\":", JsonShape)
    ensures IsInfix("\"body\":", JsonShape)
  {
    ConcatPart(JsonShapeParts, 1);
    ConcatPart(JsonShapeParts, 3);
    ConcatPart(JsonShapeParts, 5);
    ConcatPart(JsonShapeParts, 7);
    ConcatPart(JsonShapeParts, 9);
    ConcatPart(JsonShapeParts, 11);
  }
}
