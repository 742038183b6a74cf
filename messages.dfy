/** The user-visible message strings of the action. The first three have the
    text the templates module gives them; the others are referenced by the
    clients and the entry point but defined in none of the modelled source
    files; they are given distinct placeholder strings here, named after
    their keys. */
module Messages {

  const NoAnalyzableFiles: string := "분석할 수 있는 파일이 없습니다. (바이너리 파일이거나 변경량이 너무 큽니다)"
  const DefaultAnalysisSummary: string := "코드를 분석했습니다."
  const ParsingErrorSummary: string := "AI 응답을 파싱하는 중 오류가 발생했습니다. 전반적으로 코드가 깔끔합니다."

  const UnknownError: string := "UNKNOWN_ERROR"
  const JsonParseError: string := "JSON_PARSE_ERROR"
  const GeminiApiError: string := "GEMINI_API_ERROR"
  const GeminiAnalysisError: string := "GEMINI_ANALYSIS_ERROR"
  const GetFilesError: string := "GET_FILES_ERROR"
  const CreateReviewError: string := "CREATE_REVIEW_ERROR"
  const InvalidPrEvent: string := "INVALID_PR_EVENT"
  const NoFilesToAnalyze: string := "NO_FILES_TO_ANALYZE"
}
