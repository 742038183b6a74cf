/** The process-wide configuration constants of the review action. */
module Config {

  /** A file with this many changed lines or more is not sent to the model. */
  const MaxFileChanges: int := 500

  /** The default cap on the number of review comments kept from the model. */
  const MaxReviewComments: int := 3

  /** The model used when no model is configured. */
  const DefaultModel: string := "gemini-2.5-flash"

  /** The page size used when listing the files of a pull request. */
  const FilesPerPage: int := 100

  /** File name suffixes, in lower case, of files that are never analysed. */
  const BinaryExtensions: seq<string> := [
    ".png", ".jpg", ".jpeg", ".gif", ".svg", ".webp",
    ".pdf", ".zip", ".tar", ".gz",
    ".exe", ".dll", ".so", ".dylib",
    ".woff", ".woff2", ".ttf", ".eot",
    ".ico", ".bin"
  ]

  /** The review event submitted: a plain comment, never an approval or a
      request for changes. */
  const ReviewEvent: string := "COMMENT"
}
