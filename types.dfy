/** The records that flow through the review pipeline. */
module Types {
  import opened Wrappers
  import opened Seqs
  import Messages

  /** The status GitHub reports for a changed file. */
  datatype FileStatus = Added | Removed | Modified | Renamed | Copied | Changed | Unchanged {
    /** The status as GitHub spells it. */
    function Text(): string {
      match this
      case Added => "added"
      case Removed => "removed"
      case Modified => "modified"
      case Renamed => "renamed"
      case Copied => "copied"
      case Changed => "changed"
      case Unchanged => "unchanged"
    }
  }

  /** One file of a pull request, as the file listing returns it. `patch` is
      absent for files without a textual diff. */
  datatype ChangedFile = ChangedFile(
    filename: string,
    status: FileStatus,
    additions: int,
    deletions: int,
    changes: int,
    patch: Option<string>,
    previousFilename: Option<string>)

  /** A comment anchored to one line of one file. */
  datatype ReviewComment = ReviewComment(path: string, line: int, body: string)

  /** The result of analysing a pull request. */
  datatype CodeAnalysis = CodeAnalysis(summary: string, comments: seq<ReviewComment>)

  /** A value thrown by a collaborator: an `Error` object, which carries a
      message, or any other value, which does not. */
  datatype ErrorCause = JsError(message: string) | NonError

  /** JavaScript truthiness of an optional string: present and non-empty. */
  predicate IsTruthy(s: Option<string>) {
    s.Some? && s.value != ""
  }

  /** The wrapped error text: a fixed category prefix, a colon and a space,
      then the cause's message, or the unknown-error text for a thrown value
      that is not an `Error`. */
  function CreateErrorMessage(base: string, cause: ErrorCause): (r: string)
    ensures StartsWith(r, base + ": ")
    ensures cause.JsError? ==> r[|base| + 2..] == cause.message
    ensures cause.NonError? ==> r[|base| + 2..] == Messages.UnknownError
  {
    base + ": " + (if cause.JsError? then cause.message else Messages.UnknownError)
  }
}
