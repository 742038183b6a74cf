/** The GitHub client: listing the changed files of the pull request page by
    page, and submitting the review. The REST endpoints are parameters. */
module GitHub {
  import opened Wrappers
  import opened Seqs
  import opened Types
  import opened Config
  import opened Messages

  /** The arguments of one `pulls.listFiles` call. */
  datatype ListFilesRequest = ListFilesRequest(
    owner: string, repo: string, pullNumber: int, perPage: int, page: int)

  /** The arguments of the `pulls.createReview` call. */
  datatype ReviewRequest = ReviewRequest(
    owner: string, repo: string, pullNumber: int,
    body: string, event: string, comments: seq<ReviewComment>)

  /** The file-listing endpoint: one page of files, or the thrown value. */
  type ListFiles = ListFilesRequest -> Result<seq<ChangedFile>, ErrorCause>

  /** The review-creating endpoint: `None` when the call completes, or the
      thrown value. */
  type SubmitReview = ReviewRequest -> Option<ErrorCause>

  /** A review comment GitHub can anchor: a positive line, a non-empty path
      and a non-empty body. */
  predicate IsValidComment(c: ReviewComment) {
    c.line > 0 && c.path != "" && c.body != ""
  }

  /** The `validComments` filter of `createReview`: exactly the valid
      comments, in their original order, each as often as in the input. */
  function ValidComments(comments: seq<ReviewComment>): (r: seq<ReviewComment>)
    ensures IsSubsequence(r, comments)
    ensures forall i :: 0 <= i < |r| ==> r[i].line > 0 && r[i].path != "" && r[i].body != ""
    ensures forall c :: multiset(r)[c] == if IsValidComment(c) then multiset(comments)[c] else 0
  {
    FilterMultiset(comments, IsValidComment);
    Filter(comments, IsValidComment)
  }

  /** Comments that are all valid are submitted unchanged. */
  lemma AllValidCommentsKept(comments: seq<ReviewComment>)
    requires forall i :: 0 <= i < |comments| ==> IsValidComment(comments[i])
    ensures ValidComments(comments) == comments
  {
    FilterKeepsAll(comments, IsValidComment);
  }

  /** The repository and pull request a client talks to, fixed when it is
      built. */
  datatype GitHubClient = GitHubClient(owner: string, repo: string, prNumber: int) {

    /** The request for page `page`, at the configured page size. */
    function PageRequest(page: int): (r: ListFilesRequest)
      ensures r.page == page && r.perPage == FilesPerPage
      ensures r.owner == owner && r.repo == repo && r.pullNumber == prNumber
    {
      ListFilesRequest(owner, repo, prNumber, FilesPerPage, page)
    }

    /** The endpoint's answer for page `page`. */
    function Fetch(listFiles: ListFiles, page: int): Result<seq<ChangedFile>, ErrorCause> {
      listFiles(PageRequest(page))
    }

    /** Page `page` arrives full, so the listing goes on past it. */
    predicate PageFull(listFiles: ListFiles, page: int) {
      Fetch(listFiles, page).Success? && |Fetch(listFiles, page).value| == FilesPerPage
    }

    /** Page `n` does not arrive full (an error, or fewer or more files than
        a page), so a listing that reaches page `n` stops there. */
    predicate PageEnds(listFiles: ListFiles, n: int) {
      !PageFull(listFiles, n)
    }

    /** The files of pages `1..n`, in page order. */
    function FilesUpTo(listFiles: ListFiles, n: int): seq<ChangedFile>
      decreases n
    {
      if n <= 0 then []
      else FilesUpTo(listFiles, n - 1) + Fetch(listFiles, n).GetOr([])
    }

    /** `getChangedFiles`: requests pages 1, 2, 3, ... in turn, collecting
        their files, until a page is not full. Every page before the last one
        requested was full. A failing request ends the listing with the
        wrapped error. `requests` is the sequence of requests made. */
    method GetChangedFiles(listFiles: ListFiles)
      returns (result: Result<seq<ChangedFile>, string>, requests: seq<ListFilesRequest>)
      requires exists n :: 1 <= n && PageEnds(listFiles, n)
      ensures 1 <= |requests|
      ensures forall k :: 0 <= k < |requests| ==> requests[k] == PageRequest(k + 1)
      ensures forall k :: 1 <= k < |requests| ==> PageFull(listFiles, k)
      ensures PageEnds(listFiles, |requests|)
      ensures Fetch(listFiles, |requests|).Success? ==> result == Success(FilesUpTo(listFiles, |requests|))
      ensures Fetch(listFiles, |requests|).Failure? ==>
                result == Failure(CreateErrorMessage(GetFilesError, Fetch(listFiles, |requests|).error))
    {
      ghost var stop :| 1 <= stop && PageEnds(listFiles, stop);
      var allFiles: seq<ChangedFile> := [];
      var page := 1;
      var hasMore := true;
      requests := [];
      while hasMore
        invariant 1 <= page && |requests| == page - 1
        invariant forall k :: 0 <= k < |requests| ==> requests[k] == PageRequest(k + 1)
        invariant forall k :: 1 <= k < page - 1 ==> PageFull(listFiles, k)
        invariant hasMore ==> page <= stop && (page == 1 || PageFull(listFiles, page - 1))
        invariant !hasMore ==> 2 <= page && PageEnds(listFiles, page - 1)
                               && Fetch(listFiles, page - 1).Success?
        invariant allFiles == FilesUpTo(listFiles, page - 1)
        decreases if hasMore then stop - page + 1 else 0
      {
        var request := PageRequest(page);
        requests := requests + [request];
        var response := listFiles(request);
        if response.Failure? {
          return Failure(CreateErrorMessage(GetFilesError, response.error)), requests;
        }
        var data := response.value;
        allFiles := allFiles + data;
        hasMore := |data| == FilesPerPage;
        page := page + 1;
      }
      result := Success(allFiles);
    }

    /** The request `createReview` submits: the summary as its body, the
        commenting event, and only the valid comments. */
    function ReviewRequestFor(summary: string, comments: seq<ReviewComment>): (r: ReviewRequest)
      ensures r.owner == owner && r.repo == repo && r.pullNumber == prNumber
      ensures r.body == summary && r.event == ReviewEvent
      ensures IsSubsequence(r.comments, comments)
      ensures forall i :: 0 <= i < |r.comments| ==> IsValidComment(r.comments[i])
      ensures r.comments == ValidComments(comments)
    {
      ReviewRequest(owner, repo, prNumber, summary, ReviewEvent, ValidComments(comments))
    }

    /** `createReview`: submits the request; a failure is wrapped with the
        create-review prefix. */
    function CreateReview(summary: string, comments: seq<ReviewComment>, submit: SubmitReview)
      : (r: Outcome<string>)
      ensures submit(ReviewRequestFor(summary, comments)).None? ==> r == Pass
      ensures submit(ReviewRequestFor(summary, comments)).Some? ==>
                r == Fail(CreateErrorMessage(CreateReviewError, submit(ReviewRequestFor(summary, comments)).value))
    {
      match submit(ReviewRequestFor(summary, comments))
      case None => Pass
      case Some(cause) => Fail(CreateErrorMessage(CreateReviewError, cause))
    }
  }

  /** The constructor: the repository and the issue number of the event
      context. */
  function NewGitHubClient(repoOwner: string, repoName: string, issueNumber: int): (c: GitHubClient)
    ensures c.owner == repoOwner && c.repo == repoName && c.prNumber == issueNumber
  {
    GitHubClient(repoOwner, repoName, issueNumber)
  }

  /** When the first `n - 1` pages are full and page `n` arrives, the files
      number `n - 1` full pages plus the last page. */
  lemma {:induction false} FilesUpToLength(client: GitHubClient, listFiles: ListFiles, n: nat)
    requires forall k :: 1 <= k < n ==> client.PageFull(listFiles, k)
    ensures 1 <= n ==>
              |client.FilesUpTo(listFiles, n)|
              == (n - 1) * FilesPerPage + |client.Fetch(listFiles, n).GetOr([])|
  {
    if 2 <= n {
      FilesUpToLength(client, listFiles, n - 1);
      assert client.PageFull(listFiles, n - 1);
      assert |client.Fetch(listFiles, n - 1).GetOr([])| == FilesPerPage;
      assert (n - 2) * FilesPerPage + FilesPerPage == (n - 1) * FilesPerPage;
    }
  }

  /** When the first `n - 1` pages are full, file `j` of page `k` is at
      position `(k - 1) * FilesPerPage + j` of the collected files: pages keep
      their order and each page its own order. */
  lemma {:induction false} FilesUpToPosition(client: GitHubClient, listFiles: ListFiles,
                                             n: nat, k: nat, j: nat)
    requires forall m :: 1 <= m < n ==> client.PageFull(listFiles, m)
    requires 1 <= k <= n && j < |client.Fetch(listFiles, k).GetOr([])|
    ensures (k - 1) * FilesPerPage + j < |client.FilesUpTo(listFiles, n)|
    ensures client.FilesUpTo(listFiles, n)[(k - 1) * FilesPerPage + j]
            == client.Fetch(listFiles, k).value[j]
    decreases n
  {
    FilesUpToLength(client, listFiles, n - 1);
    FilesUpToLength(client, listFiles, n);
    if k < n {
      FilesUpToPosition(client, listFiles, n - 1, k, j);
    }
  }

  /** A listing whose first page is short is that page alone. */
  lemma SinglePageListing(client: GitHubClient, listFiles: ListFiles)
    requires client.Fetch(listFiles, 1).Success? && client.PageEnds(listFiles, 1)
    ensures client.FilesUpTo(listFiles, 1) == client.Fetch(listFiles, 1).value
  {
    assert client.FilesUpTo(listFiles, 0) == [];
  }
}
