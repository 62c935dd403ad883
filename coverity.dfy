/**
 * The values the reconciliation pass works on: findings from the Coverity JSON v7 report,
 * triage records from the Coverity Connect server, managed GitHub comments, diff hunks,
 * and the GitHub calls the pass issues, as commands.
 */
module Coverity {
  import opened Wrappers

  /**
   * One `CoverityIssueOccurrence`: `mergeKey`, `mainEventFilePathname` and `mainEventLineNumber`.
   * `events` stands for the rest of the occurrence, which only the comment renderer reads.
   */
  datatype Finding = Finding(mergeKey: string, path: string, line: int, events: seq<string>)

  /** The server's `CoverityProjectIssue` for one merge key. */
  datatype ProjectIssue = ProjectIssue(
    action: string,
    classification: string,
    firstSnapshotId: int,
    lastSnapshotId: int)

  /** A managed pull-request review comment: anchored to a line, its body always present. */
  datatype ReviewComment = ReviewComment(id: int, line: int, body: string)

  /** A managed pull-request (issue) comment: no line, and a body that may be `undefined`. */
  datatype IssueComment = IssueComment(id: int, body: Option<string>)

  /** One diff hunk of a file: the inclusive line range `[firstLine, lastLine]` of the new revision. */
  datatype Hunk = Hunk(firstLine: int, lastLine: int)

  /** `DiffMap`: file path to the hunks of that file. */
  type DiffMap = map<string, seq<Hunk>>

  /** A `NewReviewComment` queued for the one review published at the end of the pass. */
  datatype NewReviewComment = NewReviewComment(path: string, body: string, line: int, side: string)

  /** The side every new review comment is placed on. */
  const RightSide: string := "RIGHT"

  /** The GitHub calls the pass makes, in the order it makes them. */
  datatype Command =
    | UpdateReviewComment(commentId: int, body: string)  // githubUpdateExistingReviewComment
    | UpdateIssueComment(commentId: int, body: string)   // githubUpdateExistingIssueComment
    | CreateIssueComment(body: string)                   // githubCreateIssueComment
    | CreateReview(comments: seq<NewReviewComment>)      // githubCreateReview

  /**
   * The library functions the pass calls but whose bodies are not part of this model:
   * `coverityCreateReviewCommentMessage`, `coverityCreateIssueCommentMessage`,
   * `coverityIsPresent`, `coverityCreateNoLongerPresentMessage` and `githubRelativizePath`.
   */
  datatype Renderer = Renderer(
    reviewMessage: Finding -> string,
    issueMessage: Finding -> string,
    isPresent: string -> bool,
    noLongerPresentMessage: string -> string,
    relativizePath: string -> string)
}
