# Coverity pull-request reconciliation, modelled in Dafny

This project models the reconciliation pass of the Coverity GitHub Action's entry point
`run()`. The pass takes the findings of a Coverity JSON report (merge key, file path, line). It
checks each one against the pull request's existing comments, the triage records of the Coverity
Connect server and the pull request's diff, and decides which GitHub calls to make. The typed copy
`src/main.ts` and the compiled copy `lib/main.js` hold the same logic, so there is one model and
each row below cites the lines of one of the two copies.

The pass works finding by finding:

1. Classify the finding on the server: ignored (action `Ignore` or a dismissed classification)
   and new (first and last snapshot coincide). A finding without a record is not ignored and is new.
2. Splice at most one matching comment out of each of two mutable pools:
   - the review-comment pool, matching on the same line and a body that contains the merge key;
   - the issue-comment pool, matching on a body that contains the merge key.
3. Take one branch of a six-way precedence chain:
   - update the matched review comment if it is stale;
   - else update the matched issue comment if it is stale;
   - else stay silent if the finding is ignored;
   - else stay silent if it is not new;
   - else queue a review comment if the location is in the diff;
   - else post an issue comment.

After the loop, every comment still in either pool whose body still reports a present issue is
updated to say the issue is resolved. The queued review comments are then published as one review.

Module layout:

- `wrappers.dfy`: `Option`.
- `text.dfy`: substring containment (`includes`).
- `seqs.dfy`: `findIndex`, `splice(i, 1)`, `filter` and `some`.
- `coverity.dfy`: the entities: findings, triage records, comments, hunks, GitHub calls, and the
  library's rendering functions.
- `diff_membership.dfy`: `isInDiff`.
- `server_status.dfy`: classification, both as intended and as written.
- `comment_matcher.dfy`: matching and taking comments from a pool, and the managed-comment filters.
- `reconciliation.dfy`: the pass, as specification functions (`Step`, `Final`, `Plan`) and as the
  imperative method `Reconcile`, which reassigns its pool variables after each splice.
- `properties.dfy`: lemmas about the whole pass.
- `action.dfy`: the preamble of `run()`, which covers the pull-request gate, the server lookup and
  comment selection.

The GitHub calls are not performed. The pass returns them, in order, as a `seq<Command>`, together
with one `Disposition` per finding. A disposition records the comments spliced and the branch
taken, standing in for the per-branch log lines. The library functions whose bodies are not part
of this model are fields of a `Renderer` value of total functions:

- `coverityCreateReviewCommentMessage`
- `coverityCreateIssueCommentMessage`
- `coverityIsPresent`
- `coverityCreateNoLongerPresentMessage`
- `githubRelativizePath`

The server lookup and the fetched comments and diff are inputs.

Decisions where the model departs from, or pins down, the code:

- The ignored test `classification in ['False Positive', 'Intentional']` tests the array's
  property keys in JavaScript, not its elements. The model follows the evident intent, set
  membership (`ServerStatus.Classify`), and models the code as written separately
  (`ServerStatus.ClassifyAsWritten`). See "Findings".
- The issue-comment sweep resolves a leftover issue comment through the review-comment update
  call, with the issue comment's id. The model keeps this as written: `IssueResolution` produces an
  `UpdateReviewComment` command. It is not claimed as a finding, because the library function it
  calls is not part of this model.

## Model

| member | source | states |
|---|---|---|
| Text.Contains | src/main.ts:87 | `includes` is true exactly when the text occurs in the body at some offset |
| Seqs.FindIndex | src/main.ts:87 | `findIndex` returns the first position satisfying the test, or `-1` (`None`) exactly when no position does |
| Seqs.RemoveAt | src/main.ts:90 | `splice(i, 1)` leaves one fewer element, with those before `i` unchanged and those after it shifted down by one |
| Seqs.RemoveAtConserves | lib/main.js:72 | the removed element and the remaining ones make up the original pool (multiset) |
| Seqs.Filter | src/main.ts:151 | `filter` keeps only elements of the input that satisfy the test, keeps every one that does, and never grows the sequence |
| Seqs.FilterCounts | lib/main.js:130 | `filter` keeps each satisfying element exactly as many times as it occurs, and drops the others (multiset) |
| Seqs.FilterConcat | src/main.ts:151 | `filter` keeps the input's order: filtering a concatenation is the concatenation of the filtered parts |
| Seqs.FilterSingleton | lib/main.js:130 | a one-element input is kept exactly when it satisfies the test |
| Seqs.AnySatisfies | src/main.ts:151 | `some` is true exactly when some element satisfies the test |
| DiffMembership.IsInDiff | src/main.ts:144-152 | false when the path has no hunk entry; otherwise true exactly when some hunk has firstLine ≤ line ≤ lastLine |
| DiffMembership.FilterThenSome | lib/main.js:125-131 | filtering on `firstLine <= line` and then asking for `line <= lastLine` is the same as asking for one hunk that covers the line |
| ServerStatus.IsDismissedClassification | src/main.ts:79 | the dismissed classifications are exactly `False Positive` and `Intentional` (as intended) |
| ServerStatus.InArrayLiteralAsWritten | lib/main.js:63 | as written, `in` on the two-element array literal holds for its own keys `0`, `1`, `length`; inherited keys are not modelled |
| ServerStatus.Lookup | src/main.ts:75 | `get` yields the record exactly when the merge key is in the index |
| ServerStatus.Classify | src/main.ts:75-82 | no record: not ignored and new; a record: new exactly when first and last snapshot ids are equal, and ignored exactly when the action is `Ignore` or the classification is `False Positive` or `Intentional` (as intended) |
| ServerStatus.ClassifyAsWritten | lib/main.js:59-66 | the same with JavaScript's `in` on the two-element array literal: ignored exactly when the action is `Ignore` or the classification is one of the array's own keys `0`, `1`, `length` |
| ServerStatus.AsWrittenMissesDismissedClassifications | src/main.ts:79 | as written, neither `False Positive` nor `Intentional` passes the classification test |
| ServerStatus.FalsePositiveNotIgnoredAsWritten | lib/main.js:63 | a `False Positive` record with action `Undecided` is ignored as intended and not ignored as written |
| CommentMatcher.ReviewMatches | src/main.ts:87 | a review comment matches a finding exactly when it is on the finding's line and its body contains the merge key at some offset |
| CommentMatcher.IssueMatches | lib/main.js:74 | an issue comment matches a merge key exactly when it has a body and that body contains the key at some offset |
| CommentMatcher.Take | src/main.ts:87-97 | nothing is taken exactly when no comment matches, and then the pool is unchanged; otherwise the taken comment matches and the pool shrinks by one |
| CommentMatcher.TakeRemovesFirstMatch | lib/main.js:69-78 | what is taken is the first matching comment, and the rest is the pool with that one position removed, in order |
| CommentMatcher.TakeConserves | src/main.ts:90 | the taken comment and the leftover pool make up the original pool (multiset) |
| CommentMatcher.ManagedReviewComments | src/main.ts:68 | the review pool holds only fetched review comments whose body contains the preface, and each such comment exactly as often as it was fetched (multiset) |
| CommentMatcher.ManagedIssueComments | lib/main.js:55 | the issue pool holds only fetched issue comments that have a body containing the preface, and each such comment exactly as often as it was fetched (multiset) |
| CommentMatcher.ManagedReviewCommentsInOrder | src/main.ts:68 | the review pool keeps the fetched order: the selection distributes over concatenation, and one comment is kept exactly when it has the preface |
| CommentMatcher.ManagedIssueCommentsInOrder | src/main.ts:69 | the issue pool keeps the fetched order in the same way |
| Reconciliation.StatusOf | src/main.ts:75-82 | a finding without a record is not ignored and new; with a record it is new exactly when the snapshot ids agree, and ignored exactly when the action is `Ignore` or the classification is dismissed |
| Reconciliation.Decide | src/main.ts:99-119 | the precedence chain: each of the six branches is taken exactly under its condition (review match; else issue match; else ignored; else not new; else in the diff; else), so the branches are exhaustive and mutually exclusive |
| Reconciliation.CreateReviewComment | src/main.ts:154-161 | the new review comment is at the finding's line, on the right side, at the relativized path, with the given body |
| Reconciliation.Emit | src/main.ts:99-119 | a disposition makes at most one loop call; none exactly when it is suppressed, queued, or its matched comment is already current; an update goes to the matched comment with the rendered body; no loop call publishes a review |
| Reconciliation.Enqueue | src/main.ts:115 | a disposition queues at most one review comment, exactly when it takes the in-diff branch, at the finding's line and relativized path, on the right side, with the rendered review body |
| Reconciliation.Step | src/main.ts:72-120 | one iteration appends one disposition, takes at most one comment from each pool, and adds at most one call and at most one queued comment |
| Reconciliation.Final | lib/main.js:57-105 | the finding loop leaves one disposition per finding, makes at most one call and queues at most one comment per finding, and never grows a pool |
| Reconciliation.ReviewResolution | src/main.ts:125 | a leftover review comment is resolved through the review-comment update call on its own id, with the no-longer-present message of its body |
| Reconciliation.IssueResolution | src/main.ts:132 | as written, a leftover issue comment is resolved through the review-comment update call, on the issue comment's id, with the no-longer-present message of its body |
| Reconciliation.ResolveReview | src/main.ts:122-127 | the review sweep makes no more calls than there are leftover comments, and each is a review-comment update |
| Reconciliation.ResolveIssue | lib/main.js:112-117 | the issue sweep likewise; as written, its calls are review-comment updates too |
| Reconciliation.ReviewSweepSources | src/main.ts:123-125 | every call of the review sweep resolves a leftover comment whose body is still present |
| Reconciliation.ReviewSweepComplete | lib/main.js:107-109 | every leftover review comment whose body is present is resolved |
| Reconciliation.IssueSweepSources | src/main.ts:130-132 | every call of the issue sweep resolves a leftover comment that has a body that is still present |
| Reconciliation.IssueSweepComplete | lib/main.js:113-115 | every leftover issue comment with a present body is resolved; comments without a body are skipped |
| Reconciliation.Publish | src/main.ts:136-139 | the publish step makes one call exactly when a comment was queued, and that call is one review holding all queued comments |
| Reconciliation.Plan | src/main.ts:72-139 | the pass makes at most one call per finding, one per fetched managed comment, and one review |
| Reconciliation.ResolveLeftoverReviewComments | src/main.ts:122-127 | the review sweep loop computes `ResolveReview` of the leftover pool |
| Reconciliation.ResolveLeftoverIssueComments | src/main.ts:129-134 | the issue sweep loop computes `ResolveIssue` of the leftover pool |
| Reconciliation.Dispose | lib/main.js:79-104 | the branch chain of one finding picks the `Decide` branch, makes the calls of `Emit` and queues the comment of `Enqueue` |
| Reconciliation.ReconcileFinding | src/main.ts:73-119 | one iteration on the loop variables computes `Step`: classification, the two splices and the branch |
| Reconciliation.FindingLoop | lib/main.js:57-105 | the loop over the findings, which reassigns its pool variables after each splice, ends in the state `Final` describes |
| Reconciliation.Reconcile | src/main.ts:72-139 | the loop with its in-place pools, followed by the two sweeps and the publish step, makes exactly the calls of `Plan` and returns the dispositions of `Final` |
| ReconciliationProperties.StepDecides | src/main.ts:72-98 | one iteration appends one disposition for its finding, with matching spliced comments and the branch the chain picks |
| ReconciliationProperties.StepEmits | src/main.ts:99-119 | one iteration adds the calls and the queued review comment of the disposition it appends, after the earlier ones |
| ReconciliationProperties.StepSplices | lib/main.js:69-78 | one iteration removes its spliced comments, and nothing else, from the pools |
| ReconciliationProperties.DispositionAt | src/main.ts:72-120 | the k-th disposition is for the k-th finding; its spliced comments match it and its branch is the one the chain picks |
| ReconciliationProperties.LoopEmitsDispositions | lib/main.js:79-104 | the loop's calls and queued review comments are those of its dispositions, in finding order |
| ReconciliationProperties.ReviewPoolConserved | src/main.ts:87-91 | every review comment is matched by at most one finding: the spliced comments plus the leftover pool are exactly the original pool |
| ReconciliationProperties.IssuePoolConserved | lib/main.js:74-78 | the same for the issue pool |
| ReconciliationProperties.EmitCreatesOnlyWhenPosting | src/main.ts:116-119 | the only comment a disposition creates during the loop is the issue comment of the last branch, with the rendered issue body |
| ReconciliationProperties.InEmitAll | lib/main.js:79-104 | every loop call comes from one disposition |
| ReconciliationProperties.InEnqueueAll | src/main.ts:115 | every queued review comment comes from one disposition |
| ReconciliationProperties.ReviewMatchTakesPrecedence | src/main.ts:99-103 | a review match decides the branch; the only call is its update, made exactly when the stored body differs from the rendered one, so an issue comment spliced with it is not updated; nothing is queued |
| ReconciliationProperties.IssueMatchComesNext | lib/main.js:85-90 | without a review match, an issue match decides the branch; the only call is its update, made exactly when the body differs or is missing; nothing is queued |
| ReconciliationProperties.SuppressedFindingIsSilent | src/main.ts:109-112 | an unmatched finding that is ignored or not new takes the corresponding silent branch and makes no call and queues nothing |
| ReconciliationProperties.NewFindingDiffGated | lib/main.js:97-104 | an unmatched, new, non-ignored finding queues a review comment at its line exactly when it is in the diff, and otherwise posts an issue comment |
| ReconciliationProperties.IgnoredFindingNeverCreates | src/main.ts:109-110 | a finding ignored on the server never queues a review comment or posts an issue comment |
| ReconciliationProperties.UnknownFindingIsActionable | lib/main.js:59-66 | a finding without a server record is never suppressed |
| ReconciliationProperties.CreatedIssueCommentsAreForNewFindings | src/main.ts:116-119 | every issue comment posted belongs to an unmatched, new, non-ignored finding outside the diff and carries its rendered issue body |
| ReconciliationProperties.QueuedReviewCommentsAreForNewFindings | lib/main.js:97-99 | every queued review comment belongs to an unmatched, new, non-ignored finding in the diff, at its line and path, with its rendered review body |
| ReconciliationProperties.LoopNeverPublishes | src/main.ts:72-120 | no call of the finding loop publishes a review |
| ReconciliationProperties.SweepsOnlyUpdate | lib/main.js:106-117 | both sweeps only make review-comment updates |
| ReconciliationProperties.PublishIsLast | src/main.ts:136-139 | once calls that never publish are followed by the publish step, it is the only publication and the last call |
| ReconciliationProperties.ReviewPublishedOnceWhenQueued | lib/main.js:118-121 | the review is published at most once, as the last call, with all queued comments, and exactly when at least one was queued |
| ReconciliationProperties.DistinctKeysIdentify | src/main.ts:90 | with distinct comment ids, an id identifies one comment, which occurs once in the pool |
| ReconciliationProperties.ReviewSweepAvoids | src/main.ts:122-127 | the review sweep of a pool without a comment never targets that comment's id |
| ReconciliationProperties.IssueSweepAvoids | lib/main.js:112-117 | the issue sweep of a pool without a comment never targets that comment's id |
| ReconciliationProperties.MatchedReviewCommentNeverResolved | src/main.ts:87-91 | with distinct ids, a matched review comment is matched once, is gone from the pool and is never resolved by the sweep |
| ReconciliationProperties.MatchedIssueCommentNeverResolved | lib/main.js:74-78 | with distinct ids, a matched issue comment, including one spliced alongside a review match, is matched once, is gone from the pool and is never resolved |
| ReconciliationProperties.ReviewSweepOfOne | src/main.ts:122-127 | the review sweep of one comment resolves it exactly when its body is present |
| ReconciliationProperties.ReviewSweepInOrder | src/main.ts:122 | the review sweep keeps pool order: sweeping a concatenation makes the calls of the first part, then those of the second |
| ReconciliationProperties.IssueSweepOfOne | lib/main.js:112-117 | the issue sweep of one comment resolves it exactly when it has a body that is present |
| ReconciliationProperties.IssueSweepInOrder | src/main.ts:129 | the issue sweep keeps pool order in the same way |
| ReconciliationProperties.ReviewSweepResolvesOnce | src/main.ts:122-127 | with distinct comment ids in the pool, no two calls of the review sweep target the same comment |
| ReconciliationProperties.IssueSweepResolvesOnce | src/main.ts:129-134 | with distinct comment ids in the pool, no two calls of the issue sweep target the same comment |
| ReconciliationProperties.QuietStep | src/main.ts:87-112 | an iteration for a finding with a current comment next in its pool, or with no comment and suppressed on the server, makes no call, queues nothing and takes exactly that comment |
| ReconciliationProperties.RerunPrefixQuiet | lib/main.js:69-96 | over a quiet rerun, the loop makes no call, queues nothing and consumes both pools in finding order |
| ReconciliationProperties.RerunIsQuiet | src/main.ts:72-139 | rerunning on unchanged findings makes no call at all when each finding has its current review comment, or its current issue comment, or no comment and is ignored or not new on the server |
| Action.CanCheckCoverity | src/main.ts:50 | the server is consulted only when none of the URL, user name, password and project name is empty |
| Action.MergeKeys | src/main.ts:54-55 | the server is asked about exactly the merge keys of the findings |
| Action.ServerIndex | src/main.ts:48-64 | without complete server inputs, or without findings, nothing is looked up and the index is empty; otherwise it is what the server returns, or nothing on failure |
| Action.Run | lib/main.js:27-56 | outside a pull request nothing happens; a failed lookup ends the run before any comment is touched; otherwise the calls and dispositions are those of the pass over the managed comments |
| Action.UnconfiguredServerSuppressesNothing | src/main.ts:50-52 | without complete server inputs no finding is suppressed as ignored or pre-existing |

## Left out

- Reading and parsing the JSON report: the findings are an input sequence.
- The action inputs: they are configuration reads with no logic, and are fields of `Environment`.
- The GitHub REST calls: they are returned as `Command` values in call order, not performed. This
  includes fetching comments, fetching the diff, creating and updating comments, and publishing
  the review.
- The pull-request test is a boolean input.
- The server lookup: it is a function from the set of merge keys to a record map or a failure,
  so the network and the server's own filtering are not modelled.
- Parsing the diff into hunks: the hunk map is an input.
- The rendering functions are parameters with no body in this model: the two message renderers,
  the presence test, the resolution renderer and path relativization. Properties that depend on
  what they compute, for example that a resolved body no longer tests as present, are not stated.
- Promises, `await`, error propagation beyond the lookup failure, and the debug level. The abort on
  a failed lookup is modelled as the `Failed` outcome. The GitHub write calls (src/main.ts:102,
  107, 118, 125, 132, 138) are not awaited: they run concurrently and a failure is an unhandled
  rejection. The `Command` order is the order the calls are started, not the order they finish.
- Log lines: they are replaced by the `Disposition` trace.
- ServerStatus.InArrayLiteralAsWritten: holds for the array literal's own keys `0`, `1` and
  `length` only. Keys inherited from `Array.prototype`, such as `push`, `constructor` or
  `toString`, also satisfy `in` as written and are not modelled.
- ServerStatus.ClassifyAsWritten: models only the array literal's own keys. Keys inherited from
  `Array.prototype` (for example `push` or `constructor`) would also pass the test as written.
- ReconciliationProperties.RerunIsQuiet: covers pools that hold the earlier run's comments in
  finding order, which is the order a first run creates them in. A rerun against pools in another
  order, or with extra comments, is not covered; nor is one where a comment left for a later
  finding also matches an earlier one.
- Null comment bodies are not distinguished from missing ones. The compiled issue filter treats both
  as having no body, but the compiled sweep excludes only `undefined`.

## Findings

| source | as written | input that shows it | evidently intended | confidence | as-written member | corrected member |
|---|---|---|---|---|---|---|
| src/main.ts:79 | `classification in ['False Positive', 'Intentional']` tests the array's property keys, so it holds only for keys such as `0`, `1` or `length` | a triage record with action `Undecided` and classification `False Positive` is not ignored, so a new comment can be created for a dismissed finding | ignored when the classification is `False Positive` or `Intentional` | not executed | ServerStatus.FalsePositiveNotIgnoredAsWritten | ServerStatus.Classify |
