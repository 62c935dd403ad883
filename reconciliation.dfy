/**
 * The reconciliation pass of `run()`: for each finding, classify it on the server, take its
 * matching managed comments out of the review and issue pools, and choose one disposition from
 * a six-way precedence chain; afterwards resolve the leftover comments that still describe an
 * open finding, and publish the queued review comments as one review.
 *
 * The pass is specified by functions over a `LoopState` (`Step`, `Final`, `Plan`); method
 * `Reconcile` runs it the way the source does, reassigning its pool variables after each splice, and is proved
 * to produce the same commands.
 */
module Reconciliation {
  import opened Wrappers
  import opened Coverity
  import opened DiffMembership
  import opened ServerStatus
  import opened CommentMatcher

  /** What the pass reads besides the findings and the pools. */
  datatype Context = Context(index: map<string, ProjectIssue>, diff: DiffMap, render: Renderer)

  /** The branch of the precedence chain a finding takes. */
  datatype Decision =
    | ExistingReview(review: ReviewComment)  // a review comment already reports it: update if stale
    | ExistingIssue(issue: IssueComment)     // an issue comment already reports it: update if stale
    | SuppressIgnored                        // triaged as ignored on the server
    | SuppressPreexisting                    // seen in an earlier snapshot
    | QueueReview                            // new and in the diff: queue a review comment
    | PostIssue                              // new and outside the diff: post an issue comment

  /**
   * What the pass did with one finding: the comments it spliced out of each pool and the branch it
   * took. The source reports the branch in a log line.
   */
  datatype Disposition = Disposition(
    finding: Finding,
    splicedReview: Option<ReviewComment>,
    splicedIssue: Option<IssueComment>,
    decision: Decision)

  /** `ignoredOnServer` and `newOnServer` for a finding. */
  function StatusOf(f: Finding, ctx: Context): (s: ServerState)
    ensures f.mergeKey !in ctx.index ==> !s.ignored && s.isNew
    ensures f.mergeKey in ctx.index ==>
      var p := ctx.index[f.mergeKey];
      && (s.isNew <==> p.firstSnapshotId == p.lastSnapshotId)
      && (s.ignored <==> p.action == "Ignore" || p.classification in {"False Positive", "Intentional"})
  {
    Classify(Lookup(ctx.index, f.mergeKey))
  }

  /**
   * The precedence chain: an existing review comment, then an existing issue comment, then
   * ignored, then not new, then in the diff, else outside it. Exactly one branch applies.
   */
  function Decide(review: Option<ReviewComment>, issue: Option<IssueComment>, status: ServerState, inDiff: bool): (d: Decision)
    ensures d.ExistingReview? <==> review.Some?
    ensures d.ExistingReview? ==> d.review == review.value
    ensures d.ExistingIssue? <==> review.None? && issue.Some?
    ensures d.ExistingIssue? ==> d.issue == issue.value
    ensures d.SuppressIgnored? <==> review.None? && issue.None? && status.ignored
    ensures d.SuppressPreexisting? <==> review.None? && issue.None? && !status.ignored && !status.isNew
    ensures d.QueueReview? <==> review.None? && issue.None? && !status.ignored && status.isNew && inDiff
    ensures d.PostIssue? <==> review.None? && issue.None? && !status.ignored && status.isNew && !inDiff
  {
    if review.Some? then ExistingReview(review.value)
    else if issue.Some? then ExistingIssue(issue.value)
    else if status.ignored then SuppressIgnored
    else if !status.isNew then SuppressPreexisting
    else if inDiff then QueueReview
    else PostIssue
  }

  /** `createReviewComment`: a comment on the right side of the finding's line, at its relativized path. */
  function CreateReviewComment(f: Finding, body: string, render: Renderer): (c: NewReviewComment)
    ensures c.line == f.line && c.body == body
    ensures c.path == render.relativizePath(f.path) && c.side == RightSide
  {
    NewReviewComment(render.relativizePath(f.path), body, f.line, RightSide)
  }

  /** The GitHub calls a disposition makes during the finding loop. */
  function Emit(d: Disposition, render: Renderer): (cmds: seq<Command>)
    ensures |cmds| <= 1
    ensures cmds == [] <==>
      || d.decision.SuppressIgnored? || d.decision.SuppressPreexisting? || d.decision.QueueReview?
      || (d.decision.ExistingReview? && d.decision.review.body == render.reviewMessage(d.finding))
      || (d.decision.ExistingIssue? && d.decision.issue.body == Some(render.issueMessage(d.finding)))
    ensures cmds != [] && cmds[0].UpdateReviewComment? ==>
      d.decision.ExistingReview? && cmds[0] == UpdateReviewComment(d.decision.review.id, render.reviewMessage(d.finding))
    ensures cmds != [] && cmds[0].UpdateIssueComment? ==>
      d.decision.ExistingIssue? && cmds[0] == UpdateIssueComment(d.decision.issue.id, render.issueMessage(d.finding))
    ensures cmds != [] ==> !cmds[0].CreateReview?
  {
    match d.decision
    case ExistingReview(c) =>
      var body := render.reviewMessage(d.finding);
      if c.body != body then [UpdateReviewComment(c.id, body)] else []
    case ExistingIssue(c) =>
      var body := render.issueMessage(d.finding);
      if c.body != Some(body) then [UpdateIssueComment(c.id, body)] else []
    case PostIssue => [CreateIssueComment(render.issueMessage(d.finding))]
    case _ => []
  }

  /** The review comment a disposition pushes onto `newReviewComments`, if any. */
  function Enqueue(d: Disposition, render: Renderer): (q: seq<NewReviewComment>)
    ensures |q| <= 1
    ensures |q| == 1 <==> d.decision.QueueReview?
    ensures |q| == 1 ==>
      && q[0].line == d.finding.line && q[0].side == RightSide
      && q[0].path == render.relativizePath(d.finding.path) && q[0].body == render.reviewMessage(d.finding)
  {
    if d.decision.QueueReview? then [CreateReviewComment(d.finding, render.reviewMessage(d.finding), render)] else []
  }

  /** The variables of the finding loop. */
  datatype LoopState = LoopState(
    reviewPool: seq<ReviewComment>,
    issuePool: seq<IssueComment>,
    commands: seq<Command>,
    queued: seq<NewReviewComment>,
    trace: seq<Disposition>)

  function Init(reviewComments: seq<ReviewComment>, issueComments: seq<IssueComment>): LoopState
  {
    LoopState(reviewComments, issueComments, [], [], [])
  }

  /** One iteration of the finding loop. */
  function Step(st: LoopState, f: Finding, ctx: Context): (next: LoopState)
    ensures |next.trace| == |st.trace| + 1
    ensures |next.reviewPool| <= |st.reviewPool| <= |next.reviewPool| + 1
    ensures |next.issuePool| <= |st.issuePool| <= |next.issuePool| + 1
    ensures |st.commands| <= |next.commands| <= |st.commands| + 1
    ensures |st.queued| <= |next.queued| <= |st.queued| + 1
  {
    var review := Take(st.reviewPool, ReviewMatcher(f));
    var issue := Take(st.issuePool, IssueMatcher(f.mergeKey));
    var decision := Decide(review.taken, issue.taken, StatusOf(f, ctx), IsInDiff(f.path, f.line, ctx.diff));
    var d := Disposition(f, review.taken, issue.taken, decision);
    LoopState(review.rest, issue.rest, st.commands + Emit(d, ctx.render),
              st.queued + Enqueue(d, ctx.render), st.trace + [d])
  }

  /** The state after the finding loop has run over `findings`, one `Step` per finding in order. */
  function Final(findings: seq<Finding>, reviewComments: seq<ReviewComment>, issueComments: seq<IssueComment>, ctx: Context): (st: LoopState)
    ensures |st.trace| == |findings|
    ensures |st.commands| <= |findings| && |st.queued| <= |findings|
    ensures |st.reviewPool| <= |reviewComments| && |st.issuePool| <= |issueComments|
    decreases |findings|
  {
    if findings == [] then Init(reviewComments, issueComments)
    else
      var n := |findings| - 1;
      Step(Final(findings[..n], reviewComments, issueComments, ctx), findings[n], ctx)
  }

  /** The resolution of one leftover review comment, made when its body still reports a present issue. */
  function ReviewResolution(c: ReviewComment, render: Renderer): (cmd: Command)
    ensures cmd.UpdateReviewComment? && cmd.commentId == c.id
    ensures cmd.body == render.noLongerPresentMessage(c.body)
  {
    UpdateReviewComment(c.id, render.noLongerPresentMessage(c.body))
  }

  /**
   * The resolution of one leftover issue comment. As written, the source sends it through
   * `githubUpdateExistingReviewComment`, the review-comment call, with the issue comment's id;
   * the model keeps that call.
   */
  function IssueResolution(c: IssueComment, body: string, render: Renderer): (cmd: Command)
    ensures cmd.UpdateReviewComment? && cmd.commentId == c.id
    ensures cmd.body == render.noLongerPresentMessage(body)
  {
    UpdateReviewComment(c.id, render.noLongerPresentMessage(body))
  }

  /** `cmd` resolves a comment of `pool` whose body is still present. */
  predicate ResolvesReviewIn(pool: seq<ReviewComment>, render: Renderer, cmd: Command)
  {
    exists c :: c in pool && render.isPresent(c.body) && cmd == ReviewResolution(c, render)
  }

  /** `cmd` resolves a comment of `pool` that has a body and whose body is still present. */
  predicate ResolvesIssueIn(pool: seq<IssueComment>, render: Renderer, cmd: Command)
  {
    exists c :: c in pool && c.body.Some? && render.isPresent(c.body.value) && cmd == IssueResolution(c, c.body.value, render)
  }

  /**
   * The review-pool sweep: one resolution per leftover comment whose body is still present, in
   * pool order.
   */
  function ResolveReview(pool: seq<ReviewComment>, render: Renderer): (cmds: seq<Command>)
    ensures |cmds| <= |pool|
    ensures forall k :: 0 <= k < |cmds| ==> cmds[k].UpdateReviewComment?
    decreases |pool|
  {
    if pool == [] then []
    else
      var n := |pool| - 1;
      ResolveReview(pool[..n], render) + (if render.isPresent(pool[n].body) then [ReviewResolution(pool[n], render)] else [])
  }

  /**
   * The issue-pool sweep: one resolution per leftover comment that has a body and whose body is
   * still present, in pool order; comments without a body are skipped.
   */
  function ResolveIssue(pool: seq<IssueComment>, render: Renderer): (cmds: seq<Command>)
    ensures |cmds| <= |pool|
    ensures forall k :: 0 <= k < |cmds| ==> cmds[k].UpdateReviewComment?
    decreases |pool|
  {
    if pool == [] then []
    else
      var n := |pool| - 1;
      var c := pool[n];
      ResolveIssue(pool[..n], render) + (if c.body.Some? && render.isPresent(c.body.value) then [IssueResolution(c, c.body.value, render)] else [])
  }

  /** Every call of the review sweep is a review-comment update resolving a present leftover comment. */
  lemma {:induction false} ReviewSweepSources(pool: seq<ReviewComment>, render: Renderer)
    ensures forall k :: 0 <= k < |ResolveReview(pool, render)| ==> ResolvesReviewIn(pool, render, ResolveReview(pool, render)[k])
    decreases |pool|
  {
    if pool != [] {
      var n := |pool| - 1;
      var earlier := ResolveReview(pool[..n], render);
      var cmds := ResolveReview(pool, render);
      ReviewSweepSources(pool[..n], render);
      forall k | 0 <= k < |cmds|
        ensures ResolvesReviewIn(pool, render, cmds[k])
      {
        if k < |earlier| {
          assert cmds[k] == earlier[k];
          assert ResolvesReviewIn(pool[..n], render, earlier[k]);
          var c :| c in pool[..n] && render.isPresent(c.body) && earlier[k] == ReviewResolution(c, render);
          assert c in pool;
        } else {
          assert cmds[k] == ReviewResolution(pool[n], render);
          assert pool[n] in pool;
        }
      }
    }
  }

  /** Every present leftover comment is resolved by the review sweep. */
  lemma {:induction false} ReviewSweepComplete(pool: seq<ReviewComment>, render: Renderer)
    ensures forall c :: c in pool && render.isPresent(c.body) ==> ReviewResolution(c, render) in ResolveReview(pool, render)
    decreases |pool|
  {
    if pool != [] {
      var n := |pool| - 1;
      ReviewSweepComplete(pool[..n], render);
      assert pool == pool[..n] + [pool[n]];
      forall c | c in pool && render.isPresent(c.body)
        ensures ReviewResolution(c, render) in ResolveReview(pool, render)
      {
        if c != pool[n] {
          assert c in pool[..n];
        }
      }
    }
  }

  /**
   * Every call of the issue sweep resolves a present leftover comment; as written, each is a
   * review-comment update.
   */
  lemma {:induction false} IssueSweepSources(pool: seq<IssueComment>, render: Renderer)
    ensures forall k :: 0 <= k < |ResolveIssue(pool, render)| ==> ResolvesIssueIn(pool, render, ResolveIssue(pool, render)[k])
    decreases |pool|
  {
    if pool != [] {
      var n := |pool| - 1;
      var earlier := ResolveIssue(pool[..n], render);
      var cmds := ResolveIssue(pool, render);
      IssueSweepSources(pool[..n], render);
      forall k | 0 <= k < |cmds|
        ensures ResolvesIssueIn(pool, render, cmds[k])
      {
        if k < |earlier| {
          assert cmds[k] == earlier[k];
          assert ResolvesIssueIn(pool[..n], render, earlier[k]);
          var c :| c in pool[..n] && c.body.Some? && render.isPresent(c.body.value)
                 && earlier[k] == IssueResolution(c, c.body.value, render);
          assert c in pool;
        } else {
          assert cmds[k] == IssueResolution(pool[n], pool[n].body.value, render);
          assert pool[n] in pool;
        }
      }
    }
  }

  /** Every leftover comment with a present body is resolved by the issue sweep. */
  lemma {:induction false} IssueSweepComplete(pool: seq<IssueComment>, render: Renderer)
    ensures forall c :: c in pool && c.body.Some? && render.isPresent(c.body.value) ==>
      IssueResolution(c, c.body.value, render) in ResolveIssue(pool, render)
    decreases |pool|
  {
    if pool != [] {
      var n := |pool| - 1;
      IssueSweepComplete(pool[..n], render);
      assert pool == pool[..n] + [pool[n]];
      forall c | c in pool && c.body.Some? && render.isPresent(c.body.value)
        ensures IssueResolution(c, c.body.value, render) in ResolveIssue(pool, render)
      {
        if c != pool[n] {
          assert c in pool[..n];
        }
      }
    }
  }

  /** The final `githubCreateReview`, made only when some review comment was queued. */
  function Publish(queued: seq<NewReviewComment>): (cmds: seq<Command>)
    ensures |cmds| <= 1
    ensures cmds != [] <==> |queued| > 0
    ensures cmds != [] ==> cmds[0] == CreateReview(queued)
  {
    if |queued| > 0 then [CreateReview(queued)] else []
  }

  /** Every GitHub call of the pass, in order: the finding loop, both sweeps, the review. */
  function Plan(findings: seq<Finding>, reviewComments: seq<ReviewComment>, issueComments: seq<IssueComment>, ctx: Context): (plan: seq<Command>)
    ensures |plan| <= |findings| + |reviewComments| + |issueComments| + 1
  {
    var st := Final(findings, reviewComments, issueComments, ctx);
    st.commands + ResolveReview(st.reviewPool, ctx.render) + ResolveIssue(st.issuePool, ctx.render) + Publish(st.queued)
  }

  /** The sweep loop over the leftover review comments. */
  method ResolveLeftoverReviewComments(pool: seq<ReviewComment>, render: Renderer) returns (cmds: seq<Command>)
    ensures cmds == ResolveReview(pool, render)
  {
    cmds := [];
    for i := 0 to |pool|
      invariant cmds == ResolveReview(pool[..i], render)
    {
      var comment := pool[i];
      assert pool[..i + 1][..i] == pool[..i];
      if render.isPresent(comment.body) {
        cmds := cmds + [UpdateReviewComment(comment.id, render.noLongerPresentMessage(comment.body))];
      }
    }
    assert pool[..|pool|] == pool;
  }

  /** The sweep loop over the leftover issue comments. */
  method ResolveLeftoverIssueComments(pool: seq<IssueComment>, render: Renderer) returns (cmds: seq<Command>)
    ensures cmds == ResolveIssue(pool, render)
  {
    cmds := [];
    for i := 0 to |pool|
      invariant cmds == ResolveIssue(pool[..i], render)
    {
      var comment := pool[i];
      assert pool[..i + 1][..i] == pool[..i];
      if comment.body.Some? && render.isPresent(comment.body.value) {
        cmds := cmds + [UpdateReviewComment(comment.id, render.noLongerPresentMessage(comment.body.value))];
      }
    }
    assert pool[..|pool|] == pool;
  }

  /**
   * The if-chain of the loop body: picks the branch for one finding and makes its GitHub call or
   * queues its review comment.
   */
  method Dispose(issue: Finding, existingMatchingReviewComment: Option<ReviewComment>,
                 existingMatchingIssueComment: Option<IssueComment>, ignoredOnServer: bool, newOnServer: bool,
                 reviewCommentBody: string, issueCommentBody: string, ctx: Context)
    returns (decision: Decision, emitted: seq<Command>, queued: seq<NewReviewComment>)
    requires reviewCommentBody == ctx.render.reviewMessage(issue) && issueCommentBody == ctx.render.issueMessage(issue)
    ensures decision == Decide(existingMatchingReviewComment, existingMatchingIssueComment,
                               ServerState(ignoredOnServer, newOnServer), IsInDiff(issue.path, issue.line, ctx.diff))
    ensures emitted == Emit(Disposition(issue, existingMatchingReviewComment, existingMatchingIssueComment, decision), ctx.render)
    ensures queued == Enqueue(Disposition(issue, existingMatchingReviewComment, existingMatchingIssueComment, decision), ctx.render)
  {
    emitted, queued := [], [];
    if existingMatchingReviewComment.Some? {
      decision := ExistingReview(existingMatchingReviewComment.value);
      if existingMatchingReviewComment.value.body != reviewCommentBody {
        emitted := [UpdateReviewComment(existingMatchingReviewComment.value.id, reviewCommentBody)];
      }
    } else if existingMatchingIssueComment.Some? {
      decision := ExistingIssue(existingMatchingIssueComment.value);
      if existingMatchingIssueComment.value.body != Some(issueCommentBody) {
        emitted := [UpdateIssueComment(existingMatchingIssueComment.value.id, issueCommentBody)];
      }
    } else if ignoredOnServer {
      decision := SuppressIgnored;
    } else if !newOnServer {
      decision := SuppressPreexisting;
    } else if IsInDiff(issue.path, issue.line, ctx.diff) {
      decision := QueueReview;
      queued := [CreateReviewComment(issue, reviewCommentBody, ctx.render)];
    } else {
      decision := PostIssue;
      emitted := [CreateIssueComment(issueCommentBody)];
    }
  }

  /**
   * One iteration of the finding loop on the loop variables: classify the finding, splice its
   * matches out of both pools and take the branch of the chain.
   */
  method ReconcileFinding(actionReviewComments: seq<ReviewComment>, actionIssueComments: seq<IssueComment>,
                          commands: seq<Command>, newReviewComments: seq<NewReviewComment>,
                          dispositions: seq<Disposition>, issue: Finding, ctx: Context)
    returns (reviewPool: seq<ReviewComment>, issuePool: seq<IssueComment>, commands': seq<Command>,
             newReviewComments': seq<NewReviewComment>, dispositions': seq<Disposition>)
    ensures LoopState(reviewPool, issuePool, commands', newReviewComments', dispositions')
         == Step(LoopState(actionReviewComments, actionIssueComments, commands, newReviewComments, dispositions), issue, ctx)
  {
    var projectIssue := Lookup(ctx.index, issue.mergeKey);
    var ignoredOnServer, newOnServer := false, true;
    if projectIssue.Some? {
      ignoredOnServer := projectIssue.value.action == "Ignore" || IsDismissedClassification(projectIssue.value.classification);
      newOnServer := projectIssue.value.firstSnapshotId == projectIssue.value.lastSnapshotId;
    }
    assert StatusOf(issue, ctx) == ServerState(ignoredOnServer, newOnServer);
    var reviewCommentBody := ctx.render.reviewMessage(issue);
    var issueCommentBody := ctx.render.issueMessage(issue);

    // findIndex on each pool, then splice the match out
    var review := Take(actionReviewComments, ReviewMatcher(issue));
    var existingMatchingReviewComment := review.taken;
    reviewPool := review.rest;
    var issueMatch := Take(actionIssueComments, IssueMatcher(issue.mergeKey));
    var existingMatchingIssueComment := issueMatch.taken;
    issuePool := issueMatch.rest;

    var decision, emitted, queued := Dispose(issue, existingMatchingReviewComment, existingMatchingIssueComment,
                                             ignoredOnServer, newOnServer, reviewCommentBody, issueCommentBody, ctx);
    commands' := commands + emitted;
    newReviewComments' := newReviewComments + queued;
    dispositions' := dispositions + [Disposition(issue, existingMatchingReviewComment, existingMatchingIssueComment, decision)];
  }

  /** The finding loop, reassigning its pool variables after each splice. */
  method FindingLoop(findings: seq<Finding>, reviewComments: seq<ReviewComment>, issueComments: seq<IssueComment>, ctx: Context)
    returns (actionReviewComments: seq<ReviewComment>, actionIssueComments: seq<IssueComment>, commands: seq<Command>,
             newReviewComments: seq<NewReviewComment>, dispositions: seq<Disposition>)
    ensures LoopState(actionReviewComments, actionIssueComments, commands, newReviewComments, dispositions)
         == Final(findings, reviewComments, issueComments, ctx)
  {
    actionReviewComments, actionIssueComments := reviewComments, issueComments;
    commands, newReviewComments, dispositions := [], [], [];
    for i := 0 to |findings|
      invariant LoopState(actionReviewComments, actionIssueComments, commands, newReviewComments, dispositions)
             == Final(findings[..i], reviewComments, issueComments, ctx)
    {
      assert findings[..i + 1][..i] == findings[..i];
      assert Final(findings[..i + 1], reviewComments, issueComments, ctx)
          == Step(Final(findings[..i], reviewComments, issueComments, ctx), findings[i], ctx);
      actionReviewComments, actionIssueComments, commands, newReviewComments, dispositions :=
        ReconcileFinding(actionReviewComments, actionIssueComments, commands, newReviewComments, dispositions, findings[i], ctx);
    }
    assert findings[..|findings|] == findings;
  }

  /**
   * The reconciliation pass. Returns the GitHub calls it makes, in order, and one disposition per
   * finding, in finding order.
   */
  method Reconcile(findings: seq<Finding>, reviewComments: seq<ReviewComment>, issueComments: seq<IssueComment>, ctx: Context)
    returns (commands: seq<Command>, dispositions: seq<Disposition>)
    ensures commands == Plan(findings, reviewComments, issueComments, ctx)
    ensures dispositions == Final(findings, reviewComments, issueComments, ctx).trace
  {
    var actionReviewComments, actionIssueComments, newReviewComments;
    actionReviewComments, actionIssueComments, commands, newReviewComments, dispositions :=
      FindingLoop(findings, reviewComments, issueComments, ctx);
    var reviewResolutions := ResolveLeftoverReviewComments(actionReviewComments, ctx.render);
    var issueResolutions := ResolveLeftoverIssueComments(actionIssueComments, ctx.render);
    commands := commands + reviewResolutions + issueResolutions;
    if |newReviewComments| > 0 {
      commands := commands + [CreateReview(newReviewComments)];
    }
  }
}
