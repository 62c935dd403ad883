/** What the reconciliation pass guarantees over a whole run, proved about its specification. */
module ReconciliationProperties {
  import opened Wrappers
  import opened Seqs
  import opened Coverity
  import opened DiffMembership
  import opened ServerStatus
  import opened CommentMatcher
  import opened Reconciliation

  /** The loop-phase calls of a sequence of dispositions, in order. */
  function EmitAll(ds: seq<Disposition>, render: Renderer): seq<Command>
    decreases |ds|
  {
    if ds == [] then [] else EmitAll(ds[..|ds| - 1], render) + Emit(ds[|ds| - 1], render)
  }

  /** The review comments a sequence of dispositions queues, in order. */
  function EnqueueAll(ds: seq<Disposition>, render: Renderer): seq<NewReviewComment>
    decreases |ds|
  {
    if ds == [] then [] else EnqueueAll(ds[..|ds| - 1], render) + Enqueue(ds[|ds| - 1], render)
  }

  /** The review comments a sequence of dispositions spliced out of the review pool. */
  function SplicedReviews(ds: seq<Disposition>): multiset<ReviewComment>
    decreases |ds|
  {
    if ds == [] then multiset{} else SplicedReviews(ds[..|ds| - 1]) + OptionMultiset(ds[|ds| - 1].splicedReview)
  }

  /** The issue comments a sequence of dispositions spliced out of the issue pool. */
  function SplicedIssues(ds: seq<Disposition>): multiset<IssueComment>
    decreases |ds|
  {
    if ds == [] then multiset{} else SplicedIssues(ds[..|ds| - 1]) + OptionMultiset(ds[|ds| - 1].splicedIssue)
  }

  /**
   * `d` is a disposition the pass can make for `f`: for that finding, with comments that match it,
   * on the branch the precedence chain picks.
   */
  predicate Decided(d: Disposition, f: Finding, ctx: Context)
  {
    && d.finding == f
    && (d.splicedReview.Some? ==> ReviewMatches(d.splicedReview.value, f))
    && (d.splicedIssue.Some? ==> IssueMatches(d.splicedIssue.value, f.mergeKey))
    && d.decision == Decide(d.splicedReview, d.splicedIssue, StatusOf(f, ctx), IsInDiff(f.path, f.line, ctx.diff))
  }

  /** One step appends one disposition, decided for its finding. */
  lemma StepDecides(st: LoopState, f: Finding, ctx: Context)
    ensures |Step(st, f, ctx).trace| == |st.trace| + 1
    ensures Step(st, f, ctx).trace[..|st.trace|] == st.trace
    ensures Decided(Step(st, f, ctx).trace[|st.trace|], f, ctx)
  {
  }

  /** One step makes the calls and queues the review comment of the disposition it appends. */
  lemma StepEmits(st: LoopState, f: Finding, ctx: Context)
    ensures |Step(st, f, ctx).trace| == |st.trace| + 1
    ensures Step(st, f, ctx).commands == st.commands + Emit(Step(st, f, ctx).trace[|st.trace|], ctx.render)
    ensures Step(st, f, ctx).queued == st.queued + Enqueue(Step(st, f, ctx).trace[|st.trace|], ctx.render)
  {
  }

  /** One step takes the spliced comments, and nothing else, out of the pools. */
  lemma StepSplices(st: LoopState, f: Finding, ctx: Context)
    ensures |Step(st, f, ctx).trace| == |st.trace| + 1
    ensures multiset(st.reviewPool)
         == multiset(Step(st, f, ctx).reviewPool) + OptionMultiset(Step(st, f, ctx).trace[|st.trace|].splicedReview)
    ensures multiset(st.issuePool)
         == multiset(Step(st, f, ctx).issuePool) + OptionMultiset(Step(st, f, ctx).trace[|st.trace|].splicedIssue)
  {
    TakeConserves(st.reviewPool, ReviewMatcher(f));
    TakeConserves(st.issuePool, IssueMatcher(f.mergeKey));
  }

  /** The `k`-th disposition of a run is for the `k`-th finding and is decided for it. */
  lemma {:induction false} DispositionAt(fs: seq<Finding>, reviewComments: seq<ReviewComment>, issueComments: seq<IssueComment>, ctx: Context, k: nat)
    requires k < |fs|
    ensures Decided(Final(fs, reviewComments, issueComments, ctx).trace[k], fs[k], ctx)
    decreases |fs|
  {
    var n := |fs| - 1;
    var prev := Final(fs[..n], reviewComments, issueComments, ctx);
    var tr := Final(fs, reviewComments, issueComments, ctx).trace;
    assert tr == Step(prev, fs[n], ctx).trace;
    StepDecides(prev, fs[n], ctx);
    if k < n {
      DispositionAt(fs[..n], reviewComments, issueComments, ctx, k);
      assert tr[k] == tr[..n][k] == prev.trace[k];
      assert fs[..n][k] == fs[k];
    }
  }

  /** The loop's calls and queued review comments are those of its dispositions, in finding order. */
  lemma {:induction false} LoopEmitsDispositions(fs: seq<Finding>, reviewComments: seq<ReviewComment>, issueComments: seq<IssueComment>, ctx: Context)
    ensures Final(fs, reviewComments, issueComments, ctx).commands == EmitAll(Final(fs, reviewComments, issueComments, ctx).trace, ctx.render)
    ensures Final(fs, reviewComments, issueComments, ctx).queued == EnqueueAll(Final(fs, reviewComments, issueComments, ctx).trace, ctx.render)
    decreases |fs|
  {
    if fs != [] {
      var n := |fs| - 1;
      var prev := Final(fs[..n], reviewComments, issueComments, ctx);
      LoopEmitsDispositions(fs[..n], reviewComments, issueComments, ctx);
      StepDecides(prev, fs[n], ctx);
      StepEmits(prev, fs[n], ctx);
      var tr := Step(prev, fs[n], ctx).trace;
      assert tr[..|tr| - 1] == prev.trace;
    }
  }

  /**
   * Each review comment is matched by at most one finding: the comments spliced out of the review
   * pool over the whole loop and the leftover pool together are exactly the original pool.
   */
  lemma {:induction false} ReviewPoolConserved(fs: seq<Finding>, reviewComments: seq<ReviewComment>, issueComments: seq<IssueComment>, ctx: Context)
    ensures multiset(reviewComments)
         == multiset(Final(fs, reviewComments, issueComments, ctx).reviewPool) + SplicedReviews(Final(fs, reviewComments, issueComments, ctx).trace)
    decreases |fs|
  {
    if fs != [] {
      var n := |fs| - 1;
      var prev := Final(fs[..n], reviewComments, issueComments, ctx);
      ReviewPoolConserved(fs[..n], reviewComments, issueComments, ctx);
      StepDecides(prev, fs[n], ctx);
      StepSplices(prev, fs[n], ctx);
      var tr := Step(prev, fs[n], ctx).trace;
      assert tr[..|tr| - 1] == prev.trace;
    }
  }

  /** The same for the issue pool. */
  lemma {:induction false} IssuePoolConserved(fs: seq<Finding>, reviewComments: seq<ReviewComment>, issueComments: seq<IssueComment>, ctx: Context)
    ensures multiset(issueComments)
         == multiset(Final(fs, reviewComments, issueComments, ctx).issuePool) + SplicedIssues(Final(fs, reviewComments, issueComments, ctx).trace)
    decreases |fs|
  {
    if fs != [] {
      var n := |fs| - 1;
      var prev := Final(fs[..n], reviewComments, issueComments, ctx);
      IssuePoolConserved(fs[..n], reviewComments, issueComments, ctx);
      StepDecides(prev, fs[n], ctx);
      StepSplices(prev, fs[n], ctx);
      var tr := Step(prev, fs[n], ctx).trace;
      assert tr[..|tr| - 1] == prev.trace;
    }
  }

  /** The only call of a disposition that creates a comment is the issue comment its `PostIssue` branch posts. */
  lemma EmitCreatesOnlyWhenPosting(d: Disposition, render: Renderer, cmd: Command)
    requires cmd in Emit(d, render)
    ensures !cmd.CreateReview?
    ensures cmd.CreateIssueComment? ==> d.decision == PostIssue && cmd == CreateIssueComment(render.issueMessage(d.finding))
  {
  }

  /** Membership in `EmitAll`: every loop-phase call is the call of one disposition. */
  lemma {:induction false} InEmitAll(ds: seq<Disposition>, render: Renderer, x: Command)
    requires x in EmitAll(ds, render)
    ensures exists k :: 0 <= k < |ds| && x in Emit(ds[k], render)
    decreases |ds|
  {
    var n := |ds| - 1;
    if x !in Emit(ds[n], render) {
      InEmitAll(ds[..n], render, x);
      var k :| 0 <= k < n && x in Emit(ds[..n][k], render);
      assert ds[..n][k] == ds[k];
    }
  }

  /** Membership in `EnqueueAll`: every queued review comment is queued by one disposition. */
  lemma {:induction false} InEnqueueAll(ds: seq<Disposition>, render: Renderer, q: NewReviewComment)
    requires q in EnqueueAll(ds, render)
    ensures exists k :: 0 <= k < |ds| && q in Enqueue(ds[k], render)
    decreases |ds|
  {
    var n := |ds| - 1;
    if q !in Enqueue(ds[n], render) {
      InEnqueueAll(ds[..n], render, q);
      var k :| 0 <= k < n && q in Enqueue(ds[..n][k], render);
      assert ds[..n][k] == ds[k];
    }
  }

  /**
   * An existing review comment takes precedence over everything else: the finding is not
   * classified further, nothing is queued, and the only possible call is an update of that review
   * comment, made only when its body differs from the rendered one, so an issue comment spliced out
   * alongside it is not updated.
   */
  lemma {:induction false} ReviewMatchTakesPrecedence(fs: seq<Finding>, reviewComments: seq<ReviewComment>, issueComments: seq<IssueComment>, ctx: Context, k: nat)
    requires k < |fs|
    ensures var d := Final(fs, reviewComments, issueComments, ctx).trace[k];
      d.splicedReview.Some? ==>
        && ReviewMatches(d.splicedReview.value, fs[k])
        && d.decision == ExistingReview(d.splicedReview.value)
        && Emit(d, ctx.render) == (if d.splicedReview.value.body != ctx.render.reviewMessage(fs[k])
                                   then [UpdateReviewComment(d.splicedReview.value.id, ctx.render.reviewMessage(fs[k]))]
                                   else [])
        && Enqueue(d, ctx.render) == []
  {
    DispositionAt(fs, reviewComments, issueComments, ctx, k);
  }

  /**
   * Without a review match, an existing issue comment comes next: nothing is queued, and the only
   * possible call is an update of that issue comment, made only when its body differs.
   */
  lemma {:induction false} IssueMatchComesNext(fs: seq<Finding>, reviewComments: seq<ReviewComment>, issueComments: seq<IssueComment>, ctx: Context, k: nat)
    requires k < |fs|
    ensures var d := Final(fs, reviewComments, issueComments, ctx).trace[k];
      d.splicedReview.None? && d.splicedIssue.Some? ==>
        && IssueMatches(d.splicedIssue.value, fs[k].mergeKey)
        && d.decision == ExistingIssue(d.splicedIssue.value)
        && Emit(d, ctx.render) == (if d.splicedIssue.value.body != Some(ctx.render.issueMessage(fs[k]))
                                   then [UpdateIssueComment(d.splicedIssue.value.id, ctx.render.issueMessage(fs[k]))]
                                   else [])
        && Enqueue(d, ctx.render) == []
  {
    DispositionAt(fs, reviewComments, issueComments, ctx, k);
  }

  /** An unmatched finding that is ignored on the server, or not new there, makes no call and queues nothing. */
  lemma {:induction false} SuppressedFindingIsSilent(fs: seq<Finding>, reviewComments: seq<ReviewComment>, issueComments: seq<IssueComment>, ctx: Context, k: nat)
    requires k < |fs|
    ensures var d := Final(fs, reviewComments, issueComments, ctx).trace[k];
      d.splicedReview.None? && d.splicedIssue.None? && (StatusOf(fs[k], ctx).ignored || !StatusOf(fs[k], ctx).isNew) ==>
        && d.decision == (if StatusOf(fs[k], ctx).ignored then SuppressIgnored else SuppressPreexisting)
        && Emit(d, ctx.render) == [] && Enqueue(d, ctx.render) == []
  {
    DispositionAt(fs, reviewComments, issueComments, ctx, k);
  }

  /**
   * An unmatched finding that is new and not ignored gets a review comment at its line exactly when
   * its location is in the diff, and an issue comment otherwise.
   */
  lemma {:induction false} NewFindingDiffGated(fs: seq<Finding>, reviewComments: seq<ReviewComment>, issueComments: seq<IssueComment>, ctx: Context, k: nat)
    requires k < |fs|
    ensures var d := Final(fs, reviewComments, issueComments, ctx).trace[k];
      var f := fs[k];
      d.splicedReview.None? && d.splicedIssue.None? && !StatusOf(f, ctx).ignored && StatusOf(f, ctx).isNew ==>
        if IsInDiff(f.path, f.line, ctx.diff) then
          Emit(d, ctx.render) == [] && Enqueue(d, ctx.render) == [CreateReviewComment(f, ctx.render.reviewMessage(f), ctx.render)]
        else
          Emit(d, ctx.render) == [CreateIssueComment(ctx.render.issueMessage(f))] && Enqueue(d, ctx.render) == []
  {
    DispositionAt(fs, reviewComments, issueComments, ctx, k);
  }

  /** A finding ignored on the server never creates a comment, whatever the diff and the pools hold. */
  lemma {:induction false} IgnoredFindingNeverCreates(fs: seq<Finding>, reviewComments: seq<ReviewComment>, issueComments: seq<IssueComment>, ctx: Context, k: nat)
    requires k < |fs|
    requires StatusOf(fs[k], ctx).ignored
    ensures var d := Final(fs, reviewComments, issueComments, ctx).trace[k];
      Enqueue(d, ctx.render) == [] && forall cmd :: cmd in Emit(d, ctx.render) ==> !cmd.CreateIssueComment?
  {
    var d := Final(fs, reviewComments, issueComments, ctx).trace[k];
    DispositionAt(fs, reviewComments, issueComments, ctx, k);
    assert !d.decision.PostIssue? && !d.decision.QueueReview?;
    forall cmd | cmd in Emit(d, ctx.render)
      ensures !cmd.CreateIssueComment?
    {
      EmitCreatesOnlyWhenPosting(d, ctx.render, cmd);
    }
  }

  /** A finding the server has no record of is treated as new and not ignored. */
  lemma {:induction false} UnknownFindingIsActionable(fs: seq<Finding>, reviewComments: seq<ReviewComment>, issueComments: seq<IssueComment>, ctx: Context, k: nat)
    requires k < |fs|
    requires fs[k].mergeKey !in ctx.index
    ensures var d := Final(fs, reviewComments, issueComments, ctx).trace[k];
      !d.decision.SuppressIgnored? && !d.decision.SuppressPreexisting?
  {
    DispositionAt(fs, reviewComments, issueComments, ctx, k);
  }

  /**
   * Every issue comment the loop creates is for an unmatched, new, non-ignored finding outside
   * the diff, with that finding's rendered issue body.
   */
  lemma CreatedIssueCommentsAreForNewFindings(fs: seq<Finding>, reviewComments: seq<ReviewComment>, issueComments: seq<IssueComment>, ctx: Context, cmd: Command)
    requires cmd in Final(fs, reviewComments, issueComments, ctx).commands && cmd.CreateIssueComment?
    ensures exists k :: 0 <= k < |fs| && PostedFor(fs, reviewComments, issueComments, ctx, k, cmd)
  {
    var st := Final(fs, reviewComments, issueComments, ctx);
    LoopEmitsDispositions(fs, reviewComments, issueComments, ctx);
    InEmitAll(st.trace, ctx.render, cmd);
    var k :| 0 <= k < |st.trace| && cmd in Emit(st.trace[k], ctx.render);
    EmitCreatesOnlyWhenPosting(st.trace[k], ctx.render, cmd);
    DispositionAt(fs, reviewComments, issueComments, ctx, k);
    assert PostedFor(fs, reviewComments, issueComments, ctx, k, cmd);
  }

  /** `cmd` is the issue comment the `k`-th finding posts: unmatched, new, not ignored and outside the diff. */
  predicate PostedFor(fs: seq<Finding>, reviewComments: seq<ReviewComment>, issueComments: seq<IssueComment>, ctx: Context, k: nat, cmd: Command)
    requires k < |fs|
  {
    && Final(fs, reviewComments, issueComments, ctx).trace[k].decision == PostIssue
    && !StatusOf(fs[k], ctx).ignored && StatusOf(fs[k], ctx).isNew && !IsInDiff(fs[k].path, fs[k].line, ctx.diff)
    && cmd == CreateIssueComment(ctx.render.issueMessage(fs[k]))
  }

  /**
   * Every queued review comment is for an unmatched, new, non-ignored finding inside the diff, at
   * that finding's line, with its rendered review body.
   */
  lemma QueuedReviewCommentsAreForNewFindings(fs: seq<Finding>, reviewComments: seq<ReviewComment>, issueComments: seq<IssueComment>, ctx: Context, q: NewReviewComment)
    requires q in Final(fs, reviewComments, issueComments, ctx).queued
    ensures exists k :: 0 <= k < |fs| && QueuedFor(fs, reviewComments, issueComments, ctx, k, q)
  {
    var st := Final(fs, reviewComments, issueComments, ctx);
    LoopEmitsDispositions(fs, reviewComments, issueComments, ctx);
    InEnqueueAll(st.trace, ctx.render, q);
    var k :| 0 <= k < |st.trace| && q in Enqueue(st.trace[k], ctx.render);
    DispositionAt(fs, reviewComments, issueComments, ctx, k);
    assert QueuedFor(fs, reviewComments, issueComments, ctx, k, q);
  }

  /**
   * `q` is the review comment the `k`-th finding queues: unmatched, new, not ignored and in the diff,
   * at the finding's line and with its rendered review body.
   */
  predicate QueuedFor(fs: seq<Finding>, reviewComments: seq<ReviewComment>, issueComments: seq<IssueComment>, ctx: Context, k: nat, q: NewReviewComment)
    requires k < |fs|
  {
    && Final(fs, reviewComments, issueComments, ctx).trace[k].decision == QueueReview
    && !StatusOf(fs[k], ctx).ignored && StatusOf(fs[k], ctx).isNew && IsInDiff(fs[k].path, fs[k].line, ctx.diff)
    && q.line == fs[k].line && q.body == ctx.render.reviewMessage(fs[k])
    && q.path == ctx.render.relativizePath(fs[k].path) && q.side == RightSide
  }

  /** No call of the loop phase publishes a review. */
  lemma {:induction false} LoopNeverPublishes(fs: seq<Finding>, reviewComments: seq<ReviewComment>, issueComments: seq<IssueComment>, ctx: Context)
    ensures forall cmd :: cmd in Final(fs, reviewComments, issueComments, ctx).commands ==> !cmd.CreateReview?
  {
    var st := Final(fs, reviewComments, issueComments, ctx);
    LoopEmitsDispositions(fs, reviewComments, issueComments, ctx);
    forall cmd | cmd in st.commands
      ensures !cmd.CreateReview?
    {
      InEmitAll(st.trace, ctx.render, cmd);
      var k :| 0 <= k < |st.trace| && cmd in Emit(st.trace[k], ctx.render);
      EmitCreatesOnlyWhenPosting(st.trace[k], ctx.render, cmd);
    }
  }

  /** Both sweeps only update comments. */
  lemma {:induction false} SweepsOnlyUpdate(reviewPool: seq<ReviewComment>, issuePool: seq<IssueComment>, render: Renderer)
    ensures var sweeps := ResolveReview(reviewPool, render) + ResolveIssue(issuePool, render);
      forall j :: 0 <= j < |sweeps| ==> sweeps[j].UpdateReviewComment?
  {
    var rr: seq<Command> := ResolveReview(reviewPool, render);
    var ri: seq<Command> := ResolveIssue(issuePool, render);
    ReviewSweepSources(reviewPool, render);
    IssueSweepSources(issuePool, render);
    forall j | 0 <= j < |rr + ri|
      ensures (rr + ri)[j].UpdateReviewComment?
    {
      if j < |rr| {
        assert (rr + ri)[j] == rr[j];
      } else {
        assert (rr + ri)[j] == ri[j - |rr|];
      }
    }
  }

  /**
   * Appending the publish step to loop calls and sweep calls that publish nothing makes it the only
   * publication, and the last call.
   */
  lemma PublishIsLast(loopCalls: seq<Command>, sweeps: seq<Command>, queued: seq<NewReviewComment>)
    requires forall cmd :: cmd in loopCalls ==> !cmd.CreateReview?
    requires forall j :: 0 <= j < |sweeps| ==> sweeps[j].UpdateReviewComment?
    ensures var plan := loopCalls + sweeps + Publish(queued);
      && (forall j :: 0 <= j < |plan| && plan[j].CreateReview? ==> j == |plan| - 1 && |queued| > 0)
      && (|queued| > 0 ==> |plan| > 0 && plan[|plan| - 1] == CreateReview(queued))
  {
    var plan := loopCalls + sweeps + Publish(queued);
    forall j | 0 <= j < |plan| && plan[j].CreateReview?
      ensures j == |plan| - 1 && |queued| > 0
    {
    }
  }

  /**
   * The review is published once, as the last call of the pass, with every queued review comment,
   * and only when at least one was queued; no other call publishes a review.
   */
  lemma ReviewPublishedOnceWhenQueued(fs: seq<Finding>, reviewComments: seq<ReviewComment>, issueComments: seq<IssueComment>, ctx: Context)
    ensures var plan := Plan(fs, reviewComments, issueComments, ctx);
      var queued := Final(fs, reviewComments, issueComments, ctx).queued;
      && (forall j :: 0 <= j < |plan| && plan[j].CreateReview? ==> j == |plan| - 1 && |queued| > 0)
      && (|queued| > 0 ==> |plan| > 0 && plan[|plan| - 1] == CreateReview(queued))
  {
    var st := Final(fs, reviewComments, issueComments, ctx);
    var rr := ResolveReview(st.reviewPool, ctx.render);
    var ri := ResolveIssue(st.issuePool, ctx.render);
    LoopNeverPublishes(fs, reviewComments, issueComments, ctx);
    SweepsOnlyUpdate(st.reviewPool, st.issuePool, ctx.render);
    PublishIsLast(st.commands, rr + ri, st.queued);
    assert st.commands + rr + ri + Publish(st.queued) == st.commands + (rr + ri) + Publish(st.queued);
  }

  /** No two elements of `s` share a key. */
  predicate DistinctKeys<T>(s: seq<T>, key: T -> int)
  {
    forall a, b :: 0 <= a < b < |s| ==> key(s[a]) != key(s[b])
  }

  /** With distinct keys, a key identifies one element, which occurs once. */
  lemma {:induction false} DistinctKeysIdentify<T>(s: seq<T>, key: T -> int, x: T, y: T)
    requires DistinctKeys(s, key)
    requires x in s && y in s && key(x) == key(y)
    ensures x == y
    ensures multiset(s)[x] == 1
    decreases |s|
  {
    var rest := s[1..];
    assert s == [s[0]] + rest;
    assert forall j :: 0 <= j < |rest| ==> rest[j] == s[j + 1];
    if s[0] == x {
      assert x !in rest;
    } else {
      assert DistinctKeys(rest, key);
      DistinctKeysIdentify(rest, key, x, y);
    }
  }

  /** The id of a review comment. */
  function ReviewId(c: ReviewComment): int { c.id }

  /** The id of an issue comment. */
  function IssueId(c: IssueComment): int { c.id }

  /**
   * When the review comments have distinct ids, a review comment matched by some finding was matched
   * by only that one, is not left in the pool, and no resolution of the sweep targets its id.
   */
  lemma MatchedReviewCommentNeverResolved(fs: seq<Finding>, reviewComments: seq<ReviewComment>, issueComments: seq<IssueComment>, ctx: Context, c: ReviewComment)
    requires DistinctKeys(reviewComments, ReviewId)
    requires c in SplicedReviews(Final(fs, reviewComments, issueComments, ctx).trace)
    ensures SplicedReviews(Final(fs, reviewComments, issueComments, ctx).trace)[c] == 1
    ensures c !in Final(fs, reviewComments, issueComments, ctx).reviewPool
    ensures forall cmd :: cmd in ResolveReview(Final(fs, reviewComments, issueComments, ctx).reviewPool, ctx.render) ==>
      cmd.commentId != c.id
  {
    var st := Final(fs, reviewComments, issueComments, ctx);
    ReviewPoolConserved(fs, reviewComments, issueComments, ctx);
    assert c in multiset(reviewComments);
    DistinctKeysIdentify(reviewComments, ReviewId, c, c);
    ReviewSweepAvoids(reviewComments, st.reviewPool, ctx.render, c);
  }

  /** The review sweep of a sub-pool that lacks `c` targets no comment with the id of `c`. */
  lemma ReviewSweepAvoids(all: seq<ReviewComment>, pool: seq<ReviewComment>, render: Renderer, c: ReviewComment)
    requires DistinctKeys(all, ReviewId)
    requires c in all && c !in pool && multiset(pool) <= multiset(all)
    ensures forall cmd :: cmd in ResolveReview(pool, render) ==> cmd.commentId != c.id
  {
    ReviewSweepSources(pool, render);
    forall cmd | cmd in ResolveReview(pool, render)
      ensures cmd.commentId != c.id
    {
      var j :| 0 <= j < |ResolveReview(pool, render)| && ResolveReview(pool, render)[j] == cmd;
      assert ResolvesReviewIn(pool, render, cmd);
      var c' :| c' in pool && render.isPresent(c'.body) && cmd == ReviewResolution(c', render);
      assert c' in multiset(all);
      if c'.id == c.id {
        DistinctKeysIdentify(all, ReviewId, c', c);
      }
    }
  }

  /**
   * When the issue comments have distinct ids, an issue comment matched by some finding, including
   * one spliced out alongside a review match, was matched by only that one, is not left in the pool,
   * and no resolution of the sweep targets its id.
   */
  lemma MatchedIssueCommentNeverResolved(fs: seq<Finding>, reviewComments: seq<ReviewComment>, issueComments: seq<IssueComment>, ctx: Context, c: IssueComment)
    requires DistinctKeys(issueComments, IssueId)
    requires c in SplicedIssues(Final(fs, reviewComments, issueComments, ctx).trace)
    ensures SplicedIssues(Final(fs, reviewComments, issueComments, ctx).trace)[c] == 1
    ensures c !in Final(fs, reviewComments, issueComments, ctx).issuePool
    ensures forall cmd :: cmd in ResolveIssue(Final(fs, reviewComments, issueComments, ctx).issuePool, ctx.render) ==>
      cmd.commentId != c.id
  {
    var st := Final(fs, reviewComments, issueComments, ctx);
    IssuePoolConserved(fs, reviewComments, issueComments, ctx);
    assert c in multiset(issueComments);
    DistinctKeysIdentify(issueComments, IssueId, c, c);
    IssueSweepAvoids(issueComments, st.issuePool, ctx.render, c);
  }

  /** The issue sweep of a sub-pool that lacks `c` targets no comment with the id of `c`. */
  lemma IssueSweepAvoids(all: seq<IssueComment>, pool: seq<IssueComment>, render: Renderer, c: IssueComment)
    requires DistinctKeys(all, IssueId)
    requires c in all && c !in pool && multiset(pool) <= multiset(all)
    ensures forall cmd :: cmd in ResolveIssue(pool, render) ==> cmd.commentId != c.id
  {
    IssueSweepSources(pool, render);
    forall cmd | cmd in ResolveIssue(pool, render)
      ensures cmd.commentId != c.id
    {
      var j :| 0 <= j < |ResolveIssue(pool, render)| && ResolveIssue(pool, render)[j] == cmd;
      assert ResolvesIssueIn(pool, render, cmd);
      var c' :| c' in pool && c'.body.Some? && render.isPresent(c'.body.value)
             && cmd == IssueResolution(c', c'.body.value, render);
      assert c' in multiset(all);
      if c'.id == c.id {
        DistinctKeysIdentify(all, IssueId, c', c);
      }
    }
  }

  /** A single review comment yields its resolution exactly when its body is still present. */
  lemma ReviewSweepOfOne(c: ReviewComment, render: Renderer)
    ensures ResolveReview([c], render) == (if render.isPresent(c.body) then [ReviewResolution(c, render)] else [])
  {
    assert [c][..0] == [];
  }

  /** The review sweep walks the pool in order: sweeping a concatenation sweeps each part in turn. */
  lemma {:induction false} ReviewSweepInOrder(a: seq<ReviewComment>, b: seq<ReviewComment>, render: Renderer)
    ensures ResolveReview(a + b, render) == ResolveReview(a, render) + ResolveReview(b, render)
    decreases |b|
  {
    if b == [] {
      assert a + b == a;
    } else {
      var n := |b| - 1;
      var ab := a + b;
      ReviewSweepInOrder(a, b[..n], render);
      assert ab[..|ab| - 1] == a + b[..n];
      assert ab[|ab| - 1] == b[n];
      var last := if render.isPresent(b[n].body) then [ReviewResolution(b[n], render)] else [];
      assert ResolveReview(ab, render) == ResolveReview(a + b[..n], render) + last;
      assert ResolveReview(b, render) == ResolveReview(b[..n], render) + last;
    }
  }

  /** A single issue comment yields its resolution exactly when it has a body that is still present. */
  lemma IssueSweepOfOne(c: IssueComment, render: Renderer)
    ensures ResolveIssue([c], render) ==
            (if c.body.Some? && render.isPresent(c.body.value) then [IssueResolution(c, c.body.value, render)] else [])
  {
    assert [c][..0] == [];
  }

  /** The issue sweep walks the pool in order: sweeping a concatenation sweeps each part in turn. */
  lemma {:induction false} IssueSweepInOrder(a: seq<IssueComment>, b: seq<IssueComment>, render: Renderer)
    ensures ResolveIssue(a + b, render) == ResolveIssue(a, render) + ResolveIssue(b, render)
    decreases |b|
  {
    if b == [] {
      assert a + b == a;
    } else {
      var n := |b| - 1;
      var ab := a + b;
      IssueSweepInOrder(a, b[..n], render);
      assert ab[..|ab| - 1] == a + b[..n];
      assert ab[|ab| - 1] == b[n];
      var c := b[n];
      var last := if c.body.Some? && render.isPresent(c.body.value) then [IssueResolution(c, c.body.value, render)] else [];
      assert ResolveIssue(ab, render) == ResolveIssue(a + b[..n], render) + last;
      assert ResolveIssue(b, render) == ResolveIssue(b[..n], render) + last;
    }
  }

  /** A prefix of a sequence with distinct keys has distinct keys. */
  lemma DistinctKeysPrefix<T>(s: seq<T>, key: T -> int, n: nat)
    requires DistinctKeys(s, key) && n <= |s|
    ensures DistinctKeys(s[..n], key)
  {
    assert forall j :: 0 <= j < n ==> s[..n][j] == s[j];
  }

  /** With distinct comment ids, the review sweep resolves each comment at most once. */
  lemma {:induction false} ReviewSweepResolvesOnce(pool: seq<ReviewComment>, render: Renderer)
    requires DistinctKeys(pool, ReviewId)
    ensures forall i, j :: 0 <= i < j < |ResolveReview(pool, render)| ==>
      ResolveReview(pool, render)[i].commentId != ResolveReview(pool, render)[j].commentId
    decreases |pool|
  {
    if pool != [] {
      var n := |pool| - 1;
      var earlier := ResolveReview(pool[..n], render);
      var cmds := ResolveReview(pool, render);
      DistinctKeysPrefix(pool, ReviewId, n);
      ReviewSweepResolvesOnce(pool[..n], render);
      ReviewSweepSources(pool[..n], render);
      assert forall k :: 0 <= k < |earlier| ==> cmds[k] == earlier[k];
      forall i | 0 <= i < |earlier| && |cmds| > |earlier|
        ensures earlier[i].commentId != cmds[|earlier|].commentId
      {
        assert ResolvesReviewIn(pool[..n], render, earlier[i]);
        var c :| c in pool[..n] && render.isPresent(c.body) && earlier[i] == ReviewResolution(c, render);
        var m :| 0 <= m < n && pool[..n][m] == c;
        assert ReviewId(pool[m]) != ReviewId(pool[n]);
      }
    }
  }

  /** With distinct comment ids, the issue sweep resolves each comment at most once. */
  lemma {:induction false} IssueSweepResolvesOnce(pool: seq<IssueComment>, render: Renderer)
    requires DistinctKeys(pool, IssueId)
    ensures forall i, j :: 0 <= i < j < |ResolveIssue(pool, render)| ==>
      ResolveIssue(pool, render)[i].commentId != ResolveIssue(pool, render)[j].commentId
    decreases |pool|
  {
    if pool != [] {
      var n := |pool| - 1;
      var earlier := ResolveIssue(pool[..n], render);
      var cmds := ResolveIssue(pool, render);
      DistinctKeysPrefix(pool, IssueId, n);
      IssueSweepResolvesOnce(pool[..n], render);
      IssueSweepSources(pool[..n], render);
      assert forall k :: 0 <= k < |earlier| ==> cmds[k] == earlier[k];
      forall i | 0 <= i < |earlier| && |cmds| > |earlier|
        ensures earlier[i].commentId != cmds[|earlier|].commentId
      {
        assert ResolvesIssueIn(pool[..n], render, earlier[i]);
        var c :| c in pool[..n] && c.body.Some? && render.isPresent(c.body.value)
               && earlier[i] == IssueResolution(c, c.body.value, render);
        var m :| 0 <= m < n && pool[..n][m] == c;
        assert IssueId(pool[m]) != IssueId(pool[n]);
      }
    }
  }

  /**
   * What an earlier run left on the pull request for one finding: the review comment or the issue
   * comment that reports it, or no comment at all.
   */
  datatype Prior =
    | HadReview(review: ReviewComment)
    | HadIssue(issue: IssueComment)
    | NoComment

  /** The review comments of `prior`, in order. */
  function ReviewsOf(prior: seq<Prior>): (pool: seq<ReviewComment>)
    ensures |pool| <= |prior|
    decreases |prior|
  {
    if prior == [] then []
    else (if prior[0].HadReview? then [prior[0].review] else []) + ReviewsOf(prior[1..])
  }

  /** The issue comments of `prior`, in order. */
  function IssuesOf(prior: seq<Prior>): (pool: seq<IssueComment>)
    ensures |pool| <= |prior|
    decreases |prior|
  {
    if prior == [] then []
    else (if prior[0].HadIssue? then [prior[0].issue] else []) + IssuesOf(prior[1..])
  }

  /**
   * Finding `k` is quiet on a rerun: its comment is current and matches it, no comment left for a
   * later finding matches it too, and a finding without a comment is suppressed on the server.
   */
  predicate QuietAt(fs: seq<Finding>, prior: seq<Prior>, ctx: Context, k: nat)
    requires |prior| == |fs| && k < |fs|
  {
    var f := fs[k];
    var reviews := ReviewsOf(prior[k + 1..]);
    var issues := IssuesOf(prior[k + 1..]);
    var status := StatusOf(f, ctx);
    match prior[k]
    case HadReview(c) =>
      && ReviewMatches(c, f) && c.body == ctx.render.reviewMessage(f)
      && (forall i :: 0 <= i < |issues| ==> !IssueMatches(issues[i], f.mergeKey))
    case HadIssue(c) =>
      && IssueMatches(c, f.mergeKey) && c.body == Some(ctx.render.issueMessage(f))
      && (forall i :: 0 <= i < |reviews| ==> !ReviewMatches(reviews[i], f))
    case NoComment =>
      && (forall i :: 0 <= i < |reviews| ==> !ReviewMatches(reviews[i], f))
      && (forall i :: 0 <= i < |issues| ==> !IssueMatches(issues[i], f.mergeKey))
      && (status.ignored || !status.isNew)
  }

  /** One quiet step leaves the calls and the queue alone and passes the comments of the later findings on. */
  lemma QuietStep(st: LoopState, fs: seq<Finding>, prior: seq<Prior>, ctx: Context, k: nat)
    requires |prior| == |fs| && k < |fs|
    requires QuietAt(fs, prior, ctx, k)
    requires st.reviewPool == ReviewsOf(prior[k..]) && st.issuePool == IssuesOf(prior[k..])
    ensures var next := Step(st, fs[k], ctx);
      && next.reviewPool == ReviewsOf(prior[k + 1..]) && next.issuePool == IssuesOf(prior[k + 1..])
      && next.commands == st.commands && next.queued == st.queued
  {
    var f := fs[k];
    assert prior[k..][1..] == prior[k + 1..];
    var reviews := ReviewsOf(prior[k..]);
    var issues := IssuesOf(prior[k..]);
    match prior[k]
    case HadReview(c) =>
      assert reviews == [c] + ReviewsOf(prior[k + 1..]);
      assert ReviewMatcher(f)(reviews[0]);
      assert RemoveAt(reviews, 0) == ReviewsOf(prior[k + 1..]);
      assert issues == IssuesOf(prior[k + 1..]);
    case HadIssue(c) =>
      assert issues == [c] + IssuesOf(prior[k + 1..]);
      assert IssueMatcher(f.mergeKey)(issues[0]);
      assert RemoveAt(issues, 0) == IssuesOf(prior[k + 1..]);
      assert reviews == ReviewsOf(prior[k + 1..]);
    case NoComment =>
      assert reviews == ReviewsOf(prior[k + 1..]);
      assert issues == IssuesOf(prior[k + 1..]);
  }

  /**
   * After `m` findings of a quiet rerun nothing was called or queued, and each pool holds exactly
   * the comments left for the remaining findings.
   */
  lemma {:induction false} RerunPrefixQuiet(fs: seq<Finding>, prior: seq<Prior>, ctx: Context, m: nat)
    requires |prior| == |fs|
    requires forall k :: 0 <= k < |fs| ==> QuietAt(fs, prior, ctx, k)
    requires m <= |fs|
    ensures var st := Final(fs[..m], ReviewsOf(prior), IssuesOf(prior), ctx);
      && st.reviewPool == ReviewsOf(prior[m..]) && st.issuePool == IssuesOf(prior[m..])
      && st.commands == [] && st.queued == []
    decreases m
  {
    if m == 0 {
      assert prior[0..] == prior;
    } else {
      RerunPrefixQuiet(fs, prior, ctx, m - 1);
      assert fs[..m][..m - 1] == fs[..m - 1];
      assert Final(fs[..m], ReviewsOf(prior), IssuesOf(prior), ctx)
          == Step(Final(fs[..m - 1], ReviewsOf(prior), IssuesOf(prior), ctx), fs[m - 1], ctx);
      QuietStep(Final(fs[..m - 1], ReviewsOf(prior), IssuesOf(prior), ctx), fs, prior, ctx, m - 1);
    }
  }

  /**
   * Rerunning the pass on unchanged findings, against the comments an earlier run left in finding
   * order, makes no call at all when every finding is quiet: it has a current review comment,
   * or a current issue comment, or no comment and is ignored or pre-existing on the server.
   */
  lemma RerunIsQuiet(fs: seq<Finding>, prior: seq<Prior>, ctx: Context)
    requires |prior| == |fs|
    requires forall k :: 0 <= k < |fs| ==> QuietAt(fs, prior, ctx, k)
    ensures Plan(fs, ReviewsOf(prior), IssuesOf(prior), ctx) == []
  {
    RerunPrefixQuiet(fs, prior, ctx, |fs|);
    assert fs[..|fs|] == fs;
    assert prior[|fs|..] == [];
  }
}
