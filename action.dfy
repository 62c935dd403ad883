/**
 * The preamble of the action's entry point: the pull-request gate, the optional lookup of the
 * findings on the Coverity Connect server, and the selection of the comments this action manages,
 * followed by the reconciliation pass.
 */
module Action {
  import opened Wrappers
  import opened Coverity
  import opened CommentMatcher
  import opened Reconciliation
  import ReconciliationProperties

  /** The Coverity Connect inputs; an input that was not given is the empty string. */
  datatype ServerConfig = ServerConfig(url: string, username: string, password: string, projectName: string)

  /** The server is consulted only when all four inputs are given. */
  function CanCheckCoverity(config: ServerConfig): (b: bool)
    ensures b <==> "" !in {config.url, config.username, config.password, config.projectName}
  {
    config.url != [] && config.username != [] && config.password != [] && config.projectName != []
  }

  /** The outcome of asking the server for the project issues of a set of merge keys. */
  datatype FetchResult = Fetched(index: map<string, ProjectIssue>) | FetchFailed

  /**
   * What the pass sees of the outside world: the pull-request gate, the server inputs and the
   * server lookup, the comments already on the pull request, its diff, the library's rendering
   * functions and the marker text that every comment of this action carries.
   */
  datatype Environment = Environment(
    isPullRequest: bool,
    config: ServerConfig,
    lookUp: set<string> -> FetchResult,
    fetchedReviewComments: seq<ReviewComment>,
    fetchedIssueComments: seq<IssueComment>,
    diff: DiffMap,
    render: Renderer,
    preface: string)

  /** How a run ends. */
  datatype Outcome =
    | NotPullRequest                                                   // nothing to do
    | Failed                                                           // the server lookup failed
    | Completed(commands: seq<Command>, dispositions: seq<Disposition>)

  /** The distinct merge keys of the findings. */
  function MergeKeys(findings: seq<Finding>): (keys: set<string>)
    ensures forall key :: key in keys <==> exists k :: 0 <= k < |findings| && findings[k].mergeKey == key
  {
    set k | 0 <= k < |findings| :: findings[k].mergeKey
  }

  /**
   * The project issues the pass looks findings up in: none when the server inputs are incomplete
   * or there are no findings, otherwise what the server returns for the findings' merge keys;
   * `None` when that lookup fails.
   */
  function ServerIndex(env: Environment, findings: seq<Finding>): (r: Option<map<string, ProjectIssue>>)
    ensures !CanCheckCoverity(env.config) || |findings| == 0 ==> r == Some(map[])
    ensures CanCheckCoverity(env.config) && |findings| > 0 ==>
      match env.lookUp(MergeKeys(findings))
      case FetchFailed => r == None
      case Fetched(index) => r == Some(index)
  {
    if !CanCheckCoverity(env.config) || |findings| == 0 then Some(map[])
    else
      match env.lookUp(MergeKeys(findings))
      case FetchFailed => None
      case Fetched(index) => Some(index)
  }

  /** The reconciliation context of a run that was not cut short. */
  function RunContext(env: Environment, index: map<string, ProjectIssue>): Context
  {
    Context(index, env.diff, env.render)
  }

  /**
   * One run of the action on the findings of the report. Outside a pull request it does nothing;
   * a failed server lookup ends it before any comment is touched; otherwise it reconciles the
   * findings against the managed comments.
   */
  method Run(env: Environment, findings: seq<Finding>) returns (outcome: Outcome)
    ensures !env.isPullRequest <==> outcome == NotPullRequest
    ensures env.isPullRequest ==> (outcome == Failed <==> ServerIndex(env, findings).None?)
    ensures outcome.Completed? ==>
      var ctx := RunContext(env, ServerIndex(env, findings).value);
      var reviewPool := ManagedReviewComments(env.fetchedReviewComments, env.preface);
      var issuePool := ManagedIssueComments(env.fetchedIssueComments, env.preface);
      && outcome.commands == Plan(findings, reviewPool, issuePool, ctx)
      && outcome.dispositions == Final(findings, reviewPool, issuePool, ctx).trace
  {
    if !env.isPullRequest {
      return NotPullRequest;
    }
    var mergeKeyToIssue: map<string, ProjectIssue> := map[];
    if CanCheckCoverity(env.config) && |findings| > 0 {
      match env.lookUp(MergeKeys(findings)) {
        case FetchFailed =>
          return Failed;
        case Fetched(index) =>
          mergeKeyToIssue := index;
      }
    }
    var actionReviewComments := ManagedReviewComments(env.fetchedReviewComments, env.preface);
    var actionIssueComments := ManagedIssueComments(env.fetchedIssueComments, env.preface);
    var commands, dispositions := Reconcile(findings, actionReviewComments, actionIssueComments, RunContext(env, mergeKeyToIssue));
    outcome := Completed(commands, dispositions);
  }

  /**
   * Without complete server inputs nothing is looked up, so no finding is suppressed as ignored
   * or as pre-existing: every finding is either matched to a comment or reported.
   */
  lemma {:induction false} UnconfiguredServerSuppressesNothing(env: Environment, findings: seq<Finding>, k: nat)
    requires !CanCheckCoverity(env.config)
    requires k < |findings|
    ensures var ctx := RunContext(env, ServerIndex(env, findings).value);
      var d := Final(findings, ManagedReviewComments(env.fetchedReviewComments, env.preface),
                     ManagedIssueComments(env.fetchedIssueComments, env.preface), ctx).trace[k];
      !d.decision.SuppressIgnored? && !d.decision.SuppressPreexisting?
  {
    var ctx := RunContext(env, ServerIndex(env, findings).value);
    ReconciliationProperties.UnknownFindingIsActionable(findings,
      ManagedReviewComments(env.fetchedReviewComments, env.preface),
      ManagedIssueComments(env.fetchedIssueComments, env.preface), ctx, k);
  }
}
