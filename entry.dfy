/** The `run` entry point around the decision: the fetch and the mutating
    call are given by their results, and any error either of them throws is
    caught once and reported with its message, as the top-level
    `try`/`catch` does. */
module Entry {
  import opened Wrappers
  import opened MergeMaster

  /** The two REST calls the action can make. */
  datatype Mutation =
    | IssuesAddLabels(issueNumber: int, labels: seq<string>)
    | PullsUpdateBranch(pullNumber: int)

  datatype Status = Succeeded(outcome: Outcome) | Failed(message: string)

  /** The mutating calls issued during one run, and how the run ended. */
  datatype Report = Report(mutations: seq<Mutation>, status: Status)

  /** The REST call an outcome requires, if any. */
  function MutationOf(o: Outcome): Option<Mutation> {
    match o
    case AddRebaseLabel(n) => Some(IssuesAddLabels(n, [RebaseLabel]))
    case UpdateBranch(n) => Some(PullsUpdateBranch(n))
    case _ => None
  }

  /** One run. `fetched` is what the GraphQL query returned or the message
      it failed with; `mutationError` is the message the mutating call fails
      with, if it fails. */
  function Run(fetched: Result<seq<PullRequest>, string>, mutationError: Option<string>): (r: Report)
    ensures |r.mutations| <= 1
    ensures fetched.Err? ==> r == Report([], Failed(fetched.error))
    ensures r.status.Failed? <==> fetched.Err? || (r.mutations != [] && mutationError.Some?)
    ensures r.status.Failed? && fetched.Ok? ==> Some(r.status.message) == mutationError
    ensures fetched.Ok? && r.status.Succeeded? ==> r.status.outcome == Decide(fetched.value)
    ensures fetched.Ok? && r.mutations != [] ==>
      var n := if r.mutations[0].IssuesAddLabels? then r.mutations[0].issueNumber else r.mutations[0].pullNumber;
      exists i :: 0 <= i < |fetched.value| && Eligible(fetched.value[i]) && fetched.value[i].number == n
  {
    match fetched
    case Err(message) => Report([], Failed(message))
    case Ok(prs) =>
      var outcome := Decide(prs);
      match MutationOf(outcome)
      case None => Report([], Succeeded(outcome))
      case Some(call) =>
        match mutationError
        case None => Report([call], Succeeded(outcome))
        case Some(message) => Report([call], Failed(message))
  }

  /** The calls a run issues and how it ends, in terms of the position-based
      statement of the decision: a label `rebase` for a Renovate target
      without it, a branch update for any other target, and nothing
      otherwise; the run fails only when the issued call fails. */
  lemma RunMutations(prs: seq<PullRequest>, mutationError: Option<string>)
    ensures Run(Ok(prs), mutationError).mutations ==
      match Intended(prs)
      case AddRebaseLabel(n) => [IssuesAddLabels(n, ["rebase"])]
      case UpdateBranch(n) => [PullsUpdateBranch(n)]
      case _ => []
    ensures Run(Ok(prs), mutationError).status ==
      if (Intended(prs).AddRebaseLabel? || Intended(prs).UpdateBranch?) && mutationError.Some? then
        Failed(mutationError.value)
      else Succeeded(Intended(prs))
  {
    DecideMatchesIntended(prs);
  }
}
