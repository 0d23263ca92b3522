/** The selection-and-dispatch decision of the merge-master action: from the
    open pull requests against `main`, oldest first, choose at most one and
    say what to do with it. Fetching, logging and the two mutating API calls
    are outside this module; the decision is returned as an `Outcome`. */
module MergeMaster {
  import opened Wrappers
  import opened JsArray

  /** GitHub's `MergeStateStatus`: the head's state relative to the base. */
  datatype MergeStateStatus = Behind | Blocked | Clean | Dirty | Draft | HasHooks | Unknown | Unstable

  /** GitHub's `MergeableState`. */
  datatype MergeableState = Mergeable | Conflicting | Unknown

  /** GitHub's `StatusState` of a commit's status-check rollup. */
  datatype StatusState = Success | Failure | Pending | Error | Expected

  /** The fields of one fetched pull-request node that the decision reads.
      `hasAutoMergeRequest` is the presence of `autoMergeRequest`;
      `statusCheckRollup` is `None` when the node has no rollup. */
  datatype PullRequest = PullRequest(
    authorLogin: string,
    labels: seq<string>,
    number: int,
    isDraft: bool,
    mergeStateStatus: MergeStateStatus,
    mergeable: MergeableState,
    hasAutoMergeRequest: bool,
    statusCheckRollup: Option<StatusState>)

  /** What one run decides; the last three name the target's number. */
  datatype Outcome =
    | NoCandidates
    | Waiting
    | AlreadyRebasing(number: int)
    | AddRebaseLabel(number: int)
    | UpdateBranch(number: int)
  {
    predicate HasTarget() {
      AlreadyRebasing? || AddRebaseLabel? || UpdateBranch?
    }
  }

  const Renovate: string := "renovate"
  const RebaseLabel: string := "rebase"

  /** The four conditions of the filter, in the order the program lists them
      before checking them with `every(Boolean)`. */
  function Criteria(pr: PullRequest): (c: seq<bool>)
    ensures |c| == 4
    ensures pr.statusCheckRollup.None? || pr.statusCheckRollup == Some(Failure) ==> !c[2]
    ensures !pr.hasAutoMergeRequest ==> !c[0]
    ensures pr.mergeable == Conflicting && pr.authorLogin != Renovate ==> !c[1]
    ensures pr.isDraft ==> !c[3]
  {
    [ pr.hasAutoMergeRequest,
      pr.mergeable == MergeableState.Mergeable || (pr.authorLogin == Renovate && pr.mergeable == Conflicting),
      pr.statusCheckRollup.Some? && pr.statusCheckRollup.value != Failure,
      !pr.isDraft ]
  }

  /** The filter callback. An eligible pull request always has a rollup,
      so the pause rule may read its state. */
  predicate Eligible(pr: PullRequest)
    ensures Eligible(pr) ==> pr.statusCheckRollup.Some? && pr.statusCheckRollup.value != Failure
    ensures Eligible(pr) ==> pr.hasAutoMergeRequest && !pr.isDraft
  {
    All(Criteria(pr), (b: bool) => b)
  }

  /** The pause callback: checks are running and the head is not behind. */
  predicate PendingNotBehind(pr: PullRequest)
    ensures PendingNotBehind(pr) ==> pr.statusCheckRollup.Some?
    ensures pr.mergeStateStatus == Behind ==> !PendingNotBehind(pr)
  {
    pr.statusCheckRollup == Some(Pending) && pr.mergeStateStatus != Behind
  }

  /** The `find` callback that prefers pull requests not by Renovate. */
  predicate NotRenovate(pr: PullRequest) {
    pr.authorLogin != Renovate
  }

  /** The `some` callback that looks for the `rebase` label. */
  predicate IsRebaseLabel(name: string) {
    name == RebaseLabel
  }

  /** `targetPRs.find((pr) => pr.author.login !== 'renovate') || targetPRs[0]`. */
  function SelectTarget(targetPRs: seq<PullRequest>): (t: PullRequest)
    requires targetPRs != []
    ensures t in targetPRs
    ensures t.authorLogin == Renovate ==> t == targetPRs[0]
    ensures t.authorLogin == Renovate ==> forall i :: 0 <= i < |targetPRs| ==> targetPRs[i].authorLogin == Renovate
    ensures t.authorLogin != Renovate ==>
      exists i :: 0 <= i < |targetPRs| && targetPRs[i] == t && forall j :: 0 <= j < i ==> targetPRs[j].authorLogin == Renovate
  {
    match Find(targetPRs, NotRenovate)
    case Some(pr) => pr
    case None => targetPRs[0]
  }

  /** The decision made by `run` once the pull requests are fetched. */
  function Decide(prs: seq<PullRequest>): (o: Outcome)
    ensures o.NoCandidates? <==> forall i :: 0 <= i < |prs| ==> !Eligible(prs[i])
    ensures o.Waiting? <==> exists i :: 0 <= i < |prs| && Eligible(prs[i]) && PendingNotBehind(prs[i])
    ensures o.HasTarget() ==> exists i :: 0 <= i < |prs| && Eligible(prs[i]) && prs[i].number == o.number
  {
    var targetPRs := Filter(prs, Eligible);
    PendingAmongEligible(prs);
    if |targetPRs| == 0 then
      NoCandidates
    else if Any(targetPRs, PendingNotBehind) then
      Waiting
    else
      var targetPR := SelectTarget(targetPRs);
      if targetPR.authorLogin == Renovate then
        if Any(targetPR.labels, IsRebaseLabel) then AlreadyRebasing(targetPR.number)
        else AddRebaseLabel(targetPR.number)
      else
        UpdateBranch(targetPR.number)
  }

  /** `some` over the filtered list asks the same question as a search of
      the whole fetched list. */
  lemma PendingAmongEligible(prs: seq<PullRequest>)
    ensures Filter(prs, Eligible) == [] <==> forall i :: 0 <= i < |prs| ==> !Eligible(prs[i])
    ensures Any(Filter(prs, Eligible), PendingNotBehind) <==>
      exists i :: 0 <= i < |prs| && Eligible(prs[i]) && PendingNotBehind(prs[i])
  {
    FilterHead(prs, Eligible);
    AnyAfterFilter(prs, Eligible, PendingNotBehind, EligiblePending);
  }

  predicate EligiblePending(pr: PullRequest) {
    Eligible(pr) && PendingNotBehind(pr)
  }

  // ---------------------------------------------------------------------
  // Eligibility

  /** The filter accepts a pull request exactly when all four hold. */
  lemma EligibleIff(pr: PullRequest)
    ensures Eligible(pr) <==>
      pr.hasAutoMergeRequest
      && (pr.mergeable == MergeableState.Mergeable || (pr.authorLogin == Renovate && pr.mergeable == Conflicting))
      && pr.statusCheckRollup.Some? && pr.statusCheckRollup.value != Failure
      && !pr.isDraft
  {
    var c := Criteria(pr);
    assert All(c, (b: bool) => b) <==> c[0] && c[1] && c[2] && c[3];
  }

  /** Conflicts are tolerated only for Renovate, and a missing rollup or a
      missing auto-merge request always disqualifies. */
  lemma IneligibleCases(pr: PullRequest)
    ensures pr.mergeable == Conflicting && pr.authorLogin != Renovate ==> !Eligible(pr)
    ensures pr.mergeable == MergeableState.Unknown ==> !Eligible(pr)
    ensures pr.statusCheckRollup.None? ==> !Eligible(pr)
    ensures !pr.hasAutoMergeRequest ==> !Eligible(pr)
  {
    EligibleIff(pr);
  }

  // ---------------------------------------------------------------------
  // An independent statement of the decision, in terms of fetch positions

  /** Position `i` holds the target: the oldest eligible pull request not by
      Renovate, or, when every eligible one is by Renovate, the oldest eligible. */
  ghost predicate IsTargetIndex(prs: seq<PullRequest>, i: int) {
    0 <= i < |prs| && Eligible(prs[i]) &&
    if prs[i].authorLogin != Renovate then
      forall j :: 0 <= j < i ==> !(Eligible(prs[j]) && prs[j].authorLogin != Renovate)
    else
      (forall j :: 0 <= j < i ==> !Eligible(prs[j]))
      && (forall j :: 0 <= j < |prs| ==> !(Eligible(prs[j]) && prs[j].authorLogin != Renovate))
  }

  lemma TargetIndexUnique(prs: seq<PullRequest>, i: int, k: int)
    requires IsTargetIndex(prs, i) && IsTargetIndex(prs, k)
    ensures i == k
  {
  }

  lemma TargetIndexExists(prs: seq<PullRequest>)
    requires exists i :: 0 <= i < |prs| && Eligible(prs[i])
    ensures exists i :: IsTargetIndex(prs, i)
  {
    match FindIndex(prs, EligibleNonRenovate)
    case Some(i) =>
      assert IsTargetIndex(prs, i);
    case None =>
      var i := FindIndex(prs, Eligible).value;
      assert IsTargetIndex(prs, i);
  }

  predicate EligibleNonRenovate(pr: PullRequest) {
    Eligible(pr) && NotRenovate(pr)
  }

  /** What the program is meant to do, written without `filter`/`find`. */
  ghost function Intended(prs: seq<PullRequest>): Outcome {
    if forall i :: 0 <= i < |prs| ==> !Eligible(prs[i]) then
      NoCandidates
    else if exists i :: 0 <= i < |prs| && Eligible(prs[i]) && PendingNotBehind(prs[i]) then
      Waiting
    else
      TargetIndexExists(prs);
      var i :| IsTargetIndex(prs, i);
      Dispatch(prs[i])
  }

  /** The action on a chosen target: Renovate's pull requests get the
      `rebase` label unless they carry it already; others get a branch update. */
  ghost function Dispatch(pr: PullRequest): Outcome {
    if pr.authorLogin != Renovate then UpdateBranch(pr.number)
    else if RebaseLabel in pr.labels then AlreadyRebasing(pr.number)
    else AddRebaseLabel(pr.number)
  }

  lemma IntendedAtTarget(prs: seq<PullRequest>, k: int)
    requires IsTargetIndex(prs, k)
    requires forall i :: 0 <= i < |prs| && Eligible(prs[i]) ==> !PendingNotBehind(prs[i])
    ensures Intended(prs) == Dispatch(prs[k])
  {
    forall i | IsTargetIndex(prs, i) ensures i == k {
      TargetIndexUnique(prs, i, k);
    }
  }

  /** The position in `prs` of the pull request `SelectTarget` picks. */
  lemma {:induction false} SelectedIsTarget(prs: seq<PullRequest>)
    requires exists i :: 0 <= i < |prs| && Eligible(prs[i])
    ensures Filter(prs, Eligible) != []
    ensures exists i :: IsTargetIndex(prs, i) && prs[i] == SelectTarget(Filter(prs, Eligible))
  {
    var targetPRs := Filter(prs, Eligible);
    FindAfterFilter(prs, Eligible, NotRenovate, EligibleNonRenovate);
    FilterHead(prs, Eligible);
    match FindIndex(prs, EligibleNonRenovate)
    case Some(i) =>
      assert IsTargetIndex(prs, i);
    case None =>
      var i := FindIndex(prs, Eligible).value;
      assert IsTargetIndex(prs, i);
  }

  /** `Decide` agrees with the position-based statement on every input. */
  lemma DecideMatchesIntended(prs: seq<PullRequest>)
    ensures Decide(prs) == Intended(prs)
  {
    if exists i :: 0 <= i < |prs| && Eligible(prs[i]) {
      if !exists i :: 0 <= i < |prs| && Eligible(prs[i]) && PendingNotBehind(prs[i]) {
        SelectedIsTarget(prs);
        var k :| IsTargetIndex(prs, k) && prs[k] == SelectTarget(Filter(prs, Eligible));
        IntendedAtTarget(prs, k);
        PendingAmongEligible(prs);
        var labels := prs[k].labels;
        assert Any(labels, IsRebaseLabel) <==> RebaseLabel in labels;
      }
    }
  }

  // ---------------------------------------------------------------------
  // Consequences for particular situations

  /** Without any auto-merge request nothing is a candidate; in particular
      an empty fetch gives `NoCandidates`. */
  lemma NoAutoMergeNoCandidates(prs: seq<PullRequest>)
    requires forall i :: 0 <= i < |prs| ==> !prs[i].hasAutoMergeRequest
    ensures Decide(prs) == NoCandidates
  {
    forall i | 0 <= i < |prs| ensures !Eligible(prs[i]) {
      IneligibleCases(prs[i]);
    }
  }

  /** One eligible pull request whose checks are pending and whose head is
      not behind the base stops the run, whatever else was fetched before or
      after it. */
  lemma PauseIsGlobal(before: seq<PullRequest>, pr: PullRequest, after: seq<PullRequest>)
    requires Eligible(pr) && PendingNotBehind(pr)
    ensures Decide(before + [pr] + after) == Waiting
  {
    var prs := before + [pr] + after;
    assert prs[|before|] == pr;
  }

  /** An older Renovate pull request yields to a newer one by someone else. */
  lemma RenovateYieldsToOthers(older: PullRequest, newer: PullRequest)
    requires Eligible(older) && Eligible(newer)
    requires older.authorLogin == Renovate && newer.authorLogin != Renovate
    requires !PendingNotBehind(older) && !PendingNotBehind(newer)
    ensures Decide([older, newer]) == UpdateBranch(newer.number)
  {
    var prs := [older, newer];
    DecideMatchesIntended(prs);
    IntendedAtTarget(prs, 1);
  }

  /** Among Renovate pull requests only, the oldest one is labelled. */
  lemma OldestRenovateLabelled(older: PullRequest, newer: PullRequest)
    requires Eligible(older) && Eligible(newer)
    requires older.authorLogin == Renovate && newer.authorLogin == Renovate
    requires RebaseLabel !in older.labels
    requires !PendingNotBehind(older) && !PendingNotBehind(newer)
    ensures Decide([older, newer]) == AddRebaseLabel(older.number)
  {
    var prs := [older, newer];
    DecideMatchesIntended(prs);
    IntendedAtTarget(prs, 0);
  }

  /** A Renovate target already labelled `rebase` leads to no action. */
  lemma LabelledRenovateIsLeftAlone(pr: PullRequest)
    requires Eligible(pr) && pr.authorLogin == Renovate && RebaseLabel in pr.labels
    requires !PendingNotBehind(pr)
    ensures Decide([pr]) == AlreadyRebasing(pr.number)
  {
    DecideMatchesIntended([pr]);
    IntendedAtTarget([pr], 0);
  }
}
