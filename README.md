# merge-master: the pull-request selection decision

merge-master is a GitHub Action. Each run fetches the open pull requests
against `main`, oldest first. It keeps the ones that are ready to advance:
auto-merge is requested, the PR is mergeable (or, for Renovate, conflicting),
its checks are not failing, and it is not a draft. It then does at most one thing:
- it waits, if any kept PR has checks pending and its head is not BEHIND the base (whatever its other merge state);
- it adds the `rebase` label to a Renovate PR, unless the label is already there;
- it updates the branch of another author's PR.

The target is the oldest kept PR not by Renovate. When every kept PR is by
Renovate, the target is the oldest kept PR.

This project models that decision as pure Dafny functions and proves what it
does:

- `wrappers.dfy` (`Wrappers`): `Option` and `Result`.
- `js_array.dfy` (`JsArray`): the array methods the decision is built from.
  These are `filter`, `findIndex`/`find`, `some` and `every`, written as
  recursive functions. The module also proves lemmas relating them.
- `merge_master.dfy` (`MergeMaster`): the pull-request snapshot, the
  eligibility filter, the pause rule, the target choice and the dispatch
  (`Decide`). `Intended` is a second definition of the same decision, stated
  by positions in the fetched list without `filter` or `find`.
  `DecideMatchesIntended` proves that the two agree on every input.
- `entry.dfy` (`Entry`): the `run` entry point around the decision. The fetch
  result and the error of the mutating call are inputs. The output records
  the mutating calls that were issued and whether the run succeeded or
  failed.

The code at src/index.ts:62 tests `pr.statusCheckRollup && …`, which is
falsy when the rollup is absent. The model follows the code: a PR without a
rollup is never eligible. Because of this, reading `statusCheckRollup.state`
in the pause rule (src/index.ts:73) is always safe.

## Model

| member | source | states |
|---|---|---|
| `JsArray.All` | src/index.ts:59-64 | `every` holds exactly when the predicate holds at every index |
| `JsArray.Filter` | src/index.ts:58-65 | the kept list is an order-preserving subsequence of the fetched list; each kept element satisfies the predicate; each fetched element that satisfies it is kept |
| `JsArray.FilterAppend` | src/index.ts:58-65 | filtering a concatenation is the concatenation of the filtered parts, so the filter works element by element |
| `JsArray.FilterSingleton` | src/index.ts:58-65 | a one-element list is kept exactly when its element satisfies the predicate |
| `JsArray.FilterIdempotent` | src/index.ts:58-65 | filtering the kept list again changes nothing |
| `JsArray.FindIndex` | src/index.ts:78 | the search behind `find` returns the first index whose element satisfies the predicate, and nothing exactly when no element does |
| `JsArray.Find` | src/index.ts:78 | `find` gives nothing exactly when no element matches, and otherwise the element at the first matching index |
| `JsArray.Any` | src/index.ts:73 | `some` holds exactly when some index satisfies the predicate |
| `JsArray.FilterHead` | src/index.ts:78 | the first kept element, `targetPRs[0]`, is the first matching element of the whole list; the kept list is empty exactly when nothing matches |
| `JsArray.FindAfterFilter` | src/index.ts:78 | searching the kept list finds the first element of the whole list that passes both tests |
| `JsArray.AnyAfterFilter` | src/index.ts:73 | `some` over the kept list asks whether some fetched element passes both tests |
| `MergeMaster.Criteria` | src/index.ts:59-64 | the filter's array has four entries; the first is false without an auto-merge request, the second for a CONFLICTING PR not by Renovate, the third when the rollup is absent or FAILURE, the fourth for a draft |
| `MergeMaster.Eligible` | src/index.ts:58-65 | an eligible PR requests auto-merge, is not a draft, and has a rollup whose state is not FAILURE; the converse is `EligibleIff` |
| `MergeMaster.EligibleIff` | src/index.ts:58-65 | eligible exactly when all four hold: an auto-merge request; MERGEABLE, or CONFLICTING with author `renovate`; a rollup present whose state is not FAILURE; not a draft |
| `MergeMaster.IneligibleCases` | src/index.ts:60-62 | a CONFLICTING PR not by Renovate, an UNKNOWN-mergeable PR, a PR without a rollup and a PR without auto-merge are never eligible |
| `MergeMaster.PendingNotBehind` | src/index.ts:73 | the pause test holds only for a PR with a rollup, and never for a BEHIND PR; `PendingAmongEligible` lifts it to the fetched list |
| `MergeMaster.SelectTarget` | src/index.ts:78 | the `find` with the callback `NotRenovate`: the target is a member of the eligible list; it is its first non-Renovate PR; a Renovate target is the list's head, and then every eligible PR is by Renovate |
| `MergeMaster.PendingAmongEligible` | src/index.ts:68-76 | the eligible list is empty exactly when no fetched PR is eligible; the pause test succeeds exactly when some eligible fetched PR is PENDING and not BEHIND |
| `MergeMaster.Decide` | src/index.ts:56-99 | `NoCandidates` exactly when no PR is eligible; `Waiting` exactly when some eligible PR is PENDING and not BEHIND, whichever PR would be chosen; any action names the number of an eligible fetched PR |
| `MergeMaster.TargetIndexExists` | src/index.ts:78 | when some PR is eligible, a target position exists (the oldest eligible non-Renovate PR, else the oldest eligible PR) |
| `MergeMaster.TargetIndexUnique` | src/index.ts:78 | that position is unique |
| `MergeMaster.SelectedIsTarget` | src/index.ts:56-78 | the PR chosen by `filter` then `find(...) \|\| targetPRs[0]` sits at the target position of the fetched list |
| `MergeMaster.DecideMatchesIntended` | src/index.ts:56-99 | on every input the decision equals the position-based statement, where the label test `some` with the callback `IsRebaseLabel` (:82) is label membership: no candidates, wait, or the target's action (label Renovate without `rebase`, leave Renovate with `rebase` alone, update any other branch) |
| `MergeMaster.NoAutoMergeNoCandidates` | src/index.ts:60 | when no fetched PR requests auto-merge, including when none was fetched, the outcome is `NoCandidates` |
| `MergeMaster.PauseIsGlobal` | src/index.ts:73-76 | one eligible PENDING, not-BEHIND PR anywhere in the fetched list makes the outcome `Waiting`, whatever precedes or follows it |
| `MergeMaster.RenovateYieldsToOthers` | src/index.ts:78-98 | with an older eligible Renovate PR and a newer eligible PR by someone else, the newer one's branch is updated |
| `MergeMaster.OldestRenovateLabelled` | src/index.ts:78-91 | with two eligible Renovate PRs, the older one gets the `rebase` label when it lacks it |
| `MergeMaster.LabelledRenovateIsLeftAlone` | src/index.ts:80-85 | a Renovate target that already has `rebase` leads to no mutation |
| `Entry.Run` | src/index.ts:56-102 | at most one mutating call per run; a failed fetch issues none and fails with its message; a run fails exactly when the fetch fails or an issued call fails, and then it carries that message; a call always targets an eligible fetched PR; a successful run reports the outcome `Decide` gives |
| `Entry.RunMutations` | src/index.ts:80-102 | the calls issued, with their arguments from :86-98, are exactly: labels `["rebase"]` on issue number n for a Renovate target without that label, a branch update of pull number n for any other target, and none otherwise; the run succeeds with the intended outcome unless the issued call fails, and then fails with that call's message |

## Left out

- The GraphQL query and its transport (src/index.ts:35-56) are network I/O. The fetched nodes are an input sequence; a failed fetch is `Err(message)`.
- The `issues.addLabels` and `pulls.updateBranch` calls are foreign calls. They are modelled as `Entry.Mutation` values. Their failure is an input to `Entry.Run`. Their responses are never read by the program.
- The `github-token` input and the repository owner/name come from the environment. They are not modelled, and neither is the error when the token is missing.
- The `core.info` log lines are not modelled. `core.setFailed` is modelled only as the `Failed(message)` status.
- The async/`Promise` structure and the `void run()` call are not modelled.
- The `first: 100` limits on pull requests and labels are applied by the server. Any fetched list is accepted.
- The `id` and `title` fields are fetched but never read by the decision. They are omitted from `PullRequest`.
- The declared type makes `author` non-null, so the model uses a plain login string. A node with a null author (a deleted account) throws a `TypeError` at src/index.ts:61 whenever it is not MERGEABLE, eligible or not, because the array at 59-64 is built in full before `every` runs. It also throws at :78 when it is eligible, no pause applies, and every eligible PR before it is by Renovate. In every other run its author is never read. The throwing paths are not modelled.
