# cherry-pick-check, modelled in Dafny

cherry-pick-check reports, for each of an author's pull requests on a base branch, whether it was cherry-picked to each of a set of release branches. This project models the core of that tool and proves properties of the model:

- **Release-branch selection** (`BranchDetector`, `branch_detector.dfy`):
  - the four release-branch name shapes;
  - version parsing (strip trailing `.`/`x`, split on `.`, keep numeric parts);
  - the zero-padded component-wise version comparison;
  - the selection loop of `detect_release_branches`, with its stable newest-first sort and optional limit;
  - the order-preserving existence filter `filter_branches`.
- **Cherry-pick detection** (`CherryPickDetector`, `cherry_pick_detector.dfy`):
  - the body matcher `_is_cherry_pick_reference`;
  - decoding of raw PR records (`_parse_pr_state`, `_parse_pr_info`);
  - the per-PR detection loop with its branch-to-candidate map;
  - the batch loop `detect_cherry_picks`;
  - the decoding loop `get_user_prs`.
- **The GitHub client** (`GitHubClient`, `github_client.dfy`):
  - the rate-limit decision `_handle_rate_limit`;
  - the paging loops `_search_issues` and `_paginate`;
  - the retry loop of `get_pr_details`;
  - `get_branches`, `search_related_prs`, and the query sequencing of `get_user_prs`.
- **Data types** (`Models`, `models.dfy`): the state and status enums and the `PRInfo` / `CherryPickResult` records with their defaults.
- **Python string operations** the core relies on (`PyStr`, `pystr.dfy`): substring `in`, ASCII `lower()`, `split`, `rstrip`, `isdigit`, `int()` and `str()`.

How the client is modelled:

- HTTP is an oracle. The n-th request the client sends receives `api(n, ...)`: the two rate-limit headers (when present), a success flag and the decoded body.
- The time at which request n is handled is `clock(n)`.
- Sleeps are recorded in a ghost trace `sleeps`.
- The client's `while True` loops are run with a fuel bound.

Each loop method is proved equal to a specification function:

- `PageRun` for the paging loops;
- `DetailRun` for the pull fetch;
- `BranchMap` / `PrResults` / `CrossResults` for detection.

Lemmas then state what the source promises about those functions:

- pages are requested consecutively;
- a retry re-requests the same page;
- the result is the concatenation of the accepted pages;
- the last writer wins in the branch map;
- the batch result is the source-by-target grid.

Other source functions are modelled by specification functions that carry no contract of their own. The lemmas listed with each characterise them:

- `BranchDetector.HasShape`, `Matches` and `IsReleaseBranch` (src/cherry_pick_check/branch_detector.py:5-10 and 68-82): the four patterns of `RELEASE_BRANCH_PATTERNS` under `re.match`, and the mode choice. Characterised by `ParseMajorMinor`, `ParseMajorMinorPatch`, `ParseMajorX`, `ParseMajorMinorX`, `ShapeModes` and `MajorOnlyShape`.
- `BranchDetector.ParseVersion` (src/cherry_pick_check/branch_detector.py:13-25): `_parse_version`. Characterised by `NumericPartsOfDigits`, the four `Parse…` lemmas and `ZeroPadding`.
- `BranchDetector.Compare` and `VersionOrder` (src/cherry_pick_check/branch_detector.py:28-47): `_version_compare` on tuples and on names. Characterised by `CompareAntisymmetric`, `CompareZeroIff`, `CompareAtFirstDifference`, `CompareTransitive`, `VersionOrderAntisymmetric`, `VersionOrderTransitive` and `MinorOrder`.
- `BranchDetector.SortNewestFirst` (src/cherry_pick_check/branch_detector.py:85): `sorted(..., key=cmp_to_key(_version_compare), reverse=True)`. Characterised by `SortIsNewestFirst`, `SortIsPermutation` and `SortIsStable`.
- `GitHubClient.MergedQuery` and `OpenQuery` (src/cherry_pick_check/github_client.py:64-73): the two query strings of `get_user_prs`. Characterised by `SinceQualifiers` and `QueryStates`.
- `GitHubClient.RelatedQuery` (src/cherry_pick_check/github_client.py:87): the query of `search_related_prs`. Used by `SearchRelatedPrs`.
- `CherryPickDetector.BodyText` (src/cherry_pick_check/cherry_pick_detector.py:225): `pr_data.get("body", "") or ""`. `DetectForPr` and `Accept` both read a hit's body through it.

The detector sees the client through two functions: the related-PR search for a source number, and the detail fetch of a candidate. Either may fail.

## Model

| member | source | states |
|---|---|---|
| Models.NewPRInfo | src/cherry_pick_check/models.py:19-27 | a PR built from its required fields is Merged, with no creation or merge time |
| Models.NewResult | src/cherry_pick_check/models.py:30-35 | a result built from its required fields has no related PR and an empty detection label |
| Models.PickedWithoutRelatedIsConstructible | tests/test_models.py:42-49 | the record type does not tie related PR to status: a Picked result without a related PR exists |
| PyStr.ContainsAt | src/cherry_pick_check/cherry_pick_detector.py:40 | `p in s` holds exactly when some slice of s equals p |
| PyStr.ContainsTrans | src/cherry_pick_check/cherry_pick_detector.py:43-52 | a substring of a substring of s is a substring of s |
| PyStr.ContainsLowered | src/cherry_pick_check/cherry_pick_detector.py:52 | a lower-case pattern found in a text is also found in the text's lower-cased form |
| PyStr.DecimalValueOfNatToString | src/cherry_pick_check/cherry_pick_detector.py:44-49 | `int(str(n)) == n`: the decimal text of a PR number reads back as that number |
| PyStr.JoinSplit | src/cherry_pick_check/branch_detector.py:24 | joining the parts of `split('.')` gives the text back, and no part holds a '.' |
| PyStr.SplitJoin | src/cherry_pick_check/branch_detector.py:24 | splitting a join of '.'-free parts gives the parts back |
| PyStr.RStripFacts | src/cherry_pick_check/branch_detector.py:23 | `rstrip(".x")` leaves a prefix that ends in neither '.' nor 'x', and drops only '.' and 'x' characters |
| BranchDetector.NumericPartsOfDigits | src/cherry_pick_check/branch_detector.py:25 | when every part is all digits, every part is kept, as its decimal value, in order |
| BranchDetector.SelectReleaseBranches | src/cherry_pick_check/branch_detector.py:71-82 | the selection loop returns exactly the candidate list: input order kept, excluded name skipped, the mode's shapes kept |
| BranchDetector.ReleaseCandidates | src/cherry_pick_check/branch_detector.py:71-82 | every entry the selection loop appends is not the excluded branch and has a release shape of the chosen mode |
| BranchDetector.ReleaseCandidatesCount | src/cherry_pick_check/branch_detector.py:71-82 | before sorting, the selection holds each selected input entry exactly as often as the input does, duplicates kept |
| BranchDetector.ParseMajorMinor | src/cherry_pick_check/branch_detector.py:6-25 | `N.M` has the first shape and parses to (N, M) |
| BranchDetector.ParseMajorMinorPatch | src/cherry_pick_check/branch_detector.py:7-25 | `N.M.K` has the second shape and parses to (N, M, K) |
| BranchDetector.ParseMajorX | src/cherry_pick_check/branch_detector.py:8-25 | `N.x` has the third shape and parses to (N) |
| BranchDetector.ParseMajorMinorX | src/cherry_pick_check/branch_detector.py:9-25 | `N.M.x` has the fourth shape and parses to (N, M): the trailing `.x` is stripped |
| BranchDetector.ParseMinorXExample | src/cherry_pick_check/branch_detector.py:22-25 | "2.4.x" parses to (2, 4) |
| BranchDetector.ParseMajorXExample | src/cherry_pick_check/branch_detector.py:22-25 | "2.x" parses to (2) |
| BranchDetector.CompareAntisymmetric | src/cherry_pick_check/branch_detector.py:42-47 | swapping the arguments negates the comparison, so the signs are opposite or both zero |
| BranchDetector.CompareZeroIff | src/cherry_pick_check/branch_detector.py:42-47 | two versions compare equal exactly when they agree at every component, padding with zeros |
| BranchDetector.CompareAtFirstDifference | src/cherry_pick_check/branch_detector.py:42-46 | the result is the difference at the first unequal zero-padded component |
| BranchDetector.CompareTransitive | src/cherry_pick_check/branch_detector.py:42-47 | "at least as new" is transitive |
| BranchDetector.VersionOrderAntisymmetric | src/cherry_pick_check/branch_detector.py:28-47 | `_version_compare(a, b) == -_version_compare(b, a)` on branch names |
| BranchDetector.VersionOrderTransitive | src/cherry_pick_check/branch_detector.py:28-47 | `_version_compare` is a transitive order on branch names, as the sort needs |
| BranchDetector.MinorOrder | src/cherry_pick_check/branch_detector.py:22-47 | two names "M.N" and "M.K" with the same major compare by the numeric difference of their minors |
| BranchDetector.NumericOrderExample | src/cherry_pick_check/branch_detector.py:42-47 | comparison is numeric: "2.10" is newer than "2.9" |
| BranchDetector.ZeroPadding | src/cherry_pick_check/branch_detector.py:22-47 | missing components count as 0: for digit strings M, N and a zero-valued Z, "M.N" ties with "M.N.Z" and with "M.N.x" |
| BranchDetector.ShapeModes | src/cherry_pick_check/branch_detector.py:68-82 | for digit strings M, N, K: "M.N" passes in both modes, while "M.N.K" and "M.N.x" pass only when major_only is off |
| BranchDetector.MajorOnlyShape | src/cherry_pick_check/branch_detector.py:68-79 | with major_only every accepted name is digits '.' digits (with Python's `$`, optionally followed by one newline) |
| BranchDetector.SortIsNewestFirst | src/cherry_pick_check/branch_detector.py:85 | the sort leaves every entry at least as new as every later one |
| BranchDetector.SortIsPermutation | src/cherry_pick_check/branch_detector.py:85 | the sort is a permutation of its input |
| BranchDetector.SortIsStable | src/cherry_pick_check/branch_detector.py:85 | entries that compare equal keep their input order (`reverse=True` stays stable) |
| BranchDetector.SliceTo | src/cherry_pick_check/branch_detector.py:88 | `s[:n]` is a prefix of s of length min(n, \|s\|) for n ≥ 0, and of length max(\|s\| + n, 0) for negative n |
| BranchDetector.ApplyLimit | src/cherry_pick_check/branch_detector.py:87-89 | a limit of None or 0 keeps everything; a positive limit keeps the first min(limit, length) entries |
| BranchDetector.LimitedSortFacts | src/cherry_pick_check/branch_detector.py:84-89 | the sorted, limited selection is newest first and holds only selected entries; with no limit it is a permutation of the selection |
| BranchDetector.DetectReleaseBranches | src/cherry_pick_check/branch_detector.py:50-89 | the output never holds the excluded branch, holds only names of the mode's shapes, is newest first, and is the limited stable sort of the selection (a permutation of it when no limit applies) |
| BranchDetector.FilterBranches | src/cherry_pick_check/branch_detector.py:92-106 | the output is a subsequence of the targets, in target order |
| BranchDetector.FilterBranchesCount | src/cherry_pick_check/branch_detector.py:105-106 | each target that exists appears as often as in the targets; others never appear |
| BranchDetector.FilterBranchesExample | tests/test_branch_detector.py:28-41 | the two filter examples: missing targets are dropped and order is kept |
| GitHubClient.WaitSeconds | src/cherry_pick_check/github_client.py:206-207 | the wait for a reset is at least one second, and exactly one when the reset is not in the future |
| GitHubClient.HandleRateLimit | src/cherry_pick_check/github_client.py:189-228 | retry after the wait exactly when no quota remains, a reset is given, auto-wait is on and the wait is at most 120 s; raise exactly when no quota remains otherwise; throttle for a remaining count below 5 other than 0; proceed when the header is absent or at least 5 |
| GitHubClient.AutoWaitBoundary | src/cherry_pick_check/github_client.py:207-220 | with no quota left and a reset given, for every reset and time: auto-wait off raises with the wait; with auto-wait on, a reset at most 119 s ahead is waited for (a past one for exactly one second), and one 120 s or more ahead raises with its wait |
| GitHubClient.PageLoopResumes | src/cherry_pick_check/github_client.py:133-152 | the loop's state after some pages, continued, is the paging run continued after those pages |
| GitHubClient.PageRunShape | src/cherry_pick_check/github_client.py:130-135 | a run sends at least one request and at most its fuel, and its first request asks for the starting page |
| GitHubClient.PageRunTrace | src/cherry_pick_check/github_client.py:131-152 | requests are numbered consecutively; each records the oracle's answer; a retry asks for the same page again; the next page is asked for only after a full accepted page |
| GitHubClient.PageRunOk | src/cherry_pick_check/github_client.py:140-152 | a successful run ends on an accepted page shorter than 100 (possibly empty) |
| GitHubClient.PageRunItems | src/cherry_pick_check/github_client.py:140-152 | a successful run returns the items of all accepted pages, in request order |
| GitHubClient.PageRunErr | src/cherry_pick_check/github_client.py:136-138 | a rate-limit error comes from an exceeded limit on the last request; an HTTP error comes from a failure status that the rate-limit check let through, with no retry |
| GitHubClient.PageRunNaps | src/cherry_pick_check/github_client.py:209-226 | the sleeps of a run are those its decisions call for, in order |
| GitHubClient.DetailRunTrace | src/cherry_pick_check/github_client.py:100-103 | a pull fetch sends between one request and its fuel; requests are numbered consecutively, each records the oracle's answer, and every one but the last was told to retry |
| GitHubClient.DetailRunResult | src/cherry_pick_check/github_client.py:100-105 | a pull fetch succeeds exactly when its last request was accepted, and then returns that response's body |
| GitHubClient.DetailRunErr | src/cherry_pick_check/github_client.py:100-104 | a rate-limit error of a pull fetch comes from an exceeded limit on its last request, with the reported wait; an HTTP error comes from a failure status that the rate-limit check let through; running out of fuel means every fuelled request was sent |
| GitHubClient.SinceQualifiers | src/cherry_pick_check/github_client.py:64-73 | a date appends exactly " merged:>=" and the date to the undated merged query, and " created:>=" and the date to the undated open query |
| GitHubClient.QueryStates | src/cherry_pick_check/github_client.py:64-71 | the first query selects merged PRs and the second open PRs, with or without a date |
| GitHubClient.GitHubClient.constructor | src/cherry_pick_check/github_client.py:20-31 | a new client has sent nothing and slept never |
| GitHubClient.GitHubClient.SearchIssues | src/cherry_pick_check/github_client.py:121-152 | the search loop returns the paging run from page 1 on the search endpoint, sends exactly its requests and sleeps exactly its sleeps |
| GitHubClient.GitHubClient.Paginate | src/cherry_pick_check/github_client.py:154-187 | the same for a list endpoint |
| GitHubClient.GitHubClient.GetPrDetails | src/cherry_pick_check/github_client.py:90-105 | the fetch returns the retry run's result, with its requests and sleeps |
| GitHubClient.GitHubClient.GetBranches | src/cherry_pick_check/github_client.py:107-119 | the branch names are the names of the listed entries, in listing order, or the listing's error |
| GitHubClient.GitHubClient.SearchRelatedPrs | src/cherry_pick_check/github_client.py:76-88 | the related search is the search loop on the query `repo:R is:pr N in:body` |
| GitHubClient.GitHubClient.GetUserPrs | src/cherry_pick_check/github_client.py:43-74 | the merged search runs first; the open search runs only when asked for and only after a successful merged search, starting at the next request |
| GitHubClient.GitHubClient.UserPrsOrder | src/cherry_pick_check/github_client.py:63-74 | every merged-query hit comes before every open-query hit, and without open PRs the result is the merged search alone |
| CherryPickDetector.RefPatterns | src/cherry_pick_check/cherry_pick_detector.py:43-50 | six reference forms, all lower-case |
| CherryPickDetector.IsCherryPickReference | src/cherry_pick_check/cherry_pick_detector.py:18-60 | an empty body never matches; a match needs a reference form in the body or its lower-cased form, and also "pr:", "pr :" or a keyword |
| CherryPickDetector.ReferenceForms | src/cherry_pick_check/cherry_pick_detector.py:43-52 | the six reference forms and two spellings reduce to four plain substrings of the lower-cased body |
| CherryPickDetector.MatcherCharacterization | src/cherry_pick_check/cherry_pick_detector.py:34-60 | a body matches exactly when it is non-empty, holds one of "#N", "pull/N", "pr: N", "pr:N" lower-cased, and holds "pr:", "pr :" or a keyword |
| CherryPickDetector.PrColonSuffices | src/cherry_pick_check/cherry_pick_detector.py:56-58 | a "pr:N" reference matches without any keyword |
| CherryPickDetector.AbsentHead | src/cherry_pick_check/cherry_pick_detector.py:40 | a text without the first character of a word does not contain the word |
| CherryPickDetector.BareHashIsNotEnough | src/cherry_pick_check/cherry_pick_detector.py:56-60 | "unrelated text #123" does not match 123: a reference alone is not enough |
| CherryPickDetector.PrefixCollision | src/cherry_pick_check/cherry_pick_detector.py:43-60 | a keyword and "#N" followed by any text match N: "#1234" counts as a reference to 123, as there is no word-boundary check |
| CherryPickDetector.ReferenceHitIsPlain | src/cherry_pick_check/cherry_pick_detector.py:43-52 | a hit of any of the six forms, in the body or its lower-cased form, is a plain reference in the lower-cased body |
| CherryPickDetector.MatchFromHits | src/cherry_pick_check/cherry_pick_detector.py:40-60 | a keyword or "pr:" together with "#N" or "pull/N" in the lower-cased body always matches |
| CherryPickDetector.NoMarkerLetters | src/cherry_pick_check/cherry_pick_detector.py:40-56 | a lower-cased body with no 'c', 'b' or 'p' has neither a keyword nor a "pr:" prefix |
| CherryPickDetector.PrUrlLine | src/cherry_pick_check/cherry_pick_detector.py:23-58 | "pr:" followed by any text and "pull/N" matches N with no keyword, as in "pr: https://github.com/o/r/pull/N" |
| CherryPickDetector.KeywordLine | src/cherry_pick_check/cherry_pick_detector.py:22-60 | a keyword anywhere in the lower-cased body with "pr: #N" matches N, as in "Cherry-pick from master\npr: #N" |
| CherryPickDetector.ParsePrState | src/cherry_pick_check/cherry_pick_detector.py:63-84 | Merged exactly when a nested or top-level merge time is set; otherwise Closed exactly for "closed" in any letter case, and Open for everything else |
| CherryPickDetector.ParsePrStateExamples | src/cherry_pick_check/cherry_pick_detector.py:78-84 | "CLOSED" reads as Closed; "Open" and a missing state read as Open |
| CherryPickDetector.MergedWinsOverState | src/cherry_pick_check/cherry_pick_detector.py:73-75 | a merge time wins over the state string |
| CherryPickDetector.ParsePrInfo | src/cherry_pick_check/cherry_pick_detector.py:87-124 | identity fields copied; the creation time copied when truthy and otherwise absent; the merge time is present exactly when the state is Merged and prefers the nested one; the base is a non-empty override, else the record's base ref, else "unknown" |
| CherryPickDetector.Accept | src/cherry_pick_check/cherry_pick_detector.py:221-240 | a search hit contributes exactly when it is not the source PR, its body matches, its detail fetch succeeds (a rate-limit failure is swallowed) with a base ref, and that base is requested; it contributes its parsed detail under that base |
| CherryPickDetector.BranchMapKeys | src/cherry_pick_check/cherry_pick_detector.py:236-237 | every mapped branch is requested and maps to a PR based on it |
| CherryPickDetector.BranchMapDomain | src/cherry_pick_check/cherry_pick_detector.py:221-240 | a branch is mapped exactly when some hit contributes to it |
| CherryPickDetector.OverwriteDomain | src/cherry_pick_check/cherry_pick_detector.py:236-237 | a key is in the overwritten map exactly when some write targets it |
| CherryPickDetector.OverwriteLastWriter | src/cherry_pick_check/cherry_pick_detector.py:237 | a key of the overwritten map holds the value of the last write to it |
| CherryPickDetector.BranchMapLastWriter | src/cherry_pick_check/cherry_pick_detector.py:237 | a mapped branch holds what the last hit contributing to it contributed |
| CherryPickDetector.ResultFor | src/cherry_pick_check/cherry_pick_detector.py:244-262 | Picked, with the mapped PR and "PR body reference", exactly when the branch is mapped; otherwise NotPicked with neither; never Unknown |
| CherryPickDetector.Results | src/cherry_pick_check/cherry_pick_detector.py:243-264 | one result per requested branch, in the requested order: entry i is the result for branch i against the map |
| CherryPickDetector.DetectForPr | src/cherry_pick_check/cherry_pick_detector.py:199-264 | fails exactly when the related search fails; otherwise one result per requested branch in order, never Unknown, with a related PR exactly when Picked |
| CherryPickDetector.CrossResultsFails | src/cherry_pick_check/cherry_pick_detector.py:188-196 | a batch fails exactly when the search of some source PR fails |
| CherryPickDetector.CrossResultsErrSticks | src/cherry_pick_check/cherry_pick_detector.py:193-195 | the first failing source PR ends the batch with its error |
| CherryPickDetector.CrossResultsLength | src/cherry_pick_check/cherry_pick_detector.py:176-197 | a batch has sources × targets results |
| CherryPickDetector.CrossResultsCell | src/cherry_pick_check/cherry_pick_detector.py:176-197 | entry i·\|targets\|+j of a batch is source i's result for branch j |
| CherryPickDetector.DetectCherryPicks | src/cherry_pick_check/cherry_pick_detector.py:158-197 | the batch loop returns the per-PR results concatenated in source order, whatever the progress flag |
| CherryPickDetector.GetUserPrs | src/cherry_pick_check/cherry_pick_detector.py:133-156 | the user's PRs as the client lists them, each decoded with the requested base branch, or the client's error |
| CherryPickDetector.UserPrsOnBase | src/cherry_pick_check/cherry_pick_detector.py:155 | with a non-empty base branch, every listed PR is reported on that base |

## Left out

- cli.py, auth.py and output.py: argument parsing, the `gh` subprocess and environment lookup, and console and table rendering are outside the core.
- The HTTP transport is an oracle: client construction, headers, base URL, timeout and JSON decoding are not modelled. `raise_for_status` becomes the response's success flag.
- The clock and sleeping: `time.time()` is the `clock` oracle, and `time.sleep` is the ghost `sleeps` trace.
- Console messages are not modelled, and neither is the text of the rate-limit error (`fromtimestamp`/`strftime`).
- Rate-limit headers are modelled as optional integers:
  - an empty reset header counts as absent, as the source's truthiness test does;
  - a non-numeric header would make `int()` raise in the source; that case is not modelled.
- The unbounded `while True` loops take a fuel bound and report OutOfFuel when it runs out. A run that retries forever in the source is not represented.
- Generators are modelled as the lists their consumers build. Items already yielded before an error are discarded, which is what every consumer in the core does.
- `_paginate` is modelled only as it is called: on the branch-list endpoint, with no caller-supplied parameters (so the mutation of a caller's `params` dict is not modelled).
- `since` is modelled as its formatted `YYYY-MM-DD` text.
- Timestamps stay text. The ISO-8601 parsing of `_parse_pr_info` and the errors it can raise are not modelled.
- `_parse_pr_state` on a state that is JSON null would raise in the source; the model reads a missing state as "".
- Missing fields of PR records are not modelled (a record always has number, title, URL and login). The one exception is the base ref of a fetched detail, whose absence is skipped like any other detail failure.
- Character handling is ASCII only: `isdigit`, `\d` and `lower()` on non-ASCII text are not modelled.
- Detection calls the client through the two functions of `RepoApi`, rather than through the stateful client. So request numbering and sleeps across the searches and detail fetches of a batch are not threaded through detection.
- The `repo` argument enters only the client's queries and endpoint paths. `_is_cherry_pick_reference`'s unused `repo` parameter is dropped.
- The progress spinner of `detect_cherry_picks` is not modelled. The flag is a parameter that does not affect the results.
- Python's Timsort is not modelled. The sort is specified by a stable insertion sort, and the proved properties (newest first, a permutation, stable) are the ones `sorted(..., reverse=True)` promises.
- The tests for `detect_release_branches` in tests/test_branch_detector.py:9-25 call it with a keyword the function does not take, and they expect `.x` names under the default `major_only=True`. No property is taken from them.
- Pydantic validation of the records is not modelled.
