# Reviewer selection of policy-bot, modelled in Dafny

policy-bot evaluates an approval policy for a pull request and produces a
tree of results. Its reviewer package (`policy/reviewer/reviewer.go`) picks
the users to request reviews from. It works in four steps:

- **Leaf collection.** It collects the pending rules at the leaves of the
  result tree.
- **Candidate gathering.** For each leaf it collects candidates:
  - the rule's explicit users;
  - the members of one randomly drawn team;
  - the members of one randomly drawn organization;
  - the write collaborators, when the rule asks for them;
  - in admin mode, the administrators of a user, team or organization scope.
- **Filtering.** It drops the pull request's author and everyone who may not
  be requested. That is everyone who is not a repository collaborator, or in
  admin mode everyone who is not a resolved administrator.
- **Sampling.** It samples the rule's required number of candidates, without
  reuse and with a bounded number of retries per pick.

The project has seven modules, one per file:

| file | module | contents |
|---|---|---|
| `wrappers.dfy` | `Wrappers` | `Option` and `Result` |
| `seqs.dfy` | `Seqs` | element sets, duplicate-freedom and flattening of sequences, with their lemmas |
| `common.dfy` | `Common` | the values the package reads (see below) |
| `leaves.dfy` | `LeafCollector` | `findLeafChildren` and its soundness, completeness and order lemmas |
| `sampler.dfy` | `RandomSampler` | `selectRandomUsers` |
| `admins.dfy` | `AdminResolver` | `selectAdmins` |
| `reviewer.dfy` | `Reviewer` | `selectTeamMembers`, `selectOrgMembers` and `FindRandomRequesters` |

`Common` defines these values:

- **The result tree.** `ResultNode` is a node. Nil children and nil errors
  are `None`.
- **The review-request rule.** `ReviewRequestRule`.
- **The pull-request context.** `RepoContext` is the directory of the
  repository. A whole listing that fails is `None`. A keyed lookup of a team,
  organization members or organization owners fails when its key is absent.
- **The random generator.** It is an unbounded stream `Draws` of raw draws,
  read at a cursor `pos`. Every operation that draws takes the cursor and
  returns the cursor after its draws. `r.Intn(k)` is `draws(pos) % k`.
- **The failure kinds.**

Nearly every loop of the source is a Dafny `method` with a loop:

- the sampler's two nested loops;
- the scope loops of `selectAdmins`;
- the per-leaf loop of `FindRandomRequesters` and the loops inside it.

The one exception is the loop over `result.Children` in `findLeafChildren`
(`policy/reviewer/reviewer.go:36-43`). That loop only accumulates the result
of a recursive call, so it is modelled by the recursive function
`ChildLeaves`.

Each method is proved against a specification function:

| method in the source | specification function |
|---|---|
| `selectRandomUsers` | `Pick`, `PickAll` and `Sample` |
| `selectAdmins` | `AdminLogins` |
| a leaf of `FindRandomRequesters` | `Candidates`, `Considered`, `Eligible`, `SamplingFails` and `LeafEnd` |
| the loop over the leaves | `CursorChain`, `Processed` and `FailedAt` |

The properties are stated about those functions. A Go `range` over a map
walks the map in an unspecified order. It is modelled as a loop that removes
an arbitrary `:|`-chosen key from the set of keys it has not visited yet, so
the proofs hold for every order.

The comment at `policy/reviewer/reviewer.go:62` reads like a cap of
`n*5` attempts for the whole sampling run. The code (`policy/reviewer/reviewer.go:59-74`)
instead resets the counter `j` for every pick. It gives up only when one
pick has had `5 * n + 1` failed draws, because the test `j > n*5` runs
before each draw. The model follows the code: `Pick` has `limit` `5 * n`,
and `DrawUnselected` takes its caller's `limit`, which is `n * 5`.

`RequiredCount` is a Go `int`, so it can be negative. A negative count
passes the test `n == 0`, fails the test `n >= len(users)`, and skips the
selection loop, so the leaf gets no users. `SelectRandomUsers` models that.

Cursors pin every leaf to the draws it makes. Leaf `k` of a run starts
drawing at `starts[k]` and ends at `ends[k]`. `CursorChain` says that the
first leaf starts at the caller's cursor, and that each later leaf starts
where the leaf before it ended. `LeafEnd` gives each leaf's end: after the
team draw, the organization draw and the picks. The picks depend only on
the number of eligible logins, so the end is determined even though the
candidate list comes out of a map walk in no fixed order. A leaf fails by
sampling (`SamplingFails`) exactly when its rule asks for more than zero
but fewer than the eligible users, and one pick exhausts its retries at
that leaf's cursor.

## Model

| member | source | states |
|---|---|---|
| LeafCollector.FindLeafChildren | policy/reviewer/reviewer.go:29-46 | every node it returns is childless, Pending and has no error |
| LeafCollector.ChildLeaves | policy/reviewer/reviewer.go:36-43 | the loop over children returns only childless, Pending, error-free nodes |
| LeafCollector.CollectedLeafHasPendingPath | policy/reviewer/reviewer.go:29-46 | every collected leaf is reached from the root along a path of non-nil Pending children |
| LeafCollector.PendingPathLeafIsCollected | policy/reviewer/reviewer.go:29-46 | every childless, Pending, error-free node reached along non-nil Pending children is collected |
| LeafCollector.CollectedIffReachable | policy/reviewer/reviewer.go:29-46 | a node is collected if and only if it is reviewable and reachable along non-nil Pending children |
| LeafCollector.LeavesInChildOrder | policy/reviewer/reviewer.go:35-44 | depth-first, left-to-right order: a node with children yields each non-nil Pending child's leaves, concatenated in child order |
| LeafCollector.ChildLeavesInOrder | policy/reviewer/reviewer.go:36-43 | the loop from child `i` on yields the concatenated contributions of children `i` onwards |
| Common.Intn | policy/reviewer/reviewer.go:67 | a draw of `r.Intn(k)` lies in `[0, k)` |
| RandomSampler.Pick | policy/reviewer/reviewer.go:59-74 | a pick that succeeds yields an index below the list length that is not yet selected, and advances the cursor |
| RandomSampler.PickFailsIff | policy/reviewer/reviewer.go:59-74 | a pick fails (the source panics) exactly when each of its remaining `limit + 1 - j` allowed draws hits an index already selected |
| RandomSampler.PickAll | policy/reviewer/reviewer.go:58-76 | a successful run of picks yields exactly `n` pairwise-distinct in-range indices, extends the ones already chosen, and never moves the cursor back |
| RandomSampler.SampleProperties | policy/reviewer/reviewer.go:49-77 | a sample fails only by sampling exhaustion and only when `0 < n < len(users)`; a successful one holds only listed users, `min(n, len(users))` of them (none for `n <= 0`), with no duplicates when `users` has none |
| RandomSampler.DrawUnselected | policy/reviewer/reviewer.go:60-74 | the retry loop, with `j` starting at 0 for each pick, returns the first fresh index within the bound, exactly as `Pick` says, or fails exactly when `Pick` fails |
| RandomSampler.SelectRandomUsers | policy/reviewer/reviewer.go:49-77 | equals `Sample`: no users for `n == 0` and for negative `n`; `users` unchanged, with no draw, when `n >= len(users)`; otherwise exactly `n` users from distinct indices, or the sampling failure |
| RandomSampler.DrawSelections | policy/reviewer/reviewer.go:58-76 | the outer loop keeps `selected` the same size as `selections` and yields the users at `PickAll`'s distinct indices, or fails exactly when a pick fails |
| Reviewer.SelectTeamMembers | policy/reviewer/reviewer.go:79-86 | one draw; on success the member list of a team in `allTeams`; otherwise the lookup error for a team in `allTeams`; always success when every team's lookup succeeds |
| Reviewer.SelectOrgMembers | policy/reviewer/reviewer.go:88-95 | as for teams: one draw, and the member list of a listed organization or the lookup error |
| Reviewer.TeamDraw | policy/reviewer/reviewer.go:172-180 | the teams' contribution is a listed team's members or nothing; nothing when every lookup fails; one draw only when the rule has teams |
| Reviewer.OrgDraw | policy/reviewer/reviewer.go:182-190 | the organizations' contribution is a listed organization's members or nothing; nothing when every lookup fails; one draw only when the rule has organizations |
| AdminResolver.RepoAdmins | policy/reviewer/reviewer.go:104-118 | user scope: exactly the direct collaborators with admin permission, each once |
| AdminResolver.InTeamsMembers | policy/reviewer/reviewer.go:127-136 | a login is in the concatenated member lists exactly when it belongs to one of the teams |
| AdminResolver.AdminTeamMembers | policy/reviewer/reviewer.go:119-137 | team scope: fails, with no partial list, exactly when some admin team's `owner/team` lookup fails; otherwise the concatenation of the members of every admin team, each team once |
| AdminResolver.AdminTeamMembersAreTeamAdmins | policy/reviewer/reviewer.go:119-137 | the concatenated admin-team members are exactly the team-scope admin set |
| AdminResolver.SelectAdmins | policy/reviewer/reviewer.go:97-154 | fails exactly when the scope's resolution fails, with its error: a failed initial listing in any scope, a failed team lookup, or an unrecognized scope; otherwise yields the scope's admin set; at user scope with no duplicates; at org scope the owner organization's owners verbatim |
| Reviewer.Eligible | policy/reviewer/reviewer.go:206-231 | the logins that survive filtering: never the author, only logins in the considered set; in admin mode exactly the admins other than the author; otherwise only collaborators, including every collaborator named among the explicit users and every write collaborator when asked for |
| Reviewer.AddAll | policy/reviewer/reviewer.go:166-170 | inserting a list into the candidate set adds exactly the list's elements |
| Reviewer.AddWriteCollaborators | policy/reviewer/reviewer.go:198-204 | the map walk adds exactly the collaborators with write permission |
| Reviewer.AddAdmins | policy/reviewer/reviewer.go:213-220 | every admin is added to the candidates, and the considered map holds exactly the admins |
| Reviewer.FilterCandidates | policy/reviewer/reviewer.go:223-231 | the candidate list has no duplicates and is exactly the candidates in the considered map other than the author |
| Reviewer.DrawnUsers | policy/reviewer/reviewer.go:164-190 | the candidates so far are the explicit users plus the drawn team's and organization's contributions; a failed lookup contributes nothing and is not an error |
| Reviewer.LeafCandidates | policy/reviewer/reviewer.go:164-231 | a failed collaborator listing or admin resolution is an error; success exactly when neither fails, so team and organization failures are not fatal; on success a duplicate-free list of exactly the eligible logins |
| Reviewer.LeafWithoutSamplingSucceeds | policy/reviewer/reviewer.go:50-56 | a leaf whose lookups succeed and that asks for no users or for at least as many as are eligible succeeds, and draws nothing after the team and organization draws |
| Reviewer.LeafRequesters | policy/reviewer/reviewer.go:164-235 | success exactly when the leaf's lookups succeed and its sampling does not give up; then a selection with no duplicates, only eligible logins (never the author, only admins in admin mode), `min(requiredCount, candidate count)` of them (0 for a count of 0 or less), and the cursor at `LeafEnd`; a failure is a failed collaborator listing, a failed admin resolution with its cause, or exhausted sampling while `0 < requiredCount < candidate count` |
| Reviewer.ChainedSnoc | policy/reviewer/reviewer.go:163 | a further leaf that starts where the run stands keeps every leaf starting where the previous one ended |
| Reviewer.ChainSnoc | policy/reviewer/reviewer.go:163-236 | a further leaf extends the cursor chain with its start and its `LeafEnd` |
| Reviewer.ProcessedSnoc | policy/reviewer/reviewer.go:163-236 | a further leaf that succeeds with a valid selection extends the run of processed leaves |
| Reviewer.FailedSnoc | policy/reviewer/reviewer.go:163-236 | a further leaf that fails, after leaves that all succeeded, makes the run a failed one at that leaf |
| Reviewer.RequestersForLeaves | policy/reviewer/reviewer.go:160-238 | the leaves' cursors form a chain from the caller's cursor; on success every leaf succeeded at its own cursor with a valid selection, the output is the selections concatenated in leaf order, without the author, and the cursor is the last leaf's end; on failure every earlier leaf succeeded and the last started leaf fails with the returned error at its cursor; the call succeeds when every leaf would succeed at any cursor |
| Reviewer.FindRandomRequesters | policy/reviewer/reviewer.go:156-239 | the same for the collected pending leaves: no leaves gives no users and no draw; a failed collaborator listing with pending leaves fails the call; the call succeeds when every leaf would succeed at any cursor, otherwise it fails at the first failing leaf, for that leaf's reason |

## Left out

- Logging through `zerolog` and the `context.Context` parameter are not modelled. They are side channels only.
- Error messages are not modelled. The error values of `errors.Wrap`, `errors.Wrapf`, `errors.Errorf` and `fmt.Sprintf`, and the repository name used only in those messages, become the failure kinds of `Common.Error`.
- The `pull.Context` directory calls are not modelled. `TeamMembers`, `OrganizationMembers`, `OrganizationOwners`, `RepositoryCollaborators`, `DirectRepositoryCollaborators`, `Teams`, `RepositoryOwner` and `Author` are remote I/O. They become the fields of `RepoContext`, fixed for one call.
- The model reads each listing as one fixed value, while the source fetches `RepositoryCollaborators` again for every leaf. If two fetches in one call disagreed, the model would not capture it.
- Common.Intn: the internals of `math/rand` are not modelled, and nothing is claimed about uniformity. Each `r.Intn(k)` is one draw from the supplied stream, reduced into `[0, k)`, so the model does not capture that `math/rand` may consume several raw values for one call.
- The order in which Go walks a map is not fixed by the model. A map walk picks any unvisited key, so `FilterCandidates`, `RepoAdmins` and `AdminTeamMembers` give every order the source could produce. The model does not predict which one.
- RandomSampler.SelectRandomUsers: the source panics when a pick's retries run out. The model returns `SamplingExhausted` instead, and it does not specify the cursor after such a failure.
- The concrete strings behind `common.GithubAdminPermission`, `common.GithubWritePermission` and the `common.AdminScope` values are not modelled: the `common` package is not part of this model. `Permission` and `AdminScope` are enumerations, and a scope string other than the three known ones becomes `UnrecognizedScope`.
- A node's `ReviewRequestRule` pointer is always present in the model. The source would dereference a nil pointer and crash, and that crash is not modelled.
- The multiplication `n*5` is unbounded in the model. Overflow of Go's `int` there is not modelled, because it needs a required count near 2^63.
