/** The values the reviewer package reads: the policy-evaluation result tree
    and its review-request rules, the repository directory behind the pull
    request context, the random draws, and the failure kinds. */
module Common {
  import opened Wrappers

  /** A GitHub login, team slug or organization name. */
  type Login = string

  /** Evaluation status of a node of the result tree. */
  datatype Status = Skipped | Pending | Approved | Disapproved

  /** The permission levels GitHub reports for a collaborator or a team. */
  datatype Permission = Admin | Maintain | Write | Triage | Read

  /** Breadth at which administrators are resolved; any configured value other
      than the three known scopes is kept as UnrecognizedScope. */
  datatype AdminScope = UserScope | TeamScope | OrgScope | UnrecognizedScope(name: string)

  /** Who may be requested for a pending rule, and how many of them. */
  datatype ReviewRequestRule = ReviewRequestRule(
    users: seq<Login>,
    teams: seq<string>,
    organizations: seq<string>,
    writeCollaborators: bool,
    admins: bool,
    adminScope: AdminScope,
    requiredCount: int)

  /** A node of the policy-evaluation result tree. A nil child pointer is None;
      a nil evaluation error is None. */
  datatype ResultNode = ResultNode(
    status: Status,
    error: Option<string>,
    children: seq<Option<ResultNode>>,
    rule: ReviewRequestRule)

  /** What the pull request context answers. A whole-repository listing that
      fails is None; a team, organization-member or organization-owner lookup
      fails exactly when its name is not a key of the corresponding map. */
  datatype RepoContext = RepoContext(
    author: Login,
    owner: string,
    directCollaborators: Option<map<Login, Permission>>,
    collaborators: Option<map<Login, Permission>>,
    teams: Option<map<string, Permission>>,
    teamMembers: map<string, seq<Login>>,
    orgMembers: map<string, seq<Login>>,
    orgOwners: map<string, seq<Login>>)

  /** Failure kinds; the wrapped messages of the source are not modelled. */
  datatype Error =
    | DirectCollaboratorsUnavailable
    | TeamsUnavailable
    | TeamMembersUnavailable
    | OrgMembersUnavailable
    | OrgOwnersUnavailable
    | UnknownAdminScope(scope: string)
    | CollaboratorsUnavailable
    | AdminsUnavailable(cause: Error)
    | SamplingExhausted

  /** The random generator shared by one call: an unbounded stream of raw
      draws, read at a cursor that each draw advances by one. */
  type Draws = nat -> nat

  /** `r.Intn(k)` at cursor `pos`: a draw in [0, k). */
  function Intn(draws: Draws, pos: nat, k: nat): (m: nat)
    requires 0 < k
    ensures m < k
  {
    draws(pos) % k
  }
}
