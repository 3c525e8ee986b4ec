/** Resolution of the administrators to request for a rule in admin mode, at
    user, team or organization scope. */
module AdminResolver {
  import opened Wrappers
  import opened Seqs
  import opened Common

  /** The name a repository team is looked up under: `owner/team`. */
  function FullTeamName(owner: string, team: string): string {
    owner + "/" + team
  }

  /** The keys of a permission map whose permission is Admin. */
  function AdminKeys(perms: map<string, Permission>): set<string> {
    set u | u in perms && perms[u] == Admin
  }

  /** The repository's admin teams whose member lookup fails. */
  function FailingAdminTeams(ctx: RepoContext, teams: map<string, Permission>): set<string> {
    set t | t in AdminKeys(teams) && FullTeamName(ctx.owner, t) !in ctx.teamMembers
  }

  /** The members of the given teams, listed team after team in that order. */
  function TeamsMembers(ctx: RepoContext, order: seq<string>): (r: seq<Login>)
    requires forall t :: t in order ==> FullTeamName(ctx.owner, t) in ctx.teamMembers
  {
    if |order| == 0 then []
    else TeamsMembers(ctx, order[..|order| - 1]) + ctx.teamMembers[FullTeamName(ctx.owner, order[|order| - 1])]
  }

  /** The set of administrators a scope resolves to, or why it cannot be
      resolved. Team scope takes the union of the members of every team with
      admin permission and fails if any of those lookups fails; organization
      scope takes the owners of the organization that owns the repository. */
  ghost function AdminLogins(ctx: RepoContext, scope: AdminScope): Result<set<Login>, Error> {
    match scope
    case UserScope =>
      if ctx.directCollaborators.None? then Err(DirectCollaboratorsUnavailable)
      else Ok(AdminKeys(ctx.directCollaborators.value))
    case TeamScope =>
      if ctx.teams.None? then Err(TeamsUnavailable)
      else if FailingAdminTeams(ctx, ctx.teams.value) != {} then Err(TeamMembersUnavailable)
      else Ok(set t, u | t in AdminKeys(ctx.teams.value) && FullTeamName(ctx.owner, t) in ctx.teamMembers
                         && u in ctx.teamMembers[FullTeamName(ctx.owner, t)] :: u)
    case OrgScope =>
      if ctx.owner !in ctx.orgOwners then Err(OrgOwnersUnavailable)
      else Ok(Elems(ctx.orgOwners[ctx.owner]))
    case UnrecognizedScope(name) => Err(UnknownAdminScope(name))
  }

  /** A login is in the member list of some teams exactly when it is a member
      of one of them. */
  lemma {:induction false} InTeamsMembers(ctx: RepoContext, order: seq<string>, u: Login)
    requires forall t :: t in order ==> FullTeamName(ctx.owner, t) in ctx.teamMembers
    ensures u in TeamsMembers(ctx, order) <==>
            exists t :: t in order && u in ctx.teamMembers[FullTeamName(ctx.owner, t)]
  {
    if |order| > 0 {
      var init := order[..|order| - 1];
      var last := order[|order| - 1];
      InTeamsMembers(ctx, init, u);
      assert forall t :: t in order <==> t in init || t == last;
    }
  }

  /** The user-scope loop of selectAdmins: the direct collaborators with admin
      permission, in the unspecified order the map is walked in. */
  method RepoAdmins(direct: map<Login, Permission>) returns (repoAdmins: seq<Login>)
    ensures NoDup(repoAdmins) && Elems(repoAdmins) == AdminKeys(direct)
  {
    repoAdmins := [];
    var rest := direct.Keys;
    while rest != {}
      invariant rest <= direct.Keys
      invariant NoDup(repoAdmins)
      invariant forall u :: u in repoAdmins ==> u !in rest
      invariant Elems(repoAdmins) == AdminKeys(direct) - rest
      decreases |rest|
    {
      var user :| user in rest;
      if direct[user] == Admin {
        assert Elems(repoAdmins + [user]) == Elems(repoAdmins) + {user};
        repoAdmins := repoAdmins + [user];
      }
      rest := rest - {user};
    }
  }

  /** The team-scope loop of selectAdmins: the members of every admin team,
      looked up as `owner/team`, team after team in the unspecified order
      `order` the map is walked in; the first failed lookup aborts with no
      partial list. */
  method AdminTeamMembers(ctx: RepoContext, teams: map<string, Permission>)
    returns (res: Result<seq<Login>, Error>, ghost order: seq<string>)
    ensures res.Err? <==> FailingAdminTeams(ctx, teams) != {}
    ensures res.Err? ==> res.error == TeamMembersUnavailable
    ensures res.Ok? ==>
              && NoDup(order) && Elems(order) == AdminKeys(teams)
              && (forall t :: t in order ==> FullTeamName(ctx.owner, t) in ctx.teamMembers)
              && res.value == TeamsMembers(ctx, order)
  {
    var adminUsers: seq<Login> := [];
    order := [];
    var rest := teams.Keys;
    while rest != {}
      invariant rest <= teams.Keys
      invariant NoDup(order) && (forall t :: t in order ==> t !in rest)
      invariant Elems(order) == AdminKeys(teams) - rest
      invariant forall t :: t in order ==> FullTeamName(ctx.owner, t) in ctx.teamMembers
      invariant adminUsers == TeamsMembers(ctx, order)
      decreases |rest|
    {
      var team :| team in rest;
      if teams[team] == Admin {
        var fullTeamName := FullTeamName(ctx.owner, team);
        if fullTeamName !in ctx.teamMembers {
          assert team in FailingAdminTeams(ctx, teams);
          return Err(TeamMembersUnavailable), order;
        }
        adminUsers := adminUsers + ctx.teamMembers[fullTeamName];
        assert Elems(order + [team]) == Elems(order) + {team};
        order := order + [team];
      }
      rest := rest - {team};
    }
    forall t | t in AdminKeys(teams) ensures FullTeamName(ctx.owner, t) in ctx.teamMembers {
      assert t in Elems(order);
    }
    assert FailingAdminTeams(ctx, teams) == {};
    res := Ok(adminUsers);
  }

  /** The admin logins an admin-team member list yields are the team-scope
      admin set. */
  lemma AdminTeamMembersAreTeamAdmins(ctx: RepoContext, order: seq<string>)
    requires ctx.teams.Some? && Elems(order) == AdminKeys(ctx.teams.value)
    requires forall t :: t in order ==> FullTeamName(ctx.owner, t) in ctx.teamMembers
    requires FailingAdminTeams(ctx, ctx.teams.value) == {}
    ensures Elems(TeamsMembers(ctx, order)) == AdminLogins(ctx, TeamScope).value
  {
    var teams := ctx.teams.value;
    forall u ensures u in TeamsMembers(ctx, order) <==> u in AdminLogins(ctx, TeamScope).value {
      InTeamsMembers(ctx, order, u);
      if u in TeamsMembers(ctx, order) {
        var t :| t in order && u in ctx.teamMembers[FullTeamName(ctx.owner, t)];
        assert t in Elems(order);
      }
      if u in AdminLogins(ctx, TeamScope).value {
        var t :| t in AdminKeys(teams) && FullTeamName(ctx.owner, t) in ctx.teamMembers
                 && u in ctx.teamMembers[FullTeamName(ctx.owner, t)];
        assert t in Elems(order);
      }
    }
  }

  /** selectAdmins: resolve the admin logins of a scope. An unrecognized scope
      is an error, never a default. */
  method SelectAdmins(ctx: RepoContext, scope: AdminScope)
    returns (res: Result<seq<Login>, Error>, ghost order: seq<string>)
    ensures res.Err? <==> AdminLogins(ctx, scope).Err?
    ensures res.Err? ==> res.error == AdminLogins(ctx, scope).error
    ensures res.Ok? ==> Elems(res.value) == AdminLogins(ctx, scope).value
    ensures res.Ok? && scope.UserScope? ==> NoDup(res.value)
    ensures res.Ok? && scope.OrgScope? ==> res.value == ctx.orgOwners[ctx.owner]
    ensures res.Ok? && scope.TeamScope? ==>
              && NoDup(order) && Elems(order) == AdminKeys(ctx.teams.value)
              && (forall t :: t in order ==> FullTeamName(ctx.owner, t) in ctx.teamMembers)
              && res.value == TeamsMembers(ctx, order)
  {
    var adminUsers: seq<Login> := [];
    order := [];
    match scope {
      case UserScope =>
        if ctx.directCollaborators.None? {
          return Err(DirectCollaboratorsUnavailable), order;
        }
        var repoAdmins := RepoAdmins(ctx.directCollaborators.value);
        adminUsers := adminUsers + repoAdmins;
      case TeamScope =>
        if ctx.teams.None? {
          return Err(TeamsUnavailable), order;
        }
        var members;
        members, order := AdminTeamMembers(ctx, ctx.teams.value);
        if members.Err? {
          return Err(members.error), order;
        }
        AdminTeamMembersAreTeamAdmins(ctx, order);
        adminUsers := adminUsers + members.value;
      case OrgScope =>
        if ctx.owner !in ctx.orgOwners {
          return Err(OrgOwnersUnavailable), order;
        }
        var orgOwners := ctx.orgOwners[ctx.owner];
        for k := 0 to |orgOwners|
          invariant adminUsers == orgOwners[..k]
        {
          adminUsers := adminUsers + [orgOwners[k]];
        }
        assert orgOwners[..|orgOwners|] == orgOwners;
      case UnrecognizedScope(name) =>
        // unknown option: no assumption about which admins are meant
        return Err(UnknownAdminScope(name)), order;
    }
    res := Ok(adminUsers);
  }
}
