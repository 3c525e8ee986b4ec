/** Selection of the reviewers to request for a pull request: for every
    pending leaf of the result tree, gather the candidates its rule names, keep
    the eligible ones other than the author, and sample the required number. */
module Reviewer {
  import opened Wrappers
  import opened Seqs
  import opened Common
  import opened LeafCollector
  import opened RandomSampler
  import opened AdminResolver

  /** selectTeamMembers: the member list of one team drawn from `allTeams`. */
  function SelectTeamMembers(ctx: RepoContext, allTeams: seq<string>, draws: Draws, pos: nat)
    : (r: (Result<seq<Login>, Error>, nat))
    requires 0 < |allTeams|
    ensures r.1 == pos + 1
    ensures r.0.Ok? ==> exists t :: t in allTeams && t in ctx.teamMembers && r.0.value == ctx.teamMembers[t]
    ensures r.0.Err? ==> r.0.error == TeamMembersUnavailable && exists t :: t in allTeams && t !in ctx.teamMembers
    ensures (forall t :: t in allTeams ==> t in ctx.teamMembers) ==> r.0.Ok?
  {
    var randomTeam := allTeams[Intn(draws, pos, |allTeams|)];
    if randomTeam in ctx.teamMembers then (Ok(ctx.teamMembers[randomTeam]), pos + 1)
    else (Err(TeamMembersUnavailable), pos + 1)
  }

  /** selectOrgMembers: the member list of one organization drawn from `allOrgs`. */
  function SelectOrgMembers(ctx: RepoContext, allOrgs: seq<string>, draws: Draws, pos: nat)
    : (r: (Result<seq<Login>, Error>, nat))
    requires 0 < |allOrgs|
    ensures r.1 == pos + 1
    ensures r.0.Ok? ==> exists o :: o in allOrgs && o in ctx.orgMembers && r.0.value == ctx.orgMembers[o]
    ensures r.0.Err? ==> r.0.error == OrgMembersUnavailable && exists o :: o in allOrgs && o !in ctx.orgMembers
    ensures (forall o :: o in allOrgs ==> o in ctx.orgMembers) ==> r.0.Ok?
  {
    var randomOrg := allOrgs[Intn(draws, pos, |allOrgs|)];
    if randomOrg in ctx.orgMembers then (Ok(ctx.orgMembers[randomOrg]), pos + 1)
    else (Err(OrgMembersUnavailable), pos + 1)
  }

  /** The members a rule's teams contribute: those of one drawn team, or none
      when there are no teams or the lookup fails; and the cursor after. */
  function TeamDraw(ctx: RepoContext, rule: ReviewRequestRule, draws: Draws, pos: nat): (r: (seq<Login>, nat))
    ensures r.0 == [] || exists t :: t in rule.teams && t in ctx.teamMembers && r.0 == ctx.teamMembers[t]
    ensures (forall t :: t in rule.teams ==> t !in ctx.teamMembers) ==> r.0 == []
    ensures r.1 == if |rule.teams| == 0 then pos else pos + 1
  {
    if |rule.teams| == 0 then ([], pos)
    else
      var (members, p) := SelectTeamMembers(ctx, rule.teams, draws, pos);
      (if members.Ok? then members.value else [], p)
  }

  /** The members a rule's organizations contribute, as TeamDraw for teams. */
  function OrgDraw(ctx: RepoContext, rule: ReviewRequestRule, draws: Draws, pos: nat): (r: (seq<Login>, nat))
    ensures r.0 == [] || exists o :: o in rule.organizations && o in ctx.orgMembers && r.0 == ctx.orgMembers[o]
    ensures (forall o :: o in rule.organizations ==> o !in ctx.orgMembers) ==> r.0 == []
    ensures r.1 == if |rule.organizations| == 0 then pos else pos + 1
  {
    if |rule.organizations| == 0 then ([], pos)
    else
      var (members, p) := SelectOrgMembers(ctx, rule.organizations, draws, pos);
      (if members.Ok? then members.value else [], p)
  }

  /** The collaborators holding exactly write permission. */
  function WriteCollaborators(collaborators: map<Login, Permission>): set<Login> {
    set u | u in collaborators && collaborators[u] == Write
  }

  /** The lookups a leaf cannot do without all succeed: the collaborator
      listing, and in admin mode the admin resolution. */
  ghost predicate Resolvable(ctx: RepoContext, rule: ReviewRequestRule) {
    ctx.collaborators.Some? && (rule.admins ==> AdminLogins(ctx, rule.adminScope).Ok?)
  }

  /** Every login gathered for a leaf before filtering: the explicit users,
      the drawn team's and organization's members, the write collaborators
      when asked for, and in admin mode the resolved admins. */
  ghost function Candidates(ctx: RepoContext, rule: ReviewRequestRule, draws: Draws, pos: nat): set<Login>
    requires Resolvable(ctx, rule)
  {
    var team := TeamDraw(ctx, rule, draws, pos);
    var org := OrgDraw(ctx, rule, draws, team.1);
    Elems(rule.users) + Elems(team.0) + Elems(org.0)
    + (if rule.writeCollaborators then WriteCollaborators(ctx.collaborators.value) else {})
    + (if rule.admins then AdminLogins(ctx, rule.adminScope).value else {})
  }

  /** The logins a leaf may request: all repository collaborators, or in
      admin mode the resolved admins only. */
  ghost function Considered(ctx: RepoContext, rule: ReviewRequestRule): set<Login>
    requires Resolvable(ctx, rule)
  {
    if rule.admins then AdminLogins(ctx, rule.adminScope).value else ctx.collaborators.value.Keys
  }

  /** The candidates that survive the final filter of a leaf. The author is
      never among them and nobody outside the considered logins is; in admin
      mode they are exactly the admins other than the author; otherwise every
      explicit user and, when asked for, every write collaborator who is a
      collaborator other than the author is among them. */
  ghost function Eligible(ctx: RepoContext, rule: ReviewRequestRule, draws: Draws, pos: nat): (e: set<Login>)
    requires Resolvable(ctx, rule)
    ensures ctx.author !in e
    ensures e <= Considered(ctx, rule)
    ensures rule.admins ==> e == AdminLogins(ctx, rule.adminScope).value - {ctx.author}
    ensures !rule.admins ==>
              && e <= ctx.collaborators.value.Keys
              && (forall u :: u in rule.users && u in ctx.collaborators.value && u != ctx.author ==> u in e)
              && (rule.writeCollaborators ==> WriteCollaborators(ctx.collaborators.value) - {ctx.author} <= e)
  {
    Candidates(ctx, rule, draws, pos) * Considered(ctx, rule) - {ctx.author}
  }

  /** Insert every login of `users` into the set `allUsers`. */
  method AddAll(allUsers: set<Login>, users: seq<Login>) returns (r: set<Login>)
    ensures r == allUsers + Elems(users)
  {
    r := allUsers;
    for k := 0 to |users|
      invariant r == allUsers + Elems(users[..k])
    {
      assert Elems(users[..k + 1]) == Elems(users[..k]) + {users[k]} by {
        assert users[..k + 1] == users[..k] + [users[k]];
      }
      r := r + {users[k]};
    }
    assert users[..|users|] == users;
  }

  /** Insert every collaborator with write permission into `allUsers`,
      walking the map in an unspecified order. */
  method AddWriteCollaborators(allUsers: set<Login>, allCollaborators: map<Login, Permission>) returns (r: set<Login>)
    ensures r == allUsers + WriteCollaborators(allCollaborators)
  {
    r := allUsers;
    var rest := allCollaborators.Keys;
    while rest != {}
      invariant rest <= allCollaborators.Keys
      invariant r == allUsers + (WriteCollaborators(allCollaborators) - rest)
      decreases |rest|
    {
      var user :| user in rest;
      if allCollaborators[user] == Write {
        r := r + {user};
      }
      rest := rest - {user};
    }
  }

  /** Insert every admin into `allUsers` and into a fresh considered map. */
  method AddAdmins(allUsers: set<Login>, admins: seq<Login>)
    returns (r: set<Login>, collaboratorsToConsider: map<Login, Permission>)
    ensures r == allUsers + Elems(admins)
    ensures collaboratorsToConsider.Keys == Elems(admins)
  {
    r := allUsers;
    collaboratorsToConsider := map[];
    for k := 0 to |admins|
      invariant r == allUsers + Elems(admins[..k])
      invariant collaboratorsToConsider.Keys == Elems(admins[..k])
    {
      assert Elems(admins[..k + 1]) == Elems(admins[..k]) + {admins[k]} by {
        assert admins[..k + 1] == admins[..k] + [admins[k]];
      }
      r := r + {admins[k]};
      collaboratorsToConsider := collaboratorsToConsider[admins[k] := Admin];
    }
    assert admins[..|admins|] == admins;
  }

  /** The final filter: list the gathered logins, in an unspecified order,
      dropping the author and everyone whom the considered map lacks. */
  method FilterCandidates(allUsers: set<Login>, collaboratorsToConsider: map<Login, Permission>, author: Login)
    returns (allUserList: seq<Login>)
    ensures NoDup(allUserList)
    ensures Elems(allUserList) == allUsers * collaboratorsToConsider.Keys - {author}
  {
    allUserList := [];
    var rest := allUsers;
    while rest != {}
      invariant rest <= allUsers
      invariant NoDup(allUserList)
      invariant forall x :: x in allUserList <==>
                  x in allUsers && x !in rest && x in collaboratorsToConsider && x != author
      decreases |rest|
    {
      var u :| u in rest;
      if u != author && u in collaboratorsToConsider {
        allUserList := allUserList + [u];
      }
      rest := rest - {u};
    }
    assert Elems(allUserList) == allUsers * collaboratorsToConsider.Keys - {author};
  }

  /** The first part of the per-leaf loop of FindRandomRequesters: the
      explicit users and the members of one drawn team and one drawn
      organization. A failed team or organization lookup is only logged and
      contributes no members. */
  method DrawnUsers(ctx: RepoContext, rule: ReviewRequestRule, draws: Draws, pos: nat)
    returns (allUsers: set<Login>, pos': nat)
    ensures allUsers == Elems(rule.users) + Elems(TeamDraw(ctx, rule, draws, pos).0)
                        + Elems(OrgDraw(ctx, rule, draws, TeamDraw(ctx, rule, draws, pos).1).0)
    ensures pos' == OrgDraw(ctx, rule, draws, TeamDraw(ctx, rule, draws, pos).1).1
  {
    allUsers := {};
    if |rule.users| > 0 {
      allUsers := AddAll(allUsers, rule.users);
    }
    pos' := pos;
    if |rule.teams| > 0 {
      var (teamMembers, next) := SelectTeamMembers(ctx, rule.teams, draws, pos');
      pos' := next;
      if teamMembers.Ok? {
        allUsers := AddAll(allUsers, teamMembers.value);
      }
    }
    ghost var afterTeams := pos';
    if |rule.organizations| > 0 {
      var (orgMembers, next) := SelectOrgMembers(ctx, rule.organizations, draws, pos');
      pos' := next;
      if orgMembers.Ok? {
        allUsers := AddAll(allUsers, orgMembers.value);
      }
    }
    assert afterTeams == TeamDraw(ctx, rule, draws, pos).1;
  }

  /** The per-leaf loop body of FindRandomRequesters up to sampling: the
      duplicate-free list of eligible candidates of one pending leaf. A failed
      collaborator listing or admin resolution is an error; a failed team or
      organization lookup is not. */
  method LeafCandidates(ctx: RepoContext, rule: ReviewRequestRule, draws: Draws, pos: nat)
    returns (res: Result<seq<Login>, Error>, pos': nat)
    ensures ctx.collaborators.None? ==> res == Err(CollaboratorsUnavailable)
    ensures ctx.collaborators.Some? && rule.admins && AdminLogins(ctx, rule.adminScope).Err? ==>
              res == Err(AdminsUnavailable(AdminLogins(ctx, rule.adminScope).error))
    ensures res.Ok? <==> Resolvable(ctx, rule)
    ensures res.Ok? ==> NoDup(res.value) && Elems(res.value) == Eligible(ctx, rule, draws, pos)
    ensures pos' == OrgDraw(ctx, rule, draws, TeamDraw(ctx, rule, draws, pos).1).1
  {
    var allUsers;
    allUsers, pos' := DrawnUsers(ctx, rule, draws, pos);

    if ctx.collaborators.None? {
      return Err(CollaboratorsUnavailable), pos';
    }
    var allCollaborators := ctx.collaborators.value;
    if rule.writeCollaborators {
      allUsers := AddWriteCollaborators(allUsers, allCollaborators);
    }

    var collaboratorsToConsider: map<Login, Permission> := map[];
    if !rule.admins {
      // not in admin mode: every collaborator may be requested
      collaboratorsToConsider := allCollaborators;
    } else {
      var admins;
      ghost var order;
      admins, order := SelectAdmins(ctx, rule.adminScope);
      if admins.Err? {
        return Err(AdminsUnavailable(admins.error)), pos';
      }
      allUsers, collaboratorsToConsider := AddAdmins(allUsers, admins.value);
    }
    assert allUsers == Candidates(ctx, rule, draws, pos);
    assert collaboratorsToConsider.Keys == Considered(ctx, rule);

    var allUserList := FilterCandidates(allUsers, collaboratorsToConsider, ctx.author);
    res := Ok(allUserList);
  }

  /** The cursor at which a leaf's sampling starts: after the team draw and
      the organization draw. */
  ghost function SamplingStart(ctx: RepoContext, rule: ReviewRequestRule, draws: Draws, pos: nat): nat {
    OrgDraw(ctx, rule, draws, TeamDraw(ctx, rule, draws, pos).1).1
  }

  /** The sampling run of a leaf gives up: the rule asks for fewer users
      than are eligible, so the picks run, and one of them exhausts its
      retries. The picks depend on the number of eligible logins only, not on
      the order in which they are listed. */
  ghost predicate SamplingFails(ctx: RepoContext, rule: ReviewRequestRule, draws: Draws, pos: nat)
    requires Resolvable(ctx, rule)
  {
    var n := rule.requiredCount;
    var len := |Eligible(ctx, rule, draws, pos)|;
    0 < n < len && PickAll(n, len, draws, SamplingStart(ctx, rule, draws, pos), []).None?
  }

  /** The cursor after a leaf whose selection succeeds: past its team and
      organization draws and, when the picks run, past all of them. */
  ghost function LeafEnd(ctx: RepoContext, rule: ReviewRequestRule, draws: Draws, pos: nat): nat {
    var start := SamplingStart(ctx, rule, draws, pos);
    if !Resolvable(ctx, rule) then start
    else
      var n := rule.requiredCount;
      var len := |Eligible(ctx, rule, draws, pos)|;
      if 0 < n < len && PickAll(n, len, draws, start, []).Some? then PickAll(n, len, draws, start, []).value.1
      else start
  }

  /** A leaf gets its reviewers: its lookups succeed and its sampling does not
      give up. */
  ghost predicate LeafSucceeds(ctx: RepoContext, rule: ReviewRequestRule, draws: Draws, pos: nat) {
    Resolvable(ctx, rule) && !SamplingFails(ctx, rule, draws, pos)
  }

  /** A leaf whose lookups succeed and whose rule asks for no users, or for
      at least as many as are eligible, draws no picks and so succeeds. */
  lemma LeafWithoutSamplingSucceeds(ctx: RepoContext, rule: ReviewRequestRule, draws: Draws, pos: nat)
    requires Resolvable(ctx, rule)
    requires rule.requiredCount <= 0 || rule.requiredCount >= |Eligible(ctx, rule, draws, pos)|
    ensures LeafSucceeds(ctx, rule, draws, pos)
    ensures LeafEnd(ctx, rule, draws, pos) == SamplingStart(ctx, rule, draws, pos)
  {
  }

  /** A leaf fails with `e` for one of the three reasons the source has: the
      collaborator listing failed, the admin resolution failed (with its
      cause), or the sampling gave up. */
  ghost predicate LeafFailsWith(ctx: RepoContext, rule: ReviewRequestRule, draws: Draws, pos: nat, e: Error) {
    || (e == CollaboratorsUnavailable && ctx.collaborators.None?)
    || (e.AdminsUnavailable? && ctx.collaborators.Some? && rule.admins &&
        AdminLogins(ctx, rule.adminScope) == Err(e.cause))
    || (e == SamplingExhausted && Resolvable(ctx, rule) && SamplingFails(ctx, rule, draws, pos))
  }

  /** A leaf's selection: no login twice, every login eligible for the leaf
      (so never the author, and only admins in admin mode), and as many as
      the rule asks for, capped at the number of eligible logins. */
  ghost predicate ValidSelection(ctx: RepoContext, rule: ReviewRequestRule, draws: Draws, pos: nat, sel: seq<Login>) {
    && Resolvable(ctx, rule)
    && NoDup(sel)
    && (forall u :: u in sel ==> u in Eligible(ctx, rule, draws, pos))
    && |sel| == if rule.requiredCount <= 0 then 0 else Min(rule.requiredCount, |Eligible(ctx, rule, draws, pos)|)
  }

  /** One iteration of the per-leaf loop of FindRandomRequesters: the
      candidates of the leaf, then the random selection among them. */
  method LeafRequesters(ctx: RepoContext, rule: ReviewRequestRule, draws: Draws, pos: nat)
    returns (res: Result<seq<Login>, Error>, pos': nat)
    ensures res.Ok? <==> LeafSucceeds(ctx, rule, draws, pos)
    ensures res.Ok? ==> ValidSelection(ctx, rule, draws, pos, res.value) && pos' == LeafEnd(ctx, rule, draws, pos)
    ensures res.Err? ==> LeafFailsWith(ctx, rule, draws, pos, res.error)
    ensures ctx.collaborators.None? ==> res == Err(CollaboratorsUnavailable)
  {
    var candidates;
    candidates, pos' := LeafCandidates(ctx, rule, draws, pos);
    if candidates.Err? {
      return Err(candidates.error), pos';
    }
    ghost var afterDraws := pos';
    NoDupCard(candidates.value);
    var randomSelection;
    randomSelection, pos' := SelectRandomUsers(rule.requiredCount, candidates.value, draws, pos');
    SampleProperties(rule.requiredCount, candidates.value, draws, afterDraws);
    if randomSelection.Err? {
      return Err(randomSelection.error), pos';
    }
    res := Ok(randomSelection.value);
  }

  /** The cursor at which the next leaf of a run starts: where the last
      processed leaf ended, or `pos` before the first. */
  function NextStart(pos: nat, ends: seq<nat>): nat {
    if |ends| == 0 then pos else ends[|ends| - 1]
  }

  /** Each leaf of a run starts where the one before it ended, the first at
      `pos`. */
  ghost predicate Chained(pos: nat, starts: seq<nat>, ends: seq<nat>) {
    |starts| == |ends| && (|starts| > 0 ==> starts == [pos] + ends[..|ends| - 1])
  }

  /** Adding one leaf that starts where the run stands, whatever its end,
      keeps the run chained. */
  lemma ChainedSnoc(pos: nat, starts: seq<nat>, ends: seq<nat>, e: nat)
    requires Chained(pos, starts, ends)
    ensures Chained(pos, starts + [NextStart(pos, ends)], ends + [e])
  {
    var i := |starts|;
    if i > 0 {
      assert (ends + [e])[..i] == ends;
      assert ends == ends[..i - 1] + [ends[i - 1]];
    }
  }

  /** The cursors of a run over `leaves` from `pos`, as far as it got: leaf
      `k` starts drawing at `starts[k]` and, when it succeeds, leaves the
      cursor at `ends[k]`; each leaf starts where the one before it ended. */
  ghost predicate CursorChain(ctx: RepoContext, leaves: seq<ResultNode>, draws: Draws, pos: nat,
                              starts: seq<nat>, ends: seq<nat>) {
    && Chained(pos, starts, ends)
    && |starts| <= |leaves|
    && forall k :: 0 <= k < |ends| ==> ends[k] == LeafEnd(ctx, leaves[k].rule, draws, starts[k])
  }

  /** A further leaf, which starts where the run stands, extends the cursor
      chain by its own start and end. */
  lemma ChainSnoc(ctx: RepoContext, leaves: seq<ResultNode>, draws: Draws, pos: nat,
                  starts: seq<nat>, ends: seq<nat>)
    requires CursorChain(ctx, leaves, draws, pos, starts, ends) && |starts| < |leaves|
    ensures var start := NextStart(pos, ends);
            CursorChain(ctx, leaves, draws, pos, starts + [start],
                        ends + [LeafEnd(ctx, leaves[|starts|].rule, draws, start)])
  {
    var i := |starts|;
    var start := NextStart(pos, ends);
    var e := LeafEnd(ctx, leaves[i].rule, draws, start);
    ChainedSnoc(pos, starts, ends, e);
    var starts', ends' := starts + [start], ends + [e];
    forall k | 0 <= k <= i ensures ends'[k] == LeafEnd(ctx, leaves[k].rule, draws, starts'[k]) {
      if k < i {
        assert ends'[k] == ends[k] && starts'[k] == starts[k];
      }
    }
  }

  /** The first `|perLeaf|` leaves were processed and each succeeded: at the
      cursors of CursorChain, each leaf's selection is valid. */
  ghost predicate Processed(ctx: RepoContext, leaves: seq<ResultNode>, draws: Draws, pos: nat,
                            perLeaf: seq<seq<Login>>, starts: seq<nat>, ends: seq<nat>) {
    && CursorChain(ctx, leaves, draws, pos, starts, ends)
    && |perLeaf| == |starts|
    && (forall k :: 0 <= k < |starts| ==> LeafSucceeds(ctx, leaves[k].rule, draws, starts[k]))
    && (forall k :: 0 <= k < |starts| ==> ValidSelection(ctx, leaves[k].rule, draws, starts[k], perLeaf[k]))
  }

  /** A further leaf that succeeds with a valid selection extends the
      processed run by one. */
  lemma ProcessedSnoc(ctx: RepoContext, leaves: seq<ResultNode>, draws: Draws, pos: nat,
                      perLeaf: seq<seq<Login>>, starts: seq<nat>, ends: seq<nat>, sel: seq<Login>)
    requires Processed(ctx, leaves, draws, pos, perLeaf, starts, ends) && |starts| < |leaves|
    requires LeafSucceeds(ctx, leaves[|starts|].rule, draws, NextStart(pos, ends))
    requires ValidSelection(ctx, leaves[|starts|].rule, draws, NextStart(pos, ends), sel)
    ensures var start := NextStart(pos, ends);
            Processed(ctx, leaves, draws, pos, perLeaf + [sel], starts + [start],
                      ends + [LeafEnd(ctx, leaves[|starts|].rule, draws, start)])
  {
    var i := |starts|;
    var start := NextStart(pos, ends);
    ChainSnoc(ctx, leaves, draws, pos, starts, ends);
    var perLeaf', starts' := perLeaf + [sel], starts + [start];
    forall k | 0 <= k <= i
      ensures LeafSucceeds(ctx, leaves[k].rule, draws, starts'[k])
      ensures ValidSelection(ctx, leaves[k].rule, draws, starts'[k], perLeaf'[k])
    {
      if k < i {
        assert perLeaf'[k] == perLeaf[k] && starts'[k] == starts[k];
      }
    }
  }

  /** A run stopped at its last started leaf, which failed with `e`: every
      leaf before it succeeded. */
  ghost predicate FailedAt(ctx: RepoContext, leaves: seq<ResultNode>, draws: Draws, pos: nat,
                           starts: seq<nat>, ends: seq<nat>, e: Error) {
    && CursorChain(ctx, leaves, draws, pos, starts, ends)
    && 0 < |starts|
    && (forall k :: 0 <= k < |starts| - 1 ==> LeafSucceeds(ctx, leaves[k].rule, draws, starts[k]))
    && LeafFailsWith(ctx, leaves[|starts| - 1].rule, draws, starts[|starts| - 1], e)
  }

  /** A further leaf that fails ends a processed run as a failed one. */
  lemma FailedSnoc(ctx: RepoContext, leaves: seq<ResultNode>, draws: Draws, pos: nat,
                   perLeaf: seq<seq<Login>>, starts: seq<nat>, ends: seq<nat>, e: Error)
    requires Processed(ctx, leaves, draws, pos, perLeaf, starts, ends) && |starts| < |leaves|
    requires LeafFailsWith(ctx, leaves[|starts|].rule, draws, NextStart(pos, ends), e)
    ensures var start := NextStart(pos, ends);
            FailedAt(ctx, leaves, draws, pos, starts + [start],
                     ends + [LeafEnd(ctx, leaves[|starts|].rule, draws, start)], e)
  {
    var start := NextStart(pos, ends);
    ChainSnoc(ctx, leaves, draws, pos, starts, ends);
    var starts' := starts + [start];
    forall k | 0 <= k < |starts| ensures LeafSucceeds(ctx, leaves[k].rule, draws, starts'[k]) {
      assert starts'[k] == starts[k];
    }
  }

  /** The loop of FindRandomRequesters over the pending leaves. The ghost
      `starts` and `ends` hold the cursors of the leaves it processed, fixed
      by CursorChain; on failure the last of them is the leaf that failed. */
  method RequestersForLeaves(ctx: RepoContext, leaves: seq<ResultNode>, draws: Draws, pos: nat)
    returns (res: Result<seq<Login>, Error>, pos': nat, ghost perLeaf: seq<seq<Login>>,
             ghost starts: seq<nat>, ghost ends: seq<nat>)
    ensures CursorChain(ctx, leaves, draws, pos, starts, ends)
    ensures leaves == [] ==> res == Ok([]) && pos' == pos
    ensures leaves != [] && ctx.collaborators.None? ==> res == Err(CollaboratorsUnavailable)
    ensures res.Ok? ==>
              && Processed(ctx, leaves, draws, pos, perLeaf, starts, ends) && |starts| == |leaves|
              && res.value == Flatten(perLeaf) && pos' == NextStart(pos, ends)
    ensures res.Err? ==> FailedAt(ctx, leaves, draws, pos, starts, ends, res.error)
    ensures (forall k, p :: 0 <= k < |leaves| ==> LeafSucceeds(ctx, leaves[k].rule, draws, p)) ==> res.Ok?
    ensures res.Ok? ==> ctx.author !in res.value
  {
    var requestedUsers: seq<Login> := [];
    perLeaf, starts, ends := [], [], [];
    pos' := pos;
    for i := 0 to |leaves|
      invariant Processed(ctx, leaves, draws, pos, perLeaf, starts, ends) && |starts| == i
      invariant pos' == NextStart(pos, ends)
      invariant requestedUsers == Flatten(perLeaf)
      invariant ctx.author !in requestedUsers
    {
      var rule := leaves[i].rule;
      ghost var start := pos';
      var randomSelection;
      randomSelection, pos' := LeafRequesters(ctx, rule, draws, pos');
      if randomSelection.Err? {
        FailedSnoc(ctx, leaves, draws, pos, perLeaf, starts, ends, randomSelection.error);
        return Err(randomSelection.error), pos', perLeaf, starts + [start], ends + [LeafEnd(ctx, rule, draws, start)];
      }
      ProcessedSnoc(ctx, leaves, draws, pos, perLeaf, starts, ends, randomSelection.value);
      FlattenSnoc(perLeaf, randomSelection.value);
      requestedUsers := requestedUsers + randomSelection.value;
      perLeaf, starts, ends := perLeaf + [randomSelection.value], starts + [start], ends + [pos'];
    }
    res := Ok(requestedUsers);
  }

  /** FindRandomRequesters: the reviewers for every pending leaf, leaf after
      leaf; the first failing leaf aborts the whole call. `perLeaf` holds
      each leaf's selection, `starts` and `ends` its cursors. */
  method FindRandomRequesters(ctx: RepoContext, result: ResultNode, draws: Draws, pos: nat)
    returns (res: Result<seq<Login>, Error>, pos': nat, ghost perLeaf: seq<seq<Login>>,
             ghost starts: seq<nat>, ghost ends: seq<nat>)
    ensures CursorChain(ctx, FindLeafChildren(result), draws, pos, starts, ends)
    ensures FindLeafChildren(result) == [] ==> res == Ok([]) && pos' == pos
    ensures FindLeafChildren(result) != [] && ctx.collaborators.None? ==> res == Err(CollaboratorsUnavailable)
    ensures res.Ok? ==>
              && Processed(ctx, FindLeafChildren(result), draws, pos, perLeaf, starts, ends)
              && |starts| == |FindLeafChildren(result)|
              && res.value == Flatten(perLeaf) && pos' == NextStart(pos, ends)
    ensures res.Err? ==> FailedAt(ctx, FindLeafChildren(result), draws, pos, starts, ends, res.error)
    ensures (forall k, p :: 0 <= k < |FindLeafChildren(result)| ==>
               LeafSucceeds(ctx, FindLeafChildren(result)[k].rule, draws, p)) ==> res.Ok?
    ensures res.Ok? ==> ctx.author !in res.value
  {
    var pendingLeafNodes := FindLeafChildren(result);
    res, pos', perLeaf, starts, ends := RequestersForLeaves(ctx, pendingLeafNodes, draws, pos);
  }
}
