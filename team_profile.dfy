/** `get_team_profile` and `update_team_profile`: a member reads or edits
    the profile of the team they belong to. */
module TeamProfile {
  import opened Store

  /** The keyword arguments `update_team_profile` looks at; each is absent
      (`None`) or carries the value passed. Other keywords have no effect. */
  datatype Kwargs = Kwargs(
    desc: Option<string>,
    partnerskills: Option<seq<string>>,
    prizes: Option<seq<string>>,
    interested: Option<seq<string>>)

  const NoKwargs := Kwargs(None, None, None, None)

  function Pick<T>(given: Option<T>, stored: T): T {
    if given.Some? then given.value else stored
  }

  /** The stored team with each of the four editable fields taken from the
      keyword arguments when given. */
  function Merge(t: Team, kw: Kwargs): Team {
    t.(desc := Pick(kw.desc, t.desc),
       partnerskills := Pick(kw.partnerskills, t.partnerskills),
       prizes := Pick(kw.prizes, t.prizes),
       interested := Pick(kw.interested, t.interested))
  }

  /** The membership guards both handlers share: the caller must be in a team
      (else 401) and that team must be the one named (else 403). */
  function Guard(s: State, email: string, teamId: string): int {
    match TeamOf(s, email)
    case None => 401
    case Some(name) => if name != teamId then 403 else 200
  }

  /** What `update_team_profile` answers and leaves; `norm` is the handler's
      `strip().lower()` of the caller's email. */
  function UpdateTeamProfileOutcome(s: State, email: string, teamId: string, kw: Kwargs, norm: string -> string): Step {
    var caller := norm(email);
    if Guard(s, caller, teamId) != 200 then Step(Guard(s, caller, teamId), s)
    else Step(200, s.(teams := s.teams[teamId := Merge(s.teams[teamId], kw)]))
  }

  /** `get_team_profile` without the directory look-up of the members'
      names: the guards, then the caller's team record. */
  method GetTeamProfile(db: Db, email: string, teamId: string, norm: string -> string)
    returns (code: int, team: Option<Team>)
    ensures var found := TeamOf(db.Snapshot(), norm(email));
      && (found.None? ==> code == 401 && team.None?)
      && (found.Some? && found.value != teamId ==> code == 403 && team.None?)
      && (found == Some(teamId) ==> code == 200 && team == Some(db.teams[teamId]))
  {
    var caller := norm(email);
    var found := db.FindTeamOf(caller);
    if found.None? {
      return 401, None;
    }
    var name := found.value;
    if name != teamId {
      return 403, None;
    }
    return 200, Some(db.teams[name]);
  }

  method UpdateTeamProfile(db: Db, email: string, teamId: string, kw: Kwargs, norm: string -> string)
    returns (code: int)
    requires db.Valid()
    modifies db
    ensures db.Valid()
    ensures Step(code, db.Snapshot()) == UpdateTeamProfileOutcome(old(db.Snapshot()), email, teamId, kw, norm)
  {
    var caller := norm(email);
    var found := db.FindTeamOf(caller);
    if found.None? {
      return 401;
    }
    var name := found.value;
    if name != teamId {
      return 403;
    }
    var team := db.teams[name];
    var desc := team.desc;
    var partnerskills := team.partnerskills;
    var prizes := team.prizes;
    var interested := team.interested;
    if kw.desc.Some? {
      desc := kw.desc.value;
    }
    if kw.partnerskills.Some? {
      partnerskills := kw.partnerskills.value;
    }
    if kw.prizes.Some? {
      prizes := kw.prizes.value;
    }
    if kw.interested.Some? {
      interested := kw.interested.value;
    }
    db.UpdateTeam(name, (t: Team) => t.(desc := desc, partnerskills := partnerskills, prizes := prizes, interested := interested));
    return 200;
  }

  /** The guards: 401 for a caller in no team, 403 for a caller of another
      team, and in both cases no write. */
  lemma GuardsRejectOutsiders(s: State, email: string, teamId: string, kw: Kwargs, norm: string -> string)
    ensures var r := UpdateTeamProfileOutcome(s, email, teamId, kw, norm); var found := TeamOf(s, norm(email));
      && (r.code == 401 <==> found.None?)
      && (r.code == 403 <==> found.Some? && found.value != teamId)
      && (r.code == 200 <==> found == Some(teamId))
      && (r.code != 200 ==> r.after == s)
  {
  }

  /** Each editable field takes the keyword's value when it is given and keeps
      the stored value otherwise; `members` and `complete` never change. */
  lemma MergeFields(t: Team, kw: Kwargs)
    ensures var m := Merge(t, kw);
      && (kw.desc.Some? ==> m.desc == kw.desc.value) && (kw.desc.None? ==> m.desc == t.desc)
      && (kw.partnerskills.Some? ==> m.partnerskills == kw.partnerskills.value) && (kw.partnerskills.None? ==> m.partnerskills == t.partnerskills)
      && (kw.prizes.Some? ==> m.prizes == kw.prizes.value) && (kw.prizes.None? ==> m.prizes == t.prizes)
      && (kw.interested.Some? ==> m.interested == kw.interested.value) && (kw.interested.None? ==> m.interested == t.interested)
      && m.members == t.members && m.complete == t.complete
  {
  }

  /** With no keyword arguments the update leaves the store as it was, and
      applying the same keywords twice is the same as applying them once. */
  lemma UpdateIdempotent(s: State, email: string, teamId: string, kw: Kwargs, norm: string -> string)
    ensures UpdateTeamProfileOutcome(s, email, teamId, NoKwargs, norm).after == s
    ensures var once := UpdateTeamProfileOutcome(s, email, teamId, kw, norm);
      UpdateTeamProfileOutcome(once.after, email, teamId, kw, norm) == once
  {
    var caller := norm(email);
    if Guard(s, caller, teamId) == 200 {
      var once := UpdateTeamProfileOutcome(s, email, teamId, kw, norm);
      assert once.after.teams[teamId].members == s.teams[teamId].members;
      assert FirstTeamWith(once.after.teamOrder, once.after.teams, caller) == FirstTeamWith(s.teamOrder, s.teams, caller) by {
        SameMembersSameLookup(s.teamOrder, s.teams, once.after.teams, caller);
      }
      assert Merge(Merge(s.teams[teamId], kw), kw) == Merge(s.teams[teamId], kw);
      assert s.teams[teamId := Merge(s.teams[teamId], NoKwargs)] == s.teams;
    }
  }

  /** The membership lookup only looks at members, so a write that leaves
      every team's members alone does not change what it finds. */
  lemma {:induction false} SameMembersSameLookup(order: seq<string>, teams: map<string, Team>, teams': map<string, Team>, email: string)
    requires teams.Keys == teams'.Keys
    requires forall k :: k in teams ==> teams'[k].members == teams[k].members
    ensures FirstTeamWith(order, teams', email) == FirstTeamWith(order, teams, email)
  {
    if order != [] {
      SameMembersSameLookup(order[1..], teams, teams', email);
    }
  }

  /** The update writes only the caller's team, and there only the four
      editable fields. */
  lemma UpdateTouchesOnlyProfile(s: State, email: string, teamId: string, kw: Kwargs, norm: string -> string)
    requires WellFormed(s)
    ensures var r := UpdateTeamProfileOutcome(s, email, teamId, kw, norm);
      && WellFormed(r.after)
      && r.after.users == s.users
      && r.after.teams.Keys == s.teams.Keys
      && (forall k :: k in s.teams && k != teamId ==> r.after.teams[k] == s.teams[k])
      && (forall k :: k in s.teams ==> r.after.teams[k].members == s.teams[k].members && r.after.teams[k].complete == s.teams[k].complete)
  {
  }
}
