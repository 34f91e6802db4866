/** `create_team`: a founder starts a team under a fresh name. */
module StartATeam {
  import opened Store

  /** The record stored for a team its founder has just created. */
  function NewTeam(email: string, desc: string, skills: seq<string>, prizes: seq<string>): Team {
    Team([email], desc, skills, prizes, false, [])
  }

  /** What `create_team` answers and the store it leaves: the guards run in
      the order user exists (403), name free (401), user teamless (402). */
  function CreateTeamOutcome(s: State, teamName: string, email: string, desc: string, skills: seq<string>, prizes: seq<string>): Step {
    if email !in s.users then Step(403, s)
    else if teamName in s.teams then Step(401, s)
    else if s.users[email].hasateam then Step(402, s)
    else
      Step(200, s.(users := s.users[email := s.users[email].(hasateam := true)],
                   teams := s.teams[teamName := NewTeam(email, desc, skills, prizes)],
                   teamOrder := s.teamOrder + [teamName]))
  }

  method CreateTeam(db: Db, teamName: string, email: string, desc: string, skills: seq<string>, prizes: seq<string>)
    returns (code: int)
    requires db.Valid()
    modifies db
    ensures db.Valid()
    ensures Step(code, db.Snapshot()) == CreateTeamOutcome(old(db.Snapshot()), teamName, email, desc, skills, prizes)
  {
    var teamExists := teamName in db.teams;
    var userExists := email in db.users;
    if !userExists {
      return 403;
    }
    if teamExists {
      return 401;
    }
    var userInATeam := db.users[email].hasateam;
    if userInATeam {
      return 402;
    }
    db.UpdateUser(email, (u: User) => u.(hasateam := true));
    db.InsertTeam(teamName, NewTeam(email, desc, skills, prizes));
    return 200;
  }

  /** A missing founder is reported first: 403 even when the name is taken too. */
  lemma MissingUserComesFirst(s: State, teamName: string, email: string, desc: string, skills: seq<string>, prizes: seq<string>)
    ensures var r := CreateTeamOutcome(s, teamName, email, desc, skills, prizes);
      (r.code == 403 <==> email !in s.users) && (r.code == 403 ==> r.after == s)
  {
  }

  /** A taken name gives 401 for an existing founder, with no write. */
  lemma TakenNameRejected(s: State, teamName: string, email: string, desc: string, skills: seq<string>, prizes: seq<string>)
    requires email in s.users
    ensures var r := CreateTeamOutcome(s, teamName, email, desc, skills, prizes);
      (r.code == 401 <==> teamName in s.teams) && (r.code == 401 ==> r.after == s)
  {
  }

  /** A founder who already has a team gets 402, with no write. */
  lemma TeamedFounderRejected(s: State, teamName: string, email: string, desc: string, skills: seq<string>, prizes: seq<string>)
    requires email in s.users && teamName !in s.teams
    ensures var r := CreateTeamOutcome(s, teamName, email, desc, skills, prizes);
      (r.code == 402 <==> s.users[email].hasateam) && (r.code == 402 ==> r.after == s)
  {
  }

  /** On success the founder is marked as teamed, the new team holds exactly
      the founder with the given description, skills and prizes, and no
      other record of either collection changes. */
  lemma CreateTeamSuccess(s: State, teamName: string, email: string, desc: string, skills: seq<string>, prizes: seq<string>)
    requires WellFormed(s)
    ensures var r := CreateTeamOutcome(s, teamName, email, desc, skills, prizes);
      r.code == 200 ==>
        && WellFormed(r.after)
        && r.after.users.Keys == s.users.Keys
        && r.after.users[email] == s.users[email].(hasateam := true)
        && (forall e :: e in s.users && e != email ==> r.after.users[e] == s.users[e])
        && r.after.teams.Keys == s.teams.Keys + {teamName}
        && teamName !in s.teams
        && r.after.teams[teamName].members == [email]
        && !r.after.teams[teamName].complete
        && r.after.teams[teamName].interested == []
        && r.after.teams[teamName].desc == desc
        && r.after.teams[teamName].partnerskills == skills
        && r.after.teams[teamName].prizes == prizes
        && (forall k :: k in s.teams ==> r.after.teams[k] == s.teams[k])
  {
  }

  /** Every path ends in exactly one of the four codes, and the store is
      written exactly on success. */
  lemma CreateTeamCodes(s: State, teamName: string, email: string, desc: string, skills: seq<string>, prizes: seq<string>)
    ensures var r := CreateTeamOutcome(s, teamName, email, desc, skills, prizes);
      && r.code in {200, 401, 402, 403}
      && (r.code == 200 <==> email in s.users && teamName !in s.teams && !s.users[email].hasateam)
      && (r.code != 200 ==> r.after == s)
  {
  }
}
