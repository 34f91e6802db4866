/** `confirm(email, hacker)`: a team takes in a solo user who had shown
    interest in it. */
module ConfirmMember {
  import opened Store

  /** The caller's team record after the hacker is pushed onto `members`
      and pulled from `interested`. */
  function Absorbed(t: Team, hacker: string): Team {
    t.(members := t.members + [hacker], interested := Without(t.interested, hacker))
  }

  /** The hacker's record after `hasateam` is set and the team is pulled
      from `potentialteams`. */
  function Joined(u: User, name: string): User {
    u.(hasateam := true, potentialteams := Without(u.potentialteams, name))
  }

  /** What `confirm` answers and leaves. A caller in no team makes the
      handler subscript a missing document, so the request fails with a
      server error. The two user writes match nothing when the hacker has
      no record; the team writes happen regardless. */
  function ConfirmOutcome(s: State, email: string, hacker: string): Step {
    match TeamOf(s, email)
    case None => Step(ServerError, s)
    case Some(name) =>
      var t := s.teams[name];
      if |t.members| >= MaxMembers || t.complete then Step(402, s)
      else
        var users := if hacker in s.users then s.users[hacker := Joined(s.users[hacker], name)] else s.users;
        Step(200, s.(users := users, teams := s.teams[name := Absorbed(t, hacker)]))
  }

  method Confirm(db: Db, email: string, hacker: string) returns (code: int)
    requires db.Valid()
    modifies db
    ensures db.Valid()
    ensures Step(code, db.Snapshot()) == ConfirmOutcome(old(db.Snapshot()), email, hacker)
  {
    var team := db.FindTeamOf(email);
    if team.None? {
      return ServerError;
    }
    var name := team.value;
    var teamMembers := db.teams[name].members;
    var complete := db.teams[name].complete;
    if |teamMembers| >= MaxMembers || complete {
      return 402;
    }
    MarkJoined(db, hacker, name);
    TakeIn(db, name, hacker);
    return 200;
  }

  /** The two writes to the hacker's user record. */
  method MarkJoined(db: Db, hacker: string, name: string)
    requires db.Valid()
    modifies db
    ensures db.Valid()
    ensures db.users == if hacker in old(db.users) then old(db.users)[hacker := Joined(old(db.users)[hacker], name)] else old(db.users)
    ensures db.userOrder == old(db.userOrder) && db.teams == old(db.teams) && db.teamOrder == old(db.teamOrder)
  {
    db.UpdateUser(hacker, (u: User) => u.(hasateam := true));
    db.UpdateUser(hacker, (u: User) => u.(potentialteams := Without(u.potentialteams, name)));
  }

  /** The two writes to the team record. */
  method TakeIn(db: Db, name: string, hacker: string)
    requires db.Valid() && name in db.teams
    modifies db
    ensures db.Valid()
    ensures db.teams == old(db.teams)[name := Absorbed(old(db.teams)[name], hacker)]
    ensures db.users == old(db.users) && db.userOrder == old(db.userOrder) && db.teamOrder == old(db.teamOrder)
  {
    db.UpdateTeam(name, (t: Team) => t.(members := t.members + [hacker]));
    db.UpdateTeam(name, (t: Team) => t.(interested := Without(t.interested, hacker)));
  }

  /** The server error happens exactly when the caller is in no team, and
      writes nothing; the only other answers are 402 and 200. */
  lemma ServerErrorExactly(s: State, email: string, hacker: string)
    ensures var r := ConfirmOutcome(s, email, hacker);
      && (r.code == ServerError <==> TeamOf(s, email).None?)
      && (r.code == ServerError ==> r.after == s)
      && r.code in {ServerError, 402, 200}
  {
  }

  /** A full team (four members, or flagged complete) gets 402 and nothing
      is written. */
  lemma FullTeamRejected(s: State, email: string, hacker: string)
    requires TeamOf(s, email).Some?
    ensures var t := s.teams[TeamOf(s, email).value]; var r := ConfirmOutcome(s, email, hacker);
      ((|t.members| >= MaxMembers || t.complete) <==> r.code == 402) && (r.code == 402 ==> r.after == s)
  {
  }

  /** On success: a known hacker's record has `hasateam` set and no longer
      lists the team among its potential teams, and changes in nothing else;
      the hacker is appended to the team's members, which grow by exactly
      one and stay within capacity; every occurrence of the hacker leaves
      `interested` while its other entries keep their multiplicities; no
      other record changes. */
  lemma HackerJoins(s: State, email: string, hacker: string)
    requires WellFormed(s)
    ensures var r := ConfirmOutcome(s, email, hacker);
      r.code == 200 ==>
        var name := TeamOf(s, email).value;
        var t := s.teams[name];
        var t' := r.after.teams[name];
        && WellFormed(r.after)
        && r.after.users.Keys == s.users.Keys
        && (hacker in s.users ==>
              && r.after.users[hacker].hasateam
              && name !in r.after.users[hacker].potentialteams
              && (forall p :: p != name ==> (p in r.after.users[hacker].potentialteams <==> p in s.users[hacker].potentialteams))
              && (forall p :: p != name ==> multiset(r.after.users[hacker].potentialteams)[p] == multiset(s.users[hacker].potentialteams)[p])
              && r.after.users[hacker].skills == s.users[hacker].skills
              && r.after.users[hacker].prizes == s.users[hacker].prizes)
        && (forall e :: e in s.users && e != hacker ==> r.after.users[e] == s.users[e])
        && r.after.teams.Keys == s.teams.Keys
        && t'.members == t.members + [hacker]
        && |t'.members| == |t.members| + 1 <= MaxMembers
        && hacker !in t'.interested
        && (forall x :: x != hacker ==> multiset(t'.interested)[x] == multiset(t.interested)[x])
        && t'.desc == t.desc && t'.partnerskills == t.partnerskills && t'.prizes == t.prizes && t'.complete == t.complete
        && (forall k :: k in s.teams && k != name ==> r.after.teams[k] == s.teams[k])
  {
  }

  /** Whether `confirm` succeeds does not depend on the users collection at
      all, so in particular not on whether the hacker already has a team. */
  lemma OutcomeIgnoresHackerRecord(s: State, email: string, hacker: string, users: map<string, User>)
    ensures ConfirmOutcome(s, email, hacker).code == ConfirmOutcome(s.(users := users), email, hacker).code
  {
  }

  /** Concretely: a hacker already in another team is taken in anyway and
      ends up listed by both teams. */
  lemma TeamedHackerJoinsSecondTeam()
    ensures var s := State(
              map["a" := User(true, [], [], []), "h" := User(true, [], [], [])], ["a", "h"],
              map["t" := Team(["a"], "", [], [], false, ["h"]), "u" := Team(["h"], "", [], [], false, [])], ["t", "u"]);
      var r := ConfirmOutcome(s, "a", "h");
      r.code == 200 && "h" in r.after.teams["t"].members && "h" in r.after.teams["u"].members
  {
    var s := State(
      map["a" := User(true, [], [], []), "h" := User(true, [], [], [])], ["a", "h"],
      map["t" := Team(["a"], "", [], [], false, ["h"]), "u" := Team(["h"], "", [], [], false, [])], ["t", "u"]);
    assert TeamOf(s, "a") == Some("t");
  }
}
