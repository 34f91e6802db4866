/** The document store every handler works on: the `users` collection keyed by
    email and the `teams` collection keyed by team name, with the handful of
    queries and writes the handlers issue against it. */
module Store {

  datatype Option<T> = None | Some(value: T)

  /** Teams hold at most this many members. */
  const MaxMembers := 4

  /** Status a request gets when the handler raises instead of returning. */
  const ServerError := 500

  /** A document of `users`; its `_id`, the email, is the key it is stored under. */
  datatype User = User(hasateam: bool, skills: seq<string>, prizes: seq<string>, potentialteams: seq<string>)

  /** A document of `teams`; its `_id`, the team name, is the key it is stored under. */
  datatype Team = Team(
    members: seq<string>,
    desc: string,
    partnerskills: seq<string>,
    prizes: seq<string>,
    complete: bool,
    interested: seq<string>)

  /** Both collections. Each order lists the keys in insertion order, the
      natural order in which queries return documents. */
  datatype State = State(
    users: map<string, User>,
    userOrder: seq<string>,
    teams: map<string, Team>,
    teamOrder: seq<string>)

  /** The status code a handler answers and the store it leaves behind. */
  datatype Step = Step(code: int, after: State)

  predicate Distinct(xs: seq<string>) {
    forall i, j :: 0 <= i < j < |xs| ==> xs[i] != xs[j]
  }

  /** `order` lists every key of `m` exactly once. */
  ghost predicate Indexes<V>(order: seq<string>, m: map<string, V>) {
    Distinct(order) && forall k :: k in m <==> k in order
  }

  ghost predicate WellFormed(s: State) {
    Indexes(s.userOrder, s.users) && Indexes(s.teamOrder, s.teams)
  }

  /** `find_one({"members": {"$all": [email]}})`: the first team in `order`
      whose members contain `email`. */
  function FirstTeamWith(order: seq<string>, teams: map<string, Team>, email: string): (r: Option<string>)
    ensures r.Some? ==> r.value in order && r.value in teams && email in teams[r.value].members
    ensures r.None? <==> forall k :: k in order && k in teams ==> email !in teams[k].members
  {
    if order == [] then None
    else if order[0] in teams && email in teams[order[0]].members then Some(order[0])
    else FirstTeamWith(order[1..], teams, email)
  }

  /** The team the store finds for a member's email. */
  function TeamOf(s: State, email: string): (r: Option<string>)
    ensures r.Some? ==> r.value in s.teams && email in s.teams[r.value].members
  {
    FirstTeamWith(s.teamOrder, s.teams, email)
  }

  /** In a well-formed store the lookup finds a team exactly when some team
      lists the email, and when only one team lists it, it finds that one. */
  lemma TeamOfFindsTheTeam(s: State, email: string, name: string)
    requires WellFormed(s)
    requires name in s.teams && email in s.teams[name].members
    ensures TeamOf(s, email).Some?
    ensures (forall k :: k in s.teams && email in s.teams[k].members ==> k == name) ==> TeamOf(s, email) == Some(name)
  {
    assert name in s.teamOrder;
  }

  /** `$pull`: every occurrence of `x` removed, the other entries kept in order. */
  function Without(xs: seq<string>, x: string): (r: seq<string>)
    ensures forall y :: y in r <==> y in xs && y != x
    ensures forall y :: y != x ==> multiset(r)[y] == multiset(xs)[y]
    ensures |r| <= |xs|
    ensures x !in xs ==> r == xs
  {
    if xs == [] then []
    else
      assert xs == [xs[0]] + xs[1..];
      if xs[0] == x then Without(xs[1..], x) else [xs[0]] + Without(xs[1..], x)
  }

  class Db {
    var users: map<string, User>
    var userOrder: seq<string>
    var teams: map<string, Team>
    var teamOrder: seq<string>

    function Snapshot(): State
      reads this
    {
      State(users, userOrder, teams, teamOrder)
    }

    ghost predicate Valid()
      reads this
    {
      WellFormed(Snapshot())
    }

    constructor ()
      ensures Valid() && Snapshot() == State(map[], [], map[], [])
    {
      users, userOrder, teams, teamOrder := map[], [], map[], [];
    }

    /** `find_one({"members": {"$all": [email]}})` on `teams`, scanning in natural order. */
    method FindTeamOf(email: string) returns (name: Option<string>)
      ensures name == TeamOf(Snapshot(), email)
    {
      var i := 0;
      while i < |teamOrder|
        invariant 0 <= i <= |teamOrder|
        invariant TeamOf(Snapshot(), email) == FirstTeamWith(teamOrder[i..], teams, email)
      {
        var k := teamOrder[i];
        assert teamOrder[i..][1..] == teamOrder[i + 1..];
        if k in teams && email in teams[k].members {
          return Some(k);
        }
        i := i + 1;
      }
      return None;
    }

    /** `update_one({"_id": email}, ...)` on `users`: applies `patch` to the
        document when it exists and matches nothing otherwise. */
    method UpdateUser(email: string, patch: User -> User)
      requires Valid()
      modifies this
      ensures Valid()
      ensures users == if email in old(users) then old(users)[email := patch(old(users)[email])] else old(users)
      ensures userOrder == old(userOrder) && teams == old(teams) && teamOrder == old(teamOrder)
    {
      if email in users {
        users := users[email := patch(users[email])];
      }
    }

    /** `insert` into `users` of a document whose `_id` is not yet taken. */
    method InsertUser(email: string, u: User)
      requires Valid() && email !in users
      modifies this
      ensures Valid()
      ensures Snapshot() == old(Snapshot()).(users := old(users)[email := u], userOrder := old(userOrder) + [email])
    {
      users := users[email := u];
      userOrder := userOrder + [email];
    }

    /** `update_one({"_id": name}, ...)` on `teams`. */
    method UpdateTeam(name: string, patch: Team -> Team)
      requires Valid()
      modifies this
      ensures Valid()
      ensures teams == if name in old(teams) then old(teams)[name := patch(old(teams)[name])] else old(teams)
      ensures users == old(users) && userOrder == old(userOrder) && teamOrder == old(teamOrder)
    {
      if name in teams {
        teams := teams[name := patch(teams[name])];
      }
    }

    /** `insert` into `teams` of a document whose `_id` is not yet taken. */
    method InsertTeam(name: string, t: Team)
      requires Valid() && name !in teams
      modifies this
      ensures Valid()
      ensures Snapshot() == old(Snapshot()).(teams := old(teams)[name := t], teamOrder := old(teamOrder) + [name])
    {
      teams := teams[name := t];
      teamOrder := teamOrder + [name];
    }
  }
}
