/** The consistency the handlers keep between the two collections: a user is
    marked as teamed exactly when one team lists them, teams list distinct
    members, at most four of them, and every listed member has a record. */
module MembershipInvariant {
  import opened Store
  import StartATeam
  import AddTeamMember
  import ConfirmMember
  import TeamProfile
  import UserProfile

  ghost predicate InTeam(s: State, k: string, e: string) {
    k in s.teams && e in s.teams[k].members
  }

  ghost predicate Consistent(s: State) {
    && WellFormed(s)
    && (forall k :: k in s.teams ==> Distinct(s.teams[k].members) && |s.teams[k].members| <= MaxMembers)
    && (forall k, e :: InTeam(s, k, e) ==> e in s.users && s.users[e].hasateam)
    && (forall k, k', e :: InTeam(s, k, e) && InTeam(s, k', e) ==> k == k')
    && (forall e :: e in s.users && s.users[e].hasateam ==> exists k :: InTeam(s, k, e))
  }

  /** No team is flagged complete. */
  ghost predicate NoneComplete(s: State) {
    forall k :: k in s.teams ==> !s.teams[k].complete
  }

  /** In a consistent store a user without a record, or whose record says
      teamless, is listed by no team. */
  lemma TeamlessInNoTeam(s: State, e: string, k: string)
    requires Consistent(s)
    requires e !in s.users || !s.users[e].hasateam
    ensures !InTeam(s, k, e)
  {
  }

  lemma {:induction false} DistinctSnoc(xs: seq<string>, x: string)
    requires Distinct(xs) && x !in xs
    ensures Distinct(xs + [x])
  {
    var ys := xs + [x];
    forall i, j | 0 <= i < j < |ys|
      ensures ys[i] != ys[j]
    {
      if j < |xs| {
        assert ys[i] == xs[i] && ys[j] == xs[j];
      } else {
        assert ys[i] == xs[i];
      }
    }
  }

  /** Taking a member `p` into team `name`: the team's members grow by `p`
      at the end, `p`'s record becomes `u` with `hasateam` set, and nothing
      else that the invariant reads changes. If `p` was listed by no team
      and the team had room, the store stays consistent. */
  lemma {:induction false} JoinKeepsConsistent(s: State, s': State, name: string, p: string)
    requires Consistent(s)
    requires name in s.teams && |s.teams[name].members| < MaxMembers
    requires forall k :: !InTeam(s, k, p)
    requires WellFormed(s')
    requires s'.teams.Keys == s.teams.Keys
    requires s'.teams[name].members == s.teams[name].members + [p]
    requires forall k :: k in s.teams && k != name ==> s'.teams[k].members == s.teams[k].members
    requires s'.users.Keys == s.users.Keys + {p}
    requires s'.users[p].hasateam
    requires forall e :: e in s.users && e != p ==> s'.users[e] == s.users[e]
    ensures Consistent(s')
  {
    assert p !in s.teams[name].members by {
      assert !InTeam(s, name, p);
    }
    DistinctSnoc(s.teams[name].members, p);
    forall k, e | InTeam(s', k, e)
      ensures e in s'.users && s'.users[e].hasateam
    {
      if e != p {
        assert InTeam(s, k, e);
      }
    }
    forall k, k', e | InTeam(s', k, e) && InTeam(s', k', e)
      ensures k == k'
    {
      if e == p {
        assert k == name && k' == name by {
          if k != name { assert InTeam(s, k, p); }
          if k' != name { assert InTeam(s, k', p); }
        }
      } else {
        assert InTeam(s, k, e) && InTeam(s, k', e);
      }
    }
    forall e | e in s'.users && s'.users[e].hasateam
      ensures exists k :: InTeam(s', k, e)
    {
      if e == p {
        assert InTeam(s', name, p);
      } else {
        var k :| InTeam(s, k, e);
        assert InTeam(s', k, e);
      }
    }
  }

  lemma CreateTeamKeepsConsistent(s: State, teamName: string, email: string, desc: string, skills: seq<string>, prizes: seq<string>)
    requires Consistent(s)
    ensures var after := StartATeam.CreateTeamOutcome(s, teamName, email, desc, skills, prizes).after;
      Consistent(after) && (NoneComplete(s) ==> NoneComplete(after))
  {
    var r := StartATeam.CreateTeamOutcome(s, teamName, email, desc, skills, prizes);
    if r.code == 200 {
      var s' := r.after;
      StartATeam.CreateTeamSuccess(s, teamName, email, desc, skills, prizes);
      forall k, e | InTeam(s', k, e)
        ensures e in s'.users && s'.users[e].hasateam
      {
        if k != teamName {
          assert InTeam(s, k, e);
        }
      }
      forall k, k', e | InTeam(s', k, e) && InTeam(s', k', e)
        ensures k == k'
      {
        if k == teamName || k' == teamName {
          assert e == email;
          TeamlessInNoTeam(s, email, k);
          TeamlessInNoTeam(s, email, k');
        } else {
          assert InTeam(s, k, e) && InTeam(s, k', e);
        }
      }
      forall e | e in s'.users && s'.users[e].hasateam
        ensures exists k :: InTeam(s', k, e)
      {
        if e == email {
          assert InTeam(s', teamName, email);
        } else {
          var k :| InTeam(s, k, e);
          assert InTeam(s', k, e);
        }
      }
    }
  }

  lemma AddMemberKeepsConsistent(
    s: State, email: string, validated: bool, partnerField: Option<string>,
    authOk: bool, partnerHasAccount: bool, norm: string -> string)
    requires Consistent(s)
    ensures var after := AddTeamMember.AddMemberOutcome(s, email, validated, partnerField, authOk, partnerHasAccount, norm).after;
      Consistent(after) && (NoneComplete(s) ==> NoneComplete(after))
  {
    var r := AddTeamMember.AddMemberOutcome(s, email, validated, partnerField, authOk, partnerHasAccount, norm);
    AddTeamMember.CompleteNeverSet(s, norm(email), if partnerField.Some? then norm(partnerField.value) else "");
    if r.code == 200 {
      var caller := norm(email);
      var partner := norm(partnerField.value);
      AddTeamMember.PartnerJoins(s, caller, partner);
      var name := TeamOf(s, caller).value;
      forall k
        ensures !InTeam(s, k, partner)
      {
        TeamlessInNoTeam(s, partner, k);
      }
      JoinKeepsConsistent(s, r.after, name, partner);
    }
  }

  /** `confirm` keeps the store consistent when the hacker has a record that
      says teamless; the handler itself does not check this. */
  lemma ConfirmKeepsConsistent(s: State, email: string, hacker: string)
    requires Consistent(s)
    requires hacker in s.users && !s.users[hacker].hasateam
    ensures var after := ConfirmMember.ConfirmOutcome(s, email, hacker).after;
      Consistent(after) && (NoneComplete(s) ==> NoneComplete(after))
  {
    var r := ConfirmMember.ConfirmOutcome(s, email, hacker);
    if r.code == 200 {
      ConfirmMember.HackerJoins(s, email, hacker);
      var name := TeamOf(s, email).value;
      forall k
        ensures !InTeam(s, k, hacker)
      {
        TeamlessInNoTeam(s, hacker, k);
      }
      JoinKeepsConsistent(s, r.after, name, hacker);
    }
  }

  /** Without that check, `confirm` can leave a user listed by two teams:
      here the hacker already belongs to team "u" when team "t" takes them. */
  lemma ConfirmCanBreakConsistency()
    ensures var s := State(
              map["a" := User(true, [], [], []), "h" := User(true, [], [], [])], ["a", "h"],
              map["t" := Team(["a"], "", [], [], false, ["h"]), "u" := Team(["h"], "", [], [], false, [])], ["t", "u"]);
      Consistent(s) && !Consistent(ConfirmMember.ConfirmOutcome(s, "a", "h").after)
  {
    var s := State(
      map["a" := User(true, [], [], []), "h" := User(true, [], [], [])], ["a", "h"],
      map["t" := Team(["a"], "", [], [], false, ["h"]), "u" := Team(["h"], "", [], [], false, [])], ["t", "u"]);
    assert InTeam(s, "t", "a");
    assert InTeam(s, "u", "h");
    ConfirmMember.TeamedHackerJoinsSecondTeam();
    var s' := ConfirmMember.ConfirmOutcome(s, "a", "h").after;
    assert InTeam(s', "t", "h") && InTeam(s', "u", "h");
  }

  /** Nor does `confirm` check that the hacker has a record at all: here an
      unknown hacker is listed by team "t" without any user record. */
  lemma ConfirmUnknownHackerBreaksConsistency()
    ensures var s := State(map["a" := User(true, [], [], [])], ["a"], map["t" := Team(["a"], "", [], [], false, [])], ["t"]);
      var s' := ConfirmMember.ConfirmOutcome(s, "a", "h").after;
      Consistent(s) && InTeam(s', "t", "h") && "h" !in s'.users && !Consistent(s')
  {
    var s := State(map["a" := User(true, [], [], [])], ["a"], map["t" := Team(["a"], "", [], [], false, [])], ["t"]);
    assert InTeam(s, "t", "a");
    assert TeamOf(s, "a") == Some("t");
    var s' := ConfirmMember.ConfirmOutcome(s, "a", "h").after;
    assert InTeam(s', "t", "h") && "h" !in s'.users;
  }

  lemma UpdateTeamProfileKeepsConsistent(s: State, email: string, teamId: string, kw: TeamProfile.Kwargs, norm: string -> string)
    requires Consistent(s)
    ensures var after := TeamProfile.UpdateTeamProfileOutcome(s, email, teamId, kw, norm).after;
      Consistent(after) && (NoneComplete(s) ==> NoneComplete(after))
  {
    var s' := TeamProfile.UpdateTeamProfileOutcome(s, email, teamId, kw, norm).after;
    TeamProfile.UpdateTouchesOnlyProfile(s, email, teamId, kw, norm);
    assert forall k, e :: InTeam(s', k, e) <==> InTeam(s, k, e);
    forall e | e in s'.users && s'.users[e].hasateam
      ensures exists k :: InTeam(s', k, e)
    {
      var k :| InTeam(s, k, e);
      assert InTeam(s', k, e);
    }
  }

  lemma UpdateProfileKeepsConsistent(
    s: State, email: string, validated: bool, skillsField: Option<string>,
    prizesField: Option<string>, format: string -> seq<string>)
    requires Consistent(s)
    ensures var after := UserProfile.UpdateProfileOutcome(s, email, validated, skillsField, prizesField, format).after;
      Consistent(after) && (NoneComplete(s) ==> NoneComplete(after))
  {
    var r := UserProfile.UpdateProfileOutcome(s, email, validated, skillsField, prizesField, format);
    if r.code == 200 || r.code == 201 {
      UserProfile.ProfileWritten(s, email, skillsField.value, prizesField, format);
      UsersRewriteKeepsConsistent(s, r.after);
    }
  }

  /** A write to the users collection alone that keeps every `hasateam` flag
      and adds only teamless records keeps the store consistent. */
  lemma {:induction false} UsersRewriteKeepsConsistent(s: State, s': State)
    requires Consistent(s)
    requires WellFormed(s') && s'.teams == s.teams
    requires forall e :: e in s.users ==> e in s'.users && s'.users[e].hasateam == s.users[e].hasateam
    requires forall e :: e in s'.users && e !in s.users ==> !s'.users[e].hasateam
    ensures Consistent(s')
  {
    forall k, e | InTeam(s', k, e)
      ensures e in s'.users && s'.users[e].hasateam
    {
      assert InTeam(s, k, e);
    }
    forall k, k', e | InTeam(s', k, e) && InTeam(s', k', e)
      ensures k == k'
    {
      assert InTeam(s, k, e) && InTeam(s, k', e);
    }
    forall e | e in s'.users && s'.users[e].hasateam
      ensures exists k :: InTeam(s', k, e)
    {
      var k :| InTeam(s, k, e);
      assert InTeam(s', k, e);
    }
  }
}
