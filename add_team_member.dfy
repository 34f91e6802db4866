/** `add_member`: a team member takes a solo partner straight into the team,
    creating the partner's user record when there is none. */
module AddTeamMember {
  import opened Store

  /** The record created for a partner the store does not know yet. */
  const NewPartner := User(true, [], [], [])

  /** The store part of `add_member`: find the caller's team, refuse a full
      team, then take in the partner. */
  function AddPartnerOutcome(s: State, email: string, partner: string): Step {
    match TeamOf(s, email)
    case None => Step(405, s)
    case Some(name) =>
      var t := s.teams[name];
      var size := |t.members|;
      if t.complete || size >= MaxMembers then Step(403, s)
      else if partner !in s.users then
        Step(200, s.(users := s.users[partner := NewPartner],
                     userOrder := s.userOrder + [partner],
                     teams := s.teams[name := t.(members := t.members + [partner])]))
      else if !s.users[partner].hasateam then
        var pushed := t.(members := t.members + [partner]);
        Step(200, s.(users := s.users[partner := s.users[partner].(hasateam := true)],
                     teams := s.teams[name := if size == MaxMembers then pushed.(complete := true) else pushed]))
      else Step(406, s)
  }

  /** The whole POST handler. The directory's answers are inputs: `validated`
      (the caller's session checks out), `authOk` (the directory issued a
      token) and `partnerHasAccount` (it knows the partner). `partnerField` is
      the request body's `email`, absent when the body or the field is
      missing; `norm` is the handler's `strip().lower()`. */
  function AddMemberOutcome(
    s: State, email: string, validated: bool, partnerField: Option<string>,
    authOk: bool, partnerHasAccount: bool, norm: string -> string): Step
  {
    if !validated then Step(404, s)
    else if partnerField.None? || partnerField.value == "" then Step(400, s)
    else if !authOk then Step(401, s)
    else if !partnerHasAccount then Step(402, s)
    else AddPartnerOutcome(s, norm(email), norm(partnerField.value))
  }

  method AddMember(
    db: Db, email: string, validated: bool, partnerField: Option<string>,
    authOk: bool, partnerHasAccount: bool, norm: string -> string)
    returns (code: int)
    requires db.Valid()
    modifies db
    ensures db.Valid()
    ensures Step(code, db.Snapshot()) == AddMemberOutcome(old(db.Snapshot()), email, validated, partnerField, authOk, partnerHasAccount, norm)
  {
    var caller := norm(email);
    if !validated {
      return 404;
    }
    if partnerField.None? || partnerField.value == "" {
      return 400;
    }
    var partner := norm(partnerField.value);
    if !authOk {
      return 401;
    }
    if !partnerHasAccount {
      return 402;
    }
    var team := db.FindTeamOf(caller);
    if team.None? {
      return 405;
    }
    var name := team.value;
    var size := |db.teams[name].members|;
    var full := db.teams[name].complete;
    if full || size >= MaxMembers {
      return 403;
    }
    if partner !in db.users {
      db.InsertUser(partner, NewPartner);
      db.UpdateTeam(name, (t: Team) => t.(members := t.members + [partner]));
      return 200;
    }
    var partnerInATeam := db.users[partner].hasateam;
    if !partnerInATeam {
      db.UpdateUser(partner, (u: User) => u.(hasateam := true));
      db.UpdateTeam(name, (t: Team) => t.(members := t.members + [partner]));
      if size == MaxMembers {
        // the `$set` of `complete`: unreachable, since a team of this size
        // was refused above
        assert false;
      }
      return 200;
    }
    return 406;
  }

  /** A caller in no team gets 405 and nothing is written. */
  lemma CallerWithoutTeam(s: State, email: string, partner: string)
    requires TeamOf(s, email).None?
    ensures AddPartnerOutcome(s, email, partner) == Step(405, s)
  {
  }

  /** A full team (four members, or flagged complete) gets 403 and nothing is written. */
  lemma FullTeamRejected(s: State, email: string, partner: string)
    requires TeamOf(s, email).Some?
    ensures var t := s.teams[TeamOf(s, email).value];
      (t.complete || |t.members| >= MaxMembers) <==> AddPartnerOutcome(s, email, partner).code == 403
    ensures AddPartnerOutcome(s, email, partner).code == 403 ==> AddPartnerOutcome(s, email, partner).after == s
  {
  }

  /** An already teamed partner gets 406 and nothing is written. */
  lemma TeamedPartnerRejected(s: State, email: string, partner: string)
    requires TeamOf(s, email).Some?
    requires var t := s.teams[TeamOf(s, email).value]; !t.complete && |t.members| < MaxMembers
    ensures var r := AddPartnerOutcome(s, email, partner);
      (r.code == 406 <==> partner in s.users && s.users[partner].hasateam) && (r.code == 406 ==> r.after == s)
  {
  }

  /** On success the partner's record says it has a team, the partner is
      appended once at the end of the caller's team (the earlier members
      keep their places), the team stays within capacity, and no other
      record changes. An unknown partner's new record has empty skills and
      prizes; a known partner's record changes only in `hasateam`. */
  lemma PartnerJoins(s: State, email: string, partner: string)
    requires WellFormed(s)
    ensures var r := AddPartnerOutcome(s, email, partner);
      r.code == 200 ==>
        var name := TeamOf(s, email).value;
        var t := s.teams[name];
        && WellFormed(r.after)
        && r.after.teams.Keys == s.teams.Keys
        && r.after.teams[name].members == t.members + [partner]
        && |r.after.teams[name].members| == |t.members| + 1 <= MaxMembers
        && r.after.teams[name] == t.(members := t.members + [partner])
        && (forall k :: k in s.teams && k != name ==> r.after.teams[k] == s.teams[k])
        && r.after.users.Keys == s.users.Keys + {partner}
        && (partner !in s.users ==> r.after.users[partner] == User(true, [], [], []))
        && (partner in s.users ==> r.after.users[partner] == s.users[partner].(hasateam := true))
        && (forall e :: e in s.users && e != partner ==> r.after.users[e] == s.users[e])
  {
    var r := AddPartnerOutcome(s, email, partner);
    if r.code == 200 {
      var t := s.teams[TeamOf(s, email).value];
      assert |t.members| < MaxMembers;
      if partner !in s.users {
        assert r.after.users == s.users[partner := NewPartner];
      } else {
        assert r.after.users == s.users[partner := s.users[partner].(hasateam := true)];
      }
    }
  }

  /** The store part answers one of four codes: 405 exactly when the caller
      is in no team, 200 exactly when the team has room and the partner is
      unknown or teamless, and only 200 writes. */
  lemma AddPartnerCodes(s: State, email: string, partner: string)
    ensures var r := AddPartnerOutcome(s, email, partner);
      && r.code in {200, 403, 405, 406}
      && (r.code == 405 <==> TeamOf(s, email).None?)
      && (r.code == 200 <==>
            && TeamOf(s, email).Some?
            && var t := s.teams[TeamOf(s, email).value];
               !t.complete && |t.members| < MaxMembers && !(partner in s.users && s.users[partner].hasateam))
      && (r.code != 200 ==> r.after == s)
  {
  }

  /** The `complete` flag is never touched: the size test that would set it
      compares the size before the push with four, and such a team was
      already refused. */
  lemma CompleteNeverSet(s: State, email: string, partner: string)
    ensures var r := AddPartnerOutcome(s, email, partner);
      forall k :: k in s.teams ==> k in r.after.teams && r.after.teams[k].complete == s.teams[k].complete
  {
  }

  /** Concretely: a three-member team that takes a fourth member reaches
      capacity yet is still not flagged complete. */
  lemma FourthMemberLeavesTeamIncomplete()
    ensures var s := State(
              map["a" := User(true, [], [], []), "d" := User(false, [], [], [])], ["a", "d"],
              map["t" := Team(["a", "b", "c"], "", [], [], false, [])], ["t"]);
      var r := AddPartnerOutcome(s, "a", "d");
      r.code == 200 && |r.after.teams["t"].members| == MaxMembers && !r.after.teams["t"].complete
  {
    var s := State(
      map["a" := User(true, [], [], []), "d" := User(false, [], [], [])], ["a", "d"],
      map["t" := Team(["a", "b", "c"], "", [], [], false, [])], ["t"]);
    assert TeamOf(s, "a") == Some("t");
  }

  /** The directory and request checks come first, in this order, before
      any store check: 404, 400, 401, 402, each with no write; only when all
      of them pass does the store part decide. */
  lemma AddMemberChecksFirst(
    s: State, email: string, validated: bool, partnerField: Option<string>,
    authOk: bool, partnerHasAccount: bool, norm: string -> string)
    ensures var r := AddMemberOutcome(s, email, validated, partnerField, authOk, partnerHasAccount, norm);
      var given := partnerField.Some? && partnerField.value != "";
      && (!validated ==> r == Step(404, s))
      && (validated && !given ==> r == Step(400, s))
      && (validated && given && !authOk ==> r == Step(401, s))
      && (validated && given && authOk && !partnerHasAccount ==> r == Step(402, s))
      && (validated && given && authOk && partnerHasAccount ==>
            r == AddPartnerOutcome(s, norm(email), norm(partnerField.value)))
      && (r.code == 200 ==> validated && given && authOk && partnerHasAccount)
  {
  }
}
