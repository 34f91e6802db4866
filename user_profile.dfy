/** The POST branch of `update_profile`: a user creates or rewrites their
    skills and prizes. */
module UserProfile {
  import opened Store

  /** The record created for a user writing a profile for the first time. */
  function NewProfile(skills: seq<string>, prizes: seq<string>): User {
    User(false, skills, prizes, [])
  }

  /** What the POST branch answers and leaves. `validated` is the directory's
      answer for the caller's session; `skillsField` and `prizesField` are the
      body's fields, absent when the body or the field is missing; `format`
      is the handler's normalisation of a field (`format_string` of
      `strip().lower()`). */
  function UpdateProfileOutcome(
    s: State, email: string, validated: bool, skillsField: Option<string>,
    prizesField: Option<string>, format: string -> seq<string>): Step
  {
    if !validated then Step(404, s)
    else if skillsField.None? || skillsField.value == "" then Step(400, s)
    else
      var prizes := if prizesField.None? then [] else format(prizesField.value);
      var skills := format(skillsField.value);
      if email in s.users then
        Step(200, s.(users := s.users[email := s.users[email].(skills := skills, prizes := prizes)]))
      else
        Step(201, s.(users := s.users[email := NewProfile(skills, prizes)], userOrder := s.userOrder + [email]))
  }

  method UpdateProfile(
    db: Db, email: string, validated: bool, skillsField: Option<string>,
    prizesField: Option<string>, format: string -> seq<string>)
    returns (code: int)
    requires db.Valid()
    modifies db
    ensures db.Valid()
    ensures Step(code, db.Snapshot()) == UpdateProfileOutcome(old(db.Snapshot()), email, validated, skillsField, prizesField, format)
  {
    if !validated {
      return 404;
    }
    if skillsField.None? || skillsField.value == "" {
      return 400;
    }
    var prizes: seq<string>;
    if prizesField.None? {
      prizes := [];
    } else {
      prizes := format(prizesField.value);
    }
    var skills := format(skillsField.value);
    if email in db.users {
      db.UpdateUser(email, (u: User) => u.(skills := skills, prizes := prizes));
      return 200;
    }
    db.InsertUser(email, NewProfile(skills, prizes));
    return 201;
  }

  /** A failed session check gives 404 whatever the body, with no write. */
  lemma UnvalidatedRejected(s: State, email: string, skillsField: Option<string>, prizesField: Option<string>, format: string -> seq<string>)
    ensures UpdateProfileOutcome(s, email, false, skillsField, prizesField, format) == Step(404, s)
  {
  }

  /** Missing or empty skills give 400 and nothing is written. */
  lemma MissingSkillsRejected(s: State, email: string, skillsField: Option<string>, prizesField: Option<string>, format: string -> seq<string>)
    ensures var r := UpdateProfileOutcome(s, email, true, skillsField, prizesField, format);
      (r.code == 400 <==> skillsField.None? || skillsField.value == "") && (r.code == 400 ==> r.after == s)
  {
  }

  /** A well-formed request writes exactly the caller's record: an existing
      one gets the new skills and prizes (absent prizes become `[]`) and keeps
      `hasateam` and `potentialteams`, answering 200; a new one is created
      teamless with no potential teams, answering 201. Afterwards the caller
      has exactly one record and no other record has changed. */
  lemma ProfileWritten(s: State, email: string, skills: string, prizesField: Option<string>, format: string -> seq<string>)
    requires WellFormed(s)
    requires skills != ""
    ensures var r := UpdateProfileOutcome(s, email, true, Some(skills), prizesField, format);
      var prizes := if prizesField.None? then [] else format(prizesField.value);
      && WellFormed(r.after)
      && r.after.users.Keys == s.users.Keys + {email}
      && (forall e :: e in s.users && e != email ==> r.after.users[e] == s.users[e])
      && r.after.teams == s.teams
      && r.after.users[email].skills == format(skills)
      && r.after.users[email].prizes == prizes
      && (email in s.users ==>
            && r.code == 200
            && r.after.users[email].hasateam == s.users[email].hasateam
            && r.after.users[email].potentialteams == s.users[email].potentialteams
            && r.after.userOrder == s.userOrder)
      && (email !in s.users ==>
            && r.code == 201
            && !r.after.users[email].hasateam
            && r.after.users[email].potentialteams == []
            && r.after.userOrder == s.userOrder + [email])
      && multiset(r.after.userOrder)[email] == 1
  {
    var r := UpdateProfileOutcome(s, email, true, Some(skills), prizesField, format);
    if email in s.users {
      OnceInIndex(s.userOrder, s.users, email);
    } else {
      OnceInIndex(r.after.userOrder, r.after.users, email);
    }
  }

  /** A key of an indexed map occurs exactly once in its order. */
  lemma {:induction false} OnceInIndex<V>(order: seq<string>, m: map<string, V>, k: string)
    requires Indexes(order, m) && k in m
    ensures multiset(order)[k] == 1
  {
    var i :| 0 <= i < |order| && order[i] == k;
    assert order == order[..i] + [k] + order[i + 1..];
    assert k !in order[..i] && k !in order[i + 1..];
  }
}
