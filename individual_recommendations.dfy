/** `get_individual_recommendations`: the solo users a team might want,
    found by the team's wanted skills first and its prize tracks second. */
module IndividualRecommendations {
  import opened Store

  /** The two user fields the queries match on. */
  datatype Field = Skills | Prizes

  function Tags(u: User, f: Field): seq<string> {
    match f
    case Skills => u.skills
    case Prizes => u.prizes
  }

  /** A recommended user: the user document as the query returned it, with
      the display name the handler attaches. `None` stands for the directory's
      "not found" answer, which the handler attaches as it is. */
  datatype Candidate = Candidate(id: string, user: User, name: Option<string>)

  function Ids(cs: seq<Candidate>): seq<string> {
    seq(|cs|, k requires 0 <= k < |cs| => cs[k].id)
  }

  /** The user is teamless and lists `tag` under `f`. */
  predicate Listed(users: map<string, User>, x: string, f: Field, tag: string) {
    x in users && !users[x].hasateam && tag in Tags(users[x], f)
  }

  /** The user is teamless and lists one of `tags` under `f`. */
  predicate ListsOneOf(users: map<string, User>, x: string, f: Field, tags: seq<string>) {
    exists tag :: tag in tags && Listed(users, x, f, tag)
  }

  /** `aggregate([{"$match": {"hasateam": False, f: {"$all": [tag]}}}])`:
      the ids of teamless users listing `tag`, in natural order. */
  function Matching(order: seq<string>, users: map<string, User>, f: Field, tag: string): (r: seq<string>)
    ensures forall x :: x in r <==> x in order && Listed(users, x, f, tag)
  {
    if order == [] then []
    else
      var rest := Matching(order[1..], users, f, tag);
      if Listed(users, order[0], f, tag) then [order[0]] + rest else rest
  }

  /** Everything one phase's queries yield, tag by tag, before duplicates
      are dropped. */
  function Pool(order: seq<string>, users: map<string, User>, f: Field, tags: seq<string>): seq<string> {
    if tags == [] then []
    else Pool(order, users, f, tags[..|tags| - 1]) + Matching(order, users, f, tags[|tags| - 1])
  }

  /** An id is in a phase's pool exactly when its user is teamless and lists
      one of the phase's tags. */
  lemma {:induction false} PoolMembers(order: seq<string>, users: map<string, User>, f: Field, tags: seq<string>)
    ensures forall x :: x in Pool(order, users, f, tags) <==> x in order && ListsOneOf(users, x, f, tags)
  {
    if tags != [] {
      var init := tags[..|tags| - 1];
      var last := tags[|tags| - 1];
      assert forall t :: t in tags <==> t in init || t == last;
      PoolMembers(order, users, f, init);
    }
  }

  /** The first occurrence of each id, in the order of first occurrence. */
  function Dedup(xs: seq<string>): seq<string> {
    if xs == [] then []
    else
      var init := xs[..|xs| - 1];
      var last := xs[|xs| - 1];
      if last in init then Dedup(init) else Dedup(init) + [last]
  }

  /** Dedup lists each id of its input exactly once and nothing else. */
  lemma {:induction false} DedupMembers(xs: seq<string>)
    ensures Distinct(Dedup(xs))
    ensures forall x :: x in Dedup(xs) <==> x in xs
  {
    if xs != [] {
      var init := xs[..|xs| - 1];
      assert xs == init + [xs[|xs| - 1]];
      DedupMembers(init);
    }
  }

  /** One document of a query's result: kept, with its name attached,
      unless its id was seen before. */
  method Take(db: Db, matches: seq<Candidate>, emails: set<string>, m: string, name: Option<string>, ghost seen: seq<string>)
    returns (matches': seq<Candidate>, emails': set<string>)
    requires m in db.users
    requires Collected(db, matches, emails, name, seen)
    ensures Collected(db, matches', emails', name, seen + [m])
  {
    DedupSnoc(seen, m);
    if m !in emails {
      emails' := emails + {m};
      matches' := matches + [Candidate(m, db.users[m], name)];
      assert Ids(matches') == Ids(matches) + [m];
    } else {
      emails', matches' := emails, matches;
    }
  }

  lemma DedupSnoc(xs: seq<string>, x: string)
    ensures Dedup(xs + [x]) == if x in xs then Dedup(xs) else Dedup(xs) + [x]
  {
    assert (xs + [x])[..|xs|] == xs;
  }

  /** The ids the handler returns for a team wanting `skills` with `prizes`. */
  function Recommended(s: State, skills: seq<string>, prizes: seq<string>): seq<string> {
    Dedup(Pool(s.userOrder, s.users, Skills, skills) + Pool(s.userOrder, s.users, Prizes, prizes))
  }

  /** The name attached to every match: looked up with the requester's email
      when the directory issued a token, and empty otherwise. */
  function AttachedName(authOk: bool, getName: string -> Option<string>, email: string): Option<string> {
    if authOk then getName(email) else Some("")
  }

  /** The handler. `emailField` is the body's `user_email` (absent when the
      body or the field is missing), `tokenGiven` says whether it carries a
      non-empty `token`, `validated` is the directory's answer for the session,
      `authOk` whether the directory issues tokens and `getName` its name
      look-up; `norm` is the handler's `strip().lower()`. */
  method GetIndividualRecommendations(
    db: Db, emailField: Option<string>, tokenGiven: bool, validated: bool,
    authOk: bool, getName: string -> Option<string>, norm: string -> string)
    returns (code: int, matches: seq<Candidate>)
    ensures emailField.None? || emailField.value == "" || !tokenGiven ==> code == 408 && matches == []
    ensures emailField.Some? && emailField.value != "" && tokenGiven ==>
      var requester := norm(emailField.value);
      var found := TeamOf(db.Snapshot(), requester);
      && (!validated ==> code == 404 && matches == [])
      && (validated && found.None? ==> code == 400 && matches == [])
      && (validated && found.Some? && db.teams[found.value].partnerskills == [] ==> code == 401 && matches == [])
      && (validated && found.Some? && db.teams[found.value].partnerskills != [] ==>
            && Ids(matches) == Recommended(db.Snapshot(), db.teams[found.value].partnerskills, db.teams[found.value].prizes)
            && Annotated(db, matches, AttachedName(authOk, getName, requester))
            && code == (if matches == [] then 402 else 200))
  {
    if emailField.None? || emailField.value == "" || !tokenGiven {
      return 408, [];
    }
    var email := norm(emailField.value);
    if !validated {
      return 404, [];
    }
    var found := db.FindTeamOf(email);
    if found.None? {
      return 400, [];
    }
    var team := db.teams[found.value];
    if team.partnerskills == [] {
      return 401, [];
    }
    var prizes := team.prizes;
    var skills := team.partnerskills;
    matches := Recommend(db, skills, prizes, AttachedName(authOk, getName, email));
    code := if matches == [] then 402 else 200;
  }

  /** The two loops: the skill queries in `skills` order, then the prize
      queries in `prizes` order, sharing one set of ids already taken. */
  method Recommend(db: Db, skills: seq<string>, prizes: seq<string>, name: Option<string>)
    returns (matches: seq<Candidate>)
    ensures Ids(matches) == Recommended(db.Snapshot(), skills, prizes)
    ensures Annotated(db, matches, name)
  {
    ghost var bySkill;
    ghost var all;
    var emails;
    matches, emails, bySkill := CollectPhase(db, Skills, skills, [], {}, name, []);
    assert bySkill == Pool(db.userOrder, db.users, Skills, skills);
    matches, emails, all := CollectPhase(db, Prizes, prizes, matches, emails, name, bySkill);
  }

  /** Every match carries the named user's current record and `name`. */
  ghost predicate Annotated(db: Db, matches: seq<Candidate>, name: Option<string>)
    reads db
  {
    forall k :: 0 <= k < |matches| ==>
      matches[k].id in db.users && matches[k].user == db.users[matches[k].id] && matches[k].name == name
  }

  /** What the loops keep: `matches` holds, in order, the first occurrence of
      each id in `seen`, each carrying its user's record and `name`, and
      `emails` is the set of ids in `seen`. */
  ghost predicate Collected(db: Db, matches: seq<Candidate>, emails: set<string>, name: Option<string>, seen: seq<string>)
    reads db
  {
    && Ids(matches) == Dedup(seen)
    && (forall x :: x in emails <==> x in seen)
    && Annotated(db, matches, name)
  }

  /** The loop over one phase's tags: for each tag in turn, take the result
      of its query. `seen` is, for the proof, every id yielded so far. */
  method CollectPhase(
    db: Db, f: Field, tags: seq<string>, matches: seq<Candidate>, emails: set<string>,
    name: Option<string>, ghost seen: seq<string>)
    returns (matches': seq<Candidate>, emails': set<string>, ghost seen': seq<string>)
    requires Collected(db, matches, emails, name, seen)
    ensures seen' == seen + Pool(db.userOrder, db.users, f, tags)
    ensures Collected(db, matches', emails', name, seen')
  {
    matches', emails', seen' := matches, emails, seen;
    for i := 0 to |tags|
      invariant seen' == seen + Pool(db.userOrder, db.users, f, tags[..i])
      invariant Collected(db, matches', emails', name, seen')
    {
      var batch := Matching(db.userOrder, db.users, f, tags[i]);
      PoolStep(db.userOrder, db.users, f, tags, i);
      matches', emails', seen' := CollectBatch(db, batch, matches', emails', name, seen');
    }
    assert tags[..|tags|] == tags;
  }

  /** A phase's pool over one more tag is the pool so far followed by that
      tag's query result. */
  lemma PoolStep(order: seq<string>, users: map<string, User>, f: Field, tags: seq<string>, i: nat)
    requires i < |tags|
    ensures Pool(order, users, f, tags[..i + 1]) == Pool(order, users, f, tags[..i]) + Matching(order, users, f, tags[i])
  {
    assert tags[..i + 1][..i] == tags[..i];
  }

  /** The loop over one query's result. */
  method CollectBatch(
    db: Db, batch: seq<string>, matches: seq<Candidate>, emails: set<string>,
    name: Option<string>, ghost seen: seq<string>)
    returns (matches': seq<Candidate>, emails': set<string>, ghost seen': seq<string>)
    requires forall x :: x in batch ==> x in db.users
    requires Collected(db, matches, emails, name, seen)
    ensures seen' == seen + batch
    ensures Collected(db, matches', emails', name, seen')
  {
    matches', emails', seen' := matches, emails, seen;
    for j := 0 to |batch|
      invariant seen' == seen + batch[..j]
      invariant Collected(db, matches', emails', name, seen')
    {
      matches', emails' := Take(db, matches', emails', batch[j], name, seen');
      seen' := seen' + [batch[j]];
      assert batch[..j + 1] == batch[..j] + [batch[j]];
    }
    assert batch[..|batch|] == batch;
  }

  /** No id is recommended twice. */
  lemma RecommendedDistinct(s: State, skills: seq<string>, prizes: seq<string>)
    ensures Distinct(Recommended(s, skills, prizes))
  {
    DedupMembers(Pool(s.userOrder, s.users, Skills, skills) + Pool(s.userOrder, s.users, Prizes, prizes));
  }

  /** A user is recommended exactly when they are teamless and list one of
      the wanted skills or one of the team's prizes. */
  lemma RecommendedExactly(s: State, skills: seq<string>, prizes: seq<string>, x: string)
    requires WellFormed(s)
    ensures x in Recommended(s, skills, prizes) <==>
      x in s.users && !s.users[x].hasateam &&
      ((exists sk :: sk in skills && sk in s.users[x].skills) || (exists p :: p in prizes && p in s.users[x].prizes))
  {
    PoolMembers(s.userOrder, s.users, Skills, skills);
    PoolMembers(s.userOrder, s.users, Prizes, prizes);
    DedupMembers(Pool(s.userOrder, s.users, Skills, skills) + Pool(s.userOrder, s.users, Prizes, prizes));
    if x in s.users && !s.users[x].hasateam {
      assert x in s.userOrder;
      if exists sk :: sk in skills && sk in s.users[x].skills {
        var sk :| sk in skills && sk in s.users[x].skills;
        assert Listed(s.users, x, Skills, sk);
      }
      if exists p :: p in prizes && p in s.users[x].prizes {
        var p :| p in prizes && p in s.users[x].prizes;
        assert Listed(s.users, x, Prizes, p);
      }
    }
  }

  /** Position of the first occurrence of `x`. */
  function IndexOf(xs: seq<string>, x: string): (i: nat)
    requires x in xs
    ensures i < |xs| && xs[i] == x && forall k :: 0 <= k < i ==> xs[k] != x
  {
    if xs[0] == x then 0 else 1 + IndexOf(xs[1..], x)
  }

  lemma {:induction false} IndexOfPrefix(a: seq<string>, b: seq<string>, x: string)
    requires x in a
    ensures IndexOf(a + b, x) == IndexOf(a, x)
  {
    if a[0] != x {
      assert (a + b)[1..] == a[1..] + b;
      IndexOfPrefix(a[1..], b, x);
    }
  }

  /** Dedup keeps the order of first occurrences. */
  lemma {:induction false} DedupFirstOccurrence(xs: seq<string>)
    ensures forall i, j :: 0 <= i < j < |Dedup(xs)| ==>
      Dedup(xs)[i] in xs && Dedup(xs)[j] in xs && IndexOf(xs, Dedup(xs)[i]) < IndexOf(xs, Dedup(xs)[j])
  {
    DedupMembers(xs);
    if xs != [] {
      var init := xs[..|xs| - 1];
      var last := xs[|xs| - 1];
      assert xs == init + [last];
      DedupFirstOccurrence(init);
      DedupMembers(init);
      var d := Dedup(init);
      forall z | z in init
        ensures IndexOf(xs, z) == IndexOf(init, z)
      {
        IndexOfPrefix(init, [last], z);
      }
      var r := Dedup(xs);
      assert r == if last in init then d else d + [last];
      forall i, j | 0 <= i < j < |r|
        ensures r[i] in xs && r[j] in xs && IndexOf(xs, r[i]) < IndexOf(xs, r[j])
      {
        assert r[i] == d[i] && d[i] in init;
        if j == |d| {
          assert r[j] == last && last !in init;
          var n := IndexOf(xs, last);
          assert n == |init|;
          assert IndexOf(xs, d[i]) == IndexOf(init, d[i]) < |init|;
        } else {
          assert r[j] == d[j] && d[j] in init;
          assert IndexOf(init, d[i]) < IndexOf(init, d[j]);
          assert IndexOf(xs, d[i]) == IndexOf(init, d[i]);
          assert IndexOf(xs, d[j]) == IndexOf(init, d[j]);
        }
      }
    }
  }

  /** Dedup of a concatenation starts with Dedup of the first part; what
      follows comes from the second part and was not in the first. */
  lemma {:induction false} DedupPrefix(a: seq<string>, b: seq<string>)
    ensures var d, r := Dedup(a), Dedup(a + b);
      && |d| <= |r| && r[..|d|] == d
      && forall k :: |d| <= k < |r| ==> r[k] in b && r[k] !in a
  {
    if b == [] {
      assert a + b == a;
    } else {
      var b' := b[..|b| - 1];
      var y := b[|b| - 1];
      assert a + b == (a + b') + [y];
      assert (a + b)[..|a + b| - 1] == a + b';
      DedupPrefix(a, b');
    }
  }

  /** All matches found through a wanted skill come before those found only
      through a prize, and the overall order is that of first occurrence
      across the skill queries, taken in `partnerskills` order, followed by
      the prize queries, taken in `prizes` order. */
  lemma RecommendedOrder(s: State, skills: seq<string>, prizes: seq<string>)
    ensures var bySkill := Pool(s.userOrder, s.users, Skills, skills);
      var byPrize := Pool(s.userOrder, s.users, Prizes, prizes);
      var r := Recommended(s, skills, prizes);
      var n := |Dedup(bySkill)|;
      && n <= |r| && r[..n] == Dedup(bySkill)
      && (forall k :: 0 <= k < n ==> r[k] in bySkill)
      && (forall k :: n <= k < |r| ==> r[k] in byPrize && r[k] !in bySkill)
      && (forall i, j :: 0 <= i < j < |r| ==>
            r[i] in bySkill + byPrize && r[j] in bySkill + byPrize &&
            IndexOf(bySkill + byPrize, r[i]) < IndexOf(bySkill + byPrize, r[j]))
  {
    var bySkill := Pool(s.userOrder, s.users, Skills, skills);
    var byPrize := Pool(s.userOrder, s.users, Prizes, prizes);
    DedupPrefix(bySkill, byPrize);
    DedupFirstOccurrence(bySkill + byPrize);
    var r := Recommended(s, skills, prizes);
    DedupMembers(bySkill);
    forall k | 0 <= k < |Dedup(bySkill)|
      ensures r[k] in bySkill
    {
      assert r[k] == Dedup(bySkill)[k];
    }
  }
}
