/** backend/routes/search.js: the user search by username substring. The
    query text is placed between `%` signs and handed to a case-insensitive
    LIKE, so `%` and `_` typed by the user act as wildcards and `\` as the
    escape character. */
module Search {
  import opened Common
  import opened Text
  import opened Seqs
  import opened Tables

  /** `SELECT id, username, bio, role`. */
  datatype Found = Found(id: Id, username: string, bio: Option<string>, role: Option<string>)

  /** `LOWER(username) LIKE LOWER('%' || q || '%')`. */
  predicate MatchesQuery(u: User, q: string) {
    Like(Lower(u.username), Lower("%" + q + "%"))
  }

  function FoundOf(u: User): Found {
    Found(u.id, u.username, u.bio, u.role)
  }

  /** GET /api/search/users?q=. A missing or empty `q` is refused. */
  function SearchUsers(users: seq<User>, q: Option<string>): (r: Reply<seq<Found>>)
    ensures r.Err? <==> q.None? || q.value == ""
    ensures r.Err? ==> r == Err(400, "Missing search query")
  {
    if q.None? || q.value == "" then Err(400, "Missing search query")
    else
      var hits := Filter(users, (u: User) => MatchesQuery(u, q.value));
      Ok(seq(|hits|, i requires 0 <= i < |hits| => FoundOf(hits[i])))
  }

  /** The pattern the database sees is the lower-cased query between `%`
      signs. */
  lemma LowerPattern(q: string)
    ensures Lower("%" + q + "%") == "%" + Lower(q) + "%"
  {
    LowerConcat("%", q);
    LowerConcat("%" + q, "%");
  }

  /** The wrapped pattern always ends in `%`, so the database never refuses
      it for a trailing escape, whatever the query holds. */
  lemma SearchPatternAccepted(q: string)
    ensures !ILikeRefuses("%" + q + "%")
  {
    LowerPattern(q);
    EscapesClosedBeforeLast("%" + Lower(q), '%');
  }

  /** A query ending in `\` escapes the closing `%`: the query `a\` finds
      exactly the users whose lower-cased name ends in "a%". */
  lemma TrailingBackslashQuery(u: User)
    ensures MatchesQuery(u, "a\\") <==> IsSuffix("a%", Lower(u.username))
  {
    LowerPattern("a\\");
    assert Lower("a\\") == "a\\";
    assert "%" + "a\\" + "%" == "%a\\%";
    EscapedPercentIsLiteral(Lower(u.username));
  }

  /** With no wildcard and no escape in the query, a user matches exactly
      when their lower-cased username contains the lower-cased query. */
  lemma MatchesQueryIsSubstring(u: User, q: string)
    requires NoWildcards(q)
    ensures MatchesQuery(u, q) <==> Contains(Lower(u.username), Lower(q))
  {
    LowerPattern(q);
    LowerKeepsWildcards(q);
    LikeContains(Lower(u.username), Lower(q));
  }

  /** A query of one `_` matches every user with a non-empty username, and a
      query of one `%` matches every user. */
  lemma WildcardQueries(u: User)
    ensures MatchesQuery(u, "_") <==> u.username != []
    ensures MatchesQuery(u, "%")
  {
    LowerPattern("_");
    assert Lower("_") == "_";
    assert "%" + "_" + "%" == "%_%";
    UnderscoreMatchesAnyChar(Lower(u.username));
    LowerPattern("%");
    assert Lower("%") == "%";
    LikeLeadingPercent(Lower(u.username), "%" + "%");
    LikeAnyRest(Lower(u.username));
    assert Lower(u.username)[0..] == Lower(u.username);
    LikeLeadingPercent(Lower(u.username), "%");
    assert "%" + "%" + "%" == "%" + ("%" + "%");
  }

  /** Each result is a user whose name matches, every matching user is
      listed, and the results keep the table's order. */
  lemma SearchUsersStates(users: seq<User>, q: string)
    requires q != ""
    ensures var r := SearchUsers(users, Some(q)).body;
      var hits := Filter(users, (u: User) => MatchesQuery(u, q));
      && |r| == |hits|
      && (forall i :: 0 <= i < |r| ==> r[i] == FoundOf(hits[i]))
      && (forall u :: u in hits <==> u in users && MatchesQuery(u, q))
  {
    forall u ensures u in Filter(users, (u: User) => MatchesQuery(u, q)) <==> u in users && MatchesQuery(u, q) {
      FilterMembership(users, (u: User) => MatchesQuery(u, q), u);
    }
  }
}
