/**
 * The matchmaking screen (app/screens/MatchmakingScreen.tsx): the list of
 * recommended matches for the signed-in user and the join button.
 */
module Matchmaking {
  import opened Wrappers
  import opened Seqs
  import opened Levels
  import opened Session
  import opened MatchService
  import opened MatchFixtures

  /** The level recommendations are filtered by: the signed-in user's, when one is set. */
  function UserLevel(user: Option<User>): (r: Option<Level>)
    ensures r.Some? <==> user.Some? && user.value.level.Some?
    ensures r.Some? ==> r == user.value.level
  {
    if user.Some? then user.value.level else None
  }

  /**
   * `loadRecommendedMatches`: the matches of the user's level, or every match
   * when there is no user or no level.
   */
  function RecommendedMatches(user: Option<User>, catalog: seq<Match>): (r: seq<Match>)
    ensures IsSubsequence(r, catalog)
    ensures UserLevel(user).None? ==> r == catalog
    ensures UserLevel(user).Some? ==> forall m :: m in r <==> m in catalog && m.level == UserLevel(user).value
    ensures UserLevel(user).Some? ==> r == GetMatchesByLevel(catalog, UserLevel(user).value)
    ensures UserLevel(user).None? ==> r == GetMatches(catalog)
  {
    match UserLevel(user)
    case Some(level) => GetMatchesByLevel(catalog, level)
    case None =>
      IsSubsequenceRefl(catalog);
      GetMatches(catalog)
  }

  lemma {:induction false} IsSubsequenceRefl<T>(s: seq<T>)
    ensures IsSubsequence(s, s)
    decreases |s|
  {
    if |s| > 0 {
      IsSubsequenceRefl(s[1..]);
    }
  }

  /** The join button is shown for a match with a free place: room for at least the joining player. */
  predicate JoinOffered(m: Match)
    ensures JoinOffered(m) <==> m.players.current + 1 <= m.players.required
  {
    m.players.current < m.players.required
  }

  /**
   * With a level set, every copy of a match of that level is recommended and
   * no other match is; without one, the catalog is recommended copy for copy.
   */
  lemma RecommendedCount(user: Option<User>, catalog: seq<Match>, m: Match)
    ensures multiset(RecommendedMatches(user, catalog))[m] ==
      if UserLevel(user).None? || m.level == UserLevel(user).value then multiset(catalog)[m] else 0
  {
    if UserLevel(user).Some? {
      ByLevelCount(catalog, UserLevel(user).value, m);
    }
  }

  /**
   * `handleJoinMatch`: `joinMatch` always reports success, so the alert is
   * shown and the list is reloaded from the unchanged catalog.
   */
  function HandleJoinMatch(user: Option<User>, catalog: seq<Match>, matchId: string): (r: (bool, seq<Match>, seq<Match>))
    ensures r.0 && r.1 == catalog
    ensures r.2 == RecommendedMatches(user, catalog)
  {
    var (success, after) := JoinMatch(catalog, matchId);
    (success, after, RecommendedMatches(user, after))
  }

  /** Every sample match has a free place, so each shows the join button, whatever the user's level. */
  lemma FixturesOfferJoin(user: Option<User>)
    ensures forall m :: m in RecommendedMatches(user, MockMatches) ==> JoinOffered(m)
  {
    FixturesWellFormed();
  }

  /** A user without a level is shown all seven sample matches; one at 'intermedio' sees ids '1', '4' and '6'. */
  lemma FixturesRecommended(u: User)
    ensures RecommendedMatches(Some(u.(level := None)), MockMatches) == [M1, M2, M3, M4, M5, M6, M7]
    ensures RecommendedMatches(Some(u.(level := Some(Intermedio))), MockMatches) == [M1, M4, M6]
    ensures RecommendedMatches(None, MockMatches) == [M1, M2, M3, M4, M5, M6, M7]
  {
    MockMatchesShape();
    FixturesIntermedio();
  }
}
