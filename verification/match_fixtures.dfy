/** What the match catalog operations give on the seven `MOCK_MATCHES` fixtures. */
module MatchFixtures {
  import opened Seqs
  import opened Levels
  import opened MatchService

  /** `getMatches` returns the seven fixtures, ids '1' to '7' in order. */
  lemma MockMatchesShape()
    ensures GetMatches(MockMatches) == [M1, M2, M3, M4, M5, M6, M7]
    ensures M1.id == "1" && M2.id == "2" && M3.id == "3" && M4.id == "4"
    ensures M5.id == "5" && M6.id == "6" && M7.id == "7"
  {
  }

  /** Every fixture has room for more players and needs more than one. */
  lemma FixturesWellFormed()
    ensures forall m :: m in MockMatches ==> WellFormedPlayers(m)
  {
  }

  /** A filter of the fixtures is decided one fixture at a time. */
  lemma FilterFixtures(p: Match -> bool)
    ensures Filter(MockMatches, p) ==
      Keep(M1, p) + (Keep(M2, p) + (Keep(M3, p) + (Keep(M4, p) + (Keep(M5, p) + (Keep(M6, p) + Keep(M7, p))))))
  {
    var s6: seq<Match> := [M7];
    var s5 := [M6] + s6;
    var s4 := [M5] + s5;
    var s3 := [M4] + s4;
    var s2 := [M3] + s3;
    var s1 := [M2] + s2;
    assert MockMatches == [M1] + s1;
    FilterCons(M7, [], p);
    assert [M7] + [] == s6;
    FilterCons(M6, s6, p);
    FilterCons(M5, s5, p);
    FilterCons(M4, s4, p);
    FilterCons(M3, s3, p);
    FilterCons(M2, s2, p);
    FilterCons(M1, s1, p);
  }

  /** The intermedio fixtures are ids 1, 4 and 6. */
  lemma FixturesIntermedio()
    ensures GetMatchesByLevel(MockMatches, Intermedio) == [M1, M4, M6]
  {
    FilterFixtures(HasLevel(Intermedio));
  }

  /** The novato fixtures are ids 2 and 5. */
  lemma FixturesNovato()
    ensures GetMatchesByLevel(MockMatches, Novato) == [M2, M5]
  {
    FilterFixtures(HasLevel(Novato));
  }

  /** The avanzado fixtures are ids 3 and 7. */
  lemma FixturesAvanzado()
    ensures GetMatchesByLevel(MockMatches, Avanzado) == [M3, M7]
  {
    FilterFixtures(HasLevel(Avanzado));
  }

  /** Creating a match leaves `getMatches` at the same seven records. */
  lemma CreateLeavesFixtures(m: NewMatch, freshId: string)
    ensures GetMatches(CreateMatch(MockMatches, m, freshId).1) == [M1, M2, M3, M4, M5, M6, M7]
  {
  }
}
