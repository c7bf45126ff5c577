/** What the catalog operations give on the five `MOCK_COMPLEXES` fixtures. */
module ComplexFixtures {
  import opened Wrappers
  import opened Seqs
  import opened Text
  import opened Favorites
  import opened ComplexService

  /** `getComplexes` returns the five fixtures, ids '1' to '5' in order, no id twice. */
  lemma MockComplexesShape()
    ensures |GetComplexes(MockComplexes)| == 5
    ensures GetComplexes(MockComplexes) == [Central, Norte, Municipal, River, Sur]
    ensures Central.id == "1" && Norte.id == "2" && Municipal.id == "3" && River.id == "4" && Sur.id == "5"
    ensures DistinctIds(MockComplexes)
  {
  }

  /** A filter of the fixtures is decided one fixture at a time. */
  lemma FilterFixtures(p: Complex -> bool)
    ensures Filter(MockComplexes, p) ==
      Keep(Central, p) + (Keep(Norte, p) + (Keep(Municipal, p) + (Keep(River, p) + Keep(Sur, p))))
  {
    var s4: seq<Complex> := [Sur];
    var s3 := [River] + s4;
    var s2 := [Municipal] + s3;
    var s1 := [Norte] + s2;
    assert MockComplexes == [Central] + s1;
    FilterCons(Sur, [], p);
    assert [Sur] + [] == s4;
    FilterCons(River, s4, p);
    FilterCons(Municipal, s3, p);
    FilterCons(Norte, s2, p);
    FilterCons(Central, s1, p);
  }

  lemma LoweredCentralName()
    ensures Lower(Central.name) == "complejo deportivo central"
  {
    LowerPointwise("Complejo Deportivo Central", "complejo deportivo central");
  }

  lemma LoweredCentralCity()
    ensures Lower(Central.city) == "buenos aires"
  {
    LowerPointwise("Buenos Aires", "buenos aires");
  }

  lemma LoweredNorteName()
    ensures Lower(Norte.name) == "club deportivo norte"
  {
    LowerPointwise("Club Deportivo Norte", "club deportivo norte");
  }

  lemma LoweredNorteCity()
    ensures Lower(Norte.city) == "c\U{F3}rdoba"
  {
    LowerPointwise("C\U{F3}rdoba", "c\U{F3}rdoba");
  }

  lemma LoweredMunicipalName()
    ensures Lower(Municipal.name) == "polideportivo municipal"
  {
    LowerPointwise("Polideportivo Municipal", "polideportivo municipal");
  }

  lemma LoweredMunicipalCity()
    ensures Lower(Municipal.city) == "rosario"
  {
    LowerPointwise("Rosario", "rosario");
  }

  lemma LoweredRiverName()
    ensures Lower(River.name) == "club atl\U{E9}tico river"
  {
    LowerPointwise("Club Atl\U{E9}tico River", "club atl\U{E9}tico river");
  }

  lemma LoweredRiverCity()
    ensures Lower(River.city) == "buenos aires"
  {
    LowerPointwise("Buenos Aires", "buenos aires");
  }

  lemma LoweredSurName()
    ensures Lower(Sur.name) == "club deportivo sur"
  {
    LowerPointwise("Club Deportivo Sur", "club deportivo sur");
  }

  lemma LoweredSurCity()
    ensures Lower(Sur.city) == "mendoza"
  {
    LowerPointwise("Mendoza", "mendoza");
  }

  lemma CentralForNorte()
    ensures !MatchesQuery(Central, "norte")
  {
    LoweredCentralName();
    LoweredCentralCity();
    NotIncludedByPair("complejo deportivo central", "norte");
    NotIncludedByChar("buenos aires", "norte", 3);
  }

  lemma CentralForBuenosAires()
    ensures MatchesQuery(Central, "buenos aires")
  {
    LoweredCentralCity();
    assert OccursAt("buenos aires", "buenos aires", 0);
  }

  lemma NorteForNorte()
    ensures MatchesQuery(Norte, "norte")
  {
    LoweredNorteName();
    assert OccursAt("club deportivo norte", "norte", 15);
  }

  lemma NorteForBuenosAires()
    ensures !MatchesQuery(Norte, "buenos aires")
  {
    LoweredNorteName();
    LoweredNorteCity();
    NotIncludedByPair("club deportivo norte", "buenos aires");
    NotIncludedByPair("c\U{F3}rdoba", "buenos aires");
  }

  lemma MunicipalForNorte()
    ensures !MatchesQuery(Municipal, "norte")
  {
    LoweredMunicipalName();
    LoweredMunicipalCity();
    NotIncludedByPair("polideportivo municipal", "norte");
    NotIncludedByChar("rosario", "norte", 0);
  }

  lemma MunicipalForBuenosAires()
    ensures !MatchesQuery(Municipal, "buenos aires")
  {
    LoweredMunicipalName();
    LoweredMunicipalCity();
    NotIncludedByPair("polideportivo municipal", "buenos aires");
    NotIncludedByPair("rosario", "buenos aires");
  }

  lemma RiverForNorte()
    ensures !MatchesQuery(River, "norte")
  {
    LoweredRiverName();
    LoweredRiverCity();
    NotIncludedByPair("club atl\U{E9}tico river", "norte");
    NotIncludedByChar("buenos aires", "norte", 3);
  }

  lemma RiverForBuenosAires()
    ensures MatchesQuery(River, "buenos aires")
  {
    LoweredRiverCity();
    assert OccursAt("buenos aires", "buenos aires", 0);
  }

  lemma SurForNorte()
    ensures !MatchesQuery(Sur, "norte")
  {
    LoweredSurName();
    LoweredSurCity();
    NotIncludedByPair("club deportivo sur", "norte");
    NotIncludedByChar("mendoza", "norte", 2);
  }

  lemma SurForBuenosAires()
    ensures !MatchesQuery(Sur, "buenos aires")
  {
    LoweredSurName();
    LoweredSurCity();
    NotIncludedByPair("club deportivo sur", "buenos aires");
    NotIncludedByPair("mendoza", "buenos aires");
  }

  /** A query already in normal form. */
  lemma NormalQuery(q: string)
    requires forall i :: 0 <= i < |q| ==> LowerChar(q[i]) == q[i]
    requires |q| > 0 && !IsSpace(q[0]) && !IsSpace(q[|q| - 1])
    ensures NormalizeQuery(q) == q
  {
    LowerPointwise(q, q);
    TrimOfTrimmed(q);
  }

  /** Searching "norte" finds only 'Club Deportivo Norte', id '2'. */
  lemma SearchNorte()
    ensures SearchComplexes(MockComplexes, "norte") == [Norte]
    ensures Norte.id == "2"
  {
    SearchNorteFor("norte");
  }

  lemma SearchNorteFor(q: string)
    requires q == "norte"
    ensures SearchComplexes(MockComplexes, q) == [Norte]
  {
    NormalQuery(q);
    var p := SearchCondition(q);
    CentralForNorte();
    NorteForNorte();
    MunicipalForNorte();
    RiverForNorte();
    SurForNorte();
    assert Keep(Central, p) == [];
    assert Keep(Norte, p) == [Norte];
    assert Keep(Municipal, p) == [];
    assert Keep(River, p) == [];
    assert Keep(Sur, p) == [];
    FilterFixtures(p);
  }

  /** Searching "buenos aires" finds ids '1' and '4', in that order. */
  lemma SearchBuenosAires()
    ensures SearchComplexes(MockComplexes, "buenos aires") == [Central, River]
    ensures Central.id == "1" && River.id == "4"
  {
    SearchBuenosAiresFor("buenos aires");
  }

  lemma SearchBuenosAiresFor(q: string)
    requires q == "buenos aires"
    ensures SearchComplexes(MockComplexes, q) == [Central, River]
  {
    NormalQuery(q);
    var p := SearchCondition(q);
    CentralForBuenosAires();
    NorteForBuenosAires();
    MunicipalForBuenosAires();
    RiverForBuenosAires();
    SurForBuenosAires();
    assert Keep(Central, p) == [Central];
    assert Keep(Norte, p) == [];
    assert Keep(Municipal, p) == [];
    assert Keep(River, p) == [River];
    assert Keep(Sur, p) == [];
    FilterFixtures(p);
  }

  lemma ShoutedNorteNormalForm(q: string)
    requires q == " NORTE "
    ensures NormalizeQuery(q) == "norte"
  {
    LowerPointwise(q, " norte ");
    TrimPadded(" norte ", "norte");
  }

  /** " NORTE " is normalised to "norte" and gives the same single result. */
  lemma SearchNorteShouted()
    ensures NormalizeQuery(" NORTE ") == "norte"
    ensures SearchComplexes(MockComplexes, " NORTE ") == [Norte]
  {
    ShoutedNorteNormalForm(" NORTE ");
    NormalQuery("norte");
    SearchNorte();
    SearchSameNormalForm(MockComplexes, " NORTE ", "norte");
  }

  /** Looking up a fixture id finds it; an unknown id finds nothing. */
  lemma LookupFixtures()
    ensures GetComplexById(MockComplexes, "2") == Some(Norte)
    ensures GetComplexById(MockComplexes, "6") == None
  {
    MockComplexesShape();
    LookupFindsEntry(MockComplexes, Norte);
  }
}
