/**
 * The complex catalog (app/services/complexService.ts): five fixture venues,
 * text search over name and city, and lookup by id. The simulated network
 * delay is not modelled; each call is a pure function of the catalog.
 */
module ComplexService {
  import opened Wrappers
  import opened Seqs
  import opened Text
  import opened Favorites

  const ImageBase := "https://images.unsplash.com/photo-"
  const ImageQuery := "?ixlib=rb-1.2.1&auto=format&fit=crop&w=1050&q=80"

  const Central := Complex("1", "Complejo Deportivo Central", "Buenos Aires",
    Some("Av. Rivadavia 1500"), Some(ImageBase + "1486882430381-e76d701e0a3e" + ImageQuery))
  const Norte := Complex("2", "Club Deportivo Norte", "C\U{F3}rdoba",
    Some("Calle San Mart\U{ED}n 450"), Some(ImageBase + "1574629810360-7efbbe195018" + ImageQuery))
  const Municipal := Complex("3", "Polideportivo Municipal", "Rosario",
    Some("Av. Pellegrini 2000"), Some(ImageBase + "1523297456374-f29452e221d2" + ImageQuery))
  const River := Complex("4", "Club Atl\U{E9}tico River", "Buenos Aires",
    Some("Av. Libertador 7500"), Some(ImageBase + "1524549110215-6624d76a0b0b" + ImageQuery))
  const Sur := Complex("5", "Club Deportivo Sur", "Mendoza",
    Some("Calle Belgrano 600"), Some(ImageBase + "1489805549589-3c5ae55fe740" + ImageQuery))

  /** `MOCK_COMPLEXES`, in source order. */
  const MockComplexes: seq<Complex> := [Central, Norte, Municipal, River, Sur]

  /** `query.toLowerCase().trim()`. */
  function NormalizeQuery(query: string): (q: string)
    ensures q == [] <==> IsBlank(query)
    ensures Lower(q) == q
  {
    NormalizeFacts(query);
    Trim(Lower(query))
  }

  lemma NormalizeFacts(query: string)
    ensures Trim(Lower(query)) == [] <==> IsBlank(query)
    ensures Lower(Trim(Lower(query))) == Trim(Lower(query))
  {
    LowerKeepsBlank(query);
    LowerOfSlice(Lower(query), Trim(Lower(query)));
  }

  lemma LowerKeepsBlank(s: string)
    ensures IsBlank(Lower(s)) <==> IsBlank(s)
  {
    LowerIdempotent(s);
  }

  /** A piece of a lowered string is already lowered. */
  lemma LowerOfSlice(low: string, q: string)
    requires Lower(low) == low
    requires Includes(low, q)
    ensures Lower(q) == q
  {
    var k :| 0 <= k <= |low| - |q| && OccursAt(low, q, k);
    forall i | 0 <= i < |q|
      ensures Lower(q)[i] == q[i]
    {
      assert q[i] == low[k + i];
    }
  }

  /** The search condition for one venue and an already normalised query. */
  predicate MatchesQuery(c: Complex, q: string)
  {
    Includes(Lower(c.name), q) || Includes(Lower(c.city), q)
  }

  function SearchCondition(query: string): Complex -> bool
  {
    (c: Complex) => MatchesQuery(c, NormalizeQuery(query))
  }

  /** `getComplexes`: the whole catalog, in order. */
  function GetComplexes(catalog: seq<Complex>): (r: seq<Complex>)
    ensures r == catalog
  {
    catalog
  }

  /** `searchComplexes`: the catalog entries whose lowered name or city contains the normalised query. */
  function SearchComplexes(catalog: seq<Complex>, query: string): (r: seq<Complex>)
    ensures forall c :: c in r <==> c in catalog && MatchesQuery(c, NormalizeQuery(query))
    ensures IsSubsequence(r, catalog)
  {
    FilterIsSubsequence(catalog, SearchCondition(query));
    Filter(catalog, SearchCondition(query))
  }

  /** The search keeps every copy of a matching entry and nothing else, so with the order kept it is exact. */
  lemma SearchCount(catalog: seq<Complex>, query: string, c: Complex)
    ensures multiset(SearchComplexes(catalog, query))[c] ==
      if MatchesQuery(c, NormalizeQuery(query)) then multiset(catalog)[c] else 0
  {
    FilterCount(catalog, SearchCondition(query), c);
  }

  /** Normalising an already normalised query changes nothing. */
  lemma NormalizeIdempotent(query: string)
    ensures NormalizeQuery(NormalizeQuery(query)) == NormalizeQuery(query)
  {
    var q := NormalizeQuery(query);
    assert Lower(q) == q;
    TrimIdempotent(Lower(query));
  }

  /** Case and surrounding white space in the query do not matter: searching its normal form gives the same list. */
  lemma SearchIgnoresCaseAndPadding(catalog: seq<Complex>, query: string)
    ensures SearchComplexes(catalog, query) == SearchComplexes(catalog, NormalizeQuery(query))
  {
    NormalizeIdempotent(query);
    assert SearchCondition(query) == SearchCondition(NormalizeQuery(query));
  }

  /** Two queries with the same normal form give the same result. */
  lemma SearchSameNormalForm(catalog: seq<Complex>, q1: string, q2: string)
    ensures NormalizeQuery(q1) == NormalizeQuery(q2) ==> SearchComplexes(catalog, q1) == SearchComplexes(catalog, q2)
  {
    if NormalizeQuery(q1) == NormalizeQuery(q2) {
      assert SearchCondition(q1) == SearchCondition(q2);
    }
  }

  /** A query that is blank after trimming matches every entry. */
  lemma SearchBlankIsAll(catalog: seq<Complex>, query: string)
    requires IsBlank(query)
    ensures SearchComplexes(catalog, query) == catalog
  {
    forall i | 0 <= i < |catalog|
      ensures SearchCondition(query)(catalog[i])
    {
      IncludesEmpty(Lower(catalog[i].name));
    }
    FilterKeepsAll(catalog, SearchCondition(query));
  }

  function HasId(id: string): Complex -> bool
  {
    (c: Complex) => c.id == id
  }

  /** `getComplexById`: the first entry with the id, or None where `find` gives undefined. */
  function GetComplexById(catalog: seq<Complex>, id: string): (r: Option<Complex>)
    ensures r.Some? ==> r.value in catalog && r.value.id == id
    ensures r.None? <==> forall c :: c in catalog ==> c.id != id
    ensures r.Some? ==>
      (exists i :: 0 <= i < |catalog| && catalog[i] == r.value && forall j :: 0 <= j < i ==> catalog[j].id != id)
  {
    Find(catalog, HasId(id))
  }

  /** With distinct ids, looking up the id of any entry finds that very entry. */
  lemma LookupFindsEntry(catalog: seq<Complex>, c: Complex)
    requires DistinctIds(catalog)
    requires c in catalog
    ensures GetComplexById(catalog, c.id) == Some(c)
  {
    var r := GetComplexById(catalog, c.id);
    var i :| 0 <= i < |catalog| && catalog[i] == r.value && forall j :: 0 <= j < i ==> catalog[j].id != c.id;
    var k :| 0 <= k < |catalog| && catalog[k] == c;
    assert i == k;
  }
}
