/**
 * The complexes screen (app/screens/ComplexesScreen.tsx): the loaded list, the
 * list shown under the search box, and the heart button that toggles a favorite.
 * Each query's effect is applied whole, one after another. The source's
 * debounce timer is not modelled: `clearTimeout` cancels only a search whose
 * timer has not fired, and a search already waiting on the service still
 * replaces the shown list when it returns, even after the box was cleared.
 */
module ComplexesView {
  import opened Wrappers
  import opened Seqs
  import opened Text
  import opened Favorites
  import opened ComplexService

  /** The screen's state: everything loaded, what is shown, and the text in the search box. */
  datatype View = View(complexes: seq<Complex>, filtered: seq<Complex>, query: string)

  /** `loadComplexes`: the full list, shown unfiltered, with an empty search box. */
  function InitialLoad(catalog: seq<Complex>): (v: View)
    ensures v.complexes == catalog && v.filtered == catalog && v.query == ""
  {
    View(GetComplexes(catalog), GetComplexes(catalog), "")
  }

  /**
   * The search effect: a blank query shows the loaded list directly, any other
   * query shows what `searchComplexes` returns.
   */
  function ApplyQuery(v: View, query: string, catalog: seq<Complex>): (r: View)
    ensures r.complexes == v.complexes && r.query == query
    ensures IsBlank(query) ==> r.filtered == v.complexes
    ensures !IsBlank(query) ==> r.filtered == SearchComplexes(catalog, query)
    ensures !IsBlank(query) ==> forall c :: c in r.filtered <==> c in catalog && MatchesQuery(c, NormalizeQuery(query))
  {
    if Trim(query) == "" then v.(query := query, filtered := v.complexes)
    else v.(query := query, filtered := SearchComplexes(catalog, query))
  }

  /** Once loaded, the blank-query shortcut shows exactly what the search would have returned. */
  lemma ShownIsSearchResult(catalog: seq<Complex>, v: View, query: string)
    requires v.complexes == catalog
    ensures ApplyQuery(v, query, catalog).filtered == SearchComplexes(catalog, query)
  {
    if IsBlank(query) {
      SearchBlankIsAll(catalog, query);
    }
  }

  /**
   * In this model, where each query's effect completes before the next one
   * starts, the shown list depends only on the last query applied.
   */
  lemma LastQueryWins(catalog: seq<Complex>, v: View, q1: string, q2: string)
    ensures ApplyQuery(ApplyQuery(v, q1, catalog), q2, catalog) == ApplyQuery(v, q2, catalog)
  {
  }

  /** `handleToggleFavorite`: remove the complex when its id is a favorite, add it otherwise. */
  function ToggleFavorite(st: Store, c: Complex): (r: Store)
    ensures IsFavorite(r.favorites, c.id) <==> !IsFavorite(st.favorites, c.id)
    ensures Persisted(r)
    ensures forall d: Complex :: d.id != c.id ==> (d in r.favorites <==> d in st.favorites)
    ensures IsFavorite(st.favorites, c.id) ==> r == RemoveFavorite(st, c.id) && IsSubsequence(r.favorites, st.favorites)
    ensures !IsFavorite(st.favorites, c.id) ==> r == AddFavorite(st, c) && r.favorites == st.favorites + [c]
  {
    if IsFavorite(st.favorites, c.id) then RemoveFavorite(st, c.id) else AddFavorite(st, c)
  }

  /** Toggling leaves every copy of every complex with another id where it was counted: only `c`'s id changes. */
  lemma ToggleKeepsOthers(st: Store, c: Complex, d: Complex)
    ensures d.id != c.id ==> multiset(ToggleFavorite(st, c).favorites)[d] == multiset(st.favorites)[d]
    ensures d == c ==>
      multiset(ToggleFavorite(st, c).favorites)[d] == if IsFavorite(st.favorites, c.id) then 0 else multiset(st.favorites)[d] + 1
  {
    if IsFavorite(st.favorites, c.id) {
      RemoveCount(st, c.id, d);
    } else {
      assert multiset(st.favorites + [c]) == multiset(st.favorites) + multiset{c};
    }
  }

  /** Toggling never makes an id appear twice. */
  lemma ToggleKeepsDistinct(st: Store, c: Complex)
    requires DistinctIds(st.favorites)
    ensures DistinctIds(ToggleFavorite(st, c).favorites)
  {
    if IsFavorite(st.favorites, c.id) {
      FilterKeepsDistinct(st.favorites, KeepOthers(c.id));
    } else {
      IsFavoriteIff(st.favorites, c.id);
    }
  }

  /** Filtering keeps a list free of repeated ids. */
  lemma {:induction false} FilterKeepsDistinct(s: seq<Complex>, p: Complex -> bool)
    requires DistinctIds(s)
    ensures DistinctIds(Filter(s, p))
    decreases |s|
  {
    if |s| > 0 {
      FilterKeepsDistinct(s[1..], p);
      var t := Filter(s[1..], p);
      if p(s[0]) {
        forall j | 0 <= j < |t|
          ensures t[j].id != s[0].id
        {
          assert t[j] in s[1..];
          var k :| 0 <= k < |s[1..]| && s[1..][k] == t[j];
          assert s[k + 1] == t[j];
        }
        var r := Filter(s, p);
        assert r == [s[0]] + t;
        forall i, j | 0 <= i < j < |r|
          ensures r[i].id != r[j].id
        {
          if i > 0 {
            assert r[i] == t[i - 1] && r[j] == t[j - 1];
          } else {
            assert r[j] == t[j - 1];
          }
        }
      }
    }
  }

  /** Toggling a complex that is not a favorite twice gives back the list it started from. */
  lemma ToggleTwiceRestores(st: Store, c: Complex)
    requires !IsFavorite(st.favorites, c.id)
    ensures ToggleFavorite(ToggleFavorite(st, c), c).favorites == st.favorites
  {
    var p := KeepOthers(c.id);
    IsFavoriteIff(st.favorites, c.id);
    FilterAppend(st.favorites, [c], p);
    FilterKeepsAll(st.favorites, p);
    FilterCons(c, [], p);
    assert [c] + [] == [c];
    assert st.favorites + [] == st.favorites;
  }

  /** Toggling a favorite twice drops every entry with its id and appends the complex once, at the end. */
  lemma ToggleTwiceMovesToEnd(st: Store, c: Complex)
    requires IsFavorite(st.favorites, c.id)
    ensures ToggleFavorite(ToggleFavorite(st, c), c).favorites == Filter(st.favorites, KeepOthers(c.id)) + [c]
  {
  }
}
