/**
 * The favorites store (app/context/FavoritesContext.tsx): an in-memory list of
 * complexes mirrored into the device storage slot '@BeexSports:favorites'.
 */
module Favorites {
  import opened Wrappers
  import opened Seqs

  /** A sports venue; the floating-point `distance` field is not modelled. */
  datatype Complex = Complex(
    id: string,
    name: string,
    city: string,
    address: Option<string>,
    image: Option<string>)

  /**
   * The provider's state: the list the screens read, and the last list written
   * to storage (None while the slot has never been written).
   */
  datatype Store = Store(favorites: seq<Complex>, stored: Option<seq<Complex>>)

  /** The store after every mutation: what is persisted is what is shown. */
  predicate Persisted(st: Store)
  {
    st.stored == Some(st.favorites)
  }

  /** No id appears twice in the list. */
  predicate DistinctIds(favs: seq<Complex>)
  {
    forall i, j :: 0 <= i < j < |favs| ==> favs[i].id != favs[j].id
  }

  /** The provider as first rendered: an empty list, storage not yet read. */
  function Mount(stored: Option<seq<Complex>>): (st: Store)
    ensures st.favorites == [] && st.stored == stored
  {
    Store([], stored)
  }

  /** `loadStoredFavorites`: a present storage slot replaces the list, an absent one leaves it. */
  function LoadStored(st: Store): (r: Store)
    ensures r.stored == st.stored
    ensures st.stored.Some? ==> Persisted(r)
    ensures st.stored.None? ==> r.favorites == st.favorites
  {
    match st.stored
    case Some(saved) => st.(favorites := saved)
    case None => st
  }

  /** `isFavorite`: `favorites.some(complex => complex.id === complexId)`. */
  predicate IsFavorite(favs: seq<Complex>, id: string)
  {
    |favs| > 0 && (favs[0].id == id || IsFavorite(favs[1..], id))
  }

  /** `isFavorite` holds exactly when some entry carries the id. */
  lemma {:induction false} IsFavoriteIff(favs: seq<Complex>, id: string)
    ensures IsFavorite(favs, id) <==> exists i :: 0 <= i < |favs| && favs[i].id == id
    decreases |favs|
  {
    if |favs| > 0 {
      IsFavoriteIff(favs[1..], id);
      if exists i :: 0 <= i < |favs| && favs[i].id == id {
        var i :| 0 <= i < |favs| && favs[i].id == id;
        if i > 0 {
          assert favs[1..][i - 1].id == id;
        }
      }
      if IsFavorite(favs[1..], id) {
        var i :| 0 <= i < |favs[1..]| && favs[1..][i].id == id;
        assert favs[i + 1].id == id;
      }
    }
  }

  /** `addFavorite`: appends without looking for an entry with the same id, then persists. */
  function AddFavorite(st: Store, c: Complex): (r: Store)
    ensures |r.favorites| == |st.favorites| + 1
    ensures r.favorites[..|st.favorites|] == st.favorites
    ensures r.favorites[|st.favorites|] == c
    ensures IsFavorite(r.favorites, c.id)
    ensures Persisted(r)
  {
    var favs := st.favorites + [c];
    IsFavoriteIff(favs, c.id);
    assert favs[|st.favorites|].id == c.id;
    Store(favs, Some(favs))
  }

  /** The keep-condition of `removeFavorite`'s filter. */
  function KeepOthers(id: string): Complex -> bool
  {
    (c: Complex) => c.id != id
  }

  /** `removeFavorite`: drops every entry with the id, keeps the rest in order, then persists. */
  function RemoveFavorite(st: Store, id: string): (r: Store)
    ensures !IsFavorite(r.favorites, id)
    ensures forall c :: c in r.favorites <==> c in st.favorites && c.id != id
    ensures IsSubsequence(r.favorites, st.favorites)
    ensures Persisted(r)
  {
    var favs := Filter(st.favorites, KeepOthers(id));
    FilterIsSubsequence(st.favorites, KeepOthers(id));
    IsFavoriteIff(favs, id);
    assert forall i :: 0 <= i < |favs| ==> favs[i] in favs;
    Store(favs, Some(favs))
  }

  /** Removing an id nobody carries leaves the list unchanged. */
  lemma RemoveAbsent(st: Store, id: string)
    requires !IsFavorite(st.favorites, id)
    ensures RemoveFavorite(st, id).favorites == st.favorites
  {
    IsFavoriteIff(st.favorites, id);
    FilterKeepsAll(st.favorites, KeepOthers(id));
  }

  /** Removing twice is removing once, even for an id that was added several times. */
  lemma RemoveIdempotent(st: Store, id: string)
    ensures RemoveFavorite(RemoveFavorite(st, id), id) == RemoveFavorite(st, id)
  {
    RemoveAbsent(RemoveFavorite(st, id), id);
  }

  /** Every copy of the removed id is gone, whatever else is kept: counted per entry. */
  lemma RemoveCount(st: Store, id: string, c: Complex)
    ensures multiset(RemoveFavorite(st, id).favorites)[c] ==
      if c.id == id then 0 else multiset(st.favorites)[c]
  {
    FilterCount(st.favorites, KeepOthers(id), c);
  }

  /** Adding then removing the same id leaves no entry with it. */
  lemma AddThenRemove(st: Store, c: Complex)
    ensures !IsFavorite(RemoveFavorite(AddFavorite(st, c), c.id).favorites, c.id)
    ensures |AddFavorite(AddFavorite(st, c), c).favorites| == |st.favorites| + 2
  {
  }
}
