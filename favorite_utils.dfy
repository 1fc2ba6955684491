/**
 * The favourites list kept in one browser-storage slot: an ordered list of
 * `MovieBasic` records, read back whole and overwritten whole. The slot's
 * contents are modelled as the list itself (JSON encoding is taken to round-trip).
 */
module FavoriteUtils {
  import opened Wrappers
  import opened OmdbApi

  type Favorites = seq<MovieBasic>

  /** What the storage slot holds: nothing yet, or the list last written to it. */
  type Slot = Option<Favorites>

  // ---------------------------------------------------------------------------
  // The list operations the store is built from

  /** `getFavorites` on a slot: the stored list, or no favourites when nothing is stored. */
  function ReadSlot(slot: Slot): (list: Favorites)
    ensures slot.None? ==> list == []
    ensures slot.Some? ==> list == slot.value
  {
    if slot.Some? then slot.value else []
  }

  /** `list.some(fav => fav.imdbID === id)`. */
  function HasId(list: Favorites, id: string): (b: bool)
    ensures b <==> exists k :: 0 <= k < |list| && list[k].imdbID == id
    decreases |list|
  {
    if list == [] then false
    else if list[0].imdbID == id then true
    else
      var rest := HasId(list[1..], id);
      assert forall k :: 1 <= k < |list| ==> list[k] == list[1..][k - 1];
      rest
  }

  /** `list.filter(movie => movie.imdbID !== id)`. */
  function WithoutId(list: Favorites, id: string): (kept: Favorites)
    ensures |kept| <= |list|
    ensures forall m :: m in kept <==> m in list && m.imdbID != id
    decreases |list|
  {
    if list == [] then []
    else (if list[0].imdbID != id then [list[0]] else []) + WithoutId(list[1..], id)
  }

  /** No two stored entries share an id. */
  predicate DistinctIds(list: Favorites) {
    forall i, j :: 0 <= i < j < |list| ==> list[i].imdbID != list[j].imdbID
  }

  /** The slot after `addFavorite(movie)`: untouched when the id is already stored, else the list with `movie` appended. */
  function AddToSlot(slot: Slot, movie: MovieBasic): Slot {
    if HasId(ReadSlot(slot), movie.imdbID) then slot else Some(ReadSlot(slot) + [movie])
  }

  /** The slot after `removeFavorite(id)`: always written, with every entry carrying `id` filtered out. */
  function RemoveFromSlot(slot: Slot, id: string): (r: Slot)
    ensures r.Some? && |ReadSlot(r)| <= |ReadSlot(slot)|
    ensures forall m :: m in ReadSlot(r) <==> m in ReadSlot(slot) && m.imdbID != id
  {
    Some(WithoutId(ReadSlot(slot), id))
  }

  // ---------------------------------------------------------------------------
  // The filter

  /** Filtering a concatenation filters each part and keeps them in order. */
  lemma {:induction false} WithoutIdAppend(a: Favorites, b: Favorites, id: string)
    ensures WithoutId(a + b, id) == WithoutId(a, id) + WithoutId(b, id)
    decreases |a|
  {
    if a == [] {
      assert a + b == b;
    } else {
      assert (a + b)[0] == a[0];
      assert (a + b)[1..] == a[1..] + b;
      WithoutIdAppend(a[1..], b, id);
    }
  }

  /** One entry is kept exactly when its id differs; with WithoutIdAppend this fixes the filter's order. */
  lemma WithoutIdSingle(m: MovieBasic, id: string)
    ensures WithoutId([m], id) == if m.imdbID != id then [m] else []
  {
  }

  /** The filter drops something exactly when the id was stored. */
  lemma {:induction false} WithoutIdLength(list: Favorites, id: string)
    ensures |WithoutId(list, id)| == |list| <==> !HasId(list, id)
    ensures !HasId(list, id) ==> WithoutId(list, id) == list
    decreases |list|
  {
    if list != [] {
      WithoutIdLength(list[1..], id);
      assert list == [list[0]] + list[1..];
    }
  }

  /** Filtering twice by the same id is filtering once. */
  lemma WithoutIdIdempotent(list: Favorites, id: string)
    ensures WithoutId(WithoutId(list, id), id) == WithoutId(list, id)
  {
    var kept := WithoutId(list, id);
    forall k | 0 <= k < |kept| ensures kept[k].imdbID != id {
      assert kept[k] in kept;
    }
    WithoutIdLength(kept, id);
  }

  /** Filtering keeps stored ids distinct. */
  lemma {:induction false} WithoutIdDistinct(list: Favorites, id: string)
    requires DistinctIds(list)
    ensures DistinctIds(WithoutId(list, id))
    decreases |list|
  {
    if list != [] {
      var tail := list[1..];
      forall i, j | 0 <= i < j < |tail| ensures tail[i].imdbID != tail[j].imdbID {
        assert tail[i] == list[i + 1] && tail[j] == list[j + 1];
      }
      WithoutIdDistinct(tail, id);
      var rest := WithoutId(tail, id);
      if list[0].imdbID != id {
        forall k | 0 <= k < |rest| ensures rest[k].imdbID != list[0].imdbID {
          assert rest[k] in rest;
          var p :| 0 <= p < |tail| && tail[p] == rest[k];
          assert tail[p] == list[p + 1];
        }
        var kept := [list[0]] + rest;
        forall i, j | 0 <= i < j < |kept| ensures kept[i].imdbID != kept[j].imdbID {
          assert kept[j] == rest[j - 1];
          if i > 0 {
            assert kept[i] == rest[i - 1];
          }
        }
      }
    }
  }

  /** Removing one id leaves the answer for every other id unchanged. */
  lemma WithoutIdOthers(list: Favorites, id: string, other: string)
    requires other != id
    ensures HasId(WithoutId(list, id), other) == HasId(list, other)
  {
  }

  // ---------------------------------------------------------------------------
  // addFavorite and removeFavorite on the slot

  /** The movie just added is a favourite afterwards, whether or not it was appended. */
  lemma AddMakesFavorite(slot: Slot, movie: MovieBasic)
    ensures HasId(ReadSlot(AddToSlot(slot, movie)), movie.imdbID)
  {
    var list := ReadSlot(slot);
    if !HasId(list, movie.imdbID) {
      assert (list + [movie])[|list|] == movie;
    }
  }

  /**
   * Adding appends at the end and nothing else: earlier entries keep their
   * values and order; when the id is already stored the slot is left as it is,
   * so a stored entry with that id is kept even when the new record differs.
   */
  lemma AddAppends(slot: Slot, movie: MovieBasic)
    ensures var after := ReadSlot(AddToSlot(slot, movie));
      && |after| == |ReadSlot(slot)| + (if HasId(ReadSlot(slot), movie.imdbID) then 0 else 1)
      && after[..|ReadSlot(slot)|] == ReadSlot(slot)
      && (!HasId(ReadSlot(slot), movie.imdbID) ==> after[|ReadSlot(slot)|] == movie)
  {
  }

  /** Adding the same movie twice is adding it once. */
  lemma AddIdempotent(slot: Slot, movie: MovieBasic)
    ensures AddToSlot(AddToSlot(slot, movie), movie) == AddToSlot(slot, movie)
  {
    AddMakesFavorite(slot, movie);
  }

  /** Adding keeps stored ids distinct. */
  lemma AddDistinct(slot: Slot, movie: MovieBasic)
    requires DistinctIds(ReadSlot(slot))
    ensures DistinctIds(ReadSlot(AddToSlot(slot, movie)))
  {
  }

  /** Adding one movie leaves the answer for every other id unchanged. */
  lemma AddOthers(slot: Slot, movie: MovieBasic, other: string)
    requires other != movie.imdbID
    ensures HasId(ReadSlot(AddToSlot(slot, movie)), other) == HasId(ReadSlot(slot), other)
  {
    var list := ReadSlot(slot);
    if !HasId(list, movie.imdbID) {
      var after := list + [movie];
      if HasId(after, other) {
        var k :| 0 <= k < |after| && after[k].imdbID == other;
        assert k < |list| && after[k] == list[k];
      }
      if HasId(list, other) {
        var k :| 0 <= k < |list| && list[k].imdbID == other;
        assert after[k] == list[k];
      }
    }
  }

  /**
   * Removing writes exactly the entries without `id`, in their old relative
   * order: afterwards the id is not a favourite, the list is no longer and is
   * shorter exactly when the id was stored, and an absent or empty slot reads
   * back as no favourites.
   */
  lemma RemoveFiltered(slot: Slot, id: string)
    ensures var after := ReadSlot(RemoveFromSlot(slot, id));
      && !HasId(after, id)
      && |after| <= |ReadSlot(slot)|
      && (|after| < |ReadSlot(slot)| <==> HasId(ReadSlot(slot), id))
      && (ReadSlot(slot) == [] ==> after == [])
  {
    var after := ReadSlot(RemoveFromSlot(slot, id));
    WithoutIdLength(ReadSlot(slot), id);
    forall k | 0 <= k < |after| ensures after[k].imdbID != id {
      assert after[k] in after;
    }
  }

  /** Removing twice is removing once. */
  lemma RemoveIdempotent(slot: Slot, id: string)
    ensures RemoveFromSlot(RemoveFromSlot(slot, id), id) == RemoveFromSlot(slot, id)
  {
    WithoutIdIdempotent(ReadSlot(slot), id);
  }

  /** Removing keeps stored ids distinct. */
  lemma RemoveDistinct(slot: Slot, id: string)
    requires DistinctIds(ReadSlot(slot))
    ensures DistinctIds(ReadSlot(RemoveFromSlot(slot, id)))
  {
    WithoutIdDistinct(ReadSlot(slot), id);
  }

  /** Adding a movie and then removing its id is the same as only removing it. */
  lemma AddThenRemove(slot: Slot, movie: MovieBasic)
    ensures RemoveFromSlot(AddToSlot(slot, movie), movie.imdbID) == RemoveFromSlot(slot, movie.imdbID)
  {
    var list := ReadSlot(slot);
    if !HasId(list, movie.imdbID) {
      WithoutIdAppend(list, [movie], movie.imdbID);
      WithoutIdSingle(movie, movie.imdbID);
      assert WithoutId(list, movie.imdbID) + [] == WithoutId(list, movie.imdbID);
    }
  }

  // ---------------------------------------------------------------------------
  // Any sequence of calls

  /** A call that writes the slot. */
  datatype Change = Add(movie: MovieBasic) | Remove(id: string)

  function Apply(slot: Slot, change: Change): Slot {
    match change
    case Add(m) => AddToSlot(slot, m)
    case Remove(id) => RemoveFromSlot(slot, id)
  }

  /** The slot after a sequence of calls, first to last. */
  function Replay(slot: Slot, changes: seq<Change>): Slot
    decreases |changes|
  {
    if changes == [] then slot else Replay(Apply(slot, changes[0]), changes[1..])
  }

  /** Whether a call decides the id's membership: an add of a movie with that id, or a remove of it. */
  predicate Touches(change: Change, id: string) {
    match change
    case Add(m) => m.imdbID == id
    case Remove(r) => r == id
  }

  /** One call decides an id it touches (an add makes it a favourite, a remove unmakes it) and leaves any other id alone. */
  lemma ApplyDecides(slot: Slot, change: Change, id: string)
    ensures HasId(ReadSlot(Apply(slot, change)), id) ==
      if Touches(change, id) then change.Add? else HasId(ReadSlot(slot), id)
  {
    match change
    case Add(m) =>
      if m.imdbID == id {
        AddMakesFavorite(slot, m);
      } else {
        AddOthers(slot, m, id);
      }
    case Remove(r) =>
      if r == id {
        RemoveFiltered(slot, r);
      } else {
        WithoutIdOthers(ReadSlot(slot), r, id);
      }
  }

  /** Starting from distinct ids (an empty slot, say), any sequence of calls keeps the ids distinct. */
  lemma {:induction false} ReplayDistinct(slot: Slot, changes: seq<Change>)
    requires DistinctIds(ReadSlot(slot))
    ensures DistinctIds(ReadSlot(Replay(slot, changes)))
    decreases |changes|
  {
    if changes != [] {
      match changes[0] {
        case Add(m) => AddDistinct(slot, m);
        case Remove(id) => RemoveDistinct(slot, id);
      }
      ReplayDistinct(Apply(slot, changes[0]), changes[1..]);
    }
  }

  /** Calls that never touch an id leave its membership as it was. */
  lemma {:induction false} ReplayUntouched(slot: Slot, changes: seq<Change>, id: string)
    requires forall k :: 0 <= k < |changes| ==> !Touches(changes[k], id)
    ensures HasId(ReadSlot(Replay(slot, changes)), id) == HasId(ReadSlot(slot), id)
    decreases |changes|
  {
    if changes != [] {
      ApplyDecides(slot, changes[0], id);
      assert forall k :: 0 <= k < |changes[1..]| ==> changes[1..][k] == changes[k + 1];
      ReplayUntouched(Apply(slot, changes[0]), changes[1..], id);
    }
  }

  /**
   * After any sequence of calls, the last call touching an id decides it: it
   * is a favourite exactly when that call was an add.
   */
  lemma {:induction false} ReplayLastTouch(slot: Slot, changes: seq<Change>, id: string, last: nat)
    requires last < |changes| && Touches(changes[last], id)
    requires forall k :: last < k < |changes| ==> !Touches(changes[k], id)
    ensures HasId(ReadSlot(Replay(slot, changes)), id) == changes[last].Add?
    decreases |changes|
  {
    var rest := changes[1..];
    assert forall k :: 0 <= k < |rest| ==> rest[k] == changes[k + 1];
    if last == 0 {
      ApplyDecides(slot, changes[0], id);
      ReplayUntouched(Apply(slot, changes[0]), rest, id);
    } else {
      ReplayLastTouch(Apply(slot, changes[0]), rest, id, last - 1);
    }
  }

  // ---------------------------------------------------------------------------
  // The store

  /** The favourites store: one storage slot, read by getFavorites and isFavorite and overwritten by add and remove. */
  class FavoritesStore {
    var stored: Slot

    constructor (slot: Slot)
      ensures stored == slot
    {
      stored := slot;
    }

    /** getFavorites: the stored list; no favourites when nothing is stored. */
    function GetFavorites(): (list: Favorites)
      reads this
      ensures stored.None? ==> list == []
    {
      ReadSlot(stored)
    }

    /** isFavorite: whether some stored entry has the id. */
    function IsFavorite(id: string): (b: bool)
      reads this
      ensures b <==> exists k :: 0 <= k < |GetFavorites()| && GetFavorites()[k].imdbID == id
    {
      HasId(GetFavorites(), id)
    }

    /**
     * addFavorite: reads the list and writes it back with `movie` appended,
     * unless an entry with its id is stored, in which case nothing is written.
     */
    method AddFavorite(movie: MovieBasic)
      modifies this
      ensures stored == AddToSlot(old(stored), movie)
      ensures IsFavorite(movie.imdbID)
      ensures old(IsFavorite(movie.imdbID)) ==> stored == old(stored)
      ensures !old(IsFavorite(movie.imdbID)) ==> GetFavorites() == old(GetFavorites()) + [movie]
      ensures DistinctIds(old(GetFavorites())) ==> DistinctIds(GetFavorites())
    {
      var favorites := GetFavorites();
      if !HasId(favorites, movie.imdbID) {
        var updated := favorites + [movie];
        stored := Some(updated);
      }
      AddMakesFavorite(old(stored), movie);
      if DistinctIds(favorites) {
        AddDistinct(old(stored), movie);
      }
    }

    /** removeFavorite: reads the list and always writes back the entries whose id differs from `id`. */
    method RemoveFavorite(id: string)
      modifies this
      ensures stored == RemoveFromSlot(old(stored), id)
      ensures GetFavorites() == WithoutId(old(GetFavorites()), id)
      ensures !IsFavorite(id)
      ensures |GetFavorites()| <= |old(GetFavorites())|
      ensures DistinctIds(old(GetFavorites())) ==> DistinctIds(GetFavorites())
    {
      var favorites := GetFavorites();
      var updated := WithoutId(favorites, id);
      stored := Some(updated);
      RemoveFiltered(old(stored), id);
      if DistinctIds(favorites) {
        RemoveDistinct(old(stored), id);
      }
    }
  }
}
