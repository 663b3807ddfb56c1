/**
 * The favourites screen's state: the store's list, read through, and the
 * author selected for the detail pane.
 */
module FavoriteAuthorsViewModels {
  import opened Wrappers
  import opened FavoriteAuthors

  class FavoriteAuthorsViewModel {
    const store: FavoriteAuthorsStore
    var selectedAuthor: Option<FavoriteAuthor>

    constructor(store: FavoriteAuthorsStore)
      ensures this.store == store && selectedAuthor == None
    {
      this.store := store;
      selectedAuthor := None;
    }

    /** The store's list, as the view reads it. */
    function Favorites(): (r: seq<FavoriteAuthor>)
      reads this, store
      ensures forall id :: store.IsFavorite(id) <==> exists i :: 0 <= i < |r| && r[i].id == id
    {
      store.Favorites()
    }

    /** Whether there is no favourite at all. */
    function IsEmpty(): (b: bool)
      reads this, store
      ensures b <==> forall id :: !store.IsFavorite(id)
    {
      var empty := |Favorites()| == 0;
      assert !empty ==> store.IsFavorite(Favorites()[0].id);
      empty
    }

    /**
     * `removeFavorite`: toggles the author in the store (so an author that
     * is not a favourite gets added) and drops a selection with the same id.
     */
    method RemoveFavorite(author: FavoriteAuthor)
      modifies store, store.defaults, this
      ensures store.Favorites() == Toggled(old(store.Favorites()), author)
      ensures store.defaults.favoriteAuthors == Encoded(store.Favorites())
      ensures old(selectedAuthor).Some? && old(selectedAuthor).value.id == author.id ==> selectedAuthor == None
      ensures !(old(selectedAuthor).Some? && old(selectedAuthor).value.id == author.id) ==>
        selectedAuthor == old(selectedAuthor)
    {
      store.ToggleFavorite(author);
      if selectedAuthor.Some? && selectedAuthor.value.id == author.id {
        selectedAuthor := None;
      }
    }
  }

  /** Removing the selected author of a favourites list without repeated ids leaves it unselected and gone. */
  method RemoveSelected(vm: FavoriteAuthorsViewModel, author: FavoriteAuthor)
    requires vm.selectedAuthor == Some(author)
    requires vm.store.IsFavorite(author.id) && DistinctIds(vm.store.Favorites())
    modifies vm, vm.store, vm.store.defaults
    ensures vm.selectedAuthor == None
    ensures !vm.store.IsFavorite(author.id)
  {
    TogglePreservesDistinct(vm.store.Favorites(), author);
    vm.RemoveFavorite(author);
  }
}
