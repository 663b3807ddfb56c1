/**
 * The photo search screen's state: the first page of a search replaces the
 * photo list, later pages append only photos whose id has not been seen.
 *
 * Each `async` operation is split at its one suspension point, the call to
 * the API client: `BeginSearch` and `LoadMoreStart` run up to the call and
 * return the request they issue, `FinishSearch` and `LoadMoreFinish` run the
 * rest with the call's outcome as a parameter. `Search` and `LoadMore` run
 * both halves back to back. Nothing ties a finishing half to the search that
 * started it: as in the code, a late result is applied to whatever the state
 * is when it arrives.
 */
module SearchPhotos {
  import opened Wrappers

  datatype UnsplashPhoto = UnsplashPhoto(id: string, width: int, height: int, likes: int)

  /** The outcome of one `apiClient.searchPhotos` call. */
  datatype SearchResult =
    | Fetched(totalPages: int, results: seq<UnsplashPhoto>)
      /** The call threw; `message` is the error's localized description. */
    | Failed(message: string)

  /** The arguments of one `apiClient.searchPhotos` call. */
  datatype PageRequest = PageRequest(query: string, page: int, perPage: int)

  const PerPage := 30

  function SearchingMessage(query: string): string { "Searching for \"" + query + "\"..." }

  function NoPhotosMessage(query: string): string { "No photos found for \"" + query + "\"" }

  /** The ids of the photos in `s`. */
  function Ids(s: seq<UnsplashPhoto>): set<string>
  {
    set p | p in s :: p.id
  }

  /** No two photos share an id. */
  predicate DistinctIds(s: seq<UnsplashPhoto>)
  {
    forall i, j :: 0 <= i < j < |s| ==> s[i].id != s[j].id
  }

  /** `a` is `b` with some elements left out, the rest in the same order. */
  predicate IsSubsequence<T(==)>(a: seq<T>, b: seq<T>)
    decreases |b|
  {
    a == [] || (b != [] && ((a[0] == b[0] && IsSubsequence(a[1..], b[1..])) || IsSubsequence(a, b[1..])))
  }

  /**
   * The `for photo in response.results` loop: every photo whose id gets
   * inserted into `seen` is appended to `kept`. The result is the photo list
   * and the id set after the loop.
   */
  function Absorb(seen: set<string>, kept: seq<UnsplashPhoto>, rest: seq<UnsplashPhoto>)
    : (r: (seq<UnsplashPhoto>, set<string>))
    ensures |kept| <= |r.0| <= |kept| + |rest|
    ensures seen <= r.1
    decreases |rest|
  {
    if rest == [] then (kept, seen)
    else if rest[0].id in seen then Absorb(seen, kept, rest[1..])
    else Absorb(seen + {rest[0].id}, kept + [rest[0]], rest[1..])
  }

  /** The photos already there stay first, in their order. */
  lemma {:induction false} AbsorbKeepsPrefix(seen: set<string>, kept: seq<UnsplashPhoto>, rest: seq<UnsplashPhoto>)
    ensures var out := Absorb(seen, kept, rest).0;
      |kept| <= |out| && out[..|kept|] == kept
    decreases |rest|
  {
    if rest != [] {
      if rest[0].id in seen {
        AbsorbKeepsPrefix(seen, kept, rest[1..]);
      } else {
        AbsorbKeepsPrefix(seen + {rest[0].id}, kept + [rest[0]], rest[1..]);
        var out := Absorb(seen, kept, rest).0;
        assert out[..|kept|] == out[..|kept| + 1][..|kept|];
      }
    }
  }

  /** Afterwards the id set holds the ids seen before and every id of the response. */
  lemma {:induction false} AbsorbSeenIds(seen: set<string>, kept: seq<UnsplashPhoto>, rest: seq<UnsplashPhoto>)
    ensures Absorb(seen, kept, rest).1 == seen + Ids(rest)
    decreases |rest|
  {
    if rest != [] {
      assert Ids(rest) == {rest[0].id} + Ids(rest[1..]) by {
        assert rest == [rest[0]] + rest[1..];
      }
      if rest[0].id in seen {
        AbsorbSeenIds(seen, kept, rest[1..]);
      } else {
        AbsorbSeenIds(seen + {rest[0].id}, kept + [rest[0]], rest[1..]);
      }
    }
  }

  /** The photo list gains exactly the response's ids that had not been seen. */
  lemma {:induction false} AbsorbAddedIds(seen: set<string>, kept: seq<UnsplashPhoto>, rest: seq<UnsplashPhoto>)
    ensures Ids(Absorb(seen, kept, rest).0) == Ids(kept) + (Ids(rest) - seen)
    decreases |rest|
  {
    if rest != [] {
      assert Ids(rest) == {rest[0].id} + Ids(rest[1..]) by {
        assert rest == [rest[0]] + rest[1..];
      }
      if rest[0].id in seen {
        AbsorbAddedIds(seen, kept, rest[1..]);
      } else {
        AbsorbAddedIds(seen + {rest[0].id}, kept + [rest[0]], rest[1..]);
        assert Ids(kept + [rest[0]]) == Ids(kept) + {rest[0].id} by {
          assert forall p :: p in kept + [rest[0]] <==> p in kept || p == rest[0];
        }
      }
    }
  }

  /**
   * If the photo ids are distinct and all in the id set before the loop,
   * both still hold after it.
   */
  lemma {:induction false} AbsorbPreservesInvariant(seen: set<string>, kept: seq<UnsplashPhoto>, rest: seq<UnsplashPhoto>)
    requires DistinctIds(kept) && Ids(kept) <= seen
    ensures var (out, seen') := Absorb(seen, kept, rest);
      DistinctIds(out) && Ids(out) <= seen'
    decreases |rest|
  {
    if rest != [] {
      if rest[0].id in seen {
        AbsorbPreservesInvariant(seen, kept, rest[1..]);
      } else {
        var kept' := kept + [rest[0]];
        assert Ids(kept') == Ids(kept) + {rest[0].id} by {
          assert forall p :: p in kept' <==> p in kept || p == rest[0];
        }
        assert DistinctIds(kept') by {
          forall i | 0 <= i < |kept|
            ensures kept'[i].id != rest[0].id
          {
            assert kept[i] in kept;
          }
        }
        AbsorbPreservesInvariant(seen + {rest[0].id}, kept', rest[1..]);
      }
    }
  }

  /**
   * What is appended comes from the response, in response order, and
   * carries only ids that had not been seen.
   */
  lemma {:induction false} AbsorbAppendsFromResponse(seen: set<string>, kept: seq<UnsplashPhoto>, rest: seq<UnsplashPhoto>)
    ensures var out := Absorb(seen, kept, rest).0;
      |kept| <= |out|
      && IsSubsequence(out[|kept|..], rest)
      && (forall k :: |kept| <= k < |out| ==> out[k].id !in seen)
    decreases |rest|
  {
    AbsorbKeepsPrefix(seen, kept, rest);
    var out := Absorb(seen, kept, rest).0;
    if rest != [] {
      if rest[0].id in seen {
        AbsorbAppendsFromResponse(seen, kept, rest[1..]);
      } else {
        var kept' := kept + [rest[0]];
        AbsorbAppendsFromResponse(seen + {rest[0].id}, kept', rest[1..]);
        AbsorbKeepsPrefix(seen + {rest[0].id}, kept', rest[1..]);
        assert out[|kept|] == out[..|kept'|][|kept|] == rest[0];
        assert out[|kept|..][1..] == out[|kept'|..];
      }
    }
  }

  /**
   * Every photo of the response that is the first with its id and whose id
   * had not been seen is appended.
   */
  lemma {:induction false} AbsorbKeepsFirstOccurrences(
    seen: set<string>, kept: seq<UnsplashPhoto>, rest: seq<UnsplashPhoto>, i: nat)
    requires i < |rest| && rest[i].id !in seen
    requires forall j :: 0 <= j < i ==> rest[j].id != rest[i].id
    ensures rest[i] in Absorb(seen, kept, rest).0
    decreases |rest|
  {
    if i == 0 {
      AbsorbKeepsPrefix(seen + {rest[0].id}, kept + [rest[0]], rest[1..]);
      var out := Absorb(seen, kept, rest).0;
      assert out[|kept|] == out[..|kept| + 1][|kept|];
    } else if rest[0].id in seen {
      AbsorbKeepsFirstOccurrences(seen, kept, rest[1..], i - 1);
    } else {
      AbsorbKeepsFirstOccurrences(seen + {rest[0].id}, kept + [rest[0]], rest[1..], i - 1);
    }
  }

  /** The first page [A, B] followed by the page [B, C] gives [A, B, C]. */
  lemma RepeatedPhotoDropped(a: UnsplashPhoto, b: UnsplashPhoto, c: UnsplashPhoto)
    requires a.id != b.id && b.id != c.id && a.id != c.id
    ensures Absorb({}, [], [a, b]) == ([a, b], {a.id, b.id})
    ensures Absorb({a.id, b.id}, [a, b], [b, c]) == ([a, b, c], {a.id, b.id, c.id})
  {
    assert [a, b][1..] == [b] && [b][1..] == [];
    assert Absorb({a.id}, [a], [b]) == ([a] + [b], {a.id} + {b.id});
    assert Absorb({}, [], [a, b]) == Absorb({} + {a.id}, [] + [a], [b]);
    assert [] + [a] == [a] && {} + {a.id} == {a.id};
    assert [a] + [b] == [a, b] && {a.id} + {b.id} == {a.id, b.id};
    assert [b, c][1..] == [c] && [c][1..] == [];
    assert Absorb({a.id, b.id}, [a, b], [b, c]) == Absorb({a.id, b.id}, [a, b], [c]);
    assert Absorb({a.id, b.id}, [a, b], [c]) == ([a, b] + [c], {a.id, b.id} + {c.id});
    assert [a, b] + [c] == [a, b, c] && {a.id, b.id} + {c.id} == {a.id, b.id, c.id};
  }

  class SearchPhotosViewModel {
    var photos: seq<UnsplashPhoto>
    var isLoading: bool
    var message: Option<string>
    var searchQuery: string
    var currentPage: int
    var hasMorePages: bool
    /** Whether `loadTask` is non-nil. */
    var loadTask: bool
    var loadedPhotoIDs: set<string>

    /** Every call made to the API client, in order. */
    ghost var requests: seq<PageRequest>
    /** Searches suspended at their API call. */
    ghost var pendingSearches: nat
    /** Load tasks suspended at their API call. */
    ghost var pendingLoads: nat

    /**
     * Photo ids are distinct and recorded in `loadedPhotoIDs`, except while
     * a search is under way: `resetSearchState` empties the id set but leaves
     * the previous photos on screen until the search finishes.
     */
    ghost predicate Valid()
      reads this
    {
      pendingSearches == 0 ==> DistinctIds(photos) && Ids(photos) <= loadedPhotoIDs
    }

    constructor()
      ensures Valid()
      ensures photos == [] && !isLoading && message == None && searchQuery == ""
      ensures currentPage == 1 && hasMorePages && !loadTask && loadedPhotoIDs == {}
      ensures requests == [] && pendingSearches == 0 && pendingLoads == 0
    {
      photos, isLoading, message, searchQuery := [], false, None, "";
      currentPage, hasMorePages, loadTask, loadedPhotoIDs := 1, true, false, {};
      requests, pendingSearches, pendingLoads := [], 0, 0;
    }

    /** `lastRowIndex`: 0 when there are more photos than `photoPerRow`, otherwise the last index. */
    function LastRowIndex(photoPerRow: int): (r: int)
      reads this
      ensures |photos| > photoPerRow ==> r == 0
      ensures |photos| <= photoPerRow ==> r == |photos| - 1
      ensures photos != [] ==> 0 <= r < |photos|
    {
      if |photos| > photoPerRow then photoPerRow - photoPerRow else |photos| - 1
    }

    method ResetSearchState(query: string)
      modifies this
      ensures !loadTask && searchQuery == query && currentPage == 1 && hasMorePages
      ensures isLoading && message == Some(SearchingMessage(query)) && loadedPhotoIDs == {}
      ensures photos == old(photos)
      ensures requests == old(requests) && pendingSearches == old(pendingSearches) && pendingLoads == old(pendingLoads)
    {
      loadTask := false;
      searchQuery := query;
      currentPage := 1;
      hasMorePages := true;
      isLoading := true;
      message := Some(SearchingMessage(query));
      loadedPhotoIDs := {};
    }

    /** `search(query:)` up to the API call; returns the request it issues, if any. */
    method BeginSearch(query: string) returns (request: Option<PageRequest>)
      requires Valid()
      modifies this
      ensures Valid()
      ensures query == "" ==>
        && request == None && photos == [] && requests == old(requests)
        && isLoading == old(isLoading) && message == old(message) && searchQuery == old(searchQuery)
        && currentPage == old(currentPage) && hasMorePages == old(hasMorePages)
        && loadTask == old(loadTask) && loadedPhotoIDs == old(loadedPhotoIDs)
        && pendingSearches == old(pendingSearches)
      ensures query != "" ==>
        && request == Some(PageRequest(query, 1, PerPage))
        && requests == old(requests) + [request.value]
        && !loadTask && searchQuery == query && currentPage == 1 && hasMorePages
        && isLoading && message == Some(SearchingMessage(query)) && loadedPhotoIDs == {}
        && photos == old(photos) && pendingSearches == old(pendingSearches) + 1
      ensures pendingLoads == old(pendingLoads)
    {
      if query == "" {
        photos := [];
        return None;
      }
      ResetSearchState(query);
      request := Some(PageRequest(query, currentPage, PerPage));
      requests := requests + [request.value];
      pendingSearches := pendingSearches + 1;
    }

    /** The rest of `search(query:)` once the API call has returned `result`. */
    method FinishSearch(query: string, result: SearchResult)
      requires Valid() && pendingSearches > 0
      modifies this
      ensures Valid()
      ensures DistinctIds(photos) && Ids(photos) <= loadedPhotoIDs
      ensures result.Fetched? ==>
        var (firstPage, seen) := Absorb(old(loadedPhotoIDs), [], result.results);
        && photos == firstPage && loadedPhotoIDs == seen
        && hasMorePages == (currentPage < result.totalPages)
        && message == (if photos == [] then Some(NoPhotosMessage(query)) else None)
      ensures result.Failed? ==>
        photos == [] && message == Some(result.message)
        && loadedPhotoIDs == old(loadedPhotoIDs) && hasMorePages == old(hasMorePages)
      ensures !isLoading
      ensures searchQuery == old(searchQuery) && currentPage == old(currentPage) && loadTask == old(loadTask)
      ensures requests == old(requests) && pendingSearches == old(pendingSearches) - 1
      ensures pendingLoads == old(pendingLoads)
    {
      match result {
      case Fetched(totalPages, results) =>
        var uniquePhotos: seq<UnsplashPhoto> := [];
        ghost var seen0 := loadedPhotoIDs;
        AbsorbPreservesInvariant(seen0, [], results);
        for i := 0 to |results|
          invariant Absorb(loadedPhotoIDs, uniquePhotos, results[i..]) == Absorb(seen0, [], results)
          invariant photos == old(photos) && isLoading == old(isLoading) && message == old(message)
          invariant searchQuery == old(searchQuery) && currentPage == old(currentPage)
          invariant hasMorePages == old(hasMorePages) && loadTask == old(loadTask)
          invariant requests == old(requests) && pendingSearches == old(pendingSearches)
          invariant pendingLoads == old(pendingLoads)
        {
          assert results[i..][1..] == results[i + 1..];
          var photo := results[i];
          if photo.id !in loadedPhotoIDs {
            loadedPhotoIDs := loadedPhotoIDs + {photo.id};
            uniquePhotos := uniquePhotos + [photo];
          }
        }
        photos := uniquePhotos;
        hasMorePages := currentPage < totalPages;
        if photos == [] {
          message := Some(NoPhotosMessage(query));
        } else {
          message := None;
        }
      case Failed(msg) =>
        message := Some(msg);
        photos := [];
      }
      isLoading := false;
      pendingSearches := pendingSearches - 1;
    }

    /** `search(query:)` when nothing else happens while its API call is outstanding. */
    method Search(query: string, result: SearchResult)
      requires Valid()
      modifies this
      ensures Valid()
      ensures query == "" ==>
        && photos == [] && requests == old(requests)
        && isLoading == old(isLoading) && message == old(message) && searchQuery == old(searchQuery)
        && currentPage == old(currentPage) && hasMorePages == old(hasMorePages)
        && loadTask == old(loadTask) && loadedPhotoIDs == old(loadedPhotoIDs)
      ensures query != "" ==>
        && requests == old(requests) + [PageRequest(query, 1, PerPage)]
        && searchQuery == query && currentPage == 1 && !isLoading && !loadTask
        && DistinctIds(photos) && Ids(photos) <= loadedPhotoIDs
      ensures query != "" && result.Fetched? ==>
        var (firstPage, seen) := Absorb({}, [], result.results);
        && photos == firstPage && loadedPhotoIDs == seen
        && hasMorePages == (1 < result.totalPages)
        && message == (if photos == [] then Some(NoPhotosMessage(query)) else None)
      ensures query != "" && result.Failed? ==>
        photos == [] && loadedPhotoIDs == {} && hasMorePages && message == Some(result.message)
      ensures query != "" ==> loadedPhotoIDs == Ids(photos)
      ensures pendingSearches == old(pendingSearches) && pendingLoads == old(pendingLoads)
    {
      var request := BeginSearch(query);
      if request.Some? {
        FinishSearch(query, result);
        if result.Fetched? {
          AbsorbSeenIds({}, [], result.results);
          AbsorbAddedIds({}, [], result.results);
        }
      }
    }

    /**
     * Whether `loadMore()` gets past its two guards: it stops while a load
     * is in progress, after the last page, without a query, and while a load
     * task exists; in every other state it proceeds.
     */
    function CanLoadMore(): (b: bool)
      reads this
      ensures isLoading ==> !b
      ensures !hasMorePages ==> !b
      ensures searchQuery == "" ==> !b
      ensures loadTask ==> !b
      ensures !isLoading && hasMorePages && searchQuery != "" && !loadTask ==> b
    {
      !isLoading && hasMorePages && searchQuery != "" && !loadTask
    }

    /**
     * `loadMore()` up to the API call: the guards, then the start of the load
     * task, which raises the page. Returns the request it issues, if any.
     */
    method LoadMoreStart() returns (request: Option<PageRequest>)
      requires Valid()
      modifies this
      ensures Valid()
      ensures !old(CanLoadMore()) ==>
        && request == None
        && photos == old(photos) && isLoading == old(isLoading) && message == old(message)
        && searchQuery == old(searchQuery) && currentPage == old(currentPage)
        && hasMorePages == old(hasMorePages) && loadTask == old(loadTask)
        && loadedPhotoIDs == old(loadedPhotoIDs)
        && requests == old(requests) && pendingLoads == old(pendingLoads)
      ensures old(CanLoadMore()) ==>
        request == Some(PageRequest(searchQuery, old(currentPage) + 1, PerPage))
        && requests == old(requests) + [request.value]
        && loadTask && isLoading && currentPage == old(currentPage) + 1
        && photos == old(photos) && message == old(message) && searchQuery == old(searchQuery)
        && hasMorePages == old(hasMorePages) && loadedPhotoIDs == old(loadedPhotoIDs)
        && pendingLoads == old(pendingLoads) + 1
      ensures pendingSearches == old(pendingSearches)
    {
      if !(!isLoading && hasMorePages && searchQuery != "") {
        return None;
      }
      if loadTask {
        return None;
      }
      loadTask := true;
      isLoading := true;
      currentPage := currentPage + 1;
      request := Some(PageRequest(searchQuery, currentPage, PerPage));
      requests := requests + [request.value];
      pendingLoads := pendingLoads + 1;
    }

    /** The rest of the load task once its API call has returned `result`. */
    method LoadMoreFinish(result: SearchResult)
      requires Valid() && pendingLoads > 0
      modifies this
      ensures Valid()
      ensures result.Fetched? ==>
        var (more, seen) := Absorb(old(loadedPhotoIDs), old(photos), result.results);
        && photos == more && loadedPhotoIDs == seen
        && hasMorePages == (currentPage < result.totalPages)
        && currentPage == old(currentPage) && message == old(message)
      ensures result.Failed? ==>
        currentPage == old(currentPage) - 1 && message == Some(result.message)
        && photos == old(photos) && loadedPhotoIDs == old(loadedPhotoIDs)
        && hasMorePages == old(hasMorePages)
      ensures !isLoading && !loadTask
      ensures searchQuery == old(searchQuery)
      ensures requests == old(requests) && pendingLoads == old(pendingLoads) - 1
      ensures pendingSearches == old(pendingSearches)
    {
      match result {
      case Fetched(totalPages, results) =>
        ghost var seen0, photos0 := loadedPhotoIDs, photos;
        if pendingSearches == 0 {
          AbsorbPreservesInvariant(seen0, photos0, results);
        }
        for i := 0 to |results|
          invariant Absorb(loadedPhotoIDs, photos, results[i..]) == Absorb(seen0, photos0, results)
          invariant isLoading == old(isLoading) && message == old(message)
          invariant searchQuery == old(searchQuery) && currentPage == old(currentPage)
          invariant hasMorePages == old(hasMorePages) && loadTask == old(loadTask)
          invariant requests == old(requests) && pendingSearches == old(pendingSearches)
          invariant pendingLoads == old(pendingLoads)
        {
          assert results[i..][1..] == results[i + 1..];
          var photo := results[i];
          if photo.id !in loadedPhotoIDs {
            loadedPhotoIDs := loadedPhotoIDs + {photo.id};
            photos := photos + [photo];
          }
        }
        hasMorePages := currentPage < totalPages;
      case Failed(msg) =>
        message := Some(msg);
        currentPage := currentPage - 1;
      }
      isLoading := false;
      loadTask := false;
      pendingLoads := pendingLoads - 1;
    }

    /** `loadMore()` when nothing else happens while its API call is outstanding. */
    method LoadMore(result: SearchResult) returns (issued: bool)
      requires Valid()
      modifies this
      ensures Valid()
      ensures issued == old(CanLoadMore())
      ensures !issued ==>
        photos == old(photos) && isLoading == old(isLoading) && message == old(message)
        && searchQuery == old(searchQuery) && currentPage == old(currentPage)
        && hasMorePages == old(hasMorePages) && loadTask == old(loadTask)
        && loadedPhotoIDs == old(loadedPhotoIDs) && requests == old(requests)
      ensures issued ==>
        requests == old(requests) + [PageRequest(old(searchQuery), old(currentPage) + 1, PerPage)]
        && searchQuery == old(searchQuery) && !isLoading && !loadTask
      ensures issued && result.Fetched? ==>
        var (more, seen) := Absorb(old(loadedPhotoIDs), old(photos), result.results);
        && photos == more && loadedPhotoIDs == seen
        && currentPage == old(currentPage) + 1
        && hasMorePages == (old(currentPage) + 1 < result.totalPages)
        && message == old(message)
      ensures issued && result.Failed? ==>
        currentPage == old(currentPage) && message == Some(result.message)
        && photos == old(photos) && loadedPhotoIDs == old(loadedPhotoIDs)
        && hasMorePages == old(hasMorePages)
      ensures |old(photos)| <= |photos| && photos[..|old(photos)|] == old(photos)
      ensures old(loadedPhotoIDs) == old(Ids(photos)) ==> loadedPhotoIDs == Ids(photos)
      ensures pendingSearches == old(pendingSearches) && pendingLoads == old(pendingLoads)
    {
      ghost var photos0, seen0 := photos, loadedPhotoIDs;
      var request := LoadMoreStart();
      issued := request.Some?;
      if issued {
        LoadMoreFinish(result);
        if result.Fetched? {
          AbsorbKeepsPrefix(seen0, photos0, result.results);
          AbsorbSeenIds(seen0, photos0, result.results);
          AbsorbAddedIds(seen0, photos0, result.results);
        }
      }
    }
  }

  /** A second page that repeats a photo of the first adds only the new one: [A, B] then [B, C] is [A, B, C]. */
  method PaginationDropsRepeats(a: UnsplashPhoto, b: UnsplashPhoto, c: UnsplashPhoto)
    returns (vm: SearchPhotosViewModel)
    requires a.id != b.id && b.id != c.id && a.id != c.id
    ensures vm.photos == [a, b, c] && !vm.hasMorePages
    ensures vm.requests == [PageRequest("cat", 1, PerPage), PageRequest("cat", 2, PerPage)]
  {
    vm := new SearchPhotosViewModel();
    vm.Search("cat", Fetched(2, [a, b]));
    RepeatedPhotoDropped(a, b, c);
    var issued := vm.LoadMore(Fetched(2, [b, c]));
  }

  /** After a failed second page, the next `loadMore()` asks for page 2 again. */
  method FailedPageIsRetried(a: UnsplashPhoto, msg: string)
    returns (vm: SearchPhotosViewModel)
    ensures vm.photos == [a]
    ensures vm.requests ==
      [PageRequest("cat", 1, PerPage), PageRequest("cat", 2, PerPage), PageRequest("cat", 2, PerPage)]
  {
    vm := new SearchPhotosViewModel();
    vm.Search("cat", Fetched(3, [a]));
    assert vm.photos == [a];
    var first := vm.LoadMore(Failed(msg));
    var second := vm.LoadMore(Fetched(3, []));
  }

  /**
   * Nothing discards a late result: a page requested for "cat" that arrives
   * after a search for "dog" has finished is appended to the "dog" photos.
   */
  method LateResultIsApplied(cat1: UnsplashPhoto, cat2: UnsplashPhoto, dog1: UnsplashPhoto)
    returns (vm: SearchPhotosViewModel)
    requires cat2.id != dog1.id
    ensures vm.searchQuery == "dog" && vm.photos == [dog1, cat2]
  {
    vm := new SearchPhotosViewModel();
    vm.Search("cat", Fetched(3, [cat1]));
    var request := vm.LoadMoreStart();
    assert request == Some(PageRequest("cat", 2, PerPage));
    vm.Search("dog", Fetched(1, [dog1]));
    assert vm.photos == [dog1];
    vm.LoadMoreFinish(Fetched(3, [cat2]));
  }

  /**
   * The same gap with a failure: the load task of the "cat" session fails
   * (for example because the new search cancelled it) while the search for
   * "dog" is waiting for its first page. The rollback then applies to the
   * new session, whose page drops from 1 to 0, and its loading flag is
   * cleared although its search has not finished.
   */
  method StaleFailureRollsBackNewSearch(cat1: UnsplashPhoto, msg: string)
    returns (vm: SearchPhotosViewModel)
    ensures vm.searchQuery == "dog" && vm.currentPage == 0
    ensures !vm.isLoading && vm.pendingSearches == 1
    ensures vm.message == Some(msg)
  {
    vm := new SearchPhotosViewModel();
    vm.Search("cat", Fetched(3, [cat1]));
    var request := vm.LoadMoreStart();
    assert request == Some(PageRequest("cat", 2, PerPage));
    var dogRequest := vm.BeginSearch("dog");
    vm.LoadMoreFinish(Failed(msg));
  }

  /**
   * After the stale failure above, nothing blocks another `loadMore`: the
   * id set was emptied by the new search, so a page repeating the photo
   * still on screen appends it a second time.
   */
  method StaleFailureAllowsDuplicate(cat1: UnsplashPhoto, msg: string)
    returns (vm: SearchPhotosViewModel)
    ensures vm.searchQuery == "dog" && vm.photos == [cat1, cat1]
    ensures |vm.requests| > 0 && vm.requests[|vm.requests| - 1] == PageRequest("dog", 1, PerPage)
  {
    vm := new SearchPhotosViewModel();
    vm.Search("cat", Fetched(3, [cat1]));
    assert vm.photos == [cat1] && vm.hasMorePages && !vm.isLoading && !vm.loadTask;
    var request := vm.LoadMoreStart();
    var dogRequest := vm.BeginSearch("dog");
    vm.LoadMoreFinish(Failed(msg));
    assert vm.photos == [cat1] && vm.loadedPhotoIDs == {} && vm.currentPage == 0;
    assert vm.hasMorePages && vm.searchQuery == "dog" && vm.pendingSearches == 1;
    assert [cat1][1..] == [];
    assert Absorb({}, [cat1], [cat1]) == ([cat1] + [cat1], {} + {cat1.id});
    assert [cat1] + [cat1] == [cat1, cat1];
    var issued := vm.LoadMore(Fetched(3, [cat1]));
  }
}
