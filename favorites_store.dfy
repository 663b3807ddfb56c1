/**
 * The persisted list of favourite authors. Toggling an author removes the
 * first entry with the same id, or appends the author when there is none.
 * The JSON encoding and `UserDefaults` are abstracted as a `Defaults` cell
 * holding the last written `Data`.
 */
module FavoriteAuthors {
  import opened Wrappers

  datatype FavoriteAuthor = FavoriteAuthor(
    id: string, username: string, name: string, userImage: Option<string>, url: Option<string>)

  /** Persisted bytes: nothing stored (an empty `Data`), an encoded list, or bytes that do not decode. */
  datatype Data = Empty | Encoded(authors: seq<FavoriteAuthor>) | Undecodable

  /** What the getter of `favorites` reads out of the persisted bytes. */
  function Decode(d: Data): (r: seq<FavoriteAuthor>)
    ensures d.Encoded? ==> r == d.authors
    ensures !d.Encoded? ==> r == []
  {
    match d
    case Empty => []
    case Encoded(authors) => authors
    case Undecodable => []
  }

  /** The `UserDefaults` slot under the key "favoriteAuthors". */
  class Defaults {
    var favoriteAuthors: Data

    constructor(initial: Data)
      ensures favoriteAuthors == initial
    {
      favoriteAuthors := initial;
    }
  }

  /** True when some entry of `l` has the id `id`: `contains(where: { $0.id == id })`. */
  function ContainsId(l: seq<FavoriteAuthor>, id: string): (b: bool)
    ensures b <==> exists i :: 0 <= i < |l| && l[i].id == id
  {
    if l == [] then false
    else if l[0].id == id then true
    else
      var b := ContainsId(l[1..], id);
      assert forall i :: 1 <= i < |l| ==> l[i] == l[1..][i - 1];
      b
  }

  /** `firstIndex(where: { $0.id == id })`. */
  function FirstIndex(l: seq<FavoriteAuthor>, id: string): (r: Option<nat>)
    ensures r.Some? ==> r.value < |l| && l[r.value].id == id
    ensures r.Some? ==> forall j :: 0 <= j < r.value ==> l[j].id != id
    ensures r.None? <==> !ContainsId(l, id)
  {
    if l == [] then None
    else if l[0].id == id then Some(0)
    else
      match FirstIndex(l[1..], id)
      case None => None
      case Some(k) => Some(k + 1)
  }

  /** The list `toggleFavorite` writes back, as a function of the list it read. */
  function Toggled(l: seq<FavoriteAuthor>, author: FavoriteAuthor): (r: seq<FavoriteAuthor>)
    ensures |r| == if FirstIndex(l, author.id).Some? then |l| - 1 else |l| + 1
  {
    match FirstIndex(l, author.id)
    case Some(i) => l[..i] + l[i + 1..]
    case None => l + [author]
  }

  /** No two entries share an id. */
  predicate DistinctIds(l: seq<FavoriteAuthor>)
  {
    forall i, j :: 0 <= i < j < |l| ==> l[i].id != l[j].id
  }

  class FavoriteAuthorsStore {
    const defaults: Defaults
    var favoritesData: Data

    /** A store starts from whatever the defaults hold. */
    constructor(defaults: Defaults)
      ensures this.defaults == defaults
      ensures favoritesData == defaults.favoriteAuthors
      ensures Favorites() == Decode(defaults.favoriteAuthors)
    {
      this.defaults := defaults;
      favoritesData := defaults.favoriteAuthors;
    }

    /** The getter of `favorites`. */
    function Favorites(): (r: seq<FavoriteAuthor>)
      reads this
      ensures favoritesData.Encoded? ==> r == favoritesData.authors
      ensures !favoritesData.Encoded? ==> r == []
    {
      Decode(favoritesData)
    }

    /** The setter of `favorites`: encode, keep, and persist. */
    method SetFavorites(newValue: seq<FavoriteAuthor>)
      modifies this, defaults
      ensures favoritesData == Encoded(newValue) && Favorites() == newValue
      ensures defaults.favoriteAuthors == Encoded(newValue)
    {
      favoritesData := Encoded(newValue);
      defaults.favoriteAuthors := favoritesData;
    }

    method ToggleFavorite(author: FavoriteAuthor)
      modifies this, defaults
      ensures Favorites() == Toggled(old(Favorites()), author)
      ensures defaults.favoriteAuthors == Encoded(Favorites())
    {
      var currentFavorites := Favorites();
      var index := FirstIndex(currentFavorites, author.id);
      if index.Some? {
        currentFavorites := currentFavorites[..index.value] + currentFavorites[index.value + 1..];
      } else {
        currentFavorites := currentFavorites + [author];
      }
      SetFavorites(currentFavorites);
    }

    /** `isFavorite`: whether some favourite has the id. */
    function IsFavorite(authorId: string): (b: bool)
      reads this
      ensures b <==> exists i :: 0 <= i < |Favorites()| && Favorites()[i].id == authorId
    {
      ContainsId(Favorites(), authorId)
    }
  }

  /** Toggling an author whose id is absent appends it after the existing entries. */
  lemma ToggleAbsentAppends(l: seq<FavoriteAuthor>, author: FavoriteAuthor)
    requires !ContainsId(l, author.id)
    ensures Toggled(l, author) == l + [author]
  {
  }

  /**
   * Toggling an author whose id is present removes the first entry with that
   * id, whatever its other fields, and keeps the others in order.
   */
  lemma TogglePresentRemovesFirst(l: seq<FavoriteAuthor>, author: FavoriteAuthor)
    requires ContainsId(l, author.id)
    ensures exists i :: (0 <= i < |l| && l[i].id == author.id
      && (forall j :: 0 <= j < i ==> l[j].id != author.id)
      && Toggled(l, author) == l[..i] + l[i + 1..])
  {
    var found := FirstIndex(l, author.id);
    assert found.Some?;
    var i := found.value;
    assert 0 <= i < |l| && l[i].id == author.id;
    assert forall j :: 0 <= j < i ==> l[j].id != author.id;
    assert Toggled(l, author) == l[..i] + l[i + 1..];
  }

  /** Toggling an absent author twice gives back the original list. */
  lemma ToggleTwiceRestores(l: seq<FavoriteAuthor>, author: FavoriteAuthor)
    requires !ContainsId(l, author.id)
    ensures Toggled(Toggled(l, author), author) == l
  {
    var l' := l + [author];
    assert l'[|l|].id == author.id;
    var i := FirstIndex(l', author.id).value;
    assert i == |l|;
    assert l'[..i] == l;
  }

  /** Toggling keeps ids distinct and flips whether the author's id is present. */
  lemma TogglePreservesDistinct(l: seq<FavoriteAuthor>, author: FavoriteAuthor)
    requires DistinctIds(l)
    ensures DistinctIds(Toggled(l, author))
    ensures ContainsId(Toggled(l, author), author.id) <==> !ContainsId(l, author.id)
  {
    var t := Toggled(l, author);
    match FirstIndex(l, author.id)
    case None =>
      assert t == l + [author];
      assert t[|l|].id == author.id;
    case Some(i) =>
      assert t == l[..i] + l[i + 1..];
      assert forall k :: 0 <= k < |t| ==> t[k] == if k < i then l[k] else l[k + 1];
  }

  /** Toggling other ids leaves an author's membership alone. */
  lemma ToggleKeepsOthers(l: seq<FavoriteAuthor>, author: FavoriteAuthor, other: string)
    requires other != author.id
    ensures ContainsId(Toggled(l, author), other) <==> ContainsId(l, other)
  {
    var t := Toggled(l, author);
    match FirstIndex(l, author.id)
    case None =>
      assert t == l + [author];
      if ContainsId(l, other) {
        var k :| 0 <= k < |l| && l[k].id == other;
        assert t[k] == l[k];
      }
    case Some(i) =>
      assert t == l[..i] + l[i + 1..];
      assert forall k :: 0 <= k < |t| ==> t[k] == if k < i then l[k] else l[k + 1];
      if ContainsId(l, other) {
        var k :| 0 <= k < |l| && l[k].id == other;
        assert k != i;
        if k < i { assert t[k] == l[k]; } else { assert t[k - 1] == l[k]; }
      }
  }

  /**
   * A store created over the same defaults reads what an earlier store
   * wrote: two authors added through one store are both favourites of the next.
   */
  method ReloadSeesEarlierWrites(a1: FavoriteAuthor, a2: FavoriteAuthor)
    returns (store2: FavoriteAuthorsStore)
    requires a1.id != a2.id
    ensures store2.Favorites() == [a1, a2]
    ensures store2.IsFavorite(a1.id) && store2.IsFavorite(a2.id)
  {
    var defaults := new Defaults(Empty);
    var store1 := new FavoriteAuthorsStore(defaults);
    assert store1.Favorites() == [];
    store1.ToggleFavorite(a1);
    store1.ToggleFavorite(a2);
    assert store1.Favorites() == [a1, a2] by {
      assert [a1][0].id != a2.id;
    }
    store2 := new FavoriteAuthorsStore(defaults);
    assert store2.Favorites()[0] == a1 && store2.Favorites()[1] == a2;
  }
}
