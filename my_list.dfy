/**
 * app/my-list/page.tsx: the page keeps the list of saved movies and shows in
 * component state, loaded from the stored `'myList'` key on mount; removing
 * an entry filters the state by the pair (id, type) and writes the result to
 * both the state and storage.
 */
module MyList {
  import opened Collections
  import opened Storage

  const MyListKey: string := "myList"

  /** `'movie' | 'tv'`. */
  datatype MediaType = Movie | Tv

  /** `ListItem`: an entry is identified by its id together with its type. */
  datatype ListItem = ListItem(
    id: int,
    kind: MediaType,
    title: string,
    posterPath: string,
    releaseDate: Option<string>,
    firstAirDate: Option<string>)

  /** The filter callback `item => !(item.id === id && item.type === type)`. */
  function IsOtherEntry(id: int, kind: MediaType): ListItem -> bool
  {
    (item: ListItem) => !(item.id == id && item.kind == kind)
  }

  /**
   * The list `handleRemoveFromList(id, type)` computes: exactly the entries
   * matching both the id and the type are dropped, every other entry keeps
   * all its copies, so an entry with the same id and the other type stays;
   * the list never grows.
   */
  function WithoutEntry(list: seq<ListItem>, id: int, kind: MediaType): (r: seq<ListItem>)
    ensures |r| <= |list|
    ensures forall item :: item in r <==> item in list && !(item.id == id && item.kind == kind)
    ensures forall item :: item in list && item.id == id && item.kind != kind ==> item in r
    ensures forall item :: multiset(r)[item] ==
              if item.id == id && item.kind == kind then 0 else multiset(list)[item]
  {
    FilterMultiset(list, IsOtherEntry(id, kind));
    Filter(list, IsOtherEntry(id, kind))
  }

  /** Removal keeps the surviving entries in their order. */
  lemma WithoutEntryKeepsOrder(list: seq<ListItem>, id: int, kind: MediaType)
    ensures SubsequenceOf(WithoutEntry(list, id, kind), list)
  {
    FilterIsSubsequence(list, IsOtherEntry(id, kind));
  }

  /** Removing a pair that no entry has leaves the list as it was. */
  lemma WithoutAbsentEntry(list: seq<ListItem>, id: int, kind: MediaType)
    requires forall item :: item in list ==> !(item.id == id && item.kind == kind)
    ensures WithoutEntry(list, id, kind) == list
  {
    FilterKeepsAll(list, IsOtherEntry(id, kind));
  }

  /**
   * Removing one entry of an id keeps an entry of the other type with the
   * same id: a movie and a show that share an id are kept apart.
   */
  lemma SameIdOtherTypeKept(movie: ListItem, show: ListItem)
    requires movie.kind == Movie && show.kind == Tv && movie.id == show.id
    ensures WithoutEntry([movie, show], movie.id, Tv) == [movie]
    ensures WithoutEntry([movie, show], movie.id, Movie) == [show]
  {
    FilterAppend([movie], [show], IsOtherEntry(movie.id, Tv));
    FilterAppend([movie], [show], IsOtherEntry(movie.id, Movie));
    assert [movie, show] == [movie] + [show];
  }

  class MyListPage {
    /** The `myList` state. */
    var myList: seq<ListItem>
    /** The browser's storage, where `'myList'` holds the saved entries. */
    const store: KeyValueStore<ListItem>

    /** `useState([])`: the page starts with an empty list. */
    constructor (store: KeyValueStore<ListItem>)
      ensures this.store == store && myList == []
    {
      this.store := store;
      myList := [];
    }

    /** The mount effect: the state is the stored list, or `[]` when none is stored. */
    method Mount()
      modifies this
      ensures myList == store.ReadList(MyListKey)
      ensures MyListKey !in store.entries ==> myList == []
    {
      var storedList := store.ReadList(MyListKey);
      myList := storedList;
    }

    /**
     * `handleRemoveFromList(id, type)`: the state loses exactly the entries of
     * that pair, and storage then holds the same list as the state.
     */
    method HandleRemoveFromList(id: int, kind: MediaType)
      modifies this, store
      ensures myList == WithoutEntry(old(myList), id, kind)
      ensures store.entries == old(store.entries)[MyListKey := myList]
      ensures store.ReadList(MyListKey) == myList
    {
      var newList := WithoutEntry(myList, id, kind);
      myList := newList;
      store.SetItem(MyListKey, newList);
    }
  }
}
