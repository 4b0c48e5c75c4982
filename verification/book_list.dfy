/** The filter-then-sort effect of client/src/components/BookList.jsx. Prices
    are in cents, ratings in tenths of a star and upload times in
    milliseconds; the `localeCompare` title order is a rank function given as
    a parameter. */
module BookList {
  import opened Seqs
  import Text
  import Sorting

  datatype ListedBook = ListedBook(id: int, title: string, author: string, description: string,
                                   genre: string, price: int, rating: int, uploadedAt: int)

  /** A price-range input: the empty string, a number, or text `parseFloat`
      reads as NaN (every comparison with NaN is false). */
  datatype Bound = Empty | Cents(value: int) | NotANumber

  /** The `sortBy` select: one of the six named orders or any other string. */
  datatype SortOrder = Newest | Oldest | PriceLow | PriceHigh | ByRating | ByTitle | Unrecognised(name: string)

  datatype Criteria = Criteria(searchTerm: string, genre: string, min: Bound, max: Bound, sortBy: SortOrder)

  // The individual filters.
  predicate MatchesSearch(term: string, b: ListedBook) {
    var t := Text.Lower(term);
    Text.Includes(Text.Lower(b.title), t) || Text.Includes(Text.Lower(b.author), t)
    || Text.Includes(Text.Lower(b.description), t)
  }

  predicate GenreActive(genre: string) {
    genre != "" && genre != "All"
  }

  predicate MatchesGenre(genre: string, b: ListedBook) {
    !GenreActive(genre) || b.genre == genre
  }

  predicate AboveMin(min: Bound, b: ListedBook) {
    match min
    case Empty => true
    case Cents(v) => b.price >= v
    case NotANumber => false
  }

  predicate BelowMax(max: Bound, b: ListedBook) {
    match max
    case Empty => true
    case Cents(v) => b.price <= v
    case NotANumber => false
  }

  /** The conjunction of every filter: the reference definition of what stays. */
  predicate Keeps(c: Criteria, b: ListedBook) {
    MatchesSearch(c.searchTerm, b) && MatchesGenre(c.genre, b) && AboveMin(c.min, b) && BelowMax(c.max, b)
  }

  function KeepsFn(c: Criteria): ListedBook -> bool {
    b => Keeps(c, b)
  }

  function SearchFn(term: string): ListedBook -> bool { b => MatchesSearch(term, b) }
  function GenreIsFn(genre: string): ListedBook -> bool { (b: ListedBook) => b.genre == genre }
  function GenreFn(genre: string): ListedBook -> bool { b => MatchesGenre(genre, b) }
  function AboveMinFn(min: Bound): ListedBook -> bool { b => AboveMin(min, b) }
  function BelowMaxFn(max: Bound): ListedBook -> bool { b => BelowMax(max, b) }

  // The four stages of the effect, each applied only when its input is set.
  function SearchStage(s: seq<ListedBook>, term: string): seq<ListedBook> {
    if term != "" then Filter(s, SearchFn(term)) else s
  }

  function GenreStage(s: seq<ListedBook>, genre: string): seq<ListedBook> {
    if GenreActive(genre) then Filter(s, GenreIsFn(genre)) else s
  }

  function MinStage(s: seq<ListedBook>, min: Bound): seq<ListedBook> {
    if min != Empty then Filter(s, AboveMinFn(min)) else s
  }

  function MaxStage(s: seq<ListedBook>, max: Bound): seq<ListedBook> {
    if max != Empty then Filter(s, BelowMaxFn(max)) else s
  }

  function FilterAsWritten(books: seq<ListedBook>, c: Criteria): seq<ListedBook> {
    MaxStage(MinStage(GenreStage(SearchStage(books, c.searchTerm), c.genre), c.min), c.max)
  }

  /** When no stage ran, `filtered` is the `books` array itself. */
  predicate NoFilterRuns(c: Criteria) {
    c.searchTerm == "" && !GenreActive(c.genre) && c.min == Empty && c.max == Empty
  }

  /** Skipping the search stage for an empty term loses nothing: "" is in every string. */
  lemma SearchStageFilters(s: seq<ListedBook>, term: string)
    ensures SearchStage(s, term) == Filter(s, SearchFn(term))
  {
    if term == "" {
      forall i | 0 <= i < |s| ensures SearchFn(term)(s[i]) {
        Text.IncludesEmpty(Text.Lower(s[i].title));
      }
      FilterKeepsAll(s, SearchFn(term));
    }
  }

  lemma GenreStageFilters(s: seq<ListedBook>, genre: string)
    ensures GenreStage(s, genre) == Filter(s, GenreFn(genre))
  {
    if GenreActive(genre) {
      FilterAgree(s, GenreIsFn(genre), GenreFn(genre));
    } else {
      FilterKeepsAll(s, GenreFn(genre));
    }
  }

  lemma MinStageFilters(s: seq<ListedBook>, min: Bound)
    ensures MinStage(s, min) == Filter(s, AboveMinFn(min))
  {
    if min == Empty {
      FilterKeepsAll(s, AboveMinFn(min));
    }
  }

  lemma MaxStageFilters(s: seq<ListedBook>, max: Bound)
    ensures MaxStage(s, max) == Filter(s, BelowMaxFn(max))
  {
    if max == Empty {
      FilterKeepsAll(s, BelowMaxFn(max));
    }
  }

  /** The staged filters select exactly the books satisfying all filters, in order. */
  lemma FilterAsWrittenKeeps(books: seq<ListedBook>, c: Criteria)
    ensures FilterAsWritten(books, c) == Filter(books, KeepsFn(c))
  {
    var p1, p2, p3, p4 := SearchFn(c.searchTerm), GenreFn(c.genre), AboveMinFn(c.min), BelowMaxFn(c.max);
    var p12 := (b: ListedBook) => p1(b) && p2(b);
    var p123 := (b: ListedBook) => p12(b) && p3(b);
    var s1 := SearchStage(books, c.searchTerm);
    var s2 := GenreStage(s1, c.genre);
    var s3 := MinStage(s2, c.min);
    SearchStageFilters(books, c.searchTerm);
    GenreStageFilters(s1, c.genre);
    FilterCompose(books, p1, p2, p12);
    MinStageFilters(s2, c.min);
    FilterCompose(books, p12, p3, p123);
    MaxStageFilters(s3, c.max);
    FilterCompose(books, p123, p4, KeepsFn(c));
  }

  const SORT_NAMES: set<string> := {"newest", "oldest", "price-low", "price-high", "rating", "title"}

  /** The `switch (sortBy)` cases. */
  function ParseSortOrder(sortBy: string): (r: SortOrder)
    ensures r.Unrecognised? <==> sortBy !in SORT_NAMES
    ensures r.Unrecognised? ==> r.name == sortBy
  {
    match sortBy
    case "newest" => Newest
    case "oldest" => Oldest
    case "price-low" => PriceLow
    case "price-high" => PriceHigh
    case "rating" => ByRating
    case "title" => ByTitle
    case _ => Unrecognised(sortBy)
  }

  /** The comparator of each order, as the key `sort` arranges ascending;
      an unrecognised order sorts nothing. */
  function SortKey(order: SortOrder, titleRank: string -> int): (r: Option<ListedBook -> int>)
    ensures r.Some? <==> !order.Unrecognised?
  {
    match order
    case Newest => Some((b: ListedBook) => -b.uploadedAt)
    case Oldest => Some((b: ListedBook) => b.uploadedAt)
    case PriceLow => Some((b: ListedBook) => b.price)
    case PriceHigh => Some((b: ListedBook) => -b.price)
    case ByRating => Some((b: ListedBook) => -b.rating)
    case ByTitle => Some((b: ListedBook) => titleRank(b.title))
    case Unrecognised(_) => None
  }

  /** The component's `books` and `filteredBooks` after the effect. */
  datatype Listing = Listing(books: seq<ListedBook>, filtered: seq<ListedBook>)

  /** The effect: filter, then sort in place. The sort reorders the `books`
      state itself when no filter ran, since `filtered` is then that array. */
  function Refresh(books: seq<ListedBook>, c: Criteria, titleRank: string -> int): (r: Listing)
    ensures multiset(r.filtered) == multiset(Filter(books, KeepsFn(c)))
    ensures SortKey(c.sortBy, titleRank).Some? ==> Sorting.Sorted(r.filtered, SortKey(c.sortBy, titleRank).value)
    ensures SortKey(c.sortBy, titleRank).None? ==> r.filtered == Filter(books, KeepsFn(c))
    ensures multiset(r.books) == multiset(books)
    ensures !NoFilterRuns(c) ==> r.books == books
    ensures NoFilterRuns(c) && SortKey(c.sortBy, titleRank).Some? ==> r.books == r.filtered
  {
    FilterAsWrittenKeeps(books, c);
    var filtered := FilterAsWritten(books, c);
    match SortKey(c.sortBy, titleRank)
    case None => Listing(books, filtered)
    case Some(key) =>
      var sorted := Sorting.SortBy(filtered, key);
      if NoFilterRuns(c) then
        assert filtered == books;
        Listing(sorted, sorted)
      else Listing(books, sorted)
  }

  /** A book is listed exactly when it is in the catalogue and passes every filter. */
  lemma ListedIff(books: seq<ListedBook>, c: Criteria, titleRank: string -> int, b: ListedBook)
    ensures b in Refresh(books, c, titleRank).filtered <==> b in books && Keeps(c, b)
  {
    var r := Refresh(books, c, titleRank);
    var f := Filter(books, KeepsFn(c));
    assert multiset(r.filtered) == multiset(f);
    assert b in r.filtered <==> b in multiset(r.filtered);
    assert b in f <==> b in multiset(f);
    FilterMembership(books, KeepsFn(c), b);
  }

  /** What each named order promises about neighbours in the list. */
  predicate InOrder(s: seq<ListedBook>, order: SortOrder, titleRank: string -> int) {
    match order
    case Newest => forall i, j :: 0 <= i < j < |s| ==> s[i].uploadedAt >= s[j].uploadedAt
    case Oldest => forall i, j :: 0 <= i < j < |s| ==> s[i].uploadedAt <= s[j].uploadedAt
    case PriceLow => forall i, j :: 0 <= i < j < |s| ==> s[i].price <= s[j].price
    case PriceHigh => forall i, j :: 0 <= i < j < |s| ==> s[i].price >= s[j].price
    case ByRating => forall i, j :: 0 <= i < j < |s| ==> s[i].rating >= s[j].rating
    case ByTitle => forall i, j :: 0 <= i < j < |s| ==> titleRank(s[i].title) <= titleRank(s[j].title)
    case Unrecognised(_) => true
  }

  lemma SortedKeyInOrder(s: seq<ListedBook>, order: SortOrder, titleRank: string -> int)
    requires !order.Unrecognised?
    requires Sorting.Sorted(s, SortKey(order, titleRank).value)
    ensures InOrder(s, order, titleRank)
  {
    var key := SortKey(order, titleRank).value;
    forall i, j | 0 <= i < j < |s| ensures key(s[i]) <= key(s[j]) {
    }
  }

  /** Each named order holds on the listed books. */
  lemma SortOrders(books: seq<ListedBook>, c: Criteria, titleRank: string -> int)
    ensures InOrder(Refresh(books, c, titleRank).filtered, c.sortBy, titleRank)
  {
    if !c.sortBy.Unrecognised? {
      SortedKeyInOrder(Refresh(books, c, titleRank).filtered, c.sortBy, titleRank);
    }
  }

  /** Books the sort considers equal keep their filtered order (`Array.prototype.sort` is stable). */
  lemma SortKeepsTies(books: seq<ListedBook>, c: Criteria, titleRank: string -> int, k: int)
    requires !c.sortBy.Unrecognised?
    ensures var key := SortKey(c.sortBy, titleRank).value;
            Filter(Refresh(books, c, titleRank).filtered, Sorting.KeyIs(key, k))
            == Filter(Filter(books, KeepsFn(c)), Sorting.KeyIs(key, k))
  {
    var key := SortKey(c.sortBy, titleRank).value;
    FilterAsWrittenKeeps(books, c);
    Sorting.SortByStable(FilterAsWritten(books, c), key, k);
  }
}
