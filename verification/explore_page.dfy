/** The book grid of client/src/components/ExplorePage.jsx: a search over
    title and author, a genre choice where `'all'` means every genre, and the
    heading above the grid. */
module ExplorePage {
  import opened Seqs
  import Text
  import opened Catalog

  const ALL_GENRES: string := "all"
  const ALL_HEADING: string := "All Books"
  const FALLBACK_HEADING: string := "Books"

  /** Title or author holds the term, ignoring case; the description is not searched. */
  predicate MatchesSearch(term: string, b: CatalogBook) {
    Text.Includes(Text.Lower(b.title), Text.Lower(term)) || Text.Includes(Text.Lower(b.author), Text.Lower(term))
  }

  predicate MatchesGenre(genre: string, b: CatalogBook) {
    genre == ALL_GENRES || b.genre == genre
  }

  predicate Shows(term: string, genre: string, b: CatalogBook) {
    MatchesSearch(term, b) && MatchesGenre(genre, b)
  }

  /** `filteredBooks`. */
  function Explore(books: seq<CatalogBook>, term: string, genre: string): (r: seq<CatalogBook>)
    ensures forall i :: 0 <= i < |r| ==> Shows(term, genre, r[i])
    ensures forall i :: 0 <= i < |books| && Shows(term, genre, books[i]) ==> books[i] in r
    ensures SubseqOf(r, books)
  {
    Filter(books, (b: CatalogBook) => Shows(term, genre, b))
  }

  /** Whether a book shows depends on its title, author and genre alone. */
  lemma ShowsOnlyReadsTitleAuthorGenre(term: string, genre: string, b1: CatalogBook, b2: CatalogBook)
    requires b1.title == b2.title && b1.author == b2.author && b1.genre == b2.genre
    ensures Shows(term, genre, b1) == Shows(term, genre, b2)
  {
  }

  /** An empty search with `'all'` shows every book. */
  lemma ExploreAllShowsEverything(books: seq<CatalogBook>)
    ensures Explore(books, "", ALL_GENRES) == books
  {
    forall i | 0 <= i < |books| ensures Shows("", ALL_GENRES, books[i]) {
      Text.IncludesEmpty(Text.Lower(books[i].title));
    }
    FilterKeepsAll(books, (b: CatalogBook) => Shows("", ALL_GENRES, b));
  }

  /** The heading: `'All Books'` for `'all'`, otherwise the name of the genre
      with that id, or `'Books'` when there is none or its name is empty. */
  function Heading(genre: string, genres: seq<Genre>): (r: string)
    ensures genre == ALL_GENRES ==> r == ALL_HEADING
    ensures genre != ALL_GENRES && FindGenre(genres, genre).Some? && FindGenre(genres, genre).value.name != ""
            ==> r == FindGenre(genres, genre).value.name
    ensures genre != ALL_GENRES && (forall k :: 0 <= k < |genres| ==> genres[k].id != genre) ==> r == FALLBACK_HEADING
    ensures genre != ALL_GENRES && FindGenre(genres, genre).Some? && FindGenre(genres, genre).value.name == ""
            ==> r == FALLBACK_HEADING
    ensures r != ""
  {
    if genre == ALL_GENRES then ALL_HEADING
    else match FindGenre(genres, genre)
      case Some(g) => if g.name != "" then g.name else FALLBACK_HEADING
      case None => FALLBACK_HEADING
  }

  /** The heading reads `'All Books'` exactly for `'all'` as long as no genre
      is itself named `'All Books'`. */
  lemma HeadingAllIff(genre: string, genres: seq<Genre>)
    requires forall k :: 0 <= k < |genres| ==> genres[k].name != ALL_HEADING
    ensures Heading(genre, genres) == ALL_HEADING <==> genre == ALL_GENRES
  {
    if genre != ALL_GENRES {
      match FindGenre(genres, genre)
      case Some(g) =>
        var k :| 0 <= k < |genres| && genres[k] == g && genres[k].id == genre
                 && forall j :: 0 <= j < k ==> genres[j].id != genre;
        assert g.name != ALL_HEADING;
      case None =>
    }
  }
}
