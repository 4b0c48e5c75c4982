/** The catalogue records the explore page, the book cards and the app share:
    books, reading-history entries and genres (client/src/data/sampleData.jsx
    gives their shape). Ratings are in tenths of a star, prices in cents and
    timestamps in milliseconds. */
module Catalog {
  import opened Seqs

  datatype CatalogBook = CatalogBook(id: int, title: string, author: string, genre: string,
                                     price: int, rating: int, views: int)

  datatype HistoryEntry = HistoryEntry(bookId: int, title: string, genre: string, timestamp: int, action: string)

  datatype Genre = Genre(id: string, name: string)

  /** `genres.find(g => g.id === id)`: the first genre with that id. */
  function FindGenre(genres: seq<Genre>, id: string): (r: Option<Genre>)
    ensures r.None? <==> forall k :: 0 <= k < |genres| ==> genres[k].id != id
    ensures r.Some? ==> exists k :: 0 <= k < |genres| && genres[k] == r.value && genres[k].id == id
                                    && forall j :: 0 <= j < k ==> genres[j].id != id
  {
    match FindFirst(genres, (g: Genre) => g.id == id)
    case None => None
    case Some(k) => Some(genres[k])
  }

  /** With distinct ids the genre found is the one listed under that id. */
  lemma FindGenreListed(genres: seq<Genre>, k: int)
    requires 0 <= k < |genres|
    requires forall i, j :: 0 <= i < j < |genres| ==> genres[i].id != genres[j].id
    ensures FindGenre(genres, genres[k].id) == Some(genres[k])
  {
  }
}

/** client/src/components/BookCard.jsx: one card with its genre badge, its
    rating label and the Read button. */
module BookCard {
  import opened Seqs
  import opened Catalog

  const READ_ACTION: string := "read"

  /** The history after the click and the book passed to `onClick`, if there is one. */
  datatype ReadEffect = ReadEffect(history: seq<HistoryEntry>, clicked: Option<CatalogBook>)

  /** `handleRead` at time `now`: one entry in front of the history, then the callback. */
  function HandleRead(book: CatalogBook, history: seq<HistoryEntry>, now: int, hasOnClick: bool): (r: ReadEffect)
    ensures |r.history| == |history| + 1
    ensures r.history[0].bookId == book.id && r.history[0].title == book.title
            && r.history[0].genre == book.genre && r.history[0].action == READ_ACTION
    ensures r.history[0].timestamp == now
    ensures r.history[1..] == history
    ensures r.clicked.Some? <==> hasOnClick
    ensures r.clicked.Some? ==> r.clicked.value == book
  {
    var entry := HistoryEntry(book.id, book.title, book.genre, now, READ_ACTION);
    ReadEffect([entry] + history, if hasOnClick then Some(book) else None)
  }

  /** The label next to the star: the rating, or `New` when it is 0 (falsy). */
  datatype RatingLabel = Shown(rating: int) | New

  function RatingDisplay(book: CatalogBook): (r: RatingLabel)
    ensures r == New <==> book.rating == 0
    ensures r.Shown? ==> r.rating == book.rating
  {
    if book.rating != 0 then Shown(book.rating) else New
  }

  /** The rating a reader takes from the label: `New` stands for 0. */
  function LabelRating(l: RatingLabel): int {
    match l
    case Shown(rating) => rating
    case New => 0
  }

  /** The label loses nothing: two books get the same label exactly when
      their ratings agree, and the rating reads back from the label. */
  lemma RatingDisplayFaithful(a: CatalogBook, b: CatalogBook)
    ensures LabelRating(RatingDisplay(a)) == a.rating
    ensures RatingDisplay(a) == RatingDisplay(b) <==> a.rating == b.rating
  {
  }

  /** The badge: the genre the book's genre id names, if any. */
  function GenreBadge(book: CatalogBook, genres: seq<Genre>): (r: Option<Genre>)
    ensures r.Some? ==> r.value.id == book.genre
    ensures r.None? <==> forall k :: 0 <= k < |genres| ==> genres[k].id != book.genre
  {
    FindGenre(genres, book.genre)
  }
}
