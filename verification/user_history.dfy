/** The uploaded and purchased lists of client/src/components/UserHistory.jsx
    and the per-id updates on them. Money is in cents and ratings in tenths of
    a star; the browser's `confirm` answer is a parameter. */
module UserHistory {
  import opened Seqs

  datatype UploadedBook = UploadedBook(id: int, title: string, author: string, genre: string, price: int,
                                       uploadDate: int, status: string, sales: int, earnings: int,
                                       rating: int, views: int)

  datatype PurchasedBook = PurchasedBook(id: int, title: string, author: string, genre: string, price: int,
                                         purchaseDate: int, downloadCount: int, rating: int, reviewed: bool)

  function OtherId(bookId: int): UploadedBook -> bool {
    (b: UploadedBook) => b.id != bookId
  }

  /** `handleDelete`: after a confirmed prompt every book with the id goes. */
  function Delete(books: seq<UploadedBook>, bookId: int, confirmed: bool): (r: seq<UploadedBook>)
    ensures !confirmed ==> r == books
    ensures confirmed ==> forall i :: 0 <= i < |r| ==> r[i].id != bookId
    ensures confirmed ==> forall i :: 0 <= i < |books| && books[i].id != bookId ==> books[i] in r
    ensures confirmed ==> SubseqOf(r, books)
  {
    if confirmed then Filter(books, OtherId(bookId)) else books
  }

  /** Deleting an id that is not there changes nothing, so a second delete is a no-op. */
  lemma DeleteTwice(books: seq<UploadedBook>, bookId: int)
    ensures Delete(Delete(books, bookId, true), bookId, true) == Delete(books, bookId, true)
  {
    var d := Delete(books, bookId, true);
    FilterKeepsAll(d, OtherId(bookId));
  }

  /** `handleDownload`: one more download on every book with the id. */
  function Download(books: seq<PurchasedBook>, bookId: int): (r: seq<PurchasedBook>)
    ensures |r| == |books|
    ensures forall i :: 0 <= i < |r| ==> r[i].(downloadCount := books[i].downloadCount) == books[i]
    ensures forall i :: 0 <= i < |r| ==> r[i].downloadCount == books[i].downloadCount + (if books[i].id == bookId then 1 else 0)
  {
    seq(|books|, i requires 0 <= i < |books| =>
      if books[i].id == bookId then books[i].(downloadCount := books[i].downloadCount + 1) else books[i])
  }

  /** `handleRate`: the rating and the reviewed mark of every book with the id. */
  function Rate(books: seq<PurchasedBook>, bookId: int, rating: int): (r: seq<PurchasedBook>)
    ensures |r| == |books|
    ensures forall i :: 0 <= i < |r| && books[i].id != bookId ==> r[i] == books[i]
    ensures forall i :: 0 <= i < |r| && books[i].id == bookId ==>
              r[i].rating == rating && r[i].reviewed && r[i].(rating := books[i].rating, reviewed := books[i].reviewed) == books[i]
  {
    seq(|books|, i requires 0 <= i < |books| =>
      if books[i].id == bookId then books[i].(rating := rating, reviewed := true) else books[i])
  }

  function Ids(books: seq<PurchasedBook>): seq<int> {
    seq(|books|, i requires 0 <= i < |books| => books[i].id)
  }

  /** Neither update adds, drops or reorders a book. */
  lemma UpdatesKeepIds(books: seq<PurchasedBook>, bookId: int, rating: int)
    ensures Ids(Download(books, bookId)) == Ids(books)
    ensures Ids(Rate(books, bookId, rating)) == Ids(books)
  {
  }

  /** Rating again overrides the earlier rating. */
  lemma RateLastWins(books: seq<PurchasedBook>, bookId: int, first: int, second: int)
    ensures Rate(Rate(books, bookId, first), bookId, second) == Rate(books, bookId, second)
  {
    var a, b := Rate(Rate(books, bookId, first), bookId, second), Rate(books, bookId, second);
    forall i | 0 <= i < |a| ensures a[i] == b[i] {
    }
  }

  /** Downloads and ratings touch different fields, so their order does not matter. */
  lemma DownloadRateCommute(books: seq<PurchasedBook>, downloaded: int, rated: int, rating: int)
    ensures Download(Rate(books, rated, rating), downloaded) == Rate(Download(books, downloaded), rated, rating)
  {
    var a, b := Download(Rate(books, rated, rating), downloaded), Rate(Download(books, downloaded), rated, rating);
    forall i | 0 <= i < |a| ensures a[i] == b[i] {
    }
  }

  /** All downloads of the list. */
  function TotalDownloads(books: seq<PurchasedBook>): int {
    if books == [] then 0 else TotalDownloads(books[..|books| - 1]) + books[|books| - 1].downloadCount
  }

  /** How many books carry the id. */
  function CountId(books: seq<PurchasedBook>, bookId: int): nat {
    if books == [] then 0
    else CountId(books[..|books| - 1], bookId) + (if books[|books| - 1].id == bookId then 1 else 0)
  }

  /** A download adds exactly one to the total per book with that id. */
  lemma {:induction false} DownloadTotal(books: seq<PurchasedBook>, bookId: int)
    ensures TotalDownloads(Download(books, bookId)) == TotalDownloads(books) + CountId(books, bookId)
  {
    if books != [] {
      var n := |books| - 1;
      var r := Download(books, bookId);
      assert r[..n] == Download(books[..n], bookId);
      DownloadTotal(books[..n], bookId);
    }
  }

  /** `reduce((sum, book) => sum + book.earnings, 0)`. */
  function SumEarnings(books: seq<UploadedBook>): int {
    if books == [] then 0 else SumEarnings(books[..|books| - 1]) + books[|books| - 1].earnings
  }

  /** `reduce((sum, book) => sum + book.price, 0)`. */
  function SumPrices(books: seq<PurchasedBook>): int {
    if books == [] then 0 else SumPrices(books[..|books| - 1]) + books[|books| - 1].price
  }

  datatype Stats = Stats(totalUploaded: int, totalPurchased: int, totalEarnings: int, totalSpent: int)

  /** The statistics computed when the lists load: counts and left-to-right sums. */
  method ComputeStats(uploaded: seq<UploadedBook>, purchased: seq<PurchasedBook>) returns (s: Stats)
    ensures s.totalUploaded == |uploaded| && s.totalPurchased == |purchased|
    ensures s.totalEarnings == SumEarnings(uploaded)
    ensures s.totalSpent == SumPrices(purchased)
  {
    var earnings := 0;
    var i := 0;
    while i < |uploaded|
      invariant 0 <= i <= |uploaded|
      invariant earnings == SumEarnings(uploaded[..i])
    {
      assert uploaded[..i + 1][..i] == uploaded[..i];
      earnings := earnings + uploaded[i].earnings;
      i := i + 1;
    }
    assert uploaded[..i] == uploaded;
    var spent := 0;
    var j := 0;
    while j < |purchased|
      invariant 0 <= j <= |purchased|
      invariant spent == SumPrices(purchased[..j])
    {
      assert purchased[..j + 1][..j] == purchased[..j];
      spent := spent + purchased[j].price;
      j := j + 1;
    }
    assert purchased[..j] == purchased;
    s := Stats(|uploaded|, |purchased|, earnings, spent);
  }

  /** With no negative price, what was spent is at least the price of each purchase. */
  lemma {:induction false} SpentCoversEachPurchase(books: seq<PurchasedBook>, k: int)
    requires forall i :: 0 <= i < |books| ==> books[i].price >= 0
    requires 0 <= k < |books|
    ensures SumPrices(books) >= books[k].price
  {
    var n := |books| - 1;
    if k < n {
      SpentCoversEachPurchase(books[..n], k);
    }
    SumPricesNonNegative(books[..n]);
  }

  lemma {:induction false} SumPricesNonNegative(books: seq<PurchasedBook>)
    requires forall i :: 0 <= i < |books| ==> books[i].price >= 0
    ensures SumPrices(books) >= 0
  {
    if books != [] {
      SumPricesNonNegative(books[..|books| - 1]);
    }
  }

  /** `renderStars`: star `i` of five is lit iff `i` does not exceed the rating. */
  function RenderStars(rating: int): (stars: seq<bool>)
    ensures |stars| == 5
    ensures forall i :: 1 <= i <= 5 ==> (stars[i - 1] <==> 10 * i <= rating)
  {
    seq(5, k requires 0 <= k < 5 => 10 * (k + 1) <= rating)
  }

  /** The lit stars form a prefix, one per whole star of the rating, at most five. */
  lemma StarsArePrefix(rating: int, i: int, j: int)
    requires 1 <= i <= j <= 5
    ensures RenderStars(rating)[j - 1] ==> RenderStars(rating)[i - 1]
    ensures rating >= 50 ==> RenderStars(rating)[4]
    ensures rating < 10 ==> !RenderStars(rating)[0]
  {
  }
}
