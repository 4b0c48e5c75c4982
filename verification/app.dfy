/** `AppContent` of client/src/App.jsx: the recommendation effect and the
    token guards on the routes. The stored token is a parameter (what
    `localStorage.getItem("token")` returned). */
module App {
  import opened Seqs
  import opened Catalog
  import BookCard

  const MAX_RECOMMENDATIONS: nat := 6

  /** The signed-in user; only the interests matter here, and they may be missing. */
  datatype User = User(interests: Option<seq<string>>)

  /** `[...(currentUser.interests || []), ...userHistory.map(h => h.genre)]`. */
  function Preferences(user: User, history: seq<HistoryEntry>): (prefs: seq<string>)
    ensures forall g :: g in prefs <==>
              (user.interests.Some? && g in user.interests.value) || exists i :: 0 <= i < |history| && history[i].genre == g
  {
    var interests := if user.interests.Some? then user.interests.value else [];
    var genres := seq(|history|, i requires 0 <= i < |history| => history[i].genre);
    assert forall g :: g in genres <==> exists i :: 0 <= i < |history| && history[i].genre == g by {
      forall g ensures g in genres <==> exists i :: 0 <= i < |history| && history[i].genre == g {
        if g in genres {
          var i :| 0 <= i < |genres| && genres[i] == g;
          assert history[i].genre == g;
        }
        if exists i :: 0 <= i < |history| && history[i].genre == g {
          var i :| 0 <= i < |history| && history[i].genre == g;
          assert genres[i] == g;
        }
      }
    }
    interests + genres
  }

  predicate WasRead(history: seq<HistoryEntry>, bookId: int) {
    exists i :: 0 <= i < |history| && history[i].bookId == bookId
  }

  /** A book worth recommending: its genre is preferred and it is not in the history. */
  predicate Qualifies(prefs: seq<string>, history: seq<HistoryEntry>, b: CatalogBook) {
    b.genre in prefs && !WasRead(history, b.id)
  }

  function QualifiesFn(prefs: seq<string>, history: seq<HistoryEntry>): CatalogBook -> bool {
    b => Qualifies(prefs, history, b)
  }

  /** The recommendation effect: recomputed when a user is signed in and the
      catalogue is not empty, otherwise the previous list stays. */
  function Recommend(user: Option<User>, books: seq<CatalogBook>, history: seq<HistoryEntry>,
                     previous: seq<CatalogBook>): (r: seq<CatalogBook>)
    ensures user.None? || books == [] ==> r == previous
    ensures user.Some? && books != [] ==>
              var q := Filter(books, QualifiesFn(Preferences(user.value, history), history));
              && |r| == (if |q| < MAX_RECOMMENDATIONS then |q| else MAX_RECOMMENDATIONS)
              && r == q[..|r|]
    ensures user.Some? && books != [] ==>
              forall i :: 0 <= i < |r| ==> r[i] in books && Qualifies(Preferences(user.value, history), history, r[i])
  {
    if user.Some? && |books| > 0 then
      Take(Filter(books, QualifiesFn(Preferences(user.value, history), history)), MAX_RECOMMENDATIONS)
    else previous
  }

  /** No recommended book was read, and every one matches an interest or a genre read before. */
  lemma RecommendationsQualify(user: User, books: seq<CatalogBook>, history: seq<HistoryEntry>,
                               previous: seq<CatalogBook>, i: int)
    requires books != []
    ensures var r := Recommend(Some(user), books, history, previous);
            0 <= i < |r| ==>
              && (forall k :: 0 <= k < |history| ==> history[k].bookId != r[i].id)
              && ((user.interests.Some? && r[i].genre in user.interests.value)
                  || exists k :: 0 <= k < |history| && history[k].genre == r[i].genre)
  {
    var r := Recommend(Some(user), books, history, previous);
    if 0 <= i < |r| {
      assert Qualifies(Preferences(user, history), history, r[i]);
    }
  }

  /** After the Read button of a card, that book is never among the fresh
      recommendations, and its genre counts as a preference. */
  lemma ReadBookNotRecommended(book: CatalogBook, history: seq<HistoryEntry>, now: int, hasOnClick: bool,
                               user: User, books: seq<CatalogBook>, previous: seq<CatalogBook>)
    requires books != []
    ensures var h := BookCard.HandleRead(book, history, now, hasOnClick).history;
            && (forall i :: 0 <= i < |Recommend(Some(user), books, h, previous)| ==>
                  Recommend(Some(user), books, h, previous)[i].id != book.id)
            && book.genre in Preferences(user, h)
  {
    var h := BookCard.HandleRead(book, history, now, hasOnClick).history;
    var r := Recommend(Some(user), books, h, previous);
    assert h[0].bookId == book.id;
    forall i | 0 <= i < |r| ensures r[i].id != book.id {
      assert !WasRead(h, r[i].id);
    }
    assert h[0].genre == book.genre;
  }

  /** The paths `Routes` knows; anything else renders nothing. */
  datatype Route =
    | HomePage | LoginPage | SignupPage | ForgotPasswordPage | ResetPasswordPage(token: string)
    | DashboardPage | UploadBookPage | AboutPage | ServicesPage | ContactPage | UserHistoryPage
    | Unmatched(path: string)

  datatype Screen = Render(route: Route) | Redirect(to: Route) | Blank

  /** A stored token counts when it is present and non-empty (JavaScript truthiness). */
  predicate SignedIn(token: Option<string>) {
    token.Some? && token.value != ""
  }

  predicate Protected(route: Route) {
    route == DashboardPage || route == UploadBookPage || route == UserHistoryPage
  }

  predicate GuestOnly(route: Route) {
    route == LoginPage || route == SignupPage
  }

  /** What the router shows for a route. */
  function Resolve(route: Route, token: Option<string>): (s: Screen)
    ensures Protected(route) ==> (s == Render(route) <==> SignedIn(token)) && (s == Redirect(LoginPage) <==> !SignedIn(token))
    ensures GuestOnly(route) ==> (s == Redirect(DashboardPage) <==> SignedIn(token)) && (s == Render(route) <==> !SignedIn(token))
    ensures route.Unmatched? ==> s == Blank
    ensures !Protected(route) && !GuestOnly(route) && !route.Unmatched? ==> s == Render(route)
  {
    if route.Unmatched? then Blank
    else if Protected(route) then (if SignedIn(token) then Render(route) else Redirect(LoginPage))
    else if GuestOnly(route) then (if SignedIn(token) then Redirect(DashboardPage) else Render(route))
    else Render(route)
  }

  /** A redirect is followed by a page, never by another redirect. */
  lemma NoRedirectChains(route: Route, token: Option<string>)
    ensures Resolve(route, token).Redirect? ==> Resolve(Resolve(route, token).to, token).Render?
  {
  }
}
