# Futuristic Library — a Dafny model of its logic

Futuristic Library is a small book-sharing web application. It has two halves:

- an Express/MongoDB server, which handles e-mail one-time-code (OTP) signup, password login, password reset, book upload and a paged book catalogue;
- a React client, which shows a signup wizard, an upload form, a filterable book list, a personal history page and recommendations.

This project models the parts of both halves that are logic rather than plumbing. Each is a pure function over immutable data:

- **Server authentication** (`AuthServer`, `Otp`).
  - The routes `/send-otp`, `/verify-otp`, `/signup`, `/forgot-password`, `/reset-password` and `/login` are transitions over two stores.
    - The code store is keyed by the normalised e-mail and holds a code and its creation time.
    - The user store is keyed by e-mail and holds a password hash, a reset token and the token's expiry.
  - The clock, the random draw, database and mail failures, bcrypt and JWT signing are all parameters.
  - `generateOTP` is modelled exactly on a rational draw in [0, 1).
- **Server helpers**:
  - the `/books` pagination arithmetic (`Pagination`);
  - the multer file filter, destination and size limit (`FileUpload`);
  - the `Bearer` header check of `authMiddleware` (`BearerAuth`). Its header is the Authorization request header of section 2.1 of RFC 6750.
- **Client state machines**:
  - the two-flag signup wizard (`SignupWizard`);
  - the upload form with its duplicate-free tag list (`UploadForm`);
  - the two-step signup dialog (`SignUpModal`).
- **Client list operations**:
  - the filter-then-sort pipeline of the book list (`BookList`, on top of a stable insertion sort in `Sorting`);
  - the per-id updates and statistics of the history page (`UserHistory`);
  - the explore grid and its heading (`ExplorePage`);
  - the Read button of a book card (`BookCard`, `Catalog`);
  - the recommendations and route guards of the app shell (`App`).
- **Shared helpers**: `Seqs` holds `Filter`, `Take` and `FindFirst` with their laws. `Text` holds ASCII lower-casing and trimming, and the e-mail normalisation `trim().toLowerCase()`.

Units and conventions:

- Money is in cents, ratings in tenths of a star, and times in integer milliseconds.
- A JSON field that is missing or falsy is the empty string.

## Model

| member | source | states |
|---|---|---|
| Otp.OtpValue | server/index.js:132-134 | For every random draw in [0, 1) the code's value lies in 100000..999999 |
| Otp.EveryCodeReachable | server/index.js:132-134 | Every value in 100000..999999 is produced by some draw |
| Otp.OtpValueMonotone | server/index.js:132-134 | A larger draw never yields a smaller code |
| Otp.ParseDecimalString | server/index.js:133 | `toString` loses nothing: reading the decimal string back gives the number |
| Otp.DecimalStringLength | server/index.js:133 | A number in [10^(k-1), 10^k) prints as exactly k digits with no leading zero |
| Otp.GenerateOtp | server/index.js:132-134 | The code is six decimal digits, does not start with 0, and reads as a value in 100000..999999 |
| Otp.GenerateOtpInjective | server/index.js:132-134 | Two draws give the same code exactly when they give the same value |
| AuthServer.SendOtp | server/index.js:138-180 | A missing e-mail gives 400 and writes nothing. A database failure gives 500 and writes nothing. Otherwise the normalised e-mail maps to exactly the new code with createdAt = now. Every other address is untouched and the mail goes to the address. The record stays even when the mail fails (500 "Failed to send OTP email"). The reply is 200 only when both writes succeed |
| AuthServer.VerifyOtp | server/index.js:183-206 | A missing e-mail or code gives 400. A missing record or a wrong code gives "Incorrect or expired OTP". A matching code older than 10 minutes gives "OTP expired". The reply is 200 iff the code matches and its age is at most 10 minutes |
| AuthServer.Signup | server/index.js:208-234 | A missing field, mismatched passwords or an existing e-mail is refused and writes nothing. The reply is 201 iff none of these holds and the database works. Exactly one user is then added, storing the hash of the password, and every other user is kept |
| AuthServer.ForgotPassword | server/index.js:237-282 | A missing e-mail gives 400 and an unknown e-mail "No user with that email". Otherwise only that user changes: its hash is kept, the token is set, the expiry is now + 3600000 ms, and an HTML mail carries the reset link. The reply depends only on the mail outcome. The set of users never changes |
| AuthServer.ResetPassword | server/index.js:284-305 | An empty token or password gives 400. Anything else ends in the 500 catch path, because the token model the route queries is undefined. Nothing is written |
| AuthServer.Login | server/index.js:308-338 | Missing fields give 400. An unknown e-mail and a wrong password both give 401 "Invalid credentials". The reply is 200 iff the stored hash matches, and it carries the session token and the e-mail |
| AuthServer.SendThenVerify | server/index.js:149-201 | A code just sent verifies, under any spelling that normalises to the same address, while no more than 10 minutes have passed. This holds even when the mail failed |
| AuthServer.SendThenVerifyTooLate | server/index.js:194-198 | More than 10 minutes after sending, the same code gets "OTP expired" (the boundary is non-strict) |
| AuthServer.VerifyIsRepeatable | server/index.js:187-201 | Verification does not consume the code. A stored matching code verifies at any moment up to the end of its window, and a later check inside the window gets the same reply as an earlier one |
| AuthServer.ResendInvalidatesOldCode | server/index.js:149-191 | After a resend the old code is refused exactly as if no code had been sent (upsert replaces) |
| AuthServer.SendKeepsOtherCodes | server/index.js:149-153 | Sending to one address leaves every other address's verification outcome unchanged |
| AuthServer.MissingAndWrongCodeLookAlike | server/index.js:190-192 | A missing record and a wrong code give the identical reply |
| AuthServer.MissingUserAndWrongPasswordLookAlike | server/index.js:313-317 | An unknown user and a wrong password give the identical 401 reply |
| AuthServer.SignupThenLogin | server/index.js:225-317 | After a signup, logging in with the same password succeeds when the hash accepts the password |
| AuthServer.SignupTwiceRefused | server/index.js:220-223 | A second signup for the same e-mail gets "User already exists" and writes nothing |
| AuthServer.ForgotPasswordKeepsLogin | server/index.js:249-251 | A reset request never changes the outcome of any login |
| AuthServer.ForgotPasswordOverwritesToken | server/index.js:248-251 | A second reset request overwrites the first token and its expiry |
| AuthServer.ResetNeverChangesPassword | server/index.js:237-305 | After a reset link is issued, using its token never answers 200, and every login, with the old password or a new one, turns out exactly as before the link was requested |
| Text.Trim | client/src/components/Signup.jsx:19 | `trim()` returns a string with no space at either end, found inside the input with only spaces around it |
| Text.NormalizeIdempotent | client/src/components/Signup.jsx:19 | Normalising an e-mail twice equals normalising it once |
| Text.NormalizeShape | client/src/components/Signup.jsx:19 | A normalised e-mail is trimmed and has no upper-case letter |
| Pagination.CeilDiv | server/index.js:479 | `Math.ceil(a / b)` is the least multiple count covering a for positive b and the matching bound for negative b. For b = 0 there is no number: the quotient is Infinity, or NaN when a = 0, and JSON sends either as `null` |
| Pagination.Paginate | server/index.js:443-482 | Defaults are page 1 and limit 10, and hasPrev iff page > 1. For page ≥ 1 and limit > 0: skip ≥ 0, hasNext iff skip + limit < total, and totalPages·limit is the least multiple of limit covering total |
| Pagination.ConsecutivePagesAdjacent | server/index.js:444 | Page k + 1 starts exactly limit books after page k, so pages neither overlap nor leave gaps |
| Pagination.PaginateDefaults | server/index.js:443-444 | With no query the server skips 0, serves 10, is on page 1, has no previous page and has a next page iff total > 10 |
| Pagination.HasNextIffBeforeLastPage | server/index.js:479-481 | hasNext holds exactly when the page is before totalPages |
| Pagination.Window | server/index.js:464 | How many matches `.limit(n)` lets through: all for n = 0, at most n for positive n, and at most −n for negative n |
| Pagination.PageSlice | server/index.js:463-464 | A negative skip is an error. Otherwise the books are a contiguous run of the matches starting at skip. A zero limit runs to the end. A non-zero limit serves at most that many (its magnitude when negative), and stops early only by reaching it |
| Pagination.ServeBooks | server/index.js:441-489 | The route fails with 500 "Failed to fetch books" exactly when the skip is negative. Otherwise it serves the slice at the computed skip and limit together with the computed pagination |
| Pagination.NegativeSkipFails | server/index.js:444-487 | The route fails exactly for page < 1 with a positive limit, or page > 1 with a negative limit |
| Pagination.HasNextIffMatchesRemain | server/index.js:463-481 | For page ≥ 1 and limit > 0 the route serves, and hasNext holds exactly when some match lies beyond the books served |
| Pagination.ZeroLimitServesEverything | server/index.js:444-481 | With limit 0 page 1 serves every match and totalPages goes out as `null`, yet hasNext is true although nothing remains |
| FileUpload.FileFilter | server/index.js:106-122 | A file is accepted iff it is a cover with an `image/` MIME type or a book file of type `application/pdf`. Each rejection carries its field's message |
| FileUpload.Destination | server/index.js:90-99 | Only the two known fields get a directory |
| FileUpload.Admit | server/index.js:360-363 | The parts of an upload are checked in order. Each is stored in its field's directory, and the stored list matches the parts one for one |
| FileUpload.AdmitStoredIff | server/index.js:106-130 | An upload is stored iff every part names `coverImage` or `bookFile`, no field repeats, the filter accepts each part and each is at most 50 MB |
| FileUpload.UnexpectedFieldRefused | server/index.js:360-363 | The first part that names an unlisted field, or repeats one, gets 500 "Unexpected field" when every part before it passed all the checks |
| FileUpload.StoredFilesHaveTheirType | server/index.js:90-122 | Whatever is stored in the books directory is a PDF, and whatever is stored in the covers directory has an `image/` type |
| BearerAuth.SplitHead | server/index.js:347 | The first field of `split(" ")` is the text up to the first space |
| BearerAuth.TokenAsWritten | server/index.js:347 | As written, the token is the second `split(" ")` field, i.e. the text after the first space up to the next space |
| BearerAuth.Token | server/index.js:343-347 | The token is the space-free word after `Bearer` and its run of spaces |
| BearerAuth.TokenRoundTrip | server/index.js:343-347 | For any token and any number (≥ 1) of spaces, the header `Bearer` + spaces + token passes the prefix check and yields that token |
| BearerAuth.DoubleSpaceLosesToken | server/index.js:347 | `Bearer  abc` passes the prefix check, yet as written it yields the empty token, where the corrected reading yields `abc` |
| BearerAuth.SingleSpaceAgrees | server/index.js:343-347 | With exactly one space the code as written and the corrected reading agree |
| BearerAuth.Authenticate | server/index.js:340-356 | As written: without the `Bearer ` prefix the reply is "No token provided". The request proceeds iff the second `split(" ")` field verifies, carrying that space-free field. A field that fails gives "Invalid token" |
| BearerAuth.AuthenticateIntended | server/index.js:340-356 | The same check on the word after `Bearer` and its run of spaces |
| BearerAuth.AuthenticateAgreesOnSingleSpace | server/index.js:343-347 | For `Bearer` + one space + a space-free token, both checks give the same decision, and a token that verifies proceeds |
| BearerAuth.AuthenticateDiffersOnDoubleSpace | server/index.js:347 | For `Bearer  abc`, with `abc` valid and the empty token not, the check as written refuses with "Invalid token" while the intended one proceeds with `abc` |
| SignupWizard.HandleSendOtp | client/src/components/Signup.jsx:18-38 | The request carries the normalised e-mail. otpSent becomes true only on an ok reply. Nothing else changes |
| SignupWizard.HandleVerifyOtp | client/src/components/Signup.jsx:40-60 | The request carries the normalised e-mail and the code. otpVerified becomes true only on an ok reply whose message is exactly "OTP verified successfully" |
| SignupWizard.HandleSignup | client/src/components/Signup.jsx:62-93 | A request is posted iff otpVerified and the passwords agree. Navigation to /login happens iff that request got an ok reply with message "User created successfully" |
| SignupWizard.Step | client/src/components/Signup.jsx:107-143 | On the rendered page: the e-mail is disabled once otpSent, the code field shows iff otpSent and not otpVerified, and the password form shows iff otpVerified. Each flag rises only by its own successful request |
| SignupWizard.FlagsOnlyRise | client/src/components/Signup.jsx:28-52 | Over any sequence of events neither flag returns to false, and the e-mail stays frozen after a code was sent |
| SignupWizard.VerifiedOnlyAfterSent | client/src/components/Signup.jsx:123-143 | otpVerified never holds without otpSent |
| SignupWizard.RegisterNeedsVerification | client/src/components/Signup.jsx:65-85 | From an unverified page, a register request is posted, or the page navigates to /login, only if some event in the run was a successful verification |
| SignupWizard.RequestsCarryNormalizedEmail | client/src/components/Signup.jsx:19-79 | Every request the page posts carries an already normalised e-mail |
| UploadForm.HandleInputChange | client/src/components/UploadBook.jsx:30-36 | The named field gets the value and every other field and page part is unchanged |
| UploadForm.HandleFileChange | client/src/components/UploadBook.jsx:38-44 | Only the chosen file slot changes |
| UploadForm.HandleStarRating | client/src/components/UploadBook.jsx:63-68 | Only the rating changes |
| UploadForm.AddTag | client/src/components/UploadBook.jsx:46-54 | The trimmed input is appended and the input cleared iff it is non-empty and not yet a tag. Otherwise tags and input are unchanged |
| UploadForm.RemoveTag | client/src/components/UploadBook.jsx:56-61 | Every copy of the tag is removed and the remaining tags keep their order. Nothing else changes |
| UploadForm.AddTagKeepsTagsWellFormed | client/src/components/UploadBook.jsx:46-54 | Adding keeps the tags duplicate-free, non-empty and trimmed |
| UploadForm.RemoveTagKeepsTagsWellFormed | client/src/components/UploadBook.jsx:56-61 | Removing keeps the tags duplicate-free, non-empty and trimmed |
| UploadForm.RemoveUndoesAdd | client/src/components/UploadBook.jsx:46-61 | Removing a tag just added restores the tag list |
| UploadForm.SimulateProgress | client/src/components/UploadBook.jsx:75-78 | Progress takes exactly the values 0, 10, …, 100, all within [0, 100] |
| UploadForm.HandleSubmit | client/src/components/UploadBook.jsx:70-116 | For the handler as written, progress is shown as 0..100 in steps of 10. Afterwards the form equals the initial form, uploading has ended and progress is 0 |
| Sorting.SortBy | client/src/components/BookList.jsx:115-136 | The sort returns a permutation of its input, ordered by the key |
| Sorting.SortByStable | client/src/components/BookList.jsx:115-136 | Elements with equal keys keep their relative order |
| Sorting.SortBySorted | client/src/components/BookList.jsx:115-136 | Sorting an already ordered list changes nothing |
| BookList.SearchStageFilters | client/src/components/BookList.jsx:93-99 | The search stage keeps exactly the books whose lower-cased title, author or description contains the lower-cased term. An empty term keeps all |
| BookList.GenreStageFilters | client/src/components/BookList.jsx:102-104 | A genre of '' or 'All' keeps all. Any other keeps exactly that genre |
| BookList.MinStageFilters | client/src/components/BookList.jsx:107-109 | The minimum is inclusive. An empty bound keeps all, and a non-numeric bound keeps none |
| BookList.MaxStageFilters | client/src/components/BookList.jsx:110-112 | The maximum is inclusive. An empty bound keeps all, and a non-numeric bound keeps none |
| BookList.FilterAsWrittenKeeps | client/src/components/BookList.jsx:89-112 | The chain of conditional filters equals one filter by the conjunction of all active conditions |
| BookList.ParseSortOrder | client/src/components/BookList.jsx:115-136 | A sort name is unrecognised exactly when it is none of the six case labels |
| BookList.SortKey | client/src/components/BookList.jsx:115-136 | Each of the six orders has a comparator, and any other name has none |
| BookList.Refresh | client/src/components/BookList.jsx:89-139 | The listed books are a permutation of the books passing every filter, ordered by the chosen key. An unrecognised order keeps the filtered order. The catalogue is reordered in place only when no filter ran, and then it becomes exactly the listed order |
| BookList.ListedIff | client/src/components/BookList.jsx:89-138 | A book is listed iff it is in the catalogue and passes every filter |
| BookList.SortOrders | client/src/components/BookList.jsx:115-133 | newest has non-increasing and oldest non-decreasing upload time. price-low is non-decreasing and price-high non-increasing in price. rating is non-increasing. title follows the title rank |
| BookList.SortKeepsTies | client/src/components/BookList.jsx:115-133 | Books the comparator calls equal keep their filtered order |
| SignUpModal.ToggleInterest | client/src/components/modals/SignUpModal.jsx:15-22 | A chosen genre is removed (every copy) and an unchosen one appended at the end. Other genres and all other fields are kept |
| SignUpModal.ToggleTwiceRestores | client/src/components/modals/SignUpModal.jsx:18-20 | Toggling an absent genre twice restores the form |
| SignUpModal.ToggleKeepsNoDup | client/src/components/modals/SignUpModal.jsx:16-20 | Toggling keeps the interests duplicate-free |
| SignUpModal.Submit | client/src/components/modals/SignUpModal.jsx:24-45 | At step 1, mismatched passwords stay at step 1 and matching ones move to step 2, with no user created. At step 2 the user is created with id = now and the form's name, e-mail and interests, and the dialog closes |
| SignUpModal.CreatedAfterMatchingPasswords | client/src/components/modals/SignUpModal.jsx:24-45 | Starting from step 1, two submits create a user iff the passwords matched. That user carries the genres toggled in between |
| SignUpModal.ToggleAllKeepsAccount | client/src/components/modals/SignUpModal.jsx:15-22 | Any sequence of toggles leaves the account fields unchanged |
| UserHistory.Delete | client/src/components/UserHistory.jsx:145-150 | A confirmed delete removes exactly the books with the id and keeps the others in order. An unconfirmed one changes nothing |
| UserHistory.DeleteTwice | client/src/components/UserHistory.jsx:145-150 | Deleting the same id twice is the same as once |
| UserHistory.Download | client/src/components/UserHistory.jsx:152-161 | Each book with the id gets one more download. No other field or book changes |
| UserHistory.Rate | client/src/components/UserHistory.jsx:165-173 | Each book with the id gets the rating and is marked reviewed. Other books are unchanged |
| UserHistory.UpdatesKeepIds | client/src/components/UserHistory.jsx:155-172 | Download and rate keep the list's ids, order and length |
| UserHistory.RateLastWins | client/src/components/UserHistory.jsx:165-173 | Rating twice is the same as rating once with the second value |
| UserHistory.DownloadRateCommute | client/src/components/UserHistory.jsx:152-173 | A download and a rating commute |
| UserHistory.DownloadTotal | client/src/components/UserHistory.jsx:155-161 | A download raises the total download count by the number of books carrying the id |
| UserHistory.ComputeStats | client/src/components/UserHistory.jsx:101-109 | totalUploaded and totalPurchased are the list lengths. totalEarnings and totalSpent are the left-to-right sums |
| UserHistory.SpentCoversEachPurchase | client/src/components/UserHistory.jsx:102 | With no negative price, what was spent covers every single purchase |
| UserHistory.SumPricesNonNegative | client/src/components/UserHistory.jsx:102 | With no negative price the total spent is not negative |
| UserHistory.RenderStars | client/src/components/UserHistory.jsx:123-138 | Five stars, and star i is lit iff i ≤ rating |
| UserHistory.StarsArePrefix | client/src/components/UserHistory.jsx:126-130 | The lit stars form a prefix. A rating of 5 lights all of them and one below 1 lights none |
| Catalog.FindGenre | client/src/components/BookCard.jsx:5 | `find` returns the first genre with the id, and nothing iff no genre has it |
| Catalog.FindGenreListed | client/src/components/BookCard.jsx:5 | With distinct ids, looking up a listed genre's id finds that genre |
| BookCard.HandleRead | client/src/components/BookCard.jsx:7-17 | Exactly one entry is prepended, with the book's id, title and genre and action 'read'. The prior history follows unchanged. onClick gets the book iff it was given |
| BookCard.RatingDisplay | client/src/components/BookCard.jsx:43 | The label is the rating, or 'New' exactly when the rating is 0 |
| BookCard.RatingDisplayFaithful | client/src/components/BookCard.jsx:43 | The label loses nothing: reading 'New' as 0 gives back the rating, and two books get the same label exactly when their ratings agree |
| BookCard.GenreBadge | client/src/components/BookCard.jsx:5-39 | The badge shows a genre with the book's genre id, and none iff no genre has that id |
| ExplorePage.Explore | client/src/components/ExplorePage.jsx:19-24 | A book shows iff its lower-cased title or author contains the lower-cased term and the genre is 'all' or its own. The result is an order-preserving subsequence |
| ExplorePage.ShowsOnlyReadsTitleAuthorGenre | client/src/components/ExplorePage.jsx:19-24 | The description plays no part: books agreeing on title, author and genre show alike |
| ExplorePage.ExploreAllShowsEverything | client/src/components/ExplorePage.jsx:19-24 | An empty search with 'all' shows every book, in order |
| ExplorePage.Heading | client/src/components/ExplorePage.jsx:46 | 'all' gives 'All Books'. Otherwise the heading is the first matching genre's name, or 'Books' when none matches or the name is empty. It is never empty |
| ExplorePage.HeadingAllIff | client/src/components/ExplorePage.jsx:46 | When no genre is named 'All Books', the heading is 'All Books' iff the genre is 'all' |
| App.Preferences | client/src/App.jsx:65-67 | A genre is a preference iff it is one of the user's interests or the genre of some history entry |
| App.Recommend | client/src/App.jsx:63-76 | Without a user or with no books the previous list stays. Otherwise the result is the first ≤ 6 qualifying books in catalogue order |
| App.RecommendationsQualify | client/src/App.jsx:65-72 | Every recommended book is unread, and its genre is an interest or was read before |
| App.ReadBookNotRecommended | client/src/App.jsx:69-72 | After a card's Read button on a book, that book is never recommended, and its genre becomes a preference |
| App.Resolve | client/src/App.jsx:123-160 | /dashboard, /uploadbook and /userhistory render iff a token is stored, else redirect to /login. /login and /signup redirect to /dashboard iff a token is stored. Other known paths render, and unknown ones show nothing |
| App.NoRedirectChains | client/src/App.jsx:125-160 | A redirect always lands on a page that renders |

## Left out

- Express, CORS, static serving, directory creation, multer disk storage and file naming, and mongoose and nodemailer plumbing are left out. The database and mail outcomes are boolean parameters, and the transport's `from` field is dropped.
- The 600-second TTL index of the code collection deletes records in the background. It is a storage-level process and is not modelled; expiry is enforced only by the explicit age check. Mongo upserts are modelled as atomic and requests as sequential.
- bcrypt and JWT are parameters. Hashing is a `hashed` string and comparison a `matches` relation. Signing is an opaque `sessionToken`, and token verification in `authMiddleware` is a `verify` predicate.
- The user store is keyed by the e-mail exactly as sent. The User model file is not part of this model, so no lower-casing or trimming is assumed for it. The code store, by contrast, is keyed by the normalised e-mail, as its schema declares.
- AuthServer.ResetPassword does not consume a token: the route queries a `ResetToken` model that is never defined, so no token is ever checked or cleared. The tokens `/forgot-password` stores are therefore never read.
- `authMiddleware` is defined but attached to no route. It is modelled as a standalone check.
- The client posts signup to `/register` and login to `/api/login`, while the server defines `/signup` and `/login`. No end-to-end round trip is modelled; client and server are separate modules.
- Floating point is replaced by integers:
  - prices and earnings are cents, and ratings are tenths of a star;
  - `parseFloat` of a price bound is a `Bound` that is empty, a number of cents, or not a number;
  - `Math.random()` is an exact fraction in [0, 1);
  - `toFixed` and other display formatting are not modelled.
- Dates are integer milliseconds. This covers `new Date()`, `toISOString`, `Date.now()` and the upload times compared by the sort.
- Lower-casing and trimming are ASCII only; Unicode case mapping and Unicode white space are not modelled.
- BookList.SortOrders: the `title` order uses `localeCompare`, modelled as an abstract `titleRank` function. The property proved for it is therefore ordering by that rank.
- The `$regex` search and the genre filter of the `/books` query depend on a regex engine and the database. Only the pagination arithmetic is modelled.
- Pagination.Paginate: the query's `page` and `limit` arrive as strings. The model takes them as already-converted integers. Not covered: strings that are not numbers (NaN arithmetic); fractional values such as `?page=1.5`, where the skip arithmetic uses 1.5 but `parseInt` reports page 1; and the empty string, which the arithmetic reads as 0 but `parseInt` reads as NaN.
- Pagination.PageSlice: a negative limit is modelled as MongoDB's "at most that many, in one batch". The cap a single batch puts on the size of the reply is not modelled.
- FileUpload.Admit: multer also ignores form parts without a file name and applies field-count and part-count limits. Neither is configured or reachable from the client, so neither is modelled. Storage failures on disk are left out.
- server/models/Otp.js duplicates the inline code schema and is never loaded, so it is not part of this model.
- Client-side effects are left out: `fetch` calls, `alert`, `localStorage`, `console` logging, the `setTimeout` delays, focus handling and the sample fixtures. Each `fetch` outcome is an event parameter, and the stored token is an `Option<string>`.
- SignupWizard.Step: each click is modelled together with its reply, as one atomic event. The page does not disable the e-mail field while `/send-otp` is pending, so an edit made between the click and the reply is not modelled. Neither are two requests in flight at once.
- UploadForm.HandleSubmit: the handler is bound to no element. UploadBook.jsx has no `<form>` and no `onSubmit`, and its `type="submit"` button (lines 412-414) sits outside any form, so on the page the click does nothing. The handler is modelled as written; the progress and the reset it promises never happen in the running page.
- UploadForm.HandleSubmit: the form is modelled as frozen during the simulated upload. Edits made while the progress timer runs are not modelled.
- UploadForm.HandleSubmit: the catch branch is not modelled, because the `try` block only builds an object and logs it and cannot fail. The page after the submit therefore always has the initial form.
- Rendering-only files are not part of this model: Login, ResetPassword, ForgotPassword, Dashboard, Home, HeadNav, About, Services, Contact, UploadModal and sampleData. So is the markup of the modelled components. ExplorePage passes the undefined `setCurrentView` and `logout` to its header; this affects only rendering.
- App.ReadBookNotRecommended: the link from a card's Read button to the recommendations holds of the components, not of a page a user can reach. ExplorePage, the only component that hands App's `setUserHistory` to its cards (ExplorePage.jsx:60-64), is imported in App.jsx but no route renders it. Dashboard renders `<BookCard book={book} />` without `genres` or `setUserHistory` (Dashboard.jsx:52 and 69), so `genres.find` at BookCard.jsx:5 throws on render and those cards never show. Neither crash nor routing is modelled.
- ExplorePage.HeadingAllIff: it assumes that no genre is itself named 'All Books'. Such a genre would also produce that heading.
- UserHistory.RenderStars: ratings are modelled in tenths of a star. A rating with finer precision than a tenth is not covered.
- Missing or non-string JSON fields are modelled as the empty string, which is falsy like a missing field. Non-string values such as numbers or objects are not modelled.

## Findings

| source | as written | input that shows it | evidently intended | confidence | as-written member | corrected member |
|---|---|---|---|---|---|---|
| server/index.js:347 | `authHeader.split(" ")[1]` takes the text between the first and second space. A header with more than one space after `Bearer` passes the `startsWith("Bearer ")` check, yet yields an empty token | `Authorization: Bearer  abc` (two spaces) gives the token "" instead of "abc". RFC 6750 section 2.1 allows one or more spaces | The token is the word after `Bearer` and its run of spaces | low (not executed; the middleware is not attached to any route) | BearerAuth.Authenticate (on BearerAuth.TokenAsWritten), shown by BearerAuth.DoubleSpaceLosesToken and BearerAuth.AuthenticateDiffersOnDoubleSpace | BearerAuth.AuthenticateIntended (on BearerAuth.Token), proved by BearerAuth.TokenRoundTrip and BearerAuth.AuthenticateAgreesOnSingleSpace |
