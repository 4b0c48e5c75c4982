/** The `/books` pagination arithmetic of server/index.js. Query values arrive
    already as integers; an absent one takes the route's default. */
module Pagination {
  import opened Seqs

  const DEFAULT_PAGE: int := 1
  const DEFAULT_LIMIT: int := 10

  /** The `pagination` object of the reply, plus the `skip` and `limit` the query used.
      `totalPages` is `None` for a zero limit, where `Math.ceil(total / 0)` is
      `Infinity` (or `NaN` when total is 0) and goes out as `null`. */
  datatype PageInfo = PageInfo(skip: int, limit: int, currentPage: int, totalPages: Option<int>,
                               totalBooks: nat, hasNext: bool, hasPrev: bool)

  /** `Math.ceil(a / b)`, with `None` for b = 0, where the quotient is `Infinity`
      or, for a = 0, `NaN`; JSON sends either as `null`. */
  function CeilDiv(a: nat, b: int): (r: Option<int>)
    ensures r.None? <==> b == 0
    ensures b > 0 ==> r.Some? && r.value >= 0 && (r.value - 1) * b < a <= r.value * b
    ensures b < 0 ==> r.Some? && r.value <= 0 && r.value * b <= a < (r.value - 1) * b
  {
    if b == 0 then None
    else if b > 0 then
      CeilPositive(a, b);
      Some((a + b - 1) / b)
    else
      CeilNegative(a, b);
      Some(-(a / -b))
  }

  lemma CeilPositive(a: nat, b: int)
    requires b > 0
    ensures var c := (a + b - 1) / b; c >= 0 && (c - 1) * b < a <= c * b
  {
    var x := a + b - 1;
    var c, m := x / b, x % b;
    DivModFacts(x, b);
    assert (c - 1) * b == c * b - b;
    if c < 0 {
      assert c * b <= -b by { MulLe(c, -1, b); }
    }
  }

  lemma CeilNegative(a: nat, b: int)
    requires b < 0
    ensures var c := -(a / -b); c <= 0 && c * b <= a < (c - 1) * b
  {
    var d := -b;
    var q, m := a / d, a % d;
    DivModFacts(a, d);
    assert -q * b == q * d;
    assert (-q - 1) * b == q * d + d;
    if q < 0 {
      assert q * d <= -d by { MulLe(q, -1, d); }
    }
  }

  lemma DivModFacts(x: int, d: int)
    requires d > 0
    ensures x == (x / d) * d + x % d && 0 <= x % d < d
  {
  }

  /** The arithmetic of `GET /books` for the query's `page` and `limit` and the matching count. */
  function Paginate(page: Option<int>, limit: Option<int>, total: nat): (p: PageInfo)
    ensures p.limit == (if limit.Some? then limit.value else DEFAULT_LIMIT)
    ensures p.currentPage == (if page.Some? then page.value else DEFAULT_PAGE)
    ensures p.totalBooks == total
    ensures p.hasPrev <==> p.currentPage > 1
    ensures p.currentPage == 1 ==> p.skip == 0
    ensures p.currentPage >= 1 && p.limit > 0 ==>
              && p.skip >= 0
              && (p.hasNext <==> p.skip + p.limit < total)
              && p.totalPages.Some?
              && (p.totalPages.value - 1) * p.limit < total <= p.totalPages.value * p.limit
  {
    var pg := if page.Some? then page.value else DEFAULT_PAGE;
    var lim := if limit.Some? then limit.value else DEFAULT_LIMIT;
    var skip := (pg - 1) * lim;
    assert pg * lim == skip + lim;
    PageInfo(skip, lim, pg, CeilDiv(total, lim), total, pg * lim < total, pg > 1)
  }

  /** Page `k + 1` starts right where page `k` ends, so pages neither overlap nor leave gaps. */
  lemma ConsecutivePagesAdjacent(k: int, limit: int, total: nat)
    ensures Paginate(Some(k + 1), Some(limit), total).skip == Paginate(Some(k), Some(limit), total).skip + limit
  {
    assert k * limit == (k - 1) * limit + limit;
  }

  /** With no query the first ten books are served. */
  lemma PaginateDefaults(total: nat)
    ensures var p := Paginate(None, None, total);
            p.skip == 0 && p.limit == 10 && p.currentPage == 1 && !p.hasPrev && (p.hasNext <==> total > 10)
  {
  }

  /** There is a next page exactly when the current page is not the last one. */
  lemma HasNextIffBeforeLastPage(page: int, limit: int, total: nat)
    requires page >= 1 && limit > 0
    ensures var p := Paginate(Some(page), Some(limit), total);
            p.hasNext <==> page < p.totalPages.value
  {
    var p := Paginate(Some(page), Some(limit), total);
    var c := p.totalPages.value;
    if page < c {
      MulLe(page, c - 1, limit);
    } else {
      MulLe(c, page, limit);
    }
  }

  lemma MulLe(x: int, y: int, d: int)
    requires x <= y && d > 0
    ensures x * d <= y * d
  {
  }

  /** How many of `available` remaining matches `.limit(n)` lets through: 0 means
      no limit, and a negative `n` returns at most `-n` of them. */
  function Window(n: int, available: nat): (k: nat)
    ensures k <= available
    ensures n == 0 ==> k == available
    ensures n > 0 ==> k == if n < available then n else available
    ensures n < 0 ==> k == if -n < available then -n else available
  {
    var cap := if n < 0 then -n else n;
    if n == 0 || available <= cap then available else cap
  }

  /** `.skip(skip).limit(limit)` over the matches: a negative skip is refused by
      the database, which the route's catch block turns into a 500 reply. */
  function PageSlice<T>(matches: seq<T>, skip: int, limit: int): (r: Option<seq<T>>)
    ensures r.None? <==> skip < 0
    ensures r.Some? ==> |r.value| <= |matches|
    ensures r.Some? && skip >= |matches| ==> r.value == []
    ensures r.Some? && skip < |matches| ==>
              && skip + |r.value| <= |matches|
              && r.value == matches[skip..skip + |r.value|]
              && (limit == 0 ==> skip + |r.value| == |matches|)
              && (limit != 0 ==> |r.value| <= (if limit < 0 then -limit else limit))
              && (skip + |r.value| < |matches| ==> |r.value| == (if limit < 0 then -limit else limit))
  {
    if skip < 0 then None
    else if skip >= |matches| then Some([])
    else Some(matches[skip..skip + Window(limit, |matches| - skip)])
  }

  /** What `/books` answers for the books its query matched. */
  datatype BooksReply<T> = Served(books: seq<T>, pagination: PageInfo) | Failed(status: nat, message: string)

  /** The `/books` route once the matches are known. */
  function ServeBooks<T>(matches: seq<T>, page: Option<int>, limit: Option<int>): (r: BooksReply<T>)
    ensures var p := Paginate(page, limit, |matches|);
            && (r.Failed? <==> p.skip < 0)
            && (r.Failed? ==> r == Failed(500, "Failed to fetch books"))
            && (r.Served? ==> r.pagination == p && PageSlice(matches, p.skip, p.limit) == Some(r.books))
  {
    var p := Paginate(page, limit, |matches|);
    match PageSlice(matches, p.skip, p.limit)
    case None => Failed(500, "Failed to fetch books")
    case Some(books) => Served(books, p)
  }

  /** A page below 1 with a positive limit, or a page above 1 with a negative
      limit, asks for a negative skip and gets the 500 reply. */
  lemma NegativeSkipFails<T>(matches: seq<T>, page: int, limit: int)
    ensures ServeBooks(matches, Some(page), Some(limit)).Failed? <==>
              (page < 1 && limit > 0) || (page > 1 && limit < 0)
  {
    var p := Paginate(Some(page), Some(limit), |matches|);
    if page < 1 && limit > 0 {
      MulNegPos(page - 1, limit);
    } else if page > 1 && limit < 0 {
      MulNegPos(limit, page - 1);
    } else {
      MulNonNeg(page - 1, limit);
    }
  }

  lemma MulNegPos(x: int, y: int)
    requires x < 0 && y > 0
    ensures x * y < 0
  {
  }

  lemma MulNonNeg(x: int, y: int)
    requires (x >= 0 && y >= 0) || (x <= 0 && y <= 0)
    ensures x * y >= 0
  {
  }

  /** `hasNext` holds exactly when some match lies beyond the books served. */
  lemma HasNextIffMatchesRemain<T>(matches: seq<T>, page: int, limit: int)
    requires page >= 1 && limit > 0
    ensures var r := ServeBooks(matches, Some(page), Some(limit));
            r.Served? && (r.pagination.hasNext <==> r.pagination.skip + |r.books| < |matches|)
  {
    MulNonNeg(page - 1, limit);
  }

  /** `?limit=0` serves every match, yet still reports no page count and, when
      there is any match, a next page. */
  lemma ZeroLimitServesEverything<T>(matches: seq<T>)
    requires matches != []
    ensures var r := ServeBooks(matches, Some(1), Some(0));
            r.Served? && r.books == matches && r.pagination.totalPages.None? && r.pagination.hasNext
  {
  }
}

/** The upload checks of server/index.js: multer's `fileFilter`, the disk
    destination chosen per form field, the 50 MB size limit and the error
    middleware that turns their failures into replies. */
module FileUpload {
  import opened Seqs
  import Text

  const MAX_FILE_SIZE: nat := 50 * 1024 * 1024
  const COVERS_DIR: string := "uploads/covers"
  const BOOKS_DIR: string := "uploads/books"

  datatype Verdict = Accept | Reject(message: string)

  /** `fileFilter`: covers must have an `image/` MIME type, book files must be PDFs. */
  function FileFilter(fieldname: string, mimetype: string): (v: Verdict)
    ensures v == Accept <==>
              || (fieldname == "coverImage" && Text.StartsWith(mimetype, "image/"))
              || (fieldname == "bookFile" && mimetype == "application/pdf")
    ensures fieldname != "coverImage" && fieldname != "bookFile" ==> v == Reject("Invalid field name")
    ensures fieldname == "coverImage" && v.Reject? ==> v.message == "Cover image must be an image file"
    ensures fieldname == "bookFile" && v.Reject? ==> v.message == "Book file must be a PDF"
  {
    if fieldname == "coverImage" then
      if Text.StartsWith(mimetype, "image/") then Accept else Reject("Cover image must be an image file")
    else if fieldname == "bookFile" then
      if mimetype == "application/pdf" then Accept else Reject("Book file must be a PDF")
    else Reject("Invalid field name")
  }

  /** The disk storage `destination` callback. */
  function Destination(fieldname: string): (d: Option<string>)
    ensures d.Some? <==> fieldname == "coverImage" || fieldname == "bookFile"
  {
    if fieldname == "coverImage" then Some(COVERS_DIR)
    else if fieldname == "bookFile" then Some(BOOKS_DIR)
    else None
  }

  /** The fields `upload.fields` accepts on `/upload-book`, each with `maxCount: 1`. */
  const UPLOAD_FIELDS: set<string> := {"coverImage", "bookFile"}

  /** One file part of the multipart body, in the order it arrives. */
  datatype Part = Part(fieldname: string, mimetype: string, size: nat)

  /** The directory of each stored part, or the reply of the first failure. */
  datatype Admission = Stored(dirs: seq<string>) | Refused(status: nat, message: string)

  /** One part passes on its own: the filter accepts it and it is at most 50 MB. */
  predicate PartOk(p: Part) {
    FileFilter(p.fieldname, p.mimetype) == Accept && p.size <= MAX_FILE_SIZE
  }

  /** No field name occurs twice. */
  predicate DistinctFields(parts: seq<Part>) {
    forall i, j :: 0 <= i < j < |parts| ==> parts[i].fieldname != parts[j].fieldname
  }

  /** The parts in arrival order; `open` holds the fields that may still take a
      file. A field that is not open fails as `LIMIT_UNEXPECTED_FILE` before the
      filter runs; then come the filter and the size limit. The first failure
      aborts the whole request, and the error middleware answers 400 for an
      oversized file and 500 with the error's message otherwise. */
  function AdmitFrom(parts: seq<Part>, open: set<string>): (a: Admission)
    ensures a.Stored? ==> |a.dirs| == |parts|
    ensures a.Stored? ==> forall i :: 0 <= i < |parts| ==> Destination(parts[i].fieldname) == Some(a.dirs[i])
    decreases |parts|
  {
    if parts == [] then Stored([])
    else
      var p := parts[0];
      if p.fieldname !in open then Refused(500, "Unexpected field")
      else match FileFilter(p.fieldname, p.mimetype)
        case Reject(msg) => Refused(500, msg)
        case Accept =>
          if p.size > MAX_FILE_SIZE then Refused(400, "File too large. Maximum size is 50MB.")
          else match AdmitFrom(parts[1..], open - {p.fieldname})
            case Refused(status, msg) => Refused(status, msg)
            case Stored(dirs) => Stored([Destination(p.fieldname).value] + dirs)
  }

  /** The upload middleware of `/upload-book`. */
  function Admit(parts: seq<Part>): (a: Admission)
    ensures a.Stored? ==> |a.dirs| == |parts|
    ensures a.Stored? ==> forall i :: 0 <= i < |parts| ==> Destination(parts[i].fieldname) == Some(a.dirs[i])
  {
    AdmitFrom(parts, UPLOAD_FIELDS)
  }

  /** Every part is admitted exactly when each passes on its own, each names an
      open field, and no field is used twice. */
  lemma {:induction false} AdmitFromStoredIff(parts: seq<Part>, open: set<string>)
    ensures AdmitFrom(parts, open).Stored? <==>
              DistinctFields(parts) && forall i :: 0 <= i < |parts| ==> parts[i].fieldname in open && PartOk(parts[i])
    decreases |parts|
  {
    if parts != [] {
      var p := parts[0];
      var rest := parts[1..];
      AdmitFromStoredIff(rest, open - {p.fieldname});
      var all := DistinctFields(parts) && forall i :: 0 <= i < |parts| ==> parts[i].fieldname in open && PartOk(parts[i]);
      var tail := DistinctFields(rest) && forall i :: 0 <= i < |rest| ==> rest[i].fieldname in open - {p.fieldname} && PartOk(rest[i]);
      if all {
        assert p.fieldname in open && PartOk(p);
        forall i | 0 <= i < |rest| ensures rest[i].fieldname in open - {p.fieldname} && PartOk(rest[i]) {
          assert rest[i] == parts[i + 1];
        }
        forall i, j | 0 <= i < j < |rest| ensures rest[i].fieldname != rest[j].fieldname {
          assert rest[i] == parts[i + 1] && rest[j] == parts[j + 1];
        }
      }
      if p.fieldname in open && PartOk(p) && tail {
        forall i, j | 0 <= i < j < |parts| ensures parts[i].fieldname != parts[j].fieldname {
          if i > 0 {
            assert parts[i] == rest[i - 1] && parts[j] == rest[j - 1];
          } else {
            assert parts[j] == rest[j - 1];
          }
        }
        forall i | 0 <= i < |parts| ensures parts[i].fieldname in open && PartOk(parts[i]) {
          if i > 0 {
            assert parts[i] == rest[i - 1];
          }
        }
      }
    }
  }

  /** The upload is stored exactly when there is at most one cover and one book
      file, nothing else, and each passes the filter and the size limit. */
  lemma AdmitStoredIff(parts: seq<Part>)
    ensures Admit(parts).Stored? <==>
              DistinctFields(parts) && forall i :: 0 <= i < |parts| ==> parts[i].fieldname in UPLOAD_FIELDS && PartOk(parts[i])
  {
    AdmitFromStoredIff(parts, UPLOAD_FIELDS);
  }

  /** A part whose field is not listed, or a second file for a listed field,
      is refused as an unexpected field before the filter sees it. */
  lemma {:induction false} UnexpectedFieldRefused(parts: seq<Part>, k: int)
    requires 0 <= k < |parts|
    requires parts[k].fieldname !in UPLOAD_FIELDS || exists j :: 0 <= j < k && parts[j].fieldname == parts[k].fieldname
    requires forall i :: 0 <= i < k ==> PartOk(parts[i])
    requires DistinctFields(parts[..k])
    ensures Admit(parts) == Refused(500, "Unexpected field")
  {
    UnexpectedFrom(parts, UPLOAD_FIELDS, k);
  }

  lemma {:induction false} UnexpectedFrom(parts: seq<Part>, open: set<string>, k: int)
    requires 0 <= k < |parts|
    requires parts[k].fieldname !in open || exists j :: 0 <= j < k && parts[j].fieldname == parts[k].fieldname
    requires forall i :: 0 <= i < k ==> PartOk(parts[i]) && parts[i].fieldname in open
    requires DistinctFields(parts[..k])
    ensures AdmitFrom(parts, open) == Refused(500, "Unexpected field")
    decreases k
  {
    if k > 0 {
      var p := parts[0];
      var rest := parts[1..];
      assert parts[..k][0] == p;
      forall i | 0 <= i < k - 1 ensures PartOk(rest[i]) && rest[i].fieldname in open - {p.fieldname} {
        assert rest[i] == parts[i + 1] && parts[..k][i + 1] == parts[i + 1];
      }
      var rk := rest[..k - 1];
      forall i, j | 0 <= i < j < |rk| ensures rk[i].fieldname != rk[j].fieldname {
        assert rk[i] == parts[..k][i + 1] && rk[j] == parts[..k][j + 1];
      }
      if parts[k].fieldname in open {
        var j :| 0 <= j < k && parts[j].fieldname == parts[k].fieldname;
        if j == 0 {
          assert rest[k - 1].fieldname !in open - {p.fieldname};
        } else {
          assert rest[j - 1].fieldname == rest[k - 1].fieldname;
        }
      }
      UnexpectedFrom(rest, open - {p.fieldname}, k - 1);
    }
  }

  /** Whatever is stored in the books directory is a PDF, and whatever is
      stored in the covers directory has an image type. */
  lemma StoredFilesHaveTheirType(parts: seq<Part>, i: int)
    requires Admit(parts).Stored? && 0 <= i < |parts|
    ensures Admit(parts).dirs[i] == BOOKS_DIR ==> parts[i].mimetype == "application/pdf"
    ensures Admit(parts).dirs[i] == COVERS_DIR ==> Text.StartsWith(parts[i].mimetype, "image/")
  {
    AdmitStoredIff(parts);
    assert PartOk(parts[i]);
  }
}

/** The header check of `authMiddleware` in server/index.js. The header is
    the Authorization request header of section 2.1 of RFC 6750:
    `"Bearer" 1*SP b64token`. A missing header is the empty string. */
module BearerAuth {
  import Text

  const SCHEME: string := "Bearer"

  /** `s.split(" ")`. */
  function Split(s: string): (r: seq<string>)
    ensures |r| >= 1
  {
    if s == [] then [""]
    else
      var rest := Split(s[1..]);
      if s[0] == ' ' then [""] + rest
      else [[s[0]] + rest[0]] + rest[1..]
  }

  predicate NoSpace(s: string) {
    forall i :: 0 <= i < |s| ==> s[i] != ' '
  }

  /** The characters of `s` before its first space. */
  function UpToSpace(s: string): (r: string)
    ensures NoSpace(r) && |r| <= |s| && r == s[..|r|]
    ensures |r| < |s| ==> s[|r|] == ' '
  {
    if s == [] || s[0] == ' ' then "" else [s[0]] + UpToSpace(s[1..])
  }

  /** `s` without its leading spaces. */
  function SkipSpaces(s: string): (r: string)
    ensures |r| <= |s| && r == s[|s| - |r|..]
    ensures r == [] || r[0] != ' '
    ensures forall i :: 0 <= i < |s| - |r| ==> s[i] == ' '
  {
    if s != [] && s[0] == ' ' then
      var r := SkipSpaces(s[1..]);
      assert s[1..][|s| - 1 - |r|..] == s[|s| - |r|..];
      r
    else s
  }

  function Spaces(n: nat): (r: string)
    ensures |r| == n && forall i :: 0 <= i < n ==> r[i] == ' '
  {
    if n == 0 then "" else " " + Spaces(n - 1)
  }

  /** The first piece of a split is the text before the first space. */
  lemma {:induction false} SplitHead(s: string)
    ensures Split(s)[0] == UpToSpace(s)
  {
    if s != [] && s[0] != ' ' {
      SplitHead(s[1..]);
    }
  }

  /** A space-free word followed by a space splits off as the first piece. */
  lemma {:induction false} SplitAfterWord(w: string, t: string)
    requires NoSpace(w)
    ensures Split(w + " " + t) == [w] + Split(t)
  {
    if w == [] {
      assert w + " " + t == " " + t;
      assert (" " + t)[0] == ' ';
      assert (" " + t)[1..] == t;
      assert Split(" " + t) == [""] + Split(t);
    } else {
      var s := w + " " + t;
      assert s[0] == w[0] && s[1..] == w[1..] + " " + t;
      assert w[0] != ' ';
      SplitAfterWord(w[1..], t);
      var rest := Split(s[1..]);
      assert rest[0] == w[1..] && rest[1..] == Split(t);
      assert [w[0]] + w[1..] == w;
    }
  }

  /** `authHeader.split(" ")[1]` for a header that starts with `Bearer `. */
  function TokenAsWritten(header: string): (r: string)
    requires Text.StartsWith(header, SCHEME + " ")
    ensures r == UpToSpace(header[|SCHEME| + 1..])
  {
    var t := header[|SCHEME| + 1..];
    assert header == SCHEME + " " + t;
    SplitAfterWord(SCHEME, t);
    SplitHead(t);
    Split(header)[1]
  }

  /** The token after the scheme and all of the spaces that follow it. */
  function Token(header: string): (r: string)
    requires Text.StartsWith(header, SCHEME + " ")
    ensures NoSpace(r)
  {
    UpToSpace(SkipSpaces(header[|SCHEME|..]))
  }

  /** The token of a well-formed header, with any number of separating spaces, comes back intact. */
  lemma TokenRoundTrip(token: string, n: nat)
    requires n >= 1 && NoSpace(token)
    ensures Text.StartsWith(SCHEME + Spaces(n) + token, SCHEME + " ")
    ensures Token(SCHEME + Spaces(n) + token) == token
  {
    var rest := Spaces(n) + token;
    assert SCHEME + Spaces(n) + token == SCHEME + rest;
    assert rest[0] == ' ';
    AfterScheme(rest);
    SkipSpacesOver(Spaces(n), token);
    UpToSpaceAll(token);
  }

  lemma AfterScheme(rest: string)
    requires rest != [] && rest[0] == ' '
    ensures Text.StartsWith(SCHEME + rest, SCHEME + " ")
    ensures (SCHEME + rest)[|SCHEME|..] == rest
  {
    var h := SCHEME + rest;
    assert h[..|SCHEME| + 1] == SCHEME + [rest[0]];
  }

  lemma {:induction false} SkipSpacesOver(p: string, t: string)
    requires forall i :: 0 <= i < |p| ==> p[i] == ' '
    requires t == [] || t[0] != ' '
    ensures SkipSpaces(p + t) == t
    decreases |p|
  {
    if p == [] {
      assert p + t == t;
    } else {
      var x := p + t;
      assert x[0] == ' ';
      assert x[1..] == p[1..] + t;
      SkipSpacesOver(p[1..], t);
    }
  }

  lemma {:induction false} UpToSpaceAll(t: string)
    requires NoSpace(t)
    ensures UpToSpace(t) == t
  {
    if t != [] {
      UpToSpaceAll(t[1..]);
    }
  }

  /** As written, a second separating space loses the token that section 2.1 of RFC 6750 allows. */
  lemma DoubleSpaceLosesToken()
    ensures Text.StartsWith("Bearer  abc", SCHEME + " ")
    ensures TokenAsWritten("Bearer  abc") == ""
    ensures Token("Bearer  abc") == "abc"
  {
    var h := "Bearer  abc";
    assert Spaces(2) == "  " by {
      assert Spaces(1) == " " + Spaces(0);
    }
    assert h == SCHEME + Spaces(2) + "abc";
    TokenRoundTrip("abc", 2);
    assert h[|SCHEME| + 1..] == " abc";
    assert UpToSpace(" abc") == "";
  }

  /** With the single space the code expects, both readings agree. */
  lemma {:induction false} SingleSpaceAgrees(token: string)
    requires NoSpace(token)
    ensures Text.StartsWith(SCHEME + " " + token, SCHEME + " ")
    ensures TokenAsWritten(SCHEME + " " + token) == Token(SCHEME + " " + token) == token
  {
    assert Spaces(1) == " ";
    TokenRoundTrip(token, 1);
    var h := SCHEME + " " + token;
    assert h[|SCHEME| + 1..] == token;
    UpToSpaceAll(token);
  }

  datatype Decision = Next(token: string) | Unauthorized(message: string)

  /** `authMiddleware` as written: a missing or non-Bearer header is refused
      before any token check, and the token handed to `verify` (standing for
      `jwt.verify` with the server secret) is `split(" ")[1]`. */
  function Authenticate(header: string, verify: string -> bool): (d: Decision)
    ensures !Text.StartsWith(header, SCHEME + " ") ==> d == Unauthorized("No token provided")
    ensures d.Next? <==> Text.StartsWith(header, SCHEME + " ") && verify(TokenAsWritten(header))
    ensures d.Next? ==> d.token == TokenAsWritten(header) && NoSpace(d.token)
    ensures Text.StartsWith(header, SCHEME + " ") && !verify(TokenAsWritten(header)) ==> d == Unauthorized("Invalid token")
  {
    if header == "" || !Text.StartsWith(header, SCHEME + " ") then Unauthorized("No token provided")
    else if verify(TokenAsWritten(header)) then Next(TokenAsWritten(header))
    else Unauthorized("Invalid token")
  }

  /** The middleware with the corrected token reading. */
  function AuthenticateIntended(header: string, verify: string -> bool): (d: Decision)
    ensures !Text.StartsWith(header, SCHEME + " ") ==> d == Unauthorized("No token provided")
    ensures d.Next? <==> Text.StartsWith(header, SCHEME + " ") && verify(Token(header))
    ensures d.Next? ==> d.token == Token(header) && NoSpace(d.token)
    ensures Text.StartsWith(header, SCHEME + " ") && !verify(Token(header)) ==> d == Unauthorized("Invalid token")
  {
    if header == "" || !Text.StartsWith(header, SCHEME + " ") then Unauthorized("No token provided")
    else if verify(Token(header)) then Next(Token(header))
    else Unauthorized("Invalid token")
  }

  /** With a single space after the scheme both middlewares decide alike, and a
      valid token is let through. */
  lemma AuthenticateAgreesOnSingleSpace(token: string, verify: string -> bool)
    requires NoSpace(token)
    ensures Authenticate(SCHEME + " " + token, verify) == AuthenticateIntended(SCHEME + " " + token, verify)
    ensures verify(token) ==> Authenticate(SCHEME + " " + token, verify) == Next(token)
  {
    SingleSpaceAgrees(token);
  }

  /** With two spaces a valid token is refused as written but let through by
      the corrected reading. */
  lemma AuthenticateDiffersOnDoubleSpace(verify: string -> bool)
    requires verify("abc") && !verify("")
    ensures Authenticate("Bearer  abc", verify) == Unauthorized("Invalid token")
    ensures AuthenticateIntended("Bearer  abc", verify) == Next("abc")
  {
    DoubleSpaceLosesToken();
  }
}
