/** The book upload form of client/src/components/UploadBook.jsx: text fields,
    a star rating, two file pickers, a duplicate-free tag list, and the
    `handleSubmit` handler, which simulates progress and then resets the form.
    No element of the page calls that handler: its submit button sits in no
    form. It is modelled as written. */
module UploadForm {
  import opened Seqs
  import Text

  /** A `File` object a picker returned. */
  datatype FileRef = FileRef(name: string)

  datatype Form = Form(title: string, author: string, description: string, genre: string, price: string,
                       publishedDate: string, isbn: string, language: string, pages: string,
                       rating: int, coverImage: Option<FileRef>, bookFile: Option<FileRef>, tags: seq<string>)

  /** The form state the page starts with and returns to after a submit. */
  function InitialForm(): Form {
    Form("", "", "", "", "", "", "", "English", "", 0, None, None, [])
  }

  datatype Page = Page(form: Form, tagInput: string, isUploading: bool, uploadProgress: int)

  function InitialPage(): Page {
    Page(InitialForm(), "", false, 0)
  }

  /** The inputs that call `handleInputChange`, by their `name` attribute. */
  datatype TextField = Title | Author | Genre | Price | PublishedDate | Isbn | Pages | Description

  function FieldValue(f: Form, field: TextField): string {
    match field
    case Title => f.title
    case Author => f.author
    case Genre => f.genre
    case Price => f.price
    case PublishedDate => f.publishedDate
    case Isbn => f.isbn
    case Pages => f.pages
    case Description => f.description
  }

  /** The parts of a form no text input can reach. */
  predicate SameNonText(a: Form, b: Form) {
    a.language == b.language && a.rating == b.rating && a.coverImage == b.coverImage
    && a.bookFile == b.bookFile && a.tags == b.tags
  }

  /** `handleInputChange`: `{...prev, [name]: value}`. */
  function HandleInputChange(p: Page, field: TextField, value: string): (r: Page)
    ensures FieldValue(r.form, field) == value
    ensures forall g: TextField :: g != field ==> FieldValue(r.form, g) == FieldValue(p.form, g)
    ensures SameNonText(r.form, p.form)
    ensures r.(form := p.form) == p
  {
    var f := p.form;
    var f' := match field
      case Title => f.(title := value)
      case Author => f.(author := value)
      case Genre => f.(genre := value)
      case Price => f.(price := value)
      case PublishedDate => f.(publishedDate := value)
      case Isbn => f.(isbn := value)
      case Pages => f.(pages := value)
      case Description => f.(description := value);
    p.(form := f')
  }

  datatype FileField = CoverImage | BookFile

  /** `handleFileChange`: `files[0]` of the picker, `None` when it is empty. */
  function HandleFileChange(p: Page, which: FileField, file: Option<FileRef>): (r: Page)
    ensures which == CoverImage ==> r.form == p.form.(coverImage := file)
    ensures which == BookFile ==> r.form == p.form.(bookFile := file)
    ensures r.(form := p.form) == p
  {
    match which
    case CoverImage => p.(form := p.form.(coverImage := file))
    case BookFile => p.(form := p.form.(bookFile := file))
  }

  /** `handleStarRating`: only `rating` changes. */
  function HandleStarRating(p: Page, rating: int): (r: Page)
    ensures r.form.rating == rating
    ensures r.form.(rating := p.form.rating) == p.form
    ensures r.(form := p.form) == p
  {
    p.(form := p.form.(rating := rating))
  }

  function SetTagInput(p: Page, value: string): Page {
    p.(tagInput := value)
  }

  /** The tag list keeps no duplicates, no empty tag and no tag with surrounding spaces. */
  predicate TagsWellFormed(tags: seq<string>) {
    NoDup(tags) && forall i :: 0 <= i < |tags| ==> tags[i] != "" && Text.Trimmed(tags[i])
  }

  /** `addTag`: the trimmed input is appended and the input cleared, unless it is
      empty or already a tag, in which case nothing changes. */
  function AddTag(p: Page): (r: Page)
    ensures var t := Text.Trim(p.tagInput);
            if t != "" && t !in p.form.tags then r.form.tags == p.form.tags + [t] && r.tagInput == ""
            else r == p
    ensures r.form.(tags := p.form.tags) == p.form
    ensures r.isUploading == p.isUploading && r.uploadProgress == p.uploadProgress
  {
    var t := Text.Trim(p.tagInput);
    if t != "" && t !in p.form.tags then Page(p.form.(tags := p.form.tags + [t]), "", p.isUploading, p.uploadProgress)
    else p
  }

  /** `removeTag`: every copy of the tag goes, the others stay in order. */
  function RemoveTag(p: Page, tag: string): (r: Page)
    ensures tag !in r.form.tags
    ensures forall i :: 0 <= i < |p.form.tags| && p.form.tags[i] != tag ==> p.form.tags[i] in r.form.tags
    ensures SubseqOf(r.form.tags, p.form.tags)
    ensures r.form.(tags := p.form.tags) == p.form
    ensures r.(form := p.form) == p
  {
    p.(form := p.form.(tags := Filter(p.form.tags, t => t != tag)))
  }

  lemma AddTagKeepsTagsWellFormed(p: Page)
    requires TagsWellFormed(p.form.tags)
    ensures TagsWellFormed(AddTag(p).form.tags)
  {
    var t := Text.Trim(p.tagInput);
    if t != "" && t !in p.form.tags {
      var before := p.form.tags;
      var tags := before + [t];
      assert AddTag(p).form.tags == tags;
      forall i | 0 <= i < |tags| ensures tags[i] != "" && Text.Trimmed(tags[i]) {
        if i < |before| {
          assert tags[i] == before[i];
        }
      }
      forall i, j | 0 <= i < j < |tags| ensures tags[i] != tags[j] {
        assert tags[i] == before[i];
        if j < |before| {
          assert tags[j] == before[j];
        } else {
          assert tags[j] == t;
        }
      }
    }
  }

  lemma RemoveTagKeepsTagsWellFormed(p: Page, tag: string)
    requires TagsWellFormed(p.form.tags)
    ensures TagsWellFormed(RemoveTag(p, tag).form.tags)
  {
    FilterNoDup(p.form.tags, t => t != tag);
  }

  /** Removing a tag that was just added gives back the previous list. */
  lemma RemoveUndoesAdd(p: Page)
    requires Text.Trim(p.tagInput) != "" && Text.Trim(p.tagInput) !in p.form.tags
    ensures RemoveTag(AddTag(p), Text.Trim(p.tagInput)).form.tags == p.form.tags
  {
    var t := Text.Trim(p.tagInput);
    var f := (x: string) => x != t;
    FilterAppend(p.form.tags, [t], f);
    FilterKeepsAll(p.form.tags, f);
  }

  /** The values the `for (let i = 0; i <= 100; i += 10)` loop shows as progress. */
  method SimulateProgress() returns (values: seq<int>)
    ensures |values| == 11
    ensures forall k :: 0 <= k < |values| ==> values[k] == 10 * k
    ensures forall k :: 0 <= k < |values| ==> 0 <= values[k] <= 100
    ensures values[|values| - 1] == 100
  {
    values := [];
    var i := 0;
    while i <= 100
      invariant 0 <= i <= 110 && i % 10 == 0
      invariant |values| == i / 10
      invariant forall k :: 0 <= k < |values| ==> values[k] == 10 * k
      decreases 110 - i
    {
      values := values + [i];
      i := i + 10;
    }
  }

  /** `handleSubmit`: the pages shown while uploading, then the page after it.
      The form is reset to its initial state; the tag input is left as it was. */
  method HandleSubmit(p: Page) returns (shown: seq<Page>, r: Page)
    ensures |shown| == 11
    ensures forall k :: 0 <= k < |shown| ==> shown[k] == p.(isUploading := true, uploadProgress := 10 * k)
    ensures forall k :: 0 <= k < |shown| ==> 0 <= shown[k].uploadProgress <= 100
    ensures r.form == InitialForm() && r.tagInput == p.tagInput
    ensures !r.isUploading && r.uploadProgress == 0
  {
    var values := SimulateProgress();
    shown := seq(|values|, k requires 0 <= k < |values| => p.(isUploading := true, uploadProgress := values[k]));
    r := Page(InitialForm(), p.tagInput, false, 0);
  }
}
