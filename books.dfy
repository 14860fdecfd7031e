/**
 The book controller: creating, updating, deleting and reading book records whose
 cover image and document file live on a hosted media service.

 The record collection is a map from book id to record. Every call made to the
 media host is appended to a log, together with the outcome the host gave, so
 that the contracts can say which uploads and destroys a handler issues and in
 what order. Outcomes of the host and faults of the record store inside `try`
 blocks are parameters of the handlers; the ObjectId format check is the
 `validId` predicate the service is built with.
 */
module Books {
  import opened JsStrings
  import opened Http

  type BookId = string
  type UserId = string

  datatype Book = Book(
    title: string,
    genre: string,
    description: string,
    author: UserId,
    coverImage: string,
    file: string)

  /** The text fields of a create or update request body. */
  datatype BookFields = BookFields(title: string, genre: string, description: string)

  /** A file staged by the multipart parser. */
  datatype UploadedFile = UploadedFile(filename: string, mimetype: string)

  datatype ResourceType = Image | Raw

  datatype UploadOptions = UploadOptions(
    filenameOverride: string,
    folder: string,
    format: string,
    resourceType: ResourceType)

  datatype UploadOutcome = Uploaded(secureUrl: string) | UploadFailed

  /** One call to the media host and what it answered. */
  datatype MediaCall =
    | Upload(path: string, options: UploadOptions, outcome: UploadOutcome)
    | Destroy(publicId: string, resourceType: ResourceType, succeeded: bool)

  /** The name and email of a user, as the user collection holds them. */
  datatype UserProfile = UserProfile(name: string, email: string)

  /** The author as the `$lookup` stage projects it: `_id`, `name` and `email`. */
  datatype AuthorView = AuthorView(id: UserId, name: string, email: string)

  datatype BookWithAuthor = BookWithAuthor(
    id: BookId,
    title: string,
    genre: string,
    description: string,
    author: AuthorView,
    coverImage: string,
    file: string)

  /** The JSON bodies the handlers send; a list is keyed by book id. */
  datatype Body =
    | NewBookId(id: BookId)
    | OneBook(book: Book)
    | BookList(books: map<BookId, Book>)
    | AuthoredList(rows: map<BookId, BookWithAuthor>)
    | NoContent

  const CoverFolder := "book-covers"
  const DocumentFolder := "book-pdfs"
  const DocumentFormat := "pdf"
  const UploadsDir := "public/data/uploads/"

  const UploadFailure := "Error while uploading the files."
  const BadBookId := "A valid bookid is required"
  const BookNotFound := "Book not found"
  const NotOwner := "You can not update others book."
  const ReadFailure := "Error while getting a book"
  const AggregateNotFound := "Book not found."
  const FilterFailure := "Internal server Error"

  /** The image format sent with a cover: the last piece of its MIME type split on `/`. */
  function MimeSubtype(mimetype: string): string {
    // `at(-1)` of a split is never undefined: a split has at least one piece.
    Last(Split(mimetype, '/'))
  }

  /** The format is the part of the MIME type after its last `/`, or all of it when it has none. */
  lemma MimeSubtypeIsFinalSegment(mimetype: string)
    ensures var format := MimeSubtype(mimetype);
            && '/' !in format
            && |format| <= |mimetype| && mimetype[|mimetype| - |format|..] == format
            && (|format| < |mimetype| ==> mimetype[|mimetype| - |format| - 1] == '/')
  {
    SplitLastIsFinalSegment(mimetype, '/');
  }

  lemma MimeSubtypeOf(kind: string, subtype: string)
    requires '/' !in subtype
    ensures MimeSubtype(kind + "/" + subtype) == subtype
  {
    assert kind + "/" + subtype == kind + ['/'] + subtype;
    SplitAtSeparator(kind, subtype, '/');
    SplitWithoutSeparator(subtype, '/');
  }

  function UploadPath(filename: string): string {
    UploadsDir + filename
  }

  function CoverUploadCall(cover: UploadedFile, outcome: UploadOutcome): MediaCall {
    Upload(UploadPath(cover.filename),
           UploadOptions(cover.filename, CoverFolder, MimeSubtype(cover.mimetype), Image),
           outcome)
  }

  function DocumentUploadCall(doc: UploadedFile, outcome: UploadOutcome): MediaCall {
    Upload(UploadPath(doc.filename),
           UploadOptions(doc.filename, DocumentFolder, DocumentFormat, Raw),
           outcome)
  }

  /**
   The media-host public id of a stored cover URL: the next-to-last path
   segment, a `/`, and the piece before the last `.` of the last segment.
   */
  function CoverPublicId(url: string): string {
    var segments := Split(url, '/');
    var base := match At(segments, -1)
                case Undefined => Undefined
                case Defined(last) => At(Split(last, '.'), -2);
    ToText(At(segments, -2)) + "/" + ToText(base)
  }

  /** The media-host public id of a stored document URL: its last two path segments. */
  function DocumentPublicId(url: string): string {
    var segments := Split(url, '/');
    ToText(At(segments, -2)) + "/" + ToText(At(segments, -1))
  }

  lemma {:induction false} SplitUrl(prefix: string, folder: string, name: string)
    requires '/' !in folder && '/' !in name
    ensures var segments := Split(prefix + "/" + folder + "/" + name, '/');
            At(segments, -2) == Defined(folder) && At(segments, -1) == Defined(name)
  {
    var dir := prefix + "/" + folder;
    assert dir == prefix + ['/'] + folder;
    assert prefix + "/" + folder + "/" + name == dir + ['/'] + name;
    SplitAtSeparator(dir, name, '/');
    SplitAtSeparator(prefix, folder, '/');
    SplitWithoutSeparator(folder, '/');
    SplitWithoutSeparator(name, '/');
  }

  /**
   For a URL ending in a folder segment and a file name `stem + base + "." + ext`,
   where stem is empty or ends with `.`, the cover public id is `folder/base`:
   with a single dot this strips the extension, with more dots only the piece
   before the last one is kept.
   */
  lemma CoverPublicIdOfUrl(prefix: string, folder: string, stem: string, base: string, ext: string)
    requires '/' !in folder && '/' !in stem && '/' !in base && '/' !in ext
    requires '.' !in base && '.' !in ext
    requires stem == [] || Last(stem) == '.'
    ensures CoverPublicId(prefix + "/" + folder + "/" + (stem + base + "." + ext)) == folder + "/" + base
  {
    var name := stem + base + "." + ext;
    assert name == stem + (base + ['.'] + ext);
    assert '/' !in name;
    SplitUrl(prefix, folder, name);
    FileNameBase(stem, base, ext);
  }

  lemma SplitExtension(base: string, ext: string)
    requires '.' !in base && '.' !in ext
    ensures Split(base + ['.'] + ext, '.') == [base, ext]
  {
    SplitAtSeparator(base, ext, '.');
    SplitWithoutSeparator(base, '.');
    SplitWithoutSeparator(ext, '.');
  }

  /** The piece before the last `.` of `stem + base + "." + ext` is base. */
  lemma FileNameBase(stem: string, base: string, ext: string)
    requires '.' !in base && '.' !in ext
    requires stem == [] || Last(stem) == '.'
    ensures At(Split(stem + (base + ['.'] + ext), '.'), -2) == Defined(base)
  {
    var tail := base + ['.'] + ext;
    SplitExtension(base, ext);
    if stem == [] {
      assert stem + tail == tail;
    } else {
      var head := DropLast(stem);
      assert stem + tail == head + ['.'] + tail;
      SplitAtSeparator(head, tail, '.');
    }
  }

  /** The document public id keeps the whole last segment, extension included. */
  lemma DocumentPublicIdOfUrl(prefix: string, folder: string, name: string)
    requires '/' !in folder && '/' !in name
    ensures DocumentPublicId(prefix + "/" + folder + "/" + name) == folder + "/" + name
  {
    SplitUrl(prefix, folder, name);
  }

  /** A cover URL whose last segment holds no `.` gives an id ending in "undefined". */
  lemma CoverPublicIdWithoutExtension(prefix: string, folder: string, name: string)
    requires '/' !in folder && '/' !in name && '.' !in name
    ensures CoverPublicId(prefix + "/" + folder + "/" + name) == folder + "/undefined"
  {
    SplitUrl(prefix, folder, name);
    SplitWithoutSeparator(name, '.');
    assert At(Split(name, '.'), -2) == Undefined;
    assert folder + "/" + ToText(Undefined) == folder + "/undefined";
  }

  /** The URL an update stores for an asset: a non-empty uploaded URL, else the stored one. */
  function ChooseAsset(uploaded: string, stored: string): string {
    if uploaded != "" then uploaded else stored
  }

  /** The record an update writes: the request's text fields, the stored author. */
  function MergeUpdate(stored: Book, fields: BookFields, newCover: string, newFile: string): Book {
    Book(fields.title, fields.genre, fields.description, stored.author,
         ChooseAsset(newCover, stored.coverImage), ChooseAsset(newFile, stored.file))
  }

  /** Applying the same update twice writes what applying it once wrote. */
  lemma MergeUpdateIdempotent(stored: Book, fields: BookFields, newCover: string, newFile: string)
    ensures var once := MergeUpdate(stored, fields, newCover, newFile);
            MergeUpdate(once, fields, newCover, newFile) == once
  {
  }

  /** An update that resends the stored text and no file leaves the record as it was. */
  lemma MergeUpdateWithNothingNew(stored: Book)
    ensures MergeUpdate(stored, BookFields(stored.title, stored.genre, stored.description), "", "") == stored
  {
  }

  /** The URL an update obtained for an asset, or "" when no file was sent. */
  function NewAssetUrl(staged: Maybe<UploadedFile>, outcome: UploadOutcome): string {
    if staged.Defined? && outcome.Uploaded? then outcome.secureUrl else ""
  }

  /**
   The uploads an update issues: the cover's first. A failed upload, or a failed
   removal of the staged cover after it, ends the handler before the document's.
   */
  function UpdateUploadCalls(cover: Maybe<UploadedFile>, doc: Maybe<UploadedFile>,
                             coverUpload: UploadOutcome, docUpload: UploadOutcome,
                             coverUnlinkFails: bool): seq<MediaCall>
  {
    var coverCalls := if cover.Defined? then [CoverUploadCall(cover.value, coverUpload)] else [];
    if cover.Defined? && (coverUpload.UploadFailed? || coverUnlinkFails) then coverCalls
    else coverCalls + (if doc.Defined? then [DocumentUploadCall(doc.value, docUpload)] else [])
  }

  /** With a cover sent, the uploads are the cover's alone, or the cover's and then the document's. */
  lemma UploadCallsWithCover(cover: UploadedFile, doc: Maybe<UploadedFile>,
                             coverUpload: UploadOutcome, docUpload: UploadOutcome)
    ensures UpdateUploadCalls(Defined(cover), doc, coverUpload, docUpload, false) ==
            if coverUpload.UploadFailed? || doc.Undefined? then [CoverUploadCall(cover, coverUpload)]
            else [CoverUploadCall(cover, coverUpload), DocumentUploadCall(doc.value, docUpload)]
  {
  }

  /** An upload of a sent file fails, or removing that staged file after its upload fails. */
  predicate UpdateUploadFails(cover: Maybe<UploadedFile>, doc: Maybe<UploadedFile>,
                              coverUpload: UploadOutcome, docUpload: UploadOutcome,
                              coverUnlinkFails: bool, docUnlinkFails: bool)
  {
    || (cover.Defined? && (coverUpload.UploadFailed? || coverUnlinkFails))
    || (doc.Defined? && (docUpload.UploadFailed? || docUnlinkFails))
  }

  /** The destroys a delete issues: both share one `try`, so a failed cover destroy skips the other. */
  function DeleteDestroyCalls(book: Book, coverDestroyed: bool, docDestroyed: bool): seq<MediaCall> {
    [Destroy(CoverPublicId(book.coverImage), Image, coverDestroyed)]
    + (if coverDestroyed then [Destroy(DocumentPublicId(book.file), Raw, docDestroyed)] else [])
  }

  lemma DeleteDestroyCallsAreDestroys(book: Book, coverDestroyed: bool, docDestroyed: bool)
    ensures var calls := DeleteDestroyCalls(book, coverDestroyed, docDestroyed);
            1 <= |calls| <= 2 && forall i :: 0 <= i < |calls| ==> calls[i].Destroy?
  {
  }

  /** The URLs the media host returned for uploads into a folder. */
  function UploadedUrls(log: seq<MediaCall>, folder: string): set<string> {
    set i | 0 <= i < |log| && log[i].Upload? && log[i].options.folder == folder
                           && log[i].outcome.Uploaded? :: log[i].outcome.secureUrl
  }

  lemma UploadedUrlsGrow(log: seq<MediaCall>, more: seq<MediaCall>, folder: string)
    ensures UploadedUrls(log, folder) <= UploadedUrls(log + more, folder)
  {
    forall u | u in UploadedUrls(log, folder) ensures u in UploadedUrls(log + more, folder) {
      var i :| 0 <= i < |log| && log[i].Upload? && log[i].options.folder == folder
               && log[i].outcome.Uploaded? && log[i].outcome.secureUrl == u;
      assert (log + more)[i] == log[i];
    }
  }

  lemma UploadedUrlsLast(log: seq<MediaCall>, call: MediaCall, folder: string)
    requires call.Upload? && call.options.folder == folder && call.outcome.Uploaded?
    ensures call.outcome.secureUrl in UploadedUrls(log + [call], folder)
  {
    assert (log + [call])[|log|] == call;
  }

  /** The options every upload is sent with: covers as images, documents as raw PDF. */
  predicate ConformingUpload(options: UploadOptions) {
    || (options.folder == CoverFolder && options.resourceType == Image)
    || (options.folder == DocumentFolder && options.resourceType == Raw && options.format == DocumentFormat)
  }

  /** Every stored cover and document URL was returned by an upload into the matching folder. */
  ghost predicate StoredUrlsUploaded(books: map<BookId, Book>, log: seq<MediaCall>) {
    forall id :: id in books ==>
      books[id].coverImage in UploadedUrls(log, CoverFolder) && books[id].file in UploadedUrls(log, DocumentFolder)
  }

  lemma StoredUrlsUploadedPut(books: map<BookId, Book>, log: seq<MediaCall>, id: BookId, book: Book)
    requires StoredUrlsUploaded(books, log)
    requires book.coverImage in UploadedUrls(log, CoverFolder) && book.file in UploadedUrls(log, DocumentFolder)
    ensures StoredUrlsUploaded(books[id := book], log)
  {
  }

  lemma StoredUrlsUploadedRemove(books: map<BookId, Book>, log: seq<MediaCall>, id: BookId)
    requires StoredUrlsUploaded(books, log)
    ensures StoredUrlsUploaded(books - {id}, log)
  {
  }

  lemma StoredUrlsUploadedGrow(books: map<BookId, Book>, log: seq<MediaCall>, more: seq<MediaCall>)
    requires StoredUrlsUploaded(books, log)
    ensures StoredUrlsUploaded(books, log + more)
  {
    UploadedUrlsGrow(log, more, CoverFolder);
    UploadedUrlsGrow(log, more, DocumentFolder);
  }

  function WithAuthor(id: BookId, book: Book, profile: UserProfile): BookWithAuthor {
    BookWithAuthor(id, book.title, book.genre, book.description,
                   AuthorView(book.author, profile.name, profile.email),
                   book.coverImage, book.file)
  }

  class BookService {
    const validId: BookId -> bool
    var books: map<BookId, Book>
    var media: seq<MediaCall>

    /**
     Every stored cover and document URL is one the media host returned for an
     upload into the matching folder, and every upload used the fixed options.
     */
    ghost predicate Valid()
      reads this
    {
      && StoredUrlsUploaded(books, media)
      && (forall i :: 0 <= i < |media| && media[i].Upload? ==> ConformingUpload(media[i].options))
    }

    constructor (validId: BookId -> bool)
      ensures Valid()
      ensures this.validId == validId && books == map[] && media == []
    {
      this.validId := validId;
      books := map[];
      media := [];
    }

    /** Appends calls to the log; they are uploads with the fixed options, or destroys. */
    method Log(calls: seq<MediaCall>)
      requires Valid()
      requires forall i :: 0 <= i < |calls| && calls[i].Upload? ==> ConformingUpload(calls[i].options)
      modifies this`media
      ensures Valid()
      ensures media == old(media) + calls
    {
      StoredUrlsUploadedGrow(books, media, calls);
      media := media + calls;
    }

    /**
     POST /: uploads the cover, then the document, then creates the record with
     the caller as author and the two returned URLs.
     */
    method CreateBook(fields: BookFields, caller: UserId, multipart: bool,
                      cover: Maybe<UploadedFile>, doc: Maybe<UploadedFile>,
                      coverUpload: UploadOutcome, docUpload: UploadOutcome,
                      newId: BookId, createFails: bool)
      returns (reply: Reply<Body>)
      requires Valid()
      modifies this`books, this`media
      ensures Valid()
      // The cover is read before the `try` block: without one, or without any parsed
      // files because the request is not multipart, the handler rejects.
      ensures !multipart || cover.Undefined? ==>
                reply == Unhandled && books == old(books) && media == old(media)
      ensures multipart && cover.Defined? && coverUpload.UploadFailed? ==>
                && reply == Fail(500, UploadFailure) && books == old(books)
                && media == old(media) + [CoverUploadCall(cover.value, coverUpload)]
      ensures multipart && cover.Defined? && coverUpload.Uploaded? && doc.Undefined? ==>
                && reply == Fail(500, UploadFailure) && books == old(books)
                && media == old(media) + [CoverUploadCall(cover.value, coverUpload)]
      ensures multipart && cover.Defined? && coverUpload.Uploaded? && doc.Defined? ==>
                media == old(media) + [CoverUploadCall(cover.value, coverUpload),
                                       DocumentUploadCall(doc.value, docUpload)]
      ensures multipart && cover.Defined? && coverUpload.Uploaded? && doc.Defined? && docUpload.UploadFailed? ==>
                reply == Fail(500, UploadFailure) && books == old(books)
      // A store failure, including a clash with an existing id, is reported like an upload failure.
      ensures && multipart && cover.Defined? && coverUpload.Uploaded? && doc.Defined? && docUpload.Uploaded?
              && (createFails || newId in old(books)) ==>
                reply == Fail(500, UploadFailure) && books == old(books)
      ensures && multipart && cover.Defined? && coverUpload.Uploaded? && doc.Defined? && docUpload.Uploaded?
              && !createFails && newId !in old(books) ==>
                && reply == Send(201, NewBookId(newId))
                && books == old(books)[newId := Book(fields.title, fields.genre, fields.description, caller,
                                                     coverUpload.secureUrl, docUpload.secureUrl)]
      // No media call in a create is a destroy: a cover already uploaded is never removed.
      ensures forall i :: |old(media)| <= i < |media| ==> media[i].Upload?
    {
      if !multipart || cover.Undefined? {
        return Unhandled;
      }
      // The same two uploads as an update's; here a document must have been sent.
      var _, _, failed := UploadAssets(cover, doc, coverUpload, docUpload, false, false);
      UploadCallsWithCover(cover.value, doc, coverUpload, docUpload);
      if failed || doc.Undefined? {
        return Fail(500, UploadFailure);
      }
      if createFails || newId in books {
        return Fail(500, UploadFailure);
      }
      var book := Book(fields.title, fields.genre, fields.description, caller,
                       coverUpload.secureUrl, docUpload.secureUrl);
      StoredUrlsUploadedPut(books, media, newId, book);
      books := books[newId := book];
      reply := Send(201, NewBookId(newId));
    }

    /** The checks update and delete share, in the order the source makes them. */
    function AccessCheck(bookId: BookId, caller: UserId): (r: Maybe<Reply<Body>>)
      reads this
      ensures r.Undefined? <==> validId(bookId) && bookId in books && books[bookId].author == caller
      ensures !validId(bookId) ==> r == Defined(Fail(400, BadBookId))
      ensures validId(bookId) && bookId !in books ==> r == Defined(Fail(404, BookNotFound))
      ensures validId(bookId) && bookId in books && books[bookId].author != caller ==>
                r == Defined(Fail(403, NotOwner))
    {
      if !validId(bookId) then Defined(Fail(400, BadBookId))
      else if bookId !in books then Defined(Fail(404, BookNotFound))
      else if books[bookId].author != caller then Defined(Fail(403, NotOwner))
      else Undefined
    }

    /**
     The uploads of a create or an update: the cover if one was sent, then the
     document if one was sent. In an update each upload is followed by the
     removal of the staged file, outside any `try`; a failed upload or removal
     ends the sequence. A create removes its staged files later, inside a
     `try`, and passes no removal failures. Each URL returned is the one an
     update then stores, or "" when no file was sent for that asset.
     */
    method UploadAssets(cover: Maybe<UploadedFile>, doc: Maybe<UploadedFile>,
                        coverUpload: UploadOutcome, docUpload: UploadOutcome,
                        coverUnlinkFails: bool, docUnlinkFails: bool)
      returns (completeCoverImage: string, completeFileName: string, failed: bool)
      requires Valid()
      modifies this`media
      ensures Valid()
      ensures media == old(media) + UpdateUploadCalls(cover, doc, coverUpload, docUpload, coverUnlinkFails)
      ensures failed == UpdateUploadFails(cover, doc, coverUpload, docUpload, coverUnlinkFails, docUnlinkFails)
      ensures !failed ==> completeCoverImage == NewAssetUrl(cover, coverUpload)
      ensures !failed ==> completeFileName == NewAssetUrl(doc, docUpload)
      ensures completeCoverImage != "" ==> completeCoverImage in UploadedUrls(media, CoverFolder)
      ensures completeFileName != "" ==> completeFileName in UploadedUrls(media, DocumentFolder)
      ensures !failed && cover.Defined? ==> coverUpload.secureUrl in UploadedUrls(media, CoverFolder)
      ensures !failed && doc.Defined? ==> docUpload.secureUrl in UploadedUrls(media, DocumentFolder)
    {
      completeCoverImage, completeFileName, failed := "", "", false;
      if cover.Defined? {
        var call := CoverUploadCall(cover.value, coverUpload);
        Log([call]);
        if coverUpload.UploadFailed? || coverUnlinkFails {
          return "", "", true;
        }
        UploadedUrlsLast(old(media), call, CoverFolder);
        assert coverUpload.secureUrl in UploadedUrls(media, CoverFolder);
        completeCoverImage := coverUpload.secureUrl;
      }
      if doc.Defined? {
        var call := DocumentUploadCall(doc.value, docUpload);
        var before := media;
        Log([call]);
        if docUpload.UploadFailed? || docUnlinkFails {
          return "", "", true;
        }
        UploadedUrlsLast(before, call, DocumentFolder);
        UploadedUrlsGrow(before, [call], CoverFolder);
        completeFileName := docUpload.secureUrl;
      }
    }

    /**
     PATCH /:bookId: after the access checks, uploads whichever files were sent
     and writes the request's text fields together with the asset URLs. A
     request that is not multipart has no parsed files, so reading them rejects.
     */
    method UpdateBook(bookId: BookId, caller: UserId, fields: BookFields, multipart: bool,
                      cover: Maybe<UploadedFile>, doc: Maybe<UploadedFile>,
                      coverUpload: UploadOutcome, docUpload: UploadOutcome,
                      coverUnlinkFails: bool, docUnlinkFails: bool)
      returns (reply: Reply<Body>)
      requires Valid()
      modifies this`books, this`media
      ensures Valid()
      ensures old(AccessCheck(bookId, caller)).Defined? ==>
                && reply == old(AccessCheck(bookId, caller)).value
                && books == old(books) && media == old(media)
      ensures old(AccessCheck(bookId, caller)).Undefined? && !multipart ==>
                reply == Unhandled && books == old(books) && media == old(media)
      ensures old(AccessCheck(bookId, caller)).Undefined? && multipart ==>
                media == old(media) + UpdateUploadCalls(cover, doc, coverUpload, docUpload, coverUnlinkFails)
      // Uploads and removals of staged files reject outside any `try`: nothing is written, earlier uploads stay.
      ensures && old(AccessCheck(bookId, caller)).Undefined? && multipart
              && UpdateUploadFails(cover, doc, coverUpload, docUpload, coverUnlinkFails, docUnlinkFails) ==>
                reply == Unhandled && books == old(books)
      ensures && old(AccessCheck(bookId, caller)).Undefined? && multipart
              && !UpdateUploadFails(cover, doc, coverUpload, docUpload, coverUnlinkFails, docUnlinkFails) ==>
                var stored := old(books)[bookId];
                var newCover := NewAssetUrl(cover, coverUpload);
                var newFile := NewAssetUrl(doc, docUpload);
                && books == old(books)[bookId := MergeUpdate(stored, fields, newCover, newFile)]
                && reply == Send(200, OneBook(books[bookId]))
    {
      var check := AccessCheck(bookId, caller);
      if check.Defined? {
        return check.value;
      }
      if !multipart {
        return Unhandled;
      }
      var stored := books[bookId];
      var completeCoverImage, completeFileName, failed :=
        UploadAssets(cover, doc, coverUpload, docUpload, coverUnlinkFails, docUnlinkFails);
      if failed {
        return Unhandled;
      }
      assert books[bookId] == stored;
      assert stored.coverImage in UploadedUrls(media, CoverFolder);
      assert stored.file in UploadedUrls(media, DocumentFolder);
      var updated := MergeUpdate(stored, fields, completeCoverImage, completeFileName);
      assert updated.coverImage in UploadedUrls(media, CoverFolder);
      assert updated.file in UploadedUrls(media, DocumentFolder);
      StoredUrlsUploadedPut(books, media, bookId, updated);
      books := books[bookId := updated];
      reply := Send(200, OneBook(updated));
    }

    /**
     DELETE /:bookId: after the access checks, asks the media host to destroy
     the cover and, only if that succeeded, the document; then attempts to
     delete the record and answers 204 whatever the outcomes.
     */
    method DeleteBook(bookId: BookId, caller: UserId,
                      coverDestroyed: bool, docDestroyed: bool, deleteFails: bool)
      returns (reply: Reply<Body>)
      requires Valid()
      modifies this`books, this`media
      ensures Valid()
      ensures old(AccessCheck(bookId, caller)).Defined? ==>
                && reply == old(AccessCheck(bookId, caller)).value
                && books == old(books) && media == old(media)
      ensures old(AccessCheck(bookId, caller)).Undefined? ==>
                && reply == Send(204, NoContent)
                && media == old(media) + DeleteDestroyCalls(old(books)[bookId], coverDestroyed, docDestroyed)
                && books == (if deleteFails then old(books) else old(books) - {bookId})
    {
      var check := AccessCheck(bookId, caller);
      if check.Defined? {
        return check.value;
      }
      // Nothing happens between the two destroys, so they are logged together.
      var calls := DeleteDestroyCalls(books[bookId], coverDestroyed, docDestroyed);
      DeleteDestroyCallsAreDestroys(books[bookId], coverDestroyed, docDestroyed);
      Log(calls);
      if !deleteFails {
        StoredUrlsUploadedRemove(books, media, bookId);
        books := books - {bookId};
      }
      reply := Send(204, NoContent);
    }

    /** GET /: the caller's books, each with its author's name and email joined in. */
    method ListMyBooks(caller: UserId, users: map<UserId, UserProfile>, fails: bool)
      returns (reply: Reply<Body>)
      ensures fails ==> reply == Fail(500, ReadFailure)
      ensures !fails ==> reply.Send? && reply.status == 200 && reply.body.AuthoredList?
      ensures !fails ==> forall id :: id in reply.body.rows <==>
                id in books && books[id].author == caller && caller in users
      ensures !fails ==> forall id :: id in reply.body.rows ==>
                reply.body.rows[id] == WithAuthor(id, books[id], users[caller])
    {
      if fails {
        return Fail(500, ReadFailure);
      }
      // `$unwind` drops a book whose author has no user document.
      var rows := map id | id in books && books[id].author == caller && caller in users
                         :: WithAuthor(id, books[id], users[caller]);
      reply := Send(200, AuthoredList(rows));
    }

    /** GET /all: every book, unfiltered and without the author join. */
    method ListAllBooks(fails: bool) returns (reply: Reply<Body>)
      ensures fails ==> reply == Fail(500, ReadFailure)
      ensures !fails ==> reply == Send(200, BookList(books))
    {
      if fails {
        return Fail(500, ReadFailure);
      }
      reply := Send(200, BookList(books));
    }

    /**
     GET /:bookId: the book with its author joined in, as a list of at most one
     row. The source's not-found test looks at the list itself, which is never
     falsy, so an unknown id is answered with an empty list and status 200.
     */
    method GetSingleBook(bookId: BookId, users: map<UserId, UserProfile>, fails: bool)
      returns (reply: Reply<Body>)
      ensures !validId(bookId) ==> reply == Fail(400, BadBookId)
      ensures validId(bookId) && fails ==> reply == Fail(500, ReadFailure)
      ensures validId(bookId) && !fails ==> reply.Send? && reply.status == 200 && reply.body.AuthoredList?
      ensures validId(bookId) && !fails ==> forall id :: id in reply.body.rows ==> id == bookId
      ensures validId(bookId) && !fails ==>
                (bookId in reply.body.rows <==> bookId in books && books[bookId].author in users)
      ensures validId(bookId) && !fails && bookId in reply.body.rows ==>
                reply.body.rows[bookId] == WithAuthor(bookId, books[bookId], users[books[bookId].author])
      ensures reply != Fail(404, AggregateNotFound)
    {
      if !validId(bookId) {
        return Fail(400, BadBookId);
      }
      if fails {
        return Fail(500, ReadFailure);
      }
      var rows: map<BookId, BookWithAuthor> := map[];
      if bookId in books && books[bookId].author in users {
        rows := map[bookId := WithAuthor(bookId, books[bookId], users[books[bookId].author])];
      }
      reply := Send(200, AuthoredList(rows));
    }

    /**
     GET /search: the books whose title equals the query's `title` exactly; an
     absent `title` is dropped from the query, which then matches every book.
     An empty result is answered with 404.
     */
    method FilterBook(title: Maybe<string>, fails: bool) returns (reply: Reply<Body>)
      ensures fails ==> reply == Fail(500, FilterFailure)
      ensures !fails ==> reply == Fail(404, BookNotFound) || (reply.Send? && reply.status == 200 && reply.body.BookList?)
      ensures !fails ==> (reply == Fail(404, BookNotFound) <==>
                forall id :: id in books ==> title.Defined? && books[id].title != title.value)
      ensures !fails && reply.Send? ==> forall id :: id in reply.body.books <==>
                id in books && (title.Undefined? || books[id].title == title.value)
      ensures !fails && reply.Send? ==> forall id :: id in reply.body.books ==> reply.body.books[id] == books[id]
    {
      if fails {
        return Fail(500, FilterFailure);
      }
      var found := map id | id in books && (title.Undefined? || books[id].title == title.value) :: books[id];
      if found == map[] {
        forall id | id in books ensures title.Defined? && books[id].title != title.value {
          assert id !in found;
        }
        return Fail(404, BookNotFound);
      }
      // A book in `found` refutes the 404 condition of the contract.
      ghost var someId :| someId in found;
      reply := Send(200, BookList(found));
    }
  }

  /**
   Two updates in a row, the first sending only a new cover and the second only
   a new title, leave the new cover, the new title and everything else as it was.
   */
  method TwoUpdatesInARow(service: BookService, bookId: BookId, owner: UserId,
                          cover: UploadedFile, newUrl: string, newTitle: string)
    requires service.Valid()
    requires service.validId(bookId) && bookId in service.books && service.books[bookId].author == owner
    requires newUrl != ""
    modifies service
    ensures bookId in service.books
    ensures var before := old(service.books)[bookId];
            service.books[bookId] == Book(newTitle, before.genre, before.description, before.author,
                                          newUrl, before.file)
  {
    var before := service.books[bookId];
    var fields := BookFields(before.title, before.genre, before.description);
    var first := service.UpdateBook(bookId, owner, fields, true, Defined(cover), Undefined,
                                    Uploaded(newUrl), UploadFailed, false, false);
    var second := service.UpdateBook(bookId, owner, fields.(title := newTitle), true, Undefined, Undefined,
                                     UploadFailed, UploadFailed, false, false);
  }

  /** After an owner deletes a book and the record store succeeds, reading it gives an empty list. */
  method ReadAfterDelete(service: BookService, bookId: BookId, owner: UserId,
                         users: map<UserId, UserProfile>, coverDestroyed: bool, docDestroyed: bool)
    returns (read: Reply<Body>)
    requires service.Valid()
    requires service.validId(bookId) && bookId in service.books && service.books[bookId].author == owner
    modifies service
    ensures bookId !in service.books
    ensures read == Send(200, AuthoredList(map[]))
  {
    var deleted := service.DeleteBook(bookId, owner, coverDestroyed, docDestroyed, false);
    read := service.GetSingleBook(bookId, users, false);
  }
}
