# E-book store backend: book and user controllers in Dafny

This project models the two controllers of an Express, Mongoose and Cloudinary
e-book store backend and proves properties of them:

- **The book controller** (`book/bookController.ts`) creates, updates, deletes, lists and finds
  book records. Each record stores the URLs of a cover image and a PDF document kept on a
  media host.
  - The pure helpers are modelled as functions: the cover format taken from the MIME type,
    the media-host public ids derived from stored URLs, and the merge rule of an update.
  - The handlers are methods of the class `Books.BookService`. It owns the record collection,
    a `map<BookId, Book>`, and a log of every call made to the media host together with the
    host's answer.
- **The user controller** (`src/user/userController.ts`) registers users, logs them in and updates
  their password. Its handlers are methods of `Users.UserService`. That class owns the user
  collection, a `map<Email, User>`, together with the collection's natural order.

Module layout:

- `JsStrings` (`js_strings.dfy`) models the JavaScript operations the controllers rely on:
  - `undefined`, written `Maybe`;
  - truthiness;
  - `String(undefined)`;
  - `split` with a one-character separator;
  - `at` with negative indices.

  `Join` (`Array.prototype.join`) is not used by the controllers; it is the inverse against
  which `split` is proved (`JoinSplit`, `SplitJoin`).
- `Http` (`http.dfy`) models how a handler ends:
  - sending a status and a body;
  - passing an `http-errors` error to `next`;
  - rejecting outside any `try` block, written `Unhandled`.
- `Books` (`books.dfy`) and `BookExamples` (`book_examples.dfy`) model the book controller.
- `Users` (`users.dfy`) models the user controller.

Everything the handlers cannot decide themselves is a parameter of the handler:
- what the media host answers to an upload (a URL or a failure) and to a destroy (success or failure);
- whether a record-store call inside a `try` block fails;
- whether the request is multipart, and whether removing a staged file after its upload fails;
- the id the store gives a new record.

The ObjectId format check is the predicate `validId` that a `BookService` is built with. bcrypt's
`hash` and `compare` and `jsonwebtoken`'s `sign` are uninterpreted functions that a `UserService`
is built with. The JWT secret is a `Maybe<string>` configuration value.

Points where the code behaves differently from what its names, comments and messages suggest:

- **Delete.** The two destroys share one `try` block, so a failed cover destroy skips the
  document destroy. They are not independent best-effort calls.
- **Reading a deleted or unknown book.** The result is status 200 with an empty list, not 404.
  The `!book` test looks at the aggregation's array, which is never falsy.
- **Uncaught rejections.** Several steps run outside any `try` block:
  - reading `files.coverImage[0]` in a create;
  - reading `files.coverImage` in an update that is not a multipart request, since the parser
    then leaves `req.files` undefined;
  - the uploads in an update, and the removals of its staged files after them;
  - `bcrypt.compare` with an `undefined` old password.

  A failure in one of these steps rejects the handler's promise (`Unhandled`) instead of giving a
  status.
- **Filtering without a title.** `find({ title })` with `title` undefined matches every book,
  because the key holding `undefined` is dropped from the query.
- **Undefined keys in the user controller.** The same dropping applies:
  - `updateAccountDetails` without an email updates the first user in natural order, which the
    model takes to be insertion order (MongoDB promises no particular document for `findOne({})`);
  - it leaves the password unchanged when the new password is `undefined`.

## Model

| member | source | states |
|---|---|---|
| JsStrings.At | book/bookController.ts:267-272 | `at(k)` is defined exactly for `-len <= k < len`; a negative index counts back from the end |
| JsStrings.SplitLastIsFinalSegment | book/bookController.ts:16 | the last piece of `split(sep)` is the longest suffix holding no separator, and a separator comes right before it |
| JsStrings.SplitWithoutSeparator | book/bookController.ts:269-272 | a string without the separator splits into itself alone |
| JsStrings.SplitAtSeparator | book/bookController.ts:267 | splitting `a + sep + b` gives the pieces of `a` followed by the pieces of `b` |
| JsStrings.JoinSplit | book/bookController.ts:267 | joining the pieces of a split with the same separator gives back the string |
| JsStrings.SplitJoin | book/bookController.ts:267 | splitting a join of separator-free pieces gives back those pieces |
| Books.MimeSubtypeIsFinalSegment | book/bookController.ts:16 | the cover format is the part of the MIME type after its last `/` (all of it when there is none), and it holds no `/` |
| Books.MimeSubtypeOf | book/bookController.ts:100 | the format of `type/subtype` is `subtype` |
| Books.SplitUrl | book/bookController.ts:267-272 | the `at(-2)` and `at(-1)` segments of `prefix/folder/name` are `folder` and `name` |
| Books.CoverPublicIdOfUrl | book/bookController.ts:267-269 | the cover public id of `prefix/folder/stem base.ext` is `folder/base`: the extension is stripped, and with several dots only the piece before the last dot is kept |
| Books.FileNameBase | book/bookController.ts:269 | the `at(-2)` piece of a file name split on `.` is the piece before its last dot |
| Books.SplitExtension | book/bookController.ts:269 | `base.ext` splits on `.` into exactly `base` and `ext` |
| Books.CoverPublicIdWithoutExtension | book/bookController.ts:269 | a cover file name without a dot gives the public id `folder/undefined` |
| Books.DocumentPublicIdOfUrl | book/bookController.ts:271-272 | the document public id is the last two segments joined by `/`, with the extension kept |
| Books.MergeUpdateIdempotent | book/bookController.ts:139-151 | writing the same update twice gives the record written once |
| Books.MergeUpdateWithNothingNew | book/bookController.ts:143-149 | an update that resends the stored text and no file leaves the record unchanged |
| Books.UploadCallsWithCover | book/bookController.ts:24-46 | with a cover sent, the uploads are the cover's alone when it fails or no document was sent, and otherwise the cover's followed by the document's |
| Books.DeleteDestroyCallsAreDestroys | book/bookController.ts:275-279 | a delete sends one or two calls to the media host, and all of them are destroys |
| Books.StoredUrlsUploadedPut | book/bookController.ts:49-56 | storing a record whose URLs were both returned by uploads keeps every stored URL an uploaded one |
| Books.StoredUrlsUploadedRemove | book/bookController.ts:285 | removing a record keeps every stored URL an uploaded one |
| Books.StoredUrlsUploadedGrow | book/bookController.ts:276-279 | more media calls keep every stored URL an uploaded one |
| Books.UploadedUrlsGrow | book/bookController.ts:25-46 | a URL once returned by an upload stays among the returned URLs |
| Books.UploadedUrlsLast | book/bookController.ts:25-29 | the URL a successful upload returns is among the URLs returned for its folder |
| Books.BookService.Log | book/bookController.ts:25-46 | a call to the media host is appended to the log, and the service invariant holds after it |
| Books.BookService.CreateBook | book/bookController.ts:10-73 | A request that is not multipart, or one without a cover, rejects before the `try`. Otherwise the cover upload, then the document upload, goes to the host with the fixed folder, format and resource type. Any failed upload, missing document or store failure gives 500 and adds no record, and no destroy is ever sent, so an uploaded cover stays. On success the new record holds the request text, the caller as author and the two returned URLs, and the reply is 201 with its id |
| Books.BookService.AccessCheck | book/bookController.ts:79-92 | an update or delete goes on exactly when the id is valid, the record exists and the caller is its author; otherwise the first failing check gives 400, 404 or 403 in that order |
| Books.BookService.UploadAssets | book/bookController.ts:96-137 | the cover upload comes first, then the document's, each only when that file was sent and each followed by the removal of its staged file; a failed upload or removal ends the sequence; each returned URL is the upload's or "" when no file was sent |
| Books.BookService.UpdateBook | book/bookController.ts:75-154 | A failed access check changes nothing and replies with that check's error. After the checks, a request that is not multipart rejects and changes nothing. A failed upload, or a failed removal of a staged file, rejects and writes no record, and the uploads made before it stay. On success only this record changes: its text fields become the request's, its author is kept, and each asset URL is replaced only by a non-empty new upload URL. The reply is 200 with the new record |
| Books.BookService.DeleteBook | book/bookController.ts:248-292 | A failed access check changes nothing. Otherwise the cover destroy is sent, and then the document destroy only if the cover destroy succeeded. The record is removed unless the store fails. The reply is 204 in every case |
| Books.BookService.ListMyBooks | book/bookController.ts:156-189 | a row for exactly the caller's books, and only when the caller has a user document; each row carries the author's id, name and email; a store fault gives 500 |
| Books.BookService.ListAllBooks | book/bookController.ts:190-201 | every stored book, unchanged; a store fault gives 500 |
| Books.BookService.GetSingleBook | book/bookController.ts:204-246 | an invalid id gives 400; otherwise at most the requested book, with its author joined in, and a book whose author has no user document is dropped; the reply is 200 even when nothing is found, so 404 never occurs |
| Books.BookService.FilterBook | book/bookController.ts:295-326 | the books whose title equals the query exactly, or every book when no title is sent; 404 exactly when none matches; a store fault gives 500 |
| Books.TwoUpdatesInARow | book/bookController.ts:139-151 | a cover-only update followed by a title-only update leaves the new cover, the new title and the rest of the original record |
| Books.ReadAfterDelete | book/bookController.ts:248-292 | after an owner's delete that the store carries out, the book is gone and reading it gives 200 with an empty list |
| BookExamples.MimeSubtypeExamples | book/bookController.ts:15-16 | `image/png` gives `png` and `application/pdf` gives `pdf` |
| BookExamples.CoverPublicIdExample | book/bookController.ts:264-269 | `…/book-covers/u4bt9x7sv0r0cg5cuynm.png` gives `book-covers/u4bt9x7sv0r0cg5cuynm` |
| BookExamples.DocumentPublicIdExample | book/bookController.ts:271-272 | `…/book-pdfs/qx1ak2nd9ie0lrmm3b7c.pdf` gives `book-pdfs/qx1ak2nd9ie0lrmm3b7c.pdf` |
| BookExamples.CoverPublicIdTwoDots | book/bookController.ts:267-269 | `…/book-covers/cover.front.png` gives `book-covers/front` |
| Users.UserService.SignToken | src/user/userController.ts:55-58 | signing gives a token exactly when the secret is truthy, and the token's subject is the id it was asked for |
| Users.UserService.FindByEmail | src/user/userController.ts:110 | `findOne({ email })` finds the user filed under the email, or, when the email is `undefined`, the first user in natural order, taken to be insertion order; it finds nothing exactly when no such user exists |
| Users.UserService.CreateUser | src/user/userController.ts:11-64 | Checks go in order: a falsy name, email or password gives 400, then a lookup fault gives 500, then a taken email gives 400, then a create fault gives 500. In each of these cases the collection is unchanged, so emails stay unique. On success the user is stored with `hash(password)` and appended to the natural order. The reply is 201 with a token for the new id, or 500 if signing fails, with the user kept |
| Users.UserService.LoginUser | src/user/userController.ts:66-98 | Checks go in order: missing fields give 400, a store fault gives 500, an unknown email gives 404 and a failed comparison gives 400. A signing failure gives 500. Otherwise the reply is 200 with a token whose subject is that user's id. Login never changes the collection |
| Users.UserService.UpdateAccountDetails | src/user/userController.ts:100-135 | A new password sent with neither an old password nor an email gives 400. No matching user gives 404. An `undefined` old password rejects. A failed comparison gives 400 and a store fault gives 500. In all of these the collection is unchanged. On success only the found user changes: its password becomes the new password verbatim, unhashed, or stays when that is `undefined`. Its email and every other user stay the same |
| Users.RegisterTwice | src/user/userController.ts:21-33 | registering the same email twice stores the first user only and refuses the second with 400 |

## Left out

- The removal of staged files with `fs.promises.unlink` is file-system I/O and is not modelled as such; only its outcome is. In a create (book/bookController.ts:60-65) a failed removal is caught and logged, so it changes nothing. In an update (:114, :136) the removals run outside any `try`, so a failure rejects the handler after the upload and before the write; those outcomes are parameters of the update. `console.log` output is not modelled.
- Path resolution against `__dirname` is not modelled. An upload's path is written as the fixed uploads directory followed by the staged file name.
- The internals of Cloudinary, Mongoose, bcrypt and `jsonwebtoken`, as well as the token's expiry and algorithm, belong to other libraries. Their outcomes are parameters or uninterpreted functions.
- ObjectId normalisation is not modelled. `_id` matching and the comparison `book.author.toString() !== userId` are taken as plain string equality on ids.
- Record-store faults outside any `try` block are not modelled: in `updateBook` and `deleteBook` (`findOne`, `findOneAndUpdate`) and in `updateAccountDetails` (`findOne`). Such a fault would reject the handler like `Unhandled`.
- Request bodies whose fields are JSON `null`, numbers or objects are not modelled. Request fields are strings or `undefined`.
- Books.BookService.CreateBook: the text fields are taken as present strings. A missing `title`, `genre` or `description` would be dropped by Mongoose or rejected by its schema, and that is not modelled.
- Books.BookService.UpdateBook: the text fields are taken as present strings. An `undefined` field, which Mongoose drops from the update so that the stored value is kept, is not modelled.
- Books.BookService.CreateBook: an empty file array under a field is not modelled. A file is either staged under its field or absent, and a request that is not multipart is a parameter.
- Books.BookService.ListMyBooks: the result is a map keyed by book id, so the order of the returned array is not modelled. The same holds for ListAllBooks, GetSingleBook and FilterBook.
- Books.BookService.Valid: the invariant records the folder and resource type of every upload, and the `pdf` format of document uploads. The cover format is stated per call in the handlers' contracts, not in the invariant.
- Users.UserService.CreateUser: the password is taken to be a string; `bcrypt.hash` of a non-string truthy value, which rejects outside any `try`, is not modelled.
- Routing, multer wiring and the 10 MB size limit (`book/bookRouter.ts`, `src/user/userRouter.ts`) have no logic of their own and are not modelled, and neither is the server start-up (`server.ts`, `src/server.ts`).
- The compiled `dist/` files mirror the TypeScript sources and are covered by them.
- Races between concurrent requests on the same record are not modelled. Each handler runs to completion on the state it starts from.
- What Express does with a rejected handler promise is not modelled. `Unhandled` ends the handler without a status.
