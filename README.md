# Library data layer, modelled in Dafny

This project models the data layer (`internal/data`) of a small book-library
web service written in Go. That layer holds:

- the `Size` type (a book's page count), whose JSON form is the quoted string `"N pages"`;
- the field validators for books, users, passwords and tokens, which record failed checks into a validator;
- the permission check `Permissions.Include`;
- token generation: 16 random bytes, written as unpadded base32 (section 6 of RFC 4648, standard alphabet), stored under their SHA-256 digest;
- the book, user and token models: id assignment, new versions, id guards, error mapping;
- the document-store adapter `MongoDb`, modelled as a class over an in-memory database.

The in-memory database has one sequence of documents per collection. A
sequence is kept in insertion order ("natural order"). `FindOne`, `UpdateOne`
and `DeleteOne` act on the first document that matches their filter. The
model gives the users collection a unique index on `email`. No code in the
layer creates that index; it is inferred from users.go:113, which matches the
driver's duplicate-key message for an index `email_1` on `email`.

Modules, one per concern:

| file | module | what it holds |
|---|---|---|
| `wrappers.dfy` | `Wrappers` | `Option`, `Result` |
| `errors.dfy` | `Errors` | the error sentinels the layer produces and inspects |
| `gotypes.dfy` | `GoTypes` | int32/int64 ranges, int64 wrap-around, UTF-8 byte length, slices, references to structs |
| `strings.dfy`, `strconv.dfy` | `Strings`, `Strconv` | `strings.Split`, ASCII case folding, `strconv.Quote`/`Unquote`/`ParseInt`/`FormatInt` |
| `size.dfy` | `Size` | `Size.MarshalJSON`, `UnmarshalJSON` |
| `permissions.dfy` | `Permissions` | `Permissions.Include` |
| `validator.dfy` | `Validator` | the validator as the list of failed (field, message) checks; the required-text checks books and users share |
| `entities.dfy` | `Entities` | `Book`, `User`, `Password`, `Token` |
| `seqs.dfy` | `Seqs` | first match, removal of the first match |
| `query.dfy` | `Query` | the `GetAll` filter, sort order and skip/limit window |
| `mongo.dfy` | `Mongo` | the store adapter `MongoDb` |
| `books.dfy`, `users.dfy`, `tokens.dfy` | `Books`, `Users`, `Tokens` | validators and models |
| `base32.dfy` | `Base32` | the RFC 4648 base32 encoder, its decoder and the round trip |

Some collaborators become parameters of the operations that use them:

- `time.Now` is `now` (and `currentYear` for the year rule).
- `uuid.New` is `newVersion`.
- `crypto/rand` is `randomBytes`.
- `sha256.Sum256` is `sha`.
- bcrypt is `generate`/`compare`.
- `validator.EmailRX` is `matchesEmail`.

## Model

| member | source | states |
|---|---|---|
| `Size.MarshalJSON` | internal/data/size.go:14-21 | never fails; the result is `"` + decimal + ` pages` + `"` |
| `Size.Parse` | internal/data/size.go:23-40 | accepted exactly when the value unquotes, the unquoted text is a number part followed by one space and `pages`, and that part parses as an int32; every rejection is `ErrInvalidRuntimeFormat` |
| `Size.SplitPages` | internal/data/size.go:30-34 | splitting on a space gives exactly `[n, "pages"]` iff the text ends in " pages" with no other space, so `"5  pages"` and `"5 pages x"` are rejected |
| `Size.UnmarshalJSON` | internal/data/size.go:23-43 | succeeds exactly when `Parse` accepts the value, and then the receiver becomes the parsed value, whatever it held; on error the receiver is unchanged and the error is `ErrInvalidRuntimeFormat` |
| `Size.RoundTrip` | internal/data/size.go:14-43 | every int32, negatives included, is read back as itself from its own JSON |
| `Size.SingleQuotedRejected` | internal/data/size.go:25-28 | a single-quoted literal is never a size |
| `Strconv.FormatInt` | internal/data/size.go:16 | `%d`: digits with a leading `-` for negatives only |
| `Strconv.ParseInt32` | internal/data/size.go:36-39 | accepted exactly when an optional sign is followed by one or more decimal digits (leading zeros allowed) whose value lies in int32, -2147483648 included; the value carries the sign |
| `Strconv.ParseFormatInt` | internal/data/size.go:36-39 | parsing a formatted integer gives it back exactly when it is in the int32 range |
| `Strconv.Quote` | internal/data/size.go:18 | on printable ASCII text (the only text `MarshalJSON` quotes), text without quotes or backslashes is just wrapped in double quotes |
| `Strconv.Unquote` | internal/data/size.go:25 | only text delimited by a matching quote character unquotes; a single-quoted literal gives at most one character |
| `Strconv.UnquoteQuote` | internal/data/size.go:18-25 | unquoting a quoted printable ASCII text gives the text back |
| `Strings.Split` | internal/data/size.go:30 | at least one part, no part holds the separator, joining the parts gives the input back |
| `Strings.SplitJoin` | internal/data/size.go:30 | splitting joined separator-free parts gives the parts back |
| `Strings.SplitTwo` | internal/data/size.go:32 | a split into exactly two parts means exactly one separator |
| `Permissions.Include` | internal/data/permissions.go:10-17 | true iff the code is an element of the list, by exact (case-sensitive) equality; an empty list includes nothing |
| `Validator.Failed` | internal/data/books.go:118 | a check adds an error on its field iff it failed |
| `Validator.Validator.Check` | internal/data/books.go:118-134 | the failed check is appended to the errors and nothing else changes |
| `GoTypes.Utf8Len` | internal/data/books.go:119 | Go's `len` of a string: between one and four bytes per character |
| `GoTypes.Inc64` | internal/data/books.go:37 | `id + 1` on an int64, wrapping at the top |
| `Validator.TextErrors` | internal/data/books.go:118-122 | a title or an author is flagged iff empty or longer than 500 bytes |
| `Books.YearErrors` | internal/data/books.go:124-126 | the year is flagged iff it is 0, before 1888 or after the current year (1888 passes) |
| `Books.SizeErrors` | internal/data/books.go:128-129 | the size is flagged iff it is not positive |
| `Books.GenreErrors` | internal/data/books.go:131-134 | the genres are flagged iff nil, empty, more than 5 or repeated |
| `Validator.ValidateText` | internal/data/books.go:118-122 | the validator receives exactly the text-field errors (also used for a user's name) |
| `Books.ValidateYear` | internal/data/books.go:124-126 | the validator receives exactly the year errors |
| `Books.ValidateSize` | internal/data/books.go:128-129 | the validator receives exactly the size errors |
| `Books.ValidateGenres` | internal/data/books.go:131-134 | the validator receives exactly the genre errors |
| `Books.BookErrorsExact` | internal/data/books.go:117-135 | all checks run: exactly the fields whose rule is broken are flagged |
| `Books.ValidBookHasNoErrors` | internal/data/books.go:117-135 | a book meeting every rule gets no error |
| `Books.ValidateBook` | internal/data/books.go:117-135 | the validator receives exactly the book's errors, in check order |
| `Books.BookModel.Insert` | internal/data/books.go:27-43 | id = greatest stored id + 1, new version and creation time, book stored; if there is no greatest id, that error is returned and nothing changes |
| `Books.BookModel.Get` | internal/data/books.go:45-74 | ids below 1 give `ErrRecordNotFound`; otherwise found iff a book has that id, and the result is the first such book in natural order; no-documents becomes `ErrRecordNotFound` |
| `Books.BookModel.Update` | internal/data/books.go:76-92 | the store's update; never an error, since the store reports no conflict |
| `Books.BookModel.Delete` | internal/data/books.go:94-104 | ids below 1 give `ErrRecordNotFound` without touching the store; otherwise the first book with the id goes, not-found iff there was none |
| `Books.BookModel.GetAll` | internal/data/books.go:106-115 | the store's page for the title, author and genres filters, and the unfiltered total |
| `Users.EmailErrors` | internal/data/users.go:63-66 | the email is flagged iff empty or not accepted by the email pattern |
| `Users.PasswordErrors` | internal/data/users.go:68-72 | the password is flagged iff empty, under 8 or over 72 bytes |
| `Users.UserErrorsExact` | internal/data/users.go:74-82 | name, email and, only when a plaintext is present, the password are flagged exactly when their rule is broken |
| `Users.ValidUserHasNoErrors` | internal/data/users.go:74-82 | a user meeting every rule gets no error |
| `Users.ValidateEmail` | internal/data/users.go:63-66 | the validator receives exactly the email errors |
| `Users.ValidatePasswordPlaintext` | internal/data/users.go:68-72 | the validator receives exactly the password errors |
| `Users.ValidateUser` | internal/data/users.go:74-87 | requires a password hash (the source panics without one); the validator receives exactly the user's errors |
| `Users.IsAnonymous` | internal/data/users.go:31-33 | reference identity with the sentinel, which implies equal contents |
| `Users.NewUser` | internal/data/users.go:18 | a new zero-valued user, equal in contents to the sentinel, is not anonymous |
| `Users.SetPassword` | internal/data/users.go:40-48 | on success plaintext and hash are both set (cost 12); on a hashing error the password is unchanged and the error returned |
| `Users.Matches` | internal/data/users.go:50-61 | a mismatch is `(false, nil)`, any other comparison error is returned, and no error is `(true, nil)` |
| `Users.SetThenMatches` | internal/data/users.go:40-61 | with a consistent bcrypt, a password just set matches its plaintext |
| `Users.InsertError` | internal/data/users.go:111-119 | the duplicate-key write error becomes `ErrDuplicateEmail`, no-rows `ErrEditConflict`, others pass |
| `Users.UserModel.Insert` | internal/data/users.go:93-124 | id = greatest stored id + 1, new version and creation time; a taken email is `ErrDuplicateEmail` and stores nothing; no greatest id aborts before the insert; emails stay unique; ids stay unique while the greatest id is below MaxInt64 |
| `Users.NextIdKeepsIdsUnique` | internal/data/users.go:97-104 | greatest stored id + 1 is a new id, so appending keeps ids unique, provided the greatest id is below MaxInt64 |
| `Users.WrappedIdMayBeTaken` | internal/data/users.go:104 | at MaxInt64 the next id wraps to MinInt64, which another user may hold |
| `Users.UserModel.GetByEmail` | internal/data/users.go:126-147 | found iff some stored user has the email; the result is the first such user, decoded; no-documents becomes `ErrRecordNotFound` |
| `Users.UserModel.Update` | internal/data/users.go:149-165 | the store's update; a refused duplicate email is passed on; emails stay unique |
| `Users.UserModel.GetForToken` | internal/data/users.go:167-188 | only the digest and the scope are looked up; a result is the first stored user owning the first token with that digest and scope; no such token gives `ErrRecordNotFound`; a matching token whose owners are all stored gives a user |
| `Users.GetByEmailFindsTheUser` | internal/data/users.go:126-147 | with unique emails the lookup finds exactly the stored user |
| `Users.GetForTokenSeesOnlyTheDigest` | internal/data/users.go:168-174 | plaintexts with equal digests give equal answers |
| `Users.StoredTokenAuthenticatesOwner` | internal/data/users.go:167-188 | a token whose digest and scope are not shared authenticates exactly its owner |
| `Tokens.TokenPlaintextErrors` | internal/data/tokens.go:25-28 | the token is flagged iff empty or not 26 bytes long |
| `Tokens.ValidateTokenPlaintext` | internal/data/tokens.go:25-28 | the validator receives exactly the token errors |
| `Tokens.PlaintextIsValid` | internal/data/tokens.go:37-44 | the text of 16 bytes is 26 characters from A-Z2-7 and passes the token validator |
| `Tokens.PlaintextDeterminesBytes` | internal/data/tokens.go:44 | distinct random bytes give distinct plaintexts |
| `Tokens.GenerateToken` | internal/data/tokens.go:30-50 | user, scope and expiry now + ttl; plaintext is the base32 text of the bytes; hash is the digest of the plaintext; the plaintext validates; a failed read gives no token |
| `Tokens.TokenModel.Insert` | internal/data/tokens.go:65-70 | user, expiry, scope and hash are stored, and nothing else changes |
| `Tokens.TokenModel.New` | internal/data/tokens.go:56-63 | a generated token is stored and returned along with the insert's outcome; a failed generation stores nothing |
| `Tokens.TokenModel.DeleteAllForUser` | internal/data/tokens.go:72-77 | the store's token delete with exactly that user and scope; no error |
| `Tokens.DeleteAllForUserKeepsASecondToken` | internal/data/tokens.go:72-77 | only the first of two tokens of the same user and scope is removed |
| `Tokens.NewTokenAuthenticatesOwner` | internal/data/tokens.go:56-63 | a new token with an unshared digest authenticates its owner |
| `Base32.EncodeToString` | internal/data/tokens.go:44 | ceil(8n/5) symbols, all from the standard alphabet |
| `Base32.DecodeEncode` | internal/data/tokens.go:44 | decoding the text gives the bytes back |
| `Base32.EncodeInjective` | internal/data/tokens.go:44 | distinct byte strings have distinct texts |
| `Base32.RfcVectorsShort` | internal/data/tokens.go:44 | the unpadded encodings of "", "f", "fo", "foo" and "foob" are the test vectors of section 10 of RFC 4648 |
| `Base32.RfcVectorsLong` | internal/data/tokens.go:44 | the unpadded encodings of "fooba" and "foobar" are `MZXW6YTB` and `MZXW6YTBOI` |
| `Errors.MapNoDocuments` | internal/data/books.go:58-63 | no-documents becomes the given error, every other error passes |
| `Mongo.DocOf` | internal/data/mongo.go:35-46 | a user is written with id, created_at, email, hash, activated and version, and without name or plaintext |
| `Mongo.Decoded` | internal/data/mongo.go:66-88 | a stored user is read back field for field, with its hash and without a plaintext, except that the creation time is the zero time (stored under `created_at`, looked for under `createdat`) |
| `Mongo.TokenDocOf` | internal/data/mongo.go:26-34 | a token is written with user id, expiry, scope and hash |
| `Mongo.UserReadsBack` | internal/data/mongo.go:35-46 | a user written and read back by email is unchanged except for an empty name, a zero creation time and no plaintext |
| `Mongo.FindOne` | internal/data/mongo.go:58 | the first matching document, or no-documents iff none matches |
| `Mongo.MaxOf` | internal/data/mongo.go:153-161 | the first id in descending order is a stored id and no stored id is greater |
| `Mongo.BooksUpdated` | internal/data/mongo.go:243-259 | only the first book with the caller's id and version changes: title, author, year, size, genres and version are rewritten, id and creation time kept |
| `Mongo.UsersUpdated` | internal/data/mongo.go:260-275 | only the first user with the caller's id and version changes: name, email, hash, activation and version rewritten, unless the email belongs to another user |
| `Mongo.StaleBookUpdate` | internal/data/mongo.go:246-259 | a stale version leaves the books unchanged |
| `Mongo.SecondBookUpdateIsStale` | internal/data/mongo.go:246-259 | with distinct ids, a second update from the same copy changes nothing |
| `Mongo.UsersUpdatedKeepsEmailsUnique` | internal/data/mongo.go:260-275 | a user update keeps emails unique |
| `Mongo.RemoveFirstRemoves` | internal/data/mongo.go:285-292 | a delete removes exactly one matching document, or none |
| `Mongo.DeleteByIdIsGone` | internal/data/mongo.go:292-300 | with distinct ids no book with the deleted id remains |
| `Mongo.RemoveFirstKeepsEmailsUnique` | internal/data/mongo.go:292 | a delete keeps emails unique |
| `Mongo.MongoDb.constructor` | internal/data/mongo.go:19-21 | three empty collections |
| `Mongo.MongoDb.InsertBook` | internal/data/mongo.go:48-49 | the book is appended as it is |
| `Mongo.MongoDb.InsertUser` | internal/data/mongo.go:35-46 | the user document is appended unless its email is taken, which is the duplicate-key error; emails stay unique |
| `Mongo.MongoDb.InsertToken` | internal/data/mongo.go:26-34 | the token document is appended |
| `Mongo.MongoDb.Get` | internal/data/mongo.go:52-148 | books by id, users by email (string key) or id, tokens by digest and scope resolved to their owner, each the first match in natural order; misses are no-documents; other collections are an error |
| `Mongo.MongoDb.GetLastId` | internal/data/mongo.go:150-180 | the greatest id of books or users; an empty collection is no-documents; other collections are an error |
| `Mongo.MongoDb.GetAll` | internal/data/mongo.go:182-239 | the total counts the whole collection; the result is the filtered, sorted, skipped and limited page, copied out of the cursor in order |
| `Mongo.Drain` | internal/data/mongo.go:224-230 | the result holds exactly the documents the cursor yields, in the cursor's order |
| `Mongo.MongoDb.UpdateBook` | internal/data/mongo.go:243-259 | the caller's version is always replaced; the store changes as `BooksUpdated` says; no conflict is ever reported |
| `Mongo.MongoDb.UpdateUser` | internal/data/mongo.go:260-275 | the caller's version is always replaced; the store changes as `UsersUpdated` says or the duplicate email is reported |
| `Mongo.MongoDb.Delete` | internal/data/mongo.go:281-301 | tokens: the first of that user and scope goes, no error ever; books and users: the first with the id goes, `ErrRecordNotFound` iff none; other collections: not found, nothing changes |
| `Query.Selector` | internal/data/mongo.go:198-218 | the eight branches: at most three clauses, none iff no filter is given |
| `Query.SelectorIsWanted` | internal/data/mongo.go:198-218 | every branch selects exactly the books meeting the one conjunction: title match if given, author match if given, all genres if given |
| `Query.Matching` | internal/data/mongo.go:199-217 | the stored books satisfying the filter, each as often as stored |
| `Query.Sort` | internal/data/mongo.go:185-190 | a permutation in sort-column order, ascending or descending |
| `Query.InsertKeepsSorted` | internal/data/mongo.go:190 | inserting into a sorted list keeps it sorted |
| `Query.Window` | internal/data/mongo.go:190 | skip `offset`, then at most `limit` (0 = no limit), in order |
| `Query.PageSound` | internal/data/mongo.go:190-230 | every returned book is stored and satisfies the filter |
| `Query.PageSorted` | internal/data/mongo.go:190-230 | the page is in sort order |
| `Query.PageComplete` | internal/data/mongo.go:190-230 | without skip or limit the page holds every matching book |
| `Query.PageLength` | internal/data/mongo.go:190-230 | the page has at most `limit` books, and exactly what the window leaves of the matches |

## Left out

- I/O, context deadlines and the debug prints are not modelled. So are the collaborators bcrypt, SHA-256, `crypto/rand`, `time.Now` and `uuid.New`: each is a parameter of the operation that uses it.
- Driver and network errors: the in-memory store never fails a read or a write, except through the unique email index.
- `Tokens.TokenModel.New`: because the store never fails an insert, the case where the token is returned together with a failing insert's error cannot arise in the model.
- `Mongo.MongoDb.Get`: when no token has the digest and scope, this model reports no-documents. The source (mongo.go:112-126) discards that error at line 117, goes through a JSON round trip of an empty result, and then looks up the user with id 0. That detour is not modelled.
- `Mongo.MongoDb.Get`: BSON field-name mapping is modelled only for the creation time, which every user lookup reads back as the zero time (see `Mongo.Decoded`). The decoding of the other `User` fields when users are looked up by id is not modelled: a found user is read as `Decoded` gives it.
- `Users.StoredTokenAuthenticatesOwner` and `Tokens.NewTokenAuthenticatesOwner`: unique user ids are a hypothesis of these lemmas (`Users.IdsUnique`), not part of the store's `Valid`. `Users.UserModel.Insert` keeps ids unique while the greatest id is below MaxInt64 (`Users.NextIdKeepsIdsUnique`); past it, `Users.WrappedIdMayBeTaken` shows they may collide.
- Regular expressions: the `$regex` filter with option `i` is a case-insensitive substring match of the literal pattern, with ASCII case folding only; metacharacters are not interpreted. `validator.EmailRX` is the parameter `matchesEmail`.
- The internal/validator package is not part of this model. `Validator` is the list of failed checks, and `Unique` means pairwise distinct.
- `Query.Sort`: books with equal sort keys keep their natural order. The store itself promises no order among them.
- `Mongo.MongoDb.GetAll`: only the books collection is modelled. Filters, Metadata and `calculateMetadata` are not part of this model. The offset, the limit, the sort column and the direction are parameters, and Metadata is reduced to the total count.
- `Insert`'s collection argument: each kind of record goes to its own collection (`InsertBook`, `InsertUser`, `InsertToken`).
- `PermissionModel.GetAllForUser` and `AddForUser` are store I/O wrappers, and the adapter has no permissions collection.
- `Delete` and `Get` on the store interface in db.go take four arguments. The five-argument forms of mongo.go are modelled.
- The SQL adapter (postgres.go), the HTTP layer (cmd/api) and the wiring in db.go and models.go are not part of this model.
- Concurrency: the model is sequential, so the race between reading the greatest id and inserting does not arise.
- `Time` is an unbounded integer. `now + ttl` does not model `time.Time` saturation or monotonic clock readings.
