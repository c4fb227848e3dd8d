/** Book validation and the book model (internal/data/books.go). */
module Books {
  import opened Wrappers
  import opened GoTypes
  import opened Errors
  import opened Entities
  import opened Validator
  import Mongo
  import Seqs
  import Query

  const FirstFilmYear := 1888
  const MaxGenres := 5

  /** The year checks: flagged when 0, before 1888 or after the current year; 1888 passes. */
  function YearErrors(year: Int32, currentYear: Int32): (e: seq<FieldError>)
    ensures Keys(e) == Flag(year == 0 || year < FirstFilmYear || year > currentYear, "year")
  {
    var f1 := Failed(year != 0, "year", "must be provided");
    var f2 := Failed(year >= FirstFilmYear, "year", "must be greater than 1888");
    var f3 := Failed(year <= currentYear, "year", "must not be in the future");
    KeysAppend(f1, f2);
    KeysAppend(f1 + f2, f3);
    f1 + f2 + f3
  }

  /** The size checks: flagged when not positive. */
  function SizeErrors(size: Int32): (e: seq<FieldError>)
    ensures Keys(e) == Flag(size <= 0, "size")
  {
    var f1 := Failed(size != 0, "size", "must be provided");
    var f2 := Failed(size > 0, "size", "must be a positive integer");
    KeysAppend(f1, f2);
    f1 + f2
  }

  /** The genre checks: flagged when nil, empty, more than 5 or repeated. */
  function GenreErrors(genres: Slice<string>): (e: seq<FieldError>)
    ensures Keys(e) == Flag(genres == Nil || |genres.Elems()| < 1 || |genres.Elems()| > MaxGenres
                            || !Unique(genres.Elems()), "genres")
  {
    var f1 := Failed(genres != Nil, "genres", "must be provided");
    var f2 := Failed(|genres.Elems()| >= 1, "genres", "must contain at least 1 genre");
    var f3 := Failed(|genres.Elems()| <= MaxGenres, "genres", "must not contain more than 5 genres");
    var f4 := Failed(Unique(genres.Elems()), "genres", "must not contain duplicate values");
    KeysAppend(f1, f2);
    KeysAppend(f1 + f2, f3);
    KeysAppend(f1 + f2 + f3, f4);
    f1 + f2 + f3 + f4
  }

  /** The field errors `ValidateBook` records, in the order of its checks. */
  function BookErrors(b: Book, currentYear: Int32): seq<FieldError> {
    TextErrors("title", b.title) + TextErrors("author", b.author) + YearErrors(b.year, currentYear)
    + SizeErrors(b.size) + GenreErrors(b.genres)
  }

  /** Exactly the fields whose rule is broken are flagged, and no other. */
  lemma BookErrorsExact(b: Book, currentYear: Int32)
    ensures Keys(BookErrors(b, currentYear)) ==
      Flag(b.title == "" || Utf8Len(b.title) > MaxTextLen, "title")
      + Flag(b.author == "" || Utf8Len(b.author) > MaxTextLen, "author")
      + Flag(b.year == 0 || b.year < FirstFilmYear || b.year > currentYear, "year")
      + Flag(b.size <= 0, "size")
      + Flag(b.genres == Nil || |b.genres.Elems()| < 1 || |b.genres.Elems()| > MaxGenres
             || !Unique(b.genres.Elems()), "genres")
  {
    var t, a, y := TextErrors("title", b.title), TextErrors("author", b.author), YearErrors(b.year, currentYear);
    var z, g := SizeErrors(b.size), GenreErrors(b.genres);
    KeysAppend(t, a);
    KeysAppend(t + a, y);
    KeysAppend(t + a + y, z);
    KeysAppend(t + a + y + z, g);
  }

  /** A book that meets every rule gets no error at all. */
  lemma ValidBookHasNoErrors(b: Book, currentYear: Int32)
    requires b.title != "" && Utf8Len(b.title) <= MaxTextLen
    requires b.author != "" && Utf8Len(b.author) <= MaxTextLen
    requires FirstFilmYear <= b.year <= currentYear
    requires b.size > 0
    requires b.genres != Nil && 1 <= |b.genres.Elems()| <= MaxGenres && Unique(b.genres.Elems())
    ensures BookErrors(b, currentYear) == []
  {
  }

  /** The three year checks, run against the validator. */
  method ValidateYear(v: Validator, year: Int32, currentYear: Int32)
    modifies v
    ensures v.errors == old(v.errors) + YearErrors(year, currentYear)
  {
    ghost var start := v.errors;
    var ok1 := year != 0;
    v.Check(ok1, "year", "must be provided");
    var ok2 := year >= FirstFilmYear;
    v.Check(ok2, "year", "must be greater than 1888");
    var ok3 := year <= currentYear;
    v.Check(ok3, "year", "must not be in the future");
    ghost var f1, f2 := Failed(ok1, "year", "must be provided"), Failed(ok2, "year", "must be greater than 1888");
    Seqs.AppendAssoc(start, f1, f2);
    Seqs.AppendAssoc(start, f1 + f2, Failed(ok3, "year", "must not be in the future"));
  }

  /** The two size checks, run against the validator. */
  method ValidateSize(v: Validator, size: Int32)
    modifies v
    ensures v.errors == old(v.errors) + SizeErrors(size)
  {
    ghost var start := v.errors;
    var ok1 := size != 0;
    v.Check(ok1, "size", "must be provided");
    var ok2 := size > 0;
    v.Check(ok2, "size", "must be a positive integer");
    Seqs.AppendAssoc(start, Failed(ok1, "size", "must be provided"), Failed(ok2, "size", "must be a positive integer"));
  }

  /** The four genre checks, run against the validator. */
  method ValidateGenres(v: Validator, genres: Slice<string>)
    modifies v
    ensures v.errors == old(v.errors) + GenreErrors(genres)
  {
    ghost var start := v.errors;
    var ok1 := genres != Nil;
    v.Check(ok1, "genres", "must be provided");
    var ok2 := |genres.Elems()| >= 1;
    v.Check(ok2, "genres", "must contain at least 1 genre");
    var ok3 := |genres.Elems()| <= MaxGenres;
    v.Check(ok3, "genres", "must not contain more than 5 genres");
    var ok4 := Unique(genres.Elems());
    v.Check(ok4, "genres", "must not contain duplicate values");
    ghost var f1, f2 := Failed(ok1, "genres", "must be provided"), Failed(ok2, "genres", "must contain at least 1 genre");
    ghost var f3 := Failed(ok3, "genres", "must not contain more than 5 genres");
    Seqs.AppendAssoc(start, f1, f2);
    Seqs.AppendAssoc(start, f1 + f2, f3);
    Seqs.AppendAssoc(start, f1 + f2 + f3, Failed(ok4, "genres", "must not contain duplicate values"));
  }

  /** `ValidateBook` (books.go:117-135): every check runs against the validator, in order. */
  method ValidateBook(v: Validator, book: Book, currentYear: Int32)
    modifies v
    ensures v.errors == old(v.errors) + BookErrors(book, currentYear)
  {
    ghost var start := v.errors;
    ghost var t, a := TextErrors("title", book.title), TextErrors("author", book.author);
    ghost var y, z, g := YearErrors(book.year, currentYear), SizeErrors(book.size), GenreErrors(book.genres);
    ValidateText(v, "title", book.title);
    ValidateText(v, "author", book.author);
    Seqs.AppendAssoc(start, t, a);
    ValidateYear(v, book.year, currentYear);
    Seqs.AppendAssoc(start, t + a, y);
    ValidateSize(v, book.size);
    Seqs.AppendAssoc(start, t + a + y, z);
    ValidateGenres(v, book.genres);
    Seqs.AppendAssoc(start, t + a + y + z, g);
  }

  /** `BookModel`: the book operations over one store. */
  class BookModel {
    const db: Mongo.MongoDb

    constructor (db: Mongo.MongoDb)
      ensures this.db == db
    {
      this.db := db;
    }

    /**
     * `Insert` (books.go:27-43): the book gets the id after the greatest
     * stored one (int64 arithmetic), a new version and the creation time,
     * and is stored. Without a greatest id (an empty collection) the error
     * is returned and neither the book nor the store changes.
     */
    method Insert(book: Ptr<Book>, newVersion: Version, now: Time) returns (err: Option<Error>)
      modifies book, db
      ensures match old(db.GetLastId("books"))
        case Err(e) => err == Some(e) && book.val == old(book.val) && db.books == old(db.books)
        case Ok(last) =>
          && err == None
          && book.val == old(book.val).(id := Inc64(last), version := newVersion, createdAt := now)
          && db.books == old(db.books) + [book.val]
      ensures db.users == old(db.users) && db.tokens == old(db.tokens)
    {
      var last := db.GetLastId("books");
      if last.Err? {
        return Some(last.error);
      }
      book.val := book.val.(id := Inc64(last.value), version := newVersion, createdAt := now);
      err := db.InsertBook(book.val);
    }

    /**
     * `Get` (books.go:45-74): ids below 1 are not looked up; otherwise the
     * first stored book with that id, and `ErrRecordNotFound` when there is none.
     */
    function Get(id: Int64): (r: Result<Book, Error>)
      reads db
      ensures id < 1 ==> r == Err(RecordNotFound)
      ensures id >= 1 ==> (r.Ok? <==> exists i | 0 <= i < |db.books| :: db.books[i].id == id)
      ensures r.Ok? ==> r.value in db.books && r.value.id == id
      ensures r.Ok? ==> Seqs.IsFirstMatch(db.books, Mongo.BookId(id), r.value)
      ensures r.Err? ==> r.error == RecordNotFound
    {
      if id < 1 then Err(RecordNotFound)
      else
        match db.Get(Mongo.IntId(id), "books", "")
        case Ok(rec) => Ok(rec.book)
        case Err(e) => Err(MapNoDocuments(e, RecordNotFound))
    }

    /**
     * `Update` (books.go:76-92): the store's `Update`, with no-documents read
     * as an edit conflict. The store never reports one, so neither does this.
     */
    method Update(book: Ptr<Book>, newVersion: Version) returns (err: Option<Error>)
      modifies book, db
      ensures err == None
      ensures book.val == old(book.val).(version := newVersion)
      ensures db.books == Mongo.BooksUpdated(old(db.books), old(book.val), newVersion)
      ensures db.users == old(db.users) && db.tokens == old(db.tokens)
    {
      var e := db.UpdateBook(book, newVersion);
      err := match e
        case Some(x) => Some(MapNoDocuments(x, EditConflict))
        case None => None;
    }

    /** `Delete` (books.go:94-104): ids below 1 are refused without touching the store. */
    method Delete(id: Int64) returns (err: Option<Error>)
      requires db.Valid()
      modifies db
      ensures db.Valid()
      ensures id < 1 ==> err == Some(RecordNotFound) && db.books == old(db.books)
      ensures id >= 1 ==> db.books == Seqs.RemoveFirst(old(db.books), Mongo.BookId(id))
      ensures err == None <==> id >= 1 && exists i | 0 <= i < |old(db.books)| :: old(db.books)[i].id == id
      ensures err != None ==> err == Some(RecordNotFound)
      ensures db.users == old(db.users) && db.tokens == old(db.tokens)
    {
      if id < 1 {
        return Some(RecordNotFound);
      }
      err := db.Delete(id, "books", "");
    }

    /** `GetAll` (books.go:106-115): the title and author become the filter options. */
    method GetAll(title: string, author: string, genres: Slice<string>, sortColumn: string,
                  sortDirection: string, offset: nat, limit: nat)
      returns (books: seq<Book>, totalRecords: nat)
      ensures totalRecords == |db.books|
      ensures books == Query.Page(db.books, Query.Selector(title, author, genres.Elems()),
                                  Query.ColumnOf(sortColumn), sortDirection == "ASC", offset, limit)
    {
      books, totalRecords := db.GetAll(title, author, genres, sortColumn, sortDirection, offset, limit);
    }
  }
}
