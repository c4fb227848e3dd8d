/**
 * The document-store adapter `MongoDb` (internal/data/mongo.go) over an
 * in-memory database: one sequence of documents per collection, in natural
 * (insertion) order. `FindOne`, `UpdateOne` and `DeleteOne` act on the first
 * document that matches their filter; the users collection carries a unique
 * index on `email`.
 */
module Mongo {
  import opened Wrappers
  import opened GoTypes
  import opened Errors
  import opened Entities
  import opened Seqs
  import Query

  // ---------------------------------------------------------------------------
  // Documents and keys
  // ---------------------------------------------------------------------------

  /**
   * A stored user: the fields the adapter writes (mongo.go:37-44) plus the
   * name, which only an update writes; a never-written name reads back as "".
   * The password is only its hash (a nil hash is stored as null).
   */
  datatype UserDoc = UserDoc(
    id: Int64,
    createdAt: Time,
    name: string,
    email: string,
    hash: Option<Bytes>,
    activated: bool,
    version: Version)

  /** A stored token (mongo.go:28-33): the plaintext is never written. */
  datatype TokenDoc = TokenDoc(userId: Int64, expiry: Time, scope: string, hash: Bytes)

  /** The dynamic value behind `Get`'s `id interface{}`. */
  datatype Key = IntId(id: Int64) | Text(s: string) | Digest(bytes: Bytes)

  /** What `Get` returns behind its `interface{}`. */
  datatype Record = BookRecord(book: Book) | UserRecord(user: User)

  /** The document written for a user. */
  function DocOf(u: User): (d: UserDoc)
    ensures d.id == u.id && d.createdAt == u.createdAt && d.email == u.email && d.hash == u.password.hash
    ensures d.activated == u.activated && d.version == u.version
    ensures d.name == ""
  {
    UserDoc(u.id, u.createdAt, "", u.email, u.password.hash, u.activated, u.version)
  }

  /**
   * A stored user decoded into a `User` (mongo.go:66-88, 99-107): no
   * plaintext, the stored hash. The struct the adapter decodes into carries
   * only `json` tags, so the driver looks for its creation time under the
   * default key `createdat`, which the insert never writes (it writes
   * `created_at`): the creation time reads back as the zero time.
   */
  function Decoded(d: UserDoc): (u: User)
    ensures u.id == d.id && u.email == d.email && u.name == d.name
    ensures u.activated == d.activated && u.version == d.version
    ensures u.password == Password(None, d.hash)
    ensures u.createdAt == ZeroTime
  {
    User(d.id, ZeroTime, d.name, d.email, Password(None, d.hash), d.activated, d.version)
  }

  /** The document written for a token. */
  function TokenDocOf(t: Token): (d: TokenDoc)
    ensures d.userId == t.userId && d.expiry == t.expiry && d.scope == t.scope && d.hash == t.hash
  {
    TokenDoc(t.userId, t.expiry, t.scope, t.hash)
  }

  /**
   * A user written and read back is the same user, except that the name is
   * empty (the insert does not write it), the creation time is the zero time
   * (written and read under different keys) and the plaintext is gone.
   */
  lemma UserReadsBack(u: User)
    ensures Decoded(DocOf(u)) == u.(name := "", createdAt := ZeroTime, password := Password(None, u.password.hash))
  {
  }

  // ---------------------------------------------------------------------------
  // Filters (as predicates on documents)
  // ---------------------------------------------------------------------------

  function BookId(id: Int64): Book -> bool { (b: Book) => b.id == id }
  function BookVersion(id: Int64, v: Version): Book -> bool { (b: Book) => b.id == id && b.version == v }
  function UserId(id: Int64): UserDoc -> bool { (d: UserDoc) => d.id == id }
  function UserEmail(email: string): UserDoc -> bool { (d: UserDoc) => d.email == email }
  function UserVersion(id: Int64, v: Version): UserDoc -> bool { (d: UserDoc) => d.id == id && d.version == v }
  function TokenHash(hash: Bytes, scope: string): TokenDoc -> bool { (t: TokenDoc) => t.hash == hash && t.scope == scope }
  function TokenOwner(userId: Int64, scope: string): TokenDoc -> bool { (t: TokenDoc) => t.userId == userId && t.scope == scope }

  /** `FindOne(filter)`: the first matching document, or `ErrNoDocuments`. */
  function FindOne<T>(s: seq<T>, p: T -> bool): (r: Result<T, Error>)
    ensures r.Ok? <==> exists i | 0 <= i < |s| :: p(s[i])
    ensures r.Ok? ==> r.value in s && p(r.value)
    ensures r.Ok? ==> IsFirstMatch(s, p, r.value)
    ensures r.Err? ==> r.error == NoDocuments
  {
    match FirstIndex(s, p)
    case None => Err(NoDocuments)
    case Some(i) => Ok(s[i])
  }

  // ---------------------------------------------------------------------------
  // The greatest id
  // ---------------------------------------------------------------------------

  /** The greatest of a non-empty list of ids. */
  function MaxOf(ids: seq<Int64>): (m: Int64)
    requires |ids| > 0
    ensures m in ids
    ensures forall i | 0 <= i < |ids| :: ids[i] <= m
  {
    if |ids| == 1 then ids[0]
    else
      var rest := MaxOf(ids[1..]);
      assert forall i | 1 <= i < |ids| :: ids[i] == ids[1..][i - 1];
      if ids[0] >= rest then ids[0] else rest
  }

  /** The `id` field of every document, in order. */
  function Ids<T>(s: seq<T>, id: T -> Int64): (ids: seq<Int64>)
    ensures |ids| == |s| && forall i | 0 <= i < |s| :: ids[i] == id(s[i])
  {
    seq(|s|, i requires 0 <= i < |s| => id(s[i]))
  }

  /** No two stored users share an email: what the unique index keeps. */
  predicate EmailsUnique(s: seq<UserDoc>) {
    forall i, j | 0 <= i < j < |s| :: s[i].email != s[j].email
  }

  /** Another stored user than the one at `except` already has `email`. */
  predicate EmailTaken(s: seq<UserDoc>, email: string, except: int) {
    exists j | 0 <= j < |s| :: j != except && s[j].email == email
  }

  // ---------------------------------------------------------------------------
  // Updates
  // ---------------------------------------------------------------------------

  /**
   * A book `Update`: the first book whose id and version are the caller's gets
   * the caller's title, author, size, year and genres and the new version;
   * without such a book the collection is unchanged.
   */
  function BooksUpdated(s: seq<Book>, b: Book, newVersion: Version): (r: seq<Book>)
    ensures |r| == |s|
    ensures FirstIndex(s, BookVersion(b.id, b.version)).None? ==> r == s
    ensures FirstIndex(s, BookVersion(b.id, b.version)).Some? ==>
      var i := FirstIndex(s, BookVersion(b.id, b.version)).value;
      && r[i] == Book(s[i].id, s[i].createdAt, b.title, b.author, b.year, b.size, b.genres, newVersion)
      && forall j | 0 <= j < |s| && j != i :: r[j] == s[j]
  {
    match FirstIndex(s, BookVersion(b.id, b.version))
    case None => s
    case Some(i) => s[i := s[i].(title := b.title, author := b.author, size := b.size,
                                 year := b.year, genres := b.genres, version := newVersion)]
  }

  /**
   * A user `Update`: the first user whose id and version are the caller's gets
   * the caller's name, email, hash and activation flag and the new version,
   * unless the new email belongs to another user, which the unique index
   * refuses. Without a matching user nothing is written and nothing is refused.
   */
  function UsersUpdated(s: seq<UserDoc>, u: User, newVersion: Version): (r: Result<seq<UserDoc>, Error>)
    ensures FirstIndex(s, UserVersion(u.id, u.version)).None? ==> r == Ok(s)
    ensures FirstIndex(s, UserVersion(u.id, u.version)).Some? ==>
      var i := FirstIndex(s, UserVersion(u.id, u.version)).value;
      if EmailTaken(s, u.email, i) then r == Err(DuplicateKey)
      else
        && r.Ok? && |r.value| == |s|
        && r.value[i] == UserDoc(s[i].id, s[i].createdAt, u.name, u.email, u.password.hash, u.activated, newVersion)
        && forall j | 0 <= j < |s| && j != i :: r.value[j] == s[j]
  {
    match FirstIndex(s, UserVersion(u.id, u.version))
    case None => Ok(s)
    case Some(i) =>
      if EmailTaken(s, u.email, i) then Err(DuplicateKey)
      else Ok(s[i := s[i].(name := u.name, email := u.email, hash := u.password.hash,
                           activated := u.activated, version := newVersion)])
  }

  /** A stale version (no book with that id and version) leaves the books as they are. */
  lemma StaleBookUpdate(s: seq<Book>, b: Book, newVersion: Version)
    requires forall i | 0 <= i < |s| :: !(s[i].id == b.id && s[i].version == b.version)
    ensures BooksUpdated(s, b, newVersion) == s
  {
  }

  /** A user update keeps every user's email distinct. */
  lemma UsersUpdatedKeepsEmailsUnique(s: seq<UserDoc>, u: User, newVersion: Version)
    requires EmailsUnique(s)
    ensures UsersUpdated(s, u, newVersion).Ok? ==> EmailsUnique(UsersUpdated(s, u, newVersion).value)
  {
    var r := UsersUpdated(s, u, newVersion);
    if r.Ok? && FirstIndex(s, UserVersion(u.id, u.version)).Some? {
      var i := FirstIndex(s, UserVersion(u.id, u.version)).value;
      forall j, k | 0 <= j < k < |s| ensures r.value[j].email != r.value[k].email {
        if j == i {
          assert !(s[k].email == u.email);
        } else if k == i {
          assert !(s[j].email == u.email);
        }
      }
    }
  }

  /**
   * Optimistic concurrency: once a book update with a new version went
   * through, a second update made from the same (now stale) copy changes
   * nothing, provided book ids are distinct.
   */
  lemma SecondBookUpdateIsStale(s: seq<Book>, b: Book, newVersion: Version, b2: Book, newVersion2: Version)
    requires forall i, j | 0 <= i < j < |s| :: s[i].id != s[j].id
    requires newVersion != b.version
    requires b2.id == b.id && b2.version == b.version
    ensures var t := BooksUpdated(s, b, newVersion); BooksUpdated(t, b2, newVersion2) == t
  {
    var t := BooksUpdated(s, b, newVersion);
    var p := BookVersion(b.id, b.version);
    forall k | 0 <= k < |t| ensures !(t[k].id == b2.id && t[k].version == b2.version) {
      if FirstIndex(s, p).Some? {
        var i := FirstIndex(s, p).value;
        if k != i {
          assert t[k] == s[k];
          assert s[i].id == b.id;
          if k < i {
            assert !p(s[k]);
          } else {
            assert s[i].id != s[k].id;
          }
        }
      } else {
        assert !p(s[k]);
      }
    }
    StaleBookUpdate(t, b2, newVersion2);
  }

  // ---------------------------------------------------------------------------
  // Deletes
  // ---------------------------------------------------------------------------

  /** `DeleteOne` removes exactly the first matching document and keeps the order of the rest. */
  lemma RemoveFirstRemoves<T>(s: seq<T>, p: T -> bool)
    ensures FirstIndex(s, p).Some? ==>
      var i := FirstIndex(s, p).value;
      multiset(RemoveFirst(s, p)) + multiset{s[i]} == multiset(s)
    ensures FirstIndex(s, p).None? ==> multiset(RemoveFirst(s, p)) == multiset(s)
  {
    if FirstIndex(s, p).Some? {
      var i := FirstIndex(s, p).value;
      assert s == s[..i] + [s[i]] + s[i + 1..];
    }
  }

  /** When ids are distinct, deleting by id leaves no document with that id. */
  lemma DeleteByIdIsGone(s: seq<Book>, id: Int64)
    requires forall i, j | 0 <= i < j < |s| :: s[i].id != s[j].id
    ensures forall b | b in RemoveFirst(s, BookId(id)) :: b.id != id
  {
    var p := BookId(id);
    if FirstIndex(s, p).Some? {
      var i := FirstIndex(s, p).value;
      var r := RemoveFirst(s, p);
      forall b | b in r ensures b.id != id {
        var k :| 0 <= k < |r| && r[k] == b;
        if k < i { assert r[k] == s[k]; } else { assert r[k] == s[k + 1]; }
      }
    } else {
      forall b | b in s ensures b.id != id {
        var k :| 0 <= k < |s| && s[k] == b;
        assert !p(s[k]);
      }
    }
  }

  /**
   * The cursor loop of `GetAll` (mongo.go:224-230): every document the cursor
   * yields is appended to the result, in the cursor's order.
   */
  method Drain(cursor: seq<Book>) returns (result: seq<Book>)
    ensures result == cursor
  {
    result := [];
    var i := 0;
    while i < |cursor|
      invariant 0 <= i <= |cursor|
      invariant result == cursor[..i]
    {
      result := result + [cursor[i]];
      i := i + 1;
    }
    assert cursor[..|cursor|] == cursor;
  }

  // ---------------------------------------------------------------------------
  // The store
  // ---------------------------------------------------------------------------

  class MongoDb {
    var books: seq<Book>
    var users: seq<UserDoc>
    var tokens: seq<TokenDoc>

    /** A database with three empty collections. */
    constructor ()
      ensures books == [] && users == [] && tokens == []
      ensures Valid()
    {
      books, users, tokens := [], [], [];
    }

    /** The unique index on users' email holds. */
    predicate Valid()
      reads this
    {
      EmailsUnique(users)
    }

    /** `Insert` of a `*Book`: the book document as it is (mongo.go:48). */
    method InsertBook(book: Book) returns (err: Option<Error>)
      modifies this
      ensures err == None
      ensures books == old(books) + [book]
      ensures users == old(users) && tokens == old(tokens)
    {
      books := books + [book];
      err := None;
    }

    /**
     * `Insert` of a `*User` (mongo.go:35-46): the document without name or
     * plaintext; a taken email is refused by the unique index.
     */
    method InsertUser(user: User) returns (err: Option<Error>)
      requires Valid()
      modifies this
      ensures Valid()
      ensures EmailTaken(old(users), user.email, -1) ==> err == Some(DuplicateKey) && users == old(users)
      ensures !EmailTaken(old(users), user.email, -1) ==> err == None && users == old(users) + [DocOf(user)]
      ensures books == old(books) && tokens == old(tokens)
    {
      if exists j | 0 <= j < |users| :: users[j].email == user.email {
        err := Some(DuplicateKey);
      } else {
        users := users + [DocOf(user)];
        err := None;
      }
    }

    /** `Insert` of a `*Token` (mongo.go:26-34): user id, expiry, scope and hash. */
    method InsertToken(token: Token) returns (err: Option<Error>)
      modifies this
      ensures err == None
      ensures tokens == old(tokens) + [TokenDocOf(token)]
      ensures books == old(books) && users == old(users)
    {
      tokens := tokens + [TokenDocOf(token)];
      err := None;
    }

    /**
     * `Get` (mongo.go:52-148), dispatched on the collection and on the key's
     * dynamic type. A token is resolved to its owner's id, and that id to the
     * user.
     */
    function Get(key: Key, collection: string, scope: string): (r: Result<Record, Error>)
      reads this
      ensures collection == "books" ==>
        && (r.Ok? <==> key.IntId? && exists i | 0 <= i < |books| :: books[i].id == key.id)
        && (r.Ok? ==> r.value.BookRecord? && r.value.book in books && r.value.book.id == key.id)
        && (r.Ok? ==> IsFirstMatch(books, BookId(key.id), r.value.book))
      ensures collection == "users" ==>
        && (r.Ok? <==>
              || (key.Text? && exists i | 0 <= i < |users| :: users[i].email == key.s)
              || (key.IntId? && exists i | 0 <= i < |users| :: users[i].id == key.id))
        && (r.Ok? ==>
              && r.value.UserRecord?
              && exists d | d in users ::
                && r.value.user == Decoded(d)
                && (key.Text? ==> d.email == key.s)
                && (key.IntId? ==> d.id == key.id))
        && (r.Ok? && key.Text? ==> exists d :: IsFirstMatch(users, UserEmail(key.s), d) && r.value.user == Decoded(d))
        && (r.Ok? && key.IntId? ==> exists d :: IsFirstMatch(users, UserId(key.id), d) && r.value.user == Decoded(d))
      ensures collection == "tokens" ==>
        && (r.Ok? ==>
              && r.value.UserRecord?
              && key.Digest?
              && exists t, d | t in tokens && d in users ::
                && t.hash == key.bytes && t.scope == scope
                && d.id == t.userId && r.value.user == Decoded(d))
        && (r.Ok? ==>
              exists t, d :: IsFirstMatch(tokens, TokenHash(key.bytes, scope), t)
                             && IsFirstMatch(users, UserId(t.userId), d) && r.value.user == Decoded(d))
        && (key.Digest? && (forall t | t in tokens :: !(t.hash == key.bytes && t.scope == scope)) ==>
              r == Err(NoDocuments))
        && ((&& key.Digest?
             && (exists t | t in tokens :: t.hash == key.bytes && t.scope == scope)
             && (forall t | t in tokens && t.hash == key.bytes && t.scope == scope ::
                   exists d | d in users :: d.id == t.userId))
            ==> r.Ok?)
        && (!key.Digest? ==> r == Err(NoDocuments))
      ensures collection in {"books", "users", "tokens"} ==> r.Err? ==> r.error == NoDocuments
      ensures collection !in {"books", "users", "tokens"} ==> r == Err(NoCollection)
    {
      if collection == "books" then
        if key.IntId? then
          match FindOne(books, BookId(key.id))
          case Ok(b) => Ok(BookRecord(b))
          case Err(e) => Err(e)
        else Err(NoDocuments)
      else if collection == "users" then
        var found := match key
          case Text(email) => FindOne(users, UserEmail(email))
          case IntId(id) => FindOne(users, UserId(id))
          case Digest(_) => Err(NoDocuments);
        match found
        case Ok(d) => Ok(UserRecord(Decoded(d)))
        case Err(e) => Err(e)
      else if collection == "tokens" then
        if key.Digest? then
          match FindOne(tokens, TokenHash(key.bytes, scope))
          case Err(e) => Err(e)
          case Ok(t) =>
            match FindOne(users, UserId(t.userId))
            case Ok(d) => Ok(UserRecord(Decoded(d)))
            case Err(e) => Err(e)
        else Err(NoDocuments)
      else Err(NoCollection)
    }

    /**
     * `GetLastId` (mongo.go:150-180): the id of the first document in
     * descending id order, i.e. the greatest id; an empty collection has none.
     */
    function GetLastId(collection: string): (r: Result<Int64, Error>)
      reads this
      ensures collection == "books" ==>
        && (r.Ok? <==> |books| > 0)
        && (r.Ok? ==> (exists i | 0 <= i < |books| :: books[i].id == r.value)
                      && forall i | 0 <= i < |books| :: books[i].id <= r.value)
      ensures collection == "users" ==>
        && (r.Ok? <==> |users| > 0)
        && (r.Ok? ==> (exists i | 0 <= i < |users| :: users[i].id == r.value)
                      && forall i | 0 <= i < |users| :: users[i].id <= r.value)
      ensures collection in {"books", "users"} && r.Err? ==> r.error == NoDocuments
      ensures collection !in {"books", "users"} ==> r == Err(NoCollection)
    {
      if collection == "books" then
        if |books| == 0 then Err(NoDocuments) else Ok(MaxOf(Ids(books, (b: Book) => b.id)))
      else if collection == "users" then
        if |users| == 0 then Err(NoDocuments) else Ok(MaxOf(Ids(users, (d: UserDoc) => d.id)))
      else Err(NoCollection)
    }

    /**
     * `GetAll` on books (mongo.go:182-239): the total counts the whole
     * collection; the cursor yields the page the selected filter, the sort and
     * the window pick, and `Drain` copies it out.
     */
    method GetAll(title: string, author: string, genres: Slice<string>, sortColumn: string,
                  sortDirection: string, offset: nat, limit: nat)
      returns (result: seq<Book>, totalRecords: nat)
      ensures totalRecords == |books|
      ensures result == Query.Page(books, Query.Selector(title, author, genres.Elems()),
                                   Query.ColumnOf(sortColumn), sortDirection == "ASC", offset, limit)
    {
      var all := books;
      totalRecords := |all|;
      var filter := Query.Selector(title, author, genres.Elems());
      var column := Query.ColumnOf(sortColumn);
      var ascending := sortDirection == "ASC";
      var cursor := Query.Page(all, filter, column, ascending, offset, limit);
      result := Drain(cursor);
    }

    /**
     * `Update` of a `*Book` (mongo.go:243-259): the caller's version is
     * replaced by the new one whether or not a book matched, and no
     * conflict is ever reported.
     */
    method UpdateBook(book: Ptr<Book>, newVersion: Version) returns (err: Option<Error>)
      modifies this, book
      ensures book.val == old(book.val).(version := newVersion)
      ensures err == None
      ensures books == BooksUpdated(old(books), old(book.val), newVersion)
      ensures users == old(users) && tokens == old(tokens)
    {
      var filter := book.val;
      book.val := book.val.(version := newVersion);
      books := BooksUpdated(books, filter, newVersion);
      err := None;
    }

    /**
     * `Update` of a `*User` (mongo.go:260-275): as for books; a write that
     * would duplicate an email is refused and reported.
     */
    method UpdateUser(user: Ptr<User>, newVersion: Version) returns (err: Option<Error>)
      requires Valid()
      modifies this, user
      ensures Valid()
      ensures user.val == old(user.val).(version := newVersion)
      ensures match UsersUpdated(old(users), old(user.val), newVersion)
        case Ok(s) => err == None && users == s
        case Err(e) => err == Some(e) && users == old(users)
      ensures books == old(books) && tokens == old(tokens)
    {
      var filter := user.val;
      user.val := user.val.(version := newVersion);
      UsersUpdatedKeepsEmailsUnique(users, filter, newVersion);
      match UsersUpdated(users, filter, newVersion)
      case Ok(s) =>
        users := s;
        err := None;
      case Err(e) =>
        err := Some(e);
    }

    /**
     * `Delete` (mongo.go:281-301). On tokens: the first token of that user and
     * scope goes, and no error is reported either way. Elsewhere: the first
     * document with that id goes, and `ErrRecordNotFound` reports that none
     * did (a collection without documents, such as an unknown one, never has one).
     */
    method Delete(id: Int64, collection: string, scope: string) returns (err: Option<Error>)
      requires Valid()
      modifies this
      ensures Valid()
      ensures collection == "tokens" ==>
        && err == None
        && tokens == RemoveFirst(old(tokens), TokenOwner(id, scope))
        && books == old(books) && users == old(users)
      ensures collection == "books" ==>
        && books == RemoveFirst(old(books), BookId(id))
        && (err == Some(RecordNotFound) <==> forall i | 0 <= i < |old(books)| :: old(books)[i].id != id)
        && (err == None <==> exists i | 0 <= i < |old(books)| :: old(books)[i].id == id)
        && users == old(users) && tokens == old(tokens)
      ensures collection == "users" ==>
        && users == RemoveFirst(old(users), UserId(id))
        && (err == Some(RecordNotFound) <==> forall i | 0 <= i < |old(users)| :: old(users)[i].id != id)
        && (err == None <==> exists i | 0 <= i < |old(users)| :: old(users)[i].id == id)
        && books == old(books) && tokens == old(tokens)
      ensures collection !in {"books", "users", "tokens"} ==>
        err == Some(RecordNotFound) && books == old(books) && users == old(users) && tokens == old(tokens)
    {
      if collection == "tokens" {
        tokens := RemoveFirst(tokens, TokenOwner(id, scope));
        return None;
      }
      var deleted: nat := 0;
      if collection == "books" {
        var i := FirstIndex(books, BookId(id));
        if i.Some? {
          books := RemoveFirst(books, BookId(id));
          deleted := 1;
        }
      } else if collection == "users" {
        var i := FirstIndex(users, UserId(id));
        if i.Some? {
          RemoveFirstKeepsEmailsUnique(users, UserId(id));
          users := RemoveFirst(users, UserId(id));
          deleted := 1;
        }
      }
      if deleted == 0 {
        return Some(RecordNotFound);
      }
      return None;
    }
  }

  lemma RemoveFirstKeepsEmailsUnique(s: seq<UserDoc>, p: UserDoc -> bool)
    requires EmailsUnique(s)
    ensures EmailsUnique(RemoveFirst(s, p))
  {
    if FirstIndex(s, p).Some? {
      var i := FirstIndex(s, p).value;
      var r := RemoveFirst(s, p);
      forall j, k | 0 <= j < k < |r| ensures r[j].email != r[k].email {
        var j' := if j < i then j else j + 1;
        var k' := if k < i then k else k + 1;
        assert r[j] == s[j'] && r[k] == s[k'];
      }
    }
  }
}
