/** User validation, passwords and the user model (internal/data/users.go). */
module Users {
  import opened Wrappers
  import opened GoTypes
  import opened Errors
  import opened Entities
  import opened Validator
  import Mongo
  import Seqs

  const MinPasswordLen := 8
  const MaxPasswordLen := 72

  /** The bcrypt cost `Set` asks for. */
  const BcryptCost := 12

  // ---------------------------------------------------------------------------
  // Validation
  // ---------------------------------------------------------------------------

  /**
   * The two email checks: flagged exactly when empty or not accepted by
   * `matchesEmail`, the email pattern (`validator.EmailRX`), which is a parameter here.
   */
  function EmailErrors(email: string, matchesEmail: string -> bool): (e: seq<FieldError>)
    ensures Keys(e) == Flag(email == "" || !matchesEmail(email), "email")
  {
    var f1 := Failed(email != "", "email", "must be provided");
    var f2 := Failed(matchesEmail(email), "email", "must be a valid email address");
    KeysAppend(f1, f2);
    f1 + f2
  }

  /** The three plaintext checks: flagged exactly when empty, under 8 or over 72 bytes. */
  function PasswordErrors(password: string): (e: seq<FieldError>)
    ensures Keys(e) == Flag(password == "" || Utf8Len(password) < MinPasswordLen
                            || Utf8Len(password) > MaxPasswordLen, "password")
  {
    var f1 := Failed(password != "", "password", "must be provided");
    var f2 := Failed(Utf8Len(password) >= MinPasswordLen, "password", "must be at least 8 bytes long");
    var f3 := Failed(Utf8Len(password) <= MaxPasswordLen, "password", "must not be more than 72 bytes long");
    KeysAppend(f1, f2);
    KeysAppend(f1 + f2, f3);
    f1 + f2 + f3
  }

  /** The field errors `ValidateUser` records: name, email, and the plaintext when there is one. */
  function UserErrors(u: User, matchesEmail: string -> bool): seq<FieldError> {
    TextErrors("name", u.name) + EmailErrors(u.email, matchesEmail)
    + match u.password.plaintext
      case Some(p) => PasswordErrors(p)
      case None => []
  }

  /** Exactly the fields whose rule is broken are flagged; a missing plaintext is never checked. */
  lemma UserErrorsExact(u: User, matchesEmail: string -> bool)
    ensures Keys(UserErrors(u, matchesEmail)) ==
      Flag(u.name == "" || Utf8Len(u.name) > MaxTextLen, "name")
      + Flag(u.email == "" || !matchesEmail(u.email), "email")
      + match u.password.plaintext
        case Some(p) => Flag(p == "" || Utf8Len(p) < MinPasswordLen || Utf8Len(p) > MaxPasswordLen, "password")
        case None => {}
  {
    var n, m := TextErrors("name", u.name), EmailErrors(u.email, matchesEmail);
    var p := match u.password.plaintext case Some(x) => PasswordErrors(x) case None => [];
    KeysAppend(n, m);
    KeysAppend(n + m, p);
  }

  /** `ValidateEmail` (users.go:63-66). */
  method ValidateEmail(v: Validator, email: string, matchesEmail: string -> bool)
    modifies v
    ensures v.errors == old(v.errors) + EmailErrors(email, matchesEmail)
  {
    ghost var start := v.errors;
    var ok1 := email != "";
    v.Check(ok1, "email", "must be provided");
    var ok2 := matchesEmail(email);
    v.Check(ok2, "email", "must be a valid email address");
    Seqs.AppendAssoc(start, Failed(ok1, "email", "must be provided"),
                     Failed(ok2, "email", "must be a valid email address"));
  }

  /** `ValidatePasswordPlaintext` (users.go:68-72). */
  method ValidatePasswordPlaintext(v: Validator, password: string)
    modifies v
    ensures v.errors == old(v.errors) + PasswordErrors(password)
  {
    ghost var start := v.errors;
    var ok1 := password != "";
    v.Check(ok1, "password", "must be provided");
    var ok2 := Utf8Len(password) >= MinPasswordLen;
    v.Check(ok2, "password", "must be at least 8 bytes long");
    var ok3 := Utf8Len(password) <= MaxPasswordLen;
    v.Check(ok3, "password", "must not be more than 72 bytes long");
    ghost var f1, f2 := Failed(ok1, "password", "must be provided"), Failed(ok2, "password", "must be at least 8 bytes long");
    Seqs.AppendAssoc(start, f1, f2);
    Seqs.AppendAssoc(start, f1 + f2, Failed(ok3, "password", "must not be more than 72 bytes long"));
  }

  /**
   * `ValidateUser` (users.go:74-87). A user without a password hash makes
   * the source panic, so callers must supply one.
   */
  method ValidateUser(v: Validator, user: User, matchesEmail: string -> bool)
    requires user.password.hash.Some?
    modifies v
    ensures v.errors == old(v.errors) + UserErrors(user, matchesEmail)
  {
    ghost var start := v.errors;
    ghost var n := TextErrors("name", user.name);
    ValidateText(v, "name", user.name);
    ValidateEmail(v, user.email, matchesEmail);
    Seqs.AppendAssoc(start, n, EmailErrors(user.email, matchesEmail));

    if user.password.plaintext.Some? {
      ValidatePasswordPlaintext(v, user.password.plaintext.value);
      Seqs.AppendAssoc(start, n + EmailErrors(user.email, matchesEmail), PasswordErrors(user.password.plaintext.value));
    }
  }

  /** A user meeting every rule gets no error at all. */
  lemma ValidUserHasNoErrors(u: User, matchesEmail: string -> bool)
    requires u.name != "" && Utf8Len(u.name) <= MaxTextLen
    requires u.email != "" && matchesEmail(u.email)
    requires u.password.plaintext.Some? ==>
      var p := u.password.plaintext.value;
      p != "" && MinPasswordLen <= Utf8Len(p) <= MaxPasswordLen
    ensures UserErrors(u, matchesEmail) == []
  {
  }

  // ---------------------------------------------------------------------------
  // The anonymous user
  // ---------------------------------------------------------------------------

  /**
   * `IsAnonymous` (users.go:31-33): the user is the `AnonymousUser` sentinel
   * itself, by reference; equal contents are not enough.
   */
  predicate IsAnonymous(u: Ptr<User>, anonymous: Ptr<User>)
    reads u, anonymous
    ensures IsAnonymous(u, anonymous) ==> u.val == anonymous.val
  {
    u == anonymous
  }

  /**
   * A freshly allocated zero-valued user, with the same contents as the
   * sentinel `&User{}` (users.go:18), is not anonymous.
   */
  method NewUser(anonymous: Ptr<User>) returns (u: Ptr<User>)
    ensures fresh(u) && u.val == ZeroUser
    ensures !IsAnonymous(u, anonymous)
  {
    u := new Ptr(ZeroUser);
  }

  // ---------------------------------------------------------------------------
  // Passwords
  // ---------------------------------------------------------------------------

  /**
   * `Set` (users.go:40-48). `generate` stands for `bcrypt.GenerateFromPassword`
   * on the plaintext's bytes at a cost. On success both the plaintext and the
   * hash are set; on a hashing error the password is left as it was.
   */
  method SetPassword(p: Ptr<Password>, plaintext: string, generate: (string, nat) -> Result<Bytes, Error>)
    returns (err: Option<Error>)
    modifies p
    ensures match generate(plaintext, BcryptCost)
      case Ok(hash) => err == None && p.val == Password(Some(plaintext), Some(hash))
      case Err(e) => err == Some(e) && p.val == old(p.val)
  {
    var hash := generate(plaintext, BcryptCost);
    if hash.Err? {
      return Some(hash.error);
    }
    p.val := p.val.(plaintext := Some(plaintext));
    p.val := p.val.(hash := Some(hash.value));
    err := None;
  }

  /**
   * `Matches` (users.go:50-61). `compare` stands for
   * `bcrypt.CompareHashAndPassword` (a nil hash included): no error means a
   * match, a mismatch is a plain `false`, and any other error is passed on.
   */
  function Matches(p: Password, plaintext: string, compare: (Option<Bytes>, string) -> Option<Error>)
    : (r: Result<bool, Error>)
    ensures r == Ok(true) <==> compare(p.hash, plaintext) == None
    ensures r == Ok(false) <==> compare(p.hash, plaintext) == Some(MismatchedHashAndPassword)
    ensures r.Err? <==> compare(p.hash, plaintext).Some? && compare(p.hash, plaintext) != Some(MismatchedHashAndPassword)
    ensures r.Err? ==> Some(r.error) == compare(p.hash, plaintext)
  {
    match compare(p.hash, plaintext)
    case None => Ok(true)
    case Some(MismatchedHashAndPassword) => Ok(false)
    case Some(e) => Err(e)
  }

  /**
   * With a bcrypt whose comparison accepts every hash it generated, a
   * password that was just set matches its own plaintext.
   */
  lemma SetThenMatches(plaintext: string, generate: (string, nat) -> Result<Bytes, Error>,
                       compare: (Option<Bytes>, string) -> Option<Error>)
    requires forall s: string | generate(s, BcryptCost).Ok? :: compare(Some(generate(s, BcryptCost).value), s) == None
    requires generate(plaintext, BcryptCost).Ok?
    ensures Matches(Password(Some(plaintext), Some(generate(plaintext, BcryptCost).value)), plaintext, compare) == Ok(true)
  {
  }

  // ---------------------------------------------------------------------------
  // The user model
  // ---------------------------------------------------------------------------

  /**
   * The error switch of `Insert` (users.go:111-119): the unique-index write
   * error is a duplicate email, `sql.ErrNoRows` an edit conflict, and any
   * other error is passed on.
   */
  function InsertError(e: Error): (r: Error)
    ensures e == DuplicateKey ==> r == DuplicateEmail
    ensures e == NoRows ==> r == EditConflict
    ensures e != DuplicateKey && e != NoRows ==> r == e
  {
    match e
    case DuplicateKey => DuplicateEmail
    case NoRows => EditConflict
    case _ => e
  }

  /** No two stored users share an id. */
  predicate IdsUnique(s: seq<Mongo.UserDoc>) {
    forall i, j | 0 <= i < j < |s| :: s[i].id != s[j].id
  }

  /**
   * The id `Insert` picks, one past the greatest stored id, is new, so
   * appending the user keeps ids unique while that greatest id is below
   * MaxInt64.
   */
  lemma NextIdKeepsIdsUnique(s: seq<Mongo.UserDoc>, last: Int64, d: Mongo.UserDoc)
    requires IdsUnique(s)
    requires forall i | 0 <= i < |s| :: s[i].id <= last
    requires last < MaxInt64 && d.id == Inc64(last)
    ensures IdsUnique(s + [d])
  {
  }

  /** At the top of the range the next id wraps to MinInt64, which may be taken. */
  lemma WrappedIdMayBeTaken(low: Mongo.UserDoc, high: Mongo.UserDoc, d: Mongo.UserDoc)
    requires low.id == MinInt64 && high.id == MaxInt64 && d.id == Inc64(high.id)
    ensures IdsUnique([low, high]) && !IdsUnique([low, high, d])
  {
    assert [low, high, d][0].id == [low, high, d][2].id;
  }

  /** `UserModel`: the user operations over one store. */
  class UserModel {
    const db: Mongo.MongoDb

    constructor (db: Mongo.MongoDb)
      ensures this.db == db
    {
      this.db := db;
    }

    /**
     * `Insert` (users.go:93-124): the user gets the id after the greatest
     * stored one (int64 arithmetic), a new version and the creation time,
     * and is written unless its email is taken, which is reported as
     * `ErrDuplicateEmail`. Without a greatest id (an empty collection) the
     * error is returned and neither the user nor the store changes.
     */
    method Insert(user: Ptr<User>, newVersion: Version, now: Time) returns (err: Option<Error>)
      requires db.Valid()
      modifies user, db
      ensures db.Valid()
      ensures match old(db.GetLastId("users"))
        case Err(e) => err == Some(e) && user.val == old(user.val) && db.users == old(db.users)
        case Ok(last) =>
          && user.val == old(user.val).(id := Inc64(last), version := newVersion, createdAt := now)
          && (Mongo.EmailTaken(old(db.users), user.val.email, -1) ==>
                err == Some(DuplicateEmail) && db.users == old(db.users))
          && (!Mongo.EmailTaken(old(db.users), user.val.email, -1) ==>
                err == None && db.users == old(db.users) + [Mongo.DocOf(user.val)])
      ensures IdsUnique(old(db.users)) && (old(db.GetLastId("users")).Ok? ==> old(db.GetLastId("users")).value < MaxInt64) ==>
        IdsUnique(db.users)
      ensures db.books == old(db.books) && db.tokens == old(db.tokens)
    {
      var last := db.GetLastId("users");
      if last.Err? {
        return Some(last.error);
      }
      user.val := user.val.(id := Inc64(last.value), version := newVersion, createdAt := now);
      if IdsUnique(db.users) && last.value < MaxInt64 {
        NextIdKeepsIdsUnique(db.users, last.value, Mongo.DocOf(user.val));
      }
      var e := db.InsertUser(user.val);
      err := match e
        case Some(x) => Some(InsertError(x))
        case None => None;
    }

    /**
     * `GetByEmail` (users.go:126-147): the first stored user with that email,
     * decoded, and `ErrRecordNotFound` when there is none.
     */
    function GetByEmail(email: string): (r: Result<User, Error>)
      reads db
      ensures r.Ok? <==> exists i | 0 <= i < |db.users| :: db.users[i].email == email
      ensures r.Ok? ==> exists d | d in db.users :: d.email == email && r.value == Mongo.Decoded(d)
      ensures r.Ok? ==> exists d :: Seqs.IsFirstMatch(db.users, Mongo.UserEmail(email), d) && r.value == Mongo.Decoded(d)
      ensures r.Err? ==> r.error == RecordNotFound
    {
      match db.Get(Mongo.Text(email), "users", "")
      case Ok(rec) => Ok(rec.user)
      case Err(e) => Err(MapNoDocuments(e, RecordNotFound))
    }

    /**
     * `Update` (users.go:149-165): the store's `Update`, with no-documents
     * read as an edit conflict. The store reports only a refused duplicate
     * email, which is passed on.
     */
    method Update(user: Ptr<User>, newVersion: Version) returns (err: Option<Error>)
      requires db.Valid()
      modifies user, db
      ensures db.Valid()
      ensures user.val == old(user.val).(version := newVersion)
      ensures match Mongo.UsersUpdated(old(db.users), old(user.val), newVersion)
        case Ok(s) => err == None && db.users == s
        case Err(e) => err == Some(MapNoDocuments(e, EditConflict)) && db.users == old(db.users)
      ensures db.books == old(db.books) && db.tokens == old(db.tokens)
    {
      var e := db.UpdateUser(user, newVersion);
      err := match e
        case Some(x) => Some(MapNoDocuments(x, EditConflict))
        case None => None;
    }

    /**
     * `GetForToken` (users.go:167-188): the store is asked with the SHA-256
     * digest of the plaintext (`sha`) and the scope only; the answer is the
     * owner of the first token with that digest and scope, and
     * `ErrRecordNotFound` when there is none.
     */
    function GetForToken(scope: string, plaintext: string, sha: string -> Bytes): (r: Result<User, Error>)
      reads db
      ensures r.Ok? ==>
        exists t, d | t in db.tokens && d in db.users ::
          && t.hash == sha(plaintext) && t.scope == scope
          && d.id == t.userId && r.value == Mongo.Decoded(d)
      ensures r.Ok? ==>
        exists t, d :: Seqs.IsFirstMatch(db.tokens, Mongo.TokenHash(sha(plaintext), scope), t)
                       && Seqs.IsFirstMatch(db.users, Mongo.UserId(t.userId), d) && r.value == Mongo.Decoded(d)
      ensures (forall t | t in db.tokens :: !(t.hash == sha(plaintext) && t.scope == scope)) ==>
        r == Err(RecordNotFound)
      ensures (&& (exists t | t in db.tokens :: t.hash == sha(plaintext) && t.scope == scope)
               && (forall t | t in db.tokens && t.hash == sha(plaintext) && t.scope == scope ::
                     exists d | d in db.users :: d.id == t.userId))
        ==> r.Ok?
      ensures r.Err? ==> r.error == RecordNotFound
    {
      match db.Get(Mongo.Digest(sha(plaintext)), "tokens", scope)
      case Ok(rec) => Ok(rec.user)
      case Err(e) => Err(MapNoDocuments(e, RecordNotFound))
    }
  }

  /** With emails kept unique, looking a user up by email finds exactly that user. */
  lemma GetByEmailFindsTheUser(m: UserModel, d: Mongo.UserDoc)
    requires m.db.Valid()
    requires d in m.db.users
    ensures m.GetByEmail(d.email) == Ok(Mongo.Decoded(d))
  {
    var s := m.db.users;
    var k :| 0 <= k < |s| && s[k] == d;
    var r := m.GetByEmail(d.email);
    assert r.Ok?;
    var d' :| d' in s && d'.email == d.email && r.value == Mongo.Decoded(d');
    assert forall i | 0 <= i < |s| && s[i].email == d.email :: s[i] == s[k] by {
      assert forall i, j | 0 <= i < j < |s| :: s[i].email != s[j].email;
    }
  }

  /** Two plaintexts with the same digest authenticate as the same user: only the digest is looked up. */
  lemma GetForTokenSeesOnlyTheDigest(m: UserModel, scope: string, p1: string, p2: string, sha: string -> Bytes)
    requires sha(p1) == sha(p2)
    ensures m.GetForToken(scope, p1, sha) == m.GetForToken(scope, p2, sha)
  {
  }

  /**
   * A stored token whose digest and scope no other token shares, and whose
   * owner is stored under a unique id, authenticates exactly its owner.
   */
  lemma StoredTokenAuthenticatesOwner(m: UserModel, t: Mongo.TokenDoc, d: Mongo.UserDoc,
                                      plaintext: string, sha: string -> Bytes)
    requires t in m.db.tokens && sha(plaintext) == t.hash
    requires forall u | u in m.db.tokens && u.hash == t.hash && u.scope == t.scope :: u == t
    requires d in m.db.users && d.id == t.userId && IdsUnique(m.db.users)
    ensures m.GetForToken(t.scope, plaintext, sha) == Ok(Mongo.Decoded(d))
  {
    var s := m.db.users;
    var g := m.db.Get(Mongo.Digest(t.hash), "tokens", t.scope);
    assert g.Ok?;
    var r := m.GetForToken(t.scope, plaintext, sha);
    var t', d' :| t' in m.db.tokens && d' in s && t'.hash == sha(plaintext) && t'.scope == t.scope
                  && d'.id == t'.userId && r.value == Mongo.Decoded(d');
    assert t' == t;
    var j :| 0 <= j < |s| && s[j] == d';
    var k :| 0 <= k < |s| && s[k] == d;
    if j < k {
      assert s[j].id != s[k].id;
    } else if k < j {
      assert s[k].id != s[j].id;
    }
  }
}
