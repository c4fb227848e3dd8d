/** Token validation, generation and the token model (internal/data/tokens.go). */
module Tokens {
  import opened Wrappers
  import opened GoTypes
  import opened Errors
  import opened Entities
  import opened Validator
  import Base32
  import Mongo
  import Seqs
  import Users

  const ScopeActivation := "activation"
  const ScopeAuthentication := "authentication"

  /** The number of random bytes behind a token. */
  const RandomLen := 16

  /** The length of a token's plaintext. */
  const PlaintextLen := 26

  /** The two plaintext checks: flagged exactly when empty or not 26 bytes long. */
  function TokenPlaintextErrors(plaintext: string): (e: seq<FieldError>)
    ensures Keys(e) == Flag(plaintext == "" || Utf8Len(plaintext) != PlaintextLen, "token")
  {
    var f1 := Failed(plaintext != "", "token", "must be provided");
    var f2 := Failed(Utf8Len(plaintext) == PlaintextLen, "token", "must be 26 bytes long");
    KeysAppend(f1, f2);
    f1 + f2
  }

  /** `ValidateTokenPlaintext` (tokens.go:25-28). */
  method ValidateTokenPlaintext(v: Validator, plaintext: string)
    modifies v
    ensures v.errors == old(v.errors) + TokenPlaintextErrors(plaintext)
  {
    ghost var start := v.errors;
    var ok1 := plaintext != "";
    v.Check(ok1, "token", "must be provided");
    var ok2 := Utf8Len(plaintext) == PlaintextLen;
    v.Check(ok2, "token", "must be 26 bytes long");
    Seqs.AppendAssoc(start, Failed(ok1, "token", "must be provided"), Failed(ok2, "token", "must be 26 bytes long"));
  }

  /**
   * The plaintext of 16 random bytes has exactly 26 symbols, all from the
   * base32 alphabet, and so passes `ValidateTokenPlaintext`.
   */
  lemma PlaintextIsValid(randomBytes: Bytes)
    requires |randomBytes| == RandomLen
    ensures var s := Base32.EncodeToString(randomBytes);
      && |s| == PlaintextLen
      && Base32.AllInAlphabet(s)
      && Utf8Len(s) == PlaintextLen
      && TokenPlaintextErrors(s) == []
  {
    var s := Base32.EncodeToString(randomBytes);
    assert IsAscii(s) by {
      forall i | 0 <= i < |s| ensures s[i] as int < 0x80 {
        assert Base32.InAlphabet(s[i]);
      }
    }
    AsciiUtf8Len(s);
  }

  /** Distinct random bytes give distinct plaintexts. */
  lemma PlaintextDeterminesBytes(a: Bytes, b: Bytes)
    requires Base32.EncodeToString(a) == Base32.EncodeToString(b)
    ensures a == b
  {
    Base32.EncodeInjective(a, b);
  }

  /**
   * `generateToken` (tokens.go:30-50). `randomBytes` is what `rand.Read`
   * filled the 16-byte buffer with, or its error; `sha` is SHA-256. The
   * token carries the user, the scope and the expiry `now + ttl`; its
   * plaintext is the unpadded base32 text of the bytes and its hash the
   * digest of that text. A failed read gives no token.
   */
  method GenerateToken(userId: Int64, ttl: Duration, scope: string, now: Time,
                       randomBytes: Result<Bytes, Error>, sha: string -> Bytes)
    returns (token: Result<Token, Error>)
    requires randomBytes.Ok? ==> |randomBytes.value| == RandomLen
    ensures randomBytes.Err? ==> token == Err(randomBytes.error)
    ensures randomBytes.Ok? ==>
      && token.Ok?
      && token.value.userId == userId && token.value.scope == scope
      && token.value.expiry == now + ttl
      && token.value.plaintext == Base32.EncodeToString(randomBytes.value)
      && token.value.hash == sha(token.value.plaintext)
      && |token.value.plaintext| == PlaintextLen
      && Base32.AllInAlphabet(token.value.plaintext)
      && TokenPlaintextErrors(token.value.plaintext) == []
  {
    var t := Token(userId, now + ttl, scope, [], "");
    if randomBytes.Err? {
      return Err(randomBytes.error);
    }
    t := t.(plaintext := Base32.EncodeToString(randomBytes.value));
    t := t.(hash := sha(t.plaintext));
    PlaintextIsValid(randomBytes.value);
    token := Ok(t);
  }

  /** `TokenModel`: the token operations over one store. */
  class TokenModel {
    const db: Mongo.MongoDb

    constructor (db: Mongo.MongoDb)
      ensures this.db == db
    {
      this.db := db;
    }

    /** `Insert` (tokens.go:65-70): the token's user, expiry, scope and hash are stored. */
    method Insert(token: Token) returns (err: Option<Error>)
      modifies db
      ensures err == None
      ensures db.tokens == old(db.tokens) + [Mongo.TokenDocOf(token)]
      ensures db.books == old(db.books) && db.users == old(db.users)
    {
      err := db.InsertToken(token);
    }

    /**
     * `New` (tokens.go:56-63): a generated token is stored and returned
     * together with the insert's outcome; a failed generation stores nothing.
     */
    method New(userId: Int64, ttl: Duration, scope: string, now: Time,
               randomBytes: Result<Bytes, Error>, sha: string -> Bytes)
      returns (token: Option<Token>, err: Option<Error>)
      requires randomBytes.Ok? ==> |randomBytes.value| == RandomLen
      modifies db
      ensures randomBytes.Err? ==> token == None && err == Some(randomBytes.error) && db.tokens == old(db.tokens)
      ensures randomBytes.Ok? ==>
        var plaintext := Base32.EncodeToString(randomBytes.value);
        && token == Some(Token(userId, now + ttl, scope, sha(plaintext), plaintext))
        && err == None
        && db.tokens == old(db.tokens) + [Mongo.TokenDoc(userId, now + ttl, scope, sha(plaintext))]
      ensures db.books == old(db.books) && db.users == old(db.users)
    {
      var generated := GenerateToken(userId, ttl, scope, now, randomBytes, sha);
      if generated.Err? {
        return None, Some(generated.error);
      }
      err := Insert(generated.value);
      token := Some(generated.value);
    }

    /**
     * `DeleteAllForUser` (tokens.go:72-77): the store's `Delete` on tokens with
     * that user and scope, which removes the first such token only.
     */
    method DeleteAllForUser(scope: string, userId: Int64) returns (err: Option<Error>)
      requires db.Valid()
      modifies db
      ensures db.Valid()
      ensures err == None
      ensures db.tokens == Seqs.RemoveFirst(old(db.tokens), Mongo.TokenOwner(userId, scope))
      ensures db.books == old(db.books) && db.users == old(db.users)
    {
      err := db.Delete(userId, "tokens", scope);
    }
  }

  /**
   * Despite its name, `DeleteAllForUser` leaves a user's second token of the
   * same scope in place.
   */
  lemma DeleteAllForUserKeepsASecondToken(t: Mongo.TokenDoc)
    ensures Seqs.RemoveFirst([t, t], Mongo.TokenOwner(t.userId, t.scope)) == [t]
  {
    assert Mongo.TokenOwner(t.userId, t.scope)(t);
  }

  /**
   * A new token, stored for a user that is itself stored under a unique id,
   * authenticates that user, provided no earlier token has the same digest
   * and scope.
   */
  lemma NewTokenAuthenticatesOwner(tokens: seq<Mongo.TokenDoc>, t: Token, d: Mongo.UserDoc,
                                   m: Users.UserModel, sha: string -> Bytes)
    requires m.db.tokens == tokens + [Mongo.TokenDocOf(t)]
    requires forall u | u in tokens :: !(u.hash == t.hash && u.scope == t.scope)
    requires t.hash == sha(t.plaintext)
    requires d in m.db.users && d.id == t.userId && Users.IdsUnique(m.db.users)
    ensures m.GetForToken(t.scope, t.plaintext, sha) == Ok(Mongo.Decoded(d))
  {
    var doc := Mongo.TokenDocOf(t);
    assert doc in m.db.tokens;
    forall u | u in m.db.tokens && u.hash == doc.hash && u.scope == doc.scope ensures u == doc {
      if u in tokens {
        assert false;
      }
    }
    Users.StoredTokenAuthenticatesOwner(m, doc, d, t.plaintext, sha);
  }
}
