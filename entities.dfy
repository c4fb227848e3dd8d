/** The records of the data layer (internal/data/books.go, users.go, tokens.go) as Go struct values. */
module Entities {
  import opened Wrappers
  import opened GoTypes
  import Size

  /** A `time.Time`, as an instant on one clock. */
  type Time = int

  /** The zero `time.Time`. */
  const ZeroTime: Time := 0

  /** A `time.Duration`. */
  type Duration = int

  /** A `uuid.UUID` used as a version token; only its identity matters. */
  type Version = nat

  datatype Book = Book(
    id: Int64,
    createdAt: Time,
    title: string,
    author: string,
    year: Int32,
    size: Size.Size,
    genres: Slice<string>,
    version: Version)

  /**
   * The unexported `password` struct: the plaintext, kept in memory only
   * (a nil `*string` is None), and the bcrypt hash (a nil slice is None).
   */
  datatype Password = Password(plaintext: Option<string>, hash: Option<Bytes>)

  datatype User = User(
    id: Int64,
    createdAt: Time,
    name: string,
    email: string,
    password: Password,
    activated: bool,
    version: Version)

  datatype Token = Token(userId: Int64, expiry: Time, scope: string, hash: Bytes, plaintext: string)

  /** The zero value `Book{}`. */
  const ZeroBook: Book := Book(0, 0, "", "", 0, 0, Nil, 0)

  /** The zero value `User{}`. */
  const ZeroUser: User := User(0, 0, "", "", Password(None, None), false, 0)
}
