/**
 * The error values that cross the data layer: the package's own sentinels
 * (internal/data/models.go, users.go, size.go) and the sentinels of the
 * collaborators whose errors the models inspect.
 */
module Errors {

  datatype Error =
    | RecordNotFound            // data.ErrRecordNotFound
    | EditConflict              // data.ErrEditConflict
    | DuplicateEmail            // data.ErrDuplicateEmail
    | InvalidRuntimeFormat      // data.ErrInvalidRuntimeFormat
    | NoDocuments               // mongo.ErrNoDocuments: a FindOne that matched nothing
    | DuplicateKey              // the driver's E11000 write error on the unique email index
    | NoRows                    // sql.ErrNoRows
    | NoCollection              // the adapter's "No collections in database"
    | MismatchedHashAndPassword // bcrypt.ErrMismatchedHashAndPassword
    | Other(code: nat)          // any other error of a collaborator, passed on as it is

  /**
   * The `switch { case errors.Is(err, mongo.ErrNoDocuments): ... default: return err }`
   * that the models wrap around store calls: the driver's "no documents" becomes
   * `replacement`, every other error is passed on unchanged.
   */
  function MapNoDocuments(e: Error, replacement: Error): (r: Error)
    ensures e == NoDocuments ==> r == replacement
    ensures e != NoDocuments ==> r == e
  {
    if e == NoDocuments then replacement else e
  }
}
