/** A user's permission codes (internal/data/permissions.go). */
module Permissions {

  /** `Permissions`: a small ordered list of codes such as "books:read". */
  type Permissions = seq<string>

  /**
   * `Permissions.Include`: a linear scan that returns at the first element equal
   * to `code`. Equality is exact string equality, so it is case-sensitive.
   */
  method Include(p: Permissions, code: string) returns (found: bool)
    ensures found <==> code in p
  {
    for i := 0 to |p|
      invariant code !in p[..i]
    {
      if code == p[i] {
        return true;
      }
    }
    return false;
  }
}
