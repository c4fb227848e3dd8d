/**
 * The validator the data layer reports field errors into. Its package
 * (internal/validator) is not part of this model: it is represented as the
 * list of checks that failed, with their field and message, in the order the
 * checks ran. It also holds the two checks on a required text field, which
 * books.go (a title, an author) and users.go (a name) both run.
 */
module Validator {
  import opened GoTypes
  import Seqs

  datatype FieldError = FieldError(key: string, message: string)

  /** The fields some failed check was about. */
  function Keys(errors: seq<FieldError>): set<string> {
    if |errors| == 0 then {} else {errors[0].key} + Keys(errors[1..])
  }

  /** Some failed check was about `key`. */
  predicate HasError(errors: seq<FieldError>, key: string) {
    key in Keys(errors)
  }

  /** What one `v.Check(ok, key, message)` adds to the list. */
  function Failed(ok: bool, key: string, message: string): (added: seq<FieldError>)
    ensures Keys(added) == if ok then {} else {key}
    ensures HasError(added, key) <==> !ok
  {
    if ok then [] else [FieldError(key, message)]
  }

  /** The fields of two runs of checks, one after the other. */
  lemma {:induction false} KeysAppend(a: seq<FieldError>, b: seq<FieldError>)
    ensures Keys(a + b) == Keys(a) + Keys(b)
  {
    if |a| == 0 {
      assert a + b == b;
    } else {
      assert (a + b)[1..] == a[1..] + b;
      KeysAppend(a[1..], b);
    }
  }

  /** `validator.Unique`: no value occurs twice. */
  predicate Unique(values: seq<string>) {
    forall i, j | 0 <= i < j < |values| :: values[i] != values[j]
  }

  /** The longest text field a record may carry, in bytes. */
  const MaxTextLen := 500

  /** Flag `key` when `bad`. */
  function Flag(bad: bool, key: string): set<string> {
    if bad then {key} else {}
  }

  /**
   * The two checks on a required text field (a title, an author, a user's
   * name): flagged exactly when empty or longer than 500 bytes.
   */
  function TextErrors(key: string, text: string): (e: seq<FieldError>)
    ensures Keys(e) == Flag(text == "" || Utf8Len(text) > MaxTextLen, key)
  {
    var f1 := Failed(text != "", key, "must be provided");
    var f2 := Failed(Utf8Len(text) <= MaxTextLen, key, "must not be more than 500 bytes long");
    KeysAppend(f1, f2);
    f1 + f2
  }

  /** The two checks on a required text field, run against the validator. */
  method ValidateText(v: Validator, key: string, text: string)
    modifies v
    ensures v.errors == old(v.errors) + TextErrors(key, text)
  {
    ghost var start := v.errors;
    var ok1 := text != "";
    v.Check(ok1, key, "must be provided");
    var ok2 := Utf8Len(text) <= MaxTextLen;
    v.Check(ok2, key, "must not be more than 500 bytes long");
    Seqs.AppendAssoc(start, Failed(ok1, key, "must be provided"),
                     Failed(ok2, key, "must not be more than 500 bytes long"));
  }

  class Validator {
    var errors: seq<FieldError>

    /** `validator.New()`. */
    constructor ()
      ensures errors == []
    {
      errors := [];
    }

    /**
     * Go's `v.Valid()`: no check has failed. It is not a class invariant; the
     * validator has none.
     */
    predicate NoErrors()
      reads this
    {
      errors == []
    }

    /** `v.Check(ok, key, message)`: a failed check is recorded, a passed one is not. */
    method Check(ok: bool, key: string, message: string)
      modifies this
      ensures errors == old(errors) + Failed(ok, key, message)
    {
      if !ok {
        errors := errors + [FieldError(key, message)];
      }
    }
  }
}
