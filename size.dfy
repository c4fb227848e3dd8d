/**
 * A book's page count (internal/data/size.go): an int32 whose JSON form is
 * the quoted string "N pages".
 */
module Size {
  import opened Wrappers
  import opened GoTypes
  import opened Errors
  import opened Strconv
  import opened Strings

  type Size = Int32

  /** The unit suffix that follows the single space. */
  const Suffix: string := " pages"

  /** `Size.MarshalJSON`: never fails; the quotes add no escapes to "N pages". */
  function MarshalJSON(r: Size): (json: string)
    ensures json == "\"" + FormatInt(r) + Suffix + "\""
  {
    var text := FormatInt(r) + Suffix;
    assert forall i | 0 <= i < |text| :: IsDigit(text[i]) || text[i] in "- pages";
    Quote(text)
  }

  /**
   * The number part of an unquoted value: what precedes " pages", provided the
   * value ends in " pages" and that space is its only one.
   */
  function NumberPart(u: string): Option<string> {
    if |u| >= |Suffix| && u[|u| - |Suffix|..] == Suffix && ' ' !in u[..|u| - |Suffix|]
    then Some(u[..|u| - |Suffix|])
    else None
  }

  /**
   * The unquote / split / parse pipeline of `(*Size).UnmarshalJSON`. Every
   * failure is ErrInvalidRuntimeFormat; the value is accepted exactly when it
   * unquotes to a number part followed by " pages" and that part parses as a
   * base-10 int32.
   */
  function Parse(jsonValue: string): (r: Result<Size, Error>)
    ensures r.Err? ==> r.error == InvalidRuntimeFormat
    ensures Unquote(jsonValue).None? ==> r.Err?
    ensures r.Ok? <==>
      Unquote(jsonValue).Some? && NumberPart(Unquote(jsonValue).value).Some? &&
      ParseInt32(NumberPart(Unquote(jsonValue).value).value).Some?
    ensures r.Ok? ==> Some(r.value) == ParseInt32(NumberPart(Unquote(jsonValue).value).value)
  {
    match Unquote(jsonValue)
    case None => Err(InvalidRuntimeFormat)
    case Some(unquoted) =>
      var parts := Split(unquoted, ' ');
      SplitPages(unquoted);
      if |parts| != 2 || parts[1] != "pages" then Err(InvalidRuntimeFormat)
      else match ParseInt32(parts[0])
        case None => Err(InvalidRuntimeFormat)
        case Some(i) => Ok(i)
  }

  /** Splitting on " " yields [n, "pages"] exactly when n is the number part. */
  lemma SplitPages(u: string)
    ensures (|Split(u, ' ')| == 2 && Split(u, ' ')[1] == "pages") <==> NumberPart(u).Some?
    ensures NumberPart(u).Some? ==> Split(u, ' ')[0] == NumberPart(u).value
  {
    var parts := Split(u, ' ');
    if |parts| == 2 && parts[1] == "pages" {
      SplitGivesNumberPart(u);
    }
    if NumberPart(u).Some? {
      NumberPartSplits(u);
    }
  }

  lemma SplitGivesNumberPart(u: string)
    requires |Split(u, ' ')| == 2 && Split(u, ' ')[1] == "pages"
    ensures NumberPart(u) == Some(Split(u, ' ')[0])
  {
    var n := Split(u, ' ')[0];
    SplitTwo(u, ' ', n, "pages");
    assert u[..|u| - |Suffix|] == n;
    assert u[|u| - |Suffix|..] == Suffix;
  }

  lemma NumberPartSplits(u: string)
    requires NumberPart(u).Some?
    ensures Split(u, ' ') == [NumberPart(u).value, "pages"]
  {
    var k := |u| - |Suffix|;
    var n := u[..k];
    assert u == n + u[k..];
    assert Suffix == [' '] + "pages";
    assert ' ' !in "pages";
    SplitTwo(u, ' ', n, "pages");
  }

  /**
   * `(*Size).UnmarshalJSON` with its receiver: the receiver after the call and
   * the error returned. Only the success path writes the receiver.
   */
  function UnmarshalJSON(receiver: Size, jsonValue: string): (out: (Size, Option<Error>))
    ensures out.1.Some? ==> out.0 == receiver && out.1 == Some(InvalidRuntimeFormat)
    ensures out.1.None? <==> Parse(jsonValue).Ok?
    ensures out.1.None? ==> Ok(out.0) == Parse(jsonValue)
  {
    match Parse(jsonValue)
    case Err(e) => (receiver, Some(e))
    case Ok(i) => (i, None)
  }

  /** Every int32, negative ones included, survives a JSON round trip. */
  lemma RoundTrip(r: Size)
    ensures Parse(MarshalJSON(r)) == Ok(r)
    ensures UnmarshalJSON(0, MarshalJSON(r)) == (r, None)
  {
    var text := FormatInt(r) + Suffix;
    assert forall i | 0 <= i < |text| :: IsDigit(text[i]) || text[i] in "- pages";
    UnquoteQuote(text);
    assert Unquote(MarshalJSON(r)) == Some(text);
    assert text[|text| - |Suffix|..] == Suffix;
    assert text[..|text| - |Suffix|] == FormatInt(r);
    assert ' ' !in FormatInt(r);
    assert NumberPart(text) == Some(FormatInt(r));
    ParseFormatInt(r);
  }

  /** A single-quoted literal unquotes to at most one character, so it is never a size. */
  lemma SingleQuotedRejected(jsonValue: string)
    requires |jsonValue| > 0 && jsonValue[0] == '\''
    ensures Parse(jsonValue) == Err(InvalidRuntimeFormat)
  {
  }
}
