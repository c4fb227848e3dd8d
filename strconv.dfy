/**
 * The parts of Go's `fmt` and `strconv` packages that the `Size` codec relies on:
 * `%d` formatting, `ParseInt(s, 10, 32)`, `Quote` and `Unquote`.
 */
module Strconv {
  import opened Wrappers
  import opened GoTypes

  predicate IsDigit(c: char) { '0' <= c <= '9' }

  predicate AllDigits(s: string) {
    forall i | 0 <= i < |s| :: IsDigit(s[i])
  }

  function DigitChar(d: nat): (c: char)
    requires d < 10
    ensures IsDigit(c) && c as int - '0' as int == d
  {
    (d + '0' as int) as char
  }

  /** The number a string of decimal digits denotes (leading zeros allowed). */
  function DigitsValue(s: string): nat
    requires AllDigits(s)
  {
    if s == [] then 0 else DigitsValue(s[..|s| - 1]) * 10 + (s[|s| - 1] as int - '0' as int)
  }

  /** `%d` of a non-negative number: its decimal digits, with no leading zero. */
  function NatDecimal(n: nat): (s: string)
    ensures |s| >= 1 && AllDigits(s)
    ensures DigitsValue(s) == n
    ensures s[0] == '0' ==> s == "0"
  {
    if n < 10 then [DigitChar(n)]
    else
      var high := NatDecimal(n / 10);
      var s := high + [DigitChar(n % 10)];
      assert s[..|s| - 1] == high;
      s
  }

  /** `fmt.Sprintf("%d", n)`: a minus sign for negatives, then the digits of |n|. */
  function FormatInt(n: int): (s: string)
    ensures |s| >= 1
    ensures forall i | 0 <= i < |s| :: IsDigit(s[i]) || (i == 0 && n < 0 && s[i] == '-')
  {
    if n < 0 then "-" + NatDecimal(-n) else NatDecimal(n)
  }

  /** The digits after an optional leading sign. */
  function Magnitude(s: string): string {
    if |s| > 0 && (s[0] == '+' || s[0] == '-') then s[1..] else s
  }

  /**
   * `strconv.ParseInt(s, 10, 32)`: an optional `+` or `-`, then one or more
   * decimal digits (no underscores in base 10), denoting a value in int32.
   */
  function ParseInt32(s: string): (r: Option<Int32>)
    ensures s == "" ==> r.None?
    ensures r.Some? ==> |Magnitude(s)| >= 1 && AllDigits(Magnitude(s))
    ensures r.Some? ==> r.value == if s[0] == '-' then -(DigitsValue(Magnitude(s)) as int) else DigitsValue(Magnitude(s))
    ensures s != "" && AllDigits(s) ==> (r.Some? <==> DigitsValue(s) <= MaxInt32)
    ensures r.Some? <==>
      && s != ""
      && |Magnitude(s)| >= 1 && AllDigits(Magnitude(s))
      && (if s[0] == '-' then DigitsValue(Magnitude(s)) <= -MinInt32 else DigitsValue(Magnitude(s)) <= MaxInt32)
  {
    if s == "" then None
    else
      var neg := s[0] == '-';
      var digits := Magnitude(s);
      if digits == "" || !AllDigits(digits) then None
      else
        var u: int := DigitsValue(digits);
        if (!neg && u > MaxInt32) || (neg && u > -MinInt32) then None
        else Some(if neg then -u else u)
  }

  /** Parsing undoes formatting exactly on the int32 range, and rejects everything outside it. */
  lemma ParseFormatInt(n: int)
    ensures ParseInt32(FormatInt(n)) == if MinInt32 <= n <= MaxInt32 then Some(n) else None
  {
    var s := FormatInt(n);
    if n < 0 {
      assert s[0] == '-';
      assert Magnitude(s) == NatDecimal(-n);
    } else {
      assert Magnitude(s) == s;
    }
  }

  // ---- Quote ----

  predicate IsPrintableAscii(c: char) { ' ' <= c <= '~' }

  predicate AllPrintableAscii(s: string) {
    forall i | 0 <= i < |s| :: IsPrintableAscii(s[i])
  }

  /** The body of a Go double-quoted literal for printable ASCII text: `"` and `\` get a backslash. */
  function Escape(s: string): (e: string)
    requires AllPrintableAscii(s)
    ensures '"' !in s && '\\' !in s ==> e == s
  {
    if s == [] then []
    else
      var rest := Escape(s[1..]);
      (if s[0] == '"' || s[0] == '\\' then ['\\', s[0]] else [s[0]]) + rest
  }

  /** `strconv.Quote` on printable ASCII text. */
  function Quote(s: string): (q: string)
    requires AllPrintableAscii(s)
    ensures |q| >= 2 && q[0] == '"' && q[|q| - 1] == '"'
    ensures '"' !in s && '\\' !in s ==> q == "\"" + s + "\""
  {
    "\"" + Escape(s) + "\""
  }

  // ---- Unquote ----

  /** One decoded character and the number of input characters it took. */
  datatype Unquoted = Unquoted(c: char, width: nat)

  function HexDigitValue(c: char): Option<nat> {
    if '0' <= c <= '9' then Some(c as int - '0' as int)
    else if 'a' <= c <= 'f' then Some(c as int - 'a' as int + 10)
    else if 'A' <= c <= 'F' then Some(c as int - 'A' as int + 10)
    else None
  }

  /** The value of a string of hexadecimal digits, if it is one. */
  function HexValue(s: string): (r: Option<nat>)
    ensures r.Some? ==> r.value < Pow16(|s|)
  {
    if s == [] then Some(0)
    else match (HexValue(s[..|s| - 1]), HexDigitValue(s[|s| - 1]))
      case (Some(high), Some(low)) => Some(high * 16 + low)
      case _ => None
  }

  function Pow16(n: nat): nat {
    if n == 0 then 1 else 16 * Pow16(n - 1)
  }

  predicate IsOctal(c: char) { '0' <= c <= '7' }

  predicate IsValidRune(v: nat) {
    v < 0xD800 || (0xE000 <= v < 0x11_0000)
  }

  /** The character a one-letter escape `\e` stands for (`\a \b \f \n \r \t \v \\`). */
  function SimpleEscape(e: char): Option<char> {
    match e
    case 'a' => Some(7 as char)
    case 'b' => Some(8 as char)
    case 'f' => Some(12 as char)
    case 'n' => Some('\n')
    case 'r' => Some('\r')
    case 't' => Some('\t')
    case 'v' => Some(11 as char)
    case '\\' => Some('\\')
    case _ => None
  }

  /**
   * `strconv.UnquoteChar(t, quote)`: decode the first character or escape
   * sequence of `t`. An unescaped `quote` is an error, and so is an escaped
   * quote of the other kind. A `\x` or octal escape stands for one byte;
   * here it becomes the character with that code.
   */
  function UnquoteChar(t: string, quote: char): (r: Option<Unquoted>)
    requires |t| > 0
    ensures r.Some? ==> 1 <= r.value.width <= |t|
    ensures t[0] != '\\' && t[0] != quote ==> r == Some(Unquoted(t[0], 1))
  {
    var c := t[0];
    if c == quote && (quote == '\'' || quote == '"') then None
    else if c != '\\' then Some(Unquoted(c, 1))
    else if |t| < 2 then None
    else
      var e := t[1];
      if SimpleEscape(e).Some? then Some(Unquoted(SimpleEscape(e).value, 2))
      else if e == 'x' || e == 'u' || e == 'U' then
        var n := if e == 'x' then 2 else if e == 'u' then 4 else 8;
        if |t| < 2 + n then None
        else match HexValue(t[2..2 + n])
          case None => None
          case Some(v) =>
            if e == 'x' then
              assert Pow16(2) == 256;
              Some(Unquoted(v as char, 2 + n))
            else if IsValidRune(v) then Some(Unquoted(v as char, 2 + n))
            else None
      else if IsOctal(e) then
        if |t| < 4 || !IsOctal(t[2]) || !IsOctal(t[3]) then None
        else
          var v := (e as int - '0' as int) * 64 + (t[2] as int - '0' as int) * 8 + (t[3] as int - '0' as int);
          if v > 255 then None else Some(Unquoted(v as char, 4))
      else if e == '\'' || e == '"' then
        if e == quote then Some(Unquoted(e, 2)) else None
      else None
  }

  /**
   * The scan of `strconv.Unquote` after the opening quote: decode characters up
   * to the first unescaped `quote`, which must be the last character of `t`;
   * an unescaped newline is an error, and a single-quoted literal holds at most
   * one character.
   */
  function UnquoteBody(t: string, quote: char): (r: Option<string>)
    ensures r.Some? ==> |t| >= 1 && t[|t| - 1] == quote
    ensures r.Some? && quote == '\'' ==> |r.value| <= 1
    decreases |t|
  {
    if |t| == 0 then None
    else if t[0] == quote then (if |t| == 1 then Some("") else None)
    else if t[0] == '\n' then None
    else match UnquoteChar(t, quote)
      case None => None
      case Some(u) =>
        if quote == '\'' then (if t[u.width..] == [quote] then Some([u.c]) else None)
        else match UnquoteBody(t[u.width..], quote)
          case None => None
          case Some(rest) => Some([u.c] + rest)
  }

  /** A raw string literal's value: its body with carriage returns removed. */
  function DropCR(s: string): (r: string)
    ensures '\r' !in r
  {
    if s == [] then [] else (if s[0] == '\r' then [] else [s[0]]) + DropCR(s[1..])
  }

  /**
   * `strconv.Unquote(s)`: `s` must be a whole Go string literal, double-quoted
   * (with escapes), back-quoted (raw) or single-quoted (one character).
   */
  function Unquote(s: string): (r: Option<string>)
    ensures r.Some? ==> |s| >= 2 && s[|s| - 1] == s[0] && (s[0] == '"' || s[0] == '`' || s[0] == '\'')
    ensures r.Some? && s[0] == '\'' ==> |r.value| <= 1
  {
    if |s| < 2 then None
    else if s[0] == '`' then
      if s[|s| - 1] == '`' && '`' !in s[1..|s| - 1] then Some(DropCR(s[1..|s| - 1])) else None
    else if s[0] == '"' || s[0] == '\'' then UnquoteBody(s[1..], s[0])
    else None
  }

  /** One step of the double-quoted scan: a decoded character followed by the decoded rest. */
  lemma UnquoteBodyStep(t: string, c: char, width: nat, rest: string)
    requires |t| > 0 && t[0] != '"' && t[0] != '\n'
    requires UnquoteChar(t, '"') == Some(Unquoted(c, width))
    requires UnquoteBody(t[width..], '"') == Some(rest)
    ensures UnquoteBody(t, '"') == Some([c] + rest)
  {
  }

  lemma EscapedQuoteChar(t: string, e: char)
    requires |t| >= 2 && t[0] == '\\' && t[1] == e && (e == '"' || e == '\\')
    ensures UnquoteChar(t, '"') == Some(Unquoted(e, 2))
  {
    assert SimpleEscape('"').None?;
  }

  /** The escape of one character, followed by a decodable rest, decodes to that character and the rest. */
  lemma UnquoteEscapedChar(c: char, tail: string, rest: string)
    requires IsPrintableAscii(c)
    requires UnquoteBody(tail, '"') == Some(rest)
    ensures UnquoteBody((if c == '"' || c == '\\' then ['\\', c] else [c]) + tail, '"') == Some([c] + rest)
  {
    if c == '"' || c == '\\' {
      var t := ['\\', c] + tail;
      assert t[2..] == tail;
      EscapedQuoteChar(t, c);
      UnquoteBodyStep(t, c, 2, rest);
    } else {
      var t := [c] + tail;
      assert t[1..] == tail;
      UnquoteBodyStep(t, c, 1, rest);
    }
  }

  lemma {:induction false} UnquoteEscaped(s: string)
    requires AllPrintableAscii(s)
    ensures UnquoteBody(Escape(s) + "\"", '"') == Some(s)
  {
    if s != [] {
      assert AllPrintableAscii(s[1..]) by {
        forall i | 0 <= i < |s[1..]| ensures IsPrintableAscii(s[1..][i]) {
          assert s[1..][i] == s[i + 1];
        }
      }
      var head := if s[0] == '"' || s[0] == '\\' then ['\\', s[0]] else [s[0]];
      var tail := Escape(s[1..]) + "\"";
      UnquoteEscaped(s[1..]);
      assert Escape(s) + "\"" == head + tail;
      UnquoteEscapedChar(s[0], tail, s[1..]);
      assert s == [s[0]] + s[1..];
    }
  }

  /** Unquoting undoes quoting. */
  lemma UnquoteQuote(s: string)
    requires AllPrintableAscii(s)
    ensures Unquote(Quote(s)) == Some(s)
  {
    var q := Quote(s);
    assert q[1..] == Escape(s) + "\"";
    UnquoteEscaped(s);
  }
}
