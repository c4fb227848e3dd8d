/** The Go value types the data layer is built from, with their widths made explicit. */
module GoTypes {

  const MinInt32: int := -0x8000_0000
  const MaxInt32: int := 0x7FFF_FFFF
  const MinInt64: int := -0x8000_0000_0000_0000
  const MaxInt64: int := 0x7FFF_FFFF_FFFF_FFFF

  type Int32 = x: int | MinInt32 <= x <= MaxInt32
  type Int64 = x: int | MinInt64 <= x <= MaxInt64
  type Byte = bv8
  type Bytes = seq<Byte>

  /** Go's `x + 1` on an int64: two's-complement wrap-around at the top. */
  function Inc64(x: Int64): (y: Int64)
    ensures x < MaxInt64 ==> y == x + 1
    ensures x == MaxInt64 ==> y == MinInt64
  {
    if x == MaxInt64 then MinInt64 else x + 1
  }

  /** Number of bytes of the UTF-8 encoding of one code point. */
  function RuneLen(c: char): (n: nat)
    ensures 1 <= n <= 4
    ensures n == 1 <==> c as int < 0x80
  {
    if c as int < 0x80 then 1
    else if c as int < 0x800 then 2
    else if c as int < 0x1_0000 then 3
    else 4
  }

  /** Go's `len(s)` on a string: the length of its UTF-8 encoding. */
  function Utf8Len(s: string): (n: nat)
    ensures |s| <= n <= 4 * |s|
  {
    if s == [] then 0 else RuneLen(s[0]) + Utf8Len(s[1..])
  }

  predicate IsAscii(s: string) {
    forall i | 0 <= i < |s| :: s[i] as int < 0x80
  }

  /** On ASCII text Go's byte length and the character count agree. */
  lemma {:induction false} AsciiUtf8Len(s: string)
    requires IsAscii(s)
    ensures Utf8Len(s) == |s|
  {
    if s != [] {
      assert IsAscii(s[1..]) by {
        forall i | 0 <= i < |s[1..]| ensures s[1..][i] as int < 0x80 {
          assert s[1..][i] == s[i + 1];
        }
      }
      AsciiUtf8Len(s[1..]);
    }
  }

  /** A Go slice, which may be nil; `len` of nil is 0. */
  datatype Slice<T> = Nil | Of(elems: seq<T>) {
    function Elems(): seq<T> {
      if Nil? then [] else elems
    }
  }

  /** A Go `*T` referring to a struct value: updating `val` writes through the reference. */
  class Ptr<T> {
    var val: T

    constructor (v: T)
      ensures val == v
    {
      val := v;
    }
  }
}
