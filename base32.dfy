/**
 * Base32 without padding, as section 6 of RFC 4648 defines it with the
 * standard alphabet: what `base32.StdEncoding.WithPadding(base32.NoPadding)`
 * produces for a token's random bytes.
 */
module Base32 {
  import opened GoTypes

  const Alphabet: string := "ABCDEFGHIJKLMNOPQRSTUVWXYZ234567"

  predicate InAlphabet(c: char) {
    'A' <= c <= 'Z' || '2' <= c <= '7'
  }

  predicate AllInAlphabet(s: string) {
    forall i | 0 <= i < |s| :: InAlphabet(s[i])
  }

  /** The symbol for a 5-bit value: its entry in the alphabet. */
  function Symbol(v: bv8): (c: char)
    requires v < 32
    ensures InAlphabet(c) && c == Alphabet[v as int]
  {
    if v < 26 then ('A' as int + v as int) as char else ('2' as int + v as int - 26) as char
  }

  /** The 5-bit value of a symbol: its position in the alphabet. */
  function SymbolValue(c: char): (v: bv8)
    requires InAlphabet(c)
    ensures v < 32 && Symbol(v) == c
  {
    var n := if 'A' <= c <= 'Z' then c as int - 'A' as int else c as int - '2' as int + 26;
    SmallByte(n);
    n as bv8
  }

  /** A number below 32 keeps its value as a byte. */
  lemma SmallByte(n: int)
    requires 0 <= n < 32
    ensures n as bv8 < 32 && (n as bv8) as int == n
  {
  }

  /** The eight 5-bit groups of a 40-bit quantum, most significant first. */
  function Groups(b0: bv8, b1: bv8, b2: bv8, b3: bv8, b4: bv8): (g: seq<bv8>)
    ensures |g| == 8 && forall i | 0 <= i < 8 :: g[i] < 32
  {
    [ b0 >> 3,
      ((b0 << 2) | (b1 >> 6)) & 0x1F,
      (b1 >> 1) & 0x1F,
      ((b1 << 4) | (b2 >> 4)) & 0x1F,
      ((b2 << 1) | (b3 >> 7)) & 0x1F,
      (b3 >> 2) & 0x1F,
      ((b3 << 3) | (b4 >> 5)) & 0x1F,
      b4 & 0x1F ]
  }

  /** Number of symbols for a final quantum of `n` bytes when padding is omitted. */
  function SymbolCount(n: nat): nat {
    (8 * n + 4) / 5
  }

  /**
   * One quantum of one to five bytes: missing bytes count as zero bits, and only
   * the symbols that carry input bits are written.
   */
  function EncodeQuantum(q: Bytes): (s: string)
    requires 1 <= |q| <= 5
    ensures |s| == SymbolCount(|q|) && AllInAlphabet(s)
  {
    var p := q + seq(5 - |q|, _ => 0 as bv8);
    var g := Groups(p[0], p[1], p[2], p[3], p[4]);
    seq(SymbolCount(|q|), i requires 0 <= i < SymbolCount(|q|) => Symbol(g[i]))
  }

  /** `EncodeToString` of the unpadded standard encoding. */
  function EncodeToString(src: Bytes): (s: string)
    ensures |s| == SymbolCount(|src|)
    ensures AllInAlphabet(s)
    decreases |src|
  {
    if |src| == 0 then ""
    else if |src| <= 5 then EncodeQuantum(src)
    else EncodeQuantum(src[..5]) + EncodeToString(src[5..])
  }

  // ---- the inverse, used to show that distinct byte strings encode differently ----

  /** The five bytes packed in eight 5-bit groups. */
  function Ungroup(g: seq<bv8>): seq<bv8>
    requires |g| == 8
  {
    [ (g[0] << 3) | (g[1] >> 2),
      (g[1] << 6) | (g[2] << 1) | (g[3] >> 4),
      (g[3] << 4) | (g[4] >> 1),
      (g[4] << 7) | (g[5] << 2) | (g[6] >> 3),
      (g[6] << 5) | g[7] ]
  }

  /** Up to eight symbols back to the bytes they carry (missing symbols count as zero). */
  function DecodeQuantum(s: string): (q: Bytes)
    requires |s| <= 8 && AllInAlphabet(s)
    ensures |q| == |s| * 5 / 8
  {
    var g := seq(8, i requires 0 <= i < 8 => if i < |s| then SymbolValue(s[i]) else 0);
    Ungroup(g)[..|s| * 5 / 8]
  }

  function Decode(s: string): Bytes
    requires AllInAlphabet(s)
    decreases |s|
  {
    if |s| <= 8 then DecodeQuantum(s) else DecodeQuantum(s[..8]) + Decode(s[8..])
  }

  // Each byte of a quantum is reassembled from the groups that hold its bits.
  lemma Byte0(b0: bv8, b1: bv8)
    ensures ((b0 >> 3) << 3) | ((((b0 << 2) | (b1 >> 6)) & 0x1F) >> 2) == b0
  {}

  lemma Byte1(b0: bv8, b1: bv8, b2: bv8)
    ensures ((((b0 << 2) | (b1 >> 6)) & 0x1F) << 6) | (((b1 >> 1) & 0x1F) << 1)
      | ((((b1 << 4) | (b2 >> 4)) & 0x1F) >> 4) == b1
  {}

  lemma Byte2(b1: bv8, b2: bv8, b3: bv8)
    ensures ((((b1 << 4) | (b2 >> 4)) & 0x1F) << 4) | ((((b2 << 1) | (b3 >> 7)) & 0x1F) >> 1) == b2
  {}

  lemma Byte3(b2: bv8, b3: bv8, b4: bv8)
    ensures ((((b2 << 1) | (b3 >> 7)) & 0x1F) << 7) | (((b3 >> 2) & 0x1F) << 2)
      | ((((b3 << 3) | (b4 >> 5)) & 0x1F) >> 3) == b3
  {}

  lemma Byte4(b3: bv8, b4: bv8)
    ensures ((((b3 << 3) | (b4 >> 5)) & 0x1F) << 5) | (b4 & 0x1F) == b4
  {}

  /** Packing the eight groups of a quantum gives back its five bytes. */
  lemma UngroupGroups(b0: bv8, b1: bv8, b2: bv8, b3: bv8, b4: bv8)
    ensures Ungroup(Groups(b0, b1, b2, b3, b4)) == [b0, b1, b2, b3, b4]
  {
    Byte0(b0, b1);
    Byte1(b0, b1, b2);
    Byte2(b1, b2, b3);
    Byte3(b2, b3, b4);
    Byte4(b3, b4);
  }

  /** The groups a short quantum does not write hold only zero padding bits. */
  lemma TrailingGroupsZero(q: Bytes)
    requires 1 <= |q| <= 5
    ensures var p := q + seq(5 - |q|, _ => 0 as bv8);
      forall i | SymbolCount(|q|) <= i < 8 :: Groups(p[0], p[1], p[2], p[3], p[4])[i] == 0
  {
    var p := q + seq(5 - |q|, _ => 0 as bv8);
    assert forall i | |q| <= i < 5 :: p[i] == 0;
  }

  lemma CountInverse(n: nat)
    requires 1 <= n <= 5
    ensures SymbolCount(n) * 5 / 8 == n
  {
  }

  /** Reading back the symbols of a quantum recovers all eight of its groups. */
  lemma SymbolsGiveGroups(q: Bytes)
    requires 1 <= |q| <= 5
    ensures var s := EncodeQuantum(q); var p := q + seq(5 - |q|, _ => 0 as bv8);
      seq(8, i requires 0 <= i < 8 => if i < |s| then SymbolValue(s[i]) else 0)
        == Groups(p[0], p[1], p[2], p[3], p[4])
  {
    var p := q + seq(5 - |q|, _ => 0 as bv8);
    var g := Groups(p[0], p[1], p[2], p[3], p[4]);
    var s := EncodeQuantum(q);
    var h := seq(8, i requires 0 <= i < 8 => if i < |s| then SymbolValue(s[i]) else 0);
    TrailingGroupsZero(q);
    forall i | 0 <= i < 8 ensures h[i] == g[i] {
      if i < |s| { assert s[i] == Symbol(g[i]); }
    }
  }

  lemma QuantumRoundTrip(q: Bytes)
    requires 1 <= |q| <= 5
    ensures DecodeQuantum(EncodeQuantum(q)) == q
  {
    var p := q + seq(5 - |q|, _ => 0 as bv8);
    SymbolsGiveGroups(q);
    UngroupGroups(p[0], p[1], p[2], p[3], p[4]);
    CountInverse(|q|);
    assert [p[0], p[1], p[2], p[3], p[4]][..|q|] == q;
  }

  /** Decoding undoes the encoding. */
  lemma {:induction false} DecodeEncode(src: Bytes)
    ensures Decode(EncodeToString(src)) == src
    decreases |src|
  {
    if |src| == 0 {
    } else if |src| <= 5 {
      QuantumRoundTrip(src);
    } else {
      var head := EncodeQuantum(src[..5]);
      var s := EncodeToString(src);
      assert s[..8] == head;
      assert s[8..] == EncodeToString(src[5..]);
      QuantumRoundTrip(src[..5]);
      DecodeEncode(src[5..]);
      assert src == src[..5] + src[5..];
    }
  }

  /** Distinct byte strings have distinct encodings. */
  lemma EncodeInjective(a: Bytes, b: Bytes)
    ensures EncodeToString(a) == EncodeToString(b) ==> a == b
  {
    DecodeEncode(a);
    DecodeEncode(b);
  }

  /**
   * The test vectors of section 10 of RFC 4648, with the padding dropped: the
   * bytes of "", "f", "fo", "foo" and "foob" (one partial quantum each).
   */
  lemma RfcVectorsShort()
    ensures EncodeToString([]) == ""
    ensures EncodeToString([0x66]) == "MY"
    ensures EncodeToString([0x66, 0x6f]) == "MZXQ"
    ensures EncodeToString([0x66, 0x6f, 0x6f]) == "MZXW6"
    ensures EncodeToString([0x66, 0x6f, 0x6f, 0x62]) == "MZXW6YQ"
  {
  }

  /** The remaining two vectors of section 10 of RFC 4648: "fooba" (one whole quantum) and "foobar". */
  lemma RfcVectorsLong()
    ensures EncodeToString([0x66, 0x6f, 0x6f, 0x62, 0x61]) == "MZXW6YTB"
    ensures EncodeToString([0x66, 0x6f, 0x6f, 0x62, 0x61, 0x72]) == "MZXW6YTBOI"
  {
  }
}
