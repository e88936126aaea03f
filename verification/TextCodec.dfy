/** The line format of mdb_dump and mdb_load: one value a line, as printable
    text with escapes or as hexadecimal digits. */
module TextCodec {
  import opened ByteValues
  import opened Options

  const NL: byte := 10
  const SPACE: byte := 32
  const BACKSLASH: byte := 92

  // ------------------------------------------------------------- hex digits

  /** hexc of mdb_dump. */
  function HexDigit(n: nat): byte
    requires n < 16
  {
    if n < 10 then 48 + n else 97 + (n - 10)
  }

  function Hex(c: byte): (h: seq<byte>)
    ensures |h| == 2 && IsXDigit(h[0]) && IsXDigit(h[1])
  {
    [HexDigit(c / 16), HexDigit(c % 16)]
  }

  predicate IsXDigit(c: byte) { 48 <= c <= 57 || 65 <= c <= 70 || 97 <= c <= 102 }

  /** x & 0x4f. */
  function Mask(x: byte): byte { x % 16 + if x / 64 % 2 == 1 then 64 else 0 }

  function DigitValue(x: byte): int { if Mask(x) >= 64 then Mask(x) - 55 else Mask(x) }

  /** unhex of mdb_load, for two hexadecimal digits. */
  function Unhex(hi: byte, lo: byte): byte
    requires IsXDigit(hi) && IsXDigit(lo)
  {
    DigitValue(hi) * 16 + DigitValue(lo)
  }

  lemma UnhexHex(c: byte)
    ensures Unhex(Hex(c)[0], Hex(c)[1]) == c
  {
    DigitBack(c / 16);
    DigitBack(c % 16);
  }

  lemma DigitBack(n: nat)
    requires n < 16
    ensures DigitValue(HexDigit(n)) == n
  {
  }

  // ------------------------------------------------- what text and byte print

  /** What isprint may be: any test that fails for the terminators. */
  ghost predicate Printing(isprint: byte -> bool) { !isprint(0) && !isprint(NL) }

  function TextOf(c: byte, isprint: byte -> bool): (s: seq<byte>)
    ensures |s| > 0
  {
    if isprint(c) then (if c == BACKSLASH then [BACKSLASH, BACKSLASH] else [c]) else [BACKSLASH] + Hex(c)
  }

  function Text(v: seq<byte>, isprint: byte -> bool): seq<byte> {
    if |v| == 0 then [] else TextOf(v[0], isprint) + Text(v[1..], isprint)
  }

  function Bytes(v: seq<byte>): seq<byte> {
    if |v| == 0 then [] else Hex(v[0]) + Bytes(v[1..])
  }

  function Encoded(v: seq<byte>, print_: bool, isprint: byte -> bool): seq<byte> {
    if print_ then Text(v, isprint) else Bytes(v)
  }

  // ---------------------------------------------------- what readline decodes

  function Cons(b: byte, rest: Option<seq<byte>>): Option<seq<byte>> {
    if rest.None? then None else Some([b] + rest.value)
  }

  function ParseText(s: seq<byte>): Option<seq<byte>> {
    if |s| == 0 then Some([])
    else if s[0] != BACKSLASH then Cons(s[0], ParseText(s[1..]))
    else if |s| > 1 && s[1] == BACKSLASH then Cons(BACKSLASH, ParseText(s[2..]))
    else if |s| < 3 || !IsXDigit(s[1]) || !IsXDigit(s[2]) then None
    else Cons(Unhex(s[1], s[2]), ParseText(s[3..]))
  }

  function ParseBytes(s: seq<byte>): Option<seq<byte>> {
    if |s| == 0 then Some([])
    else if |s| == 1 || !IsXDigit(s[0]) || !IsXDigit(s[1]) then None
    else Cons(Unhex(s[0], s[1]), ParseBytes(s[2..]))
  }

  function Parsed(s: seq<byte>, print_: bool): Option<seq<byte>> { if print_ then ParseText(s) else ParseBytes(s) }

  /** One printed byte in front of a text. */
  lemma ParseOne(c: byte, isprint: byte -> bool, rest: seq<byte>)
    ensures ParseText(TextOf(c, isprint) + rest) == Cons(c, ParseText(rest))
  {
    hide Unhex, Hex, IsXDigit;
    var s := TextOf(c, isprint) + rest;
    if isprint(c) {
      assert s[if c == BACKSLASH then 2 else 1..] == rest;
    } else {
      UnhexHex(c);
      HexNotEscape(c);
      assert s[1] == Hex(c)[0] && s[2] == Hex(c)[1] && s[3..] == rest;
    }
  }

  /** Printing and parsing undo each other, whatever is printable. */
  lemma {:induction false} TextRoundTrip(v: seq<byte>, isprint: byte -> bool)
    ensures ParseText(Text(v, isprint)) == Some(v)
  {
    hide Unhex, Hex, TextOf;
    if |v| > 0 {
      TextRoundTrip(v[1..], isprint);
      ParseOne(v[0], isprint, Text(v[1..], isprint));
      assert [v[0]] + v[1..] == v;
    }
  }

  lemma HexNotEscape(c: byte)
    ensures Hex(c)[0] != BACKSLASH
  {
  }

  lemma {:induction false} BytesRoundTrip(v: seq<byte>)
    ensures ParseBytes(Bytes(v)) == Some(v)
  {
    if |v| > 0 {
      BytesRoundTrip(v[1..]);
      UnhexHex(v[0]);
      assert Bytes(v)[2..] == Bytes(v[1..]);
      assert [v[0]] + v[1..] == v;
    }
  }

  /** hexc of mdb_dump, digit by digit. */
  const HEXC: seq<byte> := [48, 49, 50, 51, 52, 53, 54, 55, 56, 57, 97, 98, 99, 100, 101, 102]

  lemma HexDigits(c: byte)
    ensures Hex(c) == [HEXC[c / 16], HEXC[c % 16]]
  {
  }

  lemma {:induction false} TextJoin(v: seq<byte>, w: seq<byte>, isprint: byte -> bool)
    ensures Text(v + w, isprint) == Text(v, isprint) + Text(w, isprint)
  {
    hide TextOf;
    if |v| == 0 {
      assert v + w == w;
    } else {
      assert (v + w)[1..] == v[1..] + w;
      TextJoin(v[1..], w, isprint);
    }
  }

  /** What a byte is printed as: a printable one as itself, a backslash doubled,
      any other as an escape with the high digit first. */
  lemma PrintedOne(c: byte, isprint: byte -> bool)
    ensures isprint(c) && c != BACKSLASH ==> TextOf(c, isprint) == [c]
    ensures isprint(c) && c == BACKSLASH ==> TextOf(c, isprint) == [BACKSLASH, BACKSLASH]
    ensures !isprint(c) ==> TextOf(c, isprint) == [BACKSLASH, HEXC[c / 16], HEXC[c % 16]]
  {
    hide Hex;
    HexDigits(c);
  }

  lemma Regroup(a: seq<byte>, b: seq<byte>, c: seq<byte>)
    ensures a + (b + c) == a + b + c
  {
  }

  lemma TextFirst(w: seq<byte>, isprint: byte -> bool)
    requires |w| > 0
    ensures Text(w, isprint) == TextOf(w[0], isprint) + Text(w[1..], isprint)
  {
  }

  /** The bytes of a value are printed one after the other. */
  lemma PrintedAs(v: seq<byte>, isprint: byte -> bool, i: nat)
    requires i < |v|
    ensures Text(v, isprint) == Text(v[..i], isprint) + TextOf(v[i], isprint) + Text(v[i + 1..], isprint)
  {
    hide TextOf, Text;
    var a, b := v[..i], v[i..];
    assert v == a + b;
    TextJoin(a, b, isprint);
    assert b[0] == v[i] && b[1..] == v[i + 1..];
    TextFirst(b, isprint);
    Regroup(Text(a, isprint), TextOf(v[i], isprint), Text(v[i + 1..], isprint));
  }

  /** Readable text is printed as it is. */
  lemma {:induction false} ReadableAsIs(v: seq<byte>, isprint: byte -> bool)
    requires forall i :: 0 <= i < |v| ==> isprint(v[i]) && v[i] != BACKSLASH
    ensures Text(v, isprint) == v
  {
    if |v| > 0 {
      ReadableAsIs(v[1..], isprint);
      assert v == [v[0]] + v[1..];
    }
  }

  /** Two digits for each byte, the high one first. */
  lemma {:induction false} DigitsAs(v: seq<byte>, i: nat)
    requires i < |v|
    ensures |Bytes(v)| == 2 * |v|
    ensures Bytes(v)[2 * i] == HEXC[v[i] / 16] && Bytes(v)[2 * i + 1] == HEXC[v[i] % 16]
  {
    hide Hex;
    HexDigits(v[0]);
    if |v| > 1 {
      DigitsAs(v[1..], if i == 0 then 0 else i - 1);
    } else {
      assert v[1..] == [];
    }
  }

  /** A printed value has no line end and no NUL in it. */
  lemma {:induction false} EncodedPlain(v: seq<byte>, print_: bool, isprint: byte -> bool)
    requires Printing(isprint)
    ensures NL !in Encoded(v, print_, isprint) && 0 !in Encoded(v, print_, isprint)
  {
    if |v| > 0 {
      EncodedPlain(v[1..], print_, isprint);
    }
  }
}
