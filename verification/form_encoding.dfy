/** `java.net.URLEncoder.encode(s, UTF_8)`: the HTML form encoding
    (`application/x-www-form-urlencoded`), which is not the percent-encoding
    of section 2.1 of RFC 3986: a space becomes '+', and the characters
    a-z A-Z 0-9 '.' '-' '*' '_' are kept as they are; every other character
    is written as '%' and two upper-case hex digits per byte of its UTF-8
    encoding (section 3 of RFC 3629).

    `FormDecode` is the reference inverse an authorization server applies to
    the Basic credentials of section 2.3.1 of RFC 6749; `EncodeRoundTrip`
    proves that it recovers every string of Unicode scalar values, the only
    strings `char` can hold. */
module FormEncoding {
  import opened Common

  type Byte = b: int | 0 <= b < 256

  /** The characters `URLEncoder` copies unchanged. */
  predicate KeptAsIs(c: char)
  {
    ('a' <= c <= 'z') || ('A' <= c <= 'Z') || ('0' <= c <= '9')
    || c == '.' || c == '-' || c == '*' || c == '_'
  }

  /** UTF-8 encoding of one Unicode scalar value. */
  function Utf8(c: char): (r: seq<Byte>)
    ensures 1 <= |r| <= 4
  {
    var v := c as int;
    if v < 0x80 then [v]
    else if v < 0x800 then [0xC0 + v / 64, 0x80 + v % 64]
    else if v < 0x10000 then [0xE0 + (v / 64) / 64, 0x80 + (v / 64) % 64, 0x80 + v % 64]
    else [0xF0 + ((v / 64) / 64) / 64, 0x80 + ((v / 64) / 64) % 64, 0x80 + (v / 64) % 64, 0x80 + v % 64]
  }

  /** An upper-case hex digit, as `URLEncoder` writes them. */
  function HexDigit(n: nat): (c: char)
    requires n < 16
    ensures ('0' <= c <= '9') || ('A' <= c <= 'F')
  {
    if n < 10 then (('0' as int) + n) as char else (('A' as int) + n - 10) as char
  }

  function Escapes(bs: seq<Byte>): (r: string)
    ensures |r| == 3 * |bs|
    ensures |bs| > 0 ==> r[0] == '%'
    decreases |bs|
  {
    if |bs| == 0 then ""
    else ['%', HexDigit(bs[0] / 16), HexDigit(bs[0] % 16)] + Escapes(bs[1..])
  }

  function EncodeChar(c: char): (r: string)
    ensures KeptAsIs(c) ==> r == [c]
    ensures r == "+" <==> c == ' '
    ensures !KeptAsIs(c) && c != ' ' ==> |r| == 3 * |Utf8(c)| && r[0] == '%'
  {
    if KeptAsIs(c) then [c] else if c == ' ' then "+" else Escapes(Utf8(c))
  }

  /** The alphabet of an encoded string: kept characters, '+' and '%'. */
  predicate FormSafe(t: string)
  {
    forall i :: 0 <= i < |t| ==> KeptAsIs(t[i]) || t[i] == '+' || t[i] == '%'
  }

  lemma {:induction false} EscapesAreSafe(bs: seq<Byte>)
    ensures FormSafe(Escapes(bs))
    decreases |bs|
  {
    if |bs| > 0 {
      EscapesAreSafe(bs[1..]);
    }
  }

  /** `URLEncoder.encode(s, StandardCharsets.UTF_8)`. */
  function FormEncode(s: string): (r: string)
    ensures FormSafe(r)
    ensures |r| >= |s|
    decreases |s|
  {
    if |s| == 0 then ""
    else
      EscapesAreSafe(Utf8(s[0]));
      EncodeChar(s[0]) + FormEncode(s[1..])
  }

  /** One lexical piece of an encoded string: a literal character or an
      escaped byte. */
  datatype Piece = Lit(c: char) | Octet(b: Byte)

  predicate IsHex(c: char)
  {
    ('0' <= c <= '9') || ('A' <= c <= 'F') || ('a' <= c <= 'f')
  }

  function HexValue(c: char): (n: nat)
    requires IsHex(c)
    ensures n < 16
  {
    if '0' <= c <= '9' then (c as int) - ('0' as int)
    else if 'A' <= c <= 'F' then (c as int) - ('A' as int) + 10
    else (c as int) - ('a' as int) + 10
  }

  /** Reads '+' as a space and "%XY" as a byte; any other character,
      including a '%' not followed by two hex digits, is literal. */
  function Pieces(t: string): seq<Piece>
    decreases |t|
  {
    if |t| == 0 then []
    else if t[0] == '+' then [Lit(' ')] + Pieces(t[1..])
    else if t[0] == '%' && |t| >= 3 && IsHex(t[1]) && IsHex(t[2]) then
      [Octet(HexValue(t[1]) * 16 + HexValue(t[2]))] + Pieces(t[3..])
    else [Lit(t[0])] + Pieces(t[1..])
  }

  /** The length of the UTF-8 sequence a lead byte opens, 0 if it opens none. */
  function SequenceLength(b: Byte): nat
  {
    if b < 0x80 then 1
    else if 0xC0 <= b < 0xE0 then 2
    else if 0xE0 <= b < 0xF0 then 3
    else if 0xF0 <= b < 0xF8 then 4
    else 0
  }

  predicate Continuations(ps: seq<Piece>)
  {
    forall i :: 0 <= i < |ps| ==> ps[i].Octet? && 0x80 <= ps[i].b < 0xC0
  }

  function ScalarValue(lead: Byte, cont: seq<Piece>): int
    requires 1 <= SequenceLength(lead) == |cont| + 1
    requires Continuations(cont)
  {
    var n := |cont| + 1;
    if n == 1 then lead
    else if n == 2 then (lead - 0xC0) * 64 + (cont[0].b - 0x80)
    else if n == 3 then ((lead - 0xE0) * 64 + (cont[0].b - 0x80)) * 64 + (cont[1].b - 0x80)
    else (((lead - 0xF0) * 64 + (cont[0].b - 0x80)) * 64 + (cont[1].b - 0x80)) * 64 + (cont[2].b - 0x80)
  }

  predicate IsScalar(v: int)
  {
    (0 <= v < 0xD800) || (0xE000 <= v < 0x11_0000)
  }

  function Prepend(c: char, o: Option<string>): Option<string>
  {
    match o
    case None => None
    case Some(s) => Some([c] + s)
  }

  function DecodePieces(ps: seq<Piece>): Option<string>
    decreases |ps|
  {
    if |ps| == 0 then Some("")
    else match ps[0]
      case Lit(c) => Prepend(c, DecodePieces(ps[1..]))
      case Octet(lead) =>
        var n := SequenceLength(lead);
        if n == 0 || |ps| < n || !Continuations(ps[1..n]) then None
        else
          var v := ScalarValue(lead, ps[1..n]);
          if IsScalar(v) then Prepend(v as char, DecodePieces(ps[n..])) else None
  }

  /** Form decoding: None when an escaped byte run is not valid UTF-8. */
  function FormDecode(t: string): Option<string>
  {
    DecodePieces(Pieces(t))
  }

  function Octets(bs: seq<Byte>): (r: seq<Piece>)
    ensures |r| == |bs|
    ensures forall i :: 0 <= i < |bs| ==> r[i] == Octet(bs[i])
    decreases |bs|
  {
    if |bs| == 0 then [] else [Octet(bs[0])] + Octets(bs[1..])
  }

  function CharPieces(c: char): seq<Piece>
  {
    if KeptAsIs(c) || c == ' ' then [Lit(c)] else Octets(Utf8(c))
  }

  function StringPieces(s: string): seq<Piece>
    decreases |s|
  {
    if |s| == 0 then [] else CharPieces(s[0]) + StringPieces(s[1..])
  }

  lemma HexValueOfDigit(n: nat)
    requires n < 16
    ensures HexValue(HexDigit(n)) == n
  {
  }

  lemma {:induction false} PiecesOfEscapes(bs: seq<Byte>, rest: string)
    ensures Pieces(Escapes(bs) + rest) == Octets(bs) + Pieces(rest)
    decreases |bs|
  {
    if |bs| > 0 {
      var b := bs[0];
      var t := Escapes(bs) + rest;
      var tail := Escapes(bs[1..]) + rest;
      assert t == ['%', HexDigit(b / 16), HexDigit(b % 16)] + tail;
      assert t[3..] == tail;
      HexValueOfDigit(b / 16);
      HexValueOfDigit(b % 16);
      assert HexValue(t[1]) * 16 + HexValue(t[2]) == b;
      assert Pieces(t) == [Octet(b)] + Pieces(tail);
      PiecesOfEscapes(bs[1..], rest);
      assert Octets(bs) == [Octet(b)] + Octets(bs[1..]);
      assert Octets(bs) + Pieces(rest) == [Octet(b)] + (Octets(bs[1..]) + Pieces(rest));
    } else {
      assert Escapes(bs) + rest == rest;
      assert Octets(bs) + Pieces(rest) == Pieces(rest);
    }
  }

  lemma PiecesOfEncodeChar(c: char, rest: string)
    ensures Pieces(EncodeChar(c) + rest) == CharPieces(c) + Pieces(rest)
  {
    var t := EncodeChar(c) + rest;
    if KeptAsIs(c) || c == ' ' {
      assert t[1..] == rest;
    } else {
      PiecesOfEscapes(Utf8(c), rest);
    }
  }

  lemma {:induction false} PiecesOfEncode(s: string)
    ensures Pieces(FormEncode(s)) == StringPieces(s)
    decreases |s|
  {
    if |s| > 0 {
      PiecesOfEncodeChar(s[0], FormEncode(s[1..]));
      PiecesOfEncode(s[1..]);
    }
  }

  /** The UTF-8 bytes of a character decode back to it, consuming exactly them. */
  lemma {:induction false} DecodeCharPieces(c: char, rest: seq<Piece>)
    ensures DecodePieces(CharPieces(c) + rest) == Prepend(c, DecodePieces(rest))
  {
    var ps := CharPieces(c) + rest;
    if KeptAsIs(c) || c == ' ' {
      assert ps[1..] == rest;
    } else {
      var v := c as int;
      var bs := Utf8(c);
      var n := |bs|;
      assert ps[..n] == Octets(bs);
      assert ps[n..] == rest;
      assert ps[0] == Octet(bs[0]);
      assert SequenceLength(bs[0]) == n;
      assert Continuations(ps[1..n]);
      var q1 := v / 64;
      var q2 := q1 / 64;
      assert v == q1 * 64 + v % 64;
      assert q1 == q2 * 64 + q1 % 64;
      assert q2 == (q2 / 64) * 64 + q2 % 64;
      assert ScalarValue(bs[0], ps[1..n]) == v;
    }
  }

  lemma {:induction false} DecodeStringPieces(s: string)
    ensures DecodePieces(StringPieces(s)) == Some(s)
    decreases |s|
  {
    if |s| > 0 {
      DecodeCharPieces(s[0], StringPieces(s[1..]));
      DecodeStringPieces(s[1..]);
      assert [s[0]] + s[1..] == s;
    }
  }

  /** Form decoding inverts `URLEncoder.encode`: no credential is altered or
      confused with another by the encoding. */
  lemma {:induction false} EncodeRoundTrip(s: string)
    ensures FormDecode(FormEncode(s)) == Some(s)
  {
    PiecesOfEncode(s);
    DecodeStringPieces(s);
  }

  /** Consequently the encoding is injective. */
  lemma EncodeInjective(s: string, t: string)
    requires FormEncode(s) == FormEncode(t)
    ensures s == t
  {
    EncodeRoundTrip(s);
    EncodeRoundTrip(t);
  }
}
