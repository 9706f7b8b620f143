/**
 * The ignition variant of RFC 2397 data URIs: `data:,` followed by a payload
 * percent-encoded as in section 2.1 of RFC 3986. File contents are strings
 * in which every character stands for one byte.
 */
module DataUri {
  import opened Errors

  const Scheme: string := "data:,"

  predicate IsByteString(s: string)
  {
    forall i :: 0 <= i < |s| ==> s[i] as int < 256
  }

  function HexValue(c: char): Option<nat>
  {
    if '0' <= c <= '9' then Some(c as nat - '0' as nat)
    else if 'a' <= c <= 'f' then Some(c as nat - 'a' as nat + 10)
    else if 'A' <= c <= 'F' then Some(c as nat - 'A' as nat + 10)
    else None
  }

  /** The upper-case hexadecimal digit RFC 3986 recommends for encoders. */
  function HexDigit(v: nat): (c: char)
    requires v < 16
    ensures HexValue(c) == Some(v)
  {
    if v < 10 then ('0' as int + v) as char else ('A' as int + v - 10) as char
  }

  /** The unreserved characters of section 2.3 of RFC 3986, which need no escape. */
  predicate IsUnreserved(c: char)
  {
    ('a' <= c <= 'z') || ('A' <= c <= 'Z') || ('0' <= c <= '9') || c == '-' || c == '.' || c == '_' || c == '~'
  }

  /**
   * The first unit of percent-encoded text and how many characters it spans:
   * `%` and two hexadecimal digits stand for one byte, any other character for itself.
   */
  function FirstUnit(s: string): (r: Option<(char, nat)>)
    requires s != []
    ensures r.Some? ==> 0 < r.value.1 <= |s|
  {
    if s[0] != '%' then Some((s[0], 1))
    else if |s| < 3 then None
    else
      match HexValue(s[1])
      case None => None
      case Some(hi) =>
        match HexValue(s[2])
        case None => None
        case Some(lo) => Some(((16 * hi + lo) as char, 3))
  }

  /** Percent-decoding; a `%` without two hexadecimal digits after it is an error. */
  function PercentDecode(s: string): (r: Result<string>)
    ensures r.Ok? ==> |r.value| <= |s|
    decreases |s|
  {
    if s == [] then Ok([])
    else if FirstUnit(s).None? then Err(InvalidEscape)
    else
      var unit := FirstUnit(s).value;
      var rest := PercentDecode(s[unit.1..]);
      if rest.Err? then rest else Ok([unit.0] + rest.value)
  }

  /** The escape of one byte: unreserved characters stay, all others become `%XY`. */
  function EncodeByte(c: char): string
    requires c as int < 256
  {
    if IsUnreserved(c) then [c] else ['%', HexDigit(c as nat / 16), HexDigit(c as nat % 16)]
  }

  function PercentEncode(b: string): string
    requires IsByteString(b)
  {
    if b == [] then [] else EncodeByte(b[0]) + PercentEncode(b[1..])
  }

  /** Decoding a data URI: the scheme prefix is required, the rest is percent-decoded. */
  function DecodeDataUri(u: string): (r: Result<string>)
    ensures !(Scheme <= u) ==> r == Err(NotADataUri)
    ensures r.Ok? ==> |r.value| <= |u| - |Scheme|
  {
    if Scheme <= u then PercentDecode(u[|Scheme|..]) else Err(NotADataUri)
  }

  function EncodeDataUri(b: string): string
    requires IsByteString(b)
  {
    Scheme + PercentEncode(b)
  }

  /** Decoding a byte's escape followed by more text decodes the byte and then the text. */
  lemma DecodeEncodedByte(c: char, rest: string)
    requires c as int < 256
    ensures PercentDecode(EncodeByte(c) + rest) ==
      match PercentDecode(rest) case Ok(r) => Ok([c] + r) case Err(e) => Err(e)
  {
    var s := EncodeByte(c) + rest;
    if IsUnreserved(c) {
      assert FirstUnit(s) == Some((c, 1));
      assert s[1..] == rest;
    } else {
      assert (16 * (c as nat / 16) + c as nat % 16) as char == c;
      assert FirstUnit(s) == Some((c, 3));
      assert s[3..] == rest;
    }
  }

  /** Percent-decoding inverts percent-encoding. */
  lemma {:induction false} DecodeEncode(b: string)
    requires IsByteString(b)
    ensures PercentDecode(PercentEncode(b)) == Ok(b)
  {
    if b != [] {
      DecodeEncode(b[1..]);
      DecodeEncodedByte(b[0], PercentEncode(b[1..]));
      assert b == [b[0]] + b[1..];
    }
  }

  /** Round trip for the whole data URI. */
  lemma DataUriRoundTrip(b: string)
    requires IsByteString(b)
    ensures DecodeDataUri(EncodeDataUri(b)) == Ok(b)
  {
    var u := EncodeDataUri(b);
    assert u[|Scheme|..] == PercentEncode(b);
    DecodeEncode(b);
  }

  /** Text without `%` decodes to itself. */
  lemma {:induction false} DecodePlain(s: string)
    requires '%' !in s
    ensures PercentDecode(s) == Ok(s)
  {
    if s != [] {
      DecodePlain(s[1..]);
      assert s == [s[0]] + s[1..];
    }
  }

  /** The first unit only depends on the characters it spans. */
  lemma FirstUnitOfAppend(a: string, b: string)
    requires a != [] && FirstUnit(a).Some?
    ensures FirstUnit(a + b) == FirstUnit(a)
  {
    var s := a + b;
    assert s[0] == a[0];
    if a[0] == '%' {
      assert s[1] == a[1] && s[2] == a[2];
    }
  }

  /** One step of decoding: the first unit, then the rest. */
  lemma DecodeStep(s: string, c: char, width: nat)
    requires s != [] && FirstUnit(s) == Some((c, width))
    ensures PercentDecode(s[width..]).Ok? ==> PercentDecode(s) == Ok([c] + PercentDecode(s[width..]).value)
    ensures PercentDecode(s[width..]).Err? ==> PercentDecode(s) == PercentDecode(s[width..])
  {
  }

  /** Decoding distributes over concatenation when the first part decodes on its own. */
  lemma DecodeAppend(a: string, b: string)
    requires PercentDecode(a).Ok?
    ensures PercentDecode(b).Ok? ==> PercentDecode(a + b) == Ok(PercentDecode(a).value + PercentDecode(b).value)
    ensures PercentDecode(b).Err? ==> PercentDecode(a + b) == PercentDecode(b)
  {
    if PercentDecode(b).Ok? {
      DecodeAppendOk(a, b);
    } else {
      DecodeAppendErr(a, b);
    }
  }

  lemma {:induction false} DecodeAppendOk(a: string, b: string)
    requires PercentDecode(a).Ok? && PercentDecode(b).Ok?
    ensures PercentDecode(a + b) == Ok(PercentDecode(a).value + PercentDecode(b).value)
    decreases |a|
  {
    if a == [] {
      assert a + b == b;
      assert [] + PercentDecode(b).value == PercentDecode(b).value;
    } else {
      var unit := FirstUnit(a).value;
      var c, width := unit.0, unit.1;
      var tail := a[width..];
      var x, y := PercentDecode(tail).value, PercentDecode(b).value;
      DecodeCons(a, c, width, tail, x);
      DecodeAppendOk(tail, b);
      AppendAfterFirstUnit(a, b, c, width);
      ConsAssoc(c, x, y);
      DecodeCons(a + b, c, width, tail + b, x + y);
    }
  }

  lemma ConsAssoc(c: char, x: string, y: string)
    ensures [c] + (x + y) == ([c] + x) + y
  {
  }

  /** The first unit of `a + b` is that of `a`, and `b` follows the rest of `a`. */
  lemma AppendAfterFirstUnit(a: string, b: string, c: char, width: nat)
    requires a != [] && FirstUnit(a) == Some((c, width))
    ensures FirstUnit(a + b) == Some((c, width)) && (a + b)[width..] == a[width..] + b
  {
    FirstUnitOfAppend(a, b);
  }

  /** Decoding text whose first unit stands for `c` and whose rest decodes to `r`. */
  lemma DecodeCons(s: string, c: char, width: nat, rest: string, r: string)
    requires s != [] && FirstUnit(s) == Some((c, width)) && s[width..] == rest && PercentDecode(rest) == Ok(r)
    ensures PercentDecode(s) == Ok([c] + r)
  {
  }

  lemma {:induction false} DecodeAppendErr(a: string, b: string)
    requires PercentDecode(a).Ok? && PercentDecode(b).Err?
    ensures PercentDecode(a + b) == PercentDecode(b)
    decreases |a|
  {
    if a == [] {
      assert a + b == b;
    } else {
      var unit := FirstUnit(a).value;
      var c, width := unit.0, unit.1;
      var tail := a[width..];
      assert FirstUnit(a + b) == Some((c, width)) && (a + b)[width..] == tail + b by {
        FirstUnitOfAppend(a, b);
      }
      DecodeAppendErr(tail, b);
      DecodeStep(a, c, width);
      DecodeStep(a + b, c, width);
    }
  }

  /**
   * A piece of a percent-encoded source such as the embedded certificate: a run
   * of text without `%`, or the upper-case escape `%XY` of one byte.
   */
  datatype Piece = Plain(text: string) | Escaped(byte: char)

  predicate WellFormedPiece(p: Piece)
  {
    match p
    case Plain(t) => '%' !in t
    case Escaped(c) => c as int < 256
  }

  predicate WellFormedPieces(ps: seq<Piece>)
  {
    forall k :: 0 <= k < |ps| ==> WellFormedPiece(ps[k])
  }

  function EscapeOf(c: char): string
    requires c as int < 256
  {
    ['%', HexDigit(c as nat / 16), HexDigit(c as nat % 16)]
  }

  /** How a piece is written in the source. */
  function PieceSource(p: Piece): string
    requires WellFormedPiece(p)
  {
    match p
    case Plain(t) => t
    case Escaped(c) => EscapeOf(c)
  }

  /** What a piece stands for once decoded. */
  function PieceText(p: Piece): string
  {
    match p
    case Plain(t) => t
    case Escaped(c) => [c]
  }

  function Source(ps: seq<Piece>): string
    requires WellFormedPieces(ps)
  {
    if ps == [] then [] else PieceSource(ps[0]) + Source(ps[1..])
  }

  function Text(ps: seq<Piece>): string
  {
    if ps == [] then [] else PieceText(ps[0]) + Text(ps[1..])
  }

  /** A single piece decodes to what it stands for. */
  lemma PieceDecodes(p: Piece)
    requires WellFormedPiece(p)
    ensures PercentDecode(PieceSource(p)) == Ok(PieceText(p))
  {
    match p
    case Plain(t) =>
      DecodePlain(t);
    case Escaped(c) =>
      var e := EscapeOf(c);
      assert (16 * (c as nat / 16) + c as nat % 16) as char == c;
      assert FirstUnit(e) == Some((c, 3));
      EscapeDecodes(e, c);
  }

  /** Any sequence of plain runs and escapes decodes piece by piece. */
  lemma {:induction false} PiecesDecode(ps: seq<Piece>)
    requires WellFormedPieces(ps)
    ensures PercentDecode(Source(ps)) == Ok(Text(ps))
    decreases |ps|
  {
    if ps != [] {
      PiecesDecode(ps[1..]);
      PieceDecodes(ps[0]);
      DecodeAppend(PieceSource(ps[0]), Source(ps[1..]));
    }
  }

  /**
   * A `data:,` URI made of plain runs and escapes, as the embedded
   * certificate is (`%20`, `%0A`, `%2B`, `%2F`, `%3D` between base64 text),
   * decodes to the runs with every escape replaced by its byte.
   */
  lemma CertificateEscapesDecode(ps: seq<Piece>)
    requires WellFormedPieces(ps)
    ensures DecodeDataUri(Scheme + Source(ps)) == Ok(Text(ps))
  {
    PiecesDecode(ps);
    var u := Scheme + Source(ps);
    assert u[|Scheme|..] == Source(ps);
  }

  lemma EscapeDecodes(e: string, c: char)
    requires |e| == 3 && FirstUnit(e) == Some((c, 3))
    ensures PercentDecode(e) == Ok([c])
  {
    assert e[3..] == [];
    assert PercentDecode(e[3..]) == Ok([]);
    assert [c] + [] == [c];
  }
}
