/** UUIDs as sixteen octets and their text form, section 4 of RFC 9562. */
module Uuid {
  import opened Basics

  type byte = x: int | 0 <= x < 256

  type Uuid = u: seq<byte> | |u| == 16 witness [0, 0, 0, 0, 0, 0, 0, 0, 0, 0, 0, 0, 0, 0, 0, 0]

  /** The UUID with all bits zero. */
  const NIL: Uuid := [0, 0, 0, 0, 0, 0, 0, 0, 0, 0, 0, 0, 0, 0, 0, 0]

  const LOWER := "0123456789abcdef"
  const TEXT_LENGTH := 36

  function DigitChar(n: nat): char
    requires n < 16
  {
    LOWER[n]
  }

  /** Hexadecimal digits are read without regard to case. */
  function DigitValue(c: char): (v: Option<nat>)
    ensures v.Some? ==> v.value < 16
  {
    if '0' <= c <= '9' then Some(c as int - '0' as int)
    else if 'a' <= c <= 'f' then Some(c as int - 'a' as int + 10)
    else if 'A' <= c <= 'F' then Some(c as int - 'A' as int + 10)
    else None
  }

  predicate IsLowerDigit(c: char) {
    '0' <= c <= '9' || 'a' <= c <= 'f'
  }

  /** Where the two digits of octet `i` start in the text form. */
  function Offset(i: nat): nat
    requires i < 16
  {
    if i < 4 then 2 * i else if i < 6 then 2 * i + 1 else if i < 8 then 2 * i + 2
    else if i < 10 then 2 * i + 3 else 2 * i + 4
  }

  function HexText(b: seq<byte>): (s: string)
    ensures |s| == 2 * |b|
  {
    if b == [] then "" else [DigitChar(b[0] / 16), DigitChar(b[0] % 16)] + HexText(b[1..])
  }

  /** The canonical text of a UUID: lower-case digits of 4, 2, 2, 2 and 6 octets, joined by hyphens. */
  function Format(u: Uuid): (s: string)
    ensures |s| == TEXT_LENGTH
  {
    HexText(u[0..4]) + "-" + HexText(u[4..6]) + "-" + HexText(u[6..8])
    + "-" + HexText(u[8..10]) + "-" + HexText(u[10..16])
  }

  predicate Hyphenated(s: string) {
    |s| == TEXT_LENGTH && s[8] == '-' && s[13] == '-' && s[18] == '-' && s[23] == '-'
  }

  predicate WellFormed(s: string) {
    && Hyphenated(s)
    && forall i :: 0 <= i < 16 ==> DigitValue(s[Offset(i)]).Some? && DigitValue(s[Offset(i) + 1]).Some?
  }

  /** The text a fresh UUID is printed as. */
  predicate IsCanonical(s: string) {
    && Hyphenated(s)
    && forall i :: 0 <= i < 16 ==> IsLowerDigit(s[Offset(i)]) && IsLowerDigit(s[Offset(i) + 1])
  }

  function OctetAt(s: string, i: nat): byte
    requires WellFormed(s) && i < 16
  {
    DigitValue(s[Offset(i)]).value * 16 + DigitValue(s[Offset(i) + 1]).value
  }

  function Octets(s: string, n: nat): (r: seq<byte>)
    requires WellFormed(s) && n <= 16
    ensures |r| == n
    ensures forall i :: 0 <= i < n ==> r[i] == OctetAt(s, i)
  {
    if n == 0 then [] else Octets(s, n - 1) + [OctetAt(s, n - 1)]
  }

  /** Reads the text form; anything else is an error. */
  function Parse(s: string): Option<Uuid> {
    if WellFormed(s) then Some(Octets(s, 16)) else None
  }

  lemma DigitRoundTrip(n: nat)
    requires n < 16
    ensures DigitValue(DigitChar(n)) == Some(n) && IsLowerDigit(DigitChar(n))
  {
  }

  lemma {:induction false} HexTextAt(b: seq<byte>, i: nat)
    requires i < |b|
    ensures HexText(b)[2 * i] == DigitChar(b[i] / 16)
    ensures HexText(b)[2 * i + 1] == DigitChar(b[i] % 16)
  {
    if i > 0 {
      HexTextAt(b[1..], i - 1);
    }
  }

  lemma JoinedAt(a: string, b: string, c: string, d: string, e: string, p: nat)
    requires |a| == 8 && |b| == |c| == |d| == 4 && |e| == 12 && p < TEXT_LENGTH
    ensures var s := a + "-" + b + "-" + c + "-" + d + "-" + e;
            s[p] == if p < 8 then a[p] else if 8 < p < 13 then b[p - 9] else if 13 < p < 18 then c[p - 14]
                    else if 18 < p < 23 then d[p - 19] else if 23 < p then e[p - 24] else '-'
  {
  }

  lemma FormatChar(u: Uuid, p: nat)
    requires p < TEXT_LENGTH
    ensures Format(u)[p] ==
            if p < 8 then HexText(u[0..4])[p] else if 8 < p < 13 then HexText(u[4..6])[p - 9]
            else if 13 < p < 18 then HexText(u[6..8])[p - 14] else if 18 < p < 23 then HexText(u[8..10])[p - 19]
            else if 23 < p then HexText(u[10..16])[p - 24] else '-'
  {
    JoinedAt(HexText(u[0..4]), HexText(u[4..6]), HexText(u[6..8]), HexText(u[8..10]), HexText(u[10..16]), p);
  }

  lemma FormatHyphens(u: Uuid)
    ensures Hyphenated(Format(u))
  {
    FormatChar(u, 8);
    FormatChar(u, 13);
    FormatChar(u, 18);
    FormatChar(u, 23);
  }

  lemma FormatAt(u: Uuid, i: nat)
    requires i < 16
    ensures Format(u)[Offset(i)] == DigitChar(u[i] / 16)
    ensures Format(u)[Offset(i) + 1] == DigitChar(u[i] % 16)
  {
    hide Format, DigitChar, HexText;
    FormatChar(u, Offset(i));
    FormatChar(u, Offset(i) + 1);
    if i < 4 { SliceDigits(u, 0, 4, i); }
    else if i < 6 { SliceDigits(u, 4, 6, i); }
    else if i < 8 { SliceDigits(u, 6, 8, i); }
    else if i < 10 { SliceDigits(u, 8, 10, i); }
    else { SliceDigits(u, 10, 16, i); }
  }

  /** The digits of an octet in the text of the part of the UUID that it is in. */
  lemma SliceDigits(u: Uuid, start: nat, end: nat, i: nat)
    requires start <= i < end <= 16
    ensures HexText(u[start..end])[2 * (i - start)] == DigitChar(u[i] / 16)
    ensures HexText(u[start..end])[2 * (i - start) + 1] == DigitChar(u[i] % 16)
  {
    hide DigitChar, HexText;
    HexTextAt(u[start..end], i - start);
  }

  lemma FormatIsCanonical(u: Uuid)
    ensures IsCanonical(Format(u)) && WellFormed(Format(u))
    ensures forall i :: 0 <= i < 16 ==> OctetAt(Format(u), i) == u[i]
  {
    var s := Format(u);
    FormatHyphens(u);
    forall i | 0 <= i < 16
      ensures IsLowerDigit(s[Offset(i)]) && IsLowerDigit(s[Offset(i) + 1])
      ensures DigitValue(s[Offset(i)]) == Some(u[i] / 16) && DigitValue(s[Offset(i) + 1]) == Some(u[i] % 16)
    {
      FormatAt(u, i);
      DigitRoundTrip(u[i] / 16);
      DigitRoundTrip(u[i] % 16);
    }
  }

  /** Printing and reading back is the identity on UUIDs. */
  lemma ParseFormat(u: Uuid)
    ensures Parse(Format(u)) == Some(u)
  {
    FormatIsCanonical(u);
    assert Octets(Format(u), 16) == u;
  }

  lemma LowerDigitRoundTrip(c: char)
    requires IsLowerDigit(c)
    ensures DigitValue(c).Some? && DigitChar(DigitValue(c).value) == c
  {
  }

  /** Every position of the text form is a hyphen or a digit of some octet. */
  lemma PositionCases(p: nat) returns (i: nat)
    requires p < TEXT_LENGTH
    ensures p in {8, 13, 18, 23} || (i < 16 && (p == Offset(i) || p == Offset(i) + 1))
  {
    var h := if p <= 8 then p else if p <= 13 then p - 1 else if p <= 18 then p - 2
             else if p <= 23 then p - 3 else p - 4;
    i := h / 2;
  }

  lemma CanonicalIsWellFormed(s: string)
    requires IsCanonical(s)
    ensures WellFormed(s)
  {
    forall j | 0 <= j < 16
      ensures DigitValue(s[Offset(j)]).Some? && DigitValue(s[Offset(j) + 1]).Some?
    {
      LowerDigitRoundTrip(s[Offset(j)]);
      LowerDigitRoundTrip(s[Offset(j) + 1]);
    }
  }

  lemma NibblesOf(high: nat, low: nat)
    requires low < 16
    ensures (high * 16 + low) / 16 == high && (high * 16 + low) % 16 == low
  {
  }

  lemma DigitsRoundTrip(high: char, low: char)
    requires IsLowerDigit(high) && IsLowerDigit(low)
    ensures DigitValue(high).Some? && DigitValue(low).Some?
    ensures var octet := DigitValue(high).value * 16 + DigitValue(low).value;
            octet < 256 && DigitChar(octet / 16) == high && DigitChar(octet % 16) == low
  {
    LowerDigitRoundTrip(high);
    LowerDigitRoundTrip(low);
    NibblesOf(DigitValue(high).value, DigitValue(low).value);
  }

  lemma CanonicalOctet(s: string, i: nat)
    requires IsCanonical(s) && WellFormed(s) && i < 16
    ensures DigitChar(OctetAt(s, i) / 16) == s[Offset(i)] && DigitChar(OctetAt(s, i) % 16) == s[Offset(i) + 1]
  {
    hide DigitValue, DigitChar, IsLowerDigit;
    DigitsRoundTrip(s[Offset(i)], s[Offset(i) + 1]);
  }

  lemma ParseOctets(s: string)
    requires IsCanonical(s)
    ensures WellFormed(s) && Parse(s) == Some(Octets(s, 16))
    ensures forall i :: 0 <= i < 16 ==> Octets(s, 16)[i] == OctetAt(s, i)
  {
    CanonicalIsWellFormed(s);
  }

  lemma CanonicalChar(s: string, p: nat)
    requires IsCanonical(s) && WellFormed(s) && p < TEXT_LENGTH
    ensures Format(Octets(s, 16))[p] == s[p]
  {
    hide DigitChar, DigitValue, IsLowerDigit, Format, OctetAt;
    var i := PositionCases(p);
    if p in {8, 13, 18, 23} {
      FormatHyphens(Octets(s, 16));
    } else {
      CanonicalOctet(s, i);
      FormatAt(Octets(s, 16), i);
    }
  }

  lemma CanonicalFixpoint(s: string)
    requires IsCanonical(s)
    ensures Parse(s).Some? && Format(Parse(s).value) == s
  {
    ParseOctets(s);
    LengthOf(s);
    hide IsCanonical, WellFormed, Format, Parse, Octets;
    forall p | 0 <= p < TEXT_LENGTH ensures Format(Octets(s, 16))[p] == s[p] {
      CanonicalChar(s, p);
    }
  }

  lemma LengthOf(s: string)
    requires IsCanonical(s)
    ensures |s| == TEXT_LENGTH
  {
  }

  const EXAMPLE_TEXT := "01122334-4556-6778-899a-abbccddeeff0"
  const EXAMPLE: Uuid :=
    [0x01, 0x12, 0x23, 0x34, 0x45, 0x56, 0x67, 0x78, 0x89, 0x9a, 0xab, 0xbc, 0xcd, 0xde, 0xef, 0xf0]

  lemma ExampleDigits(i: nat)
    requires i < 16
    ensures EXAMPLE_TEXT[Offset(i)] == DigitChar(EXAMPLE[i] / 16)
    ensures EXAMPLE_TEXT[Offset(i) + 1] == DigitChar(EXAMPLE[i] % 16)
  {
    assert EXAMPLE[i] / 16 == i && EXAMPLE[i] % 16 == (i + 1) % 16;
    if i < 6 { ExampleStart(i); } else if i < 11 { ExampleMiddle(i); } else { ExampleEnd(i); }
  }

  lemma ExampleStart(i: nat)
    requires i < 6
    ensures EXAMPLE_TEXT[Offset(i)] == LOWER[i] && EXAMPLE_TEXT[Offset(i) + 1] == LOWER[i + 1]
  {
  }

  lemma ExampleMiddle(i: nat)
    requires 6 <= i < 11
    ensures EXAMPLE_TEXT[Offset(i)] == LOWER[i] && EXAMPLE_TEXT[Offset(i) + 1] == LOWER[i + 1]
  {
  }

  lemma ExampleEnd(i: nat)
    requires 11 <= i < 16
    ensures EXAMPLE_TEXT[Offset(i)] == LOWER[i] && EXAMPLE_TEXT[Offset(i) + 1] == LOWER[(i + 1) % 16]
  {
  }

  lemma SameText(s: string, t: string)
    requires Hyphenated(s) && Hyphenated(t)
    requires forall i :: 0 <= i < 16 ==> s[Offset(i)] == t[Offset(i)] && s[Offset(i) + 1] == t[Offset(i) + 1]
    ensures s == t
  {
    forall p | 0 <= p < TEXT_LENGTH ensures s[p] == t[p] {
      var i := PositionCases(p);
    }
  }

  ghost predicate Digits(u: Uuid, text: string, i: nat)
    requires i < 16 && |text| == TEXT_LENGTH
  {
    text[Offset(i)] == DigitChar(u[i] / 16) && text[Offset(i) + 1] == DigitChar(u[i] % 16)
  }

  /** A text with the hyphens in their places and the digits of each octet is the text of the UUID. */
  lemma FormatByDigits(u: Uuid, text: string)
    requires Hyphenated(text) && forall i :: 0 <= i < 16 ==> Digits(u, text, i)
    ensures Format(u) == text
  {
    FormatHyphens(u);
    hide Format, DigitChar;
    forall i | 0 <= i < 16
      ensures Format(u)[Offset(i)] == text[Offset(i)] && Format(u)[Offset(i) + 1] == text[Offset(i) + 1]
    {
      FormatAt(u, i);
      assert Digits(u, text, i);
    }
    SameText(Format(u), text);
  }

  lemma ExampleHyphens()
    ensures Hyphenated(EXAMPLE_TEXT)
  {
  }

  /** The text form by example: octets in their order, the high digit first. */
  lemma FormatExample()
    ensures Format(EXAMPLE) == EXAMPLE_TEXT
  {
    ExampleHyphens();
    hide Format, DigitChar, Hyphenated, Offset;
    forall i | 0 <= i < 16 ensures Digits(EXAMPLE, EXAMPLE_TEXT, i) {
      ExampleDigits(i);
    }
    FormatByDigits(EXAMPLE, EXAMPLE_TEXT);
  }

  /** Reading and printing is the identity exactly on canonical text. */
  lemma FormatParse(s: string)
    ensures IsCanonical(s) <==> Parse(s).Some? && Format(Parse(s).value) == s
  {
    if IsCanonical(s) {
      CanonicalFixpoint(s);
    }
    if Parse(s).Some? && Format(Parse(s).value) == s {
      FormatIsCanonical(Parse(s).value);
    }
  }
}

/** The header that carries a client ID and a message type through a multi-client server. */
module FrameCodec {
  import opened Basics
  import opened Uuid

  datatype MessageType = Text | Binary

  const MARKER_TEXT: byte := 1
  const MARKER_BINARY: byte := 2
  const HEADER_SIZE := 17

  datatype Parsed = Parsed(clientId: string, msgType: MessageType, payload: seq<byte>)

  /** An unreadable client ID is written as the nil UUID, since the error is ignored. */
  function HeaderUuid(clientId: string): Uuid {
    match Parse(clientId)
    case Some(u) => u
    case None => NIL
  }

  function Wrap(clientId: string, msgType: MessageType, data: seq<byte>): seq<byte> {
    [if msgType == Text then MARKER_TEXT else MARKER_BINARY] + HeaderUuid(clientId) + data
  }

  function ParseHeader(data: seq<byte>): Option<Parsed> {
    if |data| < HEADER_SIZE then None
    else if data[0] != MARKER_TEXT && data[0] != MARKER_BINARY then None
    else
      var uid: Uuid := data[1..HEADER_SIZE];
      Some(Parsed(Format(uid), if data[0] == MARKER_TEXT then Text else Binary, data[HEADER_SIZE..]))
  }

  /** Fills the frame in place: marker, sixteen octets, payload. */
  method WrapMultiClientFrame(clientId: string, msgType: MessageType, data: array<byte>) returns (wrapped: array<byte>)
    ensures fresh(wrapped)
    ensures wrapped[..] == Wrap(clientId, msgType, data[..])
  {
    var clientUuid := HeaderUuid(clientId);
    wrapped := new byte[HEADER_SIZE + data.Length];
    if msgType == Text {
      wrapped[0] := MARKER_TEXT;
    } else {
      wrapped[0] := MARKER_BINARY;
    }
    for i := 0 to 16
      invariant wrapped[0] == if msgType == Text then MARKER_TEXT else MARKER_BINARY
      invariant forall j :: 0 <= j < i ==> wrapped[1 + j] == clientUuid[j]
    {
      wrapped[1 + i] := clientUuid[i];
    }
    for i := 0 to data.Length
      invariant wrapped[0] == if msgType == Text then MARKER_TEXT else MARKER_BINARY
      invariant forall j :: 0 <= j < 16 ==> wrapped[1 + j] == clientUuid[j]
      invariant forall j :: 0 <= j < i ==> wrapped[HEADER_SIZE + j] == data[j]
    {
      wrapped[HEADER_SIZE + i] := data[i];
    }
  }

  /** A header is recognised iff the frame is long enough and starts with a marker. */
  method ParseMultiClientHeader(data: array<byte>)
    returns (clientId: string, msgType: MessageType, payload: seq<byte>, ok: bool)
    ensures ok <==> data.Length >= HEADER_SIZE && data[0] in {MARKER_TEXT, MARKER_BINARY}
    ensures ok ==> ParseHeader(data[..]) == Some(Parsed(clientId, msgType, payload))
    ensures !ok ==> ParseHeader(data[..]) == None && clientId == "" && payload == []
  {
    clientId, msgType, payload, ok := "", Text, [], false;
    if data.Length < HEADER_SIZE {
      return;
    }
    var marker := data[0];
    if marker != MARKER_TEXT && marker != MARKER_BINARY {
      return;
    }
    assert data[1..HEADER_SIZE] == data[..][1..HEADER_SIZE];
    assert data[HEADER_SIZE..] == data[..][HEADER_SIZE..];
    clientId := Format(data[1..HEADER_SIZE]);
    msgType := if marker == MARKER_TEXT then Text else Binary;
    payload := data[HEADER_SIZE..];
    ok := true;
  }

  lemma WrapParts(clientId: string, msgType: MessageType, data: seq<byte>)
    ensures var w := Wrap(clientId, msgType, data);
            ParseHeader(w) == Some(Parsed(Format(HeaderUuid(clientId)), msgType, data))
  {
    hide Format, HeaderUuid;
    JoinSplit(Wrap(clientId, msgType, [])[0], HeaderUuid(clientId), data);
  }

  lemma JoinSplit(marker: byte, u: Uuid, data: seq<byte>)
    ensures var w := [marker] + u + data;
            |w| >= HEADER_SIZE && w[0] == marker && w[1..HEADER_SIZE] == u && w[HEADER_SIZE..] == data
  {
  }

  /** Unwrapping always returns type and payload, and returns the client ID
      exactly when that ID was canonical text. */
  lemma ParseWrap(clientId: string, msgType: MessageType, data: seq<byte>)
    ensures var r := ParseHeader(Wrap(clientId, msgType, data));
            && r.Some? && r.value.msgType == msgType && r.value.payload == data
            && (r.value.clientId == clientId <==> IsCanonical(clientId))
  {
    WrapParts(clientId, msgType, data);
    FormatParse(clientId);
    FormatIsCanonical(HeaderUuid(clientId));
  }

  lemma HeaderUuidFormat(u: Uuid)
    ensures HeaderUuid(Format(u)) == u && IsCanonical(Format(u))
  {
    ParseFormat(u);
    FormatIsCanonical(u);
  }

  lemma FrameParts(data: seq<byte>)
    requires |data| >= HEADER_SIZE
    ensures [data[0]] + data[1..HEADER_SIZE] + data[HEADER_SIZE..] == data
  {
  }

  /** Wrapping again what was unwrapped rebuilds the frame byte for byte. */
  lemma WrapParse(data: seq<byte>)
    ensures match ParseHeader(data)
            case Some(h) => IsCanonical(h.clientId) && Wrap(h.clientId, h.msgType, h.payload) == data
            case None => |data| < HEADER_SIZE || data[0] !in {MARKER_TEXT, MARKER_BINARY}
  {
    if ParseHeader(data).Some? {
      HeaderUuidFormat(data[1..HEADER_SIZE]);
      FrameParts(data);
    }
  }

  /** What goes over the wire: one octet for the type, the client ID in sixteen, and the payload. */
  lemma WrapLayout(clientId: string, msgType: MessageType, data: seq<byte>)
    requires IsCanonical(clientId)
    ensures var w := Wrap(clientId, msgType, data);
            && |w| == 17 + |data| && w[0] == (if msgType == Text then 1 else 2)
            && Format(w[1..17]) == clientId && w[17..] == data
  {
    FormatParse(clientId);
    JoinSplit(Wrap(clientId, msgType, [])[0], HeaderUuid(clientId), data);
  }

  /** Two frames wrap to the same bytes only if they are the same frame. */
  lemma WrapInjective(id1: string, t1: MessageType, d1: seq<byte>, id2: string, t2: MessageType, d2: seq<byte>)
    requires IsCanonical(id1) && IsCanonical(id2)
    requires Wrap(id1, t1, d1) == Wrap(id2, t2, d2)
    ensures id1 == id2 && t1 == t2 && d1 == d2
  {
    ParseWrap(id1, t1, d1);
    ParseWrap(id2, t2, d2);
  }
}
