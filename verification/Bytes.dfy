/** Bytes, UTF-8 decoding, and the header lines both framing readers parse. */
module Bytes {
  import opened Wrappers
  import opened Text

  type byte = b: int | 0 <= b < 256

  const CR: byte := 13
  const LF: byte := 10

  predicate IsAscii(s: string) {
    forall i :: 0 <= i < |s| ==> s[i] < '\U{80}'
  }

  function AsciiBytes(s: string): (bytes: seq<byte>)
    requires IsAscii(s)
    ensures |bytes| == |s|
    ensures forall i :: 0 <= i < |s| ==> bytes[i] == s[i] as int
  {
    seq(|s|, i requires 0 <= i < |s| => s[i] as int)
  }

  predicate Continues(b: byte) {
    0x80 <= b < 0xC0
  }

  /** The first scalar value of a well-formed UTF-8 sequence and the bytes it takes. */
  function FirstScalar(b: seq<byte>): (r: Option<(char, nat)>)
    ensures r.Some? ==> 1 <= r.value.1 <= |b|
  {
    if |b| >= 1 && b[0] < 0x80 then Some((b[0] as char, 1))
    else if |b| >= 2 && 0xC2 <= b[0] < 0xE0 && Continues(b[1]) then
      var scalar: int := (b[0] as int - 0xC0) * 64 + (b[1] as int - 0x80);
      Some((scalar as char, 2))
    else if |b| >= 3 && 0xE0 <= b[0] < 0xF0 && Continues(b[1]) && Continues(b[2])
            && (b[0] == 0xE0 ==> b[1] >= 0xA0) && (b[0] == 0xED ==> b[1] < 0xA0) then
      var scalar: int := (b[0] as int - 0xE0) * 4096 + (b[1] as int - 0x80) * 64 + (b[2] as int - 0x80);
      Some((scalar as char, 3))
    else if |b| >= 4 && 0xF0 <= b[0] < 0xF5 && Continues(b[1]) && Continues(b[2]) && Continues(b[3])
            && (b[0] == 0xF0 ==> b[1] >= 0x90) && (b[0] == 0xF4 ==> b[1] < 0x90) then
      var scalar: int :=
        (b[0] as int - 0xF0) * 262144 + (b[1] as int - 0x80) * 4096 + (b[2] as int - 0x80) * 64 + (b[3] as int - 0x80);
      Some((scalar as char, 4))
    else None
  }

  /** `str::from_utf8` */
  function DecodeUtf8(b: seq<byte>): Option<string> {
    if b == [] then Some("")
    else
      match FirstScalar(b)
      case None => None
      case Some((c, width)) =>
        match DecodeUtf8(b[width..])
        case None => None
        case Some(rest) => Some([c] + rest)
  }

  lemma {:induction false} DecodeAscii(s: string)
    requires IsAscii(s)
    ensures DecodeUtf8(AsciiBytes(s)) == Some(s)
  {
    if s != [] {
      assert AsciiBytes(s)[1..] == AsciiBytes(s[1..]);
      DecodeAscii(s[1..]);
      assert [s[0]] + s[1..] == s;
    }
  }

  // ----- header lines ----------------------------------------------------------

  function StripCarriageReturn(line: string): string {
    if |line| > 0 && line[|line| - 1] == '\r' then line[..|line| - 1] else line
  }

  /** `str::lines` */
  function Lines(s: string): seq<string>
    decreases |s|
  {
    if s == [] then []
    else
      match SplitOnce(s, '\n')
      case None => [s]
      case Some((line, rest)) => [StripCarriageReturn(line)] + Lines(rest)
  }

  /** The byte count one header line announces, if it is a readable `Content-Length` line. */
  function AnnouncedLength(line: string): Option<nat> {
    match SplitOnce(line, ':')
    case None => None
    case Some((name, value)) =>
      if EqIgnoreCase(name, "content-length") then ParseUsize(Trim(value)) else None
  }

  const LENGTH_FIELD: string := "Content-Length"

  function LengthLine(n: nat): string {
    LENGTH_FIELD + ": " + PrintNat(n)
  }

  lemma LengthLineIsPlain(n: nat)
    ensures IsAscii(LengthLine(n)) && '\n' !in LengthLine(n) && '\r' !in LengthLine(n)
  {
  }

  lemma LengthFieldMatches()
    ensures EqIgnoreCase(LENGTH_FIELD, "content-length")
  {
    forall i | 0 <= i < |LENGTH_FIELD|
      ensures LowerChar(LENGTH_FIELD[i]) == LowerChar("content-length"[i])
    {
    }
  }

  lemma AnnouncedByLengthLine(n: nat)
    requires n <= USIZE_MAX
    ensures AnnouncedLength(LengthLine(n)) == Some(n)
  {
    var digits := PrintNat(n);
    assert LengthLine(n) == LENGTH_FIELD + [':'] + (" " + digits);
    SplitOnceJoined(LENGTH_FIELD, ':', " " + digits);
    LengthFieldMatches();
    assert (" " + digits)[1..] == digits;
    assert !IsWhitespace(digits[0]) && !IsWhitespace(digits[|digits| - 1]);
    assert TrimStart(" " + digits) == digits;
    TrimFixed(digits);
    ParsePrintedNat(n);
  }
}
