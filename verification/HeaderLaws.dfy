/**
 What the two framing readers make of any header block, told by the positions of its lines.
 A header is a list of non-empty lines, each ended by CR LF, and then an empty one.
*/
module HeaderLaws {
  import opened Wrappers
  import opened Text
  import opened Bytes
  import opened Utf8
  import L = LspFraming
  import E = EditorFraming

  // ----- header lines -----------------------------------------------------------------

  /** A non-empty line without a line break. */
  predicate Plain(line: string) {
    line != "" && '\r' !in line && '\n' !in line
  }

  predicate AllPlain(lines: seq<string>) {
    forall i :: 0 <= i < |lines| ==> Plain(lines[i])
  }

  /** `Content-Length` with each letter in either case. */
  predicate LengthName(name: string) {
    |name| == 14 && forall k :: 0 <= k < 14 ==> name[k] == "content-length"[k] || name[k] == "CONTENT-LENGTH"[k]
  }

  ghost predicate Field(line: string, name: string, value: string) {
    line == name + ":" + value && ':' !in name
  }

  predicate Spelling(value: string, before: string, sign: string, digits: string, after: string, n: nat) {
    && value == before + (sign + digits) + after
    && Blank(before) && Blank(after) && sign in {"", "+"} && Digits(digits, n)
  }

  /** Digits with white space around them and at most one plus sign before, for a number that fits. */
  ghost predicate Number(value: string, n: nat) {
    exists before, sign, digits, after :: Spelling(value, before, sign, digits, after, n)
  }

  predicate Digits(digits: string, n: nat) {
    digits != "" && AllDigits(digits) && DigitsValue(digits) == n <= USIZE_MAX
  }

  ghost predicate IsLengthField(line: string) {
    exists name, value :: Field(line, name, value) && LengthName(name)
  }

  ghost predicate Announces(line: string, n: nat) {
    exists name, value :: Field(line, name, value) && LengthName(name) && Number(value, n)
  }

  // ----- one line ----------------------------------------------------------------------

  lemma NameMatches(name: string)
    ensures EqIgnoreCase(name, "content-length") <==> LengthName(name)
  {
    var wanted := "content-length";
    if LengthName(name) {
      assert forall k :: 0 <= k < 14 ==> LowerChar(name[k]) == LowerChar(wanted[k]);
      assert Lower(name) == Lower(wanted);
    }
    if Lower(name) == Lower(wanted) {
      forall k | 0 <= k < 14 ensures name[k] == wanted[k] || name[k] == "CONTENT-LENGTH"[k] {
        assert Lower(name)[k] == Lower(wanted)[k];
        assert LowerChar(name[k]) == LowerChar(wanted[k]);
      }
    }
  }

  lemma FieldIsSplit(line: string, name: string, value: string)
    ensures Field(line, name, value) <==> SplitOnce(line, ':') == Some((name, value))
  {
    if Field(line, name, value) {
      SplitOnceJoined(name, ':', value);
    }
  }

  lemma DigitsAreTrimmed(sign: string, digits: string)
    requires sign in {"", "+"} && digits != "" && AllDigits(digits)
    ensures Trimmed(sign + digits)
  {
    var core := sign + digits;
    assert core[|core| - 1] == digits[|digits| - 1];
    assert core[0] == '+' || core[0] == digits[0];
  }

  lemma ReadsNumber(value: string, n: nat)
    requires Number(value, n)
    ensures ParseUsize(Trim(value)) == Some(n)
  {
    var before, sign, digits, after :| Spelling(value, before, sign, digits, after, n);
    DigitsAreTrimmed(sign, digits);
    TrimAround(before, sign + digits, after);
    if sign == "" {
      assert sign + digits == digits && IsDigit(digits[0]);
    } else {
      assert (sign + digits)[1..] == digits;
    }
  }

  /** A parsed text is a sign, or none, and the digits. */
  lemma SignAndDigits(core: string, n: nat) returns (sign: string, digits: string)
    requires ParseUsize(core) == Some(n)
    ensures core == sign + digits && sign in {"", "+"} && Digits(digits, n)
  {
    if core[0] == '+' {
      sign, digits := "+", core[1..];
    } else {
      sign, digits := "", core;
    }
  }

  lemma NumberRead(value: string, n: nat)
    requires ParseUsize(Trim(value)) == Some(n)
    ensures Number(value, n)
  {
    var i, j := TrimCut(value);
    var sign, digits := SignAndDigits(Trim(value), n);
    Rejoin(value, i, j);
    assert Spelling(value, value[..i], sign, digits, value[j..], n);
  }

  lemma Rejoin(s: string, i: nat, j: nat)
    requires i <= j <= |s|
    ensures s == s[..i] + s[i..j] + s[j..]
  {
  }

  lemma NumberIff(value: string, n: nat)
    ensures ParseUsize(Trim(value)) == Some(n) <==> Number(value, n)
  {
    if Number(value, n) {
      ReadsNumber(value, n);
    }
    if ParseUsize(Trim(value)) == Some(n) {
      NumberRead(value, n);
    }
  }

  /** The decoder reads a length from a line exactly if the line is a length field with that number. */
  lemma AnnouncedIff(line: string, n: nat)
    ensures AnnouncedLength(line) == Some(n) <==> Announces(line, n)
  {
    if AnnouncedLength(line) == Some(n) {
      var (name, value) := SplitOnce(line, ':').value;
      FieldIsSplit(line, name, value);
      NameMatches(name);
      NumberIff(value, n);
    }
    if Announces(line, n) {
      var name, value :| Field(line, name, value) && LengthName(name) && Number(value, n);
      FieldIsSplit(line, name, value);
      NameMatches(name);
      NumberIff(value, n);
    }
  }

  // ----- the header block -------------------------------------------------------------------

  function Joined(lines: seq<string>): string {
    if lines == [] then "" else if |lines| == 1 then lines[0] else lines[0] + "\r\n" + Joined(lines[1..])
  }

  /** The header of the decoder: the lines, CR LF between them, and a blank line. */
  function Header(lines: seq<string>): seq<byte> {
    Encode(Joined(lines)) + L.BLANK_LINE
  }

  lemma {:induction false} LinesOfJoined(lines: seq<string>)
    requires AllPlain(lines)
    ensures Lines(Joined(lines)) == lines
  {
    if |lines| == 1 {
      assert SplitOnce(lines[0], '\n').None?;
    } else if |lines| > 1 {
      var first := lines[0] + "\r";
      assert Joined(lines) == first + ['\n'] + Joined(lines[1..]);
      SplitOnceJoined(first, '\n', Joined(lines[1..]));
      LinesOfJoined(lines[1..]);
      assert StripCarriageReturn(first) == lines[0];
    }
  }

  lemma LineHasNoBreak(line: string)
    requires Plain(line)
    ensures CR !in Encode(line) && LF !in Encode(line) && Encode(line) != []
  {
    AsciiByteIsChar(line, '\r');
    AsciiByteIsChar(line, '\n');
  }

  lemma EncodeJoined(lines: seq<string>)
    requires |lines| > 1
    ensures Encode(Joined(lines)) == Encode(lines[0]) + [CR, LF] + Encode(Joined(lines[1..]))
  {
    EncodeAppend(lines[0] + "\r\n", Joined(lines[1..]));
    EncodeAppend(lines[0], "\r\n");
    AsciiEncodes("\r\n");
    assert AsciiBytes("\r\n") == [CR, LF];
  }

  lemma JoinedStart(lines: seq<string>)
    requires AllPlain(lines) && lines != []
    ensures Encode(Joined(lines)) != [] && Encode(Joined(lines))[0] != CR
  {
    LineHasNoBreak(lines[0]);
    if |lines| > 1 {
      EncodeJoined(lines);
    }
  }

  lemma BlankLineBytes(bytes: seq<byte>, i: nat)
    ensures L.BlankLineAt(bytes, i) ==> i + 4 <= |bytes| && bytes[i] == CR && bytes[i + 2] == CR
  {
    if L.BlankLineAt(bytes, i) {
      assert bytes[i..i + 4][0] == bytes[i] && bytes[i..i + 4][2] == bytes[i + 2];
    }
  }

  /** A line and its CR LF hold no blank line, wherever the next one starts. */
  lemma NoBlankInLine(line: seq<byte>, later: seq<byte>, i: nat)
    requires CR !in line && later != [] && later[0] != CR && i < |line| + 2
    ensures !L.BlankLineAt(line + [CR, LF] + later, i)
  {
    var bytes := line + [CR, LF] + later;
    BlankLineBytes(bytes, i);
    assert i < |line| ==> bytes[i] == line[i];
    assert bytes[|line| + 1] == LF && bytes[|line| + 2] == later[0];
  }

  lemma NoBlankInLastLine(line: seq<byte>, later: seq<byte>, i: nat)
    requires CR !in line && i < |line|
    ensures !L.BlankLineAt(line + later, i)
  {
    BlankLineBytes(line + later, i);
    assert (line + later)[i] == line[i];
  }

  lemma BlankLineBehind(front: seq<byte>, later: seq<byte>, i: nat)
    requires |front| <= i
    ensures L.BlankLineAt(front + later, i) == L.BlankLineAt(later, i - |front|)
  {
    if i + 4 <= |front + later| {
      assert (front + later)[i..i + 4] == later[i - |front|..i - |front| + 4];
    }
  }

  lemma {:induction false} NoBlankBefore(lines: seq<string>, tail: seq<byte>, i: nat)
    requires AllPlain(lines) && i < |Encode(Joined(lines))|
    ensures !L.BlankLineAt(Encode(Joined(lines)) + tail, i)
    decreases |lines|
  {
    LineHasNoBreak(lines[0]);
    if |lines| == 1 {
      NoBlankInLastLine(Encode(lines[0]), tail, i);
    } else {
      var line, later := Encode(lines[0]), Encode(Joined(lines[1..]));
      EncodeJoined(lines);
      JoinedStart(lines[1..]);
      assert Encode(Joined(lines)) + tail == line + [CR, LF] + (later + tail);
      if i < |line| + 2 {
        NoBlankInLine(line, later + tail, i);
      } else {
        NoBlankBefore(lines[1..], tail, i - |line| - 2);
        BlankLineBehind(line + [CR, LF], later + tail, i);
      }
    }
  }

  lemma HeaderEnd(lines: seq<string>, tail: seq<byte>)
    requires AllPlain(lines)
    ensures L.FindBlankLine(Header(lines) + tail, 0) == Some(|Encode(Joined(lines))|)
  {
    var front := Encode(Joined(lines));
    var bytes := Header(lines) + tail;
    assert bytes == front + (L.BLANK_LINE + tail);
    BlankLineBehind(front, L.BLANK_LINE + tail, |front|);
    assert (L.BLANK_LINE + tail)[0..4] == L.BLANK_LINE;
    forall i: nat | i < |front| ensures !L.BlankLineAt(bytes, i) {
      NoBlankBefore(lines, L.BLANK_LINE + tail, i);
    }
  }

  /** All there is to a pop with a whole header in the buffer: the first length the lines announce. */
  lemma PopHeader(lines: seq<string>, tail: seq<byte>)
    requires AllPlain(lines)
    ensures L.Pop(Header(lines) + tail) == AfterHeader(L.ContentLength(lines), tail)
  {
    var front := Encode(Joined(lines));
    var bytes := Header(lines) + tail;
    HeaderEnd(lines, tail);
    assert bytes[..|front|] == front;
    DecodesIff(front, Joined(lines));
    LinesOfJoined(lines);
    assert bytes[|front| + 4..] == tail;
    BodyBehind(bytes, |front| + 4, L.ContentLength(lines), tail);
  }

  function AfterHeader(length: Option<nat>, tail: seq<byte>): L.Popped {
    match length
    case None => L.Malformed(L.NoContentLength)
    case Some(n) =>
      if n > L.FRAME_LIMIT then L.Malformed(L.IncomingTooLong)
      else if |tail| < n then L.NeedMore
      else L.Body(tail[..n], tail[n..])
  }

  lemma BodyBehind(bytes: seq<byte>, at: nat, length: Option<nat>, tail: seq<byte>)
    requires at <= |bytes| && bytes[at..] == tail
    ensures L.PopBody(bytes, at, length) == AfterHeader(length, tail)
  {
    if length.Some? && length.value <= |tail| {
      CutBehind(bytes, at, tail, length.value);
    }
  }

  lemma CutBehind(bytes: seq<byte>, at: nat, tail: seq<byte>, n: nat)
    requires at <= |bytes| && bytes[at..] == tail && n <= |tail|
    ensures bytes[at..at + n] == tail[..n] && bytes[at + n..] == tail[n..]
  {
  }

  lemma {:induction false} FirstLength(lines: seq<string>, i: nat, n: nat)
    requires i < |lines| && Announces(lines[i], n)
    requires forall j, m: nat :: 0 <= j < i ==> !Announces(lines[j], m)
    ensures L.ContentLength(lines) == Some(n)
  {
    if i == 0 {
      AnnouncedIff(lines[0], n);
    } else {
      if AnnouncedLength(lines[0]).Some? {
        AnnouncedIff(lines[0], AnnouncedLength(lines[0]).value);
        assert false;
      }
      FirstLength(lines[1..], i - 1, n);
    }
  }

  lemma {:induction false} LengthFound(lines: seq<string>)
    requires L.ContentLength(lines).Some?
    ensures exists i :: 0 <= i < |lines| && Announces(lines[i], L.ContentLength(lines).value)
  {
    if AnnouncedLength(lines[0]).Some? {
      AnnouncedIff(lines[0], AnnouncedLength(lines[0]).value);
    } else {
      LengthFound(lines[1..]);
      var i :| 0 <= i < |lines[1..]| && Announces(lines[1..][i], L.ContentLength(lines).value);
      assert Announces(lines[i + 1], L.ContentLength(lines).value);
    }
  }

  lemma {:induction false} LengthMissed(lines: seq<string>, i: nat, n: nat)
    requires i < |lines| && Announces(lines[i], n)
    ensures L.ContentLength(lines).Some?
  {
    if i == 0 {
      AnnouncedIff(lines[0], n);
    } else {
      LengthMissed(lines[1..], i - 1, n);
    }
  }

  /** The first line that announces a length decides, wherever it stands and however its name is written. */
  lemma FirstLengthDecides(lines: seq<string>, i: nat, n: nat, tail: seq<byte>)
    requires AllPlain(lines) && i < |lines| && Announces(lines[i], n)
    requires forall j, m: nat :: 0 <= j < i ==> !Announces(lines[j], m)
    ensures n > 1_048_576 ==> L.Pop(Header(lines) + tail) == L.Malformed(L.IncomingTooLong)
    ensures |tail| < n <= 1_048_576 ==> L.Pop(Header(lines) + tail) == L.NeedMore
    ensures forall body, rest :: tail == body + rest && |body| == n <= 1_048_576 ==>
      L.Pop(Header(lines) + tail) == L.Body(body, rest)
  {
    PopHeader(lines, tail);
    FirstLength(lines, i, n);
  }

  /** Without such a line there is no message, and only then. */
  lemma NoLengthIff(lines: seq<string>, tail: seq<byte>)
    requires AllPlain(lines)
    ensures L.Pop(Header(lines) + tail) == L.Malformed(L.NoContentLength) <==>
      forall i, n: nat :: 0 <= i < |lines| ==> !Announces(lines[i], n)
  {
    PopHeader(lines, tail);
    if L.ContentLength(lines).Some? {
      LengthFound(lines);
    }
    if i, n: nat :| 0 <= i < |lines| && Announces(lines[i], n) {
      LengthMissed(lines, i, n);
    }
  }

  /** Bytes without a blank line wait until they are more than 8 KiB; bytes before one that are not UTF-8 are refused. */
  lemma HeaderRefusals(bytes: seq<byte>)
    ensures (forall i :: !L.BlankLineAt(bytes, i)) ==>
      L.Pop(bytes) == if |bytes| > 8192 then L.Malformed(L.HeaderTooLong) else L.NeedMore
    ensures L.Pop(bytes) == L.Malformed(L.HeaderNotUtf8) <==>
      exists i: nat :: L.BlankLineAt(bytes, i) && (forall j: nat :: j < i ==> !L.BlankLineAt(bytes, j)) && !IsEncoding(bytes[..i])
  {
    match L.FindBlankLine(bytes, 0)
    case None =>
    case Some(i) =>
      assert L.BlankLineAt(bytes, i);
      EncodingIff(bytes[..i]);
  }

  ghost predicate IsEncoding(bytes: seq<byte>) {
    exists s :: bytes == Encode(s)
  }

  lemma EncodingIff(bytes: seq<byte>)
    ensures DecodeUtf8(bytes).Some? <==> IsEncoding(bytes)
  {
    if DecodeUtf8(bytes).Some? {
      DecodesIff(bytes, DecodeUtf8(bytes).value);
    }
    if s :| bytes == Encode(s) {
      DecodesIff(bytes, s);
    }
  }

  // ----- the editor's reader -------------------------------------------------------------------

  /** The lines as the editor's reader takes them: each with its CR LF. */
  function Block(lines: seq<string>): seq<byte> {
    if lines == [] then [] else Encode(lines[0]) + [CR, LF] + Block(lines[1..])
  }

  /** Both readers are given the same bytes. */
  lemma {:induction false} BlockIsHeader(lines: seq<string>)
    requires lines != []
    ensures Block(lines) + [CR, LF] == Header(lines)
  {
    if |lines| == 1 {
      assert Block(lines[1..]) == [];
    } else {
      var line, block, joined := Encode(lines[0]), Block(lines[1..]), Encode(Joined(lines[1..]));
      BlockIsHeader(lines[1..]);
      EncodeJoined(lines);
      BlockCons(lines, []);
      Regroup(line, block, joined);
    }
  }

  lemma Regroup(line: seq<byte>, block: seq<byte>, joined: seq<byte>)
    requires block + [CR, LF] == joined + L.BLANK_LINE
    ensures line + [CR, LF] + block + [CR, LF] == line + [CR, LF] + joined + L.BLANK_LINE
  {
    assert line + [CR, LF] + block + [CR, LF] == (line + [CR, LF]) + (block + [CR, LF]);
  }

  lemma TrimmedEnding(value: string)
    ensures Trim(value + "\r\n") == Trim(value)
  {
    var i, j := TrimCut(value);
    if i < j {
      Rejoin(value, i, j);
      assert value + "\r\n" == value[..i] + value[i..j] + (value[j..] + "\r\n");
      TrimAround(value[..i], value[i..j], value[j..] + "\r\n");
    } else {
      TrimEmptyIffBlank(value);
      TrimEmptyIffBlank(value + "\r\n");
    }
  }

  /** What one line does to the length read so far. */
  lemma LineEffect(line: string, length: Option<nat>)
    requires Plain(line)
    ensures !IsLengthField(line) ==> E.AnnouncedAfter(line + "\r\n", length) == Ok(length)
    ensures IsLengthField(line) && (forall n: nat :: !Announces(line, n)) ==>
      E.AnnouncedAfter(line + "\r\n", length) == Err(E.BadContentLength)
    ensures forall n: nat :: Announces(line, n) ==>
      E.AnnouncedAfter(line + "\r\n", length) == if n <= E.FRAME_LIMIT then Ok(Some(n)) else Err(E.FrameTooLong)
  {
    match SplitOnce(line, ':')
    case None => NoField(line);
    case Some((name, value)) =>
      FieldIsSplit(line, name, value);
      assert line + "\r\n" == name + ":" + (value + "\r\n");
      FieldIsSplit(line + "\r\n", name, value + "\r\n");
      NameMatches(name);
      TrimmedEnding(value);
      OneField(line, name, value);
      forall n: nat | Announces(line, n) ensures ParseUsize(Trim(value)) == Some(n) {
        NumberIff(value, n);
      }
      if ParseUsize(Trim(value)).Some? {
        NumberIff(value, ParseUsize(Trim(value)).value);
      }
  }

  lemma NoField(line: string)
    requires ':' !in line
    ensures !IsLengthField(line) && ':' !in line + "\r\n"
    ensures forall n: nat :: !Announces(line, n)
  {
    forall name, value ensures !Field(line, name, value) {
      FieldIsSplit(line, name, value);
    }
  }

  lemma OneField(line: string, name: string, value: string)
    requires Field(line, name, value)
    ensures IsLengthField(line) <==> LengthName(name)
    ensures forall n: nat :: Announces(line, n) <==> LengthName(name) && Number(value, n)
  {
    forall name', value' | Field(line, name', value') ensures name' == name && value' == value {
      FieldIsSplit(line, name, value);
      FieldIsSplit(line, name', value');
    }
  }

  lemma {:induction false} LineEndsAtLf(front: seq<byte>, later: seq<byte>)
    requires LF !in front
    ensures E.LineLength(front + [LF] + later) == |front| + 1
  {
    var stream := front + [LF] + later;
    if front != [] {
      assert stream[1..] == front[1..] + [LF] + later;
      LineEndsAtLf(front[1..], later);
    }
  }

  /** One turn of the header loop. */
  lemma TakesLine(line: string, later: seq<byte>, length: Option<nat>, read: nat)
    requires Plain(line)
    ensures
      var n := |Encode(line)| + 2;
      E.ReadFrom(Encode(line) + [CR, LF] + later, length, read) ==
      if read + n > 4096 then E.Failed(E.HeaderTooLong)
      else
        match E.AnnouncedAfter(line + "\r\n", length)
        case Err(error) => E.Failed(error)
        case Ok(announced) => E.ReadFrom(later, announced, read + n)
  {
    var stream := Encode(line) + [CR, LF] + later;
    var n := |Encode(line)| + 2;
    LineHasNoBreak(line);
    assert stream == (Encode(line) + [CR]) + [LF] + later;
    LineEndsAtLf(Encode(line) + [CR], later);
    EncodeAppend(line, "\r\n");
    AsciiEncodes("\r\n");
    assert stream[..n] == Encode(line + "\r\n");
    DecodesIff(stream[..n], line + "\r\n");
    assert stream[n..] == later;
    assert (line + "\r\n")[0] == line[0];
  }

  /** After the blank line: the body, if a length is known and that much is there. */
  function Ended(length: Option<nat>, tail: seq<byte>): E.Read {
    if length.None? then E.Failed(E.NoContentLength)
    else if |tail| < length.value then E.Failed(E.Truncated)
    else E.Message(tail[..length.value], tail[length.value..])
  }

  lemma TakesBlankLine(tail: seq<byte>, length: Option<nat>, read: nat)
    ensures
      E.ReadFrom([CR, LF] + tail, length, read) ==
      if read + 2 > 4096 then E.Failed(E.HeaderTooLong) else Ended(length, tail)
  {
    var stream := [CR, LF] + tail;
    LineEndsAtLf([CR], tail);
    assert stream == [CR] + [LF] + tail && stream[..2] == AsciiBytes("\r\n") && stream[2..] == tail;
    DecodeAscii("\r\n");
    if length.Some? && length.value <= |tail| {
      CutBehind(stream, 2, tail, length.value);
    }
  }

  /** What the reader makes of a whole header, if no line is at fault. */
  function Outcome(lines: seq<string>, read: nat, length: Option<nat>, tail: seq<byte>): E.Read {
    if read + |Block(lines)| + 2 > 4096 then E.Failed(E.HeaderTooLong) else Ended(length, tail)
  }

  lemma BlockCons(lines: seq<string>, tail: seq<byte>)
    requires lines != []
    ensures Block(lines) + [CR, LF] + tail == Encode(lines[0]) + [CR, LF] + (Block(lines[1..]) + [CR, LF] + tail)
  {
  }

  lemma {:induction false} ReadsOn(lines: seq<string>, tail: seq<byte>, length: Option<nat>, read: nat)
    requires AllPlain(lines) && forall j :: 0 <= j < |lines| ==> !IsLengthField(lines[j])
    ensures E.ReadFrom(Block(lines) + [CR, LF] + tail, length, read) == Outcome(lines, read, length, tail)
    decreases |lines|
  {
    if lines == [] {
      assert Block(lines) + [CR, LF] + tail == [CR, LF] + tail;
      TakesBlankLine(tail, length, read);
    } else {
      BlockCons(lines, tail);
      TakesLine(lines[0], Block(lines[1..]) + [CR, LF] + tail, length, read);
      LineEffect(lines[0], length);
      ReadsOn(lines[1..], tail, length, read + |Encode(lines[0])| + 2);
    }
  }

  /** Neither unreadable nor too much: a length field announces at most 1 MiB. */
  ghost predicate Sound(line: string) {
    IsLengthField(line) ==> exists n: nat :: n <= 1_048_576 && Announces(line, n)
  }

  /** One turn over a sound line. */
  lemma TakesSoundLine(lines: seq<string>, tail: seq<byte>, length: Option<nat>, read: nat) returns (next: Option<nat>)
    requires lines != [] && Plain(lines[0]) && Sound(lines[0])
    ensures
      var read' := read + |Encode(lines[0])| + 2;
      E.ReadFrom(Block(lines) + [CR, LF] + tail, length, read) ==
      if read' > 4096 then E.Failed(E.HeaderTooLong)
      else E.ReadFrom(Block(lines[1..]) + [CR, LF] + tail, next, read')
    ensures forall n: nat :: Announces(lines[0], n) ==> next == Some(n)
  {
    BlockCons(lines, tail);
    TakesLine(lines[0], Block(lines[1..]) + [CR, LF] + tail, length, read);
    LineEffect(lines[0], length);
    next := E.AnnouncedAfter(lines[0] + "\r\n", length).value;
  }

  /** The last length field decides, if those before it are sound. */
  lemma {:induction false} LastLength(
      lines: seq<string>, i: nat, n: nat, tail: seq<byte>, length: Option<nat>, read: nat)
    requires AllPlain(lines) && i < |lines| && Announces(lines[i], n) && n <= 1_048_576
    requires forall j :: 0 <= j < i ==> Sound(lines[j])
    requires forall j :: i < j < |lines| ==> !IsLengthField(lines[j])
    ensures E.ReadFrom(Block(lines) + [CR, LF] + tail, length, read) == Outcome(lines, read, Some(n), tail)
    decreases |lines|
  {
    assert Sound(lines[0]);
    var read' := read + |Encode(lines[0])| + 2;
    var next := TakesSoundLine(lines, tail, length, read);
    if i == 0 {
      ReadsOn(lines[1..], tail, Some(n), read');
    } else {
      LastLength(lines[1..], i - 1, n, tail, next, read');
    }
  }

  /** The editor's reader goes by the last length field where the decoder goes by the first. */
  lemma LastLengthDecides(lines: seq<string>, i: nat, n: nat, tail: seq<byte>)
    requires AllPlain(lines) && |Header(lines)| <= 4096
    requires i < |lines| && Announces(lines[i], n) && n <= 1_048_576
    requires forall j :: 0 <= j < i ==> Sound(lines[j])
    requires forall j :: i < j < |lines| ==> !IsLengthField(lines[j])
    ensures |tail| < n ==> E.Read1(Header(lines) + tail) == E.Failed(E.Truncated)
    ensures forall body, rest :: tail == body + rest && |body| == n ==>
      E.Read1(Header(lines) + tail) == E.Message(body, rest)
  {
    BlockIsHeader(lines);
    LastLength(lines, i, n, tail, None, 0);
  }

  /** Two length fields that differ: the two readers take different messages from the same bytes. */
  lemma ReadersDiffer(m: nat, n: nat, tail: seq<byte>)
    requires m < n <= 1_048_576 && |tail| >= n
    ensures
      var stream := Header([LengthLine(m), LengthLine(n)]) + tail;
      L.Pop(stream) == L.Body(tail[..m], tail[m..]) && E.Read1(stream) == E.Message(tail[..n], tail[n..])
  {
    var lines := [LengthLine(m), LengthLine(n)];
    LengthLineAnnounces(m);
    LengthLineAnnounces(n);
    ShortHeader(m, n);
    TwoLengths(lines, m, n, tail);
  }

  lemma TwoLengths(lines: seq<string>, m: nat, n: nat, tail: seq<byte>)
    requires |lines| == 2 && AllPlain(lines) && |Header(lines)| <= 4096
    requires Announces(lines[0], m) && Announces(lines[1], n) && m < n <= 1_048_576 && |tail| >= n
    ensures L.Pop(Header(lines) + tail) == L.Body(tail[..m], tail[m..])
    ensures E.Read1(Header(lines) + tail) == E.Message(tail[..n], tail[n..])
  {
    FirstLengthTaken(lines, m, tail);
    assert Sound(lines[0]);
    LastLengthTaken(lines, n, tail);
  }

  lemma FirstLengthTaken(lines: seq<string>, m: nat, tail: seq<byte>)
    requires lines != [] && AllPlain(lines) && Announces(lines[0], m) && m <= 1_048_576 && |tail| >= m
    ensures L.Pop(Header(lines) + tail) == L.Body(tail[..m], tail[m..])
  {
    assert tail == tail[..m] + tail[m..];
    FirstLengthDecides(lines, 0, m, tail);
  }

  lemma LastLengthTaken(lines: seq<string>, n: nat, tail: seq<byte>)
    requires |lines| == 2 && AllPlain(lines) && |Header(lines)| <= 4096
    requires Sound(lines[0]) && Announces(lines[1], n) && n <= 1_048_576 && |tail| >= n
    ensures E.Read1(Header(lines) + tail) == E.Message(tail[..n], tail[n..])
  {
    assert tail == tail[..n] + tail[n..];
    LastLengthDecides(lines, 1, n, tail);
  }

  lemma LengthLineAnnounces(n: nat)
    requires n <= USIZE_MAX
    ensures Plain(LengthLine(n)) && Announces(LengthLine(n), n)
  {
    LengthLineIsPlain(n);
    AnnouncedByLengthLine(n);
    AnnouncedIff(LengthLine(n), n);
  }

  lemma ShortHeader(m: nat, n: nat)
    requires m <= 1_048_576 && n <= 1_048_576
    ensures |Header([LengthLine(m), LengthLine(n)])| <= 4096
  {
    var lines := [LengthLine(m), LengthLine(n)];
    assert Pow10(7) == 10_000_000 by {
      assert Pow10(4) == 10_000;
    }
    PrintNatLength(m, 7);
    PrintNatLength(n, 7);
    AsciiEncodes(LengthLine(m));
    AsciiEncodes(LengthLine(n));
    EncodeJoined(lines);
    assert Joined(lines[1..]) == LengthLine(n);
  }

  /** What is wrong with a length field that is not sound: no number, or too great a one. */
  ghost function Fault(line: string): E.EditorError {
    if forall n: nat :: !Announces(line, n) then E.BadContentLength else E.FrameTooLong
  }

  lemma TakesFaultyLine(line: string, later: seq<byte>, length: Option<nat>, read: nat)
    requires Plain(line) && !Sound(line)
    ensures
      E.ReadFrom(Encode(line) + [CR, LF] + later, length, read) == E.Failed(
        if read + |Encode(line)| + 2 > 4096 then E.HeaderTooLong
        else Fault(line))
  {
    TakesLine(line, later, length, read);
    LineEffect(line, length);
  }

  lemma BlockOfFirst(lines: seq<string>, i: nat)
    requires i < |lines|
    ensures |Block(lines[..i + 1])| == |Encode(lines[0])| + 2 + |Block(lines[1..][..i])|
  {
    assert lines[..i + 1][1..] == lines[1..][..i];
  }

  /** The first line at fault ends the reading, if the header is not too long up to there. */
  lemma {:induction false} FaultyLength(
      lines: seq<string>, i: nat, tail: seq<byte>, length: Option<nat>, read: nat)
    requires AllPlain(lines) && i < |lines| && !Sound(lines[i])
    requires forall j :: 0 <= j < i ==> Sound(lines[j])
    ensures
      E.ReadFrom(Block(lines) + [CR, LF] + tail, length, read) ==
      if read + |Block(lines[..i + 1])| > 4096 then E.Failed(E.HeaderTooLong) else E.Failed(Fault(lines[i]))
    decreases |lines|, 1
  {
    if i > 0 {
      FaultyLater(lines, i, tail, length, read);
    } else {
      BlockOfFirst(lines, 0);
      assert Block(lines[1..][..0]) == [];
      FaultyFirst(lines, tail, length, read);
    }
  }

  lemma {:induction false} FaultyLater(
      lines: seq<string>, i: nat, tail: seq<byte>, length: Option<nat>, read: nat)
    requires AllPlain(lines) && 0 < i < |lines| && !Sound(lines[i])
    requires forall j :: 0 <= j < i ==> Sound(lines[j])
    ensures
      E.ReadFrom(Block(lines) + [CR, LF] + tail, length, read) ==
      if read + |Block(lines[..i + 1])| > 4096 then E.Failed(E.HeaderTooLong) else E.Failed(Fault(lines[i]))
    decreases |lines|, 0
  {
    var rest, read' := lines[1..], read + |Encode(lines[0])| + 2;
    var next := TakesSoundLine(lines, tail, length, read);
    FaultyLength(rest, i - 1, tail, next, read');
    BlockOfFirst(lines, i);
  }

  lemma FaultyFirst(lines: seq<string>, tail: seq<byte>, length: Option<nat>, read: nat)
    requires lines != [] && Plain(lines[0]) && !Sound(lines[0])
    ensures
      E.ReadFrom(Block(lines) + [CR, LF] + tail, length, read) == E.Failed(
        if read + |Encode(lines[0])| + 2 > 4096 then E.HeaderTooLong
        else Fault(lines[0]))
  {
    BlockCons(lines, tail);
    TakesFaultyLine(lines[0], Block(lines[1..]) + [CR, LF] + tail, length, read);
  }

  /** Both writers make the frame of any body up to 1 MiB and refuse a longer one. */
  lemma WritersRefuse<V>(encode: V -> seq<byte>, value: V)
    ensures
      var body := encode(value);
      && E.WriteMessage(body) == (if |body| <= 1_048_576 then Ok(L.Frame(body)) else Err(E.ResponseTooLong))
      && L.Send(encode, value) == (if |body| <= 1_048_576 then Ok(L.Frame(body)) else Err(L.OutgoingTooLong))
      && L.Frame(body) == Header([LengthLine(|body|)]) + body
  {
    var n := |encode(value)|;
    LengthLineIsPlain(n);
    AsciiEncodes(LengthLine(n));
    assert AsciiBytes(L.HeaderText(n)) == AsciiBytes(LengthLine(n)) + L.BLANK_LINE;
  }
}
