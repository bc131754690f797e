/**
 The editor bridge's own framing: a line-based header reader over a blocking
 stream, and a writer that prints the same frames as `LspFraming`.
*/
module EditorFraming {
  import opened Wrappers
  import opened Text
  import opened Bytes
  import LspFraming

  const FRAME_LIMIT: nat := 1024 * 1024
  const HEADER_LIMIT: nat := 4096

  datatype EditorError =
    | NotUtf8 | HeaderTooLong | BadContentLength | FrameTooLong | NoContentLength | Truncated | ResponseTooLong

  function WriteMessage(body: seq<byte>): Result<seq<byte>, EditorError> {
    if |body| > FRAME_LIMIT then Err(ResponseTooLong) else Ok(LspFraming.Frame(body))
  }

  /** Length of the first line including its line feed, or of everything left. */
  function LineLength(stream: seq<byte>): (n: nat)
    ensures n <= |stream| && (stream != [] ==> n > 0)
    ensures forall i :: 0 <= i < n - 1 ==> stream[i] != LF
    ensures n < |stream| ==> n > 0 && stream[n - 1] == LF
  {
    if stream == [] then 0
    else if stream[0] == LF then 1
    else 1 + LineLength(stream[1..])
  }

  datatype Read =
    | EndOfInput
    | Message(body: seq<byte>, rest: seq<byte>)
    | Failed(error: EditorError)

  /** The length announced once a header line is read: by this line, or as before. */
  function AnnouncedAfter(line: string, length: Option<nat>): Result<Option<nat>, EditorError> {
    match SplitOnce(line, ':')
    case None => Ok(length)
    case Some((name, value)) =>
      if !EqIgnoreCase(name, "content-length") then Ok(length)
      else
        var parsed := ParseUsize(Trim(value));
        if parsed.None? then Err(BadContentLength)
        else if parsed.value > FRAME_LIMIT then Err(FrameTooLong)
        else Ok(parsed)
  }

  /** The header loop from one of its iterations on, then the body. */
  function ReadFrom(stream: seq<byte>, length: Option<nat>, headerBytes: nat): Read
    decreases |stream|
  {
    var n := LineLength(stream);
    var text := DecodeUtf8(stream[..n]);
    if text.None? then Failed(NotUtf8)
    else if n == 0 then EndOfInput
    else if headerBytes + n > HEADER_LIMIT then Failed(HeaderTooLong)
    else if text.value == "\r\n" || text.value == "\n" then
      if length.None? then Failed(NoContentLength)
      else if |stream| - n < length.value then Failed(Truncated)
      else Message(stream[n..n + length.value], stream[n + length.value..])
    else
      match AnnouncedAfter(text.value, length)
      case Err(error) => Failed(error)
      case Ok(announced) => ReadFrom(stream[n..], announced, headerBytes + n)
  }

  function Read1(stream: seq<byte>): Read {
    ReadFrom(stream, None, 0)
  }

  method ReadMessage(stream: seq<byte>) returns (r: Read)
    ensures r == Read1(stream)
  {
    var left, headerBytes := stream, 0;
    var length: Option<nat> := None;
    while true
      invariant ReadFrom(left, length, headerBytes) == Read1(stream)
      decreases |left|
    {
      var n := LineLength(left);
      var line := DecodeUtf8(left[..n]);
      if line.None? {
        return Failed(NotUtf8);
      }
      if n == 0 {
        return EndOfInput;
      }
      if headerBytes + n > HEADER_LIMIT {
        return Failed(HeaderTooLong);
      }
      if line.value == "\r\n" || line.value == "\n" {
        if length.None? {
          return Failed(NoContentLength);
        }
        if |left| - n < length.value {
          return Failed(Truncated);
        }
        return Message(left[n..n + length.value], left[n + length.value..]);
      }
      var announced := AnnouncedAfter(line.value, length);
      if announced.Err? {
        return Failed(announced.error);
      }
      length := announced.value;
      left, headerBytes := left[n..], headerBytes + n;
    }
  }

  // ----- round trip -----------------------------------------------------------------

  lemma {:induction false} FirstLine(line: string, tail: seq<byte>)
    requires IsAscii(line) && '\n' !in line
    ensures LineLength(AsciiBytes(line + "\n") + tail) == |line| + 1
    decreases |line|
  {
    var stream := AsciiBytes(line + "\n") + tail;
    if line != [] {
      assert stream[1..] == AsciiBytes(line[1..] + "\n") + tail;
      FirstLine(line[1..], tail);
    }
  }

  /** One header line ending in CR LF is read as itself. */
  lemma LineIsRead(line: string, tail: seq<byte>)
    requires IsAscii(line) && '\n' !in line
    ensures
      var stream := AsciiBytes(line + "\r\n") + tail;
      && LineLength(stream) == |line| + 2
      && DecodeUtf8(stream[..|line| + 2]) == Some(line + "\r\n")
      && stream[|line| + 2..] == tail
  {
    var stream := AsciiBytes(line + "\r\n") + tail;
    assert line + "\r\n" == (line + "\r") + "\n";
    FirstLine(line + "\r", tail);
    assert stream[..|line| + 2] == AsciiBytes(line + "\r\n");
    DecodeAscii(line + "\r\n");
  }

  lemma LengthLineParses(n: nat)
    requires n <= FRAME_LIMIT
    ensures AnnouncedAfter(LengthLine(n) + "\r\n", None) == Ok(Some(n))
  {
    var digits := PrintNat(n);
    assert LengthLine(n) + "\r\n" == LENGTH_FIELD + [':'] + (" " + digits + "\r\n");
    SplitOnceJoined(LENGTH_FIELD, ':', " " + digits + "\r\n");
    LengthFieldMatches();
    TrimPadded(digits);
    ParsePrintedNat(n);
  }

  lemma TrimPadded(digits: string)
    requires digits != [] && Trimmed(digits)
    ensures Trim(" " + digits + "\r\n") == digits
  {
    var padded := " " + digits + "\r\n";
    assert padded[1..] == digits + "\r\n";
    assert TrimStart(padded) == padded[1..];
    assert (digits + "\r\n")[..|digits| + 1] == digits + "\r" && (digits + "\r")[..|digits|] == digits;
    assert TrimEnd(digits + "\r\n") == TrimEnd(digits + "\r") == TrimEnd(digits);
    TrimFixed(digits);
  }

  /** The reader takes exactly one written message off the front of any stream. */
  lemma ReadsWrittenMessage(body: seq<byte>, rest: seq<byte>)
    requires |body| <= FRAME_LIMIT
    ensures WriteMessage(body) == Ok(LspFraming.Frame(body))
    ensures Read1(LspFraming.Frame(body) + rest) == Message(body, rest)
  {
    var n := |body|;
    LspFraming.FrameLength(body);
    var blank := AsciiBytes("" + "\r\n") + (body + rest);
    var stream := LspFraming.Frame(body) + rest;
    assert stream == AsciiBytes(LengthLine(n) + "\r\n") + blank;
    ReadsHeader(n, stream, blank);
    LineIsRead("", body + rest);
    ReadsBlankLine(blank, n, |LengthLine(n)| + 2, body, rest);
  }

  lemma ReadsHeader(n: nat, stream: seq<byte>, blank: seq<byte>)
    requires n <= FRAME_LIMIT && |LengthLine(n)| <= 25
    requires IsAscii(LengthLine(n) + "\r\n") && stream == AsciiBytes(LengthLine(n) + "\r\n") + blank
    ensures Read1(stream) == ReadFrom(blank, Some(n), |LengthLine(n)| + 2)
  {
    LengthLineIsPlain(n);
    LineIsRead(LengthLine(n), blank);
    LengthLineParses(n);
    ReadsHeaderLine(stream, LengthLine(n) + "\r\n", n, blank);
  }

  lemma ReadsHeaderLine(stream: seq<byte>, line: string, length: nat, blank: seq<byte>)
    requires 2 < |line| <= 27 && LineLength(stream) == |line|
    requires DecodeUtf8(stream[..|line|]) == Some(line) && stream[|line|..] == blank
    requires AnnouncedAfter(line, None) == Ok(Some(length))
    ensures Read1(stream) == ReadFrom(blank, Some(length), |line|)
  {
  }

  lemma ReadsBlankLine(blank: seq<byte>, length: nat, headerBytes: nat, body: seq<byte>, rest: seq<byte>)
    requires LineLength(blank) == 2 && DecodeUtf8(blank[..2]) == Some("\r\n") && blank[2..] == body + rest
    requires |body| == length && headerBytes <= 27
    ensures ReadFrom(blank, Some(length), headerBytes) == Message(body, rest)
  {
    assert blank[2..2 + length] == blank[2..][..length];
    assert blank[2 + length..] == blank[2..][length..];
  }

  /** Every message of a stream, with how the stream ended. */
  function ReadAll(stream: seq<byte>): (seq<seq<byte>>, Read)
    decreases |stream|
  {
    var first := Read1(stream);
    if first.Message? && |first.rest| < |stream| then
      var (later, end) := ReadAll(first.rest);
      ([first.body] + later, end)
    else ([], first)
  }

  lemma {:induction false} ReadsAllWritten(bodies: seq<seq<byte>>)
    requires LspFraming.Sendable(bodies)
    ensures ReadAll(LspFraming.Frames(bodies)) == (bodies, EndOfInput)
  {
    if bodies == [] {
      assert LspFraming.Frames(bodies) == [];
    } else {
      var frame, later := LspFraming.Frame(bodies[0]), LspFraming.Frames(bodies[1..]);
      ReadsWrittenMessage(bodies[0], later);
      ReadsAllWritten(bodies[1..]);
      assert |later| < |frame + later|;
      assert [bodies[0]] + bodies[1..] == bodies;
    }
  }

  /**
   The blocking reader and the incremental decoder recover the same messages
   from the same frames, whatever chunks the decoder is given.
  */
  lemma ReadersAgree(bodies: seq<seq<byte>>, chunks: seq<seq<byte>>)
    requires LspFraming.Sendable(bodies) && LspFraming.Concat(chunks) == LspFraming.Frames(bodies)
    requires forall i :: 0 <= i < |chunks| ==> |chunks[i]| <= LspFraming.SAFE_CHUNK
    ensures ReadAll(LspFraming.Concat(chunks)) == (bodies, EndOfInput)
    ensures LspFraming.Feed([], chunks) == LspFraming.Reading(bodies, [])
  {
    ReadsAllWritten(bodies);
    LspFraming.ChunkIndependence(bodies, chunks);
  }
}
