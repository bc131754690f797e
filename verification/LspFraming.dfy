/**
 Language Server Protocol framing (LSP 3.17, Base Protocol, "Header Part" and
 "Content Part"): the writer, the incremental decoder over its byte buffer, and
 the reader loop that pops until it needs more input and then pushes one chunk.
*/
module LspFraming {
  import opened Wrappers
  import opened Text
  import opened Bytes

  const FRAME_LIMIT: nat := 1024 * 1024
  const HEADER_LIMIT: nat := 8 * 1024
  const BUFFER_LIMIT: nat := FRAME_LIMIT + HEADER_LIMIT

  const BLANK_LINE: seq<byte> := [CR, LF, CR, LF]

  // ----- writing -----------------------------------------------------------------

  function HeaderText(n: nat): (s: string)
    ensures IsAscii(s)
  {
    LengthLineIsPlain(n);
    LengthLine(n) + "\r\n\r\n"
  }

  function Frame(body: seq<byte>): seq<byte> {
    AsciiBytes(HeaderText(|body|)) + body
  }

  datatype ProtocolError =
    | OutgoingTooLong | BufferFull | HeaderTooLong | HeaderNotUtf8 | NoContentLength | IncomingTooLong
    | NotJson | DeadlinePassed | StreamClosed | StreamFailed

  // ----- one pop -------------------------------------------------------------------

  predicate BlankLineAt(bytes: seq<byte>, i: int) {
    0 <= i <= |bytes| - 4 && bytes[i..i + 4] == BLANK_LINE
  }

  /** Position of the first blank line at or after `from`. */
  function FindBlankLine(bytes: seq<byte>, from: nat): (r: Option<nat>)
    requires from <= |bytes|
    ensures r.Some? ==> from <= r.value && BlankLineAt(bytes, r.value)
    ensures r.Some? ==> forall i :: from <= i < r.value ==> !BlankLineAt(bytes, i)
    ensures r.None? ==> forall i :: from <= i ==> !BlankLineAt(bytes, i)
    decreases |bytes| - from
  {
    if from + 4 > |bytes| then None
    else if BlankLineAt(bytes, from) then Some(from)
    else FindBlankLine(bytes, from + 1)
  }

  /** The first readable `Content-Length` line of a header block. */
  function ContentLength(lines: seq<string>): Option<nat> {
    if lines == [] then None
    else if AnnouncedLength(lines[0]).Some? then AnnouncedLength(lines[0])
    else ContentLength(lines[1..])
  }

  datatype Popped = NeedMore | Body(body: seq<byte>, rest: seq<byte>) | Malformed(error: ProtocolError)

  function Pop(bytes: seq<byte>): (r: Popped)
    ensures r.Body? ==> |r.rest| < |bytes| && |r.body| <= FRAME_LIMIT
  {
    match FindBlankLine(bytes, 0)
    case None => if |bytes| > HEADER_LIMIT then Malformed(HeaderTooLong) else NeedMore
    case Some(headerEnd) =>
      match DecodeUtf8(bytes[..headerEnd])
      case None => Malformed(HeaderNotUtf8)
      case Some(header) =>
        PopBody(bytes, headerEnd + 4, ContentLength(Lines(header)))
  }

  function PopBody(bytes: seq<byte>, bodyStart: nat, length: Option<nat>): Popped
    requires bodyStart <= |bytes|
  {
    match length
    case None => Malformed(NoContentLength)
    case Some(length) =>
      if length > FRAME_LIMIT then Malformed(IncomingTooLong)
      else if |bytes| < bodyStart + length then NeedMore
      else Body(bytes[bodyStart..bodyStart + length], bytes[bodyStart + length..])
  }

  // ----- popping frames the writer made ------------------------------------------------

  lemma HeaderEndsAtFirstBlankLine(n: nat, tail: seq<byte>)
    ensures FindBlankLine(AsciiBytes(HeaderText(n)) + tail, 0) == Some(|LengthLine(n)|)
  {
    var bytes := AsciiBytes(HeaderText(n)) + tail;
    var k := |LengthLine(n)|;
    LengthLineIsPlain(n);
    assert HeaderText(n)[k..] == "\r\n\r\n";
    assert BlankLineAt(bytes, k);
    forall i | 0 <= i < k ensures !BlankLineAt(bytes, i) {
      assert HeaderText(n)[i] == LengthLine(n)[i] != '\r';
      assert bytes[i] != CR;
    }
  }

  lemma HeaderAnnouncesLength(n: nat)
    requires n <= FRAME_LIMIT
    ensures DecodeUtf8(AsciiBytes(HeaderText(n))[..|LengthLine(n)|]) == Some(LengthLine(n))
    ensures ContentLength(Lines(LengthLine(n))) == Some(n)
  {
    LengthLineIsPlain(n);
    assert AsciiBytes(HeaderText(n))[..|LengthLine(n)|] == AsciiBytes(LengthLine(n));
    DecodeAscii(LengthLine(n));
    assert Lines(LengthLine(n)) == [LengthLine(n)];
    AnnouncedByLengthLine(n);
  }

  /** A whole frame at the front of the buffer is popped, and nothing behind it is touched. */
  lemma PopFrame(body: seq<byte>, rest: seq<byte>)
    requires |body| <= FRAME_LIMIT
    ensures Pop(Frame(body) + rest) == Body(body, rest)
  {
    var header := AsciiBytes(HeaderText(|body|));
    var bytes := Frame(body) + rest;
    assert bytes == header + (body + rest);
    HeaderEndsAtFirstBlankLine(|body|, body + rest);
    HeaderAnnouncesLength(|body|);
    assert bytes[..|LengthLine(|body|)|] == header[..|LengthLine(|body|)|];
    assert bytes[|header|..|header| + |body|] == body;
    assert bytes[|header| + |body|..] == rest;
  }

  lemma FrameLength(body: seq<byte>)
    requires |body| <= FRAME_LIMIT
    ensures |Frame(body)| <= FRAME_LIMIT + 27
    ensures |HeaderText(|body|)| <= 27
  {
    assert Pow10(7) == 10_000_000 by {
      assert Pow10(4) == 10_000;
    }
    PrintNatLength(|body|, 7);
  }

  /** Any proper prefix of a frame makes the decoder wait, without an error. */
  lemma PopPrefix(body: seq<byte>, n: nat)
    requires |body| <= FRAME_LIMIT && n < |Frame(body)|
    ensures Pop(Frame(body)[..n]) == NeedMore
  {
    var header := AsciiBytes(HeaderText(|body|));
    var bytes := Frame(body)[..n];
    FrameLength(body);
    if n >= |header| {
      assert bytes == header + body[..n - |header|];
      HeaderEndsAtFirstBlankLine(|body|, body[..n - |header|]);
      HeaderAnnouncesLength(|body|);
      assert bytes[..|LengthLine(|body|)|] == header[..|LengthLine(|body|)|];
    } else {
      HeaderEndsAtFirstBlankLine(|body|, []);
      assert header + [] == header && bytes == header[..n];
      PrefixHasNoBlankLine(header, |LengthLine(|body|)|, n);
    }
  }

  lemma BlankLineOfPrefix(header: seq<byte>, n: nat, i: int)
    requires n <= |header| && BlankLineAt(header[..n], i)
    ensures BlankLineAt(header, i) && i + 4 <= n
  {
    assert header[..n][i..i + 4] == header[i..i + 4];
  }

  /** A proper prefix of bytes whose first blank line is at their end has none. */
  lemma PrefixHasNoBlankLine(header: seq<byte>, k: nat, n: nat)
    requires (forall i :: 0 <= i < k ==> !BlankLineAt(header, i)) && n < |header| == k + 4
    ensures forall i :: !BlankLineAt(header[..n], i)
  {
    forall i ensures !BlankLineAt(header[..n], i) {
      if BlankLineAt(header[..n], i) {
        BlankLineOfPrefix(header, n, i);
      }
    }
  }

  // ----- reading a chunked stream --------------------------------------------------------

  datatype Reading = Reading(bodies: seq<seq<byte>>, buffer: seq<byte>) | Broken

  function Prepend(body: seq<byte>, reading: Reading): Reading {
    if reading.Reading? then reading.(bodies := [body] + reading.bodies) else reading
  }

  /** Pop until the decoder needs more, push the next chunk, and so on to the end. */
  function Feed(buffer: seq<byte>, chunks: seq<seq<byte>>): Reading
    decreases |chunks|, |buffer|
  {
    match Pop(buffer)
    case Malformed(_) => Broken
    case Body(body, rest) => Prepend(body, Feed(rest, chunks))
    case NeedMore =>
      if chunks == [] then Reading([], buffer)
      else if |buffer| + |chunks[0]| > BUFFER_LIMIT then Broken
      else Feed(buffer + chunks[0], chunks[1..])
  }

  function Concat(parts: seq<seq<byte>>): seq<byte> {
    if parts == [] then [] else parts[0] + Concat(parts[1..])
  }

  function Frames(bodies: seq<seq<byte>>): seq<byte> {
    if bodies == [] then [] else Frame(bodies[0]) + Frames(bodies[1..])
  }

  predicate Sendable(bodies: seq<seq<byte>>) {
    forall i :: 0 <= i < |bodies| ==> |bodies[i]| <= FRAME_LIMIT
  }

  /** How many of the first `t` bytes of the stream lie in the frame that is still incomplete. */
  function Residual(bodies: seq<seq<byte>>, t: nat): nat {
    if bodies == [] || t < |Frame(bodies[0])| then t else Residual(bodies[1..], t - |Frame(bodies[0])|)
  }

  /** Each chunk fits beside the incomplete frame it meets, given `t` bytes already read. */
  predicate ChunksFit(bodies: seq<seq<byte>>, t: nat, chunks: seq<seq<byte>>)
    decreases chunks
  {
    chunks == [] ||
    (Residual(bodies, t) + |chunks[0]| <= BUFFER_LIMIT && ChunksFit(bodies, t + |chunks[0]|, chunks[1..]))
  }

  lemma {:induction false} ChunksFitShift(bodies: seq<seq<byte>>, t: nat, chunks: seq<seq<byte>>)
    requires bodies != []
    ensures ChunksFit(bodies, t + |Frame(bodies[0])|, chunks) == ChunksFit(bodies[1..], t, chunks)
    decreases chunks
  {
    if chunks != [] {
      ChunksFitShift(bodies, t + |chunks[0]|, chunks[1..]);
    }
  }

  /** A buffer holding the first frame splits there. */
  lemma SplitFirstFrame(bodies: seq<seq<byte>>, buffer: seq<byte>, tail: seq<byte>) returns (later: seq<byte>)
    requires bodies != [] && |buffer| >= |Frame(bodies[0])|
    requires buffer + tail == Frames(bodies)
    ensures buffer == Frame(bodies[0]) + later && later + tail == Frames(bodies[1..])
  {
    var frame := Frame(bodies[0]);
    later := buffer[|frame|..];
    assert Frames(bodies) == frame + Frames(bodies[1..]);
    assert buffer == Frames(bodies)[..|buffer|];
    assert buffer[..|frame|] == frame;
    assert later + tail == (buffer + tail)[|frame|..];
  }

  /** A buffer that ends inside the first frame, or is empty with nothing to come, waits. */
  lemma IncompleteFrameWaits(bodies: seq<seq<byte>>, buffer: seq<byte>, tail: seq<byte>)
    requires Sendable(bodies) && buffer + tail == Frames(bodies)
    requires bodies == [] || |buffer| < |Frame(bodies[0])|
    ensures Pop(buffer) == NeedMore
    ensures tail == [] ==> bodies == [] && buffer == []
  {
    if bodies != [] {
      var frame := Frame(bodies[0]);
      assert Frames(bodies) == frame + Frames(bodies[1..]);
      assert buffer == (buffer + tail)[..|buffer|] == frame[..|buffer|];
      PopPrefix(bodies[0], |buffer|);
    }
  }

  ghost function Expected(bodies: seq<seq<byte>>, t: nat, chunks: seq<seq<byte>>): Reading {
    if ChunksFit(bodies, t, chunks) then Reading(bodies, []) else Broken
  }

  lemma ExpectedAfterFrame(bodies: seq<seq<byte>>, t: nat, chunks: seq<seq<byte>>)
    requires bodies != []
    ensures Expected(bodies, t + |Frame(bodies[0])|, chunks) == Prepend(bodies[0], Expected(bodies[1..], t, chunks))
  {
    ChunksFitShift(bodies, t, chunks);
    assert [bodies[0]] + bodies[1..] == bodies;
  }

  lemma FeedPopped(buffer: seq<byte>, chunks: seq<seq<byte>>, body: seq<byte>, rest: seq<byte>)
    requires Pop(buffer) == Body(body, rest)
    ensures Feed(buffer, chunks) == Prepend(body, Feed(rest, chunks))
  {
  }

  lemma FeedWaiting(buffer: seq<byte>, chunks: seq<seq<byte>>)
    requires Pop(buffer) == NeedMore
    ensures Feed(buffer, chunks) ==
      if chunks == [] then Reading([], buffer)
      else if |buffer| + |chunks[0]| > BUFFER_LIMIT then Broken
      else Feed(buffer + chunks[0], chunks[1..])
  {
  }

  lemma ExpectedGrows(bodies: seq<seq<byte>>, t: nat, t': nat, chunks: seq<seq<byte>>, rest: Reading)
    requires bodies != [] && t' == t + |Frame(bodies[0])| && rest == Expected(bodies[1..], t, chunks)
    ensures Prepend(bodies[0], rest) == Expected(bodies, t', chunks)
  {
    ExpectedAfterFrame(bodies, t, chunks);
  }

  lemma ReadsNextChunk(bodies: seq<seq<byte>>, buffer: seq<byte>, chunks: seq<seq<byte>>)
    requires Pop(buffer) == NeedMore && Residual(bodies, |buffer|) == |buffer| && chunks != []
    requires |buffer| + |chunks[0]| <= BUFFER_LIMIT ==>
      Feed(buffer + chunks[0], chunks[1..]) == Expected(bodies, |buffer + chunks[0]|, chunks[1..])
    ensures Feed(buffer, chunks) == Expected(bodies, |buffer|, chunks)
  {
    FeedWaiting(buffer, chunks);
  }

  lemma ConcatChunk(buffer: seq<byte>, chunks: seq<seq<byte>>)
    requires chunks != []
    ensures buffer + chunks[0] + Concat(chunks[1..]) == buffer + Concat(chunks)
  {
  }

  /**
   However a stream of frames is cut into chunks, the reader yields exactly the
   bodies in order and ends with an empty buffer, or it overflows its buffer;
   and it overflows exactly when some chunk does not fit.
  */
  lemma {:induction false} ReadsWhatWasWritten(bodies: seq<seq<byte>>, buffer: seq<byte>, chunks: seq<seq<byte>>)
    requires Sendable(bodies)
    requires buffer + Concat(chunks) == Frames(bodies)
    ensures Feed(buffer, chunks) == Expected(bodies, |buffer|, chunks)
    decreases |chunks|, |buffer|
  {
    if bodies != [] && |buffer| >= |Frame(bodies[0])| {
      var later := SplitFirstFrame(bodies, buffer, Concat(chunks));
      ReadsWhatWasWritten(bodies[1..], later, chunks);
      PopFrame(bodies[0], later);
      FeedPopped(buffer, chunks, bodies[0], later);
      ExpectedGrows(bodies, |later|, |buffer|, chunks, Feed(later, chunks));
    } else {
      IncompleteFrameWaits(bodies, buffer, Concat(chunks));
      if chunks == [] {
        FeedWaiting(buffer, chunks);
      } else {
        ConcatChunk(buffer, chunks);
        if |buffer| + |chunks[0]| <= BUFFER_LIMIT {
          ReadsWhatWasWritten(bodies, buffer + chunks[0], chunks[1..]);
        }
        ReadsNextChunk(bodies, buffer, chunks);
      }
    }
  }

  /** An incomplete frame leaves room for 8,166 more bytes, so chunks up to that size always fit. */
  const SAFE_CHUNK: nat := 8166

  lemma {:induction false} ResidualBound(bodies: seq<seq<byte>>, t: nat)
    requires Sendable(bodies) && t <= |Frames(bodies)|
    ensures Residual(bodies, t) + SAFE_CHUNK <= BUFFER_LIMIT
  {
    if bodies != [] {
      FrameLength(bodies[0]);
      if t >= |Frame(bodies[0])| {
        ResidualBound(bodies[1..], t - |Frame(bodies[0])|);
      }
    }
  }

  lemma {:induction false} SmallChunksFit(bodies: seq<seq<byte>>, t: nat, chunks: seq<seq<byte>>)
    requires Sendable(bodies) && t + |Concat(chunks)| <= |Frames(bodies)|
    requires forall i :: 0 <= i < |chunks| ==> |chunks[i]| <= SAFE_CHUNK
    ensures ChunksFit(bodies, t, chunks)
    decreases chunks
  {
    if chunks != [] {
      ResidualBound(bodies, t);
      SmallChunksFit(bodies, t + |chunks[0]|, chunks[1..]);
    }
  }

  /** Framing is independent of how the transport cuts the stream. */
  lemma ChunkIndependence(bodies: seq<seq<byte>>, chunks: seq<seq<byte>>)
    requires Sendable(bodies) && Concat(chunks) == Frames(bodies)
    requires forall i :: 0 <= i < |chunks| ==> |chunks[i]| <= SAFE_CHUNK
    ensures Feed([], chunks) == Reading(bodies, [])
  {
    assert [] + Concat(chunks) == Frames(bodies);
    SmallChunksFit(bodies, 0, chunks);
    ReadsWhatWasWritten(bodies, [], chunks);
  }

  // ----- the chunk bound is the largest possible ---------------------------------------------

  function Singles(bytes: seq<byte>): seq<seq<byte>> {
    if bytes == [] then [] else [bytes[..1]] + Singles(bytes[1..])
  }

  lemma {:induction false} SinglesAreSmall(bytes: seq<byte>)
    ensures forall i :: 0 <= i < |Singles(bytes)| ==> |Singles(bytes)[i]| == 1
  {
    if bytes != [] {
      SinglesAreSmall(bytes[1..]);
    }
  }

  lemma ConcatCons(part: seq<byte>, parts: seq<seq<byte>>)
    ensures Concat([part] + parts) == part + Concat(parts)
  {
    assert ([part] + parts)[1..] == parts;
  }

  lemma {:induction false} ConcatSingles(bytes: seq<byte>)
    ensures Concat(Singles(bytes)) == bytes
  {
    if bytes != [] {
      ConcatSingles(bytes[1..]);
      ConcatCons(bytes[..1], Singles(bytes[1..]));
      assert bytes[..1] + bytes[1..] == bytes;
    }
  }

  lemma {:induction false} ConcatAppend(parts: seq<seq<byte>>, more: seq<seq<byte>>)
    ensures Concat(parts + more) == Concat(parts) + Concat(more)
  {
    if parts == [] {
      assert parts + more == more;
    } else {
      ConcatAppend(parts[1..], more);
      ConcatCons(parts[0], parts[1..] + more);
      assert parts + more == [parts[0]] + (parts[1..] + more);
    }
  }

  lemma {:induction false} SinglesFit(bodies: seq<seq<byte>>, t: nat, bytes: seq<byte>, rest: seq<seq<byte>>)
    requires Sendable(bodies) && t + |bytes| <= |Frames(bodies)|
    ensures ChunksFit(bodies, t, Singles(bytes) + rest) == ChunksFit(bodies, t + |bytes|, rest)
    decreases |bytes|
  {
    if bytes == [] {
      assert Singles(bytes) + rest == rest;
    } else {
      ResidualBound(bodies, t);
      SinglesFit(bodies, t + 1, bytes[1..], rest);
      assert (Singles(bytes) + rest)[1..] == Singles(bytes[1..]) + rest;
    }
  }

  lemma LargestFrameLength(body: seq<byte>)
    requires |body| == FRAME_LIMIT
    ensures |Frame(body)| == FRAME_LIMIT + 27
  {
    assert |PrintNat(104)| == 3;
    assert |PrintNat(104857)| == 6 by { assert |PrintNat(10485)| == 5 by { assert |PrintNat(1048)| == 4; } }
  }

  /** Singles up to `cut`, one chunk of `size` bytes, and singles again. */
  function OneBigChunk(stream: seq<byte>, cut: nat, size: nat): seq<seq<byte>>
    requires cut + size <= |stream|
  {
    Singles(stream[..cut]) + ([stream[cut..cut + size]] + Singles(stream[cut + size..]))
  }

  lemma OneBigChunkConcat(stream: seq<byte>, cut: nat, size: nat)
    requires cut + size <= |stream| && size > 0
    ensures Concat(OneBigChunk(stream, cut, size)) == stream
    ensures forall i :: 0 <= i < |OneBigChunk(stream, cut, size)| ==> |OneBigChunk(stream, cut, size)[i]| <= size
  {
    var front, big, back := stream[..cut], stream[cut..cut + size], stream[cut + size..];
    ConcatSingles(front);
    ConcatSingles(back);
    SinglesAreSmall(front);
    SinglesAreSmall(back);
    ConcatCons(big, Singles(back));
    ConcatAppend(Singles(front), [big] + Singles(back));
    assert front + (big + back) == stream;
  }

  lemma TwoFrames(body: seq<byte>)
    ensures Frames([body, body]) == Frame(body) + Frame(body)
  {
    assert [body, body][1..] == [body];
    assert Frames([body]) == Frame(body) + [];
  }

  /** One byte more per chunk and some stream overflows the buffer. */
  lemma SafeChunkIsLargest()
    ensures exists bodies, chunks ::
      && Sendable(bodies) && Concat(chunks) == Frames(bodies)
      && (forall i :: 0 <= i < |chunks| ==> |chunks[i]| <= SAFE_CHUNK + 1)
      && Feed([], chunks) == Broken
  {
    var body: seq<byte> := seq(FRAME_LIMIT, _ => 0);
    var bodies, cut := [body, body], FRAME_LIMIT + 26;
    LargestFrameLength(body);
    TwoFrames(body);
    var stream := Frames(bodies);
    var chunks := OneBigChunk(stream, cut, SAFE_CHUNK + 1);
    OneBigChunkConcat(stream, cut, SAFE_CHUNK + 1);
    OverflowsAtBigChunk(bodies, stream, cut);
    assert [] + Concat(chunks) == Frames(bodies);
    ReadsWhatWasWritten(bodies, [], chunks);
  }

  lemma OverflowsAtBigChunk(bodies: seq<seq<byte>>, stream: seq<byte>, cut: nat)
    requires Sendable(bodies) && stream == Frames(bodies) && cut + SAFE_CHUNK + 1 <= |stream|
    requires Residual(bodies, cut) + SAFE_CHUNK + 1 > BUFFER_LIMIT
    ensures !ChunksFit(bodies, 0, OneBigChunk(stream, cut, SAFE_CHUNK + 1))
  {
    SinglesFit(bodies, 0, stream[..cut],
               [stream[cut..cut + SAFE_CHUNK + 1]] + Singles(stream[cut + SAFE_CHUNK + 1..]));
  }

  // ----- the decoder and the message reader -------------------------------------------------

  /** What the container's attached stream can deliver next. */
  datatype StreamItem =
    | Output(bytes: seq<byte>)
    | ErrorOutput(bytes: seq<byte>)
    | InputEcho
    | Expired
    | Ended
    | Failed

  const STDERR_LIMIT: nat := 8 * 1024

  function KeepStderr(stderr: seq<byte>, more: seq<byte>): seq<byte> {
    var room := if |stderr| < STDERR_LIMIT then STDERR_LIMIT - |stderr| else 0;
    stderr + more[..if |more| < room then |more| else room]
  }

  datatype Next<V> = Next(result: Result<V, ProtocolError>, buffer: seq<byte>, items: seq<StreamItem>, stderr: seq<byte>)

  /** Read one message: pop, and read stream items until one can be popped. */
  function NextMessage<V>(
      parse: seq<byte> -> Option<V>, buffer: seq<byte>, items: seq<StreamItem>, stderr: seq<byte>): Next<V>
    decreases |items|
  {
    match Pop(buffer)
    case Malformed(error) => Next(Err(error), buffer, items, stderr)
    case Body(body, rest) =>
      Next(if parse(body).Some? then Ok(parse(body).value) else Err(NotJson), rest, items, stderr)
    case NeedMore =>
      if items == [] then Next(Err(StreamClosed), buffer, items, stderr)
      else
        match items[0]
        case Expired => Next(Err(DeadlinePassed), buffer, items[1..], stderr)
        case Ended => Next(Err(StreamClosed), buffer, items[1..], stderr)
        case Failed => Next(Err(StreamFailed), buffer, items[1..], stderr)
        case InputEcho => NextMessage(parse, buffer, items[1..], stderr)
        case ErrorOutput(bytes) => NextMessage(parse, buffer, items[1..], KeepStderr(stderr, bytes))
        case Output(bytes) =>
          if |buffer| + |bytes| > BUFFER_LIMIT then Next(Err(BufferFull), buffer, items[1..], stderr)
          else NextMessage(parse, buffer + bytes, items[1..], stderr)
  }

  class Decoder<V> {
    var bytes: seq<byte>
    const parse: seq<byte> -> Option<V>

    constructor (parse: seq<byte> -> Option<V>)
      ensures bytes == [] && this.parse == parse
    {
      bytes := [];
      this.parse := parse;
    }

    method Push(chunk: seq<byte>) returns (r: Result<(), ProtocolError>)
      modifies `bytes
      ensures r.Ok? <==> |old(bytes)| + |chunk| <= BUFFER_LIMIT
      ensures r.Ok? ==> bytes == old(bytes) + chunk
      ensures r.Err? ==> r.error == BufferFull && bytes == old(bytes)
    {
      if |bytes| + |chunk| > BUFFER_LIMIT {
        return Err(BufferFull);
      }
      bytes := bytes + chunk;
      r := Ok(());
    }

    /** A popped body leaves the buffer whether or not it parses. */
    method PopMessage() returns (r: Result<Option<V>, ProtocolError>)
      modifies `bytes
      ensures
        match Pop(old(bytes))
        case NeedMore => r == Ok(None) && bytes == old(bytes)
        case Malformed(error) => r == Err(error) && bytes == old(bytes)
        case Body(body, rest) =>
          bytes == rest && r == if parse(body).Some? then Ok(Some(parse(body).value)) else Err(NotJson)
    {
      var headerEnd := FindBlankLine(bytes, 0);
      if headerEnd.None? {
        if |bytes| > HEADER_LIMIT {
          return Err(HeaderTooLong);
        }
        return Ok(None);
      }
      var header := DecodeUtf8(bytes[..headerEnd.value]);
      if header.None? {
        return Err(HeaderNotUtf8);
      }
      var length := ContentLength(Lines(header.value));
      if length.None? {
        return Err(NoContentLength);
      }
      if length.value > FRAME_LIMIT {
        return Err(IncomingTooLong);
      }
      var bodyStart := headerEnd.value + 4;
      var bodyEnd := bodyStart + length.value;
      if |bytes| < bodyEnd {
        return Ok(None);
      }
      var body := bytes[bodyStart..bodyEnd];
      bytes := bytes[bodyEnd..];
      var value := parse(body);
      r := if value.Some? then Ok(Some(value.value)) else Err(NotJson);
    }

    method ReadMessage(items: seq<StreamItem>, stderr: seq<byte>)
      returns (r: Result<V, ProtocolError>, left: seq<StreamItem>, stderr': seq<byte>)
      modifies `bytes
      ensures NextMessage(parse, old(bytes), items, stderr) == Next(r, bytes, left, stderr')
    {
      left, stderr' := items, stderr;
      while true
        invariant NextMessage(parse, old(bytes), items, stderr) == NextMessage(parse, bytes, left, stderr')
        decreases |left|
      {
        var popped := PopMessage();
        if popped.Err? {
          return Err(popped.error), left, stderr';
        }
        if popped.value.Some? {
          return Ok(popped.value.value), left, stderr';
        }
        if left == [] {
          return Err(StreamClosed), left, stderr';
        }
        var item := left[0];
        left := left[1..];
        match item {
          case Expired => return Err(DeadlinePassed), left, stderr';
          case Ended => return Err(StreamClosed), left, stderr';
          case Failed => return Err(StreamFailed), left, stderr';
          case InputEcho =>
          case ErrorOutput(more) => stderr' := KeepStderr(stderr', more);
          case Output(chunk) =>
            var pushed := Push(chunk);
            if pushed.Err? {
              return Err(pushed.error), left, stderr';
            }
        }
      }
    }
  }

  // ----- reading back what was sent ------------------------------------------------------------

  function Send<V>(encode: V -> seq<byte>, value: V): Result<seq<byte>, ProtocolError> {
    if |encode(value)| > FRAME_LIMIT then Err(OutgoingTooLong) else Ok(Frame(encode(value)))
  }

  /** The standard-output chunks among the stream items, in order. */
  function Chunks(items: seq<StreamItem>): seq<seq<byte>> {
    if items == [] then []
    else if items[0].Output? then [items[0].bytes] + Chunks(items[1..])
    else Chunks(items[1..])
  }

  predicate Uninterrupted(items: seq<StreamItem>) {
    forall i :: 0 <= i < |items| ==> !items[i].Expired? && !items[i].Ended? && !items[i].Failed?
  }

  function Encoded<V>(encode: V -> seq<byte>, values: seq<V>): (bodies: seq<seq<byte>>)
    ensures |bodies| == |values|
  {
    seq(|values|, i requires 0 <= i < |values| => encode(values[i]))
  }

  /**
   The stream still holds the messages of `values`: buffered bytes and coming
   chunks make up their frames, and every chunk fits.
  */
  ghost predicate Carries<V>(
      encode: V -> seq<byte>, parse: seq<byte> -> Option<V>, values: seq<V>, buffer: seq<byte>, items: seq<StreamItem>)
  {
    && Uninterrupted(items)
    && (forall i :: 0 <= i < |values| ==> Send(encode, values[i]).Ok? && parse(encode(values[i])) == Some(values[i]))
    && buffer + Concat(Chunks(items)) == Frames(Encoded(encode, values))
    && ChunksFit(Encoded(encode, values), |buffer|, Chunks(items))
  }

  /** Each read returns the next sent message and leaves the stream carrying the rest. */
  lemma {:induction false} ReadsNextSent<V>(
      encode: V -> seq<byte>, parse: seq<byte> -> Option<V>, values: seq<V>,
      buffer: seq<byte>, items: seq<StreamItem>, stderr: seq<byte>)
    requires values != [] && Carries(encode, parse, values, buffer, items)
    ensures
      var next := NextMessage(parse, buffer, items, stderr);
      next.result == Ok(values[0]) && Carries(encode, parse, values[1..], next.buffer, next.items)
    decreases |items|
  {
    var bodies := Encoded(encode, values);
    if |buffer| >= |Frame(bodies[0])| {
      ReadsBuffered(encode, parse, values, buffer, items, stderr);
    } else {
      IncompleteFrameWaits(bodies, buffer, Concat(Chunks(items)));
      assert items != [];
      ReadsAfterItem(encode, parse, values, buffer, items);
      match items[0] {
        case Output(bytes) => ReadsNextSent(encode, parse, values, buffer + bytes, items[1..], stderr);
        case ErrorOutput(bytes) =>
          ReadsNextSent(encode, parse, values, buffer, items[1..], KeepStderr(stderr, bytes));
        case InputEcho => ReadsNextSent(encode, parse, values, buffer, items[1..], stderr);
        case Expired =>
        case Ended =>
        case Failed =>
      }
    }
  }

  /** A message that is in the buffer already is read from there. */
  lemma ReadsBuffered<V>(
      encode: V -> seq<byte>, parse: seq<byte> -> Option<V>, values: seq<V>,
      buffer: seq<byte>, items: seq<StreamItem>, stderr: seq<byte>)
    requires values != [] && Carries(encode, parse, values, buffer, items)
    requires |buffer| >= |Frame(Encoded(encode, values)[0])|
    ensures
      var next := NextMessage(parse, buffer, items, stderr);
      next.result == Ok(values[0]) && Carries(encode, parse, values[1..], next.buffer, next.items)
  {
    var bodies := Encoded(encode, values);
    assert Sendable(bodies);
    assert Encoded(encode, values[1..]) == bodies[1..];
    var later := SplitFirstFrame(bodies, buffer, Concat(Chunks(items)));
    PopFrame(bodies[0], later);
    ChunksFitShift(bodies, |later|, Chunks(items));
  }

  lemma ReadsAfterItem<V>(
      encode: V -> seq<byte>, parse: seq<byte> -> Option<V>, values: seq<V>, buffer: seq<byte>, items: seq<StreamItem>)
    requires Carries(encode, parse, values, buffer, items)
    requires items != [] && values != [] && |buffer| < |Frame(Encoded(encode, values)[0])|
    ensures items[0].Output? ==>
      |buffer| + |items[0].bytes| <= BUFFER_LIMIT && Carries(encode, parse, values, buffer + items[0].bytes, items[1..])
    ensures !items[0].Output? ==> Carries(encode, parse, values, buffer, items[1..])
  {
    if items[0].Output? {
      ConcatChunk(buffer, Chunks(items));
    }
  }

  // ----- the server's error output ---------------------------------------------------------------

  function ErrorBytes(items: seq<StreamItem>): seq<byte> {
    if items == [] then []
    else (if items[0].ErrorOutput? then items[0].bytes else []) + ErrorBytes(items[1..])
  }

  function First8KiB(bytes: seq<byte>): seq<byte> {
    if |bytes| <= 8192 then bytes else bytes[..8192]
  }

  lemma KeepsFirst(stderr: seq<byte>, more: seq<byte>, later: seq<byte>)
    requires |stderr| <= 8192
    ensures |KeepStderr(stderr, more)| <= 8192
    ensures First8KiB(KeepStderr(stderr, more) + later) == First8KiB(stderr + (more + later))
  {
    assert stderr + (more + later) == stderr + more + later;
  }

  /** The read took that many items and kept the first 8 KiB of what they added to the error output. */
  predicate KeptOver<V>(next: Next<V>, items: seq<StreamItem>, stderr: seq<byte>, taken: nat) {
    taken <= |items| && next.items == items[taken..] && next.stderr == First8KiB(stderr + ErrorBytes(items[..taken]))
  }

  lemma KeptOverOneMore<V>(next: Next<V>, items: seq<StreamItem>, stderr: seq<byte>, taken: nat)
    requires items != [] && |stderr| <= 8192
    requires
      KeptOver(next, items[1..], if items[0].ErrorOutput? then KeepStderr(stderr, items[0].bytes) else stderr, taken)
    ensures KeptOver(next, items, stderr, taken + 1)
  {
    var later := ErrorBytes(items[1..][..taken]);
    assert items[..taken + 1][1..] == items[1..][..taken];
    if items[0].ErrorOutput? {
      KeepsFirst(stderr, items[0].bytes, later);
    } else {
      assert ErrorBytes(items[..taken + 1]) == [] + later == later;
    }
  }

  lemma NothingTaken<V>(next: Next<V>, items: seq<StreamItem>, stderr: seq<byte>)
    requires next.items == items && next.stderr == stderr && |stderr| <= 8192
    ensures KeptOver(next, items, stderr, 0)
  {
    assert stderr + ErrorBytes(items[..0]) == stderr;
  }

  /** Reading a message keeps the first 8 KiB of all error output that came before it. */
  lemma {:induction false} KeepsEarlyErrors<V>(
      parse: seq<byte> -> Option<V>, buffer: seq<byte>, items: seq<StreamItem>, stderr: seq<byte>) returns (taken: nat)
    requires |stderr| <= 8192
    ensures KeptOver(NextMessage(parse, buffer, items, stderr), items, stderr, taken)
    decreases |items|
  {
    var next := NextMessage(parse, buffer, items, stderr);
    taken := 0;
    if Pop(buffer) != NeedMore || items == [] {
      NothingTaken(next, items, stderr);
      return;
    }
    match items[0] {
      case InputEcho => taken := KeepsEarlyErrors(parse, buffer, items[1..], stderr);
      case ErrorOutput(bytes) => taken := KeepsEarlyErrors(parse, buffer, items[1..], KeepStderr(stderr, bytes));
      case Output(bytes) =>
        if |buffer| + |bytes| <= BUFFER_LIMIT {
          taken := KeepsEarlyErrors(parse, buffer + bytes, items[1..], stderr);
        } else {
          NothingTaken(next, items[1..], stderr);
        }
      case _ => NothingTaken(next, items[1..], stderr);
    }
    KeptOverOneMore(next, items, stderr, taken);
    taken := taken + 1;
  }
}
