/** The read loop of `parseRawResponse`: finding the end of the header, deciding from its framing when
    the body is complete, and what is returned (section 6.3 of RFC 9112). */
module ResponseFraming {
  import opened ByteStrings
  import opened ChunkedBody
  import opened ChunkedEnd
  import opened FramingHeaders
  import opened HeaderFields
  import opened Options

  // ---------- the connection ----------

  datatype ReadError = NoError | Eof | Failure

  /** What one read of the connection delivers. */
  datatype Read = Read(bytes: Bytes, err: ReadError)

  /** A connection with no more reads to come is at its end. */
  function Next(arrivals: seq<Read>): Read { if arrivals == [] then Read([], Eof) else arrivals[0] }

  function Later(arrivals: seq<Read>): seq<Read> { if arrivals == [] then [] else arrivals[1..] }

  // ---------- the end of the header ----------

  /** Where a header ends, and the length of the terminator behind it. */
  datatype Mark = Mark(end: nat, sep: nat)

  const BLANK_CRLF: Bytes := [13, 10, 13, 10]
  const BLANK_LF: Bytes := [10, 10]

  /** The terminator in a whole buffer: the first CRLF-CRLF, and failing that the first LF-LF. */
  function Scan(raw: Bytes): Option<Mark> {
    var c, l := IndexFrom(raw, BLANK_CRLF, 0), IndexFrom(raw, BLANK_LF, 0);
    if c != -1 then Some(Mark(c, 4)) else if l != -1 then Some(Mark(l, 2)) else None
  }

  function Body(raw: Bytes, mark: Mark): Bytes
    requires mark.end + mark.sep <= |raw|
  {
    raw[mark.end + mark.sep..]
  }

  /** The search that starts shortly before what the last read has added. */
  method SearchNew(raw: Bytes, n: nat) returns (mark: Option<Mark>)
    requires n <= |raw| && Scan(raw[..|raw| - n]).None?
    ensures mark == Scan(raw)
  {
    var start: nat := if |raw| - n < 4 then 0 else |raw| - n - 4;
    OldHasNone(raw, n, BLANK_CRLF, start);
    OldHasNone(raw, n, BLANK_LF, start);
    var idx := IndexFrom(raw, BLANK_CRLF, start);
    if idx != -1 {
      return Some(Mark(idx, 4));
    }
    idx := IndexFrom(raw, BLANK_LF, start);
    if idx != -1 {
      return Some(Mark(idx, 2));
    }
    return None;
  }

  lemma OldHasNone(raw: Bytes, n: nat, pattern: Bytes, start: nat)
    requires n <= |raw| && 0 < |pattern| <= 4 && IndexFrom(raw[..|raw| - n], pattern, 0) == -1
    requires start == if |raw| - n < 4 then 0 else |raw| - n - 4
    ensures IndexFrom(raw, pattern, 0) == IndexFrom(raw, pattern, start)
  {
    forall k | 0 <= k < start ensures !At(raw, k, pattern) {
      PrefixAt(raw, |raw| - n, k, pattern);
    }
  }

  // ---------- when reading stops ----------

  /** What header bytes declare. */
  type Headers = Bytes -> Framing

  function Reader(expectNoBody: bool): Headers { header => FramingIn(expectNoBody, header) }

  ghost predicate Enough(f: Framing, body: Bytes)
    requires f.Framed?
  {
    f.noBody || (if f.chunked then Complete(body) else f.contentLength.Some? && |body| >= f.contentLength.value)
  }

  method CheckEnough(f: Framing, body: Bytes) returns (enough: bool)
    requires f.Framed?
    ensures enough <==> Enough(f, body)
  {
    if f.noBody {
      return true;
    }
    if f.chunked {
      enough := HasCompleteChunkedBody(body);
    } else {
      enough := f.contentLength.Some? && |body| >= f.contentLength.value;
    }
  }

  /** What has been read when the loop ends. */
  datatype Collected = Collected(raw: Bytes, mark: Option<Mark>, err: ReadError)

  ghost predicate Within(raw: Bytes, mark: Option<Mark>) {
    mark.Some? ==> 0 < mark.value.sep && mark.value.end + mark.value.sep <= |raw|
  }

  ghost predicate Stops(raw: Bytes, mark: Option<Mark>, err: ReadError, headers: Headers)
    requires Within(raw, mark)
  {
    || (mark.Some? && var f := headers(raw[..mark.value.end]); f.Rejected? || Enough(f, Body(raw, mark.value)))
    || !err.NoError?
    || |raw| > MAX_BODY
  }

  /** The simple form of the loop, which scans the whole buffer after every read. */
  ghost function Collect(raw: Bytes, mark: Option<Mark>, arrivals: seq<Read>, headers: Headers): (c: Collected)
    requires Within(raw, mark)
    ensures Within(c.raw, c.mark)
    decreases |arrivals|
  {
    var read := Next(arrivals);
    var raw' := raw + read.bytes;
    var mark' := if mark.Some? then mark else Scan(raw');
    if Stops(raw', mark', read.err, headers) then Collected(raw', mark', read.err)
    else Collect(raw', mark', Later(arrivals), headers)
  }

  /** The loop itself, which reads the header once. */
  method ReadLoop(arrivals: seq<Read>, expectNoBody: bool) returns (c: Collected, f: Framing)
    ensures c == Collect([], None, arrivals, Reader(expectNoBody))
    ensures c.mark.Some? ==> f == FramingIn(expectNoBody, c.raw[..c.mark.value.end])
  {
    var raw: Bytes, mark: Option<Mark>, rest := [], None, arrivals;
    ghost var headers := Reader(expectNoBody);
    f := Rejected;
    while true
      invariant Within(raw, mark) && (mark.None? ==> Scan(raw).None?)
      invariant mark.Some? ==> f.Framed? && f == headers(raw[..mark.value.end])
      invariant Collect(raw, mark, rest, headers) == Collect([], None, arrivals, headers)
      decreases |rest|
    {
      var read := Next(rest);
      ghost var before := raw;
      raw := raw + read.bytes;
      if mark.None? {
        assert raw[..|raw| - |read.bytes|] == before;
        mark := SearchNew(raw, |read.bytes|);
        if mark.Some? {
          f := ParseHeader(expectNoBody, raw[..mark.value.end]);
          if f.Rejected? {
            return Collected(raw, mark, read.err), f;
          }
        }
      } else {
        assert raw[..mark.value.end] == before[..mark.value.end];
      }
      if mark.Some? {
        var enough := CheckEnough(f, Body(raw, mark.value));
        if enough {
          return Collected(raw, mark, read.err), f;
        }
      }
      if !read.err.NoError? || |raw| > MAX_BODY {
        return Collected(raw, mark, read.err), f;
      }
      rest := Later(rest);
    }
  }

  // ---------- what is returned ----------

  datatype Outcome =
    | Empty
    | BadFraming
    | Response(header: Option<Bytes>, body: Bytes, trailers: Option<Fields>, complete: bool)

  /** Whether the body was read to its end, so that the connection may be used again. */
  ghost predicate BodyComplete(c: Collected, f: Framing)
    requires Within(c.raw, c.mark) && c.mark.Some? && f.Framed?
  {
    if !c.err.NoError? then c.err.Eof? && f.http10 && !f.chunked && f.contentLength.None?
    else if f.noBody then Body(c.raw, c.mark.value) == []
    else Enough(f, Body(c.raw, c.mark.value))
  }

  ghost function Answer(c: Collected, headers: Headers): Outcome
    requires Within(c.raw, c.mark)
  {
    if c.mark.None? then if c.raw == [] then Empty else Response(None, Take(c.raw, MAX_BODY), None, false)
    else
      var header := c.raw[..c.mark.value.end];
      var f := headers(header);
      if f.Rejected? then BadFraming
      else
        var whole := if f.noBody then [] else Body(c.raw, c.mark.value);
        var complete := BodyComplete(c, f) && |whole| <= MAX_BODY;
        var body := Take(whole, MAX_BODY);
        if f.chunked then
          var d := Decode(body, body, []);
          Response(Some(header), d.body, d.trailers, complete)
        else Response(Some(header), body, None, complete)
  }

  ghost function Received(arrivals: seq<Read>, headers: Headers): Outcome {
    Answer(Collect([], None, arrivals, headers), headers)
  }

  /** `parseRawResponse`, up to the content codings. */
  method ParseRawResponse(arrivals: seq<Read>, expectNoBody: bool) returns (out: Outcome)
    ensures out == Received(arrivals, Reader(expectNoBody))
  {
    var c, f := ReadLoop(arrivals, expectNoBody);
    if c.mark.Some? && f.Rejected? {
      return BadFraming;
    }
    if c.raw == [] {
      return Empty;
    }
    var complete, http10EofBody := false, false;
    var header, whole, chunked := None, c.raw, false;
    if c.mark.Some? {
      header := Some(c.raw[..c.mark.value.end]);
      chunked := f.chunked;
      whole := Body(c.raw, c.mark.value);
      if f.noBody {
        complete := whole == [];
      } else {
        complete := CheckEnough(f, whole);
      }
      if f.http10 && !f.chunked && f.contentLength.None? && c.err.Eof? {
        http10EofBody, complete := true, true;
      }
      if f.noBody {
        whole := [];
      }
    }
    if !c.err.NoError? && !(c.err.Eof? && http10EofBody) {
      complete := false;
    }
    if |whole| > MAX_BODY {
      whole, complete := whole[..MAX_BODY], false;
    }
    if chunked {
      var decoded, trailers := DechunkBody(whole);
      return Response(header, decoded, trailers, complete);
    }
    return Response(header, whole, None, complete);
  }
}
