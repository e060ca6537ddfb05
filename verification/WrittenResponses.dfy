/** Responses as servers write them, from the status line to the last byte, and what they give for every way
    the network cuts them. */
module WrittenResponses {
  import opened ByteStrings
  import opened ChunkedBody
  import opened ChunkedEnd
  import opened FramingHeaders
  import opened HeaderFields
  import opened Options
  import opened ResponseDelivery
  import opened ResponseFraming

  // ---------- the header ends where it was written to end ----------

  ghost predicate Filled(lines: seq<Bytes>) {
    AllPlain(lines) && forall i :: 0 <= i < |lines| ==> lines[i] != []
  }

  lemma PlainBytes(line: Bytes, k: nat)
    requires Plain(line) && k < |line|
    ensures line[k] != CR && line[k] != LF
  {
    assert line[k] in line;
  }

  /** No pattern that starts with a line break starts within a line. */
  lemma NotInLine(line: Bytes, rest: Bytes, i: nat, pattern: Bytes)
    requires Plain(line) && i < |line| && pattern != [] && (pattern[0] == CR || pattern[0] == LF)
    ensures !At(line + rest, i, pattern)
  {
    PlainBytes(line, i);
    if i + |pattern| <= |line + rest| {
      assert (line + rest)[i..i + |pattern|][0] == line[i];
    }
  }

  /** Behind a line break comes a line, not another break. */
  lemma NotAtBreak(line: Bytes, rest: Bytes, i: nat)
    requires |line| <= i < |line| + 2 && rest != [] && rest[0] != CR && rest[0] != LF
    ensures !At(line + CRLF + rest, i, BLANK_CRLF) && !At(line + CRLF + rest, i, BLANK_LF)
  {
    var s := line + CRLF + rest;
    assert s[|line|] == CR && s[|line| + 1] == LF && s[|line| + 2] == rest[0];
    if i + 4 <= |s| {
      assert s[i..i + 4][0] == s[i] && s[i..i + 4][2] == s[i + 2];
    }
    if i + 2 <= |s| {
      assert s[i..i + 2][0] == s[i] && s[i..i + 2][1] == s[i + 1];
    }
  }

  lemma FirstByte(lines: seq<Bytes>, rest: Bytes)
    requires lines != [] && Filled(lines)
    ensures var s := JoinLines(lines) + rest; s != [] && s[0] != CR && s[0] != LF
  {
    PlainBytes(lines[0], 0);
    assert (JoinLines(lines) + rest)[0] == lines[0][0];
  }

  /** No terminator stands within written lines. */
  lemma {:induction false} NoneWithin(lines: seq<Bytes>, body: Bytes, i: nat)
    requires lines != [] && Filled(lines) && i < |JoinLines(lines)|
    ensures var s := JoinLines(lines) + (BLANK_CRLF + body); !At(s, i, BLANK_CRLF) && !At(s, i, BLANK_LF)
    decreases |lines|
  {
    var line, more := lines[0], BLANK_CRLF + body;
    if |lines| == 1 {
      NotInLine(line, more, i, BLANK_CRLF);
      NotInLine(line, more, i, BLANK_LF);
    } else {
      var rest := JoinLines(lines[1..]) + more;
      assert JoinLines(lines) + more == line + (CRLF + rest) == line + CRLF + rest;
      if i < |line| {
        NotInLine(line, CRLF + rest, i, BLANK_CRLF);
        NotInLine(line, CRLF + rest, i, BLANK_LF);
      } else if i < |line| + 2 {
        FirstByte(lines[1..], more);
        NotAtBreak(line, rest, i);
      } else {
        NoneWithin(lines[1..], body, i - |line| - 2);
        AtShifted(line + CRLF, rest, i, BLANK_CRLF);
        AtShifted(line + CRLF, rest, i, BLANK_LF);
      }
    }
  }

  lemma ScanAt(s: Bytes, n: nat)
    requires At(s, n, BLANK_CRLF) && forall i: nat :: i < n ==> !At(s, i, BLANK_CRLF) && !At(s, i, BLANK_LF)
    ensures Settled(s) && Scan(s) == Some(Mark(n, 4))
  {
    assert s[n..n + 4][0] == s[n] == CR;
    assert s[n..n + 2][0] == s[n] && BLANK_LF[0] == LF;
    assert !At(s, n, BLANK_LF);
    assert IndexFrom(s, BLANK_CRLF, 0) == n;
  }

  /** The terminator found is the one that was written. */
  lemma HeaderEnds(lines: seq<Bytes>, body: Bytes)
    requires lines != [] && Filled(lines)
    ensures var s := JoinLines(lines) + (BLANK_CRLF + body);
            && Settled(s) && Scan(s) == Some(Mark(|JoinLines(lines)|, 4))
            && s[..|JoinLines(lines)|] == JoinLines(lines) && Body(s, Mark(|JoinLines(lines)|, 4)) == body
  {
    var header := JoinLines(lines);
    var s := header + (BLANK_CRLF + body);
    forall i: nat | i < |header| ensures !At(s, i, BLANK_CRLF) && !At(s, i, BLANK_LF) {
      NoneWithin(lines, body, i);
    }
    assert s[|header|..|header| + 4] == BLANK_CRLF;
    ScanAt(s, |header|);
  }

  // ---------- written responses ----------

  function Written(status: Bytes, fields: seq<WireField>, body: Bytes): Bytes {
    EncodeHeader(status, fields) + (BLANK_CRLF + body)
  }

  /** What the header of a written response declares, and where its body is. */
  lemma WrittenRead(expectNoBody: bool, status: Bytes, fields: seq<WireField>, body: Bytes)
    requires ValidHeader(status, fields)
    ensures var s, header := Written(status, fields, body), EncodeHeader(status, fields);
            && Settled(s) && Scan(s) == Some(Mark(|header|, 4))
            && s[..|header|] == header && Body(s, Mark(|header|, 4)) == body
            && Reader(expectNoBody)(header)
               == Declared(HasNoBody(expectNoBody, Status(status)), IsHttp10(status),
                           if Names(fields, TRANSFER_ENCODING) then Some(CodingIn(fields)) else None, LengthsIn(fields))
  {
    PlainLines(status, fields);
    HeaderEnds(HeaderLines(status, fields), body);
    HeaderBack(expectNoBody, status, fields);
  }

  /** The fields declare exactly the length of the body. */
  predicate DeclaresLength(fields: seq<WireField>, body: Bytes) {
    && !Names(fields, TRANSFER_ENCODING)
    && LengthsIn(fields) != [] && Consistent(LengthsIn(fields)) && Length(LengthsIn(fields)[0]) == Some(|body|)
  }

  /** The outcome that hands over header and body, and the connection as well unless an error came with the
      last bytes. */
  function Whole(status: Bytes, fields: seq<WireField>, body: Bytes, trailers: Option<Fields>, last: Read): Outcome {
    Response(Some(EncodeHeader(status, fields)), body, trailers, last.bytes == [])
  }

  /** A response that declares the length of its body, once or several times, is returned in full, and no
      more, for every way the network cuts the stream, exactly when nothing follows it and header and body
      together stay within the limit. */
  lemma WrittenLengthIff(expectNoBody: bool, status: Bytes, fields: seq<WireField>, body: Bytes, rest: Bytes)
    requires ValidHeader(status, fields) && DeclaresLength(fields, body) && |body| <= MAX_BODY
    requires !HasNoBody(expectNoBody, Status(status))
    ensures (forall arrivals, last :: Delivers(arrivals, last, Written(status, fields, body + rest))
                  ==> Received(arrivals + [last], Reader(expectNoBody)) == Whole(status, fields, body, None, last))
            <==> rest == [] && |Written(status, fields, body)| <= MAX_BODY + 1
  {
    var s, headers := Written(status, fields, body + rest), Reader(expectNoBody);
    WrittenRead(expectNoBody, status, fields, body + rest);
    assert (body + rest)[..|body|] == body && (rest == [] ==> body + rest == body);
    ContentLengthIff(s, headers);
    forall arrivals, last
      ensures InFull(s, headers, arrivals, last) <==>
              Received(arrivals + [last], headers) == Whole(status, fields, body, None, last)
    {
    }
  }

  /** The fields declare a chunked body. */
  predicate DeclaresChunks(fields: seq<WireField>) {
    && Names(fields, TRANSFER_ENCODING) && LengthsIn(fields) == []
    && !BadCodings(SplitAt(CodingIn(fields), 44)) && LastCoding(CodingIn(fields)) == CHUNKED
  }

  lemma WrittenCarries(expectNoBody: bool, status: Bytes, fields: seq<WireField>, pieces: seq<Piece>, lines: seq<Bytes>)
    requires ValidHeader(status, fields) && DeclaresChunks(fields) && !HasNoBody(expectNoBody, Status(status))
    requires ValidPieces(pieces) && ValidLines(lines)
    ensures var s := Written(status, fields, Encode(pieces, lines));
            && CarriesChunks(s, Reader(expectNoBody), pieces, lines)
            && Scan(s) == Some(Mark(|EncodeHeader(status, fields)|, 4))
            && s[..|EncodeHeader(status, fields)|] == EncodeHeader(status, fields)
  {
    WrittenRead(expectNoBody, status, fields, Encode(pieces, lines));
  }

  /** A chunked response whose data holds no line feed in any chunk, and no chunk of a single zero, is
      returned decoded, with its trailers, for every way the network cuts it. */
  lemma WrittenChunks(expectNoBody: bool, status: Bytes, fields: seq<WireField>, pieces: seq<Piece>, lines: seq<Bytes>,
                      arrivals: seq<Read>, last: Read)
    requires ValidHeader(status, fields) && DeclaresChunks(fields) && !HasNoBody(expectNoBody, Status(status))
    requires ValidPieces(pieces) && ValidLines(lines) && forall i :: 0 <= i < |pieces| ==> PlainData(pieces[i])
    requires |Written(status, fields, Encode(pieces, lines))| <= MAX_BODY + 1
    requires Delivers(arrivals, last, Written(status, fields, Encode(pieces, lines)))
    ensures Received(arrivals + [last], Reader(expectNoBody))
            == Whole(status, fields, Data(pieces), Some(FoldLines(TrailerState(map[], []), lines).fields), last)
  {
    var s := Written(status, fields, Encode(pieces, lines));
    WrittenCarries(expectNoBody, status, fields, pieces, lines);
    PlainChunks(pieces);
    ChunkedWhole(s, Reader(expectNoBody), pieces, lines, arrivals, last);
  }

  // ---------- from the status line to the last byte ----------

  /** A status line, and fields around the one that frames the body. */
  predicate ValidMessage(l: StatusLine, before: seq<WireField>, after: seq<WireField>) {
    && ValidStatus(l) && NoFraming(before) && NoFraming(after)
    && (forall i :: 0 <= i < |before| ==> ValidWire(before[i]))
    && (forall i :: 0 <= i < |after| ==> ValidWire(after[i]))
  }

  lemma MessageHeader(l: StatusLine, before: seq<WireField>, f: WireField, after: seq<WireField>)
    requires ValidMessage(l, before, after) && ValidWire(f)
    ensures ValidHeader(StatusText(l), before + [f] + after)
  {
    var line := StatusText(l);
    VersionSplit(l, l.tail);
    forall b | b in line ensures b != CR && b != LF {}
  }

  /** Any status line with a code that has a body, and a Content-Length with the number of its bytes among any
      other fields: the body is returned in full, and no more, for every way the network cuts the stream, exactly
      when nothing follows it and header and body together stay within the limit. */
  lemma LengthDelivered(l: StatusLine, before: seq<WireField>, after: seq<WireField>, body: Bytes, rest: Bytes)
    requires ValidMessage(l, before, after) && |body| <= 5242880
    requires !(100 <= l.code < 200) && l.code != 204 && l.code != 304
    ensures var header := EncodeHeader(StatusText(l), before + [LengthField(|body|)] + after);
            (forall arrivals, last :: Delivers(arrivals, last, header + (BLANK_CRLF + (body + rest)))
                  ==> Received(arrivals + [last], Reader(false)) == Response(Some(header), body, None, last.bytes == []))
            <==> rest == [] && |header + (BLANK_CRLF + body)| <= 5242881
  {
    var status, fields := StatusText(l), before + [LengthField(|body|)] + after;
    LengthWire(|body|);
    MessageHeader(l, before, LengthField(|body|), after);
    LengthAmong(before, |body|, after);
    LengthBack(|body|);
    StatusBack(l);
    WrittenLengthIff(false, status, fields, body, rest);
  }

  /** The same for a chunked body whose data holds no line feed in any chunk, and no chunk of a single zero. */
  lemma ChunksDelivered(l: StatusLine, before: seq<WireField>, after: seq<WireField>, pieces: seq<Piece>,
                        lines: seq<Bytes>, arrivals: seq<Read>, last: Read)
    requires ValidMessage(l, before, after) && ValidPieces(pieces) && ValidLines(lines)
    requires !(100 <= l.code < 200) && l.code != 204 && l.code != 304
    requires forall i :: 0 <= i < |pieces| ==> PlainData(pieces[i])
    requires var s := Written(StatusText(l), before + [ChunkedField()] + after, Encode(pieces, lines));
             |s| <= 5242881 && Delivers(arrivals, last, s)
    ensures Received(arrivals + [last], Reader(false))
            == Response(Some(EncodeHeader(StatusText(l), before + [ChunkedField()] + after)), Data(pieces),
                        Some(FoldLines(TrailerState(map[], []), lines).fields), last.bytes == [])
  {
    ChunkedWire();
    MessageHeader(l, before, ChunkedField(), after);
    ChunkedAmong(before, after);
    StatusBack(l);
    WrittenChunks(false, StatusText(l), before + [ChunkedField()] + after, pieces, lines, arrivals, last);
  }

  /** A response that has no body, for its code or because none was expected, is handed over without one for
      every way the network cuts the stream.  It counts as complete exactly when reading stopped right behind the
      header before any error came, or a stream of HTTP/1.0 without a declared length ended in order. */
  lemma BodilessDelivered(expectNoBody: bool, l: StatusLine, fields: seq<WireField>, rest: Bytes,
                          arrivals: seq<Read>, last: Read)
    requires expectNoBody || 100 <= l.code < 200 || l.code == 204 || l.code == 304
    requires ValidStatus(l) && ValidHeader(StatusText(l), fields)
    requires |EncodeHeader(StatusText(l), fields)| + 4 <= MAX_BODY + 1
    requires Delivers(arrivals, last, Written(StatusText(l), fields, rest))
    ensures var header := EncodeHeader(StatusText(l), fields);
            var f, c := FramingIn(expectNoBody, header), Collect([], None, arrivals + [last], Reader(expectNoBody));
            && |header| + 4 <= |c.raw| && c.raw <= Written(StatusText(l), fields, rest)
            && (c.err.NoError? || (c.err == last.err && c.raw == Written(StatusText(l), fields, rest)))
            && Received(arrivals + [last], Reader(expectNoBody))
               == if f.Rejected? then BadFraming
                  else Response(Some(header), [], None,
                                if c.err.NoError? then |c.raw| == |header| + 4
                                else last.err.Eof? && l.minor == 48 && !f.chunked && f.contentLength.None?)
  {
    var headers, header := Reader(expectNoBody), EncodeHeader(StatusText(l), fields);
    WrittenRead(expectNoBody, StatusText(l), fields, rest);
    BodilessDeclared(expectNoBody, l, fields);
    HeaderCollected(Written(StatusText(l), fields, rest), header, arrivals, last, headers);
    BodilessAnswer(Collect([], None, arrivals + [last], headers), headers, header);
  }

  lemma BodilessDeclared(expectNoBody: bool, l: StatusLine, fields: seq<WireField>)
    requires expectNoBody || 100 <= l.code < 200 || l.code == 204 || l.code == 304
    requires ValidStatus(l) && ValidHeader(StatusText(l), fields)
    ensures var f := FramingIn(expectNoBody, EncodeHeader(StatusText(l), fields));
            f.Framed? ==> f.noBody && f.http10 == (l.minor == 48)
  {
    StatusBack(l);
    HeaderBack(expectNoBody, StatusText(l), fields);
  }

  /** What has been collected of a written response. */
  lemma HeaderCollected(s: Bytes, header: Bytes, arrivals: seq<Read>, last: Read, headers: Headers)
    requires Settled(s) && Scan(s) == Some(Mark(|header|, 4)) && |header| + 4 <= MAX_BODY + 1
    requires |header| <= |s| && s[..|header|] == header && Delivers(arrivals, last, s)
    ensures var c := Collect([], None, arrivals + [last], headers);
            && c.mark == Some(Mark(|header|, 4)) && |header| + 4 <= |c.raw| && c.raw <= s && c.raw[..|header|] == header
            && (c.err.NoError? || (c.err == last.err && c.raw == s))
  {
    assert [] + (Joined(arrivals) + last.bytes) == s;
    MarkFound(s, [], arrivals, last, headers);
    CollectsPart(s, [], None, arrivals, last, headers);
  }

  lemma BodilessAnswer(c: Collected, headers: Headers, header: Bytes)
    requires c.mark == Some(Mark(|header|, 4)) && |header| + 4 <= |c.raw| && c.raw[..|header|] == header
    requires headers(header).Framed? ==> headers(header).noBody
    ensures var f := headers(header);
            Answer(c, headers) == if f.Rejected? then BadFraming
                                  else Response(Some(header), [], None,
                                                if c.err.NoError? then |c.raw| == |header| + 4
                                                else c.err.Eof? && f.http10 && !f.chunked && f.contentLength.None?)
  {
    assert Take([], MAX_BODY) == [];
    assert Decode([], [], []) == Decoded([], None);
  }

  /** With nothing behind the header such a response is complete unless the error came with its last bytes, and
      even then if that was the orderly end of HTTP/1.0 without a declared length. */
  lemma BodilessAlone(expectNoBody: bool, l: StatusLine, fields: seq<WireField>, arrivals: seq<Read>, last: Read)
    requires expectNoBody || 100 <= l.code < 200 || l.code == 204 || l.code == 304
    requires ValidStatus(l) && ValidHeader(StatusText(l), fields) && NoFraming(fields)
    requires |EncodeHeader(StatusText(l), fields)| + 4 <= 5242881
    requires Delivers(arrivals, last, Written(StatusText(l), fields, []))
    ensures Received(arrivals + [last], Reader(expectNoBody))
            == Response(Some(EncodeHeader(StatusText(l), fields)), [], None,
                        last.bytes == [] || (last.err.Eof? && l.minor == 48))
  {
    var s, headers := Written(StatusText(l), fields, []), Reader(expectNoBody);
    BodilessDelivered(expectNoBody, l, fields, [], arrivals, last);
    WrittenRead(expectNoBody, StatusText(l), fields, []);
    NoLengths(fields);
    BodilessDeclared(expectNoBody, l, fields);
    WholeIff(s, headers);
    assert Collect([], None, arrivals + [last], headers) == All(s, last, headers);
  }

  lemma MessageDeclares(l: StatusLine, fields: seq<WireField>)
    requires ValidStatus(l) && ValidHeader(StatusText(l), fields) && NoFraming(fields)
    requires !(100 <= l.code < 200) && l.code != 204 && l.code != 304
    ensures FramingIn(false, EncodeHeader(StatusText(l), fields)) == Framed(false, false, None, l.minor == 48)
  {
    StatusBack(l);
    NoLengths(fields);
    Undeclared(l.minor == 48);
    HeaderBack(false, StatusText(l), fields);
  }

  lemma Undeclared(http10: bool)
    ensures Declared(false, http10, None, []) == Framed(false, false, None, http10)
  {
  }

  /** Without either field the body ends with the connection: it is returned in full, and counts as complete only
      for HTTP/1.0 and an orderly close. */
  lemma CloseDelivered(l: StatusLine, fields: seq<WireField>, body: Bytes, arrivals: seq<Read>, last: Read)
    requires ValidStatus(l) && ValidHeader(StatusText(l), fields) && NoFraming(fields)
    requires !(100 <= l.code < 200) && l.code != 204 && l.code != 304
    requires |Written(StatusText(l), fields, body)| <= 5242880
    requires Delivers(arrivals, last, Written(StatusText(l), fields, body))
    ensures Received(arrivals + [last], Reader(false))
            == Response(Some(EncodeHeader(StatusText(l), fields)), body, None, l.minor == 48 && last.err.Eof?)
  {
    WrittenRead(false, StatusText(l), fields, body);
    MessageDeclares(l, fields);
    UntilClose(Written(StatusText(l), fields, body), Reader(false), arrivals, last);
  }

  lemma {:induction false} NamedLength(fields: seq<WireField>)
    requires Names(fields, CONTENT_LENGTH)
    ensures LengthsIn(fields) != []
    decreases |fields|
  {
    var init, f := fields[..|fields| - 1], fields[|fields| - 1];
    assert fields == init + [f];
    NamesSnoc(init, f, CONTENT_LENGTH);
    if KeyOf(f) != CONTENT_LENGTH {
      NamedLength(init);
    }
  }

  /** A response with both fields, with lengths that disagree or are none, or with an ill-formed list of codings is
      refused for every way the network cuts it. */
  lemma ConflictRefused(expectNoBody: bool, status: Bytes, fields: seq<WireField>, rest: Bytes,
                        arrivals: seq<Read>, last: Read)
    requires ValidHeader(status, fields) && |EncodeHeader(status, fields)| + 4 <= MAX_BODY + 1
    requires if Names(fields, TRANSFER_ENCODING)
             then Names(fields, CONTENT_LENGTH) || BadCodings(SplitAt(CodingIn(fields), 44))
             else !Consistent(LengthsIn(fields))
    requires Delivers(arrivals, last, Written(status, fields, rest))
    ensures Received(arrivals + [last], Reader(expectNoBody)) == BadFraming
  {
    WrittenRead(expectNoBody, status, fields, rest);
    if Names(fields, CONTENT_LENGTH) {
      NamedLength(fields);
    }
    HeaderCollected(Written(status, fields, rest), EncodeHeader(status, fields), arrivals, last, Reader(expectNoBody));
  }
}
