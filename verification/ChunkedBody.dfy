/** Decoding of chunked bodies, and the test for their end (section 7.1 of RFC 9112). */
module ChunkedBody {
  import opened ByteStrings
  import opened Options

  const MAX_BODY: nat := 5242880
  const READ_SIZE: nat := 32768
  const MAX_INT64: nat := 0x7FFF_FFFF_FFFF_FFFF

  // ---------- chunk sizes ----------

  function HexDigit(b: Byte): Option<nat> {
    if 48 <= b <= 57 then Some(b - 48)
    else if 65 <= b <= 70 then Some(b - 55)
    else if 97 <= b <= 102 then Some(b - 87)
    else None
  }

  function HexValue(s: Bytes): Option<nat> {
    if s == [] then Some(0)
    else
      var high, low := HexValue(s[..|s| - 1]), HexDigit(s[|s| - 1]);
      if high.None? || low.None? then None else Some(16 * high.value + low.value)
  }

  /** `strconv.ParseInt(line, 16, 64)`. */
  function ParseSize(line: Bytes): Option<int> {
    if line == [] then None
    else
      var negative := line[0] == 45;
      var digits := if negative || line[0] == 43 then line[1..] else line;
      var value := HexValue(digits);
      if digits == [] || value.None? then None
      else
        var n := if negative then 0 - value.value else value.value;
        if n > MAX_INT64 || n < 0 - MAX_INT64 - 1 then None else Some(n)
  }

  /** The size a chunk line declares: the trimmed text before the first semicolon. */
  function SizeOf(line: Bytes): Option<int> {
    ParseSize(TrimSpace(line[..Find(line, 59)]))
  }

  // ---------- trailers ----------

  type Fields = map<Bytes, Bytes>

  function LowerByte(b: Byte): Byte { if 65 <= b <= 90 then b + 32 else b }

  function Lower(s: Bytes): Bytes { seq(|s|, i requires 0 <= i < |s| => LowerByte(s[i])) }

  /** Removes carriage returns and line feeds at the end. */
  function ChompRight(s: Bytes): Bytes {
    if s != [] && (s[|s| - 1] == CR || s[|s| - 1] == LF) then ChompRight(s[..|s| - 1]) else s
  }

  datatype TrailerState = TrailerState(fields: Fields, last: Bytes)

  /** One trailer line that is not blank. */
  function TrailerLine(t: TrailerState, line: Bytes): TrailerState {
    if line == [] then t
    else if line[0] == 32 || line[0] == 9 then
      if t.last != [] then
        var sofar := if t.last in t.fields then t.fields[t.last] else [];
        t.(fields := t.fields[t.last := sofar + [32] + TrimSpace(line)])
      else t
    else
      var colon := Find(line, 58);
      if colon == |line| then t
      else
        var key := Lower(TrimSpace(line[..colon]));
        TrailerState(t.fields[key := TrimSpace(line[colon + 1..])], key)
  }

  /** What is left after the next line feed. */
  function AfterLine(s: Bytes): (r: Bytes)
    ensures |r| <= |s| && (s != [] ==> |r| < |s|)
  {
    if Find(s, LF) == |s| then [] else s[Find(s, LF) + 1..]
  }

  function FirstLine(s: Bytes): Bytes {
    if Find(s, LF) == |s| then s else s[..Find(s, LF) + 1]
  }

  function ReadTrailers(rest: Bytes, t: TrailerState): Fields
    decreases |rest|
  {
    var line := ChompRight(FirstLine(rest));
    if line == [] then t.fields
    else if rest == [] then t.fields
    else ReadTrailers(AfterLine(rest), TrailerLine(t, line))
  }

  // ---------- the decoder ----------

  datatype Decoded = Decoded(body: Bytes, trailers: Option<Fields>)

  function Finish(whole: Bytes, out: Bytes): Decoded {
    Decoded(if |out| > 0 then out else whole, None)
  }

  function Min(a: int, b: int): int { if a < b then a else b }

  /** What is left of the input after the data of a chunk and the line break behind it. */
  function AfterChunk(rest: Bytes, size: nat): (r: Bytes)
    ensures |r| <= |rest|
  {
    AfterLine(rest[Min(size, |rest|)..])
  }

  /** What the next line of the input turns out to be. */
  datatype Head = NoLine | Blank | Bad | Last | Chunk(size: nat)

  function HeadOf(rest: Bytes): Head {
    var nl := Find(rest, LF);
    if nl == |rest| then NoLine
    else
      var line := TrimSpace(rest[..nl + 1]);
      if line == [] then Blank
      else
        var size := SizeOf(line);
        if size.None? || size.value < 0 then Bad else if size.value == 0 then Last else Chunk(size.value)
  }

  /** The loop over chunks: `rest` of the input is still to be read, `out` is decoded. */
  function Decode(whole: Bytes, rest: Bytes, out: Bytes): Decoded
    decreases |rest|
  {
    var after := AfterLine(rest);
    match HeadOf(rest)
    case NoLine => Finish(whole, out)
    case Blank => Decode(whole, after, out)
    case Bad => Finish(whole, out)
    case Last => Decoded(out, Some(ReadTrailers(after, TrailerState(map[], []))))
    case Chunk(size) =>
      if MAX_BODY - |out| <= 0 then Finish(whole, out)
      else
        var toRead := Min(size, MAX_BODY - |out|);
        Decode(whole, AfterChunk(after, size), out + after[..Min(toRead, |after|)])
  }

  /** Reads a line and says what it is. */
  method ReadHead(rest: Bytes) returns (head: Head, after: Bytes)
    ensures head == HeadOf(rest)
    ensures after == AfterLine(rest)
  {
    var nl := Find(rest, LF);
    if nl == |rest| {
      return NoLine, [];
    }
    after := rest[nl + 1..];
    var line := TrimSpace(rest[..nl + 1]);
    if line == [] {
      return Blank, after;
    }
    var size := SizeOf(line);
    if size.None? || size.value < 0 {
      return Bad, after;
    }
    if size.value == 0 {
      return Last, after;
    }
    return Chunk(size.value), after;
  }

  /** `dechunkBody`, reading the data of a chunk through a bounded buffer. */
  method DechunkBody(body: Bytes) returns (decoded: Bytes, trailers: Option<Fields>)
    ensures Decoded(decoded, trailers) == Decode(body, body, [])
  {
    var rest, out: Bytes := body, [];
    while true
      invariant Decode(body, rest, out) == Decode(body, body, [])
      decreases |rest|
    {
      var head, after := ReadHead(rest);
      if head.NoLine? || head.Bad? {
        break;
      }
      if head.Blank? {
        rest := after;
        continue;
      }
      if head.Last? {
        var fields := ReadTrailerFields(after);
        return out, Some(fields);
      }
      var remaining := MAX_BODY - |out|;
      if remaining <= 0 {
        break;
      }
      var data := ReadData(after, Min(head.size, remaining));
      rest := AfterChunk(after, head.size);
      out := out + data;
    }
    if |out| > 0 {
      return out, None;
    }
    return body, None;
  }

  /** The buffered copy loop: as many of the wanted bytes as there are. */
  method ReadData(input: Bytes, toRead: nat) returns (data: Bytes)
    ensures data == input[..Min(toRead, |input|)]
  {
    data := [];
    var rest := input;
    while |data| < toRead
      invariant |data| <= toRead && |data| <= |input| && data == input[..|data|] && rest == input[|data|..]
      decreases toRead - |data|
    {
      var want := Min(Min(READ_SIZE, toRead), toRead - |data|);
      var n := Min(want, |rest|);
      data, rest := data + rest[..n], rest[n..];
      if n < want {
        return;
      }
    }
  }

  method ReadTrailerFields(input: Bytes) returns (fields: Fields)
    ensures fields == ReadTrailers(input, TrailerState(map[], []))
  {
    var rest, t := input, TrailerState(map[], []);
    while true
      invariant ReadTrailers(rest, t) == ReadTrailers(input, TrailerState(map[], []))
      decreases |rest|
    {
      var line := ChompRight(FirstLine(rest));
      if line == [] || rest == [] {
        return t.fields;
      }
      t := TrailerLine(t, line);
      rest := AfterLine(rest);
    }
  }

  // ---------- chunked encoding ----------

  /** A chunk: its size in hexadecimal, with any leading zeros and case, an extension or none, and
      its data. */
  datatype Piece = Piece(size: Bytes, ext: Bytes, data: Bytes)

  predicate ValidPiece(p: Piece) {
    && p.size != [] && HexValue(p.size) == Some(|p.data|) && 0 < |p.data| <= MAX_INT64
    && (p.ext != [] ==> p.ext[0] == 59) && LF !in p.ext
  }

  function EncodePiece(p: Piece): Bytes { p.size + p.ext + CRLF + p.data + CRLF }

  function EncodePieces(pieces: seq<Piece>): Bytes {
    if pieces == [] then [] else EncodePiece(pieces[0]) + EncodePieces(pieces[1..])
  }

  /** A trailer line without its line break: not blank. */
  predicate ValidLine(line: Bytes) { line != [] && CR !in line && LF !in line }

  predicate ValidLines(lines: seq<Bytes>) { forall i :: 0 <= i < |lines| ==> ValidLine(lines[i]) }

  predicate ValidPieces(pieces: seq<Piece>) { forall i :: 0 <= i < |pieces| ==> ValidPiece(pieces[i]) }

  function EncodeLines(lines: seq<Bytes>): Bytes {
    if lines == [] then [] else lines[0] + CRLF + EncodeLines(lines[1..])
  }

  /** A complete chunked body: chunks, last chunk, trailer lines, and the empty line. */
  function Encode(pieces: seq<Piece>, lines: seq<Bytes>): Bytes {
    EncodePieces(pieces) + ([48] + CRLF + (EncodeLines(lines) + CRLF))
  }

  function Data(pieces: seq<Piece>): Bytes {
    if pieces == [] then [] else pieces[0].data + Data(pieces[1..])
  }

  function Take(s: Bytes, n: nat): Bytes { if |s| > n then s[..n] else s }

  // ---------- one chunk ----------

  lemma {:induction false} HexAll(s: Bytes)
    requires HexValue(s).Some?
    ensures forall i :: 0 <= i < |s| ==> HexDigit(s[i]).Some?
  {
    if s != [] {
      HexAll(s[..|s| - 1]);
      assert forall i :: 0 <= i < |s| - 1 ==> s[i] == s[..|s| - 1][i];
    }
  }

  lemma SizeText(p: Piece)
    requires ValidPiece(p)
    ensures LF !in p.size && 59 !in p.size && ParseSize(TrimSpace(p.size)) == Some(|p.data|)
    ensures !IsSpace(p.size[0]) && !IsSpace(p.size[|p.size| - 1])
  {
    HexAll(p.size);
    TrimKeeps(p.size);
    assert HexDigit(p.size[0]).Some?;
  }

  /** The trimmed chunk line is the size, followed by nothing or by a semicolon. */
  lemma LineText(p: Piece) returns (ext: Bytes)
    requires ValidPiece(p)
    ensures TrimSpace(p.size + p.ext + CRLF) == p.size + ext
    ensures ext != [] ==> ext[0] == 59
  {
    SizeText(p);
    var line := p.size + p.ext + CRLF;
    assert line[0] == p.size[0] && TrimLeft(line) == line;
    assert line == p.size + (p.ext + CRLF);
    TrimCrlf();
    TrimRightAppend(p.ext, CRLF);
    TrimRightAppend(p.size, p.ext + CRLF);
    assert TrimRight(p.size) == p.size;
    ext := TrimRight(p.ext);
    if p.ext != [] {
      TrimRightStarts(p.ext);
    } else {
      assert p.size + [] == p.size;
    }
  }

  lemma PieceSize(p: Piece)
    requires ValidPiece(p)
    ensures TrimSpace(p.size + p.ext + CRLF) != []
    ensures SizeOf(TrimSpace(p.size + p.ext + CRLF)) == Some(|p.data|)
  {
    SizeText(p);
    var ext := LineText(p);
    var line := p.size + ext;
    if ext == [] {
      assert line == p.size && Find(line, 59) == |line|;
    } else {
      assert line == p.size + [59] + ext[1..];
      FindIn(p.size, 59, ext[1..]);
    }
    assert line[..Find(line, 59)] == p.size;
  }

  lemma LineSplit(line: Bytes, more: Bytes)
    requires LF !in line
    ensures var s := line + CRLF + more;
            Find(s, LF) == |line| + 1 && AfterLine(s) == more && FirstLine(s) == line + CRLF
  {
    var s := line + CRLF + more;
    assert s == (line + [CR]) + [LF] + more;
    FindIn(line + [CR], LF, more);
    assert s[|line| + 2..] == more;
    assert s[..|line| + 2] == line + CRLF;
  }

  lemma PieceHead(p: Piece, more: Bytes)
    requires ValidPiece(p)
    ensures HeadOf(EncodePiece(p) + more) == Chunk(|p.data|)
    ensures AfterLine(EncodePiece(p) + more) == p.data + CRLF + more
    ensures AfterChunk(p.data + CRLF + more, |p.data|) == more
  {
    SizeText(p);
    var s := EncodePiece(p) + more;
    assert s == (p.size + p.ext) + CRLF + (p.data + CRLF + more);
    LineSplit(p.size + p.ext, p.data + CRLF + more);
    assert s[..Find(s, LF) + 1] == p.size + p.ext + CRLF;
    PieceSize(p);
    assert (p.data + CRLF + more)[|p.data|..] == [] + CRLF + more;
    LineSplit([], more);
  }

  lemma LastHead(more: Bytes)
    ensures HeadOf([48] + CRLF + more) == Last && AfterLine([48] + CRLF + more) == more
  {
    LineSplit([48], more);
    var s := [48] + CRLF + more;
    assert s[..3] == [48] + CRLF;
    var line := [48] + CRLF;
    TrimCrlf();
    TrimRightAppend([48], CRLF);
    assert TrimLeft(line) == line && TrimSpace(line) == [48];
    assert [48][..Find([48], 59)] == [48];
    TrimKeeps([48]);
    assert [48][..0] == [] && HexValue([]) == Some(0);
    assert HexValue([48]) == Some(0);
  }

  // ---------- all chunks ----------

  /** Whether the decoder still looks beyond these chunks: the cap is not reached before the last. */
  predicate Reaches(pieces: seq<Piece>, have: nat)
    decreases |pieces|
  {
    pieces == [] || (have < MAX_BODY && Reaches(pieces[1..], have + Min(|pieces[0].data|, MAX_BODY - have)))
  }

  lemma DecodeChunk(whole: Bytes, rest: Bytes, out: Bytes, size: nat)
    requires HeadOf(rest) == Chunk(size)
    ensures var after := AfterLine(rest);
            Decode(whole, rest, out)
            == if |out| >= MAX_BODY then Finish(whole, out)
               else Decode(whole, AfterChunk(after, size), out + after[..Min(Min(size, MAX_BODY - |out|), |after|)])
  {
  }

  /** One chunk of the loop. */
  lemma DecodePiece(whole: Bytes, p: Piece, more: Bytes, out: Bytes)
    requires ValidPiece(p) && |out| <= MAX_BODY
    ensures Decode(whole, EncodePiece(p) + more, out)
            == if |out| < MAX_BODY then Decode(whole, more, out + p.data[..Min(|p.data|, MAX_BODY - |out|)])
               else Decoded(out, None)
  {
    PieceHead(p, more);
    DecodeChunk(whole, EncodePiece(p) + more, out, |p.data|);
    var after := p.data + CRLF + more;
    if |out| < MAX_BODY {
      var toRead := Min(|p.data|, MAX_BODY - |out|);
      assert after[..Min(toRead, |after|)] == p.data[..toRead];
    }
  }

  lemma {:induction false} DecodePieces(whole: Bytes, pieces: seq<Piece>, tail: Bytes, out: Bytes)
    requires |out| <= MAX_BODY && ValidPieces(pieces)
    ensures var full := Take(out + Data(pieces), MAX_BODY);
            Decode(whole, EncodePieces(pieces) + tail, out)
            == if Reaches(pieces, |out|) then Decode(whole, tail, full) else Decoded(full, None)
    decreases |pieces|
  {
    if pieces == [] {
      assert EncodePieces(pieces) + tail == tail && out + Data(pieces) == out;
    } else {
      var p, rest := pieces[0], pieces[1..];
      assert EncodePieces(pieces) + tail == EncodePiece(p) + (EncodePieces(rest) + tail);
      DecodePiece(whole, p, EncodePieces(rest) + tail, out);
      if |out| < MAX_BODY {
        DecodePieces(whole, rest, tail, out + p.data[..Min(|p.data|, MAX_BODY - |out|)]);
        TakeTwice(out, p.data, Data(rest));
      } else {
        assert Take(out + Data(pieces), MAX_BODY) == out;
      }
    }
  }

  lemma TakeTwice(out: Bytes, data: Bytes, rest: Bytes)
    requires |out| <= MAX_BODY
    ensures Take(out + data[..Min(|data|, MAX_BODY - |out|)] + rest, MAX_BODY) == Take(out + (data + rest), MAX_BODY)
  {
    var n := Min(|data|, MAX_BODY - |out|);
    if n == |data| {
      assert data[..n] == data;
      assert out + data + rest == out + (data + rest);
    } else {
      assert |out + data[..n]| == MAX_BODY;
      assert Take(out + data[..n] + rest, MAX_BODY) == out + data[..n];
      assert Take(out + (data + rest), MAX_BODY) == out + data[..n];
    }
  }

  // ---------- trailers ----------

  function FoldLines(t: TrailerState, lines: seq<Bytes>): TrailerState
    decreases |lines|
  {
    if lines == [] then t else FoldLines(TrailerLine(t, lines[0]), lines[1..])
  }

  lemma {:induction false} ChompLine(line: Bytes)
    requires CR !in line && LF !in line
    ensures ChompRight(line + CRLF) == line
  {
    var s := line + CRLF;
    assert s[..|s| - 1] == line + [CR];
    assert (line + [CR])[..|line|] == line;
    assert ChompRight(line + [CR]) == ChompRight(line);
    if line != [] {
      assert line[|line| - 1] in line;
    }
  }

  lemma {:induction false} TrailersRead(lines: seq<Bytes>, rest: Bytes, t: TrailerState)
    requires ValidLines(lines)
    ensures ReadTrailers(EncodeLines(lines) + CRLF + rest, t) == FoldLines(t, lines).fields
    decreases |lines|
  {
    if lines == [] {
      assert EncodeLines(lines) + CRLF + rest == [] + CRLF + rest;
      LineSplit([], rest);
      ChompLine([]);
    } else {
      var line, more := lines[0], EncodeLines(lines[1..]) + CRLF + rest;
      assert EncodeLines(lines) + CRLF + rest == line + CRLF + more;
      LineSplit(line, more);
      ChompLine(line);
      TrailersRead(lines[1..], rest, TrailerLine(t, line));
    }
  }

  // ---------- the round trip ----------

  /** `dechunkBody` inverts the encoding: whatever follows the body, it returns the first MaxBodySize
      bytes of the data, and the trailers exactly when the cap is not reached before the last chunk,
      as is always the case when all of the data fits. */
  lemma DechunkInverts(pieces: seq<Piece>, lines: seq<Bytes>, rest: Bytes)
    requires ValidPieces(pieces)
    requires ValidLines(lines)
    ensures var body := Encode(pieces, lines) + rest;
            Decode(body, body, [])
            == Decoded(Take(Data(pieces), MAX_BODY),
                       if pieces == [] || |Data(pieces[..|pieces| - 1])| < MAX_BODY
                       then Some(FoldLines(TrailerState(map[], []), lines).fields) else None)
    ensures |Data(pieces)| <= MAX_BODY ==> pieces == [] || |Data(pieces[..|pieces| - 1])| < MAX_BODY
  {
    var body := Encode(pieces, lines) + rest;
    DecodeAll(body, pieces, lines, rest);
    ReachesAll(pieces, 0);
    if pieces != [] {
      LastAdds(pieces);
    }
  }

  lemma LastAdds(pieces: seq<Piece>)
    requires ValidPieces(pieces) && pieces != []
    ensures |Data(pieces[..|pieces| - 1])| < |Data(pieces)|
  {
    DataSnoc(pieces[..|pieces| - 1], pieces[|pieces| - 1]);
    assert pieces == pieces[..|pieces| - 1] + [pieces[|pieces| - 1]];
  }

  lemma DecodeAll(whole: Bytes, pieces: seq<Piece>, lines: seq<Bytes>, rest: Bytes)
    requires ValidPieces(pieces) && ValidLines(lines)
    ensures Decode(whole, Encode(pieces, lines) + rest, [])
            == Decoded(Take(Data(pieces), MAX_BODY),
                       if Reaches(pieces, 0) then Some(FoldLines(TrailerState(map[], []), lines).fields) else None)
  {
    var trailer := EncodeLines(lines) + CRLF + rest;
    assert Encode(pieces, lines) + rest == EncodePieces(pieces) + ([48] + CRLF + trailer);
    DecodePieces(whole, pieces, [48] + CRLF + trailer, []);
    assert [] + Data(pieces) == Data(pieces);
    LastHead(trailer);
    TrailersRead(lines, rest, TrailerState(map[], []));
  }

  lemma {:induction false} DataSnoc(pieces: seq<Piece>, p: Piece)
    ensures Data(pieces + [p]) == Data(pieces) + p.data
    decreases |pieces|
  {
    if pieces == [] {
      assert [p][1..] == [];
    } else {
      assert (pieces + [p])[1..] == pieces[1..] + [p];
      DataSnoc(pieces[1..], p);
    }
  }

  lemma {:induction false} ReachesAll(pieces: seq<Piece>, have: nat)
    requires have <= MAX_BODY && ValidPieces(pieces)
    ensures Reaches(pieces, have) <==> pieces == [] || have + |Data(pieces[..|pieces| - 1])| < MAX_BODY
    decreases |pieces|
  {
    if pieces != [] {
      var rest := pieces[1..];
      if have < MAX_BODY {
        ReachesAll(rest, have + Min(|pieces[0].data|, MAX_BODY - have));
      }
      if rest != [] {
        assert pieces[..|pieces| - 1] == [pieces[0]] + rest[..|rest| - 1];
        assert ([pieces[0]] + rest[..|rest| - 1])[1..] == rest[..|rest| - 1];
      } else {
        assert pieces[..|pieces| - 1] == [];
      }
    }
  }

  // ---------- well-formed trailer fields ----------

  /** A field whose name is lower case without a colon, and whose name and value carry no white space
      at their ends. */
  datatype Field = Field(name: Bytes, value: Bytes)

  predicate ValidField(f: Field) {
    && f.name != [] && 58 !in f.name && !IsSpace(f.name[0]) && TrimSpace(f.name) == f.name && Lower(f.name) == f.name
    && TrimSpace(f.value) == f.value
  }

  function FieldLine(f: Field): Bytes { f.name + [58] + ([32] + f.value) }

  function FieldLines(fields: seq<Field>): seq<Bytes> {
    seq(|fields|, i requires 0 <= i < |fields| => FieldLine(fields[i]))
  }

  /** The map the fields stand for; a later field of the same name wins. */
  function FieldMap(fields: seq<Field>): Fields {
    if fields == [] then map[]
    else FieldMap(fields[..|fields| - 1])[fields[|fields| - 1].name := fields[|fields| - 1].value]
  }

  lemma FieldRead(t: TrailerState, f: Field)
    requires ValidField(f)
    ensures TrailerLine(t, FieldLine(f)) == TrailerState(t.fields[f.name := f.value], f.name)
  {
    var line := FieldLine(f);
    FindIn(f.name, 58, [32] + f.value);
    assert line[0] == f.name[0];
    assert line[..|f.name|] == f.name;
    assert line[|f.name| + 1..] == [32] + f.value;
    assert ([32] + f.value)[1..] == f.value;
  }

  /** A trailer line without a colon that continues nothing is skipped: a folded line behind it still belongs to the
      field before. */
  lemma OtherTrailer(t: TrailerState, line: Bytes)
    requires line != [] && line[0] != 32 && line[0] != 9 && forall i :: 0 <= i < |line| ==> line[i] != 58
    ensures TrailerLine(t, line) == t
  {
  }

  /** A trailer field that goes on in a line behind white space has both parts as its value. */
  lemma FoldedTrailer(t: TrailerState, f: Field, space: Byte, more: Bytes)
    requires ValidField(f) && (space == 32 || space == 9)
    ensures TrailerLine(TrailerLine(t, FieldLine(f)), [space] + more)
            == TrailerState(t.fields[f.name := f.value + [32] + TrimSpace(more)], f.name)
  {
    FieldRead(t, f);
    assert ([space] + more)[1..] == more;
  }

  lemma {:induction false} FoldSnoc(t: TrailerState, lines: seq<Bytes>, line: Bytes)
    ensures FoldLines(t, lines + [line]) == TrailerLine(FoldLines(t, lines), line)
    decreases |lines|
  {
    if lines == [] {
      assert [line][1..] == [];
    } else {
      assert (lines + [line])[1..] == lines[1..] + [line];
      FoldSnoc(TrailerLine(t, lines[0]), lines[1..], line);
    }
  }

  lemma FieldLinesSnoc(t: TrailerState, fields: seq<Field>, f: Field)
    requires ValidField(f)
    ensures FoldLines(t, FieldLines(fields + [f])).fields == FoldLines(t, FieldLines(fields)).fields[f.name := f.value]
  {
    assert FieldLines(fields + [f]) == FieldLines(fields) + [FieldLine(f)];
    FoldSnoc(t, FieldLines(fields), FieldLine(f));
    FieldRead(FoldLines(t, FieldLines(fields)), f);
  }

  /** Trailer fields come back as the map they stand for. */
  lemma {:induction false} TrailerFieldsRead(fields: seq<Field>)
    requires forall i :: 0 <= i < |fields| ==> ValidField(fields[i])
    ensures FoldLines(TrailerState(map[], []), FieldLines(fields)).fields == FieldMap(fields)
    decreases |fields|
  {
    if fields == [] {
      assert FieldLines(fields) == [];
    } else {
      var init, last := fields[..|fields| - 1], fields[|fields| - 1];
      assert fields == init + [last];
      TrailerFieldsRead(init);
      FieldLinesSnoc(TrailerState(map[], []), init, last);
    }
  }

  // ---------- canonical instances ----------

  function HexByte(n: nat): Byte
    requires n < 16
  {
    if n < 10 then 48 + n else 87 + n
  }

  /** Lower-case hexadecimal without leading zeros. */
  function HexText(n: nat): Bytes {
    if n < 16 then [HexByte(n)] else HexText(n / 16) + [HexByte(n % 16)]
  }

  lemma {:induction false} HexTextValue(n: nat)
    ensures HexText(n) != [] && HexValue(HexText(n)) == Some(n)
  {
    if n < 16 {
      assert HexText(n)[..0] == [] && HexValue([]) == Some(0);
    } else {
      HexTextValue(n / 16);
      assert HexText(n)[..|HexText(n)| - 1] == HexText(n / 16);
    }
  }

  /** The case of a size does not matter. */
  lemma {:induction false} HexCase(s: Bytes)
    ensures HexValue(Lower(s)) == HexValue(s)
    decreases |s|
  {
    if s != [] {
      assert Lower(s)[..|s| - 1] == Lower(s[..|s| - 1]);
      HexCase(s[..|s| - 1]);
    }
  }

  function Canonical(data: seq<Bytes>): seq<Piece> {
    seq(|data|, i requires 0 <= i < |data| => Piece(HexText(|data[i]|), [], data[i]))
  }

  function Concat(data: seq<Bytes>): Bytes {
    if data == [] then [] else data[0] + Concat(data[1..])
  }

  lemma {:induction false} CanonicalData(data: seq<Bytes>)
    ensures Data(Canonical(data)) == Concat(data)
    decreases |data|
  {
    if data != [] {
      CanonicalData(data[1..]);
      assert Canonical(data)[1..] == Canonical(data[1..]);
    }
  }

  /** For every list of non-empty chunks that fits: decoding gives back their concatenation, with the
      trailers. */
  lemma CanonicalRoundTrip(data: seq<Bytes>, lines: seq<Bytes>)
    requires forall i :: 0 <= i < |data| ==> 0 < |data[i]|
    requires |Concat(data)| <= MAX_BODY && ValidLines(lines)
    ensures var body := Encode(Canonical(data), lines);
            Decode(body, body, []) == Decoded(Concat(data), Some(FoldLines(TrailerState(map[], []), lines).fields))
  {
    var pieces := Canonical(data);
    forall i | 0 <= i < |pieces| ensures ValidPiece(pieces[i]) {
      HexTextValue(|data[i]|);
      ChunkFits(data, i);
    }
    CanonicalData(data);
    DechunkInverts(pieces, lines, []);
    assert Encode(pieces, lines) + [] == Encode(pieces, lines);
  }

  lemma {:induction false} ChunkFits(data: seq<Bytes>, i: nat)
    requires i < |data|
    ensures |data[i]| <= |Concat(data)|
    decreases |data|
  {
    if i > 0 {
      ChunkFits(data[1..], i - 1);
    }
  }
}
