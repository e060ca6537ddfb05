/** Reading the header of a response: line breaks, status line, folded and repeated fields, and what they
    declare about the body. */
module HeaderFields {
  import opened ByteStrings
  import opened ChunkedBody
  import opened FramingHeaders
  import opened Options

  const TRANSFER_ENCODING: Bytes :=
    [116, 114, 97, 110, 115, 102, 101, 114, 45, 101, 110, 99, 111, 100, 105, 110, 103]
  const CONTENT_LENGTH: Bytes := [99, 111, 110, 116, 101, 110, 116, 45, 108, 101, 110, 103, 116, 104]
  const HTTP10: Bytes := [104, 116, 116, 112, 47, 49, 46, 48]

  // ---------- lines ----------

  /** `strings.ReplaceAll` of CRLF by LF. */
  function ReplaceCrlf(s: Bytes): Bytes
    decreases |s|
  {
    if s == [] then []
    else if At(s, 0, CRLF) then [LF] + ReplaceCrlf(s[2..])
    else [s[0]] + ReplaceCrlf(s[1..])
  }

  /** `strings.ReplaceAll` of CR by LF. */
  function ReplaceCr(s: Bytes): (r: Bytes)
    ensures |r| == |s|
  {
    seq(|s|, i requires 0 <= i < |s| => if s[i] == CR then LF else s[i])
  }

  function LinesOf(header: Bytes): (lines: seq<Bytes>)
    ensures lines != []
  {
    SplitAt(ReplaceCr(ReplaceCrlf(header)), LF)
  }

  // ---------- the status line ----------

  function FirstSpace(s: Bytes): (i: nat)
    ensures i <= |s|
  {
    if s == [] || IsSpace(s[0]) then 0 else 1 + FirstSpace(s[1..])
  }

  /** The second of the words of a trimmed line, or nothing. */
  function SecondWord(line: Bytes): Bytes {
    var rest := TrimLeft(line[FirstSpace(line)..]);
    rest[..FirstSpace(rest)]
  }

  /** The status; what is no number, or none of 64 bits, does not matter to the body. */
  function Status(line: Bytes): int {
    var n := Atoi(SecondWord(TrimSpace(line)));
    if n.Some? then n.value else 0
  }

  predicate IsHttp10(line: Bytes) { HTTP10 <= Lower(TrimSpace(line)) }

  predicate HasNoBody(expectNoBody: bool, status: int) {
    expectNoBody || 100 <= status < 200 || status == 204 || status == 304
  }

  // ---------- the fields ----------

  /** The map of fields, the values of Content-Length in order, and the last name. */
  datatype HeadState = HeadState(fields: Fields, lengths: seq<Bytes>, last: Bytes)

  const NO_FIELDS: HeadState := HeadState(map[], [], [])

  /** The first field of a name stays, but Transfer-Encoding collects all of its values. */
  function Entered(fields: Fields, key: Bytes, value: Bytes): Fields {
    if key !in fields then fields[key := value]
    else if key != TRANSFER_ENCODING then fields
    else if fields[key] == [] then fields[key := value]
    else if value != [] then fields[key := fields[key] + [44, 32] + value]
    else fields
  }

  function HeadLine(t: HeadState, line: Bytes): HeadState {
    if TrimSpace(line) == [] || line == [] then t
    else if line[0] == 32 || line[0] == 9 then
      if t.last != [] then
        var sofar := if t.last in t.fields then t.fields[t.last] else [];
        t.(fields := t.fields[t.last := sofar + [32] + TrimSpace(line)])
      else t
    else
      var colon := Find(line, 58);
      if colon == |line| then t
      else
        var key, value := Lower(TrimSpace(line[..colon])), TrimSpace(line[colon + 1..]);
        HeadState(Entered(t.fields, key, value),
                  if key == CONTENT_LENGTH then t.lengths + SplitAt(value, 44) else t.lengths,
                  key)
  }

  function FoldHead(t: HeadState, lines: seq<Bytes>): HeadState
    decreases |lines|
  {
    if lines == [] then t else FoldHead(HeadLine(t, lines[0]), lines[1..])
  }

  function ReadHead(lines: seq<Bytes>): HeadState
    requires lines != []
  {
    FoldHead(NO_FIELDS, lines[1..])
  }

  /** What a header declares about the body behind it. */
  function FramingIn(expectNoBody: bool, header: Bytes): Framing {
    var lines := LinesOf(header);
    var head := ReadHead(lines);
    Declared(HasNoBody(expectNoBody, Status(lines[0])), IsHttp10(lines[0]),
             if TRANSFER_ENCODING in head.fields then Some(head.fields[TRANSFER_ENCODING]) else None, head.lengths)
  }

  /** The loop over the lines. */
  method ReadFields(lines: seq<Bytes>) returns (fields: Fields, lengths: seq<Bytes>)
    requires lines != []
    ensures fields == ReadHead(lines).fields && lengths == ReadHead(lines).lengths
  {
    fields, lengths := map[], [];
    var last: Bytes := [];
    for i := 0 to |lines|
      invariant i == 0 ==> HeadState(fields, lengths, last) == NO_FIELDS
      invariant i > 0 ==> FoldHead(HeadState(fields, lengths, last), lines[i..]) == ReadHead(lines)
    {
      var line := lines[i];
      assert i > 0 ==> lines[i..][0] == line && lines[i..][1..] == lines[i + 1..];
      if i == 0 || TrimSpace(line) == [] {
        continue;
      }
      if |line| > 0 && (line[0] == 32 || line[0] == 9) {
        if last != [] {
          var sofar := if last in fields then fields[last] else [];
          fields := fields[last := sofar + [32] + TrimSpace(line)];
        }
        continue;
      }
      var colon := Find(line, 58);
      if colon == |line| {
        continue;
      }
      var key, value := Lower(TrimSpace(line[..colon])), TrimSpace(line[colon + 1..]);
      if key == CONTENT_LENGTH {
        lengths := lengths + SplitAt(value, 44);
      }
      fields := Entered(fields, key, value);
      last := key;
    }
    assert lines[|lines|..] == [];
  }

  method ParseHeader(expectNoBody: bool, header: Bytes) returns (f: Framing)
    ensures f == FramingIn(expectNoBody, header)
  {
    var lines := LinesOf(header);
    var fields, lengths := ReadFields(lines);
    f := FramingOf(HasNoBody(expectNoBody, Status(lines[0])), IsHttp10(lines[0]),
                   if TRANSFER_ENCODING in fields then Some(fields[TRANSFER_ENCODING]) else None, lengths);
  }

  // ---------- headers as servers write them ----------

  /** A field on one line: a name without a colon, without white space at its ends, and a trimmed value. */
  datatype WireField = WireField(name: Bytes, value: Bytes)

  predicate Plain(s: Bytes) { CR !in s && LF !in s }

  predicate ValidWire(f: WireField) {
    && f.name != [] && 58 !in f.name && !IsSpace(f.name[0]) && TrimSpace(f.name) == f.name
    && TrimSpace(f.value) == f.value && Plain(f.name) && Plain(f.value)
  }

  function WireLine(f: WireField): Bytes { f.name + [58] + ([32] + f.value) }

  function WireLines(fields: seq<WireField>): seq<Bytes> {
    seq(|fields|, i requires 0 <= i < |fields| => WireLine(fields[i]))
  }

  /** Lines with a CRLF between them. */
  function JoinLines(lines: seq<Bytes>): Bytes
    requires lines != []
  {
    if |lines| == 1 then lines[0] else lines[0] + CRLF + JoinLines(lines[1..])
  }

  predicate AllPlain(lines: seq<Bytes>) { forall i :: 0 <= i < |lines| ==> Plain(lines[i]) }

  lemma {:induction false} PlainCrlf(line: Bytes, rest: Bytes)
    requires Plain(line)
    ensures ReplaceCrlf(line + CRLF + rest) == line + [LF] + ReplaceCrlf(rest)
    decreases |line|
  {
    var s := line + CRLF + rest;
    if line == [] {
      assert s[0..2] == CRLF && s[2..] == rest;
    } else {
      assert s[0] == line[0] && s[1..] == line[1..] + CRLF + rest;
      assert line[0] in line;
      PlainCrlf(line[1..], rest);
      assert [line[0]] + (line[1..] + [LF] + ReplaceCrlf(rest)) == line + [LF] + ReplaceCrlf(rest);
    }
  }

  lemma {:induction false} PlainStays(line: Bytes)
    requires Plain(line)
    ensures ReplaceCrlf(line) == line && ReplaceCr(line) == line
    decreases |line|
  {
    if line != [] {
      assert line[0] in line;
      PlainStays(line[1..]);
      assert [line[0]] + line[1..] == line;
    }
    forall i | 0 <= i < |line| ensures line[i] != CR {
      assert line[i] in line;
    }
  }

  lemma ReplaceCrAppend(a: Bytes, b: Bytes)
    ensures ReplaceCr(a + b) == ReplaceCr(a) + ReplaceCr(b)
  {
  }

  lemma SplitFirst(line: Bytes, b: Byte, rest: Bytes)
    requires b !in line
    ensures SplitAt(line + [b] + rest, b) == [line] + SplitAt(rest, b)
  {
    var s := line + [b] + rest;
    FindIn(line, b, rest);
    assert s[..|line|] == line && s[|line| + 1..] == rest;
  }

  lemma SplitWhole(line: Bytes, b: Byte)
    requires b !in line
    ensures SplitAt(line, b) == [line]
  {
    forall i | 0 <= i < |line| ensures line[i] != b {
      assert line[i] in line;
    }
  }

  lemma NormalLine(line: Bytes, rest: Bytes)
    requires Plain(line)
    ensures ReplaceCr(ReplaceCrlf(line + CRLF + rest)) == line + [LF] + ReplaceCr(ReplaceCrlf(rest))
  {
    PlainStays(line);
    PlainCrlf(line, rest);
    ReplaceCrAppend(line + [LF], ReplaceCrlf(rest));
    ReplaceCrAppend(line, [LF]);
    assert ReplaceCr([LF]) == [LF];
  }

  /** Reading undoes writing, line by line. */
  lemma {:induction false} LinesBack(lines: seq<Bytes>)
    requires lines != [] && AllPlain(lines)
    ensures LinesOf(JoinLines(lines)) == lines
    decreases |lines|
  {
    var line, rest := lines[0], lines[1..];
    assert lines == [line] + rest;
    if rest == [] {
      PlainStays(line);
      SplitWhole(line, LF);
    } else {
      LinesBack(rest);
      NormalLine(line, JoinLines(rest));
      SplitFirst(line, LF, ReplaceCr(ReplaceCrlf(JoinLines(rest))));
    }
  }

  /** Lines with any line break between them: CRLF, a line feed, or a carriage return. */
  function JoinWith(lines: seq<Bytes>, breaks: seq<Bytes>): Bytes
    requires lines != [] && |breaks| == |lines| - 1
  {
    if |lines| == 1 then lines[0] else lines[0] + breaks[0] + JoinWith(lines[1..], breaks[1..])
  }

  lemma {:induction false} PlainBreak(line: Bytes, b: Byte, rest: Bytes)
    requires Plain(line) && (b == LF || (b == CR && (rest == [] || rest[0] != LF)))
    ensures ReplaceCrlf(line + [b] + rest) == line + [b] + ReplaceCrlf(rest)
    decreases |line|
  {
    var s := line + [b] + rest;
    if line == [] {
      assert s[0] == b && s[1..] == rest;
      if |s| >= 2 {
        assert s[0..2][0] == b && s[0..2][1] == s[1] == rest[0];
      }
      assert !At(s, 0, CRLF);
    } else {
      assert s[0] == line[0] && s[1..] == line[1..] + [b] + rest;
      assert line[0] in line;
      PlainBreak(line[1..], b, rest);
      assert [line[0]] + (line[1..] + [b] + ReplaceCrlf(rest)) == line + [b] + ReplaceCrlf(rest);
    }
  }

  /** One line off the front. */
  lemma FirstBack(line: Bytes, brk: Bytes, rest: Bytes)
    requires Plain(line) && (brk == CRLF || brk == [LF] || brk == [CR]) && (rest != [] ==> rest[0] != LF)
    ensures LinesOf(line + brk + rest) == [line] + LinesOf(rest)
  {
    var more := ReplaceCr(ReplaceCrlf(rest));
    if brk == CRLF {
      NormalLine(line, rest);
    } else {
      PlainStays(line);
      PlainBreak(line, brk[0], rest);
      assert brk == [brk[0]];
      ReplaceCrAppend(line + brk, ReplaceCrlf(rest));
      ReplaceCrAppend(line, brk);
      assert ReplaceCr(brk) == [LF];
    }
    SplitFirst(line, LF, more);
  }

  /** Lines come back whichever break stands behind each of them. */
  lemma {:induction false} AnyLinesBack(lines: seq<Bytes>, breaks: seq<Bytes>)
    requires lines != [] && AllPlain(lines) && |breaks| == |lines| - 1
    requires forall i :: 0 < i < |lines| ==> lines[i] != []
    requires forall i :: 0 <= i < |breaks| ==> breaks[i] == CRLF || breaks[i] == [LF] || breaks[i] == [CR]
    ensures LinesOf(JoinWith(lines, breaks)) == lines
    decreases |lines|
  {
    var line, rest := lines[0], lines[1..];
    assert lines == [line] + rest;
    if rest == [] {
      PlainStays(line);
      SplitWhole(line, LF);
    } else {
      AnyLinesBack(rest, breaks[1..]);
      var more := JoinWith(rest, breaks[1..]);
      assert more[0] == rest[0][0] && rest[0][0] in rest[0] && Plain(rest[0]);
      FirstBack(line, breaks[0], more);
    }
  }

  // ---------- what the fields stand for ----------

  function KeyOf(f: WireField): Bytes { Lower(f.name) }

  predicate Names(fields: seq<WireField>, key: Bytes) { exists i :: 0 <= i < |fields| && KeyOf(fields[i]) == key }

  /** All values of Content-Length, split at commas, in order. */
  function LengthsIn(fields: seq<WireField>): seq<Bytes> {
    if fields == [] then []
    else
      var f := fields[|fields| - 1];
      LengthsIn(fields[..|fields| - 1]) + if KeyOf(f) == CONTENT_LENGTH then SplitAt(f.value, 44) else []
  }

  /** The values of Transfer-Encoding that are not empty, with commas between them. */
  function CodingIn(fields: seq<WireField>): Bytes {
    if fields == [] then []
    else
      var sofar, f := CodingIn(fields[..|fields| - 1]), fields[|fields| - 1];
      if KeyOf(f) != TRANSFER_ENCODING || f.value == [] then sofar
      else if sofar == [] then f.value else sofar + [44, 32] + f.value
  }

  lemma {:induction false} FoldHeadSnoc(t: HeadState, lines: seq<Bytes>, line: Bytes)
    ensures FoldHead(t, lines + [line]) == HeadLine(FoldHead(t, lines), line)
    decreases |lines|
  {
    if lines == [] {
      assert [line][1..] == [];
    } else {
      assert (lines + [line])[1..] == lines[1..] + [line];
      FoldHeadSnoc(HeadLine(t, lines[0]), lines[1..], line);
    }
  }

  lemma {:induction false} TrimNonEmpty(s: Bytes)
    requires s != [] && !IsSpace(s[0])
    ensures TrimSpace(s) != []
  {
    TrimRightStarts(s);
  }

  lemma WireRead(t: HeadState, f: WireField)
    requires ValidWire(f)
    ensures HeadLine(t, WireLine(f))
            == HeadState(Entered(t.fields, KeyOf(f), f.value),
                         if KeyOf(f) == CONTENT_LENGTH then t.lengths + SplitAt(f.value, 44) else t.lengths, KeyOf(f))
  {
    var line := WireLine(f);
    FindIn(f.name, 58, [32] + f.value);
    assert line[0] == f.name[0];
    TrimNonEmpty(line);
    assert line[..|f.name|] == f.name;
    assert line[|f.name| + 1..] == [32] + f.value;
    assert ([32] + f.value)[1..] == f.value;
  }

  /** A line of white space is skipped, and so is one without a colon that continues nothing: a folded line behind it
      still belongs to the field before. */
  lemma OtherLine(t: HeadState, line: Bytes)
    requires AllBlank(line) || (58 !in line && line[0] != 32 && line[0] != 9)
    ensures HeadLine(t, line) == t
  {
    forall i | 0 <= i < |line| && 58 !in line ensures line[i] != 58 {
      assert line[i] in line;
    }
    if AllBlank(line) {
      TrimCuts(line, [], []);
      assert line + [] + [] == line;
    }
  }

  /** A field of a new name that goes on in a line behind white space has both parts as its value, with one space
      between them; a length is not read on in that line. */
  lemma FoldedRead(t: HeadState, f: WireField, space: Byte, more: Bytes)
    requires ValidWire(f) && KeyOf(f) !in t.fields && (space == 32 || space == 9) && TrimSpace(more) != []
    ensures HeadLine(HeadLine(t, WireLine(f)), [space] + more)
            == HeadState(t.fields[KeyOf(f) := f.value + [32] + TrimSpace(more)],
                         if KeyOf(f) == CONTENT_LENGTH then t.lengths + SplitAt(f.value, 44) else t.lengths, KeyOf(f))
  {
    WireRead(t, f);
    Continued(HeadLine(t, WireLine(f)), space, more);
  }

  lemma Continued(t: HeadState, space: Byte, more: Bytes)
    requires (space == 32 || space == 9) && TrimSpace(more) != [] && t.last != [] && t.last in t.fields
    ensures HeadLine(t, [space] + more) == t.(fields := t.fields[t.last := t.fields[t.last] + [32] + TrimSpace(more)])
  {
    assert ([space] + more)[1..] == more;
  }

  /** All of Content-Length, and all of Transfer-Encoding joined, have been read. */
  ghost predicate HasRead(t: HeadState, fields: seq<WireField>) {
    && t.lengths == LengthsIn(fields)
    && (TRANSFER_ENCODING in t.fields <==> Names(fields, TRANSFER_ENCODING))
    && CodingIn(fields) == if TRANSFER_ENCODING in t.fields then t.fields[TRANSFER_ENCODING] else []
  }

  lemma ReadsOn(t: HeadState, fields: seq<WireField>, f: WireField)
    requires ValidWire(f) && HasRead(t, fields)
    ensures HasRead(HeadLine(t, WireLine(f)), fields + [f])
  {
    WireRead(t, f);
    NamesSnoc(fields, f, TRANSFER_ENCODING);
    assert (fields + [f])[..|fields|] == fields && CONTENT_LENGTH != TRANSFER_ENCODING;
    ReadsCoding(t.fields, fields, f);
  }

  lemma ReadsCoding(map0: Fields, fields: seq<WireField>, f: WireField)
    requires CodingIn(fields) == if TRANSFER_ENCODING in map0 then map0[TRANSFER_ENCODING] else []
    ensures var map1 := Entered(map0, KeyOf(f), f.value);
            CodingIn(fields + [f]) == if TRANSFER_ENCODING in map1 then map1[TRANSFER_ENCODING] else []
  {
    assert (fields + [f])[..|fields|] == fields;
  }

  /** The state after all of the fields. */
  function Written(fields: seq<WireField>): HeadState { FoldHead(NO_FIELDS, WireLines(fields)) }

  lemma WrittenSnoc(fields: seq<WireField>, f: WireField)
    ensures Written(fields + [f]) == HeadLine(Written(fields), WireLine(f))
  {
    assert WireLines(fields + [f]) == WireLines(fields) + [WireLine(f)];
    FoldHeadSnoc(NO_FIELDS, WireLines(fields), WireLine(f));
  }

  lemma NothingRead(fields: seq<WireField>)
    requires fields == []
    ensures HasRead(Written(fields), fields)
  {
    assert WireLines(fields) == [];
  }

  lemma {:induction false} FieldsBack(fields: seq<WireField>)
    requires forall i :: 0 <= i < |fields| ==> ValidWire(fields[i])
    ensures HasRead(Written(fields), fields)
    decreases |fields|
  {
    if fields == [] {
      NothingRead(fields);
    } else {
      var init, f := fields[..|fields| - 1], fields[|fields| - 1];
      assert fields == init + [f];
      FieldsBack(init);
      WrittenSnoc(init, f);
      ReadsOn(Written(init), init, f);
    }
  }

  lemma {:induction false} NoField(fields: seq<WireField>, key: Bytes)
    requires forall i :: 0 <= i < |fields| ==> ValidWire(fields[i]) && KeyOf(fields[i]) != key
    ensures key !in Written(fields).fields
    decreases |fields|
  {
    if fields == [] {
      NothingRead(fields);
      assert WireLines(fields) == [];
    } else {
      var init, f := fields[..|fields| - 1], fields[|fields| - 1];
      assert fields == init + [f];
      NoField(init, key);
      WrittenSnoc(init, f);
      WireRead(Written(init), f);
    }
  }

  lemma FieldStep(t: HeadState, f: WireField)
    requires ValidWire(f)
    ensures var u := HeadLine(t, WireLine(f));
            && (forall key :: key in t.fields && key != TRANSFER_ENCODING ==> key in u.fields && u.fields[key] == t.fields[key])
            && (KeyOf(f) !in t.fields ==> KeyOf(f) in u.fields && u.fields[KeyOf(f)] == f.value)
  {
    WireRead(t, f);
  }

  /** Of fields with one name, other than Transfer-Encoding, the first one counts. */
  lemma {:induction false} FirstFieldStays(fields: seq<WireField>, i: nat)
    requires i < |fields| && forall k :: 0 <= k < |fields| ==> ValidWire(fields[k])
    requires KeyOf(fields[i]) != TRANSFER_ENCODING && forall k :: 0 <= k < i ==> KeyOf(fields[k]) != KeyOf(fields[i])
    ensures var read := Written(fields).fields; KeyOf(fields[i]) in read && read[KeyOf(fields[i])] == fields[i].value
    decreases |fields|
  {
    var init, f := fields[..|fields| - 1], fields[|fields| - 1];
    assert fields == init + [f];
    WrittenSnoc(init, f);
    FieldStep(Written(init), f);
    if i == |init| {
      NoField(init, KeyOf(f));
    } else {
      FirstFieldStays(init, i);
    }
  }

  lemma NamesSnoc(fields: seq<WireField>, f: WireField, key: Bytes)
    ensures Names(fields + [f], key) <==> Names(fields, key) || KeyOf(f) == key
  {
    var all := fields + [f];
    if Names(fields, key) {
      var i :| 0 <= i < |fields| && KeyOf(fields[i]) == key;
      assert KeyOf(all[i]) == key;
    }
    if KeyOf(f) == key {
      assert KeyOf(all[|fields|]) == key;
    }
  }

  function HeaderLines(status: Bytes, fields: seq<WireField>): (lines: seq<Bytes>)
    ensures lines != []
  {
    [status] + WireLines(fields)
  }

  function EncodeHeader(status: Bytes, fields: seq<WireField>): Bytes { JoinLines(HeaderLines(status, fields)) }

  predicate ValidHeader(status: Bytes, fields: seq<WireField>) {
    status != [] && Plain(status) && forall i :: 0 <= i < |fields| ==> ValidWire(fields[i])
  }

  lemma PlainLines(status: Bytes, fields: seq<WireField>)
    requires ValidHeader(status, fields)
    ensures AllPlain(HeaderLines(status, fields))
    ensures forall i :: 0 <= i < |HeaderLines(status, fields)| ==> HeaderLines(status, fields)[i] != []
  {
    var lines := HeaderLines(status, fields);
    forall i | 0 <= i < |lines| ensures Plain(lines[i]) && lines[i] != [] {
      if i > 0 {
        assert lines[i] == WireLine(fields[i - 1]) && ValidWire(fields[i - 1]);
      }
    }
  }

  /** Whatever fields a server writes, on any lines and in any letter case, the framing is what their
      Transfer-Encoding and Content-Length values declare together. */
  lemma HeaderBack(expectNoBody: bool, status: Bytes, fields: seq<WireField>)
    requires ValidHeader(status, fields)
    ensures FramingIn(expectNoBody, EncodeHeader(status, fields))
            == Declared(HasNoBody(expectNoBody, Status(status)), IsHttp10(status),
                        if Names(fields, TRANSFER_ENCODING) then Some(CodingIn(fields)) else None, LengthsIn(fields))
  {
    var lines := HeaderLines(status, fields);
    PlainLines(status, fields);
    LinesBack(lines);
    assert lines[1..] == WireLines(fields);
    FieldsBack(fields);
  }

  // ---------- status lines as servers write them ----------

  /** The version HTTP/1.x by its last digit, the code, and what follows it: nothing, or a space and a reason. */
  datatype StatusLine = StatusLine(minor: Byte, code: nat, tail: Bytes)

  predicate ValidStatus(l: StatusLine) {
    && 48 <= l.minor <= 57 && l.code < 1000
    && Plain(l.tail) && (l.tail == [] || l.tail[0] == 32)
  }

  /** Three digits. */
  function Digits(code: nat): Bytes
    requires code < 1000
  {
    [48 + code / 100, 48 + code / 10 % 10, 48 + code % 10]
  }

  /** `HTTP/1.` and a digit. */
  function Version(minor: Byte): Bytes { [72, 84, 84, 80, 47, 49, 46, minor] }

  /** The version, a space, and the code. */
  function VersionAndCode(l: StatusLine): Bytes
    requires l.code < 1000
  {
    Version(l.minor) + [32] + Digits(l.code)
  }

  function StatusText(l: StatusLine): Bytes
    requires ValidStatus(l)
  {
    VersionAndCode(l) + l.tail
  }

  /** Without the white space behind it, the line ends with the code or goes on with a space. */
  lemma StatusTrimmed(l: StatusLine) returns (tail: Bytes)
    requires ValidStatus(l)
    ensures TrimSpace(StatusText(l)) == VersionAndCode(l) + tail
    ensures tail != [] ==> tail[0] == 32
  {
    var front, line := VersionAndCode(l), StatusText(l);
    assert line[0] == 72 && TrimLeft(line) == line;
    assert TrimRight(front) == front;
    TrimRightAppend(front, l.tail);
    tail := TrimRight(l.tail);
    TrimRightPrefix(l.tail);
    if tail == [] {
      assert front + [] == front;
    }
  }

  lemma {:induction false} SpaceAfter(word: Bytes, rest: Bytes)
    requires (forall i :: 0 <= i < |word| ==> !IsSpace(word[i])) && (rest != [] ==> IsSpace(rest[0]))
    ensures FirstSpace(word + rest) == |word|
    decreases |word|
  {
    var s := word + rest;
    if word == [] {
      assert s == rest;
    } else {
      assert s[0] == word[0] && s[1..] == word[1..] + rest;
      SpaceAfter(word[1..], rest);
    }
  }

  lemma WordsOf(first: Bytes, second: Bytes, tail: Bytes)
    requires first != [] && second != []
    requires forall i :: 0 <= i < |first| ==> !IsSpace(first[i])
    requires forall i :: 0 <= i < |second| ==> !IsSpace(second[i])
    requires tail != [] ==> tail[0] == 32
    ensures SecondWord(first + [32] + second + tail) == second
  {
    var line, behind := first + [32] + second + tail, second + tail;
    assert line == first + ([32] + behind);
    SpaceAfter(first, [32] + behind);
    assert line[|first|..] == [32] + behind && ([32] + behind)[1..] == behind;
    assert behind[0] == second[0] && TrimLeft(behind) == behind;
    SpaceAfter(second, tail);
  }

  lemma ThreeDigits(a: Byte, b: Byte, c: Byte)
    requires 48 <= a <= 57 && 48 <= b <= 57 && 48 <= c <= 57
    ensures Atoi([a, b, c]) == Some(100 * (a - 48) + 10 * (b - 48) + (c - 48))
  {
    assert [a, b, c][..2] == [a, b] && [a, b][..1] == [a] && [a][..0] == [];
    assert Decimal([]) == Some(0);
    assert Decimal([a]) == Some(a - 48);
    assert Decimal([a, b]) == Some(10 * (a - 48) + (b - 48));
  }

  lemma VersionBack(minor: Byte, rest: Bytes)
    requires 48 <= minor <= 57
    ensures HTTP10 <= Lower(Version(minor) + rest) <==> minor == 48
  {
    var text := Lower(Version(minor) + rest);
    assert text[7] == minor;
    if minor == 48 {
      assert text[..8] == HTTP10;
    } else {
      assert HTTP10[7] == 48;
    }
  }

  lemma VersionSplit(l: StatusLine, tail: Bytes)
    requires ValidStatus(l)
    ensures VersionAndCode(l) + tail == Version(l.minor) + [32] + Digits(l.code) + tail
    ensures forall i :: 0 <= i < 8 ==> !IsSpace(Version(l.minor)[i])
    ensures forall i :: 0 <= i < 3 ==> !IsSpace(Digits(l.code)[i])
  {
  }

  lemma DigitsBack(code: nat)
    requires code < 1000
    ensures Atoi(Digits(code)) == Some(code)
  {
    ThreeDigits(48 + code / 100, 48 + code / 10 % 10, 48 + code % 10);
  }

  lemma StatusOf(line: Bytes, first: Bytes, second: Bytes, tail: Bytes)
    requires TrimSpace(line) == first + [32] + second + tail && first != [] && second != []
    requires forall i :: 0 <= i < |first| ==> !IsSpace(first[i])
    requires forall i :: 0 <= i < |second| ==> !IsSpace(second[i])
    requires tail != [] ==> tail[0] == 32
    ensures Status(line) == if Atoi(second).Some? then Atoi(second).value else 0
  {
    WordsOf(first, second, tail);
  }

  lemma CodeBack(l: StatusLine)
    requires ValidStatus(l)
    ensures Status(StatusText(l)) == l.code
  {
    var tail := StatusTrimmed(l);
    VersionSplit(l, tail);
    DigitsBack(l.code);
    StatusOf(StatusText(l), Version(l.minor), Digits(l.code), tail);
  }

  lemma Http10Back(l: StatusLine)
    requires ValidStatus(l)
    ensures IsHttp10(StatusText(l)) <==> l.minor == 48
  {
    var tail := StatusTrimmed(l);
    var rest := [32] + Digits(l.code) + tail;
    assert VersionAndCode(l) + tail == Version(l.minor) + rest;
    VersionBack(l.minor, rest);
  }

  /** The status read back is the code written, and the version is 1.0 exactly when its digit is zero. */
  lemma StatusBack(l: StatusLine)
    requires ValidStatus(l)
    ensures Status(StatusText(l)) == l.code
    ensures IsHttp10(StatusText(l)) <==> l.minor == 48
  {
    CodeBack(l);
    Http10Back(l);
  }

  // ---------- the two fields as servers write them ----------

  /** A text in ASCII. */
  function Ascii(text: string): Bytes { seq(|text|, i requires 0 <= i < |text| => (text[i] as int) % 128) }

  /** Exactly the capital letters change. */
  lemma LowerFirstHalf(b: Byte)
    ensures Lower(Ascii("ABCDEFGHIJKLM")) == Ascii("abcdefghijklm")
    ensures !(65 <= b <= 90) ==> Lower([b]) == [b]
  {
  }

  lemma LowerSecondHalf()
    ensures Lower(Ascii("NOPQRSTUVWXYZ")) == Ascii("nopqrstuvwxyz")
  {
  }

  lemma NamesSpelled()
    ensures TRANSFER_ENCODING == Lower(Ascii("Transfer-Encoding"))
    ensures CONTENT_LENGTH == Lower(Ascii("Content-Length"))
  {
  }

  lemma ValuesSpelled()
    ensures CHUNKED == Lower(Ascii("Chunked"))
    ensures HTTP10 == Lower(Ascii("HTTP/1.0"))
  {
  }

  lemma LengthText(n: nat)
    ensures TrimSpace(DecimalText(n)) == DecimalText(n) && Plain(DecimalText(n)) && 44 !in DecimalText(n)
  {
    DecimalBack(n);
    TrimKeeps(DecimalText(n));
  }

  function LengthField(n: nat): WireField { WireField(Ascii("Content-Length"), DecimalText(n)) }

  function ChunkedField(): WireField { WireField(Ascii("Transfer-Encoding"), Ascii("chunked")) }

  predicate NoFraming(fields: seq<WireField>) {
    !Names(fields, TRANSFER_ENCODING) && !Names(fields, CONTENT_LENGTH)
  }

  lemma {:induction false} LengthsAppend(a: seq<WireField>, b: seq<WireField>)
    ensures LengthsIn(a + b) == LengthsIn(a) + LengthsIn(b)
    decreases |b|
  {
    if b == [] {
      assert a + b == a;
    } else {
      assert (a + b)[..|a + b| - 1] == a + b[..|b| - 1];
      LengthsAppend(a, b[..|b| - 1]);
    }
  }

  lemma {:induction false} NoLengths(fields: seq<WireField>)
    requires !Names(fields, CONTENT_LENGTH)
    ensures LengthsIn(fields) == []
    decreases |fields|
  {
    if fields != [] {
      var init, f := fields[..|fields| - 1], fields[|fields| - 1];
      assert fields == init + [f];
      NamesSnoc(init, f, CONTENT_LENGTH);
      NoLengths(init);
    }
  }

  lemma {:induction false} CodingSkips(a: seq<WireField>, b: seq<WireField>)
    requires !Names(b, TRANSFER_ENCODING)
    ensures CodingIn(a + b) == CodingIn(a)
    decreases |b|
  {
    if b == [] {
      assert a + b == a;
    } else {
      var init, f := b[..|b| - 1], b[|b| - 1];
      assert b == init + [f] && (a + b)[..|a + b| - 1] == a + init;
      NamesSnoc(init, f, TRANSFER_ENCODING);
      CodingSkips(a, init);
    }
  }

  lemma {:induction false} NamesAppend(a: seq<WireField>, b: seq<WireField>, key: Bytes)
    ensures Names(a + b, key) <==> Names(a, key) || Names(b, key)
    decreases |b|
  {
    if b == [] {
      assert a + b == a;
    } else {
      var init, f := b[..|b| - 1], b[|b| - 1];
      assert b == init + [f] && a + b == (a + init) + [f];
      NamesSnoc(init, f, key);
      NamesSnoc(a + init, f, key);
      NamesAppend(a, init, key);
    }
  }

  /** One field among others that do not speak of the body. */
  lemma Among(before: seq<WireField>, f: WireField, after: seq<WireField>)
    requires NoFraming(before) && NoFraming(after)
    ensures var fields := before + [f] + after;
            && (Names(fields, TRANSFER_ENCODING) <==> KeyOf(f) == TRANSFER_ENCODING)
            && LengthsIn(fields) == (if KeyOf(f) == CONTENT_LENGTH then SplitAt(f.value, 44) else [])
            && CodingIn(fields) == (if KeyOf(f) == TRANSFER_ENCODING then f.value else [])
  {
    var init := before + [f];
    NamesSnoc(before, f, TRANSFER_ENCODING);
    NamesAppend(init, after, TRANSFER_ENCODING);
    LengthsAppend(init, after);
    NoLengths(before);
    NoLengths(after);
    CodingSkips(init, after);
    CodingSkips([], before);
    assert [] + before == before && init[..|before|] == before;
  }

  lemma LengthWire(n: nat)
    ensures KeyOf(LengthField(n)) == CONTENT_LENGTH && ValidWire(LengthField(n))
    ensures SplitAt(LengthField(n).value, 44) == [DecimalText(n)]
  {
    NamesSpelled();
    LengthText(n);
    SplitWhole(DecimalText(n), 44);
    TrimKeeps(Ascii("Content-Length"));
  }

  lemma ChunkedWire()
    ensures KeyOf(ChunkedField()) == TRANSFER_ENCODING && ChunkedField().value == CHUNKED && ValidWire(ChunkedField())
  {
    NamesSpelled();
    assert Ascii("chunked") == CHUNKED;
    TrimKeeps(Ascii("Transfer-Encoding"));
    TrimKeeps(Ascii("chunked"));
  }

  lemma CodingAlone(value: Bytes)
    requires value == CHUNKED
    ensures SplitAt(value, 44) == [value] && Coding(value) == CHUNKED
  {
    SplitWhole(value, 44);
    assert 59 !in value;
    assert value[..Find(value, 59)] == value;
    TrimKeeps(value);
  }

  lemma NotBad(value: Bytes)
    requires SplitAt(value, 44) == [value] && Coding(value) == CHUNKED
    ensures !BadCodings(SplitAt(value, 44)) && LastCoding(value) == CHUNKED
  {
  }

  lemma LengthAmong(before: seq<WireField>, n: nat, after: seq<WireField>)
    requires NoFraming(before) && NoFraming(after)
    ensures var fields := before + [LengthField(n)] + after;
            !Names(fields, TRANSFER_ENCODING) && LengthsIn(fields) == [DecimalText(n)]
  {
    Among(before, LengthField(n), after);
    LengthWire(n);
  }

  lemma ChunkedAmong(before: seq<WireField>, after: seq<WireField>)
    requires NoFraming(before) && NoFraming(after)
    ensures var fields := before + [ChunkedField()] + after;
            && Names(fields, TRANSFER_ENCODING) && LengthsIn(fields) == [] && CodingIn(fields) == CHUNKED
            && !BadCodings(SplitAt(CHUNKED, 44)) && LastCoding(CHUNKED) == CHUNKED
  {
    Among(before, ChunkedField(), after);
    ChunkedWire();
    CodingAlone(CHUNKED);
    NotBad(CHUNKED);
  }
}
