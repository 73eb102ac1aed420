/** What single lines do to the reader, the limits in numbers, and the end of a body told by the blank line it stands for. */
module SseLines {
  import opened Utf8
  import opened Sse
  import opened SseFormat

  // ---- lines ----

  /** A line feed, with or without a carriage return. */
  predicate IsLineEnd(end: Bytes) {
    end == [10] || end == [13, 10]
  }

  /** The reader behind a field line. */
  function Taken(r: Reader, name: Bytes, value: Bytes): Reader {
    if name == [101, 118, 101, 110, 116] then Reader(r.buffer, Some(value), r.data, true)
    else if name == [100, 97, 116, 97] then Reader(r.buffer, r.event, r.data + [value], true)
    else if name == [105, 100] || name == [114, 101, 116, 114, 121] then Reader(r.buffer, r.event, r.data, true)
    else r
  }

  lemma {:induction false} ReadsLine(r: Reader, line: Bytes, end: Bytes)
    requires r.buffer == [] && IsLine(line) && !EndsInCr(line) && IsLineEnd(end)
    ensures var pushed := ReadLine(r, line);
            Scan(r, line + end) == Scanned(pushed.0, if pushed.1.Some? then [pushed.1.value] else [])
  {
    var x := line + end[..|end| - 1];
    assert x + [LF] == line + end && LF !in x;
    assert Chomp(x) == line;
    ScanWholeLine(r, x);
  }

  lemma {:induction false} BreaksLine(r: Reader, line: Bytes)
    requires r.buffer == [] && IsLine(line) && !EndsInCr(line)
    ensures Break(r, line + [10]) == if |line| > MAX_PENDING then Some(LineTooLong)
                                     else if LineFits(r, line) then None
                                     else Some(DataTooLong)
  {
    ScanWholeLine(r, line);
  }

  lemma {:induction false} FieldAt(name: Bytes, rest: Bytes)
    requires COLON !in name
    ensures Field(name + [COLON] + rest) == (name, if rest != [] && rest[0] == SPACE then rest[1..] else rest)
    ensures Field(name) == (name, [])
  {
    hide Find;
    var line, n := name + [COLON] + rest, |name|;
    FindsColon(name, rest, 0);
    assert line[..n] == name && line[n + 1..] == rest;
  }

  lemma {:induction false} FieldTaken(r: Reader, name: Bytes, value: Bytes, line: Bytes)
    requires name != [] && COLON !in name && line != [] && line[0] == name[0] && Field(line) == (name, value)
    ensures ReadLine(r, line) == (Taken(r, name, value), None)
  {
    assert name[0] in name;
  }

  /** A field is its name up to the first colon; one space behind the colon does not count, nor does a carriage return. */
  lemma {:induction false} ReadsField(r: Reader, name: Bytes, value: Bytes, end: Bytes)
    requires r.buffer == [] && name != [] && COLON !in name && IsLine(name) && IsLine(value) && !EndsInCr(value) && IsLineEnd(end)
    ensures Scan(r, name + [58, 32] + value + end) == Scanned(Taken(r, name, value), [])
    ensures value == [] || value[0] != 32 ==> Scan(r, name + [58] + value + end) == Scanned(Taken(r, name, value), [])
    ensures value == [] && !EndsInCr(name) ==> Scan(r, name + end) == Scanned(Taken(r, name, []), [])
  {
    hide Scan, ReadLine, Field, Taken, IsText;
    FieldLines(name, value);
    var spaced, tight := name + [COLON] + ([SPACE] + value), name + [COLON] + value;
    assert name + [58, 32] + value == spaced;
    FieldAt(name, [SPACE] + value);
    FieldTaken(r, name, value, spaced);
    ReadsLine(r, spaced, end);
    if value == [] || value[0] != SPACE {
      FieldAt(name, value);
      FieldTaken(r, name, value, tight);
      ReadsLine(r, tight, end);
    }
    if value == [] && !EndsInCr(name) {
      FieldTaken(r, name, [], name);
      ReadsLine(r, name, end);
    }
  }

  lemma {:induction false} FieldLines(name: Bytes, value: Bytes)
    requires IsLine(name) && IsLine(value) && !EndsInCr(value)
    ensures var spaced, tight := name + [COLON] + ([SPACE] + value), name + [COLON] + value;
            IsLine(spaced) && !EndsInCr(spaced) && IsLine(tight) && !EndsInCr(tight)
  {
    NothingIsText();
    TextJoins([], SPACE, value);
    assert [] + [SPACE] + value == [SPACE] + value;
    TextJoins(name, COLON, [SPACE] + value);
    TextJoins(name, COLON, value);
  }

  /** A comment changes nothing; a blank line closes the frame that is open, if there is one. */
  lemma {:induction false} ReadsCommentAndBlank(r: Reader, text: Bytes, end: Bytes)
    requires r.buffer == [] && IsLine(text) && !EndsInCr(text) && IsLineEnd(end)
    ensures Scan(r, [58] + text + end) == Scanned(r, [])
    ensures Scan(r, end) == if r.hasFields then Scanned(FRESH, [Frame(r.event, Join(r.data))]) else Scanned(r, [])
  {
    hide Scan, IsText;
    NothingIsText();
    TextJoins([], COLON, text);
    assert [] + [COLON] + text == [58] + text;
    ReadsLine(r, [58] + text, end);
    ReadsLine(r, [], end);
    assert [] + end == end;
  }

  // ---- limits ----

  /** A line may have 16 MiB, and the data of a frame, joined, as much. */
  lemma {:induction false} LimitsAre(r: Reader, x: Bytes, value: Bytes)
    requires r.buffer == [] && LF !in x && IsLine(value) && !EndsInCr(value)
    ensures Break(r, x) == if |x| <= 16_777_216 then None else Some(LineTooLong)
    ensures Break(r, [100, 97, 116, 97, 58] + value + [10])
         == if |value| + 5 > 16_777_216 then Some(LineTooLong)
            else if |Join(r.data + [if value != [] && value[0] == 32 then value[1..] else value])| <= 16_777_216 then None
            else Some(DataTooLong)
  {
    hide IsText, Join, Break, Field;
    ScanWithinLine(r, x);
    var line := DATA + [COLON] + value;
    assert [100, 97, 116, 97, 58] + value == line;
    AsciiIsText(DATA);
    FieldLines(DATA, value);
    FieldAt(DATA, value);
    BreaksLine(r, line);
  }

  /** Only data is counted: any other line within the limit is taken. */
  lemma {:induction false} OnlyDataIsCounted(r: Reader, name: Bytes, rest: Bytes)
    requires r.buffer == [] && name != [100, 97, 116, 97] && COLON !in name && IsLine(name) && IsLine(rest) && !EndsInCr(rest)
    requires |name + [58] + rest| <= 16_777_216
    ensures Break(r, name + [58] + rest + [10]).None?
  {
    hide IsText, Join, Break, Field;
    var line := name + [COLON] + rest;
    FieldLines(name, rest);
    FieldAt(name, rest);
    BreaksLine(r, line);
  }

  // ---- the end of a body ----

  lemma {:induction false} LastLine(buffer: Bytes)
    requires !EndsInCr(Chomp(buffer))
    ensures TrimEndCr(Lossy(buffer)) == LineOf(buffer)
  {
    if buffer != [] {
      LossyLast(buffer);
      if EndsInCr(buffer) {
        var x := Chomp(buffer);
        assert buffer == x + [CR] + [];
        LossySplitsAtAscii(x, CR, []);
        assert Lossy(x) + [CR] + Lossy([]) == Lossy(x) + [CR];
        if x != [] {
          LossyLast(x);
        }
        assert (Lossy(x) + [CR])[..|Lossy(x)|] == Lossy(x);
      }
    }
  }

  lemma {:induction false} TwoFeeds(r: Reader)
    requires LF !in r.buffer && |r.buffer| <= MAX_PENDING
    ensures var base, line := r.(buffer := []), LineOf(r.buffer);
            var (r1, first) := ReadLine(base, line);
            var (r2, second) := TakeOpen(r1);
            Scan(r, [10, 10]) == Scanned(r2, (if first.Some? then [first.value] else []) + if second.Some? then [second.value] else [])
    ensures Break(r, [10, 10]) == if LineFits(r.(buffer := []), LineOf(r.buffer)) then None else Some(DataTooLong)
  {
    hide Scan, Break, LineFits, Join, Field;
    var base, line := r.(buffer := []), LineOf(r.buffer);
    assert [10, 10] == [LF] + [LF];
    ScanPending(r, [LF]);
    ScanWholeLine(base, r.buffer);
    ScanConcat(r, [LF], [LF]);
    BreakConcat(r, [LF], [LF]);
    var r1 := ReadLine(base, line).0;
    assert r1.buffer == [];
    ScanWholeLine(r1, []);
    assert [] + [LF] == [LF];
    EmptyLine(r1);
  }

  lemma EmptyLine(r: Reader)
    ensures LineOf([]) == [] && ReadLine(r, []) == TakeOpen(r) && LineFits(r, [])
  {
  }

  lemma ClosedHasNone(r: Reader, line: Bytes)
    requires ReadLine(r, line).1.Some?
    ensures TakeOpen(ReadLine(r, line).0).1.None?
  {
  }

  /** Unless its last line ends in two carriage returns, the end of a body is read like two line feeds. */
  lemma {:induction false} EndIsBlankLine(r: Reader)
    requires LF !in r.buffer && |r.buffer| <= MAX_PENDING && !EndsInCr(Chomp(r.buffer))
    ensures var closed := Scan(r, [10, 10]).frames;
            EndOfBody(r).1 == if Break(r, [10, 10]).Some? then Err(DataTooLong)
                              else Ok(if closed == [] then None else Some(closed[0]))
    ensures |Scan(r, [10, 10]).frames| <= 1
  {
    hide Scan, Break, LineFits, Join, Field, Lossy, LineOf;
    LastLine(r.buffer);
    TwoFeeds(r);
    var base, line := r.(buffer := []), LineOf(r.buffer);
    if ReadLine(base, line).1.Some? {
      ClosedHasNone(base, line);
    }
    EmptyLine(r);
    if r.buffer == [] {
      assert base == r;
    }
  }

  lemma {:induction false} ReaderStaysValid(r: Reader, bytes: Bytes)
    requires LF !in r.buffer && |r.buffer| <= MAX_PENDING && Break(r, bytes).None?
    ensures LF !in Scan(r, bytes).reader.buffer && |Scan(r, bytes).reader.buffer| <= MAX_PENDING
    decreases |bytes|
  {
    if bytes != [] {
      ReaderStaysValid(ScanByte(r, bytes[0]).reader, bytes[1..]);
    }
  }

  /** The frames of a body are those of the body with a blank line behind it. */
  lemma {:induction false} BodyEndsInBlankLine(body: Bytes)
    requires Break(FRESH, body + [10, 10]).None? && !EndsInCr(Chomp(Scan(FRESH, body).reader.buffer))
    ensures BodyFrames(body) == Scan(FRESH, body + [10, 10]).frames
  {
    hide Scan, Break, EndOfBody;
    BreakConcat(FRESH, body, [10, 10]);
    ScanConcat(FRESH, body, [10, 10]);
    ReaderStaysValid(FRESH, body);
    EndIsBlankLine(Scan(FRESH, body).reader);
    var s, closed := Scan(FRESH, body), Scan(Scan(FRESH, body).reader, [10, 10]).frames;
    assert closed == [] || closed == [closed[0]];
    assert s.frames + [] == s.frames;
  }
}
