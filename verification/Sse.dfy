/**
 The incremental SSE frame reader and the frame printer.

 `Scan` reads one byte at a time and has no size limits; `Break` says where the size limits stop a
 real reader. `SseFrameReader` works a chunk at a time and is proved against the two.
 */
module Sse {
  import opened Utf8

  const MAX_PENDING: nat := 16 * 1024 * 1024
  /** The error of a stream that ends too early. */
  const INCOMPLETE := "upstream stream ended before a terminal event"

  datatype Frame = Frame(event: Option<Bytes>, data: Bytes)

  datatype ReadError = LineTooLong | DataTooLong

  /** The unfinished line and the fields of the frame still open. */
  datatype Reader = Reader(buffer: Bytes, event: Option<Bytes>, data: seq<Bytes>, hasFields: bool) {
    predicate IsOpen() {
      hasFields || buffer != []
    }
  }

  const FRESH: Reader := Reader([], None, [], false)

  const COLON: byte := 58
  const EVENT: Bytes := [101, 118, 101, 110, 116]
  const DATA: Bytes := [100, 97, 116, 97]
  const ID: Bytes := [105, 100]
  const RETRY: Bytes := [114, 101, 116, 114, 121]

  // ---- lines ----

  function Join(lines: seq<Bytes>): Bytes {
    if lines == [] then []
    else if |lines| == 1 then lines[0]
    else Join(lines[..|lines| - 1]) + [LF] + lines[|lines| - 1]
  }

  /** First index of `b` at or after `from`. */
  function Find(b: byte, s: Bytes, from: nat): (r: Option<nat>)
    requires from <= |s|
    ensures r.Some? ==> from <= r.value < |s| && s[r.value] == b && b !in s[from..r.value]
    ensures r.None? ==> b !in s[from..]
    decreases |s| - from
  {
    if from == |s| then None
    else if s[from] == b then Some(from)
    else Find(b, s, from + 1)
  }

  /** The pieces of `s` between line feeds; one piece for the empty string. */
  function Pieces(s: Bytes): (pieces: seq<Bytes>)
    ensures pieces != []
  {
    SplitFrom(s, [])
  }

  function SplitFrom(s: Bytes, piece: Bytes): (pieces: seq<Bytes>)
    ensures pieces != []
    decreases |s|
  {
    if s == [] then [piece]
    else
      var b, rest := s[|s| - 1], s[..|s| - 1];
      if b == LF then SplitFrom(rest, []) + [piece] else SplitFrom(rest, [b] + piece)
  }

  function Chomp(line: Bytes): Bytes {
    if line != [] && line[|line| - 1] == CR then line[..|line| - 1] else line
  }

  predicate EndsInCr(line: Bytes) {
    line != [] && line[|line| - 1] == CR
  }

  function LineOf(buffer: Bytes): Bytes {
    Lossy(Chomp(buffer))
  }

  function TrimEndCr(line: Bytes): (r: Bytes)
    ensures !EndsInCr(r) && r <= line
  {
    if EndsInCr(line) then TrimEndCr(line[..|line| - 1]) else line
  }

  /** Name and value of a field line, one leading space of the value removed. */
  function Field(line: Bytes): (Bytes, Bytes) {
    match Find(COLON, line, 0)
    case None => (line, [])
    case Some(i) =>
      var value := line[i + 1..];
      (line[..i], if value != [] && value[0] == SPACE then value[1..] else value)
  }

  function TakeOpen(r: Reader): (Reader, Option<Frame>) {
    if !r.hasFields then (r, None)
    else (Reader(r.buffer, None, [], false), Some(Frame(r.event, Join(r.data))))
  }

  function ReadLine(r: Reader, line: Bytes): (Reader, Option<Frame>) {
    if line == [] then TakeOpen(r)
    else if line[0] == COLON then (r, None)
    else
      var (name, value) := Field(line);
      if name == EVENT then (r.(event := Some(value), hasFields := true), None)
      else if name == DATA then (r.(data := r.data + [value], hasFields := true), None)
      else if name == ID || name == RETRY then (r.(hasFields := true), None)
      else (r, None)
  }

  /** The joined data stays within the limit once `line` is pushed. */
  predicate LineFits(r: Reader, line: Bytes) {
    line != [] && line[0] != COLON && Field(line).0 == DATA ==>
      |Join(r.data + [Field(line).1])| <= MAX_PENDING
  }

  // ---- the byte-at-a-time reader ----

  datatype Scanned = Scanned(reader: Reader, frames: seq<Frame>)

  function ScanByte(r: Reader, b: byte): Scanned {
    if b != LF then Scanned(r.(buffer := r.buffer + [b]), [])
    else
      var (r', frame) := ReadLine(r.(buffer := []), LineOf(r.buffer));
      Scanned(r', if frame.Some? then [frame.value] else [])
  }

  function Scan(r: Reader, bytes: Bytes): Scanned
    decreases |bytes|
  {
    if bytes == [] then Scanned(r, [])
    else
      var first := ScanByte(r, bytes[0]);
      var rest := Scan(first.reader, bytes[1..]);
      Scanned(rest.reader, first.frames + rest.frames)
  }

  function BreakByte(r: Reader, b: byte): Option<ReadError> {
    if b != LF then if |r.buffer| < MAX_PENDING then None else Some(LineTooLong)
    else if LineFits(r, LineOf(r.buffer)) then None
    else Some(DataTooLong)
  }

  /** The first size limit that `bytes` breaks. */
  function Break(r: Reader, bytes: Bytes): Option<ReadError>
    decreases |bytes|
  {
    if bytes == [] then None
    else if BreakByte(r, bytes[0]).Some? then BreakByte(r, bytes[0])
    else Break(ScanByte(r, bytes[0]).reader, bytes[1..])
  }

  /** The state and outcome of the end of the body. */
  function EndOfBody(r: Reader): (Reader, Result<Option<Frame>, ReadError>) {
    if r.buffer == [] then
      var (r', frame) := TakeOpen(r);
      (r', Ok(frame))
    else
      var line := TrimEndCr(Lossy(r.buffer));
      var r0 := r.(buffer := []);
      if !LineFits(r0, line) then (FRESH, Err(DataTooLong))
      else
        var (r1, frame) := ReadLine(r0, line);
        if frame.Some? then (r1, Ok(frame))
        else
          var (r2, last) := TakeOpen(r1);
          (r2, Ok(last))
  }

  /** The frames of a whole body, the one closed by its end included. */
  function BodyFrames(body: Bytes): seq<Frame> {
    var s := Scan(FRESH, body);
    match EndOfBody(s.reader).1
    case Ok(Some(f)) => s.frames + [f]
    case _ => s.frames
  }

  /** The frames a stream reads: the one that only the end of the body closes counts if the body ends. */
  function FramesOf<E>(body: Bytes, end: Option<E>): seq<Frame> {
    if end.Some? then Scan(FRESH, body).frames else BodyFrames(body)
  }

  /** A body read in chunks. */
  function Flatten(chunks: seq<Bytes>): Bytes {
    if chunks == [] then [] else Flatten(chunks[..|chunks| - 1]) + chunks[|chunks| - 1]
  }

  lemma {:induction false} FlattenFirst(chunks: seq<Bytes>)
    requires chunks != []
    ensures Flatten(chunks) == chunks[0] + Flatten(chunks[1..])
    decreases |chunks|
  {
    var n := |chunks| - 1;
    if n == 0 {
      assert chunks[1..] == [] && [] + chunks[0] == chunks[0] + [];
    } else {
      FlattenFirst(chunks[..n]);
      assert chunks[..n][1..] == chunks[1..][..n - 1];
      ConcatAssoc(chunks[0], Flatten(chunks[1..][..n - 1]), chunks[n]);
    }
  }

  lemma ScanFirst(r: Reader, bytes: Bytes)
    requires bytes != []
    ensures var (one, rest) := (ScanByte(r, bytes[0]), bytes[1..]);
            Scan(r, bytes) == Scanned(Scan(one.reader, rest).reader, one.frames + Scan(one.reader, rest).frames)
  {
  }

  lemma {:induction false} ScanConcat(r: Reader, a: Bytes, b: Bytes)
    ensures Scan(r, a + b).reader == Scan(Scan(r, a).reader, b).reader
    ensures Scan(r, a + b).frames == Scan(r, a).frames + Scan(Scan(r, a).reader, b).frames
    decreases |a|
  {
    if a == [] {
      assert a + b == b;
    } else {
      var one, rest := ScanByte(r, a[0]), a[1..];
      assert (a + b)[0] == a[0];
      assert (a + b)[1..] == rest + b;
      ScanFirst(r, a);
      ScanFirst(r, a + b);
      ScanConcat(one.reader, rest, b);
      ConcatAssoc(one.frames, Scan(one.reader, rest).frames, Scan(Scan(one.reader, rest).reader, b).frames);
    }
  }

  lemma {:induction false} BreakConcat(r: Reader, a: Bytes, b: Bytes)
    ensures Break(r, a + b) == if Break(r, a).Some? then Break(r, a) else Break(Scan(r, a).reader, b)
    decreases |a|
  {
    if a == [] {
      assert a + b == b;
    } else {
      assert (a + b)[0] == a[0] && (a + b)[1..] == a[1..] + b;
      BreakConcat(ScanByte(r, a[0]).reader, a[1..], b);
    }
  }

  lemma {:induction false} StepWithinLine(r: Reader, x: Bytes)
    requires x != [] && x[0] != LF
    ensures var next := r.(buffer := r.buffer + [x[0]]);
            && Scan(r, x) == Scan(next, x[1..])
            && Break(r, x) == if |r.buffer| < MAX_PENDING then Break(next, x[1..]) else Some(LineTooLong)
  {
    hide ReadLine, LineOf, LineFits;
    var next := r.(buffer := r.buffer + [x[0]]);
    assert [] + Scan(next, x[1..]).frames == Scan(next, x[1..]).frames;
  }

  lemma NothingScanned(r: Reader)
    ensures Scan(r, []) == Scanned(r, []) && Break(r, []).None?
  {
  }

  /** Bytes without a line feed only lengthen the unfinished line. */
  lemma {:induction false} ScanWithinLine(r: Reader, x: Bytes)
    requires LF !in x
    ensures Scan(r, x) == Scanned(r.(buffer := r.buffer + x), [])
    ensures |r.buffer| <= MAX_PENDING ==>
              Break(r, x) == if |r.buffer| + |x| <= MAX_PENDING then None else Some(LineTooLong)
    decreases |x|
  {
    hide Scan, Break;
    if x == [] {
      NothingScanned(r);
      assert r.buffer + x == r.buffer;
    } else {
      assert LF !in x[1..];
      StepWithinLine(r, x);
      ScanWithinLine(r.(buffer := r.buffer + [x[0]]), x[1..]);
      assert r.buffer + [x[0]] + x[1..] == r.buffer + x;
    }
  }

  /** One whole line read from an empty buffer. */
  lemma {:induction false} ScanWholeLine(r: Reader, x: Bytes)
    requires r.buffer == [] && LF !in x
    ensures var pushed := ReadLine(r, LineOf(x));
            Scan(r, x + [LF]) == Scanned(pushed.0, if pushed.1.Some? then [pushed.1.value] else [])
    ensures Break(r, x + [LF]) == if |x| > MAX_PENDING then Some(LineTooLong)
                                  else if LineFits(r, LineOf(x)) then None
                                  else Some(DataTooLong)
  {
    ScanWithinLine(r, x);
    ScanConcat(r, x, [LF]);
    BreakConcat(r, x, [LF]);
    var mid := r.(buffer := x);
    assert r.buffer + x == x;
    assert Scan(r, x).reader == mid;
    assert mid.(buffer := []) == r;
    assert [LF][1..] == [];
    assert Scan(mid, [LF]).frames == ScanByte(mid, LF).frames + [];
  }

  lemma ReadLineIgnoresBuffer(r: Reader, line: Bytes)
    ensures ReadLine(r.(buffer := []), line) == (ReadLine(r, line).0.(buffer := []), ReadLine(r, line).1)
    ensures ReadLine(r, line).0.buffer == r.buffer
    ensures LineFits(r.(buffer := []), line) == LineFits(r, line)
  {
  }

  /** The pending line of a reader may as well be read again with the bytes after it. */
  lemma {:induction false} ScanPending(r: Reader, bytes: Bytes)
    requires LF !in r.buffer && |r.buffer| <= MAX_PENDING
    ensures Scan(r.(buffer := []), r.buffer + bytes) == Scan(r, bytes)
    ensures Break(r.(buffer := []), r.buffer + bytes) == Break(r, bytes)
  {
    var base := r.(buffer := []);
    ScanWithinLine(base, r.buffer);
    assert [] + r.buffer == r.buffer;
    ScanConcat(base, r.buffer, bytes);
    BreakConcat(base, r.buffer, bytes);
  }

  /** The next whole line after `cursor`. */
  lemma {:induction false} ScanNextLine(base: Reader, all: Bytes, cursor: nat, end: nat, mid: Reader, out: seq<Frame>)
    requires cursor <= end < |all| && all[end] == LF && LF !in all[cursor..end]
    requires Scan(base, all[..cursor]) == Scanned(mid, out) && mid.buffer == []
    requires Break(base, all[..cursor]).None?
    ensures var line := LineOf(all[cursor..end]);
            var (next, frame) := ReadLine(mid, line);
            && Scan(base, all[..end + 1]) == Scanned(next, if frame.Some? then out + [frame.value] else out)
            && if end - cursor > MAX_PENDING then Break(base, all) == Some(LineTooLong)
               else if !LineFits(mid, line) then Break(base, all) == Some(DataTooLong)
               else Break(base, all[..end + 1]).None?
  {
    hide Scan, Break, ReadLine, LineOf, LineFits;
    var line := all[cursor..end];
    assert all[..end + 1] == all[..cursor] + (line + [LF]);
    AppendLine(base, all[..cursor], line, mid, out);
    assert all == all[..end + 1] + all[end + 1..];
    BreakConcat(base, all[..end + 1], all[end + 1..]);
  }

  lemma {:induction false} AppendLine(base: Reader, before: Bytes, line: Bytes, mid: Reader, out: seq<Frame>)
    requires LF !in line && Scan(base, before) == Scanned(mid, out) && mid.buffer == [] && Break(base, before).None?
    ensures var pushed := ReadLine(mid, LineOf(line));
            Scan(base, before + (line + [LF])) == Scanned(pushed.0, if pushed.1.Some? then out + [pushed.1.value] else out)
    ensures Break(base, before + (line + [LF])) == if |line| > MAX_PENDING then Some(LineTooLong)
                                                   else if LineFits(mid, LineOf(line)) then None
                                                   else Some(DataTooLong)
  {
    ScanConcat(base, before, line + [LF]);
    BreakConcat(base, before, line + [LF]);
    ScanWholeLine(mid, line);
    assert out + [] == out;
  }

  /** What is left after the last line feed. */
  lemma {:induction false} ScanRest(base: Reader, all: Bytes, cursor: nat, mid: Reader, out: seq<Frame>)
    requires cursor <= |all| && LF !in all[cursor..]
    requires Scan(base, all[..cursor]) == Scanned(mid, out) && mid.buffer == []
    requires Break(base, all[..cursor]).None?
    ensures Scan(base, all) == Scanned(mid.(buffer := all[cursor..]), out)
    ensures Break(base, all) == if |all| - cursor <= MAX_PENDING then None else Some(LineTooLong)
  {
    hide Scan, Break;
    assert all == all[..cursor] + all[cursor..];
    ScanConcat(base, all[..cursor], all[cursor..]);
    BreakConcat(base, all[..cursor], all[cursor..]);
    ScanWithinLine(mid, all[cursor..]);
    assert [] + all[cursor..] == all[cursor..];
    assert out + [] == out;
  }

  // ---- other cuts of a body ----

  lemma OneChunk(body: Bytes)
    ensures Flatten([body]) == body
  {
  }

  function Singles(body: Bytes): seq<Bytes> {
    if body == [] then [] else [[body[0]]] + Singles(body[1..])
  }

  lemma {:induction false} FlattenSingles(body: Bytes)
    ensures Flatten(Singles(body)) == body
    decreases |body|
  {
    if body != [] {
      FlattenFirst(Singles(body));
      assert Singles(body)[1..] == Singles(body[1..]);
      FlattenSingles(body[1..]);
    }
  }

  lemma ScanOne(r: Reader, b: byte)
    ensures Scan(r, [b]) == ScanByte(r, b) && Break(r, [b]) == BreakByte(r, b)
  {
  }

  /** The frames closed before the first limit broken. */
  function BeforeBreak(r: Reader, bytes: Bytes): seq<Frame>
    decreases |bytes|
  {
    if bytes == [] || BreakByte(r, bytes[0]).Some? then []
    else ScanByte(r, bytes[0]).frames + BeforeBreak(ScanByte(r, bytes[0]).reader, bytes[1..])
  }

  lemma {:induction false} BeforeBreakConcat(r: Reader, a: Bytes, b: Bytes)
    requires Break(r, a).None?
    ensures BeforeBreak(r, a + b) == Scan(r, a).frames + BeforeBreak(Scan(r, a).reader, b)
    decreases |a|
  {
    if a == [] {
      assert a + b == b;
    } else {
      var first := ScanByte(r, a[0]);
      assert (a + b)[0] == a[0] && (a + b)[1..] == a[1..] + b;
      BeforeBreakConcat(first.reader, a[1..], b);
      ConcatAssoc(first.frames, Scan(first.reader, a[1..]).frames, BeforeBreak(Scan(first.reader, a[1..]).reader, b));
    }
  }

  // ---- the chunk-at-a-time reader ----

  class SseFrameReader {
    var buffer: Bytes
    var event: Option<Bytes>
    var data: seq<Bytes>
    var dataBytes: nat
    var hasFields: bool

    ghost predicate FieldsValid()
      reads this
    {
      dataBytes == |Join(data)| && (!hasFields ==> event.None? && data == [])
    }

    ghost predicate Valid()
      reads this
    {
      FieldsValid() && LF !in buffer && |buffer| <= MAX_PENDING
    }

    function State(): Reader
      reads this
    {
      Reader(buffer, event, data, hasFields)
    }

    constructor ()
      ensures Valid() && State() == FRESH
    {
      buffer, event, data, dataBytes, hasFields := [], None, [], 0, false;
    }

    method Reset()
      modifies this
      ensures Valid() && State() == FRESH
    {
      buffer, event, data, dataBytes, hasFields := [], None, [], 0, false;
    }

    method TakeFrame() returns (frame: Option<Frame>)
      requires FieldsValid()
      modifies this
      ensures FieldsValid()
      ensures (State(), frame) == TakeOpen(old(State()))
    {
      if !hasFields {
        return None;
      }
      frame := Some(Frame(event, Join(data)));
      event, data, dataBytes, hasFields := None, [], 0, false;
    }

    method PushLine(line: Bytes) returns (r: Result<Option<Frame>, ReadError>)
      requires FieldsValid()
      modifies this
      ensures FieldsValid()
      ensures LineFits(old(State()), line) <==> r.Ok?
      ensures r.Ok? ==> (State(), r.value) == ReadLine(old(State()), line)
      ensures r.Err? ==> r.error == DataTooLong && State() == FRESH
    {
      if line == [] {
        var frame := TakeFrame();
        return Ok(frame);
      }
      if line[0] == COLON {
        return Ok(None);
      }
      var (name, value) := Field(line);
      if name == EVENT {
        event, hasFields := Some(value), true;
      } else if name == DATA {
        var extra := if data == [] then |value| else |value| + 1;
        assert (data + [value])[..|data|] == data;
        assert dataBytes + extra == |Join(data + [value])|;
        if dataBytes + extra > MAX_PENDING {
          Reset();
          return Err(DataTooLong);
        }
        dataBytes, data, hasFields := dataBytes + extra, data + [value], true;
      } else if name == ID || name == RETRY {
        hasFields := true;
      }
      return Ok(None);
    }

    /** The lines before `cursor` have been read, from `base`, and closed the frames `out`. */
    ghost predicate HasRead(base: Reader, cursor: nat, out: seq<Frame>)
      reads this
    {
      && FieldsValid() && cursor <= |buffer|
      && Scan(base, buffer[..cursor]) == Scanned(State().(buffer := []), out)
      && Break(base, buffer[..cursor]).None?
    }

    /** The line from `cursor` to the line feed at `end`; the buffer itself is not touched. */
    method ReadLineAt(ghost base: Reader, cursor: nat, end: nat, ghost out: seq<Frame>) returns (r: Result<Option<Frame>, ReadError>)
      requires HasRead(base, cursor, out)
      requires cursor <= end < |buffer| && buffer[end] == LF && LF !in buffer[cursor..end]
      modifies this
      ensures r.Ok? ==>
                buffer == old(buffer) && HasRead(base, end + 1, if r.value.Some? then out + [r.value.value] else out)
      ensures r.Err? ==> Valid() && State() == FRESH && Break(base, old(buffer)) == Some(r.error)
    {
      ScanNextLine(base, buffer, cursor, end, State().(buffer := []), out);
      if end - cursor > MAX_PENDING {
        Reset();
        return Err(LineTooLong);
      }
      var text := LineOf(buffer[cursor..end]);
      ReadLineIgnoresBuffer(State(), text);
      r := PushLine(text);
    }

    /**
     The lines of the buffer in turn. On success `cursor` is past the last line feed; the buffer
     itself is not touched.
     */
    method ReadLines(ghost base: Reader) returns (r: Result<seq<Frame>, ReadError>, cursor: nat)
      requires FieldsValid() && base == State().(buffer := [])
      modifies this
      ensures r.Ok? ==> buffer == old(buffer) && HasRead(base, cursor, r.value) && LF !in buffer[cursor..]
      ensures r.Err? ==> Valid() && State() == FRESH && Break(base, old(buffer)) == Some(r.error)
    {
      hide Scan, Break;
      NothingScanned(base);
      var out := [];
      cursor := 0;
      var next := Find(LF, buffer, cursor);
      while next.Some?
        invariant cursor <= |buffer| && buffer == old(buffer) && HasRead(base, cursor, out)
        invariant next == Find(LF, buffer, cursor)
        decreases |buffer| - cursor
      {
        var end := next.value;
        var pushed := ReadLineAt(base, cursor, end, out);
        if pushed.Err? {
          return Err(pushed.error), cursor;
        }
        if pushed.value.Some? {
          out := out + [pushed.value.value];
        }
        cursor := end + 1;
        next := Find(LF, buffer, cursor);
      }
      return Ok(out), cursor;
    }

    /** Reads a chunk: all its frames, or the first limit broken and a reset reader. */
    method Feed(bytes: Bytes) returns (r: Result<seq<Frame>, ReadError>)
      requires Valid()
      modifies this
      ensures Valid()
      ensures Break(old(State()), bytes).None? ==>
                r == Ok(Scan(old(State()), bytes).frames) && State() == Scan(old(State()), bytes).reader
      ensures Break(old(State()), bytes).Some? ==>
                r == Err(Break(old(State()), bytes).value) && State() == FRESH
    {
      ghost var base := State().(buffer := []);
      ScanPending(State(), bytes);
      if |buffer| + |bytes| > MAX_PENDING && LF !in bytes && LF !in buffer {
        ScanWithinLine(base, buffer + bytes);
        Reset();
        return Err(LineTooLong);
      }
      buffer := buffer + bytes;
      var cursor;
      r, cursor := ReadLines(base);
      if r.Ok? {
        ScanRest(base, buffer, cursor, State().(buffer := []), r.value);
        buffer := buffer[cursor..];
        if |buffer| > MAX_PENDING {
          Reset();
          return Err(LineTooLong);
        }
      }
    }

    method Finish() returns (r: Result<Option<Frame>, ReadError>)
      requires Valid()
      modifies this
      ensures Valid()
      ensures (State(), r) == EndOfBody(old(State()))
    {
      if buffer != [] {
        var line := TrimEndCr(Lossy(buffer));
        buffer := [];
        var pushed := PushLine(line);
        if pushed.Err? || pushed.value.Some? {
          return pushed;
        }
      }
      var frame := TakeFrame();
      return Ok(frame);
    }
  }
}
