/** What held bytes do on the Responses wire once a chunk has ended their line: the frame that comes next is glued to them. */
module GateStrands {
  import opened Utf8
  import opened Sse
  import opened SseFormat
  import opened Gate
  import opened GateRuns

  // ---- lines ----

  /** A line that opens a field. */
  predicate OpensField(line: Bytes) {
    line != [] && line[0] != COLON
    && (Field(line).0 == EVENT || Field(line).0 == DATA || Field(line).0 == ID || Field(line).0 == RETRY)
  }

  lemma {:induction false} FindAt(b: byte, s: Bytes, from: nat, at: nat)
    requires from <= at < |s| && s[at] == b && forall k :: from <= k < at ==> s[k] != b
    ensures Find(b, s, from) == Some(at)
    decreases at - from
  {
    if from < at {
      FindAt(b, s, from + 1, at);
    }
  }

  lemma FieldNameIs(name: Bytes, rest: Bytes)
    requires COLON !in name
    ensures Field(name + [COLON] + rest).0 == name
  {
    var line := name + [COLON] + rest;
    FindAt(COLON, line, 0, |name|);
    assert line[..|name|] == name;
  }

  /** A line with a colon is named by what stands before the first one, whatever follows. */
  lemma NameBeforeColon(x: Bytes, rest: Bytes)
    requires COLON !in x
    ensures var line := LineOf(x + [COLON] + rest);
            && line != [] && line[0] == (Lossy(x) + [COLON])[0]
            && Field(line).0 == Lossy(x)
  {
    var line := x + [COLON] + rest;
    assert Chomp(line) == x + [COLON] + Chomp(rest);
    LossySplitsAtAscii(x, COLON, Chomp(rest));
    if COLON in Lossy(x) {
      LossyByteIsThere(x, COLON);
    }
    FieldNameIs(Lossy(x), Lossy(Chomp(rest)));
  }

  lemma {:induction false} SameFieldOpened(x: Bytes, a: Bytes, b: Bytes)
    requires COLON !in x
    ensures OpensField(LineOf(x + [COLON] + a)) <==> OpensField(LineOf(x + [COLON] + b))
    ensures LineOf(x + [COLON] + b) != []
  {
    hide Lossy, Chomp, LineOf, Field;
    NameBeforeColon(x, a);
    NameBeforeColon(x, b);
  }

  function DataText(v: Bytes): Bytes {
    DATA + [COLON, SPACE] + v
  }

  lemma {:induction false} DataTextIsText(v: Bytes)
    requires IsText(v)
    ensures IsText(DataText(v))
  {
    hide IsText;
    AsciiIsText(DATA + [COLON]);
    TextJoins(DATA + [COLON], SPACE, v);
    assert DATA + [COLON] + [SPACE] + v == DataText(v);
  }

  lemma {:induction false} GluedDataLine(buffer: Bytes, v: Bytes)
    requires IsLine(v) && !EndsInCr(v)
    ensures LineOf(buffer + DataText(v)) == Lossy(buffer) + DataText(v)
  {
    hide Lossy;
    var t := DataText(v);
    assert Chomp(buffer + t) == buffer + t;
    LossyJoinsBeforeAscii(buffer, t);
    DataTextIsText(v);
  }

  lemma {:induction false} GluedBehindColon(x: Bytes, y: Bytes, rest: Bytes, t: Bytes)
    requires COLON !in x
    ensures OpensField(LineOf(x + [COLON] + y + t)) <==> OpensField(LineOf(x + [COLON] + y + rest))
    ensures LineOf(x + [COLON] + y + t) != []
  {
    hide OpensField, LineOf;
    SameFieldOpened(x, y + rest, y + t);
    ConcatAssoc(x + [COLON], y, rest);
    ConcatAssoc(x + [COLON], y, t);
  }

  /** Without a colon of its own the unfinished line lengthens the name. */
  lemma {:induction false} GluedName(buffer: Bytes, v: Bytes)
    requires buffer != [] && COLON !in buffer && IsLine(v) && !EndsInCr(v)
    ensures LineOf(buffer + DataText(v)) != [] && !OpensField(LineOf(buffer + DataText(v)))
  {
    hide OpensField, LineOf, DataText, Lossy;
    GluedDataLine(buffer, v);
    if COLON in Lossy(buffer) {
      LossyByteIsThere(buffer, COLON);
    }
    LossyNeverShrinks(buffer);
    LongDataName(Lossy(buffer), v);
  }

  lemma LongDataName(before: Bytes, v: Bytes)
    requires before != [] && COLON !in before
    ensures before + DataText(v) != [] && !OpensField(before + DataText(v))
  {
    hide OpensField;
    LongName(before, [SPACE] + v);
    assert before + DataText(v) == before + DATA + [COLON] + ([SPACE] + v);
  }

  lemma LongName(before: Bytes, rest: Bytes)
    requires before != [] && COLON !in before
    ensures !OpensField(before + DATA + [COLON] + rest)
  {
    var name := before + DATA;
    FieldNameIs(name, rest);
    assert name[|name| - 1] == 97 && |name| >= 5;
    assert EVENT[4] == 116 && RETRY[4] == 121;
  }

  /** A data line glued to an unfinished line opens no field, if that line went on to open none. */
  lemma {:induction false} GluedOpensNothing(buffer: Bytes, rest: Bytes, v: Bytes)
    requires buffer != [] && IsLine(v) && !EndsInCr(v) && !OpensField(LineOf(buffer + rest))
    ensures LineOf(buffer + DataText(v)) != [] && !OpensField(LineOf(buffer + DataText(v)))
  {
    hide OpensField, LineOf, DataText;
    assert buffer[0..] == buffer;
    if COLON in buffer {
      var at := Find(COLON, buffer, 0).value;
      assert buffer[0..at] == buffer[..at];
      GluedBehindColon(buffer[..at], buffer[at + 1..], rest, DataText(v));
      assert buffer == buffer[..at] + [COLON] + buffer[at + 1..];
    } else {
      GluedName(buffer, v);
    }
  }

  // ---- what a stranding chunk and the next frame leave ----

  lemma {:induction false} FieldOpensReader(r: Reader, line: Bytes)
    requires OpensField(line)
    ensures ReadLine(r, line).0.hasFields && ReadLine(r, line).1.None?
  {
  }

  lemma {:induction false} OtherLinePasses(r: Reader, line: Bytes)
    requires line != [] && !OpensField(line)
    ensures ReadLine(r, line) == (r, None)
  {
  }

  /** Two readers in the same unfinished line stay in the same unfinished line. */
  lemma {:induction false} SameUnfinishedLine(a: Reader, b: Reader, bytes: Bytes)
    requires a.buffer == b.buffer
    ensures Scan(a, bytes).reader.buffer == Scan(b, bytes).reader.buffer
    decreases |bytes|
  {
    if bytes != [] {
      var na, nb := ScanByte(a, bytes[0]).reader, ScanByte(b, bytes[0]).reader;
      if bytes[0] == LF {
        ReadLineIgnoresBuffer(a.(buffer := []), LineOf(a.buffer));
        ReadLineIgnoresBuffer(b.(buffer := []), LineOf(b.buffer));
      }
      SameUnfinishedLine(na, nb, bytes[1..]);
    }
  }

  /** A line feed closes the unfinished line. */
  lemma {:induction false} LineFed(q: Reader, x: Bytes)
    requires LF !in x
    ensures var pushed := ReadLine(q.(buffer := []), LineOf(q.buffer + x));
            Scan(q, x + [LF]) == Scanned(pushed.0, if pushed.1.Some? then [pushed.1.value] else []) && pushed.0.buffer == []
  {
    hide ReadLine, LineOf;
    var mid := q.(buffer := q.buffer + x);
    ScanWithinLine(q, x);
    ScanConcat(q, x, [LF]);
    assert [LF][1..] == [];
    ReadLineIgnoresBuffer(q.(buffer := []), LineOf(q.buffer + x));
    assert mid.(buffer := []) == q.(buffer := []);
    assert ScanByte(mid, LF).frames + [] == ScanByte(mid, LF).frames;
    assert [] + ScanByte(mid, LF).frames == ScanByte(mid, LF).frames;
  }

  /** A chunk that closes an open reader without a frame ends a line that opens no field. */
  lemma {:induction false} StrandingChunk(r: Reader, c: Bytes) returns (rest: Bytes)
    requires r.IsOpen() && Scan(r, c).frames == [] && !Scan(r, c).reader.IsOpen()
    ensures !r.hasFields && r.buffer != [] && !OpensField(LineOf(r.buffer + rest))
    ensures LF !in rest && rest + [LF] <= c
  {
    hide OpensField, LineOf;
    if r.hasFields {
      FieldsStayOpen(r, c);
    }
    assert c[0..] == c;
    var first := Find(LF, c, 0);
    if first.None? {
      ScanWithinLine(r, c);
      rest := [];
    } else {
      rest := c[0..first.value];
      var later := c[first.value + 1..];
      assert c == rest + [LF] + later;
      LineFed(r, rest);
      ScanConcat(r, rest + [LF], later);
      if OpensField(LineOf(r.buffer + rest)) {
        FieldOpensReader(r.(buffer := []), LineOf(r.buffer + rest));
        FieldsStayOpen(Scan(r, rest + [LF]).reader, later);
      }
    }
  }

  /** After a line feed the unfinished line depends on the bytes alone. */
  lemma {:induction false} SameLineAfterFeed(a: Reader, b: Reader, x: Bytes, bytes: Bytes)
    requires LF !in x && x + [LF] <= bytes
    ensures Scan(a, bytes).reader.buffer == Scan(b, bytes).reader.buffer
  {
    hide Scan;
    var later := bytes[|x| + 1..];
    assert bytes == x + [LF] + later;
    LineFed(a, x);
    LineFed(b, x);
    ScanConcat(a, x + [LF], later);
    ScanConcat(b, x + [LF], later);
    SameUnfinishedLine(Scan(a, x + [LF]).reader, Scan(b, x + [LF]).reader, later);
  }

  /** A one-line frame without an event name that no size limit or vendor error concerns. */
  predicate Plain(u: Upstream, f: Frame) {
    && f.event.None? && LF !in f.data && f.data != [] && IsTextFrame(f) && IsClean(f)
    && Break(FRESH, Format(f)).None?
    && u.Failure(f).None? && !u.wrapped(f.data) && !u.IsDone(f)
  }

  lemma {:induction false} FormatPlain(f: Frame)
    requires f.event.None? && LF !in f.data && IsTextFrame(f) && IsClean(f)
    ensures Format(f) == DataText(f.data) + [LF] + [LF] && IsLine(f.data) && !EndsInCr(f.data)
  {
    var lines := [f.data];
    SplitJoin(lines);
    assert Join(lines) == f.data;
    assert lines[..0] == [];
    assert DataLines(lines) == DataText(f.data) + [LF];
    assert [] + (DataText(f.data) + [LF]) + [LF] == DataText(f.data) + [LF] + [LF];
    assert f.data in lines;
  }

  /** Glued to such a line the frame is lost: what is emitted, and where it leaves the reader, do not depend on it. */
  lemma {:induction false} GluedFrameIsLost(e: Reader, rest: Bytes, f: Frame)
    requires e.buffer != [] && !OpensField(LineOf(e.buffer + rest))
    requires f.event.None? && LF !in f.data && IsTextFrame(f) && IsClean(f)
    ensures var (after, last) := TakeOpen(e.(buffer := []));
            Scan(e, Format(f)) == Scanned(after, if last.Some? then [last.value] else [])
  {
    hide Scan, LineOf, OpensField, ReadLine, TakeOpen, IsTextFrame, IsClean, Format;
    var x := DataText(f.data);
    var mid := e.(buffer := []);
    FormatPlain(f);
    GluedOpensNothing(e.buffer, rest, f.data);
    assert LF !in x;
    LineFed(e, x);
    OtherLinePasses(mid, LineOf(e.buffer + x));
    ScanConcat(e, x + [LF], [LF]);
    FeedCloses(mid);
    assert [] + Scan(mid, [LF]).frames == Scan(mid, [LF]).frames;
  }

  lemma {:induction false} FeedCloses(r: Reader)
    requires r.buffer == []
    ensures var (after, last) := TakeOpen(r);
            Scan(r, [LF]) == Scanned(after, if last.Some? then [last.value] else [])
  {
    ScanWholeLine(r, []);
    assert [] + [LF] == [LF];
  }

  // ---- what its reader sees ----

  lemma {:induction false} NextIsSeenAlone(u: Upstream, sent: Bytes, frames: seq<Frame>, x: Bytes, f: Frame)
    requires Sees(u, sent, frames) && Sees(u, sent + x, frames + [f]) && Plain(u, f)
    ensures Visible(u, Scan(FRESH, x).frames) == [f]
  {
    ScanConcat(FRESH, sent, x);
    VisibleConcat(u, Scan(FRESH, sent).frames, Scan(FRESH, x).frames);
    VisibleConcat(u, frames, [f]);
    VisibleOne(u, f);
    SameRest(Visible(u, frames), Visible(u, Scan(FRESH, x).frames), [f]);
  }

  /** The frame glued to stranded bytes: what it shows is the same for every plain frame. */
  lemma {:induction false} StrandedShows(held: Bytes, r: Reader, c: Bytes) returns (shown: seq<Frame>)
    requires Leads(held, r) && r.IsOpen() && Scan(r, c).frames == [] && !Scan(r, c).reader.IsOpen()
    ensures forall f: Frame | f.event.None? && LF !in f.data && IsTextFrame(f) && IsClean(f) ::
              Scan(FRESH, c + (held + Format(f))) == Scanned(FRESH, shown)
  {
    var rest := StrandingChunk(r, c);
    var q := Scan(FRESH, c).reader;
    SameLineAfterFeed(FRESH, r, rest, c);
    SameUnfinishedLine(q, FRESH, held);
    var e := Scan(q, held).reader;
    var (after, last) := TakeOpen(e.(buffer := []));
    var tail := if last.Some? then [last.value] else [];
    StaysText(c + held);
    ScanConcat(FRESH, c, held);
    shown := Scan(FRESH, c + held).frames + tail;
    forall f: Frame | f.event.None? && LF !in f.data && IsTextFrame(f) && IsClean(f)
      ensures Scan(FRESH, c + (held + Format(f))) == Scanned(FRESH, shown)
    {
      GluedFrameIsLost(e, rest, f);
      ConcatAssoc(c, held, Format(f));
      ScanConcat(FRESH, c + held, Format(f));
    }
  }

  lemma {:induction false} StaysText(bytes: Bytes)
    ensures IsTextReader(Scan(FRESH, bytes).reader)
  {
    ScanEmitsText(FRESH, bytes);
  }

  /** Two plain frames cannot both be seen behind stranded bytes. */
  lemma {:induction false} StrandedHidesOne(u: Upstream, sent: Bytes, frames: seq<Frame>, held: Bytes, r: Reader, c: Bytes,
                                            f: Frame, g: Frame)
    requires Sees(u, sent, frames) && Plain(u, f) && Plain(u, g) && f != g
    requires Leads(held, r) && r.IsOpen() && Scan(r, c).frames == [] && !Scan(r, c).reader.IsOpen()
    ensures !(Sees(u, sent + (c + (held + Format(f))), frames + [f]) && Sees(u, sent + (c + (held + Format(g))), frames + [g]))
  {
    hide Sees, Leads, Scan, Visible;
    var shown := StrandedShows(held, r, c);
    if Sees(u, sent + (c + (held + Format(f))), frames + [f]) && Sees(u, sent + (c + (held + Format(g))), frames + [g]) {
      NextIsSeenAlone(u, sent, frames, c + (held + Format(f)), f);
      NextIsSeenAlone(u, sent, frames, c + (held + Format(g)), g);
    }
  }
}
