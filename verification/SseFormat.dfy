/**
 Printing frames and reading them back: which frames survive, and what a reader has to be shown to
 reach the state of another one.
 */
module SseFormat {
  import opened Utf8
  import opened Sse
  import Text

  // ---- printer ----

  function FieldLine(name: Bytes, value: Bytes): Bytes {
    name + [COLON, SPACE] + value + [LF]
  }

  function EventLine(event: Option<Bytes>): Bytes {
    if event.Some? then FieldLine(EVENT, event.value) else []
  }

  function DataLines(lines: seq<Bytes>): Bytes {
    if lines == [] then []
    else DataLines(lines[..|lines| - 1]) + FieldLine(DATA, lines[|lines| - 1])
  }

  function Format(f: Frame): Bytes {
    EventLine(f.event) + DataLines(Pieces(f.data)) + [LF]
  }

  function FormatAll(frames: seq<Frame>): Bytes {
    if frames == [] then []
    else FormatAll(frames[..|frames| - 1]) + Format(frames[|frames| - 1])
  }

  /** `pending_wire_bytes`: the fields of the open frame, printed, and the unfinished line. */
  function Pending(r: Reader): Bytes {
    EventLine(r.event) + DataLines(r.data) + r.buffer
  }

  method FormatSse(f: Frame) returns (out: Bytes)
    ensures out == Format(f)
  {
    hide FieldLine, Pieces;
    out := [];
    if f.event.Some? {
      PrintField([], EVENT, f.event.value);
      out := out + (EVENT + [COLON, SPACE]);
      out := out + f.event.value;
      out := out + [LF];
    }
    ghost var head := out;
    assert head == EventLine(f.event);
    var lines := Pieces(f.data);
    for i := 0 to |lines|
      invariant out == head + DataLines(lines[..i])
    {
      assert lines[..i + 1][..i] == lines[..i];
      PrintField(out, DATA, lines[i]);
      ConcatAssoc(head, DataLines(lines[..i]), FieldLine(DATA, lines[i]));
      out := out + (DATA + [COLON, SPACE]);
      out := out + lines[i];
      out := out + [LF];
    }
    assert lines[..|lines|] == lines;
    out := out + [LF];
  }

  lemma PrintField(out: Bytes, name: Bytes, value: Bytes)
    ensures out + (name + [COLON, SPACE]) + value + [LF] == out + FieldLine(name, value)
  {
  }

  // ---- lines ----

  predicate IsLine(v: Bytes) {
    IsText(v) && LF !in v
  }

  lemma {:induction false} SplitWithinPiece(x: Bytes, v: Bytes, piece: Bytes)
    requires LF !in v
    ensures SplitFrom(x + v, piece) == SplitFrom(x, v + piece)
    decreases |v|
  {
    if v == [] {
      assert x + v == x && v + piece == piece;
    } else {
      var n := |v| - 1;
      assert (x + v)[..|x + v| - 1] == x + v[..n] && (x + v)[|x + v| - 1] == v[n];
      assert v[n] != LF && LF !in v[..n];
      SplitWithinPiece(x, v[..n], [v[n]] + piece);
      assert v[..n] + ([v[n]] + piece) == v + piece;
    }
  }

  lemma {:induction false} SplitAfterFeed(x: Bytes, v: Bytes)
    requires LF !in v
    ensures Pieces(x + [LF] + v) == Pieces(x) + [v]
  {
    SplitWithinPiece(x + [LF], v, []);
    assert v + [] == v;
    assert (x + [LF])[..|x|] == x;
  }

  lemma {:induction false} SplitJoin(lines: seq<Bytes>)
    requires lines != [] && forall v | v in lines :: LF !in v
    ensures Pieces(Join(lines)) == lines
    decreases |lines|
  {
    var n := |lines| - 1;
    if n == 0 {
      SplitWithinPiece([], lines[0], []);
      assert [] + lines[0] == lines[0] && lines[0] + [] == lines[0];
      assert SplitFrom([], lines[0]) == [lines[0]];
    } else {
      SplitJoin(lines[..n]);
      SplitAfterFeed(Join(lines[..n]), lines[n]);
    }
  }

  lemma {:induction false} JoinSnoc(lines: seq<Bytes>, v: Bytes)
    requires lines != []
    ensures Join(lines + [v]) == Join(lines) + [LF] + v
  {
  }

  lemma {:induction false} JoinSplitFrom(s: Bytes, piece: Bytes)
    ensures Join(SplitFrom(s, piece)) == s + piece
    decreases |s|
  {
    if s != [] {
      var b, rest := s[|s| - 1], s[..|s| - 1];
      if b == LF {
        JoinSplitFrom(rest, []);
        JoinSnoc(SplitFrom(rest, []), piece);
        assert rest + [] + [LF] + piece == s + piece;
      } else {
        JoinSplitFrom(rest, [b] + piece);
        assert rest + ([b] + piece) == s + piece;
      }
    }
  }

  lemma {:induction false} SplitIntoLines(s: Bytes, piece: Bytes)
    requires IsText(s + piece) && LF !in piece
    ensures forall v | v in SplitFrom(s, piece) :: IsLine(v)
    decreases |s|
  {
    if s == [] {
      assert s + piece == piece;
    } else {
      var b, rest := s[|s| - 1], s[..|s| - 1];
      if b == LF {
        assert s + piece == rest + [LF] + piece;
        TextSplits(rest, LF, piece);
        assert rest + [] == rest;
        SplitIntoLines(rest, []);
      } else {
        assert s + piece == rest + ([b] + piece);
        SplitIntoLines(rest, [b] + piece);
      }
    }
  }

  lemma {:induction false} JoinIsText(lines: seq<Bytes>)
    requires forall v | v in lines :: IsLine(v)
    ensures IsText(Join(lines))
    decreases |lines|
  {
    var n := |lines| - 1;
    if n == 0 {
      assert lines[0] in lines;
    } else if n > 0 {
      JoinIsText(lines[..n]);
      assert lines[n] in lines;
      TextJoins(Join(lines[..n]), LF, lines[n]);
    }
  }

  lemma {:induction false} LossyLast(x: Bytes)
    requires x != []
    ensures Lossy(x) != [] && (EndsInCr(Lossy(x)) <==> EndsInCr(x))
    decreases |x|
  {
    var n := Matched(x);
    if n < |x| {
      LossyLast(x[n..]);
    } else {
      assert x[n..] == [] && x[..n] == x;
      assert n > 1 ==> x[n - 1] != CR;
    }
  }

  lemma {:induction false} LossyKeepsFeedsOut(x: Bytes)
    requires LF !in x
    ensures LF !in Lossy(x)
    decreases |x|
  {
    if x != [] {
      LossyKeepsFeedsOut(x[Matched(x)..]);
    }
  }

  lemma {:induction false} LineOfIsLine(buffer: Bytes)
    requires LF !in buffer
    ensures IsLine(LineOf(buffer))
    ensures EndsInCr(LineOf(buffer)) <==> EndsInCr(Chomp(buffer))
  {
    LossyIsText(Chomp(buffer));
    LossyKeepsFeedsOut(Chomp(buffer));
    if Chomp(buffer) != [] {
      LossyLast(Chomp(buffer));
    }
  }

  /** The pieces, taken off from the end, are the parts between line feeds. */
  lemma {:induction false} PiecesAreParts(s: Bytes, piece: Bytes)
    requires LF !in piece
    ensures SplitFrom(s, piece) == Text.Split(s + piece, LF)
    decreases |s|
  {
    if s == [] {
      assert s + piece == piece;
      Text.SplitFirst(piece, LF, []);
    } else {
      var b, rest := s[|s| - 1], s[..|s| - 1];
      assert s + piece == rest + [b] + piece;
      if b == LF {
        PiecesAreParts(rest, []);
        assert rest + [] == rest;
        Text.SplitLast(rest, LF, piece);
      } else {
        PiecesAreParts(rest, [b] + piece);
        ConcatAssoc(rest, [b], piece);
      }
    }
  }

  lemma NothingIsText()
    ensures IsText([])
  {
  }

  lemma {:induction false} FieldOfLine(line: Bytes)
    requires IsLine(line)
    ensures IsLine(Field(line).1)
    ensures EndsInCr(Field(line).1) ==> EndsInCr(line)
  {
    hide IsText;
    match Find(COLON, line, 0)
    case None => NothingIsText();
    case Some(i) =>
      var value := line[i + 1..];
      assert line == line[..i] + [COLON] + value;
      TextSplits(line[..i], COLON, value);
      if value != [] && value[0] == SPACE {
        assert value == [] + [SPACE] + value[1..];
        TextSplits([], SPACE, value[1..]);
      }
  }

  // ---- reading printed fields ----

  function ChompAll(lines: seq<Bytes>): (r: seq<Bytes>)
    ensures |r| == |lines| && forall i | 0 <= i < |r| :: r[i] == Chomp(lines[i])
  {
    if lines == [] then [] else ChompAll(lines[..|lines| - 1]) + [Chomp(lines[|lines| - 1])]
  }

  lemma {:induction false} AsciiIsText(s: Bytes)
    requires forall i | 0 <= i < |s| :: s[i] < 0x80
    ensures IsText(s)
    decreases |s|
  {
    if s != [] {
      AsciiIsText(s[1..]);
      assert s == [s[0]] + s[1..];
      LossySplitsAtAscii([], s[0], s[1..]);
      assert [] + [s[0]] + s[1..] == s;
    }
  }

  lemma {:induction false} ChompIsLine(v: Bytes)
    requires IsLine(v)
    ensures IsLine(Chomp(v))
  {
    if EndsInCr(v) {
      var n := |v| - 1;
      assert v == v[..n] + [CR] + [];
      TextSplits(v[..n], CR, []);
    }
  }

  /** A field's name reaches to the first colon. */
  lemma {:induction false} FindsColon(name: Bytes, rest: Bytes, from: nat)
    requires COLON !in name && from <= |name|
    ensures Find(COLON, name + [COLON] + rest, from) == Some(|name|) && Find(COLON, name, from) == None
    decreases |name| - from
  {
    if from < |name| {
      assert name[from] in name;
      FindsColon(name, rest, from + 1);
    }
  }

  lemma {:induction false} FieldOfPrinted(name: Bytes, c: Bytes)
    requires name == EVENT || name == DATA
    ensures Field(name + [COLON, SPACE] + c) == (name, c)
  {
    hide Find;
    var line := name + [COLON, SPACE] + c;
    assert line == name + [COLON] + ([SPACE] + c);
    FindsColon(name, [SPACE] + c, 0);
    assert line[..|name|] == name && line[|name| + 1..] == [SPACE] + c;
  }

  lemma {:induction false} LineOfPrinted(name: Bytes, v: Bytes)
    requires name == EVENT || name == DATA
    requires IsLine(v)
    ensures LineOf(name + [COLON, SPACE] + v) == name + [COLON, SPACE] + Chomp(v)
  {
    hide IsText;
    var head, c := name + [COLON], Chomp(v);
    assert Chomp(name + [COLON, SPACE] + v) == name + [COLON, SPACE] + c;
    ChompIsLine(v);
    AsciiIsText(head);
    TextJoins(head, SPACE, c);
    assert head + [SPACE] + c == name + [COLON, SPACE] + c;
  }

  /** A printed field line is read as that field, less one trailing CR. */
  lemma {:induction false} ScanFieldLine(r: Reader, name: Bytes, v: Bytes)
    requires name == EVENT || name == DATA
    requires r.buffer == [] && IsLine(v)
    ensures Scan(r, FieldLine(name, v))
         == Scanned(if name == EVENT then r.(event := Some(Chomp(v)), hasFields := true)
                    else r.(data := r.data + [Chomp(v)], hasFields := true), [])
  {
    var line := name + [COLON, SPACE] + v;
    assert LF !in line;
    ScanWholeLine(r, line);
    LineOfPrinted(name, v);
    FieldOfPrinted(name, Chomp(v));
  }

  lemma {:induction false} ScanEventLine(r: Reader, event: Option<Bytes>)
    requires r.buffer == [] && (event.Some? ==> IsLine(event.value))
    ensures Scan(r, EventLine(event))
         == Scanned(if event.Some? then r.(event := Some(Chomp(event.value)), hasFields := true) else r, [])
  {
    if event.Some? {
      ScanFieldLine(r, EVENT, event.value);
    }
  }

  lemma {:induction false} ScanDataLines(r: Reader, lines: seq<Bytes>)
    requires r.buffer == [] && forall v | v in lines :: IsLine(v)
    ensures Scan(r, DataLines(lines))
         == Scanned(r.(data := r.data + ChompAll(lines), hasFields := r.hasFields || lines != []), [])
    decreases |lines|
  {
    if lines == [] {
      assert r.data + [] == r.data;
    } else {
      var n := |lines| - 1;
      ScanDataLines(r, lines[..n]);
      var mid := Scan(r, DataLines(lines[..n])).reader;
      ScanConcat(r, DataLines(lines[..n]), FieldLine(DATA, lines[n]));
      ScanFieldLine(mid, DATA, lines[n]);
      assert r.data + ChompAll(lines[..n]) + [Chomp(lines[n])] == r.data + ChompAll(lines);
    }
  }

  // ---- frames ----

  /** Every frame a reader emits is one (`ScanEmitsText`). */
  predicate IsTextFrame(f: Frame) {
    (f.event.Some? ==> IsLine(f.event.value)) && IsText(f.data)
  }

  /** No line of the frame ends in a carriage return. */
  predicate IsClean(f: Frame) {
    && (f.event.Some? ==> !EndsInCr(f.event.value))
    && forall v | v in Pieces(f.data) :: !EndsInCr(v)
  }

  function ChompFrame(f: Frame): Frame {
    Frame(if f.event.Some? then Some(Chomp(f.event.value)) else None, Join(ChompAll(Pieces(f.data))))
  }

  lemma {:induction false} ScanFormatted(f: Frame)
    requires IsTextFrame(f)
    ensures Scan(FRESH, Format(f)) == Scanned(FRESH, [ChompFrame(f)])
  {
    var lines := Pieces(f.data);
    assert f.data + [] == f.data;
    SplitIntoLines(f.data, []);
    ScanEventLine(FRESH, f.event);
    var r1 := Scan(FRESH, EventLine(f.event)).reader;
    ScanConcat(FRESH, EventLine(f.event), DataLines(lines));
    ScanDataLines(r1, lines);
    var r2 := Scan(r1, DataLines(lines)).reader;
    ScanConcat(FRESH, EventLine(f.event) + DataLines(lines), [LF]);
    ScanWholeLine(r2, []);
    assert [] + [LF] == [LF];
    assert [] + ChompAll(lines) == ChompAll(lines);
  }

  lemma ChompAllClean(lines: seq<Bytes>)
    requires forall v | v in lines :: !EndsInCr(v)
    ensures ChompAll(lines) == lines
  {
    forall i | 0 <= i < |lines| ensures ChompAll(lines)[i] == lines[i] {
      assert lines[i] in lines;
    }
  }

  predicate SomeEndsInCr(lines: seq<Bytes>) {
    exists v :: v in lines && EndsInCr(v)
  }

  lemma SomeLast(lines: seq<Bytes>)
    requires lines != []
    ensures SomeEndsInCr(lines) ==> SomeEndsInCr(lines[..|lines| - 1]) || EndsInCr(lines[|lines| - 1])
  {
  }

  lemma {:induction false} ChompShortens(lines: seq<Bytes>)
    ensures |Join(ChompAll(lines))| <= |Join(lines)|
    ensures SomeEndsInCr(lines) ==> |Join(ChompAll(lines))| < |Join(lines)|
    decreases |lines|
  {
    if lines != [] {
      var n := |lines| - 1;
      ChompShortens(lines[..n]);
      assert ChompAll(lines)[..n] == ChompAll(lines[..n]);
      SomeLast(lines);
    }
  }

  /** A printed frame reads back as itself exactly when none of its lines ends in CR. */
  lemma {:induction false} FormatReadsBack(f: Frame)
    requires IsTextFrame(f)
    ensures Scan(FRESH, Format(f)).frames == [f] <==> IsClean(f)
  {
    ScanFormatted(f);
    var lines := Pieces(f.data);
    JoinSplitFrom(f.data, []);
    assert f.data + [] == f.data;
    ChompShortens(lines);
    if IsClean(f) {
      ChompAllClean(lines);
    }
  }

  // ---- what a reader keeps ----

  predicate IsTextReader(r: Reader) {
    && LF !in r.buffer
    && (r.event.Some? ==> IsLine(r.event.value))
    && (forall v | v in r.data :: IsLine(v))
    && (!r.hasFields ==> r.event.None? && r.data == [])
  }

  predicate IsCleanReader(r: Reader) {
    && (r.event.Some? ==> !EndsInCr(r.event.value))
    && forall v | v in r.data :: !EndsInCr(v)
  }

  /** No line of `s` ends in two carriage returns. */
  predicate NoDoubledCr(s: Bytes) {
    forall i | 2 <= i < |s| :: s[i] == LF ==> !(s[i - 1] == CR && s[i - 2] == CR)
  }

  lemma {:induction false} OpenFrameIsText(r: Reader)
    requires IsTextReader(r) && r.hasFields
    ensures IsTextFrame(TakeOpen(r).1.value)
    ensures IsCleanReader(r) ==> IsClean(TakeOpen(r).1.value)
  {
    JoinIsText(r.data);
    if r.data != [] {
      SplitJoin(r.data);
    }
  }

  lemma AddedData(r: Reader, value: Bytes)
    requires IsTextReader(r) && IsLine(value)
    ensures IsTextReader(r.(data := r.data + [value], hasFields := true))
    ensures IsCleanReader(r) && !EndsInCr(value) ==> IsCleanReader(r.(data := r.data + [value], hasFields := true))
  {
  }

  lemma {:induction false} FieldKeepsText(r: Reader, line: Bytes)
    requires IsTextReader(r) && IsLine(line) && line != []
    ensures IsTextReader(ReadLine(r, line).0) && ReadLine(r, line).1.None?
    ensures IsCleanReader(r) && !EndsInCr(line) ==> IsCleanReader(ReadLine(r, line).0)
  {
    hide IsText, Field;
    FieldOfLine(line);
    AddedData(r, Field(line).1);
  }

  lemma {:induction false} ReadLineKeepsText(r: Reader, line: Bytes)
    requires IsTextReader(r) && IsLine(line)
    ensures IsTextReader(ReadLine(r, line).0)
    ensures ReadLine(r, line).1.Some? ==> IsTextFrame(ReadLine(r, line).1.value)
    ensures IsCleanReader(r) && !EndsInCr(line) ==>
              && IsCleanReader(ReadLine(r, line).0)
              && (ReadLine(r, line).1.Some? ==> IsClean(ReadLine(r, line).1.value))
  {
    if line != [] {
      FieldKeepsText(r, line);
    } else if r.hasFields {
      OpenFrameIsText(r);
    }
  }

  lemma {:induction false} ScanByteEmitsText(r: Reader, b: byte)
    requires IsTextReader(r)
    ensures IsTextReader(ScanByte(r, b).reader)
    ensures forall f | f in ScanByte(r, b).frames :: IsTextFrame(f)
    ensures IsCleanReader(r) && (b == LF ==> !EndsInCr(Chomp(r.buffer))) ==>
              && IsCleanReader(ScanByte(r, b).reader)
              && forall f | f in ScanByte(r, b).frames :: IsClean(f)
    ensures ScanByte(r, b).reader.buffer == if b == LF then [] else r.buffer + [b]
  {
    if b == LF {
      LineOfIsLine(r.buffer);
      ReadLineKeepsText(r.(buffer := []), LineOf(r.buffer));
      ReadLineIgnoresBuffer(r.(buffer := []), LineOf(r.buffer));
    }
  }

  lemma {:induction false} NoDoubledCrStep(buffer: Bytes, bytes: Bytes)
    requires bytes != [] && NoDoubledCr(buffer + bytes)
    ensures bytes[0] == LF ==> !EndsInCr(Chomp(buffer))
    ensures NoDoubledCr((if bytes[0] == LF then [] else buffer + [bytes[0]]) + bytes[1..])
  {
    hide NoDoubledCr, Chomp, EndsInCr;
    var all, n := buffer + bytes, |buffer|;
    if bytes[0] == LF {
      NotDoubledAt(all, n);
      assert buffer == all[..n];
      NoDoubledCrSuffix(all, n + 1);
      assert [] + bytes[1..] == all[n + 1..];
    } else {
      assert buffer + [bytes[0]] + bytes[1..] == all;
    }
  }

  lemma NotDoubledAt(s: Bytes, n: nat)
    requires NoDoubledCr(s) && n < |s| && s[n] == LF
    ensures !EndsInCr(Chomp(s[..n]))
  {
  }

  lemma NoDoubledCrSuffix(s: Bytes, n: nat)
    requires NoDoubledCr(s) && n <= |s|
    ensures NoDoubledCr(s[n..])
  {
  }

  /** What a reader emits is text, and clean when no line of the input ends in two CRs. */
  lemma {:induction false} ScanEmitsText(r: Reader, bytes: Bytes)
    requires IsTextReader(r)
    ensures IsTextReader(Scan(r, bytes).reader)
    ensures forall f | f in Scan(r, bytes).frames :: IsTextFrame(f)
    ensures IsCleanReader(r) && NoDoubledCr(r.buffer + bytes) ==>
              && IsCleanReader(Scan(r, bytes).reader)
              && forall f | f in Scan(r, bytes).frames :: IsClean(f)
    decreases |bytes|
  {
    if bytes != [] {
      var first := ScanByte(r, bytes[0]);
      ScanByteEmitsText(r, bytes[0]);
      if NoDoubledCr(r.buffer + bytes) {
        NoDoubledCrStep(r.buffer, bytes);
      }
      ScanEmitsText(first.reader, bytes[1..]);
    }
  }

  lemma {:induction false} EndOfBodyEmitsText(r: Reader)
    requires IsTextReader(r) && EndOfBody(r).1.Ok? && EndOfBody(r).1.value.Some?
    ensures IsTextFrame(EndOfBody(r).1.value.value)
    ensures IsCleanReader(r) ==> IsClean(EndOfBody(r).1.value.value)
  {
    if r.buffer == [] {
      OpenFrameIsText(r);
    } else {
      var line := TrimEndCr(Lossy(r.buffer));
      LossyIsText(r.buffer);
      LossyKeepsFeedsOut(r.buffer);
      TrimEndCrIsLine(Lossy(r.buffer));
      var r0 := r.(buffer := []);
      ReadLineKeepsText(r0, line);
      var r1 := ReadLine(r0, line).0;
      if r1.hasFields {
        OpenFrameIsText(r1);
      }
    }
  }

  lemma {:induction false} TrimEndCrIsLine(v: Bytes)
    requires IsLine(v)
    ensures IsLine(TrimEndCr(v))
    decreases |v|
  {
    if EndsInCr(v) {
      ChompIsLine(v);
      TrimEndCrIsLine(v[..|v| - 1]);
    }
  }

  lemma {:induction false} ReadsCleanFrame(f: Frame)
    requires IsTextFrame(f) && IsClean(f)
    ensures Scan(FRESH, Format(f)) == Scanned(FRESH, [f])
  {
    ScanFormatted(f);
    FormatReadsBack(f);
  }

  /** Frames that read back once printed. */
  predicate AreClean(frames: seq<Frame>) {
    frames == []
    || var n := |frames| - 1;
       IsTextFrame(frames[n]) && IsClean(frames[n]) && AreClean(frames[..n])
  }

  lemma {:induction false} CleanByMembers(frames: seq<Frame>)
    requires forall f | f in frames :: IsTextFrame(f) && IsClean(f)
    ensures AreClean(frames)
    decreases |frames|
  {
    if frames != [] {
      CleanByMembers(frames[..|frames| - 1]);
    }
  }

  lemma {:induction false} CleanPrefix(frames: seq<Frame>, k: nat)
    requires AreClean(frames) && k <= |frames|
    ensures AreClean(frames[..k])
    decreases |frames|
  {
    var n := |frames| - 1;
    if k <= n {
      CleanPrefix(frames[..n], k);
      assert frames[..n][..k] == frames[..k];
    } else {
      assert frames[..k] == frames;
    }
  }

  lemma CleanAppend(frames: seq<Frame>, f: Frame)
    requires AreClean(frames) && IsTextFrame(f) && IsClean(f)
    ensures AreClean(frames + [f])
  {
  }

  /** Frames whose event and data are text, as those of a reader are. */
  predicate AreText(frames: seq<Frame>) {
    frames == [] || (IsTextFrame(frames[|frames| - 1]) && AreText(frames[..|frames| - 1]))
  }

  lemma {:induction false} TextByMembers(frames: seq<Frame>)
    requires forall f | f in frames :: IsTextFrame(f)
    ensures AreText(frames)
    decreases |frames|
  {
    if frames != [] {
      TextByMembers(frames[..|frames| - 1]);
    }
  }

  lemma {:induction false} TextPrefix(frames: seq<Frame>, k: nat)
    requires AreText(frames) && k <= |frames|
    ensures AreText(frames[..k])
    decreases |frames|
  {
    var n := |frames| - 1;
    if k <= n {
      TextPrefix(frames[..n], k);
      assert frames[..n][..k] == frames[..k];
    } else {
      assert frames[..k] == frames;
    }
  }

  lemma {:induction false} CleanIsText(frames: seq<Frame>)
    requires AreClean(frames)
    ensures AreText(frames) && ChompFrames(frames) == frames
    decreases |frames|
  {
    hide IsTextFrame, IsClean, ChompFrame;
    if frames != [] {
      var n := |frames| - 1;
      CleanIsText(frames[..n]);
      ChompCounts(frames[n]);
      assert frames[..n] + [frames[n]] == frames;
    }
  }

  // ---- printed frames, read back ----

  function ChompFrames(frames: seq<Frame>): seq<Frame> {
    if frames == [] then [] else ChompFrames(frames[..|frames| - 1]) + [ChompFrame(frames[|frames| - 1])]
  }

  function Size(f: Frame): nat {
    (if f.event.Some? then |f.event.value| else 0) + |f.data|
  }

  function TotalSize(frames: seq<Frame>): nat {
    if frames == [] then 0 else TotalSize(frames[..|frames| - 1]) + Size(frames[|frames| - 1])
  }

  /** Printing and reading back only ever takes bytes away, and none exactly from clean frames. */
  lemma {:induction false} ChompCounts(f: Frame)
    ensures Size(ChompFrame(f)) <= Size(f)
    ensures Size(ChompFrame(f)) == Size(f) ==> IsClean(f)
    ensures IsClean(f) ==> ChompFrame(f) == f
  {
    var lines := Pieces(f.data);
    JoinSplitFrom(f.data, []);
    assert f.data + [] == f.data;
    ChompShortens(lines);
    if IsClean(f) {
      ChompAllClean(lines);
    }
  }

  lemma {:induction false} ChompFramesCount(frames: seq<Frame>)
    requires AreText(frames)
    ensures TotalSize(ChompFrames(frames)) <= TotalSize(frames)
    ensures TotalSize(ChompFrames(frames)) == TotalSize(frames) ==> AreClean(frames)
    decreases |frames|
  {
    hide IsTextFrame, IsClean, ChompFrame, Size;
    if frames != [] {
      var n := |frames| - 1;
      ChompFramesCount(frames[..n]);
      ChompCounts(frames[n]);
      var front := ChompFrames(frames[..n]);
      assert (front + [ChompFrame(frames[n])])[..|front|] == front;
    }
  }

  lemma {:induction false} ScanAnother(frames: seq<Frame>, bytes: Bytes, f: Frame)
    requires Scan(FRESH, bytes) == Scanned(FRESH, frames) && IsTextFrame(f)
    ensures Scan(FRESH, bytes + Format(f)) == Scanned(FRESH, frames + [ChompFrame(f)])
  {
    ScanFormatted(f);
    ScanConcat(FRESH, bytes, Format(f));
  }

  lemma FormatNothing()
    ensures FormatAll([]) == [] && Scan(FRESH, []) == Scanned(FRESH, [])
  {
  }

  lemma FormatLast(frames: seq<Frame>)
    requires frames != []
    ensures FormatAll(frames) == FormatAll(frames[..|frames| - 1]) + Format(frames[|frames| - 1])
  {
  }

  lemma {:induction false} ScanFormattedAll(frames: seq<Frame>)
    requires AreText(frames)
    ensures Scan(FRESH, FormatAll(frames)) == Scanned(FRESH, ChompFrames(frames))
    decreases |frames|
  {
    hide Scan, FormatAll, IsTextFrame, ChompFrame;
    if frames == [] {
      FormatNothing();
    } else {
      var n := |frames| - 1;
      FormatLast(frames);
      ScanFormattedAll(frames[..n]);
      ScanAnother(ChompFrames(frames[..n]), FormatAll(frames[..n]), frames[n]);
    }
  }

  // ---- one reader following another ----

  /** `d` stands where `r` stands, except that it may have missed an `id:` or `retry:` line. */
  predicate Follows(d: Reader, r: Reader) {
    && d.buffer == r.buffer && d.event == r.event && d.data == r.data
    && (d.hasFields ==> r.hasFields)
    && (!d.hasFields ==> d.event.None? && d.data == [])
  }

  /** A frame with no event name and no data. */
  predicate IsBlank(f: Frame) {
    f.event.None? && f.data == []
  }

  function DropBlank(frames: seq<Frame>): (r: seq<Frame>)
    ensures frames == [] ==> r == []
  {
    if frames == [] then []
    else DropBlank(frames[..|frames| - 1]) + (if IsBlank(frames[|frames| - 1]) then [] else [frames[|frames| - 1]])
  }

  lemma {:induction false} DropBlankConcat(a: seq<Frame>, b: seq<Frame>)
    ensures DropBlank(a + b) == DropBlank(a) + DropBlank(b)
    decreases |b|
  {
    if b == [] {
      assert a + b == a;
    } else {
      var n := |b| - 1;
      assert (a + b)[..|a + b| - 1] == a + b[..n];
      DropBlankConcat(a, b[..n]);
    }
  }

  lemma {:induction false} FollowsLine(d: Reader, r: Reader, line: Bytes)
    requires Follows(d, r)
    ensures Follows(ReadLine(d, line).0, ReadLine(r, line).0)
    ensures ReadLine(d, line).1.Some? ==> ReadLine(d, line).1 == ReadLine(r, line).1
    ensures ReadLine(d, line).1.None? && ReadLine(r, line).1.Some? ==> IsBlank(ReadLine(r, line).1.value)
  {
  }

  /** A follower shown the same bytes still follows, and has missed only blank frames. */
  lemma {:induction false} FollowsScan(d: Reader, r: Reader, bytes: Bytes)
    requires Follows(d, r)
    ensures Follows(Scan(d, bytes).reader, Scan(r, bytes).reader)
    ensures DropBlank(Scan(d, bytes).frames) == DropBlank(Scan(r, bytes).frames)
    ensures |Scan(d, bytes).frames| <= |Scan(r, bytes).frames|
    decreases |bytes|
  {
    if bytes != [] {
      var fd, fr := ScanByte(d, bytes[0]), ScanByte(r, bytes[0]);
      if bytes[0] == LF {
        FollowsLine(d.(buffer := []), r.(buffer := []), LineOf(r.buffer));
      }
      assert DropBlank(fd.frames) == DropBlank(fr.frames);
      FollowsScan(fd.reader, fr.reader, bytes[1..]);
      DropBlankConcat(fd.frames, Scan(fd.reader, bytes[1..]).frames);
      DropBlankConcat(fr.frames, Scan(fr.reader, bytes[1..]).frames);
    }
  }

  lemma ChompAllChanges(lines: seq<Bytes>)
    requires SomeEndsInCr(lines)
    ensures ChompAll(lines) != lines
  {
    var v :| v in lines && EndsInCr(v);
    var i :| 0 <= i < |lines| && lines[i] == v;
    assert ChompAll(lines)[i] != lines[i];
  }

  lemma {:induction false} ReadsPending(r: Reader)
    requires IsTextReader(r)
    ensures Scan(FRESH, Pending(r))
         == Scanned(Reader(r.buffer, if r.event.Some? then Some(Chomp(r.event.value)) else None, ChompAll(r.data),
                           r.event.Some? || r.data != []), [])
  {
    ScanEventLine(FRESH, r.event);
    var r1 := Scan(FRESH, EventLine(r.event)).reader;
    ScanConcat(FRESH, EventLine(r.event), DataLines(r.data));
    ScanDataLines(r1, r.data);
    var r2 := Scan(r1, DataLines(r.data)).reader;
    ScanConcat(FRESH, EventLine(r.event) + DataLines(r.data), r.buffer);
    ScanWithinLine(r2, r.buffer);
    assert [] + ChompAll(r.data) == ChompAll(r.data) && [] + r.buffer == r.buffer;
  }

  /**
   The pending bytes of a reader close no frame, and take a fresh reader to where it stands exactly when no open line
   ends in a carriage return and the open frame, if there is one, has an event or data. Without the second condition the
   fresh reader still follows.
   */
  lemma {:induction false} ScanPendingBytes(r: Reader)
    requires IsTextReader(r)
    ensures Scan(FRESH, Pending(r)).frames == []
    ensures Follows(Scan(FRESH, Pending(r)).reader, r) <==> IsCleanReader(r)
    ensures Scan(FRESH, Pending(r)).reader == r
       <==> IsCleanReader(r) && (r.hasFields ==> r.event.Some? || r.data != [])
  {
    ReadsPending(r);
    if SomeEndsInCr(r.data) {
      ChompAllChanges(r.data);
    } else {
      ChompAllClean(r.data);
    }
  }
}
