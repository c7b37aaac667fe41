/**
 The framing of the server-sent event stream (`arcade-sse.ts`): decoded chunks are appended to a
 buffer, frames are cut off it at a blank line written "\n\n" or "\r\n\r\n" (two of the forms of
 section 9.2.5 of the WHATWG HTML Living Standard), and each frame is read field by field.
 A chunk is the text the decoder returned for it.
 */
module SseFraming {
  import opened Lists
  import opened Options

  const LF2 := "\n\n"
  const CRLF2 := "\r\n\r\n"

  // ---------- finding the separator ----------

  predicate Occurs(s: string, pattern: string, k: nat) {
    k + |pattern| <= |s| && s[k..k + |pattern|] == pattern
  }

  /** The string method `indexOf`. */
  function IndexOf(s: string, pattern: string, start: nat): (r: Option<nat>)
    requires start <= |s|
    ensures r.Some? ==> r.value + |pattern| <= |s|
    decreases |s| - start
  {
    if Occurs(s, pattern, start) then Some(start)
    else if start == |s| then None
    else IndexOf(s, pattern, start + 1)
  }

  lemma {:induction false} IndexOfIsFirst(s: string, pattern: string, start: nat)
    requires start <= |s|
    ensures match IndexOf(s, pattern, start)
            case None => forall j :: start <= j ==> !Occurs(s, pattern, j)
            case Some(k) => k >= start && Occurs(s, pattern, k) && forall j :: start <= j < k ==> !Occurs(s, pattern, j)
    decreases |s| - start
  {
    if !Occurs(s, pattern, start) && start < |s| { IndexOfIsFirst(s, pattern, start + 1); }
  }

  datatype Separator = Separator(index: nat, length: nat)

  function FindFrameSeparator(buffer: string): (r: Option<Separator>)
    ensures r.Some? ==> r.value.length >= 2 && r.value.index + r.value.length <= |buffer|
  {
    var lf := IndexOf(buffer, LF2, 0);
    var crlf := IndexOf(buffer, CRLF2, 0);
    if crlf.Some? && (lf.None? || crlf.value < lf.value) then Some(Separator(crlf.value, 4))
    else if lf.Some? then Some(Separator(lf.value, 2))
    else None
  }

  predicate LfAt(s: string, k: nat) { k + 2 <= |s| && s[k] == '\n' && s[k + 1] == '\n' }

  predicate CrlfAt(s: string, k: nat) {
    k + 4 <= |s| && s[k] == '\r' && s[k + 1] == '\n' && s[k + 2] == '\r' && s[k + 3] == '\n'
  }

  predicate BlankAt(s: string, k: nat) { LfAt(s, k) || CrlfAt(s, k) }

  lemma OccursByCharacters(s: string)
    ensures forall k: nat :: Occurs(s, LF2, k) <==> LfAt(s, k)
    ensures forall k: nat :: Occurs(s, CRLF2, k) <==> CrlfAt(s, k)
  {
    forall k: nat ensures Occurs(s, LF2, k) <==> LfAt(s, k) {
      if k + 2 <= |s| { assert s[k..k + 2][0] == s[k] && s[k..k + 2][1] == s[k + 1]; }
      if LfAt(s, k) { assert s[k..k + 2] == LF2; }
    }
    forall k: nat ensures Occurs(s, CRLF2, k) <==> CrlfAt(s, k) {
      if k + 4 <= |s| {
        var w := s[k..k + 4];
        assert w[0] == s[k] && w[1] == s[k + 1] && w[2] == s[k + 2] && w[3] == s[k + 3];
      }
      if CrlfAt(s, k) { assert s[k..k + 4] == CRLF2; }
    }
  }

  predicate Ends(s: string, sep: Separator) {
    (sep.length == 2 && LfAt(s, sep.index)) || (sep.length == 4 && CrlfAt(s, sep.index))
  }

  /** The separator found is the leftmost blank line of either form; none is found only if there is none. */
  lemma SeparatorIsLeftmost(s: string)
    ensures match FindFrameSeparator(s)
            case None => forall k: nat :: !BlankAt(s, k)
            case Some(sep) => Ends(s, sep) && BlankAt(s, sep.index) && forall k: nat :: k < sep.index ==> !BlankAt(s, k)
  {
    OccursByCharacters(s);
    IndexOfIsFirst(s, LF2, 0);
    IndexOfIsFirst(s, CRLF2, 0);
    var lf, crlf := IndexOf(s, LF2, 0), IndexOf(s, CRLF2, 0);
    assert forall k: nat :: lf.Some? && k < lf.value ==> !LfAt(s, k);
    assert forall k: nat :: crlf.Some? && k < crlf.value ==> !CrlfAt(s, k);
  }

  lemma LeftmostIsSeparator(s: string, sep: Separator)
    requires Ends(s, sep) && forall k: nat :: k < sep.index ==> !BlankAt(s, k)
    ensures FindFrameSeparator(s) == Some(sep)
  {
    SeparatorIsLeftmost(s);
    assert BlankAt(s, sep.index);
  }

  /** A separator once found stays where it is, whatever arrives after it. */
  lemma SeparatorIsStable(a: string, b: string)
    requires FindFrameSeparator(a).Some?
    ensures FindFrameSeparator(a + b) == FindFrameSeparator(a)
  {
    SeparatorIsLeftmost(a);
    var sep := FindFrameSeparator(a).value;
    forall k: nat | k < sep.index ensures !BlankAt(a + b, k) { assert !BlankAt(a, k); }
    LeftmostIsSeparator(a + b, sep);
  }

  // ---------- cutting frames ----------

  /** The frames cut off a buffer, and what stays in it. */
  datatype Cut = Cut(frames: seq<string>, rest: string)

  function Split(buffer: string): Cut
    decreases |buffer|
  {
    var sep := FindFrameSeparator(buffer);
    if sep.None? then Cut([], buffer)
    else
      var tail := Split(buffer[sep.value.index + sep.value.length..]);
      Cut([buffer[..sep.value.index]] + tail.frames, tail.rest)
  }

  function Cons(frame: string, tail: Cut): Cut { Cut([frame] + tail.frames, tail.rest) }

  lemma SplitStep(s: string, sep: Separator)
    requires FindFrameSeparator(s) == Some(sep)
    ensures Split(s) == Cons(s[..sep.index], Split(s[sep.index + sep.length..]))
  {
  }

  function Then(first: Cut, second: Cut): Cut { Cut(first.frames + second.frames, second.rest) }

  lemma ConsThen(frame: string, first: Cut, second: Cut)
    ensures Then(Cons(frame, first), second) == Cons(frame, Then(first, second))
  {
    assert ([frame] + first.frames) + second.frames == [frame] + (first.frames + second.frames);
  }

  lemma NothingThen(rest: string, cut: Cut)
    ensures Then(Cut([], rest), cut) == cut
  {
    assert [] + cut.frames == cut.frames;
  }

  lemma Appended(a: string, b: string, i: nat)
    requires i <= |a|
    ensures (a + b)[i..] == a[i..] + b && (a + b)[..i] == a[..i]
  {
  }

  lemma SplitStepJoined(a: string, b: string, sep: Separator)
    requires FindFrameSeparator(a) == Some(sep)
    ensures Split(a + b) == Cons(a[..sep.index], Split(a[sep.index + sep.length..] + b))
  {
    SeparatorIsStable(a, b);
    SplitStep(a + b, sep);
    Appended(a, b, sep.index + sep.length);
    Appended(a, b, sep.index);
  }

  /** Cutting a prefix first and its remainder later cuts the same frames. */
  lemma {:induction false} SplitInTwo(a: string, b: string)
    ensures Split(a + b) == Then(Split(a), Split(Split(a).rest + b))
    decreases |a|
  {
    var found := FindFrameSeparator(a);
    if found.Some? {
      var sep := found.value;
      var later := a[sep.index + sep.length..];
      SplitStep(a, sep);
      SplitStepJoined(a, b, sep);
      SplitInTwo(later, b);
      ConsThen(a[..sep.index], Split(later), Split(Split(later).rest + b));
    } else {
      assert Split(a) == Cut([], a);
      NothingThen(a, Split(a + b));
    }
  }

  function Joined(chunks: seq<string>): string {
    if chunks == [] then "" else chunks[0] + Joined(chunks[1..])
  }

  lemma {:induction false} JoinedSnoc(chunks: seq<string>, last: string)
    ensures Joined(chunks + [last]) == Joined(chunks) + last
  {
    if chunks != [] {
      JoinedSnoc(chunks[1..], last);
      assert (chunks + [last])[1..] == chunks[1..] + [last];
    }
  }

  // ---------- an independent account of the frames ----------

  /** A frame with the blank line that ended it. */
  datatype Piece = Piece(frame: string, blank: string)

  function Glue(pieces: seq<Piece>): string {
    if pieces == [] then "" else pieces[0].frame + pieces[0].blank + Glue(pieces[1..])
  }

  ghost predicate EndsAtItsBlank(p: Piece) {
    (p.blank == LF2 || p.blank == CRLF2) && forall k: nat :: k < |p.frame| ==> !BlankAt(p.frame + p.blank, k)
  }

  /** The stream is these pieces and a rest, each piece ended by its first blank line, the rest without one. */
  ghost predicate Reads(stream: string, pieces: seq<Piece>, rest: string) {
    && stream == Glue(pieces) + rest
    && (forall i :: 0 <= i < |pieces| ==> EndsAtItsBlank(pieces[i]))
    && forall k: nat :: !BlankAt(rest, k)
  }

  function Frames(pieces: seq<Piece>): seq<string> {
    if pieces == [] then [] else [pieces[0].frame] + Frames(pieces[1..])
  }

  lemma PieceSeparator(p: Piece)
    requires EndsAtItsBlank(p)
    ensures FindFrameSeparator(p.frame + p.blank) == Some(Separator(|p.frame|, |p.blank|))
  {
    LeftmostIsSeparator(p.frame + p.blank, Separator(|p.frame|, |p.blank|));
  }

  /** There is no other reading of the stream than the frames cut from it. */
  lemma {:induction false} ReadingIsSplit(stream: string, pieces: seq<Piece>, rest: string)
    requires Reads(stream, pieces, rest)
    ensures Split(stream) == Cut(Frames(pieces), rest)
    decreases |pieces|
  {
    if pieces == [] {
      assert stream == rest;
      SeparatorIsLeftmost(stream);
    } else {
      var p, others := pieces[0], Glue(pieces[1..]) + rest;
      var head := p.frame + p.blank;
      PieceSeparator(p);
      assert stream == head + others;
      SeparatorIsStable(head, others);
      SplitStep(stream, Separator(|p.frame|, |p.blank|));
      assert stream[|head|..] == others && stream[..|p.frame|] == p.frame;
      ReadingIsSplit(others, pieces[1..], rest);
    }
  }

  function FirstPiece(s: string, sep: Separator): Piece
    requires sep.index + sep.length <= |s|
  {
    Piece(s[..sep.index], s[sep.index..sep.index + sep.length])
  }

  lemma FirstPieceEnds(s: string, sep: Separator)
    requires FindFrameSeparator(s) == Some(sep)
    ensures var p := FirstPiece(s, sep);
      EndsAtItsBlank(p) && s == p.frame + p.blank + s[sep.index + sep.length..]
  {
    SeparatorIsLeftmost(s);
    var p := FirstPiece(s, sep);
    assert p.frame + p.blank == s[..sep.index + sep.length];
    forall k: nat | k < |p.frame| ensures !BlankAt(p.frame + p.blank, k) { assert !BlankAt(s, k); }
  }

  function Preceded(p: Piece, others: seq<Piece>): seq<Piece> { [p] + others }

  lemma ReadsOn(p: Piece, stream: string, others: seq<Piece>, rest: string)
    requires EndsAtItsBlank(p) && Reads(stream, others, rest)
    ensures Reads(p.frame + p.blank + stream, Preceded(p, others), rest)
    ensures Frames(Preceded(p, others)) == [p.frame] + Frames(others)
  {
    assert Preceded(p, others)[1..] == others;
  }

  /** And the frames cut from a stream are such a reading. */
  lemma {:induction false} SplitIsReading(stream: string) returns (pieces: seq<Piece>)
    ensures Reads(stream, pieces, Split(stream).rest)
    ensures Split(stream).frames == Frames(pieces)
    decreases |stream|
  {
    var found := FindFrameSeparator(stream);
    if found.None? {
      pieces := [];
      SeparatorIsLeftmost(stream);
    } else {
      var sep := found.value;
      SplitStep(stream, sep);
      FirstPieceEnds(stream, sep);
      var others := SplitIsReading(stream[sep.index + sep.length..]);
      pieces := Preceded(FirstPiece(stream, sep), others);
      ReadsOn(FirstPiece(stream, sep), stream[sep.index + sep.length..], others, Split(stream).rest);
    }
  }

  // ---------- the two line endings ----------

  function CrlfOf(c: char): string { if c == '\n' then "\r\n" else [c] }

  /** The same text with every line feed written as a carriage return and a line feed. */
  function ToCrlf(s: string): string {
    if s == "" then ""
    else CrlfOf(s[0]) + ToCrlf(s[1..])
  }

  lemma {:induction false} ToCrlfJoins(a: string, b: string)
    ensures ToCrlf(a + b) == ToCrlf(a) + ToCrlf(b)
  {
    if a == "" {
      assert a + b == b;
    } else {
      ToCrlfJoins(a[1..], b);
      assert (a + b)[0] == a[0] && (a + b)[1..] == a[1..] + b;
      Regrouped(CrlfOf(a[0]), ToCrlf(a[1..]), ToCrlf(b));
    }
  }

  predicate LfOnly(s: string) { '\r' !in s }

  function Shift(sep: Option<Separator>, n: nat): Option<Separator> {
    if sep.None? then None else Some(Separator(sep.value.index + n, sep.value.length))
  }

  lemma SeparatorSteps(s: string)
    requires s != "" && !BlankAt(s, 0)
    ensures FindFrameSeparator(s) == Shift(FindFrameSeparator(s[1..]), 1)
  {
    var t := s[1..];
    SeparatorIsLeftmost(s);
    SeparatorIsLeftmost(t);
    assert forall k: nat :: BlankAt(t, k) ==> BlankAt(s, k + 1);
    assert forall k: nat :: k > 0 && BlankAt(s, k) ==> BlankAt(t, k - 1);
    var found := FindFrameSeparator(t);
    if found.Some? {
      var sep := found.value;
      LeftmostIsSeparator(s, Separator(sep.index + 1, sep.length));
    }
  }

  lemma {:induction false} CrlfSeparator(s: string)
    requires LfOnly(s)
    ensures match FindFrameSeparator(s)
            case None => FindFrameSeparator(ToCrlf(s)) == None
            case Some(sep) =>
              && sep.length == 2 && LfAt(s, sep.index)
              && FindFrameSeparator(ToCrlf(s)) == Some(Separator(|ToCrlf(s[..sep.index])|, 4))
    decreases |s|
  {
    if LfAt(s, 0) {
      CrlfBlankFirst(s);
    } else if s == "" {
      SeparatorIsLeftmost(s);
    } else {
      SeparatorSteps(s);
      CrlfSeparator(s[1..]);
      CrlfSteps(s);
      var sep := FindFrameSeparator(s);
      if sep.Some? { CrlfPrefix(s, sep.value.index); }
    }
  }

  lemma CrlfBlankFirst(s: string)
    requires LfAt(s, 0)
    ensures FindFrameSeparator(s) == Some(Separator(0, 2))
    ensures s[..0] == "" && FindFrameSeparator(ToCrlf(s)) == Some(Separator(0, 4))
  {
    LeftmostIsSeparator(s, Separator(0, 2));
    assert ToCrlf(s[1..]) == "\r\n" + ToCrlf(s[1..][1..]);
    assert CrlfAt(ToCrlf(s), 0);
    LeftmostIsSeparator(ToCrlf(s), Separator(0, 4));
  }

  lemma CrlfPrefix(s: string, i: nat)
    requires 0 < i <= |s|
    ensures |ToCrlf(s[..i])| == |CrlfOf(s[0])| + |ToCrlf(s[1..][..i - 1])|
  {
    assert s[..i][1..] == s[1..][..i - 1];
  }

  lemma CrlfSteps(s: string)
    requires LfOnly(s) && s != "" && !LfAt(s, 0)
    ensures FindFrameSeparator(ToCrlf(s)) == Shift(FindFrameSeparator(ToCrlf(s[1..])), |CrlfOf(s[0])|)
  {
    NotBlankAtFirst(s);
    if s[0] == '\n' {
      CrlfOfLf(s);
      StepOverTwo(ToCrlf(s[1..]));
    } else {
      StepOver(s[0], ToCrlf(s[1..]));
    }
  }

  lemma CrlfOfLf(s: string)
    requires s != "" && s[0] == '\n'
    ensures ToCrlf(s) == ['\r'] + (['\n'] + ToCrlf(s[1..]))
  {
    Regrouped("\r", "\n", ToCrlf(s[1..]));
  }

  lemma StepOverTwo(rest: string)
    requires !BlankAt(['\r'] + (['\n'] + rest), 0) && !BlankAt(['\n'] + rest, 0)
    ensures FindFrameSeparator(['\r'] + (['\n'] + rest)) == Shift(FindFrameSeparator(rest), 2)
  {
    StepOver('\n', rest);
    StepOver('\r', ['\n'] + rest);
  }

  lemma StepOver(c: char, rest: string)
    requires !BlankAt([c] + rest, 0)
    ensures FindFrameSeparator([c] + rest) == Shift(FindFrameSeparator(rest), 1)
  {
    assert ([c] + rest)[1..] == rest;
    SeparatorSteps([c] + rest);
  }

  lemma NotBlankAtFirst(s: string)
    requires LfOnly(s) && s != "" && !LfAt(s, 0)
    ensures !BlankAt(ToCrlf(s), 0)
    ensures s[0] == '\n' ==> !BlankAt(['\n'] + ToCrlf(s[1..]), 0)
  {
    if s[0] == '\n' && |s| > 1 { assert s[1] != '\n' && s[1..][0] == s[1]; }
  }

  function CrlfFrames(frames: seq<string>): (r: seq<string>)
    ensures |r| == |frames| && forall i :: 0 <= i < |r| ==> r[i] == ToCrlf(frames[i])
  {
    seq(|frames|, i requires 0 <= i < |frames| => ToCrlf(frames[i]))
  }

  ghost predicate CrlfSplit(s: string) {
    && Split(ToCrlf(s)) == Cut(CrlfFrames(Split(s).frames), ToCrlf(Split(s).rest))
    && forall i :: 0 <= i < |Split(s).frames| ==> LfOnly(Split(s).frames[i])
  }

  lemma CrlfSplitsOn(s: string, found: Separator)
    requires LfOnly(s) && FindFrameSeparator(s) == Some(found) && CrlfSplit(s[found.index + 2..])
    ensures CrlfSplit(s)
  {
    var at, rest := found.index, s[found.index + 2..];
    CrlfSeparator(s);
    CutCrlf(s, at);
    SplitStep(s, found);
    SplitStep(ToCrlf(s), Separator(|ToCrlf(s[..at])|, 4));
    CrlfCons(s[..at], Split(rest).frames);
  }

  lemma {:induction false} CrlfSplits(s: string)
    requires LfOnly(s)
    ensures CrlfSplit(s)
    decreases |s|
  {
    CrlfSeparator(s);
    var found := FindFrameSeparator(s);
    if found.Some? {
      CrlfSplits(s[found.value.index + 2..]);
      CrlfSplitsOn(s, found.value);
    }
  }

  lemma CrlfCons(frame: string, frames: seq<string>)
    ensures CrlfFrames([frame] + frames) == [ToCrlf(frame)] + CrlfFrames(frames)
  {
  }

  lemma CutCrlf(s: string, at: nat)
    requires LfAt(s, at)
    ensures var n := |ToCrlf(s[..at])|;
      n + 4 <= |ToCrlf(s)| && ToCrlf(s)[..n] == ToCrlf(s[..at]) && ToCrlf(s)[n + 4..] == ToCrlf(s[at + 2..])
  {
    assert s == s[..at] + s[at..];
    ToCrlfJoins(s[..at], s[at..]);
    assert s[at..][1..][1..] == s[at + 2..];
    assert ToCrlf(s[at..][1..]) == "\r\n" + ToCrlf(s[at + 2..]);
  }

  // ---------- one frame ----------

  /** Splitting at every line feed, dropping one carriage return before it. */
  function Lines(frame: string): seq<string>
    decreases |frame|
  {
    var k := IndexOf(frame, "\n", 0);
    if k.None? then [frame]
    else [WithoutCr(frame[..k.value])] + Lines(frame[k.value + 1..])
  }

  function WithoutCr(line: string): string {
    if line != "" && line[|line| - 1] == '\r' then line[..|line| - 1] else line
  }

  datatype Fields = Fields(event: string, id: Option<string>, data: seq<string>)

  const NO_FIELDS := Fields("message", None, [])

  function Unpadded(value: string): string { if value != "" && value[0] == ' ' then value[1..] else value }

  /** A blank line and a comment line change nothing; a line without a colon is a field with an empty value. */
  function ReadLine(f: Fields, line: string): Fields {
    if line == "" || line[0] == ':' then f
    else
      var colon := IndexOf(line, ":", 0);
      var field := if colon.None? then line else line[..colon.value];
      var value := if colon.None? then "" else Unpadded(line[colon.value + 1..]);
      if field == "event" then f.(event := value)
      else if field == "data" then f.(data := f.data + [value])
      else if field == "id" then f.(id := Some(value))
      else f
  }

  function ReadLines(lines: seq<string>): Fields {
    if lines == [] then NO_FIELDS else ReadLine(ReadLines(lines[..|lines| - 1]), lines[|lines| - 1])
  }

  method ParseFrame(frame: string) returns (f: Fields)
    ensures f == ReadLines(Lines(frame))
  {
    var lines := Lines(frame);
    f := NO_FIELDS;
    for i := 0 to |lines|
      invariant f == ReadLines(lines[..i])
    {
      assert lines[..i + 1][..i] == lines[..i];
      f := ReadLine(f, lines[i]);
    }
    assert lines[..|lines|] == lines;
  }

  function JoinData(data: seq<string>): string {
    if data == [] then "" else if |data| == 1 then data[0] else data[0] + "\n" + JoinData(data[1..])
  }

  /** The reconnect cursor, and every payload passed on to the JSON parser in order. */
  datatype Reader = Reader(lastEventId: string, payloads: seq<string>)

  function Handle(r: Reader, frame: string): Reader {
    var f := ReadLines(Lines(frame));
    Reader(
      if f.id.Some? && f.id.value != "" then f.id.value else r.lastEventId,
      if f.data == [] || (f.event != "status" && f.event != "message") then r.payloads
      else r.payloads + [JoinData(f.data)])
  }

  // ---------- what a frame says ----------

  predicate StartsWith(s: string, prefix: string) { prefix <= s }

  /** The value a line gives to a field: after the colon and one space, if any; empty without a colon. */
  function ValueOf(line: string, field: string): Option<string> {
    if line == field then Some("")
    else if StartsWith(line, field + ": ") then Some(line[|field| + 2..])
    else if StartsWith(line, field + ":") then Some(line[|field| + 1..])
    else None
  }

  function With(values: seq<string>, value: Option<string>): seq<string> {
    values + if value.Some? then [value.value] else []
  }

  /** The values of a field, in the order of its lines. */
  function ValuesOf(lines: seq<string>, field: string): seq<string> {
    if lines == [] then []
    else
      With(ValuesOf(lines[..|lines| - 1], field), ValueOf(lines[|lines| - 1], field))
  }

  function LastOr(values: seq<string>, otherwise: string): string {
    if values == [] then otherwise else values[|values| - 1]
  }

  predicate ColonFree(field: string) { field != "" && forall i :: 0 <= i < |field| ==> field[i] != ':' }

  lemma ColonByCharacters(s: string)
    ensures forall k: nat :: Occurs(s, ":", k) <==> k < |s| && s[k] == ':'
  {
    forall k: nat | k < |s| ensures Occurs(s, ":", k) <==> s[k] == ':' { assert s[k..k + 1] == [s[k]]; }
  }

  /** Cutting a line at its first colon finds its field and value. */
  lemma LineSays(line: string, field: string)
    requires ColonFree(field) && line != "" && line[0] != ':'
    ensures var colon := IndexOf(line, ":", 0);
      var name := if colon.None? then line else line[..colon.value];
      var value := if colon.None? then "" else Unpadded(line[colon.value + 1..]);
      ValueOf(line, field) == if name == field then Some(value) else None
  {
    ColonByCharacters(line);
    IndexOfIsFirst(line, ":", 0);
    var colon := IndexOf(line, ":", 0);
    if colon.Some? { CutAtColon(line, colon.value, field); } else { NoColon(line, field); }
  }

  lemma BeforeColon(line: string, field: string)
    ensures StartsWith(line, field + ":") || StartsWith(line, field + ": ") ==>
      |field| < |line| && line[|field|] == ':' && forall j :: 0 <= j < |field| ==> line[j] == field[j]
  {
  }

  lemma NoColon(line: string, field: string)
    requires forall k :: 0 <= k < |line| ==> line[k] != ':'
    ensures ValueOf(line, field) == if line == field then Some("") else None
  {
    BeforeColon(line, field);
  }

  lemma CutAtColon(line: string, k: nat, field: string)
    requires ColonFree(field) && k < |line| && line[k] == ':' && forall j :: 0 <= j < k ==> line[j] != ':'
    ensures ValueOf(line, field) == if line[..k] == field then Some(Unpadded(line[k + 1..])) else None
  {
    BeforeColon(line, field);
    assert StartsWith(line, field + ":") || StartsWith(line, field + ": ") ==> k == |field| && line[..k] == field;
    if line[..k] == field {
      assert line == field + ":" + line[k + 1..];
      assert StartsWith(line, field + ": ") <==> line[k + 1..] != "" && line[k + 1] == ' ';
    }
  }

  lemma SkippedSaysNothing(line: string, field: string)
    requires ColonFree(field) && (line == "" || line[0] == ':')
    ensures ValueOf(line, field) == None
  {
    if line != "" { assert field[0] != line[0]; }
  }

  lemma LineReads(f: Fields, line: string)
    ensures var f', event, id := ReadLine(f, line), ValueOf(line, "event"), ValueOf(line, "id");
      && f'.data == With(f.data, ValueOf(line, "data"))
      && f'.id == (if id.Some? then id else f.id)
      && f'.event == (if event.Some? then event.value else f.event)
  {
    if line == "" || line[0] == ':' {
      SkippedSaysNothing(line, "data");
      SkippedSaysNothing(line, "id");
      SkippedSaysNothing(line, "event");
    } else {
      LineSays(line, "data");
      LineSays(line, "id");
      LineSays(line, "event");
    }
  }

  /** Data is the values of the `data` lines in order; id and event are those of their last lines. */
  lemma {:induction false} FieldsAreValues(lines: seq<string>)
    ensures var f, ids := ReadLines(lines), ValuesOf(lines, "id");
      && f.data == ValuesOf(lines, "data")
      && f.id == (if ids == [] then None else Some(ids[|ids| - 1]))
      && f.event == LastOr(ValuesOf(lines, "event"), "message")
  {
    if lines != [] {
      var front, line := lines[..|lines| - 1], lines[|lines| - 1];
      FieldsAreValues(front);
      LineReads(ReadLines(front), line);
    }
  }

  lemma NoLf(s: string)
    requires '\n' !in s
    ensures Lines(s) == [s]
  {
    LfByCharacters(s);
    IndexOfIsFirst(s, "\n", 0);
  }

  lemma LfAfter(line: string, rest: string)
    requires '\n' !in line && '\r' !in line
    ensures Lines(line + "\n" + rest) == [line] + Lines(rest)
  {
    var s, k := line + "\n" + rest, |line|;
    assert s[k] == '\n' && s[..k] == line && s[k + 1..] == rest;
    FirstLf(s, k);
    LinesStep(s, k);
  }

  /** The lines of texts without line breaks joined by line feeds are these texts. */
  lemma {:induction false} JoinedLines(data: seq<string>)
    requires data != [] && forall i :: 0 <= i < |data| ==> '\n' !in data[i] && '\r' !in data[i]
    ensures Lines(JoinData(data)) == data
  {
    if |data| == 1 {
      NoLf(data[0]);
    } else {
      LfAfter(data[0], JoinData(data[1..]));
      JoinedLines(data[1..]);
      assert data == [data[0]] + data[1..];
    }
  }

  /** What is taken from a frame, by the values in its lines alone. */
  lemma FrameSays(r: Reader, frame: string)
    ensures var lines := Lines(frame);
      var ids, data := ValuesOf(lines, "id"), ValuesOf(lines, "data");
      var kind := LastOr(ValuesOf(lines, "event"), "message");
      && Handle(r, frame).lastEventId == (if LastOr(ids, "") == "" then r.lastEventId else LastOr(ids, ""))
      && Handle(r, frame).payloads
         == r.payloads + if data != [] && (kind == "status" || kind == "message") then [JoinData(data)] else []
  {
    FieldsAreValues(Lines(frame));
  }

  function Fold<S, A>(step: (S, A) -> S, start: S, xs: seq<A>): S
    decreases |xs|
  {
    if xs == [] then start else Fold(step, step(start, xs[0]), xs[1..])
  }

  lemma {:induction false} FoldJoins<S, A>(step: (S, A) -> S, start: S, xs: seq<A>, ys: seq<A>)
    ensures Fold(step, start, xs + ys) == Fold(step, Fold(step, start, xs), ys)
    decreases |xs|
  {
    if xs == [] {
      assert xs + ys == ys;
    } else {
      FoldJoins(step, step(start, xs[0]), xs[1..], ys);
      assert (xs + ys)[1..] == xs[1..] + ys;
    }
  }

  function HandleAll(r: Reader, frames: seq<string>): Reader { Fold(Handle, r, frames) }

  // ---------- the reading loop ----------

  class ArcadeSse {
    var lastEventId: string
    var payloads: seq<string>

    function State(): Reader
      reads this
    {
      Reader(lastEventId, payloads)
    }

    constructor ()
      ensures State() == Reader("", [])
    {
      lastEventId, payloads := "", [];
    }

    method HandleFrame(frame: string)
      modifies this
      ensures State() == Handle(old(State()), frame)
    {
      var f := ParseFrame(frame);
      if f.id.Some? && f.id.value != "" { lastEventId := f.id.value; }
      if f.data == [] || (f.event != "status" && f.event != "message") { return; }
      payloads := payloads + [JoinData(f.data)];
    }

    /** Hands on every complete frame in the buffer and returns what is left of it. */
    method Drain(arrived: string) returns (buffer: string)
      modifies this
      ensures buffer == Split(arrived).rest
      ensures State() == HandleAll(old(State()), Split(arrived).frames)
    {
      buffer := arrived;
      ghost var start := State();
      var separator := FindFrameSeparator(buffer);
      while separator.Some?
        invariant separator == FindFrameSeparator(buffer)
        invariant Split(buffer).rest == Split(arrived).rest
        invariant HandleAll(State(), Split(buffer).frames) == HandleAll(start, Split(arrived).frames)
        decreases |buffer|
      {
        SeparatorIsLeftmost(buffer);
        var frame := buffer[..separator.value.index];
        buffer := buffer[separator.value.index + separator.value.length..];
        HandleFrame(frame);
        separator := FindFrameSeparator(buffer);
      }
    }

    /** However the stream is cut into chunks, it is read as the whole stream would be. */
    method ReadStream(chunks: seq<string>) returns (buffer: string)
      modifies this
      ensures buffer == Split(Joined(chunks)).rest
      ensures State() == HandleAll(old(State()), Split(Joined(chunks)).frames)
    {
      buffer := "";
      ghost var start := State();
      assert Split("") == Cut([], "") by { SeparatorIsLeftmost(""); }
      for i := 0 to |chunks|
        invariant buffer == Split(Joined(chunks[..i])).rest
        invariant State() == HandleAll(start, Split(Joined(chunks[..i])).frames)
      {
        ghost var seen := Joined(chunks[..i]);
        JoinedSnoc(chunks[..i], chunks[i]);
        assert chunks[..i] + [chunks[i]] == chunks[..i + 1];
        SplitInTwo(seen, chunks[i]);
        FoldJoins(Handle, start, Split(seen).frames, Split(buffer + chunks[i]).frames);
        buffer := Drain(buffer + chunks[i]);
      }
      assert chunks[..|chunks|] == chunks;
    }
  }

  // ---------- both line endings carry the same events ----------

  lemma LinesStep(s: string, k: nat)
    requires IndexOf(s, "\n", 0) == Some(k)
    ensures Lines(s) == [WithoutCr(s[..k])] + Lines(s[k + 1..])
  {
  }

  lemma {:induction false} CrlfLines(frame: string)
    requires LfOnly(frame)
    ensures Lines(ToCrlf(frame)) == Lines(frame)
    decreases |frame|
  {
    LfByCharacters(frame);
    IndexOfIsFirst(frame, "\n", 0);
    var found := IndexOf(frame, "\n", 0);
    if found.None? {
      CrlfWithoutLf(frame);
    } else {
      var k := found.value;
      LinesStep(frame, k);
      CrlfLine(frame, k);
      FirstLf(ToCrlf(frame), k + 1);
      LinesStep(ToCrlf(frame), k + 1);
      CrlfLines(frame[k + 1..]);
    }
  }

  lemma CrlfLine(frame: string, k: nat)
    requires LfOnly(frame) && k < |frame| && frame[k] == '\n' && forall j: nat :: j < k ==> frame[j] != '\n'
    ensures var t := ToCrlf(frame);
      && k + 1 < |t| && t[k + 1] == '\n' && (forall j: nat :: j < k + 1 ==> t[j] != '\n')
      && WithoutCr(t[..k + 1]) == frame[..k] == WithoutCr(frame[..k]) && t[k + 2..] == ToCrlf(frame[k + 1..])
  {
    var line, rest := frame[..k], frame[k + 1..];
    CrlfWithoutLf(line);
    assert frame == line + frame[k..] && frame[k..][1..] == rest;
    ToCrlfJoins(line, frame[k..]);
    var t := ToCrlf(frame);
    assert t == line + ("\r\n" + ToCrlf(rest));
    assert t[..k + 1] == line + "\r";
  }

  lemma FirstLf(s: string, k: nat)
    requires k < |s| && s[k] == '\n' && forall j: nat :: j < k ==> s[j] != '\n'
    ensures IndexOf(s, "\n", 0) == Some(k)
  {
    LfByCharacters(s);
    IndexOfIsFirst(s, "\n", 0);
    assert Occurs(s, "\n", k);
  }

  lemma LfByCharacters(s: string)
    ensures forall k: nat :: Occurs(s, "\n", k) <==> k < |s| && s[k] == '\n'
  {
    forall k: nat | k < |s| ensures Occurs(s, "\n", k) <==> s[k] == '\n' { assert s[k..k + 1] == [s[k]]; }
  }

  lemma {:induction false} CrlfWithoutLf(s: string)
    requires forall j: nat :: j < |s| ==> s[j] != '\n'
    ensures ToCrlf(s) == s
  {
    if s != "" {
      CrlfWithoutLf(s[1..]);
      assert s == [s[0]] + s[1..];
    }
  }

  lemma {:induction false} CrlfHandles(r: Reader, frames: seq<string>)
    requires forall i :: 0 <= i < |frames| ==> LfOnly(frames[i])
    ensures HandleAll(r, CrlfFrames(frames)) == HandleAll(r, frames)
    decreases |frames|
  {
    if frames != [] {
      CrlfLines(frames[0]);
      assert CrlfFrames(frames)[1..] == CrlfFrames(frames[1..]);
      CrlfHandles(Handle(r, frames[0]), frames[1..]);
    }
  }

  /** A stream rewritten with CRLF line endings leaves the same cursor and the same payloads. */
  lemma LineEndingsAgree(r: Reader, stream: string)
    requires LfOnly(stream)
    ensures HandleAll(r, Split(ToCrlf(stream)).frames) == HandleAll(r, Split(stream).frames)
  {
    CrlfSplits(stream);
    CrlfHandles(r, Split(stream).frames);
  }
}
