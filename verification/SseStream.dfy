/**
 Model of agentsfleet/src/lib/sse.ts and of its second copy agentsfleet/src/lib/stream-fetch.ts: text
 arrives in arbitrary chunks, is buffered, cut at the leftmost blank line, and each piece is parsed
 into a server-sent event (section 9.2.6 of the WHATWG HTML Standard).
 */
module SseStream {
  import opened Wrappers
  import opened Sequences
  import opened Text

  /** `data` is the text the payload is parsed from; JSON.parse is not part of this model. */
  datatype Frame = Frame(id: Option<string>, kind: string, data: string)

  // ---------------------------------------------------------------- cutting

  const BLANK: string := [NL, NL]

  predicate BlankAt(buf: string, i: nat) {
    i + 2 <= |buf| && buf[i] == NL && buf[i + 1] == NL
  }

  /** `buf.indexOf("\n\n")`. */
  function Boundary(buf: string): (r: Option<nat>)
    ensures r.Some? ==> BlankAt(buf, r.value) && forall i :: 0 <= i < r.value ==> !BlankAt(buf, i)
    ensures r.None? ==> forall i :: 0 <= i ==> !BlankAt(buf, i)
  {
    if |buf| < 2 then None
    else if BlankAt(buf, 0) then Some(0)
    else
      var r := Boundary(buf[1..]);
      assert forall i :: 1 <= i ==> BlankAt(buf, i) == BlankAt(buf[1..], i - 1);
      if r.None? then None else Some(r.value + 1)
  }

  /** The complete pieces of a text and what is left of it. */
  function Cut(text: string): (r: (seq<string>, string))
    decreases |text|
  {
    var b := Boundary(text);
    if b.None? then ([], text)
    else
      var r := Cut(text[b.value + 2..]);
      ([text[..b.value]] + r.0, r.1)
  }

  /** Text that arrives later never moves a cut already made. */
  lemma {:induction false} CutAppend(a: string, b: string)
    ensures Cut(a + b) == (Cut(a).0 + Cut(Cut(a).1 + b).0, Cut(Cut(a).1 + b).1)
    decreases |a|
  {
    if Boundary(a).None? {
      assert [] + Cut(a + b).0 == Cut(a + b).0;
    } else {
      var k := Boundary(a).value;
      BoundaryAppend(a, b);
      var rest := a[k + 2..];
      assert (a + b)[k + 2..] == rest + b && (a + b)[..k] == a[..k];
      CutAppend(rest, b);
      CutOnce(a, k);
      CutOnce(a + b, k);
      Associative([a[..k]], Cut(rest).0, Cut(Cut(rest).1 + b).0);
    }
  }

  lemma CutOnce(text: string, k: nat)
    requires Boundary(text) == Some(k)
    ensures Cut(text) == ([text[..k]] + Cut(text[k + 2..]).0, Cut(text[k + 2..]).1)
  {
  }

  lemma BoundaryAppend(a: string, b: string)
    requires Boundary(a).Some?
    ensures Boundary(a + b) == Boundary(a)
  {
    var k := Boundary(a).value;
    assert forall j :: 0 <= j <= k ==> BlankAt(a + b, j) == BlankAt(a, j);
    assert BlankAt(a + b, k);
    var i := Boundary(a + b);
    assert i.Some? && !(i.value < k) && !(k < i.value);
  }

  function Concat(chunks: seq<string>): string {
    if chunks == [] then "" else Concat(chunks[..|chunks| - 1]) + chunks[|chunks| - 1]
  }

  // ---------------------------------------------------------------- delivering

  /**
   The callback: told every frame so far, the newest last, it says whether to go on. Any callback
   whose answer depends on what it has been given is of this form.
   */
  type Callback<!F> = seq<F> -> bool

  /** Parses the pieces in turn and hands the frames over, until the callback stops it. */
  function Deliver<F>(parse: string -> Option<F>, go: Callback<F>, pieces: seq<string>, done: seq<F>)
    : (r: (seq<F>, bool))
  {
    if pieces == [] then (done, false)
    else
      var f := parse(pieces[0]);
      if f.None? then Deliver(parse, go, pieces[1..], done)
      else if !go(done + [f.value]) then (done + [f.value], true)
      else Deliver(parse, go, pieces[1..], done + [f.value])
  }

  /** The frames of all pieces. */
  function Frames<F>(parse: string -> Option<F>, pieces: seq<string>): seq<F> {
    if pieces == [] then []
    else
      var f := parse(pieces[0]);
      (if f.Some? then [f.value] else []) + Frames(parse, pieces[1..])
  }

  lemma {:induction false} DeliverAppend<F>(parse: string -> Option<F>, go: Callback<F>,
                                            a: seq<string>, b: seq<string>, done: seq<F>)
    ensures var r := Deliver(parse, go, a, done);
            Deliver(parse, go, a + b, done) == if r.1 then r else Deliver(parse, go, b, r.0)
    decreases |a|
  {
    if a == [] {
      assert a + b == b;
    } else {
      assert (a + b)[1..] == a[1..] + b;
      var f := parse(a[0]);
      if f.None? {
        DeliverAppend(parse, go, a[1..], b, done);
      } else if go(done + [f.value]) {
        DeliverAppend(parse, go, a[1..], b, done + [f.value]);
      }
    }
  }

  /** `got` is the run of `all` that ends with the first frame the callback refuses. */
  ghost predicate UpToRefusal<F>(go: Callback<F>, got: seq<F>, all: seq<F>, stopped: bool) {
    && got <= all
    && (forall k :: 1 <= k < |got| ==> go(got[..k]))
    && (if stopped then got != [] && !go(got) else got == all && (got == [] || go(got)))
  }

  lemma {:induction false} DeliverFrom<F>(parse: string -> Option<F>, go: Callback<F>,
                                          pieces: seq<string>, done: seq<F>)
    requires forall k :: 1 <= k <= |done| ==> go(done[..k])
    ensures var r := Deliver(parse, go, pieces, done);
            UpToRefusal(go, r.0, done + Frames(parse, pieces), r.1)
    decreases |pieces|
  {
    if pieces == [] {
      assert done + [] == done && done[..|done|] == done;
    } else {
      var f := parse(pieces[0]);
      if f.None? {
        DeliverFrom(parse, go, pieces[1..], done);
        assert [] + Frames(parse, pieces[1..]) == Frames(parse, pieces[1..]);
      } else {
        var next := done + [f.value];
        assert done + ([f.value] + Frames(parse, pieces[1..])) == next + Frames(parse, pieces[1..]);
        assert forall k :: 1 <= k <= |done| ==> next[..k] == done[..k];
        assert next[..|next|] == next;
        if go(next) {
          DeliverFrom(parse, go, pieces[1..], next);
        }
      }
    }
  }

  lemma DeliverIsUpToRefusal<F>(parse: string -> Option<F>, go: Callback<F>, pieces: seq<string>)
    ensures var r := Deliver(parse, go, pieces, []);
            UpToRefusal(go, r.0, Frames(parse, pieces), r.1)
  {
    DeliverFrom(parse, go, pieces, []);
    assert [] + Frames(parse, pieces) == Frames(parse, pieces);
  }

  // ---------------------------------------------------------------- the GET parser

  function StripCr(raw: string): (line: string)
    ensures |line| <= |raw| && (line == raw <==> raw == [] || raw[|raw| - 1] != CR)
  {
    if raw != [] && raw[|raw| - 1] == CR then raw[..|raw| - 1] else raw
  }

  function AddData(data: string, v: string): string {
    if |data| > 0 then data + [NL] + v else v
  }

  function ReadLine(acc: Frame, raw: string): Frame {
    var line := StripCr(raw);
    if line == "" || ":" <= line then acc
    else if "id: " <= line then acc.(id := Some(line[4..]))
    else if "id:" <= line then acc.(id := Some(TrimStart(line[3..])))
    else if "event: " <= line then acc.(kind := line[7..])
    else if "event:" <= line then acc.(kind := TrimStart(line[6..]))
    else if "data: " <= line then acc.(data := AddData(acc.data, line[6..]))
    else if "data:" <= line then acc.(data := AddData(acc.data, TrimStart(line[5..])))
    else acc
  }

  function ReadLines(acc: Frame, lines: seq<string>): Frame
    decreases |lines|
  {
    if lines == [] then acc else ReadLines(ReadLine(acc, lines[0]), lines[1..])
  }

  const BLANK_FRAME := Frame(None, "message", "")

  function Parse(text: string): Option<Frame> {
    var f := ReadLines(BLANK_FRAME, Lines(text));
    if f.data == "" then None else Some(f)
  }

  method ParseSseFrame(text: string) returns (frame: Option<Frame>)
    ensures frame == Parse(text)
  {
    var id, kind, data := None, "message", "";
    var lines := Lines(text);
    for i := 0 to |lines|
      invariant ReadLines(BLANK_FRAME, lines) == ReadLines(Frame(id, kind, data), lines[i..])
    {
      var line := StripCr(lines[i]);
      if line == "" { continue; }
      if ":" <= line { continue; }
      if "id: " <= line { id := Some(line[4..]); }
      else if "id:" <= line { id := Some(TrimStart(line[3..])); }
      else if "event: " <= line { kind := line[7..]; }
      else if "event:" <= line { kind := TrimStart(line[6..]); }
      else if "data: " <= line { data := if |data| > 0 then data + [NL] + line[6..] else line[6..]; }
      else if "data:" <= line {
        var v := TrimStart(line[5..]);
        data := if |data| > 0 then data + [NL] + v else v;
      }
    }
    frame := if data == "" then None else Some(Frame(id, kind, data));
  }

  /**
   `chunks` are the decoded reads up to the end of the stream. What is delivered is a function of the
   concatenated text: where the chunks were cut has no influence.
   */
  method StreamGet(chunks: seq<string>, go: Callback<Frame>) returns (delivered: seq<Frame>, stopped: bool)
    ensures (delivered, stopped) == Deliver(Parse, go, Cut(Concat(chunks)).0, [])
    ensures UpToRefusal(go, delivered, Frames(Parse, Cut(Concat(chunks)).0), stopped)
  {
    DeliverIsUpToRefusal(Parse, go, Cut(Concat(chunks)).0);
    delivered, stopped := [], false;
    var buf := "";
    for i := 0 to |chunks|
      invariant buf == Cut(Concat(chunks[..i])).1
      invariant (delivered, false) == Deliver(Parse, go, Cut(Concat(chunks[..i])).0, [])
      invariant Boundary(buf).None? && !stopped
    {
      ghost var before := Concat(chunks[..i]);
      CutPrefix(chunks, i);
      ghost var earlier, later := Cut(before).0, Cut(buf + chunks[i]).0;
      DeliverAppend(Parse, go, earlier, later, []);
      buf := buf + chunks[i];
      var boundary := Boundary(buf);
      while boundary.Some?
        invariant boundary == Boundary(buf)
        invariant Cut(Concat(chunks[..i + 1])).1 == Cut(buf).1
        invariant Deliver(Parse, go, Cut(Concat(chunks[..i + 1])).0, [])
               == Deliver(Parse, go, Cut(buf).0, delivered)
        decreases |buf|
      {
        var text := buf[..boundary.value];
        buf := buf[boundary.value + 2..];
        var event := ParseSseFrame(text);
        if event.Some? {
          delivered := delivered + [event.value];
          if !go(delivered) {
            PiecesOfPrefix(chunks, i + 1);
            StoppedEarly(Parse, go, Cut(Concat(chunks[..i + 1])).0, Cut(Concat(chunks)).0);
            return delivered, true;
          }
        }
        boundary := Boundary(buf);
      }
    }
    assert chunks[..|chunks|] == chunks;
  }

  lemma CutPrefix(chunks: seq<string>, i: nat)
    requires i < |chunks|
    ensures var before, all := Cut(Concat(chunks[..i])), Cut(Concat(chunks[..i + 1]));
            var more := Cut(before.1 + chunks[i]);
            all == (before.0 + more.0, more.1)
  {
    assert chunks[..i + 1][..i] == chunks[..i];
    CutAppend(Concat(chunks[..i]), chunks[i]);
  }

  lemma {:induction false} PiecesOfPrefix(chunks: seq<string>, i: nat)
    requires i <= |chunks|
    ensures Cut(Concat(chunks[..i])).0 <= Cut(Concat(chunks)).0
    decreases |chunks| - i
  {
    if i == |chunks| {
      assert chunks[..i] == chunks;
    } else {
      CutPrefix(chunks, i);
      PiecesOfPrefix(chunks, i + 1);
    }
  }

  /** A run that has stopped is not changed by what the rest of the stream holds. */
  lemma StoppedEarly<F>(parse: string -> Option<F>, go: Callback<F>, part: seq<string>, all: seq<string>)
    requires part <= all && Deliver(parse, go, part, []).1
    ensures Deliver(parse, go, all, []) == Deliver(parse, go, part, [])
  {
    DeliverAppend(parse, go, part, all[|part|..], []);
    assert part + all[|part|..] == all;
  }

  // ---------------------------------------------------------------- printing

  /** The line ends that section 9.2.6 allows. */
  datatype Eol = Lf | CrLf | Cr

  function Chars(eol: Eol): string {
    match eol
    case Lf => [NL]
    case CrLf => [CR, NL]
    case Cr => [CR]
  }

  function Terminated(lines: seq<string>, eol: Eol): string {
    if lines == [] then "" else lines[0] + Chars(eol) + Terminated(lines[1..], eol)
  }

  /** One line a field; the payload takes one "data" line for each line of its text. */
  function FieldLines(id: Option<string>, kind: string, lines: seq<string>): seq<string> {
    (if id.Some? then ["id: " + id.value] else []) + ["event: " + kind] + DataFields(lines)
  }

  function DataFields(lines: seq<string>): (fields: seq<string>)
    ensures |fields| == |lines|
  {
    if lines == [] then [] else ["data: " + lines[0]] + DataFields(lines[1..])
  }

  /** The field lines of a frame, each ending in `eol`, and an empty line ending in `gap`. */
  function Print(eol: Eol, gap: Eol, f: Frame): string {
    Terminated(FieldLines(f.id, f.kind, Lines(f.data)), eol) + Chars(gap)
  }

  function PrintAll(eol: Eol, gap: Eol, fs: seq<Frame>): string {
    if fs == [] then "" else Print(eol, gap, fs[0]) + PrintAll(eol, gap, fs[1..])
  }

  predicate EndsInCr(s: string) {
    s != [] && s[|s| - 1] == CR
  }

  predicate NonEmpty(lines: seq<string>) {
    forall k :: 0 <= k < |lines| ==> lines[k] != ""
  }

  predicate NoTrailingCr(lines: seq<string>) {
    forall k :: 0 <= k < |lines| ==> !EndsInCr(lines[k])
  }

  /** The frames the parser can give: see ParsedExactly. */
  predicate Clean(f: Frame) {
    && (f.id.Some? ==> OneLine(f.id.value))
    && OneLine(f.kind)
    && f.data != "" && f.data[0] != NL
  }

  /** No field line ends in a carriage return, which the parser would take for part of the line end. */
  predicate NoLineEndsInCr(f: Frame) {
    && (f.id.Some? ==> !EndsInCr(f.id.value))
    && !EndsInCr(f.kind)
    && NoTrailingCr(Lines(f.data))
  }

  /** The stream is cut between frames: the last two characters of a printed one are line feeds. */
  predicate Cuttable(eol: Eol, gap: Eol) {
    gap == Lf && eol != Cr
  }

  /** The frames that come back, with the line ends they do so with. */
  predicate Survives(eol: Eol, gap: Eol, f: Frame) {
    Clean(f) && Cuttable(eol, gap) && (eol == Lf ==> NoLineEndsInCr(f))
  }

  /** Clean, but for a payload that may still be empty. */
  predicate CleanSoFar(f: Frame) {
    && (f.id.Some? ==> OneLine(f.id.value))
    && OneLine(f.kind)
    && (f.data == "" || f.data[0] != NL)
  }

  lemma ReadLineIsClean(acc: Frame, raw: string)
    requires CleanSoFar(acc) && OneLine(raw)
    ensures CleanSoFar(ReadLine(acc, raw))
  {
    var line := StripCr(raw);
    assert OneLine(line);
    forall k | 0 <= k <= |line| ensures OneLine(line[k..]) {
    }
  }

  lemma {:induction false} ReadLinesIsClean(acc: Frame, lines: seq<string>)
    requires CleanSoFar(acc) && AllOneLine(lines)
    ensures CleanSoFar(ReadLines(acc, lines))
    decreases |lines|
  {
    if lines != [] {
      ReadLineIsClean(acc, lines[0]);
      ReadLinesIsClean(ReadLine(acc, lines[0]), lines[1..]);
    }
  }

  lemma ParsedIsClean(text: string)
    ensures Parse(text).Some? ==> Clean(Parse(text).value)
  {
    ReadLinesIsClean(BLANK_FRAME, Lines(text));
  }

  /** Non-empty lines joined hold no blank line and do not end in one. */
  lemma {:induction false} JoinedHasNoBlank(lines: seq<string>)
    requires lines != [] && AllOneLine(lines) && NonEmpty(lines)
    ensures var body := Join(lines);
            body != "" && body[0] != NL && body[|body| - 1] != NL && forall i :: 0 <= i ==> !BlankAt(body, i)
    decreases |lines|
  {
    assert OneLine(lines[0]) && lines[0] != "";
    if |lines| > 1 {
      JoinedHasNoBlank(lines[1..]);
      PrefixHasNoBlank(lines[0], Join(lines[1..]));
    }
  }

  lemma PrefixHasNoBlank(line: string, rest: string)
    requires OneLine(line) && rest != "" && rest[0] != NL && forall i :: 0 <= i ==> !BlankAt(rest, i)
    ensures forall i :: 0 <= i ==> !BlankAt(line + [NL] + rest, i)
  {
    var body := line + [NL] + rest;
    forall i | 0 <= i ensures !BlankAt(body, i) {
      if i == |line| {
        assert i + 2 <= |body| ==> body[i + 1] == rest[0];
      } else if i > |line| {
        assert BlankAt(body, i) == BlankAt(rest, i - |line| - 1);
      }
    }
  }

  lemma CutPrinted(body: string, rest: string)
    requires body != "" && body[|body| - 1] != NL && forall i :: 0 <= i ==> !BlankAt(body, i)
    ensures Cut(body + BLANK + rest) == ([body] + Cut(rest).0, Cut(rest).1)
  {
    var text := body + BLANK + rest;
    assert text[|body|] == NL && text[|body| + 1] == NL;
    assert BlankAt(text, |body|);
    forall i | 0 <= i < |body| ensures !BlankAt(text, i) {
      assert text[i] == body[i];
      if i + 1 < |body| {
        assert text[i + 1] == body[i + 1] && !BlankAt(body, i);
      }
    }
    var b := Boundary(text);
    assert b.Some? && !(b.value < |body|) && !(|body| < b.value);
    assert text[..|body|] == body && text[|body| + 2..] == rest;
    CutOnce(text, |body|);
  }

  // ---------------------------------------------------------------- streams that are cut

  /** What of a line end stays on the line when the text is split at line feeds. */
  function Tail(eol: Eol): string {
    if eol == CrLf then [CR] else ""
  }

  function Suffixed(lines: seq<string>, tail: string): (r: seq<string>)
    ensures |r| == |lines|
  {
    seq(|lines|, k requires 0 <= k < |lines| => lines[k] + tail)
  }

  lemma {:induction false} TerminatedIsJoined(lines: seq<string>, eol: Eol)
    requires lines != [] && eol != Cr
    ensures Terminated(lines, eol) == Join(Suffixed(lines, Tail(eol))) + [NL]
    decreases |lines|
  {
    var suffixed := Suffixed(lines, Tail(eol));
    assert Chars(eol) == Tail(eol) + [NL];
    assert suffixed[0] == lines[0] + Tail(eol);
    if |lines| == 1 {
      assert Terminated(lines[1..], eol) == "";
      assert lines[0] + Chars(eol) + "" == suffixed[0] + [NL];
    } else {
      TerminatedIsJoined(lines[1..], eol);
      assert suffixed[1..] == Suffixed(lines[1..], Tail(eol));
      Associative(suffixed[0] + [NL], Join(suffixed[1..]), [NL]);
      Associative(lines[0], Tail(eol), [NL]);
    }
  }

  lemma {:induction false} SuffixedDataFields(lines: seq<string>, tail: string)
    ensures Suffixed(DataFields(lines), tail) == DataFields(Suffixed(lines, tail))
    decreases |lines|
  {
    if lines != [] {
      SuffixedDataFields(lines[1..], tail);
      var all := DataFields(lines);
      assert all[1..] == DataFields(lines[1..]);
      assert Suffixed(all, tail)[1..] == Suffixed(all[1..], tail);
      assert Suffixed(lines, tail)[1..] == Suffixed(lines[1..], tail);
      Associative("data: ", lines[0], tail);
      assert Suffixed(all, tail) == [("data: " + lines[0]) + tail] + Suffixed(all[1..], tail);
    }
  }

  function SuffixedId(id: Option<string>, tail: string): Option<string> {
    if id.Some? then Some(id.value + tail) else None
  }

  lemma SuffixedFieldLines(id: Option<string>, kind: string, lines: seq<string>, tail: string)
    ensures Suffixed(FieldLines(id, kind, lines), tail)
         == FieldLines(SuffixedId(id, tail), kind + tail, Suffixed(lines, tail))
  {
    SuffixedDataFields(lines, tail);
    Associative("event: ", kind, tail);
    SuffixedAppend(["event: " + kind], DataFields(lines), tail);
    assert Suffixed(["event: " + kind], tail) == ["event: " + (kind + tail)];
    var kinds := ["event: " + kind] + DataFields(lines);
    if id.Some? {
      Associative("id: ", id.value, tail);
      SuffixedAppend(["id: " + id.value], kinds, tail);
      assert Suffixed(["id: " + id.value], tail) == ["id: " + (id.value + tail)];
      assert FieldLines(id, kind, lines) == ["id: " + id.value] + kinds;
    } else {
      assert FieldLines(id, kind, lines) == kinds;
    }
  }

  lemma SuffixedAppend(a: seq<string>, b: seq<string>, tail: string)
    ensures Suffixed(a + b, tail) == Suffixed(a, tail) + Suffixed(b, tail)
  {
  }

  /** The piece that is cut off for a printed frame. */
  function Body(eol: Eol, f: Frame): string {
    var tail := Tail(eol);
    Join(FieldLines(SuffixedId(f.id, tail), f.kind + tail, Suffixed(Lines(f.data), tail)))
  }

  lemma {:induction false} DataFieldsAreLines(lines: seq<string>)
    requires AllOneLine(lines)
    ensures AllOneLine(DataFields(lines)) && NonEmpty(DataFields(lines))
  {
    if lines != [] {
      DataFieldsAreLines(lines[1..]);
    }
  }

  lemma FieldLinesAreLines(id: Option<string>, kind: string, lines: seq<string>)
    requires (id.Some? ==> OneLine(id.value)) && OneLine(kind) && AllOneLine(lines)
    ensures AllOneLine(FieldLines(id, kind, lines)) && NonEmpty(FieldLines(id, kind, lines))
  {
    DataFieldsAreLines(lines);
  }

  lemma BodyLines(eol: Eol, f: Frame)
    requires Clean(f)
    ensures var tail := Tail(eol);
            var lines := FieldLines(SuffixedId(f.id, tail), f.kind + tail, Suffixed(Lines(f.data), tail));
            AllOneLine(lines) && NonEmpty(lines) && Lines(Body(eol, f)) == lines
  {
    var tail := Tail(eol);
    var datas := Suffixed(Lines(f.data), tail);
    forall k | 0 <= k < |datas| ensures OneLine(datas[k]) {
      assert OneLine(Lines(f.data)[k]);
    }
    FieldLinesAreLines(SuffixedId(f.id, tail), f.kind + tail, datas);
    LinesJoin(FieldLines(SuffixedId(f.id, tail), f.kind + tail, datas));
  }

  lemma PrintIsBody(eol: Eol, f: Frame)
    requires eol != Cr
    ensures Print(eol, Lf, f) == Body(eol, f) + BLANK
  {
    TerminatedIsJoined(FieldLines(f.id, f.kind, Lines(f.data)), eol);
    SuffixedFieldLines(f.id, f.kind, Lines(f.data), Tail(eol));
    Associative(Body(eol, f), [NL], [NL]);
  }

  lemma PrintedIsOnePiece(eol: Eol, f: Frame, rest: string)
    requires Clean(f) && eol != Cr
    ensures Cut(Print(eol, Lf, f) + rest) == ([Body(eol, f)] + Cut(rest).0, Cut(rest).1)
  {
    var tail := Tail(eol);
    BodyLines(eol, f);
    JoinedHasNoBlank(FieldLines(SuffixedId(f.id, tail), f.kind + tail, Suffixed(Lines(f.data), tail)));
    PrintIsBody(eol, f);
    CutPrinted(Body(eol, f), rest);
  }

  // What reading the printed fields gives: every field without its trailing carriage return.

  function FoldData(data: string, lines: seq<string>): string
    decreases |lines|
  {
    if lines == [] then data else FoldData(AddData(data, StripCr(lines[0])), lines[1..])
  }

  lemma StripAfter(prefix: string, v: string)
    requires prefix != "" && prefix[|prefix| - 1] != CR
    ensures StripCr(prefix + v) == prefix + StripCr(v)
  {
  }

  lemma ReadId(acc: Frame, v: string)
    ensures ReadLine(acc, "id: " + v) == acc.(id := Some(StripCr(v)))
  {
    StripAfter("id: ", v);
    var line := "id: " + StripCr(v);
    assert line[0] == 'i' && line[..4] == "id: " && line[4..] == StripCr(v);
  }

  lemma ReadKind(acc: Frame, v: string)
    ensures ReadLine(acc, "event: " + v) == acc.(kind := StripCr(v))
  {
    StripAfter("event: ", v);
    var line := "event: " + StripCr(v);
    assert line[0] == 'e' && line[..7] == "event: " && line[7..] == StripCr(v);
  }

  lemma ReadData(acc: Frame, v: string)
    ensures ReadLine(acc, "data: " + v) == acc.(data := AddData(acc.data, StripCr(v)))
  {
    StripAfter("data: ", v);
    var line := "data: " + StripCr(v);
    assert line[0] == 'd' && line[..6] == "data: " && line[6..] == StripCr(v);
  }

  lemma {:induction false} ReadDataFields(acc: Frame, lines: seq<string>)
    ensures ReadLines(acc, DataFields(lines)) == acc.(data := FoldData(acc.data, lines))
    decreases |lines|
  {
    if lines != [] {
      ReadData(acc, lines[0]);
      assert DataFields(lines)[1..] == DataFields(lines[1..]);
      ReadDataFields(ReadLine(acc, "data: " + lines[0]), lines[1..]);
    }
  }

  lemma ReadOne(acc: Frame, line: string, rest: seq<string>)
    ensures ReadLines(acc, [line] + rest) == ReadLines(ReadLine(acc, line), rest)
  {
    assert ([line] + rest)[1..] == rest;
  }

  lemma ReadFieldLines(id: Option<string>, kind: string, lines: seq<string>)
    ensures ReadLines(BLANK_FRAME, FieldLines(id, kind, lines))
         == Frame(if id.Some? then Some(StripCr(id.value)) else None, StripCr(kind), FoldData("", lines))
  {
    var datas := DataFields(lines);
    var kinds := ["event: " + kind] + datas;
    var acc := BLANK_FRAME;
    if id.Some? {
      assert FieldLines(id, kind, lines) == ["id: " + id.value] + kinds;
      ReadOne(acc, "id: " + id.value, kinds);
      ReadId(acc, id.value);
      acc := acc.(id := Some(StripCr(id.value)));
    } else {
      assert FieldLines(id, kind, lines) == kinds;
    }
    ReadOne(acc, "event: " + kind, datas);
    ReadKind(acc, kind);
    ReadDataFields(acc.(kind := StripCr(kind)), lines);
  }

  lemma {:induction false} FoldKeepsCleanLines(data: string, lines: seq<string>)
    requires lines != [] && NoTrailingCr(lines)
    requires data != "" || lines[0] != ""
    ensures FoldData(data, lines) == (if data == "" then "" else data + [NL]) + Join(lines)
    decreases |lines|
  {
    var next := AddData(data, StripCr(lines[0]));
    assert StripCr(lines[0]) == lines[0];
    if |lines| > 1 {
      FoldKeepsCleanLines(next, lines[1..]);
      Associative(data + [NL], lines[0] + [NL], Join(lines[1..]));
      Associative(data + [NL], lines[0], [NL]);
    }
  }

  /** A carriage return at the end of a line is lost for good: the payload comes out shorter. */
  lemma {:induction false} FoldShrinks(data: string, lines: seq<string>)
    requires lines != []
    ensures var bound := (if data == "" then 0 else |data| + 1) + |Join(lines)|;
            |FoldData(data, lines)| <= bound
            && (!NoTrailingCr(lines) ==> |FoldData(data, lines)| < bound)
    decreases |lines|
  {
    if |lines| > 1 {
      FoldShrinks(AddData(data, StripCr(lines[0])), lines[1..]);
      assert lines == [lines[0]] + lines[1..];
    }
  }

  lemma DataSurvives(data: string)
    requires data != "" && data[0] != NL
    ensures FoldData("", Lines(data)) == data <==> NoTrailingCr(Lines(data))
  {
    var lines := Lines(data);
    JoinLines(data);
    FoldShrinks("", lines);
    if NoTrailingCr(lines) {
      assert lines[0] != "";
      FoldKeepsCleanLines("", lines);
    }
  }

  /** A carriage return of the line end shields those of the line. */
  lemma {:induction false} FoldOfShielded(data: string, lines: seq<string>)
    requires lines != [] && (data != "" || lines[0] != "")
    ensures FoldData(data, Suffixed(lines, [CR])) == (if data == "" then "" else data + [NL]) + Join(lines)
    decreases |lines|
  {
    var all := Suffixed(lines, [CR]);
    assert StripCr(all[0]) == lines[0];
    assert all[1..] == Suffixed(lines[1..], [CR]);
    if |lines| > 1 {
      FoldOfShielded(AddData(data, lines[0]), lines[1..]);
      Associative(data + [NL], lines[0] + [NL], Join(lines[1..]));
      Associative(data + [NL], lines[0], [NL]);
    }
  }

  lemma DataIsShielded(data: string)
    requires data != "" && data[0] != NL
    ensures FoldData("", Suffixed(Lines(data), [CR])) == data
  {
    JoinLines(data);
    FoldOfShielded("", Lines(data));
  }

  lemma SuffixedByNothing(lines: seq<string>)
    ensures Suffixed(lines, "") == lines
  {
    forall k | 0 <= k < |lines| ensures Suffixed(lines, "")[k] == lines[k] {
      assert lines[k] + "" == lines[k];
    }
  }

  /** What is read back of a body: every value without a carriage return at its end. */
  function Reread(id: Option<string>, kind: string, lines: seq<string>): Frame {
    Frame(if id.Some? then Some(StripCr(id.value)) else None, StripCr(kind), FoldData("", lines))
  }

  lemma ReadBody(eol: Eol, f: Frame)
    requires Clean(f)
    ensures var tail := Tail(eol);
            ReadLines(BLANK_FRAME, Lines(Body(eol, f)))
            == Reread(SuffixedId(f.id, tail), f.kind + tail, Suffixed(Lines(f.data), tail))
  {
    var tail := Tail(eol);
    BodyLines(eol, f);
    ReadFieldLines(SuffixedId(f.id, tail), f.kind + tail, Suffixed(Lines(f.data), tail));
  }

  lemma RereadShielded(f: Frame)
    requires Clean(f)
    ensures Reread(SuffixedId(f.id, [CR]), f.kind + [CR], Suffixed(Lines(f.data), [CR])) == f
  {
    DataIsShielded(f.data);
  }

  lemma RereadPlain(f: Frame)
    requires Clean(f)
    ensures Reread(SuffixedId(f.id, ""), f.kind + "", Suffixed(Lines(f.data), "")) == f <==> NoLineEndsInCr(f)
  {
    SuffixedByNothing(Lines(f.data));
    assert f.kind + "" == f.kind;
    if f.id.Some? {
      assert f.id.value + "" == f.id.value;
    }
    DataSurvives(f.data);
  }

  lemma ParseBody(eol: Eol, f: Frame)
    requires Clean(f) && eol != Cr
    ensures Parse(Body(eol, f)) == Some(f) <==> Survives(eol, Lf, f)
  {
    ReadBody(eol, f);
    if eol == CrLf {
      RereadShielded(f);
    } else {
      RereadPlain(f);
    }
  }

  /** The parser gives exactly the clean frames. */
  lemma ParsedExactly(f: Frame)
    ensures (exists text :: Parse(text) == Some(f)) <==> Clean(f)
  {
    if Clean(f) {
      ParseBody(CrLf, f);
    }
    if text :| Parse(text) == Some(f) {
      ParsedIsClean(text);
    }
  }

  lemma FramesOfOne<F>(parse: string -> Option<F>, piece: string)
    ensures Frames(parse, [piece]) == if parse(piece).Some? then [parse(piece).value] else []
  {
    assert [piece][1..] == [];
    assert Frames(parse, [piece][1..]) == [];
  }

  lemma {:induction false} FramesAreParsed<F>(parse: string -> Option<F>, pieces: seq<string>, k: nat)
    requires k < |Frames(parse, pieces)|
    ensures exists text :: parse(text) == Some(Frames(parse, pieces)[k])
    decreases |pieces|
  {
    if parse(pieces[0]).None? {
      FramesAreParsed(parse, pieces[1..], k);
    } else if k > 0 {
      FramesAreParsed(parse, pieces[1..], k - 1);
    }
  }

  // ---------------------------------------------------------------- streams that are not

  ghost predicate NoBlank(s: string) {
    forall i :: 0 <= i ==> !BlankAt(s, i)
  }

  lemma NoBlankConcat(a: string, b: string)
    requires NoBlank(a) && NoBlank(b) && (a == "" || b == "" || a[|a| - 1] != NL || b[0] != NL)
    ensures NoBlank(a + b)
  {
    forall i | 0 <= i ensures !BlankAt(a + b, i) {
      if i + 2 <= |a| {
        assert BlankAt(a + b, i) == BlankAt(a, i);
      } else if i >= |a| {
        assert BlankAt(a + b, i) == BlankAt(b, i - |a|);
      }
    }
  }

  lemma {:induction false} TerminatedHasNoBlank(lines: seq<string>, eol: Eol)
    requires lines != [] && AllOneLine(lines) && NonEmpty(lines)
    ensures var t := Terminated(lines, eol);
            NoBlank(t) && t != "" && t[0] != NL && (eol == Cr ==> t[|t| - 1] != NL)
    decreases |lines|
  {
    var first, rest := lines[0] + Chars(eol), Terminated(lines[1..], eol);
    assert OneLine(lines[0]) && lines[0] != "";
    if |lines| == 1 {
      assert first + rest == first;
    } else {
      TerminatedHasNoBlank(lines[1..], eol);
      NoBlankConcat(first, rest);
    }
  }

  lemma PrintHasNoBlank(eol: Eol, gap: Eol, f: Frame)
    requires Clean(f) && !Cuttable(eol, gap)
    ensures var t := Print(eol, gap, f); NoBlank(t) && t != "" && t[0] != NL
  {
    var lines := FieldLines(f.id, f.kind, Lines(f.data));
    FieldLinesAreLines(f.id, f.kind, Lines(f.data));
    TerminatedHasNoBlank(lines, eol);
    NoBlankConcat(Terminated(lines, eol), Chars(gap));
  }

  ghost predicate AllClean(fs: seq<Frame>) {
    forall k :: 0 <= k < |fs| ==> Clean(fs[k])
  }

  lemma {:induction false} PrintAllHasNoBlank(eol: Eol, gap: Eol, fs: seq<Frame>)
    requires AllClean(fs) && !Cuttable(eol, gap)
    ensures var t := PrintAll(eol, gap, fs); NoBlank(t) && (fs != [] ==> t != "" && t[0] != NL)
    decreases |fs|
  {
    if fs != [] {
      PrintHasNoBlank(eol, gap, fs[0]);
      PrintAllHasNoBlank(eol, gap, fs[1..]);
      NoBlankConcat(Print(eol, gap, fs[0]), PrintAll(eol, gap, fs[1..]));
    }
  }

  /** With any other line ends no piece is ever cut off, so nothing is delivered. */
  lemma UncuttableStreamsDeliverNothing(eol: Eol, gap: Eol, fs: seq<Frame>, go: Callback<Frame>)
    requires AllClean(fs) && !Cuttable(eol, gap)
    ensures Cut(PrintAll(eol, gap, fs)).0 == []
    ensures Deliver(Parse, go, Cut(PrintAll(eol, gap, fs)).0, []) == ([], false)
  {
    PrintAllHasNoBlank(eol, gap, fs);
  }

  // ---------------------------------------------------------------- round trip

  ghost predicate AllSurvive(eol: Eol, gap: Eol, fs: seq<Frame>) {
    forall k :: 0 <= k < |fs| ==> Survives(eol, gap, fs[k])
  }

  /** What parsing the bodies of printed frames gives. */
  function Reparsed(eol: Eol, fs: seq<Frame>): (r: seq<Frame>)
    ensures |r| <= |fs|
  {
    if fs == [] then []
    else
      var f := Parse(Body(eol, fs[0]));
      if f.Some? then [f.value] + Reparsed(eol, fs[1..]) else Reparsed(eol, fs[1..])
  }

  lemma {:induction false} CutIsReparsed(eol: Eol, fs: seq<Frame>)
    requires AllClean(fs) && eol != Cr
    ensures Frames(Parse, Cut(PrintAll(eol, Lf, fs)).0) == Reparsed(eol, fs) && Cut(PrintAll(eol, Lf, fs)).1 == ""
    decreases |fs|
  {
    if fs == [] {
      assert Cut("") == ([], "");
    } else {
      var rest := PrintAll(eol, Lf, fs[1..]);
      CutIsReparsed(eol, fs[1..]);
      PrintedIsOnePiece(eol, fs[0], rest);
      FramesAppend(Parse, [Body(eol, fs[0])], Cut(rest).0);
      FramesOfOne(Parse, Body(eol, fs[0]));
    }
  }

  lemma {:induction false} ReparsedExactly(eol: Eol, fs: seq<Frame>)
    requires AllClean(fs) && eol != Cr
    ensures Reparsed(eol, fs) == fs <==> AllSurvive(eol, Lf, fs)
    decreases |fs|
  {
    if fs != [] {
      var f, rest := fs[0], fs[1..];
      ReparsedExactly(eol, rest);
      ParseBody(eol, f);
      assert fs == [f] + rest;
      assert AllSurvive(eol, Lf, fs) <==> Survives(eol, Lf, f) && AllSurvive(eol, Lf, rest) by {
        AllSurviveCons(eol, Lf, f, rest);
      }
      var r := Parse(Body(eol, f));
      if r.Some? {
        ConsEqual(r.value, Reparsed(eol, rest), f, rest);
      }
    }
  }

  lemma AllSurviveCons(eol: Eol, gap: Eol, f: Frame, rest: seq<Frame>)
    ensures AllSurvive(eol, gap, [f] + rest) <==> Survives(eol, gap, f) && AllSurvive(eol, gap, rest)
  {
    var fs := [f] + rest;
    assert fs[0] == f && forall k :: 0 <= k < |rest| ==> fs[k + 1] == rest[k];
  }

  lemma ConsEqual<T>(x: T, xs: seq<T>, y: T, ys: seq<T>)
    ensures [x] + xs == [y] + ys <==> x == y && xs == ys
  {
    if [x] + xs == [y] + ys {
      assert ([x] + xs)[0] == ([y] + ys)[0];
      assert ([x] + xs)[1..] == xs && ([y] + ys)[1..] == ys;
    }
  }

  /**
   For every list of frames and every choice of line ends: printing, cutting and parsing gives the list back
   exactly if field lines end in LF or CR LF, the empty lines in LF alone, every frame is one the parser can
   give, and with plain LF no field line ends in a carriage return of its own.
   */
  lemma RoundTripAll(eol: Eol, gap: Eol, fs: seq<Frame>)
    ensures Frames(Parse, Cut(PrintAll(eol, gap, fs)).0) == fs <==> AllSurvive(eol, gap, fs)
    ensures AllSurvive(eol, gap, fs) ==> Cut(PrintAll(eol, gap, fs)).1 == ""
  {
    var got := Frames(Parse, Cut(PrintAll(eol, gap, fs)).0);
    if got == fs {
      forall k | 0 <= k < |fs| ensures Clean(fs[k]) {
        FramesAreParsed(Parse, Cut(PrintAll(eol, gap, fs)).0, k);
        ParsedExactly(fs[k]);
      }
    }
    if AllClean(fs) {
      if Cuttable(eol, gap) {
        CutIsReparsed(eol, fs);
        ReparsedExactly(eol, fs);
      } else {
        PrintAllHasNoBlank(eol, gap, fs);
        assert got == [];
        assert fs != [] ==> !Survives(eol, gap, fs[0]);
        assert fs == [] ==> PrintAll(eol, gap, fs) == "";
      }
    }
  }

  lemma RoundTrip(eol: Eol, gap: Eol, f: Frame)
    ensures Frames(Parse, Cut(Print(eol, gap, f)).0) == [f] <==> Survives(eol, gap, f)
  {
    RoundTripAll(eol, gap, [f]);
    assert [f][1..] == [];
    assert PrintAll(eol, gap, [f]) == Print(eol, gap, f) + "";
    assert Print(eol, gap, f) + "" == Print(eol, gap, f);
    assert [f][0] == f;
  }

  /** With one line end throughout, a frame whose lines it cannot touch comes back with LF and with no other. */
  lemma OneLineEndThroughout(eol: Eol, fs: seq<Frame>)
    requires AllClean(fs) && (forall k :: 0 <= k < |fs| ==> NoLineEndsInCr(fs[k])) && fs != []
    ensures Frames(Parse, Cut(PrintAll(eol, eol, fs)).0) == fs <==> eol == Lf
    ensures eol != Lf ==> Cut(PrintAll(eol, eol, fs)).0 == []
  {
    RoundTripAll(eol, eol, fs);
    if eol != Lf {
      PrintAllHasNoBlank(eol, eol, fs);
      assert !Survives(eol, eol, fs[0]);
    }
  }

  /** End to end: any chunking of a printed stream delivers exactly its frames, up to the refusal. */
  lemma EveryChunkingDelivers(eol: Eol, gap: Eol, fs: seq<Frame>, chunks: seq<string>, go: Callback<Frame>)
    requires AllSurvive(eol, gap, fs)
    requires Concat(chunks) == PrintAll(eol, gap, fs)
    ensures var r := Deliver(Parse, go, Cut(Concat(chunks)).0, []);
            UpToRefusal(go, r.0, fs, r.1)
  {
    RoundTripAll(eol, gap, fs);
    DeliverIsUpToRefusal(Parse, go, Cut(Concat(chunks)).0);
  }

  /**
   A stream whose lines all end in CR LF is never cut, so it delivers nothing: the parser strips
   carriage returns, but the search for the blank line does not.
   */
  lemma CrLfStreamDeliversNothing(text: string, go: Callback<Frame>)
    requires forall i :: 0 <= i < |text| && text[i] == NL ==> i > 0 && text[i - 1] == CR
    ensures Deliver(Parse, go, Cut(text).0, []) == ([], false)
  {
    assert forall i :: 0 <= i && i + 1 < |text| && text[i + 1] == NL ==> text[i] != NL;
  }

  /** One frame, with LF and with CR LF. */
  lemma CrLfWitness()
    ensures Frames(Parse, Cut("event: message" + "\n" + "data: x" + "\n" + "\n").0) == [Frame(None, "message", "x")]
    ensures Frames(Parse, Cut("event: message" + "\r\n" + "data: x" + "\r\n" + "\r\n").0) == []
  {
    var f := Frame(None, "message", "x");
    WitnessPrinted(Lf);
    WitnessPrinted(CrLf);
    RoundTrip(Lf, Lf, f);
    PrintHasNoBlank(CrLf, CrLf, f);
    assert Chars(Lf) == "\n" && Chars(CrLf) == "\r\n";
  }

  lemma WitnessPrinted(eol: Eol)
    ensures Lines("x") == ["x"]
    ensures Print(eol, eol, Frame(None, "message", "x"))
         == "event: message" + Chars(eol) + "data: x" + Chars(eol) + Chars(eol)
  {
    LinesOfOne("x");
    var lines := ["event: message", "data: x"];
    assert ["x"][1..] == [] && "data: " + "x" == "data: x" && "event: " + "message" == "event: message";
    assert DataFields(["x"]) == ["data: " + "x"] + DataFields(["x"][1..]);
    assert FieldLines(None, "message", ["x"]) == lines;
    assert lines[1..] == ["data: x"] && lines[1..][1..] == [];
    assert Terminated(lines[1..], eol) == "data: x" + Chars(eol) + "";
    var end := Chars(eol);
    assert "data: x" + end + "" == "data: x" + end;
    assert Terminated(lines, eol) == "event: message" + end + ("data: x" + end);
    Associative("event: message" + end, "data: x", end);
  }

  // ---------------------------------------------------------------- fields, whoever wrote them

  /** A line of the field: its name and a colon first. */
  predicate Carries(raw: string, name: string) {
    name + ":" <= raw
  }

  const NAMES: set<string> := {"id", "event", "data"}

  /** Comments, which begin with the colon, empty lines, and lines of any other field. */
  predicate CarriesNothing(raw: string) {
    forall name :: name in NAMES ==> !Carries(raw, name)
  }

  /**
   The value of such a line: what follows the colon and one space, or, where another character comes first, what
   follows the colon and all white space; a carriage return at the end belongs to the line end.
   */
  function ValueOf(raw: string, name: string): string
    requires Carries(raw, name)
  {
    var v := StripCr(raw[|name| + 1..]);
    if v != "" && v[0] == ' ' then v[1..] else TrimStart(v)
  }

  /** The values of a field, in the order of its lines. */
  function Values(lines: seq<string>, name: string): seq<string> {
    if lines == [] then []
    else if Carries(lines[0], name) then [ValueOf(lines[0], name)] + Values(lines[1..], name)
    else Values(lines[1..], name)
  }

  function LastOr<T>(default: T, values: seq<T>): T {
    if values == [] then default else values[|values| - 1]
  }

  function Somes(values: seq<string>): seq<Option<string>> {
    seq(|values|, k requires 0 <= k < |values| => Some(values[k]))
  }

  /** The payload: the "data" values from the first that is not empty on, one line each. */
  function Payload(values: seq<string>): string {
    if values == [] then "" else if values[0] == "" then Payload(values[1..]) else Join(values)
  }

  lemma NamesDiffer(raw: string)
    ensures !(Carries(raw, "id") && Carries(raw, "event")) && !(Carries(raw, "id") && Carries(raw, "data"))
    ensures !(Carries(raw, "event") && Carries(raw, "data"))
    ensures ":" <= raw || raw == "" ==> CarriesNothing(raw)
  {
    assert Carries(raw, "id") ==> raw[0] == ("id" + ":")[0];
    assert Carries(raw, "event") ==> raw[0] == ("event" + ":")[0];
    assert Carries(raw, "data") ==> raw[0] == ("data" + ":")[0];
  }

  lemma StrippedCarries(raw: string, name: string)
    ensures Carries(StripCr(raw), name) <==> Carries(raw, name)
    ensures Carries(raw, name) ==> StripCr(raw) == name + ":" + StripCr(raw[|name| + 1..])
  {
    var prefix := name + ":";
    if Carries(raw, name) {
      assert raw == prefix + raw[|prefix|..];
      StripAfter(prefix, raw[|prefix|..]);
    }
  }

  /** One line of a field sets id or type, or adds to the payload; a line of none does nothing. */
  lemma ReadLineIs(acc: Frame, raw: string)
    ensures CarriesNothing(raw) ==> ReadLine(acc, raw) == acc
    ensures Carries(raw, "id") ==> ReadLine(acc, raw) == acc.(id := Some(ValueOf(raw, "id")))
    ensures Carries(raw, "event") ==> ReadLine(acc, raw) == acc.(kind := ValueOf(raw, "event"))
    ensures Carries(raw, "data") ==> ReadLine(acc, raw) == acc.(data := AddData(acc.data, ValueOf(raw, "data")))
  {
    NamesDiffer(raw);
    NamesDiffer(StripCr(raw));
    StrippedCarries(raw, "id");
    StrippedCarries(raw, "event");
    StrippedCarries(raw, "data");
    var line := StripCr(raw);
    assert "id" + ":" == "id:" && "event" + ":" == "event:" && "data" + ":" == "data:";
    PrefixWithSpace(line, "id:", "id: ");
    PrefixWithSpace(line, "event:", "event: ");
    PrefixWithSpace(line, "data:", "data: ");
  }

  lemma PrefixWithSpace(line: string, short: string, long: string)
    requires long == short + " "
    ensures long <= line ==> short <= line
    ensures short <= line ==> (long <= line <==> line[|short|..] != "" && line[|short|] == ' ')
    ensures long <= line ==> line[|long|..] == line[|short|..][1..]
  {
    if short <= line && line[|short|..] != "" && line[|short|] == ' ' {
      assert line[..|long|] == long;
    }
    if long <= line {
      assert line[..|short|] == long[..|short|] == short;
      assert line[|short|] == long[|short|];
    }
  }

  lemma ValuesCons(raw: string, rest: seq<string>, name: string)
    ensures Values([raw] + rest, name)
         == (if Carries(raw, name) then [ValueOf(raw, name)] else []) + Values(rest, name)
  {
    assert ([raw] + rest)[1..] == rest;
    assert [] + Values(rest, name) == Values(rest, name);
  }

  lemma {:induction false} ValuesAppend(a: seq<string>, b: seq<string>, name: string)
    ensures Values(a + b, name) == Values(a, name) + Values(b, name)
    decreases |a|
  {
    if a == [] {
      assert a + b == b;
      assert [] + Values(b, name) == Values(b, name);
    } else {
      ValuesAppend(a[1..], b, name);
      assert a + b == [a[0]] + (a[1..] + b) && a == [a[0]] + a[1..];
      ValuesCons(a[0], a[1..] + b, name);
      ValuesCons(a[0], a[1..], name);
      var head := if Carries(a[0], name) then [ValueOf(a[0], name)] else [];
      Associative(head, Values(a[1..], name), Values(b, name));
    }
  }

  function AddAll(data: string, values: seq<string>): string
    decreases |values|
  {
    if values == [] then data else AddAll(AddData(data, values[0]), values[1..])
  }

  lemma {:induction false} AddAllIs(data: string, values: seq<string>)
    ensures data == "" ==> AddAll(data, values) == Payload(values)
    ensures data != "" ==> AddAll(data, values) == if values == [] then data else data + [NL] + Join(values)
    decreases |values|
  {
    if values != [] {
      AddAllIs(AddData(data, values[0]), values[1..]);
      if data != "" || values[0] != "" {
        Associative(data + [NL], values[0] + [NL], if |values| > 1 then Join(values[1..]) else "");
        Associative(data + [NL], values[0], [NL]);
      }
    }
  }

  function Summary(acc: Frame, lines: seq<string>): Frame {
    Frame(LastOr(acc.id, Somes(Values(lines, "id"))), LastOr(acc.kind, Values(lines, "event")),
          AddAll(acc.data, Values(lines, "data")))
  }

  lemma {:induction false} ReadLinesIs(acc: Frame, lines: seq<string>)
    ensures ReadLines(acc, lines) == Summary(acc, lines)
    decreases |lines|
  {
    if lines != [] {
      SummaryCons(acc, lines[0], lines[1..]);
      ReadLinesIs(ReadLine(acc, lines[0]), lines[1..]);
      assert lines == [lines[0]] + lines[1..];
    }
  }

  lemma SummaryCons(acc: Frame, raw: string, rest: seq<string>)
    ensures Summary(ReadLine(acc, raw), rest) == Summary(acc, [raw] + rest)
  {
    NamesDiffer(raw);
    ReadLineIs(acc, raw);
    ValuesConsAll(raw, rest);
    if Carries(raw, "id") {
      LastOfCons(acc.id, Some(ValueOf(raw, "id")), Somes(Values(rest, "id")));
      SomesCons(ValueOf(raw, "id"), Values(rest, "id"));
    } else if Carries(raw, "event") {
      LastOfCons(acc.kind, ValueOf(raw, "event"), Values(rest, "event"));
    } else if Carries(raw, "data") {
      assert ([ValueOf(raw, "data")] + Values(rest, "data"))[1..] == Values(rest, "data");
    } else {
      assert CarriesNothing(raw);
    }
  }

  lemma SomesCons(v: string, rest: seq<string>)
    ensures Somes([v] + rest) == [Some(v)] + Somes(rest)
  {
  }

  lemma ValuesConsAll(raw: string, rest: seq<string>)
    ensures forall name :: name in NAMES ==>
      Values([raw] + rest, name) == if Carries(raw, name) then [ValueOf(raw, name)] + Values(rest, name)
                                    else Values(rest, name)
  {
    forall name | name in NAMES
      ensures Values([raw] + rest, name) == if Carries(raw, name) then [ValueOf(raw, name)] + Values(rest, name)
                                            else Values(rest, name)
    {
      ValuesCons(raw, rest, name);
    }
  }

  lemma LastOfCons<T>(default: T, x: T, rest: seq<T>)
    ensures LastOr(default, [x] + rest) == LastOr(x, rest)
  {
  }

  /**
   For every text: the id is that of the last "id" line, the type that of the last "event" line or "message", the
   payload made of the "data" lines; and without a payload there is no frame.
   */
  lemma ParseIs(text: string)
    ensures var lines := Lines(text);
            var data := Payload(Values(lines, "data"));
            Parse(text)
            == if data == "" then None
               else Some(Frame(LastOr(None, Somes(Values(lines, "id"))), LastOr("message", Values(lines, "event")),
                               data))
  {
    ReadLinesIs(BLANK_FRAME, Lines(text));
    AddAllIs("", Values(Lines(text), "data"));
  }

  /** So a frame depends on the values of each field and their order, and on nothing else. */
  lemma OnlyFieldsMatter(one: string, two: string)
    requires forall name :: name in NAMES ==> Values(Lines(one), name) == Values(Lines(two), name)
    ensures Parse(one) == Parse(two)
  {
    ParseIs(one);
    ParseIs(two);
    assert "id" in NAMES && "event" in NAMES && "data" in NAMES;
  }

  lemma JoinedFields(one: seq<string>, two: seq<string>)
    requires AllOneLine(one) && AllOneLine(two) && one != [] && two != []
    requires forall name :: name in NAMES ==> Values(one, name) == Values(two, name)
    ensures Parse(Join(one)) == Parse(Join(two))
  {
    LinesJoin(one);
    LinesJoin(two);
    OnlyFieldsMatter(Join(one), Join(two));
  }

  lemma ReplacedLines(a: seq<string>, one: seq<string>, two: seq<string>, b: seq<string>)
    requires AllOneLine(a) && AllOneLine(one) && AllOneLine(two) && AllOneLine(b)
    requires a + one + b != [] && a + two + b != []
    requires forall name :: name in NAMES ==> Values(one, name) == Values(two, name)
    ensures Parse(Join(a + one + b)) == Parse(Join(a + two + b))
  {
    var first, second := a + one + b, a + two + b;
    forall name | name in NAMES ensures Values(first, name) == Values(second, name) {
      ValuesOfThree(a, one, b, name);
      ValuesOfThree(a, two, b, name);
    }
    OneLineOfThree(a, one, b);
    OneLineOfThree(a, two, b);
    JoinedFields(first, second);
  }

  lemma OneLineOfThree(a: seq<string>, m: seq<string>, b: seq<string>)
    requires AllOneLine(a) && AllOneLine(m) && AllOneLine(b)
    ensures AllOneLine(a + m + b)
  {
  }

  lemma ValuesOfThree(a: seq<string>, m: seq<string>, b: seq<string>, name: string)
    ensures Values(a + m + b, name) == Values(a, name) + Values(m, name) + Values(b, name)
  {
    ValuesAppend(a + m, b, name);
    ValuesAppend(a, m, name);
  }

  lemma ValuesOfOne(raw: string, name: string)
    ensures Values([raw], name) == if Carries(raw, name) then [ValueOf(raw, name)] else []
  {
    assert [raw][1..] == [];
    assert Values([raw][1..], name) == [];
  }

  lemma NoneBetween<T>(a: seq<T>, b: seq<T>)
    ensures a + [] + b == a + b
  {
  }

  /** A comment, an empty line or a line of another field changes nothing, wherever it stands. */
  lemma OtherLinesAreIgnored(a: seq<string>, c: string, b: seq<string>)
    requires AllOneLine(a) && OneLine(c) && AllOneLine(b) && a + b != [] && CarriesNothing(c)
    ensures Parse(Join(a + [c] + b)) == Parse(Join(a + b))
  {
    var with, without := a + [c] + b, a + b;
    forall name | name in NAMES ensures Values(with, name) == Values(without, name) {
      ValuesOfThree(a, [c], b, name);
      ValuesOfOne(c, name);
      ValuesAppend(a, b, name);
      NoneBetween(Values(a, name), Values(b, name));
    }
    OneLineOfThree(a, [c], b);
    JoinedFields(with, without);
  }

  /** The space after the colon may be left out. */
  lemma SpaceAfterColonIsOptional(a: seq<string>, name: string, v: string, b: seq<string>)
    requires AllOneLine(a) && OneLine(v) && AllOneLine(b) && name in NAMES && (v != "" ==> !IsSpace(v[0]))
    ensures Parse(Join(a + [name + ":" + v] + b)) == Parse(Join(a + [name + ": " + v] + b))
  {
    var short, long := name + ":" + v, name + ": " + v;
    FieldOneLine(name, v);
    forall other | other in NAMES ensures Values([short], other) == Values([long], other) {
      ValuesOfOne(short, other);
      ValuesOfOne(long, other);
      SameValue(name, v);
      OneName(short, name, other);
      OneName(long, name, other);
    }
    ReplacedLines(a, [short], [long], b);
  }

  lemma FieldOneLine(name: string, v: string)
    requires name in NAMES && OneLine(v)
    ensures OneLine(name + ":" + v) && OneLine(name + ": " + v)
  {
    assert OneLine("id") && OneLine("event") && OneLine("data") && OneLine(":") && OneLine(": ");
  }

  lemma OneName(raw: string, name: string, other: string)
    requires name in NAMES && other in NAMES && Carries(raw, name)
    ensures Carries(raw, other) <==> other == name
  {
    NamesDiffer(raw);
  }

  lemma SameValue(name: string, v: string)
    requires v != "" ==> !IsSpace(v[0])
    ensures Carries(name + ":" + v, name) && Carries(name + ": " + v, name)
    ensures ValueOf(name + ":" + v, name) == ValueOf(name + ": " + v, name)
  {
    var short, long := name + ":" + v, name + ": " + v;
    assert short[|name| + 1..] == v && long[|name| + 1..] == " " + v;
    assert long[..|name| + 1] == name + ":" && short[..|name| + 1] == name + ":";
    StripAfter(" ", v);
    TrimmedStart(StripCr(v));
    assert (" " + StripCr(v))[1..] == StripCr(v);
  }

  lemma TrimmedStart(s: string)
    requires s != "" ==> !IsSpace(s[0])
    ensures TrimStart(s) == s
  {
  }

  /** And white space after the colon, unless a space comes first, does not count. */
  lemma SpaceBeforeValueIsDropped(name: string, before: string, v: string)
    requires name in NAMES && AllSpace(before) && (before != "" ==> before[0] != ' ')
    requires v != "" && !IsSpace(v[0]) && !EndsInCr(v)
    ensures ValueOf(name + ":" + before + v, name) == v
  {
    var raw := name + ":" + before + v;
    assert raw[..|name| + 1] == name + ":" && raw[|name| + 1..] == before + v;
    assert StripCr(before + v) == before + v;
    SkippedSpaces(before, v);
  }

  lemma SkippedSpaces(before: string, v: string)
    requires AllSpace(before) && v != "" && !IsSpace(v[0])
    ensures TrimStart(before + v) == v
  {
    var t := TrimStartIs(before + v);
    assert (before + v)[|before|] == v[0];
    assert forall k :: 0 <= k < |before| ==> (before + v)[k] == before[k];
    assert (before + v)[|before|..] == v;
  }

  /** Neighbouring lines of different fields may change places, so the fields may come in any order. */
  lemma FieldsCommute(a: seq<string>, c: string, d: string, b: seq<string>)
    requires AllOneLine(a) && OneLine(c) && OneLine(d) && AllOneLine(b)
    requires forall name :: name in NAMES ==> !(Carries(c, name) && Carries(d, name))
    ensures Parse(Join(a + [c, d] + b)) == Parse(Join(a + [d, c] + b))
  {
    forall name | name in NAMES ensures Values([c, d], name) == Values([d, c], name) {
      assert [c, d] == [c] + [d] && [d, c] == [d] + [c];
      ValuesAppend([c], [d], name);
      ValuesAppend([d], [c], name);
      ValuesOfOne(c, name);
      ValuesOfOne(d, name);
    }
    ReplacedLines(a, [c, d], [d, c], b);
  }

  // ---------------------------------------------------------------- streams with comments between frames

  /** A printed frame, or comment lines with an empty line after them. */
  datatype Item = Printed(frame: Frame) | Comments(lines: seq<string>)

  predicate GoodItem(eol: Eol, it: Item) {
    match it
    case Printed(f) => Survives(eol, Lf, f)
    case Comments(lines) =>
      lines != [] && AllOneLine(lines) && forall k :: 0 <= k < |lines| ==> ":" <= lines[k]
  }

  ghost predicate GoodItems(eol: Eol, items: seq<Item>) {
    forall k :: 0 <= k < |items| ==> GoodItem(eol, items[k])
  }

  function PrintItem(eol: Eol, it: Item): string {
    match it
    case Printed(f) => Print(eol, Lf, f)
    case Comments(lines) => Terminated(lines, eol) + [NL]
  }

  function PrintItems(eol: Eol, items: seq<Item>): string {
    if items == [] then "" else PrintItem(eol, items[0]) + PrintItems(eol, items[1..])
  }

  function FramesIn(items: seq<Item>): seq<Frame> {
    if items == [] then []
    else (if items[0].Printed? then [items[0].frame] else []) + FramesIn(items[1..])
  }

  /** The piece that is cut off for an item. */
  function PieceOf(eol: Eol, it: Item): string
    requires it.Comments? ==> it.lines != []
  {
    match it
    case Printed(f) => Body(eol, f)
    case Comments(lines) => Join(Suffixed(lines, Tail(eol)))
  }

  lemma CommentLines(eol: Eol, lines: seq<string>)
    requires GoodItem(eol, Comments(lines))
    ensures var suffixed := Suffixed(lines, Tail(eol));
            && AllOneLine(suffixed) && NonEmpty(suffixed)
            && forall k :: 0 <= k < |suffixed| ==> CarriesNothing(suffixed[k])
  {
    var suffixed := Suffixed(lines, Tail(eol));
    forall k | 0 <= k < |suffixed|
      ensures OneLine(suffixed[k]) && suffixed[k] != "" && CarriesNothing(suffixed[k])
    {
      assert OneLine(lines[k]) && ":" <= lines[k];
      assert suffixed[k][0] == lines[k][0] == ':';
      NamesDiffer(suffixed[k]);
    }
  }

  lemma ItemIsOnePiece(eol: Eol, it: Item, rest: string)
    requires GoodItem(eol, it) && eol != Cr
    ensures Cut(PrintItem(eol, it) + rest) == ([PieceOf(eol, it)] + Cut(rest).0, Cut(rest).1)
  {
    match it {
      case Printed(f) =>
        PrintedIsOnePiece(eol, f, rest);
      case Comments(lines) =>
        var body := PieceOf(eol, it);
        CommentLines(eol, lines);
        JoinedHasNoBlank(Suffixed(lines, Tail(eol)));
        TerminatedIsJoined(lines, eol);
        assert PrintItem(eol, it) == body + [NL] + [NL] == body + BLANK;
        CutPrinted(body, rest);
    }
  }

  lemma {:induction false} NoValues(lines: seq<string>, name: string)
    requires name in NAMES && forall k :: 0 <= k < |lines| ==> CarriesNothing(lines[k])
    ensures Values(lines, name) == []
    decreases |lines|
  {
    if lines != [] {
      assert CarriesNothing(lines[0]);
      NoValues(lines[1..], name);
    }
  }

  lemma ParsePiece(eol: Eol, it: Item)
    requires GoodItem(eol, it) && eol != Cr
    ensures Parse(PieceOf(eol, it)) == if it.Printed? then Some(it.frame) else None
  {
    match it {
      case Printed(f) =>
        ParseBody(eol, f);
      case Comments(lines) =>
        var suffixed := Suffixed(lines, Tail(eol));
        CommentLines(eol, lines);
        LinesJoin(suffixed);
        NoValues(suffixed, "data");
        ParseIs(Join(suffixed));
    }
  }

  /** Comments between frames, a heartbeat say, change nothing: exactly the frames come back. */
  lemma {:induction false} CommentsBetweenFrames(eol: Eol, items: seq<Item>)
    requires GoodItems(eol, items) && eol != Cr
    ensures Frames(Parse, Cut(PrintItems(eol, items)).0) == FramesIn(items) && Cut(PrintItems(eol, items)).1 == ""
    decreases |items|
  {
    if items == [] {
      assert Cut("") == ([], "");
    } else {
      var rest := PrintItems(eol, items[1..]);
      CommentsBetweenFrames(eol, items[1..]);
      assert GoodItem(eol, items[0]);
      ItemIsOnePiece(eol, items[0], rest);
      FramesAppend(Parse, [PieceOf(eol, items[0])], Cut(rest).0);
      FramesOfOne(Parse, PieceOf(eol, items[0]));
      ParsePiece(eol, items[0]);
    }
  }

  /** And so they do in any chunking, up to the refusal. */
  lemma EveryChunkingDeliversBetweenComments(eol: Eol, items: seq<Item>, chunks: seq<string>, go: Callback<Frame>)
    requires GoodItems(eol, items) && eol != Cr && Concat(chunks) == PrintItems(eol, items)
    ensures var r := Deliver(Parse, go, Cut(Concat(chunks)).0, []);
            UpToRefusal(go, r.0, FramesIn(items), r.1)
  {
    CommentsBetweenFrames(eol, items);
    DeliverIsUpToRefusal(Parse, go, Cut(Concat(chunks)).0);
  }

  /** The server's own heartbeat is a block of that kind. */
  lemma HeartbeatDeliversNothing()
    ensures Parse(": heartbeat") == None
    ensures GoodItem(Lf, Comments([": heartbeat"])) && PrintItem(Lf, Comments([": heartbeat"])) == ": heartbeat" + BLANK
  {
    var line := ": heartbeat";
    var lines := [line];
    assert ":" <= lines[0];
    assert lines[1..] == [];
    assert Terminated(lines, Lf) == line + [NL] + "" == line + [NL];
    assert line + [NL] + [NL] == line + BLANK;
    SuffixedByNothing(lines);
    ParsePiece(Lf, Comments(lines));
  }

  // ---------------------------------------------------------------- the POST copy

  datatype Event = Event(kind: string, data: string)

  function ReadPostLine(acc: Event, line: string): Event {
    if "event: " <= line then acc.(kind := line[7..])
    else if "data: " <= line then acc.(data := line[6..])
    else acc
  }

  function ReadPostLines(acc: Event, lines: seq<string>): Event
    decreases |lines|
  {
    if lines == [] then acc else ReadPostLines(ReadPostLine(acc, lines[0]), lines[1..])
  }

  function ParsePost(text: string): Option<Event> {
    var e := ReadPostLines(Event("message", ""), Lines(text));
    if e.data == "" then None else Some(e)
  }

  method ParsePostFrame(text: string) returns (event: Option<Event>)
    ensures event == ParsePost(text)
  {
    var kind, data := "message", "";
    var lines := Lines(text);
    for i := 0 to |lines|
      invariant ReadPostLines(Event("message", ""), lines) == ReadPostLines(Event(kind, data), lines[i..])
    {
      var line := lines[i];
      if "event: " <= line { kind := line[7..]; }
      else if "data: " <= line { data := line[6..]; }
      else if ":" <= line { continue; }
    }
    event := if data == "" then None else Some(Event(kind, data));
  }

  method StreamFetch(chunks: seq<string>) returns (delivered: seq<Event>)
    ensures delivered == Frames(ParsePost, Cut(Concat(chunks)).0)
  {
    delivered := [];
    var buf := "";
    for i := 0 to |chunks|
      invariant buf == Cut(Concat(chunks[..i])).1
      invariant delivered == Frames(ParsePost, Cut(Concat(chunks[..i])).0)
      invariant Boundary(buf).None?
    {
      CutPrefix(chunks, i);
      FramesAppend(ParsePost, Cut(Concat(chunks[..i])).0, Cut(buf + chunks[i]).0);
      buf := buf + chunks[i];
      var boundary := Boundary(buf);
      while boundary.Some?
        invariant boundary == Boundary(buf)
        invariant Cut(Concat(chunks[..i + 1])).1 == Cut(buf).1
        invariant Frames(ParsePost, Cut(Concat(chunks[..i + 1])).0) == delivered + Frames(ParsePost, Cut(buf).0)
        decreases |buf|
      {
        FramesStep(ParsePost, buf, boundary.value, delivered);
        var text := buf[..boundary.value];
        buf := buf[boundary.value + 2..];
        var event := ParsePostFrame(text);
        if event.Some? {
          delivered := delivered + [event.value];
        }
        boundary := Boundary(buf);
      }
    }
    assert chunks[..|chunks|] == chunks;
  }

  lemma {:induction false} FramesAppend<F>(parse: string -> Option<F>, a: seq<string>, b: seq<string>)
    ensures Frames(parse, a + b) == Frames(parse, a) + Frames(parse, b)
    decreases |a|
  {
    if a == [] {
      assert a + b == b;
    } else {
      assert (a + b)[1..] == a[1..] + b;
      FramesAppend(parse, a[1..], b);
      var f := parse(a[0]);
      Associative(if f.Some? then [f.value] else [], Frames(parse, a[1..]), Frames(parse, b));
    }
  }

  lemma FramesStep<F>(parse: string -> Option<F>, buf: string, k: nat, done: seq<F>)
    requires Boundary(buf) == Some(k)
    ensures var f := parse(buf[..k]);
            var next := if f.Some? then done + [f.value] else done;
            done + Frames(parse, Cut(buf).0) == next + Frames(parse, Cut(buf[k + 2..]).0)
  {
    CutOnce(buf, k);
    FramesAppend(parse, [buf[..k]], Cut(buf[k + 2..]).0);
    FramesOfOne(parse, buf[..k]);
  }

  /** An event, printed like a frame without an id; `eol` ends its lines and `gap` the empty line after them. */
  function AsFrame(e: Event): Frame {
    Frame(None, e.kind, e.data)
  }

  function AsFrames(es: seq<Event>): (fs: seq<Frame>)
    ensures |fs| == |es|
  {
    seq(|es|, k requires 0 <= k < |es| => AsFrame(es[k]))
  }

  /** The events this parser can give. */
  predicate PostClean(e: Event) {
    OneLine(e.kind) && OneLine(e.data) && e.data != ""
  }

  ghost predicate AllPostClean(es: seq<Event>) {
    forall k :: 0 <= k < |es| ==> PostClean(es[k])
  }

  lemma {:induction false} ReadPostLinesHasNoLineFeed(acc: Event, lines: seq<string>)
    requires OneLine(acc.kind) && OneLine(acc.data) && AllOneLine(lines)
    ensures var r := ReadPostLines(acc, lines); OneLine(r.kind) && OneLine(r.data)
    decreases |lines|
  {
    if lines != [] {
      assert OneLine(lines[0]);
      ReadPostLinesHasNoLineFeed(ReadPostLine(acc, lines[0]), lines[1..]);
    }
  }

  lemma PostParsedIsClean(text: string)
    ensures ParsePost(text).Some? ==> PostClean(ParsePost(text).value)
  {
    ReadPostLinesHasNoLineFeed(Event("message", ""), Lines(text));
  }

  lemma ParsePrintedPost(e: Event)
    requires OneLine(e.kind) && OneLine(e.data)
    ensures ParsePost(Join(["event: " + e.kind, "data: " + e.data])) == if e.data == "" then None else Some(e)
  {
    var lines := ["event: " + e.kind, "data: " + e.data];
    LinesJoin(lines);
    var acc := Event("message", "");
    assert lines[1..] == [lines[1]] && lines[1..][1..] == [];
    assert ReadPostLine(acc, lines[0]) == acc.(kind := e.kind);
    assert ReadPostLine(acc.(kind := e.kind), lines[1]) == e;
    assert ReadPostLines(acc, lines) == ReadPostLines(e, []);
  }

  /** What is left of the line end stays on the values: this parser does not strip it. */
  lemma ParsePostBody(eol: Eol, e: Event)
    requires PostClean(e) && eol != Cr
    ensures ParsePost(Body(eol, AsFrame(e))) == Some(Event(e.kind + Tail(eol), e.data + Tail(eol)))
  {
    var tail := Tail(eol);
    LinesOfOne(e.data);
    assert Suffixed([e.data], tail) == [e.data + tail];
    assert [e.data + tail][1..] == [];
    assert DataFields([e.data + tail]) == ["data: " + (e.data + tail)] + DataFields([e.data + tail][1..]);
    assert FieldLines(None, e.kind + tail, [e.data + tail])
        == ["event: " + (e.kind + tail), "data: " + (e.data + tail)];
    ParsePrintedPost(Event(e.kind + tail, e.data + tail));
  }

  /** What parsing the bodies of printed events gives. */
  function PostReparsed(eol: Eol, es: seq<Event>): (r: seq<Event>)
    ensures |r| == |es|
  {
    if es == [] then [] else [Event(es[0].kind + Tail(eol), es[0].data + Tail(eol))] + PostReparsed(eol, es[1..])
  }

  lemma {:induction false} PostCutIsReparsed(eol: Eol, es: seq<Event>)
    requires AllPostClean(es) && eol != Cr
    ensures Frames(ParsePost, Cut(PrintAll(eol, Lf, AsFrames(es))).0) == PostReparsed(eol, es)
    ensures Cut(PrintAll(eol, Lf, AsFrames(es))).1 == ""
    decreases |es|
  {
    if es == [] {
      assert Cut("") == ([], "");
    } else {
      var rest := PrintAll(eol, Lf, AsFrames(es[1..]));
      assert AsFrames(es)[1..] == AsFrames(es[1..]);
      PostCutIsReparsed(eol, es[1..]);
      PrintedIsOnePiece(eol, AsFrame(es[0]), rest);
      FramesAppend(ParsePost, [Body(eol, AsFrame(es[0]))], Cut(rest).0);
      FramesOfOne(ParsePost, Body(eol, AsFrame(es[0])));
      ParsePostBody(eol, es[0]);
    }
  }

  lemma {:induction false} PostReparsedPlain(es: seq<Event>)
    ensures PostReparsed(Lf, es) == es
    decreases |es|
  {
    if es != [] {
      PostReparsedPlain(es[1..]);
      assert es[0].kind + "" == es[0].kind && es[0].data + "" == es[0].data;
      assert es == [es[0]] + es[1..];
    }
  }

  /**
   For every list of events and every choice of line ends: printing, cutting and parsing gives the list back
   exactly if it is empty, or all lines end in LF and every event is one this parser can give.
   */
  lemma PostRoundTripAll(eol: Eol, gap: Eol, es: seq<Event>)
    ensures Frames(ParsePost, Cut(PrintAll(eol, gap, AsFrames(es))).0) == es
            <==> es == [] || (eol == Lf && gap == Lf && AllPostClean(es))
  {
    var pieces := Cut(PrintAll(eol, gap, AsFrames(es))).0;
    if Frames(ParsePost, pieces) == es {
      forall k | 0 <= k < |es| ensures PostClean(es[k]) {
        FramesAreParsed(ParsePost, pieces, k);
        var text :| ParsePost(text) == Some(es[k]);
        PostParsedIsClean(text);
      }
    }
    if AllPostClean(es) {
      PostRoundTripOfClean(eol, gap, es);
    }
  }

  lemma PostRoundTripOfClean(eol: Eol, gap: Eol, es: seq<Event>)
    requires AllPostClean(es)
    ensures Frames(ParsePost, Cut(PrintAll(eol, gap, AsFrames(es))).0) == es
            <==> es == [] || (eol == Lf && gap == Lf)
  {
    if Cuttable(eol, gap) {
      PostCutIsReparsed(eol, es);
      if eol == Lf {
        PostReparsedPlain(es);
      } else if es != [] {
        assert PostReparsed(eol, es)[0].data == es[0].data + [CR];
      }
    } else {
      PrintAllHasNoBlank(eol, gap, AsFrames(es));
    }
  }

  lemma PostRoundTrip(eol: Eol, gap: Eol, e: Event)
    ensures Frames(ParsePost, Cut(Print(eol, gap, AsFrame(e))).0) == [e] <==> eol == Lf && gap == Lf && PostClean(e)
  {
    PostRoundTripAll(eol, gap, [e]);
    assert AsFrames([e]) == [AsFrame(e)] && [AsFrame(e)][1..] == [];
    assert PrintAll(eol, gap, [AsFrame(e)]) == Print(eol, gap, AsFrame(e)) + "";
    assert Print(eol, gap, AsFrame(e)) + "" == Print(eol, gap, AsFrame(e));
    assert [e][0] == e;
  }

  /** Any chunking of events printed with LF delivers exactly those events. */
  lemma EveryChunkingDeliversPost(es: seq<Event>, chunks: seq<string>)
    requires AllPostClean(es) && Concat(chunks) == PrintAll(Lf, Lf, AsFrames(es))
    ensures Frames(ParsePost, Cut(Concat(chunks)).0) == es
  {
    PostRoundTripAll(Lf, Lf, es);
  }

  // What an event is made of, whoever wrote it.

  /** What follows the prefix on the last line that begins with it. */
  function LastAfter(lines: seq<string>, prefix: string, default: string): string
    decreases |lines|
  {
    if lines == [] then default
    else
      var last := lines[|lines| - 1];
      if prefix <= last then last[|prefix|..] else LastAfter(lines[..|lines| - 1], prefix, default)
  }

  lemma {:induction false} LastAfterCons(x: string, rest: seq<string>, prefix: string, default: string)
    ensures LastAfter([x] + rest, prefix, default)
         == LastAfter(rest, prefix, if prefix <= x then x[|prefix|..] else default)
    decreases |rest|
  {
    var all := [x] + rest;
    if rest == [] {
      assert all == [x] && all[..0] == [];
    } else {
      LastAfterCons(x, rest[..|rest| - 1], prefix, default);
      assert all[..|all| - 1] == [x] + rest[..|rest| - 1];
    }
  }

  lemma {:induction false} ReadPostLinesIs(acc: Event, lines: seq<string>)
    ensures ReadPostLines(acc, lines)
         == Event(LastAfter(lines, "event: ", acc.kind), LastAfter(lines, "data: ", acc.data))
    decreases |lines|
  {
    if lines != [] {
      var x, rest := lines[0], lines[1..];
      assert lines == [x] + rest;
      assert "event: "[0] != "data: "[0];
      assert !("event: " <= x && "data: " <= x);
      ReadPostLinesIs(ReadPostLine(acc, x), rest);
      LastAfterCons(x, rest, "event: ", acc.kind);
      LastAfterCons(x, rest, "data: ", acc.data);
    }
  }

  /** For every text: type and payload are those of the last line of each, the space after the colon included. */
  lemma ParsePostIs(text: string)
    ensures var kind, data := LastAfter(Lines(text), "event: ", "message"), LastAfter(Lines(text), "data: ", "");
            ParsePost(text) == if data == "" then None else Some(Event(kind, data))
  {
    ReadPostLinesIs(Event("message", ""), Lines(text));
  }

  lemma {:induction false} LastAfterAppend(a: seq<string>, b: seq<string>, prefix: string, default: string)
    ensures LastAfter(a + b, prefix, default) == LastAfter(b, prefix, LastAfter(a, prefix, default))
    decreases |b|
  {
    if b == [] {
      assert a + b == a;
    } else {
      LastAfterAppend(a, b[..|b| - 1], prefix, default);
      assert (a + b)[..|a + b| - 1] == a + b[..|b| - 1];
    }
  }

  /** A comment, or any line with neither prefix, changes nothing, wherever it stands. */
  lemma OtherPostLinesAreIgnored(a: seq<string>, c: string, b: seq<string>)
    requires AllOneLine(a) && OneLine(c) && AllOneLine(b) && a + b != []
    requires !("event: " <= c) && !("data: " <= c)
    ensures ParsePost(Join(a + [c] + b)) == ParsePost(Join(a + b))
  {
    LinesJoin(a + [c] + b);
    LinesJoin(a + b);
    ParsePostIs(Join(a + [c] + b));
    ParsePostIs(Join(a + b));
    SkippedLine(a, c, b, "event: ", "message");
    SkippedLine(a, c, b, "data: ", "");
  }

  lemma SkippedLine(a: seq<string>, c: string, b: seq<string>, prefix: string, default: string)
    requires !(prefix <= c)
    ensures LastAfter(a + [c] + b, prefix, default) == LastAfter(a + b, prefix, default)
  {
    LastAfterAppend(a + [c], b, prefix, default);
    LastAfterAppend(a, [c], prefix, default);
    LastAfterAppend(a, b, prefix, default);
    assert [c][..0] == [];
  }
}
