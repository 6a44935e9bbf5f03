/**
 * Server-sent events over POST: the frame printer (app/src/lib/sse.ts) and the reader that cuts
 * frames out of arbitrary network chunks (app/src/lib/use-sse.ts).
 */
module Sse {
  import opened Collections

  /** An event name and its payload text. */
  datatype Message = Message(event: string, data: string)

  // ---- text helpers -----------------------------------------------------------------

  /** The characters that `trim` and `trimStart` remove. */
  predicate IsSpace(c: char)
  {
    var n := c as int;
    9 <= n <= 13 || n == 32 || n == 0xA0 || n == 0x1680 || 0x2000 <= n <= 0x200A
    || n == 0x2028 || n == 0x2029 || n == 0x202F || n == 0x205F || n == 0x3000 || n == 0xFEFF
  }

  function TrimStart(s: string): string
  {
    if s != [] && IsSpace(s[0]) then TrimStart(s[1..]) else s
  }

  function TrimEnd(s: string): string
  {
    if s != [] && IsSpace(s[|s| - 1]) then TrimEnd(s[..|s| - 1]) else s
  }

  function Trim(s: string): string { TrimEnd(TrimStart(s)) }

  predicate StartsWith(s: string, w: string) { |w| <= |s| && s[..|w|] == w }

  ghost predicate OneLine(s: string) { forall i :: 0 <= i < |s| ==> s[i] != '\n' }

  /** `s.split('\n')` */
  function Lines(s: string): (r: seq<string>)
    ensures |r| > 0
  {
    if s == [] then [[]]
    else
      var r := Lines(s[1..]);
      if s[0] == '\n' then [[]] + r else [[s[0]] + r[0]] + r[1..]
  }

  function JoinLines(ls: seq<string>): string
  {
    if ls == [] then [] else if |ls| == 1 then ls[0] else ls[0] + "\n" + JoinLines(ls[1..])
  }

  lemma SpacesAre(c: char)
    ensures IsSpace(c) <==>
      var n := c as int;
      n in {9, 10, 11, 12, 13, 32, 160, 5760, 8232, 8233, 8239, 8287, 12288, 65279}
      || n in {8192, 8193, 8194, 8195, 8196, 8197, 8198, 8199, 8200, 8201, 8202}
  {}

  /** Trimming removes the spaces in front and behind, and no more. */
  lemma {:induction false} TrimStartIs(s: string) returns (i: nat)
    ensures i <= |s| && TrimStart(s) == s[i..] && (forall k :: 0 <= k < i ==> IsSpace(s[k]))
    ensures i < |s| ==> !IsSpace(s[i])
  {
    i := 0;
    if s != [] && IsSpace(s[0]) {
      i := TrimStartIs(s[1..]);
      i := i + 1;
      forall k | 0 <= k < i ensures IsSpace(s[k]) { assert k > 0 ==> s[k] == s[1..][k - 1]; }
    }
  }

  lemma {:induction false} TrimEndIs(s: string) returns (j: nat)
    ensures j <= |s| && TrimEnd(s) == s[..j] && (forall k :: j <= k < |s| ==> IsSpace(s[k]))
    ensures j > 0 ==> !IsSpace(s[j - 1])
    decreases |s|
  {
    j := |s|;
    if s != [] && IsSpace(s[|s| - 1]) {
      j := TrimEndIs(s[..|s| - 1]);
    }
  }

  /** Splitting a text cuts it at its line breaks, and joining the lines gives it back. */
  lemma {:induction false} LinesJoin(s: string)
    ensures JoinLines(Lines(s)) == s && forall i :: 0 <= i < |Lines(s)| ==> OneLine(Lines(s)[i])
  {
    if s != [] {
      var r := Lines(s[1..]);
      LinesJoin(s[1..]);
      if s[0] == '\n' {
        assert ([[]] + r)[1..] == r;
      } else {
        assert ([[s[0]] + r[0]] + r[1..])[1..] == r[1..];
      }
    }
  }

  lemma {:induction false} LinesOfOneLine(s: string)
    requires OneLine(s)
    ensures Lines(s) == [s]
  {
    if s != [] {
      LinesOfOneLine(s[1..]);
      assert [s[0]] + s[1..] == s;
    }
  }

  lemma {:induction false} LinesCons(x: string, y: string)
    requires OneLine(x)
    ensures Lines(x + ['\n'] + y) == [x] + Lines(y)
  {
    var s := x + ['\n'] + y;
    if x == [] {
      assert s[1..] == y;
    } else {
      assert s[1..] == x[1..] + ['\n'] + y;
      LinesCons(x[1..], y);
      assert [x[0]] + x[1..] == x;
      assert ([x[1..]] + Lines(y))[1..] == Lines(y);
    }
  }

  // ---- printing and dispatching one frame -------------------------------------------------

  const EVENT := "event:"
  const DATA := "data:"
  const SEPARATOR := ['\n', '\n']

  function EventLine(m: Message): string { EVENT + [' '] + m.event }

  function DataLine(m: Message): string { DATA + [' '] + m.data }

  function FrameText(m: Message): string { EventLine(m) + ['\n'] + DataLine(m) }

  /** `event: X\ndata: {json}\n\n` */
  function SseEvent(m: Message): string { FrameText(m) + SEPARATOR }

  datatype Parsed = Parsed(event: string, dataLines: seq<string>)

  function ParseLine(p: Parsed, line: string): Parsed
  {
    if StartsWith(line, EVENT) then p.(event := Trim(line[|EVENT|..]))
    else if StartsWith(line, DATA) then p.(dataLines := p.dataLines + [TrimStart(line[|DATA|..])])
    else p
  }

  function ParseLines(p: Parsed, ls: seq<string>): Parsed
  {
    if ls == [] then p else ParseLine(ParseLines(p, ls[..|ls| - 1]), ls[|ls| - 1])
  }

  /** What a frame says: its event and joined data, or nothing without a data line. */
  function Dispatch(frame: string): Option<Message>
  {
    var p := ParseLines(Parsed("message", []), Lines(frame));
    if p.dataLines == [] then None else Some(Message(p.event, JoinLines(p.dataLines)))
  }

  lemma PrintedForm(m: Message)
    ensures SseEvent(m) == "event: " + m.event + "\n" + "data: " + m.data + "\n\n"
  {}

  lemma LineStart(line: string)
    ensures StartsWith(line, EVENT) <==> "event:" <= line
    ensures StartsWith(line, DATA) <==> "data:" <= line
  {}

  function LinesRead(lines: seq<string>, n: nat): Parsed
    requires n <= |lines|
  {
    ParseLines(Parsed("message", []), lines[..n])
  }

  lemma LineRead(lines: seq<string>, n: nat)
    requires n < |lines|
    ensures LinesRead(lines, n + 1) == ParseLine(LinesRead(lines, n), lines[n])
  {
    PrefixSnoc(lines, n);
  }

  lemma DataStep(p: Parsed, line: string)
    ensures ParseLine(p, line).dataLines
         == if "data:" <= line then p.dataLines + [TrimStart(line[5..])] else p.dataLines
    ensures ParseLine(p, line).event == if "event:" <= line then Trim(line[6..]) else p.event
  {
    LineStart(line);
    assert "event:" <= line ==> line[0] == 'e';
    assert "data:" <= line ==> line[0] == 'd';
  }

  ghost predicate DataFrom(data: seq<string>, lines: seq<string>, at: seq<nat>)
  {
    |data| == |at| && forall i :: 0 <= i < |at| ==>
      at[i] < |lines| && "data:" <= lines[at[i]] && data[i] == TrimStart(lines[at[i]][5..])
  }

  lemma DataSnoc(data: seq<string>, lines: seq<string>, n: nat, at: seq<nat>, p: nat -> bool) returns (more: seq<nat>)
    requires n < |lines| && (p(n) <==> "data:" <= lines[n]) && Picks(at, n, p) && DataFrom(data, lines, at)
    ensures Picks(more, n + 1, p)
    ensures DataFrom(if "data:" <= lines[n] then data + [TrimStart(lines[n][5..])] else data, lines, more)
  {
    more := PicksSnoc(at, n, p);
  }

  /** The payload lines of a frame are its lines that start with "data:", trimmed in front. */
  lemma {:induction false} FrameData(lines: seq<string>, n: nat, p: nat -> bool) returns (at: seq<nat>)
    requires n <= |lines| && forall j: nat :: j < |lines| ==> (p(j) <==> "data:" <= lines[j])
    ensures Picks(at, n, p) && DataFrom(LinesRead(lines, n).dataLines, lines, at)
  {
    at := [];
    if n > 0 {
      at := FrameData(lines, n - 1, p);
      LineRead(lines, n - 1);
      DataStep(LinesRead(lines, n - 1), lines[n - 1]);
      at := DataSnoc(LinesRead(lines, n - 1).dataLines, lines, n - 1, at, p);
    }
  }

  ghost predicate NoEvent(lines: seq<string>, from: nat, n: nat)
    requires n <= |lines|
  {
    forall j :: from <= j < n ==> !("event:" <= lines[j])
  }

  /** The event of a frame is that of its last event line, trimmed, or "message" without one. */
  lemma {:induction false} FrameEvent(lines: seq<string>, n: nat) returns (k: Option<nat>)
    requires n <= |lines|
    ensures match k
            case None => NoEvent(lines, 0, n) && LinesRead(lines, n).event == "message"
            case Some(j) => j < n && "event:" <= lines[j] && NoEvent(lines, j + 1, n)
                            && LinesRead(lines, n).event == Trim(lines[j][6..])
  {
    k := None;
    if n > 0 {
      LineRead(lines, n - 1);
      DataStep(LinesRead(lines, n - 1), lines[n - 1]);
      if "event:" <= lines[n - 1] { k := Some(n - 1); } else { k := FrameEvent(lines, n - 1); }
    }
  }

  /** A frame without a payload line says nothing, any other its event and its payload lines joined. */
  lemma FrameSays(frame: string)
    ensures var lines := Lines(frame); var read := LinesRead(lines, |lines|);
      && (Dispatch(frame).None? <==> forall j :: 0 <= j < |lines| ==> !("data:" <= lines[j]))
      && (Dispatch(frame).Some? ==> Dispatch(frame).value == Message(read.event, JoinLines(read.dataLines)))
  {
    var lines := Lines(frame);
    var read := LinesRead(lines, |lines|);
    assert lines[..|lines|] == lines;
    assert Dispatch(frame)
        == if read.dataLines == [] then None else Some(Message(read.event, JoinLines(read.dataLines)));
    SomeData(lines);
  }

  lemma SomeData(lines: seq<string>)
    ensures LinesRead(lines, |lines|).dataLines == [] <==> forall j :: 0 <= j < |lines| ==> !("data:" <= lines[j])
  {
    var p := (j: nat) => j < |lines| && "data:" <= lines[j];
    var at := FrameData(lines, |lines|, p);
    if j: nat :| j < |lines| && "data:" <= lines[j] {
      assert p(j);
      assert j in at;
    }
    if at != [] {
      assert at[0] in at;
      assert p(at[0]);
    }
  }

  method DispatchFrame(frame: string) returns (m: Option<Message>)
    ensures m == Dispatch(frame)
  {
    var event, dataLines := "message", [];
    var lines := Lines(frame);
    for i := 0 to |lines|
      invariant Parsed(event, dataLines) == ParseLines(Parsed("message", []), lines[..i])
    {
      PrefixSnoc(lines, i);
      var line := lines[i];
      if StartsWith(line, EVENT) {
        event := Trim(line[|EVENT|..]);
      } else if StartsWith(line, DATA) {
        dataLines := dataLines + [TrimStart(line[|DATA|..])];
      }
    }
    assert lines[..|lines|] == lines;
    if |dataLines| == 0 { return None; }
    m := Some(Message(event, JoinLines(dataLines)));
  }

  lemma SpaceInFront(s: string)
    ensures TrimStart([' '] + s) == TrimStart(s)
  {
    assert ([' '] + s)[1..] == s;
  }

  /** Printing and dispatching one message trims its event name and the front of its payload. */
  lemma DispatchOfPrinted(m: Message)
    requires OneLine(m.event) && OneLine(m.data)
    ensures Dispatch(FrameText(m)) == Some(Message(Trim(m.event), TrimStart(m.data)))
  {
    var a, b := EventLine(m), DataLine(m);
    LinesCons(a, b);
    LinesOfOneLine(b);
    var p := Parsed("message", []);
    assert a[..|EVENT|] == EVENT && a[|EVENT|..] == [' '] + m.event;
    assert b[..|DATA|] == DATA && b[|DATA|..] == [' '] + m.data && !StartsWith(b, EVENT);
    SpaceInFront(m.event);
    SpaceInFront(m.data);
    TwoLines(p, a, b);
  }

  lemma TwoLines(p: Parsed, a: string, b: string)
    ensures ParseLines(p, [a] + [b]) == ParseLine(ParseLine(p, a), b)
  {
    var ls := [a] + [b];
    assert ls[..1] == [a] && ls[1] == b && [a][..0] == [];
    assert ParseLines(p, [a]) == ParseLine(ParseLines(p, []), a);
  }

  // ---- cutting frames out of a text --------------------------------------------------------

  predicate SeparatorAt(s: string, i: int) { 0 <= i && i + 2 <= |s| && s[i] == '\n' && s[i + 1] == '\n' }

  /** `buffer.indexOf('\n\n')` */
  function FirstSeparator(s: string): (r: Option<nat>)
    ensures r.Some? ==> SeparatorAt(s, r.value) && forall j :: 0 <= j < r.value ==> !SeparatorAt(s, j)
    ensures r.None? ==> forall j :: !SeparatorAt(s, j)
  {
    if |s| < 2 then None
    else if SeparatorAt(s, 0) then Some(0)
    else
      var r := FirstSeparator(s[1..]);
      assert forall j :: j > 0 ==> (SeparatorAt(s, j) <==> SeparatorAt(s[1..], j - 1));
      if r.None? then None else Some(r.value + 1)
  }

  datatype Cut = Cut(frames: seq<string>, rest: string)

  function CutFrames(s: string): (c: Cut)
    decreases |s|
  {
    var i := FirstSeparator(s);
    if i.None? then Cut([], s)
    else
      var c := CutFrames(s[i.value + 2..]);
      Cut([s[..i.value]] + c.frames, c.rest)
  }

  function Behind(frames: seq<string>, c: Cut): Cut { Cut(frames + c.frames, c.rest) }

  lemma BehindBehind(a: seq<string>, b: seq<string>, c: Cut)
    ensures Behind(a, Behind(b, c)) == Behind(a + b, c) && Behind([], c) == c
  {}

  /** A complete frame in front is cut off whatever follows. */
  lemma CutFirst(s: string, n: nat)
    requires FirstSeparator(s) == Some(n)
    ensures CutFrames(s) == Behind([s[..n]], CutFrames(s[n + 2..]))
  {}

  lemma SeparatorStays(a: string, b: string, n: nat)
    requires FirstSeparator(a) == Some(n)
    ensures FirstSeparator(a + b) == Some(n) && (a + b)[..n] == a[..n] && (a + b)[n + 2..] == a[n + 2..] + b
  {
    forall j | 0 <= j < n ensures !SeparatorAt(a + b, j) { assert !SeparatorAt(a, j); }
    assert SeparatorAt(a + b, n);
    FirstSeparatorIs(a + b, n);
  }

  /** Cutting what has arrived and later the remainder with what follows is cutting it all at once. */
  lemma {:induction false} CutInPieces(a: string, b: string)
    ensures CutFrames(a + b) == Behind(CutFrames(a).frames, CutFrames(CutFrames(a).rest + b))
    decreases |a|
  {
    var i := FirstSeparator(a);
    if i.None? {
      BehindBehind([], [], CutFrames(a + b));
    } else {
      CutInPieces(a[i.value + 2..], b);
      PieceStep(a, b, i.value);
    }
  }

  lemma PieceStep(a: string, b: string, n: nat)
    requires FirstSeparator(a) == Some(n)
    requires var t := a[n + 2..]; CutFrames(t + b) == Behind(CutFrames(t).frames, CutFrames(CutFrames(t).rest + b))
    ensures CutFrames(a + b) == Behind(CutFrames(a).frames, CutFrames(CutFrames(a).rest + b))
  {
    var t := a[n + 2..];
    SeparatorStays(a, b, n);
    CutFirst(a, n);
    CutFirst(a + b, n);
    BehindBehind([a[..n]], CutFrames(t).frames, CutFrames(CutFrames(t).rest + b));
  }

  lemma FirstSeparatorIs(s: string, i: nat)
    requires SeparatorAt(s, i) && forall j :: 0 <= j < i ==> !SeparatorAt(s, j)
    ensures FirstSeparator(s) == Some(i)
  {}

  // ---- the reader ------------------------------------------------------------------------------

  /** `frame.trim()` is not empty. */
  predicate NotBlank(s: string) { Trim(s) != [] }

  /** What the handlers have been given, and whether the stream was aborted. */
  datatype Delivery = Delivery(log: seq<Message>, aborted: bool)

  /** `stop` tells, after each delivered message, whether its handler aborts. */
  type Stop = seq<Message> -> bool

  function DeliverFrame(d: Delivery, frame: string, stop: Stop): Delivery
  {
    if d.aborted || !NotBlank(frame) then d
    else
      match Dispatch(frame)
      case None => d
      case Some(m) => Delivery(d.log + [m], stop(d.log + [m]))
  }

  function Deliver(d: Delivery, frames: seq<string>, stop: Stop): Delivery
    decreases |frames|
  {
    if frames == [] then d else Deliver(DeliverFrame(d, frames[0], stop), frames[1..], stop)
  }

  /** What a whole text delivers: its frames, then the remainder as a last frame. */
  function Received(text: string, stop: Stop): Delivery
  {
    var c := CutFrames(text);
    Deliver(Delivery([], false), c.frames + [c.rest], stop)
  }

  lemma {:induction false} DeliverConcat(d: Delivery, a: seq<string>, b: seq<string>, stop: Stop)
    ensures Deliver(d, a + b, stop) == Deliver(Deliver(d, a, stop), b, stop)
    decreases |a|
  {
    if a == [] {
      assert a + b == b;
    } else {
      assert (a + b)[1..] == a[1..] + b;
      DeliverConcat(DeliverFrame(d, a[0], stop), a[1..], b, stop);
    }
  }

  lemma {:induction false} NothingAfterAbort(d: Delivery, frames: seq<string>, stop: Stop)
    requires d.aborted
    ensures Deliver(d, frames, stop) == d
    decreases |frames|
  {
    if frames != [] { NothingAfterAbort(d, frames[1..], stop); }
  }

  function Concat(chunks: seq<string>): string
  {
    if chunks == [] then [] else Concat(chunks[..|chunks| - 1]) + chunks[|chunks| - 1]
  }

  const START := Delivery([], false)

  /**
   * Whether the caller cancels: 0 stands for the time before the first read, k + 1 for the
   * time in which read k is awaited, the read that finds the end of the stream included.
   */
  type Cancelled = nat -> bool

  ghost predicate NoneCancelled(cancelled: Cancelled, n: nat)
  {
    forall k: nat :: k < n ==> !cancelled(k)
  }

  function FirstCancelled(cancelled: Cancelled, from: nat, until: nat): (c: nat)
    requires from <= until
    ensures from <= c <= until && (c < until ==> cancelled(c)) && forall k: nat :: from <= k < c ==> !cancelled(k)
    decreases until - from
  {
    if from == until || cancelled(from) then from else FirstCancelled(cancelled, from + 1, until)
  }

  /** What the handlers are given of a stream: of a cancelled one, the frames of the reads before. */
  function ReceivedUntil(chunks: seq<string>, cancelled: Cancelled, stop: Stop): Delivery
  {
    var c := FirstCancelled(cancelled, 0, |chunks| + 2);
    if c == |chunks| + 2 then Received(Concat(chunks), stop)
    else
      var heard := chunks[..if c == 0 then 0 else c - 1];
      Delivery(Deliver(START, CutFrames(Concat(heard)).frames, stop).log, true)
  }

  class SseReader {
    var buffer: string
    var log: seq<Message>
    var aborted: bool
    const stop: Stop

    constructor (stop: Stop)
      ensures this.stop == stop && buffer == [] && log == [] && !aborted
    {
      this.stop, buffer, log, aborted := stop, [], [], false;
    }

    function View(): Delivery
      reads this
    {
      Delivery(log, aborted)
    }

    method Handle(frame: string)
      requires !aborted
      modifies this`log, this`aborted
      ensures View() == if NotBlank(frame) && Dispatch(frame).Some?
                        then DeliverFrame(old(View()), frame, stop) else old(View())
    {
      if NotBlank(frame) {
        var m := DispatchFrame(frame);
        if m.Some? {
          log := log + [m.value];
          aborted := stop(log);
        }
      }
    }

    /** One network chunk: complete frames are cut off and dispatched, the rest is kept. */
    method Feed(chunk: string)
      requires !aborted
      modifies this
      ensures View() == Deliver(old(View()), CutFrames(old(buffer) + chunk).frames, stop)
      ensures !aborted ==> buffer == CutFrames(old(buffer) + chunk).rest
    {
      buffer := buffer + chunk;
      ghost var whole := CutFrames(buffer);
      while !aborted && FirstSeparator(buffer).Some?
        invariant Deliver(View(), CutFrames(buffer).frames, stop) == Deliver(old(View()), whole.frames, stop)
        invariant CutFrames(buffer).rest == whole.rest
        decreases |buffer|
      {
        var sep := FirstSeparator(buffer).value;
        var frame := buffer[..sep];
        ghost var before := CutFrames(buffer);
        buffer := buffer[sep + 2..];
        assert before.frames[0] == frame && before.frames[1..] == CutFrames(buffer).frames;
        Handle(frame);
      }
      if aborted { NothingAfterAbort(View(), CutFrames(buffer).frames, stop); }
    }

    /**
     * Reads a whole stream while the caller may cancel at any await. Whatever the chunking, what
     * is delivered depends on the text that came before the cancellation only: exactly its frames
     * in order, up to the first abort of a handler, and its unfinished last frame only when
     * nobody cancelled.
     */
    method ReadAll(chunks: seq<string>, cancelled: Cancelled)
      requires buffer == [] && log == [] && !aborted
      modifies this
      ensures View() == ReceivedUntil(chunks, cancelled, stop)
    {
      aborted := cancelled(0);
      OnTrackAtStart(chunks, cancelled, stop);
      var i := 0;
      while i < |chunks| && !aborted
        invariant 0 <= i <= |chunks| && OnTrack(chunks, cancelled, i, View(), buffer, stop)
      {
        ghost var d, rest := View(), buffer;
        if cancelled(i + 1) {
          // the chunk is kept, but no frame of it is cut off
          aborted, buffer := true, buffer + chunks[i];
          OnTrackCancelled(chunks, cancelled, i, d, rest, stop);
        } else {
          Feed(chunks[i]);
          OnTrackFed(chunks, cancelled, i, d, rest, View(), buffer, stop);
        }
        i := i + 1;
      }
      if !aborted {
        ghost var d := View();
        OnTrackAtEnd(chunks, cancelled, d, buffer, stop);
        aborted := cancelled(|chunks| + 1);
        if !aborted { Handle(buffer); }
      }
    }
  }

  /** The remainder is dispatched as a last frame. */
  lemma LastFrame(d: Delivery, c: Cut, stop: Stop)
    ensures Deliver(d, c.frames + [c.rest], stop) == DeliverFrame(Deliver(d, c.frames, stop), c.rest, stop)
  {
    DeliverConcat(d, c.frames, [c.rest], stop);
    var e, last := Deliver(d, c.frames, stop), [c.rest];
    assert last[1..] == [];
    assert Deliver(e, last, stop) == Deliver(DeliverFrame(e, c.rest, stop), [], stop);
  }

  lemma FramesOfPieces(a: string, b: string, stop: Stop)
    ensures Deliver(START, CutFrames(a + b).frames, stop)
         == Deliver(Deliver(START, CutFrames(a).frames, stop), CutFrames(CutFrames(a).rest + b).frames, stop)
    ensures CutFrames(a + b).rest == CutFrames(CutFrames(a).rest + b).rest
  {
    CutInPieces(a, b);
    DeliverConcat(START, CutFrames(a).frames, CutFrames(CutFrames(a).rest + b).frames, stop);
  }

  lemma {:induction false} ConcatSplit(chunks: seq<string>, i: nat) returns (more: string)
    requires i <= |chunks|
    ensures Concat(chunks) == Concat(chunks[..i]) + more
    decreases |chunks| - i
  {
    if i == |chunks| {
      assert chunks[..i] == chunks;
      more := [];
    } else {
      more := ConcatSplit(chunks, i + 1);
      PrefixSnoc(chunks, i);
      assert chunks[..i + 1][..i] == chunks[..i];
      more := chunks[i] + more;
    }
  }

  /** Once aborted, whatever text follows cannot change what was delivered. */
  lemma AbortedTextDecides(a: string, b: string, stop: Stop)
    requires Deliver(START, CutFrames(a).frames, stop).aborted
    ensures Deliver(START, CutFrames(a + b).frames, stop) == Deliver(START, CutFrames(a).frames, stop)
    ensures Received(a + b, stop) == Deliver(START, CutFrames(a).frames, stop)
  {
    FramesOfPieces(a, b, stop);
    NothingAfterAbort(Deliver(START, CutFrames(a).frames, stop), CutFrames(CutFrames(a).rest + b).frames, stop);
    LastFrame(START, CutFrames(a + b), stop);
  }

  lemma {:induction false} FirstCancelledIs(cancelled: Cancelled, from: nat, until: nat, c: nat)
    requires from <= c <= until && (forall k: nat :: from <= k < c ==> !cancelled(k)) && (c < until ==> cancelled(c))
    ensures FirstCancelled(cancelled, from, until) == c
    decreases until - from
  {
    if from < c { FirstCancelledIs(cancelled, from + 1, until, c); }
  }

  lemma CancelledIn(chunks: seq<string>, cancelled: Cancelled, i: nat, stop: Stop)
    requires i < |chunks| && NoneCancelled(cancelled, i + 1) && cancelled(i + 1)
    ensures ReceivedUntil(chunks, cancelled, stop)
         == Delivery(Deliver(START, CutFrames(Concat(chunks[..i])).frames, stop).log, true)
  {
    FirstCancelledIs(cancelled, 0, |chunks| + 2, i + 1);
  }

  lemma CancelledAtEnd(chunks: seq<string>, cancelled: Cancelled, stop: Stop)
    requires NoneCancelled(cancelled, |chunks| + 1) && cancelled(|chunks| + 1)
    ensures ReceivedUntil(chunks, cancelled, stop)
         == Delivery(Deliver(START, CutFrames(Concat(chunks)).frames, stop).log, true)
  {
    FirstCancelledIs(cancelled, 0, |chunks| + 2, |chunks| + 1);
    assert chunks[..|chunks|] == chunks;
  }

  lemma NotCancelled(chunks: seq<string>, cancelled: Cancelled, stop: Stop)
    requires NoneCancelled(cancelled, |chunks| + 2)
    ensures ReceivedUntil(chunks, cancelled, stop) == Received(Concat(chunks), stop)
  {
    FirstCancelledIs(cancelled, 0, |chunks| + 2, |chunks| + 2);
  }

  /** A handler aborted: a later cancellation makes no difference. */
  lemma HandlerAborted(chunks: seq<string>, cancelled: Cancelled, i: nat, stop: Stop)
    requires i <= |chunks| && NoneCancelled(cancelled, i + 1)
    requires Deliver(START, CutFrames(Concat(chunks[..i])).frames, stop).aborted
    ensures ReceivedUntil(chunks, cancelled, stop) == Deliver(START, CutFrames(Concat(chunks[..i])).frames, stop)
  {
    var c := FirstCancelled(cancelled, 0, |chunks| + 2);
    if c == |chunks| + 2 {
      AbortedChunksDecide(chunks, i, stop);
    } else {
      assert chunks[..c - 1][..i] == chunks[..i];
      AbortedChunksDecide(chunks[..c - 1], i, stop);
    }
  }

  lemma AbortedChunksDecide(chunks: seq<string>, i: nat, stop: Stop)
    requires i <= |chunks| && Deliver(START, CutFrames(Concat(chunks[..i])).frames, stop).aborted
    ensures var done := Deliver(START, CutFrames(Concat(chunks[..i])).frames, stop);
      Deliver(START, CutFrames(Concat(chunks)).frames, stop) == done && Received(Concat(chunks), stop) == done
  {
    var more := ConcatSplit(chunks, i);
    AbortedTextDecides(Concat(chunks[..i]), more, stop);
  }

  /** After i reads: the frames that came so far, or all that will be delivered. */
  ghost predicate OnTrack(chunks: seq<string>, cancelled: Cancelled, i: nat, d: Delivery, buffer: string, stop: Stop)
    requires i <= |chunks|
  {
    if d.aborted then d == ReceivedUntil(chunks, cancelled, stop)
    else
      && NoneCancelled(cancelled, i + 1) && buffer == CutFrames(Concat(chunks[..i])).rest
      && d == Deliver(START, CutFrames(Concat(chunks[..i])).frames, stop)
  }

  lemma OnTrackAtStart(chunks: seq<string>, cancelled: Cancelled, stop: Stop)
    ensures OnTrack(chunks, cancelled, 0, Delivery([], cancelled(0)), [], stop)
  {
    if cancelled(0) { FirstCancelledIs(cancelled, 0, |chunks| + 2, 0); }
  }

  lemma OnTrackCancelled(
      chunks: seq<string>, cancelled: Cancelled, i: nat, d: Delivery, buffer: string, stop: Stop)
    requires i < |chunks| && OnTrack(chunks, cancelled, i, d, buffer, stop) && !d.aborted && cancelled(i + 1)
    ensures OnTrack(chunks, cancelled, i + 1, Delivery(d.log, true), buffer + chunks[i], stop)
  {
    CancelledIn(chunks, cancelled, i, stop);
  }

  lemma OnTrackFed(
      chunks: seq<string>, cancelled: Cancelled, i: nat, d: Delivery, buffer: string, e: Delivery, rest: string,
      stop: Stop)
    requires i < |chunks| && OnTrack(chunks, cancelled, i, d, buffer, stop) && !d.aborted && !cancelled(i + 1)
    requires e == Deliver(d, CutFrames(buffer + chunks[i]).frames, stop)
    requires !e.aborted ==> rest == CutFrames(buffer + chunks[i]).rest
    ensures OnTrack(chunks, cancelled, i + 1, e, rest, stop)
  {
    FramesOfPieces(Concat(chunks[..i]), chunks[i], stop);
    PrefixSnoc(chunks, i);
    assert chunks[..i + 1][..i] == chunks[..i];
    if e.aborted { HandlerAborted(chunks, cancelled, i + 1, stop); }
  }

  /** The read that finds the end: cancelled or not, what is left to do gives what is received. */
  lemma OnTrackAtEnd(chunks: seq<string>, cancelled: Cancelled, d: Delivery, buffer: string, stop: Stop)
    requires OnTrack(chunks, cancelled, |chunks|, d, buffer, stop) && !d.aborted
    ensures ReceivedUntil(chunks, cancelled, stop)
         == if cancelled(|chunks| + 1) then Delivery(d.log, true) else DeliverFrame(d, buffer, stop)
  {
    assert chunks[..|chunks|] == chunks;
    if cancelled(|chunks| + 1) {
      CancelledAtEnd(chunks, cancelled, stop);
    } else {
      NotCancelled(chunks, cancelled, stop);
      LastFrame(START, CutFrames(Concat(chunks)), stop);
    }
  }

  /** Who cancels hears a prefix of what the whole text would have delivered. */
  lemma CancelHearsPrefix(chunks: seq<string>, cancelled: Cancelled, stop: Stop)
    ensures ReceivedUntil(chunks, cancelled, stop).log <= Received(Concat(chunks), stop).log
  {
    var c := FirstCancelled(cancelled, 0, |chunks| + 2);
    if c < |chunks| + 2 {
      var n := if c == 0 then 0 else c - 1;
      var more := ConcatSplit(chunks, n);
      var a := Concat(chunks[..n]);
      FramesOfPieces(a, more, stop);
      LastFrame(START, CutFrames(a + more), stop);
      LogGrows(Deliver(START, CutFrames(a).frames, stop), CutFrames(CutFrames(a).rest + more).frames, stop);
    }
  }

  lemma {:induction false} LogGrows(d: Delivery, frames: seq<string>, stop: Stop)
    ensures d.log <= Deliver(d, frames, stop).log
    decreases |frames|
  {
    if frames != [] { LogGrows(DeliverFrame(d, frames[0], stop), frames[1..], stop); }
  }

  /** Nothing after the cancelled await matters: what the reads bring from then on is not heard. */
  lemma NothingAfterCancel(xs: seq<string>, ys: seq<string>, cancelled: Cancelled, c: nat, stop: Stop)
    requires NoneCancelled(cancelled, c) && cancelled(c) && c <= |xs| + 1 && c <= |ys| + 1
    requires forall i :: 0 <= i < c - 1 ==> xs[i] == ys[i]
    ensures ReceivedUntil(xs, cancelled, stop) == ReceivedUntil(ys, cancelled, stop)
    ensures ReceivedUntil(xs, cancelled, stop).aborted
  {
    FirstCancelledIs(cancelled, 0, |xs| + 2, c);
    FirstCancelledIs(cancelled, 0, |ys| + 2, c);
    if c > 0 { assert xs[..c - 1] == ys[..c - 1]; }
  }

  // ---- round trip ---------------------------------------------------------------------------------

  function PrintAll(ms: seq<Message>): string
  {
    if ms == [] then [] else SseEvent(ms[0]) + PrintAll(ms[1..])
  }

  function FrameTexts(ms: seq<Message>): seq<string>
  {
    if ms == [] then [] else [FrameText(ms[0])] + FrameTexts(ms[1..])
  }

  ghost predicate Printable(m: Message) { OneLine(m.event) && OneLine(m.data) }

  /** The reader's trimming leaves the message alone, as it does for JSON payloads. */
  ghost predicate Trimmed(m: Message) { Trim(m.event) == m.event && TrimStart(m.data) == m.data }

  lemma FrameEndsAtSeparator(m: Message, rest: string)
    requires Printable(m)
    ensures var f := FrameText(m);
            && FirstSeparator(SseEvent(m) + rest) == Some(|f|)
            && (SseEvent(m) + rest)[..|f|] == f && (SseEvent(m) + rest)[|f| + 2..] == rest
  {
    var f := FrameText(m);
    var s := SseEvent(m) + rest;
    var n := |EventLine(m)|;
    assert f[n] == '\n' && f[n + 1] == 'd';
    forall j | 0 <= j < |f| ensures !SeparatorAt(s, j) {
      assert s[j] == f[j];
      if j < n {
        assert f[j] == EventLine(m)[j];
      } else if j > n {
        assert f[j] == DataLine(m)[j - n - 1];
      } else {
        assert s[j + 1] == f[n + 1];
      }
    }
    assert s[|f|] == '\n' && s[|f| + 1] == '\n';
    FirstSeparatorIs(s, |f|);
  }

  lemma {:induction false} CutPrinted(ms: seq<Message>)
    requires forall m :: m in ms ==> Printable(m)
    ensures CutFrames(PrintAll(ms)) == Cut(FrameTexts(ms), [])
  {
    if ms != [] {
      FrameEndsAtSeparator(ms[0], PrintAll(ms[1..]));
      CutFirst(PrintAll(ms), |FrameText(ms[0])|);
      CutPrinted(ms[1..]);
    }
  }

  lemma {:induction false} TrimKeepsFirst(s: string)
    requires s != [] && !IsSpace(s[0])
    ensures TrimEnd(s) != []
    decreases |s|
  {
    if IsSpace(s[|s| - 1]) { TrimKeepsFirst(s[..|s| - 1]); }
  }

  lemma FrameIsNotBlank(m: Message)
    ensures NotBlank(FrameText(m))
  {
    assert FrameText(m)[0] == 'e';
    TrimKeepsFirst(FrameText(m));
  }

  /** Handing over messages one by one until a handler aborts. */
  function Play(d: Delivery, ms: seq<Message>, stop: Stop): Delivery
    decreases |ms|
  {
    if ms == [] || d.aborted then d else Play(Delivery(d.log + [ms[0]], stop(d.log + [ms[0]])), ms[1..], stop)
  }

  /** What the reader makes of a message. */
  function Arrived(m: Message): Message { Message(Trim(m.event), TrimStart(m.data)) }

  function ArrivedAll(ms: seq<Message>): seq<Message>
  {
    seq(|ms|, i requires 0 <= i < |ms| => Arrived(ms[i]))
  }

  lemma DeliverOne(d: Delivery, m: Message, stop: Stop)
    requires Printable(m) && !d.aborted
    ensures DeliverFrame(d, FrameText(m), stop) == Delivery(d.log + [Arrived(m)], stop(d.log + [Arrived(m)]))
  {
    DispatchOfPrinted(m);
    FrameIsNotBlank(m);
  }

  lemma {:induction false} DeliverPrinted(d: Delivery, ms: seq<Message>, stop: Stop)
    requires forall m :: m in ms ==> Printable(m)
    ensures Deliver(d, FrameTexts(ms), stop) == Play(d, ArrivedAll(ms), stop)
    decreases |ms|
  {
    if ms != [] {
      assert ms[0] in ms;
      assert FrameTexts(ms)[1..] == FrameTexts(ms[1..]) && ArrivedAll(ms)[1..] == ArrivedAll(ms[1..]);
      if d.aborted {
        NothingAfterAbort(d, FrameTexts(ms), stop);
      } else {
        DeliverOne(d, ms[0], stop);
        DeliverPrinted(DeliverFrame(d, FrameText(ms[0]), stop), ms[1..], stop);
      }
    }
  }

  /**
   * Round trip: the printed messages are handed over in order, up to the first abort, each with
   * its event trimmed and its payload trimmed in front. Together with `ReadAll` this holds for
   * every way of cutting the text into chunks.
   */
  lemma PrintedIsReceived(ms: seq<Message>, stop: Stop)
    requires forall m :: m in ms ==> Printable(m)
    ensures Received(PrintAll(ms), stop) == Play(START, ArrivedAll(ms), stop)
  {
    CutPrinted(ms);
    DeliverPrinted(START, ms, stop);
    LastFrame(START, Cut(FrameTexts(ms), []), stop);
  }

  /** The messages before the first abort, that one included; all of them when nobody aborts. */
  lemma {:induction false} PlayStopsAtFirstAbort(d: Delivery, ms: seq<Message>, stop: Stop) returns (n: nat)
    requires !d.aborted
    ensures n <= |ms| && Play(d, ms, stop).log == d.log + ms[..n]
    ensures Play(d, ms, stop).aborted <==> n > 0 && stop(d.log + ms[..n])
    ensures !Play(d, ms, stop).aborted ==> n == |ms|
    ensures forall k :: 0 < k < n ==> !stop(d.log + ms[..k])
    decreases |ms|
  {
    if ms == [] {
      n := 0;
      assert d.log + ms[..0] == d.log;
    } else {
      var first := d.log + [ms[0]];
      assert d.log + ms[..1] == first;
      if stop(first) {
        n := 1;
      } else {
        var m := PlayStopsAtFirstAbort(Delivery(first, false), ms[1..], stop);
        n := m + 1;
        assert forall k :: 0 < k <= |ms| ==> d.log + ms[..k] == first + ms[1..][..k - 1];
      }
    }
  }

  lemma ArriveUnchangedIff(ms: seq<Message>)
    ensures ArrivedAll(ms) == ms <==> forall m :: m in ms ==> Trimmed(m)
  {
    forall i | 0 <= i < |ms| ensures ArrivedAll(ms)[i] == ms[i] <==> Trimmed(ms[i]) {}
    if forall m :: m in ms ==> Trimmed(m) {
      forall i | 0 <= i < |ms| ensures ArrivedAll(ms)[i] == ms[i] { assert ms[i] in ms; }
    }
  }

  lemma UnabortedPlaysAll(ms: seq<Message>, stop: Stop)
    requires !Play(START, ms, stop).aborted
    ensures Play(START, ms, stop).log == ms
  {
    var n := PlayStopsAtFirstAbort(START, ms, stop);
    assert ms[..|ms|] == ms;
  }

  /** While nobody aborts, printed messages arrive unchanged exactly when each of them is trimmed. */
  lemma SurviveIffTrimmed(ms: seq<Message>, stop: Stop)
    requires forall m :: m in ms ==> Printable(m)
    requires !Received(PrintAll(ms), stop).aborted
    ensures Received(PrintAll(ms), stop).log == ms <==> forall m :: m in ms ==> Trimmed(m)
  {
    PrintedIsReceived(ms, stop);
    UnabortedPlaysAll(ArrivedAll(ms), stop);
    ArriveUnchangedIff(ms);
  }
}
