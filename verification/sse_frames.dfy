/**
 * The text the hub writes on an event stream, and a reader that interprets that
 * text the way a browser's EventSource does (the "Interpreting an event stream"
 * section of the server-sent events chapter of the HTML Living Standard). The
 * reader is the partner of the frame builders: every frame the hub writes reads
 * back as exactly the event it was built from, and a heartbeat reads back as
 * nothing at all.
 */
module SseFrames {

  /** A frame naming an event: `event: <name>`, `data: <data>`, then a blank line. */
  function EventFrame(name: string, data: string): string
  {
    "event: " + name + "\ndata: " + data + "\n\n"
  }

  /** A comment frame: `: <text>`, then a blank line. */
  function CommentFrame(text: string): string
  {
    ": " + text + "\n\n"
  }

  /** Sent once to a new client, carrying the JSON of `{clientId, time}`. */
  function ConnectedFrame(json: string): string
  {
    EventFrame("connected", json)
  }

  /** Sent to every client on a broadcast, carrying the JSON of `{action, url, timestamp}`. */
  function RefreshFrame(json: string): string
  {
    EventFrame("refresh", json)
  }

  /** The keep-alive frame, `: heartbeat` and a blank line. */
  const HeartbeatFrame: string := CommentFrame("heartbeat")

  /** Text that stays on one line: no line feed and no carriage return (JSON text never holds either raw). */
  predicate OneLine(s: string)
  {
    forall i | 0 <= i < |s| :: s[i] != '\n' && s[i] != '\r'
  }

  // ---------------------------------------------------------------------------
  // The reading side.

  /** An event as an EventSource dispatches it: its type and its data. */
  datatype Event = Event(name: string, data: string)

  /** The reader's buffers: the event type and the data read since the last dispatch. */
  datatype Buffers = Buffers(eventType: string, data: string)

  /** The buffers plus the characters of the line being read. */
  datatype Reader = Reader(buffers: Buffers, line: string)

  datatype Read = Read(reader: Reader, events: seq<Event>)

  const Cleared: Buffers := Buffers("", "")

  /** A reader that has read nothing, or only whole frames. */
  const Fresh: Reader := Reader(Cleared, "")

  /** The position of the first colon in `s`, or `|s|` when it has none. */
  function ColonAt(s: string): (n: nat)
    ensures n <= |s|
  {
    if s == [] || s[0] == ':' then 0 else 1 + ColonAt(s[1..])
  }

  /** A field's value: what follows the colon, less one leading space. */
  function FieldValue(rest: string): string
  {
    if rest != [] && rest[0] == ' ' then rest[1..] else rest
  }

  /** A blank line dispatches the buffered event, if any data was buffered, and clears the buffers. */
  function Dispatch(b: Buffers): Read
  {
    if b.data == [] then Read(Reader(Cleared, ""), [])
    else
      var name := if b.eventType == [] then "message" else b.eventType;
      Read(Reader(Cleared, ""), [Event(name, b.data[..|b.data| - 1])])
  }

  /** The effect of one complete line (without its line feed) on the buffers. */
  function ReadLine(b: Buffers, line: string): Read
  {
    if line == [] then Dispatch(b)
    else if line[0] == ':' then Read(Reader(b, ""), [])
    else
      var c := ColonAt(line);
      var field := line[..c];
      var value := if c < |line| then FieldValue(line[c + 1..]) else "";
      if field == "event" then Read(Reader(Buffers(value, b.data), ""), [])
      else if field == "data" then Read(Reader(Buffers(b.eventType, b.data + value + "\n"), ""), [])
      else Read(Reader(b, ""), [])
  }

  /** Reads one character: a line feed ends the line, anything else extends it. */
  function Step(r: Reader, ch: char): Read
  {
    if ch == '\n' then ReadLine(r.buffers, r.line)
    else Read(Reader(r.buffers, r.line + [ch]), [])
  }

  /** Reads `s` character by character, collecting the events dispatched. */
  function Feed(r: Reader, s: string): Read
    decreases |s|
  {
    if s == [] then Read(r, [])
    else
      var first := Step(r, s[0]);
      var rest := Feed(first.reader, s[1..]);
      Read(rest.reader, first.events + rest.events)
  }

  /** The events a fresh reader dispatches on reading `stream`. */
  function Decode(stream: string): seq<Event>
  {
    Feed(Fresh, stream).events
  }

  /** Reading `a + b` is reading `a` and then, from where that left off, `b`. */
  lemma {:induction false} FeedAppend(r: Reader, a: string, b: string)
    ensures var ra := Feed(r, a);
      var rb := Feed(ra.reader, b);
      Feed(r, a + b) == Read(rb.reader, ra.events + rb.events)
    decreases |a|
  {
    SplitFirst(a, b);
    if a != [] {
      var first := Step(r, a[0]);
      FeedAppend(first.reader, a[1..], b);
      var ra' := Feed(first.reader, a[1..]);
      Associates(first.events, ra'.events, Feed(ra'.reader, b).events);
    }
  }

  /**
   * How the first character and the rest of `a + b` relate to those of `a`.
   * A solver aid for `FeedAppend`, not a property of the reader.
   */
  lemma SplitFirst(a: string, b: string)
    ensures a == [] ==> a + b == b
    ensures a != [] ==> (a + b)[0] == a[0] && (a + b)[1..] == a[1..] + b
  {
    if a == [] {
      assert a + b == b;
    } else {
      assert (a + b)[1..] == a[1..] + b;
    }
  }

  /** Concatenation of event lists is associative. A solver aid for `FeedAppend`. */
  lemma Associates(x: seq<Event>, y: seq<Event>, z: seq<Event>)
    ensures x + (y + z) == (x + y) + z
  {
  }

  /** A first character other than a line feed joins the current line and dispatches nothing. */
  lemma FeedExtends(r: Reader, s: string)
    requires s != [] && s[0] != '\n'
    ensures Feed(r, s) == Feed(Reader(r.buffers, r.line + [s[0]]), s[1..])
  {
    assert Step(r, s[0]) == Read(Reader(r.buffers, r.line + [s[0]]), []);
  }

  /**
   * Moving the first character of `s` to the end of `l` keeps the text and does not
   * add a line feed. A solver aid for `FeedWithinLine`, not a property of the reader.
   */
  lemma MoveFirst(l: string, s: string)
    requires s != []
    ensures (l + [s[0]]) + s[1..] == l + s
    ensures '\n' in s[1..] ==> '\n' in s
  {
    assert s == [s[0]] + s[1..];
  }

  /** Characters other than a line feed only extend the current line. */
  lemma {:induction false} FeedWithinLine(r: Reader, s: string)
    requires '\n' !in s
    ensures Feed(r, s) == Read(Reader(r.buffers, r.line + s), [])
    decreases |s|
  {
    if s != [] {
      FeedExtends(r, s);
      MoveFirst(r.line, s);
      FeedWithinLine(Reader(r.buffers, r.line + [s[0]]), s[1..]);
    }
  }

  /** A whole line, read from the start of a line, acts as `ReadLine`. */
  lemma FeedLine(b: Buffers, line: string)
    requires '\n' !in line
    ensures Feed(Reader(b, ""), line + "\n") == ReadLine(b, line)
  {
    FeedAppend(Reader(b, ""), line, "\n");
    FeedWithinLine(Reader(b, ""), line);
    assert "" + line == line;
  }

  /** In `name + ":" + rest`, the first colon is the one after `name` when `name` has none. */
  lemma {:induction false} ColonAfter(name: string, rest: string)
    requires forall i | 0 <= i < |name| :: name[i] != ':'
    ensures ColonAt(name + ":" + rest) == |name|
    decreases |name|
  {
    if name != [] {
      assert (name + ":" + rest)[1..] == name[1..] + ":" + rest;
      ColonAfter(name[1..], rest);
    }
  }

  /** The line `<field>: <value>`, read whole, names `field` and carries `value`. */
  lemma FieldLine(b: Buffers, field: string, value: string)
    requires field != []
    requires forall i | 0 <= i < |field| :: field[i] != ':' && field[i] != '\n'
    requires OneLine(value)
    ensures var line := field + ": " + value;
      var c := ColonAt(line);
      && Feed(Reader(b, ""), line + "\n") == ReadLine(b, line)
      && line != [] && line[0] != ':'
      && c < |line| && line[..c] == field && FieldValue(line[c + 1..]) == value
  {
    var line := field + ": " + value;
    assert line == field + ":" + (" " + value);
    ColonAfter(field, " " + value);
    assert line[..|field|] == field;
    assert line[|field| + 1..] == " " + value;
    assert forall i | 0 <= i < |line| :: line[i] != '\n' by {
      forall i | 0 <= i < |line| ensures line[i] != '\n' {
        if i >= |field| + 2 {
          assert line[i] == value[i - |field| - 2];
        }
      }
    }
    FeedLine(b, line);
  }

  /** An `event:` line sets the event-type buffer and nothing else. */
  lemma EventLine(b: Buffers, name: string)
    requires OneLine(name)
    ensures Feed(Reader(b, ""), "event: " + name + "\n") == Read(Reader(Buffers(name, b.data), ""), [])
  {
    FieldLine(b, "event", name);
    var line := "event: " + name;
    assert line == "event" + ": " + name;
    var c := ColonAt(line);
    assert line[..c] == "event" && c < |line| && FieldValue(line[c + 1..]) == name;
    assert ReadLine(b, line) == Read(Reader(Buffers(name, b.data), ""), []);
  }

  /** A `data:` line appends its value and a line feed to the data buffer and does nothing else. */
  lemma DataLine(b: Buffers, data: string)
    requires OneLine(data)
    ensures Feed(Reader(b, ""), "data: " + data + "\n") == Read(Reader(Buffers(b.eventType, b.data + data + "\n"), ""), [])
  {
    FieldLine(b, "data", data);
    var line := "data: " + data;
    assert line == "data" + ": " + data;
    var c := ColonAt(line);
    assert line[..c] == "data" && c < |line| && FieldValue(line[c + 1..]) == data;
    assert "data" != "event";
    assert ReadLine(b, line) == Read(Reader(Buffers(b.eventType, b.data + data + "\n"), ""), []);
  }

  /**
   * An event frame whose name and data each stay on one line reads back, from a
   * fresh reader, as exactly that event, and leaves the reader fresh.
   */
  lemma EventFrameReadsBack(name: string, data: string)
    requires name != [] && OneLine(name) && OneLine(data)
    ensures Feed(Fresh, EventFrame(name, data)) == Read(Fresh, [Event(name, data)])
  {
    var l1, l2 := "event: " + name + "\n", "data: " + data + "\n";
    assert EventFrame(name, data) == l1 + l2 + "\n";
    EventLine(Cleared, name);
    DataLine(Buffers(name, ""), data);
    assert "" + data + "\n" == data + "\n";
    FeedAppend(Fresh, l1, l2);
    var b := Buffers(name, data + "\n");
    FeedAppend(Fresh, l1 + l2, "\n");
    assert Feed(Reader(b, ""), "\n") == Dispatch(b);
    assert b.data[..|b.data| - 1] == data;
  }

  /** A comment frame reads back as nothing and leaves the reader fresh. */
  lemma CommentFrameReadsAsNothing(text: string)
    requires OneLine(text)
    ensures Feed(Fresh, CommentFrame(text)) == Read(Fresh, [])
  {
    var l := ": " + text;
    assert CommentFrame(text) == (l + "\n") + "\n";
    FeedAppend(Fresh, l + "\n", "\n");
    FeedLine(Cleared, l);
    assert Feed(Fresh, "\n") == Dispatch(Cleared);
  }

  /** The heartbeat is ignored by a conforming reader. */
  lemma HeartbeatReadsAsNothing()
    ensures Decode(HeartbeatFrame) == []
    ensures Feed(Fresh, HeartbeatFrame).reader == Fresh
  {
    CommentFrameReadsAsNothing("heartbeat");
  }

  /** The connected and refresh frames read back as their events, payload intact. */
  lemma HubFramesReadBack(json: string)
    requires OneLine(json)
    ensures Decode(ConnectedFrame(json)) == [Event("connected", json)]
    ensures Decode(RefreshFrame(json)) == [Event("refresh", json)]
  {
    EventFrameReadsBack("connected", json);
    EventFrameReadsBack("refresh", json);
  }

  // ---------------------------------------------------------------------------
  // Whole streams.

  /** A frame as the hub writes it. */
  datatype Frame = Named(name: string, data: string) | Comment(text: string)
  {
    function Text(): string
    {
      match this
      case Named(name, data) => EventFrame(name, data)
      case Comment(text) => CommentFrame(text)
    }

    predicate WellFormed()
    {
      match this
      case Named(name, data) => name != [] && OneLine(name) && OneLine(data)
      case Comment(text) => OneLine(text)
    }
  }

  /** The text of a sequence of frames written one after another. */
  function Stream(frames: seq<Frame>): string
  {
    if frames == [] then "" else Stream(frames[..|frames| - 1]) + frames[|frames| - 1].Text()
  }

  /** The events that the named frames carry, in order; comments carry none. */
  function EventsOf(frames: seq<Frame>): seq<Event>
  {
    if frames == [] then []
    else
      var last := frames[|frames| - 1];
      EventsOf(frames[..|frames| - 1]) + (if last.Named? then [Event(last.name, last.data)] else [])
  }

  /**
   * Any sequence of well-formed frames reads back as the events of its named frames,
   * in the order written, with every comment dropped.
   */
  lemma {:induction false} StreamReadsBack(frames: seq<Frame>)
    requires forall i | 0 <= i < |frames| :: frames[i].WellFormed()
    ensures Feed(Fresh, Stream(frames)) == Read(Fresh, EventsOf(frames))
    decreases |frames|
  {
    if frames != [] {
      var init, last := frames[..|frames| - 1], frames[|frames| - 1];
      StreamReadsBack(init);
      FeedAppend(Fresh, Stream(init), last.Text());
      match last
      case Named(name, data) => EventFrameReadsBack(name, data);
      case Comment(text) => CommentFrameReadsAsNothing(text);
    }
  }
}
