/** The newline frame reader of server.py. */
module Framing {
  import opened Wrappers

  // `_handle_connection`, on a connection that needs no token or has already presented it.

  newtype byte = x: int | 0 <= x < 256

  type Bytes = seq<byte>

  const MAX_FRAME: nat := 512_000
  const READ_SIZE: nat := 65_536
  const NEWLINE: byte := 10

  predicate IsSpace(b: byte) { b == 32 || 9 <= b <= 13 }

  function StripLeft(s: Bytes): (r: Bytes)
    ensures |r| <= |s| && (r == [] || !IsSpace(r[0]))
  {
    if s != [] && IsSpace(s[0]) then StripLeft(s[1..]) else s
  }

  function StripRight(s: Bytes): (r: Bytes)
    ensures r <= s && (r == [] || !IsSpace(r[|r| - 1]))
  {
    if s != [] && IsSpace(s[|s| - 1]) then StripRight(s[..|s| - 1]) else s
  }

  /** `bytes.strip()`. */
  function Strip(s: Bytes): Bytes { StripRight(StripLeft(s)) }

  /** The length of the first line. */
  function LineLength(s: Bytes): (n: nat)
    ensures n <= |s| && (forall i :: 0 <= i < n ==> s[i] != NEWLINE) && (n < |s| ==> s[n] == NEWLINE)
  {
    if s == [] || s[0] == NEWLINE then 0 else 1 + LineLength(s[1..])
  }

  /** What stands at the front of a buffer. */
  datatype Front = TooLong | Unfinished | Blank(tail: Bytes) | Request(line: Bytes, tail: Bytes)

  function Next(s: Bytes): (f: Front)
    ensures f.Blank? || f.Request? ==> |f.tail| < |s|
  {
    var n := LineLength(s);
    if n > MAX_FRAME then TooLong
    else if n == |s| then Unfinished
    else
      var line := Strip(s[..n]);
      if line == [] then Blank(s[n + 1..]) else Request(line, s[n + 1..])
  }

  /** The requests handled, whether the connection is still open, and the unfinished line it holds then. */
  datatype Outcome = Outcome(handled: seq<Bytes>, open: bool, rest: Bytes)

  /** What a whole byte stream amounts to, read at once. `sent` replies have gone out before; the reply
      numbered `drops` cannot be delivered. */
  function Frames(s: Bytes, sent: nat, drops: Option<nat>): Outcome
    decreases |s|
  {
    match Next(s)
    case TooLong => Outcome([], false, [])
    case Unfinished => Outcome([], true, s)
    case Blank(tail) => Frames(tail, sent, drops)
    case Request(line, tail) =>
      if drops == Some(sent) then Outcome([line], false, []) else After([line], Frames(tail, sent + 1, drops))
  }

  function After(handled: seq<Bytes>, more: Outcome): Outcome { more.(handled := handled + more.handled) }

  lemma AfterAfter(a: seq<Bytes>, b: seq<Bytes>, more: Outcome)
    ensures After(a, After(b, more)) == After(a + b, more) && After([], more) == more
  {
  }

  lemma {:induction false} LineLengthAppend(s: Bytes, t: Bytes)
    ensures LineLength(s + t) == if LineLength(s) < |s| then LineLength(s) else |s| + LineLength(t)
  {
    if s == [] {
      assert s + t == t;
    } else if s[0] != NEWLINE {
      assert (s + t)[1..] == s[1..] + t;
      LineLengthAppend(s[1..], t);
    }
  }

  lemma NextAppend(s: Bytes, t: Bytes)
    ensures match Next(s)
            case TooLong => Next(s + t) == TooLong
            case Unfinished => true
            case Blank(tail) => Next(s + t) == Blank(tail + t)
            case Request(line, tail) => Next(s + t) == Request(line, tail + t)
  {
    var n := LineLength(s);
    LineLengthAppend(s, t);
    hide LineLength, Strip;
    if n < |s| {
      assert (s + t)[..n] == s[..n] && (s + t)[n + 1..] == s[n + 1..] + t;
    }
  }

  /** Bytes that arrive later continue where the earlier ones stopped; a closed connection stays closed. */
  lemma {:induction false} FramesAppend(s: Bytes, t: Bytes, sent: nat, drops: Option<nat>)
    ensures var first := Frames(s, sent, drops);
            Frames(s + t, sent, drops) ==
            if first.open then After(first.handled, Frames(first.rest + t, sent + |first.handled|, drops)) else first
    decreases |s|
  {
    NextAppend(s, t);
    hide Next;
    match Next(s) {
      case TooLong =>
      case Unfinished => AfterAfter([], [], Frames(s + t, sent, drops));
      case Blank(tail) => FramesAppend(tail, t, sent, drops);
      case Request(line, tail) =>
        if drops != Some(sent) {
          FramesAppend(tail, t, sent + 1, drops);
          var rest := Frames(tail, sent + 1, drops);
          if rest.open {
            AfterAfter([line], rest.handled, Frames(rest.rest + t, sent + 1 + |rest.handled|, drops));
          }
        }
    }
  }

  /** An open connection holds an unfinished line of bounded length. */
  lemma {:induction false} OpenRest(s: Bytes, sent: nat, drops: Option<nat>)
    ensures Frames(s, sent, drops).open ==> NEWLINE !in Frames(s, sent, drops).rest && |Frames(s, sent, drops).rest| <= MAX_FRAME
    decreases |s|
  {
    match Next(s) {
      case TooLong =>
      case Unfinished =>
      case Blank(tail) => OpenRest(tail, sent, drops);
      case Request(_, tail) => OpenRest(tail, sent + 1, drops);
    }
  }

  // ---------------------------------------------------------------- the reading loop

  /** What one `recv` brings; the end of the list stands for end of file, a socket error or shutdown. */
  datatype Arrival = Idle | Chunk(bytes: Bytes)

  predicate FromSocket(a: Arrival) { a.Chunk? ==> 0 < |a.bytes| <= READ_SIZE }

  function Stream(arrivals: seq<Arrival>): Bytes {
    if arrivals == [] then []
    else Stream(arrivals[..|arrivals| - 1]) + (if arrivals[|arrivals| - 1].Chunk? then arrivals[|arrivals| - 1].bytes else [])
  }

  /** The same connection read by read: each one continues with the line left over from those before. */
  function ReadByRead(arrivals: seq<Arrival>, drops: Option<nat>): Outcome {
    if arrivals == [] then Outcome([], true, [])
    else
      var before, last := ReadByRead(arrivals[..|arrivals| - 1], drops), arrivals[|arrivals| - 1];
      if last.Idle? || !before.open then before
      else After(before.handled, Frames(before.rest + last.bytes, |before.handled|, drops))
  }

  /** How a stream is cut into reads, and where reads time out, makes no difference: what is handled, what is
      left over and whether the connection is open follow from the concatenated bytes. */
  lemma {:induction false} ChunkingIndependent(arrivals: seq<Arrival>, drops: Option<nat>)
    ensures ReadByRead(arrivals, drops) == Frames(Stream(arrivals), 0, drops)
  {
    hide *;
    if arrivals == [] {
      NothingRead(drops);
    } else {
      var before, last := arrivals[..|arrivals| - 1], arrivals[|arrivals| - 1];
      LastRead(arrivals, drops);
      ChunkingIndependent(before, drops);
      if last.Chunk? { FramesAppend(Stream(before), last.bytes, 0, drops); }
    }
  }

  lemma NothingRead(drops: Option<nat>)
    ensures ReadByRead([], drops) == Outcome([], true, []) == Frames(Stream([]), 0, drops)
  {
  }

  lemma LastRead(arrivals: seq<Arrival>, drops: Option<nat>)
    requires arrivals != []
    ensures var before, last := ReadByRead(arrivals[..|arrivals| - 1], drops), arrivals[|arrivals| - 1];
            ReadByRead(arrivals, drops) ==
            if last.Idle? || !before.open then before
            else After(before.handled, Frames(before.rest + last.bytes, |before.handled|, drops))
    ensures var before, last := Stream(arrivals[..|arrivals| - 1]), arrivals[|arrivals| - 1];
            Stream(arrivals) == if last.Chunk? then before + last.bytes else before
  {
  }

  lemma {:induction false} ClosedStays(arrivals: seq<Arrival>, k: nat, drops: Option<nat>)
    requires k <= |arrivals| && !ReadByRead(arrivals[..k], drops).open
    ensures ReadByRead(arrivals, drops) == ReadByRead(arrivals[..k], drops)
  {
    if k == |arrivals| {
      assert arrivals[..k] == arrivals;
    } else {
      assert arrivals[..|arrivals| - 1][..k] == arrivals[..k];
      ClosedStays(arrivals[..|arrivals| - 1], k, drops);
    }
  }

  /** `_handle_connection`. `peak` is the largest size the buffer ever has. */
  method HandleConnection(arrivals: seq<Arrival>, drops: Option<nat>)
    returns (handled: seq<Bytes>, open: bool, buffer: Bytes, peak: nat)
    requires forall i :: 0 <= i < |arrivals| ==> FromSocket(arrivals[i])
    ensures Outcome(handled, open, if open then buffer else []) == Frames(Stream(arrivals), 0, drops)
    ensures open ==> |buffer| <= MAX_FRAME
    ensures peak <= MAX_FRAME + READ_SIZE
  {
    ChunkingIndependent(arrivals, drops);
    hide Frames;
    handled, buffer, peak := [], [], 0;
    for i := 0 to |arrivals|
      invariant ReadByRead(arrivals[..i], drops) == Outcome(handled, true, buffer)
      invariant |buffer| <= MAX_FRAME && peak <= MAX_FRAME + READ_SIZE
    {
      assert arrivals[..i + 1][..i] == arrivals[..i];
      if arrivals[i].Chunk? {
        buffer := buffer + arrivals[i].bytes;
        if |buffer| > peak { peak := |buffer|; }
        var keep: bool;
        handled, keep, buffer := Consume(handled, buffer, drops);
        if !keep {
          ClosedStays(arrivals, i + 1, drops);
          return handled, false, buffer, peak;
        }
      }
    }
    assert arrivals[..|arrivals|] == arrivals;
    open := true;
  }

  /** The body of the loop after `buf += chunk`. */
  method Consume(before: seq<Bytes>, input: Bytes, drops: Option<nat>)
    returns (handled: seq<Bytes>, keep: bool, buffer: Bytes)
    ensures Outcome(handled, keep, if keep then buffer else []) == After(before, Frames(input, |before|, drops))
    ensures keep ==> |buffer| <= MAX_FRAME
  {
    handled, buffer := before, input;
    hide Frames, After, Strip;
    if NEWLINE !in buffer && |buffer| > MAX_FRAME {
      Turn(handled, buffer, drops);
      return handled, false, buffer;
    }
    while NEWLINE in buffer
      invariant After(before, Frames(input, |before|, drops)) == After(handled, Frames(buffer, |handled|, drops))
      decreases |buffer|
    {
      Turn(handled, buffer, drops);
      var n := LineLength(buffer);
      var line := buffer[..n];
      buffer := buffer[n + 1..];
      if |line| > MAX_FRAME { return handled, false, buffer; }
      line := Strip(line);
      if line == [] { continue; }
      handled := handled + [line];
      if drops == Some(|handled| - 1) { return handled, false, buffer; }
    }
    Turn(handled, buffer, drops);
    assert LineLength(buffer) == |buffer|;
    if |buffer| > MAX_FRAME { return handled, false, buffer; }
    keep := true;
  }

  /** One step through the front of the buffer. */
  function Taken(handled: seq<Bytes>, s: Bytes, drops: Option<nat>): Outcome {
    match Next(s)
    case TooLong => Outcome(handled, false, [])
    case Unfinished => Outcome(handled, true, s)
    case Blank(tail) => After(handled, Frames(tail, |handled|, drops))
    case Request(line, tail) =>
      if drops == Some(|handled|) then Outcome(handled + [line], false, [])
      else After(handled + [line], Frames(tail, |handled| + 1, drops))
  }

  lemma Turn(handled: seq<Bytes>, s: Bytes, drops: Option<nat>)
    ensures After(handled, Frames(s, |handled|, drops)) == Taken(handled, s, drops)
  {
    hide Next;
    match Next(s) {
      case Request(line, tail) => AfterAfter(handled, [line], Frames(tail, |handled| + 1, drops));
      case _ =>
    }
  }

  // ---------------------------------------------------------------- the other direction

  predicate Sendable(line: Bytes) {
    line != [] && NEWLINE !in line && |line| <= MAX_FRAME && !IsSpace(line[0]) && !IsSpace(line[|line| - 1])
  }

  function Encode(lines: seq<Bytes>): Bytes {
    if lines == [] then [] else lines[0] + [NEWLINE] + Encode(lines[1..])
  }

  /** Requests written one per line are handled one by one, whatever unfinished text follows. */
  lemma {:induction false} RoundTrip(lines: seq<Bytes>, rest: Bytes, sent: nat)
    requires (forall i :: 0 <= i < |lines| ==> Sendable(lines[i])) && NEWLINE !in rest && |rest| <= MAX_FRAME
    ensures Frames(Encode(lines) + rest, sent, None) == Outcome(lines, true, rest)
  {
    if lines == [] {
      assert Encode(lines) + rest == rest;
      Leftover(rest, sent);
    } else {
      var line, tail := lines[0], Encode(lines[1..]) + rest;
      EncodeFirst(lines, rest);
      NextLine(line, tail);
      OneRequest(line + [NEWLINE] + tail, line, tail, sent);
      assert [line] + lines[1..] == lines;
      hide *;
      RoundTrip(lines[1..], rest, sent + 1);
      FirstThen(line, lines[1..], rest);
    }
  }

  lemma FirstThen(line: Bytes, later: seq<Bytes>, rest: Bytes)
    ensures After([line], Outcome(later, true, rest)) == Outcome([line] + later, true, rest)
  {
  }

  lemma EncodeFirst(lines: seq<Bytes>, rest: Bytes)
    requires lines != []
    ensures Encode(lines) + rest == lines[0] + [NEWLINE] + (Encode(lines[1..]) + rest)
  {
  }

  lemma Leftover(rest: Bytes, sent: nat)
    requires NEWLINE !in rest && |rest| <= MAX_FRAME
    ensures Frames(rest, sent, None) == Outcome([], true, rest)
  {
    assert LineLength(rest) == |rest|;
    hide LineLength;
  }

  lemma OneRequest(s: Bytes, line: Bytes, tail: Bytes, sent: nat)
    requires Next(s) == Request(line, tail)
    ensures Frames(s, sent, None) == After([line], Frames(tail, sent + 1, None))
  {
    hide Next;
  }

  lemma NextLine(line: Bytes, tail: Bytes)
    requires Sendable(line)
    ensures Next(line + [NEWLINE] + tail) == Request(line, tail)
  {
    LineOf(line, tail);
    assert Strip(line) == line;
    hide Strip, LineLength;
    var s := line + [NEWLINE] + tail;
    assert s[..|line|] == line && s[|line| + 1..] == tail;
  }

  lemma LineOf(line: Bytes, tail: Bytes)
    requires NEWLINE !in line
    ensures LineLength(line + [NEWLINE] + tail) == |line|
  {
    assert LineLength(line) == |line|;
    assert line + [NEWLINE] + tail == line + ([NEWLINE] + tail);
    LineLengthAppend(line, [NEWLINE] + tail);
  }

  // ---------------------------------------------------------------- padded lines

  /** A line as a client may write it: white space around a body that has none at its ends, or no body at all. */
  datatype Line = Line(left: Bytes, body: Bytes, right: Bytes)

  /** Space, tab, vertical tab, form feed and carriage return. */
  predicate Spaces(s: Bytes) { forall i :: 0 <= i < |s| ==> s[i] == 32 || s[i] == 9 || 11 <= s[i] <= 13 }

  predicate Visible(b: byte) { b != 32 && (b < 9 || b > 13) }

  predicate Proper(l: Line) {
    && Spaces(l.left) && Spaces(l.right) && 10 !in l.body && |l.left| + |l.body| + |l.right| <= 512_000
    && (l.body != [] ==> Visible(l.body[0]) && Visible(l.body[|l.body| - 1]))
  }

  function Written(lines: seq<Line>): Bytes {
    if lines == [] then [] else lines[0].left + lines[0].body + lines[0].right + [10] + Written(lines[1..])
  }

  function Bodies(lines: seq<Line>): seq<Bytes> {
    if lines == [] then [] else (if lines[0].body == [] then [] else [lines[0].body]) + Bodies(lines[1..])
  }

  /** Padded lines are handled one by one without their padding, blank ones are skipped, and reading goes on behind them, until
      a reply cannot be delivered: that request is the last one handled. */
  lemma PaddedLines(lines: seq<Line>, more: Bytes, sent: nat, drops: Option<nat>)
    requires forall i :: 0 <= i < |lines| ==> Proper(lines[i])
    ensures var bodies := Bodies(lines);
            Frames(Written(lines) + more, sent, drops) ==
            if drops.Some? && sent <= drops.value < sent + |bodies| then Outcome(bodies[..drops.value - sent + 1], false, [])
            else After(bodies, Frames(more, sent + |bodies|, drops))
  {
    var bodies := Bodies(lines);
    hide *;
    PaddedFrames(lines, more, sent, drops);
    ThroughAll(bodies, more, sent, drops);
  }

  /** One body after the other. */
  function Through(bodies: seq<Bytes>, more: Bytes, sent: nat, drops: Option<nat>): Outcome {
    if bodies == [] then Frames(more, sent, drops)
    else if drops == Some(sent) then Outcome([bodies[0]], false, [])
    else After([bodies[0]], Through(bodies[1..], more, sent + 1, drops))
  }

  lemma {:induction false} ThroughAll(bodies: seq<Bytes>, more: Bytes, sent: nat, drops: Option<nat>)
    ensures Through(bodies, more, sent, drops) ==
            if drops.Some? && sent <= drops.value < sent + |bodies| then Outcome(bodies[..drops.value - sent + 1], false, [])
            else After(bodies, Frames(more, sent + |bodies|, drops))
    decreases |bodies|
  {
    hide Frames;
    if bodies == [] {
      AfterAfter([], [], Frames(more, sent, drops));
    } else {
      var body, later := bodies[0], bodies[1..];
      assert bodies == [body] + later;
      ThroughAll(later, more, sent + 1, drops);
      AfterAfter([body], later, Frames(more, sent + |bodies|, drops));
      if drops.Some? && sent <= drops.value < sent + |bodies| {
        assert bodies[..drops.value - sent + 1] == [body] + later[..drops.value - sent];
      }
    }
  }

  lemma {:induction false} PaddedFrames(lines: seq<Line>, more: Bytes, sent: nat, drops: Option<nat>)
    requires forall i :: 0 <= i < |lines| ==> Proper(lines[i])
    ensures Frames(Written(lines) + more, sent, drops) == Through(Bodies(lines), more, sent, drops)
    decreases |lines|
  {
    if lines == [] {
      assert Written(lines) + more == more;
    } else {
      var l, later := lines[0], lines[1..];
      var tail := Written(later) + more;
      var s := l.left + l.body + l.right + [NEWLINE] + tail;
      assert Written(lines) + more == s;
      NextPadded(l, tail);
      FramesStep(s, l, tail, sent, drops);
      BodiesStep(lines);
      hide Frames, Next, Written, Proper, Bodies;
      PaddedFrames(later, more, if l.body == [] then sent else sent + 1, drops);
    }
  }

  lemma FramesStep(s: Bytes, l: Line, tail: Bytes, sent: nat, drops: Option<nat>)
    requires Next(s) == if l.body == [] then Blank(tail) else Request(l.body, tail)
    ensures Frames(s, sent, drops) ==
            if l.body == [] then Frames(tail, sent, drops)
            else if drops == Some(sent) then Outcome([l.body], false, []) else After([l.body], Frames(tail, sent + 1, drops))
  {
    hide Next;
  }

  lemma BodiesStep(lines: seq<Line>)
    requires lines != []
    ensures if lines[0].body == [] then Bodies(lines) == Bodies(lines[1..])
            else Bodies(lines) != [] && Bodies(lines)[0] == lines[0].body && Bodies(lines)[1..] == Bodies(lines[1..])
  {
  }

  lemma NextPadded(l: Line, tail: Bytes)
    requires Proper(l)
    ensures Next(l.left + l.body + l.right + [NEWLINE] + tail) == if l.body == [] then Blank(tail) else Request(l.body, tail)
  {
    var line := l.left + l.body + l.right;
    StripPadded(l);
    LineOf(line, tail);
    hide Strip, LineLength;
    var s := line + [NEWLINE] + tail;
    assert s[..|line|] == line && s[|line| + 1..] == tail;
  }

  lemma StripPadded(l: Line)
    requires Proper(l)
    ensures Strip(l.left + l.body + l.right) == l.body
  {
    var rest := l.body + l.right;
    assert l.left + l.body + l.right == l.left + rest;
    StripLeftPadded(l.left, rest);
    if l.body == [] {
      assert rest == l.right && l.right + [] == l.right;
      StripLeftPadded(l.right, []);
    } else {
      assert rest[0] == l.body[0];
      StripRightPadded(l.body, l.right);
    }
  }

  lemma {:induction false} StripLeftPadded(pad: Bytes, s: Bytes)
    requires Spaces(pad)
    ensures StripLeft(pad + s) == StripLeft(s)
    decreases |pad|
  {
    if pad == [] {
      assert pad + s == s;
    } else {
      assert (pad + s)[1..] == pad[1..] + s;
      StripLeftPadded(pad[1..], s);
    }
  }

  lemma {:induction false} StripRightPadded(s: Bytes, pad: Bytes)
    requires Spaces(pad)
    ensures StripRight(s + pad) == StripRight(s)
    decreases |pad|
  {
    if pad == [] {
      assert s + pad == s;
    } else {
      assert (s + pad)[..|s + pad| - 1] == s + pad[..|pad| - 1];
      StripRightPadded(s, pad[..|pad| - 1]);
    }
  }

  /** A line over the limit closes the connection, whatever comes behind it; what was written before it has been handled. */
  lemma OversizedCloses(lines: seq<Line>, long: Bytes, more: Bytes, sent: nat)
    requires (forall i :: 0 <= i < |lines| ==> Proper(lines[i])) && 10 !in long && |long| > 512_000
    ensures Frames(Written(lines) + (long + more), sent, None) == Outcome(Bodies(lines), false, [])
  {
    PaddedLines(lines, long + more, sent, None);
    LineLengthAppend(long, more);
    assert LineLength(long) == |long|;
    assert Next(long + more) == TooLong;
    hide LineLength, Next;
  }
}
