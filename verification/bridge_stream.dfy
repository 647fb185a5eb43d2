/** A bridge connection: newline-framed requests, each with one passed file descriptor. */
module BridgeStream {
  import opened Incremental
  import opened Options
  import opened Utf8

  type Bytes = seq<Byte>
  type Fd = nat
  type Instant = int

  const NEWLINE: Byte := 10
  const BRIDGE_MAX_FRAME_BYTES: nat := 4096
  const MAX_QUEUED_FDS: nat := 64
  const STREAM_FRAME_IDLE_TIMEOUT: nat := 30000

  /** The endpoint a stream or a request speaks for. */
  datatype Identity = Identity(canonicalTarget: string, providerKind: string, legacyVmName: Option<string>)

  /** The content of a frame that parsed. */
  datatype Transfer = Transfer(identity: Identity, mimeType: string, sourceId: nat, copySelection: bool)

  /** What one `recvmsg` call returns. */
  datatype Received =
    | Message(bytes: Bytes, fds: seq<Fd>, controlTruncated: bool)
    | WouldBlock
    | Interrupted
    | SocketError

  datatype RecvResult = Request(transfer: Transfer, fd: Fd) | Incomplete | Invalid

  /** Whose stream it is, how frames parse, and which descriptors can be used. */
  datatype Peer = Peer(identity: Identity, parse: Bytes -> Option<Transfer>, usable: Fd -> bool)

  // ----- Lines -----

  function Newlines(s: Bytes): nat {
    if s == [] then 0 else Newlines(s[..|s| - 1]) + if s[|s| - 1] == NEWLINE then 1 else 0
  }

  predicate HasPartial(s: Bytes) {
    s != [] && s[|s| - 1] != NEWLINE
  }

  /** Bytes up to and including the first newline. */
  predicate IsLine(s: Bytes) {
    s != [] && s[|s| - 1] == NEWLINE && NEWLINE !in s[..|s| - 1]
  }

  function Position(s: Bytes): (i: nat)
    requires NEWLINE in s
    ensures i < |s| && s[i] == NEWLINE && NEWLINE !in s[..i]
  {
    if s[0] == NEWLINE then 0
    else
      var i := 1 + Position(s[1..]);
      assert s[..i] == [s[0]] + s[1..][..i - 1];
      i
  }

  function FirstLine(buf: Bytes): (line: Bytes)
    requires NEWLINE in buf
    ensures 0 < |line| <= |buf| && line == buf[..|line|] && IsLine(line)
  {
    var i := Position(buf);
    assert buf[..i + 1][..i] == buf[..i];
    buf[..i + 1]
  }

  /** The complete lines of a byte stream. */
  function SplitLines(s: Bytes): seq<Bytes>
    decreases |s|
  {
    if NEWLINE !in s then [] else [FirstLine(s)] + SplitLines(s[|FirstLine(s)|..])
  }

  /** What follows the last complete line. */
  function Unfinished(s: Bytes): Bytes
    decreases |s|
  {
    if NEWLINE !in s then s else Unfinished(s[|FirstLine(s)|..])
  }

  // ----- The stream, on values -----

  /**
    * Buffer and descriptor queue of a stream, and what has become of what it received: the requests handed on, and the
    * descriptors closed unused. A stream that is not alive is not read again.
    */
  datatype Conn = Conn(
    alive: bool, buf: Bytes, fds: seq<Fd>, requests: seq<(Transfer, Fd)>, got: seq<Fd>, closed: seq<Fd>)

  const OPENED: Conn := Conn(true, [], [], [], [], [])

  /** A line is a request of this peer, and the descriptor can carry it. */
  predicate Acceptable(p: Peer, line: Bytes, fd: Fd) {
    p.parse(line).Some? && p.parse(line).value.identity == p.identity && p.usable(fd)
  }

  /** Take one line off the buffer and pair it with the oldest queued descriptor. */
  function ParseOne(p: Peer, c: Conn): Conn
    requires NEWLINE in c.buf
  {
    var line := FirstLine(c.buf);
    var rest := c.(buf := c.buf[|line|..]);
    if p.parse(line).None? || c.fds == [] then rest.(alive := false)
    else if !Acceptable(p, line, c.fds[0]) then
      rest.(alive := false, fds := c.fds[1..], closed := c.closed + [c.fds[0]])
    else rest.(fds := c.fds[1..], requests := c.requests + [(p.parse(line).value, c.fds[0])])
  }

  predicate FitsQueue(buf: Bytes, fds: seq<Fd>) {
    |buf| <= BRIDGE_MAX_FRAME_BYTES && |fds| <= Newlines(buf) + if HasPartial(buf) then 1 else 0
  }

  /** Queue what one message brought, and check the bounds. */
  function Absorbed(c: Conn, bytes: Bytes, fds: seq<Fd>, controlTruncated: bool): Conn {
    var all := c.fds + fds;
    var queued := c.(fds := all, got := c.got + fds);
    var dropped := queued.(alive := false, fds := [], closed := c.closed + all);
    if |all| > MAX_QUEUED_FDS || controlTruncated then dropped
    else if bytes == [] then queued.(alive := false)
    else if !FitsQueue(c.buf + bytes, all) then dropped.(buf := c.buf + bytes)
    else queued.(buf := c.buf + bytes)
  }

  /** What one parsed line comes to. */
  function ResultOf(after: Conn): RecvResult
    requires after.alive ==> |after.requests| > 0
  {
    if !after.alive then Invalid
    else
      var last := after.requests[|after.requests| - 1];
      Request(last.0, last.1)
  }

  /**
    * Read until a whole line is buffered, then parse it. `script` is what successive `recvmsg` calls return; once it is used
    * up they would block. Also what is left of the script.
    */
  function Recv(p: Peer, c: Conn, script: seq<Received>): (r: (RecvResult, Conn, seq<Received>))
    requires c.alive
    ensures |r.2| <= |script| && (r.1.alive <==> !r.0.Invalid?)
    ensures r.0.Request? ==> |r.2| < |script| || (r.2 == script && |r.1.buf| < |c.buf|)
    decreases |script|
  {
    if NEWLINE in c.buf then
      var after := ParseOne(p, c);
      (ResultOf(after), after, script)
    else if script == [] || script[0].WouldBlock? then (Incomplete, c, script)
    else match script[0]
      case Interrupted => Recv(p, c, script[1..])
      case SocketError => (Invalid, c.(alive := false), script[1..])
      case Message(bytes, fds, controlTruncated) =>
        var after := Absorbed(c, bytes, fds, controlTruncated);
        if after.alive then Recv(p, after, script[1..]) else (Invalid, after, script[1..])
  }

  /** Serve every request that is ready. */
  function Handled(p: Peer, c: Conn, script: seq<Received>): Conn
    requires c.alive
    decreases |script|, |c.buf|
  {
    var (result, after, rest) := Recv(p, c, script);
    if result.Request? then Handled(p, after, rest) else after
  }

  // ----- The stream, updated in place -----

  class Stream {
    const peer: Peer
    var readBuffer: Bytes
    var receivedFds: seq<Fd>
    var frameDeadline: Instant
    ghost var alive: bool
    ghost var requests: seq<(Transfer, Fd)>
    ghost var got: seq<Fd>
    ghost var closed: seq<Fd>

    ghost function Now(): Conn
      reads this
    {
      Conn(alive, readBuffer, receivedFds, requests, got, closed)
    }

    constructor (peer: Peer, now: Instant)
      ensures Now() == OPENED && this.peer == peer && frameDeadline == now + STREAM_FRAME_IDLE_TIMEOUT
    {
      this.peer := peer;
      readBuffer, receivedFds, frameDeadline := [], [], now + STREAM_FRAME_IDLE_TIMEOUT;
      alive, requests, got, closed := true, [], [], [];
    }

    method ParseFrame(now: Instant) returns (result: RecvResult)
      requires alive && NEWLINE in readBuffer
      modifies this
      ensures Now() == ParseOne(peer, old(Now())) && result == ResultOf(Now())
      ensures frameDeadline == if result.Request? then now + STREAM_FRAME_IDLE_TIMEOUT else old(frameDeadline)
    {
      var line := FirstLine(readBuffer);
      readBuffer := readBuffer[|line|..];
      var frame := peer.parse(line);
      if frame.None? || receivedFds == [] {
        alive := false;
        return Invalid;
      }
      var fd := receivedFds[0];
      receivedFds := receivedFds[1..];
      if frame.value.identity != peer.identity || !peer.usable(fd) {
        alive, closed := false, closed + [fd];
        return Invalid;
      }
      frameDeadline := now + STREAM_FRAME_IDLE_TIMEOUT;
      requests := requests + [(frame.value, fd)];
      return Request(frame.value, fd);
    }

    method Absorb(bytes: Bytes, fds: seq<Fd>, controlTruncated: bool) returns (ok: bool)
      requires alive
      modifies this
      ensures Now() == Absorbed(old(Now()), bytes, fds, controlTruncated)
      ensures ok == alive && frameDeadline == old(frameDeadline)
    {
      hide Newlines;
      receivedFds, got := receivedFds + fds, got + fds;
      if |receivedFds| > MAX_QUEUED_FDS || controlTruncated {
        alive, closed, receivedFds := false, closed + receivedFds, [];
        return false;
      }
      if bytes == [] {
        alive := false;
        return false;
      }
      readBuffer := readBuffer + bytes;
      var queuedFrames := Newlines(readBuffer);
      var maxExpectedFds := queuedFrames + if HasPartial(readBuffer) then 1 else 0;
      if |receivedFds| > maxExpectedFds || |readBuffer| > BRIDGE_MAX_FRAME_BYTES {
        alive, closed, receivedFds := false, closed + receivedFds, [];
        return false;
      }
      return true;
    }

    method RecvFrame(script: seq<Received>, now: Instant) returns (result: RecvResult, used: nat)
      requires alive
      modifies this
      ensures used <= |script| && (result, Now(), script[used..]) == Recv(peer, old(Now()), script)
      ensures frameDeadline == if result.Request? then now + STREAM_FRAME_IDLE_TIMEOUT else old(frameDeadline)
    {
      hide ParseOne, Absorbed, ResultOf;
      used := 0;
      while NEWLINE !in readBuffer
        invariant used <= |script| && alive && frameDeadline == old(frameDeadline)
        invariant Recv(peer, Now(), script[used..]) == Recv(peer, old(Now()), script)
        decreases |script| - used
      {
        if used == |script| || script[used].WouldBlock? {
          return Incomplete, used;
        }
        assert script[used..][1..] == script[used + 1..];
        used := used + 1;
        match script[used - 1] {
          case Interrupted =>
          case SocketError =>
            alive := false;
            return Invalid, used;
          case Message(bytes, fds, controlTruncated) =>
            var ok := Absorb(bytes, fds, controlTruncated);
            if !ok {
              return Invalid, used;
            }
        }
      }
      result := ParseFrame(now);
    }

    /** The stream is kept only if it ends on an incomplete frame. `served` are the requests of this call. */
    method Handle(script: seq<Received>, now: Instant) returns (served: seq<(Transfer, Fd)>, keep: bool)
      requires alive
      modifies this
      ensures Now() == Handled(peer, old(Now()), script) && keep == alive
      ensures requests == old(requests) + served
      ensures frameDeadline == if served != [] then now + STREAM_FRAME_IDLE_TIMEOUT else old(frameDeadline)
    {
      hide Recv;
      served := [];
      var pos := 0;
      while true
        invariant pos <= |script| && alive && requests == old(requests) + served
        invariant Handled(peer, Now(), script[pos..]) == Handled(peer, old(Now()), script)
        invariant frameDeadline == if served != [] then now + STREAM_FRAME_IDLE_TIMEOUT else old(frameDeadline)
        decreases |script| - pos, |readBuffer|
      {
        RecvRequests(peer, Now(), script[pos..]);
        var result, used := RecvFrame(script[pos..], now);
        assert script[pos..][used..] == script[pos + used..];
        pos := pos + used;
        match result {
          case Request(transfer, fd) =>
            served := served + [(transfer, fd)];
          case Incomplete =>
            return served, true;
          case Invalid =>
            return served, false;
        }
      }
    }
  }

  lemma {:induction false} RecvRequests(p: Peer, c: Conn, script: seq<Received>)
    requires c.alive
    ensures var r := Recv(p, c, script);
            r.1.requests == if r.0.Request? then c.requests + [(r.0.transfer, r.0.fd)] else c.requests
    decreases |script|
  {
    if NEWLINE !in c.buf && script != [] && !script[0].WouldBlock? {
      match script[0]
      case Interrupted => RecvRequests(p, c, script[1..]);
      case SocketError =>
      case Message(bytes, fds, controlTruncated) =>
        hide FitsQueue;
        var after := Absorbed(c, bytes, fds, controlTruncated);
        if after.alive {
          RecvRequests(p, after, script[1..]);
        }
    }
  }

  // ----- Every call is a fold over what was delivered -----

  function DrainLines(p: Peer, c: Conn): Conn
    decreases |c.buf|
  {
    if !c.alive || NEWLINE !in c.buf then c else DrainLines(p, ParseOne(p, c))
  }

  /** One message, and then every line it completes. */
  function Feed(p: Peer, c: Conn, m: Received): Conn {
    if !c.alive then c
    else match m
      case Message(bytes, fds, controlTruncated) => DrainLines(p, Absorbed(c, bytes, fds, controlTruncated))
      case SocketError => c.(alive := false)
      case _ => c
  }

  function FeedFrom(p: Peer, c: Conn, ms: seq<Received>): Conn {
    if ms == [] then c else Feed(p, FeedFrom(p, c, ms[..|ms| - 1]), ms[|ms| - 1])
  }

  /** What is received before the socket would block. */
  function Delivered(script: seq<Received>): seq<Received> {
    if script == [] || script[0].WouldBlock? then [] else [script[0]] + Delivered(script[1..])
  }

  lemma {:induction false} FeedFirst(p: Peer, c: Conn, m: Received, ms: seq<Received>)
    ensures FeedFrom(p, c, [m] + ms) == FeedFrom(p, Feed(p, c, m), ms)
    decreases |ms|
  {
    hide Feed;
    var all := [m] + ms;
    if ms == [] {
      assert all[..0] == [];
    } else {
      assert all[..|all| - 1] == [m] + ms[..|ms| - 1];
      FeedFirst(p, c, m, ms[..|ms| - 1]);
    }
  }

  lemma {:induction false} FeedConcat(p: Peer, c: Conn, a: seq<Received>, b: seq<Received>)
    ensures FeedFrom(p, c, a + b) == FeedFrom(p, FeedFrom(p, c, a), b)
    decreases |b|
  {
    hide Feed;
    if b == [] {
      assert a + b == a;
    } else {
      assert (a + b)[..|a + b| - 1] == a + b[..|b| - 1];
      FeedConcat(p, c, a, b[..|b| - 1]);
    }
  }

  lemma {:induction false} DeadStays(p: Peer, c: Conn, ms: seq<Received>)
    requires !c.alive
    ensures FeedFrom(p, c, ms) == c
    decreases |ms|
  {
    if ms != [] {
      DeadStays(p, c, ms[..|ms| - 1]);
    }
  }

  lemma {:induction false} HandledIsFold(p: Peer, c: Conn, script: seq<Received>)
    requires c.alive
    ensures Handled(p, c, script) == FeedFrom(p, DrainLines(p, c), Delivered(script))
    decreases |script|, |c.buf|
  {
    hide ParseOne, Absorbed, FeedFrom;
    if NEWLINE in c.buf {
      var after := ParseOne(p, c);
      ParseShortens(p, c);
      assert DrainLines(p, c) == DrainLines(p, after);
      if after.alive {
        HandledIsFold(p, after, script);
      } else {
        DeadStays(p, after, Delivered(script));
      }
    } else if script == [] || script[0].WouldBlock? {
      FeedNothing(p, c);
    } else {
      var rest := script[1..];
      FeedFirst(p, c, script[0], Delivered(rest));
      match script[0]
      case Interrupted =>
        HandledIsFold(p, c, rest);
      case SocketError =>
        DeadStays(p, c.(alive := false), Delivered(rest));
      case Message(bytes, fds, controlTruncated) =>
        var after := Absorbed(c, bytes, fds, controlTruncated);
        if after.alive {
          HandledIsFold(p, after, rest);
        } else {
          DeadStays(p, after, Delivered(rest));
        }
    }
  }

  lemma FeedNothing(p: Peer, c: Conn)
    ensures FeedFrom(p, c, []) == c
  {
  }

  lemma ParseShortens(p: Peer, c: Conn)
    requires NEWLINE in c.buf
    ensures |ParseOne(p, c).buf| < |c.buf|
  {
  }

  /** The stream after a list of calls, each with what its `recvmsg` calls return. */
  function AfterCalls(p: Peer, scripts: seq<seq<Received>>): Conn {
    if scripts == [] then OPENED
    else
      var c := AfterCalls(p, scripts[..|scripts| - 1]);
      if c.alive then Handled(p, c, scripts[|scripts| - 1]) else c
  }

  /** All that was delivered over those calls. */
  function AllDelivered(scripts: seq<seq<Received>>): seq<Received> {
    if scripts == [] then [] else AllDelivered(scripts[..|scripts| - 1]) + Delivered(scripts[|scripts| - 1])
  }

  lemma {:induction false} CallsAreFold(p: Peer, scripts: seq<seq<Received>>)
    ensures AfterCalls(p, scripts) == FeedFrom(p, OPENED, AllDelivered(scripts))
    ensures AfterCalls(p, scripts).alive ==> NEWLINE !in AfterCalls(p, scripts).buf
    decreases |scripts|
  {
    hide Handled, FeedFrom, DrainLines;
    if scripts == [] {
      FeedNothing(p, OPENED);
    } else {
      var front, last := scripts[..|scripts| - 1], scripts[|scripts| - 1];
      var c := AfterCalls(p, front);
      CallsAreFold(p, front);
      FeedConcat(p, OPENED, AllDelivered(front), Delivered(last));
      if c.alive {
        HandledIsFold(p, c, last);
        DrainsToNoLine(p, c);
        FeedLeavesNoLine(p, c, Delivered(last));
      } else {
        DeadStays(p, c, Delivered(last));
      }
    }
  }

  lemma {:induction false} DrainsToNoLine(p: Peer, c: Conn)
    ensures DrainLines(p, c).alive ==> NEWLINE !in DrainLines(p, c).buf
    ensures NEWLINE !in c.buf ==> DrainLines(p, c) == c
    decreases |c.buf|
  {
    if c.alive && NEWLINE in c.buf {
      DrainsToNoLine(p, ParseOne(p, c));
    }
  }

  lemma {:induction false} FeedLeavesNoLine(p: Peer, c: Conn, ms: seq<Received>)
    requires c.alive ==> NEWLINE !in c.buf
    ensures var r := FeedFrom(p, c, ms); r.alive ==> NEWLINE !in r.buf
    decreases |ms|
  {
    hide DrainLines, Absorbed;
    if ms != [] {
      var before, m := FeedFrom(p, c, ms[..|ms| - 1]), ms[|ms| - 1];
      FeedLeavesNoLine(p, c, ms[..|ms| - 1]);
      if m.Message? {
        DrainsToNoLine(p, Absorbed(before, m.bytes, m.fds, m.controlTruncated));
      }
    }
  }

  // ----- What was received, and what should come of it -----

  /** A newline at its end, and only there. */
  ghost predicate EndsOnce(line: Bytes) {
    line != [] && line[|line| - 1] == 10 && 10 !in line[..|line| - 1]
  }

  lemma SplitOnce(s: Bytes)
    requires NEWLINE in s
    ensures var line := FirstLine(s);
            && SplitLines(s) == [line] + SplitLines(s[|line|..]) && Unfinished(s) == Unfinished(s[|line|..])
            && line + s[|line|..] == s && EndsOnce(line)
  {
  }

  /** The complete lines and the rest spell the stream, and each line has one newline, at its end. */
  lemma {:induction false} LinesSpellTheStream(s: Bytes)
    ensures Flatten(SplitLines(s)) + Unfinished(s) == s && 10 !in Unfinished(s)
    ensures forall k :: 0 <= k < |SplitLines(s)| ==> EndsOnce(SplitLines(s)[k])
    decreases |s|
  {
    if NEWLINE in s {
      hide SplitLines, Unfinished, EndsOnce, FirstLine;
      SplitOnce(s);
      var line := FirstLine(s);
      var rest := s[|line|..];
      LinesSpellTheStream(rest);
      var lines := SplitLines(rest);
      assert ([line] + lines)[1..] == lines;
      Assoc(line, Flatten(lines), Unfinished(rest));
    }
  }

  ghost function BytesIn(ms: seq<Received>): Bytes {
    if ms == [] then []
    else
      var last := ms[|ms| - 1];
      BytesIn(ms[..|ms| - 1]) + if last.Message? then last.bytes else []
  }

  ghost function FdsIn(ms: seq<Received>): seq<Fd> {
    if ms == [] then []
    else
      var last := ms[|ms| - 1];
      FdsIn(ms[..|ms| - 1]) + if last.Message? then last.fds else []
  }

  ghost function LinesIn(ms: seq<Received>): seq<Bytes> {
    SplitLines(BytesIn(ms))
  }

  /** The `k`-th line received is a request, and the `k`-th descriptor received carries it. */
  ghost predicate Serves(p: Peer, lines: seq<Bytes>, fds: seq<Fd>, k: nat) {
    && k < |lines| && k < |fds|
    && p.parse(lines[k]).Some? && p.parse(lines[k]).value.identity == p.identity && p.usable(fds[k])
  }

  /** Each message leaves no more unclaimed descriptors and bytes than are allowed. */
  ghost predicate Fits(before: seq<Received>, m: Received) {
    match m
    case Message(bytes, fds, controlTruncated) =>
      && !controlTruncated && bytes != []
      && |FdsIn(before)| - |LinesIn(before)| + |fds| <= 64
      && |Unfinished(BytesIn(before))| + |bytes| <= 4096
      && |FdsIn(before + [m])| <= |LinesIn(before + [m])| + if bytes[|bytes| - 1] == 10 then 0 else 1
    case SocketError => false
    case _ => true
  }

  /** The message fits, and every line it completes can be served with what has been received by then. */
  ghost predicate MessageOk(p: Peer, before: seq<Received>, m: Received) {
    && Fits(before, m)
    && var now := before + [m];
       forall k :: |LinesIn(before)| <= k < |LinesIn(now)| ==> Serves(p, LinesIn(now), FdsIn(now), k)
  }

  ghost predicate AllOk(p: Peer, ms: seq<Received>) {
    forall i :: 0 <= i < |ms| ==> MessageOk(p, ms[..i], ms[i])
  }

  /** The requests are the first lines received, each with the descriptor of the same position. */
  ghost predicate Pairs(p: Peer, requests: seq<(Transfer, Fd)>, lines: seq<Bytes>, fds: seq<Fd>) {
    forall k :: 0 <= k < |requests| ==>
      Serves(p, lines, fds, k) && requests[k] == (p.parse(lines[k]).value, fds[k])
  }

  /** Message `i` is the first bad one, and `n` lines were served: all before it, or all before the first bad line in it. */
  ghost predicate StopsAt(p: Peer, ms: seq<Received>, i: nat, n: nat) {
    && i < |ms| && AllOk(p, ms[..i]) && !MessageOk(p, ms[..i], ms[i])
    && var now := ms[..i + 1];
       if !Fits(ms[..i], ms[i]) then n == |LinesIn(ms[..i])|
       else |LinesIn(ms[..i])| <= n < |LinesIn(now)| && !Serves(p, LinesIn(now), FdsIn(now), n)
  }

  // ----- Lines of a growing stream -----

  lemma {:induction false} NewlinesConcat(a: Bytes, b: Bytes)
    ensures Newlines(a + b) == Newlines(a) + Newlines(b)
    decreases |b|
  {
    if b == [] {
      assert a + b == a;
    } else {
      var n := |b| - 1;
      assert (a + b)[..|a| + n] == a + b[..n];
      NewlinesConcat(a, b[..n]);
    }
  }

  lemma {:induction false} NoNewlines(s: Bytes)
    ensures NEWLINE !in s <==> Newlines(s) == 0
    decreases |s|
  {
    if s != [] {
      NoNewlines(s[..|s| - 1]);
      assert s == s[..|s| - 1] + [s[|s| - 1]];
    }
  }

  lemma TakeLine(buf: Bytes, newline: nat)
    requires newline < |buf| && buf[newline] == NEWLINE && NEWLINE !in buf[..newline]
    ensures IsLine(buf[..newline + 1])
    ensures Newlines(buf) == 1 + Newlines(buf[newline + 1..])
    ensures HasPartial(buf) == HasPartial(buf[newline + 1..])
  {
    var line := buf[..newline + 1];
    assert line[..newline] == buf[..newline];
    NoNewlines(buf[..newline]);
    NewlinesConcat(line, buf[newline + 1..]);
    assert line + buf[newline + 1..] == buf;
  }

  lemma FirstOf(line: Bytes, rest: Bytes)
    requires IsLine(line)
    ensures NEWLINE in line + rest && FirstLine(line + rest) == line
  {
    var n := |line| - 1;
    var s := line + rest;
    assert s[n] == NEWLINE;
    var i := Position(s);
    assert s[..n] == line[..n];
    assert i == n;
  }

  lemma {:induction false} NewlinesAreLines(s: Bytes)
    ensures |SplitLines(s)| == Newlines(s)
    decreases |s|
  {
    NoNewlines(s);
    if NEWLINE in s {
      var line := FirstLine(s);
      TakeLine(s, |line| - 1);
      NewlinesAreLines(s[|line|..]);
    }
  }

  /** Lines never change once they are complete. */
  lemma {:induction false} SplitConcat(a: Bytes, b: Bytes)
    ensures SplitLines(a + b) == SplitLines(a) + SplitLines(Unfinished(a) + b)
    ensures Unfinished(a + b) == Unfinished(Unfinished(a) + b)
    decreases |a|
  {
    if NEWLINE in a {
      var line := FirstLine(a);
      var rest := a[|line|..];
      assert a == line + rest;
      Assoc(line, rest, b);
      FirstOf(line, rest + b);
      assert (line + (rest + b))[|line|..] == rest + b;
      SplitConcat(rest, b);
      Assoc([line], SplitLines(rest), SplitLines(Unfinished(rest) + b));
    } else {
      assert SplitLines(a) == [];
      assert [] + SplitLines(a + b) == SplitLines(a + b);
    }
  }

  lemma PrefixOf(before: seq<Received>, m: Received)
    ensures LinesIn(before) <= LinesIn(before + [m]) && FdsIn(before) <= FdsIn(before + [m])
  {
    hide SplitLines;
    var now := before + [m];
    assert now[..|now| - 1] == before;
    if m.Message? {
      SplitConcat(BytesIn(before), m.bytes);
    } else {
      assert BytesIn(before) + [] == BytesIn(before) && FdsIn(before) + [] == FdsIn(before);
    }
  }

  // ----- The stream serves what was received -----

  /** The middle of serving: as many lines are done as there are requests, and buffer and queue hold exactly the rest. */
  ghost predicate Mid(p: Peer, c: Conn, lines: seq<Bytes>, fds: seq<Fd>, tail: Bytes) {
    var n := |c.requests|;
    && c.alive && n <= |lines| && n <= |fds|
    && SplitLines(c.buf) == lines[n..] && Unfinished(c.buf) == tail && c.fds == fds[n..]
    && Pairs(p, c.requests, lines, fds)
  }

  lemma ParseMid(p: Peer, c: Conn, lines: seq<Bytes>, fds: seq<Fd>, tail: Bytes)
    requires Mid(p, c, lines, fds, tail) && NEWLINE in c.buf
    ensures var a := ParseOne(p, c);
            if Serves(p, lines, fds, |c.requests|) then Mid(p, a, lines, fds, tail) && |a.requests| == |c.requests| + 1
            else !a.alive && a.requests == c.requests
  {
    hide Pairs, SplitLines, Unfinished, FirstLine;
    var n := |c.requests|;
    NextLine(c.buf, lines, n);
    if n < |fds| {
      assert c.fds[0] == fds[n] && fds[n + 1..] == c.fds[1..];
    }
    if Serves(p, lines, fds, n) {
      PairOneMore(p, c.requests, lines, fds);
    }
  }

  lemma NextLine(buf: Bytes, lines: seq<Bytes>, n: nat)
    requires NEWLINE in buf && n <= |lines| && SplitLines(buf) == lines[n..]
    ensures n < |lines| && lines[n] == FirstLine(buf)
    ensures var rest := buf[|FirstLine(buf)|..]; SplitLines(rest) == lines[n + 1..] && Unfinished(rest) == Unfinished(buf)
  {
    var line := FirstLine(buf);
    var rest := SplitLines(buf[|line|..]);
    assert lines[n..] == [line] + rest;
    assert lines[n] == lines[n..][0];
    assert lines[n + 1..] == lines[n..][1..] == rest;
  }

  lemma PairOneMore(p: Peer, requests: seq<(Transfer, Fd)>, lines: seq<Bytes>, fds: seq<Fd>)
    requires Pairs(p, requests, lines, fds) && Serves(p, lines, fds, |requests|)
    ensures Pairs(p, requests + [(p.parse(lines[|requests|]).value, fds[|requests|])], lines, fds)
  {
    var n := |requests|;
    var all := requests + [(p.parse(lines[n]).value, fds[n])];
    forall k | 0 <= k < |all| ensures Serves(p, lines, fds, k) && all[k] == (p.parse(lines[k]).value, fds[k]) {
      if k < n {
        assert Serves(p, lines, fds, k) && all[k] == requests[k];
      }
    }
  }

  /** Draining serves every line, or stops at the first that cannot be served. */
  lemma {:induction false} DrainMid(p: Peer, c: Conn, lines: seq<Bytes>, fds: seq<Fd>, tail: Bytes)
    requires Mid(p, c, lines, fds, tail)
    ensures var d := DrainLines(p, c);
            && |c.requests| <= |d.requests| && Pairs(p, d.requests, lines, fds) && d.got == c.got
            && (d.alive ==> Mid(p, d, lines, fds, tail) && |d.requests| == |lines| && d.buf == tail)
            && (!d.alive ==> |d.requests| < |lines| && !Serves(p, lines, fds, |d.requests|))
    decreases |c.buf|
  {
    hide Pairs, Serves;
    if NEWLINE in c.buf {
      var a := ParseOne(p, c);
      ParseMid(p, c, lines, fds, tail);
      assert DrainLines(p, c) == DrainLines(p, a);
      if a.alive {
        DrainMid(p, a, lines, fds, tail);
      }
    }
  }

  /** A live stream has served every complete line, and holds exactly the rest. */
  ghost predicate Tracks(p: Peer, c: Conn, ms: seq<Received>) {
    && c.alive
    && c.buf == Unfinished(BytesIn(ms))
    && |c.requests| == |LinesIn(ms)| <= |FdsIn(ms)|
    && c.fds == FdsIn(ms)[|LinesIn(ms)|..]
    && c.got == FdsIn(ms)
    && Pairs(p, c.requests, LinesIn(ms), FdsIn(ms))
    && AllOk(p, ms)
  }

  ghost predicate Stopped(p: Peer, c: Conn, ms: seq<Received>) {
    && !c.alive
    && Pairs(p, c.requests, LinesIn(ms), FdsIn(ms))
    && exists i: nat :: StopsAt(p, ms, i, |c.requests|)
  }

  lemma FitsIff(p: Peer, c: Conn, before: seq<Received>, m: Received)
    requires Tracks(p, c, before) && m.Message?
    ensures var after := Absorbed(c, m.bytes, m.fds, m.controlTruncated);
            && (after.alive <==> Fits(before, m))
            && after.requests == c.requests
            && (after.alive ==> after == c.(buf := c.buf + m.bytes, fds := c.fds + m.fds, got := c.got + m.fds))
  {
    hide Newlines, SplitLines, Unfinished, Pairs, AllOk;
    var now := before + [m];
    assert now[..|now| - 1] == before;
    SplitConcat(BytesIn(before), m.bytes);
    NewlinesAreLines(c.buf + m.bytes);
    if m.bytes != [] {
      LastByte(c.buf, m.bytes);
    }
  }

  lemma LastByte(a: Bytes, b: Bytes)
    requires b != []
    ensures HasPartial(a + b) <==> b[|b| - 1] != NEWLINE
  {
    assert (a + b)[|a + b| - 1] == b[|b| - 1];
  }

  lemma OkMore(p: Peer, ms: seq<Received>, m: Received)
    requires AllOk(p, ms) && MessageOk(p, ms, m)
    ensures AllOk(p, ms + [m])
  {
    hide MessageOk;
    var more := ms + [m];
    forall i | 0 <= i < |more| ensures MessageOk(p, more[..i], more[i]) {
      assert more[..i] == ms[..i];
      if i == |ms| {
        assert ms[..i] == ms;
      }
    }
  }

  lemma StopMore(p: Peer, ms: seq<Received>, m: Received, i: nat, n: nat)
    requires StopsAt(p, ms, i, n)
    ensures StopsAt(p, ms + [m], i, n)
  {
    hide MessageOk, Fits, AllOk, Serves, LinesIn, FdsIn;
    var more := ms + [m];
    assert more[..i] == ms[..i] && more[..i + 1] == ms[..i + 1] && more[i] == ms[i];
  }

  lemma StopHere(p: Peer, ms: seq<Received>, m: Received, n: nat)
    requires AllOk(p, ms) && !MessageOk(p, ms, m)
    requires if !Fits(ms, m) then n == |LinesIn(ms)|
             else |LinesIn(ms)| <= n < |LinesIn(ms + [m])| && !Serves(p, LinesIn(ms + [m]), FdsIn(ms + [m]), n)
    ensures StopsAt(p, ms + [m], |ms|, n)
  {
    hide MessageOk, Fits, AllOk, Serves, LinesIn, FdsIn;
    var more := ms + [m];
    assert more[..|ms|] == ms && more[..|ms| + 1] == more && more[|ms|] == m;
  }

  lemma PairsMore(p: Peer, requests: seq<(Transfer, Fd)>, ms: seq<Received>, m: Received)
    requires Pairs(p, requests, LinesIn(ms), FdsIn(ms))
    ensures Pairs(p, requests, LinesIn(ms + [m]), FdsIn(ms + [m]))
  {
    hide LinesIn, FdsIn;
    PrefixOf(ms, m);
    var lines, fds := LinesIn(ms), FdsIn(ms);
    var lines', fds' := LinesIn(ms + [m]), FdsIn(ms + [m]);
    forall k | 0 <= k < |requests|
      ensures Serves(p, lines', fds', k) && requests[k] == (p.parse(lines'[k]).value, fds'[k])
    {
      assert Serves(p, lines, fds, k) && requests[k] == (p.parse(lines[k]).value, fds[k]);
      assert lines'[k] == lines[k] && fds'[k] == fds[k];
    }
  }

  /** What a fitting message adds is next to be served. */
  lemma AbsorbedMid(p: Peer, c: Conn, before: seq<Received>, m: Received)
    requires Tracks(p, c, before) && m.Message? && Fits(before, m)
    ensures var now := before + [m];
            Mid(p, Absorbed(c, m.bytes, m.fds, m.controlTruncated), LinesIn(now), FdsIn(now), Unfinished(BytesIn(now)))
  {
    hide SplitLines, Unfinished, Fits, AllOk, Absorbed, Serves, Pairs;
    FitsIff(p, c, before, m);
    var now := before + [m];
    assert now[..|now| - 1] == before;
    SplitConcat(BytesIn(before), m.bytes);
    PairsMore(p, c.requests, before, m);
    var base := |LinesIn(before)|;
    assert LinesIn(now)[base..] == SplitLines(c.buf + m.bytes);
    assert FdsIn(now)[base..] == c.fds + m.fds;
  }

  /** Serving the lines a fitting message completes. */
  lemma FeedServes(p: Peer, c: Conn, before: seq<Received>, m: Received)
    requires Tracks(p, c, before) && m.Message? && Fits(before, m)
    ensures var d := Feed(p, c, m); Tracks(p, d, before + [m]) || Stopped(p, d, before + [m])
  {
    hide SplitLines, Unfinished, Fits, AllOk, Absorbed, DrainLines, StopsAt, Serves, Pairs, BytesIn, LinesIn, FdsIn;
    var now := before + [m];
    var a := Absorbed(c, m.bytes, m.fds, m.controlTruncated);
    AbsorbedMid(p, c, before, m);
    FitsIff(p, c, before, m);
    DrainMid(p, a, LinesIn(now), FdsIn(now), Unfinished(BytesIn(now)));
    var d := DrainLines(p, a);
    assert FdsIn(now) == c.got + m.fds by {
      assert now[..|now| - 1] == before;
      GrownFds(before, m);
    }
    if d.alive {
      OkWhenServed(p, before, m, d.requests);
      OkMore(p, before, m);
    } else {
      StopHere(p, before, m, |d.requests|);
    }
  }

  lemma GrownFds(before: seq<Received>, m: Received)
    requires m.Message?
    ensures FdsIn(before + [m]) == FdsIn(before) + m.fds
  {
    var now := before + [m];
    assert now[..|now| - 1] == before;
  }

  lemma OkWhenServed(p: Peer, before: seq<Received>, m: Received, requests: seq<(Transfer, Fd)>)
    requires Fits(before, m) && |requests| == |LinesIn(before + [m])|
    requires Pairs(p, requests, LinesIn(before + [m]), FdsIn(before + [m]))
    ensures MessageOk(p, before, m)
  {
    hide Fits, LinesIn, FdsIn, Acceptable;
  }

  lemma FeedFollows(p: Peer, c: Conn, before: seq<Received>, m: Received)
    requires Tracks(p, c, before)
    ensures var d := Feed(p, c, m); Tracks(p, d, before + [m]) || Stopped(p, d, before + [m])
  {
    if m.Message? && Fits(before, m) {
      FeedServes(p, c, before, m);
    } else {
      hide Fits, Absorbed, DrainLines, Serves, StopsAt, AllOk, SplitLines, Unfinished;
      var now := before + [m];
      assert now[..|now| - 1] == before;
      PairsMore(p, c.requests, before, m);
      if m.Message? {
        FitsIff(p, c, before, m);
        DeadDrains(p, Absorbed(c, m.bytes, m.fds, m.controlTruncated));
        NotFitting(p, before, m);
        StopHere(p, before, m, |LinesIn(before)|);
      } else if m.SocketError? {
        NotFitting(p, before, m);
        StopHere(p, before, m, |LinesIn(before)|);
      } else {
        SameTotals(before, m);
        NothingNewIsOk(p, before, m);
        OkMore(p, before, m);
      }
    }
  }

  lemma DeadDrains(p: Peer, c: Conn)
    requires !c.alive
    ensures DrainLines(p, c) == c
  {
  }

  lemma NotFitting(p: Peer, before: seq<Received>, m: Received)
    requires m.SocketError? || !Fits(before, m)
    ensures !Fits(before, m) && !MessageOk(p, before, m)
  {
  }

  lemma SameTotals(before: seq<Received>, m: Received)
    requires !m.Message?
    ensures BytesIn(before + [m]) == BytesIn(before) && FdsIn(before + [m]) == FdsIn(before)
  {
    var now := before + [m];
    assert now[..|now| - 1] == before;
    assert BytesIn(before) + [] == BytesIn(before) && FdsIn(before) + [] == FdsIn(before);
  }

  lemma NothingNewIsOk(p: Peer, before: seq<Received>, m: Received)
    requires m.WouldBlock? || m.Interrupted?
    ensures MessageOk(p, before, m)
  {
    SameTotals(before, m);
  }

  lemma {:induction false} FoldFollows(p: Peer, ms: seq<Received>)
    ensures var c := FeedFrom(p, OPENED, ms); Tracks(p, c, ms) || Stopped(p, c, ms)
    decreases |ms|
  {
    hide Feed, Tracks, Stopped;
    if ms == [] {
      OpenedTracks(p);
    } else {
      var front, m := ms[..|ms| - 1], ms[|ms| - 1];
      var c := FeedFrom(p, OPENED, front);
      FoldFollows(p, front);
      assert front + [m] == ms;
      if Tracks(p, c, front) {
        FeedFollows(p, c, front, m);
      } else {
        StaysStopped(p, c, front, m);
      }
    }
  }

  lemma OpenedTracks(p: Peer)
    ensures Tracks(p, OPENED, [])
  {
  }

  lemma StaysStopped(p: Peer, c: Conn, front: seq<Received>, m: Received)
    requires Stopped(p, c, front)
    ensures Stopped(p, Feed(p, c, m), front + [m])
  {
    hide StopsAt, Serves, LinesIn, FdsIn;
    var i: nat :| StopsAt(p, front, i, |c.requests|);
    StopMore(p, front, m, i, |c.requests|);
    PairsMore(p, c.requests, front, m);
  }

  /**
    * For every list of calls and everything `recvmsg` may return in them: the k-th request handed on is the k-th line received
    * with the k-th descriptor received. A kept stream has served every complete line and holds exactly the rest. A stream is
    * dropped exactly at the first message over a limit or with a line that cannot be served, after every line before that.
    */
  lemma RequestsFollowTheStream(p: Peer, scripts: seq<seq<Received>>)
    ensures var c, ms := AfterCalls(p, scripts), AllDelivered(scripts);
            && Pairs(p, c.requests, LinesIn(ms), FdsIn(ms))
            && (c.alive <==> AllOk(p, ms))
            && (c.alive ==>
                  && |c.requests| == |LinesIn(ms)| <= |FdsIn(ms)|
                  && c.buf == Unfinished(BytesIn(ms)) && c.fds == FdsIn(ms)[|LinesIn(ms)|..])
            && (!c.alive ==> exists i: nat :: StopsAt(p, ms, i, |c.requests|))
  {
    hide AfterCalls, FeedFrom, Pairs, LinesIn, FdsIn, BytesIn, Unfinished, MessageOk, Fits, Serves;
    CallsAreFold(p, scripts);
    FoldFollows(p, AllDelivered(scripts));
  }

  // ----- Bounds and conservation, at every moment -----

  /** Descriptors never outnumber the frames that can still claim them. */
  ghost predicate WithinBounds(c: Conn) {
    |c.fds| <= MAX_QUEUED_FDS && FitsQueue(c.buf, c.fds)
  }

  /** No descriptor is lost: each is queued, handed to a request, or closed. */
  ghost predicate Conserves(c: Conn) {
    multiset(c.got) == multiset(FdsOf(c.requests)) + multiset(c.fds) + multiset(c.closed)
  }

  ghost function FdsOf(requests: seq<(Transfer, Fd)>): seq<Fd> {
    seq(|requests|, i requires 0 <= i < |requests| => requests[i].1)
  }

  lemma ParseKeepsBounds(p: Peer, c: Conn)
    requires NEWLINE in c.buf && WithinBounds(c)
    ensures ParseOne(p, c).alive ==> WithinBounds(ParseOne(p, c))
  {
    hide Newlines, Acceptable;
    TakeLine(c.buf, |FirstLine(c.buf)| - 1);
  }

  lemma AcceptableParses(p: Peer, line: Bytes, fd: Fd)
    requires Acceptable(p, line, fd)
    ensures p.parse(line).Some?
  {
  }

  lemma ParseConserves(p: Peer, c: Conn)
    requires NEWLINE in c.buf && Conserves(c)
    ensures Conserves(ParseOne(p, c))
  {
    hide Acceptable, FdsOf, Conserves;
    var line := FirstLine(c.buf);
    if p.parse(line).None? || c.fds == [] {
      Reshaped(c, ParseOne(p, c));
    } else if !Acceptable(p, line, c.fds[0]) {
      ClosingConserves(c, ParseOne(p, c));
    } else {
      assert p.parse(line).Some? by { AcceptableParses(p, line, c.fds[0]); }
      HandingOnConserves(c, ParseOne(p, c), p.parse(line).value);
    }
  }

  lemma Reshaped(c: Conn, d: Conn)
    requires Conserves(c) && d.requests == c.requests && d.fds == c.fds && d.got == c.got && d.closed == c.closed
    ensures Conserves(d)
  {
  }

  lemma ClosingConserves(c: Conn, d: Conn)
    requires Conserves(c) && c.fds != []
    requires d.requests == c.requests && d.fds == c.fds[1..] && d.got == c.got && d.closed == c.closed + [c.fds[0]]
    ensures Conserves(d)
  {
    assert c.fds == [c.fds[0]] + d.fds;
  }

  lemma HandingOnConserves(c: Conn, d: Conn, t: Transfer)
    requires Conserves(c) && c.fds != []
    requires d.requests == c.requests + [(t, c.fds[0])] && d.fds == c.fds[1..] && d.got == c.got && d.closed == c.closed
    ensures Conserves(d)
  {
    hide FdsOf;
    FdsOfMore(c.requests, t, c.fds[0]);
    assert c.fds == [c.fds[0]] + d.fds;
  }

  lemma FdsOfMore(requests: seq<(Transfer, Fd)>, t: Transfer, fd: Fd)
    ensures FdsOf(requests + [(t, fd)]) == FdsOf(requests) + [fd]
  {
  }

  lemma AbsorbKeepsBounds(c: Conn, bytes: Bytes, fds: seq<Fd>, controlTruncated: bool)
    requires Conserves(c)
    ensures var after := Absorbed(c, bytes, fds, controlTruncated);
            Conserves(after) && (c.alive && after.alive ==> WithinBounds(after))
  {
    hide FitsQueue;
  }

  /** One call of the receive loop, at whatever point it returns. */
  lemma {:induction false} RecvKeepsBounds(p: Peer, c: Conn, script: seq<Received>)
    requires c.alive && Conserves(c) && WithinBounds(c)
    ensures var after := Recv(p, c, script).1; Conserves(after) && (after.alive ==> WithinBounds(after))
    decreases |script|
  {
    hide Conserves, WithinBounds, ParseOne, Absorbed;
    if NEWLINE in c.buf {
      ParseKeepsBounds(p, c);
      ParseConserves(p, c);
    } else if script != [] && !script[0].WouldBlock? {
      match script[0]
      case Interrupted => RecvKeepsBounds(p, c, script[1..]);
      case SocketError => DroppedConserves(c);
      case Message(bytes, fds, controlTruncated) =>
        AbsorbKeepsBounds(c, bytes, fds, controlTruncated);
        if Absorbed(c, bytes, fds, controlTruncated).alive {
          RecvKeepsBounds(p, Absorbed(c, bytes, fds, controlTruncated), script[1..]);
        }
    }
  }

  lemma DroppedConserves(c: Conn)
    requires Conserves(c)
    ensures Conserves(c.(alive := false))
  {
  }

  lemma {:induction false} HandledKeepsBounds(p: Peer, c: Conn, script: seq<Received>)
    requires c.alive && Conserves(c) && WithinBounds(c)
    ensures var after := Handled(p, c, script); Conserves(after) && (after.alive ==> WithinBounds(after))
    decreases |script|, |c.buf|
  {
    hide Conserves, WithinBounds, Recv;
    RecvKeepsBounds(p, c, script);
    var (result, after, rest) := Recv(p, c, script);
    if result.Request? {
      HandledKeepsBounds(p, after, rest);
    }
  }

  /** Over every list of calls no descriptor is lost, and a live stream stays within all bounds. */
  lemma {:induction false} StreamStaysBounded(p: Peer, scripts: seq<seq<Received>>)
    ensures var c := AfterCalls(p, scripts); Conserves(c) && (c.alive ==> WithinBounds(c))
    decreases |scripts|
  {
    hide Conserves, WithinBounds, Handled;
    if scripts == [] {
      OpenedIsBounded();
    } else {
      StreamStaysBounded(p, scripts[..|scripts| - 1]);
      var c := AfterCalls(p, scripts[..|scripts| - 1]);
      if c.alive {
        HandledKeepsBounds(p, c, scripts[|scripts| - 1]);
      }
    }
  }

  lemma OpenedIsBounded()
    ensures Conserves(OPENED) && WithinBounds(OPENED)
  {
  }
}
