/** The length-prefixed input stream from the window frontend to the session host. */
module InputStream {
  import opened Incremental
  import opened Options
  import opened Utf8

  type Bytes = seq<Byte>

  const MAX_BODY: nat := 4096
  const U32: nat := 0x1_0000_0000

  // ----- The sender -----

  /** `to_le_bytes` of a 32-bit value. */
  function LittleEndian(v: nat): (s: Bytes)
    requires v < U32
    ensures |s| == 4
  {
    [v % 256, v / 256 % 256, v / 65536 % 256, v / 16777216]
  }

  /** The length is cast to 32 bits. */
  function Frame(body: Bytes): Bytes {
    LittleEndian(|body| % U32) + body
  }

  function Sent(bodies: seq<Bytes>): Bytes {
    if bodies == [] then [] else Frame(bodies[0]) + Sent(bodies[1..])
  }

  // ----- The receiver -----

  function FromLittleEndian(s: Bytes): nat
    requires |s| >= 4
  {
    var a: int, b: int, c: int, d: int := s[0], s[1], s[2], s[3];
    a + 256 * b + 65536 * c + 16777216 * d
  }

  /** One complete frame, an incomplete one, or a declared length no honest peer sends. */
  function NextFrame(s: Bytes): Step<Bytes> {
    if |s| < 4 then Wait
    else
      var len := FromLittleEndian(s);
      if len > MAX_BODY then Halt
      else if |s| < 4 + len then Wait
      else Take(4 + len, s[4..4 + len])
  }

  /** One pass over a connection: append what arrived, then take whole frames off the front. */
  method Drain(start: Bytes, got: seq<Bytes>, eof: bool)
    returns (frames: seq<Bytes>, buf: Bytes, alive: bool)
    ensures var r := Parse(NextFrame, start + Flatten(got));
            frames == r.outs && buf == r.rest && (alive <==> !eof && !r.halted)
  {
    buf, alive := start, true;
    for i := 0 to |got|
      invariant buf + Flatten(got[i..]) == start + Flatten(got)
    {
      assert got[i..][1..] == got[i + 1..];
      Assoc(buf, got[i], Flatten(got[i + 1..]));
      buf := buf + got[i];
    }
    assert buf == start + Flatten(got);
    if eof {
      alive := false;
    }
    frames, buf, alive := TakeFrames(buf, alive);
  }

  method TakeFrames(input: Bytes, wasAlive: bool) returns (frames: seq<Bytes>, buf: Bytes, alive: bool)
    ensures var r := Parse(NextFrame, input);
            frames == r.outs && buf == r.rest && (alive <==> wasAlive && !r.halted)
  {
    hide FromLittleEndian;
    frames, buf, alive := [], input, wasAlive;
    while |buf| >= 4
      invariant Parse(NextFrame, input).outs == frames + Parse(NextFrame, buf).outs
      invariant Parse(NextFrame, input).rest == Parse(NextFrame, buf).rest
      invariant Parse(NextFrame, input).halted == Parse(NextFrame, buf).halted
      invariant alive == wasAlive
      decreases |buf|
    {
      var len := FromLittleEndian(buf);
      if len > MAX_BODY {
        alive := false;
        break;
      }
      if |buf| < 4 + len {
        break;
      }
      Assoc(frames, [buf[4..4 + len]], Parse(NextFrame, buf[4 + len..]).outs);
      frames := frames + [buf[4..4 + len]];
      buf := buf[4 + len..];
    }
    assert frames + [] == frames;
  }

  /** Frames that decode as an event; the others are skipped. */
  function Events<E>(decode: Bytes -> Option<E>, frames: seq<Bytes>): seq<E> {
    if frames == [] then []
    else (if decode(frames[0]).Some? then [decode(frames[0]).value] else []) + Events(decode, frames[1..])
  }

  /** What one connection has ready in one turn of the host loop. */
  datatype Ready = Ready(got: seq<Bytes>, eof: bool)

  datatype Conn = Conn(id: nat, buf: Bytes)

  function Polled(c: Conn, r: Ready): Parsed<Byte, Bytes> {
    Parse(NextFrame, c.buf + Flatten(r.got))
  }

  function Kept(conns: seq<Conn>, ready: seq<Ready>): seq<Conn>
    requires |conns| == |ready|
  {
    if conns == [] then []
    else
      var n := |conns| - 1;
      var p := Polled(conns[n], ready[n]);
      Kept(conns[..n], ready[..n]) +
      if p.halted || ready[n].eof then [] else [conns[n].(buf := p.rest)]
  }

  function PolledFrames(conns: seq<Conn>, ready: seq<Ready>): seq<Bytes>
    requires |conns| == |ready|
  {
    if conns == [] then []
    else
      var n := |conns| - 1;
      PolledFrames(conns[..n], ready[..n]) + Polled(conns[n], ready[n]).outs
  }

  class InputHost<E> {
    var conns: seq<Conn>
    const decode: Bytes -> Option<E>

    constructor (decode: Bytes -> Option<E>)
      ensures conns == [] && this.decode == decode
    {
      conns := [];
      this.decode := decode;
    }

    /** One turn: serve every connection, and keep the ones still alive. */
    method Poll(ready: seq<Ready>) returns (events: seq<E>)
      requires |ready| == |conns|
      modifies this
      ensures conns == Kept(old(conns), ready)
      ensures events == Events(decode, PolledFrames(old(conns), ready))
    {
      events := [];
      var kept := [];
      for i := 0 to |conns|
        invariant conns == old(conns)
        invariant kept == Kept(conns[..i], ready[..i])
        invariant events == Events(decode, PolledFrames(conns[..i], ready[..i]))
      {
        var frames, buf, alive := Drain(conns[i].buf, ready[i].got, ready[i].eof);
        assert conns[..i + 1][..i] == conns[..i] && ready[..i + 1][..i] == ready[..i];
        EventsConcat(decode, PolledFrames(conns[..i], ready[..i]), frames);
        events := events + Events(decode, frames);
        if alive {
          kept := kept + [conns[i].(buf := buf)];
        }
      }
      assert conns[..|conns|] == conns && ready[..|conns|] == ready;
      conns := kept;
    }
  }

  lemma {:induction false} EventsConcat<E>(decode: Bytes -> Option<E>, a: seq<Bytes>, b: seq<Bytes>)
    ensures Events(decode, a + b) == Events(decode, a) + Events(decode, b)
    decreases |a|
  {
    if a == [] {
      assert a + b == b;
    } else {
      assert (a + b)[1..] == a[1..] + b;
      EventsConcat(decode, a[1..], b);
      var head := if decode(a[0]).Some? then [decode(a[0]).value] else [];
      Assoc(head, Events(decode, a[1..]), Events(decode, b));
    }
  }

  /** Each connection is served by itself, in order: one more connection adds what it alone would come to. */
  lemma LastPolled(conns: seq<Conn>, ready: seq<Ready>, c: Conn, r: Ready)
    requires |conns| == |ready|
    ensures Kept(conns + [c], ready + [r]) == Kept(conns, ready) + Kept([c], [r])
    ensures PolledFrames(conns + [c], ready + [r]) == PolledFrames(conns, ready) + PolledFrames([c], [r])
  {
    hide Polled;
    assert (conns + [c])[..|conns|] == conns && (ready + [r])[..|ready|] == ready;
    assert [c][..0] == [] && [r][..0] == [];
    var p := Polled(c, r);
    assert Kept([c], [r]) == [] + (if p.halted || r.eof then [] else [c.(buf := p.rest)]);
    assert PolledFrames([c], [r]) == [] + p.outs;
  }

  /**
    * Over two turns a connection yields the frames of everything it was sent: what the first turn left over is
    * kept under its id, unless a frame was too long or the stream had ended, and the second turn goes on from there.
    */
  lemma TurnsJoin(c: Conn, first: Ready, second: Ready)
    ensures var whole := Parse(NextFrame, c.buf + Flatten(first.got) + Flatten(second.got));
            var once := Parse(NextFrame, c.buf + Flatten(first.got));
            && PolledFrames([c], [first]) == once.outs
            && (once.halted || first.eof ==> Kept([c], [first]) == [])
            && (!once.halted && !first.eof ==>
                  && |Kept([c], [first])| == 1 && Kept([c], [first])[0].id == c.id
                  && PolledFrames([c], [first]) + PolledFrames(Kept([c], [first]), [second]) == whole.outs
                  && (Kept(Kept([c], [first]), [second]) == [] <==> second.eof || whole.halted))
  {
    hide NextFrame, Parse;
    NextFrameWellBehaved();
    OnePolled(c, first);
    ParseConcat(NextFrame, c.buf + Flatten(first.got), Flatten(second.got));
    var once := Parse(NextFrame, c.buf + Flatten(first.got));
    if !once.halted && !first.eof {
      OnePolled(c.(buf := once.rest), second);
    }
  }

  lemma OnePolled(c: Conn, r: Ready)
    ensures var p := Parse(NextFrame, c.buf + Flatten(r.got));
            && PolledFrames([c], [r]) == p.outs
            && Kept([c], [r]) == if p.halted || r.eof then [] else [c.(buf := p.rest)]
  {
    hide Parse;
    assert [c][..0] == [] && [r][..0] == [];
  }

  // ----- Round trip -----

  /** A frame is the length of its body in four bytes, the least significant one first, and the body. */
  lemma FrameLayout(body: Bytes)
    requires |body| < 0x1_0000_0000
    ensures |Frame(body)| == 4 + |body| && Frame(body)[4..] == body
    ensures var f := Frame(body);
            f[0] as int + 256 * f[1] as int + 65536 * f[2] as int + 16777216 * f[3] as int == |body|
  {
    hide LittleEndian;
    LittleEndianRoundTrip(|body|, body);
  }

  lemma LittleEndianRoundTrip(v: nat, rest: Bytes)
    requires v < U32
    ensures FromLittleEndian(LittleEndian(v) + rest) == v
  {
    Base256(v);
    var s := LittleEndian(v) + rest;
    assert s[0] == v % 256 && s[1] == v / 256 % 256 && s[2] == v / 65536 % 256 && s[3] == v / 16777216;
  }

  lemma Base256(v: nat)
    ensures v == v % 256 + 256 * (v / 256 % 256) + 65536 * (v / 65536 % 256) + 16777216 * (v / 16777216)
  {
    var q := v / 256;
    var r := q / 256;
    var t := r / 256;
    assert v == 256 * q + v % 256 && q == 256 * r + q % 256 && r == 256 * t + r % 256;
    assert v / 65536 == r;
    assert v / 16777216 == t;
  }

  lemma NextFrameWellBehaved()
    ensures WellBehaved(NextFrame)
  {
    forall a: Bytes, b: Bytes | !NextFrame(a).Wait?
      ensures NextFrame(a + b) == NextFrame(a)
    {
      assert (a + b)[..4] == a[..4];
      assert FromLittleEndian(a + b) == FromLittleEndian(a);
      var len := FromLittleEndian(a);
      if len <= MAX_BODY {
        assert (a + b)[4..4 + len] == a[4..4 + len];
      }
    }
  }

  lemma NextOfFrame(body: Bytes, rest: Bytes)
    requires |body| < U32
    ensures NextFrame(Frame(body) + rest) ==
            if |body| <= MAX_BODY then Take(4 + |body|, body) else Halt
    ensures (Frame(body) + rest)[4 + |body|..] == rest
  {
    var s := Frame(body) + rest;
    assert s == LittleEndian(|body|) + (body + rest);
    LittleEndianRoundTrip(|body|, body + rest);
    assert s[4..4 + |body|] == body;
  }

  ghost predicate Sendable(bodies: seq<Bytes>) {
    forall i :: 0 <= i < |bodies| ==> |bodies[i]| < U32
  }

  /** The bodies before the first that is too long. */
  function Acceptable(bodies: seq<Bytes>): seq<Bytes> {
    if bodies == [] || |bodies[0]| > MAX_BODY then [] else [bodies[0]] + Acceptable(bodies[1..])
  }

  lemma {:induction false} ParseSent(bodies: seq<Bytes>)
    requires Sendable(bodies)
    ensures var r := Parse(NextFrame, Sent(bodies));
            && r.outs == Acceptable(bodies)
            && (r.halted <==> Acceptable(bodies) != bodies)
            && (!r.halted ==> r.rest == [])
    decreases |bodies|
  {
    hide NextFrame, Frame;
    if bodies == [] {
      NothingWaits();
    } else {
      NextFrameWellBehaved();
      NextOfFrame(bodies[0], Sent(bodies[1..]));
      ParseSent(bodies[1..]);
      assert [bodies[0]] + bodies[1..] == bodies;
    }
  }

  lemma NothingWaits()
    ensures NextFrame([]).Wait?
  {
  }

  /**
    * For every list of event bodies and every way the stream reaches the receiver: it yields, in order, exactly
    * the bodies before the first one over the limit, drops the stream if and only if there is one, and
    * otherwise has nothing left over.
    */
  lemma ReceiverYieldsWhatWasSent(bodies: seq<Bytes>, chunks: seq<Bytes>)
    requires Sendable(bodies) && Flatten(chunks) == Sent(bodies)
    ensures var r := FeedAll(NextFrame, [], chunks);
            && r.outs <= bodies && (forall i :: 0 <= i < |r.outs| ==> |bodies[i]| <= 4096)
            && (|r.outs| < |bodies| ==> |bodies[|r.outs|]| > 4096)
            && (r.halted <==> exists i :: 0 <= i < |bodies| && |bodies[i]| > 4096)
            && (!r.halted ==> r.outs == bodies && r.rest == [])
  {
    NextFrameWellBehaved();
    SplitIndependent(NextFrame, [], chunks);
    assert [] + Flatten(chunks) == Flatten(chunks);
    ParseSent(bodies);
    AcceptableAll(bodies);
    AcceptablePrefix(bodies);
  }

  lemma {:induction false} AcceptablePrefix(bodies: seq<Bytes>)
    ensures var k := |Acceptable(bodies)|;
            && Acceptable(bodies) <= bodies && (forall i :: 0 <= i < k ==> |bodies[i]| <= MAX_BODY)
            && (k < |bodies| ==> |bodies[k]| > MAX_BODY)
    decreases |bodies|
  {
    if bodies != [] {
      AcceptablePrefix(bodies[1..]);
      assert forall i :: 0 < i < |bodies| ==> bodies[i] == bodies[1..][i - 1];
    }
  }

  lemma {:induction false} AcceptableAll(bodies: seq<Bytes>)
    ensures Acceptable(bodies) == bodies <==> forall i :: 0 <= i < |bodies| ==> |bodies[i]| <= MAX_BODY
    decreases |bodies|
  {
    if bodies != [] {
      AcceptableAll(bodies[1..]);
      assert forall i :: 0 < i < |bodies| ==> bodies[i] == bodies[1..][i - 1];
      if Acceptable(bodies) == bodies {
        assert Acceptable(bodies)[1..] == Acceptable(bodies[1..]);
      }
    }
  }

  /**
    * At any moment, when only part of the stream has arrived, the receiver has yielded the first few bodies and holds
    * the beginning of the next frame, no more.
    */
  lemma PartialStream(bodies: seq<Bytes>, chunks: seq<Bytes>)
    requires Sendable(bodies) && Flatten(chunks) <= Sent(bodies)
    ensures var r := FeedAll(NextFrame, [], chunks);
            && r.outs <= bodies
            && (!r.halted ==> Sent(r.outs) + r.rest == Flatten(chunks) && NextFrame(r.rest).Wait?)
  {
    NextFrameWellBehaved();
    SplitIndependent(NextFrame, [], chunks);
    assert [] + Flatten(chunks) == Flatten(chunks);
    ParsePartial(bodies, Flatten(chunks));
  }

  /** A frame taken off part of the stream is the first frame sent. */
  lemma TakesFirst(bodies: seq<Bytes>, s: Bytes)
    requires Sendable(bodies) && s <= Sent(bodies) && NextFrame(s).Take?
    ensures bodies != [] && NextFrame(s) == Take(4 + |bodies[0]|, bodies[0])
    ensures 4 + |bodies[0]| <= |s| && s[..4 + |bodies[0]|] == Frame(bodies[0]) && s[4 + |bodies[0]|..] <= Sent(bodies[1..])
  {
    hide NextFrame, Frame;
    NextFrameWellBehaved();
    NothingWaits();
    var rest := Sent(bodies)[|s|..];
    assert s + rest == Sent(bodies);
    KeepsDecision(NextFrame, s, rest);
    if bodies == [] {
      assert false;
    } else {
      NextOfFrame(bodies[0], Sent(bodies[1..]));
      FrameLength(bodies[0]);
    }
  }

  lemma {:induction false} ParsePartial(bodies: seq<Bytes>, s: Bytes)
    requires Sendable(bodies) && s <= Sent(bodies)
    ensures var r := Parse(NextFrame, s);
            && r.outs <= bodies
            && (!r.halted ==> Sent(r.outs) + r.rest == s && NextFrame(r.rest).Wait?)
    decreases |bodies|
  {
    hide NextFrame, Frame;
    NextFrameWellBehaved();
    RestWaits(NextFrame, s);
    if NextFrame(s).Take? {
      Unfold(NextFrame, s);
      TakesFirst(bodies, s);
      var b, n := bodies[0], 4 + |bodies[0]|;
      ParsePartial(bodies[1..], s[n..]);
      var r := Parse(NextFrame, s[n..]);
      assert [b] + r.outs <= bodies;
      if !r.halted {
        assert ([b] + r.outs)[1..] == r.outs;
        Assoc(Frame(b), Sent(r.outs), r.rest);
        assert s == s[..n] + s[n..];
      }
    } else {
      assert Sent([]) + s == s;
    }
  }

  lemma FrameLength(body: Bytes)
    ensures |Frame(body)| == 4 + |body|
  {
  }
}
