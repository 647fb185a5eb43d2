/** Forwarding input frames over a stream whose writes can time out part of the way. */
module InputSender {
  import opened Incremental
  import opened InputStream

  /** A frame, and how many of its bytes the stream took before the write finished or timed out. */
  datatype Attempt = Attempt(body: Bytes, accepted: nat)

  predicate IsWhole(a: Attempt) {
    a.accepted >= |Frame(a.body)|
  }

  function OnWire(a: Attempt): Bytes {
    if IsWhole(a) then Frame(a.body) else Frame(a.body)[..a.accepted]
  }

  /** A batch is given up at the first frame that is cut short; the frames after it are discarded. */
  function Tried(batch: seq<Bytes>, accepted: seq<nat>): seq<Attempt>
    requires |accepted| == |batch|
  {
    if batch == [] then []
    else
      var a := Attempt(batch[0], accepted[0]);
      if IsWhole(a) then [a] + Tried(batch[1..], accepted[1..]) else [a]
  }

  function Written(attempts: seq<Attempt>): Bytes {
    if attempts == [] then [] else OnWire(attempts[0]) + Written(attempts[1..])
  }

  function Completed(attempts: seq<Attempt>): seq<Bytes> {
    if attempts == [] then []
    else (if IsWhole(attempts[0]) then [attempts[0].body] else []) + Completed(attempts[1..])
  }

  method ForwardInput(batch: seq<Bytes>, accepted: seq<nat>) returns (wire: Bytes)
    requires |accepted| == |batch|
    ensures wire == Written(Tried(batch, accepted))
  {
    hide Frame;
    wire := [];
    var i := 0;
    while i < |batch|
      invariant 0 <= i <= |batch|
      invariant Written(Tried(batch, accepted)) == wire + Written(Tried(batch[i..], accepted[i..]))
    {
      var a := Attempt(batch[i], accepted[i]);
      assert batch[i..][1..] == batch[i + 1..] && accepted[i..][1..] == accepted[i + 1..];
      OneTried(a, Tried(batch[i + 1..], accepted[i + 1..]));
      ghost var rest := Written(Tried(batch[i + 1..], accepted[i + 1..]));
      Assoc(wire, OnWire(a), rest);
      wire := wire + OnWire(a);
      if !IsWhole(a) {
        return;
      }
      i := i + 1;
    }
  }

  /**
    * The frames of a batch are tried in order, each with its own write result, up to the first one whose write takes
    * fewer bytes than its length prefix and body have.
    */
  lemma {:induction false} TriedUntilCut(batch: seq<Bytes>, accepted: seq<nat>)
    requires |accepted| == |batch|
    ensures var tried := Tried(batch, accepted);
            && |tried| <= |batch|
            && (forall i :: 0 <= i < |tried| ==> tried[i] == Attempt(batch[i], accepted[i]))
            && (forall i :: 0 <= i < |tried| - 1 ==> accepted[i] >= 4 + |batch[i]|)
            && (|tried| < |batch| ==> tried != [] && accepted[|tried| - 1] < 4 + |batch[|tried| - 1]|)
    decreases |batch|
  {
    hide Frame;
    if batch != [] {
      FrameLength(batch[0]);
      TriedUntilCut(batch[1..], accepted[1..]);
      assert forall i :: 0 < i < |batch| ==> batch[i] == batch[1..][i - 1] && accepted[i] == accepted[1..][i - 1];
    }
  }

  lemma OneTried(a: Attempt, more: seq<Attempt>)
    ensures Written([a] + more) == OnWire(a) + Written(more) && Written([a]) == OnWire(a)
  {
    hide OnWire;
    assert ([a] + more)[1..] == more;
    assert [a][1..] == [];
    assert OnWire(a) + [] == OnWire(a);
  }

  // ----- When sender and receiver stay in step -----

  ghost predicate Small(bodies: seq<Bytes>) {
    forall i :: 0 <= i < |bodies| ==> |bodies[i]| <= MAX_BODY
  }

  ghost predicate Yields(chunks: seq<Bytes>, bodies: seq<Bytes>) {
    var r := FeedAll(NextFrame, [], chunks);
    !r.halted && r.outs == bodies
  }

  /** Whatever is sent later, and however it arrives, the receiver gets exactly the completed frames and then those. */
  ghost predicate InStep(attempts: seq<Attempt>) {
    forall later: seq<Bytes>, chunks: seq<Bytes> ::
      Small(later) && Flatten(chunks) == Written(attempts) + Sent(later) ==> Yields(chunks, Completed(attempts) + later)
  }

  /** Every frame went out whole or not at all. */
  ghost predicate AllOrNothing(attempts: seq<Attempt>) {
    forall i :: 0 <= i < |attempts| ==> IsWhole(attempts[i]) || attempts[i].accepted == 0
  }

  /** The round trip survives write timeouts exactly when no frame was cut short after its first byte. */
  lemma InStepIff(attempts: seq<Attempt>)
    ensures InStep(attempts) <==> AllOrNothing(attempts) && Small(Completed(attempts))
  {
    hide Yields, Written, Completed, AllOrNothing, Small, Sent, NextFrame;
    if AllOrNothing(attempts) && Small(Completed(attempts)) {
      WrittenIsSent(attempts);
      forall later: seq<Bytes>, chunks: seq<Bytes> | Small(later) && Flatten(chunks) == Written(attempts) + Sent(later)
        ensures Yields(chunks, Completed(attempts) + later)
      {
        SentConcat(Completed(attempts), later);
        SmallYields(Completed(attempts) + later, chunks);
      }
    }
    if InStep(attempts) {
      StepMeansWhole(attempts);
    }
  }

  lemma {:induction false} SentConcat(a: seq<Bytes>, b: seq<Bytes>)
    ensures Sent(a + b) == Sent(a) + Sent(b) && (Small(a) && Small(b) ==> Small(a + b))
    decreases |a|
  {
    hide Frame;
    if a == [] {
      assert a + b == b;
    } else {
      assert (a + b)[1..] == a[1..] + b;
      SentConcat(a[1..], b);
      Assoc(Frame(a[0]), Sent(a[1..]), Sent(b));
    }
  }

  lemma SmallYields(bodies: seq<Bytes>, chunks: seq<Bytes>)
    requires Small(bodies) && Flatten(chunks) == Sent(bodies)
    ensures Yields(chunks, bodies)
  {
    hide NextFrame, Sent, Acceptable;
    ReceiverYieldsWhatWasSent(bodies, chunks);
  }

  lemma {:induction false} WrittenIsSent(attempts: seq<Attempt>)
    requires AllOrNothing(attempts)
    ensures Written(attempts) == Sent(Completed(attempts))
    decreases |attempts|
  {
    hide Frame;
    if attempts != [] {
      var a, more := attempts[0], attempts[1..];
      WrittenIsSent(more);
      if IsWhole(a) {
        assert ([a.body] + Completed(more))[1..] == Completed(more);
      } else {
        assert OnWire(a) == [] && [] + Written(more) == Written(more) && [] + Completed(more) == Completed(more);
      }
    }
  }

  /** Bytes of frames that were cut short. */
  function Stray(attempts: seq<Attempt>): nat {
    if attempts == [] then 0 else (if IsWhole(attempts[0]) then 0 else attempts[0].accepted) + Stray(attempts[1..])
  }

  lemma {:induction false} WrittenLength(attempts: seq<Attempt>)
    ensures |Written(attempts)| == |Sent(Completed(attempts))| + Stray(attempts)
    ensures Stray(attempts) == 0 <==> AllOrNothing(attempts)
    decreases |attempts|
  {
    hide Frame;
    if attempts != [] {
      var a, more := attempts[0], attempts[1..];
      WrittenLength(more);
      if IsWhole(a) {
        assert ([a.body] + Completed(more))[1..] == Completed(more);
      } else {
        assert [] + Completed(more) == Completed(more);
      }
    }
  }

  /** Whatever a receiver has been given, its frames and what is left over spell it out. */
  lemma {:induction false} ParseReassembles(s: Bytes)
    ensures var r := Parse(NextFrame, s); Small(r.outs) && Sent(r.outs) + r.rest == s
    decreases |s|
  {
    hide NextFrame, Frame;
    NextFrameWellBehaved();
    if NextFrame(s).Take? {
      Unfold(NextFrame, s);
      var n, body := NextFrame(s).n, NextFrame(s).out;
      ParseReassembles(s[n..]);
      var r := Parse(NextFrame, s[n..]);
      TakesFrame(s);
      assert ([body] + r.outs)[1..] == r.outs;
      Assoc(Frame(body), Sent(r.outs), r.rest);
      assert s[..n] + s[n..] == s;
    } else {
      assert Sent([]) + s == s;
    }
  }

  lemma TakesFrame(s: Bytes)
    requires NextFrame(s).Take?
    ensures var n, body := NextFrame(s).n, NextFrame(s).out; n <= |s| && s[..n] == Frame(body) && |body| <= MAX_BODY
  {
    hide LittleEndian, FromLittleEndian;
    var len := FromLittleEndian(s);
    LengthPrefix(s);
    assert s[..4 + len] == s[..4] + s[4..4 + len];
  }

  lemma LengthPrefix(s: Bytes)
    requires |s| >= 4 && FromLittleEndian(s) < U32
    ensures LittleEndian(FromLittleEndian(s)) == s[..4]
  {
    Canonical(s[0], s[1], s[2], s[3]);
    var v := FromLittleEndian(s);
    assert v % 256 == s[0] && v / 256 % 256 == s[1] && v / 65536 % 256 == s[2] && v / 16777216 == s[3];
    assert s[..4] == [s[0], s[1], s[2], s[3]];
  }

  lemma Canonical(a: nat, b: nat, c: nat, d: nat)
    requires a < 256 && b < 256 && c < 256 && d < 256
    ensures var v := a + 256 * b + 65536 * c + 16777216 * d;
            v % 256 == a && v / 256 % 256 == b && v / 65536 % 256 == c && v / 16777216 == d
  {
    var v := a + 256 * b + 65536 * c + 16777216 * d;
    assert v / 256 == b + 256 * c + 65536 * d;
    assert v / 65536 == c + 256 * d;
  }

  /** What one further frame, arriving after everything else, must lead to. */
  lemma OneMore(attempts: seq<Attempt>, rest: Bytes, body: Bytes)
    requires InStep(attempts) && |body| <= MAX_BODY
    requires Written(attempts) == Sent(Completed(attempts)) + rest
    ensures rest != [] ==> rest[0] == Frame(body)[0]
  {
    hide NextFrame, Written, Completed, Frame, InStep, Yields;
    var done, later := Completed(attempts), [body];
    assert Small(later);
    var s := Written(attempts) + Sent(later);
    StepYields(attempts, later);
    ParseReassembles(s);
    var r := Parse(NextFrame, s);
    SentConcat(done, later);
    OneSent(body);
    var f := Frame(body);
    assert s == (Sent(done) + f) + r.rest;
    assert s == (Sent(done) + rest) + f;
    FrameLength(body);
    if rest != [] {
      assert s[|Sent(done)|] == f[0] && s[|Sent(done)|] == rest[0];
    }
  }

  lemma StepYields(attempts: seq<Attempt>, later: seq<Bytes>)
    requires InStep(attempts) && Small(later)
    ensures var r := Parse(NextFrame, Written(attempts) + Sent(later));
            !r.halted && r.outs == Completed(attempts) + later
  {
    hide NextFrame, Written, Completed, Sent, Small;
    var s := Written(attempts) + Sent(later);
    var chunks: seq<Bytes> := [s];
    assert Flatten(chunks) == s + Flatten(chunks[1..]) && s + [] == s;
    assert Yields(chunks, Completed(attempts) + later);
    NextFrameWellBehaved();
    SplitIndependent(NextFrame, [], chunks);
    assert [] + s == s;
  }

  lemma OneSent(body: Bytes)
    ensures Sent([body]) == Frame(body)
  {
    hide Frame;
    assert [body][1..] == [];
    assert Frame(body) + [] == Frame(body);
  }

  lemma StepMeansWhole(attempts: seq<Attempt>)
    requires InStep(attempts)
    ensures AllOrNothing(attempts) && Small(Completed(attempts))
  {
    hide NextFrame, Written, Completed, Frame, InStep, AllOrNothing, Small;
    NothingIsSmall();
    StepYields(attempts, []);
    var s := Written(attempts);
    assert s + Sent([]) == s && Completed(attempts) + [] == Completed(attempts);
    ParseReassembles(s);
    var rest := Parse(NextFrame, s).rest;
    OneMore(attempts, rest, []);
    OneMore(attempts, rest, [0]);
    FirstBytes();
    assert rest == [];
    WrittenLength(attempts);
  }

  lemma NothingIsSmall()
    ensures Small([])
  {
  }

  lemma FirstBytes()
    ensures |Frame([])| > 0 && |Frame([0])| > 0 && Frame([])[0] != Frame([0])[0]
  {
  }
}
