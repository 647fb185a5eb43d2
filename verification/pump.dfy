/** The I/O pump: one task that owns the terminal, the pseudo-terminal and the session. */
module Pump {
  import opened Incremental
  import opened Rings
  import opened Session
  import opened SessionRuns
  import Utf8

  type Bytes = seq<Utf8.Byte>

  /**
    * One completed arm of the select loop. An empty read is end of file; a write says how much was accepted; a
    * failed read or write ends the loop.
    */
  datatype Arm =
    | ChildOutput(at: Instant, bytes: Bytes, reply: Reply)
    | Keystrokes(bytes: Bytes)
    | ChildAccepts(n: nat)
    | ScreenAccepts(n: nat)
    | AgentInput(bytes: Bytes)
    | ResizeRequest(accepted: bool, at: Instant, size: Size, reply: Reply)
    | CheckpointTick(at: Instant)
    | IoFailure

  predicate Stops(arm: Arm) {
    || arm.IoFailure?
    || (arm.ChildOutput? && arm.bytes == [])
    || (arm.Keystrokes? && arm.bytes == [])
  }

  /** The arms up to the one that ends the loop. */
  function Executed(arms: seq<Arm>): seq<Arm> {
    if arms == [] || Stops(arms[0]) then [] else [arms[0]] + Executed(arms[1..])
  }

  /** Chunks bound for the child, human and agent alike, in order of arrival. */
  function Arrivals(arms: seq<Arm>): seq<Bytes> {
    if arms == [] then []
    else
      var last := arms[|arms| - 1];
      Arrivals(arms[..|arms| - 1]) + if last.Keystrokes? || last.AgentInput? then [last.bytes] else []
  }

  /** What the child wrote, read by read. */
  function ChildReads(arms: seq<Arm>): seq<Bytes> {
    if arms == [] then []
    else
      var last := arms[|arms| - 1];
      ChildReads(arms[..|arms| - 1]) + if last.ChildOutput? then [last.bytes] else []
  }

  /** What the session is told. A resize the kernel refused is not passed on. */
  function Told(arm: Arm): seq<Event> {
    match arm
    case ChildOutput(at, bytes, reply) => [Feed(at, bytes, reply)]
    case ResizeRequest(accepted, at, size, reply) => if accepted then [Resize(at, size, reply)] else []
    case CheckpointTick(at) => [Tick(at)]
    case _ => []
  }

  function SessionEvents(arms: seq<Arm>): seq<Event> {
    if arms == [] then [] else SessionEvents(arms[..|arms| - 1]) + Told(arms[|arms| - 1])
  }

  function Min(a: nat, b: nat): nat {
    if a <= b then a else b
  }

  /** How many of `total` bytes are out after one more write of at most `n`. */
  function After(taken: nat, n: nat, total: nat): nat {
    if taken <= total then taken + Min(n, total - taken) else taken
  }

  /** How many bytes the child has taken: each write takes what it accepts of what has arrived by then. */
  function Taken(arms: seq<Arm>): nat {
    if arms == [] then 0
    else
      var front, last := arms[..|arms| - 1], arms[|arms| - 1];
      if last.ChildAccepts? then After(Taken(front), last.n, |Flatten(Arrivals(front))|) else Taken(front)
  }

  /** How many bytes the screen has taken. */
  function Drawn(arms: seq<Arm>): nat {
    if arms == [] then 0
    else
      var front, last := arms[..|arms| - 1], arms[|arms| - 1];
      if last.ScreenAccepts? then After(Drawn(front), last.n, |Flatten(ChildReads(front))|) else Drawn(front)
  }

  /** The two queues of the loop, with everything that has gone through them. */
  class Pump {
    var toChild: Bytes
    var toScreen: Bytes
    const session: Session

    // What the child and the screen have accepted so far.
    var sent: Bytes
    var shown: Bytes

    ghost var start: SessionState
    ghost var arms: seq<Arm>

    ghost predicate Valid()
      reads this, session, session.scanner, session.decoder, session.history
    {
      && session.Valid()
      && sent + toChild == Flatten(Arrivals(arms))
      && |sent| == Taken(arms)
      && shown + toScreen == Flatten(ChildReads(arms))
      && |shown| == Drawn(arms)
      && session.State() == Run(start, SessionEvents(arms))
    }

    constructor (now: Instant, size: Size, view: seq<string>)
      ensures Valid() && arms == [] && sent == [] && shown == [] && start == Init(now, size, view)
      ensures fresh(session) && fresh(session.scanner) && fresh(session.decoder) && fresh(session.history)
    {
      session := new Session(now, size, view);
      toChild, toScreen := [], [];
      start, arms, sent, shown := Init(now, size, view), [], [], [];
    }

    /** Keystrokes and agent input join one queue. */
    method Enqueue(arm: Arm)
      requires Valid() && (arm.Keystrokes? || arm.AgentInput?)
      modifies this
      ensures Valid() && arms == old(arms) + [arm] && unchanged(`start, `sent, `shown, `toScreen)
    {
      hide Run, Flatten, Arrivals, ChildReads, SessionEvents, Taken, Drawn;
      Extends(arms, arm);
      Assoc(sent, toChild, arm.bytes);
      toChild := toChild + arm.bytes;
      arms := arms + [arm];
    }

    /** A write that accepted `n` bytes, possibly short; a disabled arm when nothing is queued. */
    method DrainChild(n: nat)
      requires Valid()
      modifies this
      ensures Valid() && arms == old(arms) + [ChildAccepts(n)] && unchanged(`start, `shown, `toScreen)
      ensures sent == old(sent + toChild[..Min(n, |toChild|)])
    {
      hide Run, Flatten, Arrivals, ChildReads, SessionEvents, Taken, Drawn;
      Extends(arms, ChildAccepts(n));
      if toChild != [] {
        var k := Min(n, |toChild|);
        Assoc(sent, toChild[..k], toChild[k..]);
        assert toChild[..k] + toChild[k..] == toChild;
        sent := sent + toChild[..k];
        toChild := toChild[k..];
      }
      arms := arms + [ChildAccepts(n)];
    }

    method DrainScreen(n: nat)
      requires Valid()
      modifies this
      ensures Valid() && arms == old(arms) + [ScreenAccepts(n)] && unchanged(`start, `sent, `toChild)
      ensures shown == old(shown + toScreen[..Min(n, |toScreen|)])
    {
      hide Run, Flatten, Arrivals, ChildReads, SessionEvents, Taken, Drawn;
      Extends(arms, ScreenAccepts(n));
      if toScreen != [] {
        var k := Min(n, |toScreen|);
        Assoc(shown, toScreen[..k], toScreen[k..]);
        assert toScreen[..k] + toScreen[k..] == toScreen;
        shown := shown + toScreen[..k];
        toScreen := toScreen[k..];
      }
      arms := arms + [ScreenAccepts(n)];
    }

    /** Child output forks two ways: verbatim to the screen, and to the session. */
    method ForkOutput(at: Instant, bytes: Bytes, reply: Reply)
      requires Valid()
      modifies this, session, session.scanner, session.decoder, session.history
      ensures Valid() && arms == old(arms) + [ChildOutput(at, bytes, reply)]
      ensures unchanged(`start, `sent, `shown, `toChild)
    {
      hide Run, React, Flatten, Arrivals, ChildReads, SessionEvents;
      Extends(arms, ChildOutput(at, bytes, reply));
      RunStep(start, SessionEvents(arms), Feed(at, bytes, reply));
      Assoc(shown, toScreen, bytes);
      session.FeedOutput(at, bytes, reply);
      toScreen := toScreen + bytes;
      arms := arms + [ChildOutput(at, bytes, reply)];
    }

    method ApplyResize(accepted: bool, at: Instant, size: Size, reply: Reply)
      requires Valid()
      modifies this, session, session.history
      ensures Valid() && arms == old(arms) + [ResizeRequest(accepted, at, size, reply)]
      ensures unchanged(`start, `sent, `shown, `toChild, `toScreen)
    {
      hide Run, React, Flatten, Arrivals, ChildReads, SessionEvents;
      Extends(arms, ResizeRequest(accepted, at, size, reply));
      RunStep(start, SessionEvents(arms), Resize(at, size, reply));
      if accepted {
        session.ResizeTo(at, size, reply);
      }
      arms := arms + [ResizeRequest(accepted, at, size, reply)];
    }

    method Checkpoint(at: Instant)
      requires Valid()
      modifies this, session.history
      ensures Valid() && arms == old(arms) + [CheckpointTick(at)]
      ensures unchanged(`start, `sent, `shown, `toChild, `toScreen)
    {
      hide Run, React, Flatten, Arrivals, ChildReads, SessionEvents;
      Extends(arms, CheckpointTick(at));
      RunStep(start, SessionEvents(arms), Tick(at));
      session.CheckpointNow(at);
      arms := arms + [CheckpointTick(at)];
    }

    /** One arm that does not end the loop. */
    method Turn(arm: Arm)
      requires Valid() && !Stops(arm)
      modifies this, session, session.scanner, session.decoder, session.history
      ensures Valid() && arms == old(arms) + [arm] && start == old(start)
    {
      hide Valid;
      match arm {
        case ChildOutput(at, bytes, reply) => ForkOutput(at, bytes, reply);
        case Keystrokes(_) => Enqueue(arm);
        case ChildAccepts(n) => DrainChild(n);
        case ScreenAccepts(n) => DrainScreen(n);
        case AgentInput(_) => Enqueue(arm);
        case ResizeRequest(accepted, at, size, reply) => ApplyResize(accepted, at, size, reply);
        case CheckpointTick(at) => Checkpoint(at);
      }
    }
  }

  /** How one more arm extends the streams. */
  lemma Extends(arms: seq<Arm>, arm: Arm)
    ensures Flatten(Arrivals(arms + [arm])) ==
            if arm.Keystrokes? || arm.AgentInput? then Flatten(Arrivals(arms)) + arm.bytes
            else Flatten(Arrivals(arms))
    ensures Flatten(ChildReads(arms + [arm])) ==
            if arm.ChildOutput? then Flatten(ChildReads(arms)) + arm.bytes else Flatten(ChildReads(arms))
    ensures Taken(arms + [arm]) ==
            if arm.ChildAccepts? then After(Taken(arms), arm.n, |Flatten(Arrivals(arms))|) else Taken(arms)
    ensures Drawn(arms + [arm]) ==
            if arm.ScreenAccepts? then After(Drawn(arms), arm.n, |Flatten(ChildReads(arms))|) else Drawn(arms)
    ensures SessionEvents(arms + [arm]) == SessionEvents(arms) + Told(arm)
    ensures Told(arm) == [] ==> SessionEvents(arms + [arm]) == SessionEvents(arms)
  {
    assert (arms + [arm])[..|arms|] == arms;
    assert Arrivals(arms) + [] == Arrivals(arms) && ChildReads(arms) + [] == ChildReads(arms);
    if arm.Keystrokes? || arm.AgentInput? {
      FlattenConcat(Arrivals(arms), [arm.bytes]);
      FlattenOne(arm.bytes);
    }
    if arm.ChildOutput? {
      FlattenConcat(ChildReads(arms), [arm.bytes]);
      FlattenOne(arm.bytes);
    }
  }

  lemma FlattenOne<T>(chunk: seq<T>)
    ensures Flatten([chunk]) == chunk
  {
    assert Flatten([chunk]) == chunk + Flatten([chunk][1..]);
  }

  lemma RunStep(s: SessionState, events: seq<Event>, e: Event)
    ensures Run(s, events + [e]) == React(Run(s, events), e)
    ensures events + [] == events
  {
    hide React;
    assert (events + [e])[..|events|] == events;
  }

  /**
    * Run the loop on any schedule, then flush: one last write of what is queued for the screen, of which
    * `lastWrite` bytes are accepted, and the end of the decoder's stream.
    */
  method Serve(now: Instant, size: Size, view: seq<string>, schedule: seq<Arm>,
               lastWrite: nat, endAt: Instant, endReply: Reply)
    returns (sent: Bytes, left: Bytes, shown: Bytes, queued: nat, final: SessionState)
    // The child gets whole chunks in arrival order, as far as it accepted them; what it did not is still queued.
    ensures sent + left == Flatten(Arrivals(Executed(schedule)))
    ensures |sent| == Taken(Executed(schedule))
    // The screen gets the child's bytes verbatim: all of them exactly when the last write took what was queued.
    ensures shown <= Flatten(ChildReads(Executed(schedule)))
    ensures shown == Flatten(ChildReads(Executed(schedule))) <==> lastWrite >= queued
    ensures |shown| + queued == |Flatten(ChildReads(Executed(schedule)))| + Min(lastWrite, queued)
    ensures queued == |Flatten(ChildReads(Executed(schedule)))| - Drawn(Executed(schedule))
    // The session is fed those same reads.
    ensures final == React(Run(Init(now, size, view), SessionEvents(Executed(schedule))), Finish(endAt, endReply))
  {
    hide Run, React, Init, Flatten, Arrivals, ChildReads, SessionEvents, Taken, Drawn;
    var pump := new Pump(now, size, view);
    var i := 0;
    while i < |schedule| && !Stops(schedule[i])
      invariant 0 <= i <= |schedule| && pump.Valid() && pump.start == Init(now, size, view)
      invariant fresh(pump) && fresh(pump.session)
      invariant fresh(pump.session.scanner) && fresh(pump.session.decoder) && fresh(pump.session.history)
      invariant pump.arms == schedule[..i]
      invariant Executed(schedule) == schedule[..i] + Executed(schedule[i..])
    {
      ExecutedStep(schedule, i);
      pump.Turn(schedule[i]);
      i := i + 1;
    }
    ExecutedAll(schedule, i);
    queued := |pump.toScreen|;
    shown := pump.shown + pump.toScreen[..Min(lastWrite, queued)];
    sent, left := pump.sent, pump.toChild;
    pump.session.FinishOutput(endAt, endReply);
    final := pump.session.State();
  }

  lemma ExecutedStep(schedule: seq<Arm>, i: nat)
    requires i < |schedule| && !Stops(schedule[i])
    requires Executed(schedule) == schedule[..i] + Executed(schedule[i..])
    ensures Executed(schedule) == schedule[..i + 1] + Executed(schedule[i + 1..])
  {
    hide Stops;
    var rest := schedule[i..];
    assert rest[1..] == schedule[i + 1..];
    assert Executed(rest) == [schedule[i]] + Executed(schedule[i + 1..]);
    Assoc(schedule[..i], [schedule[i]], Executed(schedule[i + 1..]));
    assert schedule[..i] + [schedule[i]] == schedule[..i + 1];
  }

  lemma ExecutedAll(schedule: seq<Arm>, i: nat)
    requires i <= |schedule| && (i < |schedule| ==> Stops(schedule[i]))
    requires Executed(schedule) == schedule[..i] + Executed(schedule[i..])
    ensures Executed(schedule) == schedule[..i]
  {
  }

  /** The session's reads are the child's reads, so the emulator is given the lossy decoding of that stream. */
  lemma {:induction false} ReadsAreChildReads(arms: seq<Arm>)
    ensures Reads(SessionEvents(arms)) == ChildReads(arms) && NoFinish(SessionEvents(arms))
    decreases |arms|
  {
    if arms != [] {
      var front := arms[..|arms| - 1];
      ReadsAreChildReads(front);
      var es := SessionEvents(arms);
      if |es| > |SessionEvents(front)| {
        assert es[..|es| - 1] == SessionEvents(front);
      } else {
        assert es == SessionEvents(front);
      }
    }
  }

  lemma EmulatorAgreesWithScreen(start: SessionState, arms: seq<Arm>, at: Instant, reply: Reply)
    requires start.partial == []
    ensures IngestedText(start, SessionEvents(arms) + [Finish(at, reply)]) ==
            Utf8.Lossy(Flatten(ChildReads(arms)))
  {
    ReadsAreChildReads(arms);
    EmulatorSeesLossyStream(start, SessionEvents(arms), at, reply);
  }

  /** The loop runs up to the first failure, empty read of the child, or end of the keystrokes. */
  lemma {:induction false} RunsUntilStopped(schedule: seq<Arm>)
    ensures var done := Executed(schedule);
            && done <= schedule
            && (forall i :: 0 <= i < |done| ==>
                  !done[i].IoFailure? && (done[i].ChildOutput? || done[i].Keystrokes? ==> done[i].bytes != []))
            && (|done| < |schedule| ==>
                  var next := schedule[|done|];
                  next.IoFailure? || ((next.ChildOutput? || next.Keystrokes?) && next.bytes == []))
    decreases |schedule|
  {
    if schedule != [] {
      RunsUntilStopped(schedule[1..]);
    }
  }

  /** The size the kernel last accepted. */
  ghost function LastSize(size: Size, arms: seq<Arm>): Size {
    if arms == [] then size
    else
      var last := arms[|arms| - 1];
      if last.ResizeRequest? && last.accepted then last.size else LastSize(size, arms[..|arms| - 1])
  }

  /** The session always has the size the kernel last accepted. */
  lemma {:induction false} SizeFollowsTheKernel(start: SessionState, arms: seq<Arm>)
    ensures Run(start, SessionEvents(arms)).size == LastSize(start.size, arms)
    decreases |arms|
  {
    hide Run, SessionEvents;
    if arms == [] {
      NothingTold(start);
    } else {
      var front, last := arms[..|arms| - 1], arms[|arms| - 1];
      SizeFollowsTheKernel(start, front);
      OneMoreTold(start, front, last);
      assert front + [last] == arms;
    }
  }

  lemma NothingTold(start: SessionState)
    ensures Run(start, SessionEvents([])) == start
  {
  }

  lemma OneMoreTold(start: SessionState, arms: seq<Arm>, arm: Arm)
    ensures Run(start, SessionEvents(arms + [arm])).size ==
            if arm.ResizeRequest? && arm.accepted then arm.size else Run(start, SessionEvents(arms)).size
  {
    hide Run, React, SessionEvents;
    var es := SessionEvents(arms);
    assert SessionEvents(arms + [arm]) == es + Told(arm) by { ToldMore(arms, arm); }
    if Told(arm) == [] {
      assert es + [] == es;
    } else {
      var e := Told(arm)[0];
      assert Told(arm) == [e];
      RunStep(start, es, e);
      ReactSize(Run(start, es), e);
    }
  }

  lemma ToldMore(arms: seq<Arm>, arm: Arm)
    ensures SessionEvents(arms + [arm]) == SessionEvents(arms) + Told(arm)
  {
    hide Told;
    assert (arms + [arm])[..|arms|] == arms;
  }

  lemma ReactSize(s: SessionState, e: Event)
    ensures React(s, e).size == if e.Resize? then e.size else s.size
  {
    hide RecordAll, Record, Utf8.Decode, Utf8.FlushText;
  }

  /** After a tick the newest checkpoint is less than half a second old. */
  lemma TickKeepsCheckpointsFresh(s: SessionState, at: Instant)
    requires s.rings.limits == DEFAULT_LIMITS
    ensures var last := React(s, Tick(at)).rings.lastCheckpoint;
            last.Some? && at - last.value < 500
  {
  }

  /** So whenever the loop has handled a tick, the session's newest checkpoint is less than half a second old. */
  lemma TicksReachTheSession(now: Instant, size: Size, view: seq<string>, arms: seq<Arm>, at: Instant)
    ensures var last := Run(Init(now, size, view), SessionEvents(arms + [CheckpointTick(at)])).rings.lastCheckpoint;
            last.Some? && at - last.value < 500
  {
    hide Run, React, Init, SessionEvents;
    var start := Init(now, size, view);
    var es := SessionEvents(arms);
    ToldMore(arms, CheckpointTick(at));
    RunStep(start, es, Tick(at));
    LimitsOf(now, size, view, es);
    TickKeepsCheckpointsFresh(Run(start, es), at);
  }

  lemma {:induction false} LimitsOf(now: Instant, size: Size, view: seq<string>, events: seq<Event>)
    ensures Run(Init(now, size, view), events).rings.limits == DEFAULT_LIMITS
    decreases |events|
  {
    hide React;
    if events != [] {
      var n := |events| - 1;
      LimitsOf(now, size, view, events[..n]);
      ReactCheckpoints(Run(Init(now, size, view), events[..n]), events[n]);
    }
  }
}
