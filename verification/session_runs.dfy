/** What delta reports mean over whole runs of a session. */
module SessionRuns {
  import opened Options
  import opened Incremental
  import opened Rings
  import opened Session
  import RingLog
  import Utf8
  import Modes
  import Diff

  // ----- The newest output and dirty records are always held -----

  ghost predicate OutputAt(r: RingState, cutoff: Instant) {
    && r.output != []
    && r.output[|r.output| - 1].at >= cutoff && r.output[|r.output| - 1].item != ""
  }

  ghost predicate DirtyAt(r: RingState, cutoff: Instant) {
    && r.dirty != []
    && r.dirty[|r.dirty| - 1].at >= cutoff && r.dirty[|r.dirty| - 1].item != []
  }

  ghost predicate Noisy(r: RingState, cutoff: Instant) {
    OutputAt(r, cutoff) || DirtyAt(r, cutoff)
  }

  lemma {:induction false} FlattenNonEmpty<T>(chunks: seq<seq<T>>)
    requires chunks != [] && chunks[|chunks| - 1] != []
    ensures Flatten(chunks) != []
    decreases |chunks|
  {
    if |chunks| > 1 {
      FlattenNonEmpty(chunks[1..]);
    }
  }

  lemma {:induction false} SinceKeepsLast<T>(s: seq<Stamped<T>>, cutoff: Instant)
    requires s != [] && s[|s| - 1].at >= cutoff
    ensures var t := Since(s, cutoff); t != [] && t[|t| - 1] == s[|s| - 1]
    decreases |s|
  {
    if |s| > 1 {
      SinceKeepsLast(s[1..], cutoff);
    }
  }

  /** A record inside the window keeps the short cut from being taken. */
  lemma NoisyIsNotQuiet(r: RingState, cutoff: Instant)
    requires Noisy(r, cutoff)
    ensures !Quiet(r, cutoff)
  {
    if OutputAt(r, cutoff) {
      SinceKeepsLast(r.output, cutoff);
      FlattenNonEmpty(Items(Since(r.output, cutoff)));
    } else {
      SinceKeepsLast(r.dirty, cutoff);
      var rows := Flatten(Items(Since(r.dirty, cutoff)));
      FlattenNonEmpty(Items(Since(r.dirty, cutoff)));
      assert rows[0] in rows && rows[0] in SortDedup(rows);
    }
  }

  lemma {:induction false} LongestFitKeepsLast(limits: Limits, s: seq<Stamped<string>>)
    requires s != [] && Fits(limits, [s[|s| - 1]])
    ensures var k := LongestFit(limits, s); k != [] && k[|k| - 1] == s[|s| - 1]
    decreases |s|
  {
    if !Fits(limits, s) {
      assert s != [s[|s| - 1]];
      LongestFitKeepsLast(limits, s[1..]);
    }
  }

  /** A decoded read is far smaller than the output ring, so recording it never evicts itself. */
  ghost predicate SmallOp(op: Op) {
    op.Output? ==> Utf8.TextBytes(op.text) <= 3 * (READ_BUF + Utf8.MAX_UTF8_LEN)
  }

  lemma RecordStaysNoisy(r: RingState, op: Op, cutoff: Instant)
    requires r.limits == DEFAULT_LIMITS && op.at >= cutoff && SmallOp(op)
    ensures Record(r, op).limits == DEFAULT_LIMITS
    ensures OutputAt(r, cutoff) || (op.Output? && op.text != "") ==> OutputAt(Record(r, op), cutoff)
    ensures DirtyAt(r, cutoff) || (op.Dirty? && op.rows != []) ==> DirtyAt(Record(r, op), cutoff)
  {
    if op.Output? && op.text != "" {
      var x := Stamped(op.at, op.text);
      assert Bytes([x]) == Utf8.TextBytes(op.text) + Bytes([x][1..]);
      LongestFitKeepsLast(r.limits, r.output + [x]);
    }
  }

  ghost predicate AllAt(ops: seq<Op>, at: Instant) {
    forall i :: 0 <= i < |ops| ==> ops[i].at == at && SmallOp(ops[i])
  }

  ghost predicate Loud(op: Op) {
    (op.Output? && op.text != "") || (op.Dirty? && op.rows != [])
  }

  ghost predicate AnyLoud(ops: seq<Op>) {
    ops != [] && (Loud(ops[|ops| - 1]) || AnyLoud(ops[..|ops| - 1]))
  }

  lemma {:induction false} RecordAllStaysNoisy(r: RingState, ops: seq<Op>, at: Instant, cutoff: Instant)
    requires r.limits == DEFAULT_LIMITS && AllAt(ops, at) && at >= cutoff
    ensures RecordAll(r, ops).limits == DEFAULT_LIMITS
    ensures Noisy(r, cutoff) || AnyLoud(ops) ==> Noisy(RecordAll(r, ops), cutoff)
    decreases |ops|
  {
    hide Record, OutputAt, DirtyAt;
    if ops != [] {
      var front, op := ops[..|ops| - 1], ops[|ops| - 1];
      RecordAllStaysNoisy(r, front, at, cutoff);
      RecordStaysNoisy(RecordAll(r, front), op, cutoff);
    }
  }

  // ----- One event -----

  /** What every reachable state satisfies. */
  ghost predicate Sound(s: SessionState) {
    s.rings.limits == DEFAULT_LIMITS && |s.partial| < Utf8.MAX_UTF8_LEN
  }

  lemma DecodedIsSmall(s: SessionState, e: Event)
    requires Sound(s) && (e.Feed? ==> |e.bytes| <= READ_BUF)
    ensures Utf8.TextBytes(Decoded(s, e).0) <= 3 * (READ_BUF + Utf8.MAX_UTF8_LEN)
    ensures |Decoded(s, e).1| < Utf8.MAX_UTF8_LEN
  {
    if e.Feed? {
      var buf := s.partial + e.bytes;
      Utf8.ExpansionBound(buf);
      Utf8.RestIsShort(buf);
    } else {
      Utf8.FlushIsSmall(s.partial);
    }
  }

  /** The records one event makes. */
  ghost function OpsOf(s: SessionState, e: Event): seq<Op> {
    match e
    case Feed(at, _, reply) =>
      var text := Decoded(s, e).0;
      if text == "" then []
      else IngestOps(at, text, reply, s.Alt(), Modes.Scan(s.scanner, text).modes.altScreen)
    case Finish(at, reply) =>
      var text := Decoded(s, e).0;
      if text == "" then []
      else IngestOps(at, text, reply, s.Alt(), Modes.Scan(s.scanner, text).modes.altScreen)
    case Resize(at, size, reply) => if size == s.size then [] else ResizeOps(at, reply, s.Alt())
    case Tick(at) => [Checkpoint(at, false, s.Screen())]
  }

  lemma ReactRecords(s: SessionState, e: Event)
    ensures React(s, e).rings == RecordAll(s.rings, OpsOf(s, e))
    ensures React(s, e).started == s.started
    ensures React(s, e).partial == Decoded(s, e).1
  {
    hide Record, IngestOps, ResizeOps, Utf8.Decode, Modes.Scan;
    if e.Tick? {
      RecordThree(s.rings, OpsOf(s, e)[0], OpsOf(s, e)[0], OpsOf(s, e)[0]);
    }
  }

  lemma OpsOfAt(s: SessionState, e: Event)
    requires Sound(s) && (e.Feed? ==> |e.bytes| <= READ_BUF)
    ensures AllAt(OpsOf(s, e), e.at)
  {
    hide Utf8.Decode, Utf8.TextBytes, Modes.Scan;
    DecodedIsSmall(s, e);
  }

  /** An event that changes the view or the alternate flag leaves a loud record. */
  lemma ChangeIsLoud(s: SessionState, e: Event)
    requires HonestResize(s, e)
    requires React(s, e).Screen() != s.Screen()
    ensures AnyLoud(OpsOf(s, e))
  {
    hide Utf8.Decode, Utf8.FlushText, Modes.Scan, RecordAll, Record;
    var ops := OpsOf(s, e);
    AnyLoudAt(ops, if e.Resize? then |ops| - 2 else 0);
  }

  lemma {:induction false} AnyLoudAt(ops: seq<Op>, k: nat)
    requires k < |ops| && Loud(ops[k])
    ensures AnyLoud(ops)
    decreases |ops|
  {
    if k < |ops| - 1 {
      AnyLoudAt(ops[..|ops| - 1], k);
    }
  }

  /** Once there is a record inside the window there stays one, and a loud event leaves one. */
  lemma ReactHears(s: SessionState, e: Event, cutoff: Instant)
    requires Sound(s) && (e.Feed? ==> |e.bytes| <= READ_BUF)
    ensures Sound(React(s, e))
    ensures e.at >= cutoff && (Noisy(s.rings, cutoff) || AnyLoud(OpsOf(s, e))) ==> Noisy(React(s, e).rings, cutoff)
  {
    hide OpsOf, React, Noisy, AllAt, AnyLoud, Decoded;
    ReactRecords(s, e);
    DecodedIsSmall(s, e);
    OpsOfAt(s, e);
    RecordAllStaysNoisy(s.rings, OpsOf(s, e), e.at, e.at);
    if e.at >= cutoff {
      RecordAllStaysNoisy(s.rings, OpsOf(s, e), e.at, cutoff);
    }
  }

  lemma ReactStaysNoisy(s: SessionState, e: Event, cutoff: Instant)
    requires Sound(s) && (e.Feed? ==> |e.bytes| <= READ_BUF) && HonestResize(s, e)
    ensures Sound(React(s, e))
    ensures e.at >= cutoff && (Noisy(s.rings, cutoff) || React(s, e).Screen() != s.Screen()) ==>
              Noisy(React(s, e).rings, cutoff)
  {
    hide OpsOf, React, Noisy, AnyLoud, HonestResize, Sound;
    ReactHears(s, e, cutoff);
    if React(s, e).Screen() != s.Screen() {
      ChangeIsLoud(s, e);
    }
  }

  // ----- Whole runs -----

  lemma GoodPrefix(s: SessionState, events: seq<Event>, k: nat)
    requires GoodRun(s, events) && k <= |events|
    ensures GoodRun(s, events[..k])
  {
    forall i | 0 <= i < k && events[..k][i].Resize?
      ensures HonestResize(Run(s, events[..k][..i]), events[..k][i])
    {
      assert events[..k][..i] == events[..i];
    }
  }

  lemma {:induction false} RunIsSound(s: SessionState, events: seq<Event>)
    requires Sound(s) && ReadsBounded(events)
    ensures Sound(Run(s, events)) && Run(s, events).started == s.started
    decreases |events|
  {
    hide React, Sound, Noisy;
    if events != [] {
      var n := |events| - 1;
      RunIsSound(s, events[..n]);
      ReactHears(Run(s, events[..n]), events[n], events[n].at);
      ReactRecords(Run(s, events[..n]), events[n]);
    }
  }

  /** Once loud inside the window, loud until now. */
  lemma {:induction false} WindowUnchanged(s: SessionState, events: seq<Event>, cutoff: Instant, k: nat)
    requires Sound(s) && GoodRun(s, events)
    requires k <= |events| && (k < |events| ==> events[k].at >= cutoff)
    requires !Noisy(Run(s, events).rings, cutoff)
    ensures Run(s, events[..k]).Screen() == Run(s, events).Screen()
    ensures !Noisy(Run(s, events[..k]).rings, cutoff)
    decreases |events|
  {
    hide React, HonestResize, Sound, Noisy;
    if k == |events| {
      assert events[..k] == events;
    } else {
      var n := |events| - 1;
      var front := events[..n];
      GoodPrefix(s, events, n);
      RunIsSound(s, front);
      assert HonestResizes(s, events);
      ReactStaysNoisy(Run(s, front), events[n], cutoff);
      assert front[..k] == events[..k];
      WindowUnchanged(s, front, cutoff, k);
    }
  }

  /** A window starts `window` before now, or with the session where the clock cannot go back that far. */
  ghost predicate StartsAt(started: Instant, now: Instant, window: nat, from: Instant) {
    from == if now - window >= -9_223_372_036_854_775_808_000 then now - window else started
  }

  lemma CutoffIsStart(s: SessionState, now: Instant, window: nat, from: Instant)
    requires StartsAt(s.started, now, window, from)
    ensures Cutoff(s, now, window) == from
  {
  }

  /**
    * Over every run of reads, resizes and ticks on a clock that never goes back: when a report is empty,
    * the view and the alternate flag have been the same at every moment since the start of its window,
    * whatever the rings have evicted.
    */
  lemma EmptyReportMeansUnchanged(
    started: Instant, size: Size, view: seq<string>, events: seq<Event>, now: Instant, window: nat, from: Instant, k: nat)
    requires var s0 := Init(started, size, view);
             && GoodRun(s0, events)
             && Delta(Run(s0, events), now, window).IsEmpty()
             && StartsAt(started, now, window, from)
             && k <= |events| && (k < |events| ==> events[k].at >= from)
    ensures var s0 := Init(started, size, view);
            Run(s0, events[..k]).Screen() == Run(s0, events).Screen()
  {
    hide Run, React, HonestResizes, Delta, Noisy, Quiet, Cutoff, StartsAt;
    var s0 := Init(started, size, view);
    var s := Run(s0, events);
    InitIsSound(started, size, view);
    RunIsSound(s0, events);
    CutoffIsStart(s, now, window, from);
    EmptyIffQuiet(s, now, window);
    if Noisy(s.rings, from) {
      NoisyIsNotQuiet(s.rings, from);
    }
    WindowUnchanged(s0, events, from, k);
  }

  lemma InitIsSound(started: Instant, size: Size, view: seq<string>)
    ensures Sound(Init(started, size, view))
  {
  }

  /** A report is empty exactly when the short cut was taken. */
  lemma EmptyIffQuiet(s: SessionState, now: Instant, window: nat)
    ensures Delta(s, now, window).IsEmpty() <==> Quiet(s.rings, Cutoff(s, now, window))
  {
    hide OutputSince, DirtyRowsSince, Diff.Script, AltScreenSwitchedSince, LastAtOrBefore, NonBlank;
    var text := OutputSince(s.rings, Cutoff(s, now, window));
    if text != "" {
      assert Utf8.TextBytes(text) > 0;
    }
  }

  // ----- Checkpoints -----

  /** Whether the event attempts a checkpoint; if not, it changes nothing that is shown. */
  predicate Attempts(s: SessionState, e: Event) {
    match e
    case Feed(_, _, _) => Decoded(s, e).0 != ""
    case Finish(_, _) => Decoded(s, e).0 != ""
    case Resize(_, size, _) => size != s.size
    case Tick(_) => true
  }

  /** The checkpoint the event attempts: of the screen it leaves, forced on a resize or a buffer switch. */
  function AttemptOf(s: SessionState, e: Event): Op {
    var t := React(s, e);
    Checkpoint(e.at, e.Resize? || t.Alt() != s.Alt(), t.Screen())
  }

  lemma {:induction false} OthersKeepCheckpoints(r: RingState, ops: seq<Op>)
    requires forall i :: 0 <= i < |ops| ==> !ops[i].Checkpoint?
    ensures var t := RecordAll(r, ops);
            t.checkpoints == r.checkpoints && t.lastCheckpoint == r.lastCheckpoint && t.limits == r.limits
    decreases |ops|
  {
    hide LongestFit, Newest, Bytes, StampAll;
    if ops != [] {
      OthersKeepCheckpoints(r, ops[..|ops| - 1]);
    }
  }

  lemma LastAlone(r: RingState, ops: seq<Op>, cp: Op)
    requires forall i :: 0 <= i < |ops| ==> !ops[i].Checkpoint?
    requires cp.Checkpoint?
    ensures RecordAll(r, ops + [cp]).checkpoints == Record(r, cp).checkpoints
    ensures RecordAll(r, ops + [cp]).limits == r.limits
  {
    OthersKeepCheckpoints(r, ops);
    assert (ops + [cp])[..|ops|] == ops;
  }

  lemma ReactCheckpoints(s: SessionState, e: Event)
    ensures !Attempts(s, e) ==> React(s, e).rings == s.rings && React(s, e).Screen() == s.Screen()
    ensures Attempts(s, e) ==> React(s, e).rings.checkpoints == Record(s.rings, AttemptOf(s, e)).checkpoints
    ensures React(s, e).rings.limits == s.rings.limits && React(s, e).started == s.started
  {
    hide Record, RecordAll, Utf8.Decode, Utf8.FlushText, Modes.Scan;
    var cp := AttemptOf(s, e);
    match e
    case Feed(at, _, reply) =>
      var text := Decoded(s, e).0;
      if text != "" {
        LastAlone(s.rings, [Output(at, text), Dirty(at, reply.dirty), Cursor(at, reply.cursor)] + EvictedOps(at, reply), cp);
      }
    case Finish(at, reply) =>
      var text := Decoded(s, e).0;
      if text != "" {
        LastAlone(s.rings, [Output(at, text), Dirty(at, reply.dirty), Cursor(at, reply.cursor)] + EvictedOps(at, reply), cp);
      }
    case Resize(at, size, reply) =>
      if size != s.size {
        var ops := EvictedOps(at, reply) + [Dirty(at, reply.dirty)];
        assert ops + [cp] == ResizeOps(at, reply, s.Alt());
        LastAlone(s.rings, ops, cp);
      }
    case Tick(at) =>
      LastAlone(s.rings, [], cp);
      RecordThree(s.rings, cp, cp, cp);
      assert [] + [cp] == [cp];
  }

  /** The newest checkpoint always carries the current alternate flag, and lies between start and now. */
  ghost predicate Tracked(s: SessionState, now: Instant) {
    && s.rings.limits == DEFAULT_LIMITS
    && s.rings.checkpoints != []
    && s.rings.checkpoints[|s.rings.checkpoints| - 1].item.altScreen == s.Alt()
    && forall i :: 0 <= i < |s.rings.checkpoints| ==> s.started <= s.rings.checkpoints[i].at <= now
  }

  lemma ReactTracked(s: SessionState, e: Event, now: Instant)
    requires Tracked(s, now) && now <= e.at && s.started <= e.at
    ensures Tracked(React(s, e), e.at)
  {
    hide React;
    ReactCheckpoints(s, e);
  }

  lemma InitTracked(started: Instant, size: Size, view: seq<string>)
    ensures Tracked(Init(started, size, view), started)
  {
  }

  ghost function LastTime(started: Instant, events: seq<Event>): Instant {
    if events == [] then started else events[|events| - 1].at
  }

  lemma TimelyPrefix(started: Instant, events: seq<Event>, k: nat)
    requires Timely(started, events) && k <= |events|
    ensures Timely(started, events[..k])
    ensures LastTime(started, events[..k]) <= LastTime(started, events)
  {
  }

  lemma {:induction false} RunTracked(s: SessionState, events: seq<Event>)
    requires Tracked(s, s.started) && Timely(s.started, events)
    ensures Run(s, events).started == s.started
    ensures Tracked(Run(s, events), LastTime(s.started, events))
    decreases |events|
  {
    hide React, Tracked;
    if events != [] {
      var n := |events| - 1;
      TimelyPrefix(s.started, events, n);
      RunTracked(s, events[..n]);
      var t := Run(s, events[..n]);
      ReactCheckpoints(t, events[n]);
      ReactTracked(t, events[n], LastTime(s.started, events[..n]));
    }
  }

  lemma {:induction false} LastOfEarly<T>(s: seq<Stamped<T>>, cutoff: Instant)
    requires s != [] && forall i :: 0 <= i < |s| ==> s[i].at <= cutoff
    ensures LastAtOrBefore(s, cutoff) == Some(s[|s| - 1])
  {
  }

  lemma LateCheckpointKeepsBaseline(r: RingState, op: Op, cutoff: Instant)
    requires op.Checkpoint? && op.at > cutoff
    ensures LastAtOrBefore(Record(r, op).checkpoints, cutoff).Some? ==>
              LastAtOrBefore(Record(r, op).checkpoints, cutoff) == LastAtOrBefore(r.checkpoints, cutoff)
  {
    if CheckpointDue(r, op.at, op.force) {
      var all := r.checkpoints + [Stamped(op.at, op.screen)];
      assert all[..|all| - 1] == r.checkpoints;
      RingLog.AtOrBeforeMatches(Newest(all, r.limits.checkpointCapacity), all, cutoff);
    }
  }

  lemma {:induction false} LateEventsKeepBaseline(s: SessionState, events: seq<Event>, k: nat, cutoff: Instant)
    requires k <= |events|
    requires forall i :: k <= i < |events| ==> events[i].at > cutoff
    requires LastAtOrBefore(Run(s, events).rings.checkpoints, cutoff).Some?
    ensures LastAtOrBefore(Run(s, events).rings.checkpoints, cutoff) ==
            LastAtOrBefore(Run(s, events[..k]).rings.checkpoints, cutoff)
    decreases |events|
  {
    hide React, LastAtOrBefore, Record;
    if k == |events| {
      assert events[..k] == events;
    } else {
      var n := |events| - 1;
      var t := Run(s, events[..n]);
      ReactCheckpoints(t, events[n]);
      if Attempts(t, events[n]) {
        LateCheckpointKeepsBaseline(t.rings, AttemptOf(t, events[n]), cutoff);
      }
      assert events[..n][..k] == events[..k];
      LateEventsKeepBaseline(s, events[..n], k, cutoff);
    }
  }

  lemma {:induction false} NoneBefore<T>(s: seq<Stamped<T>>, cutoff: Instant)
    requires forall i :: 0 <= i < |s| ==> s[i].at > cutoff
    ensures LastAtOrBefore(s, cutoff).None?
    decreases |s|
  {
    if s != [] {
      NoneBefore(s[..|s| - 1], cutoff);
    }
  }

  /** `k` events lie at or before the cutoff. */
  ghost predicate SplitsAt(events: seq<Event>, cutoff: Instant, k: nat) {
    && k <= |events|
    && (forall i :: 0 <= i < k ==> events[i].at <= cutoff)
    && (forall i :: k <= i < |events| ==> events[i].at > cutoff)
  }

  /**
    * Over every timely run: as long as a checkpoint at or before the cutoff is retained, the reported switch is
    * exactly whether the alternate flag now differs from the flag after the last event at or before the cutoff.
    */
  lemma SwitchReportIsExact(
    started: Instant, size: Size, view: seq<string>, events: seq<Event>, cutoff: Instant, k: nat)
    requires Timely(started, events) && SplitsAt(events, cutoff, k)
    requires LastAtOrBefore(Run(Init(started, size, view), events).rings.checkpoints, cutoff).Some?
    ensures var s0 := Init(started, size, view);
            var s := Run(s0, events);
            AltScreenSwitchedSince(s.rings, cutoff, s.Alt()) <==> Run(s0, events[..k]).Alt() != s.Alt()
  {
    hide Run, Init, Tracked, LastAtOrBefore, Timely;
    var s0 := Init(started, size, view);
    var s, t := Run(s0, events), Run(s0, events[..k]);
    InitTracked(started, size, view);
    InitStarted(started, size, view);
    RunTracked(s0, events);
    TimelyPrefix(started, events, k);
    RunTracked(s0, events[..k]);
    BaselineFlag(s, t, LastTime(started, events), LastTime(started, events[..k]), cutoff);
    LateEventsKeepBaseline(s0, events, k, cutoff);
  }

  lemma InitStarted(started: Instant, size: Size, view: seq<string>)
    ensures Init(started, size, view).started == started
  {
  }

  lemma BaselineFlag(s: SessionState, t: SessionState, sNow: Instant, tNow: Instant, cutoff: Instant)
    requires Tracked(s, sNow) && Tracked(t, tNow) && s.started == t.started
    requires tNow <= cutoff || tNow == t.started
    requires LastAtOrBefore(s.rings.checkpoints, cutoff).Some?
    ensures var c := LastAtOrBefore(t.rings.checkpoints, cutoff);
            c.Some? && c.value.item.altScreen == t.Alt()
  {
    if s.started > cutoff {
      NoneBefore(s.rings.checkpoints, cutoff);
    }
    LastOfEarly(t.rings.checkpoints, cutoff);
  }

  // ----- What the diff compares with -----

  /** Every retained checkpoint is a screen the session really showed at that moment. */
  lemma {:induction false} CheckpointWasShown(s: SessionState, events: seq<Event>, i: nat) returns (k: nat)
    requires s.rings.checkpoints == [Stamped(s.started, s.Screen())]
    requires i < |Run(s, events).rings.checkpoints|
    ensures k <= |events|
    ensures Run(s, events).rings.checkpoints[i] ==
            Stamped(LastTime(s.started, events[..k]), Run(s, events[..k]).Screen())
    decreases |events|
  {
    hide React;
    if events == [] {
      k := 0;
    } else {
      var n := |events| - 1;
      var front := events[..n];
      var t, u := Run(s, front), Run(s, events);
      ReactCheckpoints(t, events[n]);
      var j := OldOrNew(t, events[n], i);
      if j == |t.rings.checkpoints| {
        k := |events|;
        assert events[..k] == events;
      } else {
        k := CheckpointWasShown(s, front, j);
        assert front[..k] == events[..k];
      }
    }
  }

  lemma OldOrNew(t: SessionState, e: Event, i: nat) returns (j: nat)
    requires i < |React(t, e).rings.checkpoints|
    ensures j <= |t.rings.checkpoints|
    ensures React(t, e).rings.checkpoints[i] ==
            if j < |t.rings.checkpoints| then t.rings.checkpoints[j] else Stamped(e.at, React(t, e).Screen())
  {
    hide React;
    ReactCheckpoints(t, e);
    j := |t.rings.checkpoints| + 1 - |React(t, e).rings.checkpoints| + i;
    if |React(t, e).rings.checkpoints| == |t.rings.checkpoints| && React(t, e).rings.checkpoints == t.rings.checkpoints {
      j := i;
    }
  }

  lemma {:induction false} LastAtOrBeforeIsHeld<T>(s: seq<Stamped<T>>, cutoff: Instant) returns (i: nat)
    requires LastAtOrBefore(s, cutoff).Some?
    ensures i < |s| && s[i] == LastAtOrBefore(s, cutoff).value && s[i].at <= cutoff
    ensures forall j :: i < j < |s| ==> s[j].at > cutoff
    decreases |s|
  {
    if s[|s| - 1].at <= cutoff {
      i := |s| - 1;
    } else {
      i := LastAtOrBeforeIsHeld(s[..|s| - 1], cutoff);
    }
  }

  /** The newest checkpoint at or before the start of the window, or the oldest of all if there is none. */
  ghost predicate IsBaseline(checkpoints: seq<Stamped<Screen>>, i: nat, from: Instant, clamped: bool) {
    && i < |checkpoints|
    && (forall j :: i < j < |checkpoints| ==> checkpoints[j].at > from)
    && if clamped then i == 0 && checkpoints[0].at > from else checkpoints[i].at <= from
  }

  /**
    * A report that is not empty carries a minimal edit script from a screen that was really shown, after `k`
    * events, to the current one; and it says the content is unchanged only if those two screens are equal.
    * That screen is the newest checkpoint at or before the start of the window, and where none is held it is
    * the oldest one and the report says so.
    */
  lemma DiffIsAgainstAShownScreen(
    started: Instant, size: Size, view: seq<string>, events: seq<Event>, now: Instant, window: nat, from: Instant)
    returns (k: nat, i: nat)
    requires !Delta(Run(Init(started, size, view), events), now, window).IsEmpty()
    requires Timely(started, events) && StartsAt(started, now, window, from)
    ensures k <= |events|
    ensures var s0 := Init(started, size, view);
            var shown, s := Run(s0, events[..k]), Run(s0, events);
            var report := Delta(s, now, window);
            && report.baselineAgeMs == Some(Elapsed(now, LastTime(started, events[..k])))
            && Diff.Patch(shown.view, 0, 0, report.diff) == Some(s.view)
            && (forall other :: Diff.Patch(shown.view, 0, 0, other) == Some(s.view) ==> |report.diff| <= |other|)
            && (!report.contentChanged ==> shown.view == s.view)
            && IsBaseline(s.rings.checkpoints, i, from, report.clamped)
            && s.rings.checkpoints[i] == Stamped(LastTime(started, events[..k]), shown.Screen())
  {
    hide Run, Delta, Baseline, Diff.Script, Diff.Patch, LastAtOrBefore, Tracked, Cutoff, StartsAt;
    var s0 := Init(started, size, view);
    var s := Run(s0, events);
    InitTracked(started, size, view);
    RunTracked(s0, events);
    TrackedHasCheckpoint(s, LastTime(started, events));
    CutoffIsStart(s, now, window, from);
    i := BaselineIndex(s.rings, from);
    EmptyIffQuiet(s, now, window);
    DeltaUsesBaseline(s, now, window, s.rings.checkpoints[i]);
    k := CheckpointWasShown(s0, events, i);
    Diff.DiffIsMinimalEditScript(Run(s0, events[..k]).view, s.view);
  }

  lemma TrackedHasCheckpoint(s: SessionState, now: Instant)
    requires Tracked(s, now)
    ensures s.rings.checkpoints != []
  {
  }

  lemma DeltaUsesBaseline(s: SessionState, now: Instant, window: nat, c: Stamped<Screen>)
    requires !Quiet(s.rings, Cutoff(s, now, window))
    requires Baseline(s.rings, Cutoff(s, now, window)) == Some(c) && s.rings.checkpoints != []
    ensures var report := Delta(s, now, window);
            && report.diff == Diff.Script(c.item.view, s.view, 0, 0)
            && report.baselineAgeMs == Some(Elapsed(now, c.at))
            && (report.diff != [] ==> report.contentChanged)
            && report.clamped == LastAtOrBefore(s.rings.checkpoints, Cutoff(s, now, window)).None?
  {
    hide Quiet, Diff.Script, LastAtOrBefore, DirtyRowsSince, OutputSince, AltScreenSwitchedSince;
  }

  lemma BaselineIndex(r: RingState, cutoff: Instant) returns (i: nat)
    requires r.checkpoints != []
    ensures i < |r.checkpoints| && Baseline(r, cutoff) == Some(r.checkpoints[i])
    ensures IsBaseline(r.checkpoints, i, cutoff, LastAtOrBefore(r.checkpoints, cutoff).None?)
  {
    if LastAtOrBefore(r.checkpoints, cutoff).Some? {
      i := LastAtOrBeforeIsHeld(r.checkpoints, cutoff);
    } else {
      i := 0;
      NoneMeansLater(r.checkpoints, cutoff);
    }
  }

  lemma {:induction false} NoneMeansLater<T>(s: seq<Stamped<T>>, cutoff: Instant)
    requires LastAtOrBefore(s, cutoff).None?
    ensures forall j :: 0 <= j < |s| ==> s[j].at > cutoff
    decreases |s|
  {
    if s != [] {
      NoneMeansLater(s[..|s| - 1], cutoff);
    }
  }

  // ----- The session's rings are a run of recordings -----

  ghost function OpsSoFar(s: SessionState, events: seq<Event>): seq<Op> {
    if events == [] then []
    else
      var front := events[..|events| - 1];
      OpsSoFar(s, front) + OpsOf(Run(s, front), events[|events| - 1])
  }

  lemma {:induction false} RecordAllConcat(r: RingState, a: seq<Op>, b: seq<Op>)
    ensures RecordAll(r, a + b) == RecordAll(RecordAll(r, a), b)
    decreases |b|
  {
    hide Record;
    if b == [] {
      assert a + b == a;
    } else {
      var n := |b| - 1;
      RecordAllConcat(r, a, b[..n]);
      assert (a + b)[..|a| + n] == a + b[..n];
    }
  }

  lemma {:induction false} RunRecords(s: SessionState, events: seq<Event>)
    ensures Run(s, events).rings == RecordAll(s.rings, OpsSoFar(s, events))
    decreases |events|
  {
    hide React, OpsOf, Record;
    if events != [] {
      var n := |events| - 1;
      RunRecords(s, events[..n]);
      ReactRecords(Run(s, events[..n]), events[n]);
      RecordAllConcat(s.rings, OpsSoFar(s, events[..n]), OpsOf(Run(s, events[..n]), events[n]));
    }
  }

  /** At every moment of every run, the session's rings are the longest suffixes of all it has recorded. */
  lemma SessionRingsMatchTheLog(started: Instant, size: Size, view: seq<string>, events: seq<Event>)
    ensures var s0 := Init(started, size, view);
            var ops := [Checkpoint(started, true, s0.Screen())] + OpsSoFar(s0, events);
            RingLog.Agrees(Run(s0, events).rings, RingLog.WriteAll(DEFAULT_LIMITS.checkpointInterval, ops))
  {
    hide Run, Record, RingLog.Agrees, RingLog.WriteAll, OpsSoFar;
    var s0 := Init(started, size, view);
    var first := [Checkpoint(started, true, s0.Screen())];
    RecordThree(Empty(DEFAULT_LIMITS), first[0], first[0], first[0]);
    RunRecords(s0, events);
    RecordAllConcat(Empty(DEFAULT_LIMITS), first, OpsSoFar(s0, events));
    RingLog.RingsAreLongestSuffixes(DEFAULT_LIMITS, first + OpsSoFar(s0, events));
  }

  // ----- What the emulator is given -----

  function IngestedText(s: SessionState, events: seq<Event>): string {
    if events == [] then ""
    else
      var front := events[..|events| - 1];
      IngestedText(s, front) + Decoded(Run(s, front), events[|events| - 1]).0
  }

  /** The reads of a run, in order. */
  function Reads(events: seq<Event>): seq<seq<Utf8.Byte>> {
    if events == [] then []
    else
      var e := events[|events| - 1];
      Reads(events[..|events| - 1]) + if e.Feed? then [e.bytes] else []
  }

  ghost predicate NoFinish(events: seq<Event>) {
    forall i :: 0 <= i < |events| ==> !events[i].Finish?
  }

  lemma {:induction false} IngestedIsStream(s: SessionState, events: seq<Event>)
    requires NoFinish(events) && s.partial == []
    ensures IngestedText(s, events) == Utf8.Decode(Flatten(Reads(events))).outs
    ensures Run(s, events).partial == Utf8.Decode(Flatten(Reads(events))).rest
    decreases |events|
  {
    hide React, Utf8.NextChar, Parse;
    if events == [] {
      Utf8.DecodeEmpty();
    } else {
      var n := |events| - 1;
      var front, e := events[..n], events[n];
      IngestedIsStream(s, front);
      ReactRecords(Run(s, front), e);
      if e.Feed? {
        FlattenConcat(Reads(front), [e.bytes]);
        assert Flatten([e.bytes]) == e.bytes + Flatten([e.bytes][1..]) == e.bytes;
        Utf8.DecodeConcat(Flatten(Reads(front)), e.bytes);
      } else {
        assert Reads(events) == Reads(front);
        assert IngestedText(s, events) == IngestedText(s, front) + "";
      }
    }
  }

  /** Once the stream has ended, the emulator has been given the lossy decoding of every byte that was read. */
  lemma EmulatorSeesLossyStream(s: SessionState, events: seq<Event>, at: Instant, reply: Reply)
    requires NoFinish(events) && s.partial == []
    ensures IngestedText(s, events + [Finish(at, reply)]) == Utf8.Lossy(Flatten(Reads(events)))
  {
    hide React, Run, Utf8.Decode;
    IngestedIsStream(s, events);
    Utf8.DecodeIsLossy(Flatten(Reads(events)));
    assert (events + [Finish(at, reply)])[..|events|] == events;
  }
}
