/** What a delta report says, in terms of the events inside its window. */
module SessionReports {
  import opened Options
  import opened Incremental
  import opened Rings
  import opened Session
  import opened SessionRuns
  import RingLog
  import Utf8
  import Modes
  import Diff
  import Text

  // ----- What an event does to the screen -----

  /** The event hands text to the emulator. */
  ghost predicate Ingests(s: SessionState, e: Event) {
    (e.Feed? || e.Finish?) && Decoded(s, e).0 != ""
  }

  /** The event makes the emulator draw: it hands it text, or a size it does not have. */
  ghost predicate Draws(s: SessionState, e: Event) {
    Ingests(s, e) || (e.Resize? && e.size != s.size)
  }

  /** The event hands over text or has rows reported as dirty. */
  ghost predicate Stirs(s: SessionState, e: Event) {
    Ingests(s, e) || (Draws(s, e) && e.reply.dirty != [])
  }

  // ----- Empty reports -----

  ghost predicate NothingStirs(s: SessionState, events: seq<Event>, from: Instant) {
    forall i :: 0 <= i < |events| && events[i].at >= from ==> !Stirs(Run(s, events[..i]), events[i])
  }

  lemma StirsIsLoud(s: SessionState, e: Event)
    ensures Stirs(s, e) ==> AnyLoud(OpsOf(s, e))
    ensures !Stirs(s, e) ==> forall i :: 0 <= i < |OpsOf(s, e)| ==> !Loud(OpsOf(s, e)[i])
  {
    hide Utf8.Decode, Utf8.FlushText, Modes.Scan, AnyLoud;
    var ops := OpsOf(s, e);
    if Stirs(s, e) {
      AnyLoudAt(ops, if e.Resize? then |ops| - 2 else 0);
    }
  }

  lemma {:induction false} StirredStaysNoisy(s: SessionState, events: seq<Event>, from: Instant, i: nat)
    requires Sound(s) && Timely(s.started, events) && ReadsBounded(events)
    requires i < |events| && events[i].at >= from && Stirs(Run(s, events[..i]), events[i])
    ensures Noisy(Run(s, events).rings, from)
    decreases |events|
  {
    hide React, Sound, Noisy, Stirs, OpsOf, AnyLoud;
    var n := |events| - 1;
    var front := events[..n];
    RunIsSound(s, front);
    ReactHears(Run(s, front), events[n], from);
    if i < n {
      assert front[..i] == events[..i];
      TimelyPrefix(s.started, events, n);
      StirredStaysNoisy(s, front, from, i);
    } else {
      StirsIsLoud(Run(s, front), events[n]);
    }
  }

  /** All output and dirty records are older than the window. */
  ghost predicate Old(r: RingState, from: Instant) {
    && (forall i :: 0 <= i < |r.output| ==> r.output[i].at < from)
    && (forall i :: 0 <= i < |r.dirty| ==> r.dirty[i].at < from)
  }

  lemma RecordKeepsOld(r: RingState, op: Op, from: Instant)
    requires Old(r, from) && (op.at < from || !Loud(op))
    ensures Old(Record(r, op), from)
  {
    if op.Output? && op.text != "" {
      var all := r.output + [Stamped(op.at, op.text)];
      RingLog.LongestFitSpec(r.limits, all);
    }
  }

  lemma {:induction false} RecordAllKeepsOld(r: RingState, ops: seq<Op>, from: Instant)
    requires Old(r, from) && forall i :: 0 <= i < |ops| ==> ops[i].at < from || !Loud(ops[i])
    ensures Old(RecordAll(r, ops), from)
    decreases |ops|
  {
    hide Record, Old;
    if ops != [] {
      RecordAllKeepsOld(r, ops[..|ops| - 1], from);
      RecordKeepsOld(RecordAll(r, ops[..|ops| - 1]), ops[|ops| - 1], from);
    }
  }

  lemma OldIsQuiet(r: RingState, from: Instant)
    requires Old(r, from)
    ensures Quiet(r, from)
  {
    RingLog.SinceEmpty(r.output, from);
    RingLog.SinceEmpty(r.dirty, from);
    assert Items(Since(r.output, from)) == [] && Items(Since(r.dirty, from)) == [];
  }

  lemma {:induction false} UnstirredIsOld(s: SessionState, events: seq<Event>, from: Instant)
    requires Sound(s) && Old(s.rings, from) && ReadsBounded(events) && NothingStirs(s, events, from)
    ensures Old(Run(s, events).rings, from)
    decreases |events|
  {
    hide React, Sound, Old, Stirs, OpsOf, Loud;
    if events != [] {
      var n := |events| - 1;
      var front, e := events[..n], events[n];
      forall i | 0 <= i < n && front[i].at >= from ensures !Stirs(Run(s, front[..i]), front[i]) {
        assert front[..i] == events[..i];
      }
      UnstirredIsOld(s, front, from);
      var t := Run(s, front);
      RunIsSound(s, front);
      ReactRecords(t, e);
      OpsOfAt(t, e);
      StirsIsLoud(t, e);
      RecordAllKeepsOld(t.rings, OpsOf(t, e), from);
    }
  }

  /**
    * Over every timely run, whatever the rings have evicted: a report is empty exactly when no event
    * at or after the start of its window handed text to the emulator or had rows reported as dirty.
    */
  lemma EmptyIffNothingStirred(
    started: Instant, size: Size, view: seq<string>, events: seq<Event>, now: Instant, window: nat, from: Instant)
    requires Timely(started, events) && ReadsBounded(events) && StartsAt(started, now, window, from)
    ensures var s0 := Init(started, size, view);
            Delta(Run(s0, events), now, window).IsEmpty() <==>
            forall i :: 0 <= i < |events| && events[i].at >= from ==> !Stirs(Run(s0, events[..i]), events[i])
  {
    hide Run, Init, Delta, Noisy, Quiet, Cutoff, StartsAt, Stirs, Timely, ReadsBounded, Sound, Old;
    var s0 := Init(started, size, view);
    var s := Run(s0, events);
    InitIsSound(started, size, view);
    InitStarted(started, size, view);
    RunIsSound(s0, events);
    CutoffIsStart(s, now, window, from);
    EmptyIffQuiet(s, now, window);
    if NothingStirs(s0, events, from) {
      InitIsOld(started, size, view, from);
      UnstirredIsOld(s0, events, from);
      OldIsQuiet(s.rings, from);
    } else {
      var i :| 0 <= i < |events| && events[i].at >= from && Stirs(Run(s0, events[..i]), events[i]);
      StirredStaysNoisy(s0, events, from, i);
      NoisyIsNotQuiet(s.rings, from);
    }
  }

  lemma InitIsOld(started: Instant, size: Size, view: seq<string>, from: Instant)
    ensures Old(Init(started, size, view).rings, from)
  {
  }

  // ----- What happened inside a window, told from the events alone -----

  /** The text handed to the emulator at or after an instant. */
  ghost function Heard(s: SessionState, events: seq<Event>, from: Instant): string {
    if events == [] then ""
    else
      var front, e := events[..|events| - 1], events[|events| - 1];
      Heard(s, front, from) + if e.at >= from then Decoded(Run(s, front), e).0 else ""
  }

  /** The lines that scrolled off the top at or after an instant. */
  ghost function ScrolledOff(s: SessionState, events: seq<Event>, from: Instant): seq<string> {
    if events == [] then []
    else
      var front, e := events[..|events| - 1], events[|events| - 1];
      ScrolledOff(s, front, from) + if e.at >= from && Draws(Run(s, front), e) then e.reply.evicted else []
  }

  /** Some event at or after an instant drew and had the row reported as dirty. */
  ghost predicate RowDrawn(s: SessionState, events: seq<Event>, from: Instant, row: nat) {
    exists i :: 0 <= i < |events| && events[i].at >= from && DrawsRow(Run(s, events[..i]), events[i], row)
  }

  ghost predicate DrawsRow(s: SessionState, e: Event, row: nat) {
    Draws(s, e) && row in e.reply.dirty
  }

  /** The cursor after the last event that handed text to the emulator. */
  ghost function CursorAfter(s: SessionState, events: seq<Event>): Option<CursorPos> {
    if events == [] then None
    else
      var front, e := events[..|events| - 1], events[|events| - 1];
      if Ingests(Run(s, front), e) then Some(e.reply.cursor) else CursorAfter(s, front)
  }

  /** Some text at or after an instant left the cursor elsewhere than the text before it did. */
  ghost predicate CursorWent(s: SessionState, events: seq<Event>, from: Instant) {
    exists i :: 0 <= i < |events| && events[i].at >= from && Moves(Run(s, events[..i]), events[i], CursorAfter(s, events[..i]))
  }

  ghost predicate Moves(s: SessionState, e: Event, before: Option<CursorPos>) {
    Ingests(s, e) && before != Some(e.reply.cursor)
  }

  // ----- The log of a run, event by event -----

  ghost function Told(s: SessionState, events: seq<Event>): RingLog.Log {
    RingLog.WriteAll(DEFAULT_LIMITS.checkpointInterval, [Checkpoint(s.started, true, s.Screen())] + OpsSoFar(s, events))
  }

  function WriteMore(log: RingLog.Log, interval: nat, ops: seq<Op>): RingLog.Log {
    if ops == [] then log else RingLog.Write(WriteMore(log, interval, ops[..|ops| - 1]), interval, ops[|ops| - 1])
  }

  lemma {:induction false} WriteAllConcat(interval: nat, a: seq<Op>, b: seq<Op>)
    ensures RingLog.WriteAll(interval, a + b) == WriteMore(RingLog.WriteAll(interval, a), interval, b)
    decreases |b|
  {
    hide RingLog.Write;
    if b == [] {
      assert a + b == a;
    } else {
      var n := |b| - 1;
      WriteAllConcat(interval, a, b[..n]);
      assert (a + b)[..|a| + n] == a + b[..n];
    }
  }

  /** What one event adds to the log, checkpoints aside. */
  ghost predicate Adds(s: SessionState, e: Event, before: RingLog.Log, after: RingLog.Log) {
    && after.output == before.output + (if Ingests(s, e) then [Stamped(e.at, Decoded(s, e).0)] else [])
    && after.dirty == before.dirty + (if Draws(s, e) && e.reply.dirty != [] then [Stamped(e.at, e.reply.dirty)] else [])
    && after.scrollback == before.scrollback + (if Draws(s, e) then StampAll(e.at, e.reply.evicted) else [])
    && after.cursor == before.cursor +
         if Ingests(s, e) && (before.cursor == [] || before.cursor[|before.cursor| - 1].item != e.reply.cursor)
         then [Stamped(e.at, e.reply.cursor)] else []
  }

  /** The log after the records one drawing makes, without the checkpoint. */
  function Drawn(log: RingLog.Log, at: Instant, text: string, reply: Reply, cursor: bool): RingLog.Log {
    log.(output := log.output + (if text == "" then [] else [Stamped(at, text)]),
         dirty := log.dirty + (if reply.dirty == [] then [] else [Stamped(at, reply.dirty)]),
         scrollback := log.scrollback + StampAll(at, reply.evicted),
         cursor := log.cursor +
                   if cursor && (log.cursor == [] || log.cursor[|log.cursor| - 1].item != reply.cursor)
                   then [Stamped(at, reply.cursor)] else [])
  }

  lemma IngestWrites(log: RingLog.Log, interval: nat, at: Instant, text: string, reply: Reply, wasAlt: bool, isAlt: bool)
    ensures var after := WriteMore(log, interval, IngestOps(at, text, reply, wasAlt, isAlt));
            after == Drawn(log, at, text, reply, true).(checkpoints := after.checkpoints)
  {
    hide StampAll, RingLog.Write;
    var ops := IngestOps(at, text, reply, wasAlt, isAlt);
    WriteMoreThree(log, interval, ops[0], ops[1], ops[2]);
    assert ops[..3] == [ops[0], ops[1], ops[2]];
    var a := WriteMore(log, interval, ops[..3]);
    TextWrites(log, interval, at, text, reply);
    NothingStamped(at, reply.evicted);
    LinesWrite(a, interval, at, reply.evicted);
    if reply.evicted == [] {
      assert ops[..|ops| - 1] == ops[..3];
      CheckpointOnly(a, interval, ops[3]);
    } else {
      assert ops[..|ops| - 1][..3] == ops[..3];
      CheckpointOnly(RingLog.Write(a, interval, ops[3]), interval, ops[4]);
    }
  }

  lemma TextWrites(log: RingLog.Log, interval: nat, at: Instant, text: string, reply: Reply)
    ensures var a := RingLog.Write(log, interval, Output(at, text));
            var b := RingLog.Write(a, interval, Dirty(at, reply.dirty));
            RingLog.Write(b, interval, Cursor(at, reply.cursor)) ==
            Drawn(log, at, text, reply, true).(scrollback := log.scrollback)
  {
    assert log.output + [] == log.output && log.dirty + [] == log.dirty && log.cursor + [] == log.cursor;
  }

  lemma LinesWrite(log: RingLog.Log, interval: nat, at: Instant, lines: seq<string>)
    ensures RingLog.Write(log, interval, Scrollback(at, lines)) == log.(scrollback := log.scrollback + StampAll(at, lines))
    ensures lines == [] ==> log.scrollback + StampAll(at, lines) == log.scrollback
  {
  }

  lemma ResizeWrites(log: RingLog.Log, interval: nat, at: Instant, reply: Reply, alt: bool)
    ensures var after := WriteMore(log, interval, ResizeOps(at, reply, alt));
            after == Drawn(log, at, "", reply, false).(checkpoints := after.checkpoints)
  {
    hide StampAll;
    var ops := ResizeOps(at, reply, alt);
    NothingStamped(at, reply.evicted);
    if reply.evicted == [] {
      WriteMoreThree(log, interval, ops[0], ops[1], ops[1]);
      assert ops == [ops[0], ops[1]];
    } else {
      WriteMoreThree(log, interval, ops[0], ops[1], ops[2]);
      assert ops == [ops[0], ops[1], ops[2]];
    }
  }

  lemma WriteMoreThree(log: RingLog.Log, interval: nat, a: Op, b: Op, c: Op)
    ensures WriteMore(log, interval, [a]) == RingLog.Write(log, interval, a)
    ensures WriteMore(log, interval, [a, b]) == RingLog.Write(RingLog.Write(log, interval, a), interval, b)
    ensures WriteMore(log, interval, [a, b, c]) ==
            RingLog.Write(RingLog.Write(RingLog.Write(log, interval, a), interval, b), interval, c)
  {
    hide RingLog.Write;
    assert [a][..0] == [];
    assert [a, b][..1] == [a];
    assert [a, b, c][..2] == [a, b];
  }

  lemma NothingStamped(at: Instant, lines: seq<string>)
    ensures lines == [] ==> StampAll(at, lines) == []
  {
  }

  lemma EventAdds(s: SessionState, e: Event, log: RingLog.Log)
    ensures Adds(s, e, log, WriteMore(log, DEFAULT_LIMITS.checkpointInterval, OpsOf(s, e)))
  {
    hide RingLog.Write, WriteMore, IngestOps, ResizeOps, StampAll, Utf8.Decode, Utf8.FlushText, Modes.Scan;
    var interval := DEFAULT_LIMITS.checkpointInterval;
    if Ingests(s, e) {
      var text := Decoded(s, e).0;
      IngestWrites(log, interval, e.at, text, e.reply, s.Alt(), Modes.Scan(s.scanner, text).modes.altScreen);
    } else if Draws(s, e) {
      ResizeWrites(log, interval, e.at, e.reply, s.Alt());
    } else if e.Tick? {
      WriteMoreThree(log, interval, OpsOf(s, e)[0], OpsOf(s, e)[0], OpsOf(s, e)[0]);
      CheckpointOnly(log, interval, OpsOf(s, e)[0]);
    } else {
      WriteNothing(log, interval);
    }
  }

  lemma CheckpointOnly(log: RingLog.Log, interval: nat, op: Op)
    requires op.Checkpoint?
    ensures RingLog.Write(log, interval, op) == log.(checkpoints := RingLog.Write(log, interval, op).checkpoints)
  {
  }

  lemma WriteNothing(log: RingLog.Log, interval: nat)
    ensures WriteMore(log, interval, []) == log
  {
  }

  lemma ToldStep(s: SessionState, events: seq<Event>)
    requires events != []
    ensures var front := events[..|events| - 1];
            Adds(Run(s, front), events[|events| - 1], Told(s, front), Told(s, events))
  {
    hide Run, Adds, OpsOf, RingLog.WriteAll, WriteMore;
    var front, e := events[..|events| - 1], events[|events| - 1];
    var first := [Checkpoint(s.started, true, s.Screen())];
    var t := Run(s, front);
    EventAdds(t, e, Told(s, front));
    assert first + OpsSoFar(s, events) == first + OpsSoFar(s, front) + OpsOf(t, e);
    WriteAllConcat(DEFAULT_LIMITS.checkpointInterval, first + OpsSoFar(s, front), OpsOf(t, e));
  }

  lemma ToldFirst(s: SessionState)
    ensures var log := Told(s, []); log.output == [] && log.dirty == [] && log.scrollback == [] && log.cursor == []
  {
    var cp := Checkpoint(s.started, true, s.Screen());
    var interval := DEFAULT_LIMITS.checkpointInterval;
    assert OpsSoFar(s, []) == [];
    assert [cp] + [] == [cp] && [cp][..0] == [];
    assert RingLog.WriteAll(interval, [cp]) == RingLog.Write(RingLog.WriteAll(interval, [cp][..0]), interval, cp);
  }

  // ----- Queries on the log -----

  lemma ItemsConcat<T>(a: seq<Stamped<T>>, b: seq<Stamped<T>>)
    ensures Items(a + b) == Items(a) + Items(b)
  {
  }

  lemma SinceOne<T>(x: Stamped<T>, from: Instant)
    ensures Since([x], from) == if x.at >= from then [x] else []
  {
    assert [x][1..] == [];
  }

  lemma FlattenOne<T>(x: seq<T>)
    ensures Flatten([x]) == x
  {
    assert [x][1..] == [];
  }

  lemma {:induction false} SinceStamped(at: Instant, lines: seq<string>, from: Instant)
    ensures Items(Since(StampAll(at, lines), from)) == if at >= from then lines else []
    decreases |lines|
  {
    if lines != [] {
      SinceStamped(at, lines[1..], from);
      assert StampAll(at, lines)[1..] == StampAll(at, lines[1..]);
      ItemsConcat([StampAll(at, lines)[0]], Since(StampAll(at, lines[1..]), from));
      assert Items([StampAll(at, lines)[0]]) == [lines[0]];
    }
  }

  lemma {:induction false} OutputIsHeard(s: SessionState, events: seq<Event>, from: Instant)
    ensures Flatten(Items(Since(Told(s, events).output, from))) == Heard(s, events, from)
    decreases |events|
  {
    hide Told, Run, Since, Items, Flatten, Decoded;
    if events == [] {
      ToldFirst(s);
      QueriesOfNothing(from);
    } else {
      var front, e := events[..|events| - 1], events[|events| - 1];
      OutputIsHeard(s, front, from);
      ToldStep(s, events);
      var t := Run(s, front);
      var text := Decoded(t, e).0;
      NoTextWithoutIngest(t, e);
      if Ingests(t, e) {
        MoreOutput(Told(s, front).output, Stamped(e.at, text), from);
      } else {
        assert Told(s, front).output + [] == Told(s, front).output;
      }
    }
  }

  lemma QueriesOfNothing(from: Instant)
    ensures Flatten(Items(Since<string>([], from))) == "" && Items(Since<string>([], from)) == []
    ensures Flatten(Items(Since<seq<nat>>([], from))) == []
  {
  }

  lemma NoTextWithoutIngest(s: SessionState, e: Event)
    ensures !Ingests(s, e) ==> Decoded(s, e).0 == ""
  {
  }

  lemma MoreOutput<T>(log: seq<Stamped<seq<T>>>, x: Stamped<seq<T>>, from: Instant)
    ensures Flatten(Items(Since(log + [x], from))) ==
            Flatten(Items(Since(log, from))) + if x.at >= from then x.item else []
  {
    RingLog.SinceConcat(log, [x], from);
    SinceOne(x, from);
    ItemsConcat(Since(log, from), Since([x], from));
    FlattenConcat(Items(Since(log, from)), Items(Since([x], from)));
    if x.at >= from {
      assert Items([x]) == [x.item];
      FlattenOne(x.item);
    } else {
      assert Items(Since([x], from)) == [];
    }
  }

  lemma {:induction false} ScrollbackIsScrolledOff(s: SessionState, events: seq<Event>, from: Instant)
    ensures Items(Since(Told(s, events).scrollback, from)) == ScrolledOff(s, events, from)
    decreases |events|
  {
    hide Told, Run, Since, Items, Decoded, StampAll;
    if events == [] {
      ToldFirst(s);
      QueriesOfNothing(from);
    } else {
      var front, e := events[..|events| - 1], events[|events| - 1];
      ScrollbackIsScrolledOff(s, front, from);
      ToldStep(s, events);
      if Draws(Run(s, front), e) {
        var log, more := Told(s, front).scrollback, StampAll(e.at, e.reply.evicted);
        RingLog.SinceConcat(log, more, from);
        ItemsConcat(Since(log, from), Since(more, from));
        SinceStamped(e.at, e.reply.evicted, from);
      } else {
        assert Told(s, front).scrollback + [] == Told(s, front).scrollback;
      }
    }
  }

  lemma RowDrawnStep(s: SessionState, events: seq<Event>, from: Instant, row: nat)
    requires events != []
    ensures var front, e := events[..|events| - 1], events[|events| - 1];
            RowDrawn(s, events, from, row) <==>
            RowDrawn(s, front, from, row) || (e.at >= from && DrawsRow(Run(s, front), e, row))
  {
    hide Run, DrawsRow;
    var n := |events| - 1;
    var front := events[..n];
    if i :| 0 <= i < |front| && front[i].at >= from && DrawsRow(Run(s, front[..i]), front[i], row) {
      assert front[..i] == events[..i];
      assert DrawsRow(Run(s, events[..i]), events[i], row);
    }
    if i :| 0 <= i < |events| && events[i].at >= from && DrawsRow(Run(s, events[..i]), events[i], row) {
      if i < n {
        assert front[..i] == events[..i];
        assert DrawsRow(Run(s, front[..i]), front[i], row);
      }
    }
  }

  lemma {:induction false} DirtyIsDrawn(s: SessionState, events: seq<Event>, from: Instant, row: nat)
    ensures row in Flatten(Items(Since(Told(s, events).dirty, from))) <==> RowDrawn(s, events, from, row)
    decreases |events|
  {
    hide Told, Run, Since, Items, Flatten, Decoded, RowDrawn;
    if events == [] {
      ToldFirst(s);
      QueriesOfNothing(from);
      NoRowOfNothing(s, from, row);
    } else {
      var front, e := events[..|events| - 1], events[|events| - 1];
      DirtyIsDrawn(s, front, from, row);
      ToldStep(s, events);
      RowDrawnStep(s, events, from, row);
      if Draws(Run(s, front), e) && e.reply.dirty != [] {
        MoreOutput(Told(s, front).dirty, Stamped(e.at, e.reply.dirty), from);
      } else {
        assert Told(s, front).dirty + [] == Told(s, front).dirty;
      }
    }
  }

  lemma NoRowOfNothing(s: SessionState, from: Instant, row: nat)
    ensures !RowDrawn(s, [], from, row)
  {
  }

  lemma {:induction false} LastCursorIsTold(s: SessionState, events: seq<Event>)
    ensures var log := Told(s, events).cursor;
            CursorAfter(s, events) == if log == [] then None else Some(log[|log| - 1].item)
    decreases |events|
  {
    hide Told, Run, Ingests;
    if events == [] {
      ToldFirst(s);
    } else {
      LastCursorIsTold(s, events[..|events| - 1]);
      ToldStep(s, events);
    }
  }

  lemma CursorWentStep(s: SessionState, events: seq<Event>, from: Instant)
    requires events != []
    ensures var front, e := events[..|events| - 1], events[|events| - 1];
            CursorWent(s, events, from) <==>
            CursorWent(s, front, from) || (e.at >= from && Moves(Run(s, front), e, CursorAfter(s, front)))
  {
    hide Run, Moves, CursorAfter;
    var n := |events| - 1;
    var front := events[..n];
    if i :| 0 <= i < |front| && front[i].at >= from && Moves(Run(s, front[..i]), front[i], CursorAfter(s, front[..i])) {
      assert front[..i] == events[..i];
      assert Moves(Run(s, events[..i]), events[i], CursorAfter(s, events[..i]));
    }
    if i :| 0 <= i < |events| && events[i].at >= from && Moves(Run(s, events[..i]), events[i], CursorAfter(s, events[..i])) {
      if i < n {
        assert front[..i] == events[..i];
        assert Moves(Run(s, front[..i]), front[i], CursorAfter(s, front[..i]));
      }
    }
  }

  lemma {:induction false} CursorIsTold(s: SessionState, events: seq<Event>, from: Instant)
    ensures Since(Told(s, events).cursor, from) != [] <==> CursorWent(s, events, from)
    decreases |events|
  {
    hide Told, Run, Since, Decoded, CursorWent, CursorAfter;
    if events == [] {
      ToldFirst(s);
      NoCursorOfNothing(s, from);
    } else {
      var front, e := events[..|events| - 1], events[|events| - 1];
      CursorIsTold(s, front, from);
      LastCursorIsTold(s, front);
      ToldStep(s, events);
      CursorWentStep(s, events, from);
      var log := Told(s, front).cursor;
      if Moves(Run(s, front), e, CursorAfter(s, front)) {
        var x := Stamped(e.at, e.reply.cursor);
        RingLog.SinceConcat(log, [x], from);
        SinceOne(x, from);
      } else {
        assert log + [] == log;
      }
    }
  }

  lemma NoCursorOfNothing(s: SessionState, from: Instant)
    ensures !CursorWent(s, [], from) && Since<CursorPos>([], from) == []
  {
  }

  // ----- Reports -----

  /** Where nothing was evicted, every query answers from the whole run. */
  lemma QueriesCoverTheWindow(started: Instant, size: Size, view: seq<string>, events: seq<Event>, from: Instant)
    requires !Run(Init(started, size, view), events).rings.evicted
    ensures var s0 := Init(started, size, view);
            var r := Run(s0, events).rings;
            && OutputSince(r, from) == Heard(s0, events, from)
            && ScrollbackSince(r, from) == ScrolledOff(s0, events, from)
            && (forall row :: row in DirtyRowsSince(r, from) <==> RowDrawn(s0, events, from, row))
            && (CursorMovedSince(r, from) <==> CursorWent(s0, events, from))
  {
    hide Run, Init, RingLog.Agrees, Told, Since, Items, Flatten, Heard, ScrolledOff, RowDrawn, CursorWent;
    var s0 := Init(started, size, view);
    var r := Run(s0, events).rings;
    RingsAreTold(started, size, view, events);
    RingLog.AgreesMeansSuffix(r, Told(s0, events));
    OutputIsHeard(s0, events, from);
    ScrollbackIsScrolledOff(s0, events, from);
    CursorIsTold(s0, events, from);
    forall row: nat ensures row in DirtyRowsSince(r, from) <==> RowDrawn(s0, events, from, row) {
      DirtyIsDrawn(s0, events, from, row);
    }
  }

  lemma RingsAreTold(started: Instant, size: Size, view: seq<string>, events: seq<Event>)
    ensures var s0 := Init(started, size, view);
            RingLog.Agrees(Run(s0, events).rings, Told(s0, events))
  {
    hide Run, RingLog.Agrees, RingLog.WriteAll, OpsSoFar, Record;
    SessionRingsMatchTheLog(started, size, view, events);
    InitStarted(started, size, view);
  }

  lemma DeltaAnswers(s: SessionState, now: Instant, window: nat, from: Instant)
    requires StartsAt(s.started, now, window, from)
    ensures var report := Delta(s, now, window);
            && report.truncated == s.rings.evicted
            && report.outputBytes == Utf8.TextBytes(OutputSince(s.rings, from))
            && report.changedRows == DirtyRowsSince(s.rings, from)
            && (!Quiet(s.rings, from) ==>
                && (report.cursorMoved <==> CursorMovedSince(s.rings, from))
                && (!s.Alt() ==> report.appended == NonBlank(ScrollbackSince(s.rings, from)) + NonBlank(AddedTexts(report.diff))))
  {
    hide OutputSince, DirtyRowsSince, ScrollbackSince, CursorMovedSince, NonBlank, AddedTexts, Diff.Script, Cutoff, StartsAt,
      AltScreenSwitchedSince, LastAtOrBefore;
    CutoffIsStart(s, now, window, from);
    assert Utf8.TextBytes("") == 0;
  }

  /**
    * Over every run in which nothing was evicted, the numbers of a report are those of its window: the
    * bytes of the text handed over, the rows reported as dirty and whether the cursor moved are exactly
    * those of the events at or after its start. On the primary screen a report that is not empty lists
    * the lines that scrolled off and then the lines the diff adds, blank ones left out.
    */
  lemma ReportCoversTheWindow(
    started: Instant, size: Size, view: seq<string>, events: seq<Event>, now: Instant, window: nat, from: Instant)
    requires StartsAt(started, now, window, from)
    requires !Delta(Run(Init(started, size, view), events), now, window).truncated
    ensures var s0 := Init(started, size, view);
            var s := Run(s0, events);
            var report := Delta(s, now, window);
            && report.outputBytes == Utf8.TextBytes(Heard(s0, events, from))
            && Ascending(report.changedRows)
            && (forall row :: row in report.changedRows <==> RowDrawn(s0, events, from, row))
            && (!report.IsEmpty() ==> (report.cursorMoved <==> CursorWent(s0, events, from)))
            && (!report.IsEmpty() && !s.Alt() ==>
                report.appended == NonBlank(ScrolledOff(s0, events, from)) + NonBlank(AddedTexts(report.diff)))
  {
    hide Run, Init, Delta, OutputSince, ScrollbackSince, CursorMovedSince, NonBlank, AddedTexts, StartsAt, Quiet, Cutoff,
      Heard, ScrolledOff, RowDrawn, CursorWent, Utf8.TextBytes, Report.IsEmpty;
    var s0 := Init(started, size, view);
    var s := Run(s0, events);
    InitStarted(started, size, view);
    RunStarted(s0, events);
    DeltaAnswers(s, now, window, from);
    QueriesCoverTheWindow(started, size, view, events, from);
    EmptyIffQuiet(s, now, window);
    CutoffIsStart(s, now, window, from);
  }

  lemma {:induction false} RunStarted(s: SessionState, events: seq<Event>)
    ensures Run(s, events).started == s.started
    decreases |events|
  {
    hide React;
    if events != [] {
      RunStarted(s, events[..|events| - 1]);
      ReactRecords(Run(s, events[..|events| - 1]), events[|events| - 1]);
    }
  }

  // ----- Lines and rows of a report -----

  /** Blank lines are left out, one by one and in place. */
  lemma {:induction false} NonBlankIsFilter(a: seq<string>, b: seq<string>, line: string)
    ensures NonBlank(a + b) == NonBlank(a) + NonBlank(b)
    ensures (exists c :: c in line && !Text.IsWhite(c)) ==> NonBlank([line]) == [line]
    ensures (forall c :: c in line ==> Text.IsWhite(c)) ==> NonBlank([line]) == []
    decreases |a|
  {
    assert [line][1..] == [];
    if a == [] {
      assert a + b == b;
    } else {
      NonBlankIsFilter(a[1..], b, line);
      assert (a + b)[1..] == a[1..] + b;
    }
  }

  /** Of an edit script, the texts of the added lines are taken, in order. */
  lemma {:induction false} AddedTextsAreAdded(a: seq<Diff.DiffOp>, b: seq<Diff.DiffOp>, op: Diff.DiffOp)
    ensures AddedTexts(a + b) == AddedTexts(a) + AddedTexts(b)
    ensures AddedTexts([op]) == if op.Added? then [op.text] else []
    decreases |a|
  {
    assert [op][1..] == [];
    if a == [] {
      assert a + b == b;
    } else {
      AddedTextsAreAdded(a[1..], b, op);
      assert (a + b)[1..] == a[1..] + b;
    }
  }

  /** Rows that are still on the screen, in order, each with its current text. */
  ghost predicate ShowsRows(listed: seq<ChangedRow>, rows: seq<nat>, view: seq<string>) {
    && (forall k :: 0 <= k < |listed| ==>
          listed[k].index in rows && listed[k].index < |view| && listed[k].text == view[listed[k].index])
    && (forall row :: row in rows && row < |view| ==> ChangedRow(row, view[row]) in listed)
    && (forall j, k :: 0 <= j < k < |listed| ==> listed[j].index < listed[k].index)
  }

  lemma {:induction false} RowTextsShow(rows: seq<nat>, view: seq<string>)
    requires Ascending(rows)
    ensures ShowsRows(RowTexts(rows, view), rows, view)
    decreases |rows|
  {
    if rows != [] {
      hide ShowsRows;
      assert forall i :: 0 <= i < |rows[1..]| ==> rows[1..][i] == rows[i + 1];
      RowTextsShow(rows[1..], view);
      ShowsOneMore(RowTexts(rows[1..], view), rows, view);
    } else {
      NoRowsShown(view);
    }
  }

  lemma AboveFirst(rows: seq<nat>, row: nat)
    requires Ascending(rows) && rows != []
    ensures row in rows <==> row == rows[0] || row in rows[1..]
    ensures row in rows[1..] ==> rows[0] < row
  {
    assert rows == [rows[0]] + rows[1..];
    if row in rows[1..] {
      var i :| 0 <= i < |rows[1..]| && rows[1..][i] == row;
      assert rows[i + 1] == row;
    }
  }

  lemma ShowsOneMore(listed: seq<ChangedRow>, rows: seq<nat>, view: seq<string>)
    requires Ascending(rows) && rows != [] && ShowsRows(listed, rows[1..], view)
    ensures ShowsRows((if rows[0] < |view| then [ChangedRow(rows[0], view[rows[0]])] else []) + listed, rows, view)
  {
    hide Ascending;
    forall row: nat
      ensures row in rows <==> row == rows[0] || row in rows[1..]
      ensures row in rows[1..] ==> rows[0] < row
    {
      AboveFirst(rows, row);
    }
    if rows[0] < |view| {
      ShowsFirst(listed, rows, view);
    } else {
      assert [] + listed == listed;
    }
  }

  lemma ShowsFirst(listed: seq<ChangedRow>, rows: seq<nat>, view: seq<string>)
    requires rows != [] && rows[0] < |view| && ShowsRows(listed, rows[1..], view)
    requires forall row :: row in rows[1..] ==> rows[0] < row && row in rows
    requires forall row :: row in rows ==> row == rows[0] || row in rows[1..]
    ensures ShowsRows([ChangedRow(rows[0], view[rows[0]])] + listed, rows, view)
  {
    var all := [ChangedRow(rows[0], view[rows[0]])] + listed;
    assert forall k :: 0 < k < |all| ==> all[k] == listed[k - 1];
    forall row | row in rows && row < |view| ensures ChangedRow(row, view[row]) in all {
      if row != rows[0] {
        assert ChangedRow(row, view[row]) in listed;
      }
    }
  }

  /**
    * Whatever was evicted: a report says which screen is current, on the alternate screen it shows the
    * changed rows as they now are and appends nothing, on the primary screen it shows no rows, and the
    * content has changed exactly when some row, some line of the diff or some appended line says so.
    */
  lemma ReportShape(s: SessionState, now: Instant, window: nat)
    ensures var report := Delta(s, now, window);
            && report.windowMs == window
            && report.altScreen == s.scanner.modes.altScreen
            && (report.mode.AltScreen? <==> report.altScreen)
            && (report.altScreen ==> ShowsRows(report.rows, report.changedRows, s.view) && report.appended == [])
            && (!report.altScreen ==> report.rows == [])
            && (report.contentChanged <==> report.changedRows != [] || report.diff != [] || report.appended != [])
  {
    hide OutputSince, Diff.Script, Cutoff, AltScreenSwitchedSince, LastAtOrBefore, NonBlank, AddedTexts, Baseline,
      ScrollbackSince, CursorMovedSince, ShowsRows, RowTexts;
    RowTextsShow(DirtyRowsSince(s.rings, Cutoff(s, now, window)), s.view);
    NoRowsShown(s.view);
  }

  /**
    * An empty report lists nothing and announces nothing; its age is that of the newest checkpoint at or before the start
    * of the window, and it has none exactly when no such checkpoint is held.
    */
  lemma EmptyReportIsBlank(s: SessionState, now: Instant, window: nat, from: Instant)
    requires StartsAt(s.started, now, window, from) && Delta(s, now, window).IsEmpty()
    ensures var report := Delta(s, now, window);
            && report.changedRows == [] && report.rows == [] && report.diff == [] && report.appended == []
            && !report.altScreenSwitched && !report.cursorMoved && !report.clamped
            && (report.baselineAgeMs.None? <==>
                  forall i :: 0 <= i < |s.rings.checkpoints| ==> s.rings.checkpoints[i].at > from)
            && (report.baselineAgeMs.Some? ==>
                  exists i: nat :: && IsBaseline(s.rings.checkpoints, i, from, false)
                                   && report.baselineAgeMs.value == Elapsed(now, s.rings.checkpoints[i].at))
  {
    hide StartsAt, Cutoff, LastAtOrBefore, OutputSince, DirtyRowsSince, Diff.Script, NonBlank, AddedTexts, AltScreenSwitchedSince;
    CutoffIsStart(s, now, window, from);
    EmptyIffQuiet(s, now, window);
    var checkpoints := s.rings.checkpoints;
    if LastAtOrBefore(checkpoints, from).Some? {
      var i := LastAtOrBeforeIsHeld(checkpoints, from);
      assert IsBaseline(checkpoints, i, from, false);
    } else {
      NoneMeansLater(checkpoints, from);
    }
  }

  lemma NoRowsShown(view: seq<string>)
    ensures ShowsRows([], [], view)
  {
  }

  /** The screen a session shows is what the emulator showed after the last event that made it draw. */
  lemma {:induction false} ShowsLastReply(s: SessionState, events: seq<Event>)
    requires events != []
    ensures var front, e := events[..|events| - 1], events[|events| - 1];
            Run(s, events).view == if Draws(Run(s, front), e) then e.reply.view else Run(s, front).view
    ensures var front, e := events[..|events| - 1], events[|events| - 1];
            Run(s, events).size == if e.Resize? then e.size else Run(s, front).size
  {
    hide RecordAll, Record, Utf8.Decode, Utf8.FlushText, Modes.Scan;
  }

  /**
    * Where a report is not empty and is not clamped, it announces a switch exactly when the alternate flag
    * now differs from the flag after the last event at or before the start of the window.
    */
  lemma SwitchIsReported(
    started: Instant, size: Size, view: seq<string>, events: seq<Event>, now: Instant, window: nat, from: Instant, k: nat)
    requires Timely(started, events) && StartsAt(started, now, window, from) && SplitsAt(events, from, k)
    requires var report := Delta(Run(Init(started, size, view), events), now, window);
             !report.IsEmpty() && !report.clamped
    ensures var s0 := Init(started, size, view);
            var s := Run(s0, events);
            Delta(s, now, window).altScreenSwitched <==> Run(s0, events[..k]).Alt() != s.Alt()
  {
    hide Run, Init, Delta, StartsAt, Timely, SplitsAt, LastAtOrBefore, AltScreenSwitchedSince, Tracked, Quiet, Cutoff;
    var s0 := Init(started, size, view);
    var s := Run(s0, events);
    InitStarted(started, size, view);
    RunStarted(s0, events);
    CutoffIsStart(s, now, window, from);
    EmptyIffQuiet(s, now, window);
    InitTracked(started, size, view);
    RunTracked(s0, events);
    TrackedHasCheckpoint(s, LastTime(started, events));
    DeltaSwitch(s, now, window, from);
    SwitchReportIsExact(started, size, view, events, from, k);
  }

  lemma DeltaSwitch(s: SessionState, now: Instant, window: nat, from: Instant)
    requires Cutoff(s, now, window) == from && !Quiet(s.rings, from) && s.rings.checkpoints != []
    ensures var report := Delta(s, now, window);
            && report.altScreenSwitched == AltScreenSwitchedSince(s.rings, from, s.Alt())
            && (report.clamped <==> LastAtOrBefore(s.rings.checkpoints, from).None?)
  {
    hide OutputSince, DirtyRowsSince, Diff.Script, AltScreenSwitchedSince, LastAtOrBefore, NonBlank, AddedTexts, Quiet, Cutoff;
  }
}
