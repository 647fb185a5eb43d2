/** Everything the agent can observe: the emulator, the mode scanner and the history rings. */
module Session {
  import opened Options
  import opened Rings
  import opened Text
  import Utf8
  import Modes
  import Diff

  /** Size of one read from the child. */
  const READ_BUF: nat := 65536

  datatype Size = Size(cols: nat, rows: nat)

  /** What the emulator shows and reports after it was fed or resized. */
  datatype Reply = Reply(view: seq<string>, cursor: CursorPos, dirty: seq<nat>, evicted: seq<string>)

  datatype Event =
    | Feed(at: Instant, bytes: seq<Utf8.Byte>, reply: Reply)
    | Finish(at: Instant, reply: Reply)
    | Resize(at: Instant, size: Size, reply: Reply)
    | Tick(at: Instant)

  datatype SessionState = SessionState(
    view: seq<string>, scanner: Modes.Scanner, partial: seq<Utf8.Byte>,
    rings: RingState, size: Size, started: Instant)
  {
    predicate Alt() {
      scanner.modes.altScreen
    }

    function Screen(): Screen {
      Rings.Screen(view, Alt())
    }
  }

  function Init(now: Instant, size: Size, view: seq<string>): SessionState {
    SessionState(view, Modes.FRESH, [],
                 Record(Empty(DEFAULT_LIMITS), Checkpoint(now, true, Screen(view, false))), size, now)
  }

  function EvictedOps(at: Instant, reply: Reply): seq<Op> {
    if reply.evicted == [] then [] else [Scrollback(at, reply.evicted)]
  }

  function IngestOps(at: Instant, text: string, reply: Reply, wasAlt: bool, isAlt: bool): seq<Op> {
    [Output(at, text), Dirty(at, reply.dirty), Cursor(at, reply.cursor)]
    + EvictedOps(at, reply)
    + [Checkpoint(at, wasAlt != isAlt, Screen(reply.view, isAlt))]
  }

  function ResizeOps(at: Instant, reply: Reply, alt: bool): seq<Op> {
    EvictedOps(at, reply) + [Dirty(at, reply.dirty), Checkpoint(at, true, Screen(reply.view, alt))]
  }

  function Ingest(s: SessionState, at: Instant, text: string, reply: Reply): SessionState {
    var scanner := Modes.Scan(s.scanner, text);
    s.(scanner := scanner, view := reply.view,
       rings := RecordAll(s.rings, IngestOps(at, text, reply, s.Alt(), scanner.modes.altScreen)))
  }

  /** The text one event hands to the emulator, and what the decoder then still carries. */
  function Decoded(s: SessionState, e: Event): (string, seq<Utf8.Byte>) {
    match e
    case Feed(_, bytes, _) => var d := Utf8.Decode(s.partial + bytes); (d.outs, d.rest)
    case Finish(_, _) => (Utf8.FlushText(s.partial), [])
    case _ => ("", s.partial)
  }

  function React(s: SessionState, e: Event): SessionState {
    match e
    case Feed(at, _, reply) =>
      var (text, partial) := Decoded(s, e);
      var t := s.(partial := partial);
      if text == "" then t else Ingest(t, at, text, reply)
    case Finish(at, reply) =>
      var (text, partial) := Decoded(s, e);
      var t := s.(partial := partial);
      if text == "" then t else Ingest(t, at, text, reply)
    case Resize(at, size, reply) =>
      if size == s.size then s
      else s.(size := size, view := reply.view, rings := RecordAll(s.rings, ResizeOps(at, reply, s.Alt())))
    case Tick(at) =>
      s.(rings := Record(s.rings, Checkpoint(at, false, s.Screen())))
  }

  function Run(s: SessionState, events: seq<Event>): SessionState {
    if events == [] then s else React(Run(s, events[..|events| - 1]), events[|events| - 1])
  }

  // ----- Assumptions on a run -----

  ghost predicate Timely(started: Instant, events: seq<Event>) {
    && (events != [] ==> started <= events[0].at)
    && forall i, j :: 0 <= i <= j < |events| ==> events[i].at <= events[j].at
  }

  /** No read is larger than the pump's buffer. */
  ghost predicate ReadsBounded(events: seq<Event>) {
    forall i :: 0 <= i < |events| && events[i].Feed? ==> |events[i].bytes| <= READ_BUF
  }

  /** A resize that changes what is shown reports at least one dirty row. */
  ghost predicate HonestResizes(s: SessionState, events: seq<Event>) {
    forall i :: 0 <= i < |events| ==> HonestResize(Run(s, events[..i]), events[i])
  }

  ghost predicate HonestResize(s: SessionState, e: Event) {
    e.Resize? && e.reply.view != s.view ==> e.reply.dirty != []
  }

  ghost predicate GoodRun(s: SessionState, events: seq<Event>) {
    Timely(s.started, events) && ReadsBounded(events) && HonestResizes(s, events)
  }

  // ----- Delta reports -----

  datatype DeltaMode = AltScreen | Scrolling

  datatype ChangedRow = ChangedRow(index: nat, text: string)

  datatype Report = Report(
    windowMs: nat, mode: DeltaMode, altScreen: bool, altScreenSwitched: bool, baselineAgeMs: Option<nat>,
    changedRows: seq<nat>, rows: seq<ChangedRow>, diff: seq<Diff.DiffOp>, appended: seq<string>,
    outputBytes: nat, contentChanged: bool, cursorMoved: bool, truncated: bool, clamped: bool)
  {
    predicate IsEmpty() {
      !contentChanged && outputBytes == 0
    }
  }

  /** The earliest instant the clock can represent. */
  const CLOCK_MIN: Instant := -0x8000_0000_0000_0000 * 1000

  function Cutoff(s: SessionState, now: Instant, window: nat): Instant {
    if now - window < CLOCK_MIN then s.started else now - window
  }

  predicate Quiet(r: RingState, cutoff: Instant) {
    OutputSince(r, cutoff) == "" && DirtyRowsSince(r, cutoff) == []
  }

  function Baseline(r: RingState, cutoff: Instant): Option<Stamped<Screen>> {
    match LastAtOrBefore(r.checkpoints, cutoff)
    case Some(c) => Some(c)
    case None => if r.checkpoints == [] then None else Some(r.checkpoints[0])
  }

  function Age(now: Instant, c: Option<Stamped<Screen>>): Option<nat> {
    match c
    case Some(c) => Some(Elapsed(now, c.at))
    case None => None
  }

  function NonBlank(lines: seq<string>): seq<string> {
    if lines == [] then []
    else if IsBlank(lines[0]) then NonBlank(lines[1..])
    else [lines[0]] + NonBlank(lines[1..])
  }

  function AddedTexts(ops: seq<Diff.DiffOp>): seq<string> {
    if ops == [] then []
    else (if ops[0].Added? then [ops[0].text] else []) + AddedTexts(ops[1..])
  }

  function RowTexts(rows: seq<nat>, view: seq<string>): seq<ChangedRow> {
    if rows == [] then []
    else (if rows[0] < |view| then [ChangedRow(rows[0], view[rows[0]])] else []) + RowTexts(rows[1..], view)
  }

  /** The report's answer for every part that depends on the baseline's difference `diff`. */
  function ChangedReport(s: SessionState, now: Instant, window: nat, diff: seq<Diff.DiffOp>): Report {
    var cutoff := Cutoff(s, now, window);
    var alt := s.Alt();
    var changedRows := DirtyRowsSince(s.rings, cutoff);
    var appended := if alt then [] else NonBlank(ScrollbackSince(s.rings, cutoff)) + NonBlank(AddedTexts(diff));
    Report(window, if alt then AltScreen else Scrolling, alt,
           AltScreenSwitchedSince(s.rings, cutoff, alt),
           Age(now, Baseline(s.rings, cutoff)),
           changedRows, if alt then RowTexts(changedRows, s.view) else [], diff, appended,
           Utf8.TextBytes(OutputSince(s.rings, cutoff)),
           changedRows != [] || diff != [] || appended != [],
           CursorMovedSince(s.rings, cutoff), s.rings.evicted,
           LastAtOrBefore(s.rings.checkpoints, cutoff).None? && s.rings.checkpoints != [])
  }

  function Delta(s: SessionState, now: Instant, window: nat): Report {
    var cutoff := Cutoff(s, now, window);
    if Quiet(s.rings, cutoff) then
      Report(window, if s.Alt() then AltScreen else Scrolling, s.Alt(), false,
             Age(now, LastAtOrBefore(s.rings.checkpoints, cutoff)),
             [], [], [], [], 0, false, false, s.rings.evicted, false)
    else
      var diff := match Baseline(s.rings, cutoff)
        case Some(c) => Diff.Script(c.item.view, s.view, 0, 0)
        case None => [];
      ChangedReport(s, now, window, diff)
  }

  // ----- The session as the source mutates it -----

  class Session {
    const scanner: Modes.ModeScanner
    const decoder: Utf8.Utf8Decoder
    const history: History
    const started: Instant
    var view: seq<string>
    var size: Size

    ghost predicate Valid()
      reads this, scanner, decoder, history
    {
      decoder.Valid() && history.Valid()
    }

    function State(): SessionState
      reads this, scanner, decoder, history
    {
      SessionState(view, scanner.State(), decoder.partial, history.State(), size, started)
    }

    constructor (now: Instant, size: Size, view: seq<string>)
      ensures Valid() && State() == Init(now, size, view)
      ensures fresh(scanner) && fresh(decoder) && fresh(history)
    {
      scanner := new Modes.ModeScanner();
      decoder := new Utf8.Utf8Decoder();
      history := new History(DEFAULT_LIMITS);
      this.started, this.size, this.view := now, size, view;
      new;
      history.MaybeCheckpoint(now, true, Screen(view, false));
    }

    method FeedOutput(at: Instant, bytes: seq<Utf8.Byte>, reply: Reply)
      requires Valid()
      modifies this, scanner, decoder, history
      ensures Valid() && State() == React(old(State()), Feed(at, bytes, reply))
    {
      var text := decoder.Feed(bytes);
      if text == "" {
        return;
      }
      IngestText(at, text, reply);
    }

    method FinishOutput(at: Instant, reply: Reply)
      requires Valid()
      modifies this, scanner, decoder, history
      ensures Valid() && State() == React(old(State()), Finish(at, reply))
    {
      var text := decoder.Flush();
      if text != "" {
        IngestText(at, text, reply);
      }
    }

    method IngestText(at: Instant, text: string, reply: Reply)
      requires Valid()
      modifies this, scanner, history
      ensures Valid() && State() == Ingest(old(State()), at, text, reply)
    {
      hide Record;
      var wasAlt := scanner.modes.altScreen;
      scanner.Feed(text);
      var isAlt := scanner.modes.altScreen;
      view := reply.view;
      RecordIngest(history.State(), at, text, reply, wasAlt, isAlt);
      history.RecordOutput(at, text);
      history.RecordDirty(at, reply.dirty);
      history.RecordCursor(at, reply.cursor);
      if reply.evicted != [] {
        history.RecordScrollback(at, reply.evicted);
      }
      history.MaybeCheckpoint(at, wasAlt != isAlt, Screen(view, isAlt));
    }

    method CheckpointNow(at: Instant)
      requires Valid()
      modifies history
      ensures Valid() && State() == React(old(State()), Tick(at))
    {
      history.MaybeCheckpoint(at, false, Screen(view, scanner.modes.altScreen));
    }

    method ResizeTo(at: Instant, newSize: Size, reply: Reply)
      requires Valid()
      modifies this, history
      ensures Valid() && State() == React(old(State()), Resize(at, newSize, reply))
    {
      hide Record;
      if newSize == size {
        return;
      }
      size := newSize;
      view := reply.view;
      RecordResize(history.State(), at, reply, scanner.modes.altScreen);
      if reply.evicted != [] {
        history.RecordScrollback(at, reply.evicted);
      }
      history.RecordDirty(at, reply.dirty);
      history.MaybeCheckpoint(at, true, Screen(view, scanner.modes.altScreen));
    }

    method DeltaSince(now: Instant, window: nat) returns (report: Report)
      requires Valid()
      ensures report == Delta(State(), now, window)
    {
      var s := State();
      var cutoff := Cutoff(s, now, window);
      if Quiet(s.rings, cutoff) {
        return Report(window, if s.Alt() then AltScreen else Scrolling, s.Alt(), false,
                      Age(now, LastAtOrBefore(s.rings.checkpoints, cutoff)),
                      [], [], [], [], 0, false, false, s.rings.evicted, false);
      }
      var diff := [];
      var baseline := Baseline(s.rings, cutoff);
      if baseline.Some? {
        diff := Diff.DiffLines(baseline.value.item.view, s.view);
      }
      report := ChangedReport(s, now, window, diff);
    }
  }

  lemma RecordIngest(r: RingState, at: Instant, text: string, reply: Reply, wasAlt: bool, isAlt: bool)
    ensures RecordAll(r, IngestOps(at, text, reply, wasAlt, isAlt)) ==
            var a := Record(Record(Record(r, Output(at, text)), Dirty(at, reply.dirty)), Cursor(at, reply.cursor));
            var b := if reply.evicted == [] then a else Record(a, Scrollback(at, reply.evicted));
            Record(b, Checkpoint(at, wasAlt != isAlt, Screen(reply.view, isAlt)))
  {
    hide Record;
    var ops := IngestOps(at, text, reply, wasAlt, isAlt);
    var n := |ops| - 1;
    assert ops[..3] == [Output(at, text), Dirty(at, reply.dirty), Cursor(at, reply.cursor)];
    RecordThree(r, ops[0], ops[1], ops[2]);
    assert n == 4 ==> ops[..n][..3] == ops[..3];
  }

  lemma RecordThree(r: RingState, a: Op, b: Op, c: Op)
    ensures RecordAll(r, [a]) == Record(r, a)
    ensures RecordAll(r, [a, b]) == Record(Record(r, a), b)
    ensures RecordAll(r, [a, b, c]) == Record(Record(Record(r, a), b), c)
  {
    hide Record;
    assert [a][..0] == [];
    assert [a, b][..1] == [a];
    assert [a, b, c][..2] == [a, b];
  }

  lemma RecordResize(r: RingState, at: Instant, reply: Reply, alt: bool)
    ensures RecordAll(r, ResizeOps(at, reply, alt)) ==
            var a := if reply.evicted == [] then r else Record(r, Scrollback(at, reply.evicted));
            Record(Record(a, Dirty(at, reply.dirty)), Checkpoint(at, true, Screen(reply.view, alt)))
  {
    hide Record;
    var ops := ResizeOps(at, reply, alt);
    if reply.evicted == [] {
      RecordThree(r, ops[0], ops[1], ops[1]);
      assert ops == [ops[0], ops[1]];
    } else {
      RecordThree(r, ops[0], ops[1], ops[2]);
      assert ops == [ops[0], ops[1], ops[2]];
    }
  }
}
