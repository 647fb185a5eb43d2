/** Bounded, timestamped history rings, and how they relate to an unbounded log. */
module Rings {
  import opened Options
  import opened Incremental
  import Utf8

  /** Points on the monotonic clock, in milliseconds. */
  type Instant = int

  datatype Stamped<+T> = Stamped(at: Instant, item: T)

  datatype Screen = Screen(view: seq<string>, altScreen: bool)

  datatype CursorPos = CursorPos(col: nat, row: nat, visible: bool)

  datatype Limits = Limits(
    checkpointInterval: nat, checkpointCapacity: nat, dirtyCapacity: nat,
    outputCapacity: nat, outputBytes: nat, scrollbackCapacity: nat)

  const DEFAULT_LIMITS: Limits := Limits(500, 240, 4096, 4096, 1048576, 4096)

  datatype RingState = RingState(
    limits: Limits,
    dirty: seq<Stamped<seq<nat>>>,
    checkpoints: seq<Stamped<Screen>>,
    output: seq<Stamped<string>>,
    scrollback: seq<Stamped<string>>,
    cursor: seq<Stamped<CursorPos>>,
    outputBytes: nat,
    lastCheckpoint: Option<Instant>,
    evicted: bool)

  function Empty(limits: Limits): RingState {
    RingState(limits, [], [], [], [], [], 0, None, false)
  }

  // ----- Eviction, stated without loops -----

  /** The newest `cap` records. */
  function Newest<T>(s: seq<T>, cap: nat): (r: seq<T>)
    ensures |r| <= cap && |r| <= |s|
  {
    if |s| <= cap then s else s[|s| - cap..]
  }

  /** Bytes held by a run of output records. */
  function Bytes(s: seq<Stamped<string>>): nat {
    if s == [] then 0 else Utf8.TextBytes(s[0].item) + Bytes(s[1..])
  }

  predicate Fits(limits: Limits, s: seq<Stamped<string>>) {
    |s| <= limits.outputCapacity && Bytes(s) <= limits.outputBytes
  }

  /** The longest suffix within both the record and the byte cap. */
  function LongestFit(limits: Limits, s: seq<Stamped<string>>): seq<Stamped<string>> {
    if s == [] || Fits(limits, s) then s else LongestFit(limits, s[1..])
  }

  function SaturatingSub(a: nat, b: nat): nat {
    if a >= b then a - b else 0
  }

  function Elapsed(at: Instant, since: Instant): nat {
    if at >= since then at - since else 0
  }

  function StampAll(at: Instant, lines: seq<string>): seq<Stamped<string>> {
    seq(|lines|, i requires 0 <= i < |lines| => Stamped(at, lines[i]))
  }

  // ----- Recording -----

  datatype Op =
    | Dirty(at: Instant, rows: seq<nat>)
    | Output(at: Instant, text: string)
    | Scrollback(at: Instant, lines: seq<string>)
    | Cursor(at: Instant, pos: CursorPos)
    | Checkpoint(at: Instant, force: bool, screen: Screen)

  predicate CheckpointDue(r: RingState, at: Instant, force: bool) {
    force || r.lastCheckpoint.None? || Elapsed(at, r.lastCheckpoint.value) >= r.limits.checkpointInterval
  }

  function Record(r: RingState, op: Op): RingState {
    match op
    case Dirty(at, rows) =>
      if rows == [] then r
      else
        var all := r.dirty + [Stamped(at, rows)];
        r.(dirty := Newest(all, r.limits.dirtyCapacity),
           evicted := r.evicted || |all| > r.limits.dirtyCapacity)
    case Output(at, text) =>
      if text == "" then r
      else
        var all := r.output + [Stamped(at, text)];
        var kept := LongestFit(r.limits, all);
        r.(output := kept, outputBytes := Bytes(kept), evicted := r.evicted || kept != all)
    case Scrollback(at, lines) =>
      var all := r.scrollback + StampAll(at, lines);
      r.(scrollback := Newest(all, r.limits.scrollbackCapacity),
         evicted := r.evicted || |all| > r.limits.scrollbackCapacity)
    case Cursor(at, pos) =>
      if r.cursor != [] && r.cursor[|r.cursor| - 1].item == pos then r
      else
        var all := r.cursor + [Stamped(at, pos)];
        r.(cursor := Newest(all, r.limits.dirtyCapacity),
           evicted := r.evicted || |all| > r.limits.dirtyCapacity)
    case Checkpoint(at, force, screen) =>
      if !CheckpointDue(r, at, force) then r
      else
        var all := r.checkpoints + [Stamped(at, screen)];
        r.(checkpoints := Newest(all, r.limits.checkpointCapacity),
           lastCheckpoint := Some(at),
           evicted := r.evicted || |all| > r.limits.checkpointCapacity)
  }

  function RecordAll(r: RingState, ops: seq<Op>): RingState {
    if ops == [] then r else Record(RecordAll(r, ops[..|ops| - 1]), ops[|ops| - 1])
  }

  // ----- Queries -----

  /** Records at or after the cutoff. */
  function Since<T>(s: seq<Stamped<T>>, cutoff: Instant): seq<Stamped<T>> {
    if s == [] then []
    else if s[0].at >= cutoff then [s[0]] + Since(s[1..], cutoff)
    else Since(s[1..], cutoff)
  }

  function Items<T>(s: seq<Stamped<T>>): seq<T> {
    seq(|s|, i requires 0 <= i < |s| => s[i].item)
  }

  function OutputSince(r: RingState, cutoff: Instant): string {
    Flatten(Items(Since(r.output, cutoff)))
  }

  function ScrollbackSince(r: RingState, cutoff: Instant): seq<string> {
    Items(Since(r.scrollback, cutoff))
  }

  predicate CursorMovedSince(r: RingState, cutoff: Instant) {
    Since(r.cursor, cutoff) != []
  }

  function DirtyRowsSince(r: RingState, cutoff: Instant): seq<nat> {
    SortDedup(Flatten(Items(Since(r.dirty, cutoff))))
  }

  predicate Ascending(s: seq<nat>) {
    forall i, j :: 0 <= i < j < |s| ==> s[i] < s[j]
  }

  function Insert(s: seq<nat>, x: nat): (r: seq<nat>)
    requires Ascending(s)
    ensures Ascending(r) && forall y :: y in r <==> y in s || y == x
  {
    if s == [] then [x]
    else if x < s[0] then [x] + s
    else if x == s[0] then s
    else
      var t := Insert(s[1..], x);
      assert forall y :: y in s <==> y == s[0] || y in s[1..];
      assert forall y :: y in s[1..] ==> s[0] < y;
      assert forall k :: 0 <= k < |t| ==> t[k] in t;
      [s[0]] + t
  }

  /** Each row once, in order. */
  function SortDedup(rows: seq<nat>): (r: seq<nat>)
    ensures Ascending(r) && forall y :: y in r <==> y in rows
  {
    if rows == [] then []
    else
      assert forall y :: y in rows <==> y == rows[0] || y in rows[1..];
      Insert(SortDedup(rows[1..]), rows[0])
  }

  /** The newest record at or before the cutoff. */
  function LastAtOrBefore<T>(s: seq<Stamped<T>>, cutoff: Instant): Option<Stamped<T>> {
    if s == [] then None
    else if s[|s| - 1].at <= cutoff then Some(s[|s| - 1])
    else LastAtOrBefore(s[..|s| - 1], cutoff)
  }

  /** Whether the alternate flag differs from the one at the window's start, or at the oldest checkpoint. */
  predicate AltScreenSwitchedSince(r: RingState, cutoff: Instant, nowAlt: bool) {
    match LastAtOrBefore(r.checkpoints, cutoff)
    case Some(c) => c.item.altScreen != nowAlt
    case None => r.checkpoints != [] && r.checkpoints[0].item.altScreen != nowAlt
  }

  // ----- The rings as the source mutates them -----

  /** The pop-front loop every count-bounded ring runs after a push. */
  method DropOldest<T>(ring: seq<T>, capacity: nat) returns (kept: seq<T>, dropped: bool)
    ensures kept == Newest(ring, capacity)
    ensures dropped <==> |ring| > capacity
  {
    kept, dropped := ring, false;
    while |kept| > capacity
      invariant |kept| <= |ring| && kept == ring[|ring| - |kept|..]
      invariant |kept| >= |Newest(ring, capacity)|
      invariant dropped <==> |kept| < |ring|
    {
      kept := kept[1..];
      dropped := true;
    }
  }

  class History {
    const limits: Limits
    var dirty: seq<Stamped<seq<nat>>>
    var checkpoints: seq<Stamped<Screen>>
    var output: seq<Stamped<string>>
    var scrollback: seq<Stamped<string>>
    var cursor: seq<Stamped<CursorPos>>
    var outputBytes: nat
    var lastCheckpoint: Option<Instant>
    var evicted: bool

    function State(): RingState
      reads this
    {
      RingState(limits, dirty, checkpoints, output, scrollback, cursor, outputBytes, lastCheckpoint, evicted)
    }

    ghost predicate Valid()
      reads this
    {
      outputBytes == Bytes(output)
    }

    constructor (limits: Limits)
      ensures State() == Empty(limits) && Valid()
    {
      this.limits := limits;
      dirty, checkpoints, output, scrollback, cursor := [], [], [], [], [];
      outputBytes, lastCheckpoint, evicted := 0, None, false;
    }

    method RecordDirty(at: Instant, rows: seq<nat>)
      requires Valid()
      modifies this
      ensures Valid() && State() == Record(old(State()), Dirty(at, rows))
    {
      if rows == [] {
        return;
      }
      dirty := dirty + [Stamped(at, rows)];
      var dropped;
      dirty, dropped := DropOldest(dirty, limits.dirtyCapacity);
      evicted := evicted || dropped;
    }

    method RecordOutput(at: Instant, text: string)
      requires Valid()
      modifies this
      ensures Valid() && State() == Record(old(State()), Output(at, text))
    {
      if text == "" {
        return;
      }
      BytesAppend(output, Stamped(at, text));
      outputBytes := outputBytes + Utf8.TextBytes(text);
      output := output + [Stamped(at, text)];
      ghost var all := output;
      while |output| > limits.outputCapacity || outputBytes > limits.outputBytes
        invariant Valid() && |output| <= |all|
        invariant LongestFit(limits, all) == LongestFit(limits, output)
        invariant evicted == (old(evicted) || |output| < |all|)
        invariant State() == old(State()).(output := output, outputBytes := outputBytes, evicted := evicted)
        invariant |output| == |all| ==> output == all
        decreases |output|
      {
        if output == [] {
          break;
        }
        var dropped := output[0];
        output := output[1..];
        var size := Utf8.TextBytes(dropped.item);
        outputBytes := SaturatingSub(outputBytes, size);
        evicted := true;
      }
    }

    method RecordScrollback(at: Instant, lines: seq<string>)
      requires Valid()
      modifies this
      ensures Valid() && State() == Record(old(State()), Scrollback(at, lines))
    {
      for i := 0 to |lines|
        invariant scrollback == old(scrollback) + StampAll(at, lines[..i])
        invariant State() == old(State()).(scrollback := scrollback)
      {
        scrollback := scrollback + [Stamped(at, lines[i])];
      }
      assert lines[..|lines|] == lines;
      var dropped;
      scrollback, dropped := DropOldest(scrollback, limits.scrollbackCapacity);
      evicted := evicted || dropped;
    }

    method RecordCursor(at: Instant, pos: CursorPos)
      requires Valid()
      modifies this
      ensures Valid() && State() == Record(old(State()), Cursor(at, pos))
    {
      if cursor != [] && cursor[|cursor| - 1].item == pos {
        return;
      }
      cursor := cursor + [Stamped(at, pos)];
      var dropped;
      cursor, dropped := DropOldest(cursor, limits.dirtyCapacity);
      evicted := evicted || dropped;
    }

    method MaybeCheckpoint(at: Instant, force: bool, screen: Screen)
      requires Valid()
      modifies this
      ensures Valid() && State() == Record(old(State()), Checkpoint(at, force, screen))
    {
      var due := match lastCheckpoint
        case None => true
        case Some(last) => Elapsed(at, last) >= limits.checkpointInterval;
      if !due && !force {
        return;
      }
      checkpoints := checkpoints + [Stamped(at, screen)];
      lastCheckpoint := Some(at);
      var dropped;
      checkpoints, dropped := DropOldest(checkpoints, limits.checkpointCapacity);
      evicted := evicted || dropped;
    }
  }

  lemma {:induction false} BytesAppend(s: seq<Stamped<string>>, x: Stamped<string>)
    ensures Bytes(s + [x]) == Bytes(s) + Utf8.TextBytes(x.item)
    decreases |s|
  {
    if s == [] {
      assert s + [x] == [x];
    } else {
      assert (s + [x])[1..] == s[1..] + [x];
      BytesAppend(s[1..], x);
    }
  }
}
