/** The unbounded log the rings stand for, and when a query cannot tell the two apart. */
module RingLog {
  import opened Options
  import opened Rings

  /** Everything ever recorded. */
  datatype Log = Log(
    dirty: seq<Stamped<seq<nat>>>,
    checkpoints: seq<Stamped<Screen>>,
    output: seq<Stamped<string>>,
    scrollback: seq<Stamped<string>>,
    cursor: seq<Stamped<CursorPos>>)

  const NOTHING: Log := Log([], [], [], [], [])

  function LastStamp<T>(s: seq<Stamped<T>>): Option<Instant> {
    if s == [] then None else Some(s[|s| - 1].at)
  }

  /** Append without ever dropping. A checkpoint is taken when forced, first, or an interval late. */
  function Write(log: Log, interval: nat, op: Op): Log {
    match op
    case Dirty(at, rows) => if rows == [] then log else log.(dirty := log.dirty + [Stamped(at, rows)])
    case Output(at, text) => if text == "" then log else log.(output := log.output + [Stamped(at, text)])
    case Scrollback(at, lines) => log.(scrollback := log.scrollback + StampAll(at, lines))
    case Cursor(at, pos) =>
      if log.cursor != [] && log.cursor[|log.cursor| - 1].item == pos then log
      else log.(cursor := log.cursor + [Stamped(at, pos)])
    case Checkpoint(at, force, screen) =>
      var last := LastStamp(log.checkpoints);
      if force || last.None? || Elapsed(at, last.value) >= interval
      then log.(checkpoints := log.checkpoints + [Stamped(at, screen)])
      else log
  }

  function WriteAll(interval: nat, ops: seq<Op>): Log {
    if ops == [] then NOTHING else Write(WriteAll(interval, ops[..|ops| - 1]), interval, ops[|ops| - 1])
  }

  // ----- Each ring is the longest suffix of its log that fits -----

  predicate Suffix<T(==)>(ring: seq<T>, log: seq<T>) {
    |ring| <= |log| && ring == log[|log| - |ring|..]
  }

  ghost predicate LongestWithin<T>(ring: seq<T>, log: seq<T>, capacity: nat) {
    Suffix(ring, log) && |ring| <= capacity && (|ring| < |log| ==> |ring| == capacity)
  }

  ghost predicate LongestFitting(limits: Limits, ring: seq<Stamped<string>>, log: seq<Stamped<string>>) {
    && Suffix(ring, log) && Fits(limits, ring)
    && (|ring| < |log| ==> !Fits(limits, log[|log| - |ring| - 1..]))
  }

  ghost predicate Agrees(r: RingState, log: Log) {
    && LongestWithin(r.dirty, log.dirty, r.limits.dirtyCapacity)
    && LongestWithin(r.checkpoints, log.checkpoints, r.limits.checkpointCapacity)
    && LongestWithin(r.scrollback, log.scrollback, r.limits.scrollbackCapacity)
    && LongestWithin(r.cursor, log.cursor, r.limits.dirtyCapacity)
    && LongestFitting(r.limits, r.output, log.output)
    && r.outputBytes == Bytes(r.output)
    && r.lastCheckpoint == LastStamp(log.checkpoints)
    && (r.evicted <==> (|| |r.dirty| < |log.dirty| || |r.checkpoints| < |log.checkpoints|
                        || |r.output| < |log.output| || |r.scrollback| < |log.scrollback|
                        || |r.cursor| < |log.cursor|))
  }

  lemma NewestExtends<T>(ring: seq<T>, log: seq<T>, xs: seq<T>, capacity: nat)
    requires LongestWithin(ring, log, capacity)
    ensures LongestWithin(Newest(ring + xs, capacity), log + xs, capacity)
    ensures |Newest(ring + xs, capacity)| < |log + xs| <==> |ring| < |log| || |ring + xs| > capacity
  {
    assert ring + xs == (log + xs)[|log| - |ring|..];
  }

  lemma {:induction false} LongestFitSpec(limits: Limits, s: seq<Stamped<string>>)
    ensures LongestFitting(limits, LongestFit(limits, s), s)
    decreases |s|
  {
    hide Fits;
    if s == [] {
      NothingFits(limits);
    } else if !Fits(limits, s) {
      var t := s[1..];
      LongestFitSpec(limits, t);
      var k := LongestFit(limits, t);
      assert t[|t| - |k|..] == s[|s| - |k|..];
      if |k| < |t| {
        assert t[|t| - |k| - 1..] == s[|s| - |k| - 1..];
      } else {
        assert s[|s| - |k| - 1..] == s;
      }
    }
  }

  lemma NothingFits(limits: Limits)
    ensures Fits(limits, [])
  {
  }

  lemma SuffixAppend<T>(ring: seq<T>, log: seq<T>, xs: seq<T>)
    requires Suffix(ring, log)
    ensures Suffix(ring + xs, log + xs)
    ensures |ring| < |log| ==>
              (log + xs)[|log + xs| - |ring + xs| - 1..] == log[|log| - |ring| - 1..] + xs
  {
  }

  lemma SuffixTrans<T>(k: seq<T>, m: seq<T>, log: seq<T>)
    requires Suffix(k, m) && Suffix(m, log)
    ensures Suffix(k, log)
    ensures |k| < |m| ==> m[|m| - |k| - 1..] == log[|log| - |k| - 1..]
  {
  }

  lemma FitExtends(limits: Limits, ring: seq<Stamped<string>>, log: seq<Stamped<string>>, x: Stamped<string>)
    requires LongestFitting(limits, ring, log)
    ensures LongestFitting(limits, LongestFit(limits, ring + [x]), log + [x])
  {
    hide Fits, LongestFit, Suffix;
    var all := ring + [x];
    var kept := LongestFit(limits, all);
    LongestFitSpec(limits, all);
    SuffixAppend(ring, log, [x]);
    SuffixTrans(kept, all, log + [x]);
    if |ring| < |log| {
      StaysTooBig(limits, log[|log| - |ring| - 1..], x);
    }
    LongestFitLength(limits, all);
  }

  lemma StaysTooBig(limits: Limits, s: seq<Stamped<string>>, x: Stamped<string>)
    requires !Fits(limits, s)
    ensures !Fits(limits, s + [x])
  {
    BytesAppend(s, x);
  }

  lemma RecordAgrees(r: RingState, log: Log, op: Op)
    requires Agrees(r, log)
    ensures Agrees(Record(r, op), Write(log, r.limits.checkpointInterval, op))
    ensures Record(r, op).limits == r.limits
  {
    hide LongestWithin, LongestFitting, Newest, LongestFit;
    match op
    case Dirty(at, rows) =>
      NewestExtends(r.dirty, log.dirty, [Stamped(at, rows)], r.limits.dirtyCapacity);
    case Output(at, text) =>
      FitExtends(r.limits, r.output, log.output, Stamped(at, text));
      LongestFitLength(r.limits, r.output + [Stamped(at, text)]);
      SuffixLength(r.limits, r.output, log.output);
    case Scrollback(at, lines) =>
      NewestExtends(r.scrollback, log.scrollback, StampAll(at, lines), r.limits.scrollbackCapacity);
    case Cursor(at, pos) =>
      NewestExtends(r.cursor, log.cursor, [Stamped(at, pos)], r.limits.dirtyCapacity);
      if r.limits.dirtyCapacity > 0 {
        SameNewest(r.cursor, log.cursor, r.limits.dirtyCapacity);
      } else {
        NothingKept(r.cursor, log.cursor, Stamped(at, pos));
      }
    case Checkpoint(at, force, screen) =>
      NewestExtends(r.checkpoints, log.checkpoints, [Stamped(at, screen)], r.limits.checkpointCapacity);
  }

  lemma LongestFitLength(limits: Limits, s: seq<Stamped<string>>)
    ensures var k := LongestFit(limits, s); |k| <= |s| && (k == s <==> |k| == |s|)
  {
    LongestFitSpec(limits, s);
    var k := LongestFit(limits, s);
    if |k| == |s| {
      assert s[|s| - |k|..] == s;
    }
  }

  lemma SuffixLength(limits: Limits, ring: seq<Stamped<string>>, log: seq<Stamped<string>>)
    requires LongestFitting(limits, ring, log)
    ensures |ring| <= |log|
  {
  }

  /** With no capacity nothing is kept, so the last record cannot be compared with; nor does it need to be. */
  lemma NothingKept<T>(ring: seq<T>, log: seq<T>, x: T)
    requires LongestWithin(ring, log, 0)
    ensures ring == [] && Newest(ring + [x], 0) == [] && LongestWithin(Newest(ring + [x], 0), log, 0)
  {
    assert log[|log|..] == [];
  }

  lemma SameNewest<T>(ring: seq<T>, log: seq<T>, capacity: nat)
    requires LongestWithin(ring, log, capacity) && capacity > 0
    ensures |ring| <= |log| && (ring == [] <==> log == [])
    ensures log != [] ==> ring[|ring| - 1] == log[|log| - 1]
  {
  }

  /**
    * Over every run of recordings: each ring is the longest suffix of the full log within its caps, the
    * byte count is exact, and the eviction flag is set exactly when some record has been dropped.
    */
  lemma {:induction false} RingsAreLongestSuffixes(limits: Limits, ops: seq<Op>)
    ensures var r := RecordAll(Empty(limits), ops);
            r.limits == limits && Agrees(r, WriteAll(limits.checkpointInterval, ops))
    decreases |ops|
  {
    hide Agrees, Record, Write;
    if ops == [] {
      EmptyAgrees(limits);
    } else {
      var front := ops[..|ops| - 1];
      RingsAreLongestSuffixes(limits, front);
      RecordAgrees(RecordAll(Empty(limits), front), WriteAll(limits.checkpointInterval, front), ops[|ops| - 1]);
    }
  }

  lemma EmptyAgrees(limits: Limits)
    ensures Agrees(Empty(limits), NOTHING)
  {
  }

  // ----- Queries -----

  ghost predicate Sorted<T>(s: seq<Stamped<T>>) {
    forall i, j :: 0 <= i <= j < |s| ==> s[i].at <= s[j].at
  }

  /** Nothing that the query would report has been dropped. */
  ghost predicate Retained<T>(ring: seq<Stamped<T>>, log: seq<Stamped<T>>, cutoff: Instant) {
    |ring| < |log| ==> log[|log| - |ring| - 1].at < cutoff
  }

  lemma {:induction false} SinceConcat<T>(a: seq<Stamped<T>>, b: seq<Stamped<T>>, cutoff: Instant)
    ensures Since(a + b, cutoff) == Since(a, cutoff) + Since(b, cutoff)
    decreases |a|
  {
    if a == [] {
      assert a + b == b;
    } else {
      assert (a + b)[1..] == a[1..] + b;
      SinceConcat(a[1..], b, cutoff);
    }
  }

  lemma {:induction false} SinceEmpty<T>(a: seq<Stamped<T>>, cutoff: Instant)
    ensures Since(a, cutoff) == [] <==> forall i :: 0 <= i < |a| ==> a[i].at < cutoff
    decreases |a|
  {
    if a != [] {
      SinceEmpty(a[1..], cutoff);
      assert forall i :: 0 < i < |a| ==> a[i] == a[1..][i - 1];
    }
  }

  /** A query on the ring is the query on the log exactly when the newest dropped record is too old for it. */
  lemma SinceMatches<T>(ring: seq<Stamped<T>>, log: seq<Stamped<T>>, cutoff: Instant)
    requires Suffix(ring, log) && Sorted(log)
    ensures Since(ring, cutoff) == Since(log, cutoff) <==> Retained(ring, log, cutoff)
  {
    var k := |log| - |ring|;
    var gone := log[..k];
    assert log == gone + ring;
    SinceConcat(gone, ring, cutoff);
    SinceEmpty(gone, cutoff);
    if k > 0 {
      assert gone[k - 1] == log[k - 1];
    }
    if Since(gone, cutoff) != [] {
      assert |Since(log, cutoff)| > |Since(ring, cutoff)|;
    } else {
      assert [] + Since(ring, cutoff) == Since(ring, cutoff);
    }
  }

  /** The newest checkpoint at or before a cutoff is found as long as it is still held. */
  lemma {:induction false} AtOrBeforeMatches<T>(ring: seq<Stamped<T>>, log: seq<Stamped<T>>, cutoff: Instant)
    requires Suffix(ring, log)
    ensures LastAtOrBefore(ring, cutoff).Some? ==> LastAtOrBefore(ring, cutoff) == LastAtOrBefore(log, cutoff)
    decreases |ring|
  {
    if ring != [] && ring[|ring| - 1].at > cutoff {
      var r', l' := ring[..|ring| - 1], log[..|log| - 1];
      assert r' == l'[|l'| - |r'|..];
      AtOrBeforeMatches(r', l', cutoff);
    }
  }

  lemma AgreesMeansSuffix(r: RingState, log: Log)
    requires Agrees(r, log)
    ensures Suffix(r.dirty, log.dirty) && Suffix(r.output, log.output) && Suffix(r.scrollback, log.scrollback)
    ensures Suffix(r.cursor, log.cursor) && Suffix(r.checkpoints, log.checkpoints)
    ensures !r.evicted ==> r.dirty == log.dirty && r.output == log.output && r.cursor == log.cursor
                           && r.scrollback == log.scrollback && r.checkpoints == log.checkpoints
  {
    hide Fits, Suffix;
    WholeSuffix(r.dirty, log.dirty);
    WholeSuffix(r.output, log.output);
    WholeSuffix(r.scrollback, log.scrollback);
    WholeSuffix(r.cursor, log.cursor);
    WholeSuffix(r.checkpoints, log.checkpoints);
  }

  lemma WholeSuffix<T>(ring: seq<T>, log: seq<T>)
    requires Suffix(ring, log)
    ensures |ring| <= |log| && (|ring| == |log| ==> ring == log)
  {
  }

  ghost predicate Timely(ops: seq<Op>) {
    forall i, j :: 0 <= i <= j < |ops| ==> ops[i].at <= ops[j].at
  }

  ghost predicate SortedUpTo<T>(s: seq<Stamped<T>>, now: Instant) {
    Sorted(s) && (s != [] ==> s[|s| - 1].at <= now)
  }

  ghost predicate LogSortedUpTo(log: Log, now: Instant) {
    && SortedUpTo(log.dirty, now) && SortedUpTo(log.checkpoints, now) && SortedUpTo(log.output, now)
    && SortedUpTo(log.scrollback, now) && SortedUpTo(log.cursor, now)
  }

  lemma {:induction false} LogIsSorted(interval: nat, ops: seq<Op>, now: Instant)
    requires Timely(ops) && (ops != [] ==> ops[|ops| - 1].at <= now)
    ensures LogSortedUpTo(WriteAll(interval, ops), now)
    decreases |ops|
  {
    hide Write, LogSortedUpTo;
    if ops == [] {
      NothingIsSorted(now);
    } else {
      var front, op := ops[..|ops| - 1], ops[|ops| - 1];
      LogIsSorted(interval, front, op.at);
      WriteKeepsSorted(WriteAll(interval, front), interval, op, now);
    }
  }

  lemma NothingIsSorted(now: Instant)
    ensures LogSortedUpTo(NOTHING, now)
  {
  }

  lemma WriteKeepsSorted(log: Log, interval: nat, op: Op, now: Instant)
    requires LogSortedUpTo(log, op.at) && op.at <= now
    ensures LogSortedUpTo(Write(log, interval, op), now)
  {
    hide SortedUpTo, StampAll;
    AppendSorted(log.dirty, op.at, if op.Dirty? then [Stamped(op.at, op.rows)] else [], now);
    AppendSorted(log.checkpoints, op.at, if op.Checkpoint? then [Stamped(op.at, op.screen)] else [], now);
    AppendSorted(log.output, op.at, if op.Output? then [Stamped(op.at, op.text)] else [], now);
    AppendSorted(log.cursor, op.at, if op.Cursor? then [Stamped(op.at, op.pos)] else [], now);
    if op.Scrollback? {
      StampAllAt(op.at, op.lines);
    }
    AppendSorted(log.scrollback, op.at, if op.Scrollback? then StampAll(op.at, op.lines) else [], now);
  }

  lemma StampAllAt(at: Instant, lines: seq<string>)
    ensures forall i :: 0 <= i < |StampAll(at, lines)| ==> StampAll(at, lines)[i].at == at
  {
  }

  lemma AppendSorted<T>(s: seq<Stamped<T>>, at: Instant, xs: seq<Stamped<T>>, now: Instant)
    requires SortedUpTo(s, at) && at <= now
    requires forall i :: 0 <= i < |xs| ==> xs[i].at == at
    ensures SortedUpTo(s + xs, now) && SortedUpTo(s, now)
  {
  }

  /**
    * Over every timely run, a query answers as it would on the full log whenever nothing was evicted, and
    * ring by ring exactly when the newest record dropped from that ring is older than the cutoff.
    */
  lemma QueriesMatchTheLog(limits: Limits, ops: seq<Op>, cutoff: Instant)
    requires Timely(ops)
    ensures var r := RecordAll(Empty(limits), ops);
            var log := WriteAll(limits.checkpointInterval, ops);
            && (Since(r.dirty, cutoff) == Since(log.dirty, cutoff) <==> Retained(r.dirty, log.dirty, cutoff))
            && (Since(r.output, cutoff) == Since(log.output, cutoff) <==> Retained(r.output, log.output, cutoff))
            && (Since(r.scrollback, cutoff) == Since(log.scrollback, cutoff) <==>
                Retained(r.scrollback, log.scrollback, cutoff))
            && (Since(r.cursor, cutoff) == Since(log.cursor, cutoff) <==> Retained(r.cursor, log.cursor, cutoff))
            && (LastAtOrBefore(r.checkpoints, cutoff).Some? ==>
                LastAtOrBefore(r.checkpoints, cutoff) == LastAtOrBefore(log.checkpoints, cutoff))
            && (!r.evicted ==> r.dirty == log.dirty && r.output == log.output && r.cursor == log.cursor
                               && r.scrollback == log.scrollback && r.checkpoints == log.checkpoints)
  {
    hide RecordAll, WriteAll, Since, LastAtOrBefore, Agrees, Suffix, Retained, Sorted;
    var r := RecordAll(Empty(limits), ops);
    var log := WriteAll(limits.checkpointInterval, ops);
    RingsAreLongestSuffixes(limits, ops);
    AgreesMeansSuffix(r, log);
    LogIsSorted(limits.checkpointInterval, ops, if ops == [] then 0 else ops[|ops| - 1].at);
    SinceMatches(r.dirty, log.dirty, cutoff);
    SinceMatches(r.output, log.output, cutoff);
    SinceMatches(r.scrollback, log.scrollback, cutoff);
    SinceMatches(r.cursor, log.cursor, cutoff);
    AtOrBeforeMatches(r.checkpoints, log.checkpoints, cutoff);
  }
}
