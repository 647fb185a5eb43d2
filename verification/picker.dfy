/** The picker supervisor: at most one active picker, and every other one on its way out. */
module Picker {
  import opened Options

  type Instant = nat

  const PICKER_TERMINATE_GRACE: nat := 250

  /** Processes are numbered in the order they are spawned. */
  datatype Active = Active(requestId: string, deadline: Instant, pid: nat)

  datatype Dying = Dying(pid: nat, killAt: Instant, killed: bool)

  datatype Signal = Term(pid: nat, at: Instant) | Kill(pid: nat, at: Instant)

  datatype LaunchResult = Launched | AlreadyActive(requestId: string) | NotConfigured | SpawnFailed

  /** The supervisor together with what it has done so far. */
  datatype Pickers = Pickers(
    active: Option<Active>, terminating: seq<Dying>, spawned: nat, reaped: set<nat>, signals: seq<Signal>)

  const NO_PICKERS: Pickers := Pickers(None, [], 0, {}, [])

  /** Whether each of the two `try_reap` calls of one pass finds the process gone. */
  type Exits = nat -> (bool, bool)

  function TryLaunch(s: Pickers, configured: bool, spawns: bool): LaunchResult {
    if s.active.Some? then AlreadyActive(s.active.value.requestId)
    else if !configured then NotConfigured
    else if !spawns then SpawnFailed
    else Launched
  }

  function Launch(s: Pickers, requestId: string, configured: bool, spawns: bool, now: Instant, timeout: nat): Pickers {
    if TryLaunch(s, configured, spawns).Launched? then
      s.(active := Some(Active(requestId, now + timeout, s.spawned)), spawned := s.spawned + 1)
    else s
  }

  function Cancel(s: Pickers, now: Instant): Pickers {
    if s.active.None? then s
    else
      var pid := s.active.value.pid;
      s.(active := None,
         terminating := s.terminating + [Dying(pid, now + PICKER_TERMINATE_GRACE, false)],
         signals := s.signals + [Term(pid, now)])
  }

  function Expire(s: Pickers, now: Instant): Pickers {
    if s.active.Some? && now >= s.active.value.deadline then Cancel(s, now) else s
  }

  predicate MustKill(t: Dying, now: Instant, exits: Exits) {
    !exits(t.pid).0 && now >= t.killAt && !t.killed
  }

  /** One turn of the reaping loop; `s` holds the pickers already found to be still running. */
  function Visit(s: Pickers, t: Dying, now: Instant, exits: Exits): Pickers {
    var killed := MustKill(t, now, exits);
    var gone := exits(t.pid).0 || exits(t.pid).1;
    s.(signals := if killed then s.signals + [Kill(t.pid, now)] else s.signals,
       reaped := if gone then s.reaped + {t.pid} else s.reaped,
       terminating := if gone then s.terminating else s.terminating + [t.(killed := t.killed || killed)])
  }

  function VisitAll(s: Pickers, todo: seq<Dying>, now: Instant, exits: Exits): Pickers
    decreases |todo|
  {
    if todo == [] then s else VisitAll(Visit(s, todo[0], now, exits), todo[1..], now, exits)
  }

  function Reap(s: Pickers, now: Instant, exits: Exits): Pickers {
    VisitAll(s.(terminating := []), s.terminating, now, exits)
  }

  /** A launch is refused first for a picker that is active, then for a missing command, then for a failed start. */
  lemma LaunchOutcome(s: Pickers, requestId: string, configured: bool, spawns: bool, now: Instant, timeout: nat)
    ensures var result, r := TryLaunch(s, configured, spawns), Launch(s, requestId, configured, spawns, now, timeout);
            && (result.AlreadyActive? <==> s.active.Some?)
            && (result.AlreadyActive? ==> result.requestId == s.active.value.requestId)
            && (result.NotConfigured? <==> s.active.None? && !configured)
            && (result.SpawnFailed? <==> s.active.None? && configured && !spawns)
            && (!result.Launched? ==> r == s)
            && (result.Launched? ==>
                  && r.active == Some(Active(requestId, now + timeout, s.spawned)) && r.spawned == s.spawned + 1
                  && r.terminating == s.terminating && r.reaped == s.reaped && r.signals == s.signals)
  {
  }

  class PickerSupervisor {
    var active: Option<Active>
    var terminating: seq<Dying>
    var spawned: nat
    ghost var reaped: set<nat>
    ghost var signals: seq<Signal>

    ghost function State(): Pickers
      reads this
    {
      Pickers(active, terminating, spawned, reaped, signals)
    }

    constructor ()
      ensures State() == NO_PICKERS
    {
      active, terminating, spawned, reaped, signals := None, [], 0, {}, [];
    }

    /** `spawns` tells whether the socket pair and the process can be created. */
    method TryLaunchPicker(requestId: string, configured: bool, spawns: bool, now: Instant, timeout: nat)
      returns (result: LaunchResult)
      modifies this
      ensures result == TryLaunch(old(State()), configured, spawns)
      ensures State() == Launch(old(State()), requestId, configured, spawns, now, timeout)
    {
      if active.Some? {
        return AlreadyActive(active.value.requestId);
      }
      if !configured {
        return NotConfigured;
      }
      if !spawns {
        return SpawnFailed;
      }
      active, spawned := Some(Active(requestId, now + timeout, spawned)), spawned + 1;
      return Launched;
    }

    method CancelActive(now: Instant) returns (cancelled: bool)
      modifies this
      ensures State() == Cancel(old(State()), now) && cancelled == old(active.Some?)
    {
      if active.None? {
        return false;
      }
      var picker := active.value;
      active := None;
      signals := signals + [Term(picker.pid, now)];
      terminating := terminating + [Dying(picker.pid, now + PICKER_TERMINATE_GRACE, false)];
      return true;
    }

    method ReapExpired(now: Instant) returns (expired: bool)
      modifies this
      ensures State() == Expire(old(State()), now)
      ensures expired == old(active.Some? && now >= active.value.deadline)
    {
      expired := active.Some? && now >= active.value.deadline;
      if expired {
        var _ := CancelActive(now);
      }
    }

    method ReapTerminated(now: Instant, exits: Exits)
      modifies this
      ensures State() == Reap(old(State()), now, exits)
    {
      var todo := terminating;
      terminating := [];
      while todo != []
        invariant VisitAll(State(), todo, now, exits) == Reap(old(State()), now, exits)
        decreases |todo|
      {
        var picker := todo[0];
        todo := todo[1..];
        if exits(picker.pid).0 {
          reaped := reaped + {picker.pid};
          continue;
        }
        if now >= picker.killAt && !picker.killed {
          signals := signals + [Kill(picker.pid, now)];
          picker := picker.(killed := true);
        }
        if exits(picker.pid).1 {
          reaped := reaped + {picker.pid};
        } else {
          terminating := terminating + [picker];
        }
      }
    }
  }

  // ----- Every run -----

  ghost predicate IsActive(s: Pickers, pid: nat) {
    s.active.Some? && s.active.value.pid == pid
  }

  ghost predicate IsDying(dying: seq<Dying>, pid: nat) {
    exists i :: 0 <= i < |dying| && dying[i].pid == pid
  }

  ghost predicate Distinct(dying: seq<Dying>) {
    forall i, j :: 0 <= i < j < |dying| ==> dying[i].pid != dying[j].pid
  }

  /** Each process ever spawned is active, or terminating once, or reaped, and nothing else is. */
  ghost predicate Accounted(s: Pickers) {
    && (forall pid: nat :: pid < s.spawned <==> IsActive(s, pid) || IsDying(s.terminating, pid) || pid in s.reaped)
    && (forall pid: nat :: IsActive(s, pid) ==> !IsDying(s.terminating, pid) && pid !in s.reaped)
    && (forall pid: nat :: IsDying(s.terminating, pid) ==> pid !in s.reaped)
    && Distinct(s.terminating)
  }

  ghost predicate Signalled(signals: seq<Signal>, pid: nat) {
    exists i :: 0 <= i < |signals| && signals[i].pid == pid
  }

  ghost predicate Killed(signals: seq<Signal>, pid: nat) {
    exists i :: 0 <= i < |signals| && signals[i].Kill? && signals[i].pid == pid
  }

  /** A kill comes after the process was asked to terminate, and no sooner than the grace period allows. */
  ghost predicate KillIsDue(signals: seq<Signal>, i: nat)
    requires i < |signals|
  {
    signals[i].Kill? ==>
      exists j :: 0 <= j < i && signals[j].Term? && signals[j].pid == signals[i].pid &&
                  signals[j].at + PICKER_TERMINATE_GRACE <= signals[i].at
  }

  /** Signals come in order, and no process gets the same one twice. */
  ghost predicate Orderly(signals: seq<Signal>) {
    && (forall i :: 0 <= i < |signals| ==> KillIsDue(signals, i))
    && (forall i, j :: 0 <= i < j < |signals| && signals[i].pid == signals[j].pid ==>
          signals[i].Term? && signals[j].Kill?)
  }

  /** What the supervisor still knows of a terminating process is what happened to it. */
  ghost predicate Remembered(signals: seq<Signal>, t: Dying) {
    && t.killAt >= PICKER_TERMINATE_GRACE
    && Term(t.pid, t.killAt - PICKER_TERMINATE_GRACE) in signals
    && (t.killed <==> Killed(signals, t.pid))
  }

  ghost predicate AllRemembered(signals: seq<Signal>, dying: seq<Dying>) {
    forall i :: 0 <= i < |dying| ==> Remembered(signals, dying[i])
  }

  /** Exactly the processes that are terminating or reaped have been signalled. */
  ghost predicate SignalsMatch(s: Pickers) {
    && (forall pid: nat :: Signalled(s.signals, pid) <==> IsDying(s.terminating, pid) || pid in s.reaped)
    && AllRemembered(s.signals, s.terminating)
  }

  ghost predicate Sound(s: Pickers) {
    Accounted(s) && Orderly(s.signals) && SignalsMatch(s)
  }

  lemma LaunchIsSound(s: Pickers, requestId: string, configured: bool, spawns: bool, now: Instant, timeout: nat)
    requires Sound(s)
    ensures Sound(Launch(s, requestId, configured, spawns, now, timeout))
  {
    hide IsDying, Signalled, AllRemembered, Orderly, Distinct;
    assert !IsDying(s.terminating, s.spawned) && s.spawned !in s.reaped;
  }

  lemma CancelIsSound(s: Pickers, now: Instant)
    requires Sound(s)
    ensures Sound(Cancel(s, now))
  {
    hide IsDying, Signalled, AllRemembered, Orderly, Distinct, Remembered, Killed;
    if s.active.Some? {
      var pid := s.active.value.pid;
      assert IsActive(s, pid);
      var t := Dying(pid, now + PICKER_TERMINATE_GRACE, false);
      DyingConcat(s.terminating, [t]);
      OneDying(t);
      SignalMore(s.signals, Term(pid, now));
      RememberMore(s.signals, Term(pid, now), s.terminating);
      RememberTerm(s.signals, pid, now);
      AllRememberedConcat(s.signals + [Term(pid, now)], s.terminating, [t]);
    }
  }

  lemma DyingConcat(a: seq<Dying>, b: seq<Dying>)
    ensures forall pid: nat :: IsDying(a + b, pid) <==> IsDying(a, pid) || IsDying(b, pid)
    ensures Distinct(a + b) <==>
            Distinct(a) && Distinct(b) && forall pid: nat :: !(IsDying(a, pid) && IsDying(b, pid))
  {
    var c := a + b;
    forall pid: nat ensures IsDying(c, pid) <==> IsDying(a, pid) || IsDying(b, pid) {
      if IsDying(a, pid) {
        var i :| 0 <= i < |a| && a[i].pid == pid;
        assert c[i].pid == pid;
      }
      if IsDying(b, pid) {
        var i :| 0 <= i < |b| && b[i].pid == pid;
        assert c[|a| + i].pid == pid;
      }
    }
    if Distinct(c) {
      assert forall i :: 0 <= i < |a| ==> c[i] == a[i];
      assert forall i :: 0 <= i < |b| ==> c[|a| + i] == b[i];
      forall i, j | 0 <= i < j < |b| ensures b[i].pid != b[j].pid {
        assert c[|a| + i].pid != c[|a| + j].pid;
      }
      forall pid: nat ensures !(IsDying(a, pid) && IsDying(b, pid)) {
        if IsDying(a, pid) {
          var i :| 0 <= i < |a| && a[i].pid == pid;
          forall j | 0 <= j < |b| ensures b[j].pid != pid {
            assert c[i].pid != c[|a| + j].pid;
          }
        }
      }
    }
    if Distinct(a) && Distinct(b) && forall pid: nat :: !(IsDying(a, pid) && IsDying(b, pid)) {
      forall i, j | 0 <= i < j < |c| ensures c[i].pid != c[j].pid {
        if i < |a| <= j {
          assert IsDying(a, a[i].pid) && IsDying(b, b[j - |a|].pid);
        }
      }
    }
  }

  lemma OneDying(t: Dying)
    ensures Distinct([t]) && forall pid: nat :: IsDying([t], pid) <==> pid == t.pid
  {
    assert [t][0] == t;
  }

  lemma AllRememberedConcat(signals: seq<Signal>, a: seq<Dying>, b: seq<Dying>)
    ensures AllRemembered(signals, a + b) <==> AllRemembered(signals, a) && AllRemembered(signals, b)
  {
    hide Remembered;
    var c := a + b;
    assert forall i :: 0 <= i < |a| ==> c[i] == a[i];
    assert forall i :: 0 <= i < |b| ==> c[|a| + i] == b[i];
  }

  /** A first terminate, or a due first kill, keeps the log orderly. */
  lemma SignalMore(signals: seq<Signal>, signal: Signal)
    requires Orderly(signals)
    requires signal.Term? ==> !Signalled(signals, signal.pid)
    requires signal.Kill? ==> !Killed(signals, signal.pid)
    requires signal.Kill? ==>
               exists at: nat :: Term(signal.pid, at) in signals && at + PICKER_TERMINATE_GRACE <= signal.at
    ensures Orderly(signals + [signal])
    ensures forall pid: nat :: Signalled(signals + [signal], pid) <==> Signalled(signals, pid) || pid == signal.pid
  {
    var more := signals + [signal];
    forall i | 0 <= i < |more| ensures KillIsDue(more, i) {
      if i < |signals| {
        assert KillIsDue(signals, i);
        if signals[i].Kill? {
          var j :| 0 <= j < i && signals[j].Term? && signals[j].pid == signals[i].pid &&
                  signals[j].at + PICKER_TERMINATE_GRACE <= signals[i].at;
          assert more[j] == signals[j];
        }
      } else if signal.Kill? {
        var at: nat :| Term(signal.pid, at) in signals && at + PICKER_TERMINATE_GRACE <= signal.at;
        var j :| 0 <= j < |signals| && signals[j] == Term(signal.pid, at);
        assert more[j] == signals[j];
      }
    }
    forall pid: nat ensures Signalled(more, pid) <==> Signalled(signals, pid) || pid == signal.pid {
      assert more[|signals|] == signal;
      if Signalled(signals, pid) {
        var i :| 0 <= i < |signals| && signals[i].pid == pid;
        assert more[i].pid == pid;
      }
    }
  }

  lemma KilledMore(signals: seq<Signal>, signal: Signal, pid: nat)
    ensures Killed(signals + [signal], pid) <==> Killed(signals, pid) || (signal.Kill? && signal.pid == pid)
  {
    var more := signals + [signal];
    if Killed(signals, pid) {
      var i :| 0 <= i < |signals| && signals[i].Kill? && signals[i].pid == pid;
      assert more[i] == signals[i];
    }
    if signal.Kill? && signal.pid == pid {
      assert more[|signals|] == signal;
    }
  }

  /** A signal to another process changes nothing here. */
  lemma RememberMore(signals: seq<Signal>, signal: Signal, dying: seq<Dying>)
    requires AllRemembered(signals, dying) && !IsDying(dying, signal.pid)
    ensures AllRemembered(signals + [signal], dying)
  {
    hide Killed;
    forall i | 0 <= i < |dying| ensures Remembered(signals + [signal], dying[i]) {
      assert Remembered(signals, dying[i]) && dying[i].pid != signal.pid;
      KilledMore(signals, signal, dying[i].pid);
    }
  }

  lemma RememberTerm(signals: seq<Signal>, pid: nat, now: Instant)
    requires !Signalled(signals, pid)
    ensures AllRemembered(signals + [Term(pid, now)], [Dying(pid, now + PICKER_TERMINATE_GRACE, false)])
  {
    KilledMore(signals, Term(pid, now), pid);
    assert (signals + [Term(pid, now)])[|signals|] == Term(pid, now);
  }

  /** The state in the middle of the reaping loop, with the pickers still to be visited put back. */
  ghost function Whole(s: Pickers, todo: seq<Dying>): Pickers {
    s.(terminating := s.terminating + todo)
  }

  lemma VisitIsSound(s: Pickers, t: Dying, rest: seq<Dying>, now: Instant, exits: Exits)
    requires Sound(Whole(s, [t] + rest))
    ensures Sound(Whole(Visit(s, t, now, exits), rest))
  {
    hide IsDying, Signalled, AllRemembered, Orderly, Distinct, Remembered, Killed;
    DyingConcat(s.terminating, [t] + rest);
    DyingConcat([t], rest);
    OneDying(t);
    AllRememberedConcat(s.signals, s.terminating, [t] + rest);
    AllRememberedConcat(s.signals, [t], rest);
    VisitSignals(s.signals, s.terminating, t, rest, now, exits);
    var after := Visit(s, t, now, exits);
    var marked := t.(killed := t.killed || MustKill(t, now, exits));
    OneDying(marked);
    DyingConcat(s.terminating, [marked]);
    DyingConcat(after.terminating, rest);
    AllRememberedConcat(after.signals, s.terminating, [marked]);
    AllRememberedConcat(after.signals, after.terminating, rest);
    var whole := Whole(after, rest);
    assert whole.terminating == after.terminating + rest;
    assert forall pid: nat :: IsActive(whole, pid) <==> IsActive(Whole(s, [t] + rest), pid);
    assert Accounted(whole);
    assert SignalsMatch(whole);
  }

  /** A visit kills when it is due, and remembers that it did. */
  lemma VisitSignals(
    signals: seq<Signal>, before: seq<Dying>, t: Dying, rest: seq<Dying>, now: Instant, exits: Exits)
    requires Orderly(signals) && AllRemembered(signals, before) && AllRemembered(signals, [t]) && AllRemembered(signals, rest)
    requires !IsDying(before, t.pid) && !IsDying(rest, t.pid) && Signalled(signals, t.pid)
    ensures var after := if MustKill(t, now, exits) then signals + [Kill(t.pid, now)] else signals;
            var marked := t.(killed := t.killed || MustKill(t, now, exits));
            && Orderly(after)
            && AllRemembered(after, before) && AllRemembered(after, [marked]) && AllRemembered(after, rest)
            && (forall pid: nat :: Signalled(after, pid) <==> Signalled(signals, pid))
  {
    hide IsDying, Signalled, Orderly, Killed;
    assert Remembered(signals, [t][0]);
    if MustKill(t, now, exits) {
      var kill := Kill(t.pid, now);
      SignalMore(signals, kill);
      RememberMore(signals, kill, before);
      RememberMore(signals, kill, rest);
      KilledMore(signals, kill, t.pid);
    } else {
      assert t.(killed := t.killed || MustKill(t, now, exits)) == t;
    }
  }

  lemma {:induction false} VisitAllIsSound(s: Pickers, todo: seq<Dying>, now: Instant, exits: Exits)
    requires Sound(Whole(s, todo))
    ensures Sound(VisitAll(s, todo, now, exits))
    decreases |todo|
  {
    hide Sound, Visit;
    if todo == [] {
      assert Whole(s, todo) == s;
    } else {
      assert todo == [todo[0]] + todo[1..];
      VisitIsSound(s, todo[0], todo[1..], now, exits);
      VisitAllIsSound(Visit(s, todo[0], now, exits), todo[1..], now, exits);
    }
  }

  lemma ReapIsSound(s: Pickers, now: Instant, exits: Exits)
    requires Sound(s)
    ensures Sound(Reap(s, now, exits)) && Reap(s, now, exits).active == s.active
  {
    hide Sound;
    assert Whole(s.(terminating := []), s.terminating) == s;
    VisitAllIsSound(s.(terminating := []), s.terminating, now, exits);
    VisitAllKeepsActive(s.(terminating := []), s.terminating, now, exits);
  }

  lemma {:induction false} VisitAllKeepsActive(s: Pickers, todo: seq<Dying>, now: Instant, exits: Exits)
    ensures VisitAll(s, todo, now, exits).active == s.active
    decreases |todo|
  {
    if todo != [] {
      VisitAllKeepsActive(Visit(s, todo[0], now, exits), todo[1..], now, exits);
    }
  }

  /** After a pass, whatever is still running past its deadline has been killed. */
  lemma {:induction false} ReapKillsOverdue(s: Pickers, todo: seq<Dying>, now: Instant, exits: Exits)
    requires forall i :: 0 <= i < |s.terminating| ==> s.terminating[i].killed || now < s.terminating[i].killAt
    ensures var after := VisitAll(s, todo, now, exits).terminating;
            forall i :: 0 <= i < |after| ==> after[i].killed || now < after[i].killAt
    decreases |todo|
  {
    if todo != [] {
      var next := Visit(s, todo[0], now, exits);
      ReapKillsOverdue(next, todo[1..], now, exits);
      assert VisitAll(s, todo, now, exits) == VisitAll(next, todo[1..], now, exits);
    }
  }

  /**
    * One pass of reaping leaves exactly the processes that neither look found gone, in order, each marked as killed
    * if it was or is now overdue; and it collects exactly the others.
    */
  lemma {:induction false} ReapSorts(s: Pickers, todo: seq<Dying>, now: Instant, exits: Exits)
    ensures var r := VisitAll(s, todo, now, exits);
            && (forall pid :: pid in r.reaped <==>
                  pid in s.reaped || (IsDying(todo, pid) && (exits(pid).0 || exits(pid).1)))
            && |s.terminating| <= |r.terminating| && r.terminating[..|s.terminating|] == s.terminating
            && (forall i :: |s.terminating| <= i < |r.terminating| ==>
                  IsDying(todo, r.terminating[i].pid) && !exits(r.terminating[i].pid).0 && !exits(r.terminating[i].pid).1)
            && (forall i :: 0 <= i < |todo| && !exits(todo[i].pid).0 && !exits(todo[i].pid).1 ==>
                  todo[i].(killed := todo[i].killed || now >= todo[i].killAt) in r.terminating)
            && r.spawned == s.spawned
    decreases |todo|
  {
    if todo != [] {
      var t := Visit(s, todo[0], now, exits);
      var rest := todo[1..];
      ReapSorts(t, rest, now, exits);
      assert forall i :: 0 < i < |todo| ==> todo[i] == rest[i - 1];
      assert forall i :: 0 <= i < |rest| ==> rest[i] == todo[i + 1];
      forall pid ensures IsDying(todo, pid) <==> todo[0].pid == pid || IsDying(rest, pid) {
        if IsDying(rest, pid) {
          var i :| 0 <= i < |rest| && rest[i].pid == pid;
          assert todo[i + 1].pid == pid;
        }
      }
      var r := VisitAll(s, todo, now, exits);
      if !exits(todo[0].pid).0 && !exits(todo[0].pid).1 {
        assert t.terminating[|s.terminating|] == r.terminating[|s.terminating|];
      }
    }
  }

  datatype Step =
    | DoLaunch(requestId: string, configured: bool, spawns: bool, now: Instant, timeout: nat)
    | DoCancel(now: Instant)
    | DoExpire(now: Instant)
    | DoReap(now: Instant, exits: Exits)

  function Next(s: Pickers, step: Step): Pickers {
    match step
    case DoLaunch(requestId, configured, spawns, now, timeout) =>
      Launch(s, requestId, configured, spawns, now, timeout)
    case DoCancel(now) => Cancel(s, now)
    case DoExpire(now) => Expire(s, now)
    case DoReap(now, exits) => Reap(s, now, exits)
  }

  function Run(steps: seq<Step>): Pickers {
    if steps == [] then NO_PICKERS else Next(Run(steps[..|steps| - 1]), steps[|steps| - 1])
  }

  /** Over every run: each spawned picker is in exactly one place, and signals are sent once, in order and in time. */
  lemma {:induction false} EveryRunIsSound(steps: seq<Step>)
    ensures Sound(Run(steps))
    decreases |steps|
  {
    if steps == [] {
      NoPickersIsSound();
    } else {
      hide Sound, Launch, Cancel, Reap;
      EveryRunIsSound(steps[..|steps| - 1]);
      var s := Run(steps[..|steps| - 1]);
      match steps[|steps| - 1]
      case DoLaunch(requestId, configured, spawns, now, timeout) =>
        LaunchIsSound(s, requestId, configured, spawns, now, timeout);
      case DoCancel(now) =>
        CancelIsSound(s, now);
      case DoExpire(now) =>
        CancelIsSound(s, now);
      case DoReap(now, exits) =>
        ReapIsSound(s, now, exits);
    }
  }

  lemma NoPickersIsSound()
    ensures Sound(NO_PICKERS)
  {
  }
}
