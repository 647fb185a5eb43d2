/** The atomic counter that bounds helper threads, as a protocol of interleaved steps. */
module Permits {

  const MAX_HELPER_THREADS: nat := 16

  /** Size of the counter's word. */
  const WORD: nat := 0x1_0000_0000_0000_0000

  type Thread = nat
  type Permit = nat

  /** A thread outside the acquire loop, or inside it with the value it last read. */
  datatype Pc = Outside | Trying(seen: nat)

  datatype Shared = Shared(counter: nat, live: set<Permit>, pc: map<Thread, Pc>, issued: nat)

  datatype Step =
    | Load(thread: Thread)
    | Refuse(thread: Thread)
    | CompareExchange(thread: Thread, spurious: bool)
    | Release(permit: Permit)

  const START: Shared := Shared(0, {}, map[], 0)

  function PcOf(s: Shared, t: Thread): Pc {
    if t in s.pc then s.pc[t] else Outside
  }

  /** What a thread may do next. A permit is released once, by whoever owns it. */
  predicate Enabled(s: Shared, step: Step) {
    match step
    case Load(t) => PcOf(s, t) == Outside
    case Refuse(t) => PcOf(s, t).Trying? && PcOf(s, t).seen >= MAX_HELPER_THREADS
    case CompareExchange(t, _) => PcOf(s, t).Trying? && PcOf(s, t).seen < MAX_HELPER_THREADS
    case Release(p) => p in s.live
  }

  /** A weak exchange may fail although the counter still has the value read; it then reports the counter. */
  predicate Succeeds(s: Shared, step: Step)
    requires Enabled(s, step)
  {
    step.CompareExchange? && !step.spurious && PcOf(s, step.thread).seen == s.counter
  }

  function Take(s: Shared, step: Step): Shared
    requires Enabled(s, step)
  {
    match step
    case Load(t) => s.(pc := s.pc[t := Trying(s.counter)])
    case Refuse(t) => s.(pc := s.pc[t := Outside])
    case CompareExchange(t, _) =>
      if Succeeds(s, step) then
        Shared((PcOf(s, t).seen + 1) % WORD, s.live + {s.issued}, s.pc[t := Outside], s.issued + 1)
      else s.(pc := s.pc[t := Trying(s.counter)])
    case Release(p) => s.(counter := (s.counter + WORD - 1) % WORD, live := s.live - {p})
  }

  /** The steps form a run: each is enabled where it is taken. */
  ghost predicate IsRun(steps: seq<Step>)
    decreases |steps|, 0
  {
    steps == [] || (IsRun(steps[..|steps| - 1]) && Enabled(After(steps[..|steps| - 1]), steps[|steps| - 1]))
  }

  ghost function After(steps: seq<Step>): Shared
    requires IsRun(steps)
    decreases |steps|, 1
  {
    if steps == [] then START else Take(After(steps[..|steps| - 1]), steps[|steps| - 1])
  }

  ghost predicate Sound(s: Shared) {
    && s.counter == |s.live| <= MAX_HELPER_THREADS
    && (forall p :: p in s.live ==> p < s.issued)
    && (forall t :: t in s.pc && s.pc[t].Trying? ==> s.pc[t].seen <= MAX_HELPER_THREADS)
  }

  lemma TakeIsSound(s: Shared, step: Step)
    requires Sound(s) && Enabled(s, step)
    ensures Sound(Take(s, step))
    ensures Succeeds(s, step) ==> Take(s, step).counter == s.counter + 1
    ensures step.Release? ==> s.counter > 0 && Take(s, step).counter == s.counter - 1
    ensures !Succeeds(s, step) && !step.Release? ==> Take(s, step).counter == s.counter
  {
    match step
    case CompareExchange(t, _) =>
      if Succeeds(s, step) {
        assert s.issued !in s.live;
      }
    case Release(p) =>
      assert p in s.live && |s.live| > 0;
      assert |s.live - {p}| == |s.live| - 1;
    case _ =>
  }

  /**
    * Under every interleaving of loads, exchanges that may fail spuriously and releases, by any number of threads: the
    * counter is the number of live permits, never exceeds sixteen, and never wraps.
    */
  lemma {:induction false} CounterIsLivePermits(steps: seq<Step>)
    requires IsRun(steps)
    ensures Sound(After(steps))
    ensures After(steps).counter + Releases(steps) == After(steps).issued
    decreases |steps|
  {
    if steps != [] {
      var front := steps[..|steps| - 1];
      CounterIsLivePermits(front);
      TakeIsSound(After(front), steps[|steps| - 1]);
    }
  }

  function Releases(steps: seq<Step>): nat {
    if steps == [] then 0
    else Releases(steps[..|steps| - 1]) + if steps[|steps| - 1].Release? then 1 else 0
  }

  // ----- A refusal is justified -----

  predicate IsBy(step: Step, t: Thread) {
    !step.Release? && step.thread == t
  }

  /** The value a thread holds was the counter at a moment since its last step. */
  lemma {:induction false} SeenWasCurrent(steps: seq<Step>, t: Thread) returns (m: nat)
    requires IsRun(steps) && PcOf(After(steps), t).Trying?
    ensures m <= |steps| && IsRun(steps[..m])
    ensures After(steps[..m]).counter == PcOf(After(steps), t).seen
    ensures forall i :: m <= i < |steps| ==> !IsBy(steps[i], t)
    decreases |steps|
  {
    var n := |steps| - 1;
    var front := steps[..n];
    if IsBy(steps[n], t) {
      m := |steps|;
      assert steps[..m] == steps;
    } else {
      m := SeenWasCurrent(front, t);
      assert front[..m] == steps[..m];
    }
  }

  /** A thread is turned away only if, since it last looked, sixteen permits were live at once. */
  lemma RefusalIsJustified(steps: seq<Step>, t: Thread) returns (m: nat)
    requires IsRun(steps) && Enabled(After(steps), Refuse(t))
    ensures m <= |steps| && IsRun(steps[..m])
    ensures |After(steps[..m]).live| == MAX_HELPER_THREADS
    ensures forall i :: m <= i < |steps| ==> !IsBy(steps[i], t)
  {
    m := SeenWasCurrent(steps, t);
    CounterIsLivePermits(steps[..m]);
    CounterIsLivePermits(steps);
  }

  // ----- An acquisition that nobody disturbs succeeds -----

  lemma RunMore(steps: seq<Step>, step: Step)
    requires IsRun(steps) && Enabled(After(steps), step)
    ensures IsRun(steps + [step]) && After(steps + [step]) == Take(After(steps), step)
  {
    hide Enabled, Take;
    assert (steps + [step])[..|steps|] == steps;
  }

  /**
    * In every run, a thread that looks while fewer than sixteen permits are live, and is not disturbed, gets a new
    * permit; one that looks while sixteen are live is turned away and changes nothing; and releasing a permit
    * makes room for exactly one more.
    */
  lemma UndisturbedAcquires(steps: seq<Step>, t: Thread)
    requires IsRun(steps) && PcOf(After(steps), t).Outside?
    ensures |After(steps).live| < 16 ==>
              var more := steps + [Load(t)] + [CompareExchange(t, false)];
              && IsRun(more) && PcOf(After(more), t).Outside?
              && After(steps).live < After(more).live && |After(more).live| == |After(steps).live| + 1
    ensures |After(steps).live| == 16 ==>
              var more := steps + [Load(t)] + [Refuse(t)];
              IsRun(more) && PcOf(After(more), t).Outside? && After(more).live == After(steps).live
    ensures forall permit :: permit in After(steps).live ==>
              var more := steps + [Release(permit)];
              IsRun(more) && After(more).live == After(steps).live - {permit}
  {
    hide IsRun, After;
    var s := After(steps);
    CounterIsLivePermits(steps);
    RunMore(steps, Load(t));
    var looked := steps + [Load(t)];
    if |s.live| < 16 {
      RunMore(looked, CompareExchange(t, false));
      assert s.issued !in s.live;
    }
    if |s.live| == 16 {
      RunMore(looked, Refuse(t));
    }
    forall permit | permit in s.live
      ensures IsRun(steps + [Release(permit)]) && After(steps + [Release(permit)]).live == s.live - {permit}
    {
      RunMore(steps, Release(permit));
    }
  }
}
