/** Arming a paste for the window that was focused when the picker opened. */
module Fallback {
  import opened Options

  type Instant = nat

  datatype Window = Window(
    id: Option<nat>, appId: Option<string>, title: Option<string>, workspaceId: Option<nat>, outputLabel: Option<string>)

  const NO_WINDOW: Window := Window(None, None, None, None, None)

  predicate SameTarget(a: Window, b: Window) {
    if a.id.Some? && b.id.Some? then a.id == b.id
    else a.appId == b.appId && a.title == b.title && a.workspaceId == b.workspaceId
  }

  datatype State = Idle | PickerOpen(target: Window) | Armed(entryId: string, target: Window, expiresAt: Instant)

  datatype ClearReason = FocusChanged | TargetDisappeared | TimedOut | NativeSelectionChanged | PickerCancelled

  datatype Transition = NowIdle | NowPickerOpen | NowArmed | Cleared(reason: ClearReason)

  function Current(s: State): Transition {
    match s
    case Idle => NowIdle
    case PickerOpen(_) => NowPickerOpen
    case Armed(_, _, _) => NowArmed
  }

  /** What can happen to the arming. */
  datatype Step =
    | Capture(target: Window)
    | Arm(entryId: string, now: Instant, timeout: nat)
    | CancelPicker
    | Focus(window: Option<Window>)
    | Tick(now: Instant)
    | NativeSelection

  /** Whether an armed state survives the step. */
  predicate Harmless(step: Step, target: Window, expiresAt: Instant) {
    match step
    case Capture(_) => false
    case Arm(_, _, _) => true
    case CancelPicker => false
    case Focus(window) => window.Some? && SameTarget(target, window.value)
    case Tick(now) => now < expiresAt
    case NativeSelection => false
  }

  function Next(s: State, step: Step): State {
    match step
    case Capture(target) => PickerOpen(target)
    case Arm(entryId, now, timeout) => if s.PickerOpen? then Armed(entryId, s.target, now + timeout) else s
    case CancelPicker => Idle
    case NativeSelection => Idle
    case _ => if s.Armed? && !Harmless(step, s.target, s.expiresAt) then Idle else s
  }

  function Run(steps: seq<Step>): State {
    if steps == [] then Idle else Next(Run(steps[..|steps| - 1]), steps[|steps| - 1])
  }

  class FallbackArming {
    var state: State

    constructor ()
      ensures state == Idle
    {
      state := Idle;
    }

    method CaptureTargetBeforePicker(target: Window) returns (t: Transition)
      modifies this
      ensures state == Next(old(state), Capture(target)) && t == NowPickerOpen
    {
      state := PickerOpen(target);
      return NowPickerOpen;
    }

    method ArmSelectedEntry(entryId: string, now: Instant, timeout: nat) returns (t: Transition)
      modifies this
      ensures state == Next(old(state), Arm(entryId, now, timeout))
      ensures t == if old(state.PickerOpen?) then NowArmed else NowIdle
    {
      if !state.PickerOpen? {
        return NowIdle;
      }
      state := Armed(entryId, state.target, now + timeout);
      return NowArmed;
    }

    method Cancel() returns (t: Transition)
      modifies this
      ensures state == Next(old(state), CancelPicker)
      ensures t == if old(state.Idle?) then NowIdle else Cleared(PickerCancelled)
    {
      if state.Idle? {
        return NowIdle;
      }
      state := Idle;
      return Cleared(PickerCancelled);
    }

    method OnFocusChanged(focused: Option<Window>) returns (t: Transition)
      modifies this
      ensures state == Next(old(state), Focus(focused))
      ensures state == old(state) ==> t == Current(state)
      ensures state != old(state) ==> t == Cleared(if focused.None? then TargetDisappeared else FocusChanged)
    {
      if !state.Armed? {
        return Current(state);
      }
      if focused.None? {
        state := Idle;
        return Cleared(TargetDisappeared);
      }
      if SameTarget(state.target, focused.value) {
        return NowArmed;
      }
      state := Idle;
      return Cleared(FocusChanged);
    }

    method OnTimeout(now: Instant) returns (t: Transition)
      modifies this
      ensures state == Next(old(state), Tick(now))
      ensures t == if state == old(state) then Current(state) else Cleared(TimedOut)
    {
      if !state.Armed? {
        return Current(state);
      }
      if now >= state.expiresAt {
        state := Idle;
        return Cleared(TimedOut);
      }
      return NowArmed;
    }

    method OnNativeSelectionChanged() returns (t: Transition)
      modifies this
      ensures state == Next(old(state), NativeSelection)
      ensures t == if old(state.Idle?) then NowIdle else Cleared(NativeSelectionChanged)
    {
      if state.Idle? {
        return NowIdle;
      }
      state := Idle;
      return Cleared(NativeSelectionChanged);
    }
  }

  // ----- What a state says about the run that led to it -----

  /** The capture at `k` is the last step that matters. */
  ghost predicate OpenedAt(steps: seq<Step>, k: nat, target: Window) {
    && k < |steps| && steps[k] == Capture(target)
    && forall j :: k < j < |steps| ==> steps[j].Focus? || steps[j].Tick?
  }

  /**
    * The window is the target: the ids agree where both are known, and otherwise the application,
    * the title and the workspace do.
    */
  ghost predicate StillOn(target: Window, window: Window) {
    && (target.id.Some? && window.id.Some? ==> target.id.value == window.id.value)
    && (target.id.None? || window.id.None? ==>
          && target.appId == window.appId
          && target.title == window.title
          && target.workspaceId == window.workspaceId)
  }

  /**
    * Steps that leave an armed paste alone: focus that stays on the target, ticks before the
    * deadline, and further requests to arm.
    */
  ghost predicate LeftAlone(steps: seq<Step>, from: nat, target: Window, expiresAt: Instant) {
    forall j :: from <= j < |steps| ==>
      && !steps[j].Capture? && !steps[j].CancelPicker? && !steps[j].NativeSelection?
      && (steps[j].Focus? ==> steps[j].window.Some? && StillOn(target, steps[j].window.value))
      && (steps[j].Tick? ==> steps[j].now < expiresAt)
  }

  /** The arming at `k` found a captured target, and nothing since has disarmed it. */
  ghost predicate ArmedAt(steps: seq<Step>, k: nat, entryId: string, target: Window, expiresAt: Instant) {
    && k < |steps| && steps[k].Arm? && steps[k].entryId == entryId
    && steps[k].now + steps[k].timeout == expiresAt
    && Run(steps[..k]) == PickerOpen(target)
    && LeftAlone(steps, k + 1, target, expiresAt)
  }

  lemma {:induction false} OpenIff(steps: seq<Step>, target: Window)
    ensures Run(steps) == PickerOpen(target) <==> exists k: nat :: OpenedAt(steps, k, target)
    decreases |steps|
  {
    if steps != [] {
      var front, last := steps[..|steps| - 1], steps[|steps| - 1];
      OpenIff(front, target);
      if Run(steps) == PickerOpen(target) {
        if Run(front) == PickerOpen(target) && !last.Capture? {
          var k: nat :| OpenedAt(front, k, target);
          assert OpenedAt(steps, k, target);
        } else {
          assert OpenedAt(steps, |front|, target);
        }
      }
      if k: nat :| OpenedAt(steps, k, target) {
        if k < |front| {
          assert OpenedAt(front, k, target);
        }
      }
    }
  }

  /**
    * Armed exactly when a captured target was armed and every later step left it alone: each focus
    * step named a window that is still the target, and each tick came before the deadline.
    */
  lemma {:induction false} ArmedIff(steps: seq<Step>, entryId: string, target: Window, expiresAt: Instant)
    ensures Run(steps) == Armed(entryId, target, expiresAt) <==>
            exists k: nat :: ArmedAt(steps, k, entryId, target, expiresAt)
    decreases |steps|
  {
    if steps != [] {
      var front, last := steps[..|steps| - 1], steps[|steps| - 1];
      ArmedIff(front, entryId, target, expiresAt);
      if Run(steps) == Armed(entryId, target, expiresAt) {
        if Run(front).Armed? {
          var k: nat :| ArmedAt(front, k, entryId, target, expiresAt);
          assert steps[..k] == front[..k];
          assert ArmedAt(steps, k, entryId, target, expiresAt);
        } else {
          assert ArmedAt(steps, |front|, entryId, target, expiresAt);
        }
      }
      if k: nat :| ArmedAt(steps, k, entryId, target, expiresAt) {
        if k < |front| {
          assert steps[..k] == front[..k];
          assert ArmedAt(front, k, entryId, target, expiresAt);
        }
      }
    }
  }
}
