/** The clipboard daemon's armed paste, told from its events alone. */
module DaemonArming {
  import opened Options
  import opened Policy
  import opened ClipHistory
  import opened Daemon
  import opened DaemonArrivals
  import opened DaemonAsks
  import opened DaemonLog
  import opened DaemonRuns
  import opened DaemonState
  import Audit
  import Fallback
  import Materialize
  import Picker

  /** The request asks about the live selection of an endpoint. */
  ghost predicate AsksAbout(c: Config, d: State, e: Event)
    requires e.SourceSend?
  {
    && !OwnWindow(d, OrDefault(e.focused).appId)
    && if d.published.Some? && d.published.value.dataControlId == e.dataControlId then d.published.value.mode.Discovery?
       else
         && d.bridge.Some? && d.bridge.value.dataControlId == e.dataControlId
         && CompatiblePayload(d.bridge.value.data, e.mime, c.html).Some?
  }

  /** What asking does to the arming. */
  ghost function AskSteps(c: Config, d: State, window: Window, attempt: Attempt, now: nat): seq<Fallback.Step> {
    if Opens(c, d, attempt) then [Fallback.Capture(window)]
    else if CanTry(c, d) || d.fallback.Idle? then
      [Fallback.Capture(window), Fallback.Arm("current-host-selection", now, 30_000)]
    else [Fallback.Arm("current-host-selection", now, 30_000)]
  }

  /** What an event does to the arming. */
  ghost function ArmingOf(c: Config, d: State, e: Event): seq<Fallback.Step> {
    match e
    case FocusChanged(focused) => [Fallback.Focus(focused)]
    case Tick(now, _) =>
      if d.pickers.active.Some? && now >= d.pickers.active.value.deadline then [Fallback.CancelPicker, Fallback.Tick(now)]
      else [Fallback.Tick(now)]
    case SelectionChanged(focused, _, _, _, _, _, _) => if Ignored(d, focused) then [] else [Fallback.NativeSelection]
    case Select(_, _, _) => [Fallback.CancelPicker]
    case PickerLeft(_) => [Fallback.CancelPicker]
    case ArmCommand(focused, attempt, _) =>
      if Opens(c, d, attempt) then [Fallback.Capture(OrDefault(focused))] else [Fallback.CancelPicker]
    case PasteRequest(identity, mime, _, focused, _, attempt, now) =>
      if IsMimeAllowed(mime) && !AtHand(c, d, mime) then AskSteps(c, d, PasteWindow(identity, focused), attempt, now) else []
    case SourceSend(_, _, focused, _, attempt, now) =>
      if AsksAbout(c, d, e) then AskSteps(c, d, OrDefault(focused), attempt, now) else []
    case _ => []
  }

  ghost function ArmingSoFar(c: Config, events: seq<Event>): seq<Fallback.Step> {
    if events == [] then []
    else
      var front := events[..|events| - 1];
      ArmingSoFar(c, front) + ArmingOf(c, Run(c, front), events[|events| - 1])
  }

  /** The arming after up to two more steps. */
  ghost function Then(s: Fallback.State, steps: seq<Fallback.Step>): Fallback.State {
    if steps == [] then s
    else if |steps| == 1 then Fallback.Next(s, steps[0])
    else Fallback.Next(Fallback.Next(s, steps[0]), steps[1])
  }

  lemma RunThen(steps: seq<Fallback.Step>, more: seq<Fallback.Step>)
    requires |more| <= 2
    ensures Fallback.Run(steps + more) == Then(Fallback.Run(steps), more)
  {
    hide Fallback.Next;
    if more == [] {
      assert steps + more == steps;
    } else if |more| == 1 {
      assert (steps + more)[..|steps|] == steps;
    } else {
      var mid := steps + [more[0]];
      assert mid[..|steps|] == steps;
      assert (steps + more)[..|steps| + 1] == mid;
    }
  }

  lemma AskedArms(c: Config, d: State, before: seq<Act>, r: State, window: Window, mime: string,
                  candidates: seq<Candidate>, attempt: Attempt, now: nat)
    requires Asked(c, d, before, r, window, mime, candidates, attempt, now)
    ensures r.fallback == Then(d.fallback, AskSteps(c, d, window, attempt, now))
  {
  }

  lemma PasteArms(c: Config, events: seq<Event>, e: Event)
    requires e.PasteRequest?
    ensures var d := Run(c, events); Step(c, d, e).fallback == Then(d.fallback, ArmingOf(c, d, e))
  {
    hide Run, Step, CompatiblePayload, PickerCandidates, IsMimeAllowed, Asked, Records, AskSteps, Decimal;
    var d := Run(c, events);
    var event, window := PasteAsks(c, events, e);
    PasteWindowIs(window, e);
    if IsMimeAllowed(e.mime) {
      if AtHand(c, d, e.mime) {
        AtHandKeepsArming(c, events, e);
      } else {
        AskedArms(c, d, d.log + [Accepted(event)], Step(c, d, e), window, e.mime,
          PickerCandidates(c, d.history, d.hostSelection, d.currentHost, e.mime, e.now), e.attempt, e.now);
      }
    }
  }

  lemma PasteWindowIs(window: Window, e: Event)
    requires e.PasteRequest? && IsPasteWindow(window, e)
    ensures window == PasteWindow(e.identity, e.focused)
  {
  }

  lemma AtHandKeepsArming(c: Config, events: seq<Event>, e: Event)
    requires e.PasteRequest? && AtHand(c, Run(c, events), e.mime) && IsMimeAllowed(e.mime)
    ensures Step(c, Run(c, events), e).fallback == Run(c, events).fallback
  {
    hide Run, CompatiblePayload, PickerCandidates, OpenPicker, IsMimeAllowed, Audit.HasRoom, Audit.Enqueue, Audit.Emptied, RequestId,
      PasteWindow;
    AuditAlwaysHasRoom(c, events, "host");
  }

  lemma SendArms(c: Config, events: seq<Event>, e: Event)
    requires e.SourceSend?
    ensures var d := Run(c, events); Step(c, d, e).fallback == Then(d.fallback, ArmingOf(c, d, e))
  {
    hide Run, Step, CompatiblePayload, DiscoveryCandidates, BridgeCandidates, Asked, AskSteps, OwnWindow;
    var d := Run(c, events);
    var r := Step(c, d, e);
    var window := SendAsks(c, events, e);
    assert window == OrDefault(e.focused);
    if d.published.Some? && d.published.value.dataControlId == e.dataControlId && d.published.value.mode.Selected? {
      SelectedNeverAsks(c, d, e);
    } else if AsksAbout(c, d, e) {
      if d.published.Some? && d.published.value.dataControlId == e.dataControlId {
        AskedArms(c, d, d.log, r, window, e.mime,
          DiscoveryCandidates(c, d.bridge, d.history, d.currentHost, d.published.value.data, e.mime, e.now), e.attempt, e.now);
      } else {
        AskedArms(c, d, d.log, r, window, e.mime,
          BridgeCandidates(c, d.history, d.bridge.value, CompatiblePayload(d.bridge.value.data, e.mime, c.html).value, e.mime, e.now),
          e.attempt, e.now);
      }
    }
  }

  lemma AnnouncementArms(c: Config, events: seq<Event>, e: Event)
    requires e.SelectionChanged?
    ensures var d := Run(c, events); Step(c, d, e).fallback == Then(d.fallback, ArmingOf(c, d, e))
  {
    hide Run, Step, Ignored, OpenedOf, AllowedOf;
    AnnouncementIsTakenUp(c, events, e);
  }

  lemma OtherArms(c: Config, d: State, e: Event)
    requires !e.PasteRequest? && !e.SourceSend? && !e.SelectionChanged?
    ensures Step(c, d, e).fallback == Then(d.fallback, ArmingOf(c, d, e))
  {
    hide OnSelect, OnCopyArrived, OnArm, PickerCandidates, Picker.Reap, Picker.Cancel, Picker.Expire, Materialize.Read, ReadAll,
      Pushed, Items, IsMimeAllowed;
    match e
    case Select(entryId, flushed, now) => SelectFrame(d, entryId, flushed, now);
    case CopyArrived(flushed, now) => CopyArrivedFrame(d, flushed, now);
    case ArmCommand(_, _, _) =>
      hide Step;
      ArmAsks(c, d, e);
    case _ =>
  }

  /**
    * Over every run the daemon's arming is a run of the arming's own steps: focus and time as they are reported,
    * announcements that are not ignored, picks and cancellations, and the questions the daemon asks. So a paste is
    * armed exactly when one of those steps armed it for a captured window and every later one left it alone.
    */
  lemma {:induction false} ArmingFollows(c: Config, events: seq<Event>)
    ensures Run(c, events).fallback == Fallback.Run(ArmingSoFar(c, events))
    decreases |events|
  {
    hide Step, ArmingOf, Then, Fallback.Next;
    if events != [] {
      var front, e := events[..|events| - 1], events[|events| - 1];
      ArmingFollows(c, front);
      var d := Run(c, front);
      AtMostTwo(c, d, e);
      RunThen(ArmingSoFar(c, front), ArmingOf(c, d, e));
      if e.PasteRequest? {
        PasteArms(c, front, e);
      } else if e.SourceSend? {
        SendArms(c, front, e);
      } else if e.SelectionChanged? {
        AnnouncementArms(c, front, e);
      } else {
        OtherArms(c, d, e);
      }
    }
  }

  lemma AtMostTwo(c: Config, d: State, e: Event)
    ensures |ArmingOf(c, d, e)| <= 2
  {
    hide Ignored, IsMimeAllowed, AtHand, AsksAbout, Opens, CanTry, PasteWindow;
  }

  /** In the daemon, too, a paste is armed exactly when it was armed for a captured window and left alone since. */
  lemma ArmedInTheDaemon(c: Config, events: seq<Event>, entryId: string, target: Window, expiresAt: nat)
    ensures Run(c, events).fallback == Fallback.Armed(entryId, target, expiresAt) <==>
            exists k: nat :: Fallback.ArmedAt(ArmingSoFar(c, events), k, entryId, target, expiresAt)
  {
    hide Run, ArmingSoFar, Fallback.ArmedAt, Fallback.Run;
    ArmingFollows(c, events);
    Fallback.ArmedIff(ArmingSoFar(c, events), entryId, target, expiresAt);
  }
}
