/** How the parts of the clipboard daemon's state stay in step with each other. */
module DaemonState {
  import opened Options
  import opened Policy
  import opened ClipHistory
  import opened Daemon
  import opened DaemonLog
  import Audit
  import Fallback
  import Materialize
  import Picker

  // ----- What steps leave alone -----

  lemma CopyArrivedFrame(d: State, flushed: bool, now: nat)
    ensures var r := OnCopyArrived(d, flushed, now);
            r.fallback == d.fallback && r.pickers == d.pickers && r.audit == d.audit && r.log == d.log
  {
    hide Extended, Upserted, RowOf;
  }

  lemma SelectFrame(d: State, entryId: string, flushed: bool, now: nat)
    ensures var r := OnSelect(d, entryId, flushed, now);
            && r.fallback.Idle? && r.pickers == Picker.Cancel(d.pickers, now)
            && r.audit == d.audit && r.bridge == d.bridge && r.history == d.history && r.changes == d.changes
  {
    hide SelectedData, Picker.Cancel;
  }

  /** Events after which the same things are selected and published as before. */
  predicate LeavesSelections(e: Event) {
    || e.CopyRequest? || e.CopyRead? || e.SelectionCleared? || e.HostRead? || e.HostArrived? || e.SourceSend? || e.PickerLeft?
    || e.ArmCommand? || e.FocusChanged? || e.Tick?
  }

  lemma SelectionsFrame(c: Config, d: State, e: Event)
    requires LeavesSelections(e)
    ensures var r := Step(c, d, e);
            && r.bridge == d.bridge && r.published == d.published && r.deviceBound == d.deviceBound && r.sourceSeq == d.sourceSeq
  {
    hide OnSourceSend, Materialize.Read, ReadAll, Pushed, Items, IsMimeAllowed, PickerCandidates, Picker.Reap, Picker.Cancel,
         Picker.Expire, Picker.Launch, Fallback.Next;
    if e.SourceSend? {
      SendKeepsTheRest(c, d, e.dataControlId, e.mime, e.focused, e.writer, e.attempt, e.now);
    }
  }

  // ----- The picker and the arming -----

  /** While the arming waits for a picker, there is one. */
  ghost predicate PickerInv(fallback: Fallback.State, pickers: Picker.Pickers) {
    Picker.Sound(pickers) && (fallback.PickerOpen? ==> pickers.active.Some?)
  }

  lemma OpenPickerKeepsPicker(
    c: Config, d: State, window: Window, mime: string, candidates: seq<Candidate>, attempt: Attempt, now: nat)
    requires PickerInv(d.fallback, d.pickers)
    ensures var r := OpenPicker(c, d, window, mime, candidates, attempt, now); PickerInv(r.fallback, r.pickers)
  {
    hide Picker.Sound, Decimal;
    var id := "paste-" + Decimal(now);
    Picker.LaunchIsSound(d.pickers, id, c.configured, attempt.spawns, now, PICKER_TIMEOUT);
    Picker.CancelIsSound(Picker.Launch(d.pickers, id, c.configured, attempt.spawns, now, PICKER_TIMEOUT), now);
  }

  lemma ArmKeepsPicker(c: Config, d: State, window: Window, attempt: Attempt, now: nat)
    requires PickerInv(d.fallback, d.pickers)
    ensures var r := OnArm(c, d, window, attempt, now); PickerInv(r.fallback, r.pickers)
  {
    hide Picker.Sound, Decimal, PickerCandidates;
    var id := "arm-" + Decimal(now);
    Picker.LaunchIsSound(d.pickers, id, c.configured, attempt.spawns, now, PICKER_TIMEOUT);
    Picker.CancelIsSound(Picker.Launch(d.pickers, id, c.configured, attempt.spawns, now, PICKER_TIMEOUT), now);
  }

  lemma TickKeepsPicker(d: State, now: nat, exits: Picker.Exits)
    requires PickerInv(d.fallback, d.pickers)
    ensures var r := OnTick(d, now, exits); PickerInv(r.fallback, r.pickers)
  {
    hide Picker.Sound, Picker.Reap;
    Picker.CancelIsSound(d.pickers, now);
    Picker.ReapIsSound(Picker.Expire(d.pickers, now), now, exits);
  }

  lemma PasteKeepsPicker(c: Config, d: State, identity: Identity, mime: string, sourceId: nat, focused: Option<Window>,
                         writer: Writer, attempt: Attempt, now: nat)
    requires PickerInv(d.fallback, d.pickers)
    ensures var r := OnPaste(c, d, identity, mime, sourceId, focused, writer, attempt, now); PickerInv(r.fallback, r.pickers)
  {
    hide PickerInv, OpenPicker, CompatiblePayload, PickerCandidates, IsMimeAllowed, RequestId, PasteWindow;
    var event := PasteAudit(identity, mime, sourceId, if IsMimeAllowed(mime) then Audit.Allow else Audit.Deny);
    var audited := Audited(d, event);
    var taken := if IsSelected(d) then audited.(published := None) else audited;
    var window := PasteWindow(identity, focused);
    OpenPickerKeepsPicker(c, taken, window, mime,
      PickerCandidates(c, d.history, d.hostSelection, d.currentHost, mime, now), attempt, now);
  }

  lemma SendKeepsPicker(c: Config, d: State, id: nat, mime: string, focused: Option<Window>,
                        writer: Writer, attempt: Attempt, now: nat)
    requires PickerInv(d.fallback, d.pickers)
    ensures var r := OnSourceSend(c, d, id, mime, focused, writer, attempt, now); PickerInv(r.fallback, r.pickers)
  {
    hide PickerInv, OpenPicker, CompatiblePayload, DiscoveryCandidates, BridgeCandidates, MatchesSource;
    var window := OrDefault(focused);
    if d.published.Some? && d.published.value.dataControlId == id {
      OpenPickerKeepsPicker(c, d, window, mime,
        DiscoveryCandidates(c, d.bridge, d.history, d.currentHost, d.published.value.data, mime, now), attempt, now);
    } else if d.bridge.Some? {
      var bytes := CompatiblePayload(d.bridge.value.data, mime, c.html);
      if bytes.Some? {
        OpenPickerKeepsPicker(
          c, d, window, mime, BridgeCandidates(c, d.history, d.bridge.value, bytes.value, mime, now), attempt, now);
      }
    }
  }

  lemma StepKeepsPicker(c: Config, d: State, e: Event)
    requires PickerInv(d.fallback, d.pickers)
    ensures PickerInv(Step(c, d, e).fallback, Step(c, d, e).pickers)
  {
    hide Picker.Sound, OnPaste, OnSourceSend, OnArm, OnTick, OnCopyArrived, OnSelect, Materialize.Read, ReadAll, IsEcho,
         AllowedOf, OpenedOf, Pushed, Items, IsMimeAllowed, Fallback.SameTarget;
    match e
    case CopyArrived(flushed, now) => CopyArrivedFrame(d, flushed, now);
    case PasteRequest(identity, mime, sourceId, focused, writer, attempt, now) =>
      PasteKeepsPicker(c, d, identity, mime, sourceId, focused, writer, attempt, now);
    case SourceSend(id, mime, focused, writer, attempt, now) => SendKeepsPicker(c, d, id, mime, focused, writer, attempt, now);
    case ArmCommand(focused, attempt, now) => ArmKeepsPicker(c, d, OrDefault(focused), attempt, now);
    case Tick(now, exits) => TickKeepsPicker(d, now, exits);
    case Select(entryId, flushed, now) =>
      SelectFrame(d, entryId, flushed, now);
      Picker.CancelIsSound(d.pickers, now);
    case PickerLeft(now) => Picker.CancelIsSound(d.pickers, now);
    case _ =>
  }

  // ----- The audit queue -----

  /** Nothing is left in the audit queue between steps. */
  ghost predicate AuditInv(queues: Audit.Queues) {
    forall realm :: Audit.Queued(queues, realm) == []
  }

  lemma PasteKeepsAudit(c: Config, d: State, identity: Identity, mime: string, sourceId: nat, focused: Option<Window>,
                        writer: Writer, attempt: Attempt, now: nat)
    requires AuditInv(d.audit)
    ensures AuditInv(OnPaste(c, d, identity, mime, sourceId, focused, writer, attempt, now).audit)
  {
    hide OpenPicker, CompatiblePayload, PickerCandidates, IsMimeAllowed, RequestId, PasteWindow;
    var event := PasteAudit(identity, mime, sourceId, if IsMimeAllowed(mime) then Audit.Allow else Audit.Deny);
    var taken := if IsSelected(d) then Audited(d, event).(published := None) else Audited(d, event);
    var window := PasteWindow(identity, focused);
    OpenPickerFrame(c, taken, window, mime,
      PickerCandidates(c, d.history, d.hostSelection, d.currentHost, mime, now), attempt, now);
  }

  lemma StepKeepsAudit(c: Config, d: State, e: Event)
    requires AuditInv(d.audit)
    ensures AuditInv(Step(c, d, e).audit)
  {
    hide AuditInv, OnPaste, OnSourceSend, OnCopyArrived, OnSelect, PickerCandidates, IsMimeAllowed, Materialize.Read, ReadAll,
         IsEcho, AllowedOf, OpenedOf, Pushed, Items, Picker.Reap, Picker.Cancel, Picker.Expire, Picker.Launch;
    match e
    case CopyArrived(flushed, now) => CopyArrivedFrame(d, flushed, now);
    case Select(entryId, flushed, now) => SelectFrame(d, entryId, flushed, now);
    case PasteRequest(identity, mime, sourceId, focused, writer, attempt, now) =>
      PasteKeepsAudit(c, d, identity, mime, sourceId, focused, writer, attempt, now);
    case SourceSend(id, mime, focused, writer, attempt, now) => SendKeepsTheRest(c, d, id, mime, focused, writer, attempt, now);
    case _ =>
  }

  lemma SendKeepsTheRest(c: Config, d: State, id: nat, mime: string, focused: Option<Window>,
                         writer: Writer, attempt: Attempt, now: nat)
    ensures var r := OnSourceSend(c, d, id, mime, focused, writer, attempt, now);
            r == d.(fallback := r.fallback, pickers := r.pickers, log := r.log)
  {
    hide OpenPicker, CompatiblePayload, DiscoveryCandidates, BridgeCandidates, MatchesSource;
    var window := OrDefault(focused);
    if d.published.Some? && d.published.value.dataControlId == id {
      OpenPickerFrame(c, d, window, mime,
        DiscoveryCandidates(c, d.bridge, d.history, d.currentHost, d.published.value.data, mime, now), attempt, now);
    } else if d.bridge.Some? {
      var bytes := CompatiblePayload(d.bridge.value.data, mime, c.html);
      if bytes.Some? {
        OpenPickerFrame(c, d, window, mime,
          BridgeCandidates(c, d.history, d.bridge.value, bytes.value, mime, now), attempt, now);
      }
    }
  }

  lemma PasteKeepsTheRest(c: Config, d: State, identity: Identity, mime: string, sourceId: nat, focused: Option<Window>,
                          writer: Writer, attempt: Attempt, now: nat)
    ensures var r := OnPaste(c, d, identity, mime, sourceId, focused, writer, attempt, now);
            && r == d.(fallback := r.fallback, pickers := r.pickers, log := r.log, audit := r.audit, published := r.published)
            && (r.published == d.published || r.published.None?)
  {
    hide OpenPicker, CompatiblePayload, PickerCandidates, IsMimeAllowed, RequestId, PasteWindow, Audit.Enqueue, Audit.Emptied;
    var event := PasteAudit(identity, mime, sourceId, if IsMimeAllowed(mime) then Audit.Allow else Audit.Deny);
    var taken := if IsSelected(d) then Audited(d, event).(published := None) else Audited(d, event);
    var window := PasteWindow(identity, focused);
    OpenPickerFrame(c, taken, window, mime,
      PickerCandidates(c, d.history, d.hostSelection, d.currentHost, mime, now), attempt, now);
  }

  // ----- The bridge selection, its history row and its publication -----

  /** The live selection has its own id, and the row under that id, while it is kept, holds the same data. */
  ghost predicate RowInv(bridge: Option<BridgeSelection>, history: HistoryState) {
    bridge.Some? ==>
      var b := bridge.value;
      && b.entryId == BridgeId(b.identity.canonicalTarget, b.sourceId)
      && b.data != map[]
      && (DataFor(history, b.entryId).None? || DataFor(history, b.entryId) == Some(b.data))
  }

  lemma {:induction false} DataInPrefix(entries: seq<Entry>, k: nat, id: string)
    requires k <= |entries|
    ensures DataIn(entries[..k], id).None? || DataIn(entries[..k], id) == DataIn(entries, id)
    decreases k
  {
    if k > 0 {
      assert entries[..k][1..] == entries[1..][..k - 1];
      DataInPrefix(entries[1..], k - 1, id);
    }
  }

  lemma FirstIsFound(entry: Entry, rest: seq<Entry>, id: string)
    ensures var r := Bounded([entry] + rest);
            && (entry.entryId == id ==> DataIn(r, id) == Some(entry.data))
            && (entry.entryId != id ==> DataIn(r, id).None? || DataIn(r, id) == DataIn(rest, id))
  {
    var all := [entry] + rest;
    var r := Bounded(all);
    assert all[1..] == rest;
    assert r[0] == entry;
    assert r[1..] == rest[..|r| - 1];
    DataInPrefix(rest, |r| - 1, id);
  }

  lemma PushKeepsRow(bridge: Option<BridgeSelection>, history: HistoryState, entry: Entry)
    requires RowInv(bridge, history)
    ensures RowInv(bridge, Pushed(history, entry))
  {
    hide BridgeId, HistoryId, DataIn;
    if bridge.Some? && entry.data != map[] {
      var b := bridge.value;
      var n := SaturatingNext(history.nextId);
      IdsAreDisjoint(b.identity.canonicalTarget, b.sourceId, n);
      FirstIsFound(entry.(entryId := HistoryId(n)), history.entries, b.entryId);
    }
  }

  lemma CopyArrivedKeepsRow(d: State, flushed: bool, now: nat)
    requires RowInv(d.bridge, d.history) && d.history == After(d.changes)
    ensures var r := OnCopyArrived(d, flushed, now); RowInv(r.bridge, r.history) && r.history == After(r.changes)
  {
    hide BridgeId, DataIn, ClipHistory.Without;
    if d.copyQueue != [] && d.copyQueue[0].result.Some? {
      var ready := d.copyQueue[0];
      var target, id := ready.identity.canonicalTarget, ready.sourceId;
      var b := Extended(d.bridge, ready, ready.result.value, now);
      assert b.identity == ready.identity && b.sourceId == id && b.entryId == BridgeId(target, id);
      IdsAreDisjoint(target, id, 0);
      assert ready.mime in b.data;
      FirstIsFound(RowOf(b), ClipHistory.Without(d.history.entries, b.entryId), b.entryId);
      var r := OnCopyArrived(d, flushed, now);
      assert RowOf(b).(entryId := BridgeId(target, id)) == RowOf(b);
      assert r.changes[..|d.changes|] == d.changes;
    }
  }

  /** The history is what its changes make it, and agrees with the live selection. */
  ghost predicate HistoryInv(d: State) {
    d.history == After(d.changes) && RowInv(d.bridge, d.history)
  }

  lemma StepKeepsHistory(c: Config, d: State, e: Event)
    requires HistoryInv(d)
    ensures HistoryInv(Step(c, d, e))
  {
    hide RowInv, After, OnPaste, OnSourceSend, OnCopyArrived, OnSelect, Materialize.Read, ReadAll, IsEcho, AllowedOf, OpenedOf, Pushed,
         Items, IsMimeAllowed, SelectedData, PickerCandidates, Picker.Reap, Picker.Cancel, Picker.Expire, Picker.Launch;
    assert RowInv(None, d.history) by { NoRow(d.history); }
    match e
    case CopyArrived(flushed, now) => CopyArrivedKeepsRow(d, flushed, now);
    case Select(entryId, flushed, now) => SelectFrame(d, entryId, flushed, now);
    case PasteRequest(identity, mime, sourceId, focused, writer, attempt, now) =>
      PasteKeepsTheRest(c, d, identity, mime, sourceId, focused, writer, attempt, now);
    case SourceSend(id, mime, focused, writer, attempt, now) => SendKeepsTheRest(c, d, id, mime, focused, writer, attempt, now);
    case HostArrived =>
      if d.hostQueue != [] {
        PushKeepsRow(d.bridge, d.history, d.hostQueue[0]);
        AfterMore(d.changes, Push(d.hostQueue[0]));
      }
    case _ =>
  }

  lemma NoRow(history: HistoryState)
    ensures RowInv(None, history)
  {
  }

  lemma AfterMore(changes: seq<Change>, change: Change)
    ensures After(changes + [change]) == Changed(After(changes), change)
  {
    assert (changes + [change])[..|changes|] == changes;
  }

  /**
    * Something is published only through a bound device, under a number already given out. A published discovery is the
    * live selection's, and carries its data.
    */
  ghost predicate DiscoveryInv(
    bridge: Option<BridgeSelection>, published: Option<Published>, deviceBound: bool, sourceSeq: nat)
  {
    && (published.Some? ==> deviceBound && 0 < published.value.dataControlId <= sourceSeq && published.value.suppressEcho)
    && (bridge.Some? ==> bridge.value.dataControlId <= sourceSeq)
    && (published.Some? && published.value.mode.Discovery? ==>
          && bridge.Some?
          && bridge.value.dataControlId == published.value.dataControlId
          && bridge.value.data == published.value.data)
  }

  ghost predicate Discovers(d: State) {
    DiscoveryInv(d.bridge, d.published, d.deviceBound, d.sourceSeq)
  }

  lemma CopyArrivedKeepsDiscovery(d: State, flushed: bool, now: nat)
    requires Discovers(d)
    ensures Discovers(OnCopyArrived(d, flushed, now))
  {
    hide Upserted, BridgeId, RowOf;
    if d.copyQueue != [] && d.copyQueue[0].result.Some? {
      var ready := d.copyQueue[0];
      assert ready.mime in Extended(d.bridge, ready, ready.result.value, now).data;
    }
  }

  lemma SelectKeepsDiscovery(d: State, entryId: string, flushed: bool, now: nat)
    requires Discovers(d)
    ensures Discovers(OnSelect(d, entryId, flushed, now))
  {
    hide SelectedData, Picker.Cancel;
  }

  lemma CancelledKeepsDiscovery(d: State, id: nat)
    requires id > 0 && Discovers(d)
    ensures Discovers(OnSourceCancelled(d, id))
  {
  }

  lemma ForgettingKeepsDiscovery(d: State)
    requires Discovers(d)
    ensures DiscoveryInv(None, None, d.deviceBound, d.sourceSeq)
    ensures DiscoveryInv(d.bridge, None, d.deviceBound, d.sourceSeq)
    ensures DiscoveryInv(d.bridge, d.published, true, d.sourceSeq)
  {
  }

  lemma StepKeepsDiscovery(c: Config, d: State, e: Event)
    requires Discovers(d)
    ensures Discovers(Step(c, d, e))
  {
    hide DiscoveryInv, Step;
    ForgettingKeepsDiscovery(d);
    if LeavesSelections(e) {
      SelectionsFrame(c, d, e);
    } else {
      SelectionStepKeepsDiscovery(c, d, e);
    }
  }

  lemma SelectionStepKeepsDiscovery(c: Config, d: State, e: Event)
    requires Discovers(d) && !LeavesSelections(e)
    ensures Discovers(Step(c, d, e))
  {
    hide DiscoveryInv, OnPaste, OnCopyArrived, OnSelect, OnSourceCancelled, IsEcho, AllowedOf, OpenedOf, Fallback.Next;
    ForgettingKeepsDiscovery(d);
    match e
    case CopyArrived(flushed, now) => CopyArrivedKeepsDiscovery(d, flushed, now);
    case PasteRequest(identity, mime, sourceId, focused, writer, attempt, now) =>
      PasteKeepsTheRest(c, d, identity, mime, sourceId, focused, writer, attempt, now);
    case Select(entryId, flushed, now) => SelectKeepsDiscovery(d, entryId, flushed, now);
    case SourceCancelled(id) => CancelledKeepsDiscovery(d, id);
    case _ =>
  }
}
