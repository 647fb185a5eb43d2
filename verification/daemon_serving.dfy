/** Exactly when the clipboard daemon writes a payload out. */
module DaemonServing {
  import opened Options
  import opened Policy
  import opened ClipHistory
  import opened Daemon
  import opened DaemonLog
  import opened DaemonRuns
  import opened DaemonState
  import Audit
  import DaemonContent
  import Picker

  // ----- Which selection is being served, told from the events alone -----

  /** The event publishes an entry picked in a picker. */
  ghost predicate Publishes(d: State, e: Event) {
    e.Select? && d.deviceBound && e.flushed && SelectedData(d, e.entryId).Some?
  }

  /**
    * The event ends the publication of source `id`: a copy arrives from an endpoint, an allowed paste takes it, another entry
    * is picked, or the compositor cancels it.
    */
  ghost predicate Ends(d: State, e: Event, id: nat) {
    match e
    case CopyArrived(_, _) => d.copyQueue != [] && d.copyQueue[0].result.Some?
    case PasteRequest(_, mime, _, _, _, _, _) => IsMimeAllowed(mime)
    case Select(entryId, _, _) => SelectedData(d, entryId).Some?
    case SourceCancelled(cancelled) => cancelled == id
    case _ => false
  }

  /** The event at `k` published this data as source `id`, and nothing since has ended that. */
  ghost predicate SelectedAt(c: Config, events: seq<Event>, k: nat, id: nat, data: Data) {
    && k < |events|
    && Publishes(Run(c, events[..k]), events[k])
    && id == Run(c, events[..k]).sourceSeq + 1
    && SelectedData(Run(c, events[..k]), events[k].entryId) == Some(data)
    && forall j :: k < j < |events| ==> !Ends(Run(c, events[..j]), events[j], id)
  }

  ghost predicate IsServing(d: State, id: nat, data: Data) {
    IsSelected(d) && d.published.value.dataControlId == id && d.published.value.data == data
  }

  // ----- One step -----

  ghost predicate Ready(d: State) {
    AuditInv(d.audit) && HistoryInv(d) && Discovers(d)
  }

  lemma RunIsReady(c: Config, events: seq<Event>)
    ensures Ready(Run(c, events))
  {
    hide Run, LogInv, DaemonContent.ContentInv, PickerInv, AuditInv, HistoryInv, Discovers;
    EveryRun(c, events);
  }

  lemma SelectStep(d: State, entryId: string, flushed: bool, now: nat, id: nat, data: Data)
    requires Ready(d)
    ensures var e := Select(entryId, flushed, now);
            IsServing(OnSelect(d, entryId, flushed, now), id, data) <==>
            || (Publishes(d, e) && id == d.sourceSeq + 1 && SelectedData(d, entryId) == Some(data))
            || (IsServing(d, id, data) && !Ends(d, e, id))
  {
    hide AuditInv, Picker.Cancel;
    HistoryNeverEmpty(d.changes, entryId);
  }

  lemma PasteStep(c: Config, d: State, identity: Identity, mime: string, sourceId: nat, focused: Option<Window>,
                  writer: Writer, attempt: Attempt, now: nat)
    requires Ready(d)
    ensures OnPaste(c, d, identity, mime, sourceId, focused, writer, attempt, now).published ==
            if IsMimeAllowed(mime) && IsSelected(d) then None else d.published
  {
    hide OpenPicker, CompatiblePayload, PickerCandidates, IsMimeAllowed, RequestId, PasteWindow, HistoryInv, Discovers;
    var event := PasteAudit(identity, mime, sourceId, if IsMimeAllowed(mime) then Audit.Allow else Audit.Deny);
    var taken := if IsSelected(d) then Audited(d, event).(published := None) else Audited(d, event);
    OpenPickerFrame(c, taken, PasteWindow(identity, focused), mime,
      PickerCandidates(c, d.history, d.hostSelection, d.currentHost, mime, now), attempt, now);
  }

  lemma CopyArrivedStep(d: State, flushed: bool, now: nat)
    requires Ready(d) && IsSelected(d)
    ensures var r := OnCopyArrived(d, flushed, now);
            if d.copyQueue != [] && d.copyQueue[0].result.Some? then !IsSelected(r) else r.published == d.published
  {
    hide AuditInv, HistoryInv, Upserted, BridgeId, RowOf;
    if d.copyQueue != [] && d.copyQueue[0].result.Some? {
      var ready := d.copyQueue[0];
      assert ready.mime in Extended(d.bridge, ready, ready.result.value, now).data;
    }
  }

  /** Copies never publish a picked entry, so nothing is served that was not before. */
  lemma CopyArrivedSelectsNothing(d: State, flushed: bool, now: nat)
    requires !IsSelected(d)
    ensures !IsSelected(OnCopyArrived(d, flushed, now))
  {
    hide Upserted, BridgeId, RowOf, Extended;
  }

  lemma ServingStep(c: Config, d: State, e: Event, id: nat, data: Data)
    requires Ready(d)
    ensures IsServing(Step(c, d, e), id, data) <==>
            || (Publishes(d, e) && id == d.sourceSeq + 1 && SelectedData(d, e.entryId) == Some(data))
            || (IsServing(d, id, data) && !Ends(d, e, id))
  {
    hide Ready, OnPaste, OnSourceSend, OnCopyArrived, OnSelect, SelectedData, IsMimeAllowed, AllowedOf, OpenedOf, IsEcho;
    if LeavesSelections(e) {
      hide Step;
      SelectionsFrame(c, d, e);
    } else {
      match e
      case CopyArrived(flushed, now) =>
        if IsSelected(d) {
          CopyArrivedStep(d, flushed, now);
        } else {
          CopyArrivedSelectsNothing(d, flushed, now);
        }
      case PasteRequest(identity, mime, sourceId, focused, writer, attempt, now) =>
        PasteStep(c, d, identity, mime, sourceId, focused, writer, attempt, now);
      case Select(entryId, flushed, now) => SelectStep(d, entryId, flushed, now, id, data);
      case SelectionChanged(focused, _, _, _, _, _, _) =>
        if d.published.Some? {
          PublishedIsEcho(d, focused);
        }
      case _ =>
    }
  }

  lemma PublishedIsEcho(d: State, focused: Option<Window>)
    requires Ready(d) && d.published.Some?
    ensures IsEcho(d.bridge, d.published, focused)
  {
    hide AuditInv, HistoryInv;
  }

  lemma SelectedEarlier(c: Config, events: seq<Event>, k: nat, id: nat, data: Data)
    requires events != [] && k < |events| - 1
    ensures var front, last := events[..|events| - 1], events[|events| - 1];
            SelectedAt(c, events, k, id, data) <==>
            SelectedAt(c, front, k, id, data) && !Ends(Run(c, front), last, id)
  {
    hide Run, Publishes, Ends, SelectedData;
    var front := events[..|events| - 1];
    assert forall j :: 0 <= j <= |front| ==> front[..j] == events[..j];
  }

  lemma SelectedLast(c: Config, events: seq<Event>, id: nat, data: Data)
    requires events != []
    ensures var front, last := events[..|events| - 1], events[|events| - 1];
            SelectedAt(c, events, |events| - 1, id, data) <==>
            Publishes(Run(c, front), last) && id == Run(c, front).sourceSeq + 1 &&
            SelectedData(Run(c, front), last.entryId) == Some(data)
  {
    hide Run, Ends, SelectedData;
  }

  /** What is being served is the latest entry picked and published, as long as no later event has ended it. */
  lemma {:induction false} ServingIff(c: Config, events: seq<Event>, id: nat, data: Data)
    ensures IsServing(Run(c, events), id, data) <==> exists k: nat :: SelectedAt(c, events, k, id, data)
    decreases |events|
  {
    hide Step, Ends, IsServing, SelectedData, Ready, SelectedAt;
    if events == [] {
      NothingServed(id, data);
      forall k: nat ensures !SelectedAt(c, events, k, id, data) {
        NothingSelected(c, k, id, data);
      }
    } else {
      var n := |events| - 1;
      var front := events[..n];
      ServingIff(c, front, id, data);
      RunIsReady(c, front);
      ServingStep(c, Run(c, front), events[n], id, data);
      SelectedLast(c, events, id, data);
      forall k: nat | k < n
        ensures SelectedAt(c, events, k, id, data) <==>
                SelectedAt(c, front, k, id, data) && !Ends(Run(c, front), events[n], id)
      {
        SelectedEarlier(c, events, k, id, data);
      }
      forall k: nat ensures SelectedAt(c, front, k, id, data) ==> k < n {
        SelectedInside(c, front, k, id, data);
      }
      forall k: nat ensures SelectedAt(c, events, k, id, data) ==> k <= n {
        SelectedInside(c, events, k, id, data);
      }
    }
  }

  lemma SelectedInside(c: Config, events: seq<Event>, k: nat, id: nat, data: Data)
    ensures SelectedAt(c, events, k, id, data) ==> k < |events|
  {
    hide Run, Publishes, Ends, SelectedData;
  }

  lemma NothingSelected(c: Config, k: nat, id: nat, data: Data)
    ensures !SelectedAt(c, [], k, id, data)
  {
    SelectedInside(c, [], k, id, data);
  }

  lemma NothingServed(id: nat, data: Data)
    ensures !IsServing(INITIAL, id, data)
  {
  }

  // ----- Serving -----

  /** The event asks for source `id` under a type, and a helper thread is there to write. */
  ghost predicate Demands(e: Event, id: nat) {
    || (e.PasteRequest? && IsMimeAllowed(e.mime) && Writes(e.writer))
    || (e.SourceSend? && e.dataControlId == id && Writes(e.writer))
  }

  ghost predicate Serves(before: seq<Act>, after: seq<Act>) {
    exists i :: |before| <= i < |after| && IsServed(after[i])
  }

  /** The step ends by writing these bytes under the type asked for. */
  ghost predicate LastWrites(before: seq<Act>, after: seq<Act>, mime: string, bytes: Bytes) {
    && |after| > |before|
    && var last := after[|after| - 1];
       IsServed(last) && last.mime == mime && last.bytes == bytes
  }

  lemma PasteServes(c: Config, d: State, identity: Identity, mime: string, sourceId: nat, focused: Option<Window>,
                    writer: Writer, attempt: Attempt, now: nat)
    requires Ready(d)
    ensures var e := PasteRequest(identity, mime, sourceId, focused, writer, attempt, now);
            var r := OnPaste(c, d, identity, mime, sourceId, focused, writer, attempt, now);
            if IsSelected(d) && Demands(e, 0) && CompatiblePayload(d.published.value.data, mime, c.html).Some?
            then LastWrites(d.log, r.log, mime, CompatiblePayload(d.published.value.data, mime, c.html).value)
            else !Serves(d.log, r.log)
  {
    hide CompatiblePayload, OpenPicker, PickerCandidates, IsMimeAllowed, RequestId, PasteWindow, HistoryInv, Discovers;
    var event := PasteAudit(identity, mime, sourceId, if IsMimeAllowed(mime) then Audit.Allow else Audit.Deny);
    var taken := if IsSelected(d) then Audited(d, event).(published := None) else Audited(d, event);
    OpenPickerFrame(c, taken, PasteWindow(identity, focused), mime,
      PickerCandidates(c, d.history, d.hostSelection, d.currentHost, mime, now), attempt, now);
  }

  lemma SendServes(c: Config, d: State, id: SourceNumber, mime: string, focused: Option<Window>, writer: Writer,
                   attempt: Attempt, now: nat)
    ensures var r := OnSourceSend(c, d, id, mime, focused, writer, attempt, now);
            if IsSelected(d) && d.published.value.dataControlId == id && Writes(writer) &&
               CompatiblePayload(d.published.value.data, mime, c.html).Some?
            then LastWrites(d.log, r.log, mime, CompatiblePayload(d.published.value.data, mime, c.html).value)
            else !Serves(d.log, r.log)
  {
    hide CompatiblePayload, OpenPicker, DiscoveryCandidates, BridgeCandidates, MatchesSource;
    var window := OrDefault(focused);
    if d.published.Some? && d.published.value.dataControlId == id {
      OpenPickerFrame(c, d, window, mime,
        DiscoveryCandidates(c, d.bridge, d.history, d.currentHost, d.published.value.data, mime, now), attempt, now);
    } else if d.bridge.Some? {
      var bytes := CompatiblePayload(d.bridge.value.data, mime, c.html);
      if bytes.Some? {
        OpenPickerFrame(c, d, window, mime,
          BridgeCandidates(c, d.history, d.bridge.value, bytes.value, mime, now), attempt, now);
      }
    }
  }

  lemma OthersServeNothing(c: Config, d: State, e: Event)
    requires !e.PasteRequest? && !e.SourceSend?
    ensures !Serves(d.log, Step(c, d, e).log)
  {
    hide OnSelect, PickerCandidates, Picker.Launch, Picker.Cancel;
    if e.Select? {
      SelectLogs(d, e.entryId, e.flushed, e.now);
    } else if !e.ArmCommand? {
      hide Step;
      StepIsQuiet(c, d, e);
    }
  }

  lemma SelectLogs(d: State, entryId: string, flushed: bool, now: nat)
    ensures var r := OnSelect(d, entryId, flushed, now); |r.log| == |d.log| + 1 && r.log[|d.log|].Picked?
  {
    hide SelectedData, Picker.Cancel;
  }

  lemma StepServes(c: Config, d: State, e: Event)
    requires Ready(d)
    ensures var demanded := IsSelected(d) && Demands(e, d.published.value.dataControlId) &&
                            CompatiblePayload(d.published.value.data, e.mime, c.html).Some?;
            if demanded
            then LastWrites(d.log, Step(c, d, e).log, e.mime, CompatiblePayload(d.published.value.data, e.mime, c.html).value)
            else !Serves(d.log, Step(c, d, e).log)
  {
    hide OnPaste, OnSourceSend, CompatiblePayload, IsMimeAllowed, Serves, LastWrites, Ready;
    if e.PasteRequest? {
      PasteServes(c, d, e.identity, e.mime, e.sourceId, e.focused, e.writer, e.attempt, e.now);
    } else if e.SourceSend? {
      SendServes(c, d, e.dataControlId, e.mime, e.focused, e.writer, e.attempt, e.now);
    } else {
      hide Step;
      OthersServeNothing(c, d, e);
    }
  }

  /** The event demands the entry picked at `k`, which has the type. */
  ghost predicate IsDue(c: Config, events: seq<Event>, e: Event, k: nat, id: nat, data: Data) {
    SelectedAt(c, events, k, id, data) && Demands(e, id) && CompatiblePayload(data, e.mime, c.html).Some?
  }

  /**
    * After every run an event makes the daemon write a payload out exactly when it demands, with a helper thread at hand, the
    * entry last picked and published and not ended since, and that entry has the type. What is written is that payload.
    */
  lemma ServesExactlyWhen(c: Config, events: seq<Event>, e: Event)
    ensures var d := Run(c, events);
            Serves(d.log, Step(c, d, e).log) <==>
            exists k: nat, id: nat, data: Data :: IsDue(c, events, e, k, id, data)
    ensures var d := Run(c, events);
            forall k: nat, id: nat, data: Data :: IsDue(c, events, e, k, id, data) ==>
              LastWrites(d.log, Step(c, d, e).log, e.mime, CompatiblePayload(data, e.mime, c.html).value)
  {
    hide Run, Step, CompatiblePayload, SelectedAt, IsMimeAllowed, Serves, LastWrites, Ready;
    var d := Run(c, events);
    RunIsReady(c, events);
    StepServes(c, d, e);
    forall k: nat, id: nat, data: Data | IsDue(c, events, e, k, id, data)
      ensures LastWrites(d.log, Step(c, d, e).log, e.mime, CompatiblePayload(data, e.mime, c.html).value)
      ensures Serves(d.log, Step(c, d, e).log)
    {
      ServingIff(c, events, id, data);
      assert IsServing(d, id, data);
      LastServes(d.log, Step(c, d, e).log, e.mime, CompatiblePayload(data, e.mime, c.html).value);
    }
    if Serves(d.log, Step(c, d, e).log) {
      var id, data := d.published.value.dataControlId, d.published.value.data;
      ServingIff(c, events, id, data);
      var k: nat :| SelectedAt(c, events, k, id, data);
      assert IsDue(c, events, e, k, id, data);
    }
  }

  /** In particular nothing is written while only a discovery, or nothing, is published. */
  lemma DiscoveryNeverServes(c: Config, events: seq<Event>, e: Event)
    ensures var d := Run(c, events); Serves(d.log, Step(c, d, e).log) ==> IsSelected(d)
  {
    hide Run, Step, CompatiblePayload, IsMimeAllowed, Serves, LastWrites, Ready;
    RunIsReady(c, events);
    StepServes(c, Run(c, events), e);
  }

  lemma LastServes(before: seq<Act>, after: seq<Act>, mime: string, bytes: Bytes)
    requires LastWrites(before, after, mime, bytes)
    ensures Serves(before, after)
  {
  }
}
