/** The clipboard daemon's event loop: its handlers, updating its state in place. */
module EventLoops {
  import opened Options
  import opened Policy
  import opened ClipHistory
  import opened Daemon
  import opened Materialize
  import Audit
  import DaemonRuns
  import Fallback
  import Picker

  class EventLoop {
    const config: Config
    const history: ClipboardHistory
    const fallback: Fallback.FallbackArming
    const supervisor: Picker.PickerSupervisor
    const auditQueue: Audit.AuditQueue
    var bridge: Option<BridgeSelection>
    var published: Option<Published>
    var currentHost: Option<Entry>
    var hostSelection: Option<HostSelection>
    var deviceBound: bool
    var sourceSeq: nat
    // Helper threads and the channels they send on.
    var copyReaders: seq<CopyReader>
    var copyQueue: seq<CopyReady>
    var hostReaders: seq<HostReader>
    var hostQueue: seq<Entry>
    ghost var changes: seq<Change>
    ghost var received: set<(string, Bytes)>
    ghost var log: seq<Act>

    ghost function Now(): State
      reads this, history, fallback, supervisor, auditQueue
    {
      State(bridge, published, currentHost, hostSelection, history.State(), fallback.state, supervisor.State(),
            auditQueue.queues, deviceBound, sourceSeq, copyReaders, copyQueue, hostReaders, hostQueue, changes, received, log)
    }

    ghost predicate Valid()
      reads this, auditQueue
    {
      auditQueue.Valid() && auditQueue.quota == AUDIT_QUOTA
    }

    constructor (config: Config)
      ensures Valid() && Now() == INITIAL && this.config == config
      ensures fresh(history) && fresh(fallback) && fresh(supervisor) && fresh(auditQueue)
    {
      this.config := config;
      history := new ClipboardHistory();
      fallback := new Fallback.FallbackArming();
      supervisor := new Picker.PickerSupervisor();
      auditQueue := new Audit.AuditQueue(AUDIT_QUOTA);
      bridge, published, currentHost, hostSelection, deviceBound, sourceSeq := None, None, None, None, false, 0;
      copyReaders, copyQueue, hostReaders, hostQueue := [], [], [], [];
      changes, received, log := [], {}, [];
    }

    // ----- Pickers -----

    method ArmNativeFallback(window: Window, now: nat)
      modifies fallback
      ensures Now() == ArmNative(old(Now()), window, now)
    {
      if fallback.state.Idle? {
        var _ := fallback.CaptureTargetBeforePicker(window);
      }
      var _ := fallback.ArmSelectedEntry(CURRENT_HOST_ENTRY_ID, now, PICKER_TIMEOUT);
    }

    method ClosePicker(now: nat)
      modifies fallback, supervisor
      ensures Now() == PickerGone(old(Now()), now)
    {
      var _ := fallback.Cancel();
      var _ := supervisor.CancelActive(now);
    }

    method OpenPickerForCandidates(window: Window, mime: string, candidates: seq<Candidate>, attempt: Attempt, now: nat)
      modifies this`log, fallback, supervisor
      ensures Now() == OpenPicker(config, old(Now()), window, mime, candidates, attempt, now)
    {
      hide Decimal, Picker.Cancel;
      if !config.configured || supervisor.active.Some? {
        ArmNativeFallback(window, now);
        return;
      }
      var _ := fallback.CaptureTargetBeforePicker(window);
      var result := supervisor.TryLaunchPicker("paste-" + Decimal(now), config.configured, attempt.spawns, now, PICKER_TIMEOUT);
      if !result.Launched? {
        var _ := fallback.Cancel();
        ArmNativeFallback(window, now);
      } else if !attempt.handshake {
        ClosePicker(now);
        ArmNativeFallback(window, now);
      } else {
        log := log + [Offered(mime, candidates)];
      }
    }

    method HandleArm(window: Window, attempt: Attempt, now: nat)
      modifies this`log, fallback, supervisor
      ensures Now() == OnArm(config, old(Now()), window, attempt, now)
    {
      hide Decimal, Picker.Cancel, PickerCandidates;
      var _ := fallback.CaptureTargetBeforePicker(window);
      var result := supervisor.TryLaunchPicker("arm-" + Decimal(now), config.configured, attempt.spawns, now, PICKER_TIMEOUT);
      if !result.Launched? {
        var _ := fallback.Cancel();
        return;
      }
      var candidates := PickerCandidates(config, history.State(), hostSelection, None, TEXT_PLAIN, now);
      if attempt.handshake {
        log := log + [Offered(TEXT_PLAIN, candidates)];
      } else {
        ClosePicker(now);
      }
    }

    // ----- Publishing -----

    method PublishSelection(data: Data, mode: Mode, flushed: bool) returns (ok: bool)
      modifies this`sourceSeq, this`published
      ensures Now() == Publish(old(Now()), data, mode, flushed)
      ensures ok == (data != map[] && deviceBound && flushed)
    {
      if data == map[] {
        return false;
      }
      sourceSeq := sourceSeq + 1;
      if !deviceBound {
        return false;
      }
      published := Some(Published(sourceSeq, data, mode, true));
      if !flushed {
        published := None;
        return false;
      }
      return true;
    }

    method HandleSelect(entryId: string, flushed: bool, now: nat)
      modifies this`sourceSeq, this`published, this`log, fallback, supervisor
      ensures Now() == OnSelect(old(Now()), entryId, flushed, now)
    {
      hide EntryData, Picker.Cancel;
      var data := EntryData(bridge, currentHost, history.State(), entryId);
      var ok := false;
      if data.Some? {
        ok := PublishSelection(data.value, Selected, flushed);
      }
      log := log + [Picked(entryId, if ok then data else None)];
      ClosePicker(now);
    }

    // ----- Copies from endpoints -----

    method HandleCopyRequest(reader: CopyReader, permit: bool, spawned: bool)
      modifies this`copyQueue, this`copyReaders
      ensures Now() == OnCopyRequest(old(Now()), reader, permit, spawned)
    {
      hide IsMimeAllowed;
      if !IsMimeAllowed(reader.mime) {
        return;
      }
      if !permit {
        copyQueue := copyQueue + [CopyReady(reader.identity, reader.mime, reader.sourceId, None)];
        return;
      }
      if spawned {
        copyReaders := copyReaders + [reader];
      }
    }

    /** The reader thread at `index` goes on until its descriptor is read. */
    method FinishCopyRead(index: nat, steps: seq<ReadStep>)
      modifies this`copyReaders, this`copyQueue, this`received
      ensures Now() == OnCopyRead(old(Now()), index, steps)
    {
      hide Read;
      if index >= |copyReaders| {
        return;
      }
      var result := ReadFdToVec(steps, MATERIALIZE_MAX_BYTES);
      if result.Pending? {
        return;
      }
      var r := copyReaders[index];
      copyReaders := copyReaders[..index] + copyReaders[index + 1..];
      if result.Complete? {
        copyQueue := copyQueue + [CopyReady(r.identity, r.mime, r.sourceId, Some(result.bytes))];
        received := received + {(r.mime, result.bytes)};
      } else {
        copyQueue := copyQueue + [CopyReady(r.identity, r.mime, r.sourceId, None)];
      }
    }

    /** Put one more type into the selection of the endpoint it came from. */
    method ExtendSelection(ready: CopyReady, bytes: Bytes, now: nat)
      modifies this`bridge
      ensures bridge == Some(Extended(old(bridge), ready, bytes, now))
    {
      hide BridgeId;
      if bridge.None? || bridge.value.identity != ready.identity || bridge.value.sourceId != ready.sourceId {
        bridge := Some(BridgeSelection(ready.identity, ready.sourceId, 0,
                                       BridgeId(ready.identity.canonicalTarget, ready.sourceId), now, true, map[]));
      }
      bridge := Some(bridge.value.(suppressEcho := true, data := bridge.value.data[ready.mime := bytes]));
    }

    /** Record the extended selection in the history. */
    method RecordCopy(ready: CopyReady, bytes: Bytes, now: nat)
      modifies this`bridge, this`currentHost, this`changes, history
      ensures var b := Extended(old(bridge), ready, bytes, now);
              Now() == old(Now()).(
                bridge := Some(b), currentHost := None,
                history := Upserted(old(history.State()), RowOf(b)),
                changes := old(changes) + [Upsert(ready.identity.canonicalTarget, ready.sourceId, RowOf(b))])
    {
      hide Extended, Upserted, RowOf;
      currentHost := None;
      ExtendSelection(ready, bytes, now);
      history.Upsert(RowOf(bridge.value));
      changes := changes + [Upsert(ready.identity.canonicalTarget, ready.sourceId, RowOf(bridge.value))];
    }

    method HandleCopyReady(flushed: bool, now: nat)
      modifies this, history
      ensures Now() == OnCopyArrived(old(Now()), flushed, now)
    {
      hide Extended, Upserted, RowOf;
      if copyQueue == [] {
        return;
      }
      var ready := copyQueue[0];
      copyQueue := copyQueue[1..];
      if ready.result.None? {
        return;
      }
      RecordCopy(ready, ready.result.value, now);
      var b := bridge.value;
      var _ := PublishSelection(b.data, Discovery, flushed);
      if deviceBound {
        bridge := Some(b.(dataControlId := sourceSeq));
      }
    }

    // ----- Pastes to endpoints -----

    method FlushAudit()
      requires Valid()
      modifies auditQueue
      ensures Valid() && auditQueue.queues == Audit.Emptied(old(auditQueue.queues))
      ensures auditQueue.accepted == old(auditQueue.accepted)
    {
      var _, _ := auditQueue.DrainAll();
    }

    /** Record the decision; `ok` tells whether the record was accepted. */
    method AuditPaste(event: Audit.AuditEvent) returns (ok: bool)
      requires Valid()
      modifies this`log, auditQueue
      ensures Valid() && Now() == Audited(old(Now()), event)
      ensures ok == Audit.HasRoom(old(auditQueue.queues), AUDIT_QUOTA, event.sourceRealm)
    {
      hide Audit.Enqueue, Audit.Emptied, Audit.HasRoom, Audit.Conserved, Audit.Sorted;
      ok := auditQueue.EnqueueFailClosed(event);
      if ok {
        log := log + [Accepted(event)];
      }
      if ok || event.decision.Deny? {
        FlushAudit();
      }
    }

    method HandlePaste(identity: Identity, mime: string, sourceId: nat, focused: Option<Window>,
                       writer: Writer, attempt: Attempt, now: nat)
      requires Valid()
      modifies this`log, this`published, fallback, supervisor, auditQueue
      ensures Valid() && Now() == OnPaste(config, old(Now()), identity, mime, sourceId, focused, writer, attempt, now)
    {
      hide IsMimeAllowed, CompatiblePayload, PickerCandidates, OpenPicker, RequestId, PasteWindow, Audited, Audit.HasRoom,
           Audit.Conserved, Audit.Sorted;
      if !IsMimeAllowed(mime) {
        var _ := AuditPaste(PasteAudit(identity, mime, sourceId, Audit.Deny));
        return;
      }
      var event := PasteAudit(identity, mime, sourceId, Audit.Allow);
      var ok := AuditPaste(event);
      if !ok {
        return;
      }
      if published.Some? && published.value.mode.Selected? {
        var data := published.value.data;
        published := None;
        var bytes := CompatiblePayload(data, mime, config.html);
        if bytes.Some? {
          if writer.permit && writer.spawned {
            log := log + [Pasted(event.requestId, mime, bytes.value)];
          }
          return;
        }
      }
      var window := PasteWindow(identity, focused);
      var candidates := PickerCandidates(config, history.State(), hostSelection, currentHost, mime, now);
      OpenPickerForCandidates(window, mime, candidates, attempt, now);
    }

    // ----- The host compositor -----

    /** Whether an announcement is ignored. */
    method SuppressesEcho(focused: Option<Window>) returns (echo: bool)
      ensures echo == IsEcho(bridge, published, focused)
    {
      hide AppMatchesEndpoint, IsForwarded;
      if focused.None? || IsForwarded(focused.value.appId) {
        return true;
      }
      if bridge.Some? && bridge.value.suppressEcho && MatchesSource(focused.value, bridge) {
        return true;
      }
      if MatchesSource(focused.value, bridge) {
        return true;
      }
      return published.Some? && published.value.suppressEcho;
    }

    method StartHostReader(targets: seq<string>, permit: bool, spawned: bool, now: nat)
      modifies this`hostReaders
      ensures hostReaders ==
              if targets != [] && permit && spawned then
                old(hostReaders) + [HostReader(Entry("", HostRealm, None, map[], now), targets)]
              else old(hostReaders)
    {
      if targets != [] && permit && spawned {
        hostReaders := hostReaders + [HostReader(Entry("", HostRealm, None, map[], now), targets)];
      }
    }

    /** A new selection of the host's own takes the place of everything else. */
    method ReplaceSelections(selection: HostSelection)
      modifies this`bridge, this`published, this`currentHost, this`hostSelection, fallback
      ensures Now() == old(Now()).(bridge := None, published := None, currentHost := None, hostSelection := Some(selection),
                                   fallback := Fallback.Next(old(fallback.state), Fallback.NativeSelection))
    {
      hide Fallback.Next;
      bridge, published, currentHost, hostSelection := None, None, None, Some(selection);
      var _ := fallback.OnNativeSelectionChanged();
    }

    method HandleSelectionChanged(focused: Option<Window>, mimes: seq<string>, live: bool, pipes: seq<bool>, permit: bool,
                                  spawned: bool, now: nat)
      modifies this, fallback
      ensures Now() == OnSelectionChanged(old(Now()), focused, mimes, live, pipes, permit, spawned, now)
    {
      hide AllowedOf, OpenedOf, IsEcho, Fallback.Next;
      var echo := SuppressesEcho(focused);
      if echo {
        hostSelection := None;
        return;
      }
      var allowed := AllowedOf(mimes);
      var offered := live && allowed != [];
      if offered {
        StartHostReader(OpenedOf(allowed, pipes), permit, spawned, now);
      }
      ReplaceSelections(HostSelection(offered, allowed));
    }

    /** Read the given types one after the other, keeping those that were read to their end. */
    method ReadMimes(mimes: seq<string>, scripts: seq<seq<ReadStep>>) returns (data: Option<Data>)
      ensures data == ReadAll(mimes, scripts, map[])
    {
      hide Read;
      var found: Data, i := map[], 0;
      while i < |mimes|
        invariant 0 <= i <= |mimes| && (i <= |scripts|)
        invariant ReadAll(mimes, scripts, map[]) == ReadAll(mimes[i..], scripts[i..], found)
      {
        if i >= |scripts| {
          return None;
        }
        assert mimes[i..][1..] == mimes[i + 1..] && scripts[i..][1..] == scripts[i + 1..];
        var result := ReadFdToVec(scripts[i], MATERIALIZE_MAX_BYTES);
        if result.Pending? {
          return None;
        }
        if result.Complete? {
          found := found[mimes[i] := result.bytes];
        }
        i := i + 1;
      }
      return Some(found);
    }

    method FinishHostRead(index: nat, scripts: seq<seq<ReadStep>>)
      modifies this`hostReaders, this`hostQueue, this`received
      ensures Now() == OnHostRead(old(Now()), index, scripts)
    {
      hide ReadAll;
      if index >= |hostReaders| {
        return;
      }
      var r := hostReaders[index];
      var data := ReadMimes(r.mimes, scripts);
      if data.None? {
        return;
      }
      hostReaders := hostReaders[..index] + hostReaders[index + 1..];
      if data.value != map[] {
        hostQueue := hostQueue + [r.entry.(data := data.value)];
      }
      received := received + Items(data.value);
    }

    method RecordHostEntry()
      modifies this, history
      ensures Now() == OnHostArrived(old(Now()))
    {
      hide Pushed;
      if hostQueue == [] {
        return;
      }
      var entry := hostQueue[0];
      hostQueue := hostQueue[1..];
      if entry.realmKind.HostRealm? {
        currentHost := Some(entry.(entryId := CURRENT_HOST_ENTRY_ID));
      }
      history.Push(entry);
      changes := changes + [Push(entry)];
    }

    method HandleSourceSend(id: nat, mime: string, focused: Option<Window>, writer: Writer, attempt: Attempt, now: nat)
      modifies this`log, fallback, supervisor
      ensures Now() == OnSourceSend(config, old(Now()), id, mime, focused, writer, attempt, now)
    {
      hide CompatiblePayload, OpenPicker, DiscoveryCandidates, BridgeCandidates, AppMatchesEndpoint;
      var window := OrDefault(focused);
      if published.Some? && published.value.dataControlId == id {
        var p := published.value;
        if p.mode.Selected? {
          var bytes := CompatiblePayload(p.data, mime, config.html);
          if bytes.Some? && writer.permit && writer.spawned {
            log := log + [Sent(mime, bytes.value)];
          }
          return;
        }
        if MatchesSource(window, bridge) {
          return;
        }
        var candidates := DiscoveryCandidates(config, bridge, history.State(), currentHost, p.data, mime, now);
        OpenPickerForCandidates(window, mime, candidates, attempt, now);
        return;
      }
      if bridge.Some? && bridge.value.dataControlId == id {
        var bytes := CompatiblePayload(bridge.value.data, mime, config.html);
        if bytes.None? || MatchesSource(window, bridge) {
          return;
        }
        var candidates := BridgeCandidates(config, history.State(), bridge.value, bytes.value, mime, now);
        OpenPickerForCandidates(window, mime, candidates, attempt, now);
      }
    }

    method HandleSourceCancelled(id: nat)
      modifies this`published, this`bridge, this`hostSelection
      ensures Now() == OnSourceCancelled(old(Now()), id)
    {
      if published.Some? && published.value.dataControlId == id {
        published, hostSelection := None, None;
      }
      if bridge.Some? && bridge.value.dataControlId == id {
        bridge, hostSelection := None, None;
      }
    }

    method CheckTimeouts(now: nat, exits: Picker.Exits)
      modifies fallback, supervisor
      ensures Now() == OnTick(old(Now()), now, exits)
    {
      hide Picker.Reap, Picker.Cancel;
      var expired := supervisor.ReapExpired(now);
      if expired {
        var _ := fallback.Cancel();
      }
      supervisor.ReapTerminated(now, exits);
      var _ := fallback.OnTimeout(now);
    }

    // ----- The loop -----

    method HandleWaylandEvent(e: Event)
      requires e.SelectionChanged? || e.SelectionCleared? || e.DeviceBound? || e.SourceSend? || e.SourceCancelled?
      modifies this, fallback, supervisor
      ensures Now() == Step(config, old(Now()), e)
    {
      hide OnSelectionChanged, OnSourceSend, OnSourceCancelled;
      match e {
        case SelectionChanged(focused, mimes, live, pipes, permit, spawned, now) =>
          HandleSelectionChanged(focused, mimes, live, pipes, permit, spawned, now);
        case SelectionCleared => hostSelection := None;
        case DeviceBound => deviceBound := true;
        case SourceSend(id, mime, focused, writer, attempt, now) => HandleSourceSend(id, mime, focused, writer, attempt, now);
        case SourceCancelled(id) => HandleSourceCancelled(id);
      }
    }

    /** Helper threads finish their reads, and the loop takes up what they sent. */
    method DrainMaterialization(e: Event)
      requires e.CopyRead? || e.CopyArrived? || e.HostRead? || e.HostArrived?
      modifies this, history
      ensures Now() == Step(config, old(Now()), e)
    {
      hide OnCopyRead, OnCopyArrived, OnHostRead, OnHostArrived;
      match e {
        case CopyRead(index, steps) => FinishCopyRead(index, steps);
        case CopyArrived(flushed, now) => HandleCopyReady(flushed, now);
        case HostRead(index, scripts) => FinishHostRead(index, scripts);
        case HostArrived => RecordHostEntry();
      }
    }

    method HandlePickerEvent(e: Event)
      requires e.Select? || e.PickerLeft? || e.ArmCommand?
      modifies this, fallback, supervisor
      ensures Now() == Step(config, old(Now()), e)
    {
      hide OnSelect, PickerGone, OnArm;
      match e {
        case Select(entryId, flushed, now) => HandleSelect(entryId, flushed, now);
        case PickerLeft(now) => ClosePicker(now);
        case ArmCommand(focused, attempt, now) => HandleArm(OrDefault(focused), attempt, now);
      }
    }

    method KeepHouse(e: Event)
      requires e.FocusChanged? || e.Tick?
      modifies fallback, supervisor
      ensures Now() == Step(config, old(Now()), e)
    {
      hide OnTick, Fallback.Next, Fallback.Current;
      match e {
        case FocusChanged(focused) => var _ := fallback.OnFocusChanged(focused);
        case Tick(now, exits) => CheckTimeouts(now, exits);
      }
    }

    method Handle(e: Event)
      requires Valid()
      modifies this, history, fallback, supervisor, auditQueue
      ensures Valid() && Now() == Step(config, old(Now()), e)
    {
      if e.CopyRequest? {
        hide OnCopyRequest;
        HandleCopyRequest(CopyReader(e.identity, e.mime, e.sourceId), e.permit, e.spawned);
      } else if e.PasteRequest? {
        hide OnPaste, Audit.Conserved, Audit.Sorted;
        HandlePaste(e.identity, e.mime, e.sourceId, e.focused, e.writer, e.attempt, e.now);
      } else {
        hide Step, Audit.Conserved, Audit.Sorted;
        if e.SelectionChanged? || e.SelectionCleared? || e.DeviceBound? || e.SourceSend? || e.SourceCancelled? {
          HandleWaylandEvent(e);
        } else if e.CopyRead? || e.CopyArrived? || e.HostRead? || e.HostArrived? {
          DrainMaterialization(e);
        } else if e.FocusChanged? || e.Tick? {
          KeepHouse(e);
        } else {
          HandlePickerEvent(e);
        }
      }
    }
  }

  /** The daemon, given any list of events, goes through the run the model describes. */
  method Serve(config: Config, events: seq<Event>) returns (daemon: EventLoop)
    ensures daemon.Valid() && daemon.config == config && daemon.Now() == Run(config, events)
    ensures DaemonRuns.Inv(config, daemon.Now())
  {
    hide Step, DaemonRuns.Inv, Audit.Conserved, Audit.Sorted;
    daemon := new EventLoop(config);
    var i := 0;
    while i < |events|
      invariant 0 <= i <= |events| && daemon.Valid() && daemon.config == config
      invariant fresh(daemon) && fresh(daemon.history) && fresh(daemon.fallback)
      invariant fresh(daemon.supervisor) && fresh(daemon.auditQueue)
      invariant daemon.Now() == Run(config, events[..i])
    {
      daemon.Handle(events[i]);
      assert events[..i + 1][..i] == events[..i];
      i := i + 1;
    }
    assert events[..i] == events;
    DaemonRuns.EveryRun(config, events);
  }
}
