/**
  * The clipboard daemon as a state machine: one step for each thing its event loop or a helper thread does. What the
  * outside world decides (clocks, whether a process starts, what a read returns) comes with the event.
  */
module Daemon {
  import opened Options
  import opened Policy
  import opened ClipHistory
  import opened Materialize
  import Audit
  import BridgeStream
  import Fallback
  import Picker

  type Window = Fallback.Window
  type Identity = BridgeStream.Identity

  /** Data-control sources are numbered from 1. */
  type SourceNumber = n: nat | n > 0 witness 1

  const AUDIT_QUOTA: nat := 1024
  const PICKER_TIMEOUT: nat := 30000
  const PUBLISHED_ENTRY_ID: string := "published-selection"

  // ----- State -----

  /** What the host compositor last announced. */
  datatype HostSelection = HostSelection(offered: bool, allowedMimes: seq<string>)

  /** The selection an endpoint currently owns. `dataControlId` is 0 until it has been published. */
  datatype BridgeSelection = BridgeSelection(
    identity: Identity, sourceId: nat, dataControlId: nat, entryId: string, timestamp: nat, suppressEcho: bool, data: Data)

  datatype Mode = Discovery | Selected

  /** What the daemon itself offers to the compositor. */
  datatype Published = Published(dataControlId: nat, data: Data, mode: Mode, suppressEcho: bool)

  /** Helper threads at work, and what they have sent back. */
  datatype CopyReader = CopyReader(identity: Identity, mime: string, sourceId: nat)

  datatype CopyReady = CopyReady(identity: Identity, mime: string, sourceId: nat, result: Option<Bytes>)

  datatype HostReader = HostReader(entry: Entry, mimes: seq<string>)

  /** What the daemon has done that others can see. */
  datatype Act =
    | Accepted(event: Audit.AuditEvent)
    | Picked(entryId: string, published: Option<Data>)
    | Pasted(requestId: string, mime: string, bytes: Bytes)
    | Sent(mime: string, bytes: Bytes)
    | Offered(mime: string, candidates: seq<Candidate>)

  datatype State = State(
    bridge: Option<BridgeSelection>,
    published: Option<Published>,
    currentHost: Option<Entry>,
    hostSelection: Option<HostSelection>,
    history: HistoryState,
    fallback: Fallback.State,
    pickers: Picker.Pickers,
    audit: Audit.Queues,
    deviceBound: bool,
    sourceSeq: nat,
    copyReaders: seq<CopyReader>,
    copyQueue: seq<CopyReady>,
    hostReaders: seq<HostReader>,
    hostQueue: seq<Entry>,
    // What has happened: changes to the history, content read, acts.
    changes: seq<Change>,
    received: set<(string, Bytes)>,
    log: seq<Act>)

  const INITIAL: State := State(
    None, None, None, None, ClipHistory.EMPTY, Fallback.Idle, Picker.NO_PICKERS, map[], false, 0, [], [], [], [], [], {}, [])

  /** Whether a picker is configured, and the external conversion of HTML to text. */
  datatype Config = Config(configured: bool, html: Bytes -> Option<Bytes>)

  // ----- What the outside world decides -----

  datatype Attempt = Attempt(spawns: bool, handshake: bool)

  /** Whether a helper permit is free and the helper thread that writes starts. */
  datatype Writer = Writer(permit: bool, spawned: bool)

  datatype Event =
    | CopyRequest(identity: Identity, mime: string, sourceId: nat, permit: bool, spawned: bool)
    | CopyRead(index: nat, steps: seq<ReadStep>)
    | CopyArrived(flushed: bool, now: nat)
    | PasteRequest(
        identity: Identity, mime: string, sourceId: nat, focused: Option<Window>, writer: Writer, attempt: Attempt, now: nat)
    | SelectionChanged(
        focused: Option<Window>, mimes: seq<string>, live: bool, pipes: seq<bool>, permit: bool, spawned: bool, now: nat)
    | SelectionCleared
    | DeviceBound
    | HostRead(index: nat, scripts: seq<seq<ReadStep>>)
    | HostArrived
    | SourceSend(
        dataControlId: SourceNumber, mime: string, focused: Option<Window>, writer: Writer, attempt: Attempt, now: nat)
    | SourceCancelled(dataControlId: SourceNumber)
    | Select(entryId: string, flushed: bool, now: nat)
    | PickerLeft(now: nat)
    | ArmCommand(focused: Option<Window>, attempt: Attempt, now: nat)
    | FocusChanged(focused: Option<Window>)
    | Tick(now: nat, exits: Picker.Exits)

  // ----- Windows and endpoints -----

  function RealmKindOf(identity: Identity): RealmKind {
    if identity.providerKind == "unsafe-local" then UnsafeLocalRealm else VmRealm
  }

  function TrimDots(s: string): string {
    if s != "" && s[|s| - 1] == '.' then TrimDots(s[..|s| - 1]) else s
  }

  predicate AppMatchesVm(appId: string, vm: string) {
    appId == "d2b." + vm || "d2b." + vm + "." <= appId
  }

  predicate AppMatchesEndpoint(appId: Option<string>, identity: Identity) {
    && appId.Some?
    && var prefix := "d2b." + identity.canonicalTarget + ".";
       || appId.value == TrimDots(prefix)
       || prefix <= appId.value
       || (identity.legacyVmName.Some? && AppMatchesVm(appId.value, identity.legacyVmName.value))
  }

  predicate IsForwarded(appId: Option<string>) {
    appId.Some? && "d2b." < appId.value
  }

  predicate MatchesSource(window: Window, bridge: Option<BridgeSelection>) {
    bridge.Some? && AppMatchesEndpoint(window.appId, bridge.value.identity)
  }

  function SourceApp(identity: Identity): string {
    if identity.providerKind == "unsafe-local" then identity.canonicalTarget + " (unsafe-local)"
    else if identity.legacyVmName.Some? then identity.legacyVmName.value + " VM"
    else identity.canonicalTarget
  }

  function OrDefault(window: Option<Window>): Window {
    if window.Some? then window.value else Fallback.NO_WINDOW
  }

  // ----- Candidates -----

  function Without(candidates: seq<Candidate>, entryId: string): seq<Candidate> {
    if candidates == [] then []
    else (if candidates[0].entryId == entryId then [] else [candidates[0]]) + Without(candidates[1..], entryId)
  }

  function NotFrom(candidates: seq<Candidate>, target: string): seq<Candidate> {
    if candidates == [] then []
    else (if candidates[0].canonicalTarget == Some(target) then [] else [candidates[0]]) + NotFrom(candidates[1..], target)
  }

  /** The current host entry, if it can serve the request and is at least as new as the first candidate. */
  function HostOffer(c: Config, current: Option<Entry>, mime: string, others: seq<Candidate>): Option<Candidate> {
    if current.None? then None
    else
      var bytes := CompatiblePayload(current.value.data, mime, c.html);
      if bytes.None? || (others != [] && current.value.timestamp < others[0].timestamp) then None
      else Some(Offer(current.value.(entryId := CURRENT_HOST_ENTRY_ID), mime, bytes.value))
  }

  predicate CompatibleName(available: seq<string>, mime: string) {
    mime in available || (IsTextPlain(mime) && (TEXT_UTF8 in available || TEXT_PLAIN in available))
  }

  function PickerCandidates(c: Config, history: HistoryState, announced: Option<HostSelection>, current: Option<Entry>,
                            mime: string, now: nat): seq<Candidate>
  {
    var past := CandidatesExcluding(history.entries, mime, None, c.html);
    var host := HostOffer(c, current, mime, past);
    if host.Some? then [host.value] + Without(past, CURRENT_HOST_ENTRY_ID)
    else if announced.Some? && announced.value.offered && CompatibleName(announced.value.allowedMimes, mime) then
      [Candidate(CURRENT_HOST_ENTRY_ID, HostRealm, None, mime, now, None)] + Without(past, CURRENT_HOST_ENTRY_ID)
    else past
  }

  /** What is offered when an application asks for a selection that was only announced. */
  function DiscoveryCandidates(c: Config, bridge: Option<BridgeSelection>, history: HistoryState, current: Option<Entry>,
                               data: Data, mime: string, now: nat): seq<Candidate>
  {
    var bytes := CompatiblePayload(data, mime, c.html);
    var own :=
      if bytes.None? then []
      else if bridge.Some? then
        var b := bridge.value;
        [Candidate(CURRENT_BRIDGE_ENTRY_ID, RealmKindOf(b.identity), Some(b.identity.canonicalTarget), mime, b.timestamp,
                   Some(|bytes.value|))]
      else [Candidate(PUBLISHED_ENTRY_ID, HostRealm, None, mime, now, Some(|bytes.value|))];
    var past :=
      if bridge.Some? then
        NotFrom(CandidatesExcluding(history.entries, mime, Some(bridge.value.entryId), c.html),
                bridge.value.identity.canonicalTarget)
      else CandidatesExcluding(history.entries, mime, None, c.html);
    var host := HostOffer(c, current, mime, own + past);
    if host.Some? then [host.value] + (own + past) else own + past
  }

  function BridgeCandidates(c: Config, history: HistoryState, b: BridgeSelection, bytes: Bytes, mime: string, now: nat)
    : seq<Candidate>
  {
    [Candidate(CURRENT_BRIDGE_ENTRY_ID, RealmKindOf(b.identity), Some(b.identity.canonicalTarget), mime, now, Some(|bytes|))] +
    NotFrom(CandidatesExcluding(history.entries, mime, Some(b.entryId), c.html), b.identity.canonicalTarget)
  }

  // ----- Opening a picker -----

  function ArmNative(d: State, window: Window, now: nat): State {
    var captured := if d.fallback.Idle? then Fallback.Next(d.fallback, Fallback.Capture(window)) else d.fallback;
    d.(fallback := Fallback.Next(captured, Fallback.Arm(CURRENT_HOST_ENTRY_ID, now, PICKER_TIMEOUT)))
  }

  function PickerGone(d: State, now: nat): State {
    d.(fallback := Fallback.Next(d.fallback, Fallback.CancelPicker), pickers := Picker.Cancel(d.pickers, now))
  }

  function OpenPicker(c: Config, d: State, window: Window, mime: string, candidates: seq<Candidate>, attempt: Attempt, now: nat)
    : State
  {
    if !c.configured || d.pickers.active.Some? then ArmNative(d, window, now)
    else
      var pickers := Picker.Launch(d.pickers, "paste-" + Decimal(now), c.configured, attempt.spawns, now, PICKER_TIMEOUT);
      var tried := d.(fallback := Fallback.Next(d.fallback, Fallback.Capture(window)), pickers := pickers);
      if !attempt.spawns then
        ArmNative(tried.(fallback := Fallback.Next(tried.fallback, Fallback.CancelPicker)), window, now)
      else if !attempt.handshake then ArmNative(PickerGone(tried, now), window, now)
      else tried.(log := d.log + [Offered(mime, candidates)])
  }

  function OnArm(c: Config, d: State, window: Window, attempt: Attempt, now: nat): State {
    var pickers := Picker.Launch(d.pickers, "arm-" + Decimal(now), c.configured, attempt.spawns, now, PICKER_TIMEOUT);
    var tried := d.(fallback := Fallback.Next(d.fallback, Fallback.Capture(window)), pickers := pickers);
    if !Picker.TryLaunch(d.pickers, c.configured, attempt.spawns).Launched? then
      tried.(fallback := Fallback.Next(tried.fallback, Fallback.CancelPicker))
    else if !attempt.handshake then PickerGone(tried, now)
    else tried.(log := d.log + [Offered(TEXT_PLAIN, PickerCandidates(c, d.history, d.hostSelection, None, TEXT_PLAIN, now))])
  }

  // ----- Publishing -----

  /**
    * A source can be made but not set as the selection before the data-control device exists. The device is bound once and
    * never lost. After that only the flush can fail.
    */
  function Publish(d: State, data: Data, mode: Mode, flushed: bool): State {
    if data == map[] then d
    else
      var id := d.sourceSeq + 1;
      if !d.deviceBound then d.(sourceSeq := id)
      else if !flushed then d.(sourceSeq := id, published := None)
      else d.(sourceSeq := id, published := Some(Published(id, data, mode, true)))
  }

  /** The data an entry id stands for. */
  function EntryData(bridge: Option<BridgeSelection>, current: Option<Entry>, history: HistoryState, entryId: string)
    : Option<Data>
  {
    if entryId == CURRENT_HOST_ENTRY_ID then
      if current.Some? && current.value.data != map[] then Some(current.value.data) else None
    else if entryId == CURRENT_BRIDGE_ENTRY_ID then
      if bridge.Some? && bridge.value.data != map[] then Some(bridge.value.data) else None
    else DataFor(history, entryId)
  }

  function SelectedData(d: State, entryId: string): Option<Data> {
    EntryData(d.bridge, d.currentHost, d.history, entryId)
  }

  function OnSelect(d: State, entryId: string, flushed: bool, now: nat): State {
    var data := SelectedData(d, entryId);
    var ok := data.Some? && data.value != map[] && d.deviceBound && flushed;
    var published := if data.Some? then Publish(d, data.value, Selected, flushed) else d;
    var done := PickerGone(published, now);
    done.(log := d.log + [Picked(entryId, if ok then data else None)])
  }

  // ----- Copies from endpoints -----

  function Remove<T>(s: seq<T>, i: nat): seq<T>
    requires i < |s|
  {
    s[..i] + s[i + 1..]
  }

  function OnCopyRequest(d: State, reader: CopyReader, permit: bool, spawned: bool): State {
    if !IsMimeAllowed(reader.mime) then d
    else if !permit then
      d.(copyQueue := d.copyQueue + [CopyReady(reader.identity, reader.mime, reader.sourceId, None)])
    else if spawned then d.(copyReaders := d.copyReaders + [reader])
    else d
  }

  function OnCopyRead(d: State, index: nat, steps: seq<ReadStep>): State {
    var result := Read([], steps, MATERIALIZE_MAX_BYTES);
    if index >= |d.copyReaders| || result.Pending? then d
    else
      var r := d.copyReaders[index];
      var bytes := if result.Complete? then Some(result.bytes) else None;
      d.(copyReaders := Remove(d.copyReaders, index),
         copyQueue := d.copyQueue + [CopyReady(r.identity, r.mime, r.sourceId, bytes)],
         received := d.received + if result.Complete? then {(r.mime, result.bytes)} else {})
  }

  /** The selection after one more type of it has arrived. */
  function Extended(bridge: Option<BridgeSelection>, ready: CopyReady, bytes: Bytes, now: nat): BridgeSelection {
    var base :=
      if bridge.Some? && bridge.value.identity == ready.identity && bridge.value.sourceId == ready.sourceId then bridge.value
      else BridgeSelection(ready.identity, ready.sourceId, 0, BridgeId(ready.identity.canonicalTarget, ready.sourceId), now,
                           true, map[]);
    base.(suppressEcho := true, data := base.data[ready.mime := bytes])
  }

  function RowOf(b: BridgeSelection): Entry {
    Entry(b.entryId, RealmKindOf(b.identity), Some(b.identity.canonicalTarget), b.data, b.timestamp)
  }

  function OnCopyArrived(d: State, flushed: bool, now: nat): State {
    if d.copyQueue == [] then d
    else
      var ready := d.copyQueue[0];
      var rest := d.(copyQueue := d.copyQueue[1..]);
      if ready.result.None? then rest
      else
        var b := Extended(d.bridge, ready, ready.result.value, now);
        var recorded := rest.(
          currentHost := None,
          history := Upserted(d.history, RowOf(b)),
          changes := d.changes + [Upsert(ready.identity.canonicalTarget, ready.sourceId, RowOf(b))]);
        var after := Publish(recorded, b.data, Discovery, flushed);
        after.(bridge := Some(if d.deviceBound then b.(dataControlId := after.sourceSeq) else b))
  }

  // ----- Pastes to endpoints -----

  function RequestId(identity: Identity, sourceId: nat): string {
    "bridge-" + identity.canonicalTarget + "-" + Decimal(sourceId)
  }

  function PasteAudit(identity: Identity, mime: string, sourceId: nat, decision: Audit.Decision): Audit.AuditEvent {
    Audit.AuditEvent(RequestId(identity, sourceId), "host", identity.canonicalTarget, mime, decision)
  }

  /** Enqueue an audit event; when that succeeds, or the request was denied anyway, the queue is flushed. */
  function Audited(d: State, event: Audit.AuditEvent): State {
    var ok := Audit.HasRoom(d.audit, AUDIT_QUOTA, event.sourceRealm);
    var queued := Audit.Enqueue(d.audit, AUDIT_QUOTA, event);
    d.(audit := if ok || event.decision.Deny? then Audit.Emptied(queued) else queued,
       log := if ok then d.log + [Accepted(event)] else d.log)
  }

  /** The focused window, or one made up for the endpoint. */
  function PasteWindow(identity: Identity, focused: Option<Window>): Window {
    if focused.Some? then focused.value
    else Fallback.NO_WINDOW.(appId := Some("d2b." + identity.canonicalTarget), title := Some(SourceApp(identity)))
  }

  /** The payload is handed to a helper thread, or the descriptor is dropped unwritten. */
  predicate Writes(writer: Writer) {
    writer.permit && writer.spawned
  }

  function OnPaste(c: Config, d: State, identity: Identity, mime: string, sourceId: nat, focused: Option<Window>,
                   writer: Writer, attempt: Attempt, now: nat): State
  {
    var allowed := IsMimeAllowed(mime);
    var event := PasteAudit(identity, mime, sourceId, if allowed then Audit.Allow else Audit.Deny);
    var audited := Audited(d, event);
    if !allowed || !Audit.HasRoom(d.audit, AUDIT_QUOTA, event.sourceRealm) then audited
    else
      var window := PasteWindow(identity, focused);
      var selected := d.published.Some? && d.published.value.mode.Selected?;
      var taken := if selected then audited.(published := None) else audited;
      if selected && CompatiblePayload(d.published.value.data, mime, c.html).Some? then
        var bytes := CompatiblePayload(d.published.value.data, mime, c.html).value;
        taken.(log := if Writes(writer) then taken.log + [Pasted(event.requestId, mime, bytes)] else taken.log)
      else
        OpenPicker(c, taken, window, mime, PickerCandidates(c, d.history, d.hostSelection, d.currentHost, mime, now), attempt, now)
  }

  // ----- The host compositor -----

  /** The announcement is of something the daemon or a forwarded window put there, or of nobody. */
  predicate IsEcho(bridge: Option<BridgeSelection>, published: Option<Published>, focused: Option<Window>) {
    || focused.None?
    || IsForwarded(focused.value.appId)
    || MatchesSource(focused.value, bridge)
    || (published.Some? && published.value.suppressEcho)
  }

  function AllowedOf(mimes: seq<string>): seq<string> {
    if mimes == [] then []
    else (if IsMimeAllowed(mimes[0]) then [mimes[0]] else []) + AllowedOf(mimes[1..])
  }

  /** The types for which a pipe could be made. */
  function OpenedOf(mimes: seq<string>, pipes: seq<bool>): seq<string> {
    if mimes == [] || pipes == [] then []
    else (if pipes[0] then [mimes[0]] else []) + OpenedOf(mimes[1..], pipes[1..])
  }

  function OnSelectionChanged(d: State, focused: Option<Window>, mimes: seq<string>, live: bool, pipes: seq<bool>,
                              permit: bool, spawned: bool, now: nat): State
  {
    if IsEcho(d.bridge, d.published, focused) then d.(hostSelection := None)
    else
      var allowed := AllowedOf(mimes);
      var offered := live && allowed != [];
      var targets := OpenedOf(allowed, pipes);
      var reader := HostReader(Entry("", HostRealm, None, map[], now), targets);
      d.(bridge := None, published := None, currentHost := None,
         hostReaders := if offered && targets != [] && permit && spawned then d.hostReaders + [reader] else d.hostReaders,
         fallback := Fallback.Next(d.fallback, Fallback.NativeSelection),
         hostSelection := Some(HostSelection(offered, allowed)))
  }

  /** What is read of the given types, one script each; `None` while some read is still going on. */
  function ReadAll(mimes: seq<string>, scripts: seq<seq<ReadStep>>, data: Data): Option<Data>
    decreases |mimes|
  {
    if mimes == [] then Some(data)
    else if scripts == [] then None
    else match Read([], scripts[0], MATERIALIZE_MAX_BYTES)
      case Pending => None
      case Complete(bytes) => ReadAll(mimes[1..], scripts[1..], data[mimes[0] := bytes])
      case _ => ReadAll(mimes[1..], scripts[1..], data)
  }

  function Items(data: Data): set<(string, Bytes)> {
    set m | m in data :: (m, data[m])
  }

  function OnHostRead(d: State, index: nat, scripts: seq<seq<ReadStep>>): State {
    if index >= |d.hostReaders| then d
    else
      var r := d.hostReaders[index];
      match ReadAll(r.mimes, scripts, map[])
      case None => d
      case Some(data) =>
        d.(hostReaders := Remove(d.hostReaders, index),
           hostQueue := if data == map[] then d.hostQueue else d.hostQueue + [r.entry.(data := data)],
           received := d.received + Items(data))
  }

  function OnHostArrived(d: State): State {
    if d.hostQueue == [] then d
    else
      var entry := d.hostQueue[0];
      d.(hostQueue := d.hostQueue[1..],
         currentHost := if entry.realmKind.HostRealm? then Some(entry.(entryId := CURRENT_HOST_ENTRY_ID)) else d.currentHost,
         history := Pushed(d.history, entry),
         changes := d.changes + [Push(entry)])
  }

  function OnSourceSend(c: Config, d: State, id: nat, mime: string, focused: Option<Window>,
                        writer: Writer, attempt: Attempt, now: nat): State {
    var window := OrDefault(focused);
    if d.published.Some? && d.published.value.dataControlId == id then
      var p := d.published.value;
      if p.mode.Selected? then
        var bytes := CompatiblePayload(p.data, mime, c.html);
        if bytes.Some? && Writes(writer) then d.(log := d.log + [Sent(mime, bytes.value)]) else d
      else if MatchesSource(window, d.bridge) then d
      else OpenPicker(c, d, window, mime,
             DiscoveryCandidates(c, d.bridge, d.history, d.currentHost, p.data, mime, now), attempt, now)
    else if d.bridge.Some? && d.bridge.value.dataControlId == id then
      var b := d.bridge.value;
      var bytes := CompatiblePayload(b.data, mime, c.html);
      if bytes.None? || MatchesSource(window, d.bridge) then d
      else OpenPicker(c, d, window, mime, BridgeCandidates(c, d.history, b, bytes.value, mime, now), attempt, now)
    else d
  }

  function OnSourceCancelled(d: State, id: nat): State {
    var p := d.published.Some? && d.published.value.dataControlId == id;
    var b := d.bridge.Some? && d.bridge.value.dataControlId == id;
    d.(published := if p then None else d.published,
       bridge := if b then None else d.bridge,
       hostSelection := if p || b then None else d.hostSelection)
  }

  function OnTick(d: State, now: nat, exits: Picker.Exits): State {
    var expired := d.pickers.active.Some? && now >= d.pickers.active.value.deadline;
    var cancelled := if expired then Fallback.Next(d.fallback, Fallback.CancelPicker) else d.fallback;
    d.(pickers := Picker.Reap(Picker.Expire(d.pickers, now), now, exits),
       fallback := Fallback.Next(cancelled, Fallback.Tick(now)))
  }

  // ----- Runs -----

  function Step(c: Config, d: State, e: Event): State {
    match e
    case CopyRequest(identity, mime, sourceId, permit, spawned) =>
      OnCopyRequest(d, CopyReader(identity, mime, sourceId), permit, spawned)
    case CopyRead(index, steps) => OnCopyRead(d, index, steps)
    case CopyArrived(flushed, now) => OnCopyArrived(d, flushed, now)
    case PasteRequest(identity, mime, sourceId, focused, writer, attempt, now) =>
      OnPaste(c, d, identity, mime, sourceId, focused, writer, attempt, now)
    case SelectionChanged(focused, mimes, live, pipes, permit, spawned, now) =>
      OnSelectionChanged(d, focused, mimes, live, pipes, permit, spawned, now)
    case SelectionCleared => d.(hostSelection := None)
    case DeviceBound => d.(deviceBound := true)
    case HostRead(index, scripts) => OnHostRead(d, index, scripts)
    case HostArrived => OnHostArrived(d)
    case SourceSend(id, mime, focused, writer, attempt, now) => OnSourceSend(c, d, id, mime, focused, writer, attempt, now)
    case SourceCancelled(id) => OnSourceCancelled(d, id)
    case Select(entryId, flushed, now) => OnSelect(d, entryId, flushed, now)
    case PickerLeft(now) => PickerGone(d, now)
    case ArmCommand(focused, attempt, now) => OnArm(c, d, OrDefault(focused), attempt, now)
    case FocusChanged(focused) => d.(fallback := Fallback.Next(d.fallback, Fallback.Focus(focused)))
    case Tick(now, exits) => OnTick(d, now, exits)
  }

  function Run(c: Config, events: seq<Event>): State {
    if events == [] then INITIAL else Step(c, Run(c, events[..|events| - 1]), events[|events| - 1])
  }
}
