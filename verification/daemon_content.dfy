/** Where the content the clipboard daemon holds comes from. */
module DaemonContent {
  import opened Options
  import opened Policy
  import opened ClipHistory
  import opened Daemon
  import opened DaemonLog
  import opened Materialize
  import Audit
  import Picker

  ghost predicate From(received: set<(string, Bytes)>, data: Data) {
    forall m :: m in data ==> (m, data[m]) in received
  }

  ghost predicate EntriesFrom(received: set<(string, Bytes)>, entries: seq<Entry>) {
    forall i :: 0 <= i < |entries| ==> From(received, entries[i].data)
  }

  ghost predicate CopiesFrom(received: set<(string, Bytes)>, queue: seq<CopyReady>) {
    forall i :: 0 <= i < |queue| ==> queue[i].result.Some? ==> (queue[i].mime, queue[i].result.value) in received
  }

  ghost predicate LogFrom(received: set<(string, Bytes)>, log: seq<Act>) {
    forall i :: 0 <= i < |log| ==> log[i].Picked? && log[i].published.Some? ==> From(received, log[i].published.value)
  }

  /** Every piece of content held anywhere was read, under the name it is held under. */
  ghost predicate AllFrom(d: State) {
    && (d.bridge.Some? ==> From(d.received, d.bridge.value.data))
    && (d.published.Some? ==> From(d.received, d.published.value.data))
    && (d.currentHost.Some? ==> From(d.received, d.currentHost.value.data))
    && EntriesFrom(d.received, d.history.entries)
    && EntriesFrom(d.received, d.hostQueue)
    && CopiesFrom(d.received, d.copyQueue)
    && LogFrom(d.received, d.log)
  }

  ghost predicate AllAllowed(mimes: seq<string>) {
    forall i :: 0 <= i < |mimes| ==> IsMimeAllowed(mimes[i])
  }

  /** Only allowed types are ever read, and never more than the cap. */
  ghost predicate OnlyAllowed(received: set<(string, Bytes)>, copies: seq<CopyReader>, hosts: seq<HostReader>) {
    && (forall p :: p in received ==> IsMimeAllowed(p.0) && |p.1| <= MATERIALIZE_MAX_BYTES)
    && (forall i :: 0 <= i < |copies| ==> IsMimeAllowed(copies[i].mime))
    && (forall i :: 0 <= i < |hosts| ==> AllAllowed(hosts[i].mimes))
  }

  ghost predicate ContentInv(d: State) {
    AllFrom(d) && OnlyAllowed(d.received, d.copyReaders, d.hostReaders)
  }

  lemma Grow(d: State, more: set<(string, Bytes)>)
    requires AllFrom(d)
    ensures AllFrom(d.(received := d.received + more))
  {
    assert forall i :: 0 <= i < |d.log| ==>
        (d.log[i].Picked? && d.log[i].published.Some? ==> From(d.received, d.log[i].published.value));
  }

  lemma ReadWithinCap(steps: seq<ReadStep>)
    ensures var r := Read([], steps, MATERIALIZE_MAX_BYTES); r.Complete? ==> |r.bytes| <= MATERIALIZE_MAX_BYTES
  {
    var r := Read([], steps, MATERIALIZE_MAX_BYTES);
    if r.Complete? {
      CompleteIff([], steps, MATERIALIZE_MAX_BYTES, r.bytes);
    }
  }

  lemma CopyReadKeepsContent(d: State, index: nat, steps: seq<ReadStep>)
    requires ContentInv(d)
    ensures ContentInv(OnCopyRead(d, index, steps))
  {
    hide Read, IsMimeAllowed, From, EntriesFrom, LogFrom;
    var result := Read([], steps, MATERIALIZE_MAX_BYTES);
    ReadWithinCap(steps);
    if index < |d.copyReaders| && !result.Pending? {
      var r := d.copyReaders[index];
      Grow(d, if result.Complete? then {(r.mime, result.bytes)} else {});
    }
  }

  lemma {:induction false} ReadAllIsClean(mimes: seq<string>, scripts: seq<seq<ReadStep>>, data: Data)
    requires AllAllowed(mimes) && Clean(data)
    ensures var r := ReadAll(mimes, scripts, data); r.Some? ==> Clean(r.value)
    decreases |mimes|
  {
    hide Read, IsMimeAllowed;
    if mimes != [] && scripts != [] {
      ReadWithinCap(scripts[0]);
      match Read([], scripts[0], MATERIALIZE_MAX_BYTES)
      case Pending =>
      case Complete(bytes) => ReadAllIsClean(mimes[1..], scripts[1..], data[mimes[0] := bytes]);
      case _ => ReadAllIsClean(mimes[1..], scripts[1..], data);
    }
  }

  lemma HostReadKeepsContent(d: State, index: nat, scripts: seq<seq<ReadStep>>)
    requires ContentInv(d)
    ensures ContentInv(OnHostRead(d, index, scripts))
  {
    hide ReadAll, IsMimeAllowed, LogFrom, CopiesFrom, AllAllowed;
    if index < |d.hostReaders| {
      var r := d.hostReaders[index];
      ReadAllIsClean(r.mimes, scripts, map[]);
      var data := ReadAll(r.mimes, scripts, map[]);
      if data.Some? {
        Grow(d, Items(data.value));
        assert From(d.received + Items(data.value), data.value);
      }
    }
  }

  lemma {:induction false} AllowedOfIsAllowed(mimes: seq<string>, pipes: seq<bool>)
    ensures AllAllowed(AllowedOf(mimes)) && AllAllowed(OpenedOf(AllowedOf(mimes), pipes))
  {
    AllowedOnly(mimes);
    OpenedOnly(AllowedOf(mimes), pipes);
  }

  lemma {:induction false} AllowedOnly(mimes: seq<string>)
    ensures AllAllowed(AllowedOf(mimes))
  {
    hide IsMimeAllowed;
    if mimes != [] {
      AllowedOnly(mimes[1..]);
    }
  }

  lemma {:induction false} OpenedOnly(mimes: seq<string>, pipes: seq<bool>)
    requires AllAllowed(mimes)
    ensures AllAllowed(OpenedOf(mimes, pipes))
    decreases |mimes|
  {
    hide IsMimeAllowed;
    if mimes != [] && pipes != [] {
      OpenedOnly(mimes[1..], pipes[1..]);
    }
  }

  lemma UpsertFrom(received: set<(string, Bytes)>, h: HistoryState, entry: Entry)
    requires EntriesFrom(received, h.entries) && From(received, entry.data)
    ensures EntriesFrom(received, Upserted(h, entry).entries) && EntriesFrom(received, Pushed(h, entry).entries)
  {
    hide From, HistoryId, ClipHistory.Without;
    var k := WithoutAt(h.entries, entry.entryId);
    var rest := ClipHistory.Without(h.entries, entry.entryId);
    assert forall i :: 0 <= i < |rest| ==> rest[i] == h.entries[if i < k then i else i + 1];
  }

  lemma CopyArrivedKeepsContent(d: State, flushed: bool, now: nat)
    requires ContentInv(d)
    ensures ContentInv(OnCopyArrived(d, flushed, now))
  {
    hide IsMimeAllowed, LogFrom, BridgeId, Upserted, EntriesFrom;
    if d.copyQueue != [] && d.copyQueue[0].result.Some? {
      var b := Extended(d.bridge, d.copyQueue[0], d.copyQueue[0].result.value, now);
      NothingFrom(d.received);
      assert From(d.received, b.data);
      UpsertFrom(d.received, d.history, RowOf(b));
    }
  }

  lemma NothingFrom(received: set<(string, Bytes)>)
    ensures From(received, map[])
  {
  }

  lemma {:induction false} DataInFrom(received: set<(string, Bytes)>, entries: seq<Entry>, id: string)
    requires EntriesFrom(received, entries)
    ensures DataIn(entries, id).Some? ==> From(received, DataIn(entries, id).value)
    decreases |entries|
  {
    hide From;
    if entries != [] {
      DataInFrom(received, entries[1..], id);
    }
  }

  lemma LogFromPick(received: set<(string, Bytes)>, log: seq<Act>, entryId: string, data: Option<Data>)
    requires LogFrom(received, log) && (data.Some? ==> From(received, data.value))
    ensures LogFrom(received, log + [Picked(entryId, data)])
  {
    hide From;
  }

  lemma SelectKeepsContent(d: State, entryId: string, flushed: bool, now: nat)
    requires ContentInv(d)
    ensures ContentInv(OnSelect(d, entryId, flushed, now))
  {
    hide From, EntriesFrom, CopiesFrom, LogFrom, DataIn, OnlyAllowed;
    DataInFrom(d.received, d.history.entries, entryId);
    var data := SelectedData(d, entryId);
    assert data.Some? ==> From(d.received, data.value);
    LogFromPick(d.received, d.log, entryId, data);
    LogFromPick(d.received, d.log, entryId, None);
  }

  lemma HostArrivedKeepsContent(d: State)
    requires ContentInv(d)
    ensures ContentInv(OnHostArrived(d))
  {
    hide From, LogFrom, CopiesFrom, OnlyAllowed, Pushed;
    if d.hostQueue != [] {
      UpsertFrom(d.received, d.history, d.hostQueue[0]);
    }
  }

  /** A step that only adds acts other than published picks keeps the provenance of the log. */
  lemma LogFromMore(received: set<(string, Bytes)>, log: seq<Act>, act: Act)
    requires LogFrom(received, log) && !act.Picked?
    ensures LogFrom(received, log + [act])
  {
    hide From;
  }

  lemma PasteKeepsContent(c: Config, d: State, identity: Identity, mime: string, sourceId: nat, focused: Option<Window>,
                          writer: Writer, attempt: Attempt, now: nat)
    requires ContentInv(d)
    ensures ContentInv(OnPaste(c, d, identity, mime, sourceId, focused, writer, attempt, now))
  {
    hide LogFrom, From, EntriesFrom, CopiesFrom, OnlyAllowed, OpenPicker, CompatiblePayload, PickerCandidates, IsMimeAllowed,
         RequestId, PasteWindow;
    var event := PasteAudit(identity, mime, sourceId, if IsMimeAllowed(mime) then Audit.Allow else Audit.Deny);
    var audited := Audited(d, event);
    LogFromMore(d.received, d.log, Accepted(event));
    var taken := if IsSelected(d) then audited.(published := None) else audited;
    var candidates := PickerCandidates(c, d.history, d.hostSelection, d.currentHost, mime, now);
    var window := PasteWindow(identity, focused);
    OpenPickerFrame(c, taken, window, mime, candidates, attempt, now);
    LogFromMore(d.received, taken.log, Offered(mime, candidates));
    if IsSelected(d) {
      var bytes := CompatiblePayload(d.published.value.data, mime, c.html);
      if bytes.Some? {
        LogFromMore(d.received, taken.log, Pasted(event.requestId, mime, bytes.value));
      }
    }
  }

  lemma SendKeepsContent(c: Config, d: State, id: nat, mime: string, focused: Option<Window>,
                         writer: Writer, attempt: Attempt, now: nat)
    requires ContentInv(d)
    ensures ContentInv(OnSourceSend(c, d, id, mime, focused, writer, attempt, now))
  {
    hide LogFrom, From, EntriesFrom, CopiesFrom, OnlyAllowed, OpenPicker, CompatiblePayload, DiscoveryCandidates,
         BridgeCandidates, MatchesSource;
    var window := OrDefault(focused);
    if d.published.Some? && d.published.value.dataControlId == id {
      var p := d.published.value;
      var bytes := CompatiblePayload(p.data, mime, c.html);
      if p.mode.Selected? {
        if bytes.Some? {
          LogFromMore(d.received, d.log, Sent(mime, bytes.value));
        }
      } else {
        var candidates := DiscoveryCandidates(c, d.bridge, d.history, d.currentHost, p.data, mime, now);
        OpenPickerFrame(c, d, window, mime, candidates, attempt, now);
        LogFromMore(d.received, d.log, Offered(mime, candidates));
      }
    } else if d.bridge.Some? && d.bridge.value.dataControlId == id {
      var bytes := CompatiblePayload(d.bridge.value.data, mime, c.html);
      if bytes.Some? {
        var candidates := BridgeCandidates(c, d.history, d.bridge.value, bytes.value, mime, now);
        OpenPickerFrame(c, d, window, mime, candidates, attempt, now);
        LogFromMore(d.received, d.log, Offered(mime, candidates));
      }
    }
  }

  lemma SelectionChangedKeepsContent(d: State, focused: Option<Window>, mimes: seq<string>, live: bool, pipes: seq<bool>,
                                     permit: bool, spawned: bool, now: nat)
    requires ContentInv(d)
    ensures ContentInv(OnSelectionChanged(d, focused, mimes, live, pipes, permit, spawned, now))
  {
    hide IsEcho, AllAllowed, IsMimeAllowed, EntriesFrom, CopiesFrom, LogFrom, From;
    AllowedOfIsAllowed(mimes, pipes);
  }

  lemma CopyRequestKeepsContent(d: State, reader: CopyReader, permit: bool, spawned: bool)
    requires ContentInv(d)
    ensures ContentInv(OnCopyRequest(d, reader, permit, spawned))
  {
    hide IsMimeAllowed, AllAllowed, EntriesFrom, LogFrom, From;
  }

  lemma StepKeepsContent(c: Config, d: State, e: Event)
    requires ContentInv(d)
    ensures ContentInv(Step(c, d, e))
  {
    hide From, EntriesFrom, CopiesFrom, LogFrom, OnlyAllowed, OnPaste, OnSourceSend, OnSelect, OnCopyArrived, OnHostRead,
         OnHostArrived, OnCopyRead, OnSelectionChanged, OnCopyRequest, Picker.Reap, PickerCandidates;
    match e
    case CopyRequest(identity, mime, sourceId, permit, spawned) =>
      CopyRequestKeepsContent(d, CopyReader(identity, mime, sourceId), permit, spawned);
    case CopyRead(index, steps) => CopyReadKeepsContent(d, index, steps);
    case CopyArrived(flushed, now) => CopyArrivedKeepsContent(d, flushed, now);
    case PasteRequest(identity, mime, sourceId, focused, writer, attempt, now) =>
      PasteKeepsContent(c, d, identity, mime, sourceId, focused, writer, attempt, now);
    case SelectionChanged(focused, mimes, live, pipes, permit, spawned, now) =>
      SelectionChangedKeepsContent(d, focused, mimes, live, pipes, permit, spawned, now);
    case HostRead(index, scripts) => HostReadKeepsContent(d, index, scripts);
    case HostArrived => HostArrivedKeepsContent(d);
    case SourceSend(id, mime, focused, writer, attempt, now) => SendKeepsContent(c, d, id, mime, focused, writer, attempt, now);
    case Select(entryId, flushed, now) => SelectKeepsContent(d, entryId, flushed, now);
    case ArmCommand(focused, attempt, now) =>
      LogFromMore(d.received, d.log, Offered(TEXT_PLAIN, PickerCandidates(c, d.history, d.hostSelection, None, TEXT_PLAIN, now)));
    case _ =>
  }
}
