/** What the clipboard daemon offers in a picker can be picked. */
module DaemonOffers {
  import opened Options
  import opened Policy
  import opened ClipHistory
  import opened Daemon
  import opened DaemonLog
  import opened DaemonRuns
  import opened DaemonState
  import Audit
  import DaemonContent
  import Picker

  /**
    * A candidate with a size stands for data that serves the type with that many bytes. Only the host's own selection,
    * which has not been read yet, has no size.
    */
  ghost predicate Resolves(c: Config, d: State, candidate: Candidate, mime: string) {
    && candidate.contentType == mime
    && (candidate.byteCount.None? ==> candidate.entryId == CURRENT_HOST_ENTRY_ID)
    && (candidate.byteCount.Some? ==>
          && SelectedData(d, candidate.entryId).Some?
          && var bytes := CompatiblePayload(SelectedData(d, candidate.entryId).value, mime, c.html);
             bytes.Some? && |bytes.value| == candidate.byteCount.value)
  }

  ghost predicate AllResolve(c: Config, d: State, candidates: seq<Candidate>, mime: string) {
    forall k :: 0 <= k < |candidates| ==> Resolves(c, d, candidates[k], mime)
  }

  lemma IssuedIsNotCurrent(id: string, nextId: nat)
    requires Issued(id, nextId)
    ensures id != CURRENT_HOST_ENTRY_ID && id != CURRENT_BRIDGE_ENTRY_ID
  {
    hide HistoryId, BridgeId;
    if IsBridgeId(id) {
      BridgeIdNotEmpty(id);
    } else {
      var n: nat :| 0 < n <= nextId && id == HistoryId(n);
      IdsAreDisjoint("", 0, n);
    }
  }

  lemma PastResolves(c: Config, d: State, mime: string, excluded: Option<string>)
    requires Coherent(d.history)
    ensures AllResolve(c, d, CandidatesExcluding(d.history.entries, mime, excluded, c.html), mime)
  {
    hide CompatiblePayload, Issued, DataIn;
    var past := CandidatesExcluding(d.history.entries, mime, excluded, c.html);
    forall k | 0 <= k < |past| ensures Resolves(c, d, past[k], mime) {
      CandidatesResolve(d.history, mime, excluded, c.html, k);
      var i := CandidateComesFromEntry(d.history.entries, mime, excluded, c.html, k);
      IssuedIsNotCurrent(d.history.entries[i].entryId, d.history.nextId);
    }
  }

  lemma {:induction false} FewerResolve(c: Config, d: State, candidates: seq<Candidate>, mime: string, text: string)
    requires AllResolve(c, d, candidates, mime)
    ensures AllResolve(c, d, Daemon.Without(candidates, text), mime) && AllResolve(c, d, NotFrom(candidates, text), mime)
    decreases |candidates|
  {
    hide Resolves;
    if candidates != [] {
      FewerResolve(c, d, candidates[1..], mime, text);
    }
  }

  lemma OneMore(c: Config, d: State, candidate: Candidate, others: seq<Candidate>, mime: string)
    requires Resolves(c, d, candidate, mime) && AllResolve(c, d, others, mime)
    ensures AllResolve(c, d, [candidate] + others, mime)
  {
    hide Resolves;
  }

  lemma HostResolves(c: Config, d: State, current: Option<Entry>, mime: string, others: seq<Candidate>)
    requires current.None? || current == d.currentHost
    ensures var host := HostOffer(c, current, mime, others); host.Some? ==> Resolves(c, d, host.value, mime)
  {
  }

  lemma PickerCandidatesResolve(c: Config, d: State, current: Option<Entry>, mime: string, now: nat)
    requires Coherent(d.history) && (current.None? || current == d.currentHost)
    ensures AllResolve(c, d, PickerCandidates(c, d.history, d.hostSelection, current, mime, now), mime)
  {
    hide Coherent, CandidatesExcluding, AllResolve, HostOffer, Daemon.Without, CompatibleName;
    var past := CandidatesExcluding(d.history.entries, mime, None, c.html);
    PastResolves(c, d, mime, None);
    FewerResolve(c, d, past, mime, CURRENT_HOST_ENTRY_ID);
    HostResolves(c, d, current, mime, past);
    var fewer := Daemon.Without(past, CURRENT_HOST_ENTRY_ID);
    if HostOffer(c, current, mime, past).Some? {
      OneMore(c, d, HostOffer(c, current, mime, past).value, fewer, mime);
    } else {
      OneMore(c, d, Candidate(CURRENT_HOST_ENTRY_ID, HostRealm, None, mime, now, None), fewer, mime);
    }
  }

  lemma DiscoveryCandidatesResolve(c: Config, d: State, data: Data, mime: string, now: nat)
    requires Coherent(d.history) && d.bridge.Some? && d.bridge.value.data == data
    ensures AllResolve(c, d, DiscoveryCandidates(c, d.bridge, d.history, d.currentHost, data, mime, now), mime)
  {
    hide Coherent, CandidatesExcluding, AllResolve, HostOffer, NotFrom, BridgeId;
    var b := d.bridge.value;
    var past := CandidatesExcluding(d.history.entries, mime, Some(b.entryId), c.html);
    PastResolves(c, d, mime, Some(b.entryId));
    FewerResolve(c, d, past, mime, b.identity.canonicalTarget);
    var others := NotFrom(past, b.identity.canonicalTarget);
    var bytes := CompatiblePayload(data, mime, c.html);
    var own := if bytes.None? then []
               else [Candidate(CURRENT_BRIDGE_ENTRY_ID, RealmKindOf(b.identity), Some(b.identity.canonicalTarget), mime,
                               b.timestamp, Some(|bytes.value|))];
    if bytes.Some? {
      OneMore(c, d, own[0], others, mime);
    } else {
      assert own + others == others;
    }
    HostResolves(c, d, d.currentHost, mime, own + others);
    var host := HostOffer(c, d.currentHost, mime, own + others);
    if host.Some? {
      OneMore(c, d, host.value, own + others, mime);
    }
  }

  lemma BridgeCandidatesResolve(c: Config, d: State, mime: string, now: nat)
    requires Coherent(d.history) && d.bridge.Some? && CompatiblePayload(d.bridge.value.data, mime, c.html).Some?
    ensures var bytes := CompatiblePayload(d.bridge.value.data, mime, c.html).value;
            AllResolve(c, d, BridgeCandidates(c, d.history, d.bridge.value, bytes, mime, now), mime)
  {
    hide Coherent, CandidatesExcluding, AllResolve, NotFrom, BridgeId;
    var b := d.bridge.value;
    var bytes := CompatiblePayload(b.data, mime, c.html).value;
    var past := CandidatesExcluding(d.history.entries, mime, Some(b.entryId), c.html);
    PastResolves(c, d, mime, Some(b.entryId));
    FewerResolve(c, d, past, mime, b.identity.canonicalTarget);
    var own := Candidate(CURRENT_BRIDGE_ENTRY_ID, RealmKindOf(b.identity), Some(b.identity.canonicalTarget), mime, now,
                         Some(|bytes|));
    OneMore(c, d, own,
            NotFrom(past, b.identity.canonicalTarget), mime);
  }

  // ----- Every run -----

  /** The last act of the step, if it was to open a picker with these candidates. */
  ghost predicate Offers(d: State, r: State, mime: string, candidates: seq<Candidate>) {
    |r.log| > |d.log| && r.log[|r.log| - 1] == Offered(mime, candidates)
  }

  lemma OpenPickerOffers(c: Config, d: State, window: Window, m: string, made: seq<Candidate>, attempt: Attempt, now: nat,
                         mime: string, candidates: seq<Candidate>)
    requires Offers(d, OpenPicker(c, d, window, m, made, attempt, now), mime, candidates)
    ensures mime == m && candidates == made
  {
  }

  /**
    * In every run with fewer than 2^64 host copies, every candidate a picker is opened with stands, at that moment, for data
    * that serves the requested type with the size it shows.
    */
  lemma OffersResolve(c: Config, events: seq<Event>, e: Event, mime: string, candidates: seq<Candidate>)
    ensures Pushes(Run(c, events).changes) <= U64_MAX &&
            Offers(Run(c, events), Step(c, Run(c, events), e), mime, candidates) ==>
              AllResolve(c, Run(c, events), candidates, mime)
  {
    hide Run, AllResolve, Coherent, OpenPicker, OnSourceSend, OnPaste, OnSelect, PickerCandidates, LogInv, DiscoveryInv,
         HistoryInv, DaemonContent.ContentInv, PickerInv, AuditInv;
    var d := Run(c, events);
    if Pushes(d.changes) <= U64_MAX && Offers(d, Step(c, d, e), mime, candidates) {
      HistoryIsCoherent(c, events);
      match e
      case PasteRequest(identity, m, sourceId, focused, writer, attempt, now) =>
        PasteOffers(c, d, identity, m, sourceId, focused, writer, attempt, now, mime, candidates);
      case SourceSend(id, m, focused, writer, attempt, now) =>
        EveryRun(c, events);
        SendOffers(c, d, id, m, focused, writer, attempt, now, mime, candidates);
      case ArmCommand(focused, attempt, now) =>
        PickerCandidatesResolve(c, d, None, TEXT_PLAIN, now);
      case Select(entryId, flushed, now) => SelectOffersNothing(d, entryId, flushed, now);
      case _ =>
        StepIsQuiet(c, d, e);
    }
  }

  lemma SelectOffersNothing(d: State, entryId: string, flushed: bool, now: nat)
    ensures var r := OnSelect(d, entryId, flushed, now); r.log != [] && r.log[|r.log| - 1].Picked?
  {
    hide SelectedData, Picker.Cancel;
  }

  lemma PasteOffers(c: Config, d: State, identity: Identity, m: string, sourceId: nat, focused: Option<Window>,
                    writer: Writer, attempt: Attempt, now: nat, mime: string, candidates: seq<Candidate>)
    requires Coherent(d.history)
    requires Offers(d, OnPaste(c, d, identity, m, sourceId, focused, writer, attempt, now), mime, candidates)
    ensures AllResolve(c, d, candidates, mime)
  {
    hide AllResolve, Coherent, OpenPicker, CompatiblePayload, PickerCandidates, IsMimeAllowed, RequestId, PasteWindow,
         Audit.HasRoom, Audit.Enqueue, Audit.Emptied;
    var event := PasteAudit(identity, m, sourceId, if IsMimeAllowed(m) then Audit.Allow else Audit.Deny);
    var taken := if IsSelected(d) then Audited(d, event).(published := None) else Audited(d, event);
    var made := PickerCandidates(c, d.history, d.hostSelection, d.currentHost, m, now);
    var window := PasteWindow(identity, focused);
    OpenPickerFrame(c, taken, window, m, made, attempt, now);
    PickerCandidatesResolve(c, d, d.currentHost, m, now);
  }

  lemma SendOffers(c: Config, d: State, id: nat, m: string, focused: Option<Window>, writer: Writer, attempt: Attempt, now: nat,
                   mime: string, candidates: seq<Candidate>)
    requires Coherent(d.history) && Discovers(d)
    requires Offers(d, OnSourceSend(c, d, id, m, focused, writer, attempt, now), mime, candidates)
    ensures AllResolve(c, d, candidates, mime)
  {
    hide AllResolve, Coherent, OpenPicker, CompatiblePayload, DiscoveryCandidates, BridgeCandidates, MatchesSource;
    var window := OrDefault(focused);
    if d.published.Some? && d.published.value.dataControlId == id {
      var p := d.published.value;
      if p.mode.Discovery? {
        OpenPickerOffers(c, d, window, m,
          DiscoveryCandidates(c, d.bridge, d.history, d.currentHost, p.data, m, now), attempt, now, mime, candidates);
        DiscoveryCandidatesResolve(c, d, p.data, m, now);
      }
    } else {
      var bytes := CompatiblePayload(d.bridge.value.data, m, c.html).value;
      OpenPickerOffers(c, d, window, m,
        BridgeCandidates(c, d.history, d.bridge.value, bytes, m, now), attempt, now, mime, candidates);
      BridgeCandidatesResolve(c, d, m, now);
    }
  }
}
