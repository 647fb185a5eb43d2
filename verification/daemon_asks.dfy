/** When the clipboard daemon asks the user, what it then offers, and when it arms a paste instead. */
module DaemonAsks {
  import opened Options
  import opened Policy
  import opened ClipHistory
  import opened Daemon
  import opened DaemonArrivals
  import opened DaemonLog
  import opened DaemonOffers
  import opened DaemonRuns
  import opened DaemonState
  import Audit
  import DaemonContent
  import Fallback
  import Materialize
  import Picker

  // ----- Asking -----

  /** A picker can be tried: one is configured and none is active. */
  ghost predicate CanTry(c: Config, d: State) {
    c.configured && d.pickers.active.None?
  }

  /** The picker really opens: it can be tried, its process starts and it answers. */
  ghost predicate Opens(c: Config, d: State, attempt: Attempt) {
    CanTry(c, d) && attempt.spawns && attempt.handshake
  }

  /**
    * What asking comes to. A picker that opens waits for the window with these candidates, for thirty seconds.
    * Otherwise the host's own selection is armed for the window, for thirty seconds. Only where no picker could
    * be tried does an earlier capture keep its window and an earlier arming stay as it is.
    */
  ghost predicate Asked(c: Config, d: State, before: seq<Act>, r: State, window: Window, mime: string,
                        candidates: seq<Candidate>, attempt: Attempt, now: nat)
  {
    if Opens(c, d, attempt) then
      && r.fallback == Fallback.PickerOpen(window)
      && r.pickers.active.Some? && r.pickers.active.value.deadline == now + 30_000
      && r.log == before + [Offered(mime, candidates)]
    else
      && r.log == before && r.pickers.active == d.pickers.active
      && r.fallback ==
         if CanTry(c, d) || d.fallback.Idle? then Fallback.Armed("current-host-selection", window, now + 30_000)
         else if d.fallback.PickerOpen? then Fallback.Armed("current-host-selection", d.fallback.target, now + 30_000)
         else d.fallback
  }

  lemma OpenPickerAsks(
    c: Config, d: State, window: Window, mime: string, candidates: seq<Candidate>, attempt: Attempt, now: nat)
    ensures Asked(c, d, d.log, OpenPicker(c, d, window, mime, candidates, attempt, now), window, mime, candidates, attempt, now)
  {
    hide Decimal;
  }

  /** The record a paste leaves in the audit trail. */
  ghost predicate Records(event: Audit.AuditEvent, e: Event, decision: Audit.Decision)
    requires e.PasteRequest?
  {
    && event.requestId == "bridge-" + e.identity.canonicalTarget + "-" + Decimal(e.sourceId)
    && event.sourceRealm == "host" && event.destinationRealm == e.identity.canonicalTarget
    && event.mimeType == e.mime && event.decision == decision
  }

  /** The focused window, or one that names the endpoint. */
  ghost predicate IsPasteWindow(window: Window, e: Event)
    requires e.PasteRequest?
  {
    if e.focused.Some? then window == e.focused.value
    else
      && window.id.None? && window.workspaceId.None? && window.outputLabel.None?
      && window.appId == Some("d2b." + e.identity.canonicalTarget)
      && window.title == Some(
           if e.identity.providerKind == "unsafe-local" then e.identity.canonicalTarget + " (unsafe-local)"
           else if e.identity.legacyVmName.Some? then e.identity.legacyVmName.value + " VM"
           else e.identity.canonicalTarget)
  }

  /** A selected entry that has the type is at hand, so the paste needs no question. */
  ghost predicate AtHand(c: Config, d: State, mime: string) {
    IsSelected(d) && CompatiblePayload(d.published.value.data, mime, c.html).Some?
  }

  /**
    * After every run: a paste of a rejected type is recorded as denied and changes nothing else. Every other
    * paste is recorded as allowed, uses up a selected entry, and asks unless that entry has the type.
    */
  lemma PasteAsks(c: Config, events: seq<Event>, e: Event) returns (event: Audit.AuditEvent, window: Window)
    requires e.PasteRequest?
    ensures var d := Run(c, events); var r := Step(c, d, e);
            && Records(event, e, if IsMimeAllowed(e.mime) then Audit.Allow else Audit.Deny)
            && IsPasteWindow(window, e)
            && (!IsMimeAllowed(e.mime) ==> r == d.(log := d.log + [Accepted(event)], audit := r.audit))
            && (IsMimeAllowed(e.mime) ==>
                  && r.published == (if IsSelected(d) then None else d.published)
                  && (!AtHand(c, d, e.mime) ==>
                        Asked(c, d, d.log + [Accepted(event)], r, window, e.mime,
                              PickerCandidates(c, d.history, d.hostSelection, d.currentHost, e.mime, e.now), e.attempt, e.now)))
  {
    hide Run, OpenPicker, CompatiblePayload, PickerCandidates, IsMimeAllowed, Asked, Audit.HasRoom, Audit.Enqueue,
         Audit.Emptied, Decimal;
    var d := Run(c, events);
    AuditAlwaysHasRoom(c, events, "host");
    event := PasteAudit(e.identity, e.mime, e.sourceId, if IsMimeAllowed(e.mime) then Audit.Allow else Audit.Deny);
    window := PasteWindow(e.identity, e.focused);
    var audited := Audited(d, event);
    var taken := if IsSelected(d) then audited.(published := None) else audited;
    var candidates := PickerCandidates(c, d.history, d.hostSelection, d.currentHost, e.mime, e.now);
    OpenPickerFrame(c, taken, window, e.mime, candidates, e.attempt, e.now);
    OpenPickerAsks(c, taken, window, e.mime, candidates, e.attempt, e.now);
    AskedOf(c, taken, d, taken.log, OpenPicker(c, taken, window, e.mime, candidates, e.attempt, e.now), window, e.mime, candidates,
      e.attempt, e.now);
  }

  lemma AskedOf(c: Config, d: State, other: State, before: seq<Act>, r: State, window: Window, mime: string,
                candidates: seq<Candidate>, attempt: Attempt, now: nat)
    requires Asked(c, d, before, r, window, mime, candidates, attempt, now)
    requires other.fallback == d.fallback && other.pickers == d.pickers
    ensures Asked(c, other, before, r, window, mime, candidates, attempt, now)
  {
  }

  /** The window an application that asks for a source is taken to be. */
  ghost predicate IsSendWindow(window: Window, e: Event)
    requires e.SourceSend?
  {
    if e.focused.Some? then window == e.focused.value
    else window == Fallback.Window(None, None, None, None, None)
  }

  /**
    * After every run: a request for the live selection of an endpoint asks, whether it is published or only was,
    * unless it comes from the endpoint's own window or, in the second case, the selection lacks the type. Any other
    * request, if it is not for a selected entry, does nothing.
    */
  lemma SendAsks(c: Config, events: seq<Event>, e: Event) returns (window: Window)
    requires e.SourceSend?
    ensures var d := Run(c, events); var r := Step(c, d, e);
            var published := d.published.Some? && d.published.value.dataControlId == e.dataControlId;
            var bridged := d.bridge.Some? && d.bridge.value.dataControlId == e.dataControlId;
            && IsSendWindow(window, e)
            && (published && d.published.value.mode.Discovery? && !OwnWindow(d, window.appId) ==>
                  Asked(c, d, d.log, r, window, e.mime,
                        DiscoveryCandidates(c, d.bridge, d.history, d.currentHost, d.published.value.data, e.mime, e.now),
                        e.attempt, e.now))
            && (!published && bridged && !OwnWindow(d, window.appId) && CompatiblePayload(d.bridge.value.data, e.mime, c.html).Some? ==>
                  Asked(c, d, d.log, r, window, e.mime,
                        BridgeCandidates(c, d.history, d.bridge.value,
                                         CompatiblePayload(d.bridge.value.data, e.mime, c.html).value, e.mime, e.now),
                        e.attempt, e.now))
            && (published && d.published.value.mode.Discovery? && OwnWindow(d, window.appId) ==> r == d)
            && (!published && !bridged ==> r == d)
            && (!published && bridged && OwnWindow(d, window.appId) ==> r == d)
            && (!published && bridged && CompatiblePayload(d.bridge.value.data, e.mime, c.html).None? ==> r == d)
  {
    hide Run, OpenPicker, CompatiblePayload, DiscoveryCandidates, BridgeCandidates, Asked, MatchesSource, OwnWindow;
    var d := Run(c, events);
    window := OrDefault(e.focused);
    OwnWindowIs(d, window);
    if d.published.Some? && d.published.value.dataControlId == e.dataControlId {
      OpenPickerAsks(c, d, window, e.mime,
        DiscoveryCandidates(c, d.bridge, d.history, d.currentHost, d.published.value.data, e.mime, e.now), e.attempt, e.now);
    } else if d.bridge.Some? && CompatiblePayload(d.bridge.value.data, e.mime, c.html).Some? {
      OpenPickerAsks(c, d, window, e.mime,
        BridgeCandidates(c, d.history, d.bridge.value, CompatiblePayload(d.bridge.value.data, e.mime, c.html).value, e.mime, e.now),
        e.attempt, e.now);
    }
  }

  /** The arm command opens a picker for plain text, or leaves nothing armed. */
  lemma ArmAsks(c: Config, d: State, e: Event)
    requires e.ArmCommand?
    ensures var r := Step(c, d, e);
            var window := if e.focused.Some? then e.focused.value else Fallback.Window(None, None, None, None, None);
            if Opens(c, d, e.attempt) then
              && r.fallback == Fallback.PickerOpen(window)
              && r.pickers.active.Some? && r.pickers.active.value.deadline == e.now + 30_000
              && r.log == d.log + [Offered("text/plain", PickerCandidates(c, d.history, d.hostSelection, None, "text/plain", e.now))]
            else
              r.fallback.Idle? && r.log == d.log && r.pickers.active == d.pickers.active
  {
    hide Decimal, PickerCandidates;
  }

  /** A selected entry answers a request for it, or nothing does: the arming and the picker stay as they are. */
  lemma SelectedNeverAsks(c: Config, d: State, e: Event)
    requires e.SourceSend? && d.published.Some? && d.published.value.dataControlId == e.dataControlId
    requires d.published.value.mode.Selected?
    ensures var r := Step(c, d, e);
            && r == d.(log := r.log)
            && (r.log != d.log ==> r.log != [] && !r.log[|r.log| - 1].Offered?)
  {
    hide CompatiblePayload;
  }

  /** Picking, and leaving the picker, both close it and disarm. */
  lemma PickingDisarms(c: Config, d: State, e: Event)
    requires e.Select? || e.PickerLeft?
    ensures var r := Step(c, d, e); r.fallback.Idle? && r.pickers.active.None?
  {
    hide SelectedData;
    if e.Select? {
      SelectFrame(d, e.entryId, e.flushed, e.now);
    }
  }

  /** A cancelled source is no longer published, nor an endpoint's selection; any other stays. */
  lemma CancelForgets(c: Config, d: State, e: Event)
    requires e.SourceCancelled?
    ensures var r := Step(c, d, e);
            && (r.published.Some? <==> d.published.Some? && d.published.value.dataControlId != e.dataControlId)
            && (r.bridge.Some? <==> d.bridge.Some? && d.bridge.value.dataControlId != e.dataControlId)
            && (r.published.Some? ==> r.published == d.published) && (r.bridge.Some? ==> r.bridge == d.bridge)
            && r == d.(published := r.published, bridge := r.bridge, hostSelection := r.hostSelection)
  {
  }

  // ----- What is offered -----

  /** Some candidate stands for the entry, under this id, with this size. */
  ghost predicate IsOffered(candidates: seq<Candidate>, entry: Entry, id: string, mime: string, size: nat) {
    exists k :: 0 <= k < |candidates| && StandsFor(candidates[k], entry, id, mime, size)
  }

  ghost predicate StandsFor(candidate: Candidate, entry: Entry, id: string, mime: string, size: nat) {
    && candidate.entryId == id && candidate.contentType == mime && candidate.byteCount == Some(size)
    && candidate.realmKind == entry.realmKind && candidate.canonicalTarget == entry.canonicalTarget
    && candidate.timestamp == entry.timestamp
  }

  lemma {:induction false} WithoutKeeps(candidates: seq<Candidate>, id: string, x: Candidate)
    requires x in candidates && x.entryId != id
    ensures x in Daemon.Without(candidates, id)
    decreases |candidates|
  {
    if x != candidates[0] {
      WithoutKeeps(candidates[1..], id, x);
    }
  }

  lemma {:induction false} NotFromKeeps(candidates: seq<Candidate>, target: string, x: Candidate)
    requires x in candidates && x.canonicalTarget != Some(target)
    ensures x in NotFrom(candidates, target)
    decreases |candidates|
  {
    if x != candidates[0] {
      NotFromKeeps(candidates[1..], target, x);
    }
  }

  lemma InMeansOffered(candidates: seq<Candidate>, entry: Entry, mime: string, bytes: Bytes)
    requires Offer(entry, mime, bytes) in candidates
    ensures IsOffered(candidates, entry, entry.entryId, mime, |bytes|)
  {
    var k :| 0 <= k < |candidates| && candidates[k] == Offer(entry, mime, bytes);
  }

  /** Every row that has the type, other than a row under the current host's id, is among a paste's candidates. */
  lemma RowsAreOffered(c: Config, history: HistoryState, announced: Option<HostSelection>, current: Option<Entry>, mime: string,
                       now: nat, i: nat)
    requires i < |history.entries| && history.entries[i].entryId != CURRENT_HOST_ENTRY_ID
    requires CompatiblePayload(history.entries[i].data, mime, c.html).Some?
    ensures IsOffered(PickerCandidates(c, history, announced, current, mime, now), history.entries[i], history.entries[i].entryId,
                      mime, |CompatiblePayload(history.entries[i].data, mime, c.html).value|)
  {
    hide CompatiblePayload, CandidatesExcluding, HostOffer, Daemon.Without, CompatibleName, IsOffered;
    var entry := history.entries[i];
    var bytes := CompatiblePayload(entry.data, mime, c.html).value;
    var past := CandidatesExcluding(history.entries, mime, None, c.html);
    ServableEntriesAreOffered(history.entries, mime, None, c.html, i);
    WithoutKeeps(past, CURRENT_HOST_ENTRY_ID, Offer(entry, mime, bytes));
    InMeansOffered(PickerCandidates(c, history, announced, current, mime, now), entry, mime, bytes);
  }

  /** No row before this one has the type. */
  ghost predicate IsNewest(c: Config, entries: seq<Entry>, mime: string, excluded: Option<string>, i: nat) {
    && i < |entries| && excluded != Some(entries[i].entryId) && CompatiblePayload(entries[i].data, mime, c.html).Some?
    && forall j :: 0 <= j < i && excluded != Some(entries[j].entryId) ==> CompatiblePayload(entries[j].data, mime, c.html).None?
  }

  lemma {:induction false} FirstCandidate(c: Config, entries: seq<Entry>, mime: string, excluded: Option<string>)
    ensures var past := CandidatesExcluding(entries, mime, excluded, c.html);
            && (past == [] <==> forall i :: 0 <= i < |entries| && excluded != Some(entries[i].entryId) ==>
                                  CompatiblePayload(entries[i].data, mime, c.html).None?)
            && (past != [] ==> exists i: nat :: IsNewest(c, entries, mime, excluded, i) && past[0].timestamp == entries[i].timestamp)
    decreases |entries|
  {
    hide CompatiblePayload;
    if entries != [] {
      var rest := entries[1..];
      FirstCandidate(c, rest, mime, excluded);
      assert forall i :: 0 < i < |entries| ==> entries[i] == rest[i - 1];
      if excluded == Some(entries[0].entryId) || CompatiblePayload(entries[0].data, mime, c.html).None? {
        if CandidatesExcluding(rest, mime, excluded, c.html) != [] {
          var i: nat :| IsNewest(c, rest, mime, excluded, i) &&
                        CandidatesExcluding(rest, mime, excluded, c.html)[0].timestamp == rest[i].timestamp;
          assert IsNewest(c, entries, mime, excluded, i + 1);
        }
      } else {
        assert IsNewest(c, entries, mime, excluded, 0);
      }
    }
  }

  lemma NewestIsOne(c: Config, entries: seq<Entry>, mime: string, excluded: Option<string>, i: nat, j: nat)
    requires IsNewest(c, entries, mime, excluded, i) && IsNewest(c, entries, mime, excluded, j)
    ensures i == j
  {
    hide CompatiblePayload;
  }

  /**
    * The current host entry is offered first exactly when it has the type and no row that has it is newer.
    * Otherwise, where the compositor has announced the type, or for plain text any plain text, the host's
    * selection is offered first without a size.
    */
  lemma HostIsOffered(c: Config, history: HistoryState, announced: Option<HostSelection>, current: Option<Entry>, mime: string, now: nat)
    ensures var candidates := PickerCandidates(c, history, announced, current, mime, now);
            var eligible :=
              && current.Some? && CompatiblePayload(current.value.data, mime, c.html).Some?
              && forall i: nat :: IsNewest(c, history.entries, mime, None, i) ==>
                   current.value.timestamp >= history.entries[i].timestamp;
            var named :=
              && announced.Some? && announced.value.offered
              && (|| mime in announced.value.allowedMimes
                  || (&& mime in ["text/plain", "text/plain;charset=utf-8"]
                      && (|| "text/plain" in announced.value.allowedMimes
                          || "text/plain;charset=utf-8" in announced.value.allowedMimes)));
            if eligible then
              && candidates != []
              && StandsFor(candidates[0], current.value, "current-host-selection", mime,
                           |CompatiblePayload(current.value.data, mime, c.html).value|)
            else if named then candidates != [] && candidates[0] == Candidate("current-host-selection", HostRealm, None, mime, now, None)
            else candidates == CandidatesExcluding(history.entries, mime, None, c.html)
  {
    hide CompatiblePayload, CandidatesExcluding, Daemon.Without, IsNewest;
    var past := CandidatesExcluding(history.entries, mime, None, c.html);
    FirstIsNotNewer(c, history.entries, mime, None, if current.Some? then current.value.timestamp else 0);
  }

  lemma FirstIsNotNewer(c: Config, entries: seq<Entry>, mime: string, excluded: Option<string>, timestamp: nat)
    ensures var past := CandidatesExcluding(entries, mime, excluded, c.html);
            past != [] && timestamp < past[0].timestamp <==>
            !(forall i: nat :: IsNewest(c, entries, mime, excluded, i) ==> timestamp >= entries[i].timestamp)
  {
    hide CompatiblePayload, CandidatesExcluding;
    var past := CandidatesExcluding(entries, mime, excluded, c.html);
    FirstCandidate(c, entries, mime, excluded);
    if past != [] {
      var i: nat :| IsNewest(c, entries, mime, excluded, i) && past[0].timestamp == entries[i].timestamp;
      forall j: nat | IsNewest(c, entries, mime, excluded, j) ensures entries[j].timestamp == past[0].timestamp {
        NewestIsOne(c, entries, mime, excluded, i, j);
      }
    }
  }

  /** A row of another target than the live selection's is among the candidates of a request for that selection. */
  ghost predicate IsOther(b: BridgeSelection, row: Entry) {
    row.entryId != b.entryId && row.canonicalTarget != Some(b.identity.canonicalTarget)
  }

  lemma OtherRowIsOffered(c: Config, history: HistoryState, b: BridgeSelection, mime: string, i: nat)
    requires i < |history.entries| && IsOther(b, history.entries[i])
    requires CompatiblePayload(history.entries[i].data, mime, c.html).Some?
    ensures Offer(history.entries[i], mime, CompatiblePayload(history.entries[i].data, mime, c.html).value) in
            NotFrom(CandidatesExcluding(history.entries, mime, Some(b.entryId), c.html), b.identity.canonicalTarget)
  {
    hide CompatiblePayload, CandidatesExcluding, NotFrom;
    var entry := history.entries[i];
    ServableEntriesAreOffered(history.entries, mime, Some(b.entryId), c.html, i);
    NotFromKeeps(CandidatesExcluding(history.entries, mime, Some(b.entryId), c.html), b.identity.canonicalTarget,
                 Offer(entry, mime, CompatiblePayload(entry.data, mime, c.html).value));
  }

  /** The live selection itself, under its own id. */
  ghost predicate SelectionIsOffered(candidates: seq<Candidate>, b: BridgeSelection, mime: string, size: nat, timestamp: nat) {
    Candidate("current-endpoint-selection",
              if b.identity.providerKind == "unsafe-local" then UnsafeLocalRealm else VmRealm,
              Some(b.identity.canonicalTarget), mime, timestamp, Some(size)) in candidates
  }

  lemma DiscoveryIsComplete(c: Config, b: BridgeSelection, history: HistoryState, current: Option<Entry>, mime: string, now: nat)
    ensures var candidates := DiscoveryCandidates(c, Some(b), history, current, b.data, mime, now);
            && (CompatiblePayload(b.data, mime, c.html).Some? ==>
                  SelectionIsOffered(candidates, b, mime, |CompatiblePayload(b.data, mime, c.html).value|, b.timestamp))
            && (forall i :: 0 <= i < |history.entries| && IsOther(b, history.entries[i]) &&
                            CompatiblePayload(history.entries[i].data, mime, c.html).Some? ==>
                  IsOffered(candidates, history.entries[i], history.entries[i].entryId, mime,
                            |CompatiblePayload(history.entries[i].data, mime, c.html).value|))
  {
    hide CompatiblePayload, CandidatesExcluding, NotFrom, HostOffer, IsOffered;
    var candidates := DiscoveryCandidates(c, Some(b), history, current, b.data, mime, now);
    forall i | 0 <= i < |history.entries| && IsOther(b, history.entries[i]) &&
               CompatiblePayload(history.entries[i].data, mime, c.html).Some?
      ensures IsOffered(candidates, history.entries[i], history.entries[i].entryId, mime,
                        |CompatiblePayload(history.entries[i].data, mime, c.html).value|)
    {
      OtherRowIsOffered(c, history, b, mime, i);
      InMeansOffered(candidates, history.entries[i], mime, CompatiblePayload(history.entries[i].data, mime, c.html).value);
    }
  }

  /**
    * In a discovery, too, the current host entry comes first exactly when it has the type and is at least as new as the
    * first of the other candidates, which is the live selection if that has the type.
    */
  lemma DiscoveryOffersHost(c: Config, b: BridgeSelection, history: HistoryState, current: Option<Entry>, mime: string, now: nat)
    returns (others: seq<Candidate>)
    ensures var candidates := DiscoveryCandidates(c, Some(b), history, current, b.data, mime, now);
            && (CompatiblePayload(b.data, mime, c.html).Some? ==>
                  && others != [] && others[0].entryId == "current-endpoint-selection" && others[0].timestamp == b.timestamp
                  && others[0].canonicalTarget == Some(b.identity.canonicalTarget))
            && if && current.Some? && CompatiblePayload(current.value.data, mime, c.html).Some?
                  && (others != [] ==> current.value.timestamp >= others[0].timestamp)
               then
                 && candidates != [] && candidates[1..] == others
                 && StandsFor(candidates[0], current.value, "current-host-selection", mime,
                              |CompatiblePayload(current.value.data, mime, c.html).value|)
               else candidates == others
  {
    hide CompatiblePayload, CandidatesExcluding, NotFrom;
    others := DiscoveryCandidates(c, Some(b), history, None, b.data, mime, now);
  }

  lemma BridgeIsComplete(c: Config, b: BridgeSelection, history: HistoryState, mime: string, bytes: Bytes, now: nat)
    ensures var candidates := BridgeCandidates(c, history, b, bytes, mime, now);
            && SelectionIsOffered(candidates, b, mime, |bytes|, now)
            && (forall i :: 0 <= i < |history.entries| && IsOther(b, history.entries[i]) &&
                            CompatiblePayload(history.entries[i].data, mime, c.html).Some? ==>
                  IsOffered(candidates, history.entries[i], history.entries[i].entryId, mime,
                            |CompatiblePayload(history.entries[i].data, mime, c.html).value|))
  {
    hide CompatiblePayload, CandidatesExcluding, NotFrom, IsOffered;
    var candidates := BridgeCandidates(c, history, b, bytes, mime, now);
    forall i | 0 <= i < |history.entries| && IsOther(b, history.entries[i]) &&
               CompatiblePayload(history.entries[i].data, mime, c.html).Some?
      ensures IsOffered(candidates, history.entries[i], history.entries[i].entryId, mime,
                        |CompatiblePayload(history.entries[i].data, mime, c.html).value|)
    {
      OtherRowIsOffered(c, history, b, mime, i);
      InMeansOffered(candidates, history.entries[i], mime, CompatiblePayload(history.entries[i].data, mime, c.html).value);
    }
  }

  // ----- Every run -----

  ghost predicate NoneCurrent(entries: seq<Entry>) {
    forall i :: 0 <= i < |entries| ==> entries[i].entryId != CURRENT_HOST_ENTRY_ID
  }

  lemma HistoryIdIsNotCurrent(n: nat)
    ensures HistoryId(n) != CURRENT_HOST_ENTRY_ID
  {
    hide HistoryId, BridgeId;
    IdsAreDisjoint("", 0, n);
  }

  lemma {:induction false} RowsAreNotCurrent(changes: seq<Change>)
    ensures NoneCurrent(After(changes).entries)
    decreases |changes|
  {
    hide BridgeId, HistoryId, ClipHistory.Without;
    if changes != [] {
      RowsAreNotCurrent(changes[..|changes| - 1]);
      var h := After(changes[..|changes| - 1]);
      HistoryIdIsNotCurrent(SaturatingNext(h.nextId));
      match changes[|changes| - 1] {
        case Push(entry) =>
        case Upsert(target, sourceId, entry) =>
          IdsAreDisjoint(target, sourceId, 0);
          var id := BridgeId(target, sourceId);
          var k := WithoutAt(h.entries, id);
          var rest := ClipHistory.Without(h.entries, id);
          assert forall i :: 0 <= i < |rest| ==> rest[i] == h.entries[if i < k then i else i + 1];
      }
    }
  }

  /** The row has the type, and the event does not exclude it. */
  ghost predicate IsDueRow(c: Config, d: State, e: Event, mime: string, row: Entry) {
    && CompatiblePayload(row.data, mime, c.html).Some?
    && (e.SourceSend? && d.bridge.Some? ==> IsOther(d.bridge.value, row))
  }

  /**
    * After every run, whenever a picker is opened: every history row that has the type is offered as it is,
    * except that a request for an endpoint's selection leaves out that endpoint's rows; and that selection is
    * itself offered, if it has the type.
    */
  lemma OffersAreComplete(c: Config, events: seq<Event>, e: Event, mime: string, candidates: seq<Candidate>)
    requires Offers(Run(c, events), Step(c, Run(c, events), e), mime, candidates)
    ensures var d := Run(c, events);
            && (forall i :: 0 <= i < |d.history.entries| && IsDueRow(c, d, e, mime, d.history.entries[i]) ==>
                  IsOffered(candidates, d.history.entries[i], d.history.entries[i].entryId, mime,
                            |CompatiblePayload(d.history.entries[i].data, mime, c.html).value|))
            && (e.SourceSend? && d.bridge.Some? && CompatiblePayload(d.bridge.value.data, mime, c.html).Some? ==>
                  exists timestamp: nat :: SelectionIsOffered(candidates, d.bridge.value, mime,
                    |CompatiblePayload(d.bridge.value.data, mime, c.html).value|, timestamp))
  {
    hide Run, Step, CompatiblePayload, PickerCandidates, DiscoveryCandidates, BridgeCandidates, IsOffered, SelectionIsOffered, Asked,
      LogInv, DaemonContent.ContentInv, PickerInv, AuditInv, RowInv, IsMimeAllowed, Records, IsPasteWindow, IsSendWindow, OwnWindow;
    var d := Run(c, events);
    EveryRun(c, events);
    RowsAreNotCurrent(d.changes);
    if e.PasteRequest? {
      PasteOffersRows(c, events, e, mime, candidates);
    } else if e.SourceSend? {
      SendOffersRows(c, events, e, mime, candidates);
    } else if e.ArmCommand? {
      ArmOffersRows(c, d, e, mime, candidates);
    } else if e.Select? {
      SelectLast(c, d, e);
    } else {
      StepIsQuiet(c, d, e);
    }
  }

  lemma SelectLast(c: Config, d: State, e: Event)
    requires e.Select?
    ensures var r := Step(c, d, e); r.log != [] && r.log[|r.log| - 1].Picked?
  {
    hide SelectedData;
    SelectOffersNothing(d, e.entryId, e.flushed, e.now);
  }

  lemma AskedOffers(c: Config, d: State, before: seq<Act>, r: State, window: Window, m: string, made: seq<Candidate>,
                    attempt: Attempt, now: nat, mime: string, candidates: seq<Candidate>)
    requires Asked(c, d, before, r, window, m, made, attempt, now)
    requires before == d.log || (|before| == |d.log| + 1 && before[|d.log|].Accepted?)
    requires Offers(d, r, mime, candidates)
    ensures mime == m && candidates == made
  {
  }

  lemma PasteOffersRows(c: Config, events: seq<Event>, e: Event, mime: string, candidates: seq<Candidate>)
    requires e.PasteRequest? && Offers(Run(c, events), Step(c, Run(c, events), e), mime, candidates)
    requires NoneCurrent(Run(c, events).history.entries)
    ensures var d := Run(c, events);
            forall i :: 0 <= i < |d.history.entries| && CompatiblePayload(d.history.entries[i].data, mime, c.html).Some? ==>
              IsOffered(candidates, d.history.entries[i], d.history.entries[i].entryId, mime,
                        |CompatiblePayload(d.history.entries[i].data, mime, c.html).value|)
  {
    hide Run, Step, CompatiblePayload, PickerCandidates, IsOffered, Asked, IsMimeAllowed, Records, IsPasteWindow;
    var d := Run(c, events);
    var r := Step(c, d, e);
    var event, window := PasteAsks(c, events, e);
    if IsMimeAllowed(e.mime) && AtHand(c, d, e.mime) {
      AtHandOffersNothing(c, events, e);
    }
    if IsMimeAllowed(e.mime) && !AtHand(c, d, e.mime) {
      var made := PickerCandidates(c, d.history, d.hostSelection, d.currentHost, e.mime, e.now);
      AskedOffers(c, d, d.log + [Accepted(event)], r, window, e.mime, made, e.attempt, e.now, mime, candidates);
      forall i | 0 <= i < |d.history.entries| && CompatiblePayload(d.history.entries[i].data, mime, c.html).Some?
        ensures IsOffered(candidates, d.history.entries[i], d.history.entries[i].entryId, mime,
                          |CompatiblePayload(d.history.entries[i].data, mime, c.html).value|)
      {
        RowsAreOffered(c, d.history, d.hostSelection, d.currentHost, mime, e.now, i);
      }
    }
  }

  lemma AtHandOffersNothing(c: Config, events: seq<Event>, e: Event)
    requires e.PasteRequest? && AtHand(c, Run(c, events), e.mime) && IsMimeAllowed(e.mime)
    ensures var r := Step(c, Run(c, events), e);
            r.log != Run(c, events).log ==> r.log != [] && !r.log[|r.log| - 1].Offered?
  {
    hide Run, CompatiblePayload, PickerCandidates, OpenPicker, IsMimeAllowed, Audit.HasRoom, Audit.Enqueue, Audit.Emptied, RequestId,
      PasteWindow;
    AuditAlwaysHasRoom(c, events, "host");
  }

  lemma ArmOffersRows(c: Config, d: State, e: Event, mime: string, candidates: seq<Candidate>)
    requires e.ArmCommand? && Offers(d, Step(c, d, e), mime, candidates)
    requires NoneCurrent(d.history.entries)
    ensures forall i :: 0 <= i < |d.history.entries| && CompatiblePayload(d.history.entries[i].data, mime, c.html).Some? ==>
              IsOffered(candidates, d.history.entries[i], d.history.entries[i].entryId, mime,
                        |CompatiblePayload(d.history.entries[i].data, mime, c.html).value|)
  {
    hide Step, CompatiblePayload, PickerCandidates, IsOffered;
    ArmAsks(c, d, e);
    forall i | 0 <= i < |d.history.entries| && CompatiblePayload(d.history.entries[i].data, mime, c.html).Some?
      ensures IsOffered(candidates, d.history.entries[i], d.history.entries[i].entryId, mime,
                        |CompatiblePayload(d.history.entries[i].data, mime, c.html).value|)
    {
      RowsAreOffered(c, d.history, d.hostSelection, None, mime, e.now, i);
    }
  }

  lemma SendOffersRows(c: Config, events: seq<Event>, e: Event, mime: string, candidates: seq<Candidate>)
    requires e.SourceSend? && Offers(Run(c, events), Step(c, Run(c, events), e), mime, candidates)
    requires Discovers(Run(c, events))
    ensures var d := Run(c, events);
            && d.bridge.Some?
            && (forall i :: 0 <= i < |d.history.entries| && IsDueRow(c, d, e, mime, d.history.entries[i]) ==>
                  IsOffered(candidates, d.history.entries[i], d.history.entries[i].entryId, mime,
                            |CompatiblePayload(d.history.entries[i].data, mime, c.html).value|))
            && (CompatiblePayload(d.bridge.value.data, mime, c.html).Some? ==>
                  exists timestamp: nat :: SelectionIsOffered(candidates, d.bridge.value, mime,
                    |CompatiblePayload(d.bridge.value.data, mime, c.html).value|, timestamp))
  {
    hide Run, Step, CompatiblePayload, DiscoveryCandidates, BridgeCandidates, IsOffered, SelectionIsOffered, Asked, IsSendWindow,
      OwnWindow;
    var d := Run(c, events);
    var r := Step(c, d, e);
    var window := SendAsks(c, events, e);
    if d.published.Some? && d.published.value.dataControlId == e.dataControlId {
      if d.published.value.mode.Selected? {
        SelectedNeverAsks(c, d, e);
      }
      var made := DiscoveryCandidates(c, d.bridge, d.history, d.currentHost, d.published.value.data, e.mime, e.now);
      AskedOffers(c, d, d.log, r, window, e.mime, made, e.attempt, e.now, mime, candidates);
      DiscoveryIsComplete(c, d.bridge.value, d.history, d.currentHost, mime, e.now);
    } else {
      var bytes := CompatiblePayload(d.bridge.value.data, e.mime, c.html).value;
      var made := BridgeCandidates(c, d.history, d.bridge.value, bytes, e.mime, e.now);
      AskedOffers(c, d, d.log, r, window, e.mime, made, e.attempt, e.now, mime, candidates);
      BridgeIsComplete(c, d.bridge.value, d.history, mime, bytes, e.now);
    }
  }
}
