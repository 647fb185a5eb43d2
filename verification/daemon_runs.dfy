/** The clipboard daemon over every run: whatever events come, in whatever order. */
module DaemonRuns {
  import opened Options
  import opened Policy
  import opened ClipHistory
  import opened Daemon
  import opened DaemonContent
  import opened DaemonLog
  import opened DaemonState
  import Audit
  import Picker

  ghost predicate Inv(c: Config, d: State) {
    && LogInv(c, d)
    && ContentInv(d)
    && PickerInv(d.fallback, d.pickers)
    && AuditInv(d.audit)
    && HistoryInv(d)
    && Discovers(d)
  }

  lemma InitialInv(c: Config)
    ensures Inv(c, INITIAL)
  {
    Picker.NoPickersIsSound();
  }

  lemma {:induction false} EveryRun(c: Config, events: seq<Event>)
    ensures Inv(c, Run(c, events))
    decreases |events|
  {
    hide LogInv, ContentInv, PickerInv, AuditInv, HistoryInv, Discovers, Step;
    if events == [] {
      InitialInv(c);
    } else {
      var d, e := Run(c, events[..|events| - 1]), events[|events| - 1];
      EveryRun(c, events[..|events| - 1]);
      StepKeepsLog(c, d, e);
      StepKeepsContent(c, d, e);
      StepKeepsPicker(c, d, e);
      StepKeepsAudit(c, d, e);
      StepKeepsHistory(c, d, e);
      StepKeepsDiscovery(c, d, e);
    }
  }

  // ----- Serving -----

  predicate IsServed(act: Act) {
    act.Pasted? || act.Sent?
  }

  /** The pick a token stands for. */
  lemma {:induction false} TokenIsPicked(log: seq<Act>) returns (j: nat)
    requires Token(log).Some?
    ensures j < |log| && log[j].Picked? && log[j].published == Token(log)
    ensures forall k :: j < k < |log| ==> !log[k].Pasted? && !(log[k].Picked? && log[k].published.Some?)
    decreases |log|
  {
    var front, last := log[..|log| - 1], log[|log| - 1];
    if last.Picked? && last.published.Some? {
      j := |log| - 1;
    } else {
      j := TokenIsPicked(front);
    }
  }

  /**
    * Whatever is written out is the payload, for the type asked for, of the entry most recently picked and published;
    * and no direct paste has come between.
    */
  lemma ServedFromAPick(c: Config, events: seq<Event>, i: nat) returns (j: nat)
    requires i < |Run(c, events).log| && IsServed(Run(c, events).log[i])
    ensures var log := Run(c, events).log;
            && j < i && log[j].Picked? && log[j].published.Some?
            && CompatiblePayload(log[j].published.value, log[i].mime, c.html) == Some(log[i].bytes)
            && forall k :: j < k < i ==> !log[k].Pasted? && !(log[k].Picked? && log[k].published.Some?)
  {
    hide Run, Discovers, Token, CompatiblePayload, ContentInv, PickerInv, AuditInv, HistoryInv;
    EveryRun(c, events);
    var log := Run(c, events).log;
    assert ActOk(c.html, log[..i], log[i]);
    j := TokenIsPicked(log[..i]);
  }

  /** Each direct paste comes straight after its own accepted Allow record. */
  lemma PasteFollowsItsAudit(c: Config, events: seq<Event>, i: nat)
    requires i < |Run(c, events).log| && Run(c, events).log[i].Pasted?
    ensures var log := Run(c, events).log;
            && i > 0 && log[i - 1].Accepted? && log[i - 1].event.decision.Allow?
            && log[i - 1].event.requestId == log[i].requestId && log[i - 1].event.mimeType == log[i].mime
  {
    hide Run, Discovers, Token, CompatiblePayload, ContentInv, PickerInv, AuditInv, HistoryInv;
    EveryRun(c, events);
    var log := Run(c, events).log;
    assert ActOk(c.html, log[..i], log[i]);
  }

  function Pastes(log: seq<Act>): nat {
    if log == [] then 0 else Pastes(log[..|log| - 1]) + if log[|log| - 1].Pasted? then 1 else 0
  }

  /** Picker selections, whether or not they led to a publication. */
  function Picks(log: seq<Act>): nat {
    if log == [] then 0 else Picks(log[..|log| - 1]) + if log[|log| - 1].Picked? then 1 else 0
  }

  lemma {:induction false} PastesUseUpPicks(html: Html, log: seq<Act>)
    requires LogOk(html, log)
    ensures Pastes(log) + (if Token(log).Some? then 1 else 0) <= Picks(log)
    decreases |log|
  {
    hide CompatiblePayload;
    if log != [] {
      var front := log[..|log| - 1];
      assert forall i :: 0 <= i < |front| ==> front[..i] == log[..i] && front[i] == log[i];
      PastesUseUpPicks(html, front);
      assert ActOk(html, log[..|log| - 1], log[|log| - 1]);
    }
  }

  /** There are never more direct pastes than selections made in a picker. */
  lemma PastesAtMostPicks(c: Config, events: seq<Event>)
    ensures Pastes(Run(c, events).log) <= Picks(Run(c, events).log)
  {
    hide Run, ContentInv, PickerInv, AuditInv, HistoryInv;
    EveryRun(c, events);
    PastesUseUpPicks(c.html, Run(c, events).log);
  }

  /** A selection publishes what the entry it names holds at that moment. */
  lemma SelectPublishesTheEntry(c: Config, events: seq<Event>, entryId: string, flushed: bool, now: nat)
    ensures var d := Run(c, events); var r := Step(c, d, Select(entryId, flushed, now));
            && |r.log| == |d.log| + 1 && r.log[|d.log|].Picked? && r.log[|d.log|].entryId == entryId
            && r.log[|d.log|].published == (if d.deviceBound && flushed then SelectedData(d, entryId) else None)
            && r.log[..|d.log|] == d.log
            && (d.deviceBound && flushed && SelectedData(d, entryId).Some? ==>
                  IsSelected(r) && r.published.value.data == SelectedData(d, entryId).value)
  {
    hide Run, Discovers, LogInv, ContentInv, PickerInv, AuditInv, Picker.Cancel;
    EveryRun(c, events);
    var d := Run(c, events);
    HistoryNeverEmpty(d.changes, entryId);
  }

  lemma {:induction false} HistoryNeverEmpty(changes: seq<Change>, id: string)
    ensures DataFor(After(changes), id) != Some(map[])
    ensures NoneEmpty(After(changes).entries)
    decreases |changes|
  {
    hide BridgeId, DataIn, NoneEmpty, Pushed, Upserted;
    if changes == [] {
      NothingEmpty();
    } else {
      HistoryNeverEmpty(changes[..|changes| - 1], id);
      var h := After(changes[..|changes| - 1]);
      match changes[|changes| - 1] {
        case Push(entry) => PushNoneEmpty(h, entry);
        case Upsert(target, sourceId, entry) => UpsertNoneEmpty(h, entry.(entryId := BridgeId(target, sourceId)));
      }
    }
    FoundIsNotEmpty(After(changes).entries, id);
  }

  lemma NothingEmpty()
    ensures NoneEmpty(EMPTY.entries)
  {
  }

  lemma PushNoneEmpty(h: HistoryState, entry: Entry)
    requires NoneEmpty(h.entries)
    ensures NoneEmpty(Pushed(h, entry).entries)
  {
    hide HistoryId;
  }

  lemma UpsertNoneEmpty(h: HistoryState, entry: Entry)
    requires NoneEmpty(h.entries)
    ensures NoneEmpty(Upserted(h, entry).entries)
  {
    hide ClipHistory.Without, Pushed;
    PushNoneEmpty(h, entry);
    var k := WithoutAt(h.entries, entry.entryId);
    var rest := ClipHistory.Without(h.entries, entry.entryId);
    assert forall i :: 0 <= i < |rest| ==> rest[i] == h.entries[if i < k then i else i + 1];
  }

  ghost predicate NoneEmpty(entries: seq<Entry>) {
    forall i :: 0 <= i < |entries| ==> entries[i].data != map[]
  }

  lemma {:induction false} FoundIsNotEmpty(entries: seq<Entry>, id: string)
    requires NoneEmpty(entries)
    ensures DataIn(entries, id) != Some(map[])
    decreases |entries|
  {
    if entries != [] {
      FoundIsNotEmpty(entries[1..], id);
    }
  }

  // ----- Content -----

  /** Everything stored anywhere has an allowed type and is at most 8 MiB. */
  lemma StoredIsClean(c: Config, events: seq<Event>)
    ensures var d := Run(c, events);
            && (d.bridge.Some? ==> Clean(d.bridge.value.data))
            && (d.published.Some? ==> Clean(d.published.value.data))
            && (d.currentHost.Some? ==> Clean(d.currentHost.value.data))
            && (forall i :: 0 <= i < |d.history.entries| ==> Clean(d.history.entries[i].data))
  {
    hide Run, Discovers, IsMimeAllowed, LogInv, PickerInv, AuditInv, HistoryInv;
    EveryRun(c, events);
  }

  /** Nothing is ever written out under a type the policy rejects, nor from anything but content that was read. */
  lemma ServedIsClean(c: Config, events: seq<Event>, i: nat)
    requires i < |Run(c, events).log| && IsServed(Run(c, events).log[i])
    ensures var d := Run(c, events); var act := d.log[i];
            && IsMimeAllowed(act.mime)
            && exists m, bytes :: (m, bytes) in d.received && IsMimeAllowed(m) && |bytes| <= MATERIALIZE_MAX_BYTES &&
                                  (act.bytes == bytes || c.html(bytes) == Some(act.bytes))
  {
    hide Run, Discovers, IsMimeAllowed, LogInv, PickerInv, AuditInv, HistoryInv;
    EveryRun(c, events);
    var d := Run(c, events);
    var act := d.log[i];
    var j := ServedFromAPick(c, events, i);
    var data := d.log[j].published.value;
    assert From(d.received, data);
    assert Clean(data);
    ServedIsAllowed(data, act.mime, c.html);
    var m :| m in data && (act.bytes == data[m] || c.html(data[m]) == Some(act.bytes));
    assert (m, data[m]) in d.received;
  }

  // ----- The parts of the state -----

  /** In a run with fewer than 2^64 recorded host copies the history is coherent. */
  lemma HistoryIsCoherent(c: Config, events: seq<Event>)
    requires Pushes(Run(c, events).changes) <= U64_MAX
    ensures Coherent(Run(c, events).history)
  {
    hide Run, Discovers, LogInv, ContentInv, PickerInv, AuditInv, RowInv, Coherent;
    EveryRun(c, events);
    HistoryStaysCoherent(Run(c, events).changes);
  }

  /** The live bridge selection has its own id, and agrees with the history row under that id while the row is kept. */
  lemma SelectionAgreesWithItsRow(c: Config, events: seq<Event>)
    requires Run(c, events).bridge.Some?
    ensures var d := Run(c, events); var b := d.bridge.value;
            && b.entryId == BridgeId(b.identity.canonicalTarget, b.sourceId)
            && (DataFor(d.history, b.entryId).None? || DataFor(d.history, b.entryId) == SelectedData(d, CURRENT_BRIDGE_ENTRY_ID))
  {
    hide Run, Discovers, LogInv, ContentInv, PickerInv, AuditInv, BridgeId, DataIn;
    EveryRun(c, events);
  }

  /** While the arming waits for a picker, one is active; and every picker ever spawned is accounted for. */
  lemma WaitingMeansActive(c: Config, events: seq<Event>)
    ensures var d := Run(c, events);
            Picker.Sound(d.pickers) && (d.fallback.PickerOpen? ==> d.pickers.active.Some?)
  {
    hide Run, Discovers, LogInv, ContentInv, AuditInv, HistoryInv, Picker.Sound;
    EveryRun(c, events);
  }

  /** The audit queue is empty whenever a request arrives, so no request is ever refused for want of room. */
  lemma AuditAlwaysHasRoom(c: Config, events: seq<Event>, realm: string)
    ensures Audit.HasRoom(Run(c, events).audit, AUDIT_QUOTA, realm)
  {
    hide Run, Discovers, LogInv, ContentInv, PickerInv, HistoryInv;
    EveryRun(c, events);
  }

  /** After a tick neither the active picker nor the armed paste is past its deadline. */
  lemma TickExpires(c: Config, d: State, now: nat, exits: Picker.Exits)
    ensures var r := Step(c, d, Tick(now, exits));
            && (r.pickers.active.Some? ==> now < r.pickers.active.value.deadline)
            && (r.fallback.Armed? ==> now < r.fallback.expiresAt)
            && (forall i :: 0 <= i < |r.pickers.terminating| ==>
                  r.pickers.terminating[i].killed || now < r.pickers.terminating[i].killAt)
  {
    var s := Picker.Expire(d.pickers, now);
    Picker.VisitAllKeepsActive(s.(terminating := []), s.terminating, now, exits);
    Picker.ReapKillsOverdue(s.(terminating := []), s.terminating, now, exits);
  }

  /** A published discovery always belongs to the live bridge selection, and carries its data. */
  lemma DiscoveryShowsTheSelection(c: Config, events: seq<Event>)
    ensures var d := Run(c, events);
            d.published.Some? && d.published.value.mode.Discovery? ==>
              && d.bridge.Some?
              && d.bridge.value.dataControlId == d.published.value.dataControlId
              && d.bridge.value.data == d.published.value.data
  {
    hide Run, LogInv, ContentInv, PickerInv, AuditInv, HistoryInv;
    EveryRun(c, events);
  }

  /** While the daemon has something published, announcements of the compositor change neither selection nor history. */
  lemma PublishedHidesTheHost(c: Config, events: seq<Event>, e: Event)
    requires e.SelectionChanged?
    ensures Run(c, events).published.Some? ==> Step(c, Run(c, events), e) == Run(c, events).(hostSelection := None)
  {
    hide Run, IsForwarded, MatchesSource, AllowedOf, OpenedOf, LogInv, ContentInv, PickerInv, AuditInv, HistoryInv;
    EveryRun(c, events);
  }
}
