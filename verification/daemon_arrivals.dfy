/** How what is copied on the host and by endpoints reaches the clipboard daemon's history. */
module DaemonArrivals {
  import opened Options
  import opened Policy
  import opened ClipHistory
  import opened Daemon
  import opened DaemonLog
  import opened DaemonRuns
  import opened DaemonState
  import opened Materialize
  import Audit
  import DaemonContent
  import Fallback
  import Picker

  // ----- Which windows belong to the endpoint that owns the selection -----

  /** `t` is `s` without the dots at its end. */
  ghost predicate Undotted(s: string, t: string) {
    t <= s && (forall i :: |t| <= i < |s| ==> s[i] == '.') && (t != "" ==> t[|t| - 1] != '.')
  }

  /** The application id names the endpoint: by its canonical target, or by the name of its virtual machine. */
  ghost predicate NamesEndpoint(appId: string, target: string, vm: Option<string>) {
    || "d2b." + target + "." <= appId
    || Undotted("d2b." + target + ".", appId)
    || (vm.Some? && (appId == "d2b." + vm.value || "d2b." + vm.value + "." <= appId))
  }

  lemma {:induction false} TrimDotsIs(s: string, t: string)
    ensures TrimDots(s) == t <==> Undotted(s, t)
    decreases |s|
  {
    if s != "" && s[|s| - 1] == '.' {
      var n := |s| - 1;
      TrimDotsIs(s[..n], t);
      if Undotted(s, t) {
        assert |t| <= n;
        assert t <= s[..n];
      }
    } else if Undotted(s, t) {
      assert |t| == |s|;
    }
  }

  lemma MatchesMeansNames(appId: string, identity: Identity)
    ensures AppMatchesEndpoint(Some(appId), identity) <==> NamesEndpoint(appId, identity.canonicalTarget, identity.legacyVmName)
  {
    hide TrimDots, Undotted;
    TrimDotsIs("d2b." + identity.canonicalTarget + ".", appId);
  }

  /** The application id is one the daemon gives to forwarded windows. */
  ghost predicate Forwarded(appId: string) {
    |appId| > 4 && appId[..4] == "d2b."
  }

  lemma ForwardedIs(appId: string)
    ensures IsForwarded(Some(appId)) <==> Forwarded(appId)
  {
  }

  /** The focused window belongs to the endpoint that owns the selection. */
  ghost predicate OwnWindow(d: State, appId: Option<string>) {
    && d.bridge.Some? && appId.Some?
    && NamesEndpoint(appId.value, d.bridge.value.identity.canonicalTarget, d.bridge.value.identity.legacyVmName)
  }

  lemma OwnWindowIs(d: State, window: Window)
    ensures MatchesSource(window, d.bridge) <==> OwnWindow(d, window.appId)
  {
    hide NamesEndpoint, TrimDots;
    if d.bridge.Some? && window.appId.Some? {
      MatchesMeansNames(window.appId.value, d.bridge.value.identity);
    }
  }

  // ----- Announcements of the host compositor -----

  /**
    * An announcement is ignored when no window has the focus, when the window is a forwarded one or
    * belongs to the endpoint that owns the selection, and while the daemon itself has something published.
    */
  ghost predicate Ignored(d: State, focused: Option<Window>) {
    || focused.None?
    || (focused.value.appId.Some? && Forwarded(focused.value.appId.value))
    || OwnWindow(d, focused.value.appId)
    || d.published.Some?
  }

  lemma IgnoredIsEcho(c: Config, events: seq<Event>, focused: Option<Window>)
    ensures var d := Run(c, events); IsEcho(d.bridge, d.published, focused) <==> Ignored(d, focused)
  {
    hide Run, OwnWindow, Forwarded, MatchesSource, IsForwarded, LogInv, DaemonContent.ContentInv, PickerInv, AuditInv, HistoryInv;
    EveryRun(c, events);
    if focused.Some? {
      OwnWindowIs(Run(c, events), focused.value);
      if focused.value.appId.Some? {
        ForwardedIs(focused.value.appId.value);
      } else {
        NobodyIsForwarded();
      }
    }
  }

  lemma NobodyIsForwarded()
    ensures !IsForwarded(None)
  {
  }

  /** Of the announced types the allowed ones are kept, in order. */
  lemma {:induction false} AllowedOfIsFilter(a: seq<string>, b: seq<string>, mime: string)
    ensures AllowedOf(a + b) == AllowedOf(a) + AllowedOf(b)
    ensures AllowedOf([mime]) == if IsMimeAllowed(mime) then [mime] else []
    decreases |a|
  {
    hide IsMimeAllowed;
    assert [mime][1..] == [];
    if a == [] {
      assert a + b == b;
    } else {
      AllowedOfIsFilter(a[1..], b, mime);
      assert (a + b)[1..] == a[1..] + b;
    }
  }

  /** Of the allowed types those that got a pipe are read, in order; without further pipes there are no more. */
  lemma {:induction false} OpenedOfIsFilter(a: seq<string>, p: seq<bool>, b: seq<string>, q: seq<bool>, mime: string, pipe: bool)
    requires |a| == |p|
    ensures OpenedOf(a + b, p + q) == OpenedOf(a, p) + OpenedOf(b, q)
    ensures OpenedOf([mime], [pipe]) == if pipe then [mime] else []
    ensures OpenedOf(b, []) == []
    decreases |a|
  {
    assert [mime][1..] == [] && [pipe][1..] == [];
    if a == [] {
      assert a + b == b && p + q == q;
    } else {
      OpenedOfIsFilter(a[1..], p[1..], b, q, mime, pipe);
      assert (a + b)[1..] == a[1..] + b && (p + q)[1..] == p[1..] + q;
    }
  }

  /** The types of the announcement that will be read. */
  ghost function Targets(e: Event): seq<string>
    requires e.SelectionChanged?
  {
    OpenedOf(AllowedOf(e.mimes), e.pipes)
  }

  /** The helper thread the announcement starts. */
  ghost function ReaderOf(e: Event): HostReader
    requires e.SelectionChanged?
  {
    HostReader(Entry("", HostRealm, None, map[], e.now), Targets(e))
  }

  /** There is an offer to read from, a type to read, a free permit and a thread. */
  ghost predicate Starts(e: Event)
    requires e.SelectionChanged?
  {
    e.live && Targets(e) != [] && e.permit && e.spawned
  }

  /**
    * After every run: an announcement that is ignored only forgets what was announced before. Any other
    * ends the endpoint's selection and whatever was published, armed or current, and has its types read.
    */
  lemma AnnouncementIsTakenUp(c: Config, events: seq<Event>, e: Event)
    requires e.SelectionChanged?
    ensures var d := Run(c, events); var r := Step(c, d, e);
            if Ignored(d, e.focused) then r == d.(hostSelection := None)
            else
              && r.bridge.None? && r.published.None? && r.currentHost.None? && r.fallback.Idle?
              && r.hostSelection == Some(HostSelection(e.live && AllowedOf(e.mimes) != [], AllowedOf(e.mimes)))
              && r.hostReaders == d.hostReaders + (if Starts(e) then [ReaderOf(e)] else [])
              && r.history == d.history && r.hostQueue == d.hostQueue && r.log == d.log && r.deviceBound == d.deviceBound
  {
    hide Run, IsEcho, Ignored, OpenedOf;
    IgnoredIsEcho(c, events, e.focused);
    var d := Run(c, events);
    NothingOpened(e.pipes);
    assert d.hostReaders + [] == d.hostReaders;
  }

  /** What the compositor last announced, told from the events: ignored announcements, and ends of selections, erase it. */
  ghost function LastAnnounced(c: Config, events: seq<Event>): Option<HostSelection> {
    if events == [] then None
    else
      var front, e := events[..|events| - 1], events[|events| - 1];
      var d := Run(c, front);
      match e
      case SelectionChanged(focused, mimes, live, _, _, _, _) =>
        if Ignored(d, focused) then None else Some(HostSelection(live && AllowedOf(mimes) != [], AllowedOf(mimes)))
      case SelectionCleared => None
      case SourceCancelled(id) =>
        if (d.published.Some? && d.published.value.dataControlId == id) || (d.bridge.Some? && d.bridge.value.dataControlId == id)
        then None else LastAnnounced(c, front)
      case _ => LastAnnounced(c, front)
  }

  lemma OthersKeepAnnouncement(c: Config, d: State, e: Event)
    requires !e.SelectionChanged? && !e.SelectionCleared? && !e.SourceCancelled?
    ensures Step(c, d, e).hostSelection == d.hostSelection && (Step(c, d, e).deviceBound <==> d.deviceBound || e.DeviceBound?)
  {
    hide OnPaste, OnSourceSend, OnSelect, PickerCandidates, Picker.Reap, Picker.Cancel, Picker.Expire, Picker.Launch, Read, ReadAll,
         Pushed, Upserted, Items, IsMimeAllowed, Extended, RowOf, Fallback.Next;
    match e
    case PasteRequest(identity, mime, sourceId, focused, writer, attempt, now) =>
      PasteKeepsTheRest(c, d, identity, mime, sourceId, focused, writer, attempt, now);
    case SourceSend(id, mime, focused, writer, attempt, now) => SendKeepsTheRest(c, d, id, mime, focused, writer, attempt, now);
    case Select(entryId, flushed, now) => SelectKeepsAnnouncement(d, entryId, flushed, now);
    case _ =>
  }

  lemma SelectKeepsAnnouncement(d: State, entryId: string, flushed: bool, now: nat)
    ensures var r := OnSelect(d, entryId, flushed, now); r.hostSelection == d.hostSelection && r.deviceBound == d.deviceBound
  {
    hide SelectedData, Picker.Cancel;
  }

  lemma EndsAnnouncement(c: Config, d: State, e: Event)
    requires e.SelectionCleared? || e.SourceCancelled?
    ensures var r := Step(c, d, e);
            && r.deviceBound == d.deviceBound
            && r.hostSelection ==
               if || e.SelectionCleared?
                  || (d.published.Some? && d.published.value.dataControlId == e.dataControlId)
                  || (d.bridge.Some? && d.bridge.value.dataControlId == e.dataControlId)
               then None else d.hostSelection
  {
  }

  /** Over every run: what counts as announced is the last announcement, and the device is bound once it has been reported. */
  lemma {:induction false} AnnouncementIsTheLast(c: Config, events: seq<Event>)
    ensures Run(c, events).hostSelection == LastAnnounced(c, events)
    ensures Run(c, events).deviceBound <==> exists i :: 0 <= i < |events| && events[i].DeviceBound?
    decreases |events|
  {
    hide Step, Ignored, AllowedOf, OpenedOf;
    if events != [] {
      var front, e := events[..|events| - 1], events[|events| - 1];
      AnnouncementIsTheLast(c, front);
      assert forall i :: 0 <= i < |front| ==> front[i] == events[i];
      if e.SelectionChanged? {
        AnnouncementIsTakenUp(c, front, e);
      } else if e.SelectionCleared? || e.SourceCancelled? {
        EndsAnnouncement(c, Run(c, front), e);
      } else {
        OthersKeepAnnouncement(c, Run(c, front), e);
      }
    }
  }

  lemma NothingOpened(pipes: seq<bool>)
    ensures OpenedOf([], pipes) == []
  {
  }

  // ----- What a helper thread reads -----

  /** The script of type `k` delivers these bytes: it is read to its end, within the cap. */
  ghost predicate Delivers(scripts: seq<seq<ReadStep>>, k: nat, bytes: Bytes) {
    && k < |scripts| && |bytes| <= 8_388_608
    && exists n: nat :: EndsAt(scripts[k], n) && bytes == BytesOf(scripts[k][..n])
  }

  /** The script of type `k` is over: something in it ends the read, or it bursts the cap. */
  ghost predicate Over(scripts: seq<seq<ReadStep>>, k: nat) {
    && k < |scripts|
    && ((exists i :: 0 <= i < |scripts[k]| && !Carries(scripts[k][i])) || |BytesOf(scripts[k])| > 8_388_608)
  }

  /**
    * The data is exactly what was delivered of these types: each type that was delivered, with the bytes of
    * its last delivery, and no other.
    */
  ghost predicate IsDelivered(mimes: seq<string>, scripts: seq<seq<ReadStep>>, data: Data) {
    && (forall k, bytes :: 0 <= k < |mimes| && Delivers(scripts, k, bytes) ==> mimes[k] in data)
    && (forall m :: m in data ==> exists k :: LastDelivery(mimes, scripts, m, k, data[m]))
  }

  ghost predicate LastDelivery(mimes: seq<string>, scripts: seq<seq<ReadStep>>, m: string, k: int, bytes: Bytes) {
    && 0 <= k < |mimes| && mimes[k] == m && Delivers(scripts, k, bytes)
    && forall j, other :: k < j < |mimes| && mimes[j] == m ==> !Delivers(scripts, j, other)
  }

  lemma DeliversIff(scripts: seq<seq<ReadStep>>, k: nat, bytes: Bytes)
    requires k < |scripts|
    ensures Delivers(scripts, k, bytes) <==> Read([], scripts[k], MATERIALIZE_MAX_BYTES) == Complete(bytes)
    ensures Over(scripts, k) <==> !Read([], scripts[k], MATERIALIZE_MAX_BYTES).Pending?
  {
    hide Read, EndsAt, Carries;
    CompleteIff([], scripts[k], MATERIALIZE_MAX_BYTES, bytes);
    PendingIff([], scripts[k], MATERIALIZE_MAX_BYTES);
    assert forall n: nat :: n <= |scripts[k]| ==> [] + BytesOf(scripts[k][..n]) == BytesOf(scripts[k][..n]);
    assert forall n: nat :: EndsAt(scripts[k], n) ==> n <= |scripts[k]| by { EndsInside(scripts[k]); }
  }

  lemma EndsInside(steps: seq<ReadStep>)
    ensures forall n: nat :: EndsAt(steps, n) ==> n < |steps|
  {
  }

  /** What is read after `k` types, for every `k`. */
  ghost function ReadUpTo(mimes: seq<string>, scripts: seq<seq<ReadStep>>, k: nat): Data
    requires k <= |mimes| && k <= |scripts|
  {
    if k == 0 then map[]
    else
      var before := ReadUpTo(mimes, scripts, k - 1);
      var r := Read([], scripts[k - 1], MATERIALIZE_MAX_BYTES);
      if r.Complete? then before[mimes[k - 1] := r.bytes] else before
  }

  lemma {:induction false} ReadAllFrom(mimes: seq<string>, scripts: seq<seq<ReadStep>>, k: nat)
    requires k <= |mimes| <= |scripts|
    requires forall j :: k <= j < |mimes| ==> !Read([], scripts[j], MATERIALIZE_MAX_BYTES).Pending?
    ensures ReadAll(mimes[k..], scripts[k..], ReadUpTo(mimes, scripts, k)) == Some(ReadUpTo(mimes, scripts, |mimes|))
    decreases |mimes| - k
  {
    hide Read;
    if k < |mimes| {
      ReadAllFrom(mimes, scripts, k + 1);
      assert mimes[k..][1..] == mimes[k + 1..] && scripts[k..][1..] == scripts[k + 1..];
    }
  }

  lemma {:induction false} ReadUpToIsDelivered(mimes: seq<string>, scripts: seq<seq<ReadStep>>, k: nat)
    requires k <= |mimes| && k <= |scripts|
    ensures IsDelivered(mimes[..k], scripts, ReadUpTo(mimes, scripts, k))
    decreases k
  {
    hide Read, Delivers, LastDelivery;
    if k > 0 {
      var n := k - 1;
      ReadUpToIsDelivered(mimes, scripts, n);
      var before, after := ReadUpTo(mimes, scripts, n), ReadUpTo(mimes, scripts, k);
      forall j, bytes | 0 <= j < k && Delivers(scripts, j, bytes) ensures mimes[..k][j] in after {
        DeliversIff(scripts, j, bytes);
        if j < n {
          assert mimes[..n][j] == mimes[..k][j];
        }
      }
      forall m | m in after ensures exists j :: LastDelivery(mimes[..k], scripts, m, j, after[m]) {
        OneMoreDelivery(mimes, scripts, k, m);
      }
    }
  }

  lemma OneMoreDelivery(mimes: seq<string>, scripts: seq<seq<ReadStep>>, k: nat, m: string)
    requires 0 < k <= |mimes| && k <= |scripts|
    requires IsDelivered(mimes[..k - 1], scripts, ReadUpTo(mimes, scripts, k - 1))
    requires m in ReadUpTo(mimes, scripts, k)
    ensures exists j :: LastDelivery(mimes[..k], scripts, m, j, ReadUpTo(mimes, scripts, k)[m])
  {
    hide Read, Delivers;
    var n := k - 1;
    var before, after := ReadUpTo(mimes, scripts, n), ReadUpTo(mimes, scripts, k);
    var r := Read([], scripts[n], MATERIALIZE_MAX_BYTES);
    if r.Complete? {
      DeliversIff(scripts, n, r.bytes);
    }
    if r.Complete? && mimes[n] == m {
      assert LastDelivery(mimes[..k], scripts, m, n, after[m]);
    } else {
      var j :| LastDelivery(mimes[..n], scripts, m, j, before[m]);
      forall i, other | j < i < k && mimes[..k][i] == m ensures !Delivers(scripts, i, other) {
        if i < n {
          assert mimes[..n][i] == m;
        } else {
          DeliversIff(scripts, n, other);
        }
      }
      assert LastDelivery(mimes[..k], scripts, m, j, after[m]);
    }
  }

  /** Once every read is over, what has been read is exactly what was delivered. */
  lemma ReadAllDelivers(mimes: seq<string>, scripts: seq<seq<ReadStep>>)
    requires |mimes| <= |scripts| && forall k :: 0 <= k < |mimes| ==> Over(scripts, k)
    ensures var r := ReadAll(mimes, scripts, map[]); r.Some? && IsDelivered(mimes, scripts, r.value)
  {
    hide Read, Over, IsDelivered, ReadAll;
    forall k | 0 <= k < |mimes| ensures !Read([], scripts[k], MATERIALIZE_MAX_BYTES).Pending? {
      DeliversIff(scripts, k, []);
    }
    ReadAllFrom(mimes, scripts, 0);
    assert mimes[0..] == mimes && scripts[0..] == scripts;
    ReadUpToIsDelivered(mimes, scripts, |mimes|);
    assert mimes[..|mimes|] == mimes;
  }

  // ----- The queues between helper threads and the event loop -----

  lemma OthersKeepQueues(c: Config, d: State, e: Event)
    requires !e.CopyRequest? && !e.CopyRead? && !e.CopyArrived? && !e.SelectionChanged? && !e.HostRead? && !e.HostArrived?
    ensures var r := Step(c, d, e);
            && r.copyReaders == d.copyReaders && r.copyQueue == d.copyQueue
            && r.hostReaders == d.hostReaders && r.hostQueue == d.hostQueue
  {
    hide OnPaste, OnSourceSend, OnSelect, PickerCandidates, Picker.Reap, Picker.Cancel, Picker.Expire, Picker.Launch,
         Fallback.Next;
    match e
    case PasteRequest(identity, mime, sourceId, focused, writer, attempt, now) =>
      PasteKeepsTheRest(c, d, identity, mime, sourceId, focused, writer, attempt, now);
    case SourceSend(id, mime, focused, writer, attempt, now) => SendKeepsTheRest(c, d, id, mime, focused, writer, attempt, now);
    case Select(entryId, flushed, now) => SelectKeepsQueues(d, entryId, flushed, now);
    case _ =>
  }

  lemma SelectKeepsQueues(d: State, entryId: string, flushed: bool, now: nat)
    ensures var r := OnSelect(d, entryId, flushed, now);
            && r.copyReaders == d.copyReaders && r.copyQueue == d.copyQueue
            && r.hostReaders == d.hostReaders && r.hostQueue == d.hostQueue
  {
    hide SelectedData, Picker.Cancel;
  }

  /** The host queue grows at its end when a thread finishes, and shrinks at its head when an entry is taken up. */
  lemma HostQueueStep(c: Config, d: State, e: Event)
    ensures var r := Step(c, d, e);
            if e.HostArrived? && d.hostQueue != [] then r.hostQueue == d.hostQueue[1..] else d.hostQueue <= r.hostQueue
  {
    if e.CopyRequest? || e.CopyRead? || e.CopyArrived? || e.SelectionChanged? || e.HostRead? || e.HostArrived? {
      hide Read, ReadAll, IsEcho, AllowedOf, OpenedOf, Pushed, Upserted, Items, IsMimeAllowed, Extended, RowOf, Fallback.Next;
    } else {
      hide Step;
      OthersKeepQueues(c, d, e);
    }
  }

  lemma CopyQueueStep(c: Config, d: State, e: Event)
    ensures var r := Step(c, d, e);
            if e.CopyArrived? && d.copyQueue != [] then r.copyQueue == d.copyQueue[1..] else d.copyQueue <= r.copyQueue
  {
    if e.CopyRequest? || e.CopyRead? || e.CopyArrived? || e.SelectionChanged? || e.HostRead? || e.HostArrived? {
      hide Read, ReadAll, IsEcho, AllowedOf, OpenedOf, Pushed, Upserted, Items, IsMimeAllowed, Extended, RowOf, Fallback.Next;
    } else {
      hide Step;
      OthersKeepQueues(c, d, e);
    }
  }

  /** How many entries the event loop takes up from the host queue in the events `m` to `n`. */
  ghost function HostTakes(c: Config, events: seq<Event>, m: nat, n: nat): nat
    requires m <= n <= |events|
    decreases n
  {
    if m == n then 0
    else
      HostTakes(c, events, m, n - 1) +
      if events[n - 1].HostArrived? && Run(c, events[..n - 1]).hostQueue != [] then 1 else 0
  }

  ghost function CopyTakes(c: Config, events: seq<Event>, m: nat, n: nat): nat
    requires m <= n <= |events|
    decreases n
  {
    if m == n then 0
    else
      CopyTakes(c, events, m, n - 1) +
      if events[n - 1].CopyArrived? && Run(c, events[..n - 1]).copyQueue != [] then 1 else 0
  }

  lemma RunOneMore(c: Config, events: seq<Event>, n: nat)
    requires n < |events|
    ensures Run(c, events[..n + 1]) == Step(c, Run(c, events[..n]), events[n])
  {
    hide Step;
    assert events[..n + 1][..n] == events[..n];
  }

  /** First in, first out: after as many have been taken up, an entry that was queued is at the head. */
  lemma {:induction false} HostQueueIsInOrder(c: Config, events: seq<Event>, m: nat, n: nat)
    requires m <= n <= |events|
    requires HostTakes(c, events, m, n) <= |Run(c, events[..m]).hostQueue|
    ensures Run(c, events[..m]).hostQueue[HostTakes(c, events, m, n)..] <= Run(c, events[..n]).hostQueue
    decreases n
  {
    hide Step, Run;
    if m < n {
      HostQueueIsInOrder(c, events, m, n - 1);
      RunOneMore(c, events, n - 1);
      HostQueueStep(c, Run(c, events[..n - 1]), events[n - 1]);
    }
  }

  lemma {:induction false} CopyQueueIsInOrder(c: Config, events: seq<Event>, m: nat, n: nat)
    requires m <= n <= |events|
    requires CopyTakes(c, events, m, n) <= |Run(c, events[..m]).copyQueue|
    ensures Run(c, events[..m]).copyQueue[CopyTakes(c, events, m, n)..] <= Run(c, events[..n]).copyQueue
    decreases n
  {
    hide Step, Run;
    if m < n {
      CopyQueueIsInOrder(c, events, m, n - 1);
      RunOneMore(c, events, n - 1);
      CopyQueueStep(c, Run(c, events[..n - 1]), events[n - 1]);
    }
  }

  // ----- Helper threads stay at work until they are done -----

  /** The event is this thread's report, with every read over. */
  ghost predicate Finishes(d: State, e: Event, reader: HostReader) {
    && e.HostRead? && e.index < |d.hostReaders| && d.hostReaders[e.index] == reader
    && |reader.mimes| <= |e.scripts| && forall k :: 0 <= k < |reader.mimes| ==> Over(e.scripts, k)
  }

  lemma {:induction false} ReadAllNeedsAll(mimes: seq<string>, scripts: seq<seq<ReadStep>>, data: Data)
    requires ReadAll(mimes, scripts, data).Some?
    ensures |mimes| <= |scripts| && forall k :: 0 <= k < |mimes| ==> Over(scripts, k)
    decreases |mimes|
  {
    hide Read, Over;
    if mimes != [] {
      DeliversIff(scripts, 0, []);
      var r := Read([], scripts[0], MATERIALIZE_MAX_BYTES);
      var more := if r.Complete? then data[mimes[0] := r.bytes] else data;
      ReadAllNeedsAll(mimes[1..], scripts[1..], more);
      forall k | 0 <= k < |mimes| ensures Over(scripts, k) {
        if k > 0 {
          OverShifts(scripts, k - 1);
        }
      }
    }
  }

  lemma OverShifts(scripts: seq<seq<ReadStep>>, k: nat)
    requires scripts != []
    ensures Over(scripts[1..], k) <==> Over(scripts, k + 1)
  {
  }

  lemma ReadersStep(c: Config, d: State, e: Event, reader: HostReader)
    requires reader in d.hostReaders
    ensures reader in Step(c, d, e).hostReaders || Finishes(d, e, reader)
  {
    if e.HostRead? {
      HostReadKeepsOthers(d, e.index, e.scripts, reader);
    } else if e.CopyRequest? || e.CopyRead? || e.CopyArrived? || e.SelectionChanged? || e.HostArrived? {
      hide Read, ReadAll, IsEcho, AllowedOf, OpenedOf, Pushed, Upserted, Items, IsMimeAllowed, Extended, RowOf, Fallback.Next;
    } else {
      hide Step;
      OthersKeepQueues(c, d, e);
    }
  }

  lemma HostReadKeepsOthers(d: State, index: nat, scripts: seq<seq<ReadStep>>, reader: HostReader)
    requires reader in d.hostReaders
    ensures reader in OnHostRead(d, index, scripts).hostReaders || Finishes(d, HostRead(index, scripts), reader)
  {
    hide ReadAll, Items, Over;
    if index < |d.hostReaders| && ReadAll(d.hostReaders[index].mimes, scripts, map[]).Some? {
      if d.hostReaders[index] == reader {
        ReadAllNeedsAll(reader.mimes, scripts, map[]);
      } else {
        var i :| 0 <= i < |d.hostReaders| && d.hostReaders[i] == reader;
        StillThere(d.hostReaders, index, i);
      }
    }
  }

  lemma StillThere<T>(s: seq<T>, index: nat, i: nat)
    requires index < |s| && i < |s| && i != index
    ensures s[i] in Remove(s, index)
  {
    var r := Remove(s, index);
    assert r[if i < index then i else i - 1] == s[i];
  }

  /** Over every run: a thread that an announcement started stays at work until it has reported. */
  lemma {:induction false} ReaderStays(c: Config, events: seq<Event>, a: nat, n: nat)
    requires a < n <= |events| && events[a].SelectionChanged? && Starts(events[a])
    requires !Ignored(Run(c, events[..a]), events[a].focused)
    ensures || ReaderOf(events[a]) in Run(c, events[..n]).hostReaders
            || exists b :: a < b < n && Finishes(Run(c, events[..b]), events[b], ReaderOf(events[a]))
    decreases n
  {
    hide Run, Step, Ignored, Finishes, ReaderOf, Starts;
    RunOneMore(c, events, n - 1);
    if a == n - 1 {
      AnnouncementIsTakenUp(c, events[..a], events[a]);
    } else {
      ReaderStays(c, events, a, n - 1);
      if ReaderOf(events[a]) in Run(c, events[..n - 1]).hostReaders {
        ReadersStep(c, Run(c, events[..n - 1]), events[n - 1], ReaderOf(events[a]));
      }
    }
  }

  // ----- No helper thread reports twice -----

  /** How many threads announcements have started. */
  ghost function HostStarted(c: Config, events: seq<Event>): nat {
    if events == [] then 0
    else
      var front, e := events[..|events| - 1], events[|events| - 1];
      HostStarted(c, front) + if e.SelectionChanged? && !Ignored(Run(c, front), e.focused) && Starts(e) then 1 else 0
  }

  /** How many of them have reported. */
  ghost function HostReported(c: Config, events: seq<Event>): nat {
    if events == [] then 0
    else
      var front, e := events[..|events| - 1], events[|events| - 1];
      HostReported(c, front) +
      if exists reader :: Finishes(Run(c, front), e, reader) then 1 else 0
  }

  lemma HostReadCounts(d: State, e: Event)
    requires e.HostRead?
    ensures |OnHostRead(d, e.index, e.scripts).hostReaders| ==
            |d.hostReaders| - if exists reader :: Finishes(d, e, reader) then 1 else 0
  {
    hide ReadAll, Over, Items, IsDelivered;
    if e.index < |d.hostReaders| {
      var mimes := d.hostReaders[e.index].mimes;
      if ReadAll(mimes, e.scripts, map[]).Some? {
        ReadAllNeedsAll(mimes, e.scripts, map[]);
        assert Finishes(d, e, d.hostReaders[e.index]);
      }
      forall reader | Finishes(d, e, reader) ensures ReadAll(mimes, e.scripts, map[]).Some? {
        ReadAllDelivers(reader.mimes, e.scripts);
      }
    }
  }

  lemma OthersKeepReaders(c: Config, d: State, e: Event)
    requires !e.SelectionChanged? && !e.HostRead?
    ensures Step(c, d, e).hostReaders == d.hostReaders
  {
    if e.CopyRequest? || e.CopyRead? || e.CopyArrived? || e.HostArrived? {
      hide Read, Pushed, Upserted, IsMimeAllowed, Extended, RowOf;
    } else {
      hide Step;
      OthersKeepQueues(c, d, e);
    }
  }

  /** Over every run each thread that was started is still at work or has reported once. */
  lemma {:induction false} HostReadersAreConserved(c: Config, events: seq<Event>)
    ensures HostStarted(c, events) == |Run(c, events).hostReaders| + HostReported(c, events)
    decreases |events|
  {
    hide Step, Ignored, Starts, ReaderOf, Finishes;
    if events != [] {
      var front, e := events[..|events| - 1], events[|events| - 1];
      HostReadersAreConserved(c, front);
      var d := Run(c, front);
      if e.SelectionChanged? {
        AnnouncementIsTakenUp(c, front, e);
        OnlyReportsFinish(d, e);
      } else if e.HostRead? {
        HostReadCounts(d, e);
        HostReadStep(c, d, e);
      } else {
        OthersKeepReaders(c, d, e);
        OnlyReportsFinish(d, e);
      }
    }
  }

  lemma HostReadStep(c: Config, d: State, e: Event)
    requires e.HostRead?
    ensures Step(c, d, e) == OnHostRead(d, e.index, e.scripts)
  {
    hide OnHostRead;
  }

  lemma OnlyReportsFinish(d: State, e: Event)
    requires !e.HostRead?
    ensures !exists reader :: Finishes(d, e, reader)
  {
  }

  // ----- From the announcement to the history -----

  lemma HostReadQueues(d: State, e: Event, reader: HostReader)
    requires Finishes(d, e, reader)
    ensures var r := OnHostRead(d, e.index, e.scripts);
            exists data :: IsDelivered(reader.mimes, e.scripts, data) &&
                           r.hostQueue == d.hostQueue + (if data == map[] then [] else [reader.entry.(data := data)])
  {
    hide ReadAll, Over, IsDelivered, Items;
    ReadAllDelivers(reader.mimes, e.scripts);
    var data := ReadAll(reader.mimes, e.scripts, map[]).value;
    assert d.hostQueue + [] == d.hostQueue;
    assert IsDelivered(reader.mimes, e.scripts, data);
  }

  /** The newest history row and the current host entry are of the host, of that moment, and hold this data. */
  ghost predicate HoldsHostCopy(d: State, data: Data, timestamp: nat) {
    && d.history.entries != []
    && d.history.entries[0].data == data && d.history.entries[0].realmKind.HostRealm?
    && d.history.entries[0].canonicalTarget.None? && d.history.entries[0].timestamp == timestamp
    && d.currentHost.Some?
    && d.currentHost.value.data == data && d.currentHost.value.realmKind.HostRealm?
    && d.currentHost.value.canonicalTarget.None? && d.currentHost.value.timestamp == timestamp
  }

  lemma TakenUp(d: State, entry: Entry)
    requires d.hostQueue != [] && d.hostQueue[0] == entry && entry.data != map[]
    requires entry.realmKind.HostRealm? && entry.canonicalTarget.None?
    ensures HoldsHostCopy(OnHostArrived(d), entry.data, entry.timestamp)
  {
    hide HistoryId;
  }

  lemma DeliveredIsUnique(mimes: seq<string>, scripts: seq<seq<ReadStep>>, a: Data, b: Data)
    requires IsDelivered(mimes, scripts, a) && IsDelivered(mimes, scripts, b)
    ensures a == b
  {
    hide Delivers;
    forall m ensures m in a <==> m in b {
      if m in a {
        var k :| LastDelivery(mimes, scripts, m, k, a[m]);
      }
      if m in b {
        var k :| LastDelivery(mimes, scripts, m, k, b[m]);
      }
    }
    forall m | m in a && m in b ensures a[m] == b[m] {
      var j :| LastDelivery(mimes, scripts, m, j, a[m]);
      var k :| LastDelivery(mimes, scripts, m, k, b[m]);
      assert j == k;
      DeliversOne(scripts, j, a[m], b[m]);
    }
  }

  lemma DeliversOne(scripts: seq<seq<ReadStep>>, k: nat, a: Bytes, b: Bytes)
    requires Delivers(scripts, k, a) && Delivers(scripts, k, b)
    ensures a == b
  {
    hide Read, Delivers;
    assert k < |scripts| by { DeliversInside(scripts, k, a); }
    DeliversIff(scripts, k, a);
    DeliversIff(scripts, k, b);
  }

  lemma DeliversInside(scripts: seq<seq<ReadStep>>, k: nat, bytes: Bytes)
    requires Delivers(scripts, k, bytes)
    ensures k < |scripts|
  {
  }

  /**
    * Over every run: the event at `a` announces a selection that is not ignored and whose types are read,
    * the event at `b` is the report of the thread it started, and the event at `t` takes up what that thread
    * had queued, once all that was queued before has been taken up. Then the newest row of the history and
    * the current host entry hold exactly what was delivered of each type, with the time of the announcement.
    */
  lemma HostCopyArrives(c: Config, events: seq<Event>, a: nat, b: nat, t: nat, data: Data)
    requires a < b < t < |events| && events[a].SelectionChanged? && Starts(events[a])
    requires !Ignored(Run(c, events[..a]), events[a].focused)
    requires Finishes(Run(c, events[..b]), events[b], ReaderOf(events[a]))
    requires IsDelivered(Targets(events[a]), events[b].scripts, data) && data != map[]
    requires events[t].HostArrived?
    requires HostTakes(c, events, b + 1, t) == |Run(c, events[..b]).hostQueue|
    ensures HoldsHostCopy(Run(c, events[..t + 1]), data, events[a].now)
  {
    hide Run, Ignored, IsDelivered, Starts, Targets, Over, HostTakes, OnHostRead, OnHostArrived;
    var reader := ReaderOf(events[a]);
    var before := Run(c, events[..b]);
    RunOneMore(c, events, b);
    HostReadQueues(before, events[b], reader);
    var read :| IsDelivered(reader.mimes, events[b].scripts, read) &&
                OnHostRead(before, events[b].index, events[b].scripts).hostQueue ==
                before.hostQueue + (if read == map[] then [] else [reader.entry.(data := read)]);
    DeliveredIsUnique(reader.mimes, events[b].scripts, read, data);
    HostQueueIsInOrder(c, events, b + 1, t);
    RunOneMore(c, events, t);
    TakenUp(Run(c, events[..t]), reader.entry.(data := data));
  }

  // ----- Copies by endpoints -----

  /**
    * A request to copy of a rejected type does nothing. With a permit and a thread the type is read;
    * without a permit an empty report is queued.
    */
  lemma CopyIsRead(c: Config, d: State, identity: Identity, mime: string, sourceId: nat, permit: bool, spawned: bool)
    ensures var r := Step(c, d, CopyRequest(identity, mime, sourceId, permit, spawned));
            r == if !IsMimeAllowed(mime) then d
                 else if !permit then d.(copyQueue := d.copyQueue + [CopyReady(identity, mime, sourceId, None)])
                 else d.(copyReaders := d.copyReaders + (if spawned then [CopyReader(identity, mime, sourceId)] else []))
  {
    hide IsMimeAllowed;
    assert d.copyReaders + [] == d.copyReaders;
  }

  /** The event is this thread's report that it has read these bytes. */
  ghost predicate Reports(d: State, e: Event, reader: CopyReader, bytes: Bytes) {
    && e.CopyRead? && e.index < |d.copyReaders| && d.copyReaders[e.index] == reader
    && Delivers([e.steps], 0, bytes)
  }

  /**
    * The endpoint's selection, as it was if it is the same selection and new otherwise, now also has this
    * type; the newest history row is that selection's and has the same data; and no host entry is current.
    */
  ghost predicate HoldsCopy(before: State, after: State, reader: CopyReader, bytes: Bytes, now: nat) {
    && after.bridge.Some? && after.history.entries != []
    && var b, row := after.bridge.value, after.history.entries[0];
       var same := before.bridge.Some? && before.bridge.value.identity == reader.identity &&
                   before.bridge.value.sourceId == reader.sourceId;
       && b.identity == reader.identity && b.sourceId == reader.sourceId
       && b.data == (if same then before.bridge.value.data else map[])[reader.mime := bytes]
       && b.timestamp == (if same then before.bridge.value.timestamp else now)
       && row.entryId == BridgeId(reader.identity.canonicalTarget, reader.sourceId)
       && row.data == b.data && row.timestamp == b.timestamp
       && row.canonicalTarget == Some(reader.identity.canonicalTarget)
       && row.realmKind == (if reader.identity.providerKind == "unsafe-local" then UnsafeLocalRealm else VmRealm)
       && after.currentHost.None?
  }

  lemma CopyTakenUp(d: State, reader: CopyReader, bytes: Bytes, flushed: bool, now: nat)
    requires d.copyQueue != [] && d.copyQueue[0] == CopyReady(reader.identity, reader.mime, reader.sourceId, Some(bytes))
    requires RowInv(d.bridge, d.history)
    ensures var r := OnCopyArrived(d, flushed, now);
            && HoldsCopy(d, r, reader, bytes, now)
            && (d.deviceBound && flushed ==>
                  r.published.Some? && r.published.value.mode.Discovery? && r.published.value.data == r.bridge.value.data)
  {
    hide BridgeId, DataIn, ClipHistory.Without;
    var target, id := reader.identity.canonicalTarget, reader.sourceId;
    var b := Extended(d.bridge, d.copyQueue[0], bytes, now);
    assert reader.mime in b.data;
    assert b.entryId == BridgeId(target, id);
    IdsAreDisjoint(target, id, 0);
    assert Upserted(d.history, RowOf(b)).entries[0] == RowOf(b);
  }

  /** The endpoint's thread has something to report: its read is over. */
  ghost predicate IsDone(d: State, e: Event) {
    e.CopyRead? && e.index < |d.copyReaders| && Over([e.steps], 0)
  }

  /** One report ends one thread and queues one answer, with the bytes if the read came to its end within the cap. */
  lemma CopyReportsOnce(c: Config, d: State, e: Event)
    requires e.CopyRead?
    ensures var r := Step(c, d, e);
            if IsDone(d, e) then
              && r.copyReaders == d.copyReaders[..e.index] + d.copyReaders[e.index + 1..]
              && |r.copyQueue| == |d.copyQueue| + 1 && r.copyQueue[..|d.copyQueue|] == d.copyQueue
              && var ready, reader := r.copyQueue[|d.copyQueue|], d.copyReaders[e.index];
                 && ready.identity == reader.identity && ready.mime == reader.mime && ready.sourceId == reader.sourceId
                 && (ready.result.Some? ==> Delivers([e.steps], 0, ready.result.value))
                 && (ready.result.None? ==> forall bytes :: !Delivers([e.steps], 0, bytes))
            else r == d
  {
    hide Read, Delivers, Over;
    var scripts := [e.steps];
    forall bytes: Bytes ensures Delivers(scripts, 0, bytes) <==> Read([], e.steps, MATERIALIZE_MAX_BYTES) == Complete(bytes) {
      DeliversIff(scripts, 0, bytes);
    }
    DeliversIff(scripts, 0, []);
  }

  lemma CopyReadQueues(d: State, e: Event, reader: CopyReader, bytes: Bytes)
    requires Reports(d, e, reader, bytes)
    ensures OnCopyRead(d, e.index, e.steps).copyQueue ==
            d.copyQueue + [CopyReady(reader.identity, reader.mime, reader.sourceId, Some(bytes))]
  {
    hide Read, Delivers;
    DeliversIff([e.steps], 0, bytes);
  }

  /**
    * Over every run: the event at `b` is a thread's report of what it read from an endpoint, and the event at
    * `t` takes it up once all that was queued before has been taken up. Then the endpoint's selection and the
    * newest history row have what was read under its type, beside the types the same selection already had,
    * and it is offered to the compositor where the device is bound.
    */
  lemma EndpointCopyArrives(c: Config, events: seq<Event>, b: nat, t: nat, reader: CopyReader, bytes: Bytes)
    requires b < t < |events|
    requires Reports(Run(c, events[..b]), events[b], reader, bytes)
    requires events[t].CopyArrived?
    requires CopyTakes(c, events, b + 1, t) == |Run(c, events[..b]).copyQueue|
    ensures var before, after := Run(c, events[..t]), Run(c, events[..t + 1]);
            && HoldsCopy(before, after, reader, bytes, events[t].now)
            && (before.deviceBound && events[t].flushed ==>
                  && after.published.Some? && after.published.value.mode.Discovery?
                  && after.published.value.data == after.bridge.value.data)
  {
    hide Run, HoldsCopy, CopyTakes, OnCopyRead, OnCopyArrived, LogInv, DaemonContent.ContentInv, PickerInv, AuditInv, Discovers,
      RowInv, Delivers;
    var before := Run(c, events[..b]);
    RunOneMore(c, events, b);
    CopyReadQueues(before, events[b], reader, bytes);
    CopyQueueIsInOrder(c, events, b + 1, t);
    RunOneMore(c, events, t);
    EveryRun(c, events[..t]);
    CopyTakenUp(Run(c, events[..t]), reader, bytes, events[t].flushed, events[t].now);
  }
}
