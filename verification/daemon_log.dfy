/** Who the clipboard daemon serves, and after what. */
module DaemonLog {
  import opened Options
  import opened Policy
  import opened ClipHistory
  import opened Daemon
  import Audit
  import Materialize
  import Picker

  type Html = Bytes -> Option<Bytes>

  /** Opening a picker, or failing to, touches only the arming, the supervisor and the log. */
  lemma OpenPickerFrame(
    c: Config, d: State, window: Window, mime: string, candidates: seq<Candidate>, attempt: Attempt, now: nat)
    ensures var r := OpenPicker(c, d, window, mime, candidates, attempt, now);
            && r == d.(fallback := r.fallback, pickers := r.pickers, log := r.log)
            && (r.log == d.log || r.log == d.log + [Offered(mime, candidates)])
  {
  }

  /** The data of the latest published pick that no direct paste has used up. */
  function Token(log: seq<Act>): Option<Data> {
    if log == [] then None
    else
      var front, last := log[..|log| - 1], log[|log| - 1];
      match last
      case Picked(_, published) => if published.Some? then published else Token(front)
      case Pasted(_, _, _) => None
      case _ => Token(front)
  }

  ghost predicate ServedBy(html: Html, before: seq<Act>, mime: string, bytes: Bytes) {
    Token(before).Some? && CompatiblePayload(Token(before).value, mime, html) == Some(bytes)
  }

  /** The last thing to happen was that this request's Allow record was accepted. */
  ghost predicate JustAllowed(before: seq<Act>, requestId: string, mime: string) {
    && before != []
    && var last := before[|before| - 1];
       && last.Accepted? && last.event.decision.Allow?
       && last.event.requestId == requestId && last.event.mimeType == mime
  }

  ghost predicate ActOk(html: Html, before: seq<Act>, act: Act) {
    match act
    case Pasted(requestId, mime, bytes) => ServedBy(html, before, mime, bytes) && JustAllowed(before, requestId, mime)
    case Sent(mime, bytes) => ServedBy(html, before, mime, bytes)
    case _ => true
  }

  ghost predicate LogOk(html: Html, log: seq<Act>) {
    forall i :: 0 <= i < |log| ==> ActOk(html, log[..i], log[i])
  }

  predicate IsSelected(d: State) {
    d.published.Some? && d.published.value.mode.Selected?
  }

  ghost predicate LogInv(c: Config, d: State) {
    LogOk(c.html, d.log) && (IsSelected(d) ==> Token(d.log) == Some(d.published.value.data))
  }

  lemma LogMore(html: Html, log: seq<Act>, act: Act)
    requires LogOk(html, log) && ActOk(html, log, act)
    ensures LogOk(html, log + [act])
  {
    hide ActOk;
    var more := log + [act];
    forall i | 0 <= i < |more| ensures ActOk(html, more[..i], more[i]) {
      assert more[..i] == log[..i];
      if i == |log| {
        assert log[..i] == log;
      }
    }
  }

  lemma TokenMore(log: seq<Act>, act: Act)
    ensures act.Accepted? || act.Sent? || act.Offered? || (act.Picked? && act.published.None?) ==>
              Token(log + [act]) == Token(log)
    ensures act.Pasted? ==> Token(log + [act]) == None
    ensures act.Picked? && act.published.Some? ==> Token(log + [act]) == act.published
  {
    assert (log + [act])[..|log|] == log;
  }

  lemma PasteKeepsLog(c: Config, d: State, identity: Identity, mime: string, sourceId: nat, focused: Option<Window>,
                      writer: Writer, attempt: Attempt, now: nat)
    requires LogInv(c, d)
    ensures LogInv(c, OnPaste(c, d, identity, mime, sourceId, focused, writer, attempt, now))
  {
    hide LogOk, Token, OpenPicker, CompatiblePayload, PickerCandidates, IsMimeAllowed, RequestId, PasteWindow;
    var event := PasteAudit(identity, mime, sourceId, if IsMimeAllowed(mime) then Audit.Allow else Audit.Deny);
    var audited := Audited(d, event);
    LogMore(c.html, d.log, Accepted(event));
    TokenMore(d.log, Accepted(event));
    var taken := if IsSelected(d) then audited.(published := None) else audited;
    var candidates := PickerCandidates(c, d.history, d.hostSelection, d.currentHost, mime, now);
    var window := PasteWindow(identity, focused);
    OpenPickerFrame(c, taken, window, mime, candidates, attempt, now);
    TokenMore(taken.log, Offered(mime, candidates));
    LogMore(c.html, taken.log, Offered(mime, candidates));
    if IsSelected(d) && IsMimeAllowed(mime) && Audit.HasRoom(d.audit, AUDIT_QUOTA, "host") {
      var bytes := CompatiblePayload(d.published.value.data, mime, c.html);
      if bytes.Some? {
        LogMore(c.html, taken.log, Pasted(event.requestId, mime, bytes.value));
      }
    }
  }

  lemma SendKeepsLog(c: Config, d: State, id: nat, mime: string, focused: Option<Window>,
                     writer: Writer, attempt: Attempt, now: nat)
    requires LogInv(c, d)
    ensures LogInv(c, OnSourceSend(c, d, id, mime, focused, writer, attempt, now))
  {
    hide LogOk, Token, OpenPicker, CompatiblePayload, DiscoveryCandidates, BridgeCandidates, MatchesSource;
    var window := OrDefault(focused);
    if d.published.Some? && d.published.value.dataControlId == id {
      var p := d.published.value;
      var bytes := CompatiblePayload(p.data, mime, c.html);
      if p.mode.Selected? {
        if bytes.Some? {
          LogMore(c.html, d.log, Sent(mime, bytes.value));
          TokenMore(d.log, Sent(mime, bytes.value));
        }
      } else {
        OfferKeepsLog(c, d, window, mime,
          DiscoveryCandidates(c, d.bridge, d.history, d.currentHost, p.data, mime, now), attempt, now);
      }
    } else if d.bridge.Some? && d.bridge.value.dataControlId == id {
      var bytes := CompatiblePayload(d.bridge.value.data, mime, c.html);
      if bytes.Some? {
        OfferKeepsLog(c, d, window, mime,
          BridgeCandidates(c, d.history, d.bridge.value, bytes.value, mime, now), attempt, now);
      }
    }
  }

  lemma OfferKeepsLog(
    c: Config, d: State, window: Window, mime: string, candidates: seq<Candidate>, attempt: Attempt, now: nat)
    requires LogInv(c, d)
    ensures LogInv(c, OpenPicker(c, d, window, mime, candidates, attempt, now))
  {
    hide LogOk, Token, OpenPicker;
    OpenPickerFrame(c, d, window, mime, candidates, attempt, now);
    LogMore(c.html, d.log, Offered(mime, candidates));
    TokenMore(d.log, Offered(mime, candidates));
  }

  lemma SelectKeepsLog(c: Config, d: State, entryId: string, flushed: bool, now: nat)
    requires LogInv(c, d)
    ensures LogInv(c, OnSelect(d, entryId, flushed, now))
  {
    hide LogOk, Token, SelectedData;
    var data := SelectedData(d, entryId);
    var ok := data.Some? && data.value != map[] && d.deviceBound && flushed;
    var act := Picked(entryId, if ok then data else None);
    LogMore(c.html, d.log, act);
    TokenMore(d.log, act);
  }

  lemma ArmKeepsLog(c: Config, d: State, window: Window, attempt: Attempt, now: nat)
    requires LogInv(c, d)
    ensures LogInv(c, OnArm(c, d, window, attempt, now))
  {
    hide LogOk, Token, PickerCandidates;
    var act := Offered(TEXT_PLAIN, PickerCandidates(c, d.history, d.hostSelection, None, TEXT_PLAIN, now));
    LogMore(c.html, d.log, act);
    TokenMore(d.log, act);
  }

  predicate Speaks(e: Event) {
    e.PasteRequest? || e.SourceSend? || e.Select? || e.ArmCommand?
  }

  /** The other events log nothing, and publish at most a discovery. */
  lemma StepIsQuiet(c: Config, d: State, e: Event)
    requires !Speaks(e)
    ensures var r := Step(c, d, e);
            r.log == d.log && (r.published == d.published || r.published.None? || r.published.value.mode.Discovery?)
  {
    hide Materialize.Read, ReadAll, IsEcho, AllowedOf, OpenedOf, BridgeId, Upserted, Pushed, Picker.Reap, Picker.Expire, Picker.Cancel,
         Items, Extended, RowOf, IsMimeAllowed;
  }

  lemma StepKeepsLog(c: Config, d: State, e: Event)
    requires LogInv(c, d)
    ensures LogInv(c, Step(c, d, e))
  {
    hide LogOk, Token, OnPaste, OnSourceSend, OnSelect, OnArm, OnCopyRequest, OnCopyRead, OnCopyArrived, OnSelectionChanged,
         OnHostRead, OnHostArrived, OnSourceCancelled, PickerGone, OnTick;
    match e
    case PasteRequest(identity, mime, sourceId, focused, writer, attempt, now) =>
      PasteKeepsLog(c, d, identity, mime, sourceId, focused, writer, attempt, now);
    case SourceSend(id, mime, focused, writer, attempt, now) => SendKeepsLog(c, d, id, mime, focused, writer, attempt, now);
    case Select(entryId, flushed, now) => SelectKeepsLog(c, d, entryId, flushed, now);
    case ArmCommand(focused, attempt, now) => ArmKeepsLog(c, d, OrDefault(focused), attempt, now);
    case _ => StepIsQuiet(c, d, e);
  }
}
