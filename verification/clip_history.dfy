/** The clipboard history: ids, bounds, and what the picker is offered. */
module ClipHistory {
  import opened Options
  import opened Policy
  import Incremental
  import Utf8

  const HISTORY_MAX_ENTRIES: nat := 20
  const U64_MAX: nat := 0xFFFF_FFFF_FFFF_FFFF

  const CURRENT_HOST_ENTRY_ID: string := "current-host-selection"
  const CURRENT_BRIDGE_ENTRY_ID: string := "current-endpoint-selection"

  datatype RealmKind = HostRealm | VmRealm | UnsafeLocalRealm

  datatype Entry = Entry(
    entryId: string, realmKind: RealmKind, canonicalTarget: Option<string>, data: Data, timestamp: nat)

  datatype Candidate = Candidate(
    entryId: string, realmKind: RealmKind, canonicalTarget: Option<string>, contentType: string,
    timestamp: nat, byteCount: Option<nat>)

  // ----- Entry ids -----

  function Digit(d: nat): char
    requires d < 10
  {
    (d + '0' as int) as char
  }

  function Decimal(n: nat): string {
    if n < 10 then [Digit(n)] else Decimal(n / 10) + [Digit(n % 10)]
  }

  function HexDigit(d: nat): char
    requires d < 16
  {
    if d < 10 then Digit(d) else (d - 10 + 'a' as int) as char
  }

  function Hex(s: Bytes): string {
    if s == [] then "" else [HexDigit(s[0] / 16), HexDigit(s[0] % 16)] + Hex(s[1..])
  }

  function HistoryId(n: nat): string {
    "history-" + Decimal(n)
  }

  /** Named after the endpoint's target, in hexadecimal, and the source id its owner chose. */
  function BridgeId(target: string, sourceId: nat): string {
    "bridge-" + Hex(Utf8.EncodeText(target)) + "-" + Decimal(sourceId)
  }

  lemma {:induction false} DecimalInjective(m: nat, n: nat)
    requires Decimal(m) == Decimal(n)
    ensures m == n
  {
    var s, t := Decimal(m), Decimal(n);
    assert s[|s| - 1] == Digit(m % 10) && t[|t| - 1] == Digit(n % 10);
    if m >= 10 && n >= 10 {
      assert s[..|s| - 1] == Decimal(m / 10) && t[..|t| - 1] == Decimal(n / 10);
      DecimalInjective(m / 10, n / 10);
    } else {
      DecimalNonEmpty(m / 10);
      DecimalNonEmpty(n / 10);
    }
  }

  lemma DecimalNonEmpty(n: nat)
    ensures Decimal(n) != ""
  {
  }

  lemma {:induction false} HexHasNoDash(s: Bytes)
    ensures '-' !in Hex(s) && |Hex(s)| == 2 * |s|
  {
    if s != [] {
      HexHasNoDash(s[1..]);
    }
  }

  lemma HexDigitInjective(a: nat, b: nat)
    requires a < 16 && b < 16 && HexDigit(a) == HexDigit(b)
    ensures a == b
  {
  }

  lemma {:induction false} HexInjective(s: Bytes, t: Bytes)
    requires Hex(s) == Hex(t)
    ensures s == t
    decreases |s|
  {
    HexHasNoDash(s);
    HexHasNoDash(t);
    if s != [] {
      var h, g := Hex(s), Hex(t);
      assert h[0] == HexDigit(s[0] / 16) && g[0] == HexDigit(t[0] / 16);
      assert h[1] == HexDigit(s[0] % 16) && g[1] == HexDigit(t[0] % 16);
      HexDigitInjective(s[0] / 16, t[0] / 16);
      HexDigitInjective(s[0] % 16, t[0] % 16);
      assert h[2..] == Hex(s[1..]) && g[2..] == Hex(t[1..]);
      HexInjective(s[1..], t[1..]);
      assert s == [s[0]] + s[1..] && t == [t[0]] + t[1..];
    }
  }

  /** A dash-free head and what follows the first dash are determined by the whole. */
  lemma SplitAtDash(a: string, b: string, c: string, d: string)
    requires '-' !in a && '-' !in c && a + "-" + b == c + "-" + d
    ensures a == c && b == d
  {
    var s := a + "-" + b;
    var t := c + "-" + d;
    assert s[|a|] == '-' && t[|c|] == '-';
    assert forall i :: 0 <= i < |a| ==> s[i] == a[i];
    assert forall i :: 0 <= i < |c| ==> t[i] == c[i];
    assert s[..|a|] == a && t[..|c|] == c;
    assert s[|a| + 1..] == b && t[|c| + 1..] == d;
  }

  /** Bridge ids tell targets and source ids apart, and never look like history ids or the two reserved ones. */
  lemma BridgeIdInjective(t: string, m: nat, u: string, n: nat)
    requires BridgeId(t, m) == BridgeId(u, n)
    ensures t == u && m == n
  {
    hide Hex, Decimal;
    var a, c := Hex(Utf8.EncodeText(t)), Hex(Utf8.EncodeText(u));
    assert BridgeId(t, m)[7..] == a + "-" + Decimal(m);
    assert BridgeId(u, n)[7..] == c + "-" + Decimal(n);
    HexHasNoDash(Utf8.EncodeText(t));
    HexHasNoDash(Utf8.EncodeText(u));
    SplitAtDash(a, Decimal(m), c, Decimal(n));
    HexInjective(Utf8.EncodeText(t), Utf8.EncodeText(u));
    Utf8.EncodeTextInjective(t, u);
    DecimalInjective(m, n);
  }

  lemma HistoryIdInjective(m: nat, n: nat)
    requires HistoryId(m) == HistoryId(n)
    ensures m == n
  {
    hide Decimal;
    assert HistoryId(m)[8..] == Decimal(m) && HistoryId(n)[8..] == Decimal(n);
    DecimalInjective(m, n);
  }

  lemma IdsAreDisjoint(t: string, m: nat, n: nat)
    ensures BridgeId(t, m) != HistoryId(n)
    ensures BridgeId(t, m) != "" && HistoryId(n) != ""
    ensures BridgeId(t, m) != CURRENT_HOST_ENTRY_ID && BridgeId(t, m) != CURRENT_BRIDGE_ENTRY_ID
    ensures HistoryId(n) != CURRENT_HOST_ENTRY_ID && HistoryId(n) != CURRENT_BRIDGE_ENTRY_ID
  {
    hide Hex, Decimal;
    assert BridgeId(t, m)[0] == 'b' && HistoryId(n)[0] == 'h';
    assert CURRENT_HOST_ENTRY_ID[0] == 'c' && CURRENT_BRIDGE_ENTRY_ID[0] == 'c';
  }

  // ----- Recording -----

  datatype HistoryState = HistoryState(entries: seq<Entry>, nextId: nat)

  const EMPTY: HistoryState := HistoryState([], 0)

  /** New entries go to the front; the oldest fall off the back. */
  function Bounded(entries: seq<Entry>): (r: seq<Entry>)
    ensures |r| <= HISTORY_MAX_ENTRIES && r <= entries
  {
    if |entries| <= HISTORY_MAX_ENTRIES then entries else entries[..HISTORY_MAX_ENTRIES]
  }

  function SaturatingNext(n: nat): nat {
    if n < U64_MAX then n + 1 else U64_MAX
  }

  function Pushed(h: HistoryState, entry: Entry): HistoryState {
    if entry.data == map[] then h
    else
      var id := SaturatingNext(h.nextId);
      HistoryState(Bounded([entry.(entryId := HistoryId(id))] + h.entries), id)
  }

  /** The entries other than the first one with this id. */
  function Without(entries: seq<Entry>, id: string): seq<Entry> {
    if entries == [] then []
    else if entries[0].entryId == id then entries[1..]
    else [entries[0]] + Without(entries[1..], id)
  }

  function Upserted(h: HistoryState, entry: Entry): HistoryState {
    if entry.data == map[] then h
    else if entry.entryId == "" then Pushed(h, entry)
    else h.(entries := Bounded([entry] + Without(h.entries, entry.entryId)))
  }

  function DataFor(h: HistoryState, id: string): Option<Data> {
    DataIn(h.entries, id)
  }

  function DataIn(entries: seq<Entry>, id: string): Option<Data> {
    if entries == [] then None
    else if entries[0].entryId == id then Some(entries[0].data)
    else DataIn(entries[1..], id)
  }

  function Offer(e: Entry, requested: string, bytes: Bytes): Candidate {
    Candidate(e.entryId, e.realmKind, e.canonicalTarget, requested, e.timestamp, Some(|bytes|))
  }

  /** The entries that can serve the requested type, newest first, without the excluded one. */
  function CandidatesExcluding(
    entries: seq<Entry>, requested: string, excluded: Option<string>, html: Bytes -> Option<Bytes>): seq<Candidate>
  {
    if entries == [] then []
    else
      var rest := CandidatesExcluding(entries[1..], requested, excluded, html);
      var bytes := CompatiblePayload(entries[0].data, requested, html);
      if excluded == Some(entries[0].entryId) || bytes.None? then rest
      else [Offer(entries[0], requested, bytes.value)] + rest
  }

  class ClipboardHistory {
    var entries: seq<Entry>
    var nextId: nat

    function State(): HistoryState
      reads this
    {
      HistoryState(entries, nextId)
    }

    constructor ()
      ensures State() == EMPTY
    {
      entries, nextId := [], 0;
    }

    method Push(entry: Entry)
      modifies this
      ensures State() == Pushed(old(State()), entry)
    {
      if entry.data == map[] {
        return;
      }
      nextId := if nextId < U64_MAX then nextId + 1 else U64_MAX;
      entries := [entry.(entryId := HistoryId(nextId))] + entries;
      PopBack();
    }

    method Upsert(entry: Entry)
      modifies this
      ensures State() == Upserted(old(State()), entry)
    {
      if entry.data == map[] {
        return;
      }
      if entry.entryId == "" {
        Push(entry);
        return;
      }
      var index := 0;
      while index < |entries| && entries[index].entryId != entry.entryId
        invariant 0 <= index <= |entries| && entries == old(entries) && nextId == old(nextId)
        invariant Without(entries, entry.entryId) == entries[..index] + Without(entries[index..], entry.entryId)
      {
        SkipOther(entries, index, entry.entryId);
        index := index + 1;
      }
      if index < |entries| {
        assert entries[index..][1..] == entries[index + 1..];
        entries := entries[..index] + entries[index + 1..];
      } else {
        assert entries[..index] + [] == entries;
      }
      entries := [entry] + entries;
      PopBack();
    }

    method PopBack()
      modifies this
      ensures entries == Bounded(old(entries)) && nextId == old(nextId)
    {
      while |entries| > HISTORY_MAX_ENTRIES
        invariant entries <= old(entries) && nextId == old(nextId)
        invariant |entries| >= |Bounded(old(entries))|
      {
        entries := entries[..|entries| - 1];
      }
    }
  }

  lemma SkipOther(entries: seq<Entry>, i: nat, id: string)
    requires i < |entries| && entries[i].entryId != id
    requires Without(entries, id) == entries[..i] + Without(entries[i..], id)
    ensures Without(entries, id) == entries[..i + 1] + Without(entries[i + 1..], id)
  {
    var rest := entries[i..];
    assert rest[1..] == entries[i + 1..];
    var w := Without(entries[i + 1..], id);
    assert Without(rest, id) == [entries[i]] + w;
    Incremental.Assoc(entries[..i], [entries[i]], w);
    assert entries[..i + 1] == entries[..i] + [entries[i]];
  }

  // ----- Coherence over every run -----

  ghost predicate Distinct(entries: seq<Entry>) {
    forall i, j :: 0 <= i < j < |entries| ==> entries[i].entryId != entries[j].entryId
  }

  ghost predicate IsBridgeId(id: string) {
    exists t: string, n: nat :: id == BridgeId(t, n)
  }

  /** An id the history itself issued, or a bridge id. */
  ghost predicate Issued(id: string, nextId: nat) {
    (exists n: nat :: 0 < n <= nextId && id == HistoryId(n)) || IsBridgeId(id)
  }

  ghost predicate Coherent(h: HistoryState) {
    && |h.entries| <= HISTORY_MAX_ENTRIES
    && Distinct(h.entries)
    && forall i :: 0 <= i < |h.entries| ==> h.entries[i].data != map[] && Issued(h.entries[i].entryId, h.nextId)
  }

  lemma NewIdIsFresh(h: HistoryState, n: nat)
    requires Coherent(h) && h.nextId < n
    ensures forall i :: 0 <= i < |h.entries| ==> h.entries[i].entryId != HistoryId(n)
  {
    hide HistoryId, BridgeId;
    forall i | 0 <= i < |h.entries| ensures h.entries[i].entryId != HistoryId(n) {
      var id := h.entries[i].entryId;
      if IsBridgeId(id) {
        var t: string, k: nat :| id == BridgeId(t, k);
        IdsAreDisjoint(t, k, n);
      } else {
        var k: nat :| 0 < k <= h.nextId && id == HistoryId(k);
        if HistoryId(k) == HistoryId(n) {
          HistoryIdInjective(k, n);
        }
      }
    }
  }

  lemma PushKeepsCoherent(h: HistoryState, entry: Entry)
    requires Coherent(h) && h.nextId < U64_MAX
    ensures Coherent(Pushed(h, entry))
  {
    hide HistoryId, BridgeId;
    var n := h.nextId + 1;
    NewIdIsFresh(h, n);
    var all := [entry.(entryId := HistoryId(n))] + h.entries;
    forall i | 0 <= i < |all| ensures Issued(all[i].entryId, n) {
      if i > 0 {
        assert all[i] == h.entries[i - 1];
      }
    }
  }

  /** At most one entry goes: the first with that id. */
  lemma {:induction false} WithoutAt(entries: seq<Entry>, id: string) returns (k: nat)
    ensures k <= |entries| && forall i :: 0 <= i < k ==> entries[i].entryId != id
    ensures k == |entries| ==> Without(entries, id) == entries
    ensures k < |entries| ==> entries[k].entryId == id && Without(entries, id) == entries[..k] + entries[k + 1..]
    decreases |entries|
  {
    k := 0;
    if entries != [] && entries[0].entryId != id {
      k := WithoutAt(entries[1..], id);
      assert entries == [entries[0]] + entries[1..];
      if k < |entries[1..]| {
        assert entries[..k + 1] == [entries[0]] + entries[1..][..k];
        assert entries[k + 2..] == entries[1..][k + 1..];
      }
      k := k + 1;
    }
  }

  lemma UpsertKeepsCoherent(h: HistoryState, entry: Entry)
    requires Coherent(h) && IsBridgeId(entry.entryId)
    ensures Coherent(Upserted(h, entry))
  {
    hide HistoryId, BridgeId, IsBridgeId, Without;
    var k := WithoutAt(h.entries, entry.entryId);
    var rest := Without(h.entries, entry.entryId);
    assert forall i :: 0 <= i < |rest| ==> rest[i] == h.entries[if i < k then i else i + 1];
    BridgeIdNotEmpty(entry.entryId);
  }

  lemma BridgeIdNotEmpty(id: string)
    requires IsBridgeId(id)
    ensures id != "" && id != CURRENT_HOST_ENTRY_ID && id != CURRENT_BRIDGE_ENTRY_ID
  {
    hide BridgeId;
    var t: string, n: nat :| id == BridgeId(t, n);
    IdsAreDisjoint(t, n, 0);
  }

  /** What the daemon does to the history. */
  datatype Change = Push(entry: Entry) | Upsert(target: string, sourceId: nat, entry: Entry)

  function Changed(h: HistoryState, c: Change): HistoryState {
    match c
    case Push(entry) => Pushed(h, entry)
    case Upsert(target, sourceId, entry) => Upserted(h, entry.(entryId := BridgeId(target, sourceId)))
  }

  function After(changes: seq<Change>): HistoryState {
    if changes == [] then EMPTY else Changed(After(changes[..|changes| - 1]), changes[|changes| - 1])
  }

  /** Pushes that were not ignored. */
  function Pushes(changes: seq<Change>): nat {
    if changes == [] then 0
    else
      var last := changes[|changes| - 1];
      Pushes(changes[..|changes| - 1]) + if last.Push? && last.entry.data != map[] then 1 else 0
  }

  /** Over every run with fewer than 2^64 pushes: at most twenty entries, none empty, no two with the same id. */
  lemma {:induction false} HistoryStaysCoherent(changes: seq<Change>)
    requires Pushes(changes) <= U64_MAX
    ensures Coherent(After(changes)) && After(changes).nextId == Pushes(changes)
    decreases |changes|
  {
    hide BridgeId, HistoryId, Coherent;
    if changes == [] {
      EmptyIsCoherent();
    } else {
      var front, last := changes[..|changes| - 1], changes[|changes| - 1];
      HistoryStaysCoherent(front);
      match last
      case Push(entry) =>
        if entry.data != map[] {
          PushKeepsCoherent(After(front), entry);
        }
      case Upsert(target, sourceId, entry) =>
        assert IsBridgeId(BridgeId(target, sourceId));
        BridgeIdNotEmpty(BridgeId(target, sourceId));
        UpsertKeepsCoherent(After(front), entry.(entryId := BridgeId(target, sourceId)));
    }
  }

  lemma EmptyIsCoherent()
    ensures Coherent(EMPTY)
  {
  }

  /** The history as it would be if nothing were ever dropped. */
  function Everything(changes: seq<Change>): HistoryState {
    if changes == [] then EMPTY
    else
      var h := Everything(changes[..|changes| - 1]);
      match changes[|changes| - 1]
      case Push(entry) =>
        if entry.data == map[] then h
        else
          var id := SaturatingNext(h.nextId);
          HistoryState([entry.(entryId := HistoryId(id))] + h.entries, id)
      case Upsert(target, sourceId, entry) =>
        var row := entry.(entryId := BridgeId(target, sourceId));
        if entry.data == map[] then h else h.(entries := [row] + Without(h.entries, row.entryId))
  }

  /** Over every run the history is the newest twenty entries of all. */
  lemma HistoryIsTheNewest(changes: seq<Change>)
    ensures var all := Everything(changes);
            After(changes) == HistoryState(if |all.entries| <= 20 then all.entries else all.entries[..20], all.nextId)
  {
    hide After, Everything;
    DroppingCommutes(changes);
  }

  lemma {:induction false} DroppingCommutes(changes: seq<Change>)
    ensures After(changes) == HistoryState(Bounded(Everything(changes).entries), Everything(changes).nextId)
    decreases |changes|
  {
    hide BridgeId, HistoryId, Bounded, Without;
    if changes == [] {
      NothingToDrop();
    } else {
      var front := changes[..|changes| - 1];
      DroppingCommutes(front);
      var all := Everything(front).entries;
      match changes[|changes| - 1]
      case Push(entry) =>
        BoundedAgain(entry.(entryId := HistoryId(SaturatingNext(Everything(front).nextId))), all);
      case Upsert(target, sourceId, entry) =>
        IdsAreDisjoint(target, sourceId, 0);
        ReplaceBounded(entry.(entryId := BridgeId(target, sourceId)), all);
    }
  }

  lemma NothingToDrop()
    ensures Bounded([]) == []
  {
  }

  lemma BoundedAgain(entry: Entry, all: seq<Entry>)
    ensures Bounded([entry] + Bounded(all)) == Bounded([entry] + all)
  {
  }

  lemma ReplaceBounded(entry: Entry, all: seq<Entry>)
    ensures Bounded([entry] + Without(Bounded(all), entry.entryId)) == Bounded([entry] + Without(all, entry.entryId))
  {
    hide Without, Bounded;
    var kept := Bounded(all);
    var i := WithoutAt(all, entry.entryId);
    var j := WithoutAt(kept, entry.entryId);
    if i < |kept| {
      assert kept[i] == all[i] && j == i by {
        assert forall k :: 0 <= k < |kept| ==> kept[k] == all[k];
      }
      DropEarly(entry, all, i);
    } else {
      assert j == |kept| by {
        assert forall k :: 0 <= k < |kept| ==> kept[k] == all[k];
      }
      if i < |all| {
        DropLate(entry, all, i);
      } else {
        BoundedAgain(entry, all);
      }
    }
  }

  lemma DropEarly(entry: Entry, all: seq<Entry>, i: nat)
    requires i < |Bounded(all)|
    ensures Bounded([entry] + (Bounded(all)[..i] + Bounded(all)[i + 1..])) == Bounded([entry] + (all[..i] + all[i + 1..]))
  {
    var kept := Bounded(all);
    assert kept[..i] == all[..i];
    assert |kept| == |all| ==> kept == all;
    assert kept[i + 1..] == all[i + 1..][..|kept| - i - 1];
  }

  lemma DropLate(entry: Entry, all: seq<Entry>, i: nat)
    requires |Bounded(all)| <= i < |all|
    ensures Bounded([entry] + Bounded(all)) == Bounded([entry] + (all[..i] + all[i + 1..]))
  {
    assert Bounded(all) == all[..i][..|Bounded(all)|];
  }

  // ----- Past saturation -----

  /** A row of the host's own copies; the others come from endpoints. */
  predicate IsHostRow(e: Entry) {
    "history-" <= e.entryId
  }

  function HostRows(entries: seq<Entry>): seq<string> {
    if entries == [] then [] else (if IsHostRow(entries[0]) then [entries[0].entryId] else []) + HostRows(entries[1..])
  }

  function Saturated(n: nat): nat {
    if n < U64_MAX then n else U64_MAX
  }

  /** The retained host rows carry the latest push numbers, newest first, as far as the counter goes. */
  ghost predicate Numbered(rows: seq<string>, pushes: nat) {
    |rows| <= pushes && forall k :: 0 <= k < |rows| ==> rows[k] == HistoryId(Saturated(pushes - k))
  }

  ghost predicate EndpointRowsDistinct(entries: seq<Entry>) {
    forall i, j :: 0 <= i < j < |entries| && !IsHostRow(entries[i]) && !IsHostRow(entries[j]) ==>
      entries[i].entryId != entries[j].entryId
  }

  ghost predicate Ordered(h: HistoryState, pushes: nat) {
    h.nextId == Saturated(pushes) && Numbered(HostRows(h.entries), pushes) && EndpointRowsDistinct(h.entries)
  }

  lemma RowKinds(n: nat, t: string, m: nat)
    ensures "history-" <= HistoryId(n) && !("history-" <= BridgeId(t, m))
  {
    hide Hex, Decimal;
    assert BridgeId(t, m)[0] == 'b';
  }

  lemma {:induction false} HostRowsConcat(a: seq<Entry>, b: seq<Entry>)
    ensures HostRows(a + b) == HostRows(a) + HostRows(b)
    decreases |a|
  {
    hide IsHostRow;
    if a == [] {
      assert a + b == b;
    } else {
      assert (a + b)[1..] == a[1..] + b;
      HostRowsConcat(a[1..], b);
    }
  }

  lemma OneRow(e: Entry)
    ensures HostRows([e]) == if IsHostRow(e) then [e.entryId] else []
  {
    hide IsHostRow;
    assert [e][1..] == [];
  }

  lemma BoundedOrdered(entries: seq<Entry>, next: nat, pushes: nat)
    requires Ordered(HistoryState(entries, next), pushes)
    ensures Ordered(HistoryState(Bounded(entries), next), pushes)
  {
    hide IsHostRow, HistoryId, HostRows;
    var kept := Bounded(entries);
    assert entries == kept + entries[|kept|..];
    HostRowsConcat(kept, entries[|kept|..]);
    assert forall k :: 0 <= k < |HostRows(kept)| ==> HostRows(kept)[k] == HostRows(entries)[k];
  }

  lemma PushOrdered(h: HistoryState, entry: Entry, pushes: nat)
    requires Ordered(h, pushes)
    ensures Ordered(Pushed(h, entry), if entry.data == map[] then pushes else pushes + 1)
  {
    hide HostRows, Bounded, HistoryId, IsHostRow;
    if entry.data != map[] {
      var row := entry.(entryId := HistoryId(SaturatingNext(h.nextId)));
      assert IsHostRow(row) by {
        IsHost(SaturatingNext(h.nextId), row);
      }
      HostRowsConcat([row], h.entries);
      OneRow(row);
      var rows := HostRows([row] + h.entries);
      assert forall k :: 0 < k < |rows| ==> rows[k] == HostRows(h.entries)[k - 1];
      BoundedOrdered([row] + h.entries, SaturatingNext(h.nextId), pushes + 1);
    }
  }

  lemma IsHost(n: nat, row: Entry)
    requires row.entryId == HistoryId(n)
    ensures IsHostRow(row)
  {
    hide HistoryId;
    RowKinds(n, "", 0);
  }

  lemma UpsertOrdered(h: HistoryState, entry: Entry, pushes: nat, target: string, sourceId: nat)
    requires Ordered(h, pushes) && entry.entryId == BridgeId(target, sourceId)
    ensures Ordered(Upserted(h, entry), pushes)
  {
    hide HostRows, Bounded, HistoryId, BridgeId, IsHostRow, Without;
    if entry.data != map[] {
      IdsAreDisjoint(target, sourceId, 0);
      assert !IsHostRow(entry) by {
        IsEndpoint(target, sourceId, entry);
      }
      WithoutOrdered(h, entry, pushes);
      var rest := Without(h.entries, entry.entryId);
      HostRowsConcat([entry], rest);
      OneRow(entry);
      assert [] + HostRows(rest) == HostRows(rest);
      BoundedOrdered([entry] + rest, h.nextId, pushes);
    }
  }

  lemma IsEndpoint(target: string, sourceId: nat, row: Entry)
    requires row.entryId == BridgeId(target, sourceId)
    ensures !IsHostRow(row)
  {
    hide BridgeId;
    RowKinds(0, target, sourceId);
  }

  /** Replacing an endpoint's row leaves the host rows as they are. */
  lemma WithoutOrdered(h: HistoryState, entry: Entry, pushes: nat)
    requires Ordered(h, pushes) && !IsHostRow(entry)
    ensures var rest := Without(h.entries, entry.entryId);
            HostRows(rest) == HostRows(h.entries) && EndpointRowsDistinct([entry] + rest)
  {
    hide HostRows, HistoryId, Without, IsHostRow;
    var k := WithoutAt(h.entries, entry.entryId);
    WithoutDistinct(h.entries, entry, k);
    if k < |h.entries| {
      SameKind(h.entries[k], entry);
      DropRow(h.entries, k);
    }
  }

  lemma DropRow(entries: seq<Entry>, k: nat)
    requires k < |entries| && !IsHostRow(entries[k])
    ensures HostRows(entries[..k] + entries[k + 1..]) == HostRows(entries)
  {
    hide HostRows, IsHostRow;
    var a, x, b := entries[..k], entries[k], entries[k + 1..];
    assert entries == a + ([x] + b);
    HostRowsConcat(a, [x] + b);
    HostRowsConcat([x], b);
    OneRow(x);
    HostRowsConcat(a, b);
    assert [] + HostRows(b) == HostRows(b);
  }

  lemma WithoutDistinct(entries: seq<Entry>, entry: Entry, k: nat)
    requires EndpointRowsDistinct(entries) && !IsHostRow(entry) && k <= |entries|
    requires k < |entries| ==> entries[k].entryId == entry.entryId
    requires k == |entries| ==> forall i :: 0 <= i < k ==> entries[i].entryId != entry.entryId
    ensures EndpointRowsDistinct([entry] + if k < |entries| then entries[..k] + entries[k + 1..] else entries)
  {
    hide IsHostRow, EndpointRowsDistinct;
    if k < |entries| {
      SameKind(entries[k], entry);
      DropDistinct(entries, k);
      var rest := entries[..k] + entries[k + 1..];
      forall i | 0 <= i < |rest| && !IsHostRow(rest[i]) ensures rest[i].entryId != entry.entryId {
        NotDropped(entries, k, i);
      }
      AddDistinct(entry, rest);
    } else {
      AddDistinct(entry, entries);
    }
  }

  lemma DropDistinct(entries: seq<Entry>, k: nat)
    requires EndpointRowsDistinct(entries) && k < |entries|
    ensures EndpointRowsDistinct(entries[..k] + entries[k + 1..])
  {
    hide IsHostRow;
    var rest := entries[..k] + entries[k + 1..];
    forall i, j | 0 <= i < j < |rest| && !IsHostRow(rest[i]) && !IsHostRow(rest[j])
      ensures rest[i].entryId != rest[j].entryId
    {
      var a, b := if i < k then i else i + 1, if j < k then j else j + 1;
      assert rest[i] == entries[a] && rest[j] == entries[b];
    }
  }

  /** Among endpoint rows, only the dropped one had its id. */
  lemma NotDropped(entries: seq<Entry>, k: nat, i: nat)
    requires EndpointRowsDistinct(entries) && k < |entries| && i < |entries| - 1 && !IsHostRow(entries[k])
    ensures var row := (entries[..k] + entries[k + 1..])[i]; !IsHostRow(row) ==> row.entryId != entries[k].entryId
  {
    hide IsHostRow;
    var a := if i < k then i else i + 1;
    assert (entries[..k] + entries[k + 1..])[i] == entries[a];
  }

  lemma AddDistinct(entry: Entry, rest: seq<Entry>)
    requires EndpointRowsDistinct(rest)
    requires forall i :: 0 <= i < |rest| && !IsHostRow(rest[i]) ==> rest[i].entryId != entry.entryId
    ensures EndpointRowsDistinct([entry] + rest)
  {
    hide IsHostRow;
    var all := [entry] + rest;
    assert forall i :: 0 < i < |all| ==> all[i] == rest[i - 1];
  }

  lemma {:induction false} HistoryStaysOrdered(changes: seq<Change>)
    ensures Ordered(After(changes), Pushes(changes))
    decreases |changes|
  {
    hide Ordered, BridgeId, Pushed, Upserted;
    if changes == [] {
      EmptyIsOrdered();
    } else {
      var front := changes[..|changes| - 1];
      HistoryStaysOrdered(front);
      match changes[|changes| - 1]
      case Push(entry) => PushOrdered(After(front), entry, Pushes(front));
      case Upsert(target, sourceId, entry) =>
        UpsertOrdered(After(front), entry.(entryId := BridgeId(target, sourceId)), Pushes(front), target, sourceId);
    }
  }

  lemma EmptyIsOrdered()
    ensures Ordered(EMPTY, 0)
  {
  }

  /** Two host rows at least, if two are found. */
  lemma {:induction false} HostRowAt(entries: seq<Entry>, i: nat) returns (k: nat)
    requires i < |entries| && IsHostRow(entries[i])
    ensures k < |HostRows(entries)| && HostRows(entries)[k] == entries[i].entryId
    ensures k == |HostRows(entries[..i])|
    decreases |entries|
  {
    hide IsHostRow;
    assert entries == entries[..i] + ([entries[i]] + entries[i + 1..]);
    HostRowsConcat(entries[..i], [entries[i]] + entries[i + 1..]);
    HostRowsConcat([entries[i]], entries[i + 1..]);
    OneRow(entries[i]);
    k := |HostRows(entries[..i])|;
  }

  lemma TwoHostRows(entries: seq<Entry>, i: nat, j: nat)
    requires i < j < |entries| && IsHostRow(entries[i]) && IsHostRow(entries[j])
    ensures |HostRows(entries)| >= 2
  {
    hide IsHostRow;
    var a := HostRowAt(entries, i);
    var b := HostRowAt(entries, j);
    var c := HostRowAt(entries[..j], i);
  }

  lemma {:induction false} RowsAreIds(entries: seq<Entry>, id: string)
    requires id in HostRows(entries)
    ensures exists k :: 0 <= k < |entries| && entries[k].entryId == id
    decreases |entries|
  {
    hide IsHostRow;
    if entries[0].entryId != id {
      RowsAreIds(entries[1..], id);
      var k :| 0 <= k < |entries[1..]| && entries[1..][k].entryId == id;
      assert entries[k + 1].entryId == id;
    }
  }

  /** Distinct entries have distinct host rows. */
  lemma {:induction false} DistinctRows(entries: seq<Entry>)
    requires Distinct(entries)
    ensures |HostRows(entries)| >= 2 ==> HostRows(entries)[0] != HostRows(entries)[1]
    decreases |entries|
  {
    hide IsHostRow;
    if entries != [] {
      var tail := entries[1..];
      var rows := HostRows(tail);
      assert forall k :: 0 <= k < |tail| ==> tail[k] == entries[k + 1];
      DistinctRows(tail);
      if IsHostRow(entries[0]) && |rows| >= 1 {
        assert rows[0] in rows;
        RowsAreIds(tail, rows[0]);
        var k :| 0 <= k < |tail| && tail[k].entryId == rows[0];
        assert entries[0].entryId != entries[k + 1].entryId;
      }
    }
  }

  /**
    * Over every run, ids repeat exactly when the counter has saturated and at least two host rows are still kept. Push numbers
    * from 2^64 - 1 on all give the same id.
    */
  lemma IdsRepeatIff(changes: seq<Change>)
    ensures !Distinct(After(changes).entries) <==> Pushes(changes) > U64_MAX && |HostRows(After(changes).entries)| >= 2
  {
    hide After, Pushes, HostRows, IsHostRow, HistoryId;
    var entries := After(changes).entries;
    HistoryStaysOrdered(changes);
    if Pushes(changes) <= U64_MAX {
      HistoryStaysCoherent(changes);
    } else if |HostRows(entries)| >= 2 {
      assert HostRows(entries)[0] == HostRows(entries)[1] == HistoryId(U64_MAX);
      if Distinct(entries) {
        DistinctRows(entries);
      }
    } else {
      forall i, j | 0 <= i < j < |entries| ensures entries[i].entryId != entries[j].entryId {
        if entries[i].entryId == entries[j].entryId {
          SameKind(entries[i], entries[j]);
          if IsHostRow(entries[i]) {
            TwoHostRows(entries, i, j);
          }
        }
      }
    }
  }

  lemma SameKind(a: Entry, b: Entry)
    requires a.entryId == b.entryId
    ensures IsHostRow(a) == IsHostRow(b)
  {
  }

  // ----- Candidates -----

  /** With distinct ids, an entry is found under its own id. */
  lemma {:induction false} FoundById(entries: seq<Entry>, i: nat)
    requires Distinct(entries) && i < |entries|
    ensures DataIn(entries, entries[i].entryId) == Some(entries[i].data)
    decreases |entries|
  {
    if i > 0 {
      assert forall j :: 0 <= j < |entries[1..]| ==> entries[1..][j] == entries[j + 1];
      FoundById(entries[1..], i - 1);
    }
  }

  lemma {:induction false} CandidateComesFromEntry(
    entries: seq<Entry>, requested: string, excluded: Option<string>, html: Bytes -> Option<Bytes>, k: nat)
    returns (i: nat)
    requires k < |CandidatesExcluding(entries, requested, excluded, html)|
    ensures i < |entries| && excluded != Some(entries[i].entryId)
    ensures var bytes := CompatiblePayload(entries[i].data, requested, html);
            bytes.Some? && CandidatesExcluding(entries, requested, excluded, html)[k] == Offer(entries[i], requested, bytes.value)
    decreases |entries|
  {
    hide CompatiblePayload;
    var bytes := CompatiblePayload(entries[0].data, requested, html);
    if excluded == Some(entries[0].entryId) || bytes.None? {
      i := CandidateComesFromEntry(entries[1..], requested, excluded, html, k);
      i := i + 1;
    } else if k == 0 {
      i := 0;
    } else {
      i := CandidateComesFromEntry(entries[1..], requested, excluded, html, k - 1);
      i := i + 1;
    }
  }

  /**
    * Every candidate offered from a coherent history resolves, by its id, to data that serves the requested type with the
    * advertised number of bytes.
    */
  lemma CandidatesResolve(
    h: HistoryState, requested: string, excluded: Option<string>, html: Bytes -> Option<Bytes>, k: nat)
    requires Coherent(h) && k < |CandidatesExcluding(h.entries, requested, excluded, html)|
    ensures var c := CandidatesExcluding(h.entries, requested, excluded, html)[k];
            && excluded != Some(c.entryId) && c.contentType == requested
            && DataFor(h, c.entryId).Some?
            && var bytes := CompatiblePayload(DataFor(h, c.entryId).value, requested, html);
               bytes.Some? && c.byteCount == Some(|bytes.value|)
  {
    hide CompatiblePayload, Issued;
    var i := CandidateComesFromEntry(h.entries, requested, excluded, html, k);
    FoundById(h.entries, i);
  }

  /** And every entry that can serve the request, and is not excluded, is offered. */
  lemma {:induction false} ServableEntriesAreOffered(
    entries: seq<Entry>, requested: string, excluded: Option<string>, html: Bytes -> Option<Bytes>, i: nat)
    requires i < |entries| && excluded != Some(entries[i].entryId)
    requires CompatiblePayload(entries[i].data, requested, html).Some?
    ensures Offer(entries[i], requested, CompatiblePayload(entries[i].data, requested, html).value)
            in CandidatesExcluding(entries, requested, excluded, html)
    decreases |entries|
  {
    hide CompatiblePayload;
    if i > 0 {
      ServableEntriesAreOffered(entries[1..], requested, excluded, html, i - 1);
    }
  }
}
