/** The audit queue: bounded for each realm, refusing when full. */
module Audit {
  datatype Decision = Allow | Deny

  datatype AuditEvent = AuditEvent(
    requestId: string, sourceRealm: string, destinationRealm: string, mimeType: string, decision: Decision)

  type Queues = map<string, seq<AuditEvent>>

  function Queued(queues: Queues, realm: string): seq<AuditEvent> {
    if realm in queues then queues[realm] else []
  }

  predicate HasRoom(queues: Queues, quota: nat, realm: string) {
    |Queued(queues, realm)| < quota
  }

  function Enqueue(queues: Queues, quota: nat, event: AuditEvent): Queues {
    var queue := Queued(queues, event.sourceRealm);
    queues[event.sourceRealm := if |queue| < quota then queue + [event] else queue]
  }

  function Emptied(queues: Queues): Queues {
    map realm | realm in queues :: []
  }

  function OfRealm(events: seq<AuditEvent>, realm: string): seq<AuditEvent> {
    if events == [] then []
    else
      var last := events[|events| - 1];
      OfRealm(events[..|events| - 1], realm) + if last.sourceRealm == realm then [last] else []
  }

  lemma {:induction false} OfRealmConcat(a: seq<AuditEvent>, b: seq<AuditEvent>, realm: string)
    ensures OfRealm(a + b, realm) == OfRealm(a, realm) + OfRealm(b, realm)
    decreases |b|
  {
    if b == [] {
      assert a + b == a;
    } else {
      assert (a + b)[..|a + b| - 1] == a + b[..|b| - 1];
      OfRealmConcat(a, b[..|b| - 1], realm);
    }
  }

  lemma {:induction false} OfOneRealm(events: seq<AuditEvent>, home: string, realm: string)
    requires forall e :: e in events ==> e.sourceRealm == home
    ensures OfRealm(events, realm) == if realm == home then events else []
    decreases |events|
  {
    if events != [] {
      OfOneRealm(events[..|events| - 1], home, realm);
      assert events[|events| - 1] in events;
    }
  }

  /** In every realm, what was accepted is what was drained and then what is queued, in that order. */
  ghost predicate Conserved(queues: Queues, accepted: seq<AuditEvent>, drained: seq<AuditEvent>) {
    forall realm :: OfRealm(accepted, realm) == OfRealm(drained, realm) + Queued(queues, realm)
  }

  /** Queues hold their own realm's events, within the quota. */
  ghost predicate Sorted(queues: Queues, quota: nat) {
    forall realm :: |Queued(queues, realm)| <= quota &&
                    forall e :: e in Queued(queues, realm) ==> e.sourceRealm == realm
  }

  lemma EnqueueAt(queues: Queues, quota: nat, event: AuditEvent, realm: string)
    ensures Queued(Enqueue(queues, quota, event), realm) ==
            Queued(queues, realm) +
            if HasRoom(queues, quota, event.sourceRealm) && realm == event.sourceRealm then [event] else []
  {
  }

  lemma EnqueueKeepsSorted(queues: Queues, quota: nat, event: AuditEvent)
    requires Sorted(queues, quota)
    ensures Sorted(Enqueue(queues, quota, event), quota)
  {
    hide Enqueue, Queued;
    var after := Enqueue(queues, quota, event);
    forall realm
      ensures |Queued(after, realm)| <= quota && forall e :: e in Queued(after, realm) ==> e.sourceRealm == realm
    {
      EnqueueAt(queues, quota, event, realm);
    }
  }

  lemma AcceptConserves(
    queues: Queues, quota: nat, accepted: seq<AuditEvent>, drained: seq<AuditEvent>, event: AuditEvent)
    requires Conserved(queues, accepted, drained)
    ensures var room := HasRoom(queues, quota, event.sourceRealm);
            Conserved(Enqueue(queues, quota, event), if room then accepted + [event] else accepted, drained)
  {
    hide OfRealm, Enqueue, Queued;
    var room := HasRoom(queues, quota, event.sourceRealm);
    var after := Enqueue(queues, quota, event);
    forall realm
      ensures OfRealm(if room then accepted + [event] else accepted, realm) == OfRealm(drained, realm) + Queued(after, realm)
    {
      EnqueueAt(queues, quota, event, realm);
      OfRealmConcat(accepted, [event], realm);
      OfOneRealm([event], event.sourceRealm, realm);
    }
  }

  lemma DrainConserves(
    queues: Queues, quota: nat, accepted: seq<AuditEvent>, drained: seq<AuditEvent>, events: seq<AuditEvent>)
    requires Conserved(queues, accepted, drained)
    requires forall realm :: OfRealm(events, realm) == Queued(queues, realm)
    ensures Conserved(Emptied(queues), accepted, drained + events) && Sorted(Emptied(queues), quota)
  {
    hide OfRealm;
    forall realm ensures OfRealm(accepted, realm) == OfRealm(drained + events, realm) + Queued(Emptied(queues), realm) {
      OfRealmConcat(drained, events, realm);
    }
  }

  // ----- Realms in order -----

  /** Dictionary order of realm names, the order in which the queues are kept. */
  predicate Before(a: string, b: string) {
    b != "" && (a == "" || a[0] < b[0] || (a[0] == b[0] && Before(a[1..], b[1..])))
  }

  /** At the first position where they differ the character is smaller, or the name ends. */
  lemma {:induction false} BeforeIsDictionaryOrder(a: string, b: string)
    ensures Before(a, b) <==>
            exists k :: 0 <= k <= |a| && k < |b| && a[..k] == b[..k] && (k == |a| || a[k] < b[k])
    decreases |a|
  {
    if a != "" && b != "" {
      BeforeIsDictionaryOrder(a[1..], b[1..]);
      if a[0] == b[0] && Before(a[1..], b[1..]) {
        var k :| 0 <= k <= |a[1..]| && k < |b[1..]| && a[1..][..k] == b[1..][..k] && (k == |a[1..]| || a[1..][k] < b[1..][k]);
        assert a[..k + 1] == [a[0]] + a[1..][..k] && b[..k + 1] == [b[0]] + b[1..][..k];
      }
      if k :| 0 <= k <= |a| && k < |b| && a[..k] == b[..k] && (k == |a| || a[k] < b[k]) {
        if k > 0 {
          assert a[0] == a[..k][0] == b[..k][0] == b[0];
          assert a[1..][..k - 1] == a[..k][1..] && b[1..][..k - 1] == b[..k][1..];
        }
      }
      if a[0] < b[0] {
        assert a[..0] == b[..0];
      }
    } else if b != "" {
      assert a[..0] == b[..0];
    }
  }

  lemma {:induction false} BeforeIsTotal(a: string, b: string)
    ensures a != b ==> Before(a, b) || Before(b, a)
    ensures !(Before(a, b) && Before(b, a)) && !Before(a, a)
    decreases |a|
  {
    if a != "" && b != "" {
      BeforeIsTotal(a[1..], b[1..]);
      assert a == [a[0]] + a[1..] && b == [b[0]] + b[1..];
    }
    if a != "" {
      BeforeIsTotal(a[1..], a[1..]);
    }
  }

  lemma {:induction false} BeforeIsTransitive(a: string, b: string, c: string)
    requires Before(a, b) && Before(b, c)
    ensures Before(a, c)
    decreases |a|
  {
    if a != "" && a[0] == b[0] == c[0] {
      BeforeIsTransitive(a[1..], b[1..], c[1..]);
    }
  }

  predicate IsFirst(realm: string, realms: set<string>) {
    realm in realms && forall other :: other in realms ==> other == realm || Before(realm, other)
  }

  lemma {:induction false} SomeIsFirst(realms: set<string>)
    requires realms != {}
    ensures exists realm :: realm in realms && IsFirst(realm, realms)
    decreases |realms|
  {
    hide Before;
    var x :| x in realms;
    var rest := realms - {x};
    if rest == {} {
      forall other | other in realms ensures other == x {
        assert other !in rest;
      }
      assert IsFirst(x, realms);
    } else {
      SomeIsFirst(rest);
      var y :| y in rest && IsFirst(y, rest);
      BeforeIsTotal(x, y);
      forall other | other in realms && other != x ensures other == y || Before(y, other) {
        assert other in rest;
      }
      if Before(y, x) {
        assert IsFirst(y, realms);
      } else {
        forall other | other in realms ensures other == x || Before(x, other) {
          if other != x && other != y {
            BeforeIsTransitive(x, y, other);
          }
        }
        assert IsFirst(x, realms);
      }
    }
  }

  /** Realm by realm, in order. */
  ghost predicate Ascending(order: seq<string>) {
    forall i, j :: 0 <= i < j < |order| ==> Before(order[i], order[j])
  }

  ghost function Concatenated(queues: Queues, order: seq<string>): seq<AuditEvent> {
    if order == [] then []
    else Concatenated(queues, order[..|order| - 1]) + Queued(queues, order[|order| - 1])
  }

  /** The realms in `order` are done, and come before those in `todo`. */
  ghost predicate Divides(realms: set<string>, order: seq<string>, todo: set<string>) {
    && Ascending(order) && (forall realm :: realm in realms <==> realm in order || realm in todo)
    && (forall i, realm :: 0 <= i < |order| && realm in todo ==> Before(order[i], realm))
  }

  lemma DivideMore(realms: set<string>, order: seq<string>, todo: set<string>, realm: string)
    requires Divides(realms, order, todo) && IsFirst(realm, todo)
    ensures Divides(realms, order + [realm], todo - {realm})
  {
    hide Before;
    var more, left := order + [realm], todo - {realm};
    forall i, other | 0 <= i < |more| && other in left ensures Before(more[i], other) {
      if i < |order| {
        assert Before(order[i], other);
      }
    }
    forall i, j | 0 <= i < j < |more| ensures Before(more[i], more[j]) {
      if j < |order| {
        assert Before(order[i], order[j]);
      } else {
        assert Before(order[i], realm);
      }
    }
    assert forall r :: r in more <==> r in order || r == realm;
  }

  /** The middle of a drain: the realms in `todo` are as they were, the others empty. */
  ghost predicate Draining(was: Queues, queues: Queues, order: seq<string>, todo: set<string>, events: seq<AuditEvent>) {
    && todo <= was.Keys
    && queues == (map realm | realm in was :: if realm in todo then was[realm] else [])
    && events == Concatenated(was, order)
  }

  lemma DrainOne(was: Queues, queues: Queues, order: seq<string>, todo: set<string>, events: seq<AuditEvent>, realm: string)
    requires Draining(was, queues, order, todo, events) && realm in todo
    ensures Draining(was, queues[realm := []], order + [realm], todo - {realm}, events + queues[realm])
  {
    var more := order + [realm];
    assert more[..|more| - 1] == order;
    assert queues[realm] == Queued(was, realm);
  }

  /** The drained events of a realm are its queue. */
  lemma {:induction false} ConcatenatedByRealm(queues: Queues, quota: nat, order: seq<string>, realm: string)
    requires Sorted(queues, quota) && Ascending(order)
    ensures OfRealm(Concatenated(queues, order), realm) == if realm in order then Queued(queues, realm) else []
    decreases |order|
  {
    hide OfRealm, Before;
    if order == [] {
      OfNothing();
    } else {
      var front, last := order[..|order| - 1], order[|order| - 1];
      ConcatenatedByRealm(queues, quota, front, realm);
      OfRealmConcat(Concatenated(queues, front), Queued(queues, last), realm);
      OfOneRealm(Queued(queues, last), last, realm);
      assert order == front + [last];
      if realm in front && realm == last {
        var i :| 0 <= i < |front| && front[i] == realm;
        assert Before(order[i], order[|order| - 1]);
        BeforeIsTotal(realm, realm);
      }
    }
  }

  class AuditQueue {
    const quota: nat
    var queues: Queues
    ghost var accepted: seq<AuditEvent>
    ghost var drained: seq<AuditEvent>

    ghost predicate Valid()
      reads this
    {
      Conserved(queues, accepted, drained) && Sorted(queues, quota)
    }

    constructor (quota: nat)
      ensures Valid() && this.quota == quota && queues == map[] && accepted == [] && drained == []
    {
      this.quota := quota;
      queues, accepted, drained := map[], [], [];
    }

    method EnqueueFailClosed(event: AuditEvent) returns (ok: bool)
      requires Valid()
      modifies this
      ensures Valid() && drained == old(drained)
      ensures ok == HasRoom(old(queues), quota, event.sourceRealm)
      ensures queues == Enqueue(old(queues), quota, event)
      ensures accepted == if ok then old(accepted) + [event] else old(accepted)
    {
      hide Conserved, Sorted;
      AcceptConserves(queues, quota, accepted, drained, event);
      EnqueueKeepsSorted(queues, quota, event);
      var queue := Queued(queues, event.sourceRealm);
      ok := |queue| < quota;
      if ok {
        queue := queue + [event];
        accepted := accepted + [event];
      }
      queues := queues[event.sourceRealm := queue];
    }

    /** `order` are the realms, in order. */
    method DrainAll() returns (events: seq<AuditEvent>, ghost order: seq<string>)
      requires Valid()
      modifies this
      ensures Valid() && queues == Emptied(old(queues))
      ensures accepted == old(accepted) && drained == old(drained) + events
      ensures Ascending(order) && (forall realm :: realm in order <==> realm in old(queues))
      ensures events == Concatenated(old(queues), order)
      ensures forall realm :: OfRealm(events, realm) == Queued(old(queues), realm)
    {
      hide OfRealm, Sorted, Conserved, Divides, Concatenated, IsFirst;
      events, order := [], [];
      var todo := queues.Keys;
      DivideNothing(todo);
      while todo != {}
        invariant Draining(old(queues), queues, order, todo, events) && Divides(old(queues).Keys, order, todo)
        invariant accepted == old(accepted) && drained == old(drained)
        decreases todo
      {
        SomeIsFirst(todo);
        var realm :| realm in todo && IsFirst(realm, todo);
        DrainOne(old(queues), queues, order, todo, events, realm);
        DivideMore(old(queues).Keys, order, todo, realm);
        events := events + queues[realm];
        queues := queues[realm := []];
        order := order + [realm];
        todo := todo - {realm};
      }
      assert queues == Emptied(old(queues));
      AllDivided(old(queues).Keys, order);
      forall realm ensures OfRealm(events, realm) == Queued(old(queues), realm) {
        ConcatenatedByRealm(old(queues), quota, order, realm);
      }
      DrainConserves(old(queues), quota, accepted, drained, events);
      drained := drained + events;
    }
  }

  lemma DivideNothing(realms: set<string>)
    ensures Divides(realms, [], realms)
    ensures forall queues :: Concatenated(queues, []) == []
  {
  }

  lemma AllDivided(realms: set<string>, order: seq<string>)
    requires Divides(realms, order, {})
    ensures Ascending(order) && forall realm :: realm in order <==> realm in realms
  {
  }

  lemma OfNothing()
    ensures forall realm :: OfRealm([], realm) == []
  {
  }
}
