/**
  Notification events and their deliveries: idempotent creation, processing of
  delivery jobs, and the event status derived from the deliveries.

  Jobs may repeat and come in any order; a provider call is its outcome. Rows of a
  table are numbered by position.
*/
module Notifications {
  import opened Common
  import Keys

  datatype Channel = WhatsApp | Email | Slack | InApp

  datatype DeliveryStatus = Waiting | Sent | Failed | Skipped

  datatype EventStatus = EventPending | EventSent | EventFailed

  datatype Event = Event(key: string, status: EventStatus, attempts: nat, processedAt: Option<int>)

  datatype Delivery = Delivery(eventId: nat, channel: Channel, dedupeKey: string, status: DeliveryStatus,
      attemptCount: nat)

  datatype Db = Db(events: seq<Event>, deliveries: seq<Delivery>)

  const EMPTY_DB := Db([], [])

  /** A user's stored channel preferences, if any. */
  datatype Preference = Preference(whatsappEnabled: bool, emailEnabled: bool)

  predicate IsChannelEnabled(c: Channel, pref: Option<Preference>) {
    match c
    case WhatsApp => pref.Some? ==> pref.value.whatsappEnabled
    case Email => pref.Some? ==> pref.value.emailEnabled
    case _ => true
  }

  function ChannelName(c: Channel): (r: string)
    ensures ':' !in r
  {
    match c
    case WhatsApp => "WHATSAPP"
    case Email => "EMAIL"
    case Slack => "SLACK"
    case InApp => "IN_APP"
  }

  function DedupeKey(eventKey: string, c: Channel): string {
    eventKey + ":" + ChannelName(c)
  }

  lemma DedupeKeyInjective(a: string, c: Channel, b: string, d: Channel)
    requires DedupeKey(a, c) == DedupeKey(b, d)
    ensures a == b && c == d
  {
    Keys.JoinInjective(a, b, ':', ChannelName(c), ChannelName(d));
  }

  // -------------------------------------------------------------- creation

  /** Add one pending delivery per channel; the unique dedupe key refuses a repeated one. */
  ghost function AddDeliveries(db: Db, eventId: nat, key: string, channels: seq<Channel>): Result<Db> {
    if channels == [] then Success(db)
    else
      var before :- AddDeliveries(db, eventId, key, channels[..|channels| - 1]);
      var c := channels[|channels| - 1];
      var _ :- Check(forall d | d in before.deliveries :: d.dedupeKey != DedupeKey(key, c), DatabaseError);
      Success(before.(deliveries := before.deliveries + [Delivery(eventId, c, DedupeKey(key, c), Waiting, 0)]))
  }

  /** An event key seen before returns the stored event unchanged. */
  ghost function CreateOrGetEvent(db: Db, key: string, channels: seq<Channel>): Result<Db> {
    if exists e :: e in db.events && e.key == key then Success(db)
    else AddDeliveries(db.(events := db.events + [Event(key, EventPending, 0, None)]), |db.events|, key, channels)
  }

  // -------------------------------------------------------------- processing

  ghost predicate AnyIs(deliveries: seq<Delivery>, e: nat, s: DeliveryStatus) {
    exists i :: 0 <= i < |deliveries| && deliveries[i].eventId == e && deliveries[i].status == s
  }

  ghost predicate HasDeliveries(deliveries: seq<Delivery>, e: nat) {
    exists i :: 0 <= i < |deliveries| && deliveries[i].eventId == e
  }

  /** The status an event should have, from its deliveries. */
  ghost function Aggregate(deliveries: seq<Delivery>, e: nat): EventStatus {
    if AnyIs(deliveries, e, Waiting) then EventPending
    else if AnyIs(deliveries, e, Failed) then EventFailed
    else EventSent
  }

  /** Every delivery is done and at least one was not skipped. */
  ghost predicate Concluded(deliveries: seq<Delivery>, e: nat) {
    !AnyIs(deliveries, e, Waiting) && (AnyIs(deliveries, e, Sent) || AnyIs(deliveries, e, Failed))
  }

  ghost function Refreshed(db: Db, e: nat, now: int): Db {
    if e >= |db.events| || !HasDeliveries(db.deliveries, e) then db
    else
      db.(events := db.events[e := db.events[e].(
        status := Aggregate(db.deliveries, e),
        processedAt := if Concluded(db.deliveries, e) then Some(now) else None,
        attempts := db.events[e].attempts + 1)])
  }

  /** The row a processed delivery becomes; in-app delivery cannot fail. */
  function Attempted(d: Delivery, pref: Option<Preference>, providerOk: bool): Delivery {
    d.(attemptCount := d.attemptCount + 1,
       status := if !IsChannelEnabled(d.channel, pref) then Skipped
                 else if d.channel == InApp || providerOk then Sent
                 else Failed)
  }

  predicate Open(d: Delivery) {
    d.status == Waiting || d.status == Failed
  }

  ghost function ProcessDelivery(db: Db, id: nat, pref: Option<Preference>, providerOk: bool, now: int): Db {
    if id >= |db.deliveries| || !Open(db.deliveries[id]) then db
    else
      var d := db.deliveries[id];
      Refreshed(db.(deliveries := db.deliveries[id := Attempted(d, pref, providerOk)]), d.eventId, now)
  }

  datatype Request =
    | Emit(key: string, channels: seq<Channel>)
    | Process(deliveryId: nat, pref: Option<Preference>, providerOk: bool, now: int)

  ghost function Step(db: Db, r: Request): Db {
    match r
    case Emit(key, channels) =>
      (var r := CreateOrGetEvent(db, key, channels); if r.Success? then r.value else db)
    case Process(id, pref, ok, now) => ProcessDelivery(db, id, pref, ok, now)
  }

  ghost function Run(db: Db, rs: seq<Request>): Db {
    if rs == [] then db else Step(Run(db, rs[..|rs| - 1]), rs[|rs| - 1])
  }

  // --------------------------------------------------------------- invariant

  function SumAttempts(deliveries: seq<Delivery>, e: nat): nat {
    if deliveries == [] then 0
    else
      var last := deliveries[|deliveries| - 1];
      SumAttempts(deliveries[..|deliveries| - 1], e) + (if last.eventId == e then last.attemptCount else 0)
  }

  /** The event shows the aggregate of its deliveries, and its attempts count theirs. */
  ghost predicate EventOk(db: Db, e: nat)
    requires e < |db.events|
  {
    && db.events[e].attempts == SumAttempts(db.deliveries, e)
    && db.events[e].status == (if HasDeliveries(db.deliveries, e) then Aggregate(db.deliveries, e) else EventPending)
    && (db.events[e].processedAt.Some? <==> Concluded(db.deliveries, e))
  }

  ghost predicate DeliveryOk(db: Db, d: Delivery) {
    && d.eventId < |db.events| && d.dedupeKey == DedupeKey(db.events[d.eventId].key, d.channel)
    && (d.status == Waiting <==> d.attemptCount == 0)
  }

  ghost predicate Inv(db: Db) {
    && (forall e | 0 <= e < |db.events| :: EventOk(db, e))
    && (forall i | 0 <= i < |db.deliveries| :: DeliveryOk(db, db.deliveries[i]))
    && (forall i, j | 0 <= i < j < |db.events| :: db.events[i].key != db.events[j].key)
    && forall i, j | 0 <= i < j < |db.deliveries| :: db.deliveries[i].dedupeKey != db.deliveries[j].dedupeKey
  }

  lemma {:induction false} SumAttemptsUpdate(ds: seq<Delivery>, id: nat, d: Delivery, e: nat)
    requires id < |ds| && d.eventId == ds[id].eventId && d.attemptCount == ds[id].attemptCount + 1
    ensures SumAttempts(ds[id := d], e) == SumAttempts(ds, e) + (if d.eventId == e then 1 else 0)
  {
    if id < |ds| - 1 {
      assert ds[id := d][..|ds| - 1] == ds[..|ds| - 1][id := d];
      SumAttemptsUpdate(ds[..|ds| - 1], id, d, e);
    } else {
      assert ds[id := d][..|ds| - 1] == ds[..|ds| - 1];
    }
  }

  // Rewriting one delivery does not touch the aggregate of other events.
  lemma OtherEventsSame(ds: seq<Delivery>, id: nat, d: Delivery, e: nat)
    requires id < |ds| && d.eventId == ds[id].eventId && e != d.eventId
    ensures HasDeliveries(ds[id := d], e) == HasDeliveries(ds, e)
    ensures forall s :: AnyIs(ds[id := d], e, s) == AnyIs(ds, e, s)
  {
    var after := ds[id := d];
    assert forall i | 0 <= i < |ds| && i != id :: after[i] == ds[i];
    forall s
      ensures AnyIs(after, e, s) == AnyIs(ds, e, s)
    {
      if AnyIs(ds, e, s) {
        var i :| 0 <= i < |ds| && ds[i].eventId == e && ds[i].status == s;
        assert after[i] == ds[i];
      }
    }
    if HasDeliveries(ds, e) {
      var i :| 0 <= i < |ds| && ds[i].eventId == e;
      assert after[i] == ds[i];
    }
  }

  lemma ProcessKeepsInv(db: Db, id: nat, pref: Option<Preference>, providerOk: bool, now: int)
    requires Inv(db)
    ensures Inv(ProcessDelivery(db, id, pref, providerOk, now))
  {
    hide Aggregate, Concluded, SumAttempts;
    if id < |db.deliveries| && Open(db.deliveries[id]) {
      var after := ProcessDelivery(db, id, pref, providerOk, now);
      var d := Attempted(db.deliveries[id], pref, providerOk);
      assert DeliveryOk(db, db.deliveries[id]);
      assert after.deliveries[id].eventId == d.eventId;
      assert HasDeliveries(after.deliveries, d.eventId);
      forall e | 0 <= e < |after.events|
        ensures EventOk(after, e)
      {
        assert EventOk(db, e);
        SumAttemptsUpdate(db.deliveries, id, d, e);
        if e != d.eventId {
          OtherEventsSame(db.deliveries, id, d, e);
          SameStatuses(db.deliveries, after.deliveries, e);
        }
      }
      forall i | 0 <= i < |after.deliveries|
        ensures DeliveryOk(after, after.deliveries[i])
      {
        assert DeliveryOk(db, db.deliveries[i]);
      }
    }
  }

  lemma SameStatuses(a: seq<Delivery>, b: seq<Delivery>, e: nat)
    requires forall s :: AnyIs(b, e, s) == AnyIs(a, e, s)
    ensures Aggregate(b, e) == Aggregate(a, e) && Concluded(b, e) == Concluded(a, e)
  {
  }

  lemma {:induction false} NoAttempts(ds: seq<Delivery>, e: nat)
    requires forall i | 0 <= i < |ds| :: ds[i].eventId != e
    ensures SumAttempts(ds, e) == 0
  {
    if ds != [] {
      NoAttempts(ds[..|ds| - 1], e);
    }
  }

  lemma NewEventKeepsInv(db: Db, key: string)
    requires Inv(db) && forall e | e in db.events :: e.key != key
    ensures Inv(db.(events := db.events + [Event(key, EventPending, 0, None)]))
  {
    var after := db.(events := db.events + [Event(key, EventPending, 0, None)]);
    forall i | 0 <= i < |after.deliveries|
      ensures DeliveryOk(after, after.deliveries[i])
    {
      assert DeliveryOk(db, db.deliveries[i]);
    }
    forall e | 0 <= e < |after.events|
      ensures EventOk(after, e)
    {
      if e < |db.events| {
        assert EventOk(db, e);
      } else {
        assert forall i | 0 <= i < |db.deliveries| :: DeliveryOk(db, db.deliveries[i]);
        NoAttempts(db.deliveries, e);
      }
    }
  }

  lemma AppendedElsewhere(ds: seq<Delivery>, d: Delivery, e: nat)
    requires e != d.eventId
    ensures HasDeliveries(ds + [d], e) == HasDeliveries(ds, e)
    ensures forall s :: AnyIs(ds + [d], e, s) == AnyIs(ds, e, s)
  {
    var after := ds + [d];
    assert forall i | 0 <= i < |ds| :: after[i] == ds[i];
    forall s
      ensures AnyIs(after, e, s) == AnyIs(ds, e, s)
    {
      if AnyIs(ds, e, s) {
        var i :| 0 <= i < |ds| && ds[i].eventId == e && ds[i].status == s;
        assert after[i] == ds[i];
      }
    }
    if HasDeliveries(ds, e) {
      var i :| 0 <= i < |ds| && ds[i].eventId == e;
      assert after[i] == ds[i];
    }
  }

  // One more waiting delivery for the event created last, which is still pending and untried.
  lemma NewDeliveryKeepsInv(db: Db, d: Delivery)
    requires Inv(db) && DeliveryOk(db, d) && d.status == Waiting
    requires db.events[d.eventId] == Event(db.events[d.eventId].key, EventPending, 0, None)
    requires forall x | x in db.deliveries :: x.dedupeKey != d.dedupeKey
    ensures Inv(db.(deliveries := db.deliveries + [d]))
  {
    var after := db.(deliveries := db.deliveries + [d]);
    assert after.deliveries[..|db.deliveries|] == db.deliveries;
    assert after.deliveries[|db.deliveries|] == d;
    forall e | 0 <= e < |after.events|
      ensures EventOk(after, e)
    {
      assert EventOk(db, e);
      if e != d.eventId {
        AppendedElsewhere(db.deliveries, d, e);
        SameStatuses(db.deliveries, after.deliveries, e);
      }
    }
    forall i | 0 <= i < |after.deliveries|
      ensures DeliveryOk(after, after.deliveries[i])
    {
      if i < |db.deliveries| {
        assert DeliveryOk(db, db.deliveries[i]);
      }
    }
  }

  lemma {:induction false} AddDeliveriesKeepsInv(db: Db, eventId: nat, key: string, channels: seq<Channel>)
    requires Inv(db) && eventId < |db.events| && db.events[eventId] == Event(key, EventPending, 0, None)
    requires AddDeliveries(db, eventId, key, channels).Success?
    ensures var after := AddDeliveries(db, eventId, key, channels).value;
            Inv(after) && after.events == db.events && db.deliveries <= after.deliveries
  {
    hide Inv;
    if channels != [] {
      var init, c := channels[..|channels| - 1], channels[|channels| - 1];
      AddDeliveriesKeepsInv(db, eventId, key, init);
      NewDeliveryKeepsInv(AddDeliveries(db, eventId, key, init).value,
          Delivery(eventId, c, DedupeKey(key, c), Waiting, 0));
    }
  }

  lemma StepKeepsInv(db: Db, r: Request)
    requires Inv(db)
    ensures Inv(Step(db, r)) && |Step(db, r).deliveries| >= |db.deliveries|
  {
    hide Inv;
    match r {
      case Emit(key, channels) =>
        if !(exists e :: e in db.events && e.key == key) && CreateOrGetEvent(db, key, channels).Success? {
          NewEventKeepsInv(db, key);
          AddDeliveriesKeepsInv(db.(events := db.events + [Event(key, EventPending, 0, None)]), |db.events|, key,
              channels);
        }
      case Process(id, pref, ok, now) => ProcessKeepsInv(db, id, pref, ok, now);
    }
  }

  lemma {:induction false} RunKeepsInv(db: Db, rs: seq<Request>)
    requires Inv(db)
    ensures Inv(Run(db, rs)) && |Run(db, rs).deliveries| >= |db.deliveries|
  {
    hide Inv, Step;
    if rs != [] {
      RunKeepsInv(db, rs[..|rs| - 1]);
      StepKeepsInv(Run(db, rs[..|rs| - 1]), rs[|rs| - 1]);
    }
  }

  /** After every request of every serial run, an event with deliveries shows their aggregate, and its
      attempts are the sum of theirs. */
  lemma ReachableEventStatus(rs: seq<Request>, e: nat)
    requires e < |Run(EMPTY_DB, rs).events|
    ensures EventOk(Run(EMPTY_DB, rs), e)
  {
    RunKeepsInv(EMPTY_DB, rs);
  }

  // ------------------------------------------------------ duplicates and jobs

  /** Emitting a new key adds the event and one waiting delivery per channel, and fails exactly when a
      channel is listed twice: dedupe keys of different events never clash, whatever the event keys contain. */
  lemma EmitFailsIff(db: Db, key: string, channels: seq<Channel>)
    requires Inv(db) && forall e | e in db.events :: e.key != key
    ensures CreateOrGetEvent(db, key, channels)
         == if Distinct(channels) then
              Success(Db(db.events + [Event(key, EventPending, 0, None)],
                         db.deliveries + NewDeliveries(|db.events|, key, channels)))
            else Failure(DatabaseError)
  {
    hide EventOk;
    var stored := db.(events := db.events + [Event(key, EventPending, 0, None)]);
    forall d, c | d in db.deliveries
      ensures d.dedupeKey != DedupeKey(key, c)
    {
      var i :| 0 <= i < |db.deliveries| && db.deliveries[i] == d;
      assert DeliveryOk(db, db.deliveries[i]);
      if d.dedupeKey == DedupeKey(key, c) {
        DedupeKeyInjective(db.events[d.eventId].key, d.channel, key, c);
      }
    }
    AddDeliveriesFailsIff(stored, |db.events|, key, channels);
  }

  function NewDelivery(eventId: nat, key: string, c: Channel): Delivery {
    Delivery(eventId, c, DedupeKey(key, c), Waiting, 0)
  }

  function NewDeliveries(eventId: nat, key: string, channels: seq<Channel>): seq<Delivery> {
    seq(|channels|, i requires 0 <= i < |channels| => NewDelivery(eventId, key, channels[i]))
  }

  // Whether the unique key lets one more delivery in, after those of `channels`.
  lemma KeyFreeIff(present: seq<Delivery>, eventId: nat, key: string, channels: seq<Channel>, c: Channel)
    requires forall d | d in present :: d.dedupeKey != DedupeKey(key, c)
    ensures (forall d | d in present + NewDeliveries(eventId, key, channels) :: d.dedupeKey != DedupeKey(key, c))
        <==> c !in channels
  {
    hide DedupeKey;
    var added := NewDeliveries(eventId, key, channels);
    if c in channels {
      var i :| 0 <= i < |channels| && channels[i] == c;
      assert added[i] in present + added && added[i].dedupeKey == DedupeKey(key, c);
    }
    forall i | 0 <= i < |added| && added[i].dedupeKey == DedupeKey(key, c)
      ensures c in channels
    {
      DedupeKeyInjective(key, channels[i], key, c);
    }
  }

  /** Exactly one waiting delivery per channel is added, or nothing when a channel is listed twice. */
  lemma {:induction false} AddDeliveriesFailsIff(db: Db, eventId: nat, key: string, channels: seq<Channel>)
    requires forall d, c | d in db.deliveries :: d.dedupeKey != DedupeKey(key, c)
    ensures AddDeliveries(db, eventId, key, channels)
         == if Distinct(channels) then Success(db.(deliveries := db.deliveries + NewDeliveries(eventId, key, channels)))
            else Failure(DatabaseError)
  {
    hide DedupeKey;
    if channels == [] {
      assert db.deliveries + NewDeliveries(eventId, key, channels) == db.deliveries;
    } else {
      var init, last := channels[..|channels| - 1], channels[|channels| - 1];
      assert channels == init + [last];
      AddDeliveriesFailsIff(db, eventId, key, init);
      KeyFreeIff(db.deliveries, eventId, key, init, last);
      assert Distinct(channels) <==> Distinct(init) && last !in init;
      assert NewDeliveries(eventId, key, channels)
          == NewDeliveries(eventId, key, init) + [NewDelivery(eventId, key, last)];
      assert db.deliveries + NewDeliveries(eventId, key, channels)
          == db.deliveries + NewDeliveries(eventId, key, init) + [NewDelivery(eventId, key, last)];
    }
  }

  /** The user wants messages on the channel: WhatsApp and email unless switched off, the others always. */
  ghost predicate Wanted(c: Channel, pref: Option<Preference>) {
    match c
    case WhatsApp => pref.None? || pref.value.whatsappEnabled
    case Email => pref.None? || pref.value.emailEnabled
    case Slack => true
    case InApp => true
  }

  /** The request is a job that hands a delivery, which is neither sent nor skipped yet, to a channel the user
      wants, and the provider takes it; in-app messages need no provider. */
  ghost predicate Hands(db: Db, r: Request, id: nat) {
    && r.Process? && r.deliveryId == id && id < |db.deliveries|
    && db.deliveries[id].status != Sent && db.deliveries[id].status != Skipped
    && Wanted(db.deliveries[id].channel, r.pref) && (db.deliveries[id].channel == InApp || r.providerOk)
  }

  /** How often a run of requests successfully handed a delivery to its channel. */
  ghost function Sends(db: Db, rs: seq<Request>, id: nat): nat {
    if rs == [] then 0
    else
      Sends(db, rs[..|rs| - 1], id) + (if Hands(Run(db, rs[..|rs| - 1]), rs[|rs| - 1], id) then 1 else 0)
  }

  /** What a job makes of its delivery: SKIPPED when the user does not want the channel, SENT when the message
      is in-app or the provider takes it, FAILED when the provider refuses it; one more attempt in any case. */
  ghost predicate JobDone(before: Delivery, after: Delivery, pref: Option<Preference>, providerOk: bool) {
    && after == before.(status := after.status, attemptCount := before.attemptCount + 1)
    && (after.status == Skipped <==> !Wanted(before.channel, pref))
    && (after.status == Sent <==> Wanted(before.channel, pref) && (before.channel == InApp || providerOk))
    && (after.status == Failed <==> Wanted(before.channel, pref) && before.channel != InApp && !providerOk)
  }

  /** A job of a delivery that is waiting or failed decides it, and counts one attempt of its event; other
      deliveries, other events and the keys stay. */
  lemma JobOutcome(db: Db, id: nat, pref: Option<Preference>, providerOk: bool, now: int)
    requires Inv(db) && id < |db.deliveries|
    requires db.deliveries[id].status == Waiting || db.deliveries[id].status == Failed
    ensures var after := ProcessDelivery(db, id, pref, providerOk, now);
            var e := db.deliveries[id].eventId;
            && |after.deliveries| == |db.deliveries| && |after.events| == |db.events| && e < |db.events|
            && JobDone(db.deliveries[id], after.deliveries[id], pref, providerOk)
            && (forall i | 0 <= i < |db.deliveries| && i != id :: after.deliveries[i] == db.deliveries[i])
            && (forall i | 0 <= i < |db.events| && i != e :: after.events[i] == db.events[i])
            && after.events[e].key == db.events[e].key && after.events[e].attempts == db.events[e].attempts + 1
            && (after.events[e].processedAt == None || after.events[e].processedAt == Some(now))
  {
    assert DeliveryOk(db, db.deliveries[id]);
    var after := db.(deliveries := db.deliveries[id := Attempted(db.deliveries[id], pref, providerOk)]);
    assert after.deliveries[id].eventId == db.deliveries[id].eventId;
    assert HasDeliveries(after.deliveries, db.deliveries[id].eventId);
  }

  /** A job of a missing, sent or skipped delivery changes nothing. */
  lemma JobIdle(db: Db, id: nat, pref: Option<Preference>, providerOk: bool, now: int)
    requires id >= |db.deliveries| || db.deliveries[id].status == Sent || db.deliveries[id].status == Skipped
    ensures ProcessDelivery(db, id, pref, providerOk, now) == db
  {
  }

  /** In every reachable state an event reads PENDING while one of its deliveries waits or it has none, FAILED
      when none waits and one has failed, and SENT otherwise; it has a processing time exactly when none
      waits and one was sent or has failed. */
  lemma ReachableEventReads(rs: seq<Request>, e: nat)
    requires e < |Run(EMPTY_DB, rs).events|
    ensures var db := Run(EMPTY_DB, rs);
            var mine := set i | 0 <= i < |db.deliveries| && db.deliveries[i].eventId == e;
            var waits := exists i :: i in mine && db.deliveries[i].status == Waiting;
            var failed := exists i :: i in mine && db.deliveries[i].status == Failed;
            var sent := exists i :: i in mine && db.deliveries[i].status == Sent;
            && (db.events[e].status == EventPending <==> mine == {} || waits)
            && (db.events[e].status == EventFailed <==> !waits && failed)
            && (db.events[e].status == EventSent <==> mine != {} && !waits && !failed)
            && (db.events[e].processedAt.Some? <==> !waits && (sent || failed))
  {
    ReachableEventStatus(rs, e);
    var db := Run(EMPTY_DB, rs);
    var mine := set i | 0 <= i < |db.deliveries| && db.deliveries[i].eventId == e;
    assert HasDeliveries(db.deliveries, e) <==> mine != {} by {
      if HasDeliveries(db.deliveries, e) {
        var i :| 0 <= i < |db.deliveries| && db.deliveries[i].eventId == e;
        assert i in mine;
      }
    }
    assert forall s :: AnyIs(db.deliveries, e, s) <==> exists i :: i in mine && db.deliveries[i].status == s;
  }

  /** Emitting a key seen before changes nothing. */
  lemma EmitKnown(db: Db, key: string, channels: seq<Channel>, e: nat)
    requires e < |db.events| && db.events[e].key == key
    ensures CreateOrGetEvent(db, key, channels) == Success(db)
  {
    assert db.events[e] in db.events;
  }

  lemma StepOnDelivery(db: Db, r: Request, id: nat)
    requires Inv(db) && id < |db.deliveries|
    ensures id < |Step(db, r).deliveries|
    ensures Step(db, r).deliveries[id]
         == if r.Process? && r.deliveryId == id && Open(db.deliveries[id])
             then Attempted(db.deliveries[id], r.pref, r.providerOk)
            else db.deliveries[id]
  {
    hide Inv;
    if r.Emit? && !(exists e :: e in db.events && e.key == r.key) && CreateOrGetEvent(db, r.key, r.channels).Success? {
      NewEventKeepsInv(db, r.key);
      AddDeliveriesKeepsInv(db.(events := db.events + [Event(r.key, EventPending, 0, None)]), |db.events|, r.key,
          r.channels);
    }
  }

  /** However often its job is repeated, a delivery is sent at most once, and it was sent exactly when
      it ends up SENT; once SENT or SKIPPED its row never changes again. */
  lemma {:induction false} SentAtMostOnce(db: Db, rs: seq<Request>, id: nat)
    requires Inv(db) && id < |db.deliveries|
    ensures id < |Run(db, rs).deliveries|
    ensures !Open(db.deliveries[id]) ==> Run(db, rs).deliveries[id] == db.deliveries[id] && Sends(db, rs, id) == 0
    ensures Open(db.deliveries[id]) ==> Sends(db, rs, id) == if Run(db, rs).deliveries[id].status == Sent then 1 else 0
  {
    hide Inv, Step;
    if rs != [] {
      var init := rs[..|rs| - 1];
      SentAtMostOnce(db, init, id);
      RunKeepsInv(db, init);
      StepOnDelivery(Run(db, init), rs[|rs| - 1], id);
    }
  }

  // ------------------------------------------------------------ the service

  class Service {
    var events: seq<Event>
    var deliveries: seq<Delivery>

    ghost function Tables(): Db
      reads this
    {
      Db(events, deliveries)
    }

    constructor ()
      ensures Tables() == EMPTY_DB
    {
      events, deliveries := [], [];
    }

    /** The creating transaction: on a repeated dedupe key the event is rolled back as well. */
    method CreateOrGet(key: string, channels: seq<Channel>) returns (error: Option<Error>)
      modifies this
      ensures CarriedOut(old(Tables()), Tables(), CreateOrGetEvent(old(Tables()), key, channels), error)
    {
      hide DedupeKey;
      if exists e :: e in events && e.key == key {
        return None;
      }
      var savedEvents, savedDeliveries, eventId := events, deliveries, |events|;
      events := events + [Event(key, EventPending, 0, None)];
      ghost var stored := Tables();
      for i := 0 to |channels|
        invariant AddDeliveries(stored, eventId, key, channels[..i]) == Success(Tables())
      {
        assert channels[..i + 1][..i] == channels[..i];
        var dedupeKey := DedupeKey(key, channels[i]);
        if exists d :: d in deliveries && d.dedupeKey == dedupeKey {
          events, deliveries := savedEvents, savedDeliveries;
          AddDeliveriesStops(stored, eventId, key, channels, i + 1);
          return Some(DatabaseError);
        }
        deliveries := deliveries + [Delivery(eventId, channels[i], dedupeKey, Waiting, 0)];
      }
      assert channels[..|channels|] == channels;
      return None;
    }

    method RefreshEventStatus(e: nat, now: int)
      modifies `events
      ensures Tables() == Refreshed(old(Tables()), e, now)
    {
      var found, hasFailed, hasPending, allSkipped := false, false, false, true;
      for i := 0 to |deliveries|
        invariant events == old(events) && (found <==> HasDeliveries(deliveries[..i], e))
        invariant hasFailed <==> AnyIs(deliveries[..i], e, Failed)
        invariant hasPending <==> AnyIs(deliveries[..i], e, Waiting)
        invariant allSkipped <==> !hasFailed && !hasPending && !AnyIs(deliveries[..i], e, Sent)
      {
        var d := deliveries[i];
        OneMoreDelivery(deliveries, i, e);
        if d.eventId == e {
          found := true;
          hasFailed := hasFailed || d.status == Failed;
          hasPending := hasPending || d.status == Waiting;
          allSkipped := allSkipped && d.status == Skipped;
        }
      }
      assert deliveries[..|deliveries|] == deliveries;
      if !found || e >= |events| {
        return;
      }
      var nextStatus := if hasPending then EventPending else if hasFailed then EventFailed else EventSent;
      var processedAt := if hasPending || allSkipped then None else Some(now);
      events := events[e :=
          events[e].(status := nextStatus, processedAt := processedAt, attempts := events[e].attempts + 1)];
    }

    /** `threw` reports the provider failure that is rethrown after the rows are updated. */
    method ProcessJob(id: nat, pref: Option<Preference>, providerOk: bool, now: int) returns (threw: bool)
      modifies this
      ensures Tables() == ProcessDelivery(old(Tables()), id, pref, providerOk, now)
      ensures threw <==> id < old(|deliveries|) && Open(old(deliveries)[id]) && deliveries[id].status == Failed
    {
      threw := false;
      if id >= |deliveries| {
        return;
      }
      var d := deliveries[id];
      if d.status == Sent || d.status == Skipped {
        return;
      }
      if !IsChannelEnabled(d.channel, pref) {
        deliveries := deliveries[id := d.(status := Skipped, attemptCount := d.attemptCount + 1)];
        RefreshEventStatus(d.eventId, now);
        return;
      }
      if d.channel == InApp || providerOk {
        deliveries := deliveries[id := d.(status := Sent, attemptCount := d.attemptCount + 1)];
      } else {
        deliveries := deliveries[id := d.(status := Failed, attemptCount := d.attemptCount + 1)];
        threw := true;
      }
      RefreshEventStatus(d.eventId, now);
    }
  }

  lemma OneMoreDelivery(ds: seq<Delivery>, i: nat, e: nat)
    requires i < |ds|
    ensures HasDeliveries(ds[..i + 1], e) <==> HasDeliveries(ds[..i], e) || ds[i].eventId == e
    ensures forall s :: AnyIs(ds[..i + 1], e, s) <==> AnyIs(ds[..i], e, s) || (ds[i].eventId == e && ds[i].status == s)
  {
    var a, b := ds[..i], ds[..i + 1];
    assert b[i] == ds[i] && forall k | 0 <= k < i :: b[k] == a[k];
    forall s
      ensures AnyIs(b, e, s) <==> AnyIs(a, e, s) || (ds[i].eventId == e && ds[i].status == s)
    {
      if AnyIs(a, e, s) {
        var k :| 0 <= k < |a| && a[k].eventId == e && a[k].status == s;
        assert b[k] == a[k];
      }
    }
    if HasDeliveries(a, e) {
      var k :| 0 <= k < |a| && a[k].eventId == e;
      assert b[k] == a[k];
    }
  }

  // A refused delivery fails the whole list.
  lemma {:induction false} AddDeliveriesStops(db: Db, eventId: nat, key: string, channels: seq<Channel>, i: nat)
    requires i <= |channels| && AddDeliveries(db, eventId, key, channels[..i]) == Failure(DatabaseError)
    ensures AddDeliveries(db, eventId, key, channels) == Failure(DatabaseError)
  {
    if i < |channels| {
      assert channels[..|channels| - 1][..i] == channels[..i];
      AddDeliveriesStops(db, eventId, key, channels[..|channels| - 1], i);
    } else {
      assert channels[..i] == channels;
    }
  }
}
