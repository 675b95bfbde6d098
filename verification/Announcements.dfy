/** What the discovery engine has heard, and what it then lists (crates/adb-mdns/src/zero_config.rs,
    crates/adb-mdns/src/store.rs): after a tick the services are those that the latest records,
    unexpired, describe. Nothing here speaks of queue or tables. */
module Announcements {
  import opened Wrappers
  import opened Rr
  import opened RecordStore
  import opened Lifecycle
  import opened Replay
  import opened Discovery

  /** A record, when it came, and the types tracked then. */
  datatype Heard = Heard(at: int, record: ResourceRecord, tracked: set<string>)

  // ---------- what one record says ----------

  /** Four labels: instance, the two parts of the service type, and domain. */
  predicate ReadsAs(labels: Name, n: FQServiceName) {
    && |labels| == 4 && n.instanceName == labels[0] && n.serviceType == labels[1] + "." + labels[2]
    && n.localDomain == labels[3]
  }

  predicate IsTracked(n: FQServiceName, tracked: set<string>) {
    n.serviceType + "." + n.localDomain in tracked
  }

  /** The record is about this: an address of a host, or a tracked service. */
  predicate Tells(r: ResourceRecord, tracked: set<string>, k: RRKey) {
    match k
    case AKey(host, a) => r.rdata == RA(a) && NameText(r.name) == host
    case AAAAKey(host, a) => r.rdata == RAAAA(a) && NameText(r.name) == host
    case SRVKey(n) => r.rdata.RSRV? && ReadsAs(r.name, n) && IsTracked(n, tracked)
    case TXTKey(n) => r.rdata.RTXT? && ReadsAs(r.name, n) && IsTracked(n, tracked)
    case PTRKey(n) => r.rdata.RPTR? && ReadsAs(r.rdata.pointer, n) && IsTracked(n, tracked)
  }

  /** The attributes of a TXT record; one without a value has the empty one. */
  predicate SameAttributes(attributes: TxtAttributes, said: map<string, Option<string>>) {
    && attributes.Keys == said.Keys
    && forall a :: a in said ==> attributes[a] == match said[a] case Some(value) => value case None => ""
  }

  /** What is kept of a record is what it says. */
  predicate Says(p: RRPayload, r: ResourceRecord) {
    match p
    case A(host, a) => r.rdata == RA(a) && host == NameText(r.name)
    case AAAA(host, a) => r.rdata == RAAAA(a) && host == NameText(r.name)
    case SRV(n, target, port) =>
      r.rdata.RSRV? && ReadsAs(r.name, n) && target == NameText(r.rdata.target) && port == r.rdata.port
    case TXT(n, attributes) =>
      r.rdata.RTXT? && ReadsAs(r.name, n) && SameAttributes(attributes, r.rdata.attributes)
    case PTR(name, n) => r.rdata.RPTR? && ReadsAs(r.rdata.pointer, n) && name == NameText(r.name)
  }

  /** A record is kept under what it is about, and so that the copy says the same. */
  lemma KeptAsSaid(r: ResourceRecord, tracked: set<string>)
    ensures forall k :: CarriesKey(r, tracked, k) <==> Tells(r, tracked, k)
    ensures PayloadOf(r, tracked).Some? ==> Says(PayloadOf(r, tracked).value, r)
  {
    forall k ensures CarriesKey(r, tracked, k) <==> Tells(r, tracked, k) {
      match k
      case AKey(_, _) =>
      case AAAAKey(_, _) =>
      case SRVKey(n) =>
      case TXTKey(n) =>
      case PTRKey(n) =>
    }
  }

  // ---------- what has been heard ----------

  function HeardAll(records: seq<ResourceRecord>, at: int, tracked: set<string>): seq<Heard> {
    if records == [] then []
    else HeardAll(records[..|records| - 1], at, tracked) + [Heard(at, records[|records| - 1], tracked)]
  }

  /** Everything heard since the start, or the last stop. */
  function History(c: Cache, events: seq<Event>): seq<Heard> {
    if events == [] then []
    else
      var k := |events| - 1;
      var before, so := AfterEvents(c, events[..k]), History(c, events[..k]);
      match events[k]
      case Packet(_, an, ad, ns) => so + HeardAll(an + ad + ns, before.now, before.Tracked())
      case Stop => []
      case _ => so
  }

  /** When the last tick was, and how many records had been heard by then. */
  datatype Ticked = Ticked(at: int, count: nat)

  function LastTick(c: Cache, events: seq<Event>): Ticked {
    if events == [] then Ticked(c.now, 0)
    else
      var k := |events| - 1;
      match events[k]
      case TickNow => Ticked(AfterEvents(c, events[..k]).now, |History(c, events[..k])|)
      case Stop => Ticked(AfterEvents(c, events[..k]).now, 0)
      case _ => LastTick(c, events[..k])
  }

  /** The clock does not go back. */
  ghost predicate Forward(c: Cache, events: seq<Event>) {
    forall i :: 0 <= i < |events| && events[i].TimeIs? ==> AfterEvents(c, events[..i]).now <= events[i].instant
  }

  /** A record lasts for its TTL, in seconds; the clock is in nanoseconds. */
  function Expiry(h: Heard): int {
    h.at + 1_000_000_000 * h.record.ttl
  }

  /** The last record about something. */
  ghost predicate Latest(hs: seq<Heard>, k: RRKey, i: int) {
    && 0 <= i < |hs| && Tells(hs[i].record, hs[i].tracked, k)
    && forall j :: i < j < |hs| ==> !Tells(hs[j].record, hs[j].tracked, k)
  }

  ghost predicate LiveAt(hs: seq<Heard>, k: RRKey, now: int, i: int) {
    Latest(hs, k, i) && now < Expiry(hs[i])
  }

  /** Something is known: the last record about it has not expired. */
  ghost predicate Live(hs: seq<Heard>, k: RRKey, now: int) {
    exists i :: LiveAt(hs, k, now, i)
  }

  // ---------- the queue remembers it ----------

  ghost predicate Stays(hs: seq<Heard>, k: RRKey, t: Ticked, i: int) {
    Latest(hs, k, i) && (i >= t.count || t.at < Expiry(hs[i]))
  }

  ghost predicate Copies(rr: RR, h: Heard) {
    rr.createdOn == h.at && rr.ttl == h.record.ttl && Says(rr.payload, h.record)
  }

  /** Queued is the last record about each thing, unless it had expired by the last tick. */
  ghost predicate Recalls(q: Queue, hs: seq<Heard>, t: Ticked, now: int) {
    && t.count <= |hs| && t.at <= now && (forall i :: 0 <= i < |hs| ==> hs[i].at <= now)
    && (forall k :: k in q <==> exists i :: Stays(hs, k, t, i))
    && (forall k, i :: k in q && Latest(hs, k, i) ==> Copies(q[k], hs[i]))
  }

  lemma LatestSnoc(hs: seq<Heard>, h: Heard, k: RRKey, i: int)
    ensures Latest(hs + [h], k, i) <==> if Tells(h.record, h.tracked, k) then i == |hs| else Latest(hs, k, i)
  {
    hide Tells;
    var all := hs + [h];
    assert all[|hs|] == h;
    assert forall j :: 0 <= j < |hs| ==> all[j] == hs[j];
  }

  /** Receiving one more record. */
  lemma RecallsOne(q: Queue, hs: seq<Heard>, t: Ticked, now: int, r: ResourceRecord, tracked: set<string>)
    requires Recalls(q, hs, t, now)
    ensures var q' := match PayloadOf(r, tracked)
                      case Some(p) => q[PayloadKey(p) := NewRR(now, r.ttl, p)]
                      case None => q;
            Recalls(q', hs + [Heard(now, r, tracked)], t, now)
  {
    hide Tells, Says, PayloadOf, PayloadKey;
    var h := Heard(now, r, tracked);
    var q' := match PayloadOf(r, tracked) case Some(p) => q[PayloadKey(p) := NewRR(now, r.ttl, p)] case None => q;
    var all := hs + [h];
    KeptAsSaid(r, tracked);
    forall k, i ensures Latest(all, k, i) <==> if Tells(r, tracked, k) then i == |hs| else Latest(hs, k, i) {
      LatestSnoc(hs, h, k, i);
    }
    forall k ensures k in q' <==> exists i :: Stays(all, k, t, i) {
      if Tells(r, tracked, k) {
        assert CarriesKey(r, tracked, k);
        assert Stays(all, k, t, |hs|);
      } else {
        assert !CarriesKey(r, tracked, k);
        assert forall i :: Stays(all, k, t, i) <==> Stays(hs, k, t, i);
      }
    }
    forall k, i | k in q' && Latest(all, k, i) ensures Copies(q'[k], all[i]) {
      assert CarriesKey(r, tracked, k) <==> Tells(r, tracked, k);
    }
  }

  lemma {:induction false} RecallsPacket(q: Queue, hs: seq<Heard>, t: Ticked, now: int, records: seq<ResourceRecord>,
                                         tracked: set<string>)
    requires Recalls(q, hs, t, now)
    ensures Recalls(Received(q, records, tracked, now), hs + HeardAll(records, now, tracked), t, now)
    decreases |records|
  {
    hide Recalls, PayloadOf, PayloadKey;
    if records == [] {
      assert hs + [] == hs;
    } else {
      var k := |records| - 1;
      var so := HeardAll(records[..k], now, tracked);
      RecallsPacket(q, hs, t, now, records[..k], tracked);
      RecallsOne(Received(q, records[..k], tracked, now), hs + so, t, now, records[k], tracked);
      ConcatAssoc(hs, so, [Heard(now, records[k], tracked)]);
    }
  }

  /** What a tick leaves has not expired. */
  lemma SweptIsUnexpired(q: Queue, now: int, k: RRKey)
    requires Scheduled(q) && forall k :: k in q ==> q[k].createdOn <= now
    ensures k in Swept(q, now) <==> k in q && now < q[k].createdOn + 1_000_000_000 * q[k].ttl
    ensures k in Swept(q, now) ==>
              var a, b := q[k], Swept(q, now)[k];
              a.createdOn == b.createdOn && a.ttl == b.ttl && a.payload == b.payload
  {
    if k in q {
      ScheduledBeforeExpiry(q[k]);
    }
  }

  lemma RecallsTick(q: Queue, hs: seq<Heard>, t: Ticked, now: int)
    requires Recalls(q, hs, t, now) && Scheduled(q)
    ensures Recalls(Swept(q, now), hs, Ticked(now, |hs|), now)
    ensures forall k :: k in Swept(q, now) <==> Live(hs, k, now)
  {
    hide Tells, Says, Swept, Scheduled;
    var t', q' := Ticked(now, |hs|), Swept(q, now);
    forall k | k in q ensures q[k].createdOn <= now {
      var i :| Stays(hs, k, t, i);
    }
    forall k ensures k in q' <==> exists i :: Stays(hs, k, t', i) {
      SweptIsUnexpired(q, now, k);
      if k in q' {
        var i :| Stays(hs, k, t, i);
        assert Stays(hs, k, t', i);
      }
      if i :| Stays(hs, k, t', i) {
        assert Stays(hs, k, t, i);
      }
    }
    forall k, i | k in q' && Latest(hs, k, i) ensures Copies(q'[k], hs[i]) {
      SweptIsUnexpired(q, now, k);
    }
    forall k ensures k in q' <==> Live(hs, k, now) {
      if k in q' {
        var i :| Stays(hs, k, t', i);
        assert LiveAt(hs, k, now, i);
      }
      if i :| LiveAt(hs, k, now, i) {
        assert Stays(hs, k, t', i);
      }
    }
  }

  // ---------- over any calls ----------

  /** What a run of calls does to the cache, seen from its history. */
  ghost predicate Faithful(c: Cache, events: seq<Event>) {
    var now := AfterEvents(c, events);
    Scheduled(now.queue) && Recalls(now.queue, History(c, events), LastTick(c, events), now.now)
  }

  lemma {:induction false} ReceivedScheduled(q: Queue, records: seq<ResourceRecord>, tracked: set<string>, now: int)
    requires Scheduled(q)
    ensures Scheduled(Received(q, records, tracked, now))
    decreases |records|
  {
    if records != [] {
      ReceivedScheduled(q, records[..|records| - 1], tracked, now);
    }
  }

  lemma {:induction false} HistoryFaithful(c: Cache, events: seq<Event>)
    requires c.queue == map[] && Forward(c, events)
    ensures Faithful(c, events)
    decreases |events|
  {
    hide Recalls, Scheduled, Received, Swept, HeardAll;
    if events == [] {
      NothingRecalled(c.now);
    } else {
      var k := |events| - 1;
      var front, before := events[..k], AfterEvents(c, events[..k]);
      ForwardFront(c, events);
      HistoryFaithful(c, front);
      var hs, t := History(c, front), LastTick(c, front);
      match events[k]
      case TimeIs(now) =>
        RecallsLater(before.queue, hs, t, before.now, now);
      case Packet(_, an, ad, ns) =>
        ReceivedScheduled(before.queue, an + ad + ns, before.Tracked(), before.now);
        RecallsPacket(before.queue, hs, t, before.now, an + ad + ns, before.Tracked());
      case TickNow =>
        SweptIsFresh(before.queue, before.now);
        RecallsTick(before.queue, hs, t, before.now);
      case Stop =>
        NothingRecalled(before.now);
      case _ =>
    }
  }

  lemma NothingRecalled(now: int)
    ensures Scheduled(map[]) && Recalls(map[], [], Ticked(now, 0), now)
  {}

  lemma RecallsLater(q: Queue, hs: seq<Heard>, t: Ticked, now: int, later: int)
    requires Recalls(q, hs, t, now) && now <= later
    ensures Recalls(q, hs, t, later)
  {}

  lemma ForwardFront(c: Cache, events: seq<Event>)
    requires Forward(c, events) && events != []
    ensures var k := |events| - 1;
            Forward(c, events[..k]) && (events[k].TimeIs? ==> AfterEvents(c, events[..k]).now <= events[k].instant)
  {
    var k := |events| - 1;
    var front := events[..k];
    forall i | 0 <= i < k && front[i].TimeIs? ensures AfterEvents(c, front[..i]).now <= front[i].instant {
      assert front[..i] == events[..i] && events[i].TimeIs?;
    }
  }

  // ---------- the services ----------

  /** A service is announced: a live pointer to it, a live endpoint, and a live address of its host. */
  ghost predicate Announced(hs: seq<Heard>, n: FQServiceName, now: int) {
    && Live(hs, PTRKey(n), now)
    && exists s :: LiveAt(hs, SRVKey(n), now, s) && Addressed(hs, NameText(hs[s].record.rdata.target), now)
  }

  ghost predicate Addressed(hs: seq<Heard>, host: string, now: int) {
    || (exists a :: Live(hs, AKey(host, a), now))
    || (exists a :: Live(hs, AAAAKey(host, a), now))
  }

  /** Host and port are those of its endpoint, the addresses all that are live of the host, and the
      attributes those of its last TXT record, if live. */
  ghost predicate Shows(d: InstanceDetails, hs: seq<Heard>, n: FQServiceName, now: int) {
    && (forall s :: LiveAt(hs, SRVKey(n), now, s) ==>
          var srv := hs[s].record.rdata; d.hostname == NameText(srv.target) && d.port == srv.port)
    && (forall a :: a in d.ipv4s <==> Live(hs, AKey(d.hostname, a), now))
    && (forall a :: a in d.ipv6s <==> Live(hs, AAAAKey(d.hostname, a), now))
    && (forall x :: LiveAt(hs, TXTKey(n), now, x) ==> SameAttributes(d.txt, hs[x].record.rdata.attributes))
    && (!Live(hs, TXTKey(n), now) ==> d.txt == map[])
  }

  ghost predicate ListsAll(services: Services, hs: seq<Heard>, now: int) {
    && (forall n :: n in services <==> Announced(hs, n, now))
    && (forall n :: n in services ==> Shows(services[n], hs, n, now))
  }

  /** A queue whose records are the live ones. */
  ghost predicate Holds(q: Queue, hs: seq<Heard>, now: int) {
    && (forall k :: k in q <==> Live(hs, k, now))
    && (forall k, i :: k in q && Latest(hs, k, i) ==> Copies(q[k], hs[i]))
  }

  lemma AnnouncedIff(q: Queue, hs: seq<Heard>, n: FQServiceName, now: int, tracked: set<string>)
    requires Holds(q, hs, now) && WellKeyed(q, tracked)
    ensures Advertised(q, n) <==> Announced(hs, n, now)
  {
    hide SameAttributes, ReadsAs, IsTracked;
    if Live(hs, SRVKey(n), now) {
      var s :| LiveAt(hs, SRVKey(n), now, s);
      assert q[SRVKey(n)].payload.SRV? && Copies(q[SRVKey(n)], hs[s]);
      assert forall s' :: LiveAt(hs, SRVKey(n), now, s') ==> s' == s;
      assert q[SRVKey(n)].payload.target == NameText(hs[s].record.rdata.target);
    }
  }

  lemma DescribedIff(q: Queue, hs: seq<Heard>, n: FQServiceName, now: int, tracked: set<string>, d: InstanceDetails)
    requires Holds(q, hs, now) && WellKeyed(q, tracked) && Advertised(q, n) && Describes(d, q, n)
    ensures Shows(d, hs, n, now)
  {
    hide SameAttributes, ReadsAs, IsTracked;
    var srv := q[SRVKey(n)].payload;
    forall s | LiveAt(hs, SRVKey(n), now, s)
      ensures d.hostname == NameText(hs[s].record.rdata.target) && d.port == hs[s].record.rdata.port
    {
      assert Copies(q[SRVKey(n)], hs[s]);
    }
    forall x | LiveAt(hs, TXTKey(n), now, x)
      ensures SameAttributes(d.txt, hs[x].record.rdata.attributes)
    {
      assert TXTKey(n) in q && q[TXTKey(n)].payload.TXT? && Copies(q[TXTKey(n)], hs[x]);
    }
  }

  /** After calls that end with a tick, the snapshot lists exactly the services announced by the latest
      records that have not expired, as these describe them. */
  lemma SnapshotOfHistory(c: Cache, events: seq<Event>, v: Tables)
    requires c.queue == map[] && Forward(c, events) && events != [] && events[|events| - 1].TickNow?
    requires var now := AfterEvents(c, events);
             Unmistakable(now.Tracked()) && Agrees(v, now.queue) && WellKeyed(now.queue, now.Tracked())
    ensures ListsAll(SnapshotOf(v), History(c, events), AfterEvents(c, events).now)
  {
    hide Recalls, Scheduled, Received, Swept, Announced, Shows, Advertised, Describes, Agrees, WellKeyed, SnapshotOf;
    var k := |events| - 1;
    var before, hs := AfterEvents(c, events[..k]), History(c, events[..k]);
    var now := before.now;
    ForwardFront(c, events);
    HistoryFaithful(c, events[..k]);
    RecallsTick(before.queue, hs, LastTick(c, events[..k]), now);
    var q := Swept(before.queue, now);
    RecalledHolds(q, hs, Ticked(now, |hs|), now);
    var tracked := AfterEvents(c, events).Tracked();
    forall n ensures n in SnapshotOf(v) <==> Announced(hs, n, now)
             ensures n in SnapshotOf(v) ==> Shows(SnapshotOf(v)[n], hs, n, now)
    {
      SnapshotOfRecords(v, q, tracked, n);
      AnnouncedIff(q, hs, n, now, tracked);
      if n in SnapshotOf(v) {
        DescribedIff(q, hs, n, now, tracked, SnapshotOf(v)[n]);
      }
    }
  }

  lemma RecalledHolds(q: Queue, hs: seq<Heard>, t: Ticked, now: int)
    requires Recalls(q, hs, t, now) && forall k :: k in q <==> Live(hs, k, now)
    ensures Holds(q, hs, now)
  {}

  /** Any sequence of calls on a new engine, the clock not going back, that ends with a tick: the
      consumer's view is the services announced by the latest unexpired records. */
  method Watch(engine: ZeroConfig, events: seq<Event>) returns (log: seq<Command>)
    requires engine.Valid() && engine.lastSnapshot == map[] && engine.Queued() == map[]
    requires Separable(engine.trackedServices.Keys + TypesAdded(events)) && Forward(engine.Cached(), events)
    requires events != [] && events[|events| - 1].TickNow?
    modifies engine, engine.attentionList, engine.store
    ensures engine.Valid() && Mirrors(ApplyAll(log, map[]), engine.lastSnapshot)
    ensures ListsAll(engine.lastSnapshot, History(old(engine.Cached()), events), engine.now)
  {
    hide Mirrors, ListsAll, Forward, Agrees, WellKeyed;
    ghost var c := engine.Cached();
    log := Run(engine, events);
    SnapshotOfHistory(c, events, engine.store.View());
  }
}
