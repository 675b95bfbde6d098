/** The mDNS discovery engine (crates/adb-mdns/src/zero_config.rs): every received record
    is kept in the attention queue and in the store; a `tick` probes or expires the due
    records, reports what changed and says how long to sleep. */
module Discovery {
  import opened Wrappers
  import opened Rr
  import opened IndexMinPq
  import opened RecordStore
  import opened Lifecycle
  import opened Replay

  const REFRESH_INTERVAL: int := 120_000_000_000
  const IDLE_SLEEP: int := 60_000_000_000

  const TLS_CONNECT_SERVICE := "_adb-tls-connect._tcp"
  const TLS_PAIRING_SERVICE := "_adb-tls-pairing._tcp"
  const TCP_CONNECT_SERVICE := "_adb._tcp"

  /** The service types the engine is started with. */
  const BUILT_IN_SERVICES := [TLS_CONNECT_SERVICE, TLS_PAIRING_SERVICE, TCP_CONNECT_SERVICE]

  // ---------- received packets, already decoded ----------

  datatype Question = Question(qname: Name, qtype: QType)

  type Ttl = x: int | 0 <= x < 0x1_0000_0000

  datatype RData =
    | RA(addr4: Ipv4Addr)
    | RAAAA(addr6: Ipv6Addr)
    | RSRV(target: Name, port: Port)
    | RTXT(attributes: map<string, Option<string>>)
    | RPTR(pointer: Name)
    | ROther

  datatype ResourceRecord = ResourceRecord(name: Name, ttl: Ttl, rdata: RData)

  function TxtOf(attributes: map<string, Option<string>>): TxtAttributes {
    map k | k in attributes :: if attributes[k].Some? then attributes[k].value else ""
  }

  function TrackedServiceName(n: Name, tracked: set<string>): Option<FQServiceName> {
    var s := ToServiceName(n);
    if s.Some? && s.value.ServiceTypeWithLocal() in tracked then s else None
  }

  /** The payload kept of a record: address records always, the others only for a tracked service type. */
  function PayloadOf(r: ResourceRecord, tracked: set<string>): Option<RRPayload> {
    match r.rdata
    case RA(addr) => Some(A(NameText(r.name), addr))
    case RAAAA(addr) => Some(AAAA(NameText(r.name), addr))
    case RSRV(target, port) =>
      (match TrackedServiceName(r.name, tracked)
       case Some(n) => Some(SRV(n, NameText(target), port))
       case None => None)
    case RTXT(attributes) =>
      (match TrackedServiceName(r.name, tracked)
       case Some(n) => Some(TXT(n, TxtOf(attributes)))
       case None => None)
    case RPTR(pointer) =>
      (match TrackedServiceName(pointer, tracked)
       case Some(n) => Some(PTR(NameText(r.name), n))
       case None => None)
    case ROther => None
  }

  /** The queue after a packet's records. */
  function Received(q: Queue, records: seq<ResourceRecord>, tracked: set<string>, now: int): Queue {
    if records == [] then q
    else
      var earlier := Received(q, records[..|records| - 1], tracked, now);
      var r := records[|records| - 1];
      match PayloadOf(r, tracked)
      case Some(p) => earlier[PayloadKey(p) := NewRR(now, r.ttl, p)]
      case None => earlier
  }

  ghost predicate CarriesKey(r: ResourceRecord, tracked: set<string>, k: RRKey) {
    PayloadOf(r, tracked).Some? && PayloadKey(PayloadOf(r, tracked).value) == k
  }

  ghost predicate LastWithKey(records: seq<ResourceRecord>, tracked: set<string>, k: RRKey, i: nat) {
    && i < |records| && CarriesKey(records[i], tracked, k)
    && forall j :: i < j < |records| ==> !CarriesKey(records[j], tracked, k)
  }

  lemma {:induction false} NoRecordNoChange(q: Queue, records: seq<ResourceRecord>, tracked: set<string>, now: int,
                                            k: RRKey)
    requires forall i :: 0 <= i < |records| ==> !CarriesKey(records[i], tracked, k)
    ensures k in Received(q, records, tracked, now) <==> k in q
    ensures k in q ==> Received(q, records, tracked, now)[k] == q[k]
  {
    if records != [] {
      var last := |records| - 1;
      assert !CarriesKey(records[last], tracked, k);
      NoRecordNoChange(q, records[..last], tracked, now, k);
    }
  }

  /** The last record of a packet with some key decides what is queued under it, with a fresh lifecycle. */
  lemma {:induction false} LastRecordWins(q: Queue, records: seq<ResourceRecord>, tracked: set<string>, now: int,
                                          k: RRKey, i: nat)
    requires LastWithKey(records, tracked, k, i)
    ensures k in Received(q, records, tracked, now)
    ensures Received(q, records, tracked, now)[k] == NewRR(now, records[i].ttl, PayloadOf(records[i], tracked).value)
  {
    var last := |records| - 1;
    if i < last {
      assert !CarriesKey(records[last], tracked, k);
      LastRecordWins(q, records[..last], tracked, now, k, i);
    }
  }

  // ---------- which service types can be told apart ----------

  /** Tracked types with one service type have one domain. */
  ghost predicate OneDomain(tracked: set<string>) {
    forall t, u, s, d, d' :: t in tracked && u in tracked && Reads(t, s, d) && Reads(u, s, d') ==> d == d'
  }

  /** Full names tell services apart, and so does what a delete command carries of one. */
  ghost predicate Separable(tracked: set<string>) {
    Unmistakable(tracked) && OneDomain(tracked)
  }

  /** Instance name and service type tell the tracked services apart if and only if one service
      type has one domain. */
  lemma HandlesIff(tracked: set<string>)
    ensures OneDomain(tracked) <==>
            forall m, n :: TrackedName(m, tracked) && TrackedName(n, tracked) && HandleOf(m) == HandleOf(n) ==> m == n
  {
    if OneDomain(tracked) {
      forall m, n | TrackedName(m, tracked) && TrackedName(n, tracked) && HandleOf(m) == HandleOf(n)
        ensures m == n
      {
        TrackedReads(m, tracked);
        TrackedReads(n, tracked);
      }
    } else {
      var t, u, s, d, d' :| t in tracked && u in tracked && Reads(t, s, d) && Reads(u, s, d') && d != d';
      ReadsTracked("x", s, d, tracked);
      ReadsTracked("x", s, d', tracked);
      assert HandleOf(FQServiceName("x", s, d)) == HandleOf(FQServiceName("x", s, d'));
    }
  }

  lemma TrackedGrows(tracked: set<string>, more: set<string>)
    requires tracked <= more
    ensures forall n :: TrackedName(n, tracked) ==> TrackedName(n, more)
  {}

  lemma FewerSeparable(tracked: set<string>, more: set<string>)
    requires tracked <= more && Separable(more)
    ensures Separable(tracked)
  {}

  /** Instance name and service type tell the tracked services apart. */
  lemma TrackedDistinguishable(names: set<FQServiceName>, tracked: set<string>)
    requires Separable(tracked) && forall n :: n in names ==> TrackedName(n, tracked)
    ensures Distinguishable(names)
  {
    HandlesIff(tracked);
  }

  /** Every tracked type is a two-part service type under `local`. */
  predicate PlainLocal(tracked: set<string>) {
    forall t :: t in tracked ==> Dots(t) <= 2 && |t| >= 6 && t[|t| - 6..] == ".local"
  }

  lemma PlainIsSeparable(tracked: set<string>)
    requires PlainLocal(tracked)
    ensures Separable(tracked)
  {
    PlainIsUnmistakable(tracked);
    forall t, s, d | t in tracked && Reads(t, s, d)
      ensures d == "local"
    {
      PlainReading(t, s, d);
      var x := t[..|t| - 6];
      assert t == x + "." + "local";
      Undotted("local");
      LastDot(s, d, x, "local");
    }
  }

  lemma PayloadIsTracked(r: ResourceRecord, tracked: set<string>)
    requires PayloadOf(r, tracked).Some?
    ensures var k := PayloadKey(PayloadOf(r, tracked).value); NamesService(k) ==> TrackedName(k.service, tracked)
  {
    var k := PayloadKey(PayloadOf(r, tracked).value);
    if NamesService(k) {
      var labels := if r.rdata.RPTR? then r.rdata.pointer else r.name;
      assert ToServiceName(labels) == Some(k.service);
    }
  }

  // ---------- what a tick emits ----------

  datatype TrackedService = TrackedService(serviceName: string, local: string, nextQueryTime: int)

  type Trackers = map<string, TrackedService>

  function Track(trackers: Trackers, service: string, now: int): Trackers {
    trackers[service + ".local" := TrackedService(service, "local", now)]
  }

  function TrackAll(services: seq<string>, now: int): Trackers {
    if services == [] then map[]
    else Track(TrackAll(services[..|services| - 1], now), services[|services| - 1], now)
  }

  lemma TrackSnoc(services: seq<string>, i: nat, now: int)
    requires i < |services|
    ensures TrackAll(services[..i + 1], now) == Track(TrackAll(services[..i], now), services[i], now)
  {
    assert services[..i + 1][..i] == services[..i];
  }

  /** The keys under which service types are tracked. */
  function TypesOf(services: seq<string>): set<string> {
    set i | 0 <= i < |services| :: services[i] + ".local"
  }

  lemma {:induction false} TypesSoFar(services: seq<string>, i: nat, now: int)
    requires i < |services|
    ensures TrackAll(services[..i], now).Keys + {services[i] + ".local"} <= TypesOf(services)
    decreases i
  {
    if i > 0 {
      TypesSoFar(services, i - 1, now);
      TrackSnoc(services, i - 1, now);
    }
  }

  lemma EmptyIsCoherent(v: Tables)
    requires Tidy(v) && forall l :: Lookup(v, l) == None
    ensures InStep(v, map[], map[], {})
  {}

  function QueryFor(p: RRPayload): DnsQuery {
    match p
    case A(name, _) => DnsQuery(name, OfA)
    case AAAA(name, _) => DnsQuery(name, OfAAAA)
    case SRV(service, _, _) => DnsQuery(service.FqName(), OfSRV)
    case TXT(service, _) => DnsQuery(service.FqName(), OfTXT)
    case PTR(name, _) => DnsQuery(name, OfPTR)
  }

  /** The orders in which a tick happens to walk its maps. */
  datatype Order = Order(changed: seq<FQServiceName>, probed: seq<RRKey>, refreshed: seq<string>)

  function ToProbe(q: Queue, now: int): set<RRKey> {
    set k | k in q && Due(q[k], now) && !Expired(q[k], now)
  }

  function ToRefresh(trackers: Trackers, periodic: bool, now: int): set<string> {
    set t | t in trackers && periodic && trackers[t].nextQueryTime <= now
  }

  function Refreshed(trackers: Trackers, which: set<string>, now: int): Trackers {
    map t | t in trackers :: if t in which then trackers[t].(nextQueryTime := now + REFRESH_INTERVAL) else trackers[t]
  }

  function Restarted(trackers: Trackers, now: int): Trackers {
    map t | t in trackers :: trackers[t].(nextQueryTime := now)
  }

  function QueriedTypes(questions: seq<Question>): set<string> {
    set i | 0 <= i < |questions| && questions[i].qtype == Any :: NameText(questions[i].qname)
  }

  lemma QueriedSnoc(questions: seq<Question>, i: nat)
    requires i < |questions|
    ensures QueriedTypes(questions[..i + 1]) ==
            QueriedTypes(questions[..i]) + if questions[i].qtype == Any then {NameText(questions[i].qname)} else {}
  {
    var before, after := questions[..i], questions[..i + 1];
    assert forall j :: 0 <= j < i ==> before[j] == after[j];
    forall t | t in QueriedTypes(before) ensures t in QueriedTypes(after) {
      var j :| 0 <= j < i && before[j].qtype == Any && NameText(before[j].qname) == t;
      assert after[j].qtype == Any && NameText(after[j].qname) == t;
    }
    if questions[i].qtype == Any {
      assert after[i] == questions[i];
    }
  }

  lemma RefreshedKeys(trackers: Trackers, which: set<string>, now: int)
    ensures Refreshed(trackers, which, now).Keys == trackers.Keys
  {}

  lemma RefreshedMore(trackers: Trackers, which: set<string>, name: string, now: int)
    ensures Refreshed(trackers, which + {name}, now) == Refreshed(Refreshed(trackers, which, now), {name}, now)
  {}

  lemma QueriesStep(trackers: Trackers, questions: seq<Question>, i: nat, now: int)
    requires i < |questions|
    ensures Refreshed(trackers, QueriedTypes(questions[..i + 1]), now) ==
            if questions[i].qtype == Any
            then Refreshed(Refreshed(trackers, QueriedTypes(questions[..i]), now), {NameText(questions[i].qname)}, now)
            else Refreshed(trackers, QueriedTypes(questions[..i]), now)
  {
    QueriedSnoc(questions, i);
    RefreshedMore(trackers, QueriedTypes(questions[..i]), NameText(questions[i].qname), now);
    assert QueriedTypes(questions[..i]) + {} == QueriedTypes(questions[..i]);
  }

  function ProbeQueries(q: Queue, probed: seq<RRKey>): seq<DnsQuery>
    requires forall k :: k in probed ==> k in q
  {
    seq(|probed|, i requires 0 <= i < |probed| => QueryFor(q[probed[i]].payload))
  }

  function RefreshQueries(refreshed: seq<string>): seq<DnsQuery> {
    seq(|refreshed|, i requires 0 <= i < |refreshed| => DnsQuery(refreshed[i], Any))
  }

  function BatchOf(questions: seq<DnsQuery>): seq<Command> {
    if questions == [] then [] else [DnsQueries(questions)]
  }

  /** One command for each changed service, then one question batch, if not empty: each
      due unexpired record asked for once, then each due tracker once. */
  ghost predicate TickCommands(cmds: seq<Command>, order: Order, q: Queue, trackers: Trackers, periodic: bool,
                               now: int, before: Services, after: Services) {
    && Lists(order.probed, ToProbe(q, now))
    && Lists(order.refreshed, ToRefresh(trackers, periodic, now))
    && |order.changed| <= |cmds|
    && Diff(cmds[..|order.changed|], order.changed, before, after)
    && cmds[|order.changed|..] == BatchOf(ProbeQueries(q, order.probed) + RefreshQueries(order.refreshed))
  }

  function DueKeys(q: Queue, now: int): set<RRKey> {
    set k | k in q && Due(q[k], now)
  }

  /** The queue after one pass over a due record. */
  function AfterPass(q: Queue, element: RR, now: int): Queue {
    if Expired(element, now) then q - {element.Key()} else (q - {element.Key()})[element.Key() := Probed(element, now)]
  }

  /** Half-way through a sweep of `q0`: the records in `done` were dealt with and the
      unexpired ones of them asked for, once each. */
  ghost predicate Sweeping(q0: Queue, done: set<RRKey>, probed: seq<RRKey>, now: int,
                           q: Queue, questions: seq<DnsQuery>) {
    && DealtWith(q0, done, now) && q == PartSwept(q0, done, now)
    && Lists(probed, ToProbe(q0, now) * done) && questions == ProbeQueries(q0, probed)
  }

  lemma SweepStart(q0: Queue, now: int)
    ensures Sweeping(q0, {}, [], now, q0, [])
  {
    assert PartSwept(q0, {}, now) == q0;
  }

  lemma DueIsSome(q: Queue, element: RR, now: int)
    requires element.Key() in q && q[element.Key()] == element && Due(element, now)
    ensures DueKeys(q, now) != {}
  {
    assert element.Key() in DueKeys(q, now);
  }

  lemma SweepRecorded(q0: Queue, done: set<RRKey>, probed: seq<RRKey>, now: int, key: RRKey)
    requires Lists(probed, ToProbe(q0, now) * done) && key !in done && key in q0 && Due(q0[key], now)
    ensures Expired(q0[key], now) ==> Lists(probed, ToProbe(q0, now) * (done + {key}))
    ensures !Expired(q0[key], now) ==>
              && Lists(probed + [key], ToProbe(q0, now) * (done + {key}))
              && ProbeQueries(q0, probed + [key]) == ProbeQueries(q0, probed) + [QueryFor(q0[key].payload)]
  {
    if Expired(q0[key], now) {
      assert ToProbe(q0, now) * (done + {key}) == ToProbe(q0, now) * done;
    } else {
      ListsSnoc(probed, ToProbe(q0, now) * done, key);
      assert ToProbe(q0, now) * (done + {key}) == ToProbe(q0, now) * done + {key};
    }
  }

  lemma SweepPass(q0: Queue, done: set<RRKey>, probed: seq<RRKey>, now: int,
                  q: Queue, questions: seq<DnsQuery>, element: RR)
    requires Scheduled(q0) && Sweeping(q0, done, probed, now, q, questions)
    requires element.Key() in q && q[element.Key()] == element && Due(element, now)
    ensures Sweeping(q0, done + {element.Key()},
                     if Expired(element, now) then probed else probed + [element.Key()], now,
                     AfterPass(q, element, now),
                     questions + if Expired(element, now) then [] else [QueryFor(element.payload)])
    ensures DueKeys(AfterPass(q, element, now), now) == DueKeys(q, now) - {element.Key()}
    ensures element.Key() in DueKeys(q, now)
  {
    var key := element.Key();
    SweepStep(q0, done, now, key);
    SweepRecorded(q0, done, probed, now, key);
    assert questions + [] == questions;
    if !Expired(element, now) {
      ProbeAdvances(element, now);
    }
  }

  lemma SweepComplete(q0: Queue, done: set<RRKey>, probed: seq<RRKey>, now: int, q: Queue, questions: seq<DnsQuery>)
    requires Scheduled(q0) && Sweeping(q0, done, probed, now, q, questions)
    requires forall k :: k in q ==> !Due(q[k], now)
    ensures q == Swept(q0, now) && Lists(probed, ToProbe(q0, now))
  {
    SweepDone(q0, done, now);
    assert forall k :: k in q0 && k !in done ==> k in q && q[k] == q0[k];
    assert ToProbe(q0, now) * done == ToProbe(q0, now);
  }

  /** Queue and store hold the same records, all on schedule, all for tracked services. */
  ghost predicate InStep(v: Tables, q: Queue, snapshot: Services, tracked: set<string>) {
    && Separable(tracked)
    && Scheduled(q) && WellKeyed(q, tracked) && Agrees(v, q)
    && (forall n :: n in snapshot ==> TrackedName(n, tracked))
  }

  lemma InStepGrows(v: Tables, q: Queue, snapshot: Services, tracked: set<string>, more: set<string>)
    requires InStep(v, q, snapshot, tracked) && tracked <= more && Separable(more)
    ensures InStep(v, q, snapshot, more)
  {
    TrackedGrows(tracked, more);
  }

  /** A received record keeps queue and store in step. */
  lemma InStepAdds(v: Tables, w: Tables, q: Queue, snapshot: Services, tracked: set<string>, rr: RR)
    requires InStep(v, q, snapshot, tracked) && rr.OnSchedule() && Tidy(w)
    requires NamesService(rr.Key()) ==> TrackedName(rr.Key().service, tracked)
    requires forall l :: Lookup(w, l) == if l == KeyLoc(rr.Key()) then Some(HeldOf(rr.payload)) else Lookup(v, l)
    ensures InStep(w, q[rr.Key() := rr], snapshot, tracked)
  {
    AgreesAdd(v, w, q, rr, tracked);
  }

  /** A new snapshot holds tracked services only. */
  lemma InStepSnapshot(v: Tables, q: Queue, snapshot: Services, tracked: set<string>)
    requires InStep(v, q, snapshot, tracked)
    ensures InStep(v, q, SnapshotOf(v), tracked)
  {
    forall n | n in SnapshotOf(v) ensures TrackedName(n, tracked) {
      PtrLookup(v, q, n);
    }
  }

  /** Half-way through the trackers: the due ones of those in `done` were refreshed and listed. */
  ghost predicate Refreshing(trackers: Trackers, done: set<string>, refreshed: seq<string>, now: int,
                             current: Trackers) {
    var due := ToRefresh(trackers, true, now);
    Lists(refreshed, due * done) && current == Refreshed(trackers, due * done, now)
  }

  /** Refreshes the due trackers, whatever order they are walked in. */
  method RefreshDue(trackers: Trackers, now: int)
    returns (current: Trackers, questions: seq<DnsQuery>, ghost refreshed: seq<string>)
    ensures Lists(refreshed, ToRefresh(trackers, true, now)) && questions == RefreshQueries(refreshed)
    ensures current == Refreshed(trackers, ToRefresh(trackers, true, now), now)
  {
    current, questions, refreshed := trackers, [], [];
    var todo := trackers.Keys;
    ghost var done: set<string> := {};
    while todo != {}
      invariant todo <= trackers.Keys && done == trackers.Keys - todo
      invariant Refreshing(trackers, done, refreshed, now, current) && questions == RefreshQueries(refreshed)
      decreases todo
    {
      var name :| name in todo;
      RefreshPass(trackers, done, refreshed, now, current, name);
      if current[name].nextQueryTime <= now {
        current := current[name := current[name].(nextQueryTime := now + REFRESH_INTERVAL)];
        questions, refreshed := questions + [DnsQuery(name, Any)], refreshed + [name];
      }
      todo, done := todo - {name}, done + {name};
    }
    assert ToRefresh(trackers, true, now) * done == ToRefresh(trackers, true, now);
  }

  lemma RefreshPass(trackers: Trackers, done: set<string>, refreshed: seq<string>, now: int, current: Trackers,
                    name: string)
    requires Refreshing(trackers, done, refreshed, now, current) && name in trackers && name !in done
    ensures current.Keys == trackers.Keys && current[name] == trackers[name]
    ensures trackers[name].nextQueryTime > now ==> Refreshing(trackers, done + {name}, refreshed, now, current)
    ensures trackers[name].nextQueryTime <= now ==>
              Refreshing(trackers, done + {name}, refreshed + [name], now,
                         current[name := current[name].(nextQueryTime := now + REFRESH_INTERVAL)])
    ensures RefreshQueries(refreshed + [name]) == RefreshQueries(refreshed) + [DnsQuery(name, Any)]
  {
    var due := ToRefresh(trackers, true, now);
    if trackers[name].nextQueryTime > now {
      assert due * (done + {name}) == due * done;
    } else {
      assert due * (done + {name}) == due * done + {name};
      ListsSnoc(refreshed, due * done, name);
      RefreshedMore(trackers, due * done, name, now);
    }
  }

  /** Dropping an expired record from both copies keeps them in step. */
  lemma PassDrops(v: Tables, w: Tables, q: Queue, snapshot: Services, tracked: set<string>, element: RR)
    requires InStep(v, q, snapshot, tracked) && element.Key() in q && Tidy(w)
    requires forall l :: Lookup(w, l) == if l == KeyLoc(element.Key()) then None else Lookup(v, l)
    ensures InStep(w, q - {element.Key()}, snapshot, tracked)
  {
    AgreesRemove(v, w, q, element.Key(), tracked);
  }

  /** So does putting a probed record back. */
  lemma PassProbes(v: Tables, q: Queue, snapshot: Services, tracked: set<string>, element: RR, now: int)
    requires InStep(v, q, snapshot, tracked)
    requires element.Key() in q && q[element.Key()] == element && Due(element, now) && !Expired(element, now)
    ensures Probed(element, now).Key() == element.Key() && Probed(element, now).payload == element.payload
    ensures InStep(v, (q - {element.Key()})[element.Key() := Probed(element, now)], snapshot, tracked)
  {
    hide Agrees, TrackedName, Separable, Probed, NextState;
    ProbeAdvances(element, now);
    AgreesReschedule(v, q, element, Probed(element, now));
  }

  lemma AgreesReschedule(v: Tables, q: Queue, element: RR, rr: RR)
    requires Agrees(v, q) && element.Key() in q && q[element.Key()] == element
    requires rr.payload == element.payload
    ensures Agrees(v, (q - {element.Key()})[rr.Key() := rr])
  {
    var q' := (q - {element.Key()})[rr.Key() := rr];
    assert q'.Keys == q.Keys;
    forall l | Lookup(v, l).Some? ensures exists k :: k in q' && KeyLoc(k) == l {
      var k :| k in q && KeyLoc(k) == l;
      assert k in q';
    }
  }

  lemma CommandsOfTick(diff: seq<Command>, batch: seq<Command>, order: Order, q: Queue, trackers: Trackers,
                       periodic: bool, now: int, before: Services, after: Services)
    requires Lists(order.probed, ToProbe(q, now)) && Lists(order.refreshed, ToRefresh(trackers, periodic, now))
    requires Diff(diff, order.changed, before, after)
    requires batch == BatchOf(ProbeQueries(q, order.probed) + RefreshQueries(order.refreshed))
    ensures TickCommands(diff + batch, order, q, trackers, periodic, now, before, after)
  {
    assert (diff + batch)[..|diff|] == diff && (diff + batch)[|diff|..] == batch;
  }

  /** A consumer that held the services reported before a tick holds, after applying its
      commands, exactly those of the new snapshot. */
  lemma ReplayTick(cmds: seq<Command>, order: Order, q: Queue, trackers: Trackers, periodic: bool,
                   now: int, before: Services, after: Services, view: Consumer)
    requires TickCommands(cmds, order, q, trackers, periodic, now, before, after)
    requires Distinguishable(before.Keys + after.Keys) && Mirrors(view, before)
    ensures Mirrors(ApplyAll(cmds, view), after) && AllApt(cmds, view)
  {
    hide AllApt;
    var diff, rest := cmds[..|order.changed|], cmds[|order.changed|..];
    assert cmds == diff + rest;
    ReplayDiff(diff, order.changed, view, before, after);
    DiffIsApt(diff, order.changed, view, before, after);
    ApplyConcat(diff, rest, view);
    if rest == [] {
      NothingApt(ApplyAll(diff, view));
    } else {
      assert rest == [] + [rest[0]];
      ApplySnoc([], rest[0], ApplyAll(diff, view));
      QuestionsApt(rest[0], ApplyAll(diff, view));
    }
    AptConcat(diff, rest, view);
  }

  /** A sleep that is positive, over no deadline of a queued record and, with periodic
      refresh, no tracker's next query, and no shorter than those demand. */
  ghost predicate Wakes(sleep: int, q: Queue, trackers: Trackers, periodic: bool, now: int) {
    && sleep > 0
    && (forall k :: k in q ==> now + sleep <= q[k].attentionNeededOn)
    && (periodic ==> forall t :: t in trackers ==> now + sleep <= trackers[t].nextQueryTime)
    && (|| (q == map[] && sleep == 60_000_000_000)
        || (exists k :: k in q && now + sleep == q[k].attentionNeededOn)
        || (periodic && exists t :: t in trackers && now + sleep == trackers[t].nextQueryTime))
  }

  /** What decides what the engine does next: the queued records, the clock, the trackers, and whether
      they ask by themselves. */
  datatype Cache = Cache(queue: Queue, now: int, trackers: Trackers, periodic: bool) {
    function Tracked(): set<string> { trackers.Keys }
  }

  class ZeroConfig {
    var trackedServices: Trackers
    const attentionList: IndexMinPQ
    const store: Store
    var now: int
    var lastSnapshot: Services
    var periodicRefresh: bool
    var questionRequests: seq<DnsQuery>

    /** The queued records, by key. */
    ghost function Queued(): Queue
      reads attentionList`contents
    {
      attentionList.contents
    }

    ghost function Cached(): Cache
      reads this`now, this`trackedServices, this`periodicRefresh, attentionList`contents
    {
      Cache(Queued(), now, trackedServices, periodicRefresh)
    }

    ghost predicate CoherentFor(tracked: set<string>)
      reads this`lastSnapshot, attentionList, store
    {
      attentionList.Valid() && store.Valid() && InStep(store.View(), Queued(), lastSnapshot, tracked)
    }

    ghost predicate Coherent()
      reads this`lastSnapshot, this`trackedServices, attentionList, store
    {
      CoherentFor(trackedServices.Keys)
    }

    ghost predicate Valid()
      reads this, attentionList, store
    {
      Coherent() && questionRequests == []
    }

    /** A new engine for the given service types. */
    constructor (start: int, services: seq<string>)
      requires Separable(TypesOf(services))
      ensures Valid() && Queued() == map[] && lastSnapshot == map[] && !periodicRefresh && now == start
      ensures fresh(attentionList) && fresh(store)
      ensures trackedServices == TrackAll(services, start)
    {
      hide InStep, Separable;
      var pq := new IndexMinPQ();
      var s := new Store();
      attentionList, store := pq, s;
      now, lastSnapshot, periodicRefresh, questionRequests := start, map[], false, [];
      trackedServices := map[];
      new;
      EmptyIsCoherent(store.View());
      assert trackedServices.Keys == {};
      TrackServices(services);
    }

    method TrackServices(services: seq<string>)
      requires Valid() && trackedServices == map[] && Separable(TypesOf(services))
      modifies this`trackedServices
      ensures Valid() && trackedServices == TrackAll(services, now)
    {
      hide InStep, Separable;
      assert services[..0] == [];
      for i := 0 to |services|
        invariant Valid() && trackedServices == TrackAll(services[..i], now)
      {
        TrackSnoc(services, i, now);
        TypesSoFar(services, i, now);
        FewerSeparable(trackedServices.Keys + {services[i] + ".local"}, TypesOf(services));
        TrackService(services[i]);
      }
      assert services[..|services|] == services;
    }

    method TrackService(service: string)
      requires Valid() && Separable(trackedServices.Keys + {service + ".local"})
      modifies this`trackedServices
      ensures Valid()
      ensures trackedServices == Track(old(trackedServices), service, now)
    {
      hide InStep, Separable;
      trackedServices := Track(trackedServices, service, now);
      assert trackedServices.Keys == old(trackedServices).Keys + {service + ".local"};
      InStepGrows(store.View(), Queued(), lastSnapshot, old(trackedServices).Keys, trackedServices.Keys);
    }

    method SetPeriodicRefresh(on: bool)
      requires Valid()
      modifies this`periodicRefresh
      ensures Valid() && periodicRefresh == on
    {
      periodicRefresh := on;
    }

    method SetTime(instant: int)
      requires Valid()
      modifies this`now
      ensures Valid() && now == instant
    {
      now := instant;
    }

    method OnStart()
      requires Valid()
      modifies this`trackedServices
      ensures Valid() && trackedServices.Keys == old(trackedServices).Keys
      ensures trackedServices == Restarted(old(trackedServices), now)
    {
      trackedServices := map t | t in trackedServices :: trackedServices[t].(nextQueryTime := now);
      assert trackedServices.Keys == old(trackedServices).Keys;
    }

    method AddRR(rr: RR)
      requires Coherent() && rr.OnSchedule()
      requires NamesService(rr.Key()) ==> TrackedName(rr.Key().service, trackedServices.Keys)
      modifies attentionList, store
      ensures Coherent() && Queued() == old(Queued())[rr.Key() := rr]
    {
      attentionList.Push(rr);
      store.Add(rr.payload);
      InStepAdds(old(store.View()), store.View(), old(Queued()), lastSnapshot, trackedServices.Keys, rr);
    }

    method ProcessQueries(queries: seq<Question>)
      requires Valid()
      modifies this`trackedServices
      ensures Valid()
      ensures trackedServices == Refreshed(old(trackedServices), QueriedTypes(queries), now)
    {
      ghost var trackers := trackedServices;
      assert Refreshed(trackers, QueriedTypes(queries[..0]), now) == trackers;
      for i := 0 to |queries|
        invariant Valid()
        invariant trackedServices == Refreshed(trackers, QueriedTypes(queries[..i]), now)
      {
        QueriesStep(trackers, queries, i, now);
        if queries[i].qtype == Any {
          RefreshTracker(NameText(queries[i].qname));
        }
      }
      assert queries[..|queries|] == queries;
    }

    method RefreshTracker(name: string)
      requires Valid()
      modifies this`trackedServices
      ensures Valid() && trackedServices == Refreshed(old(trackedServices), {name}, now)
    {
      if name in trackedServices {
        trackedServices := trackedServices[name := trackedServices[name].(nextQueryTime := now + REFRESH_INTERVAL)];
        assert trackedServices.Keys == old(trackedServices).Keys;
      }
    }

    method ProcessRecords(records: seq<ResourceRecord>)
      requires Valid()
      modifies attentionList, store
      ensures Valid() && Queued() == Received(old(Queued()), records, trackedServices.Keys, now)
    {
      for i := 0 to |records|
        invariant Valid()
        invariant Queued() == Received(old(Queued()), records[..i], trackedServices.Keys, now)
      {
        var r := records[i];
        assert records[..i + 1][..i] == records[..i];
        var payload := PayloadOf(r, trackedServices.Keys);
        if payload.Some? {
          PayloadIsTracked(r, trackedServices.Keys);
          AddRR(NewRR(now, r.ttl, payload.value));
        }
      }
      assert records[..|records|] == records;
    }

    method PushRecords(questions: seq<Question>, answers: seq<ResourceRecord>,
                       additional: seq<ResourceRecord>, nameserver: seq<ResourceRecord>)
      requires Valid()
      modifies this`trackedServices, attentionList, store
      ensures Valid()
      ensures trackedServices == Refreshed(old(trackedServices), QueriedTypes(questions), now)
      ensures Queued() == Received(old(Queued()), answers + additional + nameserver, old(trackedServices).Keys, now)
    {
      ProcessQueries(questions);
      var all := answers + additional + nameserver;
      assert trackedServices.Keys == old(trackedServices).Keys;
      if all != [] {
        ProcessRecords(all);
      }
    }

    /** The pop, probe or expire, and re-push loop of `tick`; each pass removes one due entry. */
    method SweepDue() returns (ghost probed: seq<RRKey>)
      requires Valid()
      modifies this`questionRequests, attentionList, store
      ensures Coherent() && Queued() == Swept(old(Queued()), now)
      ensures Lists(probed, ToProbe(old(Queued()), now))
      ensures questionRequests == ProbeQueries(old(Queued()), probed)
    {
      assert Scheduled(Queued());
      hide InStep, Swept, ToProbe;
      ghost var q0, done: set<RRKey> := Queued(), {};
      probed := [];
      SweepStart(q0, now);
      while true
        invariant Coherent() && Scheduled(q0)
        invariant Sweeping(q0, done, probed, now, Queued(), questionRequests)
        decreases DueKeys(Queued(), now)
      {
        var peeked := attentionList.Peek();
        if peeked.None? || peeked.value.attentionNeededOn > now {
          SweepComplete(q0, done, probed, now, Queued(), questionRequests);
          break;
        }
        DueIsSome(Queued(), peeked.value, now);
        ghost var q, questions := Queued(), questionRequests;
        var element := Attend();
        SweepPass(q0, done, probed, now, q, questions, element);
        done := done + {element.Key()};
        if !Expired(element, now) {
          probed := probed + [element.Key()];
        }
      }
    }

    /** One pass: takes out the first queued record, drops it if expired, else asks for it
        and puts it back probed. */
    method Attend() returns (element: RR)
      requires Coherent() && DueKeys(Queued(), now) != {}
      modifies this`questionRequests, attentionList, store
      ensures Coherent()
      ensures element.Key() in old(Queued()) && old(Queued())[element.Key()] == element && Due(element, now)
      ensures Queued() == AfterPass(old(Queued()), element, now)
      ensures questionRequests ==
              old(questionRequests) + if Expired(element, now) then [] else [QueryFor(element.payload)]
    {
      hide InStep;
      ghost var q := Queued();
      element := TakeFirst();
      if Expired(element, now) {
        Drop(element, q);
      } else {
        questionRequests := questionRequests + [QueryFor(element.payload)];
        PutBack(element, q);
      }
    }

    /** The queue `q` has lost an expired record; the store follows. */
    method Drop(element: RR, ghost q: Queue)
      requires attentionList.Valid() && store.Valid() && InStep(store.View(), q, lastSnapshot, trackedServices.Keys)
      requires element.Key() in q && Queued() == q - {element.Key()}
      modifies store
      ensures Coherent()
    {
      ghost var v := store.View();
      store.Remove(element.payload);
      PassDrops(v, store.View(), q, lastSnapshot, trackedServices.Keys, element);
    }

    /** A due record taken out of the queue `q` goes back with its next deadline. */
    method PutBack(element: RR, ghost q: Queue)
      requires attentionList.Valid() && store.Valid() && InStep(store.View(), q, lastSnapshot, trackedServices.Keys)
      requires element.Key() in q && q[element.Key()] == element && Due(element, now) && !Expired(element, now)
      requires Queued() == q - {element.Key()}
      modifies attentionList
      ensures Coherent() && Queued() == old(Queued())[element.Key() := Probed(element, now)]
    {
      PassProbes(store.View(), q, lastSnapshot, trackedServices.Keys, element, now);
      attentionList.Push(Probed(element, now));
    }

    method TakeFirst() returns (element: RR)
      requires attentionList.Valid() && DueKeys(Queued(), now) != {}
      modifies attentionList
      ensures attentionList.Valid()
      ensures element.Key() in old(Queued()) && old(Queued())[element.Key()] == element && Due(element, now)
      ensures Queued() == old(Queued()) - {element.Key()}
    {
      ghost var k :| k in DueKeys(Queued(), now);
      var popped := attentionList.Pop();
      element := popped.value;
    }

    /** `create_diff_commands`: reports what changed since the last snapshot. */
    method CreateDiffCommands() returns (commands: seq<Command>, ghost changed: seq<FQServiceName>)
      requires Coherent()
      modifies this`lastSnapshot
      ensures Coherent() && lastSnapshot == SnapshotOf(store.View())
      ensures Diff(commands, changed, old(lastSnapshot), lastSnapshot)
    {
      var snapshot := store.Snapshot();
      commands, changed := DiffCommands(lastSnapshot, snapshot);
      InStepSnapshot(store.View(), Queued(), lastSnapshot, trackedServices.Keys);
      lastSnapshot := snapshot;
    }

    method TickTrackerServices() returns (ghost refreshed: seq<string>)
      requires Coherent()
      modifies this`trackedServices, this`questionRequests
      ensures Coherent()
      ensures Lists(refreshed, ToRefresh(old(trackedServices), periodicRefresh, now))
      ensures trackedServices ==
              Refreshed(old(trackedServices), ToRefresh(old(trackedServices), periodicRefresh, now), now)
      ensures questionRequests == old(questionRequests) + RefreshQueries(refreshed)
    {
      if !periodicRefresh {
        refreshed := [];
        assert Refreshed(trackedServices, {}, now) == trackedServices;
        return;
      }
      var trackers, questions;
      trackers, questions, refreshed := RefreshDue(trackedServices, now);
      RefreshedKeys(trackedServices, ToRefresh(trackedServices, true, now), now);
      trackedServices, questionRequests := trackers, questionRequests + questions;
    }

    method CalculateNextAttentionDuration() returns (sleep: int)
      requires attentionList.Valid()
      requires forall k :: k in Queued() ==> now < Queued()[k].attentionNeededOn
      requires periodicRefresh ==> forall t :: t in trackedServices ==> now < trackedServices[t].nextQueryTime
      ensures Wakes(sleep, Queued(), trackedServices, periodicRefresh, now)
    {
      sleep := IDLE_SLEEP;
      var first := attentionList.Peek();
      if first.Some? {
        sleep := if first.value.attentionNeededOn <= now then 0 else first.value.attentionNeededOn - now;
        assert now + sleep == Queued()[first.value.Key()].attentionNeededOn;
      }
      if !periodicRefresh || trackedServices == map[] {
        return;
      }
      var next := EarliestTracker(trackedServices);
      var wait := trackedServices[next].nextQueryTime - now;
      if wait < sleep {
        sleep := wait;
        assert now + sleep == trackedServices[next].nextQueryTime;
      }
    }

    /** Deals with everything due: the queue is swept, the consumer told what changed, the
        questions batched, and the sleep set to the next deadline. */
    method Tick() returns (commands: seq<Command>, sleep: int, ghost order: Order)
      requires Valid()
      modifies this`questionRequests, this`trackedServices, this`lastSnapshot, attentionList, store
      ensures Valid()
      ensures Queued() == Swept(old(Queued()), now)
      ensures lastSnapshot == SnapshotOf(store.View())
      ensures trackedServices ==
              Refreshed(old(trackedServices), ToRefresh(old(trackedServices), periodicRefresh, now), now)
      ensures TickCommands(commands, order, old(Queued()), old(trackedServices), periodicRefresh, now,
                           old(lastSnapshot), lastSnapshot)
      ensures Wakes(sleep, Queued(), trackedServices, periodicRefresh, now)
    {
      ghost var q, trackers := Queued(), trackedServices;
      var probed := SweepDue();
      commands, order := Announce(q, probed);
      SweptIsFresh(q, now);
      TrackersAreFresh(trackers, periodicRefresh, now);
      sleep := CalculateNextAttentionDuration();
    }

    /** The commands of a tick, once the queue `q` has been swept and its due records asked for. */
    method Announce(ghost q: Queue, ghost probed: seq<RRKey>) returns (commands: seq<Command>, ghost order: Order)
      requires Coherent() && Lists(probed, ToProbe(q, now)) && questionRequests == ProbeQueries(q, probed)
      modifies this`questionRequests, this`trackedServices, this`lastSnapshot
      ensures Valid() && lastSnapshot == SnapshotOf(store.View())
      ensures trackedServices ==
              Refreshed(old(trackedServices), ToRefresh(old(trackedServices), periodicRefresh, now), now)
      ensures TickCommands(commands, order, q, old(trackedServices), periodicRefresh, now,
                           old(lastSnapshot), lastSnapshot)
    {
      ghost var trackers, before := trackedServices, lastSnapshot;
      ghost var changed;
      commands, changed := CreateDiffCommands();
      var batch, refreshed := BatchQuestions();
      order := Order(changed, probed, refreshed);
      CommandsOfTick(commands, batch, order, q, trackers, periodicRefresh, now, before, lastSnapshot);
      commands := commands + batch;
    }

    /** Adds the due trackers to the questions collected so far and hands all over as one command. */
    method BatchQuestions() returns (batch: seq<Command>, ghost refreshed: seq<string>)
      requires Coherent()
      modifies this`trackedServices, this`questionRequests
      ensures Valid()
      ensures Lists(refreshed, ToRefresh(old(trackedServices), periodicRefresh, now))
      ensures trackedServices ==
              Refreshed(old(trackedServices), ToRefresh(old(trackedServices), periodicRefresh, now), now)
      ensures batch == BatchOf(old(questionRequests) + RefreshQueries(refreshed))
    {
      refreshed := TickTrackerServices();
      batch := BatchOf(questionRequests);
      questionRequests := [];
    }

    /** Forgets every record; the commands tell the consumer to forget every service. */
    method OnStop() returns (commands: seq<Command>, ghost order: Order)
      requires Valid()
      modifies this`questionRequests, this`trackedServices, this`lastSnapshot, attentionList, store
      ensures Valid() && Queued() == map[] && lastSnapshot == map[]
      ensures trackedServices ==
              Refreshed(old(trackedServices), ToRefresh(old(trackedServices), periodicRefresh, now), now)
      ensures TickCommands(commands, order, map[], old(trackedServices), periodicRefresh, now, old(lastSnapshot), map[])
    {
      attentionList.Clear();
      store.Clear();
      NothingInStep(old(store.View()), store.View(), old(Queued()), lastSnapshot, trackedServices.Keys);
      var sleep;
      commands, sleep, order := Tick();
      assert Swept(map[], now) == map[];
      forall n ensures n !in lastSnapshot {
        SnapshotOfRecords(store.View(), map[], trackedServices.Keys, n);
      }
    }

    /** Both copies of the cache hold the same number of records. */
    method CacheSizes() returns (stored: nat, queued: nat)
      requires Coherent()
      ensures stored == queued == |Queued()|
    {
      stored := store.Len();
      queued := attentionList.Len();
      AgreesSize(store.View(), Queued(), trackedServices.Keys);
    }
  }

  method EarliestTracker(trackers: Trackers) returns (name: string)
    requires trackers != map[]
    ensures name in trackers
    ensures forall t :: t in trackers ==> trackers[name].nextQueryTime <= trackers[t].nextQueryTime
  {
    assert trackers.Keys != {};
    name :| name in trackers.Keys;
    var todo := trackers.Keys;
    while todo != {}
      invariant todo <= trackers.Keys && name in trackers
      invariant forall t :: t in trackers && t !in todo ==> trackers[name].nextQueryTime <= trackers[t].nextQueryTime
      decreases todo
    {
      var t :| t in todo;
      if trackers[t].nextQueryTime < trackers[name].nextQueryTime {
        name := t;
      }
      todo := todo - {t};
    }
  }

  lemma TrackersAreFresh(trackers: Trackers, periodic: bool, now: int)
    ensures periodic ==> forall t :: t in trackers ==>
              now < Refreshed(trackers, ToRefresh(trackers, periodic, now), now)[t].nextQueryTime
  {}

  lemma NothingInStep(v: Tables, w: Tables, q: Queue, snapshot: Services, tracked: set<string>)
    requires InStep(v, q, snapshot, tracked) && Tidy(w) && forall l :: Lookup(w, l) == None
    ensures InStep(w, map[], snapshot, tracked)
  {}

  /** After a tick nothing expired is left in the store: every entry belongs to a queued
      record whose next deadline is ahead and whose expiry is no earlier. */
  lemma NothingExpiredIsStored(v: Tables, q: Queue, now: int, l: Loc) returns (k: RRKey)
    requires Scheduled(q) && Agrees(v, Swept(q, now)) && Lookup(v, l).Some?
    ensures k in Swept(q, now) && KeyLoc(k) == l && Lookup(v, l).value == HeldOf(Swept(q, now)[k].payload)
    ensures now < Swept(q, now)[k].attentionNeededOn <= Swept(q, now)[k].ExpiresOn()
  {
    k :| k in Swept(q, now) && KeyLoc(k) == l;
    SweptIsFresh(q, now);
  }

  // ---------- whole runs ----------

  datatype Event =
    | TimeIs(instant: int)
    | Packet(questions: seq<Question>, answers: seq<ResourceRecord>,
             additional: seq<ResourceRecord>, nameserver: seq<ResourceRecord>)
    | PeriodicRefresh(on: bool)
    | TrackType(service: string)
    | Start
    | TickNow
    | Stop

  /** The types that calls add to those tracked. */
  function TypesAdded(events: seq<Event>): set<string> {
    set i | 0 <= i < |events| && events[i].TrackType? :: events[i].service + ".local"
  }

  /** What a call does to the cache. */
  function AfterEvent(c: Cache, e: Event): Cache {
    match e
    case TimeIs(t) => c.(now := t)
    case Packet(qs, an, ad, ns) =>
      c.(queue := Received(c.queue, an + ad + ns, c.Tracked(), c.now),
         trackers := Refreshed(c.trackers, QueriedTypes(qs), c.now))
    case PeriodicRefresh(on) => c.(periodic := on)
    case TrackType(service) => c.(trackers := Track(c.trackers, service, c.now))
    case Start => c.(trackers := Restarted(c.trackers, c.now))
    case TickNow =>
      c.(queue := Swept(c.queue, c.now),
         trackers := Refreshed(c.trackers, ToRefresh(c.trackers, c.periodic, c.now), c.now))
    case Stop =>
      c.(queue := map[], trackers := Refreshed(c.trackers, ToRefresh(c.trackers, c.periodic, c.now), c.now))
  }

  function AfterEvents(c: Cache, events: seq<Event>): Cache {
    if events == [] then c else AfterEvent(AfterEvents(c, events[..|events| - 1]), events[|events| - 1])
  }

  lemma AfterStep(c: Cache, events: seq<Event>, i: nat)
    requires i < |events|
    ensures AfterEvents(c, events[..i + 1]) == AfterEvent(AfterEvents(c, events[..i]), events[i])
  {
    assert events[..i + 1][..i] == events[..i];
  }

  /** Any sequence of calls, among them ones that track more types: a consumer that starts empty and
      applies every command holds exactly the services of the last snapshot, and none after a stop. */
  method Run(engine: ZeroConfig, events: seq<Event>) returns (log: seq<Command>)
    requires engine.Valid() && engine.lastSnapshot == map[]
    requires Separable(engine.trackedServices.Keys + TypesAdded(events))
    modifies engine, engine.attentionList, engine.store
    ensures engine.Valid() && Mirrors(ApplyAll(log, map[]), engine.lastSnapshot) && AllApt(log, map[])
    ensures engine.trackedServices.Keys == old(engine.trackedServices.Keys) + TypesAdded(events)
    ensures engine.Cached() == AfterEvents(old(engine.Cached()), events)
    ensures events != [] && events[|events| - 1].TickNow? ==> engine.lastSnapshot == SnapshotOf(engine.store.View())
    ensures events != [] && events[|events| - 1].Stop? ==> ApplyAll(log, map[]) == map[]
  {
    hide InStep, Separable, Mirrors, AllApt, AfterEvent, SnapshotOf, ApplyAll, TypesAdded;
    log := [];
    NothingMirrored();
    NothingAdded();
    NothingApt(map[]);
    for i := 0 to |events|
      invariant engine.Valid() && Mirrors(ApplyAll(log, map[]), engine.lastSnapshot) && AllApt(log, map[])
      invariant engine.trackedServices.Keys == old(engine.trackedServices.Keys) + TypesAdded(events[..i])
      invariant engine.Cached() == AfterEvents(old(engine.Cached()), events[..i])
      invariant i > 0 && events[i - 1].TickNow? ==> engine.lastSnapshot == SnapshotOf(engine.store.View())
      invariant i > 0 && events[i - 1].Stop? ==> engine.lastSnapshot == map[]
    {
      AddedStep(events, i);
      AfterStep(old(engine.Cached()), events, i);
      if events[i].TrackType? {
        FewerSeparable(engine.trackedServices.Keys + {events[i].service + ".local"},
                       old(engine.trackedServices.Keys) + TypesAdded(events));
      }
      var commands := Handle(engine, events[i], ApplyAll(log, map[]));
      ApplyConcat(log, commands, map[]);
      AptConcat(log, commands, map[]);
      log := log + commands;
    }
    assert events[..|events|] == events;
    if events != [] && events[|events| - 1].Stop? {
      NothingMirrored();
      MirrorUnique(ApplyAll(log, map[]), map[], map[]);
    }
  }

  lemma AddedStep(events: seq<Event>, i: nat)
    requires i < |events|
    ensures TypesAdded(events[..i + 1]) ==
            TypesAdded(events[..i]) + if events[i].TrackType? then {events[i].service + ".local"} else {}
    ensures TypesAdded(events[..i + 1]) <= TypesAdded(events)
  {
    var now := events[..i + 1];
    assert forall j :: 0 <= j < i ==> now[j] == events[..i][j];
    assert now[i] == events[i];
    forall x | x in TypesAdded(events[..i]) ensures x in TypesAdded(now) {
      var j :| 0 <= j < i && events[..i][j].TrackType? && x == events[..i][j].service + ".local";
      assert now[j].TrackType?;
    }
  }

  lemma NothingMirrored()
    ensures ApplyAll([], map[]) == map[] && Mirrors(map[], map[])
  {}

  lemma NothingAdded()
    ensures TypesAdded([]) == {}
  {}

  /** One call, seen by a consumer that was up to date. */
  method Handle(engine: ZeroConfig, event: Event, ghost view: Consumer) returns (commands: seq<Command>)
    requires engine.Valid() && Mirrors(view, engine.lastSnapshot)
    requires event.TrackType? ==> Separable(engine.trackedServices.Keys + {event.service + ".local"})
    modifies engine, engine.attentionList, engine.store
    ensures engine.Valid() && Mirrors(ApplyAll(commands, view), engine.lastSnapshot) && AllApt(commands, view)
    ensures engine.trackedServices.Keys ==
            old(engine.trackedServices.Keys) + if event.TrackType? then {event.service + ".local"} else {}
    ensures engine.Cached() == AfterEvent(old(engine.Cached()), event)
    ensures event.TickNow? ==> engine.lastSnapshot == SnapshotOf(engine.store.View())
    ensures event.Stop? ==> engine.lastSnapshot == map[]
  {
    hide Mirrors, AllApt, TickCommands, Wakes, Refreshed, ToRefresh, Distinguishable, Separable, Received, Swept;
    commands := [];
    NothingApt(view);
    ghost var before, tracked := engine.lastSnapshot, engine.trackedServices.Keys;
    match event
    case TimeIs(t) => engine.SetTime(t);
    case Packet(qs, an, ad, ns) =>
      RefreshedKeys(engine.trackedServices, QueriedTypes(qs), engine.now);
      engine.PushRecords(qs, an, ad, ns);
    case TrackType(service) => engine.TrackService(service);
    case PeriodicRefresh(on) => engine.SetPeriodicRefresh(on);
    case Start => engine.OnStart();
    case TickNow =>
      ghost var q, trackers := engine.Queued(), engine.trackedServices;
      var sleep;
      ghost var order;
      commands, sleep, order := engine.Tick();
      RefreshedKeys(trackers, ToRefresh(trackers, engine.periodicRefresh, engine.now), engine.now);
      TrackedDistinguishable(before.Keys + engine.lastSnapshot.Keys, tracked);
      ReplayTick(commands, order, q, trackers, engine.periodicRefresh, engine.now, before, engine.lastSnapshot, view);
    case Stop =>
      ghost var trackers := engine.trackedServices;
      ghost var order;
      commands, order := engine.OnStop();
      RefreshedKeys(trackers, ToRefresh(trackers, engine.periodicRefresh, engine.now), engine.now);
      TrackedDistinguishable(before.Keys + engine.lastSnapshot.Keys, tracked);
      ReplayTick(commands, order, map[], trackers, engine.periodicRefresh, engine.now, before,
                 engine.lastSnapshot, view);
  }

  /** If full names do not tell the services apart, some two SRV records are queued apart but share
      a place in the store. */
  lemma MistakenTypesPart(tracked: set<string>, now: int, ttl: Ttl) returns (records: seq<ResourceRecord>)
    requires !Unmistakable(tracked)
    ensures forall v :: !Agrees(v, Received(map[], records, tracked, now))
  {
    var a, b := Collision(tracked);
    var m: Name :| ToServiceName(m) == Some(a);
    var n: Name :| ToServiceName(n) == Some(b);
    var host: Name := ["x"];
    records := [ResourceRecord(m, ttl, RSRV(host, 1)), ResourceRecord(n, ttl, RSRV(host, 2))];
    assert PayloadOf(records[0], tracked) == Some(SRV(a, NameText(host), 1));
    assert PayloadOf(records[1], tracked) == Some(SRV(b, NameText(host), 2));
    var q := Received(map[], records, tracked, now);
    assert LastWithKey(records, tracked, SRVKey(a), 0) && LastWithKey(records, tracked, SRVKey(b), 1);
    LastRecordWins(map[], records, tracked, now, SRVKey(a), 0);
    LastRecordWins(map[], records, tracked, now, SRVKey(b), 1);
    assert KeyLoc(SRVKey(a)) == KeyLoc(SRVKey(b));
    forall v ensures !Agrees(v, q) {
      assert HeldOf(q[SRVKey(a)].payload) != HeldOf(q[SRVKey(b)].payload);
    }
  }

  /** The other half: then some store agrees with the queue, whatever arrives. */
  lemma {:induction false} SeparableTypesAgree(records: seq<ResourceRecord>, tracked: set<string>, now: int)
    returns (v: Tables)
    requires Unmistakable(tracked)
    ensures var q := Received(map[], records, tracked, now); WellKeyed(q, tracked) && Agrees(v, q)
  {
    hide TrackedName, Unmistakable;
    if records == [] {
      v := Tables({}, map[], map[], map[], map[]);
    } else {
      var last := |records| - 1;
      v := SeparableTypesAgree(records[..last], tracked, now);
      var p := PayloadOf(records[last], tracked);
      if p.Some? {
        PayloadIsTracked(records[last], tracked);
        var w := Added(v, p.value);
        var q := Received(map[], records[..last], tracked, now);
        AgreesAdd(v, w, q, NewRR(now, records[last].ttl, p.value), tracked);
        v := w;
      }
    }
  }

  /** Some store holds what the queue holds after these records. */
  ghost predicate CanAgree(records: seq<ResourceRecord>, tracked: set<string>, now: int) {
    exists v :: Agrees(v, Received(map[], records, tracked, now))
  }

  /** Queue and store can be kept the same, whatever arrives, if and only if full names tell the
      services apart. */
  lemma CopiesAgreeIff(tracked: set<string>, now: int)
    ensures Unmistakable(tracked) <==> forall records :: CanAgree(records, tracked, now)
  {
    if Unmistakable(tracked) {
      forall records
        ensures CanAgree(records, tracked, now)
      {
        var v := SeparableTypesAgree(records, tracked, now);
      }
    } else {
      var records := MistakenTypesPart(tracked, now, 0);
      assert !CanAgree(records, tracked, now);
    }
  }

  lemma UnderLocal(service: string)
    requires Dots(service) <= 1
    ensures var t := service + ".local"; Dots(t) <= 2 && |t| >= 6 && t[|t| - 6..] == ".local"
  {
    DotsConcat(service, ".local");
    LocalHasOneDot();
  }

  lemma PlainThree(a: string, b: string, c: string)
    requires Dots(a) <= 1 && Dots(b) <= 1 && Dots(c) <= 1
    ensures Separable(TypesOf([a, b, c]))
  {
    hide Dots, Separable;
    UnderLocal(a);
    UnderLocal(b);
    UnderLocal(c);
    PlainIsSeparable(TypesOf([a, b, c]));
  }

  lemma BuiltInsAreSeparable()
    ensures Separable(TypesOf(BUILT_IN_SERVICES))
  {
    hide Dots, Separable, TypesOf;
    TlsConnectHasOneDot();
    TlsPairingHasOneDot();
    TcpConnectHasOneDot();
    PlainThree(TLS_CONNECT_SERVICE, TLS_PAIRING_SERVICE, TCP_CONNECT_SERVICE);
  }

  lemma TlsConnectHasOneDot()
    ensures Dots(TLS_CONNECT_SERVICE) <= 1
  {
    OneDot(TLS_CONNECT_SERVICE, 16);
  }

  lemma TlsPairingHasOneDot()
    ensures Dots(TLS_PAIRING_SERVICE) <= 1
  {
    OneDot(TLS_PAIRING_SERVICE, 16);
  }

  lemma TcpConnectHasOneDot()
    ensures Dots(TCP_CONNECT_SERVICE) <= 1
  {
    OneDot(TCP_CONNECT_SERVICE, 4);
  }

  lemma {:induction false} Undotted(s: string)
    requires forall i :: 0 <= i < |s| ==> s[i] != '.'
    ensures Dots(s) == 0
  {
    if s != "" { Undotted(s[1..]); }
  }

  lemma OneDot(s: string, at: nat)
    requires at < |s| && forall i :: 0 <= i < |s| && i != at ==> s[i] != '.'
    ensures Dots(s) <= 1
  {
    assert s == s[..at] + ([s[at]] + s[at + 1..]);
    Undotted(s[..at]);
    Undotted(s[at + 1..]);
    DotsConcat(s[..at], [s[at]] + s[at + 1..]);
    DotsConcat([s[at]], s[at + 1..]);
  }

  lemma LocalHasOneDot()
    ensures Dots(".local") == 1
  {
    Undotted("local");
    assert ".local"[1..] == "local";
  }
}
