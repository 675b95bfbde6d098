/** What the discovery engine asks the network, and when (crates/adb-mdns/src/zero_config.rs:157-190,
    225-241, 413-501). */
module Questions {
  import opened Wrappers
  import opened Rr
  import opened RecordStore
  import opened Lifecycle
  import opened Replay
  import opened Discovery
  import opened Announcements

  // ---------- the questions of one tick ----------

  /** A record is asked for by the name and the kind it came under. */
  lemma AskedByName(r: ResourceRecord, tracked: set<string>)
    requires PayloadOf(r, tracked).Some?
    ensures QueryFor(PayloadOf(r, tracked).value) ==
            DnsQuery(NameText(r.name),
                     match r.rdata
                     case RA(_) => OfA
                     case RAAAA(_) => OfAAAA
                     case RSRV(_, _) => OfSRV
                     case RTXT(_) => OfTXT
                     case RPTR(_) => OfPTR
                     case ROther => OtherType)
  {
    if r.rdata.RSRV? || r.rdata.RTXT? {
      FourLabels(r.name);
    }
  }

  lemma FourLabels(n: Name)
    requires |n| == 4
    ensures NameText(n) == n[0] + "." + (n[1] + "." + n[2]) + "." + n[3]
  {
    assert n[1..][1..] == n[2..] && n[2..][1..] == n[3..] && n[3..] == [n[3]];
    assert NameText(n[1..]) == n[1] + "." + NameText(n[2..]);
    assert NameText(n[2..]) == n[2] + "." + n[3];
    assert NameText(n) == n[0] + "." + (n[1] + "." + (n[2] + "." + n[3]));
  }

  /** All that a tick asks. */
  ghost predicate Asks(commands: seq<Command>, question: DnsQuery) {
    exists c :: c in commands && c.DnsQueries? && question in c.questions
  }

  /** A tick asks for each due record that has not expired, and with periodic refresh for anything about
      each type whose time has come, and for nothing else. */
  lemma TickAsks(cmds: seq<Command>, order: Order, q: Queue, trackers: Trackers, periodic: bool, now: int,
                 before: Services, after: Services, question: DnsQuery)
    requires TickCommands(cmds, order, q, trackers, periodic, now, before, after)
    ensures Asks(cmds, question) <==>
            || (exists k :: k in q && Due(q[k], now) && !Expired(q[k], now) && question == QueryFor(q[k].payload))
            || (periodic &&
                exists t :: t in trackers && trackers[t].nextQueryTime <= now && question == DnsQuery(t, Any))
  {
    var diff, batch := cmds[..|order.changed|], cmds[|order.changed|..];
    assert cmds == diff + batch;
    var probes, refreshes := ProbeQueries(q, order.probed), RefreshQueries(order.refreshed);
    DiffAsksNothing(diff, order.changed, before, after);
    BatchAsks(batch, probes + refreshes, question);
    assert Asks(cmds, question) <==> question in probes + refreshes;
    ListedProbes(q, order.probed, now, question);
    ListedRefreshes(trackers, periodic, now, order.refreshed, question);
  }

  lemma DiffAsksNothing(diff: seq<Command>, changed: seq<FQServiceName>, before: Services, after: Services)
    requires Diff(diff, changed, before, after)
    ensures forall c :: c in diff ==> !c.DnsQueries?
  {}

  lemma BatchAsks(batch: seq<Command>, questions: seq<DnsQuery>, question: DnsQuery)
    requires batch == BatchOf(questions)
    ensures Asks(batch, question) <==> question in questions
  {
    if questions != [] {
      assert batch[0] in batch;
    }
  }

  lemma ListedProbes(q: Queue, probed: seq<RRKey>, now: int, question: DnsQuery)
    requires Lists(probed, ToProbe(q, now))
    ensures forall k :: k in probed ==> k in q
    ensures question in ProbeQueries(q, probed) <==>
            exists k :: k in q && Due(q[k], now) && !Expired(q[k], now) && question == QueryFor(q[k].payload)
  {
    if k :| k in q && Due(q[k], now) && !Expired(q[k], now) && question == QueryFor(q[k].payload) {
      assert k in probed;
      var i :| 0 <= i < |probed| && probed[i] == k;
      assert ProbeQueries(q, probed)[i] == question;
    }
    if question in ProbeQueries(q, probed) {
      var i :| 0 <= i < |probed| && ProbeQueries(q, probed)[i] == question;
      assert probed[i] in probed;
    }
  }

  lemma ListedRefreshes(trackers: Trackers, periodic: bool, now: int, refreshed: seq<string>, question: DnsQuery)
    requires Lists(refreshed, ToRefresh(trackers, periodic, now))
    ensures question in RefreshQueries(refreshed) <==>
            periodic && exists t :: t in trackers && trackers[t].nextQueryTime <= now && question == DnsQuery(t, Any)
  {
    if question in RefreshQueries(refreshed) {
      var i :| 0 <= i < |refreshed| && RefreshQueries(refreshed)[i] == question;
      assert refreshed[i] in refreshed;
    }
    if periodic {
      if t :| t in trackers && trackers[t].nextQueryTime <= now && question == DnsQuery(t, Any) {
        assert t in refreshed;
        var i :| 0 <= i < |refreshed| && refreshed[i] == t;
        assert RefreshQueries(refreshed)[i] == question;
      }
    }
  }

  /** The types an engine is started with. */
  lemma BuiltInTypes()
    ensures TypesOf(BUILT_IN_SERVICES) ==
            {"_adb-tls-connect._tcp.local", "_adb-tls-pairing._tcp.local", "_adb._tcp.local"}
  {
    var b := BUILT_IN_SERVICES;
    assert b[0] + ".local" == "_adb-tls-connect._tcp.local";
    assert b[1] + ".local" == "_adb-tls-pairing._tcp.local";
    assert b[2] + ".local" == "_adb._tcp.local";
  }

  // ---------- when a type is asked for, over any calls ----------

  /** Before call `i`. */
  function Before(c: Cache, events: seq<Event>, i: nat): Cache
    requires i <= |events|
  {
    AfterEvents(c, events[..i])
  }

  /** At call `i` the engine asks for the type itself. */
  ghost predicate AskedAt(c: Cache, events: seq<Event>, i: nat, t: string)
    requires i < |events|
  {
    && (events[i].TickNow? || events[i].Stop?)
    && var b := Before(c, events, i); b.periodic && t in b.trackers && b.trackers[t].nextQueryTime <= b.now
  }

  /** At call `i` it hears a question of kind ANY about the type. */
  ghost predicate HeardAt(events: seq<Event>, i: nat, t: string)
    requires i < |events|
  {
    events[i].Packet? && exists q :: q in events[i].questions && q.qtype == Any && NameText(q.qname) == t
  }

  /** The call starts the type anew. */
  ghost predicate Renews(e: Event, t: string) {
    e.Start? || (e.TrackType? && e.service + ".local" == t)
  }

  /** Later calls, before number `j`, do not start the type anew. */
  ghost predicate NotRenewed(events: seq<Event>, i: nat, j: nat, t: string)
    requires j <= |events|
  {
    forall k :: i < k < j ==> !Renews(events[k], t)
  }

  /** It is 120 seconds since the type was last asked for, by anyone, or it was started anew since. */
  ghost predicate QuietFor(c: Cache, events: seq<Event>, j: nat, t: string, now: int)
    requires j <= |events|
  {
    forall i :: 0 <= i < j && (AskedAt(c, events, i, t) || HeardAt(events, i, t)) && NotRenewed(events, i, j, t) ==>
      Before(c, events, i).now + 120_000_000_000 <= now
  }

  ghost predicate TrackedSoFar(c: Cache) {
    forall t :: t in c.trackers ==> c.trackers[t].nextQueryTime <= c.now
  }

  /** A new engine's trackers are such, each under its service type and domain. */
  lemma {:induction false} NewTrackers(services: seq<string>, now: int)
    ensures forall t :: t in TrackAll(services, now) ==>
              var s := TrackAll(services, now)[t]; s.nextQueryTime == now && t == s.serviceName + "." + s.local
  {
    if services != [] {
      NewTrackers(services[..|services| - 1], now);
    }
  }

  lemma {:induction false} ClockRises(c: Cache, events: seq<Event>, i: nat, j: nat)
    requires Forward(c, events) && i <= j <= |events|
    ensures Before(c, events, i).now <= Before(c, events, j).now
    decreases j
  {
    if i < j {
      ClockRises(c, events, i, j - 1);
      AfterStep(c, events, j - 1);
      assert events[j - 1].TimeIs? ==> AfterEvents(c, events[..j - 1]).now <= events[j - 1].instant;
    }
  }

  /** A tracker's time has come exactly when it has been quiet. */
  lemma {:induction false} QuietIff(c: Cache, events: seq<Event>, j: nat, t: string, now: int)
    requires TrackedSoFar(c) && Forward(c, events) && j <= |events| && Before(c, events, j).now <= now
    requires t in Before(c, events, j).trackers
    ensures Before(c, events, j).trackers[t].nextQueryTime <= now <==> QuietFor(c, events, j, t, now)
    decreases j
  {
    hide AfterEvent, AskedAt, HeardAt, Renews, QuietFor, TrackedSoFar, Forward;
    if j == 0 {
      AtFirst(c, events, t, now);
    } else {
      var k := j - 1;
      var b, e := Before(c, events, k), events[k];
      AfterStep(c, events, k);
      ClockRises(c, events, k, j);
      if Renews(e, t) {
        Renewed(c, events, k, t, now);
      } else if AskedAt(c, events, k, t) || HeardAt(events, k, t) {
        StillTracked(b, e, t);
        PutOff(b, events, k, t, c);
        Silenced(c, events, k, t, now);
      } else {
        StillTracked(b, e, t);
        LeftAlone(b, events, k, t, c);
        QuietIff(c, events, k, t, now);
        StillQuiet(c, events, k, t, now);
      }
    }
  }

  lemma AtFirst(c: Cache, events: seq<Event>, t: string, now: int)
    requires TrackedSoFar(c) && c.now <= now && t in Before(c, events, 0).trackers
    ensures Before(c, events, 0).trackers[t].nextQueryTime <= now && QuietFor(c, events, 0, t, now)
  {}

  lemma Renewed(c: Cache, events: seq<Event>, k: nat, t: string, now: int)
    requires k < |events| && Renews(events[k], t) && Before(c, events, k).now <= now
    ensures var after := AfterEvent(Before(c, events, k), events[k]);
            t in after.trackers ==> after.trackers[t].nextQueryTime <= now
    ensures QuietFor(c, events, k + 1, t, now)
  {
    var j := k + 1;
    assert forall i :: 0 <= i < k ==> !NotRenewed(events, i, j, t);
  }

  lemma StillTracked(b: Cache, e: Event, t: string)
    requires t in AfterEvent(b, e).trackers && !Renews(e, t)
    ensures t in b.trackers
  {}

  lemma StillQuiet(c: Cache, events: seq<Event>, k: nat, t: string, now: int)
    requires k < |events| && !Renews(events[k], t) && !AskedAt(c, events, k, t) && !HeardAt(events, k, t)
    ensures QuietFor(c, events, k + 1, t, now) <==> QuietFor(c, events, k, t, now)
  {
    hide AskedAt, HeardAt;
    assert forall i :: 0 <= i < k ==> (NotRenewed(events, i, k + 1, t) <==> NotRenewed(events, i, k, t));
  }

  lemma Silenced(c: Cache, events: seq<Event>, k: nat, t: string, now: int)
    requires Forward(c, events) && k < |events| && (AskedAt(c, events, k, t) || HeardAt(events, k, t))
    ensures QuietFor(c, events, k + 1, t, now) <==> Before(c, events, k).now + 120_000_000_000 <= now
  {
    assert NotRenewed(events, k, k + 1, t);
    forall i | 0 <= i <= k ensures Before(c, events, i).now <= Before(c, events, k).now {
      ClockRises(c, events, i, k);
    }
  }

  lemma PutOff(b: Cache, events: seq<Event>, k: nat, t: string, c: Cache)
    requires k < |events| && b == Before(c, events, k) && t in b.trackers
    requires AskedAt(c, events, k, t) || HeardAt(events, k, t)
    ensures AfterEvent(b, events[k]).trackers[t].nextQueryTime == b.now + 120_000_000_000
  {
    if HeardAt(events, k, t) {
      var qs := events[k].questions;
      var q :| q in qs && q.qtype == Any && NameText(q.qname) == t;
      var i :| 0 <= i < |qs| && qs[i] == q;
      assert t in QueriedTypes(qs);
    }
  }

  lemma LeftAlone(b: Cache, events: seq<Event>, k: nat, t: string, c: Cache)
    requires k < |events| && b == Before(c, events, k) && t in b.trackers
    requires !AskedAt(c, events, k, t) && !HeardAt(events, k, t)
    requires !Renews(events[k], t)
    ensures t in AfterEvent(b, events[k]).trackers
    ensures AfterEvent(b, events[k]).trackers[t] == b.trackers[t]
  {}

  /** At a tick or a stop a tracked type is asked for if and only if periodic refresh is on and it has
      been quiet for 120 seconds. */
  lemma AskedIff(c: Cache, events: seq<Event>, i: nat, t: string)
    requires TrackedSoFar(c) && Forward(c, events) && i < |events| && (events[i].TickNow? || events[i].Stop?)
    ensures var b := Before(c, events, i);
            AskedAt(c, events, i, t) <==> b.periodic && t in b.trackers && QuietFor(c, events, i, t, b.now)
  {
    var b := Before(c, events, i);
    if t in b.trackers {
      QuietIff(c, events, i, t, b.now);
    }
  }

  /** So two ticks that ask for a type are 120 seconds apart, unless it is started anew between them. */
  lemma AskedRarely(c: Cache, events: seq<Event>, i: nat, j: nat, t: string)
    requires TrackedSoFar(c) && Forward(c, events) && i < j < |events|
    requires AskedAt(c, events, i, t) && AskedAt(c, events, j, t) && NotRenewed(events, i, j, t)
    ensures Before(c, events, i).now + 120_000_000_000 <= Before(c, events, j).now
  {
    AskedIff(c, events, j, t);
  }
}
