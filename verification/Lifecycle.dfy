/** Probing and expiry of one record, and of a whole queue, by a `tick`
    (crates/adb-mdns/src/zero_config.rs, crates/adb-mdns/src/rr.rs). */
module Lifecycle {
  import opened Wrappers
  import opened Rr
  import opened RecordStore

  /** `!(0.0..1.0).contains(elapsed / ttl)`: with a zero TTL the quotient is infinite or
      not a number. A due record was created no later than now. */
  predicate Expired(rr: RR, now: int) {
    rr.ttl == 0 || now - rr.createdOn >= PartOfTtl(100, rr.ttl)
  }

  predicate Due(rr: RR, now: int) {
    rr.attentionNeededOn <= now
  }

  /** The state reached at `now`, or none below 80 % of the TTL. */
  function NextState(rr: RR, now: int): Option<RRLifecycle> {
    var elapsed := now - rr.createdOn;
    if elapsed >= PartOfTtl(95, rr.ttl) then Some(Probed95)
    else if elapsed >= PartOfTtl(90, rr.ttl) then Some(Probed90)
    else if elapsed >= PartOfTtl(85, rr.ttl) then Some(Probed85)
    else if elapsed >= PartOfTtl(80, rr.ttl) then Some(Probed80)
    else None
  }

  function Reschedule(rr: RR, state: RRLifecycle): RR {
    rr.(attentionNeededOn := rr.createdOn + PartOfTtl(state.NextTtlPercent(), rr.ttl), state := state)
  }

  function Probed(rr: RR, now: int): RR {
    match NextState(rr, now)
    case Some(s) => Reschedule(rr, s)
    case None => rr
  }

  /** A due, unexpired record on schedule is at or past the threshold of its state, so the
      branch for records below 80 % is never taken; the probe strictly advances the state,
      keeps the schedule and moves the deadline past now, but not past expiry. */
  lemma ProbeAdvances(rr: RR, now: int)
    requires rr.OnSchedule() && Due(rr, now) && !Expired(rr, now)
    ensures NextState(rr, now).Some?
    ensures NextState(rr, now).value.ProbesLeft() < rr.state.ProbesLeft()
    ensures var next := Probed(rr, now);
            && next.OnSchedule() && now < next.attentionNeededOn <= next.ExpiresOn()
            && next.Key() == rr.Key() && next.payload == rr.payload
  {
    match rr.state
    case Created =>
    case Probed80 =>
    case Probed85 =>
    case Probed90 =>
    case Probed95 =>
  }

  /** On schedule, a record is due no later than it expires. */
  lemma ScheduledBeforeExpiry(rr: RR)
    requires rr.OnSchedule()
    ensures rr.createdOn <= rr.attentionNeededOn <= rr.ExpiresOn()
  {
    match rr.state
    case Created =>
    case Probed80 =>
    case Probed85 =>
    case Probed90 =>
    case Probed95 =>
  }

  // ---------- one record over many ticks ----------

  /** What ticks at `times` leave of a record nobody refreshes. */
  function AfterTicks(rr: RR, times: seq<int>): Option<RR>
    decreases times
  {
    if times == [] then Some(rr)
    else if !Due(rr, times[0]) then AfterTicks(rr, times[1..])
    else if Expired(rr, times[0]) then None
    else AfterTicks(Probed(rr, times[0]), times[1..])
  }

  /** How often they probe it. */
  function ProbeCount(rr: RR, times: seq<int>): nat
    decreases times
  {
    if times == [] then 0
    else if !Due(rr, times[0]) then ProbeCount(rr, times[1..])
    else if Expired(rr, times[0]) then 0
    else 1 + ProbeCount(Probed(rr, times[0]), times[1..])
  }

  /** Over any ticks a record is probed at most four times, and it is gone exactly if one
      of them came at or after its expiry. */
  lemma {:induction false} UnrefreshedRecord(rr: RR, times: seq<int>)
    requires rr.OnSchedule()
    ensures ProbeCount(rr, times) <= rr.state.ProbesLeft() <= 4
    ensures AfterTicks(rr, times) == None <==> exists i :: 0 <= i < |times| && times[i] >= rr.ExpiresOn()
    decreases times
  {
    if times != [] {
      var now, later := times[0], times[1..];
      assert forall i :: 0 <= i < |later| ==> later[i] == times[i + 1];
      ScheduledBeforeExpiry(rr);
      if !Due(rr, now) {
        UnrefreshedRecord(rr, later);
        LaterExpiry(rr, times);
      } else if Expired(rr, now) {
        assert times[0] >= rr.ExpiresOn();
      } else {
        ProbeAdvances(rr, now);
        UnrefreshedRecord(Probed(rr, now), later);
        LaterExpiry(rr, times);
      }
    }
  }

  lemma LaterExpiry(rr: RR, times: seq<int>)
    requires times != [] && times[0] < rr.ExpiresOn()
    ensures (exists i :: 0 <= i < |times| && times[i] >= rr.ExpiresOn())
       <==> (exists i :: 0 <= i < |times[1..]| && times[1..][i] >= rr.ExpiresOn())
  {
    if i :| 0 <= i < |times| && times[i] >= rr.ExpiresOn() {
      assert times[1..][i - 1] >= rr.ExpiresOn();
    }
  }

  // ---------- the schedule, in numbers ----------

  /** The moments of a record at which it is asked for, and the last, at which it expires: 80, 85, 90,
      95 and 100 % of the TTL, in nanoseconds. */
  function Marks(created: int, ttl: nat): seq<int> {
    [created + 800_000_000 * ttl, created + 850_000_000 * ttl, created + 900_000_000 * ttl,
     created + 950_000_000 * ttl, created + 1_000_000_000 * ttl]
  }

  /** A new record waits for the first mark, and expires at the last. */
  lemma FirstMark(now: int, ttl: nat, payload: RRPayload)
    ensures var rr := NewRR(now, ttl, payload);
            && rr.OnSchedule() && rr.createdOn == now && rr.ttl == ttl && rr.payload == payload
            && rr.attentionNeededOn == Marks(now, ttl)[0] && rr.ExpiresOn() == Marks(now, ttl)[4]
            && rr.state.ProbesLeft() == 4
  {}

  /** A probe moves the deadline to the next mark. */
  lemma NextMark(rr: RR, now: int)
    requires rr.OnSchedule() && Due(rr, now) && !Expired(rr, now)
    ensures var marks, next := Marks(rr.createdOn, rr.ttl), Probed(rr, now).attentionNeededOn;
            next in marks && now < next && forall m :: m in marks && now < m ==> next <= m
  {
    var marks, next := Marks(rr.createdOn, rr.ttl), Probed(rr, now);
    ProbeAdvances(rr, now);
    assert next.attentionNeededOn == marks[4 - next.state.ProbesLeft()];
  }

  /** Some tick comes from one mark on and before the next. */
  ghost predicate Hit(times: seq<int>, marks: seq<int>, j: nat)
    requires j + 1 < |marks|
  {
    exists i :: 0 <= i < |times| && marks[j] <= times[i] < marks[j + 1]
  }

  /** In how many of the four intervals, from number `j` on, some tick comes. */
  ghost function Hits(times: seq<int>, marks: seq<int>, j: nat): nat
    requires |marks| == 5 && j <= 4
    decreases 4 - j
  {
    if j == 4 then 0 else (if Hit(times, marks, j) then 1 else 0) + Hits(times, marks, j + 1)
  }

  ghost predicate Rising(times: seq<int>) {
    forall i, j :: 0 <= i < j < |times| ==> times[i] <= times[j]
  }

  lemma {:induction false} HitsLater(times: seq<int>, marks: seq<int>, j: nat, k: nat)
    requires |marks| == 5 && j <= k <= 4
    requires forall i :: j <= i < k ==> !Hit(times, marks, i)
    ensures Hits(times, marks, j) == Hits(times, marks, k)
    decreases k - j
  {
    if j < k {
      HitsLater(times, marks, j + 1, k);
    }
  }

  lemma {:induction false} HitsWithout(times: seq<int>, marks: seq<int>, j: nat)
    requires |marks| == 5 && j <= 4 && times != [] && times[0] < marks[j]
    requires forall i, k :: 0 <= i < k < 5 ==> marks[i] <= marks[k]
    ensures Hits(times, marks, j) == Hits(times[1..], marks, j)
    decreases 4 - j
  {
    if j < 4 {
      HitsWithout(times, marks, j + 1);
      assert forall i :: 0 < i < |times| ==> times[i] == times[1..][i - 1];
      assert forall i :: 0 <= i < |times[1..]| ==> times[1..][i] == times[i + 1];
    }
  }

  lemma NoHits(times: seq<int>, marks: seq<int>, j: nat, k: nat)
    requires |marks| == 5 && j <= k <= 4 && times != [] && Rising(times) && times[0] >= marks[k]
    requires forall i, k :: 0 <= i < k < 5 ==> marks[i] <= marks[k]
    ensures forall i :: j <= i < k ==> !Hit(times, marks, i)
  {}

  /** The deadline is the mark of the record's state, and marks rise. */
  lemma AtMark(rr: RR)
    requires rr.OnSchedule()
    ensures var marks := Marks(rr.createdOn, rr.ttl);
            && rr.attentionNeededOn == marks[4 - rr.state.ProbesLeft()]
            && (forall i, k :: 0 <= i < k < 5 ==> marks[i] <= marks[k])
  {}

  lemma BetweenMarks(rr: RR, now: int)
    requires rr.OnSchedule() && Due(rr, now) && !Expired(rr, now)
    ensures var next, marks := Probed(rr, now), Marks(rr.createdOn, rr.ttl);
            var k := 4 - next.state.ProbesLeft();
            && next.OnSchedule() && next.createdOn == rr.createdOn && next.ttl == rr.ttl
            && 4 - rr.state.ProbesLeft() < k && marks[k - 1] <= now < marks[k]
  {
    ProbeAdvances(rr, now);
  }

  lemma ExpiredAfterMarks(rr: RR, now: int)
    requires rr.OnSchedule() && Due(rr, now) && Expired(rr, now)
    ensures now >= Marks(rr.createdOn, rr.ttl)[4]
  {
    ScheduledBeforeExpiry(rr);
  }

  /** Ticks at rising times ask for a record once for each of the four intervals between its marks in
      which one of them comes. */
  lemma {:induction false} ProbesAreHits(rr: RR, times: seq<int>)
    requires rr.OnSchedule() && Rising(times)
    ensures ProbeCount(rr, times) == Hits(times, Marks(rr.createdOn, rr.ttl), 4 - rr.state.ProbesLeft())
    decreases times
  {
    var marks, j := Marks(rr.createdOn, rr.ttl), 4 - rr.state.ProbesLeft();
    AtMark(rr);
    hide Marks, Probed, Expired, Hit;
    if times == [] {
      NeverHit(marks);
      HitsLater(times, marks, j, 4);
    } else {
      var now := times[0];
      assert Rising(times[1..]);
      if !Due(rr, now) {
        HitsWithout(times, marks, j);
        ProbesAreHits(rr, times[1..]);
      } else if Expired(rr, now) {
        ExpiredAfterMarks(rr, now);
        NoHits(times, marks, j, 4);
        HitsLater(times, marks, j, 4);
      } else {
        BetweenMarks(rr, now);
        var next := Probed(rr, now);
        var k := 4 - next.state.ProbesLeft();
        HitNow(times, marks, k - 1);
        NoHits(times, marks, j, k - 1);
        HitsLater(times, marks, j, k - 1);
        HitsWithout(times, marks, k);
        ProbesAreHits(next, times[1..]);
      }
    }
  }

  lemma NeverHit(marks: seq<int>)
    requires |marks| == 5
    ensures forall i :: 0 <= i < 4 ==> !Hit([], marks, i)
  {}

  lemma HitNow(times: seq<int>, marks: seq<int>, j: nat)
    requires j + 1 < |marks| && times != [] && marks[j] <= times[0] < marks[j + 1]
    ensures Hit(times, marks, j)
  {}

  /** So a record that nobody refreshes is asked for four times, at 80, 85, 90 and 95 %, if the engine
      ticks at the deadlines it announces, and is then gone. */
  lemma FourProbes(created: int, ttl: nat, payload: RRPayload)
    requires ttl > 0
    ensures ProbeCount(NewRR(created, ttl, payload), Marks(created, ttl)) == 4
    ensures AfterTicks(NewRR(created, ttl, payload), Marks(created, ttl)) == None
  {
    var rr, marks := NewRR(created, ttl, payload), Marks(created, ttl);
    ProbesAreHits(rr, marks);
    forall j | 0 <= j < 4 ensures Hit(marks, marks, j) {
      assert marks[j] <= marks[j] < marks[j + 1];
    }
    AllHits(marks);
    UnrefreshedRecord(rr, marks);
    assert marks[4] >= rr.ExpiresOn();
  }

  lemma AllHits(marks: seq<int>)
    requires |marks| == 5 && forall j :: 0 <= j < 4 ==> Hit(marks, marks, j)
    ensures Hits(marks, marks, 0) == 4
  {
    assert Hits(marks, marks, 3) == 1 + Hits(marks, marks, 4);
    assert Hits(marks, marks, 2) == 1 + Hits(marks, marks, 3);
    assert Hits(marks, marks, 1) == 1 + Hits(marks, marks, 2);
  }

  // ---------- the whole queue at one tick ----------

  function SweptRecord(rr: RR, now: int): RR {
    if Due(rr, now) then Probed(rr, now) else rr
  }

  /** The queue once the records in `done` have been dealt with. */
  function PartSwept(q: Queue, done: set<RRKey>, now: int): Queue {
    map k | k in q && !(k in done && Expired(q[k], now)) :: if k in done then Probed(q[k], now) else q[k]
  }

  /** The queue after a tick: due records probed or, when expired, dropped. */
  function Swept(q: Queue, now: int): Queue {
    map k | k in q && !(Due(q[k], now) && Expired(q[k], now)) :: SweptRecord(q[k], now)
  }

  ghost predicate Scheduled(q: Queue) {
    forall k :: k in q ==> q[k].OnSchedule() && q[k].Key() == k
  }

  /** After a tick every deadline is in the future and no later than expiry, so no expired
      record is left. */
  lemma SweptIsFresh(q: Queue, now: int)
    requires Scheduled(q)
    ensures Scheduled(Swept(q, now))
    ensures forall k :: k in Swept(q, now) ==>
              var rr := Swept(q, now)[k]; now < rr.attentionNeededOn <= rr.ExpiresOn()
  {
    forall k | k in Swept(q, now)
      ensures var rr := Swept(q, now)[k];
              rr.OnSchedule() && rr.Key() == k && now < rr.attentionNeededOn <= rr.ExpiresOn()
    {
      ScheduledBeforeExpiry(q[k]);
      if Due(q[k], now) {
        ProbeAdvances(q[k], now);
      }
    }
  }

  ghost predicate DealtWith(q: Queue, done: set<RRKey>, now: int) {
    forall k :: k in done ==> k in q && Due(q[k], now)
  }

  lemma PartSweptIsScheduled(q: Queue, done: set<RRKey>, now: int)
    requires Scheduled(q) && DealtWith(q, done, now)
    ensures Scheduled(PartSwept(q, done, now))
    ensures forall k :: k in PartSwept(q, done, now) && k in done ==> !Due(PartSwept(q, done, now)[k], now)
  {
    forall k | k in PartSwept(q, done, now) && k in done
      ensures var rr := PartSwept(q, done, now)[k]; rr.OnSchedule() && rr.Key() == k && !Due(rr, now)
    {
      ProbeAdvances(q[k], now);
    }
  }

  /** Nothing left that is due: the sweep is complete. */
  lemma SweepDone(q: Queue, done: set<RRKey>, now: int)
    requires Scheduled(q) && DealtWith(q, done, now)
    requires forall k :: k in PartSwept(q, done, now) ==> !Due(PartSwept(q, done, now)[k], now)
    ensures PartSwept(q, done, now) == Swept(q, now)
  {
    var part := PartSwept(q, done, now);
    forall k | k in q ensures k in done <==> Due(q[k], now) {
      assert k !in done ==> k in part && part[k] == q[k];
    }
    assert part.Keys == Swept(q, now).Keys;
  }

  /** Dealing with one more due record. */
  lemma SweepStep(q: Queue, done: set<RRKey>, now: int, k: RRKey)
    requires Scheduled(q) && DealtWith(q, done, now)
    requires k in PartSwept(q, done, now) && Due(PartSwept(q, done, now)[k], now)
    ensures k !in done && PartSwept(q, done, now)[k] == q[k] && DealtWith(q, done + {k}, now)
    ensures PartSwept(q, done + {k}, now) ==
            if Expired(q[k], now) then PartSwept(q, done, now) - {k}
            else (PartSwept(q, done, now) - {k})[k := Probed(q[k], now)]
  {
    PartSweptIsScheduled(q, done, now);
  }
}
