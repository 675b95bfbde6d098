/** The commands a discovery engine emits, and what a consumer makes of them
    (crates/adb-mdns/src/zero_config.rs). */
module Replay {
  import opened Rr
  import opened RecordStore

  datatype QType = Any | OfA | OfAAAA | OfSRV | OfTXT | OfPTR | OtherType

  /** Every query the engine asks is of class ANY. */
  datatype DnsQuery = DnsQuery(name: string, qtype: QType)

  datatype Command =
    | DnsQueries(questions: seq<DnsQuery>)
    | CreateService(instanceName: string, serviceType: string, details: InstanceDetails)
    | UpdateService(instanceName: string, serviceType: string, details: InstanceDetails)
    | DeleteService(instanceName: string, serviceType: string)
  {
    predicate AboutService() { !DnsQueries? }
  }

  /** What a consumer can tell services apart by. */
  type Handle = (string, string)

  type Consumer = map<Handle, InstanceDetails>

  function HandleOf(n: FQServiceName): Handle { (n.instanceName, n.serviceType) }

  function CommandHandle(c: Command): Handle
    requires c.AboutService()
  {
    (c.instanceName, c.serviceType)
  }

  function Apply(c: Command, view: Consumer): Consumer {
    match c
    case DnsQueries(_) => view
    case CreateService(i, s, d) => view[(i, s) := d]
    case UpdateService(i, s, d) => view[(i, s) := d]
    case DeleteService(i, s) => view - {(i, s)}
  }

  function ApplyAll(cs: seq<Command>, view: Consumer): Consumer {
    if cs == [] then view else Apply(cs[|cs| - 1], ApplyAll(cs[..|cs| - 1], view))
  }

  lemma ApplySnoc(cs: seq<Command>, c: Command, view: Consumer)
    ensures ApplyAll(cs + [c], view) == Apply(c, ApplyAll(cs, view))
  {
    assert (cs + [c])[..|cs|] == cs;
  }

  lemma {:induction false} ApplyConcat(cs: seq<Command>, ds: seq<Command>, view: Consumer)
    ensures ApplyAll(cs + ds, view) == ApplyAll(ds, ApplyAll(cs, view))
  {
    if ds == [] {
      assert cs + ds == cs;
    } else {
      var front, last := ds[..|ds| - 1], ds[|ds| - 1];
      assert cs + ds == (cs + front) + [last] && ds == front + [last];
      ApplySnoc(cs + front, last, view);
      ApplyConcat(cs, front, view);
      ApplySnoc(front, last, ApplyAll(cs, view));
    }
  }

  /** Handles tell these services apart. */
  ghost predicate Distinguishable(names: set<FQServiceName>) {
    forall m, n :: m in names && n in names && HandleOf(m) == HandleOf(n) ==> m == n
  }

  /** The consumer holds exactly these services. */
  ghost predicate Mirrors(view: Consumer, services: Services) {
    && (forall n :: n in services ==> HandleOf(n) in view && view[HandleOf(n)] == services[n])
    && (forall h :: h in view ==> exists n :: n in services && HandleOf(n) == h)
  }

  lemma MirrorsPut(view: Consumer, services: Services, n: FQServiceName, d: InstanceDetails)
    requires Mirrors(view, services) && Distinguishable(services.Keys + {n})
    ensures Mirrors(view[HandleOf(n) := d], services[n := d])
  {
    var view', services' := view[HandleOf(n) := d], services[n := d];
    forall h | h in view' ensures exists m :: m in services' && HandleOf(m) == h {
      if h == HandleOf(n) {
        assert n in services';
      } else {
        var m :| m in services && HandleOf(m) == h;
        assert m in services';
      }
    }
  }

  lemma MirrorsDrop(view: Consumer, services: Services, n: FQServiceName)
    requires Mirrors(view, services) && Distinguishable(services.Keys + {n})
    ensures Mirrors(view - {HandleOf(n)}, services - {n})
  {
    var view', services' := view - {HandleOf(n)}, services - {n};
    forall h | h in view' ensures exists m :: m in services' && HandleOf(m) == h {
      var m :| m in services && HandleOf(m) == h;
      assert m in services';
    }
  }

  /** A consumer mirrors one set of services only. */
  lemma MirrorUnique(view: Consumer, other: Consumer, services: Services)
    requires Mirrors(view, services) && Mirrors(other, services)
    ensures view == other
  {
    forall h | h in view ensures h in other && other[h] == view[h] {
      var n :| n in services && HandleOf(n) == h;
    }
    forall h | h in other ensures h in view {
      var n :| n in services && HandleOf(n) == h;
    }
  }

  // ---------- the diff of two snapshots ----------

  /** The command reports a real change of the service it names. */
  predicate Reports(c: Command, n: FQServiceName, before: Services, after: Services) {
    c.AboutService() && CommandHandle(c) == HandleOf(n) &&
    match c
    case CreateService(_, _, d) => n !in before && n in after && d == after[n]
    case UpdateService(_, _, d) => n in before && n in after && before[n] != after[n] && d == after[n]
    case DeleteService(_, _) => n in before && n !in after
    case DnsQueries(_) => false
  }

  /** `s` runs through the elements of `x`, each once. */
  ghost predicate Lists<T(!new)>(s: seq<T>, x: set<T>) {
    && (forall e :: e in s <==> e in x)
    && (forall i, j :: 0 <= i < j < |s| ==> s[i] != s[j])
  }

  function Changed(before: Services, after: Services): set<FQServiceName> {
    set n | n in before.Keys + after.Keys && !(n in before && n in after && before[n] == after[n])
  }

  /** `cs` reports the changes among the services `seen`, one command each, in the order of `names`. */
  ghost predicate PartDiff(cs: seq<Command>, names: seq<FQServiceName>, before: Services, after: Services,
                           seen: set<FQServiceName>) {
    && |cs| == |names|
    && (forall i :: 0 <= i < |cs| ==> Reports(cs[i], names[i], before, after))
    && Lists(names, Changed(before, after) * seen)
  }

  /** `cs` reports every change. */
  ghost predicate Diff(cs: seq<Command>, names: seq<FQServiceName>, before: Services, after: Services) {
    PartDiff(cs, names, before, after, before.Keys + after.Keys)
  }

  lemma ListsSnoc<T(!new)>(s: seq<T>, x: set<T>, e: T)
    requires Lists(s, x) && e !in x
    ensures Lists(s + [e], x + {e})
  {}

  lemma DiffReport(cs: seq<Command>, names: seq<FQServiceName>, before: Services, after: Services,
                   seen: set<FQServiceName>, c: Command, n: FQServiceName)
    requires PartDiff(cs, names, before, after, seen) && n !in seen && Reports(c, n, before, after)
    ensures PartDiff(cs + [c], names + [n], before, after, seen + {n})
  {
    ListsSnoc(names, Changed(before, after) * seen, n);
    assert Changed(before, after) * (seen + {n}) == Changed(before, after) * seen + {n};
  }

  lemma DiffSkip(cs: seq<Command>, names: seq<FQServiceName>, before: Services, after: Services,
                 seen: set<FQServiceName>, n: FQServiceName)
    requires PartDiff(cs, names, before, after, seen) && (n in seen || n !in Changed(before, after))
    ensures PartDiff(cs, names, before, after, seen + {n})
  {
    assert Changed(before, after) * (seen + {n}) == Changed(before, after) * seen;
  }

  /** `create_diff_commands`, for any order in which the two maps are walked. */
  method DiffCommands(before: Services, after: Services) returns (cs: seq<Command>, ghost names: seq<FQServiceName>)
    ensures Diff(cs, names, before, after)
  {
    cs, names := [], [];
    var todo := after.Keys;
    ghost var seen: set<FQServiceName> := {};
    while todo != {}
      invariant todo <= after.Keys && seen == after.Keys - todo
      invariant PartDiff(cs, names, before, after, seen)
      decreases todo
    {
      var n :| n in todo;
      if n !in before {
        var c := CreateService(n.instanceName, n.serviceType, after[n]);
        DiffReport(cs, names, before, after, seen, c, n);
        cs, names := cs + [c], names + [n];
      } else if after[n] != before[n] {
        var c := UpdateService(n.instanceName, n.serviceType, after[n]);
        DiffReport(cs, names, before, after, seen, c, n);
        cs, names := cs + [c], names + [n];
      } else {
        DiffSkip(cs, names, before, after, seen, n);
      }
      todo, seen := todo - {n}, seen + {n};
    }
    assert seen == after.Keys;
    var gone := before.Keys;
    while gone != {}
      invariant gone <= before.Keys && seen == after.Keys + (before.Keys - gone)
      invariant PartDiff(cs, names, before, after, seen)
      decreases gone
    {
      var n :| n in gone;
      if n !in after {
        var c := DeleteService(n.instanceName, n.serviceType);
        DiffReport(cs, names, before, after, seen, c, n);
        cs, names := cs + [c], names + [n];
      } else {
        DiffSkip(cs, names, before, after, seen, n);
      }
      gone, seen := gone - {n}, seen + {n};
    }
    assert seen == before.Keys + after.Keys;
  }

  /** A snapshot with some services already brought up to date. */
  function Blend(before: Services, after: Services, done: set<FQServiceName>): Services {
    map n | n in before.Keys + after.Keys && (if n in done then n in after else n in before) ::
      if n in done then after[n] else before[n]
  }

  lemma BlendStep(before: Services, after: Services, done: set<FQServiceName>, n: FQServiceName)
    requires n in before.Keys + after.Keys
    ensures Blend(before, after, done + {n}) ==
            if n in after then Blend(before, after, done)[n := after[n]] else Blend(before, after, done) - {n}
  {}

  /** A consumer that applies one reported change keeps up with the blend. */
  lemma ReplayStep(view: Consumer, c: Command, before: Services, after: Services,
                   done: set<FQServiceName>, n: FQServiceName)
    requires Distinguishable(before.Keys + after.Keys)
    requires Mirrors(view, Blend(before, after, done)) && Reports(c, n, before, after)
    ensures Mirrors(Apply(c, view), Blend(before, after, done + {n}))
  {
    BlendStep(before, after, done, n);
    assert Blend(before, after, done).Keys + {n} <= before.Keys + after.Keys;
    if n in after {
      MirrorsPut(view, Blend(before, after, done), n, after[n]);
    } else {
      MirrorsDrop(view, Blend(before, after, done), n);
    }
  }

  function Elements<T>(s: seq<T>): set<T> {
    set e | e in s
  }

  lemma ElementsSnoc<T>(s: seq<T>)
    requires s != []
    ensures Elements(s) == Elements(s[..|s| - 1]) + {s[|s| - 1]}
  {
    assert s == s[..|s| - 1] + [s[|s| - 1]];
  }

  lemma {:induction false} ReplayReports(cs: seq<Command>, names: seq<FQServiceName>, view: Consumer,
                                         before: Services, after: Services)
    requires Distinguishable(before.Keys + after.Keys) && |cs| == |names|
    requires forall i :: 0 <= i < |cs| ==> Reports(cs[i], names[i], before, after)
    requires Mirrors(view, before)
    ensures Mirrors(ApplyAll(cs, view), Blend(before, after, Elements(names)))
  {
    if cs == [] {
      BlendNothing(before, after, Elements(names));
    } else {
      var k := |cs| - 1;
      var front, done := cs[..k], Elements(names[..k]);
      ReplayReports(front, names[..k], view, before, after);
      var seen := ApplyAll(front, view);
      ReplayStep(seen, cs[k], before, after, done, names[k]);
      ElementsSnoc(names);
      assert ApplyAll(cs, view) == Apply(cs[k], seen);
    }
  }

  lemma BlendNothing(before: Services, after: Services, done: set<FQServiceName>)
    requires done == {}
    ensures Blend(before, after, done) == before
  {}

  lemma BlendChanged(before: Services, after: Services)
    ensures Blend(before, after, Changed(before, after)) == after
  {}

  /** Whatever the order, a consumer that held the old snapshot and applies the diff holds the new one. */
  lemma ReplayDiff(cs: seq<Command>, names: seq<FQServiceName>, view: Consumer, before: Services, after: Services)
    requires Distinguishable(before.Keys + after.Keys)
    requires Diff(cs, names, before, after) && Mirrors(view, before)
    ensures Mirrors(ApplyAll(cs, view), after)
  {
    ReplayReports(cs, names, view, before, after);
    assert Elements(names) == Changed(before, after);
    BlendChanged(before, after);
  }

  // ---------- no command is idle ----------

  /** A service is created when it is not there, updated when it is there and differs, and deleted when
      it is there. */
  predicate Apt(c: Command, view: Consumer) {
    match c
    case DnsQueries(_) => true
    case CreateService(i, s, _) => (i, s) !in view
    case UpdateService(i, s, d) => (i, s) in view && view[(i, s)] != d
    case DeleteService(i, s) => (i, s) in view
  }

  ghost predicate AllApt(cs: seq<Command>, view: Consumer) {
    forall i :: 0 <= i < |cs| ==> Apt(cs[i], ApplyAll(cs[..i], view))
  }

  lemma ReportIsApt(view: Consumer, c: Command, before: Services, after: Services, done: set<FQServiceName>,
                    n: FQServiceName)
    requires Distinguishable(before.Keys + after.Keys) && n !in done
    requires Mirrors(view, Blend(before, after, done)) && Reports(c, n, before, after)
    ensures Apt(c, view)
  {
    var blend := Blend(before, after, done);
    assert blend.Keys <= before.Keys + after.Keys;
    assert forall m :: m in blend && HandleOf(m) == HandleOf(n) ==> m == n;
    if n in before {
      assert n in blend && blend[n] == before[n];
    }
  }

  /** Whatever the order, each command of a diff is apt when its turn comes. */
  lemma DiffIsApt(cs: seq<Command>, names: seq<FQServiceName>, view: Consumer, before: Services, after: Services)
    requires Distinguishable(before.Keys + after.Keys)
    requires Diff(cs, names, before, after) && Mirrors(view, before)
    ensures AllApt(cs, view)
  {
    hide Mirrors, Distinguishable, Reports;
    forall i | 0 <= i < |cs| ensures Apt(cs[i], ApplyAll(cs[..i], view)) {
      ReplayReports(cs[..i], names[..i], view, before, after);
      assert forall j :: 0 <= j < i ==> names[j] != names[i];
      ReportIsApt(ApplyAll(cs[..i], view), cs[i], before, after, Elements(names[..i]), names[i]);
    }
  }

  lemma AptConcat(cs: seq<Command>, ds: seq<Command>, view: Consumer)
    requires AllApt(cs, view) && AllApt(ds, ApplyAll(cs, view))
    ensures AllApt(cs + ds, view)
  {
    hide Apt, ApplyAll, AllApt;
    var all := cs + ds;
    forall i | 0 <= i < |all| ensures Apt(all[i], ApplyAll(all[..i], view)) {
      AptAt(cs, ds, view, i);
    }
    AptEach(all, view);
  }

  lemma AptEach(cs: seq<Command>, view: Consumer)
    requires forall i :: 0 <= i < |cs| ==> Apt(cs[i], ApplyAll(cs[..i], view))
    ensures AllApt(cs, view)
  {}

  lemma AptAt(cs: seq<Command>, ds: seq<Command>, view: Consumer, i: nat)
    requires AllApt(cs, view) && AllApt(ds, ApplyAll(cs, view)) && i < |cs + ds|
    ensures Apt((cs + ds)[i], ApplyAll((cs + ds)[..i], view))
  {
    hide Apt, ApplyAll;
    var all := cs + ds;
    if i < |cs| {
      assert all[..i] == cs[..i];
    } else {
      var j := i - |cs|;
      assert all[..i] == cs + ds[..j];
      ApplyConcat(cs, ds[..j], view);
    }
  }

  lemma NothingApt(view: Consumer)
    ensures AllApt([], view)
  {}

  lemma QuestionsApt(c: Command, view: Consumer)
    requires c.DnsQueries?
    ensures AllApt([c], view)
  {}
}
