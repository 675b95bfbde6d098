/** The relational copy of the cached records, from which services are read off
    (crates/adb-mdns/src/store.rs). */
module RecordStore {
  import opened Wrappers
  import opened Rr

  datatype InstanceDetails = InstanceDetails(
    hostname: string, port: Port, ipv4s: set<Ipv4Addr>, ipv6s: set<Ipv6Addr>, txt: TxtAttributes)

  type Services = map<FQServiceName, InstanceDetails>

  /** The five tables of a store. */
  datatype Tables = Tables(
    ptrs: set<FQServiceName>,
    srvs: map<string, (string, Port)>,
    ipv4s: map<string, set<Ipv4Addr>>,
    ipv6s: map<string, set<Ipv6Addr>>,
    txts: map<string, TxtAttributes>)

  // ---------- the tables as one table keyed by location ----------

  datatype Loc =
    | PtrAt(service: FQServiceName)
    | SrvAt(fqName: string)
    | TxtAt(fqName: string)
    | V4At(host: string, addr4: Ipv4Addr)
    | V6At(host: string, addr6: Ipv6Addr)

  datatype Held = Present | Endpoint(target: string, port: Port) | Attributes(txt: TxtAttributes)

  function Lookup(v: Tables, l: Loc): Option<Held> {
    match l
    case PtrAt(n) => if n in v.ptrs then Some(Present) else None
    case SrvAt(f) => if f in v.srvs then Some(Endpoint(v.srvs[f].0, v.srvs[f].1)) else None
    case TxtAt(f) => if f in v.txts then Some(Attributes(v.txts[f])) else None
    case V4At(h, a) => if h in v.ipv4s && a in v.ipv4s[h] then Some(Present) else None
    case V6At(h, a) => if h in v.ipv6s && a in v.ipv6s[h] then Some(Present) else None
  }

  /** No host is kept with an empty address set. */
  ghost predicate Tidy(v: Tables) {
    && (forall h :: h in v.ipv4s ==> v.ipv4s[h] != {})
    && (forall h :: h in v.ipv6s ==> v.ipv6s[h] != {})
  }

  function KeyLoc(k: RRKey): Loc {
    match k
    case AKey(n, a) => V4At(n, a)
    case AAAAKey(n, a) => V6At(n, a)
    case SRVKey(s) => SrvAt(s.FqName())
    case TXTKey(s) => TxtAt(s.FqName())
    case PTRKey(s) => PtrAt(s)
  }

  function HeldOf(p: RRPayload): Held {
    match p
    case SRV(_, target, port) => Endpoint(target, port)
    case TXT(_, attributes) => Attributes(attributes)
    case _ => Present
  }

  /** The (host, address) pairs of some of the hosts of an address table. */
  function Pairs<T>(m: map<string, set<T>>, hosts: set<string>): set<(string, T)>
    requires hosts <= m.Keys
  {
    set h, a | h in hosts && a in m[h] :: (h, a)
  }

  function PtrLocs(v: Tables): set<Loc> { set n | n in v.ptrs :: PtrAt(n) }

  function SrvLocs(v: Tables): set<Loc> { set f | f in v.srvs.Keys :: SrvAt(f) }

  function TxtLocs(v: Tables): set<Loc> { set f | f in v.txts.Keys :: TxtAt(f) }

  function V4Locs(v: Tables): set<Loc> { set p | p in Pairs(v.ipv4s, v.ipv4s.Keys) :: V4At(p.0, p.1) }

  function V6Locs(v: Tables): set<Loc> { set p | p in Pairs(v.ipv6s, v.ipv6s.Keys) :: V6At(p.0, p.1) }

  /** Everything the tables hold. */
  function Locs(v: Tables): set<Loc> {
    PtrLocs(v) + SrvLocs(v) + TxtLocs(v) + V4Locs(v) + V6Locs(v)
  }

  lemma LocsAreHeld(v: Tables, l: Loc)
    ensures l in Locs(v) <==> Lookup(v, l).Some?
  {
    match l
    case V4At(h, a) =>
      assert l in V4Locs(v) <==> (h, a) in Pairs(v.ipv4s, v.ipv4s.Keys);
    case V6At(h, a) =>
      assert l in V6Locs(v) <==> (h, a) in Pairs(v.ipv6s, v.ipv6s.Keys);
    case _ =>
  }

  // ---------- services ----------

  function Addresses4(v: Tables, host: string): set<Ipv4Addr> {
    if host in v.ipv4s then v.ipv4s[host] else {}
  }

  function Addresses6(v: Tables, host: string): set<Ipv6Addr> {
    if host in v.ipv6s then v.ipv6s[host] else {}
  }

  /** A pointed-to instance with an endpoint and at least one address. */
  predicate Reachable(v: Tables, n: FQServiceName) {
    && n in v.ptrs
    && n.FqName() in v.srvs
    && var host := v.srvs[n.FqName()].0;
       Addresses4(v, host) != {} || Addresses6(v, host) != {}
  }

  function DetailsOf(v: Tables, n: FQServiceName): InstanceDetails
    requires Reachable(v, n)
  {
    var (host, port) := v.srvs[n.FqName()];
    InstanceDetails(host, port, Addresses4(v, host), Addresses6(v, host),
                    if n.FqName() in v.txts then v.txts[n.FqName()] else map[])
  }

  function SnapshotOf(v: Tables): Services {
    map n | n in v.ptrs && Reachable(v, n) :: DetailsOf(v, n)
  }

  /** The tables with one record more. */
  function Added(v: Tables, p: RRPayload): (w: Tables)
    requires Tidy(v)
    ensures Tidy(w)
    ensures forall l :: Lookup(w, l) == if l == KeyLoc(PayloadKey(p)) then Some(HeldOf(p)) else Lookup(v, l)
  {
    match p
    case A(name, addr) => v.(ipv4s := v.ipv4s[name := Addresses4(v, name) + {addr}])
    case AAAA(name, addr) => v.(ipv6s := v.ipv6s[name := Addresses6(v, name) + {addr}])
    case SRV(service, target, port) => v.(srvs := v.srvs[service.FqName() := (target, port)])
    case TXT(service, attributes) => v.(txts := v.txts[service.FqName() := attributes])
    case PTR(_, pointer) => v.(ptrs := v.ptrs + {pointer})
  }

  /** An address table without one address, and without the host when it was the last. */
  method DropAddress<T(==)>(m: map<string, set<T>>, host: string, addr: T) returns (r: map<string, set<T>>)
    requires forall h :: h in m ==> m[h] != {}
    ensures forall h :: h in r ==> r[h] != {}
    ensures forall h, a :: h in r && a in r[h] <==> h in m && a in m[h] && !(h == host && a == addr)
  {
    if host !in m {
      return m;
    }
    r := m[host := m[host] - {addr}];
    if r[host] == {} {
      assert forall a :: a in m[host] ==> a == addr || a in r[host];
      r := r - {host};
    }
  }

  class Store {
    var ptrs: set<FQServiceName>
    var srvs: map<string, (string, Port)>
    var ipv4s: map<string, set<Ipv4Addr>>
    var ipv6s: map<string, set<Ipv6Addr>>
    var txts: map<string, TxtAttributes>

    ghost function View(): Tables
      reads this
    {
      Tables(ptrs, srvs, ipv4s, ipv6s, txts)
    }

    ghost predicate Valid()
      reads this
    {
      Tidy(View())
    }

    constructor ()
      ensures Valid() && forall l :: Lookup(View(), l) == None
    {
      ptrs, srvs, ipv4s, ipv6s, txts := {}, map[], map[], map[], map[];
    }

    method Clear()
      modifies this
      ensures Valid() && forall l :: Lookup(View(), l) == None
    {
      ptrs, srvs, ipv4s, ipv6s, txts := {}, map[], map[], map[], map[];
    }

    method Add(p: RRPayload)
      requires Valid()
      modifies this
      ensures Valid() && View() == Added(old(View()), p)
      ensures forall l :: Lookup(View(), l) ==
                if l == KeyLoc(PayloadKey(p)) then Some(HeldOf(p)) else Lookup(old(View()), l)
    {
      match p {
      case A(name, addr) =>
        ipv4s := ipv4s[name := (if name in ipv4s then ipv4s[name] else {}) + {addr}];
      case AAAA(name, addr) =>
        ipv6s := ipv6s[name := (if name in ipv6s then ipv6s[name] else {}) + {addr}];
      case SRV(service, target, port) =>
        srvs := srvs[service.FqName() := (target, port)];
      case TXT(service, attributes) =>
        txts := txts[service.FqName() := attributes];
      case PTR(_, pointer) =>
        ptrs := ptrs + {pointer};
      }
      assert View() == Added(old(View()), p);
    }

    method Remove(p: RRPayload)
      requires Valid()
      modifies this
      ensures Valid()
      ensures forall l :: Lookup(View(), l) ==
                if l == KeyLoc(PayloadKey(p)) then None else Lookup(old(View()), l)
    {
      match p
      case A(name, addr) =>
        ipv4s := DropAddress(ipv4s, name, addr);
      case AAAA(name, addr) =>
        ipv6s := DropAddress(ipv6s, name, addr);
      case SRV(service, _, _) =>
        srvs := srvs - {service.FqName()};
      case TXT(service, _) =>
        txts := txts - {service.FqName()};
      case PTR(_, pointer) =>
        ptrs := ptrs - {pointer};
    }

    method Len() returns (n: nat)
      ensures n == |Locs(View())|
    {
      var n4 := CountAddresses(ipv4s);
      var n6 := CountAddresses(ipv6s);
      n := |ptrs| + |srvs| + |txts| + n4 + n6;
      LocsSize(View());
    }

    /** The services that can be reached right now, whatever order `ptrs` is walked in. */
    method Snapshot() returns (services: Services)
      ensures services == SnapshotOf(View())
    {
      services := map[];
      var todo := ptrs;
      while todo != {}
        invariant todo <= ptrs
        invariant services == map n | n in ptrs - todo && Reachable(View(), n) :: DetailsOf(View(), n)
        decreases todo
      {
        var n :| n in todo;
        todo := todo - {n};
        if n.FqName() !in srvs {
          continue;
        }
        var (host, port) := srvs[n.FqName()];
        var details := InstanceDetails(host, port, {}, {}, map[]);
        if host in ipv4s {
          details := details.(ipv4s := ipv4s[host]);
        }
        if host in ipv6s {
          details := details.(ipv6s := ipv6s[host]);
        }
        if details.ipv4s == {} && details.ipv6s == {} {
          continue;
        }
        if n.FqName() in txts {
          details := details.(txt := txts[n.FqName()]);
        }
        services := services[n := details];
      }
    }
  }

  // ---------- counting ----------

  /** The sum of the set sizes, whatever order the map is walked in. */
  method CountAddresses<T>(m: map<string, set<T>>) returns (n: nat)
    ensures n == |Pairs(m, m.Keys)|
  {
    n := 0;
    var done: set<string> := {};
    while m.Keys - done != {}
      invariant done <= m.Keys && n == |Pairs(m, done)|
      decreases m.Keys - done
    {
      var h :| h in m.Keys - done;
      PairsStep(m, done, h);
      done := done + {h};
      n := n + |m[h]|;
    }
    assert done == m.Keys;
  }

  lemma {:induction false} ImageSize<S, T>(s: set<S>, t: set<T>, f: S -> T)
    requires t == set x | x in s :: f(x)
    requires forall x, y :: x in s && y in s && f(x) == f(y) ==> x == y
    ensures |s| == |t|
  {
    if s == {} {
      assert t == {};
    } else {
      var x :| x in s;
      assert t - {f(x)} == set y | y in s - {x} :: f(y);
      ImageSize(s - {x}, t - {f(x)}, f);
    }
  }

  lemma PairsStep<T>(m: map<string, set<T>>, done: set<string>, h: string)
    requires done <= m.Keys && h in m && h !in done
    ensures |Pairs(m, done + {h})| == |Pairs(m, done)| + |m[h]|
  {
    var added := set a | a in m[h] :: (h, a);
    ImageSize(m[h], added, a => (h, a));
    assert Pairs(m, done + {h}) == Pairs(m, done) + added;
    assert Pairs(m, done) !! added;
  }

  lemma TableSizes(v: Tables)
    ensures |PtrLocs(v)| == |v.ptrs| && |SrvLocs(v)| == |v.srvs| && |TxtLocs(v)| == |v.txts|
    ensures |V4Locs(v)| == |Pairs(v.ipv4s, v.ipv4s.Keys)|
    ensures |V6Locs(v)| == |Pairs(v.ipv6s, v.ipv6s.Keys)|
  {
    ImageSize(v.ptrs, PtrLocs(v), n => PtrAt(n));
    ImageSize(v.srvs.Keys, SrvLocs(v), f => SrvAt(f));
    ImageSize(v.txts.Keys, TxtLocs(v), f => TxtAt(f));
    ImageSize(Pairs(v.ipv4s, v.ipv4s.Keys), V4Locs(v), (p: (string, Ipv4Addr)) => V4At(p.0, p.1));
    ImageSize(Pairs(v.ipv6s, v.ipv6s.Keys), V6Locs(v), (p: (string, Ipv6Addr)) => V6At(p.0, p.1));
  }

  lemma SizeByKind(p: set<Loc>, s: set<Loc>, t: set<Loc>, x: set<Loc>, y: set<Loc>)
    requires (forall l :: l in p ==> l.PtrAt?) && (forall l :: l in s ==> l.SrvAt?)
    requires (forall l :: l in t ==> l.TxtAt?) && (forall l :: l in x ==> l.V4At?) && (forall l :: l in y ==> l.V6At?)
    ensures |p + s + t + x + y| == |p| + |s| + |t| + |x| + |y|
  {
    assert |p + s| == |p| + |s|;
    assert |p + s + t| == |p + s| + |t|;
    assert |p + s + t + x| == |p + s + t| + |x|;
  }

  lemma LocsSize(v: Tables)
    ensures |Locs(v)| == |v.ptrs| + |v.srvs| + |v.txts|
                       + |Pairs(v.ipv4s, v.ipv4s.Keys)| + |Pairs(v.ipv6s, v.ipv6s.Keys)|
  {
    TableSizes(v);
    SizeByKind(PtrLocs(v), SrvLocs(v), TxtLocs(v), V4Locs(v), V6Locs(v));
  }

  // ---------- agreement with the queued records ----------

  type Queue = map<RRKey, RR>

  predicate NamesService(k: RRKey) {
    k.SRVKey? || k.TXTKey? || k.PTRKey?
  }

  ghost predicate WellKeyed(q: Queue, tracked: set<string>) {
    forall k :: k in q ==> q[k].Key() == k && (NamesService(k) ==> TrackedName(k.service, tracked))
  }

  /** The tables are exactly the image of the queue. */
  ghost predicate Agrees(v: Tables, q: Queue) {
    && Tidy(v)
    && (forall k :: k in q ==> Lookup(v, KeyLoc(k)) == Some(HeldOf(q[k].payload)))
    && (forall l :: Lookup(v, l).Some? ==> exists k :: k in q && KeyLoc(k) == l)
  }

  lemma KeyLocInjective(j: RRKey, k: RRKey, tracked: set<string>)
    requires Unmistakable(tracked) && KeyLoc(j) == KeyLoc(k)
    requires NamesService(j) ==> TrackedName(j.service, tracked)
    requires NamesService(k) ==> TrackedName(k.service, tracked)
    ensures j == k
  {
    if j.SRVKey? || j.TXTKey? {
      SameFqName(j.service, k.service, tracked);
    }
  }

  lemma AgreesAdd(v: Tables, w: Tables, q: Queue, rr: RR, tracked: set<string>)
    requires Unmistakable(tracked) && Agrees(v, q) && WellKeyed(q[rr.Key() := rr], tracked) && Tidy(w)
    requires forall l :: Lookup(w, l) == if l == KeyLoc(rr.Key()) then Some(HeldOf(rr.payload)) else Lookup(v, l)
    ensures Agrees(w, q[rr.Key() := rr])
  {
    var q' := q[rr.Key() := rr];
    forall k | k in q' ensures Lookup(w, KeyLoc(k)) == Some(HeldOf(q'[k].payload)) {
      if KeyLoc(k) == KeyLoc(rr.Key()) {
        KeyLocInjective(k, rr.Key(), tracked);
      }
    }
    forall l | Lookup(w, l).Some? ensures exists k :: k in q' && KeyLoc(k) == l {
      if l == KeyLoc(rr.Key()) {
        assert rr.Key() in q';
      } else {
        var k :| k in q && KeyLoc(k) == l;
        assert k in q';
      }
    }
  }

  lemma AgreesRemove(v: Tables, w: Tables, q: Queue, key: RRKey, tracked: set<string>)
    requires Unmistakable(tracked) && Agrees(v, q) && WellKeyed(q, tracked) && Tidy(w) && key in q
    requires forall l :: Lookup(w, l) == if l == KeyLoc(key) then None else Lookup(v, l)
    ensures Agrees(w, q - {key})
  {
    var q' := q - {key};
    forall k | k in q' ensures Lookup(w, KeyLoc(k)) == Some(HeldOf(q'[k].payload)) {
      if KeyLoc(k) == KeyLoc(key) {
        KeyLocInjective(k, key, tracked);
      }
    }
    forall l | Lookup(w, l).Some? ensures exists k :: k in q' && KeyLoc(k) == l {
      var k :| k in q && KeyLoc(k) == l;
      assert k in q';
    }
  }

  /** The store holds as many entries as the queue. */
  lemma AgreesSize(v: Tables, q: Queue, tracked: set<string>)
    requires Unmistakable(tracked) && Agrees(v, q) && WellKeyed(q, tracked)
    ensures |Locs(v)| == |q|
  {
    var image := set k | k in q.Keys :: KeyLoc(k);
    forall l ensures l in Locs(v) <==> l in image {
      LocsAreHeld(v, l);
      if l in Locs(v) {
        var k :| k in q && KeyLoc(k) == l;
      }
    }
    assert Locs(v) == image;
    forall j, k | j in q.Keys && k in q.Keys && KeyLoc(j) == KeyLoc(k) ensures j == k {
      KeyLocInjective(j, k, tracked);
    }
    ImageSize(q.Keys, image, k => KeyLoc(k));
  }

  /** What a service looks like in terms of the records alone. */
  ghost predicate Advertised(q: Queue, n: FQServiceName) {
    && PTRKey(n) in q
    && SRVKey(n) in q && q[SRVKey(n)].payload.SRV?
    && ((exists a :: AKey(q[SRVKey(n)].payload.target, a) in q) ||
        (exists a :: AAAAKey(q[SRVKey(n)].payload.target, a) in q))
  }

  lemma Lookups(v: Tables, q: Queue, tracked: set<string>, key: RRKey)
    requires Unmistakable(tracked) && Agrees(v, q) && WellKeyed(q, tracked)
    requires NamesService(key) ==> TrackedName(key.service, tracked)
    ensures LooksUp(v, q, key)
  {
    if Lookup(v, KeyLoc(key)).Some? {
      var k :| k in q && KeyLoc(k) == KeyLoc(key);
      KeyLocInjective(k, key, tracked);
    }
  }

  /** The three table entries behind a service, in terms of the records. */
  ghost predicate EntriesOf(v: Tables, q: Queue, n: FQServiceName) {
    && (n in v.ptrs <==> PTRKey(n) in q)
    && (n in v.ptrs ==>
          && (n.FqName() in v.srvs <==> SRVKey(n) in q)
          && (SRVKey(n) in q ==>
                && q[SRVKey(n)].payload.SRV?
                && v.srvs[n.FqName()] == (q[SRVKey(n)].payload.target, q[SRVKey(n)].payload.port))
          && (n.FqName() in v.txts <==> TXTKey(n) in q)
          && (TXTKey(n) in q ==> q[TXTKey(n)].payload.TXT? && v.txts[n.FqName()] == q[TXTKey(n)].payload.attributes))
  }

  ghost predicate LooksUp(v: Tables, q: Queue, key: RRKey) {
    Lookup(v, KeyLoc(key)) == if key in q then Some(HeldOf(q[key].payload)) else None
  }

  lemma PtrLookup(v: Tables, q: Queue, n: FQServiceName)
    requires Agrees(v, q)
    ensures n in v.ptrs <==> PTRKey(n) in q
  {
    assert KeyLoc(PTRKey(n)) == PtrAt(n);
    assert n in v.ptrs <==> Lookup(v, PtrAt(n)).Some?;
    if n in v.ptrs {
      var k :| k in q && KeyLoc(k) == PtrAt(n);
    }
  }

  lemma EntriesFromLookups(v: Tables, q: Queue, n: FQServiceName)
    requires n in v.ptrs <==> PTRKey(n) in q
    requires n in v.ptrs ==> LooksUp(v, q, SRVKey(n)) && LooksUp(v, q, TXTKey(n))
    requires SRVKey(n) in q ==> q[SRVKey(n)].payload.SRV?
    requires TXTKey(n) in q ==> q[TXTKey(n)].payload.TXT?
    ensures EntriesOf(v, q, n)
  {}

  lemma ServiceLookups(v: Tables, q: Queue, tracked: set<string>, n: FQServiceName)
    requires Unmistakable(tracked) && Agrees(v, q) && WellKeyed(q, tracked) && PTRKey(n) in q
    ensures LooksUp(v, q, SRVKey(n)) && LooksUp(v, q, TXTKey(n))
  {
    Lookups(v, q, tracked, SRVKey(n));
    Lookups(v, q, tracked, TXTKey(n));
  }

  lemma PayloadKinds(q: Queue, tracked: set<string>, n: FQServiceName)
    requires WellKeyed(q, tracked)
    ensures SRVKey(n) in q ==> q[SRVKey(n)].payload.SRV?
    ensures TXTKey(n) in q ==> q[TXTKey(n)].payload.TXT?
  {}

  lemma ServiceEntries(v: Tables, q: Queue, tracked: set<string>, n: FQServiceName)
    requires Unmistakable(tracked) && Agrees(v, q) && WellKeyed(q, tracked)
    ensures EntriesOf(v, q, n)
  {
    PtrLookup(v, q, n);
    PayloadKinds(q, tracked, n);
    if PTRKey(n) in q {
      ServiceLookups(v, q, tracked, n);
    }
    EntriesFromLookups(v, q, n);
  }

  ghost predicate AddressesOf(v: Tables, q: Queue, host: string) {
    && (forall a :: a in Addresses4(v, host) <==> AKey(host, a) in q)
    && (forall a :: a in Addresses6(v, host) <==> AAAAKey(host, a) in q)
  }

  lemma HostAddresses(v: Tables, q: Queue, host: string)
    requires Agrees(v, q)
    ensures AddressesOf(v, q, host)
  {
    forall a: Ipv4Addr ensures a in Addresses4(v, host) <==> AKey(host, a) in q {
      assert Lookup(v, V4At(host, a)).Some? <==> a in Addresses4(v, host);
      assert KeyLoc(AKey(host, a)) == V4At(host, a);
      assert forall k :: KeyLoc(k) == V4At(host, a) ==> k == AKey(host, a);
    }
    forall a: Ipv6Addr ensures a in Addresses6(v, host) <==> AAAAKey(host, a) in q {
      assert Lookup(v, V6At(host, a)).Some? <==> a in Addresses6(v, host);
      assert KeyLoc(AAAAKey(host, a)) == V6At(host, a);
      assert forall k :: KeyLoc(k) == V6At(host, a) ==> k == AAAAKey(host, a);
    }
  }

  /** `d` is what the records in `q` say about service `n`. */
  ghost predicate Describes(d: InstanceDetails, q: Queue, n: FQServiceName)
    requires Advertised(q, n)
  {
    var srv := q[SRVKey(n)].payload;
    && d.hostname == srv.target && d.port == srv.port
    && (forall a :: a in d.ipv4s <==> AKey(srv.target, a) in q)
    && (forall a :: a in d.ipv6s <==> AAAAKey(srv.target, a) in q)
    && d.txt == if TXTKey(n) in q && q[TXTKey(n)].payload.TXT? then q[TXTKey(n)].payload.attributes else map[]
  }

  lemma DescribedByEntries(v: Tables, q: Queue, n: FQServiceName)
    requires EntriesOf(v, q, n)
    requires SRVKey(n) in q && q[SRVKey(n)].payload.SRV? ==> AddressesOf(v, q, q[SRVKey(n)].payload.target)
    ensures Reachable(v, n) <==> Advertised(q, n)
    ensures Reachable(v, n) ==> Describes(DetailsOf(v, n), q, n)
  {
    if n in v.ptrs && n.FqName() in v.srvs {
      var host := v.srvs[n.FqName()].0;
      assert Addresses4(v, host) != {} <==> exists a :: AKey(host, a) in q;
      assert Addresses6(v, host) != {} <==> exists a :: AAAAKey(host, a) in q;
    }
  }

  /** The services read off an agreeing store are those the queued records advertise:
      a PTR, an SRV and an address of the SRV's target; port, host, addresses and
      attributes are the ones in those records. */
  lemma SnapshotOfRecords(v: Tables, q: Queue, tracked: set<string>, n: FQServiceName)
    requires Unmistakable(tracked) && Agrees(v, q) && WellKeyed(q, tracked)
    ensures n in SnapshotOf(v) <==> Advertised(q, n)
    ensures n in SnapshotOf(v) ==> Describes(SnapshotOf(v)[n], q, n)
  {
    ServiceEntries(v, q, tracked, n);
    if SRVKey(n) in q && q[SRVKey(n)].payload.SRV? {
      HostAddresses(v, q, q[SRVKey(n)].payload.target);
    }
    DescribedByEntries(v, q, n);
  }
}
