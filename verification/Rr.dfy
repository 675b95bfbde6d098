/** Resource records of the mDNS cache (crates/adb-mdns/src/rr.rs).

    Instants are integer nanoseconds and TTLs whole seconds, so every multiple of
    5 % of a TTL is an exact number of nanoseconds. */
module Rr {
  import opened Wrappers

  type Ipv4Addr = x: int | 0 <= x < 0x1_0000_0000
  type Ipv6Addr = x: int | 0 <= x < 0x1_0000_0000_0000_0000_0000_0000_0000_0000
  type Port = x: int | 0 <= x < 0x1_0000
  type TxtAttributes = map<string, string>

  // ---------- names ----------

  /** `service_type_with_local` of the source is a function of the other fields. */
  datatype FQServiceName = FQServiceName(instanceName: string, serviceType: string, localDomain: string) {
    function ServiceTypeWithLocal(): string {
      serviceType + "." + localDomain
    }

    function FqName(): string {
      instanceName + "." + serviceType + "." + localDomain
    }
  }

  /** A label of a name in a packet: 1 to 63 octets, section 2.3.4 of RFC 1035. It may hold dots. */
  type Label = s: string | 1 <= |s| <= LABEL_MAX witness "x"

  const LABEL_MAX: nat := 63

  /** The longest name has 255 octets with a length octet before each label and a zero at the end. */
  const TEXT_MAX: nat := 253

  function NameText(n: seq<Label>): string {
    if n == [] then "" else if |n| == 1 then n[0] else n[0] + "." + NameText(n[1..])
  }

  /** A name a packet can carry. */
  type Name = n: seq<Label> | |NameText(n)| <= TEXT_MAX witness []

  /** Only names of exactly four labels are service instance names. */
  function ToServiceName(n: Name): Option<FQServiceName> {
    if |n| != 4 then None else Some(FQServiceName(n[0], n[1] + "." + n[2], n[3]))
  }

  function Dots(s: string): nat {
    if s == "" then 0 else (if s[0] == '.' then 1 else 0) + Dots(s[1..])
  }

  lemma {:induction false} DotsConcat(a: string, b: string)
    ensures Dots(a + b) == Dots(a) + Dots(b)
  {
    if a == "" {
      assert a + b == b;
    } else {
      assert (a + b)[1..] == a[1..] + b;
      DotsConcat(a[1..], b);
    }
  }

  lemma DottedDots(a: string, b: string)
    ensures Dots(a + "." + b) == Dots(a) + 1 + Dots(b)
  {
    DotsConcat(a, ".");
    DotsConcat(a + ".", b);
    assert "."[1..] == "";
  }

  lemma {:induction false} NoDots(s: string, i: nat)
    requires i < |s| && s[i] == '.'
    ensures Dots(s) > 0
  {
    if i > 0 { NoDots(s[1..], i - 1); }
  }

  /** Two texts split at their last dot agree on both sides of it. */
  lemma {:induction false} LastDot(p: string, d: string, q: string, e: string)
    requires p + "." + d == q + "." + e
    requires Dots(d) == 0 && Dots(e) == 0
    ensures p == q && d == e
  {
    var s := p + "." + d;
    assert s[|p|] == '.' && s[|q|] == '.';
    if |p| < |q| {
      assert d[|q| - |p| - 1] == s[|q|];
      NoDots(d, |q| - |p| - 1);
    } else if |q| < |p| {
      assert e[|p| - |q| - 1] == s[|p|];
      NoDots(e, |p| - |q| - 1);
    }
    assert p == s[..|p|] && q == s[..|q|];
    assert d == s[|p| + 1..] && e == s[|q| + 1..];
  }

  /** The names `try_from` can produce whose type is one of the tracked strings. */
  ghost predicate TrackedName(n: FQServiceName, tracked: set<string>) {
    && n.ServiceTypeWithLocal() in tracked
    && exists labels: Name :: ToServiceName(labels) == Some(n)
  }

  /** A way to read a text as service type and domain of some name a packet can carry. */
  ghost predicate Reads(text: string, serviceType: string, domain: string) {
    && text == serviceType + "." + domain && |text| + 2 <= TEXT_MAX && 1 <= |domain| <= LABEL_MAX
    && exists s: Label, p: Label :: serviceType == s + "." + p
  }

  lemma TrackedReads(n: FQServiceName, tracked: set<string>)
    requires TrackedName(n, tracked)
    ensures Reads(n.ServiceTypeWithLocal(), n.serviceType, n.localDomain) && 1 <= |n.instanceName| <= LABEL_MAX
  {
    var labels: Name :| ToServiceName(labels) == Some(n);
    FourLabels(labels);
  }

  lemma FourLabels(n: seq<Label>)
    requires |n| == 4
    ensures NameText(n) == n[0] + "." + (n[1] + "." + n[2] + "." + n[3])
  {
    var t3 := n[1..][1..][1..];
    assert t3 == [n[3]] && n[1..][1..] == [n[2]] + t3 && n[1..] == [n[1]] + ([n[2]] + t3);
    assert NameText(n[1..][1..]) == n[2] + "." + n[3];
    assert NameText(n[1..]) == n[1] + "." + (n[2] + "." + n[3]);
    assert n[1] + "." + (n[2] + "." + n[3]) == n[1] + "." + n[2] + "." + n[3];
  }

  /** A reading with an instance label before it, within the length of a name, is a name. */
  lemma ReadsTracked(instance: Label, serviceType: string, domain: string, tracked: set<string>)
    requires Reads(serviceType + "." + domain, serviceType, domain) && serviceType + "." + domain in tracked
    requires |instance| + 1 + |serviceType| + 1 + |domain| <= TEXT_MAX
    ensures TrackedName(FQServiceName(instance, serviceType, domain), tracked)
  {
    var s: Label, p: Label :| serviceType == s + "." + p;
    var labels := [instance, s, p, domain];
    FourLabels(labels);
    assert ToServiceName(labels) == Some(FQServiceName(instance, serviceType, domain));
  }

  // ---------- when names can be told apart ----------

  ghost predicate FqNameInjective(tracked: set<string>) {
    forall a, b :: TrackedName(a, tracked) && TrackedName(b, tracked) && a.FqName() == b.FqName() ==> a == b
  }

  /** The tracked text can be read in one way at most. */
  ghost predicate OneReading(t: string) {
    forall s, d, s', d' :: Reads(t, s, d) && Reads(t, s', d') ==> s == s' && d == d'
  }

  ghost predicate Readable(t: string) {
    exists s, d :: Reads(t, s, d)
  }

  /** `long` is `short` with something before it that an instance label can hold, after another. */
  ghost predicate Extends(long: string, short: string) {
    && |short| < |long| <= |short| + LABEL_MAX - 1
    && long[|long| - |short|..] == short && long[|long| - |short| - 1] == '.'
  }

  /** No tracked text reads in two ways, and none that reads at all extends another that does. */
  ghost predicate Unmistakable(tracked: set<string>) {
    && (forall t :: t in tracked ==> OneReading(t))
    && (forall t, u :: t in tracked && u in tracked && Readable(t) && Readable(u) ==> !Extends(t, u))
  }

  lemma FqNameText(n: FQServiceName)
    ensures n.FqName() == n.instanceName + "." + n.ServiceTypeWithLocal()
  {}

  lemma SameFqName(a: FQServiceName, b: FQServiceName, tracked: set<string>)
    requires Unmistakable(tracked) && TrackedName(a, tracked) && TrackedName(b, tracked)
    requires a.FqName() == b.FqName()
    ensures a == b
  {
    TrackedReads(a, tracked);
    TrackedReads(b, tracked);
    FqNameText(a);
    FqNameText(b);
    if |a.instanceName| == |b.instanceName| {
      assert a.instanceName == a.FqName()[..|a.instanceName|] == b.instanceName;
      assert a.ServiceTypeWithLocal() == a.FqName()[|a.instanceName| + 1..] == b.ServiceTypeWithLocal();
      assert OneReading(a.ServiceTypeWithLocal());
    } else if |a.instanceName| < |b.instanceName| {
      LongerExtends(a, b);
    } else {
      LongerExtends(b, a);
    }
  }

  lemma LongerExtends(a: FQServiceName, b: FQServiceName)
    requires a.FqName() == b.FqName() && 1 <= |a.instanceName| < |b.instanceName| <= LABEL_MAX
    ensures Extends(a.ServiceTypeWithLocal(), b.ServiceTypeWithLocal())
  {
    FqNameText(a);
    FqNameText(b);
    var f, t, u := a.FqName(), a.ServiceTypeWithLocal(), b.ServiceTypeWithLocal();
    var i, j := |a.instanceName|, |b.instanceName|;
    assert t == f[i + 1..] && u == f[j + 1..];
    assert t[j - i..] == f[i + 1..][j - i..] == f[j + 1..];
    assert t[j - i - 1] == f[j] == '.';
  }

  /** Two readings of one text: the same instance before both prints the same. */
  lemma ReadingsCollide(t: string, s: string, d: string, s': string, d': string, tracked: set<string>)
    returns (a: FQServiceName, b: FQServiceName)
    requires t in tracked && Reads(t, s, d) && Reads(t, s', d') && !(s == s' && d == d')
    ensures TrackedName(a, tracked) && TrackedName(b, tracked) && a.FqName() == b.FqName() && a != b
  {
    a, b := FQServiceName("x", s, d), FQServiceName("x", s', d');
    ReadsTracked("x", s, d, tracked);
    ReadsTracked("x", s', d', tracked);
    FqNameText(a);
    FqNameText(b);
  }

  /** A text and one it extends: the difference goes to the instance. */
  lemma ExtensionsCollide(t: string, s: string, d: string, u: string, s': string, d': string, tracked: set<string>)
    returns (a: FQServiceName, b: FQServiceName)
    requires t in tracked && u in tracked && Reads(t, s, d) && Reads(u, s', d') && Extends(t, u)
    ensures TrackedName(a, tracked) && TrackedName(b, tracked) && a.FqName() == b.FqName() && a != b
  {
    var k := |t| - |u| - 1;
    var instance := "x" + "." + t[..k];
    a, b := FQServiceName("x", s, d), FQServiceName(instance, s', d');
    ReadsTracked("x", s, d, tracked);
    ReadsTracked(instance, s', d', tracked);
    FqNameText(a);
    FqNameText(b);
    assert t == t[..k] + "." + u;
    assert "x" + "." + (t[..k] + "." + u) == "x" + "." + t[..k] + "." + u;
  }

  /** Two names that print the same, whenever the tracked types allow it. */
  lemma Collision(tracked: set<string>) returns (a: FQServiceName, b: FQServiceName)
    requires !Unmistakable(tracked)
    ensures TrackedName(a, tracked) && TrackedName(b, tracked) && a.FqName() == b.FqName() && a != b
  {
    if t :| t in tracked && !OneReading(t) {
      var s, d, s', d' :| Reads(t, s, d) && Reads(t, s', d') && !(s == s' && d == d');
      a, b := ReadingsCollide(t, s, d, s', d', tracked);
    } else {
      var t, u :| t in tracked && u in tracked && Readable(t) && Readable(u) && Extends(t, u);
      var s, d :| Reads(t, s, d);
      var s', d' :| Reads(u, s', d');
      a, b := ExtensionsCollide(t, s, d, u, s', d', tracked);
    }
  }

  /** `fq_name` tells the names that can come for the tracked types apart if and only if each type
      reads in one way at most and none extends another. */
  lemma FqNameInjectiveIff(tracked: set<string>)
    ensures FqNameInjective(tracked) <==> Unmistakable(tracked)
  {
    if Unmistakable(tracked) {
      forall a, b | TrackedName(a, tracked) && TrackedName(b, tracked) && a.FqName() == b.FqName()
        ensures a == b
      {
        SameFqName(a, b, tracked);
      }
    } else {
      var a, b := Collision(tracked);
    }
  }

  // ---------- types of two parts ----------

  /** Types of at most two dots: a service, a protocol and a domain without dots. */
  predicate PlainTypes(tracked: set<string>) {
    forall t :: t in tracked ==> Dots(t) <= 2
  }

  lemma PlainReading(t: string, s: string, d: string)
    requires Reads(t, s, d) && Dots(t) <= 2
    ensures Dots(t) == 2 && Dots(d) == 0
  {
    hide Dots;
    var service: Label, protocol: Label :| s == service + "." + protocol;
    DottedDots(service, protocol);
    DottedDots(s, d);
  }

  lemma PlainIsUnmistakable(tracked: set<string>)
    requires PlainTypes(tracked)
    ensures Unmistakable(tracked)
  {
    forall t, s, d, s', d' | t in tracked && Reads(t, s, d) && Reads(t, s', d')
      ensures s == s' && d == d'
    {
      PlainReading(t, s, d);
      PlainReading(t, s', d');
      LastDot(s, d, s', d');
    }
    forall t, u | t in tracked && u in tracked && Readable(t) && Readable(u) && Extends(t, u)
      ensures false
    {
      var s, d :| Reads(t, s, d);
      var s', d' :| Reads(u, s', d');
      PlainReading(t, s, d);
      PlainReading(u, s', d');
      var k := |t| - |u| - 1;
      assert t == t[..k] + "." + u;
      DottedDots(t[..k], u);
    }
  }

  /** Types that are not: a longer one whose parts are labels can be cut in two ways. */
  lemma ThreeDotsCollide(w: Label, x: Label, y: Label, z: Label, tracked: set<string>)
    returns (a: FQServiceName, b: FQServiceName)
    requires w + "." + x + "." + y + "." + z in tracked && |w| + |x| + |y| + |z| + 5 <= TEXT_MAX
    requires |w| + 1 + |x| <= LABEL_MAX && |y| + 1 + |z| <= LABEL_MAX
    ensures TrackedName(a, tracked) && TrackedName(b, tracked) && a.FqName() == b.FqName() && a != b
    ensures !Unmistakable(tracked)
  {
    var t := w + "." + x + "." + y + "." + z;
    var wx: Label, yz: Label := w + "." + x, y + "." + z;
    assert t == wx + "." + yz == wx + "." + y + "." + z;
    assert wx == w + "." + x && Reads(t, wx, yz);
    assert Reads(t, wx + "." + y, z);
    a, b := ReadingsCollide(t, wx, yz, wx + "." + y, z, tracked);
    assert !OneReading(t);
  }

  // ---------- payloads ----------

  datatype RRPayload =
    | A(name: string, addr4: Ipv4Addr)
    | AAAA(name: string, addr6: Ipv6Addr)
    | SRV(service: FQServiceName, target: string, port: Port)
    | TXT(service: FQServiceName, attributes: TxtAttributes)
    | PTR(name: string, pointer: FQServiceName)

  /** `PartialEq for RRPayload`: the data of SRV and TXT and the owner of PTR do not count. */
  predicate SameRecord(p: RRPayload, q: RRPayload) {
    match (p, q)
    case (A(n, a), A(m, b)) => n == m && a == b
    case (AAAA(n, a), AAAA(m, b)) => n == m && a == b
    case (SRV(n, _, _), SRV(m, _, _)) => n == m
    case (TXT(n, _), TXT(m, _)) => n == m
    case (PTR(_, n), PTR(_, m)) => n == m
    case _ => false
  }

  /** What a hash map keyed by records sees of one. */
  datatype RRKey =
    | AKey(name: string, addr4: Ipv4Addr)
    | AAAAKey(name: string, addr6: Ipv6Addr)
    | SRVKey(service: FQServiceName)
    | TXTKey(service: FQServiceName)
    | PTRKey(service: FQServiceName)

  function PayloadKey(p: RRPayload): RRKey {
    match p
    case A(n, a) => AKey(n, a)
    case AAAA(n, a) => AAAAKey(n, a)
    case SRV(n, _, _) => SRVKey(n)
    case TXT(n, _) => TXTKey(n)
    case PTR(_, n) => PTRKey(n)
  }

  lemma KeyIsEquality(p: RRPayload, q: RRPayload)
    ensures PayloadKey(p) == PayloadKey(q) <==> SameRecord(p, q)
  {}

  // ---------- lifecycle ----------

  datatype RRLifecycle = Created | Probed80 | Probed85 | Probed90 | Probed95 {
    function NextTtlPercent(): nat {
      match this
      case Created => 80
      case Probed80 => 85
      case Probed85 => 90
      case Probed90 => 95
      case Probed95 => 100
    }

    /** How many probes can still follow. */
    function ProbesLeft(): nat {
      match this
      case Created => 4
      case Probed80 => 3
      case Probed85 => 2
      case Probed90 => 1
      case Probed95 => 0
    }
  }

  /** `pct` percent of a TTL of `secs` seconds, in nanoseconds. */
  function PartOfTtl(pct: nat, secs: nat): nat {
    pct * 10_000_000 * secs
  }

  datatype RR = RR(attentionNeededOn: int, createdOn: int, ttl: nat, state: RRLifecycle, payload: RRPayload) {
    function Key(): RRKey { PayloadKey(payload) }

    function ExpiresOn(): int { createdOn + PartOfTtl(100, ttl) }

    /** The deadline is the one the lifecycle state prescribes. */
    predicate OnSchedule() {
      attentionNeededOn == createdOn + PartOfTtl(state.NextTtlPercent(), ttl)
    }
  }

  function NewRR(now: int, ttl: nat, payload: RRPayload): RR {
    RR(now + PartOfTtl(Created.NextTtlPercent(), ttl), now, ttl, Created, payload)
  }
}
