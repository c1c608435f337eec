/**
 * How a packet finds its Traffic Rule: Application Identity first, then the
 * exact Endpoint, then the longest CIDR prefix.
 */
module RuleLookup {
  import opened Common
  import opened PacketParser

  datatype OwnerKind = Socket | Listener

  datatype OwnerKey = OwnerKey(
    remoteAddr: u32, remotePortBe: u16, localPortBe: u16, protocol: byte, kind: OwnerKind, ipFamily: byte)

  /** The parts of a socket owner that rules can name. */
  datatype Owner = Owner(cgroupId: u64, comm: seq<byte>)

  datatype PolicyConfig = PolicyConfig(enabled: bool, appRules: bool, endpointRules: bool)

  /** `matches` stands for the eight kernel match maps, one per entry kind and direction. */
  datatype Tables = Tables(
    config: PolicyConfig, matches: map<MatchEntry, RuleRef>,
    owners: map<OwnerKey, Owner>, listeners: map<OwnerKey, Owner>)

  function Get<K, V>(m: map<K, V>, k: K): Option<V> {
    if k in m then Some(m[k]) else None
  }

  /** The leading `len` bits of an address. */
  function Prefix(addr: u32, len: nat): nat
    requires len <= 32
    decreases 32 - len
  {
    if len == 32 then addr else Prefix(addr, len + 1) / 2
  }

  function CidrKey(dir: Direction, addr: u32, len: nat): MatchEntry
    requires len <= 32
  {
    EndpointCidr(dir, len, Prefix(addr, len))
  }

  // ------------------------------------------------------------- fast path

  function RemoteAddr(f: ParsedFlow, dir: Direction): u32 {
    if dir == Outbound then f.dstAddr else f.srcAddr
  }

  function RemotePort(f: ParsedFlow, dir: Direction): u16 {
    if dir == Outbound then f.dstPortBe else f.srcPortBe
  }

  function LocalPort(f: ParsedFlow, dir: Direction): u16 {
    if dir == Outbound then f.srcPortBe else f.dstPortBe
  }

  function LookupOwner(t: Tables, f: ParsedFlow, dir: Direction): Option<Owner> {
    var isUdp := f.protocol == PROTO_UDP;
    var local := LocalPort(f, dir);
    var port := if isUdp then 0 else local;
    var key := OwnerKey(RemoteAddr(f, dir), RemotePort(f, dir), port, f.protocol, Socket, f.ipFamily);
    if key in t.owners then Some(t.owners[key])
    else if isUdp then None
    else Get(t.listeners, OwnerKey(0, 0, local, f.protocol, Listener, f.ipFamily))
  }

  function Prefer(container: RuleRef, process: RuleRef): RuleRef {
    if container.action == Block then container
    else if process.action == Block then process
    else container
  }

  function AppRule(t: Tables, f: ParsedFlow, dir: Direction): Option<RuleRef> {
    match LookupOwner(t, f, dir)
    case None => None
    case Some(owner) =>
      match (Get(t.matches, AppCgroup(dir, owner.cgroupId)), Get(t.matches, AppComm(dir, owner.comm)))
      case (Some(container), Some(process)) => Some(Prefer(container, process))
      case (Some(container), None) => Some(container)
      case (None, Some(process)) => Some(process)
      case (None, None) => None
  }

  /** Longest-prefix lookup among the prefixes of at most `len` bits. */
  function LongestPrefix(m: map<MatchEntry, RuleRef>, dir: Direction, addr: u32, len: nat): Option<RuleRef>
    requires len <= 32
  {
    var key := CidrKey(dir, addr, len);
    if key in m then Some(m[key])
    else if len == 0 then None
    else LongestPrefix(m, dir, addr, len - 1)
  }

  function EndpointRule(t: Tables, f: ParsedFlow, dir: Direction): Option<RuleRef> {
    var exact := EndpointExact(dir, RemoteAddr(f, dir), RemotePort(f, dir));
    var wildcard := exact.(portBe := 0);
    if exact in t.matches then Some(t.matches[exact])
    else if wildcard in t.matches then Some(t.matches[wildcard])
    else if f.ipFamily != IP_FAMILY_V4 then None
    else LongestPrefix(t.matches, dir, RemoteAddr(f, dir), 32)
  }

  /** The rule the packet path enforces on a flow packet, if any. */
  function ChooseRule(t: Tables, f: ParsedFlow, dir: Direction): Option<RuleRef> {
    if !t.config.enabled then None
    else
      var app := if t.config.appRules then AppRule(t, f, dir) else None;
      if app.Some? then app
      else if t.config.endpointRules then EndpointRule(t, f, dir)
      else None
  }

  // ------------------------------------------- what an entry says of a packet

  lemma {:induction false} PrefixIs(addr: u32, len: nat)
    requires len <= 32
    ensures Prefix(addr, len) == addr / Pow2(32 - len)
    decreases 32 - len
  {
    if len < 32 {
      PrefixIs(addr, len + 1);
      HalfAgain(addr, Pow2(31 - len));
    }
  }

  lemma HalfAgain(x: nat, p: nat)
    requires p > 0
    ensures x / p / 2 == x / (2 * p)
  {
    var q, r := x / p, x % p;
    assert x == q * p + r;
    assert q == q / 2 * 2 + q % 2;
    Regroup(q / 2, q % 2, p);
    var rest := q % 2 * p + r;
    assert q % 2 == 0 || q % 2 == 1;
    assert 0 <= rest < 2 * p;
    QuotientIs(x, 2 * p, q / 2, rest);
  }

  lemma Regroup(a: nat, b: nat, p: nat)
    ensures (a * 2 + b) * p == a * (2 * p) + b * p
  {
  }

  lemma QuotientIs(x: nat, d: nat, q: nat, r: nat)
    requires d > 0 && x == q * d + r && r < d
    ensures x / d == q
  {
    var p := x / d;
    assert x == p * d + x % d;
    if p != q {
      MulMonotone(d, if p < q then p + 1 else q + 1, if p < q then q else p);
      Distribute(d, if p < q then p else q, 1);
    }
  }

  /** The far end of the packet: its destination when it leaves, its source when it arrives. */
  predicate RemoteIs(f: ParsedFlow, dir: Direction, addr: u32, portBe: u16) {
    match dir
    case Outbound => f.dstAddr == addr && f.dstPortBe == portBe
    case Inbound => f.srcAddr == addr && f.srcPortBe == portBe
  }

  /** The near end. */
  predicate LocalPortIs(f: ParsedFlow, dir: Direction, portBe: u16) {
    match dir
    case Outbound => f.srcPortBe == portBe
    case Inbound => f.dstPortBe == portBe
  }

  /** The key of the packet's own socket; a UDP socket is known by its remote end alone. */
  predicate SocketOf(k: OwnerKey, f: ParsedFlow, dir: Direction) {
    && k.kind == Socket && k.protocol == f.protocol && k.ipFamily == f.ipFamily
    && RemoteIs(f, dir, k.remoteAddr, k.remotePortBe)
    && if f.protocol == PROTO_UDP then k.localPortBe == 0 else LocalPortIs(f, dir, k.localPortBe)
  }

  /** The key of a listener on the packet's local port; UDP has none. */
  predicate ListenerOf(k: OwnerKey, f: ParsedFlow, dir: Direction) {
    && f.protocol != PROTO_UDP
    && k.kind == Listener && k.protocol == f.protocol && k.ipFamily == f.ipFamily
    && k.remoteAddr == 0 && k.remotePortBe == 0 && LocalPortIs(f, dir, k.localPortBe)
  }

  /** The owner of the packet: that of its socket, or else of a listener. */
  ghost predicate Owns(t: Tables, o: Owner, f: ParsedFlow, dir: Direction) {
    || (exists k :: k in t.owners && SocketOf(k, f, dir) && t.owners[k] == o)
    || ((forall k :: k in t.owners ==> !SocketOf(k, f, dir))
        && exists k :: k in t.listeners && ListenerOf(k, f, dir) && t.listeners[k] == o)
  }

  /** The lookup finds exactly the owner of the packet. */
  lemma OwnerFound(t: Tables, f: ParsedFlow, dir: Direction, o: Owner)
    ensures LookupOwner(t, f, dir) == Some(o) <==> Owns(t, o, f, dir)
  {
    var remote, port := RemoteAddr(f, dir), RemotePort(f, dir);
    var socket := OwnerKey(
      remote, port, if f.protocol == PROTO_UDP then 0 else LocalPort(f, dir), f.protocol, Socket, f.ipFamily);
    var listener := OwnerKey(0, 0, LocalPort(f, dir), f.protocol, Listener, f.ipFamily);
    assert forall k :: SocketOf(k, f, dir) <==> k == socket;
    assert forall k :: ListenerOf(k, f, dir) <==> k == listener && f.protocol != PROTO_UDP;
  }

  // ------------------------------------------------------------ linear scan

  /** Whether a match entry names this packet, read off the packet's own fields. */
  ghost predicate Applies(e: MatchEntry, t: Tables, f: ParsedFlow, dir: Direction) {
    && e.direction == dir
    && match e
       case AppCgroup(_, cgroupId) => exists o :: Owns(t, o, f, dir) && o.cgroupId == cgroupId
       case AppComm(_, comm) => exists o :: Owns(t, o, f, dir) && o.comm == comm
       case EndpointExact(_, addr, portBe) =>
         exists port: u16 :: RemoteIs(f, dir, addr, port) && (portBe == port || portBe == 0)
       case EndpointCidr(_, len, prefix) =>
         && f.ipFamily == IP_FAMILY_V4 && len <= 32
         && exists addr: u32, port: u16 :: RemoteIs(f, dir, addr, port) && prefix == addr / Pow2(32 - len)
  }

  /** The same, in the terms of the lookup. */
  predicate Found(e: MatchEntry, t: Tables, f: ParsedFlow, dir: Direction) {
    var owner := LookupOwner(t, f, dir);
    && e.direction == dir
    && match e
       case AppCgroup(_, cgroupId) => owner.Some? && owner.value.cgroupId == cgroupId
       case AppComm(_, comm) => owner.Some? && owner.value.comm == comm
       case EndpointExact(_, addr, portBe) =>
         addr == RemoteAddr(f, dir) && (portBe == RemotePort(f, dir) || portBe == 0)
       case EndpointCidr(_, len, prefix) =>
         f.ipFamily == IP_FAMILY_V4 && len <= 32 && prefix == Prefix(RemoteAddr(f, dir), len)
  }

  lemma FoundIffApplies(e: MatchEntry, t: Tables, f: ParsedFlow, dir: Direction)
    ensures Found(e, t, f, dir) <==> Applies(e, t, f, dir)
  {
    hide LookupOwner, Owns, Prefix, Pow2;
    forall o
      ensures LookupOwner(t, f, dir) == Some(o) <==> Owns(t, o, f, dir)
    {
      OwnerFound(t, f, dir, o);
    }
    var addr, port := RemoteAddr(f, dir), RemotePort(f, dir);
    assert RemoteIs(f, dir, addr, port) && forall a, p :: RemoteIs(f, dir, a, p) ==> a == addr && p == port;
    if e.EndpointCidr? && e.prefixLen <= 32 {
      PrefixIs(addr, e.prefixLen);
    }
  }

  /** Specificity: application with block over limit, host:port, host, then prefix length. */
  function Specificity(e: MatchEntry, action: Action): nat {
    match e
    case AppCgroup(_, _) => if action == Block then 103 else 101
    case AppComm(_, _) => if action == Block then 102 else 100
    case EndpointExact(_, _, portBe) => if portBe != 0 then 99 else 98
    case EndpointCidr(_, len, _) => Min(len, 97)
  }

  predicate TierOn(c: PolicyConfig, e: MatchEntry) {
    c.enabled && if e.IsApp() then c.appRules else c.endpointRules
  }

  ghost predicate Candidate(t: Tables, e: MatchEntry, f: ParsedFlow, dir: Direction) {
    TierOn(t.config, e) && Applies(e, t, f, dir)
  }

  /** A scan of all entries, in any order, that keeps the most specific applicable one. */
  ghost function Scan(
      t: Tables, entries: seq<(MatchEntry, RuleRef)>, f: ParsedFlow, dir: Direction): Option<(MatchEntry, RuleRef)>
  {
    if entries == [] then None
    else
      var best := Scan(t, entries[..|entries| - 1], f, dir);
      var next := entries[|entries| - 1];
      if !Candidate(t, next.0, f, dir) then best
      else if best.None?
        || Specificity(best.value.0, best.value.1.action) < Specificity(next.0, next.1.action)
      then Some(next)
      else best
  }

  ghost predicate Lists(entries: seq<(MatchEntry, RuleRef)>, m: map<MatchEntry, RuleRef>) {
    && (forall i :: 0 <= i < |entries| ==> entries[i].0 in m && m[entries[i].0] == entries[i].1)
    && (forall e :: e in m ==> (e, m[e]) in entries)
  }

  /** `e` is applicable and no applicable entry of `m` is more specific. */
  ghost predicate MostSpecific(t: Tables, m: map<MatchEntry, RuleRef>, f: ParsedFlow, dir: Direction, e: MatchEntry) {
    && e in m && Candidate(t, e, f, dir)
    && forall x :: x in m && Candidate(t, x, f, dir) ==>
         Specificity(x, m[x].action) <= Specificity(e, m[e].action)
  }

  lemma {:induction false} ScanKeepsBest(t: Tables, entries: seq<(MatchEntry, RuleRef)>, f: ParsedFlow, dir: Direction)
    ensures var best := Scan(t, entries, f, dir);
      && (best.Some? ==> best.value in entries && Candidate(t, best.value.0, f, dir))
      && forall x :: x in entries && Candidate(t, x.0, f, dir) ==>
           best.Some? && Specificity(x.0, x.1.action) <= Specificity(best.value.0, best.value.1.action)
  {
    if entries != [] {
      var init := entries[..|entries| - 1];
      ScanKeepsBest(t, init, f, dir);
      assert forall x :: x in entries <==> x in init || x == entries[|entries| - 1];
    }
  }

  lemma {:induction false} LongestPrefixIsLongest(m: map<MatchEntry, RuleRef>, dir: Direction, addr: u32, len: nat)
    returns (l: nat)
    requires len <= 32
    ensures l <= len
    ensures LongestPrefix(m, dir, addr, len).None? ==> forall k :: 0 <= k <= len ==> CidrKey(dir, addr, k) !in m
    ensures LongestPrefix(m, dir, addr, len).Some? ==>
      && CidrKey(dir, addr, l) in m && m[CidrKey(dir, addr, l)] == LongestPrefix(m, dir, addr, len).value
      && forall k :: l < k <= len ==> CidrKey(dir, addr, k) !in m
  {
    if CidrKey(dir, addr, len) in m || len == 0 {
      l := len;
    } else {
      l := LongestPrefixIsLongest(m, dir, addr, len - 1);
    }
  }

  lemma AllFound(t: Tables, f: ParsedFlow, dir: Direction)
    ensures forall e :: Found(e, t, f, dir) <==> Applies(e, t, f, dir)
  {
    hide Found, Applies;
    forall e
      ensures Found(e, t, f, dir) <==> Applies(e, t, f, dir)
    {
      FoundIffApplies(e, t, f, dir);
    }
  }

  lemma AppRuleIsMostSpecific(t: Tables, f: ParsedFlow, dir: Direction)
    requires t.config.enabled && t.config.appRules
    ensures AppRule(t, f, dir).None? ==> forall e :: e in t.matches && e.IsApp() ==> !Candidate(t, e, f, dir)
    ensures AppRule(t, f, dir).Some? ==>
      exists e :: MostSpecific(t, t.matches, f, dir, e) && t.matches[e] == AppRule(t, f, dir).value
  {
    hide LookupOwner, Applies;
    AllFound(t, f, dir);
    if AppRule(t, f, dir).Some? {
      var owner := LookupOwner(t, f, dir).value;
      var cgroup, comm := AppCgroup(dir, owner.cgroupId), AppComm(dir, owner.comm);
      var e := if cgroup !in t.matches then comm
               else if comm in t.matches && t.matches[cgroup].action != Block && t.matches[comm].action == Block
               then comm
               else cgroup;
      assert MostSpecific(t, t.matches, f, dir, e);
    }
  }

  lemma EndpointRuleIsMostSpecific(t: Tables, f: ParsedFlow, dir: Direction)
    requires t.config.enabled && t.config.endpointRules
    requires forall e :: e in t.matches && e.IsApp() ==> !Candidate(t, e, f, dir)
    ensures EndpointRule(t, f, dir).None? ==> forall e :: e in t.matches ==> !Candidate(t, e, f, dir)
    ensures EndpointRule(t, f, dir).Some? ==>
      exists e :: MostSpecific(t, t.matches, f, dir, e) && t.matches[e] == EndpointRule(t, f, dir).value
  {
    hide Prefix, LookupOwner, Applies;
    AllFound(t, f, dir);
    var addr := RemoteAddr(f, dir);
    var exact := EndpointExact(dir, addr, RemotePort(f, dir));
    if exact in t.matches {
      assert MostSpecific(t, t.matches, f, dir, exact);
    } else if exact.(portBe := 0) in t.matches {
      assert MostSpecific(t, t.matches, f, dir, exact.(portBe := 0));
    } else if f.ipFamily == IP_FAMILY_V4 {
      var l := LongestPrefixIsLongest(t.matches, dir, addr, 32);
      forall e | e in t.matches && Candidate(t, e, f, dir)
        ensures e.EndpointCidr? && e.prefixLen <= 32 && e == CidrKey(dir, addr, e.prefixLen)
      {
      }
      if EndpointRule(t, f, dir).Some? {
        assert MostSpecific(t, t.matches, f, dir, CidrKey(dir, addr, l));
      }
    }
  }

  lemma ChosenIsMostSpecific(t: Tables, f: ParsedFlow, dir: Direction)
    ensures ChooseRule(t, f, dir).None? ==> forall e :: e in t.matches ==> !Candidate(t, e, f, dir)
    ensures ChooseRule(t, f, dir).Some? ==>
      exists e :: MostSpecific(t, t.matches, f, dir, e) && t.matches[e] == ChooseRule(t, f, dir).value
  {
    if t.config.enabled {
      if t.config.appRules {
        AppRuleIsMostSpecific(t, f, dir);
      }
      if t.config.endpointRules && !(t.config.appRules && AppRule(t, f, dir).Some?) {
        EndpointRuleIsMostSpecific(t, f, dir);
      }
    }
  }

  /** For one packet, applicable entries of equal specificity are the same entry. */
  lemma SpecificityDecides(t: Tables, f: ParsedFlow, dir: Direction, x: MatchEntry, y: MatchEntry, a: Action, b: Action)
    requires Candidate(t, x, f, dir) && Candidate(t, y, f, dir)
    requires Specificity(x, a) == Specificity(y, b)
    ensures x == y
  {
    hide LookupOwner, Applies, Prefix;
    AllFound(t, f, dir);
  }

  /**
   * The tiered lookup refines a linear scan: for any listing of the match
   * entries it picks the rule the scan picks.
   */
  lemma LookupRefinesScan(t: Tables, entries: seq<(MatchEntry, RuleRef)>, f: ParsedFlow, dir: Direction)
    requires Lists(entries, t.matches)
    ensures var best := Scan(t, entries, f, dir);
      ChooseRule(t, f, dir) == if best.Some? then Some(best.value.1) else None
  {
    ScanKeepsBest(t, entries, f, dir);
    ChosenIsMostSpecific(t, f, dir);
    var best := Scan(t, entries, f, dir);
    if ChooseRule(t, f, dir).Some? {
      var e :| MostSpecific(t, t.matches, f, dir, e) && t.matches[e] == ChooseRule(t, f, dir).value;
      assert (e, t.matches[e]) in entries;
      SpecificityDecides(t, f, dir, e, best.value.0, t.matches[e].action, best.value.1.action);
    }
  }

  /** With tier flags that are off only for empty tiers, no applicable entry is ever skipped. */
  lemma FlagsSkipNothing(t: Tables, f: ParsedFlow, dir: Direction)
    requires t.config.enabled
    requires forall e :: e in t.matches ==> TierOn(t.config, e)
    ensures ChooseRule(t, f, dir).None?
       <==> forall e :: e in t.matches ==> !Applies(e, t, f, dir)
  {
    ChosenIsMostSpecific(t, f, dir);
  }
}
