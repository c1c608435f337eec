/**
 * The TC entry point: every packet is parsed, judged by the Traffic Rules and
 * recorded, and every outcome lands in exactly one counter.
 *
 * `Path` is the value of the kernel maps, `Hook` the object that updates
 * them in place. Per-CPU counters are taken summed.
 */
module PacketPath {
  import opened Common
  import opened Cursors
  import opened PacketParser
  import opened TokenBucket
  import opened RuleLookup
  import opened Sums

  datatype TcAction = Unspec | Shot

  datatype KernelStats = KernelStats(
    seen: u64, parsed: u64, parseFailures: u64, mapUpdateFailures: u64,
    policyDroppedPackets: u64, policyDroppedBytes: u64, policyMissingState: u64)

  datatype FlowKey = FlowKey(
    srcAddr: u32, dstAddr: u32, srcPortBe: u16, dstPortBe: u16, ifindex: u32, protocol: byte,
    direction: Direction, ipFamily: byte)

  /** `sampled` once a payload of the Flow was copied for service detection. */
  datatype FlowValue = FlowValue(
    packets: u64, bytes: u64, firstSeen: u64, lastSeen: u64, tcpFlags: u16, parseFlags: u16, sampled: bool)

  const NEW_FLOW := FlowValue(0, 0, 0, 0, 0, 0, false)

  datatype Path = Path(
    tables: Tables, states: map<BucketKey, Bucket>, flows: map<FlowKey, FlowValue>, stats: KernelStats)

  /** One packet as the hook sees it; `inserted` says whether a new flow entry fits. */
  datatype Frame = Frame(
    cursor: Cursor, direction: Direction, ifindex: u32, len: u64, observed: u64, enforced: u64, inserted: bool)

  function Inc(x: u64): u64 {
    SaturatingAdd(x, 1)
  }

  function KeyOf(f: ParsedFlow, dir: Direction, ifindex: u32): FlowKey {
    FlowKey(f.srcAddr, f.dstAddr, f.srcPortBe, f.dstPortBe, ifindex, f.protocol, dir, f.ipFamily)
  }

  /** The flags of either. */
  function Flags(a: u16, b: u16): u16 {
    assert Pow2(16) == 0x1_0000 by { SixteenBits(); }
    Or(a, b, 16)
  }

  lemma SixteenBits()
    ensures Pow2(16) == 0x1_0000
  {
    assert Pow2(8) == 256;
    assert Pow2(12) == 4096;
  }

  function Recorded(v: FlowValue, f: ParsedFlow, now: u64, len: u64): FlowValue {
    FlowValue(Inc(v.packets), SaturatingAdd(v.bytes, len), if v.packets == 0 then now else v.firstSeen, now,
              Flags(v.tcpFlags, f.tcpFlags), Flags(v.parseFlags, f.parseFlags),
              v.sampled || f.payloadOffset < f.payloadEnd)
  }

  /** The state a packet is enforced on: the chosen rule's, when it is live. */
  function Target(p: Path, f: ParsedFlow, dir: Direction): Option<BucketKey> {
    match ChooseRule(p.tables, f, dir)
    case None => None
    case Some(rule) =>
      var key := BucketKey(rule.rule, dir);
      if key in p.states then Some(key) else None
  }

  function Evaluated(p: Path, f: ParsedFlow, fr: Frame): (Path, Verdict) {
    match ChooseRule(p.tables, f, fr.direction)
    case None => (p, Pass)
    case Some(rule) =>
      var key := BucketKey(rule.rule, fr.direction);
      if key !in p.states then
        (p.(stats := p.stats.(policyMissingState := Inc(p.stats.policyMissingState))), Pass)
      else
        var (b, verdict) := Enforced(p.states[key], rule.action, fr.enforced, fr.len);
        (p.(states := p.states[key := b]), verdict)
  }

  function Updated(p: Path, f: ParsedFlow, fr: Frame): Path {
    var key := KeyOf(f, fr.direction, fr.ifindex);
    if key in p.flows then p.(flows := p.flows[key := Recorded(p.flows[key], f, fr.observed, fr.len)])
    else if fr.inserted then p.(flows := p.flows[key := Recorded(NEW_FLOW, f, fr.observed, fr.len)])
    else p.(stats := p.stats.(mapUpdateFailures := Inc(p.stats.mapUpdateFailures)))
  }

  function Seen(p: Path): Path {
    p.(stats := p.stats.(seen := Inc(p.stats.seen)))
  }

  function SeenAndParsed(p: Path): Path {
    p.(stats := p.stats.(seen := Inc(p.stats.seen), parsed := Inc(p.stats.parsed)))
  }

  function PolicyDropped(p: Path, len: u64): Path {
    p.(stats := p.stats.(policyDroppedPackets := Inc(p.stats.policyDroppedPackets),
                         policyDroppedBytes := SaturatingAdd(p.stats.policyDroppedBytes, len)))
  }

  /** What becomes of a packet that parses to `result`. */
  function Handled(p: Path, fr: Frame, result: ParseResult): (Path, TcAction) {
    match result
    case Flow(f) =>
      var (q, verdict) := Evaluated(SeenAndParsed(p), f, fr);
      if verdict == Drop then (PolicyDropped(q, fr.len), Shot) else (Updated(q, f, fr), Unspec)
    case Skipped => (Seen(p), Unspec)
    case _ => (Seen(p).(stats := Seen(p).stats.(parseFailures := Inc(p.stats.parseFailures))), Unspec)
  }

  function Processed(p: Path, fr: Frame): (Path, TcAction) {
    Handled(p, fr, Parse(fr.cursor))
  }

  class Hook {
    var tables: Tables
    var states: map<BucketKey, Bucket>
    var flows: map<FlowKey, FlowValue>
    var seen: u64
    var parsed: u64
    var parseFailures: u64
    var mapUpdateFailures: u64
    var policyDroppedPackets: u64
    var policyDroppedBytes: u64
    var policyMissingState: u64

    constructor (t: Tables)
      ensures Value() == Path(t, map[], map[], KernelStats(0, 0, 0, 0, 0, 0, 0))
    {
      tables, states, flows := t, map[], map[];
      seen, parsed, parseFailures, mapUpdateFailures := 0, 0, 0, 0;
      policyDroppedPackets, policyDroppedBytes, policyMissingState := 0, 0, 0;
    }

    function Value(): Path
      reads this
    {
      Path(tables, states, flows,
           KernelStats(seen, parsed, parseFailures, mapUpdateFailures,
             policyDroppedPackets, policyDroppedBytes, policyMissingState))
    }

    method Enforce(rule: RuleRef, fr: Frame) returns (verdict: Verdict)
      modifies this`states, this`policyMissingState
      ensures var key := BucketKey(rule.rule, fr.direction);
        if key in old(states) then
          && policyMissingState == old(policyMissingState)
          && var r := Enforced(old(states)[key], rule.action, fr.enforced, fr.len);
             states == old(states)[key := r.0] && verdict == r.1
        else states == old(states) && policyMissingState == Inc(old(policyMissingState)) && verdict == Pass
    {
      var key := BucketKey(rule.rule, fr.direction);
      if key !in states {
        policyMissingState := Inc(policyMissingState);
        return Pass;
      }
      var state := new RuleState(states[key]);
      verdict := state.Enforce(rule.action, fr.enforced, fr.len);
      states := states[key := state.Value()];
    }

    method UpdateFlow(f: ParsedFlow, fr: Frame) returns (recorded: bool)
      modifies this`flows
      ensures var key := KeyOf(f, fr.direction, fr.ifindex);
        if key in old(flows) then
          recorded && flows == old(flows)[key := Recorded(old(flows)[key], f, fr.observed, fr.len)]
        else
          && recorded == fr.inserted
          && flows == if recorded then old(flows)[key := Recorded(NEW_FLOW, f, fr.observed, fr.len)] else old(flows)
    {
      var key := KeyOf(f, fr.direction, fr.ifindex);
      if key in flows {
        flows := flows[key := Recorded(flows[key], f, fr.observed, fr.len)];
        return true;
      }
      recorded := fr.inserted;
      if recorded {
        flows := flows[key := Recorded(NEW_FLOW, f, fr.observed, fr.len)];
      }
    }

    method Process(fr: Frame) returns (action: TcAction)
      modifies this
      ensures (Value(), action) == Processed(old(Value()), fr)
    {
      hide Parse, ChooseRule, Enforced;
      var result := Parse(fr.cursor);
      if result.Flow? {
        seen, parsed := Inc(seen), Inc(parsed);
        var rule := ChooseRule(tables, result.flow, fr.direction);
        if rule.Some? {
          var verdict := Enforce(rule.value, fr);
          if verdict == Drop {
            policyDroppedPackets := Inc(policyDroppedPackets);
            policyDroppedBytes := SaturatingAdd(policyDroppedBytes, fr.len);
            return Shot;
          }
        }
        var recorded := UpdateFlow(result.flow, fr);
        if !recorded {
          mapUpdateFailures := Inc(mapUpdateFailures);
        }
      } else {
        seen := Inc(seen);
        if result.IsFailure() {
          parseFailures := Inc(parseFailures);
        }
      }
      action := Unspec;
    }
  }

  // ------------------------------------------------------------ whole runs

  /**
   * An upsert of a rule state takes two steps, and packets may come in between:
   * the collector reads the state that is there, then writes back what it read
   * with the new rate and burst. It runs one operation at a time, so it neither
   * reads nor removes another state before it has written; a write may fail.
   */
  datatype Event =
    | Receive(frame: Frame)
    | ReadState(key: BucketKey)
    | WriteState(rate: u64, burst: u64, written: bool)
    | RemoveState(key: BucketKey)
    | EvictFlow(flow: FlowKey)
    | Configure(tables: Tables)

  /** What the collector read, what the state had let through by then, and the packets enforced on it since. */
  datatype Read = Read(key: BucketKey, existing: Option<Bucket>, passed: (nat, nat), enforced: nat)

  /**
   * The kernel maps and what they no longer hold: skipped packets, the packets
   * of evicted flows, the drops of removed states, what each live state let
   * through since it was created, and what writes of stale states undid: drops
   * over all states, and passes per live state.
   */
  datatype System = System(
    path: Path, skipped: nat, evictedPackets: nat, removedDrops: nat, removedDropBytes: nat,
    passed: map<BucketKey, (nat, nat)>, pending: Option<Read>,
    undoneDrops: int, undoneDropBytes: int, undonePassed: map<BucketKey, (int, int)>)

  function Start(t: Tables): System {
    System(Path(t, map[], map[], KernelStats(0, 0, 0, 0, 0, 0, 0)), 0, 0, 0, 0, map[], None, 0, 0, map[])
  }

  function PassedOf(s: System, key: BucketKey): (nat, nat) {
    if key in s.passed then s.passed[key] else (0, 0)
  }

  function UndoneOf(s: System, key: BucketKey): (int, int) {
    if key in s.undonePassed then s.undonePassed[key] else (0, 0)
  }

  function Received(s: System, fr: Frame, result: ParseResult): System {
    var (path, action) := Handled(s.path, fr, result);
    var target := if result.Flow? then Target(s.path, result.flow, fr.direction) else None;
    s.(path := path,
       skipped := s.skipped + if result.Skipped? then 1 else 0,
       passed := if target.Some? && action == Unspec
                 then s.passed[target.value := (PassedOf(s, target.value).0 + 1, PassedOf(s, target.value).1 + fr.len)]
                 else s.passed,
       pending := if s.pending.Some? && target == Some(s.pending.value.key)
                  then Some(s.pending.value.(enforced := s.pending.value.enforced + 1))
                  else s.pending)
  }

  function Written(s: System, r: Read, rate: u64, burst: u64): System {
    var t := s.(path := s.path.(states := s.path.states[r.key := Upserted(r.existing, rate, burst)]), pending := None);
    if r.existing.None? || r.key !in s.path.states then
      t.(passed := s.passed[r.key := (0, 0)], undonePassed := s.undonePassed[r.key := (0, 0)])
    else
      var lost := s.path.states[r.key];
      t.(undoneDrops := s.undoneDrops + lost.droppedPackets - r.existing.value.droppedPackets,
         undoneDropBytes := s.undoneDropBytes + lost.droppedBytes - r.existing.value.droppedBytes,
         undonePassed := s.undonePassed[r.key :=
           (UndoneOf(s, r.key).0 + PassedOf(s, r.key).0 - r.passed.0,
            UndoneOf(s, r.key).1 + PassedOf(s, r.key).1 - r.passed.1)])
  }

  function Next(s: System, e: Event): System {
    match e
    case Receive(fr) => Received(s, fr, Parse(fr.cursor))
    case ReadState(key) =>
      if s.pending.Some? then s
      else
        var existing := if key in s.path.states then Some(s.path.states[key]) else None;
        s.(pending := Some(Read(key, existing, PassedOf(s, key), 0)))
    case WriteState(rate, burst, written) =>
      if s.pending.None? then s
      else if written then Written(s, s.pending.value, rate, burst)
      else s.(pending := None)
    case RemoveState(key) =>
      if s.pending.Some? || key !in s.path.states then s
      else
        s.(path := s.path.(states := s.path.states - {key}),
           removedDrops := s.removedDrops + s.path.states[key].droppedPackets,
           removedDropBytes := s.removedDropBytes + s.path.states[key].droppedBytes)
    case EvictFlow(key) =>
      if key !in s.path.flows then s
      else
        s.(path := s.path.(flows := s.path.flows - {key}),
           evictedPackets := s.evictedPackets + s.path.flows[key].packets)
    case Configure(tables) => s.(path := s.path.(tables := tables))
  }

  function RunAll(s: System, events: seq<Event>): System {
    if events == [] then s else Next(RunAll(s, events[..|events| - 1]), events[|events| - 1])
  }

  function DroppedPacketsOf(k: BucketKey, b: Bucket): int { b.droppedPackets }
  function DroppedBytesOf(k: BucketKey, b: Bucket): int { b.droppedBytes }
  function PacketsOf(k: FlowKey, v: FlowValue): int { v.packets }

  /** Every packet seen was parsed, skipped or failed; every parsed one dropped, recorded or refused. */
  ghost predicate PacketsConserved(s: System) {
    var st := s.path.stats;
    && st.seen == st.parsed + s.skipped + st.parseFailures
    && st.parsed == st.policyDroppedPackets + Total(s.path.flows, PacketsOf) + s.evictedPackets + st.mapUpdateFailures
    && st.policyDroppedPackets == Total(s.path.states, DroppedPacketsOf) + s.removedDrops + s.undoneDrops
  }

  ghost predicate DropBytesConserved(s: System) {
    s.path.stats.policyDroppedBytes == Total(s.path.states, DroppedBytesOf) + s.removedDropBytes + s.undoneDropBytes
  }

  /**
   * Per live state: matched, with what was undone, = passed + dropped, in packets
   * and, short of saturation, in bytes.
   */
  ghost predicate MatchesConserved(s: System) {
    forall k :: k in s.path.states ==> MatchConserved(s, k)
  }

  ghost predicate MatchConserved(s: System, k: BucketKey)
    requires k in s.path.states
  {
    var b := s.path.states[k];
    && UndoneOf(s, k).0 >= 0 && UndoneOf(s, k).1 <= PassedOf(s, k).1
    && b.matchedPackets + UndoneOf(s, k).0 == PassedOf(s, k).0 + b.droppedPackets <= s.path.stats.parsed
    && (b.matchedBytes < U64_MAX ==> b.matchedBytes + UndoneOf(s, k).1 == PassedOf(s, k).1 + b.droppedBytes)
  }

  /** The state read is one that the live state has grown from, or none where none is live. */
  ghost predicate ReadFits(s: System) {
    && s.undoneDrops >= 0 && s.undoneDropBytes >= 0
    && (s.pending.Some? ==>
          var r := s.pending.value;
          && (r.existing.Some? <==> r.key in s.path.states)
          && (r.existing.Some? ==>
                var b := s.path.states[r.key];
                && r.existing.value.droppedPackets <= b.droppedPackets
                && r.existing.value.droppedBytes <= b.droppedBytes
                && r.passed.0 <= PassedOf(s, r.key).0))
  }

  /** The state read accounts for the packets before it; those since are the enforced ones. */
  ghost predicate ReadConserved(s: System) {
    s.pending.Some? && s.pending.value.existing.Some? && s.pending.value.key in s.path.states ==>
      var r, b := s.pending.value, s.pending.value.existing.value;
      && b.matchedPackets + UndoneOf(s, r.key).0 == r.passed.0 + b.droppedPackets
      && (b.matchedBytes < U64_MAX ==> b.matchedBytes + UndoneOf(s, r.key).1 == r.passed.1 + b.droppedBytes)
      && UndoneOf(s, r.key).1 <= r.passed.1
      && r.enforced == PassedOf(s, r.key).0 - r.passed.0 + s.path.states[r.key].droppedPackets - b.droppedPackets
  }

  ghost predicate Conserved(s: System) {
    && ReadFits(s)
    && (s.path.stats.seen < U64_MAX ==> PacketsConserved(s) && MatchesConserved(s) && ReadConserved(s))
    && (s.path.stats.policyDroppedBytes < U64_MAX ==> DropBytesConserved(s))
  }

  lemma {:induction false} StatsOnlyGrow(s: System, e: Event)
    ensures Next(s, e).path.stats.seen >= s.path.stats.seen
    ensures Next(s, e).path.stats.policyDroppedBytes >= s.path.stats.policyDroppedBytes
  {
    hide Parse, ChooseRule, Enforced;
  }

  /** No state has dropped more than the kernel counters say. */
  lemma StateBelowTotals(s: System, k: BucketKey)
    requires k in s.path.states
    ensures 0 <= s.path.states[k].droppedPackets <= Total(s.path.states, DroppedPacketsOf)
    ensures 0 <= s.path.states[k].droppedBytes <= Total(s.path.states, DroppedBytesOf)
  {
    TotalAtLeast(s.path.states, DroppedPacketsOf, k);
    TotalAtLeast(s.path.states, DroppedBytesOf, k);
  }

  lemma NoNegativeTotals(s: System)
    ensures Total(s.path.states, DroppedPacketsOf) >= 0 && Total(s.path.states, DroppedBytesOf) >= 0
    ensures Total(s.path.flows, PacketsOf) >= 0
  {
    TotalNonNegative(s.path.states, DroppedPacketsOf);
    TotalNonNegative(s.path.states, DroppedBytesOf);
    TotalNonNegative(s.path.flows, PacketsOf);
  }

  /** What enforcement changes: the target's counters, and nothing else but the missing-state count. */
  lemma EnforcementCounts(b: Bucket, action: Action, now: u64, len: u64)
    ensures var (c, verdict) := Enforced(b, action, now, len);
      && c.matchedPackets == Inc(b.matchedPackets) && c.matchedBytes == SaturatingAdd(b.matchedBytes, len)
      && c.droppedPackets == (if verdict == Drop then Inc(b.droppedPackets) else b.droppedPackets)
      && c.droppedBytes == (if verdict == Drop then SaturatingAdd(b.droppedBytes, len) else b.droppedBytes)
  {
    hide Credit, Elapsed;
  }

  lemma UpdatedTotals(p: Path, f: ParsedFlow, fr: Frame)
    requires p.stats.mapUpdateFailures < U64_MAX
    requires Total(p.flows, PacketsOf) < U64_MAX
    ensures var q := Updated(p, f, fr);
      && q == p.(flows := q.flows, stats := p.stats.(mapUpdateFailures := q.stats.mapUpdateFailures))
      && Total(q.flows, PacketsOf) + q.stats.mapUpdateFailures
        == Total(p.flows, PacketsOf) + p.stats.mapUpdateFailures + 1
  {
    hide Flags;
    var key := KeyOf(f, fr.direction, fr.ifindex);
    if key in p.flows {
      TotalAtLeast(p.flows, PacketsOf, key);
    }
    var q := Updated(p, f, fr);
    TotalUpdate(p.flows, PacketsOf, key, if key in q.flows then q.flows[key] else NEW_FLOW);
  }

  /** Enforcement touches one state at most, and counts a drop there exactly when it drops. */
  lemma EvaluatedTotals(p: Path, f: ParsedFlow, fr: Frame)
    ensures var (q, verdict) := Evaluated(p, f, fr);
      && q == p.(states := q.states, stats := p.stats.(policyMissingState := q.stats.policyMissingState))
      && (Target(p, f, fr.direction).None? ==> verdict == Pass && q.states == p.states)
      && q.stats.policyMissingState == (
           if Target(p, f, fr.direction).None? && ChooseRule(p.tables, f, fr.direction).Some?
           then Inc(p.stats.policyMissingState) else p.stats.policyMissingState)
      && (Target(p, f, fr.direction).Some? ==>
            var key := Target(p, f, fr.direction).value;
            var b := p.states[key];
            && key in q.states && q.states == p.states[key := q.states[key]]
            && q.states[key].matchedPackets == Inc(b.matchedPackets)
            && q.states[key].matchedBytes == SaturatingAdd(b.matchedBytes, fr.len)
            && q.states[key].droppedPackets == (if verdict == Drop then Inc(b.droppedPackets) else b.droppedPackets)
            && q.states[key].droppedBytes
              == (if verdict == Drop then SaturatingAdd(b.droppedBytes, fr.len) else b.droppedBytes)
            && Total(q.states, DroppedPacketsOf)
               == Total(p.states, DroppedPacketsOf) - b.droppedPackets + q.states[key].droppedPackets
            && Total(q.states, DroppedBytesOf)
               == Total(p.states, DroppedBytesOf) - b.droppedBytes + q.states[key].droppedBytes)
  {
    hide ChooseRule, Enforced;
    var target := Target(p, f, fr.direction);
    if target.Some? {
      var key := target.value;
      var rule := ChooseRule(p.tables, f, fr.direction).value;
      EnforcementCounts(p.states[key], rule.action, fr.enforced, fr.len);
      var b := Enforced(p.states[key], rule.action, fr.enforced, fr.len).0;
      TotalUpdate(p.states, DroppedPacketsOf, key, b);
      TotalUpdate(p.states, DroppedBytesOf, key, b);
    }
  }

  lemma ReceiveFlowPackets(s: System, fr: Frame, f: ParsedFlow)
    requires ReadFits(s) && PacketsConserved(s) && s.path.stats.seen + 1 < U64_MAX
    ensures PacketsConserved(Received(s, fr, Flow(f)))
  {
    hide Evaluated, Updated;
    var p := SeenAndParsed(s.path);
    EvaluatedTotals(p, f, fr);
    NoNegativeTotals(s);
    var (q, verdict) := Evaluated(p, f, fr);
    if Target(p, f, fr.direction).Some? {
      StateBelowTotals(s, Target(p, f, fr.direction).value);
    }
    if verdict == Pass {
      UpdatedTotals(q, f, fr);
    }
  }

  lemma HandledAt(p: Path, fr: Frame, f: ParsedFlow, k: BucketKey)
    requires k in p.states
    ensures var (q, action) := Handled(p, fr, Flow(f));
      && k in q.states && q.stats.parsed == Inc(p.stats.parsed)
      && var b, c := p.states[k], q.states[k];
         if Target(p, f, fr.direction) == Some(k) then
           && c.matchedPackets == Inc(b.matchedPackets) && c.matchedBytes == SaturatingAdd(b.matchedBytes, fr.len)
           && c.droppedPackets == (if action == Shot then Inc(b.droppedPackets) else b.droppedPackets)
           && c.droppedBytes == (if action == Shot then SaturatingAdd(b.droppedBytes, fr.len) else b.droppedBytes)
         else c == b
  {
    hide Evaluated, ChooseRule, Recorded, KeyOf;
    var parsed := SeenAndParsed(p);
    EvaluatedTotals(parsed, f, fr);
    assert Target(parsed, f, fr.direction) == Target(p, f, fr.direction);
  }

  /** What a packet changes at one live state. */
  lemma ReceivedAt(s: System, fr: Frame, f: ParsedFlow, k: BucketKey)
    requires k in s.path.states
    ensures var t := Received(s, fr, Flow(f));
      var hit := Target(s.path, f, fr.direction) == Some(k);
      var drop := Handled(s.path, fr, Flow(f)).1 == Shot;
      && k in t.path.states && UndoneOf(t, k) == UndoneOf(s, k) && t.path.stats.parsed == Inc(s.path.stats.parsed)
      && var b, c := s.path.states[k], t.path.states[k];
         if hit then
           && c.matchedPackets == Inc(b.matchedPackets) && c.matchedBytes == SaturatingAdd(b.matchedBytes, fr.len)
           && c.droppedPackets == (if drop then Inc(b.droppedPackets) else b.droppedPackets)
           && c.droppedBytes == (if drop then SaturatingAdd(b.droppedBytes, fr.len) else b.droppedBytes)
           && PassedOf(t, k) == (if drop then PassedOf(s, k) else (PassedOf(s, k).0 + 1, PassedOf(s, k).1 + fr.len))
         else c == b && PassedOf(t, k) == PassedOf(s, k)
  {
    hide Handled, Target;
    HandledAt(s.path, fr, f, k);
  }

  lemma ReceivedPending(s: System, fr: Frame, f: ParsedFlow)
    ensures var t := Received(s, fr, Flow(f)); var target := Target(s.path, f, fr.direction);
      && t.undoneDrops == s.undoneDrops && t.undoneDropBytes == s.undoneDropBytes && t.undonePassed == s.undonePassed
      && (s.pending.None? ==> t.pending.None?)
      && (s.pending.Some? ==> t.pending == Some(s.pending.value.(enforced :=
            s.pending.value.enforced + if target == Some(s.pending.value.key) then 1 else 0)))
  {
    hide Evaluated, ChooseRule;
  }

  lemma ReceivedKeys(s: System, fr: Frame, f: ParsedFlow)
    ensures Received(s, fr, Flow(f)).path.states.Keys == s.path.states.Keys
  {
    hide Evaluated, ChooseRule;
    EvaluatedTotals(SeenAndParsed(s.path), f, fr);
  }

  lemma ReceiveFlowMatches(s: System, fr: Frame, f: ParsedFlow)
    requires MatchesConserved(s) && s.path.stats.parsed + 1 < U64_MAX
    ensures MatchesConserved(Received(s, fr, Flow(f)))
  {
    hide Received, Handled;
    var t := Received(s, fr, Flow(f));
    ReceivedKeys(s, fr, f);
    forall k | k in t.path.states
      ensures MatchConserved(t, k)
    {
      assert k in s.path.states && MatchConserved(s, k);
      ReceivedAt(s, fr, f, k);
    }
  }

  lemma ReceiveFlowRead(s: System, fr: Frame, f: ParsedFlow)
    requires ReadConserved(s) && MatchesConserved(s) && s.path.stats.parsed + 1 < U64_MAX
    ensures ReadConserved(Received(s, fr, Flow(f)))
  {
    hide Received, Handled;
    ReceivedKeys(s, fr, f);
    ReceivedPending(s, fr, f);
    if s.pending.Some? && s.pending.value.key in s.path.states {
      assert MatchConserved(s, s.pending.value.key);
      ReceivedAt(s, fr, f, s.pending.value.key);
    }
  }

  lemma ReceiveFlowFits(s: System, fr: Frame, f: ParsedFlow)
    requires ReadFits(s)
    ensures ReadFits(Received(s, fr, Flow(f)))
  {
    hide Received, Handled;
    ReceivedKeys(s, fr, f);
    ReceivedPending(s, fr, f);
    if s.pending.Some? && s.pending.value.key in s.path.states {
      ReceivedAt(s, fr, f, s.pending.value.key);
    }
  }

  lemma ReceiveFlowBytes(s: System, fr: Frame, f: ParsedFlow)
    requires ReadFits(s) && DropBytesConserved(s) && Received(s, fr, Flow(f)).path.stats.policyDroppedBytes < U64_MAX
    ensures DropBytesConserved(Received(s, fr, Flow(f)))
  {
    hide Evaluated;
    var p := SeenAndParsed(s.path);
    EvaluatedTotals(p, f, fr);
    NoNegativeTotals(s);
    if Target(p, f, fr.direction).Some? {
      StateBelowTotals(s, Target(p, f, fr.direction).value);
    }
  }

  lemma ReceiveConserves(s: System, fr: Frame)
    requires Conserved(s)
    ensures Conserved(Next(s, Receive(fr)))
  {
    hide PacketsConserved, MatchesConserved, DropBytesConserved, ReadFits, ReadConserved, Evaluated, Updated, Parse;
    var t := Next(s, Receive(fr));
    StatsOnlyGrow(s, Receive(fr));
    match Parse(fr.cursor)
    case Flow(f) =>
      ReceiveFlowSeen(s, fr, f);
      ReceiveFlowFits(s, fr, f);
      if t.path.stats.seen < U64_MAX {
        ReceiveFlowPackets(s, fr, f);
        ConservedBounds(s);
        ReceiveFlowMatches(s, fr, f);
        ReceiveFlowRead(s, fr, f);
      }
      if t.path.stats.policyDroppedBytes < U64_MAX {
        ReceiveFlowBytes(s, fr, f);
      }
    case result => OtherPacketConserves(s, fr, result);
  }

  lemma ReceiveFlowSeen(s: System, fr: Frame, f: ParsedFlow)
    ensures Received(s, fr, Flow(f)).path.stats.seen == Inc(s.path.stats.seen)
  {
    hide ChooseRule, Enforced;
  }

  lemma ConservedBounds(s: System)
    requires ReadFits(s) && PacketsConserved(s)
    ensures s.path.stats.parsed <= s.path.stats.seen
    ensures s.path.stats.mapUpdateFailures <= s.path.stats.seen && Total(s.path.flows, PacketsOf) <= s.path.stats.seen
  {
    NoNegativeTotals(s);
  }

  lemma OtherPacketConserves(s: System, fr: Frame, result: ParseResult)
    requires Conserved(s) && !result.Flow?
    ensures Conserved(Received(s, fr, result))
  {
    hide Total;
    NoNegativeTotals(s);
  }

  lemma WriteKeepsTotals(s: System, rate: u64, burst: u64)
    requires s.pending.Some? && ReadFits(s)
    ensures var t := Written(s, s.pending.value, rate, burst);
      && ReadFits(t) && t.path.stats == s.path.stats && t.path.flows == s.path.flows
      && Total(t.path.states, DroppedPacketsOf) + t.undoneDrops
        == Total(s.path.states, DroppedPacketsOf) + s.undoneDrops
      && Total(t.path.states, DroppedBytesOf) + t.undoneDropBytes
        == Total(s.path.states, DroppedBytesOf) + s.undoneDropBytes
  {
    var r := s.pending.value;
    var b := Upserted(r.existing, rate, burst);
    TotalUpdate(s.path.states, DroppedPacketsOf, r.key, b);
    TotalUpdate(s.path.states, DroppedBytesOf, r.key, b);
  }

  lemma WriteElsewhere(s: System, rate: u64, burst: u64, k: BucketKey)
    requires s.pending.Some? && k != s.pending.value.key && k in s.path.states
    ensures var t := Written(s, s.pending.value, rate, burst);
      && k in t.path.states && t.path.states[k] == s.path.states[k] && t.path.stats == s.path.stats
      && PassedOf(t, k) == PassedOf(s, k) && UndoneOf(t, k) == UndoneOf(s, k)
  {
  }

  /** The counters of the state that a write puts back. */
  lemma WriteAtKey(s: System, rate: u64, burst: u64)
    requires s.pending.Some? && ReadFits(s) && ReadConserved(s)
    requires var r := s.pending.value; r.key in s.path.states ==> MatchConserved(s, r.key)
    ensures MatchConserved(Written(s, s.pending.value, rate, burst), s.pending.value.key)
  {
  }

  lemma WrittenKeys(s: System, rate: u64, burst: u64)
    requires s.pending.Some?
    ensures Written(s, s.pending.value, rate, burst).path.states.Keys == s.path.states.Keys + {s.pending.value.key}
  {
  }

  lemma SameMatch(s: System, t: System, k: BucketKey)
    requires k in s.path.states && k in t.path.states && t.path.states[k] == s.path.states[k]
    requires t.path.stats == s.path.stats && PassedOf(t, k) == PassedOf(s, k) && UndoneOf(t, k) == UndoneOf(s, k)
    ensures MatchConserved(s, k) ==> MatchConserved(t, k)
  {
  }

  lemma WriteKeepsMatches(s: System, rate: u64, burst: u64)
    requires s.pending.Some? && ReadFits(s) && MatchesConserved(s) && ReadConserved(s) && s.path.stats.parsed >= 0
    ensures MatchesConserved(Written(s, s.pending.value, rate, burst))
  {
    var r := s.pending.value;
    var t := Written(s, r, rate, burst);
    hide Written, MatchConserved;
    forall k | k in t.path.states
      ensures MatchConserved(t, k)
    {
      if k == r.key {
        WriteAtKey(s, rate, burst);
      } else {
        WrittenKeys(s, rate, burst);
        assert MatchConserved(s, k);
        SameMatch(s, t, k) by { WriteElsewhere(s, rate, burst, k); }
      }
    }
  }

  lemma WriteConserves(s: System, rate: u64, burst: u64)
    requires Conserved(s) && s.pending.Some?
    ensures Conserved(Written(s, s.pending.value, rate, burst))
  {
    hide MatchesConserved;
    WriteKeepsTotals(s, rate, burst);
    if s.path.stats.seen < U64_MAX {
      WriteKeepsMatches(s, rate, burst);
    }
  }

  lemma SameStatesConserve(s: System, t: System)
    requires Conserved(s) && t.path.states == s.path.states && t.path.stats == s.path.stats
    requires t == s.(path := t.path, evictedPackets := t.evictedPackets)
    requires Total(t.path.flows, PacketsOf) + t.evictedPackets == Total(s.path.flows, PacketsOf) + s.evictedPackets
    ensures Conserved(t)
  {
    hide Total;
    forall k | k in s.path.states && MatchConserved(s, k)
      ensures MatchConserved(t, k)
    {
    }
  }

  lemma ReadStateConserves(s: System, key: BucketKey)
    requires Conserved(s)
    ensures Conserved(Next(s, ReadState(key)))
  {
    hide Total;
    var t := Next(s, ReadState(key));
    forall k | k in s.path.states && MatchConserved(s, k)
      ensures MatchConserved(t, k)
    {
    }
    if s.path.stats.seen < U64_MAX && key in s.path.states {
      assert MatchConserved(s, key);
    }
  }

  lemma RemoveStateConserves(s: System, key: BucketKey)
    requires Conserved(s)
    ensures Conserved(Next(s, RemoveState(key)))
  {
    var t := Next(s, RemoveState(key));
    if t != s {
      TotalRemove(s.path.states, DroppedPacketsOf, key);
      TotalRemove(s.path.states, DroppedBytesOf, key);
      if s.path.stats.seen < U64_MAX {
        forall k | k in t.path.states
          ensures MatchConserved(t, k)
        {
          assert MatchConserved(s, k);
        }
      }
    }
  }

  lemma OtherEventConserves(s: System, e: Event)
    requires Conserved(s) && !e.Receive? && !e.WriteState?
    ensures Conserved(Next(s, e))
  {
    hide Conserved;
    match e
    case ReadState(key) => ReadStateConserves(s, key);
    case RemoveState(key) => RemoveStateConserves(s, key);
    case EvictFlow(key) =>
      if key in s.path.flows {
        TotalRemove(s.path.flows, PacketsOf, key);
      }
      SameStatesConserve(s, Next(s, e));
    case Configure(_) => SameStatesConserve(s, Next(s, e));
  }

  /**
   * Packet conservation over whole runs, short of saturated counters: whatever
   * the packets, the reconfigurations and the evictions, and wherever packets
   * fall between the two steps of an upsert. What the maps lack is what the
   * writes undid.
   */
  lemma {:induction false} RunConserves(t: Tables, events: seq<Event>)
    ensures Conserved(RunAll(Start(t), events))
  {
    hide Next, Conserved;
    if events == [] {
      StartConserved(t);
    } else {
      RunConserves(t, events[..|events| - 1]);
      NextConserves(RunAll(Start(t), events[..|events| - 1]), events[|events| - 1]);
    }
  }

  lemma StartConserved(t: Tables)
    ensures Conserved(Start(t))
  {
  }

  lemma NextConserves(s: System, e: Event)
    requires Conserved(s)
    ensures Conserved(Next(s, e))
  {
    hide Conserved;
    match e
    case Receive(fr) => ReceiveConserves(s, fr);
    case WriteState(rate, burst, written) =>
      if s.pending.Some? {
        WriteConserves(s, rate, burst);
        WriteFails(s);
      }
    case _ => OtherEventConserves(s, e);
  }

  lemma WriteFails(s: System)
    requires Conserved(s)
    ensures Conserved(s.(pending := None))
  {
    forall k | k in s.path.states && MatchConserved(s, k)
      ensures MatchConserved(s.(pending := None), k)
    {
    }
  }

  // ------------------------------------------------- when the maps alone account

  /** The maps account for every drop and every match by themselves. */
  ghost predicate Accounted(s: System) {
    && s.path.stats.policyDroppedPackets == Total(s.path.states, DroppedPacketsOf) + s.removedDrops
    && (s.path.stats.policyDroppedBytes < U64_MAX ==>
          s.path.stats.policyDroppedBytes == Total(s.path.states, DroppedBytesOf) + s.removedDropBytes)
    && forall k :: k in s.path.states ==>
         var b := s.path.states[k];
         && b.matchedPackets == PassedOf(s, k).0 + b.droppedPackets
         && (b.matchedBytes < U64_MAX ==> b.matchedBytes == PassedOf(s, k).1 + b.droppedBytes)
  }

  /** The event writes a state on which packets were enforced since it was read. */
  predicate Stale(s: System, e: Event) {
    e.WriteState? && e.written && s.pending.Some? && s.pending.value.enforced > 0
  }

  /** No upsert of the run had a packet enforced on its key between the read and the write. */
  ghost predicate Quiet(t: Tables, events: seq<Event>) {
    forall n :: 0 <= n < |events| ==> !Stale(RunAll(Start(t), events[..n]), events[n])
  }

  ghost predicate NothingUndone(s: System) {
    && s.undoneDrops == 0 && s.undoneDropBytes == 0 && forall k :: UndoneOf(s, k) == (0, 0)
  }

  /** A read that no packet followed still holds the live state. */
  ghost predicate ReadIsLive(s: System) {
    s.pending.Some? && s.pending.value.enforced == 0 && s.pending.value.existing.Some? ==>
      var r := s.pending.value;
      r.key in s.path.states && s.path.states[r.key] == r.existing.value && PassedOf(s, r.key) == r.passed
  }

  lemma ReceiveKeepsLive(s: System, fr: Frame, f: ParsedFlow)
    requires ReadIsLive(s)
    ensures ReadIsLive(Received(s, fr, Flow(f)))
  {
    hide Received, Handled;
    ReceivedKeys(s, fr, f);
    ReceivedPending(s, fr, f);
    if s.pending.Some? && s.pending.value.key in s.path.states {
      ReceivedAt(s, fr, f, s.pending.value.key);
    }
  }

  lemma NextKeepsLive(s: System, e: Event)
    requires ReadIsLive(s)
    ensures ReadIsLive(Next(s, e))
  {
    hide Parse, Evaluated;
    if e.Receive? && Parse(e.frame.cursor).Flow? {
      ReceiveKeepsLive(s, e.frame, Parse(e.frame.cursor).flow);
    }
  }

  lemma {:induction false} ReadsAreLive(t: Tables, events: seq<Event>)
    ensures ReadIsLive(RunAll(Start(t), events))
  {
    hide Next, ReadIsLive;
    if events == [] {
      assert ReadIsLive(Start(t)) by { StartIsLive(t); }
    } else {
      ReadsAreLive(t, events[..|events| - 1]);
      NextKeepsLive(RunAll(Start(t), events[..|events| - 1]), events[|events| - 1]);
    }
  }

  lemma StartIsLive(t: Tables)
    ensures ReadIsLive(Start(t)) && NothingUndone(Start(t))
  {
  }

  lemma QuietStep(s: System, e: Event)
    requires ReadIsLive(s) && NothingUndone(s) && !Stale(s, e)
    ensures NothingUndone(Next(s, e))
  {
    hide Parse, Handled;
    var t := Next(s, e);
    if e.WriteState? && s.pending.Some? && e.written {
      forall k
        ensures UndoneOf(t, k) == (0, 0)
      {
        assert UndoneOf(s, k) == (0, 0);
      }
    } else {
      forall k
        ensures UndoneOf(t, k) == UndoneOf(s, k)
      {
      }
    }
  }

  lemma {:induction false} QuietUndoesNothing(t: Tables, events: seq<Event>)
    requires Quiet(t, events)
    ensures NothingUndone(RunAll(Start(t), events))
  {
    hide Next, NothingUndone, Stale;
    if events == [] {
      StartIsLive(t);
    } else {
      var less, e := events[..|events| - 1], events[|events| - 1];
      QuietPrefix(t, events);
      QuietUndoesNothing(t, less);
      ReadsAreLive(t, less);
      QuietStep(RunAll(Start(t), less), e);
    }
  }

  lemma QuietPrefix(t: Tables, events: seq<Event>)
    requires events != []
    ensures var less := events[..|events| - 1];
      Quiet(t, events) <==> Quiet(t, less) && !Stale(RunAll(Start(t), less), events[|events| - 1])
  {
    hide Stale, RunAll;
    var less := events[..|events| - 1];
    forall n | 0 <= n < |less|
      ensures less[..n] == events[..n] && less[n] == events[n]
    {
    }
    if Quiet(t, less) && !Stale(RunAll(Start(t), less), events[|events| - 1]) {
      forall n | 0 <= n < |events|
        ensures !Stale(RunAll(Start(t), events[..n]), events[n])
      {
        if n < |less| {
          assert !Stale(RunAll(Start(t), less[..n]), less[n]);
        }
      }
    }
  }

  lemma UndoneNothingIsAccounted(s: System)
    requires Conserved(s) && NothingUndone(s) && s.path.stats.seen < U64_MAX
    ensures Accounted(s)
  {
  }

  /** A stale write from an accounted state undoes a drop or a pass. */
  lemma StaleWriteLoses(s: System, e: Event)
    requires Conserved(s) && NothingUndone(s) && s.path.stats.seen < U64_MAX && Stale(s, e)
    requires s.pending.value.existing.Some?
    ensures !Accounted(Next(s, e))
  {
    var r := s.pending.value;
    var t := Next(s, e);
    WriteConserves(s, e.rate, e.burst);
    assert t.undoneDrops + UndoneOf(t, r.key).0 == r.enforced;
    if t.undoneDrops == 0 {
      assert t.path.states[r.key].matchedPackets != PassedOf(t, r.key).0 + t.path.states[r.key].droppedPackets;
    }
  }

  /** A state that was not there when it was read had no packet enforced since. */
  ghost predicate EnforcedWasThere(s: System) {
    s.pending.Some? && s.pending.value.enforced > 0 ==> s.pending.value.existing.Some?
  }

  lemma {:induction false} OnlyLiveIsEnforced(t: Tables, events: seq<Event>)
    ensures EnforcedWasThere(RunAll(Start(t), events))
  {
    hide Conserved, Parse, Handled;
    if events != [] {
      var less := events[..|events| - 1];
      OnlyLiveIsEnforced(t, less);
      RunConserves(t, less);
      assert ReadFits(RunAll(Start(t), less)) by { ConservedFits(RunAll(Start(t), less)); }
    }
  }

  lemma ConservedFits(s: System)
    requires Conserved(s)
    ensures ReadFits(s)
  {
  }

  lemma {:induction false} SeenOnlyGrows(t: Tables, events: seq<Event>, n: nat)
    requires n <= |events|
    ensures RunAll(Start(t), events[..n]).path.stats.seen <= RunAll(Start(t), events).path.stats.seen
    decreases |events|
  {
    hide Next;
    if n == |events| {
      assert events[..n] == events;
    } else {
      var less := events[..|events| - 1];
      SeenOnlyGrows(t, less, n);
      assert less[..n] == events[..n];
      StatsOnlyGrow(RunAll(Start(t), less), events[|events| - 1]);
    }
  }

  /** The maps account for every packet after each event of the run. */
  ghost predicate AlwaysAccounted(t: Tables, events: seq<Event>) {
    forall n :: 0 <= n <= |events| ==> Accounted(RunAll(Start(t), events[..n]))
  }

  /**
   * The maps alone account for every packet throughout a run exactly when no
   * upsert has a packet enforced on its key between its read and its write.
   */
  lemma {:induction false} AccountedIffQuiet(t: Tables, events: seq<Event>)
    requires RunAll(Start(t), events).path.stats.seen < U64_MAX
    ensures AlwaysAccounted(t, events) <==> Quiet(t, events)
  {
    hide Next, Accounted, Conserved, NothingUndone, Stale;
    var s := RunAll(Start(t), events);
    RunConserves(t, events);
    if events == [] {
      QuietUndoesNothing(t, events);
      UndoneNothingIsAccounted(s);
      assert events[..0] == events;
    } else {
      var less, e := events[..|events| - 1], events[|events| - 1];
      var before := RunAll(Start(t), less);
      SeenOnlyGrows(t, events, |less|);
      AccountedIffQuiet(t, less);
      QuietPrefix(t, events);
      AccountedPrefix(t, events);
      if Quiet(t, less) {
        QuietUndoesNothing(t, less);
        if Stale(before, e) {
          RunConserves(t, less);
          OnlyLiveIsEnforced(t, less);
          StaleIsPending(before, e);
          StaleWriteLoses(before, e);
        } else {
          QuietUndoesNothing(t, events);
          UndoneNothingIsAccounted(s);
        }
      }
    }
  }

  lemma StaleIsPending(s: System, e: Event)
    requires Stale(s, e) && EnforcedWasThere(s)
    ensures s.pending.Some? && s.pending.value.existing.Some?
  {
  }

  lemma AccountedPrefix(t: Tables, events: seq<Event>)
    requires events != []
    ensures AlwaysAccounted(t, events) <==>
      AlwaysAccounted(t, events[..|events| - 1]) && Accounted(RunAll(Start(t), events))
  {
    hide Accounted, RunAll;
    var less := events[..|events| - 1];
    assert events[..|events|] == events;
    assert forall n :: 0 <= n <= |less| ==> less[..n] == events[..n];
    if AlwaysAccounted(t, less) && Accounted(RunAll(Start(t), events)) {
      forall n | 0 <= n <= |events|
        ensures Accounted(RunAll(Start(t), events[..n]))
      {
        if n <= |less| {
          assert Accounted(RunAll(Start(t), less[..n]));
        }
      }
    }
  }

  /**
   * A rule state is created and read for its next upsert, a packet is blocked
   * on it, and the write takes its drop back: the kernel counts one dropped
   * packet and no rule does.
   */
  lemma StaleWriteRun(t: Tables, fr: Frame, f: ParsedFlow, rate: u64, burst: u64)
    requires Parse(fr.cursor) == Flow(f)
    requires ChooseRule(t, f, fr.direction).Some? && ChooseRule(t, f, fr.direction).value.action == Block
    ensures var key := BucketKey(ChooseRule(t, f, fr.direction).value.rule, fr.direction);
      var write := WriteState(rate, burst, true);
      var s := RunAll(Start(t), [ReadState(key), write, ReadState(key), Receive(fr), write]);
      && s.path.stats.policyDroppedPackets == 1 && s.removedDrops == 0
      && s.path.states == map[key := Upserted(None, rate, burst)] && s.path.states[key].droppedPackets == 0
      && !Accounted(s)
  {
    hide Parse, ChooseRule, Credit, Elapsed, RunAll, Next;
    var key := BucketKey(ChooseRule(t, f, fr.direction).value.rule, fr.direction);
    var write, s := WriteState(rate, burst, true), Start(t);
    var blank := Upserted(None, rate, burst);
    RunNone(s);
    RunOne(s, [], ReadState(key));
    assert [] + [ReadState(key)] == [ReadState(key)];
    assert [ReadState(key)] + [write] == [ReadState(key), write];
    assert [ReadState(key), write] + [ReadState(key)] == [ReadState(key), write, ReadState(key)];
    assert [ReadState(key), write, ReadState(key)] + [Receive(fr)]
      == [ReadState(key), write, ReadState(key), Receive(fr)];
    assert [ReadState(key), write, ReadState(key), Receive(fr)] + [write]
        == [ReadState(key), write, ReadState(key), Receive(fr), write];
    var a := Next(s, ReadState(key));
    RunOne(s, [ReadState(key)], write);
    var b := Next(a, write);
    RunOne(s, [ReadState(key), write], ReadState(key));
    var c := Next(b, ReadState(key));
    RunOne(s, [ReadState(key), write, ReadState(key)], Receive(fr));
    RunOne(s, [ReadState(key), write, ReadState(key), Receive(fr)], write);
    assert c.path == s.path.(states := map[key := blank]) && c.pending == Some(Read(key, Some(blank), (0, 0), 0))
           && c.removedDrops == 0 by { CreatedAndRead(s, key, rate, burst); }
    BlockedThenWritten(c, key, fr, f, rate, burst);
    TotalUpdate(map[], DroppedPacketsOf, key, blank);
    assert map[][key := blank] == map[key := blank];
  }

  lemma RunOne(s: System, events: seq<Event>, e: Event)
    ensures RunAll(s, events + [e]) == Next(RunAll(s, events), e)
  {
    assert (events + [e])[..|events|] == events;
  }

  lemma RunNone(s: System)
    ensures RunAll(s, []) == s
  {
  }

  lemma CreatedAndRead(s: System, key: BucketKey, rate: u64, burst: u64)
    requires s.pending.None? && s.path.states == map[]
    ensures var b := Next(Next(s, ReadState(key)), WriteState(rate, burst, true));
      Next(b, ReadState(key)) == b.(pending := Some(Read(key, Some(Upserted(None, rate, burst)), (0, 0), 0)))
      && b.path == s.path.(states := map[key := Upserted(None, rate, burst)]) && b.removedDrops == s.removedDrops
  {
  }

  lemma BlockedThenWritten(s: System, key: BucketKey, fr: Frame, f: ParsedFlow, rate: u64, burst: u64)
    requires Parse(fr.cursor) == Flow(f)
    requires ChooseRule(s.path.tables, f, fr.direction).Some?
    requires var rule := ChooseRule(s.path.tables, f, fr.direction).value;
      rule.action == Block && key == BucketKey(rule.rule, fr.direction)
    requires var blank := Upserted(None, rate, burst);
      s.path.states == map[key := blank] && s.pending == Some(Read(key, Some(blank), (0, 0), 0))
    ensures var t := Next(Next(s, Receive(fr)), WriteState(rate, burst, true));
      && t.path.stats.policyDroppedPackets == Inc(s.path.stats.policyDroppedPackets) && t.removedDrops == s.removedDrops
      && t.path.states == map[key := Upserted(None, rate, burst)]
  {
    hide Parse, ChooseRule, Credit, Elapsed;
  }

  /**
   * Fail-open: a packet is dropped only by an enabled, matched rule with live state
   * that blocks or has no tokens left.
   */
  lemma DropNeedsLiveRule(p: Path, fr: Frame)
    ensures Processed(p, fr).1 == Shot <==>
      && Parse(fr.cursor).Flow?
      && Target(p, Parse(fr.cursor).flow, fr.direction).Some?
      && var rule := ChooseRule(p.tables, Parse(fr.cursor).flow, fr.direction).value;
         rule.action == Block
         || Refilled(p.states[BucketKey(rule.rule, fr.direction)], fr.enforced).tokens < fr.len
    ensures Processed(p, fr).1 == Shot ==> p.tables.config.enabled
  {
    hide Parse, Credit, Elapsed, AppRule, EndpointRule;
  }
}
