/**
 * The live tick protocol: a Flow travels as a full record when its descriptive
 * signature is new to the stream, and as a counter patch otherwise.
 */
module LiveTicks {
  import opened Common

  // ----------------------------------------------------------------- records

  datatype EndReason = IdleTimeout | TcpFin | TcpReset | EvictedOrUnknown
  datatype FlowState = Active | Ended(reason: Option<EndReason>)
  datatype Kind = Container | Process
  datatype Attribution = Application(id: string, kind: Kind) | LanBroadcast | Unknown
  datatype DomainRef = DomainRef(domain: string, evidence: Evidence, confidence: Confidence)

  /** The descriptive fields that enter the signature. */
  datatype Details = Details(state: FlowState, attribution: Attribution, domains: seq<DomainRef>)

  /** The fields a patch carries. */
  datatype Counters = Counters(packets: u64, bytes: u64, lastSeen: int, inboundBps: u64, outboundBps: u64)

  type Id = u64

  /** `rest` stands for the fields in neither: interface, remote profile, application name, first seen, duration. */
  datatype Flow = Flow(id: Id, details: Details, counters: Counters, rest: string) {
    predicate Closed() {
      details.state.Ended?
    }
  }

  // --------------------------------------------------------------- signature

  function ReasonText(r: EndReason): string {
    match r
    case IdleTimeout => "IdleTimeout"
    case TcpFin => "TcpFin"
    case TcpReset => "TcpReset"
    case EvictedOrUnknown => "EvictedOrUnknown"
  }

  function StateText(s: FlowState): string {
    match s
    case Active => "active"
    case Ended(None) => "ended"
    case Ended(Some(r)) => "ended" + "|" + ReasonText(r)
  }

  function KindText(k: Kind): string {
    if k == Container then "container" else "process"
  }

  function AttributionText(a: Attribution): string {
    match a
    case Application(id, kind) => "|" + id + ":" + KindText(kind)
    case LanBroadcast => "|unattributed"
    case Unknown => ""
  }

  function EvidenceText(e: Evidence): string {
    match e
    case Dns => "Dns"
    case TlsSni => "TlsSni"
    case HttpHost => "HttpHost"
  }

  function ConfidenceText(c: Confidence): string {
    if c == Direct then "Direct" else "Inferred"
  }

  function Tag(d: DomainRef): string {
    ":" + EvidenceText(d.evidence) + ":" + ConfidenceText(d.confidence)
  }

  function DomainText(d: DomainRef): string {
    d.domain + Tag(d)
  }

  function DomainsText(ds: seq<DomainRef>): string {
    if ds == [] then "" else DomainsText(ds[..|ds| - 1]) + "|" + DomainText(ds[|ds| - 1])
  }

  function Head(d: Details): string {
    StateText(d.state) + AttributionText(d.attribution)
  }

  function Signature(d: Details): string {
    Head(d) + DomainsText(d.domains)
  }

  // ------------------------------------------------------------------ server

  /** A Flow touched by one interval; `moved` when its counters changed. */
  datatype Update = Update(flow: Flow, moved: bool)

  datatype Prepared = Prepared(known: map<Id, string>, flows: seq<Flow>, patched: set<Id>)

  function Prepare1(p: Prepared, u: Update): Prepared {
    var f := u.flow;
    if !u.moved && !f.Closed() then p.(known := p.known - {f.id})
    else if f.Closed() then p.(known := p.known - {f.id}, flows := p.flows + [f])
    else
      var signature := Signature(f.details);
      var changed := f.id !in p.known || p.known[f.id] != signature;
      Prepared(p.known[f.id := signature], p.flows + [f], if changed then p.patched else p.patched + {f.id})
  }

  function PrepareAll(known: map<Id, string>, us: seq<Update>): Prepared {
    if us == [] then Prepared(known, [], {}) else Prepare1(PrepareAll(known, us[..|us| - 1]), us[|us| - 1])
  }

  function Capped(known: map<Id, string>, capacity: nat): map<Id, string> {
    if |known| > capacity then map[] else known
  }

  /** The touched Flows are deduplicated by id. */
  ghost predicate Distinct(us: seq<Update>) {
    forall i, j :: 0 <= i < j < |us| ==> us[i].flow.id != us[j].flow.id
  }

  class TickWriter {
    var tickDetails: map<Id, string>
    var flowCapacity: nat

    constructor (capacity: nat)
      ensures tickDetails == map[] && flowCapacity == capacity
    {
      tickDetails := map[];
      flowCapacity := capacity;
    }

    method PrepareTick(updated: seq<Update>) returns (flows: seq<Flow>, patched: set<Id>)
      modifies this`tickDetails
      ensures var p := PrepareAll(old(tickDetails), updated);
        flows == p.flows && patched == p.patched && tickDetails == Capped(p.known, flowCapacity)
      ensures |tickDetails| <= flowCapacity
    {
      hide Signature;
      flows, patched := [], {};
      for i := 0 to |updated|
        invariant Prepared(tickDetails, flows, patched) == PrepareAll(old(tickDetails), updated[..i])
      {
        assert updated[..i + 1][..i] == updated[..i];
        var u := updated[i];
        var flow := u.flow;
        if !u.moved && !flow.Closed() {
          tickDetails := tickDetails - {flow.id};
          continue;
        }
        if flow.Closed() {
          tickDetails := tickDetails - {flow.id};
          flows := flows + [flow];
          continue;
        }
        var signature := Signature(flow.details);
        var changed := flow.id !in tickDetails || tickDetails[flow.id] != signature;
        tickDetails := tickDetails[flow.id := signature];
        if !changed {
          patched := patched + {flow.id};
        }
        flows := flows + [flow];
      }
      assert updated[..|updated|] == updated;
      if |tickDetails| > flowCapacity {
        tickDetails := map[];
      }
    }

    method ClearHistory()
      modifies this`tickDetails
      ensures tickDetails == map[]
    {
      tickDetails := map[];
    }
  }

  // -------------------------------------------------------------------- tick

  datatype Patch = Patch(id: Id, counters: Counters)
  datatype Tick = Tick(flows: seq<Flow>, flowUpdates: seq<Patch>)

  const SILENT := Tick([], [])

  function TickFor(flows: seq<Flow>, patched: set<Id>, matches: Flow -> bool): Tick {
    if flows == [] then SILENT
    else
      var before, f := TickFor(flows[..|flows| - 1], patched, matches), flows[|flows| - 1];
      if !matches(f) then before
      else if f.id in patched then before.(flowUpdates := before.flowUpdates + [Patch(f.id, f.counters)])
      else before.(flows := before.flows + [f])
  }

  method ProjectTick(flows: seq<Flow>, patched: set<Id>, matches: Flow -> bool) returns (t: Tick)
    ensures t == TickFor(flows, patched, matches)
  {
    var full, updates := [], [];
    for i := 0 to |flows|
      invariant Tick(full, updates) == TickFor(flows[..i], patched, matches)
    {
      assert flows[..i + 1][..i] == flows[..i];
      var flow := flows[i];
      if matches(flow) {
        if flow.id in patched {
          updates := updates + [Patch(flow.id, flow.counters)];
        } else {
          full := full + [flow];
        }
      }
    }
    assert flows[..|flows|] == flows;
    t := Tick(full, updates);
  }

  /** Under any filter, no id rides a tick both in full and as a patch. */
  lemma {:induction false} NeverBoth(flows: seq<Flow>, patched: set<Id>, matches: Flow -> bool)
    ensures var t := TickFor(flows, patched, matches);
      && (forall f :: f in t.flows ==> f in flows && f.id !in patched && matches(f))
      && (forall p :: p in t.flowUpdates ==>
        p.id in patched && exists f :: f in flows && matches(f) && p == Patch(f.id, f.counters))
      && (forall f, p :: f in t.flows && p in t.flowUpdates ==> f.id != p.id)
  {
    if flows != [] {
      NeverBoth(flows[..|flows| - 1], patched, matches);
      var t := TickFor(flows[..|flows| - 1], patched, matches);
      assert forall p :: p in t.flowUpdates ==> exists f :: f in flows && matches(f) && p == Patch(f.id, f.counters);
      assert flows[|flows| - 1] in flows;
    }
  }

  /** The Flow at `i` rides a tick in full, or as its patch. */
  predicate FullAt(flows: seq<Flow>, patched: set<Id>, matches: Flow -> bool, i: nat) {
    i < |flows| && matches(flows[i]) && flows[i].id !in patched
  }

  predicate PatchAt(flows: seq<Flow>, patched: set<Id>, matches: Flow -> bool, i: nat) {
    i < |flows| && matches(flows[i]) && flows[i].id in patched
  }

  ghost predicate Ascending(places: seq<nat>) {
    forall i, j :: 0 <= i < j < |places| ==> places[i] < places[j]
  }

  /**
   * Under any filter a tick holds exactly the matching Flows: the unpatched ones
   * in full and the patches of the others, both in their order.
   */
  lemma {:induction false} TickSelects(flows: seq<Flow>, patched: set<Id>, matches: Flow -> bool)
      returns (full: seq<nat>, updates: seq<nat>)
    ensures Ascending(full) && Ascending(updates)
    ensures forall i: nat :: i in full <==> FullAt(flows, patched, matches, i)
    ensures forall i: nat :: i in updates <==> PatchAt(flows, patched, matches, i)
    ensures var t := TickFor(flows, patched, matches);
      && |t.flows| == |full| && (forall k :: 0 <= k < |full| ==> full[k] < |flows| && t.flows[k] == flows[full[k]])
      && |t.flowUpdates| == |updates|
      && forall k :: 0 <= k < |updates| ==>
           updates[k] < |flows| && t.flowUpdates[k] == Patch(flows[updates[k]].id, flows[updates[k]].counters)
  {
    if flows == [] {
      full, updates := [], [];
    } else {
      var n := |flows| - 1;
      full, updates := TickSelects(flows[..n], patched, matches);
      SelectsLater(flows, patched, matches);
      if FullAt(flows, patched, matches, n) {
        AscendingMore(full, n);
        full := full + [n];
      } else if PatchAt(flows, patched, matches, n) {
        AscendingMore(updates, n);
        updates := updates + [n];
      }
    }
  }

  lemma SelectsLater(flows: seq<Flow>, patched: set<Id>, matches: Flow -> bool)
    requires flows != []
    ensures var n := |flows| - 1;
      && (forall i: nat :: FullAt(flows, patched, matches, i) <==>
            FullAt(flows[..n], patched, matches, i) || (i == n && FullAt(flows, patched, matches, n)))
      && (forall i: nat :: PatchAt(flows, patched, matches, i) <==>
            PatchAt(flows[..n], patched, matches, i) || (i == n && PatchAt(flows, patched, matches, n)))
      && (forall i: nat ::
            FullAt(flows[..n], patched, matches, i) || PatchAt(flows[..n], patched, matches, i) ==> i < n)
  {
  }

  lemma AscendingMore(places: seq<nat>, n: nat)
    requires Ascending(places) && forall i :: i in places ==> i < n
    ensures Ascending(places + [n]) && forall i :: i in places + [n] <==> i in places || i == n
  {
    forall i, j | 0 <= i < j < |places + [n]|
      ensures (places + [n])[i] < (places + [n])[j]
    {
      if j == |places| {
        assert places[i] in places;
      }
    }
  }

  function Everything(f: Flow): bool {
    true
  }

  // ------------------------------------------------------------------ client

  type Known = map<Id, Flow>

  function Replaced(c: Known, fs: seq<Flow>): Known {
    if fs == [] then c else Replaced(c, fs[..|fs| - 1])[fs[|fs| - 1].id := fs[|fs| - 1]]
  }

  function Overlaid(c: Known, ps: seq<Patch>): Known {
    if ps == [] then c
    else
      var before, p := Overlaid(c, ps[..|ps| - 1]), ps[|ps| - 1];
      if p.id in before then before[p.id := before[p.id].(counters := p.counters)] else before
  }

  /** A client replaces full records and overlays patches on records it knows. */
  function Applied(c: Known, t: Tick): Known {
    Overlaid(Replaced(c, t.flows), t.flowUpdates)
  }

  // -------------------------------------------------------------------- runs

  /** `HistoryCleared` also stands for saving the settings, which forgets the signatures too. */
  datatype Event = Ingested(updated: seq<Update>, capacity: nat) | IngestFailed | HistoryCleared

  ghost predicate ValidEvents(es: seq<Event>) {
    forall e :: e in es && e.Ingested? ==> Distinct(e.updated)
  }

  function KnownAfter(known: map<Id, string>, e: Event): map<Id, string> {
    match e
    case Ingested(updated, capacity) => Capped(PrepareAll(known, updated).known, capacity)
    case IngestFailed => known
    case HistoryCleared => map[]
  }

  function TickAfter(known: map<Id, string>, e: Event): Tick {
    match e
    case Ingested(updated, capacity) =>
      var p := PrepareAll(known, updated);
      TickFor(p.flows, p.patched, Everything)
    case _ => SILENT
  }

  /** The signatures the server holds before event `n`. */
  function ServerAt(es: seq<Event>, n: nat): map<Id, string>
    requires n <= |es|
  {
    if n == 0 then map[] else KnownAfter(ServerAt(es, n - 1), es[n - 1])
  }

  function TickAt(es: seq<Event>, n: nat): Tick
    requires n < |es|
  {
    TickAfter(ServerAt(es, n), es[n])
  }

  /** What a client that knew `c` at process start and saw every tick knows before event `n`. */
  function ClientAt(c: Known, es: seq<Event>, n: nat): Known
    requires n <= |es|
  {
    if n == 0 then c else Applied(ClientAt(c, es, n - 1), TickAt(es, n - 1))
  }

  // ------------------------------------------------------ one interval, Flow by Flow

  /** What preparing an interval does to each Flow. */
  ghost predicate Effect(known: map<Id, string>, us: seq<Update>, p: Prepared) {
    && (forall f :: f in p.flows <==> exists i :: 0 <= i < |us| && us[i].flow == f && (us[i].moved || f.Closed()))
    && (forall i :: 0 <= i < |us| ==> FlowEffect(known, us[i], p))
    && Untouched(known, us, p)
  }

  /** Nothing happens to other ids. */
  ghost predicate Untouched(known: map<Id, string>, us: seq<Update>, p: Prepared) {
    forall id :: (forall i :: 0 <= i < |us| ==> us[i].flow.id != id) ==>
      id !in p.patched && (id in p.known <==> id in known) && (id in known ==> p.known[id] == known[id])
  }

  ghost predicate FlowEffect(known: map<Id, string>, u: Update, p: Prepared) {
    var id, signature := u.flow.id, Signature(u.flow.details);
    if u.moved && !u.flow.Closed() then
      && id in p.known && p.known[id] == signature
      && (id in p.patched <==> id in known && known[id] == signature)
    else id !in p.known && id !in p.patched
  }

  lemma {:induction false} PreparedEffect(known: map<Id, string>, us: seq<Update>)
    requires Distinct(us)
    ensures Effect(known, us, PrepareAll(known, us))
  {
    hide Signature, Effect, FlowEffect, Prepare1;
    if us == [] {
      NoEffect(known);
    } else {
      var less := us[..|us| - 1];
      PreparedEffect(known, less);
      var p := PrepareAll(known, less);
      EffectFlows(known, us, p, Prepare1(p, us[|us| - 1]));
      EffectEach(known, us, p, Prepare1(p, us[|us| - 1]));
      EffectElsewhere(known, us, p, Prepare1(p, us[|us| - 1]));
      EffectParts(known, us, Prepare1(p, us[|us| - 1]));
    }
  }

  lemma NoEffect(known: map<Id, string>)
    ensures Effect(known, [], Prepared(known, [], {}))
  {
  }

  lemma EffectParts(known: map<Id, string>, us: seq<Update>, z: Prepared)
    requires forall f :: f in z.flows <==> exists i :: 0 <= i < |us| && us[i].flow == f && (us[i].moved || f.Closed())
    requires forall i :: 0 <= i < |us| ==> FlowEffect(known, us[i], z)
    requires Untouched(known, us, z)
    ensures Effect(known, us, z)
  {
    hide Signature, FlowEffect, Untouched;
  }

  lemma EffectEach(known: map<Id, string>, us: seq<Update>, p: Prepared, z: Prepared)
    requires us != [] && Distinct(us) && Effect(known, us[..|us| - 1], p) && z == Prepare1(p, us[|us| - 1])
    ensures forall i :: 0 <= i < |us| ==> FlowEffect(known, us[i], z)
  {
    hide Signature;
    var n := |us| - 1;
    var less := us[..n];
    forall i | 0 <= i < |us|
      ensures FlowEffect(known, us[i], z)
    {
      if i < n {
        assert less[i] == us[i];
        assert FlowEffect(known, less[i], p);
      } else {
        assert forall j :: 0 <= j < |less| ==> less[j] == us[j] && less[j].flow.id != us[n].flow.id;
      }
    }
  }

  lemma EffectElsewhere(known: map<Id, string>, us: seq<Update>, p: Prepared, z: Prepared)
    requires us != [] && Effect(known, us[..|us| - 1], p) && z == Prepare1(p, us[|us| - 1])
    ensures Untouched(known, us, z)
  {
    hide Signature, FlowEffect;
    var less := us[..|us| - 1];
    forall id | forall i :: 0 <= i < |us| ==> us[i].flow.id != id
      ensures id !in z.patched && (id in z.known <==> id in known) && (id in known ==> z.known[id] == known[id])
    {
      assert us[|us| - 1].flow.id != id;
      assert forall i :: 0 <= i < |less| ==> less[i] == us[i];
    }
  }

  lemma EffectFlows(known: map<Id, string>, us: seq<Update>, p: Prepared, z: Prepared)
    requires us != [] && Effect(known, us[..|us| - 1], p) && z == Prepare1(p, us[|us| - 1])
    ensures forall f :: f in z.flows <==> exists i :: 0 <= i < |us| && us[i].flow == f && (us[i].moved || f.Closed())
  {
    hide Signature, FlowEffect;
    var n := |us| - 1;
    var less := us[..n];
    forall f
      ensures f in z.flows <==> exists i :: 0 <= i < |us| && us[i].flow == f && (us[i].moved || f.Closed())
    {
      if f in z.flows && f in p.flows {
        var i :| 0 <= i < |less| && less[i].flow == f && (less[i].moved || f.Closed());
        assert us[i] == less[i];
      } else if f in z.flows {
        assert us[n].flow == f;
      }
      if exists i :: 0 <= i < |us| && us[i].flow == f && (us[i].moved || f.Closed()) {
        var i :| 0 <= i < |us| && us[i].flow == f && (us[i].moved || f.Closed());
        if i < n {
          assert less[i] == us[i];
        }
      }
    }
  }

  ghost predicate DistinctFlows(fs: seq<Flow>) {
    forall f, g :: f in fs && g in fs && f.id == g.id ==> f == g
  }

  lemma {:induction false} ReplacedAt(c: Known, fs: seq<Flow>, id: Id)
    requires DistinctFlows(fs)
    ensures (forall f :: f in fs ==> f.id != id) ==>
      (id in Replaced(c, fs) <==> id in c) && (id in c ==> Replaced(c, fs)[id] == c[id])
    ensures forall f :: f in fs && f.id == id ==> id in Replaced(c, fs) && Replaced(c, fs)[id] == f
  {
    if fs != [] {
      var less := fs[..|fs| - 1];
      assert fs == less + [fs[|fs| - 1]];
      ReplacedAt(c, less, id);
    }
  }

  ghost predicate DistinctPatches(ps: seq<Patch>) {
    forall p, q :: p in ps && q in ps && p.id == q.id ==> p == q
  }

  lemma {:induction false} OverlaidAt(c: Known, ps: seq<Patch>, id: Id)
    requires DistinctPatches(ps)
    ensures id in Overlaid(c, ps) <==> id in c
    ensures (forall p :: p in ps ==> p.id != id) && id in c ==> Overlaid(c, ps)[id] == c[id]
    ensures forall p :: p in ps && p.id == id && id in c ==> Overlaid(c, ps)[id] == c[id].(counters := p.counters)
  {
    if ps != [] {
      var less := ps[..|ps| - 1];
      assert ps == less + [ps[|ps| - 1]];
      OverlaidAt(c, less, id);
    }
  }

  /** A tick carries each matching Flow once: in full, or as its patch. */
  lemma {:induction false} TickCarries(flows: seq<Flow>, patched: set<Id>, matches: Flow -> bool)
    ensures var t := TickFor(flows, patched, matches);
      && (forall f :: f in t.flows <==> f in flows && matches(f) && f.id !in patched)
      && (forall f :: f in flows && matches(f) && f.id in patched ==> Patch(f.id, f.counters) in t.flowUpdates)
  {
    if flows != [] {
      var less := flows[..|flows| - 1];
      assert flows == less + [flows[|flows| - 1]];
      TickCarries(less, patched, matches);
    }
  }

  /** What the client makes of each Flow of an interval that its filter lets through. */
  ghost predicate ClientEffect(c: Known, p: Prepared, matches: Flow -> bool, z: Known) {
    && (forall f :: f in p.flows && matches(f) && f.id !in p.patched ==> f.id in z && z[f.id] == f)
    && (forall f :: f in p.flows && matches(f) && f.id in p.patched && f.id in c ==>
          f.id in z && z[f.id] == c[f.id].(counters := f.counters))
    && (forall id :: (forall f :: f in p.flows && matches(f) ==> f.id != id) ==>
          (id in z <==> id in c) && (id in c ==> z[id] == c[id]))
    && (forall f :: f in p.flows && matches(f) && f.id in p.patched && f.id !in c ==> f.id !in z)
  }

  lemma AppliedEffect(c: Known, p: Prepared, matches: Flow -> bool)
    requires DistinctFlows(p.flows)
    ensures ClientEffect(c, p, matches, Applied(c, TickFor(p.flows, p.patched, matches)))
  {
    var t := TickFor(p.flows, p.patched, matches);
    NeverBoth(p.flows, p.patched, matches);
    TickCarries(p.flows, p.patched, matches);
    PatchesDistinct(p, matches, t);
    forall id: Id
      ensures (forall f :: f in p.flows && matches(f) ==> f.id != id) ==>
        (id in Applied(c, t) <==> id in c) && (id in c ==> Applied(c, t)[id] == c[id])
    {
      ReplacedAt(c, t.flows, id);
      OverlaidAt(Replaced(c, t.flows), t.flowUpdates, id);
    }
    forall f | f in p.flows && matches(f)
      ensures f.id !in p.patched ==> f.id in Applied(c, t) && Applied(c, t)[f.id] == f
      ensures f.id in p.patched && f.id in c ==>
        f.id in Applied(c, t) && Applied(c, t)[f.id] == c[f.id].(counters := f.counters)
      ensures f.id in p.patched && f.id !in c ==> f.id !in Applied(c, t)
    {
      ReplacedAt(c, t.flows, f.id);
      OverlaidAt(Replaced(c, t.flows), t.flowUpdates, f.id);
      if f.id in p.patched {
        assert Patch(f.id, f.counters) in t.flowUpdates;
      }
    }
  }

  lemma PatchesDistinct(p: Prepared, matches: Flow -> bool, t: Tick)
    requires DistinctFlows(p.flows) && t == TickFor(p.flows, p.patched, matches)
    ensures DistinctPatches(t.flowUpdates)
  {
    NeverBoth(p.flows, p.patched, matches);
    forall x, y | x in t.flowUpdates && y in t.flowUpdates && x.id == y.id
      ensures x == y
    {
      var f :| f in p.flows && matches(f) && x == Patch(f.id, f.counters);
      var g :| g in p.flows && matches(g) && y == Patch(g.id, g.counters);
    }
  }

  lemma PreparedDistinct(known: map<Id, string>, us: seq<Update>, p: Prepared)
    requires Distinct(us) && Effect(known, us, p)
    ensures DistinctFlows(p.flows)
  {
    forall f, g | f in p.flows && g in p.flows && f.id == g.id
      ensures f == g
    {
      var i :| 0 <= i < |us| && us[i].flow == f && (us[i].moved || f.Closed());
      var j :| 0 <= j < |us| && us[j].flow == g && (us[j].moved || g.Closed());
    }
  }

  // -------------------------------------------------------- agreement over runs

  /** The client holds a record with the very signature the server remembers. */
  ghost predicate Synced(known: map<Id, string>, c: Known) {
    forall id :: id in known ==> id in c && Signature(c[id].details) == known[id]
  }

  /** The client agrees with the server on a Flow that rode the tick. */
  ghost predicate Agrees(c: Known, f: Flow) {
    && f.id in c && c[f.id].counters == f.counters && Signature(c[f.id].details) == Signature(f.details)
    && (f.Closed() ==> c[f.id] == f)
  }

  lemma IngestKeepsSynced(known: map<Id, string>, c: Known, us: seq<Update>)
    requires Synced(known, c) && Distinct(us)
    ensures var p := PrepareAll(known, us);
      var z := Applied(c, TickFor(p.flows, p.patched, Everything));
      Synced(p.known, z) && forall f :: f in p.flows ==> Agrees(z, f)
  {
    hide Signature, Applied, PrepareAll, TickFor;
    var p := PrepareAll(known, us);
    var z := Applied(c, TickFor(p.flows, p.patched, Everything));
    PreparedEffect(known, us);
    PreparedDistinct(known, us, p);
    AppliedEffect(c, p, Everything);
    forall f | f in p.flows
      ensures Agrees(z, f)
    {
      var i :| 0 <= i < |us| && us[i].flow == f && (us[i].moved || f.Closed());
      assert FlowEffect(known, us[i], p);
    }
    EffectKeepsSynced(known, c, us, p, z);
  }

  lemma EffectKeepsSynced(known: map<Id, string>, c: Known, us: seq<Update>, p: Prepared, z: Known)
    requires Synced(known, c) && Effect(known, us, p) && ClientEffect(c, p, Everything, z)
    ensures Synced(p.known, z)
  {
    hide Signature;
    forall id | id in p.known
      ensures id in z && Signature(z[id].details) == p.known[id]
    {
      if i :| 0 <= i < |us| && us[i].flow.id == id {
        assert FlowEffect(known, us[i], p);
        assert us[i].flow in p.flows;
      } else {
        assert forall f :: f in p.flows ==> f.id != id;
      }
    }
  }

  lemma {:induction false} RunKeepsSynced(c: Known, es: seq<Event>, n: nat)
    requires ValidEvents(es) && n <= |es|
    ensures Synced(ServerAt(es, n), ClientAt(c, es, n))
  {
    hide Signature, Applied, PrepareAll, TickFor;
    if n > 0 {
      RunKeepsSynced(c, es, n - 1);
      var known, e := ServerAt(es, n - 1), es[n - 1];
      assert e in es;
      if e.Ingested? {
        IngestKeepsSynced(known, ClientAt(c, es, n - 1), e.updated);
      } else {
        SilentTick(ClientAt(c, es, n - 1));
      }
    }
  }

  lemma SilentTick(c: Known)
    ensures Applied(c, SILENT) == c
  {
  }

  /**
   * After every tick of every run, the client agrees with the server on the
   * counters and the signature of each Flow of the tick, and on the whole
   * record of each closed one.
   */
  lemma ReplicaAgrees(c: Known, es: seq<Event>, n: nat, f: Flow)
    requires ValidEvents(es) && n < |es| && es[n].Ingested? && f in PrepareAll(ServerAt(es, n), es[n].updated).flows
    ensures Agrees(ClientAt(c, es, n + 1), f)
  {
    hide Signature, Applied, PrepareAll, TickFor;
    assert es[n] in es;
    RunKeepsSynced(c, es, n);
    IngestKeepsSynced(ServerAt(es, n), ClientAt(c, es, n), es[n].updated);
  }

  /** A full record of `id` with this signature, still open, rides tick `m`. */
  ghost predicate OpenedAt(es: seq<Event>, m: nat, id: Id, signature: string)
    requires m < |es|
  {
    exists f :: f in TickAt(es, m).flows && f.id == id && !f.Closed() && Signature(f.details) == signature
  }

  /** No full record of `id` rides a tick after `m` and before `n`; a closure would be one. */
  ghost predicate NoFullBetween(es: seq<Event>, m: nat, n: nat, id: Id)
    requires n <= |es|
  {
    forall k: nat, f :: m < k < n && f in TickAt(es, k).flows ==> f.id != id
  }

  lemma IngestOpens(known: map<Id, string>, us: seq<Update>, id: Id)
    requires Distinct(us) && id in PrepareAll(known, us).known
    ensures var p := PrepareAll(known, us);
      var t := TickFor(p.flows, p.patched, Everything);
      || (id in known && known[id] == p.known[id] && forall f :: f in t.flows ==> f.id != id)
      || (exists f :: f in t.flows && f.id == id && !f.Closed() && Signature(f.details) == p.known[id])
  {
    hide Signature, PrepareAll, TickFor;
    var p := PrepareAll(known, us);
    PreparedEffect(known, us);
    PreparedDistinct(known, us, p);
    TickCarries(p.flows, p.patched, Everything);
    if i :| 0 <= i < |us| && us[i].flow.id == id {
      assert FlowEffect(known, us[i], p);
      assert us[i].flow in p.flows;
    }
  }

  /** Every signature the server remembers went out in full, with nothing in between. */
  lemma {:induction false} RememberedWasSent(es: seq<Event>, n: nat, id: Id) returns (m: nat)
    requires ValidEvents(es) && n <= |es| && id in ServerAt(es, n)
    ensures m < n && OpenedAt(es, m, id, ServerAt(es, n)[id]) && NoFullBetween(es, m, n, id)
  {
    hide Signature, PrepareAll, TickFor;
    var e, known := es[n - 1], ServerAt(es, n - 1);
    assert e in es;
    if e.Ingested? {
      IngestOpens(known, e.updated, id);
    }
    if f :| f in TickAt(es, n - 1).flows && f.id == id && !f.Closed() && Signature(f.details) == ServerAt(es, n)[id] {
      m := n - 1;
    } else {
      m := RememberedWasSent(es, n - 1, id);
    }
  }

  /** A Flow that rides a tick as a patch was sent in full before, with equal signature and no closure in between. */
  lemma PatchFollowsFull(es: seq<Event>, n: nat, f: Flow) returns (m: nat)
    requires ValidEvents(es) && n < |es| && es[n].Ingested?
    requires var p := PrepareAll(ServerAt(es, n), es[n].updated); f in p.flows && f.id in p.patched
    ensures m < n && OpenedAt(es, m, f.id, Signature(f.details)) && NoFullBetween(es, m, n, f.id)
  {
    hide Signature, PrepareAll, TickFor, OpenedAt, NoFullBetween, ServerAt;
    assert es[n] in es;
    var known, us := ServerAt(es, n), es[n].updated;
    PreparedEffect(known, us);
    var i :| 0 <= i < |us| && us[i].flow == f && (us[i].moved || f.Closed());
    assert FlowEffect(known, us[i], PrepareAll(known, us));
    m := RememberedWasSent(es, n, f.id);
  }

  /** A patch leaves the fields outside signature and counters as the client had them. */
  lemma PatchCompletesIff(c: Known, f: Flow)
    requires f.id in c && c[f.id].id == f.id
    ensures f.id in Overlaid(c, [Patch(f.id, f.counters)])
    ensures Overlaid(c, [Patch(f.id, f.counters)])[f.id] == f <==>
      c[f.id].details == f.details && c[f.id].rest == f.rest
  {
    assert [Patch(f.id, f.counters)][..0] == [];
    assert Overlaid(c, []) == c;
  }

  // ------------------------------------------------------- a filtered client

  /** What a client with this filter, that knew `c` at process start and saw every tick, knows before event `n`. */
  function FilteredAt(c: Known, es: seq<Event>, n: nat, matches: Flow -> bool): Known
    requires n <= |es|
  {
    if n == 0 then c
    else Applied(FilteredAt(c, es, n - 1, matches), FilteredTick(ServerAt(es, n - 1), es[n - 1], matches))
  }

  function FilteredTick(known: map<Id, string>, e: Event, matches: Flow -> bool): Tick {
    match e
    case Ingested(updated, capacity) =>
      var p := PrepareAll(known, updated);
      TickFor(p.flows, p.patched, matches)
    case _ => SILENT
  }

  /** The filter looks at nothing that can change while the signature of an open Flow stays. */
  ghost predicate Steady(matches: Flow -> bool) {
    forall f: Flow, g: Flow ::
      f.id == g.id && !f.Closed() && !g.Closed() && Signature(f.details) == Signature(g.details)
      ==> matches(f) == matches(g)
  }

  /** For each remembered signature the client has a record, if the Flow last described by it matches. */
  ghost predicate FilterSynced(known: map<Id, string>, c: Known, matches: Flow -> bool) {
    forall f: Flow :: f.id in known && !f.Closed() && Signature(f.details) == known[f.id] && matches(f) ==>
      f.id in c && Signature(c[f.id].details) == known[f.id]
  }

  lemma IngestKeepsFilterSynced(known: map<Id, string>, c: Known, us: seq<Update>, matches: Flow -> bool)
    requires Steady(matches) && FilterSynced(known, c, matches) && Distinct(us)
    ensures var p := PrepareAll(known, us);
      var z := Applied(c, TickFor(p.flows, p.patched, matches));
      && FilterSynced(p.known, z, matches)
      && forall f :: f in p.flows && matches(f) ==> Agrees(z, f)
  {
    hide Signature, Applied, PrepareAll, TickFor;
    var p := PrepareAll(known, us);
    var z := Applied(c, TickFor(p.flows, p.patched, matches));
    PreparedEffect(known, us);
    PreparedDistinct(known, us, p);
    AppliedEffect(c, p, matches);
    forall f | f in p.flows && matches(f)
      ensures Agrees(z, f)
    {
      var i :| 0 <= i < |us| && us[i].flow == f && (us[i].moved || f.Closed());
      assert FlowEffect(known, us[i], p);
    }
    EffectKeepsFilterSynced(known, c, us, p, matches, z);
  }

  lemma EffectKeepsFilterSynced(
      known: map<Id, string>, c: Known, us: seq<Update>, p: Prepared, matches: Flow -> bool, z: Known)
    requires Steady(matches) && FilterSynced(known, c, matches)
    requires Effect(known, us, p) && ClientEffect(c, p, matches, z)
    ensures FilterSynced(p.known, z, matches)
  {
    hide Signature;
    forall f: Flow | f.id in p.known && !f.Closed() && Signature(f.details) == p.known[f.id] && matches(f)
      ensures f.id in z && Signature(z[f.id].details) == p.known[f.id]
    {
      if i :| 0 <= i < |us| && us[i].flow.id == f.id {
        assert FlowEffect(known, us[i], p);
        assert us[i].flow in p.flows && matches(us[i].flow);
      } else {
        assert forall g :: g in p.flows ==> g.id != f.id;
      }
    }
  }

  lemma {:induction false} RunKeepsFilterSynced(c: Known, es: seq<Event>, n: nat, matches: Flow -> bool)
    requires Steady(matches) && ValidEvents(es) && n <= |es|
    ensures FilterSynced(ServerAt(es, n), FilteredAt(c, es, n, matches), matches)
  {
    hide Signature, Applied, PrepareAll, TickFor, Steady, FilterSynced;
    if n == 0 {
      assert FilterSynced(map[], c, matches) by { NothingFilterSynced(c, matches); }
    } else {
      RunKeepsFilterSynced(c, es, n - 1, matches);
      var known, e := ServerAt(es, n - 1), es[n - 1];
      assert e in es;
      match e
      case Ingested(us, capacity) =>
        IngestKeepsFilterSynced(known, FilteredAt(c, es, n - 1, matches), us, matches);
        NothingFilterSynced(FilteredAt(c, es, n, matches), matches);
      case IngestFailed => SilentTick(FilteredAt(c, es, n - 1, matches));
      case HistoryCleared => NothingFilterSynced(FilteredAt(c, es, n, matches), matches);
    }
  }

  lemma NothingFilterSynced(c: Known, matches: Flow -> bool)
    ensures FilterSynced(map[], c, matches)
  {
  }

  /** After every tick of the run the client agrees with the server on each matching Flow of the tick. */
  ghost predicate FilteredAgrees(c: Known, es: seq<Event>, matches: Flow -> bool) {
    forall n: nat, f :: n < |es| && es[n].Ingested?
      && f in PrepareAll(ServerAt(es, n), es[n].updated).flows && matches(f)
      ==> Agrees(FilteredAt(c, es, n + 1, matches), f)
  }

  lemma SteadyAgrees(c: Known, es: seq<Event>, matches: Flow -> bool)
    requires Steady(matches) && ValidEvents(es)
    ensures FilteredAgrees(c, es, matches)
  {
    hide Signature, Applied, PrepareAll, TickFor, Steady, FilterSynced, Agrees;
    forall n: nat, f | n < |es| && es[n].Ingested?
      && f in PrepareAll(ServerAt(es, n), es[n].updated).flows && matches(f)
      ensures Agrees(FilteredAt(c, es, n + 1, matches), f)
    {
      assert es[n] in es;
      RunKeepsFilterSynced(c, es, n, matches);
      IngestKeepsFilterSynced(ServerAt(es, n), FilteredAt(c, es, n, matches), es[n].updated, matches);
    }
  }

  /** Two intervals of one Flow. */
  function Twice(f: Flow, g: Flow): seq<Event> {
    [Ingested([Update(f, true)], 1), Ingested([Update(g, true)], 1)]
  }

  lemma OneUpdate(known: map<Id, string>, f: Flow)
    ensures PrepareAll(known, [Update(f, true)]) == Prepare1(Prepared(known, [], {}), Update(f, true))
  {
    hide Signature;
    assert [Update(f, true)][..0] == [];
  }

  lemma OneFlowTick(f: Flow, patched: set<Id>, matches: Flow -> bool)
    ensures TickFor([f], patched, matches)
         == if !matches(f) then SILENT
            else if f.id in patched then Tick([], [Patch(f.id, f.counters)]) else Tick([f], [])
  {
    assert [f][..0] == [];
  }

  lemma OneInterval(known: map<Id, string>, f: Flow, matches: Flow -> bool)
    requires !f.Closed()
    ensures var e, signature := Ingested([Update(f, true)], 1), Signature(f.details);
      && PrepareAll(known, e.updated).flows == [f]
      && KnownAfter(known, e) == Capped(known[f.id := signature], 1)
      && FilteredTick(known, e, matches)
         == TickFor([f], if f.id in known && known[f.id] == signature then {f.id} else {}, matches)
  {
    hide Signature, TickFor;
    OneUpdate(known, f);
    assert {} + {f.id} == {f.id} && [] + [f] == [f];
  }

  lemma OneKnown(id: Id, signature: string)
    ensures Capped(map[id := signature], 1) == map[id := signature]
  {
    assert map[id := signature].Keys == {id} && |map[id := signature]| == 1;
  }

  /**
   * A Flow that comes to match while its signature stays reaches a filtered client
   * as a patch of a record it never had.
   */
  lemma LateMatchIsLost(f: Flow, g: Flow, matches: Flow -> bool)
    requires f.id == g.id && !f.Closed() && !g.Closed() && Signature(f.details) == Signature(g.details)
    requires !matches(f) && matches(g)
    ensures ValidEvents(Twice(f, g)) && !FilteredAgrees(map[], Twice(f, g), matches)
  {
    hide Signature, Agrees, PrepareAll, TickFor, KnownAfter, FilteredTick;
    var es, signature := Twice(f, g), Signature(f.details);
    OneInterval(map[], f, matches);
    OneFlowTick(f, {}, matches);
    OneKnown(f.id, signature);
    SilentTick(map[]);
    assert ServerAt(es, 0) == map[] && FilteredAt(map[], es, 0, matches) == map[];
    assert ServerAt(es, 1) == map[f.id := signature] && FilteredAt(map[], es, 1, matches) == map[];
    OneInterval(map[f.id := signature], g, matches);
    OneFlowTick(g, {g.id}, matches);
    var z := FilteredAt(map[], es, 2, matches);
    PatchOfNothing(Patch(g.id, g.counters));
    assert z == map[];
    MissingDisagrees(z, g);
    assert es[1].Ingested? && g in PrepareAll(ServerAt(es, 1), es[1].updated).flows;
  }

  lemma PatchOfNothing(p: Patch)
    ensures Applied(map[], Tick([], [p])) == map[]
  {
    assert [p][..0] == [] && Overlaid(map[], []) == map[];
  }

  lemma MissingDisagrees(c: Known, f: Flow)
    requires f.id !in c
    ensures !Agrees(c, f)
  {
  }

  /**
   * Clients with a filter agree with the server on every matching Flow of every
   * tick, in all runs, exactly when the filter looks at nothing that can change
   * while the signature stays.
   */
  lemma FilteredAgreesIff(matches: Flow -> bool)
    ensures (forall c, es :: ValidEvents(es) ==> FilteredAgrees(c, es, matches)) <==> Steady(matches)
  {
    hide Signature, FilteredAgrees, ValidEvents;
    if Steady(matches) {
      forall c, es | ValidEvents(es)
        ensures FilteredAgrees(c, es, matches)
      {
        SteadyAgrees(c, es, matches);
      }
    } else {
      var f: Flow, g: Flow :| f.id == g.id && !f.Closed() && !g.Closed() && Signature(f.details) == Signature(g.details)
        && matches(f) != matches(g);
      if matches(f) {
        LateMatchIsLost(g, f, matches);
      } else {
        LateMatchIsLost(f, g, matches);
      }
    }
  }

  // ------------------------------------------------------ what a signature tells

  /** The text ends in the tag of a domain. */
  ghost predicate EndsInTag(z: string) {
    exists t: DomainRef :: z == DomainText(t)
  }

  /** The text ends as an application does. */
  ghost predicate EndsInKind(z: string) {
    exists y: string, k: Kind :: z == y + ":" + KindText(k)
  }

  /** The text before a separator in the domain at `i` reads as an application, or as none. */
  ghost predicate ReadsAsAttribution(a: Attribution, i: nat, z: string) {
    EndsInKind(z) || (i == 0 && a == Unknown && z == "unattributed")
  }

  /** A separator in the domain at `i` can be read as the end of another part. */
  ghost predicate CutAt(a: Attribution, ds: seq<DomainRef>, i: nat, p: nat)
    requires i < |ds|
  {
    var name := ds[i].domain;
    p < |name| && name[p] == '|' && (EndsInTag(name[..p]) || ReadsAsAttribution(a, i, name[..p]))
  }

  /**
   * Some domain holds a separator after text that ends in a tag, ends in an
   * application, or stands for no application.
   */
  ghost predicate Ambiguous(a: Attribution, ds: seq<DomainRef>) {
    exists i: nat, p: nat :: i < |ds| && CutAt(a, ds, i, p)
  }

  /** The text of an open Flow. */
  function Text(a: Attribution, ds: seq<DomainRef>): string {
    "active" + AttributionText(a) + DomainsText(ds)
  }

  lemma SignatureIsText(d: Details)
    requires d.state == Active
    ensures Signature(d) == Text(d.attribution, d.domains)
  {
  }

  lemma TextOfMore(a: Attribution, ds: seq<DomainRef>, x: DomainRef)
    ensures Text(a, ds + [x]) == Text(a, ds) + "|" + x.domain + Tag(x)
  {
    hide Tag, AttributionText;
    assert (ds + [x])[..|ds|] == ds;
    Appended("active" + AttributionText(a), DomainsText(ds), "|", x.domain, Tag(x));
  }

  lemma Appended(a: string, b: string, c: string, d: string, e: string)
    ensures a + (b + c + (d + e)) == a + b + c + d + e
  {
  }

  lemma SameTail(a: string, x: string, b: string, y: string)
    requires a + x == b + y && |x| == |y|
    ensures a == b && x == y
  {
    var s := a + x;
    assert a == s[..|a|] && b == s[..|b|] && x == s[|a|..] && y == s[|b|..];
  }

  lemma TagChars(d: DomainRef)
    ensures var t := Tag(d);
      && '|' !in t && |t| >= 11
      && t[|t| - 1] == (if d.confidence == Direct then 't' else 'd')
      && t[|t| - 3] == (if d.confidence == Direct then 'e' else 'r')
      && var k := |t| - (if d.confidence == Direct then 8 else 10);
         t[k] == (match d.evidence case Dns => 's' case TlsSni => 'i' case HttpHost => 't')
  {
    var e, c := EvidenceText(d.evidence), ConfidenceText(d.confidence);
    assert Tag(d) == ":" + e + ":" + c;
    assert |Tag(d)| == |e| + |c| + 2;
  }

  lemma SameTags(d: DomainRef, e: DomainRef)
    requires d.evidence == e.evidence && d.confidence == e.confidence
    ensures Tag(d) == Tag(e)
  {
  }

  /** A tag is told from the end of a text. */
  lemma SameEnd(a: string, d: DomainRef, b: string, e: DomainRef)
    requires a + Tag(d) == b + Tag(e)
    ensures a == b && d.evidence == e.evidence && d.confidence == e.confidence
  {
    hide Tag;
    TagChars(d);
    TagChars(e);
    var s, x, y := a + Tag(d), Tag(d), Tag(e);
    var n := |s|;
    assert s[n - 1] == x[|x| - 1] && s[n - 1] == y[|y| - 1];
    assert s[n - 8] == x[|x| - 8] && s[n - 8] == y[|y| - 8];
    assert s[n - 10] == x[|x| - 10] && s[n - 10] == y[|y| - 10];
    assert d.evidence == e.evidence && d.confidence == e.confidence;
    SameTags(d, e);
    SameTail(a, x, b, y);
  }

  /** What stands after a separator holds every separator-free ending. */
  lemma EndsAfterSeparator(b: string, z: string, a: string, t: string) returns (y: string)
    requires b + "|" + z == a + t && '|' !in t
    ensures z == y + t
  {
    var s := a + t;
    assert s[|b|] == '|';
    assert forall i :: |a| <= i < |s| ==> s[i] == t[i - |a|];
    y := z[..|z| - |t|];
    SameTail(b + "|" + y, z[|z| - |t|..], a, t) by {
      assert b + "|" + z == (b + "|" + y) + z[|z| - |t|..];
    }
  }

  /** The text of an open Flow without domains. */
  lemma BareText(a: Attribution)
    ensures var h := Text(a, []);
      && |h| >= 6 && h[..6] == "active"
      && (a.Application? ==> |h| > 6 && h[|h| - 1] == (if a.kind == Container then 'r' else 's'))
      && (a == LanBroadcast ==> |h| > 6 && h[|h| - 1] == 'd' && h[|h| - 3] == 't')
      && (a == Unknown ==> h == "active" && h[|h| - 1] == 'e')
  {
    hide Text;
    match a
    case Application(id, kind) =>
      ApplicationText(id, kind);
      var t := KindText(kind);
      assert ("active" + "|" + id + ":" + t)[|"active" + "|" + id + ":" + t| - 1] == t[|t| - 1];
    case LanBroadcast => BroadcastText();
    case Unknown => NoText();
  }

  lemma NoText()
    ensures Text(Unknown, []) == "active"
  {
  }

  lemma BareIsNoDomain(a: Attribution, before: string, e: DomainRef)
    ensures Text(a, []) != before + Tag(e)
  {
    hide Text, Tag;
    BareText(a);
    TagChars(e);
    var s, t := before + Tag(e), Tag(e);
    assert s[|s| - 1] == t[|t| - 1] && s[|s| - 3] == t[|t| - 3];
  }

  lemma ApplicationText(id: string, kind: Kind)
    ensures Text(Application(id, kind), []) == "active" + "|" + id + ":" + KindText(kind)
  {
    assert Text(Application(id, kind), []) == "active" + ("|" + id + ":" + KindText(kind)) + "";
  }

  lemma SameBare(a: Attribution, b: Attribution)
    requires Text(a, []) == Text(b, [])
    ensures a == b
  {
    hide Text;
    BareText(a);
    BareText(b);
    if a.Application? && b.Application? {
      ApplicationText(a.id, a.kind);
      ApplicationText(b.id, b.kind);
      var k := KindText(a.kind);
      SameTail("active" + "|" + a.id + ":", k, "active" + "|" + b.id + ":", k);
      SameMiddle("active" + "|", a.id, b.id, ":");
    }
  }

  lemma SameMiddle(a: string, x: string, y: string, z: string)
    requires a + x + z == a + y + z
    ensures x == y
  {
    SameTail(a + x, z, a + y, z);
    assert (a + x)[|a|..] == x && (a + y)[|a|..] == y;
  }

  /** Only the empty description has the bare text. */
  lemma OnlyActive(a: Attribution, ds: seq<DomainRef>)
    requires |Text(a, ds)| == 6
    ensures a == Unknown && ds == []
  {
    assert |AttributionText(a)| == 0 && |DomainsText(ds)| == 0;
  }

  /** A text before a separator ends in a tag, ends in an application, or is that of no application. */
  lemma TagEnds(y: string, x: DomainRef)
    ensures EndsInTag(y + Tag(x))
  {
    hide Tag;
    var t := DomainRef(y, x.evidence, x.confidence);
    SameTags(t, x);
    assert y + Tag(x) == DomainText(t);
  }

  lemma BeforeSeparator(a: Attribution, ds: seq<DomainRef>, b: Attribution, es: seq<DomainRef>, z: string)
    requires Text(a, ds) == Text(b, es) + "|" + z
    ensures EndsInTag(z) || EndsInKind(z) || (b == Unknown && es == [] && z == "unattributed")
    ensures a != Unknown || ds != []
  {
    hide Tag, Text, EndsInTag, EndsInKind;
    if ds != [] {
      var less, x := ds[..|ds| - 1], ds[|ds| - 1];
      assert ds == less + [x];
      TextOfMore(a, less, x);
      TagChars(x);
      var y := EndsAfterSeparator(Text(b, es), z, Text(a, less) + "|" + x.domain, Tag(x));
      TagEnds(y, x);
    } else {
      BareBeforeSeparator(a, b, es, z);
    }
  }

  lemma BareBeforeSeparator(a: Attribution, b: Attribution, es: seq<DomainRef>, z: string)
    requires Text(a, []) == Text(b, es) + "|" + z
    ensures EndsInKind(z) || (b == Unknown && es == [] && z == "unattributed")
    ensures a != Unknown
  {
    hide Text;
    assert (Text(b, es) + "|" + z)[|Text(b, es)|] == '|';
    match a
    case Application(id, kind) =>
      var t := ":" + KindText(kind);
      ApplicationText(id, kind);
      assert "active" + "|" + id + ":" + KindText(kind) == ("active" + "|" + id) + t;
      var y := EndsAfterSeparator(Text(b, es), z, "active" + "|" + id, t);
      assert z == y + ":" + KindText(kind);
    case LanBroadcast => BroadcastBeforeSeparator(b, es, z);
    case Unknown =>
      BareText(a);
  }

  lemma BroadcastBeforeSeparator(b: Attribution, es: seq<DomainRef>, z: string)
    requires Text(LanBroadcast, []) == Text(b, es) + "|" + z
    ensures b == Unknown && es == [] && z == "unattributed"
  {
    var s, n := "active|unattributed", |Text(b, es)|;
    assert Text(LanBroadcast, []) == s by { BroadcastText(); }
    hide Text;
    assert (Text(b, es) + "|" + z)[n] == '|';
    assert s[n] == '|';
    assert n == 6;
    assert z == s[7..];
    OnlyActive(b, es);
  }

  lemma BroadcastText()
    ensures Text(LanBroadcast, []) == "active|unattributed"
  {
  }

  lemma CutsShort(a: string, x: string, b: string, y: string) returns (z: string)
    requires a + "|" + x == b + "|" + y && |x| < |y|
    ensures y == z + "|" + x && a == b + "|" + z
  {
    var s := a + "|" + x;
    z := y[..|y| - |x| - 1];
    SameTail(a, "|" + x, b + "|" + z, y[|z|..]) by {
      assert b + "|" + y == (b + "|" + z) + y[|z|..];
      assert a + "|" + x == a + ("|" + x);
    }
    assert y == z + y[|z|..];
  }

  /** Where two texts agree and one last domain is shorter, the longer one can be cut. */
  lemma LongerIsAmbiguous(
      a: Attribution, ds: seq<DomainRef>, x: DomainRef, b: Attribution, es: seq<DomainRef>, y: DomainRef)
    requires Text(a, ds) + "|" + x.domain == Text(b, es) + "|" + y.domain && |x.domain| < |y.domain|
    ensures Ambiguous(b, es + [y]) && (a != Unknown || ds != [])
  {
    hide Text, EndsInTag, EndsInKind;
    var z := CutsShort(Text(a, ds), x.domain, Text(b, es), y.domain);
    BeforeSeparator(a, ds, b, es, z);
    assert y.domain[..|z|] == z && y.domain[|z|] == '|';
    assert (es + [y])[|es|] == y;
    assert CutAt(b, es + [y], |es|, |z|);
  }

  lemma AmbiguousGrows(a: Attribution, ds: seq<DomainRef>, x: DomainRef)
    requires Ambiguous(a, ds)
    ensures Ambiguous(a, ds + [x])
  {
    hide EndsInTag, EndsInKind;
    var i: nat, p: nat :| i < |ds| && CutAt(a, ds, i, p);
    assert (ds + [x])[i] == ds[i];
    assert CutAt(a, ds + [x], i, p);
  }

  /** Two descriptions with one text: one of them can be cut. */
  lemma {:induction false} SameTextAmbiguous(a: Attribution, ds: seq<DomainRef>, b: Attribution, es: seq<DomainRef>)
    requires Text(a, ds) == Text(b, es) && (a != b || ds != es)
    ensures Ambiguous(a, ds) || Ambiguous(b, es)
    decreases |ds|
  {
    hide Text, Tag, Ambiguous;
    if ds != [] && es != [] {
      var x, y := ds[|ds| - 1], es[|es| - 1];
      var less, fewer := ds[..|ds| - 1], es[..|es| - 1];
      assert ds == less + [x] && es == fewer + [y];
      TextOfMore(a, less, x);
      TextOfMore(b, fewer, y);
      SameEnd(Text(a, less) + "|" + x.domain, x, Text(b, fewer) + "|" + y.domain, y);
      if |x.domain| < |y.domain| {
        LongerIsAmbiguous(a, less, x, b, fewer, y);
      } else if |y.domain| < |x.domain| {
        LongerIsAmbiguous(b, fewer, y, a, less, x);
      } else {
        SameTail(Text(a, less) + "|", x.domain, Text(b, fewer) + "|", y.domain);
        SameTail(Text(a, less), "|", Text(b, fewer), "|");
        SameTextAmbiguous(a, less, b, fewer);
        if Ambiguous(a, less) {
          AmbiguousGrows(a, less, x);
        } else {
          AmbiguousGrows(b, fewer, y);
        }
      }
    } else {
      BareDiffers(a, ds, b, es);
    }
  }

  lemma BareDiffers(a: Attribution, ds: seq<DomainRef>, b: Attribution, es: seq<DomainRef>)
    requires Text(a, ds) == Text(b, es) && (ds == [] || es == [])
    ensures a == b && ds == es
  {
    hide Text, Tag;
    if ds != [] {
      var less, x := ds[..|ds| - 1], ds[|ds| - 1];
      assert ds == less + [x];
      TextOfMore(a, less, x);
      BareIsNoDomain(b, Text(a, less) + "|" + x.domain, x);
    } else if es != [] {
      var less, x := es[..|es| - 1], es[|es| - 1];
      assert es == less + [x];
      TextOfMore(b, less, x);
      BareIsNoDomain(a, Text(b, less) + "|" + x.domain, x);
    } else {
      SameBare(a, b);
    }
  }

  // ------------------------------------------------------------- finest reading

  /** Separators within the domain names. */
  function Bars(s: string): nat {
    if s == "" then 0 else Bars(s[..|s| - 1]) + if s[|s| - 1] == '|' then 1 else 0
  }

  function AllBars(ds: seq<DomainRef>): nat {
    if ds == [] then 0 else AllBars(ds[..|ds| - 1]) + Bars(ds[|ds| - 1].domain)
  }

  lemma {:induction false} BarsConcat(a: string, b: string)
    ensures Bars(a + b) == Bars(a) + Bars(b)
    decreases |b|
  {
    if b == "" {
      assert a + b == a;
    } else {
      BarsConcat(a, b[..|b| - 1]);
      assert (a + b)[..|a + b| - 1] == a + b[..|b| - 1];
    }
  }

  lemma {:induction false} DomainsConcat(ds: seq<DomainRef>, es: seq<DomainRef>)
    ensures DomainsText(ds + es) == DomainsText(ds) + DomainsText(es)
    ensures AllBars(ds + es) == AllBars(ds) + AllBars(es)
    decreases |es|
  {
    hide Tag, Bars, DomainText;
    if es == [] {
      assert ds + es == ds;
    } else {
      var less, e := es[..|es| - 1], es[|es| - 1];
      DomainsConcat(ds, less);
      assert (ds + es)[..|ds + es| - 1] == ds + less && (ds + es)[|ds + es| - 1] == e;
      Associate(DomainsText(ds), DomainsText(less), "|", DomainText(e));
    }
  }

  lemma Associate(a: string, b: string, c: string, d: string)
    ensures a + b + c + d == a + (b + c + d)
  {
  }

  lemma OneDomain(d: DomainRef)
    ensures DomainsText([d]) == "|" + d.domain + Tag(d) && AllBars([d]) == Bars(d.domain)
  {
    assert [d][..0] == [];
    assert DomainsText([d]) == "" + "|" + (d.domain + Tag(d));
  }

  lemma AroundDomain(l: seq<DomainRef>, x: DomainRef, r: seq<DomainRef>)
    ensures DomainsText(l + [x] + r) == DomainsText(l) + ("|" + x.domain + Tag(x)) + DomainsText(r)
    ensures AllBars(l + [x] + r) == AllBars(l) + Bars(x.domain) + AllBars(r)
  {
    hide DomainsText, AllBars;
    DomainsConcat(l + [x], r);
    DomainsConcat(l, [x]);
    OneDomain(x);
  }

  lemma BarsOfCut(z: string, rest: string)
    ensures Bars(z + "|" + rest) == Bars(z) + 1 + Bars(rest)
  {
    BarsConcat(z + "|", rest);
    BarsConcat(z, "|");
    assert "|"[..0] == "";
    assert Bars("|") == 1;
  }

  lemma Regroup(a: string, b: string, c: string, d: string)
    ensures a + (b + c) + d == a + b + (c + d)
  {
    assert a + (b + c) + d == a + b + c + d;
  }

  lemma TwoParts(z: string, rest: string, k: string)
    ensures "|" + (z + "|" + rest) + k == ("|" + z) + ("|" + rest + k)
  {
  }

  /** What a cut after a tag reads instead: two domains. */
  lemma CutAfterTag(a: Attribution, l: seq<DomainRef>, x: DomainRef, r: seq<DomainRef>, t: DomainRef, rest: string)
    requires x.domain == DomainText(t) + "|" + rest
    ensures var y := DomainRef(rest, x.evidence, x.confidence);
      && Text(a, l + [t, y] + r) == Text(a, l + [x] + r)
      && AllBars(l + [t, y] + r) < AllBars(l + [x] + r)
  {
    hide DomainsText, AllBars, Tag, Bars;
    var y := DomainRef(rest, x.evidence, x.confidence);
    SameTags(x, y);
    AroundDomain(l, x, r);
    FirstDomain(y, r);
    AroundDomain(l, t, [y] + r);
    assert l + [t, y] + r == l + [t] + ([y] + r);
    BarsOfCut(DomainText(t), rest);
    BarsConcat(t.domain, Tag(t));
    assert "|" + t.domain + Tag(t) == "|" + DomainText(t);
    TwoParts(DomainText(t), rest, Tag(y));
    Regroup(DomainsText(l), "|" + DomainText(t), "|" + rest + Tag(y), DomainsText(r));
  }

  lemma FirstDomain(x: DomainRef, r: seq<DomainRef>)
    ensures DomainsText([x] + r) == ("|" + x.domain + Tag(x)) + DomainsText(r)
    ensures AllBars([x] + r) == Bars(x.domain) + AllBars(r)
  {
    hide DomainsText, AllBars, Tag, Bars;
    DomainsConcat([x], r);
    OneDomain(x);
  }

  lemma NothingText()
    ensures DomainsText([]) == "" && AllBars([]) == 0
  {
  }

  /** What a cut at text for no application reads instead. */
  lemma CutAfterBroadcast(x: DomainRef, r: seq<DomainRef>, rest: string)
    requires x.domain == "unattributed" + "|" + rest
    ensures var y := DomainRef(rest, x.evidence, x.confidence);
      && Text(LanBroadcast, [y] + r) == Text(Unknown, [x] + r)
      && AllBars([y] + r) < AllBars([x] + r)
  {
    hide DomainsText, AllBars, Tag, Bars, AttributionText;
    NoApplicationText();
    var y := DomainRef(rest, x.evidence, x.confidence);
    SameTags(x, y);
    FirstDomain(x, r);
    FirstDomain(y, r);
    BarsOfCut("unattributed", rest);
    TwoParts("unattributed", rest, Tag(y));
    var z := "|" + rest + Tag(y);
    assert "active" + "" == "active" && "|" + "unattributed" == "|unattributed";
    assert "|" + x.domain + Tag(x) == "|unattributed" + z;
    Regroup("active", "|unattributed", z, DomainsText(r));
  }

  lemma NoApplicationText()
    ensures AttributionText(LanBroadcast) == "|unattributed" && AttributionText(Unknown) == ""
  {
  }

  /** Text of the domains starts with a separator. */
  lemma {:induction false} StartsWithSeparator(ds: seq<DomainRef>)
    ensures DomainsText(ds) != "" ==> DomainsText(ds)[0] == '|'
  {
    hide Tag;
    if |ds| > 1 {
      StartsWithSeparator(ds[..|ds| - 1]);
    }
  }

  /** What a cut after an application reads instead: all before is its name. */
  lemma CutAfterKind(
      a: Attribution, l: seq<DomainRef>, x: DomainRef, r: seq<DomainRef>, y: string, kind: Kind, rest: string)
      returns (id: string)
    requires x.domain == y + ":" + KindText(kind) + "|" + rest
    ensures "|" + id == AttributionText(a) + DomainsText(l) + "|" + y
    ensures var d := DomainRef(rest, x.evidence, x.confidence);
      && Text(Application(id, kind), [d] + r) == Text(a, l + [x] + r)
      && AllBars([d] + r) < AllBars(l + [x] + r)
  {
    hide DomainsText, AllBars, Tag, Bars, KindText, AttributionText;
    var d := DomainRef(rest, x.evidence, x.confidence);
    SameTags(x, d);
    AroundDomain(l, x, r);
    FirstDomain(d, r);
    BarsOfCut(y + ":" + KindText(kind), rest);
    var before := AttributionText(a) + DomainsText(l) + "|" + y;
    StartsWithSeparator(l);
    AttributionStarts(a);
    FirstChar(AttributionText(a), DomainsText(l), y);
    id := before[1..];
    assert "|" + id == before;
    ApplicationReads(a, l, y, kind, id);
    TwoParts(y + ":" + KindText(kind), rest, Tag(d));
    Reassociate("active" + AttributionText(a), DomainsText(l), "|" + (y + ":" + KindText(kind)),
                "|" + rest + Tag(d), DomainsText(r));
  }

  lemma Reassociate(a: string, b: string, c: string, d: string, e: string)
    ensures a + (b + (c + d) + e) == (a + (b + c)) + (d + e)
  {
    assert a + (b + (c + d) + e) == a + b + c + d + e;
    assert (a + (b + c)) + (d + e) == a + b + c + d + e;
  }

  lemma FirstChar(a: string, b: string, y: string)
    requires (a != "" ==> a[0] == '|') && (b != "" ==> b[0] == '|')
    ensures (a + b + "|" + y)[0] == '|'
  {
  }

  lemma ApplicationReads(a: Attribution, l: seq<DomainRef>, y: string, kind: Kind, id: string)
    requires "|" + id == AttributionText(a) + DomainsText(l) + "|" + y
    ensures "active" + AttributionText(Application(id, kind))
         == "active" + AttributionText(a) + (DomainsText(l) + ("|" + (y + ":" + KindText(kind))))
  {
    hide DomainsText, KindText;
    var u, v, k := AttributionText(a), DomainsText(l), ":" + KindText(kind);
    assert AttributionText(Application(id, kind)) == ("|" + id) + k;
    assert u + v + "|" + y + k == u + (v + ("|" + (y + k)));
    assert y + ":" + KindText(kind) == y + k;
  }

  lemma AttributionStarts(a: Attribution)
    ensures AttributionText(a) != "" ==> AttributionText(a)[0] == '|'
  {
    if a.Application? {
      assert AttributionText(a) == "|" + (a.id + ":" + KindText(a.kind));
    }
  }

  /** An ambiguous description is read another way with fewer separators in names. */
  lemma CutReads(a: Attribution, ds: seq<DomainRef>) returns (b: Attribution, es: seq<DomainRef>)
    requires Ambiguous(a, ds)
    ensures Text(b, es) == Text(a, ds) && AllBars(es) < AllBars(ds)
  {
    hide Text, AllBars, EndsInTag, EndsInKind;
    var i: nat, p: nat :| i < |ds| && CutAt(a, ds, i, p);
    var l, x, r := ds[..i], ds[i], ds[i + 1..];
    var z, rest := x.domain[..p], x.domain[p + 1..];
    assert ds == l + [x] + r;
    assert x.domain == z + "|" + rest;
    var y := DomainRef(rest, x.evidence, x.confidence);
    if EndsInTag(z) {
      var t := TagEnd(z);
      CutAfterTag(a, l, x, r, t, rest);
      b, es := a, l + [t, y] + r;
    } else if EndsInKind(z) {
      var n, kind := KindEnd(z);
      assert x.domain == n + ":" + KindText(kind) + "|" + rest;
      var id := CutAfterKind(a, l, x, r, n, kind, rest);
      b, es := Application(id, kind), [y] + r;
    } else {
      CutAfterBroadcast(x, r, rest);
      assert ds == [x] + r;
      b, es := LanBroadcast, [y] + r;
    }
  }

  lemma TagEnd(z: string) returns (t: DomainRef)
    requires EndsInTag(z)
    ensures z == DomainText(t)
  {
    t :| z == DomainText(t);
  }

  lemma KindEnd(z: string) returns (y: string, k: Kind)
    requires EndsInKind(z)
    ensures z == y + ":" + KindText(k)
  {
    y, k :| z == y + ":" + KindText(k);
  }

  /** Every description is read some unambiguous way. */
  lemma {:induction false} FinestReading(a: Attribution, ds: seq<DomainRef>)
      returns (b: Attribution, es: seq<DomainRef>)
    ensures Text(b, es) == Text(a, ds) && !Ambiguous(b, es) && AllBars(es) <= AllBars(ds)
    ensures Ambiguous(a, ds) ==> AllBars(es) < AllBars(ds)
    decreases AllBars(ds)
  {
    hide Text, Ambiguous;
    b, es := a, ds;
    if Ambiguous(a, ds) {
      b, es := CutReads(a, ds);
      b, es := FinestReading(b, es);
    }
  }

  ghost predicate Open(d: Details) {
    d.state == Active
  }

  ghost predicate Plain(d: Details) {
    Open(d) && !Ambiguous(d.attribution, d.domains)
  }

  /**
   * Each signature of an open Flow is that of exactly one unambiguous
   * description, and a description has another one's signature exactly when it
   * is ambiguous.
   */
  lemma SignatureTellsDetails(d: Details)
    requires Open(d)
    ensures exists e :: Plain(e) && Signature(e) == Signature(d)
    ensures forall e :: Plain(e) && Plain(d) && Signature(e) == Signature(d) ==> e == d
    ensures (exists e :: Plain(e) && e != d && Signature(e) == Signature(d)) <==> Ambiguous(d.attribution, d.domains)
  {
    hide Signature, Ambiguous, Text;
    SignatureIsText(d);
    var b, es := FinestReading(d.attribution, d.domains);
    var e := Details(Active, b, es);
    SignatureIsText(e);
    assert Plain(e) && Signature(e) == Signature(d);
    forall x | Plain(x) && x != d && Signature(x) == Signature(d)
      ensures Ambiguous(d.attribution, d.domains)
    {
      SignatureIsText(x);
      SameTextAmbiguous(d.attribution, d.domains, x.attribution, x.domains);
    }
  }

  /**
   * A description of one part at most, all of it in an unambiguous domain or
   * application, shares its text with none.
   */
  lemma OnePartAmbiguous(a: Attribution, ds: seq<DomainRef>, b: Attribution, es: seq<DomainRef>)
    requires Text(a, ds) == Text(b, es) && (a != b || ds != es)
    requires ds == [] || (|ds| == 1 && a == Unknown)
    ensures Ambiguous(a, ds)
  {
    hide Text, Tag, Ambiguous;
    if ds == [] || es == [] {
      BareDiffers(a, ds, b, es);
    } else {
      var x, y, fewer := ds[0], es[|es| - 1], es[..|es| - 1];
      assert ds == [] + [x] && es == fewer + [y];
      TextOfMore(a, [], x);
      TextOfMore(b, fewer, y);
      SameEnd(Text(a, []) + "|" + x.domain, x, Text(b, fewer) + "|" + y.domain, y);
      if |x.domain| < |y.domain| {
        LongerIsAmbiguous(a, [], x, b, fewer, y);
      } else if |y.domain| < |x.domain| {
        LongerIsAmbiguous(b, fewer, y, a, [], x);
      } else {
        SameTail(Text(a, []) + "|", x.domain, Text(b, fewer) + "|", y.domain);
        SameTail(Text(a, []), "|", Text(b, fewer), "|");
        BareDiffers(a, [], b, fewer);
      }
    }
  }

  /** Two parts are read as one domain whose name holds the former separator. */
  lemma PartsMerge(a: Attribution, ds: seq<DomainRef>) returns (b: Attribution, es: seq<DomainRef>)
    requires |ds| >= 2 || (|ds| == 1 && a != Unknown)
    ensures Text(b, es) == Text(a, ds) && (b != a || |es| != |ds|)
  {
    hide Text, Tag, DomainsText;
    var y := ds[|ds| - 1];
    if |ds| >= 2 {
      var l, t := ds[..|ds| - 2], ds[|ds| - 2];
      var x := DomainRef(DomainText(t) + "|" + y.domain, y.evidence, y.confidence);
      CutAfterTag(a, l, x, [], t, y.domain);
      assert ds == l + [t, y] + [];
      b, es := a, l + [x] + [];
    } else if a.Application? {
      var x := DomainRef(a.id + ":" + KindText(a.kind) + "|" + y.domain, y.evidence, y.confidence);
      var id := CutAfterKind(Unknown, [], x, [], a.id, a.kind, y.domain);
      NothingText();
      assert ("|" + id)[1..] == id && ("|" + a.id)[1..] == a.id;
      assert ds == [y] + [];
      b, es := Unknown, [] + [x] + [];
    } else {
      var x := DomainRef("unattributed" + "|" + y.domain, y.evidence, y.confidence);
      CutAfterBroadcast(x, [], y.domain);
      assert ds == [y] + [];
      b, es := Unknown, [x] + [];
    }
  }

  /** Another description has the same signature exactly when this one is ambiguous or has two parts. */
  lemma SharesSignatureIff(d: Details)
    requires Open(d)
    ensures (exists e :: Open(e) && e != d && Signature(e) == Signature(d))
       <==> Ambiguous(d.attribution, d.domains) || |d.domains| >= 2 || (|d.domains| == 1 && d.attribution != Unknown)
  {
    hide Signature, Ambiguous, Text;
    SignatureIsText(d);
    if |d.domains| >= 2 || (|d.domains| == 1 && d.attribution != Unknown) {
      var b, es := PartsMerge(d.attribution, d.domains);
      var e := Details(Active, b, es);
      SignatureIsText(e);
      assert Open(e) && e != d && Signature(e) == Signature(d);
    } else {
      SignatureTellsDetails(d);
      forall e | Open(e) && e != d && Signature(e) == Signature(d)
        ensures Ambiguous(d.attribution, d.domains)
      {
        SignatureIsText(e);
        OnePartAmbiguous(d.attribution, d.domains, e.attribution, e.domains);
      }
    }
  }

  /**
   * With a separator after text like an application, a lone domain has the signature
   * of that application and another domain.
   */
  lemma SeparatorConfuses(id: string, kind: Kind, d: DomainRef)
    ensures var named := Details(Active, Application(id, kind), [d]);
      var bare := Details(Active, Unknown,
        [DomainRef(id + ":" + KindText(kind) + "|" + d.domain, d.evidence, d.confidence)]);
      named != bare && Signature(named) == Signature(bare)
  {
    hide Text, Tag, DomainsText;
    var x := DomainRef(id + ":" + KindText(kind) + "|" + d.domain, d.evidence, d.confidence);
    var other := CutAfterKind(Unknown, [], x, [], id, kind, d.domain);
    NothingText();
    assert ("|" + other)[1..] == other && ("|" + id)[1..] == id;
    assert [] + [x] + [] == [x] && [d] + [] == [d];
    SignatureIsText(Details(Active, Application(id, kind), [d]));
    SignatureIsText(Details(Active, Unknown, [x]));
  }

  /** Domain names as normalising leaves them: no capital ASCII letters. */
  ghost predicate LowerCase(ds: seq<DomainRef>) {
    forall i, k: nat :: 0 <= i < |ds| && k < |ds[i].domain| ==> !('A' <= ds[i].domain[k] <= 'Z')
  }

  lemma ConfidenceIsCapital(c: Confidence)
    ensures ConfidenceText(c) != "" && 'A' <= ConfidenceText(c)[0] <= 'Z'
  {
  }

  lemma Behind(a: string, b: string)
    requires b != ""
    ensures |a| < |a + b| && (a + b)[|a|] == b[0]
  {
  }

  lemma TagIsCapital(z: string) returns (k: nat)
    requires EndsInTag(z)
    ensures k < |z| && 'A' <= z[k] <= 'Z'
  {
    hide EvidenceText, ConfidenceText;
    var t := TagEnd(z);
    var before, c := t.domain + ":" + EvidenceText(t.evidence) + ":", ConfidenceText(t.confidence);
    Appended(t.domain, ":", EvidenceText(t.evidence), ":", c);
    assert z == before + c;
    ConfidenceIsCapital(t.confidence);
    Behind(before, c);
    k := |before|;
  }

  /** A cut that needs no tag. */
  ghost predicate AttributionCutAt(a: Attribution, ds: seq<DomainRef>, i: nat, p: nat)
    requires i < |ds|
  {
    var name := ds[i].domain;
    p < |name| && name[p] == '|' && ReadsAsAttribution(a, i, name[..p])
  }

  /** In normal names no tag can end before a separator: only an application or the text for none can. */
  lemma LowerCaseAmbiguousIff(a: Attribution, ds: seq<DomainRef>)
    requires LowerCase(ds)
    ensures Ambiguous(a, ds) <==> exists i: nat, p: nat :: i < |ds| && AttributionCutAt(a, ds, i, p)
  {
    hide EndsInTag, ReadsAsAttribution;
    forall i: nat, p: nat | i < |ds| && p < |ds[i].domain|
      ensures !EndsInTag(ds[i].domain[..p])
    {
      if EndsInTag(ds[i].domain[..p]) {
        var k := TagIsCapital(ds[i].domain[..p]);
        assert false;
      }
    }
    if Ambiguous(a, ds) {
      var i: nat, p: nat :| i < |ds| && CutAt(a, ds, i, p);
      assert AttributionCutAt(a, ds, i, p);
    }
    if i: nat, p: nat :| i < |ds| && AttributionCutAt(a, ds, i, p) {
      assert CutAt(a, ds, i, p);
    }
  }

  // -------------------------------------------------- descriptive fields over runs

  /** Every description of the run is one of `vocabulary`. */
  ghost predicate Speaks(es: seq<Event>, vocabulary: iset<Details>) {
    forall e :: e in es && e.Ingested? ==> forall u :: u in e.updated ==> u.flow.details in vocabulary
  }

  /** Signatures tell the open descriptions of the vocabulary apart. */
  ghost predicate Telling(vocabulary: iset<Details>) {
    forall d, e :: d in vocabulary && e in vocabulary && Open(d) && Open(e) && Signature(d) == Signature(e) ==> d == e
  }

  /** After every tick the client has the descriptive fields of each Flow of the tick. */
  ghost predicate AgreesOnDetails(c: Known, es: seq<Event>) {
    forall n: nat, f :: n < |es| && es[n].Ingested? && f in PrepareAll(ServerAt(es, n), es[n].updated).flows ==>
      f.id in ClientAt(c, es, n + 1) && ClientAt(c, es, n + 1)[f.id].details == f.details
  }

  /** The client's records of remembered Flows are open and speak the vocabulary. */
  ghost predicate Spoken(known: map<Id, string>, c: Known, vocabulary: iset<Details>) {
    forall id :: id in known ==> id in c && Open(c[id].details) && c[id].details in vocabulary
  }

  lemma IngestKeepsSpoken(known: map<Id, string>, c: Known, us: seq<Update>, vocabulary: iset<Details>)
    requires Spoken(known, c, vocabulary) && Distinct(us) && forall u :: u in us ==> u.flow.details in vocabulary
    ensures var p := PrepareAll(known, us);
      Spoken(p.known, Applied(c, TickFor(p.flows, p.patched, Everything)), vocabulary)
  {
    hide Signature, Applied, PrepareAll, TickFor;
    var p := PrepareAll(known, us);
    var z := Applied(c, TickFor(p.flows, p.patched, Everything));
    PreparedEffect(known, us);
    PreparedDistinct(known, us, p);
    AppliedEffect(c, p, Everything);
    EffectKeepsSpoken(known, c, us, p, z, vocabulary);
  }

  lemma EffectKeepsSpoken(
      known: map<Id, string>, c: Known, us: seq<Update>, p: Prepared, z: Known, vocabulary: iset<Details>)
    requires Spoken(known, c, vocabulary) && forall u :: u in us ==> u.flow.details in vocabulary
    requires Effect(known, us, p) && ClientEffect(c, p, Everything, z)
    ensures Spoken(p.known, z, vocabulary)
  {
    hide Signature;
    forall id | id in p.known
      ensures id in z && Open(z[id].details) && z[id].details in vocabulary
    {
      if i :| 0 <= i < |us| && us[i].flow.id == id {
        assert FlowEffect(known, us[i], p);
        assert us[i] in us && us[i].flow in p.flows;
      } else {
        assert forall f :: f in p.flows ==> f.id != id;
      }
    }
  }

  lemma {:induction false} RunKeepsSpoken(c: Known, es: seq<Event>, n: nat, vocabulary: iset<Details>)
    requires ValidEvents(es) && Speaks(es, vocabulary) && n <= |es|
    ensures Spoken(ServerAt(es, n), ClientAt(c, es, n), vocabulary)
  {
    hide Signature, Applied, PrepareAll, TickFor, Open;
    if n > 0 {
      RunKeepsSpoken(c, es, n - 1, vocabulary);
      var known, e := ServerAt(es, n - 1), es[n - 1];
      assert e in es;
      if e.Ingested? {
        IngestKeepsSpoken(known, ClientAt(c, es, n - 1), e.updated, vocabulary);
      } else {
        SilentTick(ClientAt(c, es, n - 1));
      }
    }
  }

  lemma TellingAgrees(c: Known, es: seq<Event>, n: nat, f: Flow, vocabulary: iset<Details>)
    requires ValidEvents(es) && Speaks(es, vocabulary) && Telling(vocabulary)
    requires n < |es| && es[n].Ingested? && f in PrepareAll(ServerAt(es, n), es[n].updated).flows
    ensures var z := ClientAt(c, es, n + 1);
      f.id in z && z[f.id].details == f.details && z[f.id].counters == f.counters
  {
    hide Signature, Applied, PrepareAll, TickFor;
    ReplicaAgrees(c, es, n, f);
    if !f.Closed() {
      var us, known := es[n].updated, ServerAt(es, n);
      assert es[n] in es;
      RunKeepsSpoken(c, es, n, vocabulary);
      IngestKeepsSpoken(known, ClientAt(c, es, n), us, vocabulary);
      PreparedEffect(known, us);
      var i :| 0 <= i < |us| && us[i].flow == f && (us[i].moved || f.Closed());
      assert us[i] in us && FlowEffect(known, us[i], PrepareAll(known, us));
    }
  }

  /** A first interval with this description of Flow `id` alone, and a second with that one. */
  function TwoIntervals(id: Id, d: Details, e: Details, counters: Counters): seq<Event> {
    [Ingested([Update(Flow(id, d, counters, ""), true)], 1), Ingested([Update(Flow(id, e, counters, ""), true)], 1)]
  }

  lemma FirstInterval(c: Known, id: Id, d: Details, e: Details, counters: Counters)
    requires Open(d)
    ensures var es := TwoIntervals(id, d, e, counters);
      ServerAt(es, 1) == map[id := Signature(d)]
      && id in ClientAt(c, es, 1) && ClientAt(c, es, 1)[id] == Flow(id, d, counters, "")
  {
    hide Signature;
    var es, f := TwoIntervals(id, d, e, counters), Flow(id, d, counters, "");
    OneUpdate(map[], f);
    OneFlowTick(f, {}, Everything);
    assert ServerAt(es, 0) == map[] && ClientAt(c, es, 0) == c;
    assert [f][..0] == [];
    assert map[id := Signature(d)].Keys == {id} && |map[id := Signature(d)]| == 1;
  }

  /** Two descriptions with one signature: the second interval leaves the client with the first description. */
  lemma SecondIntervalKeepsFirst(c: Known, id: Id, d: Details, e: Details, counters: Counters)
    requires Open(d) && Open(e) && d != e && Signature(d) == Signature(e)
    ensures var es := TwoIntervals(id, d, e, counters);
      && ValidEvents(es) && Speaks(es, iset{d, e})
      && Flow(id, e, counters, "") in PrepareAll(ServerAt(es, 1), es[1].updated).flows
      && id in ClientAt(c, es, 2) && ClientAt(c, es, 2)[id].details == d
  {
    hide Signature;
    var es, f := TwoIntervals(id, d, e, counters), Flow(id, e, counters, "");
    FirstInterval(c, id, d, e, counters);
    OneUpdate(ServerAt(es, 1), f);
    OneFlowTick(f, {id}, Everything);
    var z := ClientAt(c, es, 1);
    assert TickAt(es, 1) == Tick([], [Patch(id, counters)]);
    assert Replaced(z, []) == z;
    OverlaidAt(z, [Patch(id, counters)], id);
    assert Patch(id, counters) in [Patch(id, counters)];
    assert ClientAt(c, es, 2) == Overlaid(z, [Patch(id, counters)]);
  }

  /**
   * Clients have the descriptive fields right in every run that speaks a
   * vocabulary exactly when signatures tell its open descriptions apart.
   */
  lemma RunsAgreeIff(vocabulary: iset<Details>)
    ensures (forall c, es :: ValidEvents(es) && Speaks(es, vocabulary) ==> AgreesOnDetails(c, es))
       <==> Telling(vocabulary)
  {
    hide Signature, Applied, PrepareAll, TickFor, Open, ClientAt, ServerAt;
    if Telling(vocabulary) {
      forall c, es: seq<Event> | ValidEvents(es) && Speaks(es, vocabulary)
        ensures AgreesOnDetails(c, es)
      {
        forall n: nat, f | n < |es| && es[n].Ingested? && f in PrepareAll(ServerAt(es, n), es[n].updated).flows
          ensures f.id in ClientAt(c, es, n + 1) && ClientAt(c, es, n + 1)[f.id].details == f.details
        {
          TellingAgrees(c, es, n, f, vocabulary);
        }
      }
    } else {
      var d, e :| d in vocabulary && e in vocabulary && Open(d) && Open(e) && Signature(d) == Signature(e) && d != e;
      var counters := Counters(0, 0, 0, 0, 0);
      var c, es := map[], TwoIntervals(0, d, e, counters);
      SecondIntervalKeepsFirst(c, 0, d, e, counters);
      assert Speaks(es, vocabulary);
      assert !AgreesOnDetails(c, es) by {
        var f := Flow(0, e, counters, "");
        assert es[1].Ingested? && f in PrepareAll(ServerAt(es, 1), es[1].updated).flows;
      }
    }
  }

  /**
   * Unambiguous descriptions are such a vocabulary, and no larger one is: with
   * one ambiguous description more, some run leaves a client wrong.
   */
  lemma PlainIsLargest(d: Details)
    requires Open(d)
    ensures Telling(iset e | Plain(e))
    ensures Telling((iset e | Plain(e)) + iset{d}) <==> Plain(d)
  {
    hide Signature, Ambiguous;
    var plain := iset e | Plain(e);
    forall x, y | x in plain && y in plain && Signature(x) == Signature(y)
      ensures x == y
    {
      SignatureTellsDetails(x);
    }
    SignatureTellsDetails(d);
    if !Plain(d) {
      var e :| Plain(e) && e != d && Signature(e) == Signature(d);
      assert e in plain + iset{d} && d in plain + iset{d};
    } else {
      assert plain + iset{d} == plain;
    }
  }

  /** While no domain is ambiguous, the client also agrees on every descriptive field of each Flow of the tick. */
  lemma ReplicaAgreesOnDetails(c: Known, es: seq<Event>, n: nat, f: Flow)
    requires ValidEvents(es) && Speaks(es, iset d: Details | !Open(d) || Plain(d))
    requires n < |es| && es[n].Ingested? && f in PrepareAll(ServerAt(es, n), es[n].updated).flows
    ensures var z := ClientAt(c, es, n + 1);
      f.id in z && z[f.id].details == f.details && z[f.id].counters == f.counters
  {
    hide Signature, Ambiguous;
    var vocabulary := iset d: Details | !Open(d) || Plain(d);
    forall x, y | x in vocabulary && y in vocabulary && Open(x) && Open(y) && Signature(x) == Signature(y)
      ensures x == y
    {
      SignatureTellsDetails(x);
    }
    TellingAgrees(c, es, n, f, vocabulary);
  }
}
