/**
 * What the Flow map holds, told from the packets themselves: a history of what
 * was recorded and evicted, kept beside a run of the packet path.
 */
module FlowHistory {
  import opened Common
  import opened PacketParser
  import opened TokenBucket
  import opened RuleLookup
  import opened PacketPath
  import opened Sums

  datatype Note = Kept(flow: ParsedFlow, frame: Frame) | Evicted(key: FlowKey)

  type Packets = seq<(ParsedFlow, Frame)>

  /** The packet belongs to the Flow. */
  predicate Of(k: FlowKey, f: ParsedFlow, fr: Frame) {
    && k.srcAddr == f.srcAddr && k.dstAddr == f.dstAddr && k.srcPortBe == f.srcPortBe && k.dstPortBe == f.dstPortBe
    && k.protocol == f.protocol && k.ipFamily == f.ipFamily
    && k.ifindex == fr.ifindex && k.direction == fr.direction
  }

  /** The packets recorded for a Flow since it was last evicted. */
  function Since(notes: seq<Note>, k: FlowKey): Packets {
    if notes == [] then []
    else
      var before := Since(notes[..|notes| - 1], k);
      match notes[|notes| - 1]
      case Kept(f, fr) => if Of(k, f, fr) then before + [(f, fr)] else before
      case Evicted(key) => if key == k then [] else before
  }

  function Lengths(ps: Packets): nat {
    if ps == [] then 0 else Lengths(ps[..|ps| - 1]) + ps[|ps| - 1].1.len
  }

  /** The entry is the summary of these packets: counters that stop at their maximum, first and last time, all flags. */
  ghost predicate Summarises(v: FlowValue, ps: Packets) {
    && ps != []
    && v.packets == Min(|ps|, U64_MAX) && v.bytes == Min(Lengths(ps), U64_MAX)
    && v.firstSeen == ps[0].1.observed && v.lastSeen == ps[|ps| - 1].1.observed
    && (forall i: nat :: HasBit(v.tcpFlags, i) <==> i < 16 && exists p :: p in ps && HasBit(p.0.tcpFlags, i))
    && (forall i: nat :: HasBit(v.parseFlags, i) <==> i < 16 && exists p :: p in ps && HasBit(p.0.parseFlags, i))
    && (v.sampled <==> exists p :: p in ps && p.0.payloadOffset < p.0.payloadEnd)
  }

  /**
   * The history of a run: its notes, the bytes let through and what became of them,
   * and the packets no rule matched.
   */
  datatype History = History(
    notes: seq<Note>, throughBytes: nat, evictedBytes: nat, refusedBytes: nat, unruled: nat, judged: nat)

  ghost predicate HasEntry(notes: seq<Note>, f: ParsedFlow, fr: Frame) {
    exists k :: Of(k, f, fr) && Since(notes, k) != []
  }

  /** A packet that is let through is recorded in its Flow, or in a new one if that fits. */
  ghost function LetThrough(h: History, f: ParsedFlow, fr: Frame): History {
    if fr.inserted || HasEntry(h.notes, f, fr) then
      h.(notes := h.notes + [Kept(f, fr)], throughBytes := h.throughBytes + fr.len)
    else h.(refusedBytes := h.refusedBytes + fr.len, throughBytes := h.throughBytes + fr.len)
  }

  ghost function Ruled(h: History, s: System, f: ParsedFlow, fr: Frame): History {
    match ChooseRule(s.path.tables, f, fr.direction)
    case None => h.(unruled := h.unruled + 1)
    case Some(rule) =>
      h.(judged := h.judged + if BucketKey(rule.rule, fr.direction) in s.path.states then 1 else 0)
  }

  ghost function Noted(h: History, s: System, e: Event): History {
    match e
    case Receive(fr) =>
      var r := Parse(fr.cursor);
      if !r.Flow? then h
      else
        var g := Ruled(h, s, r.flow, fr);
        if Processed(s.path, fr).1 == Shot then g else LetThrough(g, r.flow, fr)
    case EvictFlow(k) =>
      if k !in s.path.flows then h
      else h.(notes := h.notes + [Evicted(k)], evictedBytes := h.evictedBytes + s.path.flows[k].bytes)
    case _ => h
  }

  ghost function HistoryOf(t: Tables, events: seq<Event>): History {
    if events == [] then History([], 0, 0, 0, 0, 0)
    else
      var less := events[..|events| - 1];
      Noted(HistoryOf(t, less), RunAll(Start(t), less), events[|events| - 1])
  }

  // ------------------------------------------------------------- entries

  /** The Flow map is the summary of the history, Flow by Flow. */
  ghost predicate FlowsSummarised(flows: map<FlowKey, FlowValue>, notes: seq<Note>) {
    forall k :: (k in flows <==> Since(notes, k) != []) && (k in flows ==> Summarises(flows[k], Since(notes, k)))
  }

  lemma SinceNext(notes: seq<Note>, n: Note, k: FlowKey)
    ensures Since(notes + [n], k) ==
      if n.Kept? then
        if Of(k, n.flow, n.frame) then Since(notes, k) + [(n.flow, n.frame)] else Since(notes, k)
      else if n.key == k then [] else Since(notes, k)
  {
    assert (notes + [n])[..|notes|] == notes;
  }

  lemma LengthsNext(ps: Packets, p: (ParsedFlow, Frame))
    ensures Lengths(ps + [p]) == Lengths(ps) + p.1.len
  {
    assert (ps + [p])[..|ps|] == ps;
  }

  lemma FlagsAdd(v: u16, f: u16, i: nat)
    ensures HasBit(Flags(v, f), i) <==> i < 16 && (HasBit(v, i) || HasBit(f, i))
  {
    OrHasBit(v, f, 16, i);
  }

  /** The flags of a summary, with one packet more. */
  lemma MoreFlags(v: u16, ps: Packets, f: ParsedFlow, fr: Frame, i: nat)
    requires HasBit(v, i) ==> i < 16
    requires i < 16 ==> (HasBit(v, i) <==> exists p :: p in ps && HasBit(p.0.tcpFlags, i))
    ensures HasBit(Flags(v, f.tcpFlags), i) <==>
      i < 16 && exists p :: p in ps + [(f, fr)] && HasBit(p.0.tcpFlags, i)
  {
    hide Flags, HasBit;
    FlagsAdd(v, f.tcpFlags, i);
    assert (f, fr) in ps + [(f, fr)];
    assert forall p :: p in ps ==> p in ps + [(f, fr)];
  }

  lemma MoreParseFlags(v: u16, ps: Packets, f: ParsedFlow, fr: Frame, i: nat)
    requires HasBit(v, i) ==> i < 16
    requires i < 16 ==> (HasBit(v, i) <==> exists p :: p in ps && HasBit(p.0.parseFlags, i))
    ensures HasBit(Flags(v, f.parseFlags), i) <==>
      i < 16 && exists p :: p in ps + [(f, fr)] && HasBit(p.0.parseFlags, i)
  {
    hide Flags, HasBit;
    FlagsAdd(v, f.parseFlags, i);
    assert (f, fr) in ps + [(f, fr)];
    assert forall p :: p in ps ==> p in ps + [(f, fr)];
  }

  lemma MoreSampled(ps: Packets, f: ParsedFlow, fr: Frame)
    ensures (exists p :: p in ps + [(f, fr)] && p.0.payloadOffset < p.0.payloadEnd) <==>
      (exists p :: p in ps && p.0.payloadOffset < p.0.payloadEnd) || f.payloadOffset < f.payloadEnd
  {
    assert (f, fr) in ps + [(f, fr)];
    assert forall p :: p in ps ==> p in ps + [(f, fr)];
  }

  lemma RecordedSummarises(v: FlowValue, ps: Packets, f: ParsedFlow, fr: Frame)
    requires if ps == [] then v == NEW_FLOW else Summarises(v, ps)
    ensures Summarises(Recorded(v, f, fr.observed, fr.len), ps + [(f, fr)])
  {
    hide Flags, HasBit;
    LengthsNext(ps, (f, fr));
    MoreSampled(ps, f, fr);
    forall i: nat
      ensures HasBit(Flags(v.tcpFlags, f.tcpFlags), i) <==>
        i < 16 && exists p :: p in ps + [(f, fr)] && HasBit(p.0.tcpFlags, i)
      ensures HasBit(Flags(v.parseFlags, f.parseFlags), i) <==>
        i < 16 && exists p :: p in ps + [(f, fr)] && HasBit(p.0.parseFlags, i)
    {
      if ps == [] {
        NoBits(i);
      }
      MoreFlags(v.tcpFlags, ps, f, fr, i);
      MoreParseFlags(v.parseFlags, ps, f, fr, i);
    }
  }

  lemma KeyIsOf(k: FlowKey, f: ParsedFlow, fr: Frame)
    ensures Of(k, f, fr) <==> k == KeyOf(f, fr.direction, fr.ifindex)
  {
  }

  lemma UpdateSummarised(p: Path, h: History, f: ParsedFlow, fr: Frame)
    requires FlowsSummarised(p.flows, h.notes)
    ensures FlowsSummarised(Updated(p, f, fr).flows, LetThrough(h, f, fr).notes)
  {
    hide KeyOf, Recorded, Summarises, Of;
    var key := KeyOf(f, fr.direction, fr.ifindex);
    var flows, notes := Updated(p, f, fr).flows, LetThrough(h, f, fr).notes;
    forall k
      ensures Of(k, f, fr) <==> k == key
    {
      KeyIsOf(k, f, fr);
    }
    assert HasEntry(h.notes, f, fr) <==> key in p.flows;
    forall k
      ensures (k in flows <==> Since(notes, k) != []) && (k in flows ==> Summarises(flows[k], Since(notes, k)))
    {
      SinceNext(h.notes, Kept(f, fr), k);
      if k == key && notes != h.notes {
        RecordedSummarises(if key in p.flows then p.flows[key] else NEW_FLOW, Since(h.notes, key), f, fr);
      }
    }
  }

  lemma NextSummarised(s: System, h: History, e: Event)
    requires FlowsSummarised(s.path.flows, h.notes)
    ensures FlowsSummarised(Next(s, e).path.flows, Noted(h, s, e).notes)
  {
    hide Parse, FlowsSummarised, ChooseRule, Enforced, Updated;
    match e
    case Receive(fr) =>
      if Parse(fr.cursor).Flow? {
        var f := Parse(fr.cursor).flow;
        var q := Evaluated(SeenAndParsed(s.path), f, fr).0;
        EvaluatedTotals(SeenAndParsed(s.path), f, fr);
        UpdateSummarised(q, Ruled(h, s, f, fr), f, fr);
        assert Processed(s.path, fr) == Handled(s.path, fr, Flow(f));
      }
    case EvictFlow(k) => EvictSummarised(s, h, k);
    case _ =>
  }

  lemma EvictSummarised(s: System, h: History, key: FlowKey)
    requires FlowsSummarised(s.path.flows, h.notes)
    ensures FlowsSummarised(Next(s, EvictFlow(key)).path.flows, Noted(h, s, EvictFlow(key)).notes)
  {
    hide Summarises;
    forall k
      ensures Since(h.notes + [Evicted(key)], k) == if k == key then [] else Since(h.notes, k)
    {
      SinceNext(h.notes, Evicted(key), k);
    }
  }

  /**
   * After every run, the Flow map holds exactly the Flows with a packet recorded
   * since their last eviction, and each entry is the summary of those packets.
   */
  lemma {:induction false} RunSummarises(t: Tables, events: seq<Event>)
    ensures FlowsSummarised(RunAll(Start(t), events).path.flows, HistoryOf(t, events).notes)
  {
    hide Next, Noted, FlowsSummarised;
    if events == [] {
      assert FlowsSummarised(map[], []) by { NothingRecorded(); }
    } else {
      var less := events[..|events| - 1];
      RunSummarises(t, less);
      NextSummarised(RunAll(Start(t), less), HistoryOf(t, less), events[|events| - 1]);
    }
  }

  lemma NothingRecorded()
    ensures FlowsSummarised(map[], [])
  {
  }

  // ---------------------------------------------------------------- bytes

  function BytesOf(k: FlowKey, v: FlowValue): int { v.bytes }

  /**
   * Bytes let through are in the Flow map, left it, or found no room; parsed packets
   * had no rule, no state, or a verdict.
   */
  ghost predicate BytesConserved(s: System, h: History) {
    && (h.throughBytes < U64_MAX ==> h.throughBytes == Total(s.path.flows, BytesOf) + h.evictedBytes + h.refusedBytes)
    && (s.path.stats.parsed < U64_MAX ==> s.path.stats.parsed == h.unruled + s.path.stats.policyMissingState + h.judged)
  }

  lemma UpdatedBytes(p: Path, f: ParsedFlow, fr: Frame)
    requires Total(p.flows, BytesOf) + fr.len < U64_MAX
    ensures var q, key := Updated(p, f, fr), KeyOf(f, fr.direction, fr.ifindex);
      Total(q.flows, BytesOf) == Total(p.flows, BytesOf) + if key in p.flows || fr.inserted then fr.len else 0
  {
    hide Flags;
    var key := KeyOf(f, fr.direction, fr.ifindex);
    if key in p.flows {
      TotalAtLeast(p.flows, BytesOf, key);
    }
    var q := Updated(p, f, fr);
    TotalUpdate(p.flows, BytesOf, key, if key in q.flows then q.flows[key] else NEW_FLOW);
  }

  lemma PassConserves(s: System, h: History, fr: Frame, f: ParsedFlow)
    requires BytesConserved(s, h) && FlowsSummarised(s.path.flows, h.notes) && Parse(fr.cursor) == Flow(f)
    ensures BytesConserved(Next(s, Receive(fr)), Noted(h, s, Receive(fr)))
  {
    hide Parse, ChooseRule, Enforced, Updated, Of, Summarises, KeyOf;
    var p := SeenAndParsed(s.path);
    EvaluatedTotals(p, f, fr);
    var (q, verdict) := Evaluated(p, f, fr);
    TotalNonNegative(s.path.flows, BytesOf);
    assert HasEntry(h.notes, f, fr) <==> KeyOf(f, fr.direction, fr.ifindex) in s.path.flows by {
      EntryIsLive(s.path.flows, h.notes, f, fr);
    }
    if verdict == Pass && h.throughBytes + fr.len < U64_MAX {
      UpdatedBytes(q, f, fr);
    }
    UpdatedStats(q, f, fr);
    assert Processed(s.path, fr) == Handled(s.path, fr, Flow(f));
  }

  lemma UpdatedStats(p: Path, f: ParsedFlow, fr: Frame)
    ensures var q := Updated(p, f, fr);
      q.stats.parsed == p.stats.parsed && q.stats.policyMissingState == p.stats.policyMissingState
  {
  }

  lemma EntryIsLive(flows: map<FlowKey, FlowValue>, notes: seq<Note>, f: ParsedFlow, fr: Frame)
    requires FlowsSummarised(flows, notes)
    ensures HasEntry(notes, f, fr) <==> KeyOf(f, fr.direction, fr.ifindex) in flows
  {
    hide KeyOf, Of, Summarises;
    forall k
      ensures Of(k, f, fr) <==> k == KeyOf(f, fr.direction, fr.ifindex)
    {
      KeyIsOf(k, f, fr);
    }
  }

  lemma NextBytes(s: System, h: History, e: Event)
    requires BytesConserved(s, h) && FlowsSummarised(s.path.flows, h.notes)
    ensures BytesConserved(Next(s, e), Noted(h, s, e))
  {
    hide Parse, FlowsSummarised, Evaluated, Updated;
    match e
    case Receive(fr) =>
      if Parse(fr.cursor).Flow? {
        PassConserves(s, h, fr, Parse(fr.cursor).flow);
      }
    case EvictFlow(k) =>
      if k in s.path.flows {
        TotalRemove(s.path.flows, BytesOf, k);
      }
    case _ =>
  }

  /** Over every run, short of saturation: no byte that was let through is lost or counted twice. */
  lemma {:induction false} RunKeepsBytes(t: Tables, events: seq<Event>)
    ensures BytesConserved(RunAll(Start(t), events), HistoryOf(t, events))
  {
    hide Next, Noted, BytesConserved, FlowsSummarised;
    if events == [] {
      assert BytesConserved(Start(t), History([], 0, 0, 0, 0, 0)) by { NothingThrough(t); }
    } else {
      var less := events[..|events| - 1];
      RunKeepsBytes(t, less);
      RunSummarises(t, less);
      NextBytes(RunAll(Start(t), less), HistoryOf(t, less), events[|events| - 1]);
    }
  }

  lemma NothingThrough(t: Tables)
    ensures BytesConserved(Start(t), History([], 0, 0, 0, 0, 0))
  {
  }
}
