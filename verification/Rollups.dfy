/**
 * Minute and hour rollups of boundary traffic and of every traffic entity.
 *
 * The two tables are maps from primary key to counters. An ingest is one
 * transaction; a retention pass and a clear are statements that each commit on
 * their own and stop at the first that fails.
 */
module Rollups {
  import opened Common
  import opened Sums

  /** Nanoseconds since the Unix epoch; earlier times are negative. */
  type SystemTime = int

  const NS_PER_MS := 1_000_000
  const MINUTE_MS := 60_000
  const HOUR_MS := 3_600_000
  const MINUTE_BUCKET_RETENTION_MS := 2 * 60 * 60 * 1000
  const HOUR_BUCKET_RETENTION_MS := 8 * 24 * 60 * 60 * 1000

  datatype Resolution = Minute | Hour
  datatype Kind = Endpoint | Application | Domain
  datatype Series = Boundary | Entity(kind: Kind, key: string)
  datatype RowKey = RowKey(series: Series, resolution: Resolution, start: int, ifindex: int)
  datatype Cell = Cell(inPackets: int, inBytes: int, outPackets: int, outBytes: int)
  datatype Measure = InPackets | InBytes | OutPackets | OutBytes
  type Table = map<RowKey, Cell>

  // -------------------------------------------------------------------- time

  function StepMs(r: Resolution): (s: int)
    ensures s > 0
  {
    if r == Minute then MINUTE_MS else HOUR_MS
  }

  /** Milliseconds, rounded towards the epoch. */
  function UnixMillis(t: SystemTime): int {
    if t >= 0 then t / NS_PER_MS else -(-t / NS_PER_MS)
  }

  /** Start of the step that holds `t`; times before the epoch count as the epoch. */
  function TruncateTime(t: SystemTime, stepSeconds: int): SystemTime
    requires stepSeconds > 0
  {
    (if t >= 0 then t / NS_PER_SECOND else 0) / stepSeconds * stepSeconds * NS_PER_SECOND
  }

  function BucketStart(t: SystemTime, r: Resolution): int {
    UnixMillis(TruncateTime(t, if r == Minute then 60 else 3600))
  }

  /** A bucket starts at a multiple of its step, holds its time, and a minute lies inside its hour. */
  lemma BucketStarts(t: SystemTime)
    ensures forall r :: BucketStart(t, r) % StepMs(r) == 0 && BucketStart(t, r) >= 0
    ensures t >= 0 ==> forall r :: BucketStart(t, r) <= UnixMillis(t) < BucketStart(t, r) + StepMs(r)
    ensures BucketStart(t, Hour) <= BucketStart(t, Minute) < BucketStart(t, Hour) + HOUR_MS
  {
    hide BucketStart, UnixMillis;
    BucketStartIs(t, Minute);
    BucketStartIs(t, Hour);
    MillisOf(t);
    StepsOf(Seconds(t));
    forall r
      ensures BucketStart(t, r) % StepMs(r) == 0 && BucketStart(t, r) >= 0
      ensures t >= 0 ==> BucketStart(t, r) <= UnixMillis(t) < BucketStart(t, r) + StepMs(r)
    {
      if r == Minute {
      } else {
      }
    }
  }

  function Seconds(t: SystemTime): nat {
    if t >= 0 then t / NS_PER_SECOND else 0
  }

  lemma BucketStartIs(t: SystemTime, r: Resolution)
    ensures BucketStart(t, r) == (if r == Minute then Seconds(t) / 60 * MINUTE_MS else Seconds(t) / 3600 * HOUR_MS)
  {
  }

  lemma MillisOf(t: SystemTime)
    ensures t >= 0 ==> Seconds(t) * 1000 <= UnixMillis(t) < Seconds(t) * 1000 + 1000
  {
  }

  lemma StepsOf(s: nat)
    ensures s / 60 * MINUTE_MS <= s * 1000 && s * 1000 + 1000 <= s / 60 * MINUTE_MS + MINUTE_MS
    ensures s / 3600 * HOUR_MS <= s * 1000 && s * 1000 + 1000 <= s / 3600 * HOUR_MS + HOUR_MS
    ensures s / 60 * MINUTE_MS % MINUTE_MS == 0 && s / 3600 * HOUR_MS % HOUR_MS == 0
    ensures s / 3600 * HOUR_MS <= s / 60 * MINUTE_MS < s / 3600 * HOUR_MS + HOUR_MS
  {
    assert s / 3600 * 60 <= s / 60 < s / 3600 * 60 + 60;
  }

  // ------------------------------------------------------------------- tables

  function Part(c: Cell, m: Measure): int {
    match m
    case InPackets => c.inPackets
    case InBytes => c.inBytes
    case OutPackets => c.outPackets
    case OutBytes => c.outBytes
  }

  function Plus(a: Cell, b: Cell): Cell {
    Cell(a.inPackets + b.inPackets, a.inBytes + b.inBytes, a.outPackets + b.outPackets, a.outBytes + b.outBytes)
  }

  /** `INSERT ... ON CONFLICT DO UPDATE` that adds the counters. */
  function Upserted(t: Table, k: RowKey, c: Cell): Table {
    t[k := if k in t then Plus(t[k], c) else c]
  }

  datatype Selector =
    | OneRow(key: RowKey)
    | EndpointRows(resolution: Resolution, start: int, ifindex: int)
    | MinutesOf(series: Series, hour: int, ifindex: int)
    | SeriesRange(series: Series, resolution: Resolution, first: int, last: int)

  predicate Selects(s: Selector, k: RowKey) {
    match s
    case OneRow(key) => k == key
    case EndpointRows(resolution, start, ifindex) =>
      && k.series.Entity? && k.series.kind == Endpoint
      && k.resolution == resolution && k.start == start && k.ifindex == ifindex
    case MinutesOf(series, hour, ifindex) =>
      k.series == series && k.resolution == Minute && hour <= k.start < hour + HOUR_MS && k.ifindex == ifindex
    case SeriesRange(series, resolution, first, last) =>
      k.series == series && k.resolution == resolution && first <= k.start <= last
  }

  ghost function Contribution(s: Selector, m: Measure): (RowKey, Cell) -> int {
    (k: RowKey, c: Cell) => if Selects(s, k) then Part(c, m) else 0
  }

  /** What the selected rows of a table hold together. */
  ghost function Sum(t: Table, s: Selector, m: Measure): int {
    Total(t, Contribution(s, m))
  }

  function Chosen(s: Selector, k: RowKey, c: Cell, m: Measure): int {
    if Selects(s, k) then Part(c, m) else 0
  }

  lemma UpsertAdds(t: Table, k: RowKey, c: Cell, s: Selector, m: Measure)
    ensures Sum(Upserted(t, k, c), s, m) == Sum(t, s, m) + Chosen(s, k, c, m)
  {
    TotalUpdate(t, Contribution(s, m), k, Upserted(t, k, c)[k]);
  }

  /** A selector of one row yields that row, or nothing. */
  lemma OneRowSum(t: Table, k: RowKey, m: Measure)
    ensures Sum(t, OneRow(k), m) == if k in t then Part(t[k], m) else 0
  {
    var f := Contribution(OneRow(k), m);
    if k in t {
      TotalRemove(t, f, k);
      TotalZero(t - {k}, f);
    } else {
      TotalZero(t, f);
    }
  }

  // ------------------------------------------------------------------ ingest

  datatype Counters = Counters(packets: u64, bytes: u64)
  datatype Group = Group(ifindex: int, interface: string)
  datatype Totals = Totals(inbound: Counters, outbound: Counters)

  const NO_TRAFFIC := Totals(Counters(0, 0), Counters(0, 0))

  /** The counter movement of one updated Flow, with the names it is booked under. */
  datatype FlowDelta = FlowDelta(
    remote: string, application: Option<string>, domains: seq<string>,
    direction: Direction, packets: u64, bytes: u64, ifindex: int, interface: string)
  {
    predicate Moved() {
      packets != 0 || bytes != 0
    }
  }

  function DeltaCell(d: FlowDelta): Cell {
    if d.direction == Inbound then Cell(AsI64(d.packets), AsI64(d.bytes), 0, 0)
    else Cell(0, 0, AsI64(d.packets), AsI64(d.bytes))
  }

  function TotalsCell(t: Totals): Cell {
    Cell(AsI64(t.inbound.packets), AsI64(t.inbound.bytes), AsI64(t.outbound.packets), AsI64(t.outbound.bytes))
  }

  function AddCounters(c: Counters, d: FlowDelta): Counters {
    Counters(SaturatingAdd(c.packets, d.packets), SaturatingAdd(c.bytes, d.bytes))
  }

  function AddDelta(t: Totals, d: FlowDelta): Totals {
    if d.direction == Inbound then t.(inbound := AddCounters(t.inbound, d))
    else t.(outbound := AddCounters(t.outbound, d))
  }

  type GroupTotals = map<Group, Totals>

  function Accumulated(ts: GroupTotals, d: FlowDelta): GroupTotals {
    var g := Group(d.ifindex, d.interface);
    if d.Moved() then ts[g := AddDelta(if g in ts then ts[g] else NO_TRAFFIC, d)] else ts
  }

  /** Traffic per interface of one interval. */
  function TotalsOf(batch: seq<FlowDelta>): GroupTotals {
    if batch == [] then map[] else Accumulated(TotalsOf(batch[..|batch| - 1]), batch[|batch| - 1])
  }

  function DomainKeys(d: FlowDelta, r: Resolution, start: int, n: nat): seq<RowKey>
    requires n <= |d.domains|
  {
    if n == 0 then []
    else DomainKeys(d, r, start, n - 1) + [RowKey(Entity(Domain, d.domains[n - 1]), r, start, d.ifindex)]
  }

  /** The rows of one resolution a Flow is booked in. */
  function EntityKeys(d: FlowDelta, r: Resolution, start: int): seq<RowKey> {
    [RowKey(Entity(Endpoint, d.remote), r, start, d.ifindex)]
    + (if d.application.Some? then [RowKey(Entity(Application, d.application.value), r, start, d.ifindex)] else [])
    + DomainKeys(d, r, start, |d.domains|)
  }

  function Booked(t: Table, keys: seq<RowKey>, c: Cell): Table {
    if keys == [] then t else Upserted(Booked(t, keys[..|keys| - 1], c), keys[|keys| - 1], c)
  }

  function DeltaBooked(t: Table, d: FlowDelta, at: SystemTime): Table {
    if !d.Moved() then t
    else
      var minutes := Booked(t, EntityKeys(d, Minute, BucketStart(at, Minute)), DeltaCell(d));
      Booked(minutes, EntityKeys(d, Hour, BucketStart(at, Hour)), DeltaCell(d))
  }

  function BatchBooked(t: Table, batch: seq<FlowDelta>, at: SystemTime): Table {
    if batch == [] then t else DeltaBooked(BatchBooked(t, batch[..|batch| - 1], at), batch[|batch| - 1], at)
  }

  ghost function GroupContribution(at: SystemTime, s: Selector, m: Measure): (Group, Totals) -> int {
    (g: Group, t: Totals) => GroupGain(at, s, m, g, t)
  }

  function GroupGain(at: SystemTime, s: Selector, m: Measure, g: Group, t: Totals): int {
    Chosen(s, RowKey(Boundary, Minute, BucketStart(at, Minute), g.ifindex), TotalsCell(t), m)
    + Chosen(s, RowKey(Boundary, Hour, BucketStart(at, Hour), g.ifindex), TotalsCell(t), m)
  }

  function TrafficKeys(ts: GroupTotals, at: SystemTime): set<RowKey> {
    set g, r | g in ts && r in {Minute, Hour} :: RowKey(Boundary, r, BucketStart(at, r), g.ifindex)
  }

  /** `after` is `before` with the interface totals added, whatever the order of the writes. */
  ghost predicate TotalsBooked(before: Table, ts: GroupTotals, at: SystemTime, after: Table) {
    && (forall s, m :: Sum(after, s, m) == Sum(before, s, m) + Total(ts, GroupContribution(at, s, m)))
    && after.Keys == before.Keys + TrafficKeys(ts, at)
  }

  function Expired(k: RowKey, now: SystemTime): bool {
    var retention := if k.resolution == Minute then MINUTE_BUCKET_RETENTION_MS else HOUR_BUCKET_RETENTION_MS;
    k.start < UnixMillis(now) - retention
  }

  /** A table after the pass at `now` swept these resolutions. */
  function Retained(t: Table, now: SystemTime, swept: set<Resolution>): Table {
    map k | k in t && !(k.resolution in swept && Expired(k, now)) :: t[k]
  }

  /** `DELETE ... WHERE resolution = r AND start_ms < cutoff`. */
  function Deleted(t: Table, r: Resolution, cutoff: int): Table {
    map k | k in t && !(k.resolution == r && k.start < cutoff) :: t[k]
  }

  lemma DeletedRetains(t: Table, now: SystemTime)
    ensures Retained(t, now, {}) == t
    ensures Deleted(t, Minute, UnixMillis(now) - MINUTE_BUCKET_RETENTION_MS) == Retained(t, now, {Minute})
    ensures Deleted(Retained(t, now, {Minute}), Hour, UnixMillis(now) - HOUR_BUCKET_RETENTION_MS)
      == Retained(t, now, {Minute, Hour})
  {
    hide UnixMillis;
  }

  datatype Store = Store(traffic: Table, entities: Table)

  /** What the first `done` of the four statements of a pass sweep of the boundary rows. */
  function TrafficSwept(done: nat): set<Resolution> {
    if done == 0 then {} else if done == 1 then {Minute} else {Minute, Hour}
  }

  /** The entity rows follow, in the third and the fourth. */
  function EntitiesSwept(done: nat): set<Resolution> {
    if done < 2 then {} else TrafficSwept(done - 2)
  }

  function SweptStore(s: Store, now: SystemTime, done: nat): Store {
    Store(Retained(s.traffic, now, TrafficSwept(done)), Retained(s.entities, now, EntitiesSwept(done)))
  }

  const PASS_STATEMENTS := 4

  /** Of the statements of a clear, the third empties the boundary rows and the fourth the entity rows. */
  function ClearedStore(s: Store, done: nat): Store {
    Store(if done >= 3 then map[] else s.traffic, if done >= 4 then map[] else s.entities)
  }

  /** The bucket tables as an ingest, a retention pass and a clear update them. */
  class BucketStore {
    var traffic: Table
    var entities: Table

    constructor ()
      ensures traffic == map[] && entities == map[]
    {
      traffic, entities := map[], map[];
    }

    method AddBucket(k: RowKey, c: Cell)
      modifies this`traffic
      ensures traffic == Upserted(old(traffic), k, c)
    {
      traffic := traffic[k := if k in traffic then Plus(traffic[k], c) else c];
    }

    method AddEntityBucket(k: RowKey, c: Cell)
      modifies this`entities
      ensures entities == Upserted(old(entities), k, c)
    {
      entities := entities[k := if k in entities then Plus(entities[k], c) else c];
    }

    method BookResolution(d: FlowDelta, r: Resolution, start: int)
      modifies this`entities
      ensures entities == Booked(old(entities), EntityKeys(d, r, start), DeltaCell(d))
    {
      ghost var before := entities;
      ghost var keys := [RowKey(Entity(Endpoint, d.remote), r, start, d.ifindex)];
      AddEntityBucket(RowKey(Entity(Endpoint, d.remote), r, start, d.ifindex), DeltaCell(d));
      BookedOne(before, [], keys[0], DeltaCell(d));
      if d.application.Some? {
        var k := RowKey(Entity(Application, d.application.value), r, start, d.ifindex);
        AddEntityBucket(k, DeltaCell(d));
        BookedOne(before, keys, k, DeltaCell(d));
        keys := keys + [k];
      }
      ghost var first := keys;
      for i := 0 to |d.domains|
        invariant keys == first + DomainKeys(d, r, start, i)
        invariant entities == Booked(before, keys, DeltaCell(d))
      {
        var k := RowKey(Entity(Domain, d.domains[i]), r, start, d.ifindex);
        AddEntityBucket(k, DeltaCell(d));
        BookedOne(before, keys, k, DeltaCell(d));
        keys := keys + [k];
        assert keys == first + DomainKeys(d, r, start, i + 1);
      }
    }

    method Ingest(batch: seq<FlowDelta>, collectedAt: SystemTime)
      modifies this
      ensures entities == BatchBooked(old(entities), batch, collectedAt)
      ensures TotalsBooked(old(traffic), TotalsOf(batch), collectedAt, traffic)
    {
      hide BucketStart, EntityKeys, TotalsBooked;
      var minute, hour := BucketStart(collectedAt, Minute), BucketStart(collectedAt, Hour);
      var interfaceTotals: GroupTotals := map[];
      for i := 0 to |batch|
        invariant traffic == old(traffic)
        invariant interfaceTotals == TotalsOf(batch[..i])
        invariant entities == BatchBooked(old(entities), batch[..i], collectedAt)
      {
        var d := batch[i];
        assert batch[..i + 1][..i] == batch[..i];
        if d.Moved() {
          var g := Group(d.ifindex, d.interface);
          var before := if g in interfaceTotals then interfaceTotals[g] else NO_TRAFFIC;
          interfaceTotals := interfaceTotals[g := AddDelta(before, d)];
          BookResolution(d, Minute, minute);
          BookResolution(d, Hour, hour);
        }
      }
      assert batch[..|batch|] == batch;
      WriteTotals(interfaceTotals, collectedAt);
    }

    method WriteTotals(totals: GroupTotals, collectedAt: SystemTime)
      modifies this`traffic
      ensures TotalsBooked(old(traffic), totals, collectedAt, traffic)
    {
      hide BucketStart, TotalsBooked, GroupBooked;
      var minute, hour := BucketStart(collectedAt, Minute), BucketStart(collectedAt, Hour);
      var pending := totals.Keys;
      ghost var written: GroupTotals := map[];
      NothingBooked(traffic, collectedAt);
      while pending != {}
        invariant pending <= totals.Keys
        invariant written == totals - pending
        invariant TotalsBooked(old(traffic), written, collectedAt, traffic)
        decreases |pending|
      {
        var g :| g in pending;
        BookedOneMore(old(traffic), written, g, totals[g], collectedAt, traffic);
        GroupBookedInOrder(traffic, g, totals[g], collectedAt);
        AddBucket(RowKey(Boundary, Minute, minute, g.ifindex), TotalsCell(totals[g]));
        AddBucket(RowKey(Boundary, Hour, hour, g.ifindex), TotalsCell(totals[g]));
        pending := pending - {g};
        written := written[g := totals[g]];
        assert written == totals - pending;
      }
      assert totals - {} == totals;
    }

    function Value(): Store
      reads this
    {
      Store(traffic, entities)
    }

    method DeleteBuckets(r: Resolution, cutoff: int)
      modifies this`traffic
      ensures traffic == Deleted(old(traffic), r, cutoff)
    {
      traffic := Deleted(traffic, r, cutoff);
    }

    method DeleteEntityBuckets(r: Resolution, cutoff: int)
      modifies this`entities
      ensures entities == Deleted(old(entities), r, cutoff)
    {
      entities := Deleted(entities, r, cutoff);
    }

    /** A pass in which `done` statements complete before one fails. */
    method EnforceRetention(now: SystemTime, done: nat) returns (ok: bool)
      modifies this
      ensures ok == (done >= PASS_STATEMENTS) && Value() == SweptStore(old(Value()), now, done)
    {
      hide Retained, Deleted;
      var nowMs := UnixMillis(now);
      DeletedRetains(traffic, now);
      DeletedRetains(entities, now);
      if done < 1 {
        return false;
      }
      DeleteBuckets(Minute, nowMs - MINUTE_BUCKET_RETENTION_MS);
      if done < 2 {
        return false;
      }
      DeleteBuckets(Hour, nowMs - HOUR_BUCKET_RETENTION_MS);
      if done < 3 {
        return false;
      }
      DeleteEntityBuckets(Minute, nowMs - MINUTE_BUCKET_RETENTION_MS);
      if done < 4 {
        return false;
      }
      DeleteEntityBuckets(Hour, nowMs - HOUR_BUCKET_RETENTION_MS);
      ok := true;
    }

    /** A clear in which `done` statements complete before one fails. */
    method ClearHistory(done: nat)
      modifies this
      ensures Value() == ClearedStore(old(Value()), done)
    {
      if done < 3 {
        return;
      }
      traffic := map[];
      if done < 4 {
        return;
      }
      entities := map[];
    }
  }

  lemma BookedOne(t: Table, keys: seq<RowKey>, k: RowKey, c: Cell)
    ensures Booked(t, keys + [k], c) == Upserted(Booked(t, keys, c), k, c)
  {
    assert (keys + [k])[..|keys|] == keys;
  }

  function GroupBooked(t: Table, g: Group, ts: Totals, at: SystemTime): Table {
    var minutes := Upserted(t, RowKey(Boundary, Minute, BucketStart(at, Minute), g.ifindex), TotalsCell(ts));
    Upserted(minutes, RowKey(Boundary, Hour, BucketStart(at, Hour), g.ifindex), TotalsCell(ts))
  }

  lemma GroupBookedInOrder(t: Table, g: Group, ts: Totals, at: SystemTime)
    ensures GroupBooked(t, g, ts, at) ==
      Upserted(Upserted(t, RowKey(Boundary, Minute, BucketStart(at, Minute), g.ifindex), TotalsCell(ts)),
               RowKey(Boundary, Hour, BucketStart(at, Hour), g.ifindex), TotalsCell(ts))
  {
  }

  lemma NothingBooked(t: Table, at: SystemTime)
    ensures TotalsBooked(t, map[], at, t)
  {
  }

  lemma GroupBookedAdds(t: Table, g: Group, ts: Totals, at: SystemTime, s: Selector, m: Measure)
    ensures Sum(GroupBooked(t, g, ts, at), s, m) == Sum(t, s, m) + GroupGain(at, s, m, g, ts)
  {
    hide Sum, Upserted, BucketStart, Selects;
    var first, second := RowKey(Boundary, Minute, BucketStart(at, Minute), g.ifindex),
      RowKey(Boundary, Hour, BucketStart(at, Hour), g.ifindex);
    UpsertAdds(t, first, TotalsCell(ts), s, m);
    UpsertAdds(Upserted(t, first, TotalsCell(ts)), second, TotalsCell(ts), s, m);
  }

  lemma BookedOneMore(before: Table, written: GroupTotals, g: Group, ts: Totals, at: SystemTime, mid: Table)
    requires TotalsBooked(before, written, at, mid) && g !in written
    ensures TotalsBooked(before, written[g := ts], at, GroupBooked(mid, g, ts, at))
  {
    hide Sum, GroupGain, TrafficKeys, BucketStart;
    var after := GroupBooked(mid, g, ts, at);
    forall s, m
      ensures Sum(after, s, m) == Sum(before, s, m) + Total(written[g := ts], GroupContribution(at, s, m))
    {
      GroupBookedAdds(mid, g, ts, at, s, m);
      TotalUpdate(written, GroupContribution(at, s, m), g, ts);
    }
    TrafficKeysOfOneMore(written, g, ts, at);
  }

  lemma TrafficKeysOfOneMore(ts: GroupTotals, g: Group, t: Totals, at: SystemTime)
    ensures TrafficKeys(ts[g := t], at) == TrafficKeys(ts, at)
      + {RowKey(Boundary, Minute, BucketStart(at, Minute), g.ifindex),
        RowKey(Boundary, Hour, BucketStart(at, Hour), g.ifindex)}
  {
    hide BucketStart;
    var more := ts[g := t];
    assert g in more && Minute in {Minute, Hour} && Hour in {Minute, Hour};
    forall k | k in TrafficKeys(ts, at)
      ensures k in TrafficKeys(more, at)
    {
      var h, r :| h in ts && r in {Minute, Hour} && k == RowKey(Boundary, r, BucketStart(at, r), h.ifindex);
      assert h in more;
    }
  }

  // ------------------------------------------------- what a booking adds up to

  function KeyGain(keys: seq<RowKey>, c: Cell, s: Selector, m: Measure): int {
    if keys == [] then 0 else KeyGain(keys[..|keys| - 1], c, s, m) + Chosen(s, keys[|keys| - 1], c, m)
  }

  lemma {:induction false} BookedAdds(t: Table, keys: seq<RowKey>, c: Cell, s: Selector, m: Measure)
    ensures Sum(Booked(t, keys, c), s, m) == Sum(t, s, m) + KeyGain(keys, c, s, m)
  {
    hide Sum, Upserted, Chosen;
    if keys != [] {
      var less := keys[..|keys| - 1];
      BookedAdds(t, less, c, s, m);
      UpsertAdds(Booked(t, less, c), keys[|keys| - 1], c, s, m);
    }
  }

  /** Two selectors that pick matching rows of two key lists gain the same. */
  lemma {:induction false} MatchingGain(ks: seq<RowKey>, ls: seq<RowKey>, c: Cell, s: Selector, z: Selector, m: Measure)
    requires |ks| == |ls| && forall i :: 0 <= i < |ks| ==> Selects(s, ks[i]) == Selects(z, ls[i])
    ensures KeyGain(ks, c, s, m) == KeyGain(ls, c, z, m)
  {
    if ks != [] {
      MatchingGain(ks[..|ks| - 1], ls[..|ls| - 1], c, s, z, m);
    }
  }

  lemma {:induction false} NoGain(keys: seq<RowKey>, c: Cell, s: Selector, m: Measure)
    requires forall k :: k in keys ==> !Selects(s, k)
    ensures KeyGain(keys, c, s, m) == 0
  {
    if keys != [] {
      assert keys[|keys| - 1] in keys;
      NoGain(keys[..|keys| - 1], c, s, m);
    }
  }

  /** The series a Flow is booked under. */
  function SeriesOf(d: FlowDelta): seq<Series> {
    [Entity(Endpoint, d.remote)]
    + (if d.application.Some? then [Entity(Application, d.application.value)] else [])
    + seq(|d.domains|, i requires 0 <= i < |d.domains| => Entity(Domain, d.domains[i]))
  }

  lemma {:induction false} DomainKeysAt(d: FlowDelta, r: Resolution, start: int, n: nat)
    requires n <= |d.domains|
    ensures |DomainKeys(d, r, start, n)| == n
    ensures forall i :: 0 <= i < n ==>
      DomainKeys(d, r, start, n)[i] == RowKey(Entity(Domain, d.domains[i]), r, start, d.ifindex)
  {
    if n > 0 {
      DomainKeysAt(d, r, start, n - 1);
    }
  }

  lemma EntityKeysAt(d: FlowDelta, r: Resolution, start: int)
    ensures |EntityKeys(d, r, start)| == |SeriesOf(d)|
    ensures forall i :: 0 <= i < |SeriesOf(d)| ==>
      EntityKeys(d, r, start)[i] == RowKey(SeriesOf(d)[i], r, start, d.ifindex)
  {
    DomainKeysAt(d, r, start, |d.domains|);
  }

  ghost function DeltaGain(d: FlowDelta, at: SystemTime, s: Selector, m: Measure): int {
    if !d.Moved() then 0
    else
      KeyGain(EntityKeys(d, Minute, BucketStart(at, Minute)), DeltaCell(d), s, m)
      + KeyGain(EntityKeys(d, Hour, BucketStart(at, Hour)), DeltaCell(d), s, m)
  }

  lemma DeltaBookedAdds(t: Table, d: FlowDelta, at: SystemTime, s: Selector, m: Measure)
    ensures Sum(DeltaBooked(t, d, at), s, m) == Sum(t, s, m) + DeltaGain(d, at, s, m)
  {
    hide Sum, EntityKeys, KeyGain, BucketStart;
    if d.Moved() {
      var minutes := EntityKeys(d, Minute, BucketStart(at, Minute));
      BookedAdds(t, minutes, DeltaCell(d), s, m);
      BookedAdds(Booked(t, minutes, DeltaCell(d)), EntityKeys(d, Hour, BucketStart(at, Hour)), DeltaCell(d), s, m);
    }
  }

  ghost function BatchGain(batch: seq<FlowDelta>, at: SystemTime, s: Selector, m: Measure): int {
    if batch == [] then 0
    else BatchGain(batch[..|batch| - 1], at, s, m) + DeltaGain(batch[|batch| - 1], at, s, m)
  }

  lemma {:induction false} BatchBookedAdds(t: Table, batch: seq<FlowDelta>, at: SystemTime, s: Selector, m: Measure)
    ensures Sum(BatchBooked(t, batch, at), s, m) == Sum(t, s, m) + BatchGain(batch, at, s, m)
  {
    hide Sum, DeltaBooked, DeltaGain;
    if batch != [] {
      var less := batch[..|batch| - 1];
      BatchBookedAdds(t, less, at, s, m);
      DeltaBookedAdds(BatchBooked(t, less, at), batch[|batch| - 1], at, s, m);
    }
  }

  // -------------------------------------------- endpoint rows sum to the boundary

  /** Each boundary row holds what the endpoint rows of its interface and bucket hold together. */
  ghost predicate EndpointsAgree(traffic: Table, entities: Table) {
    forall r, start, ifindex, m ::
      Sum(traffic, OneRow(RowKey(Boundary, r, start, ifindex)), m) == Sum(entities, EndpointRows(r, start, ifindex), m)
  }

  /** What the Flow moved, read off its own fields. */
  function Amount(d: FlowDelta, m: Measure): nat {
    match m
    case InPackets => if d.direction == Inbound then d.packets else 0
    case InBytes => if d.direction == Inbound then d.bytes else 0
    case OutPackets => if d.direction == Outbound then d.packets else 0
    case OutBytes => if d.direction == Outbound then d.bytes else 0
  }

  /** An amount as the signed 64-bit number that a row takes. */
  function Signed(n: nat): int {
    if n <= I64_MAX then n else n - U64_MOD
  }

  /** A booked cell holds the amounts as signed 64-bit numbers. */
  lemma CellHolds(d: FlowDelta, m: Measure)
    ensures Part(DeltaCell(d), m) == Signed(Amount(d, m))
    ensures !d.Moved() ==> Amount(d, m) == 0
  {
  }

  /** Movement of one interface, Flow by Flow. */
  function FlowMovement(batch: seq<FlowDelta>, ifindex: int, m: Measure): int {
    if batch == [] then 0
    else
      var d := batch[|batch| - 1];
      FlowMovement(batch[..|batch| - 1], ifindex, m) + (if d.ifindex == ifindex then Signed(Amount(d, m)) else 0)
  }

  ghost function InterfacePart(ifindex: int, m: Measure): (Group, Totals) -> int {
    (g: Group, t: Totals) => if g.ifindex == ifindex then Part(TotalsCell(t), m) else 0
  }

  /** Movement of one interface as the interface totals have it. */
  ghost function GroupMovement(ts: GroupTotals, ifindex: int, m: Measure): int {
    Total(ts, InterfacePart(ifindex, m))
  }

  lemma DeltaEndpointGain(d: FlowDelta, at: SystemTime, r: Resolution, start: int, ifindex: int, m: Measure)
    ensures DeltaGain(d, at, EndpointRows(r, start, ifindex), m) ==
      if d.Moved() && start == BucketStart(at, r) && d.ifindex == ifindex then Part(DeltaCell(d), m) else 0
  {
    hide BucketStart, Part;
    if d.Moved() {
      EndpointKeyGain(d, Minute, BucketStart(at, Minute), r, start, ifindex, m);
      EndpointKeyGain(d, Hour, BucketStart(at, Hour), r, start, ifindex, m);
    }
  }

  /** Of the rows a Flow is booked in, one is an endpoint row. */
  lemma EndpointKeyGain(d: FlowDelta, kr: Resolution, ks: int, r: Resolution, start: int, ifindex: int, m: Measure)
    ensures KeyGain(EntityKeys(d, kr, ks), DeltaCell(d), EndpointRows(r, start, ifindex), m) ==
      if r == kr && start == ks && d.ifindex == ifindex then Part(DeltaCell(d), m) else 0
  {
    hide Part, DeltaCell;
    EntityKeysAt(d, kr, ks);
    var keys, s := EntityKeys(d, kr, ks), EndpointRows(r, start, ifindex);
    SplitGain(keys[..1], keys[1..], DeltaCell(d), s, m);
    assert keys == keys[..1] + keys[1..];
    NoGain(keys[1..], DeltaCell(d), s, m);
    assert keys[..1][..0] == [];
    assert KeyGain(keys[..1], DeltaCell(d), s, m)
      == KeyGain([], DeltaCell(d), s, m) + Chosen(s, keys[0], DeltaCell(d), m);
  }

  lemma {:induction false} SplitGain(a: seq<RowKey>, b: seq<RowKey>, c: Cell, s: Selector, m: Measure)
    ensures KeyGain(a + b, c, s, m) == KeyGain(a, c, s, m) + KeyGain(b, c, s, m)
    decreases |b|
  {
    if b == [] {
      assert a + b == a;
    } else {
      SplitGain(a, b[..|b| - 1], c, s, m);
      assert (a + b)[..|a + b| - 1] == a + b[..|b| - 1];
    }
  }

  lemma {:induction false} BatchEndpointGain(
      batch: seq<FlowDelta>, at: SystemTime, r: Resolution, start: int, ifindex: int, m: Measure)
    ensures BatchGain(batch, at, EndpointRows(r, start, ifindex), m) ==
      if start == BucketStart(at, r) then FlowMovement(batch, ifindex, m) else 0
  {
    hide BucketStart, DeltaGain, Part, Amount;
    if batch != [] {
      CellHolds(batch[|batch| - 1], m);
      BatchEndpointGain(batch[..|batch| - 1], at, r, start, ifindex, m);
      DeltaEndpointGain(batch[|batch| - 1], at, r, start, ifindex, m);
    }
  }

  lemma TotalsBoundaryGain(ts: GroupTotals, at: SystemTime, r: Resolution, start: int, ifindex: int, m: Measure)
    ensures Total(ts, GroupContribution(at, OneRow(RowKey(Boundary, r, start, ifindex)), m)) ==
      if start == BucketStart(at, r) then GroupMovement(ts, ifindex, m) else 0
  {
    hide BucketStart, Part, TotalsCell;
    var f := GroupContribution(at, OneRow(RowKey(Boundary, r, start, ifindex)), m);
    if start == BucketStart(at, r) {
      TotalSame(ts, f, InterfacePart(ifindex, m));
    } else {
      TotalZero(ts, f);
    }
  }

  /** What an ingest adds to a boundary row and to its endpoint rows. */
  lemma IngestGains(
      traffic: Table, entities: Table, batch: seq<FlowDelta>, at: SystemTime, after: Table,
      r: Resolution, start: int, ifindex: int, m: Measure)
    requires TotalsBooked(traffic, TotalsOf(batch), at, after)
    ensures var row, rows := OneRow(RowKey(Boundary, r, start, ifindex)), EndpointRows(r, start, ifindex);
      if start == BucketStart(at, r) then
        && Sum(after, row, m) == Sum(traffic, row, m) + GroupMovement(TotalsOf(batch), ifindex, m)
        && Sum(BatchBooked(entities, batch, at), rows, m) == Sum(entities, rows, m) + FlowMovement(batch, ifindex, m)
      else
        && Sum(after, row, m) == Sum(traffic, row, m)
        && Sum(BatchBooked(entities, batch, at), rows, m) == Sum(entities, rows, m)
  {
    hide Sum, GroupMovement, FlowMovement, TotalsOf, BatchBooked, BucketStart;
    TotalsBoundaryGain(TotalsOf(batch), at, r, start, ifindex, m);
    BatchBookedAdds(entities, batch, at, EndpointRows(r, start, ifindex), m);
    BatchEndpointGain(batch, at, r, start, ifindex, m);
  }

  /** An ingest keeps the agreement exactly when the interface totals hold what the Flows moved. */
  lemma IngestAgreesIff(traffic: Table, entities: Table, batch: seq<FlowDelta>, at: SystemTime, after: Table)
    requires EndpointsAgree(traffic, entities) && TotalsBooked(traffic, TotalsOf(batch), at, after)
    ensures EndpointsAgree(after, BatchBooked(entities, batch, at)) <==>
      forall ifindex, m :: GroupMovement(TotalsOf(batch), ifindex, m) == FlowMovement(batch, ifindex, m)
  {
    hide Sum, GroupMovement, FlowMovement, TotalsOf, BatchBooked, BucketStart;
    var ts, booked := TotalsOf(batch), BatchBooked(entities, batch, at);
    forall r, start, ifindex, m
      ensures
        Sum(after, OneRow(RowKey(Boundary, r, start, ifindex)), m) - Sum(booked, EndpointRows(r, start, ifindex), m)
        == if start == BucketStart(at, r) then GroupMovement(ts, ifindex, m) - FlowMovement(batch, ifindex, m) else 0
    {
      IngestGains(traffic, entities, batch, at, after, r, start, ifindex, m);
      assert Sum(traffic, OneRow(RowKey(Boundary, r, start, ifindex)), m)
        == Sum(entities, EndpointRows(r, start, ifindex), m);
    }
    if EndpointsAgree(after, booked) {
      forall ifindex, m
        ensures GroupMovement(ts, ifindex, m) == FlowMovement(batch, ifindex, m)
      {
        var start := BucketStart(at, Minute);
        assert Sum(after, OneRow(RowKey(Boundary, Minute, start, ifindex)), m)
          == Sum(booked, EndpointRows(Minute, start, ifindex), m);
      }
    }
  }

  function BatchPackets(batch: seq<FlowDelta>): (n: nat) {
    if batch == [] then 0 else BatchPackets(batch[..|batch| - 1]) + batch[|batch| - 1].packets
  }

  function BatchBytes(batch: seq<FlowDelta>): (n: nat) {
    if batch == [] then 0 else BatchBytes(batch[..|batch| - 1]) + batch[|batch| - 1].bytes
  }

  /** The interval moved fewer than 2^63 packets and bytes. */
  predicate Fits(batch: seq<FlowDelta>) {
    BatchPackets(batch) <= I64_MAX && BatchBytes(batch) <= I64_MAX
  }

  ghost predicate Bounded(ts: GroupTotals, packets: nat, bytes: nat) {
    forall g :: g in ts ==>
      && ts[g].inbound.packets <= packets && ts[g].outbound.packets <= packets
      && ts[g].inbound.bytes <= bytes && ts[g].outbound.bytes <= bytes
  }

  lemma {:induction false} TotalsBounded(batch: seq<FlowDelta>)
    requires Fits(batch)
    ensures Bounded(TotalsOf(batch), BatchPackets(batch), BatchBytes(batch))
  {
    if batch != [] {
      TotalsBounded(batch[..|batch| - 1]);
    }
  }

  /** Without saturation the interface totals hold exactly what the Flows moved. */
  lemma {:induction false} FittingTotals(batch: seq<FlowDelta>, ifindex: int, m: Measure)
    requires Fits(batch)
    ensures GroupMovement(TotalsOf(batch), ifindex, m) == FlowMovement(batch, ifindex, m)
  {
    if batch != [] {
      var less, d := batch[..|batch| - 1], batch[|batch| - 1];
      FittingTotals(less, ifindex, m);
      TotalsBounded(less);
      CellHolds(d, m);
      var ts, g := TotalsOf(less), Group(d.ifindex, d.interface);
      if d.Moved() {
        TotalUpdate(ts, InterfacePart(ifindex, m), g, Accumulated(ts, d)[g]);
        AccumulatedPart(ts, d, BatchPackets(less), BatchBytes(less), m);
      }
    }
  }

  lemma AccumulatedPart(ts: GroupTotals, d: FlowDelta, packets: nat, bytes: nat, m: Measure)
    requires d.Moved() && Bounded(ts, packets, bytes) && packets + d.packets <= I64_MAX && bytes + d.bytes <= I64_MAX
    ensures var g := Group(d.ifindex, d.interface);
      Part(TotalsCell(Accumulated(ts, d)[g]), m)
        == (if g in ts then Part(TotalsCell(ts[g]), m) else 0) + Part(DeltaCell(d), m)
  {
  }

  /** Two Flows of one interface that move 2^64 - 1 bytes each: the saturated total falls short. */
  lemma SaturationBreaksAgreement()
    ensures var d := FlowDelta("a", None, [], Inbound, 0, U64_MAX, 1, "eth0");
      GroupMovement(TotalsOf([d, d]), 1, InBytes) != FlowMovement([d, d], 1, InBytes)
  {
    var d := FlowDelta("a", None, [], Inbound, 0, U64_MAX, 1, "eth0");
    var g := Group(1, "eth0");
    assert [d, d][..1] == [d] && [d][..0] == [];
    assert TotalsOf([d]) == Accumulated(TotalsOf([]), d);
    assert TotalsOf([d, d]) == Accumulated(TotalsOf([d]), d);
    var ts := TotalsOf([d, d]);
    assert ts == map[g := Totals(Counters(0, U64_MAX), Counters(0, 0))];
    TotalRemove(ts, InterfacePart(1, InBytes), g);
    assert ts - {g} == map[];
    assert ts[g].inbound.bytes == U64_MAX && AsI64(U64_MAX) == -1;
    assert GroupMovement(ts, 1, InBytes)
      == InterfacePart(1, InBytes)(g, ts[g]) + Total<Group, Totals>(map[], InterfacePart(1, InBytes));
    assert InterfacePart(1, InBytes)(g, ts[g]) == Part(TotalsCell(ts[g]), InBytes);
    assert FlowMovement([d], 1, InBytes) == FlowMovement([], 1, InBytes) - 1;
    assert FlowMovement([d, d], 1, InBytes) == FlowMovement([d], 1, InBytes) - 1;
  }

  // --------------------------------------------------- what an entity row holds

  function Occurrences(names: seq<string>, name: string): nat {
    if names == [] then 0
    else Occurrences(names[..|names| - 1], name) + if names[|names| - 1] == name then 1 else 0
  }

  /** How often a Flow counts for an entity: its peer and its application once, a domain as often as it is named. */
  function Times(d: FlowDelta, kind: Kind, key: string): nat {
    match kind
    case Endpoint => if d.remote == key then 1 else 0
    case Application => if d.application == Some(key) then 1 else 0
    case Domain => Occurrences(d.domains, key)
  }

  /** The rows of an entity in one bucket: on one interface, or on all. */
  function EntityBucket(kind: Kind, key: string, r: Resolution, start: int, on: Option<int>): Selector {
    match on
    case Some(ifindex) => OneRow(RowKey(Entity(kind, key), r, start, ifindex))
    case None => SeriesRange(Entity(kind, key), r, start, start)
  }

  predicate OnInterface(d: FlowDelta, on: Option<int>) {
    on.None? || on.value == d.ifindex
  }

  /** Movement of an entity, Flow by Flow. */
  function EntityMovement(batch: seq<FlowDelta>, kind: Kind, key: string, on: Option<int>, m: Measure): int {
    if batch == [] then 0
    else
      var d := batch[|batch| - 1];
      EntityMovement(batch[..|batch| - 1], kind, key, on, m)
      + (if OnInterface(d, on) then Times(d, kind, key) * Signed(Amount(d, m)) else 0)
  }

  predicate InBucket(d: FlowDelta, kind: Kind, kr: Resolution, ks: int, r: Resolution, start: int, on: Option<int>) {
    kind == Domain && r == kr && start == ks && OnInterface(d, on)
  }

  lemma DomainChosen(
      d: FlowDelta, name: string, kr: Resolution, ks: int, c: Cell, kind: Kind, key: string, r: Resolution, start: int,
      on: Option<int>, m: Measure)
    ensures Chosen(EntityBucket(kind, key, r, start, on), RowKey(Entity(Domain, name), kr, ks, d.ifindex), c, m) ==
      if InBucket(d, kind, kr, ks, r, start, on) && name == key then Part(c, m) else 0
  {
    hide Part;
  }

  lemma {:induction false} DomainKeysGain(
      d: FlowDelta, kr: Resolution, ks: int, n: nat, c: Cell, kind: Kind, key: string, r: Resolution, start: int,
      on: Option<int>, m: Measure)
    requires n <= |d.domains|
    ensures KeyGain(DomainKeys(d, kr, ks, n), c, EntityBucket(kind, key, r, start, on), m) ==
      if InBucket(d, kind, kr, ks, r, start, on) then Occurrences(d.domains[..n], key) * Part(c, m) else 0
  {
    hide Part, Chosen, EntityBucket, InBucket;
    if n == 0 {
      OneMoreTime(0, Part(c, m));
    } else {
      DomainKeysGain(d, kr, ks, n - 1, c, kind, key, r, start, on, m);
      var keys, name := DomainKeys(d, kr, ks, n), d.domains[n - 1];
      assert keys[..|keys| - 1] == DomainKeys(d, kr, ks, n - 1);
      assert keys[|keys| - 1] == RowKey(Entity(Domain, name), kr, ks, d.ifindex);
      assert d.domains[..n][..n - 1] == d.domains[..n - 1] && d.domains[..n][n - 1] == name;
      DomainChosen(d, name, kr, ks, c, kind, key, r, start, on, m);
      OneMoreTime(Occurrences(d.domains[..n - 1], key), Part(c, m));
    }
  }

  lemma OneMoreTime(n: nat, x: int)
    ensures (n + 1) * x == n * x + x && 0 * x == 0 && 1 * x == x
  {
  }

  lemma OneKeyGain(k: RowKey, c: Cell, s: Selector, m: Measure)
    ensures KeyGain([k], c, s, m) == Chosen(s, k, c, m)
  {
    assert [k][..0] == [];
  }

  lemma EntityKeyGain(
      d: FlowDelta, kr: Resolution, ks: int, c: Cell, kind: Kind, key: string, r: Resolution, start: int,
      on: Option<int>, m: Measure)
    ensures KeyGain(EntityKeys(d, kr, ks), c, EntityBucket(kind, key, r, start, on), m) ==
      if r == kr && start == ks && OnInterface(d, on) then Times(d, kind, key) * Part(c, m) else 0
  {
    hide Part, KeyGain;
    var s := EntityBucket(kind, key, r, start, on);
    var peer := [RowKey(Entity(Endpoint, d.remote), kr, ks, d.ifindex)];
    var app := if d.application.Some? then [RowKey(Entity(Application, d.application.value), kr, ks, d.ifindex)]
      else [];
    SplitGain(peer + app, DomainKeys(d, kr, ks, |d.domains|), c, s, m);
    SplitGain(peer, app, c, s, m);
    OneKeyGain(peer[0], c, s, m);
    if d.application.Some? {
      OneKeyGain(app[0], c, s, m);
    } else {
      NoGain([], c, s, m);
    }
    DomainKeysGain(d, kr, ks, |d.domains|, c, kind, key, r, start, on, m);
    assert d.domains[..|d.domains|] == d.domains;
    OneMoreTime(0, Part(c, m));
  }

  lemma DeltaEntityGain(
      d: FlowDelta, at: SystemTime, kind: Kind, key: string, r: Resolution, start: int, on: Option<int>, m: Measure)
    ensures DeltaGain(d, at, EntityBucket(kind, key, r, start, on), m) ==
      if start == BucketStart(at, r) && OnInterface(d, on) then Times(d, kind, key) * Signed(Amount(d, m)) else 0
  {
    hide BucketStart, Part, Amount, EntityKeys, KeyGain, EntityBucket, Signed, Times;
    CellHolds(d, m);
    if d.Moved() {
      EntityKeyGain(d, Minute, BucketStart(at, Minute), DeltaCell(d), kind, key, r, start, on, m);
      EntityKeyGain(d, Hour, BucketStart(at, Hour), DeltaCell(d), kind, key, r, start, on, m);
    } else {
      NothingSigned(Times(d, kind, key));
    }
  }

  lemma NothingSigned(n: nat)
    ensures Signed(0) == 0 && n * Signed(0) == 0
  {
  }

  lemma {:induction false} BatchEntityGain(
      batch: seq<FlowDelta>, at: SystemTime, kind: Kind, key: string,
      r: Resolution, start: int, on: Option<int>, m: Measure)
    ensures BatchGain(batch, at, EntityBucket(kind, key, r, start, on), m) ==
      if start == BucketStart(at, r) then EntityMovement(batch, kind, key, on, m) else 0
  {
    hide BucketStart, DeltaGain, Times, Signed, Amount, EntityBucket;
    if batch != [] {
      BatchEntityGain(batch[..|batch| - 1], at, kind, key, r, start, on, m);
      DeltaEntityGain(batch[|batch| - 1], at, kind, key, r, start, on, m);
    }
  }

  /**
   * An ingest adds to the rows of an entity exactly what the Flows that count for it
   * moved, in the buckets of its time.
   */
  lemma IngestBooksEntity(
      t: Table, batch: seq<FlowDelta>, at: SystemTime, kind: Kind, key: string, r: Resolution, start: int,
      on: Option<int>, m: Measure)
    ensures var s := EntityBucket(kind, key, r, start, on);
      Sum(BatchBooked(t, batch, at), s, m) ==
      Sum(t, s, m) + if start == BucketStart(at, r) then EntityMovement(batch, kind, key, on, m) else 0
  {
    hide Sum, BatchBooked, BatchGain, EntityMovement, BucketStart, EntityBucket;
    BatchBookedAdds(t, batch, at, EntityBucket(kind, key, r, start, on), m);
    BatchEntityGain(batch, at, kind, key, r, start, on, m);
  }

  // --------------------------------------------------- minutes sum to their hour

  /** From the hour `from` on, each hour row holds what its minute rows hold together. */
  ghost predicate HoursAgree(t: Table, from: int) {
    forall series, hour, ifindex, m :: from <= hour && hour % HOUR_MS == 0 ==>
      Sum(t, OneRow(RowKey(series, Hour, hour, ifindex)), m) == Sum(t, MinutesOf(series, hour, ifindex), m)
  }

  lemma AlignedHours(a: int, b: int, x: int)
    requires a % HOUR_MS == 0 && b % HOUR_MS == 0 && b <= x < b + HOUR_MS
    ensures a <= x < a + HOUR_MS <==> a == b
  {
  }

  /** A minute lies in an aligned hour exactly when that is the hour of its own time. */
  lemma MinuteInHour(at: SystemTime, hour: int)
    requires hour % HOUR_MS == 0
    ensures hour <= BucketStart(at, Minute) < hour + HOUR_MS <==> hour == BucketStart(at, Hour)
  {
    hide BucketStart;
    BucketStarts(at);
    assert BucketStart(at, Hour) % StepMs(Hour) == 0;
    AlignedHours(hour, BucketStart(at, Hour), BucketStart(at, Minute));
  }

  lemma DeltaHourGain(d: FlowDelta, at: SystemTime, series: Series, hour: int, ifindex: int, m: Measure)
    requires hour % HOUR_MS == 0
    ensures DeltaGain(d, at, OneRow(RowKey(series, Hour, hour, ifindex)), m)
            == DeltaGain(d, at, MinutesOf(series, hour, ifindex), m)
  {
    hide BucketStart, Part;
    MinuteInHour(at, hour);
    var minutes, hours := EntityKeys(d, Minute, BucketStart(at, Minute)), EntityKeys(d, Hour, BucketStart(at, Hour));
    EntityKeysAt(d, Minute, BucketStart(at, Minute));
    EntityKeysAt(d, Hour, BucketStart(at, Hour));
    MatchingGain(hours, minutes, DeltaCell(d), OneRow(RowKey(series, Hour, hour, ifindex)),
      MinutesOf(series, hour, ifindex), m);
    NoGain(minutes, DeltaCell(d), OneRow(RowKey(series, Hour, hour, ifindex)), m);
    NoGain(hours, DeltaCell(d), MinutesOf(series, hour, ifindex), m);
  }

  lemma {:induction false} BatchHourGain(
      batch: seq<FlowDelta>, at: SystemTime, series: Series, hour: int, ifindex: int, m: Measure)
    requires hour % HOUR_MS == 0
    ensures BatchGain(batch, at, OneRow(RowKey(series, Hour, hour, ifindex)), m)
            == BatchGain(batch, at, MinutesOf(series, hour, ifindex), m)
  {
    hide DeltaGain;
    if batch != [] {
      BatchHourGain(batch[..|batch| - 1], at, series, hour, ifindex, m);
      DeltaHourGain(batch[|batch| - 1], at, series, hour, ifindex, m);
    }
  }

  lemma TotalsHourGain(ts: GroupTotals, at: SystemTime, series: Series, hour: int, ifindex: int, m: Measure)
    requires hour % HOUR_MS == 0
    ensures Total(ts, GroupContribution(at, OneRow(RowKey(series, Hour, hour, ifindex)), m))
      == Total(ts, GroupContribution(at, MinutesOf(series, hour, ifindex), m))
  {
    hide BucketStart, Part, TotalsCell;
    MinuteInHour(at, hour);
    TotalSame(ts, GroupContribution(at, OneRow(RowKey(series, Hour, hour, ifindex)), m),
      GroupContribution(at, MinutesOf(series, hour, ifindex), m));
  }

  lemma IngestKeepsHours(before: Table, batch: seq<FlowDelta>, at: SystemTime, after: Table, from: int)
    requires HoursAgree(before, from)
    requires after == BatchBooked(before, batch, at) || TotalsBooked(before, TotalsOf(batch), at, after)
    ensures HoursAgree(after, from)
  {
    hide Sum, BatchGain, BatchBooked, TotalsOf;
    forall series, hour, ifindex, m | from <= hour && hour % HOUR_MS == 0
      ensures Sum(after, OneRow(RowKey(series, Hour, hour, ifindex)), m)
              == Sum(after, MinutesOf(series, hour, ifindex), m)
    {
      var h, z := OneRow(RowKey(series, Hour, hour, ifindex)), MinutesOf(series, hour, ifindex);
      assert Sum(before, h, m) == Sum(before, z, m);
      if after == BatchBooked(before, batch, at) {
        BatchBookedAdds(before, batch, at, h, m);
        BatchBookedAdds(before, batch, at, z, m);
        BatchHourGain(batch, at, series, hour, ifindex, m);
      } else {
        TotalsHourGain(TotalsOf(batch), at, series, hour, ifindex, m);
      }
    }
  }

  // ------------------------------------------------------------------ retention

  /** Rows before this may be gone after a retention pass at `now`. */
  function Horizon(now: SystemTime): int {
    UnixMillis(now) - MINUTE_BUCKET_RETENTION_MS
  }

  lemma RetainedSum(t: Table, now: SystemTime, swept: set<Resolution>, s: Selector, m: Measure)
    requires forall k :: Selects(s, k) && k.resolution in swept ==> !Expired(k, now)
    ensures Sum(Retained(t, now, swept), s, m) == Sum(t, s, m)
  {
    var gone := set k | k in t && k.resolution in swept && Expired(k, now);
    TotalIgnores(t, Contribution(s, m), gone);
    assert Retained(t, now, swept) == t - gone;
  }

  lemma ExpiredSum(t: Table, now: SystemTime, swept: set<Resolution>, s: Selector, m: Measure)
    requires forall k :: Selects(s, k) ==> k.resolution in swept && Expired(k, now)
    ensures Sum(Retained(t, now, swept), s, m) == 0
  {
    TotalZero(Retained(t, now, swept), Contribution(s, m));
  }

  /**
   * After `done` statements of a pass exactly these rows are gone: boundary rows
   * before entity rows, and of each the minutes two hours old before the hours
   * eight days old.
   */
  lemma SweptRows(s: Store, now: SystemTime, done: nat, k: RowKey)
    ensures var z := SweptStore(s, now, done);
      var old_ := k.start < UnixMillis(now) - (if k.resolution == Minute then 7_200_000 else 691_200_000);
      && (k in z.traffic <==> k in s.traffic && !(old_ && done >= if k.resolution == Minute then 1 else 2))
      && (k in z.entities <==> k in s.entities && !(old_ && done >= if k.resolution == Minute then 3 else 4))
      && (k in z.traffic ==> z.traffic[k] == s.traffic[k]) && (k in z.entities ==> z.entities[k] == s.entities[k])
  {
    hide UnixMillis;
  }

  /** What the endpoint rows of a bucket hold after a pass: nothing once they are swept, and all of it before. */
  lemma SweptEndpoints(s: Store, now: SystemTime, done: nat, k: RowKey, m: Measure)
    requires k.series == Boundary
    ensures Sum(SweptStore(s, now, done).traffic, OneRow(k), m) ==
      if Expired(k, now) && k.resolution in TrafficSwept(done) then 0 else Sum(s.traffic, OneRow(k), m)
    ensures var rows := EndpointRows(k.resolution, k.start, k.ifindex);
      Sum(SweptStore(s, now, done).entities, rows, m) ==
      if Expired(k, now) && k.resolution in EntitiesSwept(done) then 0 else Sum(s.entities, rows, m)
  {
    hide Sum, Retained, UnixMillis, TrafficSwept, EntitiesSwept;
    var rows := EndpointRows(k.resolution, k.start, k.ifindex);
    assert forall x :: Selects(rows, x) ==> Expired(x, now) == Expired(k, now);
    if Expired(k, now) && k.resolution in TrafficSwept(done) {
      ExpiredSum(s.traffic, now, TrafficSwept(done), OneRow(k), m);
    } else {
      RetainedSum(s.traffic, now, TrafficSwept(done), OneRow(k), m);
    }
    if Expired(k, now) && k.resolution in EntitiesSwept(done) {
      ExpiredSum(s.entities, now, EntitiesSwept(done), rows, m);
    } else {
      RetainedSum(s.entities, now, EntitiesSwept(done), rows, m);
    }
  }

  /** The boundary row holds something. */
  predicate Holds(t: Table, k: RowKey) {
    k in t && exists m :: Part(t[k], m) != 0
  }

  /** Some boundary row does. */
  ghost predicate HoldsAny(t: Table) {
    exists k: RowKey :: k.series == Boundary && Holds(t, k)
  }

  lemma HoldsIff(t: Table, k: RowKey)
    ensures Holds(t, k) <==> exists m :: Sum(t, OneRow(k), m) != 0
  {
    hide Sum;
    forall m
      ensures Sum(t, OneRow(k), m) == if k in t then Part(t[k], m) else 0
    {
      OneRowSum(t, k, m);
    }
  }

  /** The pass deletes a boundary row that holds something and leaves its endpoint rows. */
  ghost predicate PassSplits(t: Table, now: SystemTime, done: nat) {
    exists k: RowKey :: k.series == Boundary && Holds(t, k) && Expired(k, now)
      && k.resolution in TrafficSwept(done) && k.resolution !in EntitiesSwept(done)
  }

  /** A pass keeps the agreement exactly when it does not stop between a boundary row and its endpoint rows. */
  lemma SweepAgreesIff(s: Store, now: SystemTime, done: nat)
    requires EndpointsAgree(s.traffic, s.entities)
    ensures EndpointsAgree(SweptStore(s, now, done).traffic, SweptStore(s, now, done).entities) <==>
      !PassSplits(s.traffic, now, done)
  {
    hide Sum, SweptStore, Expired, TrafficSwept, EntitiesSwept, Holds;
    var z := SweptStore(s, now, done);
    forall r, start, ifindex, m
      ensures var k := RowKey(Boundary, r, start, ifindex);
        Sum(z.traffic, OneRow(k), m) != Sum(z.entities, EndpointRows(r, start, ifindex), m) <==>
        Expired(k, now) && r in TrafficSwept(done) && r !in EntitiesSwept(done) && Sum(s.traffic, OneRow(k), m) != 0
    {
      var k := RowKey(Boundary, r, start, ifindex);
      SweptEndpoints(s, now, done, k, m);
      SweptInOrder(done, r);
      assert Sum(s.traffic, OneRow(k), m) == Sum(s.entities, EndpointRows(r, start, ifindex), m);
    }
    if PassSplits(s.traffic, now, done) {
      var k: RowKey :| k.series == Boundary && Holds(s.traffic, k) && Expired(k, now)
        && k.resolution in TrafficSwept(done) && k.resolution !in EntitiesSwept(done);
      HoldsIff(s.traffic, k);
      var m :| Sum(s.traffic, OneRow(k), m) != 0;
      assert k == RowKey(Boundary, k.resolution, k.start, k.ifindex);
      assert Sum(z.traffic, OneRow(k), m) != Sum(z.entities, EndpointRows(k.resolution, k.start, k.ifindex), m);
    } else {
      forall r, start, ifindex, m
        ensures Sum(z.traffic, OneRow(RowKey(Boundary, r, start, ifindex)), m)
          == Sum(z.entities, EndpointRows(r, start, ifindex), m)
      {
        HoldsIff(s.traffic, RowKey(Boundary, r, start, ifindex));
      }
    }
  }

  lemma SweptInOrder(done: nat, r: Resolution)
    ensures r in EntitiesSwept(done) ==> r in TrafficSwept(done)
  {
  }

  /**
   * A clear keeps the agreement exactly when it does not stop between the two
   * tables, or no boundary row holds anything.
   */
  lemma ClearAgreesIff(s: Store, done: nat)
    requires EndpointsAgree(s.traffic, s.entities)
    ensures EndpointsAgree(ClearedStore(s, done).traffic, ClearedStore(s, done).entities) <==>
      (done == 3 ==> !HoldsAny(s.traffic))
  {
    hide Sum, Holds;
    var z := ClearedStore(s, done);
    if done == 3 {
      forall r, start, ifindex, m
        ensures Sum(z.traffic, OneRow(RowKey(Boundary, r, start, ifindex)), m) == 0
        ensures Sum(z.entities, EndpointRows(r, start, ifindex), m)
                == Sum(s.traffic, OneRow(RowKey(Boundary, r, start, ifindex)), m)
      {
        OneRowSum(z.traffic, RowKey(Boundary, r, start, ifindex), m);
      }
      AllHold(s.traffic);
      if EndpointsAgree(z.traffic, z.entities) {
        forall k: RowKey, m | k.series == Boundary
          ensures Sum(s.traffic, OneRow(k), m) == 0
        {
          assert k == RowKey(Boundary, k.resolution, k.start, k.ifindex);
          assert Sum(z.traffic, OneRow(k), m) == Sum(z.entities, EndpointRows(k.resolution, k.start, k.ifindex), m);
        }
      }
    } else if done > 3 {
      EmptyAgrees(0);
    }
  }

  lemma AllHold(t: Table)
    ensures HoldsAny(t) <==> exists k: RowKey, m :: k.series == Boundary && Sum(t, OneRow(k), m) != 0
  {
    hide Sum, Holds;
    forall k
      ensures Holds(t, k) <==> exists m :: Sum(t, OneRow(k), m) != 0
    {
      HoldsIff(t, k);
    }
  }

  lemma RetentionKeepsHours(t: Table, now: SystemTime, swept: set<Resolution>, from: int)
    requires HoursAgree(t, from)
    ensures HoursAgree(Retained(t, now, swept), Max(from, Horizon(now)))
  {
    hide Sum, Retained, UnixMillis;
    var z := Retained(t, now, swept);
    forall series, hour, ifindex, m | Max(from, Horizon(now)) <= hour && hour % HOUR_MS == 0
      ensures Sum(z, OneRow(RowKey(series, Hour, hour, ifindex)), m) == Sum(z, MinutesOf(series, hour, ifindex), m)
    {
      assert Sum(t, OneRow(RowKey(series, Hour, hour, ifindex)), m) == Sum(t, MinutesOf(series, hour, ifindex), m);
      RetainedSum(t, now, swept, OneRow(RowKey(series, Hour, hour, ifindex)), m);
      RetainedSum(t, now, swept, MinutesOf(series, hour, ifindex), m);
    }
  }

  // ------------------------------------------------------------------------ runs

  /** A pass and a clear that complete `done` statements before one fails. */
  datatype Event =
    | Ingested(batch: seq<FlowDelta>, collectedAt: SystemTime)
    | Swept(now: SystemTime, done: nat)
    | Cleared(done: nat)

  /** One operation of the store, as the methods of `BucketStore` specify it. */
  ghost predicate Next(s: Store, e: Event, z: Store) {
    match e
    case Ingested(batch, at) =>
      z.entities == BatchBooked(s.entities, batch, at) && TotalsBooked(s.traffic, TotalsOf(batch), at, z.traffic)
    case Swept(now, done) => z == SweptStore(s, now, done)
    case Cleared(done) => z == ClearedStore(s, done)
  }

  ghost predicate Run(states: seq<Store>, events: seq<Event>) {
    && |states| == |events| + 1 && states[0] == Store(map[], map[])
    && forall i :: 0 <= i < |events| ==> Next(states[i], events[i], states[i + 1])
  }

  /** The latest horizon of the retention passes of a run. */
  function RunHorizon(events: seq<Event>): int {
    if events == [] then 0
    else
      var e := events[|events| - 1];
      var before := RunHorizon(events[..|events| - 1]);
      if e.Swept? then Max(before, Horizon(e.now)) else before
  }

  lemma EmptyAgrees(from: int)
    ensures EndpointsAgree(map[], map[]) && HoursAgree(map[], from)
  {
  }

  lemma NextKeepsHours(s: Store, e: Event, z: Store, from: int)
    requires Next(s, e, z) && HoursAgree(s.traffic, from) && HoursAgree(s.entities, from)
    ensures var later := if e.Swept? then Max(from, Horizon(e.now)) else from;
      HoursAgree(z.traffic, later) && HoursAgree(z.entities, later)
  {
    hide HoursAgree, TotalsBooked, BatchBooked, TotalsOf, Retained, TrafficSwept, EntitiesSwept;
    match e
    case Ingested(batch, at) =>
      IngestKeepsHours(s.traffic, batch, at, z.traffic, from);
      IngestKeepsHours(s.entities, batch, at, z.entities, from);
    case Swept(now, done) =>
      RetentionKeepsHours(s.traffic, now, TrafficSwept(done), from);
      RetentionKeepsHours(s.entities, now, EntitiesSwept(done), from);
    case Cleared(_) =>
      EmptyAgrees(from);
  }

  /**
   * After any run, every hour no retention pass has reached equals the sum of
   * its minutes, in both tables, wherever passes and clears stopped.
   */
  lemma {:induction false} RunKeepsHours(states: seq<Store>, events: seq<Event>)
    requires Run(states, events)
    ensures var last := states[|events|];
      HoursAgree(last.traffic, RunHorizon(events)) && HoursAgree(last.entities, RunHorizon(events))
    decreases |events|
  {
    hide HoursAgree, Next, Horizon;
    if events == [] {
      EmptyAgrees(0);
    } else {
      var n := |events| - 1;
      RunKeepsHours(states[..n + 1], events[..n]);
      NextKeepsHours(states[n], events[n], states[n + 1], RunHorizon(events[..n]));
    }
  }

  /** The event keeps the agreement of the two tables. */
  ghost predicate Keeps(s: Store, e: Event) {
    match e
    case Ingested(batch, _) =>
      forall ifindex, m :: GroupMovement(TotalsOf(batch), ifindex, m) == FlowMovement(batch, ifindex, m)
    case Swept(now, done) => !PassSplits(s.traffic, now, done)
    case Cleared(done) => done == 3 ==> !HoldsAny(s.traffic)
  }

  lemma NextAgreesIff(s: Store, e: Event, z: Store)
    requires Next(s, e, z) && EndpointsAgree(s.traffic, s.entities)
    ensures EndpointsAgree(z.traffic, z.entities) <==> Keeps(s, e)
  {
    hide EndpointsAgree, TotalsBooked, BatchBooked, TotalsOf, SweptStore, ClearedStore,
      GroupMovement, FlowMovement, PassSplits, HoldsAny;
    match e
    case Ingested(batch, at) => IngestAgreesIff(s.traffic, s.entities, batch, at, z.traffic);
    case Swept(now, done) => SweepAgreesIff(s, now, done);
    case Cleared(done) => ClearAgreesIff(s, done);
  }

  /** Endpoint rows sum to the boundary rows throughout a run exactly when each of its events keeps that. */
  lemma {:induction false} RunAgreesIff(states: seq<Store>, events: seq<Event>)
    requires Run(states, events)
    ensures (forall i :: 0 <= i <= |events| ==> EndpointsAgree(states[i].traffic, states[i].entities))
       <==> forall i :: 0 <= i < |events| ==> Keeps(states[i], events[i])
    decreases |events|
  {
    hide EndpointsAgree, Next, Keeps;
    if events == [] {
      EmptyAgrees(0);
    } else {
      var n := |events| - 1;
      RunAgreesIff(states[..n + 1], events[..n]);
      if forall i :: 0 <= i < n ==> Keeps(states[i], events[i]) {
        assert EndpointsAgree(states[..n + 1][n].traffic, states[..n + 1][n].entities);
        NextAgreesIff(states[n], events[n], states[n + 1]);
      } else {
        var i :| 0 <= i < n && !Keeps(states[i], events[i]);
        assert !Keeps(states[..n + 1][i], events[..n][i]);
      }
    }
  }

  /** Intervals that fit, and passes and clears that do not stop between the two tables. */
  ghost predicate Whole(e: Event) {
    match e
    case Ingested(batch, _) => Fits(batch)
    case Swept(_, done) => done == 0 || done >= PASS_STATEMENTS
    case Cleared(done) => done != 3
  }

  lemma WholeKeeps(s: Store, e: Event)
    requires Whole(e)
    ensures Keeps(s, e)
  {
    hide TotalsOf, GroupMovement, FlowMovement, Fits;
    match e
    case Ingested(batch, _) =>
      forall ifindex, m
        ensures GroupMovement(TotalsOf(batch), ifindex, m) == FlowMovement(batch, ifindex, m)
      {
        FittingTotals(batch, ifindex, m);
      }
    case Swept(_, done) =>
      forall r: Resolution
        ensures done == 0 ==> r !in TrafficSwept(done)
        ensures done >= PASS_STATEMENTS ==> r in EntitiesSwept(done)
      {
        AllSwept(done, r);
      }
    case Cleared(_) =>
  }

  /** After any run of such events endpoint rows sum to the boundary rows. */
  lemma RunKeepsEndpoints(states: seq<Store>, events: seq<Event>)
    requires Run(states, events) && forall e :: e in events ==> Whole(e)
    ensures EndpointsAgree(states[|events|].traffic, states[|events|].entities)
  {
    hide EndpointsAgree, Next, Keeps, Whole;
    forall i | 0 <= i < |events|
      ensures Keeps(states[i], events[i])
    {
      assert events[i] in events;
      WholeKeeps(states[i], events[i]);
    }
    RunAgreesIff(states, events);
  }

  // ----------------------------------------------- what an interrupted pass leaves

  const ONE := FlowDelta("a", None, [], Inbound, 1, 1, 1, "eth0")

  lemma OneIngested(z: Store)
    requires Next(Store(map[], map[]), Ingested([ONE], 0), z)
    ensures EndpointsAgree(z.traffic, z.entities) && Holds(z.traffic, RowKey(Boundary, Minute, 0, 1))
  {
    hide EndpointsAgree, Next, TotalsBooked, BatchBooked, TotalsOf, GroupMovement, Holds, Sum;
    var empty := Store(map[], map[]);
    assert [ONE][..0] == [];
    EmptyAgrees(0);
    forall ifindex, m
      ensures GroupMovement(TotalsOf([ONE]), ifindex, m) == FlowMovement([ONE], ifindex, m)
    {
      FittingTotals([ONE], ifindex, m);
    }
    NextAgreesIff(empty, Ingested([ONE], 0), z);
    assert TotalsBooked(map[], TotalsOf([ONE]), 0, z.traffic) by { NextBooks(empty, [ONE], 0, z); }
    assert BucketStart(0, Minute) == 0;
    IngestGains(map[], map[], [ONE], 0, z.traffic, Minute, 0, 1, InBytes);
    OneRowSum(map[], RowKey(Boundary, Minute, 0, 1), InBytes);
    assert FlowMovement([ONE], 1, InBytes) == FlowMovement([], 1, InBytes) + 1;
    HoldsIff(z.traffic, RowKey(Boundary, Minute, 0, 1));
  }

  lemma NextBooks(s: Store, batch: seq<FlowDelta>, at: SystemTime, z: Store)
    requires Next(s, Ingested(batch, at), z)
    ensures TotalsBooked(s.traffic, TotalsOf(batch), at, z.traffic)
  {
  }

  /** One packet, and three hours later a pass that fails after its first statement, or a clear after its third. */
  lemma InterruptedRuns(states: seq<Store>, last: Event)
    requires last == Swept(3 * 3600 * NS_PER_SECOND, 1) || last == Cleared(3)
    requires Run(states, [Ingested([ONE], 0), last])
    ensures !EndpointsAgree(states[2].traffic, states[2].entities)
  {
    hide EndpointsAgree, Next, Holds;
    var events := [Ingested([ONE], 0), last];
    assert Next(states[0], events[0], states[1]) && Next(states[1], events[1], states[2]);
    OneIngested(states[1]);
    var k := RowKey(Boundary, Minute, 0, 1);
    if last.Swept? {
      assert Expired(k, last.now);
      assert PassSplits(states[1].traffic, last.now, 1);
    } else {
      assert HoldsAny(states[1].traffic);
    }
    NextAgreesIff(states[1], last, states[2]);
  }


  /** The tables agree on every bucket that a pass at `now` spares. */
  ghost predicate YoungAgree(s: Store, now: SystemTime) {
    forall r, start, ifindex, m :: !Expired(RowKey(Boundary, r, start, ifindex), now) ==>
      Sum(s.traffic, OneRow(RowKey(Boundary, r, start, ifindex)), m)
        == Sum(s.entities, EndpointRows(r, start, ifindex), m)
  }

  /** Intervals that fit, passes up to `now` and clears, none of which stops between the two tables. */
  ghost predicate Orderly(e: Event, now: SystemTime) {
    match e
    case Ingested(batch, _) => Fits(batch)
    case Swept(pass, _) => pass <= now
    case Cleared(done) => done != 3
  }

  lemma LaterExpires(k: RowKey, pass: SystemTime, now: SystemTime)
    requires pass <= now && Expired(k, pass)
    ensures Expired(k, now)
  {
    assert UnixMillis(pass) <= UnixMillis(now);
  }

  lemma AllSwept(done: nat, r: Resolution)
    ensures done >= PASS_STATEMENTS ==> r in TrafficSwept(done) && r in EntitiesSwept(done)
  {
  }

  lemma SweepKeepsYoung(s: Store, pass: SystemTime, done: nat, now: SystemTime)
    requires YoungAgree(s, now) && pass <= now
    ensures YoungAgree(SweptStore(s, pass, done), now)
    ensures pass == now && done >= PASS_STATEMENTS ==>
      EndpointsAgree(SweptStore(s, pass, done).traffic, SweptStore(s, pass, done).entities)
  {
    hide Sum, SweptStore, Expired, TrafficSwept, EntitiesSwept;
    var z := SweptStore(s, pass, done);
    forall r, start, ifindex, m
      ensures var k := RowKey(Boundary, r, start, ifindex);
        !Expired(k, now) || (pass == now && done >= PASS_STATEMENTS) ==>
          Sum(z.traffic, OneRow(k), m) == Sum(z.entities, EndpointRows(r, start, ifindex), m)
    {
      var k := RowKey(Boundary, r, start, ifindex);
      SweptEndpoints(s, pass, done, k, m);
      if Expired(k, pass) {
        LaterExpires(k, pass, now);
        AllSwept(done, r);
      } else if !Expired(k, now) {
        assert Sum(s.traffic, OneRow(k), m) == Sum(s.entities, EndpointRows(r, start, ifindex), m);
      }
    }
  }

  lemma IngestKeepsYoung(s: Store, batch: seq<FlowDelta>, at: SystemTime, z: Store, now: SystemTime)
    requires YoungAgree(s, now) && Fits(batch)
    requires z.entities == BatchBooked(s.entities, batch, at) && TotalsBooked(s.traffic, TotalsOf(batch), at, z.traffic)
    ensures YoungAgree(z, now)
  {
    hide Sum, GroupMovement, FlowMovement, TotalsOf, BatchBooked, BucketStart, Expired, Fits;
    forall r, start, ifindex, m | !Expired(RowKey(Boundary, r, start, ifindex), now)
      ensures Sum(z.traffic, OneRow(RowKey(Boundary, r, start, ifindex)), m)
        == Sum(z.entities, EndpointRows(r, start, ifindex), m)
    {
      IngestGains(s.traffic, s.entities, batch, at, z.traffic, r, start, ifindex, m);
      FittingTotals(batch, ifindex, m);
    }
  }

  lemma NextKeepsYoung(s: Store, e: Event, z: Store, now: SystemTime)
    requires Next(s, e, z) && YoungAgree(s, now) && Orderly(e, now)
    ensures YoungAgree(z, now)
  {
    hide YoungAgree, BatchBooked, TotalsBooked, TotalsOf, SweptStore, Fits;
    match e
    case Ingested(batch, at) => IngestKeepsYoung(s, batch, at, z, now);
    case Swept(pass, done) => SweepKeepsYoung(s, pass, done, now);
    case Cleared(done) => AgreesYoung(z, now);
  }

  lemma AgreesYoung(s: Store, now: SystemTime)
    ensures EndpointsAgree(s.traffic, s.entities) ==> YoungAgree(s, now)
    ensures s == Store(map[], map[]) ==> YoungAgree(s, now)
  {
    EmptyAgrees(0);
  }

  /**
   * Wherever its passes stopped, a run up to `now` leaves the tables agreeing on
   * every bucket that a pass at `now` would spare, and a completed pass at `now`
   * makes them agree again on all.
   */
  lemma {:induction false} RunKeepsYoung(states: seq<Store>, events: seq<Event>, now: SystemTime)
    requires Run(states, events) && forall e :: e in events ==> Orderly(e, now)
    ensures var last := states[|events|];
      && YoungAgree(last, now)
      && var z := SweptStore(last, now, PASS_STATEMENTS); EndpointsAgree(z.traffic, z.entities)
    decreases |events|
  {
    hide YoungAgree, EndpointsAgree, Next, Orderly, SweptStore;
    if events == [] {
      AgreesYoung(states[0], now);
    } else {
      var n := |events| - 1;
      assert events[n] in events;
      RunKeepsYoung(states[..n + 1], events[..n], now);
      NextKeepsYoung(states[n], events[n], states[n + 1], now);
    }
    SweepKeepsYoung(states[|events|], now, PASS_STATEMENTS, now);
  }
}
