/** Timelines: one point for every step of a time range, gaps filled with zeros. */
module Timeline {
  import opened Common
  import opened Rollups
  import opened Sums

  datatype TimeRange = Minute15 | Hour1 | Hour24 | Day7
  datatype Point = Point(start: int, cell: Cell)

  /** Result rows of the grouped query, by start. */
  type Rows = map<int, Cell>

  const NO_CELL := Cell(0, 0, 0, 0)

  function DurationSeconds(r: TimeRange): int {
    match r
    case Minute15 => 15 * 60
    case Hour1 => 60 * 60
    case Hour24 => 24 * 60 * 60
    case Day7 => 7 * 24 * 60 * 60
  }

  function ResolutionOf(r: TimeRange): Resolution {
    if r == Minute15 || r == Hour1 then Minute else Hour
  }

  function Floor(x: int, step: int): int
    requires step > 0
  {
    x / step * step
  }

  function First(r: TimeRange, now: SystemTime): int {
    Floor(UnixMillis(now - DurationSeconds(r) * NS_PER_SECOND), StepMs(ResolutionOf(r)))
  }

  function Last(r: TimeRange, now: SystemTime): int {
    Floor(UnixMillis(now), StepMs(ResolutionOf(r)))
  }

  lemma Floors(x: int, step: int)
    requires step > 0
    ensures Floor(x, step) % step == 0 && Floor(x, step) <= x < Floor(x, step) + step
  {
    assert x == x / step * step + x % step;
    Multiple(x / step, step);
  }

  lemma {:induction false} Multiple(n: int, step: int)
    requires step > 0
    ensures (n * step) % step == 0
    decreases if n >= 0 then n else -n
  {
    if n > 0 {
      Multiple(n - 1, step);
      assert n * step == (n - 1) * step + step;
      AddStep((n - 1) * step, step);
    } else if n < 0 {
      Multiple(n + 1, step);
      assert (n + 1) * step == n * step + step;
      AddStep(n * step, step);
    }
  }

  lemma AddStep(x: int, step: int)
    requires step > 0
    ensures (x + step) % step == x % step
  {
    var q, r := x / step, x % step;
    assert x + step == (q + 1) * step + r;
    UniqueRemainder(x + step, step, q + 1, r);
  }

  lemma UniqueRemainder(x: int, step: int, q: int, r: int)
    requires step > 0 && x == q * step + r && 0 <= r < step
    ensures x % step == r && x / step == q
  {
    var p := x / step;
    assert x == p * step + x % step;
    Distribute(step, p - q, q);
    if p > q {
      AtLeastOne(p - q, step);
    } else if p < q {
      AtLeastOne(q - p, step);
      Distribute(step, q - p, p);
    }
  }

  lemma AtLeastOne(n: int, step: int)
    requires n >= 1 && step > 0
    ensures n * step >= step
  {
  }

  // ---------------------------------------------------------------- timeline

  function PointAt(rows: Rows, at: int): Point {
    Point(at, if at in rows then rows[at] else NO_CELL)
  }

  /** One point per step from `start` to `end`: stored where a row exists, zero elsewhere. */
  ghost predicate Complete(points: seq<Point>, rows: Rows, start: int, end: int, step: int)
    requires step > 0
  {
    && (start <= end ==> |points| == (end - start) / step + 1)
    && (start > end ==> points == [])
    && forall i {:trigger points[i]} :: 0 <= i < |points| ==> points[i] == PointAt(rows, start + i * step)
  }

  method FillGaps(rows: Rows, start: int, end: int, step: int) returns (points: seq<Point>)
    requires step > 0
    ensures Complete(points, rows, start, end, step)
  {
    points := [];
    var remaining := rows;
    var at := start;
    while at <= end
      invariant at == start + |points| * step
      invariant points != [] ==> at - step <= end
      invariant points == [] ==> at == start
      invariant forall x :: x >= at ==> (x in remaining <==> x in rows) && (x in remaining ==> remaining[x] == rows[x])
      invariant forall i {:trigger points[i]} :: 0 <= i < |points| ==> points[i] == PointAt(rows, start + i * step)
      decreases end - at
    {
      points := points + [if at in remaining then Point(at, remaining[at]) else Point(at, NO_CELL)];
      remaining := remaining - {at};
      at := at + step;
    }
    if start <= end {
      UniqueRemainder(end - start, step, |points| - 1, end - start - (|points| - 1) * step);
    }
  }

  method BucketsTimeline(range: TimeRange, now: SystemTime, rows: Rows) returns (points: seq<Point>)
    ensures Complete(points, rows, First(range, now), Last(range, now), StepMs(ResolutionOf(range)))
  {
    var step := StepMs(ResolutionOf(range));
    var end := UnixMillis(now) / step * step;
    var start := UnixMillis(now - DurationSeconds(range) * NS_PER_SECOND) / step * step;
    points := FillGaps(rows, start, end, step);
  }

  // ------------------------------------------------- the points sum to the rows

  function At(series: Series, r: Resolution, start: int): Selector {
    SeriesRange(series, r, start, start)
  }

  function Starts(t: Table, s: Selector): set<int> {
    set k | k in t && Selects(s, k) :: k.start
  }

  /** The grouped query of one series: the rows of each start, summed over the interfaces. */
  ghost function QueryRows(t: Table, series: Series, r: Resolution, first: int, last: int): Rows {
    map a | a in Starts(t, SeriesRange(series, r, first, last)) ::
      Cell(Sum(t, At(series, r, a), InPackets), Sum(t, At(series, r, a), InBytes),
           Sum(t, At(series, r, a), OutPackets), Sum(t, At(series, r, a), OutBytes))
  }

  function PointsSum(points: seq<Point>, m: Measure): int {
    if points == [] then 0 else PointsSum(points[..|points| - 1], m) + Part(points[|points| - 1].cell, m)
  }

  ghost predicate Aligned(t: Table) {
    forall k :: k in t ==> k.start % StepMs(k.resolution) == 0
  }

  lemma QueryPart(t: Table, series: Series, r: Resolution, first: int, last: int, at: int, m: Measure)
    requires first <= at <= last
    ensures Part(PointAt(QueryRows(t, series, r, first, last), at).cell, m) == Sum(t, At(series, r, at), m)
  {
    hide Sum;
    var s := SeriesRange(series, r, first, last);
    if at !in Starts(t, s) {
      forall k | k in t
        ensures !Selects(At(series, r, at), k)
      {
        assert Selects(At(series, r, at), k) ==> Selects(s, k) && k.start == at;
        assert Selects(s, k) ==> k.start in Starts(t, s);
      }
      NothingSelected(t, At(series, r, at), m);
    }
  }

  lemma NothingSelected(t: Table, s: Selector, m: Measure)
    requires forall k :: k in t ==> !Selects(s, k)
    ensures Sum(t, s, m) == 0
  {
    TotalZero(t, Contribution(s, m));
  }

  /** Rows of an aligned table between two steps stand at the first. */
  lemma OneStepMore(t: Table, series: Series, r: Resolution, first: int, edge: int, m: Measure)
    requires Aligned(t) && first <= edge && edge % StepMs(r) == 0
    ensures Sum(t, SeriesRange(series, r, first, edge + StepMs(r) - 1), m)
      == Sum(t, SeriesRange(series, r, first, edge - 1), m) + Sum(t, At(series, r, edge), m)
  {
    var wide, narrow, one := SeriesRange(series, r, first, edge + StepMs(r) - 1),
      SeriesRange(series, r, first, edge - 1), At(series, r, edge);
    forall k | k in t
      ensures Contribution(wide, m)(k, t[k]) == Contribution(narrow, m)(k, t[k]) + Contribution(one, m)(k, t[k])
    {
      if k.resolution == r && edge <= k.start < edge + StepMs(r) {
        assert k.start % StepMs(r) == 0;
        SameStep(k.start, edge, StepMs(r));
      }
      assert Selects(wide, k) == (Selects(narrow, k) || Selects(one, k)) && !(Selects(narrow, k) && Selects(one, k));
    }
    TotalPlus(t, Contribution(wide, m), Contribution(narrow, m), Contribution(one, m));
  }

  lemma SameStep(x: int, edge: int, step: int)
    requires step > 0 && x % step == 0 && edge % step == 0 && edge <= x < edge + step
    ensures x == edge
  {
    UniqueRemainder(x, step, edge / step, x - edge);
  }

  lemma {:induction false} PrefixSums(
      t: Table, series: Series, r: Resolution, first: int, last: int, points: seq<Point>, n: nat, m: Measure)
    requires Aligned(t) && n <= |points| && first % StepMs(r) == 0 && last % StepMs(r) == 0 && first <= last
    requires Complete(points, QueryRows(t, series, r, first, last), first, last, StepMs(r))
    ensures PointsSum(points[..n], m) == Sum(t, SeriesRange(series, r, first, first + n * StepMs(r) - 1), m)
    decreases n
  {
    hide Sum, QueryRows, Aligned;
    var step := StepMs(r);
    if n == 0 {
      NothingSelected(t, SeriesRange(series, r, first, first - 1), m);
    } else {
      PrefixSums(t, series, r, first, last, points, n - 1, m);
      assert points[..n][..n - 1] == points[..n - 1] && points[..n][n - 1] == points[n - 1];
      var edge := first + (n - 1) * step;
      EdgeInRange(first, last, step, n);
      QueryPart(t, series, r, first, last, edge, m);
      OneStepMore(t, series, r, first, edge, m);
      assert first + n * step - 1 == edge + step - 1;
    }
  }

  lemma EdgeInRange(first: int, last: int, step: int, n: nat)
    requires step > 0 && first % step == 0 && first <= last && 1 <= n <= (last - first) / step + 1
    ensures var edge := first + (n - 1) * step; first <= edge <= last && edge % step == 0
  {
    var q, k, p := (last - first) / step, n - 1, first / step;
    assert last - first == q * step + (last - first) % step;
    Distribute(step, q - k, k);
    NotNegative(q - k, step);
    NotNegative(k, step);
    assert first == p * step;
    Gather(p, k, step);
    Multiple(p + k, step);
  }

  lemma Gather(p: int, k: int, step: int)
    ensures (p + k) * step == p * step + k * step
  {
  }

  /** The points of an unfiltered timeline sum to the stored rows of its range. */
  lemma TimelineSums(t: Table, series: Series, range: TimeRange, now: SystemTime, points: seq<Point>, m: Measure)
    requires Aligned(t)
    requires var r := ResolutionOf(range);
      Complete(points, QueryRows(t, series, r, First(range, now), Last(range, now)),
        First(range, now), Last(range, now), StepMs(r))
    ensures PointsSum(points, m)
            == Sum(t, SeriesRange(series, ResolutionOf(range), First(range, now), Last(range, now)), m)
  {
    hide Sum, QueryRows;
    var r, first, last := ResolutionOf(range), First(range, now), Last(range, now);
    var step := StepMs(r);
    RangeBounds(range, now);
    PrefixSums(t, series, r, first, last, points, |points|, m);
    assert points[..|points|] == points;
    LastEdge(first, last, step);
    assert first + |points| * step - 1 == last + step - 1;
    OneStepMore(t, series, r, first, last, m);
    AlignedTail(t, series, r, first, last, m);
  }

  /** No row stands between the last step and the next. */
  lemma AlignedTail(t: Table, series: Series, r: Resolution, first: int, last: int, m: Measure)
    requires Aligned(t) && first <= last && last % StepMs(r) == 0
    ensures Sum(t, SeriesRange(series, r, first, last + StepMs(r) - 1), m)
            == Sum(t, SeriesRange(series, r, first, last), m)
  {
    var wide, exact := SeriesRange(series, r, first, last + StepMs(r) - 1), SeriesRange(series, r, first, last);
    forall k | k in t
      ensures Contribution(wide, m)(k, t[k]) == Contribution(exact, m)(k, t[k])
    {
      if k.resolution == r && last <= k.start < last + StepMs(r) {
        assert k.start % StepMs(r) == 0;
        SameStep(k.start, last, StepMs(r));
      }
    }
    TotalSame(t, Contribution(wide, m), Contribution(exact, m));
  }

  lemma LastEdge(first: int, last: int, step: int)
    requires step > 0 && first % step == 0 && last % step == 0 && first <= last
    ensures first + (last - first) / step * step == last
  {
    var q := last / step - first / step;
    assert q * step == last / step * step - first / step * step;
    UniqueRemainder(last - first, step, q, 0);
  }

  lemma UnixMillisMonotone(a: SystemTime, b: SystemTime)
    requires a <= b
    ensures UnixMillis(a) <= UnixMillis(b)
  {
  }

  /** A range starts less than a step and a millisecond before its duration, and ends at the present step. */
  lemma RangeBounds(range: TimeRange, now: SystemTime)
    ensures var step := StepMs(ResolutionOf(range));
      && First(range, now) <= Last(range, now)
      && First(range, now) % step == 0 && Last(range, now) % step == 0
      && First(range, now) > UnixMillis(now) - DurationSeconds(range) * 1000 - 1 - step
  {
    var step := StepMs(ResolutionOf(range));
    var cutoff := now - DurationSeconds(range) * NS_PER_SECOND;
    Floors(UnixMillis(cutoff), step);
    Floors(UnixMillis(now), step);
    UnixMillisMonotone(cutoff, now);
    CutoffMillis(now, DurationSeconds(range));
    FloorMonotone(UnixMillis(cutoff), UnixMillis(now), step);
  }

  /**
   * A range is the steps from the one that holds its cutoff to the one that holds
   * the present, a minute or an hour each.
   */
  lemma RangeCovers(range: TimeRange, now: SystemTime)
    ensures var (seconds, step) :=
        match range
        case Minute15 => (900, 60_000)
        case Hour1 => (3_600, 60_000)
        case Hour24 => (86_400, 3_600_000)
        case Day7 => (604_800, 3_600_000);
      && First(range, now) <= UnixMillis(now - seconds * 1_000_000_000) < First(range, now) + step
      && Last(range, now) <= UnixMillis(now) < Last(range, now) + step
      && First(range, now) % step == 0 && Last(range, now) % step == 0
  {
    hide UnixMillis, Floor;
    Floors(UnixMillis(now - DurationSeconds(range) * NS_PER_SECOND), StepMs(ResolutionOf(range)));
    Floors(UnixMillis(now), StepMs(ResolutionOf(range)));
  }

  lemma CutoffMillis(now: SystemTime, seconds: int)
    requires seconds >= 0
    ensures UnixMillis(now - seconds * NS_PER_SECOND) >= UnixMillis(now) - seconds * 1000 - 1
  {
    assert (now - seconds * NS_PER_SECOND) / NS_PER_MS == now / NS_PER_MS - seconds * 1000;
  }

  lemma FloorMonotone(a: int, b: int, step: int)
    requires step > 0 && a <= b
    ensures Floor(a, step) <= Floor(b, step)
  {
    var p, q := a / step, b / step;
    assert a == p * step + a % step && b == q * step + b % step;
    if p > q {
      AtLeastOne(p - q, step);
      Distribute(step, p - q, q);
    } else {
      Distribute(step, q - p, p);
      NotNegative(q - p, step);
    }
  }

  lemma NotNegative(n: int, step: int)
    requires n >= 0 && step > 0
    ensures n * step >= 0
  {
  }

  // ------------------------------------------------- retention spares the ranges

  /** A retention pass at or before `now` deletes no bucket that a range asks for at `now`. */
  lemma RangeIsRetained(range: TimeRange, now: SystemTime, pass: SystemTime, k: RowKey)
    requires pass <= now && k.resolution == ResolutionOf(range) && First(range, now) <= k.start
    ensures !Expired(k, pass)
  {
    hide First, Last, UnixMillis;
    RangeBounds(range, now);
    UnixMillisMonotone(pass, now);
  }

  /** Every row the selector may pick is young enough to survive a pass at `now`. */
  ghost predicate Young(s: Selector, now: SystemTime) {
    forall k :: Selects(s, k) ==> !Expired(k, now)
  }

  /** The tables hold the same rows, as far as a pass at `now` spares them. */
  ghost predicate SameYoung(a: Table, b: Table, now: SystemTime) {
    && (forall k :: !Expired(k, now) ==> (k in a <==> k in b))
    && (forall s, m :: Young(s, now) ==> Sum(a, s, m) == Sum(b, s, m))
  }

  lemma SweptStaysSame(a: Table, b: Table, pass: SystemTime, swept: set<Resolution>, now: SystemTime)
    requires SameYoung(a, b, now) && pass <= now
    ensures SameYoung(Retained(a, pass, swept), b, now)
  {
    hide Sum, UnixMillis;
    UnixMillisMonotone(pass, now);
    forall s, m | Young(s, now)
      ensures Sum(Retained(a, pass, swept), s, m) == Sum(b, s, m)
    {
      RetainedSum(a, pass, swept, s, m);
    }
  }

  /** Rows a batch is booked in. */
  ghost function BatchKeys(batch: seq<FlowDelta>, at: SystemTime): set<RowKey> {
    BatchBooked(map[], batch, at).Keys
  }

  lemma {:induction false} BookedKeys(t: Table, keys: seq<RowKey>, c: Cell)
    ensures Booked(t, keys, c).Keys == t.Keys + (set k | k in keys)
  {
    if keys != [] {
      BookedKeys(t, keys[..|keys| - 1], c);
      assert keys == keys[..|keys| - 1] + [keys[|keys| - 1]];
    }
  }

  ghost function DeltaKeys(d: FlowDelta, at: SystemTime): set<RowKey> {
    if !d.Moved() then {}
    else
      var minutes, hours := EntityKeys(d, Minute, BucketStart(at, Minute)), EntityKeys(d, Hour, BucketStart(at, Hour));
      (set k | k in minutes) + (set k | k in hours)
  }

  lemma DeltaBookedKeys(t: Table, d: FlowDelta, at: SystemTime)
    ensures DeltaBooked(t, d, at).Keys == t.Keys + DeltaKeys(d, at)
  {
    hide EntityKeys, Booked, BucketStart;
    if d.Moved() {
      var minutes := EntityKeys(d, Minute, BucketStart(at, Minute));
      BookedKeys(t, minutes, DeltaCell(d));
      BookedKeys(Booked(t, minutes, DeltaCell(d)), EntityKeys(d, Hour, BucketStart(at, Hour)), DeltaCell(d));
    }
  }

  lemma {:induction false} BatchBookedKeys(t: Table, batch: seq<FlowDelta>, at: SystemTime)
    ensures BatchBooked(t, batch, at).Keys == t.Keys + BatchKeys(batch, at)
  {
    hide DeltaBooked, DeltaKeys;
    if batch != [] {
      var less, d := batch[..|batch| - 1], batch[|batch| - 1];
      BatchBookedKeys(t, less, at);
      DeltaBookedKeys(BatchBooked(t, less, at), d, at);
      DeltaBookedKeys(BatchBooked(map[], less, at), d, at);
    }
  }

  lemma IngestStaysSame(a: Table, b: Table, batch: seq<FlowDelta>, at: SystemTime, x: Table, y: Table, now: SystemTime)
    requires SameYoung(a, b, now)
    requires (x == BatchBooked(a, batch, at) && y == BatchBooked(b, batch, at))
      || (TotalsBooked(a, TotalsOf(batch), at, x) && TotalsBooked(b, TotalsOf(batch), at, y))
    ensures SameYoung(x, y, now)
  {
    hide Sum, BatchBooked, TotalsOf, BatchKeys, TrafficKeys, Young, UnixMillis, BatchGain;
    if x == BatchBooked(a, batch, at) && y == BatchBooked(b, batch, at) {
      BatchBookedKeys(a, batch, at);
      BatchBookedKeys(b, batch, at);
    }
    forall s, m | Young(s, now)
      ensures Sum(x, s, m) == Sum(y, s, m)
    {
      if x == BatchBooked(a, batch, at) && y == BatchBooked(b, batch, at) {
        BatchBookedAdds(a, batch, at, s, m);
        BatchBookedAdds(b, batch, at, s, m);
      }
    }
  }

  /** The same run with its retention passes left out. */
  ghost predicate RunUnswept(states: seq<Store>, events: seq<Event>) {
    && |states| == |events| + 1 && states[0] == Store(map[], map[])
    && forall i :: 0 <= i < |events| ==>
      if events[i].Swept? then states[i + 1] == states[i] else Next(states[i], events[i], states[i + 1])
  }

  ghost predicate SweptBy(events: seq<Event>, now: SystemTime) {
    forall e :: e in events && e.Swept? ==> e.now <= now
  }

  lemma NextStaysSame(s: Store, t: Store, e: Event, x: Store, y: Store, now: SystemTime)
    requires SameYoung(s.traffic, t.traffic, now) && SameYoung(s.entities, t.entities, now)
    requires Next(s, e, x) && (if e.Swept? then y == t && e.now <= now else Next(t, e, y))
    ensures SameYoung(x.traffic, y.traffic, now) && SameYoung(x.entities, y.entities, now)
  {
    hide SameYoung, BatchBooked, TotalsBooked, TotalsOf, Retained, TrafficSwept, EntitiesSwept;
    match e
    case Ingested(batch, at) =>
      IngestStaysSame(s.traffic, t.traffic, batch, at, x.traffic, y.traffic, now);
      IngestStaysSame(s.entities, t.entities, batch, at, x.entities, y.entities, now);
    case Swept(pass, done) =>
      SweptStaysSame(s.traffic, t.traffic, pass, TrafficSwept(done), now);
      SweptStaysSame(s.entities, t.entities, pass, EntitiesSwept(done), now);
    case Cleared(_) =>
      ReflexivelySame(map[], now);
  }

  lemma ReflexivelySame(t: Table, now: SystemTime)
    ensures SameYoung(t, t, now)
  {
  }

  lemma {:induction false} RunsStaySame(states: seq<Store>, shadow: seq<Store>, events: seq<Event>, now: SystemTime)
    requires Run(states, events) && RunUnswept(shadow, events) && SweptBy(events, now)
    ensures SameYoung(states[|events|].traffic, shadow[|events|].traffic, now)
    ensures SameYoung(states[|events|].entities, shadow[|events|].entities, now)
    decreases |events|
  {
    hide SameYoung, Next;
    if events == [] {
      ReflexivelySame(map[], now);
    } else {
      var n := |events| - 1;
      assert events[n] in events;
      RunsStaySame(states[..n + 1], shadow[..n + 1], events[..n], now);
      NextStaysSame(states[n], shadow[n], events[n], states[n + 1], shadow[n + 1], now);
    }
  }

  lemma SameQuery(a: Table, b: Table, series: Series, range: TimeRange, now: SystemTime)
    requires SameYoung(a, b, now)
    ensures var r, first, last := ResolutionOf(range), First(range, now), Last(range, now);
      QueryRows(a, series, r, first, last) == QueryRows(b, series, r, first, last)
  {
    hide Sum, First, Last, Expired;
    var r, first, last := ResolutionOf(range), First(range, now), Last(range, now);
    var s := SeriesRange(series, r, first, last);
    forall k | Selects(s, k)
      ensures k in a <==> k in b
    {
      RangeIsRetained(range, now, now, k);
    }
    SameStarts(a, b, s);
    forall x, m | x in Starts(a, s)
      ensures Sum(a, At(series, r, x), m) == Sum(b, At(series, r, x), m)
    {
      YoungStep(series, range, now, x);
    }
  }

  lemma SameStarts(a: Table, b: Table, s: Selector)
    requires forall k :: Selects(s, k) ==> (k in a <==> k in b)
    ensures Starts(a, s) == Starts(b, s)
  {
    forall x | x in Starts(a, s)
      ensures x in Starts(b, s)
    {
      var k :| k in a && Selects(s, k) && k.start == x;
      assert k in b;
    }
    forall x | x in Starts(b, s)
      ensures x in Starts(a, s)
    {
      var k :| k in b && Selects(s, k) && k.start == x;
      assert k in a;
    }
  }

  lemma YoungStep(series: Series, range: TimeRange, now: SystemTime, start: int)
    requires First(range, now) <= start
    ensures Young(At(series, ResolutionOf(range), start), now)
  {
    hide First, Last, Expired;
    forall k | Selects(At(series, ResolutionOf(range), start), k)
      ensures !Expired(k, now)
    {
      RangeIsRetained(range, now, now, k);
    }
  }

  /**
   * Whatever retention passes ran up to `now`, every timeline asked for at `now` is
   * the one an unswept history gives.
   */
  lemma RetentionSparesTimelines(
      states: seq<Store>, shadow: seq<Store>, events: seq<Event>, series: Series, range: TimeRange, now: SystemTime)
    requires Run(states, events) && RunUnswept(shadow, events) && SweptBy(events, now)
    ensures var r, first, last, n := ResolutionOf(range), First(range, now), Last(range, now), |events|;
      && QueryRows(states[n].traffic, series, r, first, last) == QueryRows(shadow[n].traffic, series, r, first, last)
      && QueryRows(states[n].entities, series, r, first, last) == QueryRows(shadow[n].entities, series, r, first, last)
  {
    hide SameYoung, Next, QueryRows;
    RunsStaySame(states, shadow, events, now);
    SameQuery(states[|events|].traffic, shadow[|events|].traffic, series, range, now);
    SameQuery(states[|events|].entities, shadow[|events|].entities, series, range, now);
  }

  // ------------------------------------------------------- what a timeline shows

  /**
   * Movement of an entity in one bucket over a run: every interval of that bucket
   * since the entity rows were last cleared.
   */
  function RunMovement(
      events: seq<Event>, kind: Kind, key: string, r: Resolution, start: int, on: Option<int>, m: Measure): int
  {
    if events == [] then 0
    else
      var before := RunMovement(events[..|events| - 1], kind, key, r, start, on, m);
      match events[|events| - 1]
      case Ingested(batch, at) =>
        before + if start == BucketStart(at, r) then EntityMovement(batch, kind, key, on, m) else 0
      case Swept(_, _) => before
      case Cleared(done) => if done >= 4 then 0 else before
  }

  lemma {:induction false} RunBooksEntity(
      states: seq<Store>, events: seq<Event>, kind: Kind, key: string, r: Resolution, start: int, on: Option<int>,
      m: Measure)
    requires RunUnswept(states, events)
    ensures Sum(states[|events|].entities, EntityBucket(kind, key, r, start, on), m)
         == RunMovement(events, kind, key, r, start, on, m)
    decreases |events|
  {
    hide Sum, EntityBucket, EntityMovement, BatchBooked, TotalsBooked, BucketStart;
    var s := EntityBucket(kind, key, r, start, on);
    EmptySum(s, m);
    if events != [] {
      var n := |events| - 1;
      RunBooksEntity(states[..n + 1], events[..n], kind, key, r, start, on, m);
      match events[n]
      case Ingested(batch, at) =>
        assert Next(states[n], events[n], states[n + 1]);
        IngestBooksEntity(states[n].entities, batch, at, kind, key, r, start, on, m);
      case Swept(_, _) =>
      case Cleared(_) => assert Next(states[n], events[n], states[n + 1]);
    }
  }

  lemma EmptySum(s: Selector, m: Measure)
    ensures Sum(map[], s, m) == 0
  {
    TotalZero(map[], Contribution(s, m));
  }

  /** The same for the boundary: what all Flows of the interface moved, while intervals fit. */
  function RunTraffic(events: seq<Event>, r: Resolution, start: int, ifindex: int, m: Measure): int {
    if events == [] then 0
    else
      var before := RunTraffic(events[..|events| - 1], r, start, ifindex, m);
      match events[|events| - 1]
      case Ingested(batch, at) => before + if start == BucketStart(at, r) then FlowMovement(batch, ifindex, m) else 0
      case Swept(_, _) => before
      case Cleared(done) => if done >= 3 then 0 else before
  }

  lemma {:induction false} RunBooksTraffic(
      states: seq<Store>, events: seq<Event>, r: Resolution, start: int, ifindex: int, m: Measure)
    requires RunUnswept(states, events) && forall e :: e in events && e.Ingested? ==> Fits(e.batch)
    ensures Sum(states[|events|].traffic, OneRow(RowKey(Boundary, r, start, ifindex)), m)
         == RunTraffic(events, r, start, ifindex, m)
    decreases |events|
  {
    hide Sum, FlowMovement, GroupMovement, BatchBooked, TotalsBooked, TotalsOf, BucketStart, Fits;
    EmptySum(OneRow(RowKey(Boundary, r, start, ifindex)), m);
    if events != [] {
      var n := |events| - 1;
      RunBooksTraffic(states[..n + 1], events[..n], r, start, ifindex, m);
      assert events[n] in events;
      match events[n]
      case Ingested(batch, at) =>
        assert Next(states[n], events[n], states[n + 1]);
        IngestGains(states[n].traffic, states[n].entities, batch, at, states[n + 1].traffic, r, start, ifindex, m);
        FittingTotals(batch, ifindex, m);
      case Swept(_, _) =>
      case Cleared(_) => assert Next(states[n], events[n], states[n + 1]);
    }
  }

  /**
   * Whatever retention passes ran up to `now`, each step of an entity's timeline
   * shows what the Flows that count for it moved in that step since the last
   * clear.
   */
  lemma TimelineShows(
      states: seq<Store>, shadow: seq<Store>, events: seq<Event>, kind: Kind, key: string, range: TimeRange,
      now: SystemTime, at: int, m: Measure)
    requires Run(states, events) && RunUnswept(shadow, events) && SweptBy(events, now)
    requires First(range, now) <= at <= Last(range, now)
    ensures var r := ResolutionOf(range);
      var rows := QueryRows(states[|events|].entities, Entity(kind, key), r, First(range, now), Last(range, now));
      Part(PointAt(rows, at).cell, m) == RunMovement(events, kind, key, r, at, None, m)
  {
    hide Sum, QueryRows, Next, First, Last, RunMovement;
    var r, series, n := ResolutionOf(range), Entity(kind, key), |events|;
    RetentionSparesTimelines(states, shadow, events, series, range, now);
    QueryPart(shadow[n].entities, series, r, First(range, now), Last(range, now), at, m);
    RunBooksEntity(shadow, events, kind, key, r, at, None, m);
  }

  // ------------------------------------------------------------ aligned tables

  lemma DeltaKeysAligned(d: FlowDelta, at: SystemTime)
    ensures forall k :: k in DeltaKeys(d, at) ==> k.start % StepMs(k.resolution) == 0
  {
    hide BucketStart;
    BucketStarts(at);
    EntityKeysAt(d, Minute, BucketStart(at, Minute));
    EntityKeysAt(d, Hour, BucketStart(at, Hour));
    assert BucketStart(at, Minute) % StepMs(Minute) == 0 && BucketStart(at, Hour) % StepMs(Hour) == 0;
  }

  lemma {:induction false} BatchAligned(t: Table, batch: seq<FlowDelta>, at: SystemTime)
    requires Aligned(t)
    ensures Aligned(BatchBooked(t, batch, at))
  {
    hide DeltaBooked, DeltaKeys;
    if batch != [] {
      var less, d := batch[..|batch| - 1], batch[|batch| - 1];
      BatchAligned(t, less, at);
      DeltaBookedKeys(BatchBooked(t, less, at), d, at);
      DeltaKeysAligned(d, at);
    }
  }

  lemma TotalsAligned(t: Table, ts: GroupTotals, at: SystemTime, after: Table)
    requires Aligned(t) && TotalsBooked(t, ts, at, after)
    ensures Aligned(after)
  {
    hide BucketStart, Sum;
    BucketStarts(at);
    forall k | k in after
      ensures k.start % StepMs(k.resolution) == 0
    {
      if k !in t {
        assert k in TrafficKeys(ts, at);
      }
    }
  }

  /** After any run, every row stands at a multiple of its step: `TimelineSums` applies to both tables. */
  lemma {:induction false} RunAligned(states: seq<Store>, events: seq<Event>)
    requires Run(states, events)
    ensures Aligned(states[|events|].traffic) && Aligned(states[|events|].entities)
    decreases |events|
  {
    hide Next;
    if events != [] {
      var n := |events| - 1;
      RunAligned(states[..n + 1], events[..n]);
      NextAligned(states[n], events[n], states[n + 1]);
    }
  }

  lemma NextAligned(s: Store, e: Event, z: Store)
    requires Next(s, e, z) && Aligned(s.traffic) && Aligned(s.entities)
    ensures Aligned(z.traffic) && Aligned(z.entities)
  {
    hide TotalsBooked, BatchBooked, TotalsOf, UnixMillis;
    if e.Ingested? {
      BatchAligned(s.entities, e.batch, e.collectedAt);
      TotalsAligned(s.traffic, TotalsOf(e.batch), e.collectedAt, z.traffic);
    }
  }
}
