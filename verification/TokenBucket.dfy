/**
 * The rule state of one Traffic Rule in one direction: a token bucket for
 * `limit` rules and four counters for every rule.
 *
 * `Bucket` is the value of a rule state, `RuleState` the object the packet path
 * updates under its lock. An enforcement step is one atomic step.
 */
module TokenBucket {
  import opened Common

  const REFILL_CAP_NS := NS_PER_SECOND

  const MIN_RATE_BYTES_PER_S := 4_096
  const MAX_RATE_BYTES_PER_S := 10 * 1024 * 1024 * 1024

  datatype Verdict = Pass | Drop

  datatype Bucket = Bucket(
    rate: u64, burst: u64, tokens: u64, lastRefill: u64,
    matchedPackets: u64, matchedBytes: u64, droppedPackets: u64, droppedBytes: u64)

  const DEFAULT_BUCKET := Bucket(0, 0, 0, 0, 0, 0, 0, 0)

  // ---------------------------------------------------------------- one step

  function Elapsed(b: Bucket, now: u64): (e: u64)
    ensures e <= REFILL_CAP_NS
  {
    Min(SaturatingSub(now, b.lastRefill), REFILL_CAP_NS)
  }

  /** Bytes credited for `elapsed` nanoseconds; the product wraps at 64 bits. */
  function Credit(elapsed: u64, rate: u64): u64 {
    (elapsed * rate) % U64_MOD / NS_PER_SECOND
  }

  function Refilled(b: Bucket, now: u64): Bucket {
    var add := Credit(Elapsed(b, now), b.rate);
    if add > 0 then
      b.(tokens := Min(SaturatingAdd(b.tokens, add), b.burst), lastRefill := now)
    else
      b
  }

  function Counted(b: Bucket, len: u64): Bucket {
    b.(matchedPackets := SaturatingAdd(b.matchedPackets, 1), matchedBytes := SaturatingAdd(b.matchedBytes, len))
  }

  function Dropped(b: Bucket, len: u64): Bucket {
    b.(droppedPackets := SaturatingAdd(b.droppedPackets, 1), droppedBytes := SaturatingAdd(b.droppedBytes, len))
  }

  function Judge(b: Bucket, action: Action, len: u64): Verdict {
    if action == Limit && b.tokens >= len then Pass else Drop
  }

  function Enforced(b: Bucket, action: Action, now: u64, len: u64): (Bucket, Verdict) {
    var c := Counted(Refilled(b, now), len);
    if Judge(c, action, len) == Pass then (c.(tokens := c.tokens - len), Pass) else (Dropped(c, len), Drop)
  }

  /** A rule state as the packet path holds it: fields updated in place. */
  class RuleState {
    var rate: u64
    var burst: u64
    var tokens: u64
    var lastRefill: u64
    var matchedPackets: u64
    var matchedBytes: u64
    var droppedPackets: u64
    var droppedBytes: u64

    constructor (b: Bucket)
      ensures Value() == b
    {
      rate, burst, tokens, lastRefill := b.rate, b.burst, b.tokens, b.lastRefill;
      matchedPackets, matchedBytes := b.matchedPackets, b.matchedBytes;
      droppedPackets, droppedBytes := b.droppedPackets, b.droppedBytes;
    }

    function Value(): Bucket
      reads this
    {
      Bucket(rate, burst, tokens, lastRefill, matchedPackets, matchedBytes, droppedPackets, droppedBytes)
    }

    /** A bucket within its burst is credited the whole bytes that are due, up to the burst. */
    method Refill(now: u64)
      modifies this`tokens, this`lastRefill
      ensures Value() == Refilled(old(Value()), now)
      ensures rate * NS_PER_SECOND < U64_MOD && old(tokens) <= burst ==>
        tokens == Min(old(tokens) + Due(old(lastRefill), now, rate), burst)
      ensures rate * NS_PER_SECOND < U64_MOD ==>
        lastRefill == if Due(old(lastRefill), now, rate) > 0 then now else old(lastRefill)
    {
      ghost var before := Value();
      if before.rate * NS_PER_SECOND < U64_MOD {
        RefillLeaves(before, now);
      }
      var elapsed := Min(SaturatingSub(now, lastRefill), REFILL_CAP_NS);
      var add := (elapsed * rate) % U64_MOD / NS_PER_SECOND;
      if add > 0 {
        tokens := Min(SaturatingAdd(tokens, add), burst);
        lastRefill := now;
      }
    }

    method DropPacket(len: u64)
      modifies this`droppedPackets, this`droppedBytes
      ensures Value() == Dropped(old(Value()), len)
    {
      droppedPackets := SaturatingAdd(droppedPackets, 1);
      droppedBytes := SaturatingAdd(droppedBytes, len);
    }

    method Enforce(action: Action, now: u64, len: u64) returns (verdict: Verdict)
      modifies this
      ensures (Value(), verdict) == Enforced(old(Value()), action, now, len)
    {
      Refill(now);
      matchedPackets := SaturatingAdd(matchedPackets, 1);
      matchedBytes := SaturatingAdd(matchedBytes, len);
      if action == Block {
        DropPacket(len);
        verdict := Drop;
      } else if tokens >= len {
        tokens := tokens - len;
        verdict := Pass;
      } else {
        DropPacket(len);
        verdict := Drop;
      }
    }
  }

  // ---------------------------------------------------------- runs of packets

  datatype Packet = Packet(action: Action, now: u64, len: u64)

  /** A bucket after some packets, with the traffic that went through. */
  datatype Outcome = Outcome(bucket: Bucket, passedPackets: nat, passedBytes: nat)

  function Step(o: Outcome, p: Packet): Outcome {
    var (b, verdict) := Enforced(o.bucket, p.action, p.now, p.len);
    if verdict == Pass then Outcome(b, o.passedPackets + 1, o.passedBytes + p.len)
    else Outcome(b, o.passedPackets, o.passedBytes)
  }

  function Run(b: Bucket, packets: seq<Packet>): Outcome {
    if packets == [] then Outcome(b, 0, 0)
    else Step(Run(b, packets[..|packets| - 1]), packets[|packets| - 1])
  }

  lemma CreditBounds(elapsed: u64, rate: u64)
    requires elapsed <= REFILL_CAP_NS
    ensures NS_PER_SECOND * Credit(elapsed, rate) <= elapsed * rate
    ensures rate * NS_PER_SECOND < U64_MOD ==> elapsed * rate < NS_PER_SECOND * (Credit(elapsed, rate) + 1)
  {
    MulMonotone(rate, elapsed, NS_PER_SECOND);
    WrappedQuotient(elapsed * rate);
  }

  lemma WrappedQuotient(x: nat)
    ensures NS_PER_SECOND * (x % U64_MOD / NS_PER_SECOND) <= x
    ensures x < U64_MOD ==> x < NS_PER_SECOND * (x % U64_MOD / NS_PER_SECOND + 1)
  {
  }

  /** Credit never exceeds what the rate earns over the time `lastRefill` moved. */
  lemma RefillEarns(b: Bucket, now: u64)
    ensures Refilled(b, now).lastRefill >= b.lastRefill
    ensures NS_PER_SECOND * Refilled(b, now).tokens
         <= NS_PER_SECOND * b.tokens + b.rate * (Refilled(b, now).lastRefill - b.lastRefill)
  {
    var elapsed := Elapsed(b, now);
    CreditBounds(elapsed, b.rate);
    if Credit(elapsed, b.rate) > 0 {
      assert elapsed > 0;
      assert elapsed * b.rate <= b.rate * (now - b.lastRefill) by {
        MulMonotone(b.rate, elapsed, now - b.lastRefill);
      }
    }
  }

  lemma RunKeepsConfiguration(b: Bucket, packets: seq<Packet>)
    ensures Run(b, packets).bucket.rate == b.rate && Run(b, packets).bucket.burst == b.burst
  {
  }

  /** Tokens and passed bytes since `b` are covered by its tokens and the rate over the refill clock. */
  ghost predicate UnderCeiling(b: Bucket, o: Outcome) {
    && o.bucket.lastRefill >= b.lastRefill
    && NS_PER_SECOND * (o.passedBytes + o.bucket.tokens)
       <= NS_PER_SECOND * b.tokens + b.rate * (o.bucket.lastRefill - b.lastRefill)
  }

  /**
   * Rate ceiling: whatever the packets and however their timestamps are
   * ordered, the bytes passed plus the tokens left are covered by the tokens at
   * the start and the rate over the time the refill clock moved. It needs no
   * bound on the rate: a wrapping product only ever credits less.
   */
  lemma {:induction false} RateCeiling(b: Bucket, packets: seq<Packet>)
    ensures UnderCeiling(b, Run(b, packets))
  {
    if packets != [] {
      RateCeiling(b, packets[..|packets| - 1]);
      RunKeepsConfiguration(b, packets[..|packets| - 1]);
      StepUnderCeiling(b, Run(b, packets[..|packets| - 1]), packets[|packets| - 1]);
    } else {
      assert Run(b, packets) == Outcome(b, 0, 0);
    }
  }

  lemma StepUnderCeiling(b: Bucket, o: Outcome, p: Packet)
    requires o.bucket.rate == b.rate && UnderCeiling(b, o)
    ensures UnderCeiling(b, Step(o, p))
  {
    RefillEarns(o.bucket, p.now);
    Distribute(b.rate, Refilled(o.bucket, p.now).lastRefill - o.bucket.lastRefill, o.bucket.lastRefill - b.lastRefill);
  }

  lemma {:induction false} RefillClockBounded(b: Bucket, packets: seq<Packet>, end: u64)
    requires forall i :: 0 <= i < |packets| ==> packets[i].now <= end
    ensures Run(b, packets).bucket.lastRefill <= Max(b.lastRefill, end)
  {
    if packets != [] {
      RefillClockBounded(b, packets[..|packets| - 1], end);
    }
  }

  /** The ceiling for a run that starts by refilling at the first packet's time. */
  lemma {:induction false} RefillFirst(b: Bucket, packets: seq<Packet>)
    requires packets != []
    ensures var r := Refilled(b, packets[0].now);
      && Run(b, packets).bucket == Run(r, packets).bucket
      && Run(b, packets).passedBytes == Run(r, packets).passedBytes
  {
    var now := packets[0].now;
    if |packets| == 1 {
      RefillOnce(b, now);
    } else {
      RefillFirst(b, packets[..|packets| - 1]);
    }
  }

  /** Refilling twice at one instant credits once. */
  lemma RefillOnce(b: Bucket, now: u64)
    ensures Refilled(Refilled(b, now), now) == Refilled(b, now)
  {
    if Refilled(b, now) != b {
      assert Elapsed(Refilled(b, now), now) == 0;
      assert 0 * b.rate == 0;
    }
  }

  /**
   * Window ceiling: between a packet at `packets[0].now` and time `end`, a
   * bucket that starts within its burst passes fewer than
   * `burst + rate * seconds + 1` bytes.
   */
  lemma WindowCeiling(b: Bucket, packets: seq<Packet>, end: u64)
    requires packets != []
    requires forall i :: 0 <= i < |packets| ==> packets[i].now <= end
    requires b.tokens <= b.burst
    requires b.rate * NS_PER_SECOND < U64_MOD
    ensures NS_PER_SECOND * Run(b, packets).passedBytes
          < NS_PER_SECOND * (b.burst + 1) + b.rate * (end - packets[0].now)
  {
    hide Run, UnderCeiling;
    var start := packets[0].now;
    var r := Refilled(b, start);
    RefillFirst(b, packets);
    RateCeiling(r, packets);
    RefillClockBounded(r, packets, end);
    var last := Run(r, packets).bucket.lastRefill;
    WindowCredit(b, start, last, end);
    WindowSum(r, Run(r, packets), NS_PER_SECOND + b.rate * (end - start));
  }

  lemma WindowSum(r: Bucket, o: Outcome, limit: int)
    requires UnderCeiling(r, o) && r.tokens <= r.burst
    requires r.rate * (o.bucket.lastRefill - r.lastRefill) < limit
    ensures NS_PER_SECOND * o.passedBytes < NS_PER_SECOND * r.burst + limit
  {
  }

  /** What the refill clock can earn up to `end`, counted from the refill at `start`. */
  lemma WindowCredit(b: Bucket, start: u64, last: u64, end: u64)
    requires b.rate * NS_PER_SECOND < U64_MOD
    requires start <= end
    requires Refilled(b, start).lastRefill <= last <= Max(Refilled(b, start).lastRefill, end)
    ensures b.rate * (last - Refilled(b, start).lastRefill) < NS_PER_SECOND + b.rate * (end - start)
  {
    var elapsed := Elapsed(b, start);
    CreditBounds(elapsed, b.rate);
    if Credit(elapsed, b.rate) > 0 || b.lastRefill >= start {
      MulMonotone(b.rate, last - Refilled(b, start).lastRefill, end - start);
    } else if b.rate > 0 {
      // Nothing was credited, so less than one byte is still owed.
      assert elapsed < REFILL_CAP_NS by { MulMonotone(REFILL_CAP_NS, 1, b.rate); }
      MulMonotone(b.rate, last - b.lastRefill, (end - start) + elapsed);
      Distribute(b.rate, end - start, elapsed);
    }
  }

  // ------------------------------------------------------- what a refill leaves

  /** Whole bytes that `rate` earns from `last` to `now`, at most a second of them. */
  function Due(last: nat, now: nat, rate: nat): nat {
    var elapsed := if now <= last then 0 else if now - last >= 1_000_000_000 then 1_000_000_000 else now - last;
    elapsed * rate / 1_000_000_000
  }

  /**
   * With a rate whose product fits, a refill credits exactly what is due and clips
   * at the burst; the clock moves with a credit.
   */
  lemma RefillLeaves(b: Bucket, now: u64)
    requires b.rate * NS_PER_SECOND < U64_MOD
    ensures var due, c := Due(b.lastRefill, now, b.rate), Refilled(b, now);
      && c == b.(tokens := c.tokens, lastRefill := c.lastRefill)
      && c.lastRefill == (if due > 0 then now else b.lastRefill)
      && c.tokens == (if due > 0 then Min(b.tokens + due, b.burst) else b.tokens)
    ensures b.tokens <= b.burst ==> Refilled(b, now).tokens == Min(b.tokens + Due(b.lastRefill, now, b.rate), b.burst)
  {
    MulMonotone(b.rate, Elapsed(b, now), NS_PER_SECOND);
    assert Elapsed(b, now) * b.rate < U64_MOD;
    SmallRemainder(Elapsed(b, now) * b.rate);
  }

  lemma SmallRemainder(x: nat)
    requires x < U64_MOD
    ensures x % U64_MOD == x
  {
  }

  lemma {:induction false} RunWithinBurst(b: Bucket, packets: seq<Packet>)
    requires b.tokens <= b.burst
    ensures Run(b, packets).bucket.tokens <= b.burst
  {
    if packets != [] {
      RunWithinBurst(b, packets[..|packets| - 1]);
      RunKeepsConfiguration(b, packets[..|packets| - 1]);
    }
  }

  /**
   * After any packets, a `limit` packet passes exactly when the tokens held and
   * those due cover it and it is no longer than the burst; what passes is paid
   * for in full and what is dropped costs nothing.
   */
  lemma LimitPassesIff(b: Bucket, packets: seq<Packet>, now: u64, len: u64)
    requires b.rate * NS_PER_SECOND < U64_MOD && b.tokens <= b.burst
    ensures var o, z := Run(b, packets), Run(b, packets + [Packet(Limit, now, len)]);
      var held := Min(o.bucket.tokens + Due(o.bucket.lastRefill, now, b.rate), b.burst);
      && z.passedBytes == o.passedBytes + (if len <= held then len else 0)
      && z.passedPackets == o.passedPackets + (if len <= held then 1 else 0)
      && z.bucket.tokens == (if len <= held then held - len else held)
  {
    hide Due, Refilled;
    var more := packets + [Packet(Limit, now, len)];
    assert more[..|packets|] == packets;
    RunKeepsConfiguration(b, packets);
    RunWithinBurst(b, packets);
    RefillLeaves(Run(b, packets).bucket, now);
  }

  /** A packet no longer than the burst passes once the capped time since the last credit earns the whole burst. */
  lemma FullBurstPasses(b: Bucket, packets: seq<Packet>, now: u64, len: u64)
    requires b.rate * NS_PER_SECOND < U64_MOD && b.tokens <= b.burst && len <= b.burst
    requires now >= Run(b, packets).bucket.lastRefill
    requires Min(now - Run(b, packets).bucket.lastRefill, 1_000_000_000) * b.rate >= 1_000_000_000 * b.burst
    ensures var z := Run(b, packets + [Packet(Limit, now, len)]);
      z.passedBytes == Run(b, packets).passedBytes + len && z.bucket.tokens == b.burst - len
  {
    hide Due, Run;
    LimitPassesIff(b, packets, now, len);
    BurstIsDue(Run(b, packets).bucket.lastRefill, now, b.rate, b.burst);
  }

  lemma BurstIsDue(last: nat, now: nat, rate: nat, burst: nat)
    requires now >= last && Min(now - last, 1_000_000_000) * rate >= 1_000_000_000 * burst
    ensures Due(last, now, rate) >= burst
  {
    assert Min(now - last, 1_000_000_000) * rate / 1_000_000_000 >= burst;
    if now == last {
      assert 0 * rate == 0;
    }
  }

  /** A packet of a `block` rule is dropped and counted whatever the bucket holds. */
  lemma BlockDrops(b: Bucket, packets: seq<Packet>, now: u64, len: u64)
    ensures var o, z := Run(b, packets), Run(b, packets + [Packet(Block, now, len)]);
      && z.passedBytes == o.passedBytes && z.passedPackets == o.passedPackets
      && z.bucket.droppedPackets == Min(o.bucket.droppedPackets + 1, U64_MAX)
      && z.bucket.droppedBytes == Min(o.bucket.droppedBytes + len, U64_MAX)
  {
    var more := packets + [Packet(Block, now, len)];
    assert more[..|packets|] == packets;
  }

  // ------------------------------------------------------- no starvation

  /** With a rate whose product fits, a refill advances exactly when a whole byte is due. */
  lemma RefillAdvancesIff(b: Bucket, now: u64)
    requires b.rate * NS_PER_SECOND < U64_MOD
    ensures Refilled(b, now).lastRefill > b.lastRefill <==> Elapsed(b, now) * b.rate >= NS_PER_SECOND
    ensures Refilled(b, now).lastRefill == b.lastRefill ==> Refilled(b, now) == b
  {
    CreditBounds(Elapsed(b, now), b.rate);
  }

  /** Every accepted limit rate credits a packet that comes 244141 ns after the last credit. */
  lemma ValidRateCredits(b: Bucket, now: u64)
    requires MIN_RATE_BYTES_PER_S <= b.rate <= MAX_RATE_BYTES_PER_S
    requires now >= b.lastRefill + 244_141
    ensures Refilled(b, now).lastRefill == now
    ensures b.tokens < b.burst ==> Refilled(b, now).tokens > b.tokens
    ensures Refilled(b, now).tokens <= b.burst
  {
    var elapsed := Elapsed(b, now);
    CreditBounds(elapsed, b.rate);
    MulMonotone(elapsed, MIN_RATE_BYTES_PER_S, b.rate);
  }

  /** Without the bound the product wraps to zero: this rate never credits after an idle second. */
  lemma WrappedRateStarves(b: Bucket, now: u64)
    requires b.rate == 0x80_0000_0000_0000
    requires now >= b.lastRefill + NS_PER_SECOND
    ensures Refilled(b, now) == b
  {
    assert REFILL_CAP_NS * 0x80_0000_0000_0000 == 1_953_125 * U64_MOD;
  }

  /** The refill at `now`, if it credits, covers at most a second and is not clipped at the burst. */
  ghost predicate FullCredit(b: Bucket, now: u64) {
    var add := Credit(Elapsed(b, now), b.rate);
    add > 0 ==> now - b.lastRefill <= NS_PER_SECOND && b.tokens + add <= b.burst
  }

  ghost predicate Unclipped(b: Bucket, packets: seq<Packet>) {
    packets == [] ||
    (Unclipped(b, packets[..|packets| - 1])
     && FullCredit(Run(b, packets[..|packets| - 1]).bucket, packets[|packets| - 1].now))
  }

  /** At least half of what the rate earned since `b` became tokens or passed bytes. */
  ghost predicate KeepsHalf(b: Bucket, o: Outcome) {
    2 * NS_PER_SECOND * (o.bucket.tokens + o.passedBytes - b.tokens) >= b.rate * (o.bucket.lastRefill - b.lastRefill)
  }

  /** Rounding costs at most half of the configured credit over any such run. */
  lemma {:induction false} RoundingKeepsHalf(b: Bucket, packets: seq<Packet>)
    requires b.rate * NS_PER_SECOND < U64_MOD
    requires Unclipped(b, packets)
    ensures KeepsHalf(b, Run(b, packets))
  {
    if packets != [] {
      var before := Run(b, packets[..|packets| - 1]);
      RoundingKeepsHalf(b, packets[..|packets| - 1]);
      RunKeepsConfiguration(b, packets[..|packets| - 1]);
      StepKeepsHalf(b, before, packets[|packets| - 1]);
    } else {
      assert Run(b, packets) == Outcome(b, 0, 0);
    }
  }

  lemma StepKeepsHalf(b: Bucket, o: Outcome, p: Packet)
    requires o.bucket.rate == b.rate && b.rate * NS_PER_SECOND < U64_MOD
    requires FullCredit(o.bucket, p.now) && KeepsHalf(b, o)
    ensures KeepsHalf(b, Step(o, p))
  {
    var r := Refilled(o.bucket, p.now);
    RefillKeepsHalf(o.bucket, p.now);
    ChainHalves(b.rate, b.lastRefill, o.bucket.lastRefill, r.lastRefill,
                2 * NS_PER_SECOND * (o.bucket.tokens + o.passedBytes - b.tokens),
                2 * NS_PER_SECOND * (r.tokens - o.bucket.tokens));
  }

  lemma RefillKeepsHalf(b: Bucket, now: u64)
    requires b.rate * NS_PER_SECOND < U64_MOD && FullCredit(b, now)
    ensures 2 * NS_PER_SECOND * (Refilled(b, now).tokens - b.tokens)
            >= b.rate * (Refilled(b, now).lastRefill - b.lastRefill)
  {
    CreditBounds(Elapsed(b, now), b.rate);
  }

  lemma ChainHalves(k: int, x: int, y: int, z: int, first: int, second: int)
    requires first >= k * (y - x) && second >= k * (z - y)
    ensures first + second >= k * (z - x)
  {
    Distribute(k, y - x, z - y);
  }

  // ------------------------------------------------- live reconfiguration

  /** What a collector writes for an upsert, given the state it read. */
  function Upserted(existing: Option<Bucket>, rate: u64, burst: u64): Bucket {
    match existing
    case Some(b) => b.(rate := rate, burst := burst)
    case None => DEFAULT_BUCKET.(rate := rate, burst := burst, tokens := burst)
  }

  /**
   * An upsert reads the state and later writes it back with the new rate and
   * burst; packets may arrive in between, a removal may not.
   */
  datatype LifeEvent =
    | Arrive(packet: Packet)
    | Fetch
    | Store(rate: u64, burst: u64)
    | Delete

  /**
   * One rule-direction key over its whole life. `granted` sums the bursts handed
   * to new states, `forfeited` the tokens that removals threw away, `restored`
   * those that writes of stale states put back. `earned` sums rate * elapsed and
   * `charged` elapsed over the crediting refills; `restarts` counts the writes
   * that set the refill clock to zero and `rewound` sums what others took off it.
   */
  datatype Ledger = Ledger(
    state: Option<Bucket>, pending: Option<Option<Bucket>>, passedBytes: nat, granted: nat, forfeited: nat,
    restored: int, earned: nat, charged: nat, restarts: nat, rewound: int)

  function Arrived(l: Ledger, b: Bucket, p: Packet): Ledger {
    var o := Step(Outcome(b, 0, 0), p);
    var elapsed := if Credit(Elapsed(b, p.now), b.rate) > 0 then Elapsed(b, p.now) else 0;
    l.(state := Some(o.bucket), passedBytes := l.passedBytes + o.passedBytes,
       earned := l.earned + elapsed * b.rate, charged := l.charged + elapsed)
  }

  function Written(l: Ledger, existing: Option<Bucket>, rate: u64, burst: u64): Ledger {
    var t := l.(state := Some(Upserted(existing, rate, burst)), pending := None);
    if existing.None? || l.state.None? then
      t.(granted := l.granted + burst, restarts := l.restarts + 1)
    else
      var restart := existing.value.lastRefill == 0 < l.state.value.lastRefill;
      t.(restored := l.restored + existing.value.tokens - l.state.value.tokens,
         restarts := l.restarts + if restart then 1 else 0,
         rewound := l.rewound + if restart then 0 else l.state.value.lastRefill - existing.value.lastRefill)
  }

  function Advance(l: Ledger, e: LifeEvent): Ledger {
    match e
    case Arrive(p) => if l.state.None? then l else Arrived(l, l.state.value, p)
    case Fetch => if l.pending.Some? then l else l.(pending := Some(l.state))
    case Store(rate, burst) => if l.pending.None? then l else Written(l, l.pending.value, rate, burst)
    case Delete =>
      if l.pending.Some? then l else l.(state := None, forfeited := l.forfeited + TokensOf(l.state))
  }

  const NEW_LEDGER := Ledger(None, None, 0, 0, 0, 0, 0, 0, 0, 0)

  function Life(events: seq<LifeEvent>): Ledger {
    if events == [] then NEW_LEDGER else Advance(Life(events[..|events| - 1]), events[|events| - 1])
  }

  function TokensOf(s: Option<Bucket>): nat {
    if s.Some? then s.value.tokens else 0
  }

  /** A pending read saw a state exactly when one is live, and its clock was not later. */
  ghost predicate ReadFits(l: Ledger) {
    && (l.pending.Some? ==> (l.pending.value.Some? <==> l.state.Some?))
    && (l.pending.Some? && l.state.Some? ==> l.pending.value.value.lastRefill <= l.state.value.lastRefill)
  }

  lemma ArrivedCharges(l: Ledger, b: Bucket, p: Packet)
    ensures var t := Arrived(l, b, p); var c := t.state.value;
      && l.charged <= t.charged <= l.charged + REFILL_CAP_NS
      && (t.charged > l.charged ==>
        c.lastRefill == p.now > b.lastRefill && t.charged - l.charged <= p.now - b.lastRefill)
      && (t.charged == l.charged ==> c.lastRefill == b.lastRefill)
      && t.earned == l.earned + b.rate * (t.charged - l.charged)
      && c.rate == b.rate
  {
    if Elapsed(b, p.now) == 0 {
      assert 0 * b.rate == 0;
    }
  }

  lemma {:induction false} ReadsFit(events: seq<LifeEvent>)
    ensures ReadFits(Life(events))
  {
    hide Step, Credit, Elapsed;
    if events != [] {
      var l, e := Life(events[..|events| - 1]), events[|events| - 1];
      ReadsFit(events[..|events| - 1]);
      if e.Arrive? && l.state.Some? {
        ArrivedCharges(l, l.state.value, e.packet);
      }
    }
  }

  /** The ceiling over arbitrary reconfiguration: rates, bursts, removals, re-creation and stale writes. */
  lemma {:induction false} LifeCeiling(events: seq<LifeEvent>)
    ensures var l := Life(events);
      NS_PER_SECOND * (l.passedBytes + l.forfeited + TokensOf(l.state))
        <= NS_PER_SECOND * (l.granted + l.restored) + l.earned
  {
    if events != [] {
      var l, e := Life(events[..|events| - 1]), events[|events| - 1];
      LifeCeiling(events[..|events| - 1]);
      ReadsFit(events[..|events| - 1]);
      if e.Arrive? && l.state.Some? {
        CreditBounds(Elapsed(l.state.value, e.packet.now), l.state.value.rate);
      }
    }
  }

  /** Rates stay below `rate`, and packets come between `start` and `end`. */
  ghost predicate Paced(events: seq<LifeEvent>, rate: u64, start: u64, end: u64) {
    forall e :: e in events ==>
      && (e.Store? ==> e.rate <= rate)
      && (e.Arrive? ==> start <= e.packet.now <= end)
  }

  ghost predicate InOrder(events: seq<LifeEvent>) {
    forall i, j :: 0 <= i < j < |events| && events[i].Arrive? && events[j].Arrive?
      ==> events[i].packet.now <= events[j].packet.now
  }

  /** Time charged when packets come in order: all of it on one clock, but for the capped first refills. */
  ghost predicate ChargedInOrder(l: Ledger, start: int, end: int) {
    var limit := l.restarts * REFILL_CAP_NS + l.rewound;
    if l.state.None? then l.charged <= limit + end - start
    else if l.state.value.lastRefill == 0 then l.charged + REFILL_CAP_NS <= limit + end - start
    else start <= l.state.value.lastRefill <= end && l.charged <= limit + l.state.value.lastRefill - start
  }

  /** A pending read's clock is zero or within the times of the packets. */
  ghost predicate ReadSince(l: Ledger, start: int) {
    l.pending.Some? && l.pending.value.Some? ==>
      l.pending.value.value.lastRefill == 0 || start <= l.pending.value.value.lastRefill
  }

  lemma AdvanceInOrder(l: Ledger, e: LifeEvent, start: u64, end: u64, now: u64)
    requires ReadFits(l) && ReadSince(l, start) && ChargedInOrder(l, start, end) && start <= end <= now
    requires e.Arrive? ==> e.packet.now == now
    ensures ChargedInOrder(Advance(l, e), start, now) && ReadSince(Advance(l, e), start)
  {
    hide Arrived;
    if e.Arrive? && l.state.Some? {
      ArrivedCharges(l, l.state.value, e.packet);
      ArrivedElsewhere(l, l.state.value, e.packet);
    }
  }

  lemma ArrivedElsewhere(l: Ledger, b: Bucket, p: Packet)
    ensures var t := Arrived(l, b, p);
      t.state.Some? && t.pending == l.pending && t.restarts == l.restarts && t.rewound == l.rewound
  {
  }

  lemma {:induction false} InOrderCharges(events: seq<LifeEvent>, rate: u64, start: u64, end: u64)
    requires Paced(events, rate, start, end) && InOrder(events) && start <= end
    ensures ChargedInOrder(Life(events), start, end) && ReadSince(Life(events), start)
  {
    hide Advance, ChargedInOrder, ReadSince;
    if events == [] {
      NothingCharged(start, end);
    } else {
      var less, e := events[..|events| - 1], events[|events| - 1];
      assert e in events;
      var last := if e.Arrive? then e.packet.now else end;
      forall x | x in less && x.Arrive?
        ensures x.packet.now <= last
      {
        var i :| 0 <= i < |less| && less[i] == x;
        assert events[i] == x;
      }
      assert forall x :: x in less ==> x in events;
      InOrderCharges(less, rate, start, last);
      ReadsFit(less);
      AdvanceInOrder(Life(less), e, start, last, last);
      ChargedLater(Life(events), start, last, end);
    }
  }

  lemma NothingCharged(start: u64, end: u64)
    requires start <= end
    ensures ChargedInOrder(NEW_LEDGER, start, end) && ReadSince(NEW_LEDGER, start)
  {
  }

  lemma ChargedLater(l: Ledger, start: u64, end: u64, later: u64)
    requires ChargedInOrder(l, start, end) && end <= later
    ensures ChargedInOrder(l, start, later)
  {
  }

  lemma MulBoth(k: nat, x: int, y: int, z: nat)
    requires x <= k * y && z <= k
    ensures forall d: nat :: x + z * d <= k * (y + d)
  {
    forall d: nat
      ensures x + z * d <= k * (y + d)
    {
      Distribute(k, y, d);
      MulMonotone(d, z, k);
    }
  }

  /** Every rate of the key's life is at most `rate`. */
  ghost predicate RatesWithin(l: Ledger, rate: nat) {
    && (l.state.Some? ==> l.state.value.rate <= rate)
    && (l.pending.Some? && l.pending.value.Some? ==> l.pending.value.value.rate <= rate)
  }

  lemma {:induction false} EarnsByRate(events: seq<LifeEvent>, rate: u64, start: u64, end: u64)
    requires Paced(events, rate, start, end)
    ensures Life(events).earned <= rate * Life(events).charged && RatesWithin(Life(events), rate)
  {
    hide Arrived;
    if events != [] {
      var less, e := events[..|events| - 1], events[|events| - 1];
      assert e in events && forall x :: x in less ==> x in events;
      EarnsByRate(less, rate, start, end);
      var l := Life(less);
      if e.Arrive? && l.state.Some? {
        ArrivedCharges(l, l.state.value, e.packet);
        ArrivedElsewhere(l, l.state.value, e.packet);
        MulBoth(rate, l.earned, l.charged, l.state.value.rate);
      }
    }
  }

  /**
   * The rate over a key's whole life: with rates up to `rate` and packets that
   * come in order between `start` and `end`, the bytes passed are covered by the
   * bursts granted, `rate` over the elapsed time, one capped second of `rate` per
   * restart of the refill clock, and what stale writes put back.
   */
  lemma LifeRate(events: seq<LifeEvent>, rate: u64, start: u64, end: u64)
    requires Paced(events, rate, start, end) && InOrder(events) && start <= end
    ensures var l := Life(events);
      NS_PER_SECOND * (l.passedBytes + l.forfeited + TokensOf(l.state))
        <= NS_PER_SECOND * (l.granted + l.restored) + rate * (end - start + NS_PER_SECOND * l.restarts + l.rewound)
  {
    var l := Life(events);
    LifeCeiling(events);
    EarnsByRate(events, rate, start, end);
    InOrderCharges(events, rate, start, end);
    MulMonotone(rate, l.charged, end - start + NS_PER_SECOND * l.restarts + l.rewound);
  }

  /** No packet arrives between the read and the write of an upsert. */
  ghost predicate Undisturbed(events: seq<LifeEvent>) {
    forall n :: 0 <= n < |events| && events[n].Arrive? ==> Life(events[..n]).pending.None?
  }

  /** Without a packet between a read and its write, no write puts anything back. */
  lemma {:induction false} UndisturbedRestoresNothing(events: seq<LifeEvent>)
    requires Undisturbed(events)
    ensures var l := Life(events);
      l.restored == 0 && l.rewound == 0 && (l.pending.Some? ==> l.pending.value == l.state)
  {
    hide Arrived;
    if events != [] {
      var less, e := events[..|events| - 1], events[|events| - 1];
      assert forall n :: 0 <= n < |less| ==> less[..n] == events[..n];
      UndisturbedRestoresNothing(less);
      if e.Arrive? && Life(less).state.Some? {
        ArrivedElsewhere(Life(less), Life(less).state.value, e.packet);
        ArrivedRestores(Life(less), Life(less).state.value, e.packet);
      }
    }
  }

  lemma ArrivedRestores(l: Ledger, b: Bucket, p: Packet)
    ensures Arrived(l, b, p).restored == l.restored
  {
  }

  /**
   * After any life of a key, an upsert decides the next packet by its own rate
   * and burst, the tokens and the clock that were there, and by a full burst and
   * a clock at zero for a new state.
   */
  lemma UpsertTakesEffect(events: seq<LifeEvent>, rate: u64, burst: u64, now: u64, len: u64)
    requires Life(events).pending.None? && rate * NS_PER_SECOND < U64_MOD
    ensures var l, z := Life(events), Life(events + [Fetch, Store(rate, burst), Arrive(Packet(Limit, now, len))]);
      var tokens := if l.state.None? then burst else l.state.value.tokens;
      var due := Due(if l.state.None? then 0 else l.state.value.lastRefill, now, rate);
      var held := if due > 0 then Min(tokens + due, burst) else tokens;
      && z.passedBytes == l.passedBytes + (if len <= held then len else 0)
      && z.state.Some? && z.state.value.rate == rate && z.state.value.burst == burst
      && z.state.value.tokens == (if len <= held then held - len else held)
  {
    hide Credit, Elapsed, Due;
    var first, second := events + [Fetch], events + [Fetch, Store(rate, burst)];
    var third := events + [Fetch, Store(rate, burst), Arrive(Packet(Limit, now, len))];
    assert first[..|events|] == events && second[..|first|] == first && third[..|second|] == second;
    var b := Upserted(Life(events).state, rate, burst);
    assert Life(second).state == Some(b) && Life(second).passedBytes == Life(events).passedBytes;
    RefillLeaves(b, now);
  }

  /** A full burst spent between a read and its write is there again after it: two bursts from one grant. */
  lemma StaleWriteRefunds(rate: u64, burst: u64)
    ensures var l := Life([Fetch, Store(rate, burst), Fetch, Arrive(Packet(Limit, 0, burst)), Store(rate, burst)]);
      l.granted == burst && l.earned == 0 && l.passedBytes == burst && TokensOf(l.state) == burst && l.restored == burst
  {
    var upsert := [Fetch, Store(rate, burst)];
    var spend := upsert + [Fetch, Arrive(Packet(Limit, 0, burst))];
    var events := spend + [Store(rate, burst)];
    assert events == [Fetch, Store(rate, burst), Fetch, Arrive(Packet(Limit, 0, burst)), Store(rate, burst)];
    assert upsert[..1] == [Fetch] && [Fetch][..0] == [];
    assert spend[..3] == upsert + [Fetch] && spend[..3][..2] == upsert && events[..4] == spend;
    assert Life(upsert).state == Some(Upserted(None, rate, burst));
    assert 0 * rate == 0;
    var b := Upserted(None, rate, burst);
    assert Elapsed(b, 0) == 0 && Credit(0, rate) == 0;
    assert Life(spend) == Arrived(Life(spend[..3]), b, Packet(Limit, 0, burst));
  }

  ghost predicate WithinBurst(s: Option<Bucket>) {
    s.Some? ==> s.value.tokens <= s.value.burst
  }

  /** An event breaks `tokens <= burst` exactly when it writes a burst below the tokens that were read. */
  lemma BurstBoundKeptIff(l: Ledger, e: LifeEvent)
    requires WithinBurst(l.state)
    ensures WithinBurst(Advance(l, e).state)
       <==> !(e.Store? && l.pending.Some? && l.pending.value.Some? && e.burst < l.pending.value.value.tokens)
  {
  }

  /** After such an upsert the bound returns with the next refill that credits anything. */
  lemma CreditingRefillRestoresBurst(b: Bucket, now: u64)
    ensures Refilled(b, now).tokens <= b.burst <==> Credit(Elapsed(b, now), b.rate) > 0 || b.tokens <= b.burst
  {
  }

  lemma RunCountsMatches(b: Bucket, packets: seq<Packet>)
    requires b.matchedPackets + |packets| <= U64_MAX
    ensures Run(b, packets).bucket.matchedPackets == b.matchedPackets + |packets|
  {
  }

  /**
   * The collector reads a state and writes it back in two steps. Packets that
   * arrive in between are undone: the written state equals an atomic upsert
   * exactly when no packet reached the key meanwhile.
   */
  lemma SplitUpsertIsAtomicIff(b: Bucket, packets: seq<Packet>, rate: u64, burst: u64)
    requires b.matchedPackets + |packets| <= U64_MAX
    ensures Upserted(Some(b), rate, burst) == Upserted(Some(Run(b, packets).bucket), rate, burst) <==> packets == []
  {
    RunCountsMatches(b, packets);
  }
}
