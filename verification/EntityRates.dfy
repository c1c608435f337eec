/**
 * Live rates per entity, and the table that mirrors them: only rows whose rate
 * moved are rewritten, so the table equals the live rates only as long as the
 * in-memory mirror equals the table.
 */
module EntityRates {
  import opened Common

  const RATE_WINDOW_TICKS := 1
  const ENTITY_RATE_CHUNK := 64

  // ------------------------------------------------------------------ windows

  datatype Sample = Sample(bytes: u64, seconds: real)
  datatype Window = Window(samples: seq<Sample>, bytes: u64, seconds: real)
  datatype Rates = Rates(inbound: Window, outbound: Window)

  const NO_WINDOW := Window([], 0, 0.0)

  function SampleBytes(ss: seq<Sample>): int {
    if ss == [] then 0 else SampleBytes(ss[..|ss| - 1]) + ss[|ss| - 1].bytes
  }

  function SampleSeconds(ss: seq<Sample>): real {
    if ss == [] then 0.0 else SampleSeconds(ss[..|ss| - 1]) + ss[|ss| - 1].seconds
  }

  /** The totals of a window are those of its retained samples. */
  ghost predicate SumsUp(w: Window) {
    |w.samples| <= RATE_WINDOW_TICKS && w.bytes == SampleBytes(w.samples) && w.seconds == SampleSeconds(w.samples)
  }

  function Pushed(w: Window, bytes: u64, seconds: real): Window {
    Dropped(Window(w.samples + [Sample(bytes, seconds)], SaturatingAdd(w.bytes, bytes), w.seconds + seconds))
  }

  /** Samples beyond the window leave from the front. */
  function Dropped(w: Window): Window
    decreases |w.samples|
  {
    if |w.samples| <= RATE_WINDOW_TICKS then w
    else Dropped(Window(w.samples[1..], SaturatingSub(w.bytes, w.samples[0].bytes), w.seconds - w.samples[0].seconds))
  }

  function Added(w: Window, bytes: u64): Window {
    var n := |w.samples|;
    var samples := if n == 0 then w.samples
      else w.samples[n - 1 := Sample(SaturatingAdd(w.samples[n - 1].bytes, bytes), w.samples[n - 1].seconds)];
    Window(samples, SaturatingAdd(w.bytes, bytes), w.seconds)
  }

  /** The rate of a window: a float truncated to `u64`, stored `as i64`. */
  function Bps(w: Window): int {
    if w.seconds > 0.0 then AsI64(Min((w.bytes as real * 8.0 / w.seconds).Floor, U64_MAX)) else 0
  }

  class RateWindow {
    var samples: seq<Sample>
    var bytes: u64
    var seconds: real

    constructor ()
      ensures Value() == NO_WINDOW
    {
      samples, bytes, seconds := [], 0, 0.0;
    }

    function Value(): Window
      reads this
    {
      Window(samples, bytes, seconds)
    }

    method Push(n: u64, interval: real)
      modifies this
      ensures Value() == Pushed(old(Value()), n, interval)
    {
      samples := samples + [Sample(n, interval)];
      bytes := SaturatingAdd(bytes, n);
      seconds := seconds + interval;
      while |samples| > RATE_WINDOW_TICKS
        invariant Dropped(Value()) == Pushed(old(Value()), n, interval)
        decreases |samples|
      {
        var oldest := samples[0];
        samples := samples[1..];
        bytes := SaturatingSub(bytes, oldest.bytes);
        seconds := seconds - oldest.seconds;
      }
    }

    method AddBytes(n: u64)
      modifies this
      ensures Value() == Added(old(Value()), n)
    {
      if samples != [] {
        var last := samples[|samples| - 1];
        samples := samples[|samples| - 1 := Sample(SaturatingAdd(last.bytes, n), last.seconds)];
      }
      bytes := SaturatingAdd(bytes, n);
    }
  }

  /** With a window of one sample, even a saturated total is the total of its samples. */
  lemma AddedSumsUp(w: Window, bytes: u64)
    requires SumsUp(w) && w.samples != []
    ensures SumsUp(Added(w, bytes)) && Added(w, bytes).samples != []
  {
    var z := Added(w, bytes);
    assert w.samples[..0] == [] && z.samples[..0] == [];
  }

  lemma OneSample(ss: seq<Sample>)
    requires |ss| == 1
    ensures SampleBytes(ss) == ss[0].bytes && SampleSeconds(ss) == ss[0].seconds
  {
    assert ss[..0] == [];
  }

  /** Starting the next interval leaves one empty sample: nothing of the interval before stays. */
  lemma RolledIsEmpty(w: Window, seconds: real)
    requires SumsUp(w)
    ensures Pushed(w, 0, seconds) == Window([Sample(0, seconds)], 0, seconds) && SumsUp(Pushed(w, 0, seconds))
  {
    var more := w.samples + [Sample(0, seconds)];
    if w.samples != [] {
      var x := w.samples[0];
      OneSample(w.samples);
      assert more[0] == x && more[1..] == [Sample(0, seconds)];
      assert Pushed(w, 0, seconds) == Dropped(Window([Sample(0, seconds)], 0, seconds));
    }
    assert [Sample(0, seconds)][..0] == [];
  }

  function Rolled(r: Rates, seconds: real): Rates {
    Rates(Pushed(r.inbound, 0, seconds), Pushed(r.outbound, 0, seconds))
  }

  function Started(seconds: real): Rates {
    Rolled(Rates(NO_WINDOW, NO_WINDOW), seconds)
  }

  function AddedTo(r: Rates, d: Direction, bytes: u64): Rates {
    if d == Inbound then r.(inbound := Added(r.inbound, bytes)) else r.(outbound := Added(r.outbound, bytes))
  }

  predicate IsActive(r: Rates) {
    r.inbound.bytes > 0 || r.outbound.bytes > 0
  }

  ghost predicate Sound(r: Rates) {
    SumsUp(r.inbound) && SumsUp(r.outbound) && r.inbound.samples != [] && r.outbound.samples != []
  }

  // -------------------------------------------------------------------- store

  datatype Kind = Flow | Connection | Endpoint | Domain | Application
  datatype Entity = Entity(kind: Kind, key: string)
  datatype Rate = Rate(inbound: int, outbound: int)
  type LiveMap = map<Entity, Rates>
  type RateTable = map<Entity, Rate>

  datatype Store = Store(live: LiveMap, mirror: RateTable, table: RateTable)

  function LiveRates(live: LiveMap): RateTable {
    map e | e in live :: Rate(Bps(live[e].inbound), Bps(live[e].outbound))
  }

  /** Rows whose rate differs from the mirror's. */
  function Changed(next: RateTable, mirror: RateTable): set<Entity> {
    set e | e in next && !(e in mirror && mirror[e] == next[e])
  }

  /** The table after the rows that moved against the mirror are written and the rows that left it are deleted. */
  function Patched(table: RateTable, mirror: RateTable, next: RateTable): RateTable {
    (table + (map e | e in Changed(next, mirror) :: next[e])) - (mirror.Keys - next.Keys)
  }

  /** Roll every window and forget entities without traffic. */
  function RolledAll(live: LiveMap, seconds: real): LiveMap {
    map e | e in live && IsActive(Rolled(live[e], seconds)) :: Rolled(live[e], seconds)
  }

  function Booked(live: LiveMap, e: Entity, d: Direction, bytes: u64, seconds: real): LiveMap {
    live[e := AddedTo(if e in live then live[e] else Started(seconds), d, bytes)]
  }

  function Chunks<T>(xs: seq<T>, n: nat): seq<seq<T>>
    requires n > 0
    decreases |xs|
  {
    if xs == [] then [] else if |xs| <= n then [xs] else [xs[..n]] + Chunks(xs[n..], n)
  }

  function Concat<T>(xss: seq<seq<T>>): seq<T> {
    if xss == [] then [] else xss[0] + Concat(xss[1..])
  }

  /** The chunks are the list cut in order, each non-empty and none too long. */
  lemma {:induction false} ChunksCover<T>(xs: seq<T>, n: nat)
    requires n > 0
    ensures Concat(Chunks(xs, n)) == xs
    ensures forall c :: c in Chunks(xs, n) ==> 1 <= |c| <= n
    decreases |xs|
  {
    if xs != [] && |xs| <= n {
      assert [xs][1..] == [];
    } else if xs != [] {
      ChunksCover(xs[n..], n);
      var rest := Chunks(xs[n..], n);
      assert ([xs[..n]] + rest)[1..] == rest;
      assert xs == xs[..n] + xs[n..];
    }
  }

  function Written(table: RateTable, keys: seq<Entity>, next: RateTable): RateTable
    requires forall e :: e in keys ==> e in next
  {
    if keys == [] then table
    else
      assert forall e :: e in keys[..|keys| - 1] ==> e in keys;
      Written(table, keys[..|keys| - 1], next)[keys[|keys| - 1] := next[keys[|keys| - 1]]]
  }

  lemma {:induction false} WrittenIs(table: RateTable, keys: seq<Entity>, next: RateTable)
    requires forall e :: e in keys ==> e in next
    ensures Written(table, keys, next) == table + (map e | e in keys :: next[e])
  {
    if keys != [] {
      var less, k := keys[..|keys| - 1], keys[|keys| - 1];
      assert forall e :: e in less ==> e in keys;
      WrittenIs(table, less, next);
      assert keys == less + [k];
    }
  }

  lemma {:induction false} WrittenTwice(table: RateTable, a: seq<Entity>, b: seq<Entity>, next: RateTable)
    requires (forall e :: e in a ==> e in next) && (forall e :: e in b ==> e in next)
    ensures Written(Written(table, a, next), b, next) == Written(table, a + b, next)
    decreases |b|
  {
    if b == [] {
      assert a + b == a;
    } else {
      var less := b[..|b| - 1];
      assert forall e :: e in less ==> e in b;
      WrittenTwice(table, a, less, next);
      assert (a + b)[..|a + b| - 1] == a + less;
    }
  }

  lemma NothingWritten(table: RateTable, next: RateTable)
    ensures Written(table, [], next) == table
  {
  }

  lemma ConcatNext(chunks: seq<seq<Entity>>, i: nat, done: seq<Entity>)
    requires i < |chunks|
    ensures done + Concat(chunks[i..]) == done + chunks[i] + Concat(chunks[i + 1..])
  {
    assert chunks[i..][0] == chunks[i] && chunks[i..][1..] == chunks[i + 1..];
  }

  lemma NothingLeft(chunks: seq<seq<Entity>>, done: seq<Entity>)
    ensures done + Concat(chunks[|chunks|..]) == done
  {
  }

  lemma ChunkInList(all: seq<Entity>, a: seq<Entity>, chunk: seq<Entity>, b: seq<Entity>)
    requires all == a + chunk + b
    ensures forall e :: e in chunk ==> e in all
  {
  }

  class RateStore {
    var live: LiveMap
    var mirror: RateTable
    var table: RateTable

    /** Opening a database copies its table into the mirror. */
    constructor (persisted: RateTable)
      ensures Value() == Store(map[], persisted, persisted)
    {
      live, mirror, table := map[], persisted, persisted;
    }

    function Value(): Store
      reads this
    {
      Store(live, mirror, table)
    }

    method RollEntityRates(seconds: real)
      modifies this`live
      ensures live == RolledAll(old(live), seconds)
    {
      live := map e | e in live :: Rolled(live[e], seconds);
      live := map e | e in live && IsActive(live[e]) :: live[e];
    }

    method Book(e: Entity, d: Direction, bytes: u64, seconds: real)
      modifies this`live
      ensures live == Booked(old(live), e, d, bytes, seconds)
    {
      if e !in live {
        live := live[e := Started(seconds)];
      }
      live := live[e := AddedTo(live[e], d, bytes)];
    }

    /** Each entity of a set once, in some order. */
    method InSomeOrder(entities: set<Entity>) returns (order: seq<Entity>)
      ensures forall e :: e in order <==> e in entities
      ensures forall i, j :: 0 <= i < j < |order| ==> order[i] != order[j]
    {
      order := [];
      var pending := entities;
      while pending != {}
        invariant pending <= entities && forall e :: e in order <==> e in entities - pending
        invariant forall i, j :: 0 <= i < j < |order| ==> order[i] != order[j]
        decreases |pending|
      {
        var e :| e in pending;
        order := order + [e];
        pending := pending - {e};
      }
    }

    /** One statement writes the rows of one chunk. */
    method UpsertChunk(before: RateTable, chunk: seq<Entity>, next: RateTable) returns (transaction: RateTable)
      requires forall e :: e in chunk ==> e in next
      ensures transaction == Written(before, chunk, next)
    {
      transaction := before;
      for j := 0 to |chunk|
        invariant forall e :: e in chunk[..j] ==> e in next
        invariant transaction == Written(before, chunk[..j], next)
      {
        assert chunk[..j + 1][..j] == chunk[..j] && chunk[j] in chunk;
        transaction := transaction[chunk[j] := next[chunk[j]]];
      }
      assert chunk[..|chunk|] == chunk;
    }

    /** Statement by statement; stops at the first that fails. */
    method UpsertAll(before: RateTable, upserts: seq<Entity>, next: RateTable, succeeding: nat)
        returns (transaction: RateTable, statements: nat, ok: bool)
      requires forall e :: e in upserts ==> e in next
      ensures ok ==> transaction == Written(before, upserts, next) && statements == |Chunks(upserts, ENTITY_RATE_CHUNK)|
      ensures ok <==> |Chunks(upserts, ENTITY_RATE_CHUNK)| <= succeeding
    {
      hide Chunks, Concat, Written;
      var chunks := Chunks(upserts, ENTITY_RATE_CHUNK);
      ChunksCover(upserts, ENTITY_RATE_CHUNK);
      assert chunks[0..] == chunks;
      transaction, statements, ok := before, 0, true;
      ghost var done: seq<Entity> := [];
      NothingWritten(before, next);
      for i := 0 to |chunks|
        invariant done + Concat(chunks[i..]) == upserts && statements == i && i <= succeeding
        invariant forall e :: e in done ==> e in next
        invariant transaction == Written(before, done, next)
      {
        if statements >= succeeding {
          ok := false;
          return;
        }
        ConcatNext(chunks, i, done);
        ChunkInList(upserts, done, chunks[i], Concat(chunks[i + 1..]));
        WrittenTwice(before, done, chunks[i], next);
        transaction := UpsertChunk(transaction, chunks[i], next);
        done := done + chunks[i];
        statements := statements + 1;
      }
      NothingLeft(chunks, done);
    }

    method DeleteAll(before: RateTable, gone: seq<Entity>, succeeding: nat, spent: nat)
        returns (transaction: RateTable, ok: bool)
      requires spent <= succeeding
      ensures ok ==> transaction == before - (set e | e in gone)
      ensures ok <==> spent + |gone| <= succeeding
    {
      transaction, ok := before, true;
      for i := 0 to |gone|
        invariant transaction == before - (set e | e in gone[..i]) && spent + i <= succeeding
      {
        if spent + i >= succeeding {
          ok := false;
          return;
        }
        assert gone[..i + 1] == gone[..i] + [gone[i]];
        transaction := transaction - {gone[i]};
      }
      assert gone[..|gone|] == gone;
    }

    /**
     * Writes the rows that moved in chunks, deletes the rows that left, and then
     * commits. `succeeding` statements succeed and the next one fails; a failure
     * rolls the table back and leaves the mirror.
     */
    method StoreEntityRates(succeeding: nat) returns (ok: bool)
      modifies this`table, this`mirror
      ensures ok ==> table == Patched(old(table), old(mirror), LiveRates(live)) && mirror == LiveRates(live)
      ensures !ok ==> table == old(table) && mirror == old(mirror)
      ensures LiveRates(live) == old(mirror) ==> ok
    {
      hide LiveRates, Chunks, Written;
      var next := LiveRates(live);
      if next == mirror {
        NothingMoved(table, mirror);
        return true;
      }
      var upserts := InSomeOrder(Changed(next, mirror));
      var transaction, statements, written := UpsertAll(table, upserts, next, succeeding);
      if !written {
        return false;
      }
      WrittenIs(table, upserts, next);
      var gone := InSomeOrder(mirror.Keys - next.Keys);
      var deleted;
      transaction, deleted := DeleteAll(transaction, gone, succeeding, statements);
      if !deleted || statements + |gone| >= succeeding {
        return false;
      }
      assert (set e | e in gone) == mirror.Keys - next.Keys;
      assert (map e | e in upserts :: next[e]) == (map e | e in Changed(next, mirror) :: next[e]);
      table := transaction;
      mirror := next;
      ok := true;
    }

    /**
     * A batch of statements of which `done` complete before one fails; the
     * windows and the mirror are emptied however many do.
     */
    method ClearHistory(done: nat)
      modifies this
      ensures Value() == Cleared(old(Value()), done)
    {
      if done >= RATES_STATEMENT {
        table := map[];
      }
      live := map[];
      mirror := map[];
    }
  }

  lemma NothingMoved(table: RateTable, mirror: RateTable)
    ensures Patched(table, mirror, mirror) == table
  {
  }

  /** Of the statements of a clear, the fifth empties the rate table. */
  const RATES_STATEMENT := 5

  function Cleared(s: Store, done: nat): Store {
    Store(map[], map[], if done >= RATES_STATEMENT then map[] else s.table)
  }

  // ------------------------------------------------------------------ theorems

  /**
   * Writing the difference equals rewriting everything exactly when the mirror is
   * right about the rows the difference leaves alone.
   */
  lemma PatchIsRewriteIff(table: RateTable, mirror: RateTable, next: RateTable)
    ensures Patched(table, mirror, next) == next <==>
      && (forall e :: e in next && e in mirror && mirror[e] == next[e] ==> e in table && table[e] == next[e])
      && (forall e :: e in table && e !in mirror ==> e in next)
  {
    var p := Patched(table, mirror, next);
    forall e: Entity
      ensures e in p <==> (e in table && e !in mirror.Keys - next.Keys) || e in Changed(next, mirror)
      ensures e in p ==> p[e] == if e in Changed(next, mirror) then next[e] else table[e]
    {
    }
    if p == next {
      forall e | e in next && e in mirror && mirror[e] == next[e]
        ensures e in table && table[e] == next[e]
      {
        assert e in p;
      }
      forall e | e in table && e !in mirror
        ensures e in next
      {
        assert e in p;
      }
    }
  }

  /** With a true mirror a successful write leaves table, mirror and live rates the same map. */
  lemma TrueMirrorRewrites(table: RateTable, next: RateTable)
    ensures Patched(table, table, next) == next
  {
    PatchIsRewriteIff(table, table, next);
  }

  /** Clearing keeps the mirror true exactly when it got as far as the rate table, or that was empty. */
  lemma ClearKeepsMirrorIff(s: Store, done: nat)
    ensures Cleared(s, done).mirror == Cleared(s, done).table <==> done >= RATES_STATEMENT || s.table == map[]
  {
  }

  /** After a failed clear, rows of entities that stay idle outlive every later write. */
  lemma {:induction false} StaleRowsPersist(s: Store, done: nat, nexts: seq<RateTable>, e: Entity)
    requires done < RATES_STATEMENT && e in s.table && forall n :: n in nexts ==> e !in n
    ensures var z := WriteAll(Cleared(s, done).table, Cleared(s, done).mirror, nexts);
      e in z.0 && e !in z.1
  {
    if nexts != [] {
      var less := nexts[..|nexts| - 1];
      assert nexts == less + [nexts[|nexts| - 1]];
      StaleRowsPersist(s, done, less, e);
    }
  }

  /** Table and mirror after successive successful writes. */
  function WriteAll(table: RateTable, mirror: RateTable, nexts: seq<RateTable>): (RateTable, RateTable) {
    if nexts == [] then (table, mirror)
    else
      var (t, m) := WriteAll(table, mirror, nexts[..|nexts| - 1]);
      (Patched(t, m, nexts[|nexts| - 1]), nexts[|nexts| - 1])
  }

  /** Rolling forgets every entity: rates describe the present interval only. */
  lemma RollForgetsAll(live: LiveMap, seconds: real)
    requires forall e :: e in live ==> Sound(live[e])
    ensures RolledAll(live, seconds) == map[]
  {
    forall e | e in live
      ensures !IsActive(Rolled(live[e], seconds))
    {
      RolledIsEmpty(live[e].inbound, seconds);
      RolledIsEmpty(live[e].outbound, seconds);
    }
  }

  // ------------------------------------------------------------ what a rate is

  datatype Booking = Booking(entity: Entity, direction: Direction, bytes: u64)

  /** Traffic of one interval booked after the roll. */
  function BookAll(live: LiveMap, bookings: seq<Booking>, seconds: real): LiveMap {
    if bookings == [] then live
    else
      var b := bookings[|bookings| - 1];
      Booked(BookAll(live, bookings[..|bookings| - 1], seconds), b.entity, b.direction, b.bytes, seconds)
  }

  /** Bytes booked for an entity in one direction. */
  function Moved(bookings: seq<Booking>, e: Entity, d: Direction): nat {
    if bookings == [] then 0
    else
      var b := bookings[|bookings| - 1];
      Moved(bookings[..|bookings| - 1], e, d) + if b.entity == e && b.direction == d then b.bytes else 0
  }

  /** A window of one interval that carried `bytes`. */
  function Carried(bytes: nat, seconds: real): Window {
    Window([Sample(Min(bytes, U64_MAX), seconds)], Min(bytes, U64_MAX), seconds)
  }

  lemma CarriedMore(bytes: nat, more: u64, seconds: real)
    ensures Added(Carried(bytes, seconds), more) == Carried(bytes + more, seconds)
  {
  }

  lemma StartedCarries(seconds: real)
    ensures Started(seconds) == Rates(Carried(0, seconds), Carried(0, seconds))
  {
    assert SumsUp(NO_WINDOW) by { NothingSumsUp(); }
    RolledIsEmpty(NO_WINDOW, seconds);
  }

  lemma {:induction false} BookingsCarry(bookings: seq<Booking>, seconds: real)
    ensures var z := BookAll(map[], bookings, seconds);
      && (forall e :: e in z <==> exists b :: b in bookings && b.entity == e)
      && forall e :: e in z ==>
           z[e] == Rates(Carried(Moved(bookings, e, Inbound), seconds), Carried(Moved(bookings, e, Outbound), seconds))
  {
    hide Carried, Added, Started;
    if bookings != [] {
      var less, b := bookings[..|bookings| - 1], bookings[|bookings| - 1];
      assert bookings == less + [b];
      BookingsCarry(less, seconds);
      StartedCarries(seconds);
      NothingBookedFor(less, b.entity);
      CarriedMore(Moved(less, b.entity, b.direction), b.bytes, seconds);
    }
  }

  lemma {:induction false} NothingBookedFor(bookings: seq<Booking>, e: Entity)
    ensures (forall b :: b in bookings ==> b.entity != e) ==>
      Moved(bookings, e, Inbound) == 0 && Moved(bookings, e, Outbound) == 0
  {
    if bookings != [] {
      var less := bookings[..|bookings| - 1];
      assert bookings == less + [bookings[|bookings| - 1]];
      NothingBookedFor(less, e);
    }
  }

  /** `rate` is eight times the bytes over the seconds, rounded down; nothing without time. */
  predicate BitsPerSecond(rate: int, bytes: nat, seconds: real) {
    if seconds > 0.0 then rate as real <= bytes as real * 8.0 / seconds < (rate + 1) as real else rate == 0
  }

  lemma RateOfCarried(bytes: nat, seconds: real)
    requires bytes <= U64_MAX && (seconds > 0.0 ==> bytes as real * 8.0 / seconds < 9_223_372_036_854_775_808.0)
    ensures BitsPerSecond(Bps(Carried(bytes, seconds)), bytes, seconds)
  {
    if seconds > 0.0 {
      var x := bytes as real * 8.0 / seconds;
      assert 0.0 <= x;
      assert 0 <= x.Floor <= I64_MAX;
    }
  }

  /**
   * After an interval is rolled in and its traffic booked, the live entities are
   * those of its traffic, each with eight times its bytes per second in either
   * direction, and nothing of an earlier interval.
   */
  lemma IntervalRates(live: LiveMap, bookings: seq<Booking>, seconds: real, e: Entity)
    requires forall x :: x in live ==> Sound(live[x])
    requires forall d :: Moved(bookings, e, d) <= U64_MAX
    requires seconds > 0.0 ==> forall d :: Moved(bookings, e, d) as real * 8.0 / seconds < 9_223_372_036_854_775_808.0
    ensures var rates := LiveRates(BookAll(RolledAll(live, seconds), bookings, seconds));
      && (e in rates <==> exists b :: b in bookings && b.entity == e)
      && (e in rates ==>
            && BitsPerSecond(rates[e].inbound, Moved(bookings, e, Inbound), seconds)
            && BitsPerSecond(rates[e].outbound, Moved(bookings, e, Outbound), seconds))
  {
    hide Carried, Bps, BitsPerSecond, RolledAll;
    RollForgetsAll(live, seconds);
    BookingsCarry(bookings, seconds);
    RateOfCarried(Moved(bookings, e, Inbound), seconds);
    RateOfCarried(Moved(bookings, e, Outbound), seconds);
  }

  // --------------------------------------------------------------------- runs

  datatype Event =
    | Roll(seconds: real)
    | Book(entity: Entity, direction: Direction, bytes: u64, interval: real)
    | Write(ok: bool)
    | Clear(done: nat)
    | Reopen

  function Next(s: Store, e: Event): Store {
    match e
    case Roll(seconds) => s.(live := RolledAll(s.live, seconds))
    case Book(entity, direction, bytes, seconds) => s.(live := Booked(s.live, entity, direction, bytes, seconds))
    case Write(ok) => if ok then Store(s.live, LiveRates(s.live), Patched(s.table, s.mirror, LiveRates(s.live))) else s
    case Clear(done) => Cleared(s, done)
    case Reopen => Store(map[], s.table, s.table)
  }

  function RunAll(persisted: RateTable, es: seq<Event>): Store {
    if es == [] then Store(map[], persisted, persisted) else Next(RunAll(persisted, es[..|es| - 1]), es[|es| - 1])
  }

  /** Every clear of the run got as far as the rate table, or found it empty. */
  ghost predicate Clears(persisted: RateTable, es: seq<Event>) {
    forall i :: 0 <= i < |es| && es[i].Clear? && es[i].done < RATES_STATEMENT ==>
      RunAll(persisted, es[..i]).table == map[]
  }

  /** After any run of this kind, mirror and table agree, and every live window sums up. */
  lemma {:induction false} RunMirrors(persisted: RateTable, es: seq<Event>)
    requires Clears(persisted, es)
    ensures var s := RunAll(persisted, es);
      s.mirror == s.table && forall e :: e in s.live ==> Sound(s.live[e])
  {
    hide Sound, LiveRates, Booked, RolledAll, Patched;
    if es != [] {
      var n := |es| - 1;
      var less, e := es[..n], es[n];
      assert forall i :: 0 <= i < n ==> less[i] == es[i] && less[..i] == es[..i];
      RunMirrors(persisted, less);
      var s := RunAll(persisted, less);
      match e
      case Roll(seconds) => RollForgetsAll(s.live, seconds);
      case Book(entity, direction, bytes, seconds) => BookKeepsSound(s.live, entity, direction, bytes, seconds);
      case Write(ok) => TrueMirrorRewrites(s.table, LiveRates(s.live));
      case Clear(_) =>
      case Reopen =>
    }
  }

  /** The mirror is the table throughout a run exactly when the run is of this kind. */
  lemma MirrorsThroughoutIff(persisted: RateTable, es: seq<Event>)
    ensures (forall n :: 0 <= n <= |es| ==> RunAll(persisted, es[..n]).mirror == RunAll(persisted, es[..n]).table)
       <==> Clears(persisted, es)
  {
    hide Next;
    if Clears(persisted, es) {
      forall n | 0 <= n <= |es|
        ensures RunAll(persisted, es[..n]).mirror == RunAll(persisted, es[..n]).table
      {
        assert forall i :: 0 <= i < n ==> es[..n][i] == es[i] && es[..n][..i] == es[..i];
        RunMirrors(persisted, es[..n]);
      }
    } else {
      var i :| 0 <= i < |es| && es[i].Clear? && es[i].done < RATES_STATEMENT
        && RunAll(persisted, es[..i]).table != map[];
      assert es[..i + 1][..i] == es[..i] && es[..i + 1][i] == es[i];
      ClearStep(RunAll(persisted, es[..i]), es[i].done);
      assert RunAll(persisted, es[..i + 1]).mirror != RunAll(persisted, es[..i + 1]).table;
    }
  }

  lemma ClearStep(s: Store, done: nat)
    ensures var z := Next(s, Clear(done)); z.mirror == z.table <==> done >= RATES_STATEMENT || s.table == map[]
  {
    ClearKeepsMirrorIff(s, done);
  }

  lemma NothingSumsUp()
    ensures SumsUp(NO_WINDOW)
  {
  }

  lemma BookKeepsSound(live: LiveMap, e: Entity, d: Direction, bytes: u64, seconds: real)
    requires forall x :: x in live ==> Sound(live[x])
    ensures forall x :: x in Booked(live, e, d, bytes, seconds) ==> Sound(Booked(live, e, d, bytes, seconds)[x])
  {
    hide SumsUp, Added, Pushed;
    var r := if e in live then live[e] else Started(seconds);
    assert SumsUp(NO_WINDOW) by { NothingSumsUp(); }
    RolledIsEmpty(NO_WINDOW, seconds);
    AddedSumsUp(r.inbound, bytes);
    AddedSumsUp(r.outbound, bytes);
  }

  /** After every successful write of such a run, the table, the mirror and the live rates are the same map. */
  lemma WriteMatchesLive(persisted: RateTable, es: seq<Event>)
    requires Clears(persisted, es) && es != [] && es[|es| - 1] == Write(true)
    ensures var s := RunAll(persisted, es);
      s.table == s.mirror == LiveRates(s.live)
  {
    RunMirrors(persisted, es);
  }
}
