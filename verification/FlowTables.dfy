/**
 * The Flow table and the two tables its triggers keep: the domain index
 * `flow_domains` and the counters `flow_stats`. A trigger is part of the row
 * operation that fires it.
 */
module FlowTables {
  import opened Common

  type Id = u64

  /** One element of `domains_json`. */
  datatype Entry = Entry(domain: Option<string>, evidence: string, confidence: string)
  datatype Label = Label(evidence: string, confidence: string)
  datatype State = Active | Ended

  datatype Row = Row(
    remote: string, ifindex: int, state: State, domains: seq<Entry>, application: Option<string>,
    packets: u64, bytes: u64, firstSeen: int, lastSeen: int)

  datatype IndexKey = IndexKey(flow: Id, domain: string)
  type FlowTable = map<Id, Row>
  type DomainIndex = map<IndexKey, Label>

  datatype Stats = Stats(total: int, active: int, withDomain: int)
  datatype Tables = Tables(flows: FlowTable, index: DomainIndex, stats: Stats)

  const EMPTY := Tables(map[], map[], Stats(0, 0, 0))

  // ---------------------------------------------------------- recomputation

  /** The labels of a row by domain; of two entries for one domain the later wins. */
  function Labels(es: seq<Entry>): map<string, Label> {
    if es == [] then map[]
    else
      var before, e := Labels(es[..|es| - 1]), es[|es| - 1];
      if e.domain.Some? then before[e.domain.value := Label(e.evidence, e.confidence)] else before
  }

  ghost predicate IndexAgrees(flows: FlowTable, index: DomainIndex) {
    && (forall k :: k in index <==> k.flow in flows && k.domain in Labels(flows[k.flow].domains))
    && (forall k :: k in index ==> index[k] == Labels(flows[k.flow].domains)[k.domain])
  }

  function ActiveIds(flows: FlowTable): set<Id> {
    set id | id in flows && flows[id].state == Active
  }

  function DomainIds(flows: FlowTable): set<Id> {
    set id | id in flows && flows[id].domains != []
  }

  /** Full-table counts. */
  function Counted(flows: FlowTable): Stats {
    Stats(|flows|, |ActiveIds(flows)|, |DomainIds(flows)|)
  }

  /** The derived tables are what recomputing them from the Flow table gives. */
  ghost predicate Consistent(t: Tables) {
    IndexAgrees(t.flows, t.index) && t.stats == Counted(t.flows)
  }

  // ------------------------------------------------------------ row operations

  /** `INSERT OR REPLACE` of the entries that name a domain. */
  function Indexed(index: DomainIndex, id: Id, es: seq<Entry>): DomainIndex {
    if es == [] then index
    else
      var before, e := Indexed(index, id, es[..|es| - 1]), es[|es| - 1];
      if e.domain.Some? then before[IndexKey(id, e.domain.value) := Label(e.evidence, e.confidence)] else before
  }

  function Unindexed(index: DomainIndex, id: Id): DomainIndex {
    map k | k in index && k.flow != id :: index[k]
  }

  function Bit(b: bool): int {
    if b then 1 else 0
  }

  function Inserted(t: Tables, id: Id, r: Row): Tables {
    Tables(
      t.flows[id := r],
      if r.domains != [] then Indexed(t.index, id, r.domains) else t.index,
      Stats(t.stats.total + 1, t.stats.active + Bit(r.state == Active), t.stats.withDomain + Bit(r.domains != [])))
  }

  function Updated(t: Tables, id: Id, r: Row): Tables
    requires id in t.flows
  {
    var before := t.flows[id];
    Tables(
      t.flows[id := r],
      if r.domains != before.domains then Indexed(Unindexed(t.index, id), id, r.domains) else t.index,
      Stats(t.stats.total, t.stats.active + Bit(r.state == Active) - Bit(before.state == Active),
            t.stats.withDomain + Bit(r.domains != []) - Bit(before.domains != [])))
  }

  function Deleted(t: Tables, id: Id): Tables
    requires id in t.flows
  {
    var before := t.flows[id];
    Tables(
      t.flows - {id},
      Unindexed(t.index, id),
      Stats(t.stats.total - 1, t.stats.active - Bit(before.state == Active),
        t.stats.withDomain - Bit(before.domains != [])))
  }

  /** `ON CONFLICT(id) DO UPDATE`: the remote peer and the interface stay, an application is never forgotten. */
  function Merged(old_: Row, r: Row): Row {
    Row(old_.remote, old_.ifindex, r.state, r.domains, if r.application.Some? then r.application else old_.application,
        r.packets, r.bytes, Min(old_.firstSeen, r.firstSeen), Max(old_.lastSeen, r.lastSeen))
  }

  function Upserted(flows: FlowTable, id: Id, r: Row): FlowTable {
    flows[id := if id in flows then Merged(flows[id], r) else r]
  }

  function Associated(flows: FlowTable, remote: string, ifindex: int, es: seq<Entry>): FlowTable {
    map id | id in flows :: if Matches(flows[id], remote, ifindex) then flows[id].(domains := es) else flows[id]
  }

  predicate Matches(r: Row, remote: string, ifindex: int) {
    r.remote == remote && r.ifindex == ifindex
  }

  // ------------------------------------------------------------------- lemmas

  lemma {:induction false} IndexedAt(index: DomainIndex, id: Id, es: seq<Entry>, k: IndexKey)
    ensures k in Indexed(index, id, es) <==> k in index || (k.flow == id && k.domain in Labels(es))
    ensures k in Indexed(index, id, es) ==>
      Indexed(index, id, es)[k] == if k.flow == id && k.domain in Labels(es) then Labels(es)[k.domain] else index[k]
  {
    if es != [] {
      IndexedAt(index, id, es[..|es| - 1], k);
    }
  }

  lemma IndexReplaced(t: Tables, id: Id, r: Row)
    requires IndexAgrees(t.flows, t.index)
    ensures IndexAgrees(t.flows[id := r], Indexed(Unindexed(t.index, id), id, r.domains))
  {
    hide Labels, Indexed;
    forall k: IndexKey
      ensures var index := Indexed(Unindexed(t.index, id), id, r.domains);
        && (k in index <==> k.flow in t.flows[id := r] && k.domain in Labels(t.flows[id := r][k.flow].domains))
        && (k in index ==> index[k] == Labels(t.flows[id := r][k.flow].domains)[k.domain])
    {
      IndexedAt(Unindexed(t.index, id), id, r.domains, k);
    }
  }

  lemma CountReplaced(flows: FlowTable, id: Id, r: Row)
    ensures var was := id in flows;
      Counted(flows[id := r]) == Stats(
        Counted(flows).total + Bit(!was),
        Counted(flows).active + Bit(r.state == Active) - Bit(was && flows[id].state == Active),
        Counted(flows).withDomain + Bit(r.domains != []) - Bit(was && flows[id].domains != []))
  {
    hide ActiveIds, DomainIds, Bit;
    TotalReplaced(flows, id, r);
    ActiveReplaced(flows, id, r);
    DomainReplaced(flows, id, r);
  }

  lemma TotalReplaced(flows: FlowTable, id: Id, r: Row)
    ensures |flows[id := r]| == |flows| + Bit(id !in flows)
  {
    OneMember(flows.Keys, flows[id := r].Keys, id, true);
  }

  lemma ActiveReplaced(flows: FlowTable, id: Id, r: Row)
    ensures |ActiveIds(flows[id := r])|
            == |ActiveIds(flows)| + Bit(r.state == Active) - Bit(id in flows && flows[id].state == Active)
  {
    OneMember(ActiveIds(flows), ActiveIds(flows[id := r]), id, r.state == Active);
  }

  lemma DomainReplaced(flows: FlowTable, id: Id, r: Row)
    ensures |DomainIds(flows[id := r])|
            == |DomainIds(flows)| + Bit(r.domains != []) - Bit(id in flows && flows[id].domains != [])
  {
    OneMember(DomainIds(flows), DomainIds(flows[id := r]), id, r.domains != []);
  }

  lemma OneMember(before: set<Id>, after: set<Id>, id: Id, member: bool)
    requires after == if member then before - {id} + {id} else before - {id}
    ensures |after| == |before| + Bit(member) - Bit(id in before)
  {
    assert id in before ==> before == before - {id} + {id};
    assert id !in before ==> before == before - {id};
  }

  lemma CountDeleted(flows: FlowTable, id: Id)
    requires id in flows
    ensures Counted(flows - {id}) == Stats(
      Counted(flows).total - 1,
      Counted(flows).active - Bit(flows[id].state == Active),
      Counted(flows).withDomain - Bit(flows[id].domains != []))
  {
    var z := flows - {id};
    assert ActiveIds(z) == ActiveIds(flows) - {id};
    assert DomainIds(z) == DomainIds(flows) - {id};
    assert z.Keys == flows.Keys - {id};
  }

  lemma InsertKeeps(t: Tables, id: Id, r: Row)
    requires Consistent(t) && id !in t.flows
    ensures Consistent(Inserted(t, id, r))
  {
    hide Indexed, Counted;
    assert Unindexed(t.index, id) == t.index;
    IndexReplaced(t, id, r);
    CountReplaced(t.flows, id, r);
    NothingIndexed(t.index, id);
  }

  lemma NothingIndexed(index: DomainIndex, id: Id)
    ensures Indexed(index, id, []) == index
  {
  }

  lemma UpdateKeeps(t: Tables, id: Id, r: Row)
    requires Consistent(t) && id in t.flows
    ensures Consistent(Updated(t, id, r))
  {
    hide Indexed, Counted, Labels;
    IndexReplaced(t, id, r);
    CountReplaced(t.flows, id, r);
  }

  lemma DeleteKeeps(t: Tables, id: Id)
    requires Consistent(t) && id in t.flows
    ensures Consistent(Deleted(t, id))
  {
    hide Counted, Labels;
    CountDeleted(t.flows, id);
  }

  // ------------------------------------------------------------------- store

  /** Ids that a statement deletes: none is more recent than a row that stays. */
  ghost predicate Oldest(flows: FlowTable, chosen: set<Id>) {
    && chosen <= flows.Keys
    && forall a, b :: a in chosen && b in flows && b !in chosen ==> flows[a].lastSeen <= flows[b].lastSeen
  }

  lemma {:induction false} OldestExists(flows: FlowTable, ids: set<Id>) returns (oldest: Id)
    requires ids != {} && ids <= flows.Keys
    ensures oldest in ids && forall id :: id in ids ==> flows[oldest].lastSeen <= flows[id].lastSeen
    decreases |ids|
  {
    var id :| id in ids;
    if ids == {id} {
      oldest := id;
    } else {
      var o := OldestExists(flows, ids - {id});
      oldest := if flows[o].lastSeen <= flows[id].lastSeen then o else id;
    }
  }

  class FlowStore {
    var flows: FlowTable
    var index: DomainIndex
    var stats: Stats

    constructor ()
      ensures Value() == EMPTY && Valid()
    {
      flows, index, stats := map[], map[], Stats(0, 0, 0);
    }

    function Value(): Tables
      reads this
    {
      Tables(flows, index, stats)
    }

    ghost predicate Valid()
      reads this
    {
      Consistent(Value())
    }

    method IndexDomains(id: Id, es: seq<Entry>)
      modifies this`index
      ensures index == Indexed(old(index), id, es)
    {
      for i := 0 to |es|
        invariant index == Indexed(old(index), id, es[..i])
      {
        assert es[..i + 1][..i] == es[..i];
        if es[i].domain.Some? {
          index := index[IndexKey(id, es[i].domain.value) := Label(es[i].evidence, es[i].confidence)];
        }
      }
      assert es[..|es|] == es;
    }

    method InsertRow(id: Id, r: Row)
      requires id !in flows
      modifies this
      ensures Value() == Inserted(old(Value()), id, r)
    {
      flows := flows[id := r];
      if r.domains != [] {
        IndexDomains(id, r.domains);
      }
      stats := Stats(stats.total + 1, stats.active + Bit(r.state == Active), stats.withDomain + Bit(r.domains != []));
    }

    method UpdateRow(id: Id, r: Row)
      requires id in flows
      modifies this
      ensures Value() == Updated(old(Value()), id, r)
    {
      var before := flows[id];
      flows := flows[id := r];
      if r.domains != before.domains {
        index := map k | k in index && k.flow != id :: index[k];
        IndexDomains(id, r.domains);
      }
      stats := Stats(stats.total, stats.active + Bit(r.state == Active) - Bit(before.state == Active),
                     stats.withDomain + Bit(r.domains != []) - Bit(before.domains != []));
    }

    method DeleteRow(id: Id)
      requires id in flows
      modifies this
      ensures Value() == Deleted(old(Value()), id)
    {
      var before := flows[id];
      flows := flows - {id};
      index := map k | k in index && k.flow != id :: index[k];
      stats := Stats(stats.total - 1, stats.active - Bit(before.state == Active),
        stats.withDomain - Bit(before.domains != []));
    }

    method UpsertFlow(id: Id, r: Row)
      requires Valid()
      modifies this
      ensures Valid() && flows == Upserted(old(flows), id, r)
    {
      if id in flows {
        UpdateKeeps(Value(), id, Merged(flows[id], r));
        UpdateRow(id, Merged(flows[id], r));
      } else {
        InsertKeeps(Value(), id, r);
        InsertRow(id, r);
      }
    }

    /** `UPDATE flows SET domains_json ... WHERE remote_addr = ? AND ifindex = ?`, row by row. */
    method AssociateAddress(remote: string, ifindex: int, es: seq<Entry>)
      requires Valid()
      modifies this
      ensures Valid() && flows == Associated(old(flows), remote, ifindex, es)
      ensures flows.Keys == old(flows).Keys && forall id :: id in flows ==>
        var r := old(flows)[id];
        flows[id] == if r.remote == remote && r.ifindex == ifindex then r.(domains := es) else r
    {
      hide Consistent, Updated;
      var pending := set id | id in flows && Matches(flows[id], remote, ifindex);
      while pending != {}
        invariant Valid() && flows.Keys == old(flows).Keys && pending <= flows.Keys
        invariant forall id :: id in pending ==> flows[id] == old(flows)[id] && Matches(flows[id], remote, ifindex)
        invariant forall id :: id in flows && id !in pending ==>
          flows[id] == Associated(old(flows), remote, ifindex, es)[id]
        decreases |pending|
      {
        var id :| id in pending;
        UpdateKeeps(Value(), id, flows[id].(domains := es));
        UpdatedFlows(Value(), id, flows[id].(domains := es));
        UpdateRow(id, flows[id].(domains := es));
        pending := pending - {id};
      }
    }

    method DeleteRows(ids: set<Id>)
      requires Valid() && ids <= flows.Keys
      modifies this
      ensures Valid() && flows == old(flows) - ids
    {
      hide Consistent, Deleted;
      var pending := ids;
      while pending != {}
        invariant pending <= ids && Valid() && flows == old(flows) - (ids - pending)
        decreases |pending|
      {
        var id :| id in pending;
        DeleteKeeps(Value(), id);
        DeletedFlows(Value(), id);
        DeleteRow(id);
        pending := pending - {id};
      }
    }

    /** `SELECT id ... ORDER BY last_seen_ms ASC LIMIT n`; ties in any order. */
    method OldestIds(n: nat) returns (chosen: set<Id>)
      requires n <= |flows|
      ensures |chosen| == n && Oldest(flows, chosen)
    {
      chosen := {};
      while |chosen| < n
        invariant |chosen| <= n && Oldest(flows, chosen)
        decreases n - |chosen|
      {
        ghost var left := flows.Keys - chosen;
        assert left != {} by {
          assert flows.Keys == chosen + left;
        }
        ghost var oldest := OldestExists(flows, left);
        var id :| id in flows && id !in chosen && forall o :: o in flows && o !in chosen ==>
          flows[id].lastSeen <= flows[o].lastSeen;
        chosen := chosen + {id};
      }
    }

    /** Deletes the oldest Flows beyond the capacity, which it reads from the counters. */
    method EnforceCapacity(capacity: nat)
      requires Valid()
      modifies this
      ensures Valid() && |flows| == if |old(flows)| <= capacity then |old(flows)| else capacity
      ensures exists evicted :: Evicts(old(flows), evicted, capacity) && flows == old(flows) - evicted
    {
      hide Consistent, Oldest;
      StatsAreCounts(Value());
      var overflow := stats.total - capacity;
      NothingOldest(flows);
      if overflow <= 0 {
        assert Evicts(flows, {}, capacity) && flows - {} == flows;
        return;
      }
      var ids := OldestIds(overflow);
      OldestWithin(flows, ids);
      assert Evicts(flows, ids, capacity);
      RowsRemoved(flows, ids);
      DeleteRows(ids);
    }

    /** Deletes ended Flows past the history setting. */
    method EnforceHistory(historyEnabled: bool, cutoff: int)
      requires Valid()
      modifies this
      ensures Valid() && flows == Kept(old(flows), historyEnabled, cutoff)
      ensures forall id :: id in flows <==>
        && id in old(flows)
        && (old(flows)[id].state == Active || (historyEnabled && old(flows)[id].lastSeen >= cutoff))
    {
      hide Consistent;
      var gone := set id | id in flows && !Keeps(flows[id], historyEnabled, cutoff);
      DeleteRows(gone);
    }

    /** Flow rows of the policy pass. */
    method EnforcePolicy(capacity: nat, historyEnabled: bool, cutoff: int)
      requires Valid()
      modifies this
      ensures Valid() && |flows| <= capacity
      ensures exists evicted ::
        Evicts(old(flows), evicted, capacity) && flows == Kept(old(flows) - evicted, historyEnabled, cutoff)
      ensures forall id :: id in flows ==>
        && id in old(flows) && flows[id] == old(flows)[id]
        && (flows[id].state == Active || (historyEnabled && flows[id].lastSeen >= cutoff))
      ensures forall id :: id in old(flows) && id !in flows ==>
        || (old(flows)[id].state != Active && !(historyEnabled && old(flows)[id].lastSeen >= cutoff))
        || (|old(flows)| > capacity && forall k :: k in flows ==> old(flows)[id].lastSeen <= flows[k].lastSeen)
    {
      hide Consistent, Evicts;
      EnforceCapacity(capacity);
      EvictedAreOld(old(flows), flows, capacity);
      KeptSmaller(flows, historyEnabled, cutoff);
      EnforceHistory(historyEnabled, cutoff);
    }

    method ClearHistory()
      requires Valid()
      modifies this
      ensures Valid() && Value() == EMPTY
    {
      hide Consistent;
      DeleteRows(flows.Keys);
      assert flows == map[];
      OnlyEmpty(Value());
    }
  }

  /** The oldest Flows beyond the capacity, and no more. */
  ghost predicate Evicts(flows: FlowTable, evicted: set<Id>, capacity: nat) {
    Oldest(flows, evicted) && |evicted| == Max(0, |flows| - capacity)
  }

  predicate Keeps(r: Row, historyEnabled: bool, cutoff: int) {
    r.state == Active || (historyEnabled && r.lastSeen >= cutoff)
  }

  /** Ended Flows stay only while history is enabled and they are recent enough. */
  function Kept(flows: FlowTable, historyEnabled: bool, cutoff: int): FlowTable {
    map id | id in flows && Keeps(flows[id], historyEnabled, cutoff) :: flows[id]
  }

  lemma EvictedAreOld(flows: FlowTable, left: FlowTable, capacity: nat)
    requires exists evicted :: Evicts(flows, evicted, capacity) && left == flows - evicted
    ensures forall a :: a in flows && a !in left ==>
      |flows| > capacity && forall b :: b in left ==> flows[a].lastSeen <= left[b].lastSeen
  {
  }

  lemma KeptSmaller(flows: FlowTable, historyEnabled: bool, cutoff: int)
    ensures |Kept(flows, historyEnabled, cutoff)| <= |flows|
  {
    var k := Kept(flows, historyEnabled, cutoff);
    assert flows.Keys == k.Keys + (flows.Keys - k.Keys);
  }

  lemma RowsRemoved(flows: FlowTable, ids: set<Id>)
    requires ids <= flows.Keys
    ensures |flows - ids| == |flows| - |ids|
  {
    assert flows.Keys == (flows.Keys - ids) + ids;
    assert (flows - ids).Keys == flows.Keys - ids;
  }

  lemma UpdatedFlows(t: Tables, id: Id, r: Row)
    requires id in t.flows
    ensures Updated(t, id, r).flows == t.flows[id := r]
  {
  }

  lemma DeletedFlows(t: Tables, id: Id)
    requires id in t.flows
    ensures Deleted(t, id).flows == t.flows - {id}
  {
  }

  lemma StatsAreCounts(t: Tables)
    requires Consistent(t)
    ensures t.stats.total == |t.flows|
  {
  }

  lemma NothingOldest(flows: FlowTable)
    ensures Oldest(flows, {})
  {
  }

  lemma OldestWithin(flows: FlowTable, ids: set<Id>)
    requires Oldest(flows, ids)
    ensures ids <= flows.Keys
  {
  }

  /** A consistent store with no Flow has empty derived tables. */
  lemma OnlyEmpty(t: Tables)
    requires Consistent(t) && t.flows == map[]
    ensures t == EMPTY
  {
    assert ActiveIds(t.flows) == {} && DomainIds(t.flows) == {};
    assert t.index == map[];
  }

  // --------------------------------------------------------- what a Flow keeps

  /** The Flow table after successive upserts of one Flow. */
  function UpsertAll(flows: FlowTable, id: Id, rs: seq<Row>): FlowTable {
    if rs == [] then flows else Upserted(UpsertAll(flows, id, rs[..|rs| - 1]), id, rs[|rs| - 1])
  }

  /**
   * The row that stands for all these: the peer of the first, the counters and
   * labels of the last, the widest time, the last known application.
   */
  ghost predicate Stands(r: Row, rs: seq<Row>) {
    && rs != []
    && r.remote == rs[0].remote && r.ifindex == rs[0].ifindex
    && (var last := rs[|rs| - 1];
        r.state == last.state && r.domains == last.domains && r.packets == last.packets && r.bytes == last.bytes)
    && (forall x :: x in rs ==> r.firstSeen <= x.firstSeen && x.lastSeen <= r.lastSeen)
    && (exists x :: x in rs && r.firstSeen == x.firstSeen) && (exists x :: x in rs && r.lastSeen == x.lastSeen)
    && LastKnown(r.application, rs)
  }

  ghost predicate LastKnown(application: Option<string>, rs: seq<Row>) {
    if application.None? then forall x :: x in rs ==> x.application.None?
    else exists i :: 0 <= i < |rs| && rs[i].application == application
           && forall j :: i < j < |rs| ==> rs[j].application.None?
  }

  lemma StandsAlone(r: Row)
    ensures Stands(r, [r])
  {
    assert r in [r] && [r][0].application == r.application;
  }

  lemma MergedStands(r: Row, rs: seq<Row>, x: Row)
    requires Stands(r, rs)
    ensures Stands(Merged(r, x), rs + [x])
  {
    var all := rs + [x];
    assert all[0] == rs[0] && x in all && forall y :: y in rs ==> y in all;
    if x.application.Some? {
      assert all[|rs|].application == x.application;
    } else if r.application.Some? {
      var i :| 0 <= i < |rs| && rs[i].application == r.application
        && forall j :: i < j < |rs| ==> rs[j].application.None?;
      assert all[i].application == r.application;
    }
  }

  /** Whatever the upserts, a Flow's row stands for all it was given, and no other row changes. */
  lemma {:induction false} UpsertsStand(flows: FlowTable, id: Id, rs: seq<Row>)
    requires id in flows || rs != []
    ensures var z := UpsertAll(flows, id, rs);
      && id in z && Stands(z[id], (if id in flows then [flows[id]] else []) + rs)
      && z.Keys == flows.Keys + {id} && forall k :: k in flows && k != id ==> z[k] == flows[k]
  {
    hide Stands, Merged;
    if rs == [] {
      StandsAlone(flows[id]);
      assert [flows[id]] + [] == [flows[id]];
    } else {
      var less, x := rs[..|rs| - 1], rs[|rs| - 1];
      var before := if id in flows then [flows[id]] else [];
      assert before + rs == before + less + [x];
      if id in flows || less != [] {
        UpsertsStand(flows, id, less);
        MergedStands(UpsertAll(flows, id, less)[id], before + less, x);
      } else {
        StandsAlone(x);
        assert before + rs == [x] && UpsertAll(flows, id, less) == flows;
      }
    }
  }

  // -------------------------------------------------------------------- runs

  /** Row operations of any statement, in any order. */
  datatype RowOp = Insert(id: Id, row: Row) | Update(id: Id, row: Row) | Delete(id: Id)

  predicate Applicable(t: Tables, op: RowOp) {
    if op.Insert? then op.id !in t.flows else op.id in t.flows
  }

  /** The tables after each row operation; an operation on a missing row, or a second insert, touches no row. */
  function RunAll(ops: seq<RowOp>): Tables {
    if ops == [] then EMPTY
    else
      var t, op := RunAll(ops[..|ops| - 1]), ops[|ops| - 1];
      if !Applicable(t, op) then t
      else
        match op
        case Insert(id, row) => Inserted(t, id, row)
        case Update(id, row) => Updated(t, id, row)
        case Delete(id) => Deleted(t, id)
  }

  /** After any sequence of inserts, updates and deletes, both derived tables equal their recomputation. */
  lemma {:induction false} RunConsistent(ops: seq<RowOp>)
    ensures Consistent(RunAll(ops))
  {
    hide Consistent, Inserted, Updated, Deleted;
    if ops == [] {
      EmptyConsistent();
    } else {
      RunConsistent(ops[..|ops| - 1]);
      var t, op := RunAll(ops[..|ops| - 1]), ops[|ops| - 1];
      if Applicable(t, op) {
        match op
        case Insert(id, row) => InsertKeeps(t, id, row);
        case Update(id, row) => UpdateKeeps(t, id, row);
        case Delete(id) => DeleteKeeps(t, id);
      }
    }
  }

  lemma EmptyConsistent()
    ensures Consistent(EMPTY)
  {
    assert ActiveIds(map[]) == {} && DomainIds(map[]) == {};
  }

  /** Of duplicate domains in a row, the label of the last is indexed. */
  lemma {:induction false} LaterDuplicateWins(es: seq<Entry>, i: nat)
    requires i < |es| && es[i].domain.Some? && forall j :: i < j < |es| ==> es[j].domain != es[i].domain
    ensures es[i].domain.value in Labels(es)
    ensures Labels(es)[es[i].domain.value] == Label(es[i].evidence, es[i].confidence)
  {
    if i < |es| - 1 {
      LaterDuplicateWins(es[..|es| - 1], i);
    }
  }
}
