/**
 * What the operations between two programs leave in the kernel maps: each map
 * cell is a fold over the operations that name it, and one refused removal ends
 * the whole list.
 */
module PolicyOutcome {
  import opened Common
  import opened PolicyDiff
  import RuleLookup
  import PacketParser

  /** A map cell; `refused` once a removal found it empty. */
  datatype Cell<T> = Cell(value: Option<T>, refused: bool)

  function Give<T>(c: Cell<T>): Cell<T> {
    if c.refused then c else if c.value.None? then c.(refused := true) else Cell(None, false)
  }

  function Put<T>(c: Cell<T>, v: T): Cell<T> {
    if c.refused then c else Cell(Some(v), false)
  }

  function MatchStep(c: Cell<RuleRef>, op: Op, e: MatchEntry): Cell<RuleRef> {
    match op
    case UpsertMatch(x, ref) => if x.key == e then Put(c, ref) else c
    case RemoveMatch(x) => if x.key == e then Give(c) else c
    case _ => c
  }

  function StateStep(c: Cell<State>, op: Op, key: BucketKey): Cell<State> {
    match op
    case UpsertState(s) => if s.key == key then Put(c, s) else c
    case RemoveState(x) => if x == key then Give(c) else c
    case _ => c
  }

  function MatchFold(c: Cell<RuleRef>, ops: seq<Op>, e: MatchEntry): Cell<RuleRef> {
    if ops == [] then c else MatchStep(MatchFold(c, ops[..|ops| - 1], e), ops[|ops| - 1], e)
  }

  function StateFold(c: Cell<State>, ops: seq<Op>, key: BucketKey): Cell<State> {
    if ops == [] then c else StateStep(StateFold(c, ops[..|ops| - 1], key), ops[|ops| - 1], key)
  }

  function MatchCell(k: Kernel, e: MatchEntry): Cell<RuleRef> {
    Cell(if e in k.matches then Some(k.matches[e]) else None, false)
  }

  function StateCell(k: Kernel, key: BucketKey): Cell<State> {
    Cell(if key in k.states then Some(k.states[key]) else None, false)
  }

  // ------------------------------------------------------- runs are folds

  ghost predicate MatchRefused(k: Kernel, ops: seq<Op>) {
    exists e :: MatchFold(MatchCell(k, e), ops, e).refused
  }

  ghost predicate StateRefused(k: Kernel, ops: seq<Op>) {
    exists key :: StateFold(StateCell(k, key), ops, key).refused
  }

  ghost predicate CellsAre(k: Kernel, ops: seq<Op>, z: Kernel) {
    && (forall e :: MatchCell(z, e) == MatchFold(MatchCell(k, e), ops, e))
    && (forall key :: StateCell(z, key) == StateFold(StateCell(k, key), ops, key))
  }

  /** A run fails exactly when a fold is refused; otherwise every cell is its fold. */
  ghost predicate Decided(k: Kernel, ops: seq<Op>, z: Kernel) {
    if z.failed then MatchRefused(k, ops) || StateRefused(k, ops) else CellsAre(k, ops, z)
  }

  lemma {:induction false} RunDecided(k: Kernel, ops: seq<Op>)
    requires !k.failed
    ensures Decided(k, ops, RunOps(k, ops))
    ensures RunOps(k, ops).failed <==> MatchRefused(k, ops) || StateRefused(k, ops)
  {
    hide MatchRefused, StateRefused, CellsAre, Step;
    if ops == [] {
      NothingDecided(k);
    } else {
      var less := ops[..|ops| - 1];
      RunDecided(k, less);
      var y := RunOps(k, less);
      if y.failed {
        RefusalStays(k, ops);
        FailedStep(y, ops[|ops| - 1]);
      } else {
        StepDecided(k, ops, y);
      }
    }
    if !RunOps(k, ops).failed {
      CellsNotRefused(k, ops, RunOps(k, ops));
    }
  }

  lemma NothingDecided(k: Kernel)
    ensures CellsAre(k, [], k)
  {
  }

  lemma FailedStep(k: Kernel, op: Op)
    requires k.failed
    ensures Step(k, op) == k
  {
  }

  lemma RefusalStays(k: Kernel, ops: seq<Op>)
    requires ops != [] && (MatchRefused(k, ops[..|ops| - 1]) || StateRefused(k, ops[..|ops| - 1]))
    ensures MatchRefused(k, ops) || StateRefused(k, ops)
  {
    var less := ops[..|ops| - 1];
    if MatchRefused(k, less) {
      var e :| MatchFold(MatchCell(k, e), less, e).refused;
      assert MatchFold(MatchCell(k, e), ops, e).refused;
    } else {
      var key :| StateFold(StateCell(k, key), less, key).refused;
      assert StateFold(StateCell(k, key), ops, key).refused;
    }
  }

  lemma CellsNotRefused(k: Kernel, ops: seq<Op>, z: Kernel)
    requires CellsAre(k, ops, z)
    ensures !MatchRefused(k, ops) && !StateRefused(k, ops)
  {
    forall e
      ensures !MatchFold(MatchCell(k, e), ops, e).refused
    {
      assert !MatchCell(z, e).refused;
    }
    forall key
      ensures !StateFold(StateCell(k, key), ops, key).refused
    {
      assert !StateCell(z, key).refused;
    }
  }

  lemma StepDecided(k: Kernel, ops: seq<Op>, y: Kernel)
    requires ops != [] && !y.failed && CellsAre(k, ops[..|ops| - 1], y)
    ensures Decided(k, ops, Step(y, ops[|ops| - 1]))
  {
    hide MatchFold, StateFold;
    var less, op := ops[..|ops| - 1], ops[|ops| - 1];
    var z := Step(y, op);
    forall e
      ensures MatchFold(MatchCell(k, e), ops, e) == MatchStep(MatchCell(y, e), op, e)
    {
      LastMatchStep(MatchCell(k, e), ops, e);
    }
    forall key
      ensures StateFold(StateCell(k, key), ops, key) == StateStep(StateCell(y, key), op, key)
    {
      LastStateStep(StateCell(k, key), ops, key);
    }
    if z.failed {
      if op.RemoveMatch? {
        assert MatchFold(MatchCell(k, op.entry.key), ops, op.entry.key).refused;
      } else {
        assert StateFold(StateCell(k, op.key), ops, op.key).refused;
      }
    }
  }

  lemma LastMatchStep(c: Cell<RuleRef>, ops: seq<Op>, e: MatchEntry)
    requires ops != []
    ensures MatchFold(c, ops, e) == MatchStep(MatchFold(c, ops[..|ops| - 1], e), ops[|ops| - 1], e)
  {
  }

  lemma LastStateStep(c: Cell<State>, ops: seq<Op>, key: BucketKey)
    requires ops != []
    ensures StateFold(c, ops, key) == StateStep(StateFold(c, ops[..|ops| - 1], key), ops[|ops| - 1], key)
  {
  }

  // ---------------------------------------------------- one entry, rule by rule

  lemma {:induction false} MatchFoldConcat(c: Cell<RuleRef>, a: seq<Op>, b: seq<Op>, e: MatchEntry)
    ensures MatchFold(c, a + b, e) == MatchFold(MatchFold(c, a, e), b, e)
    decreases |b|
  {
    if b == [] {
      assert a + b == a;
    } else {
      MatchFoldConcat(c, a, b[..|b| - 1], e);
      assert (a + b)[..|a + b| - 1] == a + b[..|b| - 1];
    }
  }

  lemma MatchFoldOne(c: Cell<RuleRef>, a: seq<Op>, op: Op, e: MatchEntry)
    ensures MatchFold(c, a + [op], e) == MatchStep(MatchFold(c, a, e), op, e)
  {
    assert (a + [op])[..|a|] == a;
  }

  /** Operations on states leave every match cell alone. */
  lemma {:induction false} StateOpsKeepMatches(c: Cell<RuleRef>, ss: seq<State>, f: State -> Option<Op>, e: MatchEntry)
    requires forall s :: f(s).Some? ==> f(s).value.UpsertState? || f(s).value.RemoveState?
    ensures MatchFold(c, Mapped(ss, f), e) == c
  {
    hide MatchFold;
    if ss == [] {
      MatchFoldNothing(c, e);
    } else {
      var less, s := ss[..|ss| - 1], ss[|ss| - 1];
      StateOpsKeepMatches(c, less, f, e);
      if f(s).Some? {
        MatchFoldOne(c, Mapped(less, f), f(s).value, e);
      }
    }
  }

  lemma MatchFoldNothing(c: Cell<RuleRef>, e: MatchEntry)
    ensures MatchFold(c, [], e) == c
  {
  }

  /** The rule writes an entry with this key. */
  predicate Writes(before: Option<Rule>, r: Rule, es: seq<Entry>, x: MatchEntry) {
    exists e :: e in es && e.key == x && !MatchUnchanged(before, r, e)
  }

  lemma OneMoreWrite(before: Option<Rule>, r: Rule, less: seq<Entry>, e: Entry, x: MatchEntry)
    ensures Writes(before, r, less + [e], x) <==>
      Writes(before, r, less, x) || (e.key == x && !MatchUnchanged(before, r, e))
  {
    hide MatchUnchanged;
    assert e in less + [e] && forall y :: y in less ==> y in less + [e];
  }

  lemma {:induction false} NewMatchesPut(c: Cell<RuleRef>, es: seq<Entry>, before: Option<Rule>, r: Rule, x: MatchEntry)
    ensures MatchFold(c, Mapped(es, Matching(before, r)), x) == if Writes(before, r, es, x) then Put(c, RefOf(r)) else c
  {
    hide MatchFold, MatchUnchanged, Writes;
    if es == [] {
      MatchFoldNothing(c, x);
      assert !Writes(before, r, [], x) by { NoWrites(before, r, x); }
    } else {
      var less, e := es[..|es| - 1], es[|es| - 1];
      assert es == less + [e];
      NewMatchesPut(c, less, before, r, x);
      OneMoreWrite(before, r, less, e, x);
      if !MatchUnchanged(before, r, e) {
        MatchFoldOne(c, Mapped(less, Matching(before, r)), UpsertMatch(e, RefOf(r)), x);
      }
    }
  }

  lemma NoWrites(before: Option<Rule>, r: Rule, x: MatchEntry)
    ensures !Writes(before, r, [], x)
  {
  }

  /** Removals of this key among those that `f` makes of the entries. */
  function Removals(es: seq<Entry>, f: Entry -> Option<Op>, x: MatchEntry): nat {
    if es == [] then 0
    else
      var e := es[|es| - 1];
      Removals(es[..|es| - 1], f, x) + if e.key == x && f(e).Some? then 1 else 0
  }

  lemma {:induction false} RemovalsFound(es: seq<Entry>, f: Entry -> Option<Op>, x: MatchEntry)
    ensures Removals(es, f, x) > 0 <==> exists e :: e in es && e.key == x && f(e).Some?
  {
    if es != [] {
      var less, last := es[..|es| - 1], es[|es| - 1];
      assert es == less + [last] && last in es;
      RemovalsFound(less, f, x);
      if e :| e in es && e.key == x && f(e).Some? {
        assert e in less || e == last;
      }
      if e :| e in less && e.key == x && f(e).Some? {
        assert e in es;
      }
    }
  }

  function GiveTimes<T>(c: Cell<T>, n: nat): Cell<T> {
    if n == 0 then c else Give(GiveTimes(c, n - 1))
  }

  lemma GiveTimesIs<T>(c: Cell<T>, n: nat)
    requires !c.refused
    ensures GiveTimes(c, n) ==
      if n == 0 then c else if n == 1 && c.value.Some? then Cell(None, false) else Cell(None, true)
  {
  }

  lemma {:induction false} RemovalsGive(c: Cell<RuleRef>, es: seq<Entry>, f: Entry -> Option<Op>, x: MatchEntry)
    requires forall e :: f(e) == None || f(e) == Some(RemoveMatch(e))
    ensures MatchFold(c, Mapped(es, f), x) == GiveTimes(c, Removals(es, f, x))
  {
    hide MatchFold;
    if es == [] {
      MatchFoldNothing(c, x);
    } else {
      var less, e := es[..|es| - 1], es[|es| - 1];
      RemovalsGive(c, less, f, x);
      if f(e).Some? {
        MatchFoldOne(c, Mapped(less, f), RemoveMatch(e), x);
      }
    }
  }

  function RefOf(r: Rule): RuleRef {
    RuleRef(r.id, r.action)
  }

  /** How often the removal of a leaving rule names the key. */
  function Leaving(previous: seq<Rule>, next: seq<Rule>, a: nat, x: MatchEntry): nat
    requires a < |previous|
  {
    if RuleOf(next, previous[a].id).None? then Removals(previous[a].matches, Removing(), x) else 0
  }

  /** How many entries with this key a rule that stays gives up. */
  function Given(previous: seq<Rule>, next: seq<Rule>, j: nat, x: MatchEntry): nat
    requires j < |next|
  {
    var before := RuleOf(previous, next[j].id);
    if before.Some? then Removals(before.value.matches, Staling(next[j]), x) else 0
  }

  /** The rule takes the key, or takes it again for a new action or spelling. */
  predicate Takes(previous: seq<Rule>, next: seq<Rule>, j: nat, x: MatchEntry)
    requires j < |next|
  {
    Writes(RuleOf(previous, next[j].id), next[j], next[j].matches, x)
  }

  function LeaveCell(previous: seq<Rule>, next: seq<Rule>, n: nat, c: Cell<RuleRef>, x: MatchEntry): Cell<RuleRef>
    requires n <= |previous|
  {
    if n == 0 then c
    else GiveTimes(LeaveCell(previous, next, n - 1, c, x), Leaving(previous, next, n - 1, x))
  }

  function KeepCell(previous: seq<Rule>, next: seq<Rule>, n: nat, c: Cell<RuleRef>, x: MatchEntry): Cell<RuleRef>
    requires n <= |next|
  {
    if n == 0 then c
    else
      var b := KeepCell(previous, next, n - 1, c, x);
      var d := if Takes(previous, next, n - 1, x) then Put(b, RefOf(next[n - 1])) else b;
      GiveTimes(d, Given(previous, next, n - 1, x))
  }

  /** The fate of a key: first the leaving rules, then each next rule in order. */
  function DiffCell(previous: seq<Rule>, next: seq<Rule>, c: Cell<RuleRef>, x: MatchEntry): Cell<RuleRef> {
    KeepCell(previous, next, |next|, LeaveCell(previous, next, |previous|, c, x), x)
  }

  lemma LeavingFold(c: Cell<RuleRef>, r: Rule, x: MatchEntry)
    ensures MatchFold(c, LeavingOps(r), x) == GiveTimes(c, Removals(r.matches, Removing(), x))
  {
    hide MatchFold, Mapped, Removals;
    MatchFoldConcat(c, Mapped(r.matches, Removing()), Mapped(r.states, Dropping()), x);
    RemovalsGive(c, r.matches, Removing(), x);
    StateOpsKeepMatches(MatchFold(c, Mapped(r.matches, Removing()), x), r.states, Dropping(), x);
  }

  lemma RuleFold(c: Cell<RuleRef>, before: Option<Rule>, r: Rule, x: MatchEntry)
    ensures MatchFold(c, RuleOps(before, r), x) ==
      GiveTimes(if Writes(before, r, r.matches, x) then Put(c, RefOf(r)) else c,
                if before.Some? then Removals(before.value.matches, Staling(r), x) else 0)
  {
    hide MatchFold, Mapped, MatchUnchanged, StateUnchanged, Removals, Writes;
    var stores, matches := Mapped(r.states, Storing(before)), Mapped(r.matches, Matching(before, r));
    MatchFoldConcat(c, stores, matches, x);
    StateOpsKeepMatches(c, r.states, Storing(before), x);
    NewMatchesPut(c, r.matches, before, r, x);
    if before.Some? {
      var stale := Mapped(before.value.matches, Staling(r));
      MatchFoldConcat(c, stores + matches, stale, x);
      RemovalsGive(MatchFold(c, stores + matches, x), before.value.matches, Staling(r), x);
    } else {
      assert stores + matches + [] == stores + matches;
    }
  }

  lemma {:induction false} RemovedFold(c: Cell<RuleRef>, previous: seq<Rule>, next: seq<Rule>, n: nat, x: MatchEntry)
    requires n <= |previous|
    ensures MatchFold(c, RemovedOps(previous[..n], next), x) == LeaveCell(previous, next, n, c, x)
    decreases n
  {
    hide MatchFold, LeavingOps, RuleOf, Removals;
    if n == 0 {
      MatchFoldNothing(c, x);
    } else {
      var less, r := previous[..n - 1], previous[n - 1];
      assert previous[..n][..n - 1] == less && previous[..n][n - 1] == r;
      RemovedFold(c, previous, next, n - 1, x);
      if RuleOf(next, r.id).None? {
        MatchFoldConcat(c, RemovedOps(less, next), LeavingOps(r), x);
        LeavingFold(LeaveCell(previous, next, n - 1, c, x), r, x);
      }
    }
  }

  lemma {:induction false} KeptFold(c: Cell<RuleRef>, previous: seq<Rule>, next: seq<Rule>, n: nat, x: MatchEntry)
    requires n <= |next|
    ensures MatchFold(c, KeptOps(previous, next[..n]), x) == KeepCell(previous, next, n, c, x)
    decreases n
  {
    hide MatchFold, RuleOps, RuleOf, Removals, Writes;
    if n == 0 {
      MatchFoldNothing(c, x);
    } else {
      var less, r := next[..n - 1], next[n - 1];
      assert next[..n][..n - 1] == less && next[..n][n - 1] == r;
      KeptFold(c, previous, next, n - 1, x);
      var before := RuleOf(previous, r.id);
      MatchFoldConcat(c, KeptOps(previous, less), RuleOps(before, r), x);
      RuleFold(KeepCell(previous, next, n - 1, c, x), before, r, x);
    }
  }

  lemma ConfigFold(c: Cell<RuleRef>, ops: seq<Op>, e: MatchEntry)
    requires ops == [] || (|ops| == 1 && ops[0].SetEnabled?)
    ensures MatchFold(c, ops, e) == c
  {
    if ops != [] {
      assert ops[..0] == [];
    }
  }

  lemma DiffFold(c: Cell<RuleRef>, previous: Policy, next: Policy, e: MatchEntry)
    ensures MatchFold(c, DiffOps(previous, next), e) == DiffCell(previous.rules, next.rules, c, e)
  {
    hide MatchFold, RemovedOps, KeptOps, LeaveCell, KeepCell;
    var p, n := previous.rules, next.rules;
    var first, removed, kept, last :=
      FirstOps(previous, next), RemovedOps(p, n), KeptOps(p, n), LastOps(previous, next);
    assert p[..|p|] == p && n[..|n|] == n;
    MatchFoldConcat(c, first + removed + kept, last, e);
    MatchFoldConcat(c, first + removed, kept, e);
    MatchFoldConcat(c, first, removed, e);
    ConfigFold(c, first, e);
    RemovedFold(c, p, n, |p|, e);
    KeptFold(LeaveCell(p, n, |p|, c, e), p, n, |n|, e);
    ConfigFold(DiffCell(p, n, c, e), last, e);
  }

  // ------------------------------------------------------------- rule states

  lemma {:induction false} StateFoldConcat(c: Cell<State>, a: seq<Op>, b: seq<Op>, key: BucketKey)
    ensures StateFold(c, a + b, key) == StateFold(StateFold(c, a, key), b, key)
    decreases |b|
  {
    if b == [] {
      assert a + b == a;
    } else {
      StateFoldConcat(c, a, b[..|b| - 1], key);
      assert (a + b)[..|a + b| - 1] == a + b[..|b| - 1];
    }
  }

  lemma StateFoldOne(c: Cell<State>, a: seq<Op>, op: Op, key: BucketKey)
    ensures StateFold(c, a + [op], key) == StateStep(StateFold(c, a, key), op, key)
  {
    assert (a + [op])[..|a|] == a;
  }

  lemma StateFoldNothing(c: Cell<State>, key: BucketKey)
    ensures StateFold(c, [], key) == c
  {
  }

  lemma {:induction false} MatchOpsKeepStates(
      c: Cell<State>, es: seq<Entry>, f: Entry -> Option<Op>, key: BucketKey)
    requires forall e :: f(e).Some? ==> f(e).value.UpsertMatch? || f(e).value.RemoveMatch?
    ensures StateFold(c, Mapped(es, f), key) == c
  {
    hide StateFold;
    if es == [] {
      StateFoldNothing(c, key);
    } else {
      var less, e := es[..|es| - 1], es[|es| - 1];
      MatchOpsKeepStates(c, less, f, key);
      if f(e).Some? {
        StateFoldOne(c, Mapped(less, f), f(e).value, key);
      }
    }
  }

  ghost predicate HasKey(ss: seq<State>, key: BucketKey) {
    exists s :: s in ss && s.key == key
  }

  lemma LastKey(less: seq<State>, s: State, key: BucketKey)
    requires forall i, j :: 0 <= i < j < |less + [s]| ==> (less + [s])[i].key != (less + [s])[j].key
    ensures !HasKey(less, s.key) && (HasKey(less + [s], key) <==> HasKey(less, key) || s.key == key)
  {
    forall x | x in less
      ensures x.key != s.key
    {
      var i :| 0 <= i < |less| && less[i] == x;
      assert (less + [s])[i] == x && (less + [s])[|less|] == s;
    }
    assert s in less + [s];
    if HasKey(less + [s], key) {
      var x :| x in less + [s] && x.key == key;
      assert x in less || x == s;
    }
    if HasKey(less, key) {
      var x :| x in less && x.key == key;
      assert x in less + [s];
    }
  }

  lemma {:induction false} DropsGive(c: Cell<State>, ss: seq<State>, key: BucketKey)
    requires forall i, j :: 0 <= i < j < |ss| ==> ss[i].key != ss[j].key
    ensures StateFold(c, Mapped(ss, Dropping()), key) == if HasKey(ss, key) then Give(c) else c
  {
    hide StateFold, HasKey;
    if ss == [] {
      StateFoldNothing(c, key);
      assert !HasKey(ss, key) by { NoKeys(key); }
    } else {
      var less, s := ss[..|ss| - 1], ss[|ss| - 1];
      assert ss == less + [s];
      LastKey(less, s, key);
      DropsGive(c, less, key);
      StateFoldOne(c, Mapped(less, Dropping()), RemoveState(s.key), key);
    }
  }

  lemma NoKeys(key: BucketKey)
    ensures !HasKey([], key)
  {
  }

  lemma {:induction false} StoresPut(c: Cell<State>, ss: seq<State>, before: Option<Rule>, s: State)
    requires forall i, j :: 0 <= i < j < |ss| ==> ss[i].key != ss[j].key
    ensures HasKey(ss, s.key) ==> s in ss ==>
      StateFold(c, Mapped(ss, Storing(before)), s.key) == if StateUnchanged(before, s) then c else Put(c, s)
    ensures !HasKey(ss, s.key) ==> StateFold(c, Mapped(ss, Storing(before)), s.key) == c
    ensures !c.refused ==> !StateFold(c, Mapped(ss, Storing(before)), s.key).refused
  {
    hide StateFold, HasKey, StateUnchanged;
    if ss == [] {
      StateFoldNothing(c, s.key);
    } else {
      var less, x := ss[..|ss| - 1], ss[|ss| - 1];
      assert ss == less + [x];
      LastKey(less, x, s.key);
      StoresPut(c, less, before, s);
      InKeys(less, s);
      if !StateUnchanged(before, x) {
        StateFoldOne(c, Mapped(less, Storing(before)), UpsertState(x), s.key);
      }
    }
  }

  lemma InKeys(ss: seq<State>, s: State)
    ensures s in ss ==> HasKey(ss, s.key)
  {
  }

  lemma LeavingStates(c: Cell<State>, r: Rule, key: BucketKey)
    requires ProperRule(r)
    ensures StateFold(c, LeavingOps(r), key) == if HasKey(r.states, key) then Give(c) else c
  {
    hide StateFold, Mapped, HasKey;
    StateFoldConcat(c, Mapped(r.matches, Removing()), Mapped(r.states, Dropping()), key);
    MatchOpsKeepStates(c, r.matches, Removing(), key);
    DropsGive(c, r.states, key);
  }

  lemma RuleStates(c: Cell<State>, before: Option<Rule>, r: Rule, s: State)
    requires ProperRule(r)
    ensures s in r.states ==>
      StateFold(c, RuleOps(before, r), s.key) == if StateUnchanged(before, s) then c else Put(c, s)
    ensures s.key.rule != r.id ==> StateFold(c, RuleOps(before, r), s.key) == c
    ensures !c.refused ==> !StateFold(c, RuleOps(before, r), s.key).refused
  {
    hide StateFold, Mapped, StateUnchanged, MatchUnchanged, HasKey;
    var stores, matches := Mapped(r.states, Storing(before)), Mapped(r.matches, Matching(before, r));
    StateFoldConcat(c, stores, matches, s.key);
    StoresPut(c, r.states, before, s);
    InKeys(r.states, s);
    OwnKeys(r, s.key);
    MatchOpsKeepStates(StateFold(c, stores, s.key), r.matches, Matching(before, r), s.key);
    if before.Some? {
      var stale := Mapped(before.value.matches, Staling(r));
      StateFoldConcat(c, stores + matches, stale, s.key);
      MatchOpsKeepStates(StateFold(c, stores + matches, s.key), before.value.matches, Staling(r), s.key);
    } else {
      assert stores + matches + [] == stores + matches;
    }
  }

  lemma OwnKeys(r: Rule, key: BucketKey)
    requires ProperRule(r)
    ensures HasKey(r.states, key) ==> key.rule == r.id
  {
  }

  /** Some rule of the list declares a state for the key. */
  ghost predicate Declares(rules: seq<Rule>, key: BucketKey) {
    exists r :: r in rules && HasKey(r.states, key)
  }

  /** Removing leaving rules refuses no state, and touches none of a rule that stays. */
  lemma {:induction false} RemovedStates(c: Cell<State>, previous: seq<Rule>, next: seq<Rule>, n: nat, key: BucketKey)
    requires Proper(previous) && n <= |previous| && !c.refused && (Declares(previous, key) ==> c.value.Some?)
    ensures var z := StateFold(c, RemovedOps(previous[..n], next), key);
      && !z.refused && (RuleOf(next, key.rule).Some? ==> z == c)
      && ((forall j :: 0 <= j < n ==> previous[j].id != key.rule) ==> z == c)
    decreases n
  {
    hide StateFold, LeavingOps, RuleOf, HasKey;
    if n == 0 {
      StateFoldNothing(c, key);
    } else {
      var less, r := previous[..n - 1], previous[n - 1];
      assert previous[..n][..n - 1] == less && previous[..n][n - 1] == r && r in previous;
      RemovedStates(c, previous, next, n - 1, key);
      if RuleOf(next, r.id).None? {
        var b := StateFold(c, RemovedOps(less, next), key);
        StateFoldConcat(c, RemovedOps(less, next), LeavingOps(r), key);
        LeavingStates(b, r, key);
        OwnKeys(r, key);
      }
    }
  }

  lemma {:induction false} KeptStates(c: Cell<State>, previous: seq<Rule>, next: seq<Rule>, n: nat, s: State)
    requires Proper(next) && n <= |next|
    ensures var z := StateFold(c, KeptOps(previous, next[..n]), s.key);
      && (!c.refused ==> !z.refused)
      && ((forall j :: 0 <= j < n ==> next[j].id != s.key.rule) ==> z == c)
      && (forall j :: 0 <= j < n && s in next[j].states ==>
           z == if StateUnchanged(RuleOf(previous, next[j].id), s) then c else Put(c, s))
    decreases n
  {
    hide StateFold, RuleOps, RuleOf, StateUnchanged;
    if n == 0 {
      StateFoldNothing(c, s.key);
    } else {
      var less, r := next[..n - 1], next[n - 1];
      assert next[..n][..n - 1] == less && next[..n][n - 1] == r && r in next;
      KeptStates(c, previous, next, n - 1, s);
      var b := StateFold(c, KeptOps(previous, less), s.key);
      StateFoldConcat(c, KeptOps(previous, less), RuleOps(RuleOf(previous, r.id), r), s.key);
      RuleStates(b, RuleOf(previous, r.id), r, s);
      forall j | 0 <= j < n && s in next[j].states
        ensures next[j].id == s.key.rule
      {
        assert next[j] in next && ProperRule(next[j]);
      }
    }
  }

  lemma ConfigStates(c: Cell<State>, ops: seq<Op>, key: BucketKey)
    requires ops == [] || (|ops| == 1 && ops[0].SetEnabled?)
    ensures StateFold(c, ops, key) == c
  {
    if ops != [] {
      assert ops[..0] == [];
    }
  }

  /** The rates of the rules are in the kernel. */
  ghost predicate Rated(k: Kernel, rules: seq<Rule>) {
    forall r, s :: r in rules && s in r.states ==> s.key in k.states && k.states[s.key] == s
  }

  lemma DiffStates(k: Kernel, previous: Policy, next: Policy, s: State)
    requires Proper(previous.rules) && Proper(next.rules) && Rated(k, previous.rules)
    ensures var z := StateFold(StateCell(k, s.key), DiffOps(previous, next), s.key);
      !z.refused && ((exists r :: r in next.rules && s in r.states) ==> z.value == Some(s))
  {
    hide StateFold, RemovedOps, KeptOps, Proper, StateUnchanged;
    var p, n := previous.rules, next.rules;
    var c := StateCell(k, s.key);
    var first, removed, kept, last :=
      FirstOps(previous, next), RemovedOps(p, n), KeptOps(p, n), LastOps(previous, next);
    assert p[..|p|] == p && n[..|n|] == n;
    StateFoldConcat(c, first + removed + kept, last, s.key);
    StateFoldConcat(c, first + removed, kept, s.key);
    StateFoldConcat(c, first, removed, s.key);
    ConfigStates(c, first, s.key);
    RemovedStates(c, p, n, |p|, s.key);
    var b := StateFold(c, removed, s.key);
    KeptStates(b, p, n, |n|, s);
    ConfigStates(StateFold(b, kept, s.key), last, s.key);
    if r :| r in n && s in r.states {
      StateArrives(k, p, n, r, s);
      var j :| 0 <= j < |n| && n[j] == r;
      assert s in n[j].states;
    }
  }

  /** The state of a next rule: its rule is found by its id, and an unchanged state is there already. */
  lemma StateArrives(k: Kernel, p: seq<Rule>, n: seq<Rule>, r: Rule, s: State)
    requires Proper(n) && Rated(k, p) && r in n && s in r.states
    ensures RuleOf(n, s.key.rule).Some?
    ensures StateUnchanged(RuleOf(p, r.id), s) ==> StateCell(k, s.key).value == Some(s)
  {
    assert ProperRule(r);
    var before := RuleOf(p, r.id);
    if StateUnchanged(before, s) {
      var x := StateOf(before.value.states, s.key).value;
      assert before.value in p && x in before.value.states && x == s;
    }
  }

  // ------------------------------------------------------------- the outcome

  /**
   * From any kernel that holds the states of the previous program: the list is
   * refused exactly when the fate of some entry is, and otherwise the next rates
   * are in force and every entry meets its fate.
   */
  lemma OutcomeByFate(k: Kernel, previous: Policy, next: Policy)
    requires Proper(previous.rules) && Proper(next.rules) && !k.failed && Rated(k, previous.rules)
    ensures var z := RunOps(k, DiffOps(previous, next));
      && (z.failed <==> exists e :: DiffCell(previous.rules, next.rules, MatchCell(k, e), e).refused)
      && (!z.failed ==> Rated(z, next.rules))
      && (!z.failed ==> forall e :: MatchCell(z, e) == DiffCell(previous.rules, next.rules, MatchCell(k, e), e))
  {
    hide MatchFold, StateFold, DiffOps, DiffCell, Proper, RunOps, MatchCell, StateCell;
    var ops := DiffOps(previous, next);
    var z := RunOps(k, ops);
    RunDecided(k, ops);
    forall e
      ensures MatchFold(MatchCell(k, e), ops, e) == DiffCell(previous.rules, next.rules, MatchCell(k, e), e)
    {
      DiffFold(MatchCell(k, e), previous, next, e);
    }
    forall key
      ensures !StateFold(StateCell(k, key), ops, key).refused
    {
      DiffStates(k, previous, next, State(key, 0, 0));
    }
    if !z.failed {
      forall r, s | r in next.rules && s in r.states
        ensures s.key in z.states && z.states[s.key] == s
      {
        DiffStates(k, previous, next, s);
        CellHolds(z, s);
      }
    }
  }

  lemma CellHolds(k: Kernel, s: State)
    ensures StateCell(k, s.key).value == Some(s) ==> s.key in k.states && k.states[s.key] == s
  {
  }

  // ------------------------------------- what the next program needs of the two

  /** The last rule of the program that has the key: the one that the kernel refers to. */
  function OwnerAt(rules: seq<Rule>, x: MatchEntry): (i: Option<nat>)
    ensures i.Some? ==> i.value < |rules| && Names(rules[i.value].matches, x)
    ensures i.Some? ==> forall j :: i.value < j < |rules| ==> !Names(rules[j].matches, x)
    ensures i.None? ==> forall j :: 0 <= j < |rules| ==> !Names(rules[j].matches, x)
  {
    if rules == [] then None
    else if Names(rules[|rules| - 1].matches, x) then Some(|rules| - 1)
    else OwnerAt(rules[..|rules| - 1], x)
  }

  function OwnerRef(rules: seq<Rule>, x: MatchEntry): Option<RuleRef> {
    var i := OwnerAt(rules, x);
    if i.Some? then Some(RefOf(rules[i.value])) else None
  }

  /** The kernel runs exactly this program: a shared key belongs to the last rule that has it. */
  ghost predicate Realises(k: Kernel, rules: seq<Rule>) {
    !k.failed && Rated(k, rules) && forall x :: MatchCell(k, x).value == OwnerRef(rules, x)
  }

  predicate Touches(previous: seq<Rule>, next: seq<Rule>, j: nat, x: MatchEntry)
    requires j < |next|
  {
    Given(previous, next, j, x) > 0 || Takes(previous, next, j, x)
  }

  /** The last of the first `n` next rules that gives the key up or takes it. */
  function LastTouch(previous: seq<Rule>, next: seq<Rule>, n: nat, x: MatchEntry): (t: Option<nat>)
    requires n <= |next|
    ensures t.Some? ==> t.value < n && Touches(previous, next, t.value, x)
    ensures t.Some? ==> forall j :: t.value < j < n ==> !Touches(previous, next, j, x)
    ensures t.None? ==> forall j :: 0 <= j < n ==> !Touches(previous, next, j, x)
  {
    if n == 0 then None
    else if Touches(previous, next, n - 1, x) then Some(n - 1)
    else LastTouch(previous, next, n - 1, x)
  }

  predicate SomeLeaves(previous: seq<Rule>, next: seq<Rule>, n: nat, x: MatchEntry)
    requires n <= |previous|
  {
    exists a :: 0 <= a < n && Leaving(previous, next, a, x) > 0
  }

  /** Of the first `n` previous rules, two that leave have the key, or one has it twice. */
  predicate TwoLeave(previous: seq<Rule>, next: seq<Rule>, n: nat, x: MatchEntry)
    requires n <= |previous|
  {
    || (exists a :: 0 <= a < n && Leaving(previous, next, a, x) > 1)
    || (exists a, b :: 0 <= a < b < n && Leaving(previous, next, a, x) > 0 && Leaving(previous, next, b, x) > 0)
  }

  /** Nothing has the key once the first `n` next rules are written, though the previous program had it. */
  predicate GivenUp(previous: seq<Rule>, next: seq<Rule>, n: nat, x: MatchEntry)
    requires n <= |next|
  {
    var t := LastTouch(previous, next, n, x);
    if t.Some? then Given(previous, next, t.value, x) > 0 else SomeLeaves(previous, next, |previous|, x)
  }

  /** One of the first `n` next rules gives the key up twice, or when nothing has it. */
  predicate GivenUpAgain(previous: seq<Rule>, next: seq<Rule>, n: nat, x: MatchEntry)
    requires n <= |next|
  {
    exists j :: 0 <= j < n && Given(previous, next, j, x) > 0 && GivesAgain(previous, next, j, x)
  }

  predicate GivesAgain(previous: seq<Rule>, next: seq<Rule>, j: nat, x: MatchEntry)
    requires j < |next|
  {
    Given(previous, next, j, x) > 1 || (!Takes(previous, next, j, x) && GivenUp(previous, next, j, x))
  }

  /** The same key is given up twice, and nothing takes it in between. */
  predicate GivenUpTwice(previous: seq<Rule>, next: seq<Rule>, x: MatchEntry) {
    TwoLeave(previous, next, |previous|, x) || GivenUpAgain(previous, next, |next|, x)
  }

  predicate Untouched(previous: seq<Rule>, next: seq<Rule>, x: MatchEntry) {
    !SomeLeaves(previous, next, |previous|, x) && LastTouch(previous, next, |next|, x).None?
  }

  /**
   * The last next rule with the key takes it, and neither it nor a later rule
   * gives it up; or no rule does either, and that rule was the last one with the
   * key before.
   */
  predicate Arrives(previous: seq<Rule>, next: seq<Rule>, x: MatchEntry) {
    var last, former := OwnerAt(next, x), OwnerAt(previous, x);
    || last.None?
    || (LastTouch(previous, next, |next|, x) == last && Given(previous, next, last.value, x) == 0)
    || (Untouched(previous, next, x) && former.Some? && previous[former.value].id == next[last.value].id)
  }

  lemma OneMoreLeaves(previous: seq<Rule>, next: seq<Rule>, n: nat, x: MatchEntry)
    requires 0 < n <= |previous|
    ensures SomeLeaves(previous, next, n, x) <==>
      SomeLeaves(previous, next, n - 1, x) || Leaving(previous, next, n - 1, x) > 0
    ensures TwoLeave(previous, next, n, x) <==>
      TwoLeave(previous, next, n - 1, x) || Leaving(previous, next, n - 1, x) > 1
      || (SomeLeaves(previous, next, n - 1, x) && Leaving(previous, next, n - 1, x) > 0)
  {
    hide Leaving;
  }

  lemma NoneLeaves(previous: seq<Rule>, next: seq<Rule>, x: MatchEntry)
    ensures !SomeLeaves(previous, next, 0, x) && !TwoLeave(previous, next, 0, x)
  {
  }

  lemma {:induction false} LeavingDecides(previous: seq<Rule>, next: seq<Rule>, n: nat, x: MatchEntry)
    requires n <= |previous|
    ensures var c := LeaveCell(previous, next, n, Cell(OwnerRef(previous, x), false), x);
      && c.refused == TwoLeave(previous, next, n, x)
      && (c.refused || c.value == if SomeLeaves(previous, next, n, x) then None else OwnerRef(previous, x))
    decreases n
  {
    hide Leaving, OwnerRef, GiveTimes, SomeLeaves, TwoLeave;
    var owner := Cell(OwnerRef(previous, x), false);
    if n == 0 {
      NoneLeaves(previous, next, x);
    } else {
      OneMoreLeaves(previous, next, n, x);
      LeavingDecides(previous, next, n - 1, x);
      var c := LeaveCell(previous, next, n - 1, owner, x);
      var count := Leaving(previous, next, n - 1, x);
      if c.refused {
        RefusedStays(c, count);
      } else {
        GiveTimesIs(c, count);
        LeavingHad(previous, next, n - 1, x);
      }
    }
  }

  lemma RefusedStays<T>(c: Cell<T>, n: nat)
    requires c.refused
    ensures GiveTimes(c, n).refused
  {
  }

  lemma LeavingHad(previous: seq<Rule>, next: seq<Rule>, a: nat, x: MatchEntry)
    requires a < |previous|
    ensures Leaving(previous, next, a, x) > 0 ==> OwnerRef(previous, x).Some?
  {
    hide Removals, RuleOf;
    RemovalsFound(previous[a].matches, Removing(), x);
  }

  lemma GivenHad(previous: seq<Rule>, next: seq<Rule>, j: nat, x: MatchEntry)
    requires j < |next|
    ensures Given(previous, next, j, x) > 0 ==> OwnerRef(previous, x).Some?
  {
    hide Removals;
    var before := RuleOf(previous, next[j].id);
    if before.Some? {
      RemovalsFound(before.value.matches, Staling(next[j]), x);
    }
  }

  /** A cell is refused once a key is given up twice; before, it follows the last rule that touched it. */
  lemma {:induction false} TouchesDecide(previous: seq<Rule>, next: seq<Rule>, n: nat, x: MatchEntry)
    requires n <= |next|
    ensures var b := LeaveCell(previous, next, |previous|, Cell(OwnerRef(previous, x), false), x);
      var c := KeepCell(previous, next, n, b, x);
      var t := LastTouch(previous, next, n, x);
      && c.refused == (TwoLeave(previous, next, |previous|, x) || GivenUpAgain(previous, next, n, x))
      && (c.refused || c.value == (
            if GivenUp(previous, next, n, x) then None
            else if t.Some? then Some(RefOf(next[t.value]))
            else OwnerRef(previous, x)))
  {
    hide LeaveCell, Given, Takes, SomeLeaves, TwoLeave, OwnerRef, GiveTimes, GivesAgain;
    if n == 0 {
      LeavingDecides(previous, next, |previous|, x);
    } else {
      TouchesDecide(previous, next, n - 1, x);
      var b := LeaveCell(previous, next, |previous|, Cell(OwnerRef(previous, x), false), x);
      var c := KeepCell(previous, next, n - 1, b, x);
      var d := if Takes(previous, next, n - 1, x) then Put(c, RefOf(next[n - 1])) else c;
      GivesAgainIs(previous, next, n - 1, x);
      if c.refused {
        RefusedStays(d, Given(previous, next, n - 1, x));
      } else {
        GiveTimesIs(d, Given(previous, next, n - 1, x));
        GivenHad(previous, next, n - 1, x);
      }
    }
  }

  lemma GivesAgainIs(previous: seq<Rule>, next: seq<Rule>, j: nat, x: MatchEntry)
    requires j < |next|
    ensures GivesAgain(previous, next, j, x) <==>
      Given(previous, next, j, x) > 1 || (!Takes(previous, next, j, x) && GivenUp(previous, next, j, x))
  {
  }

  lemma StayersTouch(previous: seq<Rule>, next: seq<Rule>, o: nat, x: MatchEntry)
    requires Proper(previous) && o < |previous| && Names(previous[o].matches, x) && Untouched(previous, next, x)
    ensures OwnerAt(next, x).Some?
  {
    hide MatchUnchanged, Removals;
    var id := previous[o].id;
    var r := RuleOf(next, id);
    RemovalsFound(previous[o].matches, Removing(), x);
    assert Leaving(previous, next, o, x) == 0;
    if r.Some? {
      var j :| 0 <= j < |next| && next[j] == r.value;
      var before := RuleOf(previous, id);
      assert previous[o] in previous;
      SameRule(previous, before.value, previous[o]);
      assert !Touches(previous, next, j, x);
      RemovalsFound(previous[o].matches, Staling(next[j]), x);
    }
  }

  lemma UntakenWasThere(previous: seq<Rule>, next: seq<Rule>, n: nat, x: MatchEntry)
    requires Proper(previous) && n < |next| && Names(next[n].matches, x) && !Takes(previous, next, n, x)
    ensures var former := OwnerAt(previous, x);
      former.Some? && (previous[former.value].id == next[n].id ==> previous[former.value].action == next[n].action)
  {
    var before := RuleOf(previous, next[n].id).value;
    var former := OwnerAt(previous, x);
    assert before in previous;
    if former.Some? && previous[former.value].id == next[n].id {
      SameRule(previous, before, previous[former.value]);
    }
  }

  lemma SameId(rules: seq<Rule>, i: nat, j: nat)
    requires Proper(rules) && i < |rules| && j < |rules| && rules[i].id == rules[j].id
    ensures i == j
  {
  }

  lemma OwnerRefIs(rules: seq<Rule>, x: MatchEntry)
    ensures var o := OwnerAt(rules, x);
      OwnerRef(rules, x) == if o.Some? then Some(RefOf(rules[o.value])) else None
  {
  }

  lemma TakersHave(previous: seq<Rule>, next: seq<Rule>, j: nat, x: MatchEntry)
    requires j < |next| && Takes(previous, next, j, x)
    ensures Names(next[j].matches, x)
  {
  }

  lemma ArrivesIff(previous: seq<Rule>, next: seq<Rule>, x: MatchEntry)
    requires Proper(previous) && Proper(next)
    ensures var c := DiffCell(previous, next, Cell(OwnerRef(previous, x), false), x);
      && c.refused == GivenUpTwice(previous, next, x)
      && (c.refused || (c.value == OwnerRef(next, x) <==> Arrives(previous, next, x)))
  {
    hide LeaveCell, KeepCell, Proper, OwnerRef, SomeLeaves, TwoLeave, GivenUpAgain, OwnerAt, LastTouch;
    hide Given, Takes, Names;
    TouchesDecide(previous, next, |next|, x);
    var t, last, former := LastTouch(previous, next, |next|, x), OwnerAt(next, x), OwnerAt(previous, x);
    OwnerRefIs(previous, x);
    OwnerRefIs(next, x);
    if last.None? {
      if t.Some? && Takes(previous, next, t.value, x) {
        TakersHave(previous, next, t.value, x);
      }
      if Untouched(previous, next, x) && former.Some? {
        StayersTouch(previous, next, former.value, x);
      }
    } else if t.None? {
      assert !Touches(previous, next, last.value, x);
      UntakenWasThere(previous, next, last.value, x);
    } else if next[t.value].id == next[last.value].id {
      SameId(next, t.value, last.value);
    }
  }

  /**
   * From a kernel that runs the previous program: an operation is refused exactly
   * when a key is given up twice with no rule taking it in between; otherwise
   * every rule state has its next rates; and the kernel ends up running the next
   * program exactly when moreover each of its keys arrives.
   */
  lemma DiffRealisesIff(k: Kernel, previous: Policy, next: Policy)
    requires Proper(previous.rules) && Proper(next.rules) && Realises(k, previous.rules)
    ensures var z := RunOps(k, DiffOps(previous, next));
      && (z.failed <==> exists x :: GivenUpTwice(previous.rules, next.rules, x))
      && (z.failed || Rated(z, next.rules))
      && (Realises(z, next.rules) <==>
          forall x :: !GivenUpTwice(previous.rules, next.rules, x) && Arrives(previous.rules, next.rules, x))
      && (z.failed || forall x :: MatchCell(z, x).value == OwnerRef(next.rules, x) <==>
            Arrives(previous.rules, next.rules, x))
  {
    hide DiffCell, DiffOps, RunOps, Proper, OwnerRef, GivenUpTwice, Arrives, Rated;
    OutcomeByFate(k, previous, next);
    var z := RunOps(k, DiffOps(previous, next));
    forall x
      ensures var c := DiffCell(previous.rules, next.rules, MatchCell(k, x), x);
        && c.refused == GivenUpTwice(previous.rules, next.rules, x)
        && (c.refused || (c.value == OwnerRef(next.rules, x) <==> Arrives(previous.rules, next.rules, x)))
    {
      assert MatchCell(k, x) == Cell(OwnerRef(previous.rules, x), false);
      ArrivesIff(previous.rules, next.rules, x);
    }
    if !z.failed {
      forall x
        ensures MatchCell(z, x).value == OwnerRef(next.rules, x) <==> Arrives(previous.rules, next.rules, x)
      {
        assert MatchCell(z, x) == DiffCell(previous.rules, next.rules, MatchCell(k, x), x);
      }
    }
  }

  // ------------------------------------------------------ flags and what is left

  /** Every key in the kernel is one of the next program. */
  lemma KeysAreNext(k: Kernel, previous: Policy, next: Policy, x: MatchEntry)
    requires Proper(previous.rules) && Proper(next.rules) && Realises(k, previous.rules)
    ensures var z := RunOps(k, DiffOps(previous, next));
      !z.failed && x in z.matches ==> exists r :: r in next.rules && Names(r.matches, x)
  {
    hide DiffOps, RunOps, Proper, OwnerRef, Rated, LeaveCell, KeepCell,
      TwoLeave, GivenUpAgain, SomeLeaves, OwnerAt, Takes;
    hide Given, Names;
    var p, n := previous.rules, next.rules;
    OutcomeByFate(k, previous, next);
    TouchesDecide(p, n, |n|, x);
    var z := RunOps(k, DiffOps(previous, next));
    assert MatchCell(k, x) == Cell(OwnerRef(p, x), false);
    OwnerRefIs(p, x);
    if !z.failed && x in z.matches {
      assert MatchCell(z, x) == DiffCell(p, n, MatchCell(k, x), x);
      var t, former := LastTouch(p, n, |n|, x), OwnerAt(p, x);
      if t.Some? {
        TakersHave(p, n, t.value, x);
        assert n[t.value] in n;
      } else {
        StayersTouch(p, n, former.value, x);
        assert n[OwnerAt(n, x).value] in n;
      }
    }
  }

  /** After the list the kernel has the flags of the next program. */
  lemma FinalConfig(k: Kernel, previous: Policy, next: Policy)
    ensures var z := RunOps(k, DiffOps(previous, next));
      !z.failed ==>
        && z.config.enabled == next.enabled
        && (z.config.appRules <==> exists r, e :: r in next.rules && e in r.matches && e.key.IsApp())
        && (z.config.endpointRules <==> exists r, e :: r in next.rules && e in r.matches && !e.key.IsApp())
        && z.config.revision == if next.revision <= 0xFFFF_FFFF then next.revision else 0xFFFF_FFFF
  {
    hide RemovedOps, KeptOps, RunOps;
    var first, last := FirstOps(previous, next), LastOps(previous, next);
    var middle := RemovedOps(previous.rules, next.rules) + KeptOps(previous.rules, next.rules);
    NoConfigBetween(previous.rules, previous.rules, next.rules);
    NoConfigBetween(previous.rules, next.rules, next.rules);
    assert DiffOps(previous, next) == first + middle + last;
    RunConcat(k, first + middle, last);
    RunConcat(k, first, middle);
    ConfigStays(RunOps(k, first), middle);
    SetsConfig(k, first);
    SetsConfig(RunOps(k, first + middle), last);
    FailedConfig(RunOps(k, first), middle);
  }

  lemma SetsConfig(k: Kernel, ops: seq<Op>)
    requires ops == [] || (|ops| == 1 && ops[0].SetEnabled?)
    ensures RunOps(k, ops) == if ops == [] || k.failed then k else k.(config := ops[0].config)
  {
    if ops != [] {
      RunOne(k, [], ops[0]);
      assert ops == [] + [ops[0]] && RunOps(k, []) == k;
    }
  }

  lemma FailedConfig(k: Kernel, ops: seq<Op>)
    ensures k.failed ==> RunOps(k, ops).failed
  {
    if k.failed {
      FailedStays(k, ops);
    }
  }

  /**
   * After any list that runs to its end, and whatever became of single entries,
   * the flags of the kernel are off only for empty tiers: no entry that is there
   * and names a packet is skipped.
   */
  lemma NoRuleIsSkipped(
      k: Kernel, previous: Policy, next: Policy, t: RuleLookup.Tables, f: PacketParser.ParsedFlow, dir: Direction)
    requires Proper(previous.rules) && Proper(next.rules) && Realises(k, previous.rules) && next.enabled
    requires var z := RunOps(k, DiffOps(previous, next));
      && !z.failed && t.matches == z.matches
      && t.config == RuleLookup.PolicyConfig(z.config.enabled, z.config.appRules, z.config.endpointRules)
    ensures RuleLookup.ChooseRule(t, f, dir).None?
       <==> forall e :: e in t.matches ==> !RuleLookup.Applies(e, t, f, dir)
  {
    hide DiffOps, RunOps, Proper, Realises;
    FinalConfig(k, previous, next);
    forall x | x in t.matches
      ensures RuleLookup.TierOn(t.config, x)
    {
      KeysAreNext(k, previous, next, x);
      var r :| r in next.rules && Names(r.matches, x);
      var e :| e in r.matches && e.key == x;
    }
    RuleLookup.FlagsSkipNothing(t, f, dir);
  }

  // ------------------------------------------------- programs without shared keys

  /** Each key belongs to one entry of one rule. */
  ghost predicate Disjoint(rules: seq<Rule>) {
    && (forall i, j, x :: 0 <= i < j < |rules| && Names(rules[i].matches, x) ==> !Names(rules[j].matches, x))
    && (forall r :: r in rules ==> KeysDiffer(r.matches))
  }

  ghost predicate KeysDiffer(es: seq<Entry>) {
    forall i, j :: 0 <= i < j < |es| ==> es[i].key != es[j].key
  }

  /** The key moves from a rule that stays to a rule in front of it, or is spelled anew in its place. */
  predicate MovesForward(previous: seq<Rule>, next: seq<Rule>, x: MatchEntry) {
    exists i, j :: 0 <= i <= j < |next| && Names(next[i].matches, x) && Given(previous, next, j, x) > 0
  }

  lemma {:induction false} RemovedOnce(es: seq<Entry>, f: Entry -> Option<Op>, x: MatchEntry)
    requires KeysDiffer(es)
    ensures Removals(es, f, x) <= 1
  {
    if es != [] {
      var less := es[..|es| - 1];
      RemovedOnce(less, f, x);
      RemovalsFound(less, f, x);
    }
  }

  lemma OnlyOwner(rules: seq<Rule>, n: nat, x: MatchEntry)
    requires Disjoint(rules) && n < |rules| && Names(rules[n].matches, x)
    ensures forall i :: 0 <= i < |rules| && Names(rules[i].matches, x) ==> i == n
  {
  }

  ghost function GiverAt(rules: seq<Rule>, id: u32, x: MatchEntry): (o: nat)
    requires RuleOf(rules, id).Some? && Names(RuleOf(rules, id).value.matches, x)
    ensures o < |rules| && rules[o].id == id && rules[o] == RuleOf(rules, id).value
  {
    var o :| 0 <= o < |rules| && rules[o] == RuleOf(rules, id).value;
    o
  }

  /** Leaving rules that have the key, and the place of the rule that had it. */
  lemma LeavingIs(previous: seq<Rule>, next: seq<Rule>, a: nat, x: MatchEntry)
    requires Disjoint(previous) && a < |previous|
    ensures Leaving(previous, next, a, x) <= 1
    ensures Leaving(previous, next, a, x) > 0 ==> RuleOf(next, previous[a].id).None? && Names(previous[a].matches, x)
  {
    hide Removals;
    assert previous[a] in previous;
    RemovedOnce(previous[a].matches, Removing(), x);
    RemovalsFound(previous[a].matches, Removing(), x);
  }

  lemma GivenIs(previous: seq<Rule>, next: seq<Rule>, j: nat, x: MatchEntry)
    requires Disjoint(previous) && j < |next|
    ensures Given(previous, next, j, x) <= 1
    ensures var before := RuleOf(previous, next[j].id);
      Given(previous, next, j, x) > 0 ==> before.Some? && Names(before.value.matches, x)
  {
    hide Removals;
    var before := RuleOf(previous, next[j].id);
    if before.Some? {
      assert before.value in previous;
      RemovedOnce(before.value.matches, Staling(next[j]), x);
      RemovalsFound(before.value.matches, Staling(next[j]), x);
    }
  }

  lemma OneGiver(previous: seq<Rule>, next: seq<Rule>, j: nat, x: MatchEntry)
    requires Disjoint(previous) && Proper(next) && j < |next| && Given(previous, next, j, x) > 0
    ensures !SomeLeaves(previous, next, |previous|, x)
    ensures forall i :: 0 <= i < |next| && Given(previous, next, i, x) > 0 ==> i == j
    ensures forall i :: 0 <= i < |next| && i != j && Names(next[i].matches, x) ==> Takes(previous, next, i, x)
  {
    hide Leaving, Given, Disjoint, Proper, Names;
    GivenIs(previous, next, j, x);
    var o := GiverAt(previous, next[j].id, x);
    OnlyOwner(previous, o, x);
    forall a | 0 <= a < |previous|
      ensures Leaving(previous, next, a, x) == 0
    {
      LeavingIs(previous, next, a, x);
      assert next[j] in next;
    }
    forall i | 0 <= i < |next| && RuleOf(previous, next[i].id).Some?
      ensures Names(RuleOf(previous, next[i].id).value.matches, x) ==> i == j
    {
      if Names(RuleOf(previous, next[i].id).value.matches, x) {
        var b := GiverAt(previous, next[i].id, x);
        SameId(next, i, j);
      }
    }
    forall i | 0 <= i < |next| && Given(previous, next, i, x) > 0
      ensures i == j
    {
      GivenIs(previous, next, i, x);
    }
    forall i | 0 <= i < |next| && i != j && Names(next[i].matches, x)
      ensures Takes(previous, next, i, x)
    {
      NewKeyTaken(previous, next, i, x);
    }
  }

  lemma NewKeyTaken(previous: seq<Rule>, next: seq<Rule>, i: nat, x: MatchEntry)
    requires i < |next| && Names(next[i].matches, x)
    requires var before := RuleOf(previous, next[i].id); before.Some? ==> !Names(before.value.matches, x)
    ensures Takes(previous, next, i, x)
  {
    var e :| e in next[i].matches && e.key == x;
    assert !MatchUnchanged(RuleOf(previous, next[i].id), next[i], e);
  }

  lemma OneLeaves(previous: seq<Rule>, next: seq<Rule>, x: MatchEntry)
    requires Disjoint(previous)
    ensures !TwoLeave(previous, next, |previous|, x)
  {
    hide Leaving, Names;
    forall a | 0 <= a < |previous|
      ensures Leaving(previous, next, a, x) <= 1
      ensures Leaving(previous, next, a, x) > 0 ==> Names(previous[a].matches, x)
    {
      LeavingIs(previous, next, a, x);
    }
  }

  lemma NoneGivesAgain(previous: seq<Rule>, next: seq<Rule>, x: MatchEntry)
    requires Disjoint(previous) && Proper(next)
    ensures !GivenUpAgain(previous, next, |next|, x)
  {
    hide Leaving, Given, Takes, LastTouch, SomeLeaves, Disjoint, Proper;
    forall j | 0 <= j < |next| && Given(previous, next, j, x) > 0
      ensures !GivesAgain(previous, next, j, x)
    {
      GivenIs(previous, next, j, x);
      OneGiver(previous, next, j, x);
    }
  }

  /**
   * Between programs whose rules share no key nothing is refused, and a key fails
   * to arrive exactly when it moves from a rule that stays to a rule in front of
   * it, or is spelled anew in its place: it is inserted first and then removed.
   */
  lemma DisjointIff(previous: seq<Rule>, next: seq<Rule>, x: MatchEntry)
    requires Proper(previous) && Disjoint(previous) && Proper(next) && Disjoint(next)
    ensures !GivenUpTwice(previous, next, x)
    ensures Arrives(previous, next, x) <==> !MovesForward(previous, next, x)
  {
    hide RuleOf, Given, Takes, Disjoint, Proper, OwnerAt, LastTouch, Names, SomeLeaves, TwoLeave, GivenUpAgain;
    OneLeaves(previous, next, x);
    NoneGivesAgain(previous, next, x);
    if j :| 0 <= j < |next| && Given(previous, next, j, x) > 0 {
      OneGiver(previous, next, j, x);
      var last, t := OwnerAt(next, x), LastTouch(previous, next, |next|, x);
      assert Touches(previous, next, j, x);
      if last.Some? {
        OnlyOwner(next, last.value, x);
        assert last.value != j ==> Touches(previous, next, last.value, x);
        if Takes(previous, next, t.value, x) {
          TakersHave(previous, next, t.value, x);
        }
      }
    } else {
      NobodyGives(previous, next, x);
    }
  }

  lemma NobodyGives(previous: seq<Rule>, next: seq<Rule>, x: MatchEntry)
    requires Proper(previous) && Disjoint(previous) && Proper(next) && Disjoint(next)
    requires forall j :: 0 <= j < |next| ==> Given(previous, next, j, x) == 0
    ensures Arrives(previous, next, x)
  {
    hide RuleOf, LastTouch, Disjoint, Proper, OwnerAt, MatchUnchanged, Given, Takes, SomeLeaves, Names;
    var last, t := OwnerAt(next, x), LastTouch(previous, next, |next|, x);
    if last.Some? {
      OnlyOwner(next, last.value, x);
      if t.None? {
        assert !Touches(previous, next, last.value, x);
        KeptInPlace(previous, next, last.value, x);
      } else {
        TakersHave(previous, next, t.value, x);
      }
    }
  }

  lemma KeptInPlace(previous: seq<Rule>, next: seq<Rule>, n: nat, x: MatchEntry)
    requires Disjoint(previous) && n < |next|
    requires Names(next[n].matches, x) && !Takes(previous, next, n, x)
    ensures !SomeLeaves(previous, next, |previous|, x)
    ensures var former := OwnerAt(previous, x); former.Some? && previous[former.value].id == next[n].id
  {
    hide Disjoint, Leaving;
    assert RuleOf(previous, next[n].id).Some? && Names(RuleOf(previous, next[n].id).value.matches, x);
    var o := GiverAt(previous, next[n].id, x);
    OnlyOwner(previous, o, x);
    assert next[n] in next;
    forall a | 0 <= a < |previous|
      ensures Leaving(previous, next, a, x) == 0
    {
      LeavingIs(previous, next, a, x);
    }
  }

  // ------------------------------------------------------------ failing updates

  function OneRule(id: u32, e: Entry): Rule {
    Rule(id, Block, [e], [State(BucketKey(id, Outbound), 0, 0)])
  }

  lemma TwoRules(a: Entry, b: Entry)
    requires a.key.direction == Outbound && b.key.direction == Outbound
    ensures var x, y := OneRule(1, a), OneRule(2, b);
      && Proper([x, y]) && Proper([x])
      && RuleOf([x, y], 1) == Some(x) && RuleOf([x, y], 2) == Some(y)
      && RuleOf([x], 1) == Some(x) && RuleOf([x], 2) == None
  {
    var x, y := OneRule(1, a), OneRule(2, b);
    assert [x, y][1..] == [y] && [x][1..] == [];
    assert x.states[0] in x.states && y.states[0] in y.states;
    assert ProperRule(x) && ProperRule(y);
  }

  lemma OneEntry(e: Entry, f: Entry -> Option<Op>, x: MatchEntry)
    ensures Removals([e], f, x) == if e.key == x && f(e).Some? then 1 else 0
    ensures Names([e], x) <==> e.key == x
  {
    assert [e][..0] == [] && Removals([], f, x) == 0;
    assert e in [e];
  }

  lemma OneGives(previous: seq<Rule>, next: seq<Rule>, j: nat, e: Entry, x: MatchEntry)
    requires j < |next| && RuleOf(previous, next[j].id).Some? && RuleOf(previous, next[j].id).value.matches == [e]
    ensures Given(previous, next, j, x) == if e.key == x && e !in next[j].matches then 1 else 0
  {
    hide Removals, RuleOf;
    OneEntry(e, Staling(next[j]), x);
  }

  /** What is given up last is gone, unless the list is refused. */
  lemma GivenUpIsGone(k: Kernel, previous: Policy, next: Policy, x: MatchEntry)
    requires Proper(previous.rules) && Proper(next.rules) && Realises(k, previous.rules)
    requires GivenUp(previous.rules, next.rules, |next.rules|, x)
    ensures var z := RunOps(k, DiffOps(previous, next)); !z.failed ==> x !in z.matches
  {
    hide DiffOps, RunOps, Proper, OwnerRef, GivenUp, Rated, LeaveCell, KeepCell, TwoLeave, GivenUpAgain;
    OutcomeByFate(k, previous, next);
    TouchesDecide(previous.rules, next.rules, |next.rules|, x);
    var z := RunOps(k, DiffOps(previous, next));
    assert MatchCell(k, x) == Cell(OwnerRef(previous.rules, x), false);
    if !z.failed {
      assert MatchCell(z, x) == DiffCell(previous.rules, next.rules, MatchCell(k, x), x);
    }
  }

  lemma DisjointRules(x: Entry, y: Entry)
    ensures x.key != y.key ==> Disjoint([OneRule(1, x), OneRule(2, y)])
    ensures Disjoint([OneRule(1, x)])
  {
    var rules := [OneRule(1, x), OneRule(2, y)];
    assert rules[0].matches == [x] && rules[1].matches == [y];
  }

  /** A list between programs without shared keys runs to its end. */
  lemma DisjointRuns(k: Kernel, previous: Policy, next: Policy)
    requires Proper(previous.rules) && Disjoint(previous.rules) && Proper(next.rules) && Disjoint(next.rules)
    requires Realises(k, previous.rules)
    ensures !RunOps(k, DiffOps(previous, next)).failed
  {
    hide DiffOps, RunOps, Proper, Disjoint, Realises, GivenUpTwice, Arrives;
    DiffRealisesIff(k, previous, next);
    forall x
      ensures !GivenUpTwice(previous.rules, next.rules, x)
    {
      DisjointIff(previous.rules, next.rules, x);
    }
  }

  /** Two rules swap their entries: nothing is refused, and the one that moves to the first rule is lost. */
  lemma SwappedEntryIsLost(k: Kernel, x: Entry, y: Entry)
    requires x.key != y.key && x.key.direction == Outbound && y.key.direction == Outbound
    requires Realises(k, [OneRule(1, x), OneRule(2, y)])
    ensures var z := RunOps(k, DiffOps(Policy(1, true, [OneRule(1, x), OneRule(2, y)]),
                                       Policy(2, true, [OneRule(1, y), OneRule(2, x)])));
      !z.failed && y.key !in z.matches
  {
    hide RunOps, DiffOps, RuleOf, Given, Takes, Disjoint, Proper;
    var p, n := [OneRule(1, x), OneRule(2, y)], [OneRule(1, y), OneRule(2, x)];
    TwoRules(x, y);
    TwoRules(y, x);
    DisjointRules(x, y);
    DisjointRules(y, x);
    DisjointRuns(k, Policy(1, true, p), Policy(2, true, n));
    OneGives(p, n, 1, y, y.key);
    assert LastTouch(p, n, 2, y.key) == Some(1);
    GivenUpIsGone(k, Policy(1, true, p), Policy(2, true, n), y.key);
  }

  /** A rule spells its CIDR entry with other host bits: the entry is lost. */
  lemma RespelledEntryIsLost(k: Kernel, x: Entry, y: Entry)
    requires x != y && x.key == y.key && x.key.direction == Outbound && Realises(k, [OneRule(1, x)])
    ensures var z := RunOps(k, DiffOps(Policy(1, true, [OneRule(1, x)]), Policy(2, true, [OneRule(1, y)])));
      !z.failed && y.key !in z.matches
  {
    hide RunOps, DiffOps, RuleOf, Given, Takes, Disjoint, Proper;
    var p, n := [OneRule(1, x)], [OneRule(1, y)];
    TwoRules(x, x);
    TwoRules(y, y);
    DisjointRules(x, x);
    DisjointRules(y, y);
    DisjointRuns(k, Policy(1, true, p), Policy(2, true, n));
    OneGives(p, n, 0, x, y.key);
    assert LastTouch(p, n, 1, y.key) == Some(0);
    GivenUpIsGone(k, Policy(1, true, p), Policy(2, true, n), y.key);
  }

  lemma SharedLeaves(e: Entry, x: MatchEntry)
    requires e.key.direction == Outbound
    ensures var p, n := [OneRule(1, e), OneRule(2, e)], [OneRule(1, e)];
      && !GivenUpTwice(p, n, x) && (x == e.key ==> GivenUp(p, n, 1, x))
  {
    hide RuleOf, Removals;
    var p, n := [OneRule(1, e), OneRule(2, e)], [OneRule(1, e)];
    TwoRules(e, e);
    OneGives(p, n, 0, e, x);
    OneEntry(e, Removing(), x);
    assert Leaving(p, n, 0, x) == 0 && Leaving(p, n, 1, x) == if x == e.key then 1 else 0;
    assert !Takes(p, n, 0, x);
    assert LastTouch(p, n, 1, x) == LastTouch(p, n, 0, x) == None;
  }

  /** Two rules share an entry and the later one leaves: the entry is lost, though the other rule still has it. */
  lemma SharedEntryIsLost(k: Kernel, e: Entry)
    requires e.key.direction == Outbound && Realises(k, [OneRule(1, e), OneRule(2, e)])
    ensures var z := RunOps(k,
      DiffOps(Policy(1, true, [OneRule(1, e), OneRule(2, e)]), Policy(2, true, [OneRule(1, e)])));
      !z.failed && e.key !in z.matches
  {
    hide RunOps, DiffOps, GivenUpTwice, GivenUp, Arrives, Proper, Realises;
    var p, n := [OneRule(1, e), OneRule(2, e)], [OneRule(1, e)];
    TwoRules(e, e);
    DiffRealisesIff(k, Policy(1, true, p), Policy(2, true, n));
    forall x
      ensures !GivenUpTwice(p, n, x)
    {
      SharedLeaves(e, x);
    }
    SharedLeaves(e, e.key);
    GivenUpIsGone(k, Policy(1, true, p), Policy(2, true, n), e.key);
  }

  /** Two rules share an entry and both leave: the second removal is refused. */
  lemma SharedEntryIsRefused(k: Kernel, e: Entry)
    requires e.key.direction == Outbound && Realises(k, [OneRule(1, e), OneRule(2, e)])
    ensures RunOps(k, DiffOps(Policy(1, true, [OneRule(1, e), OneRule(2, e)]), Policy(2, true, []))).failed
  {
    hide RunOps, DiffOps, Removals, Arrives, Realises, Proper;
    var p := [OneRule(1, e), OneRule(2, e)];
    TwoRules(e, e);
    assert Proper([]) by { NoRules(); }
    DiffRealisesIff(k, Policy(1, true, p), Policy(2, true, []));
    OneEntry(e, Removing(), e.key);
    assert Leaving(p, [], 0, e.key) == 1 && Leaving(p, [], 1, e.key) == 1;
    assert GivenUpTwice(p, [], e.key);
  }

  lemma NoRules()
    ensures Proper([])
  {
  }
}
