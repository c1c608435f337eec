/**
 * Replacing one compiled Traffic Rule program by another: the ordered list of
 * kernel-map operations, and what each prefix of it leaves in the maps.
 */
module PolicyDiff {
  import opened Common

  datatype State = State(key: BucketKey, rate: u64, burst: u64)
  /**
   * A compiled match entry: its key in the kernel, and for a CIDR entry the
   * address bits behind the prefix, which the kernel ignores and `diff` compares.
   */
  datatype Entry = Entry(key: MatchEntry, host: nat)

  /** Some entry of the list has this key. */
  predicate Names(es: seq<Entry>, x: MatchEntry) {
    exists e :: e in es && e.key == x
  }

  datatype Rule = Rule(id: u32, action: Action, matches: seq<Entry>, states: seq<State>)
  datatype Policy = Policy(revision: u64, enabled: bool, rules: seq<Rule>)
  datatype Config = Config(enabled: bool, appRules: bool, endpointRules: bool, revision: nat)

  datatype Op =
    | SetEnabled(config: Config)
    | UpsertState(state: State)
    | RemoveState(key: BucketKey)
    | UpsertMatch(entry: Entry, ref: RuleRef)
    | RemoveMatch(entry: Entry)

  // ------------------------------------------------------------- operations

  function RuleOf(rules: seq<Rule>, id: u32): (r: Option<Rule>)
    ensures r.Some? ==> r.value in rules && r.value.id == id
    ensures r.None? ==> forall x :: x in rules ==> x.id != id
  {
    if rules == [] then None else if rules[0].id == id then Some(rules[0]) else RuleOf(rules[1..], id)
  }

  function StateOf(states: seq<State>, key: BucketKey): (s: Option<State>)
    ensures s.Some? ==> s.value in states && s.value.key == key
  {
    if states == [] then None else if states[0].key == key then Some(states[0]) else StateOf(states[1..], key)
  }

  function ConfigOf(p: Policy, enabled: bool): Config {
    Config(enabled, exists r :: r in p.rules && exists e :: e in r.matches && e.key.IsApp(),
           exists r :: r in p.rules && exists e :: e in r.matches && !e.key.IsApp(), Min(p.revision, 0xFFFF_FFFF))
  }

  function Mapped<A>(xs: seq<A>, f: A -> Option<Op>): seq<Op> {
    if xs == [] then []
    else
      var before := Mapped(xs[..|xs| - 1], f);
      match f(xs[|xs| - 1])
      case None => before
      case Some(op) => before + [op]
  }

  function Removing(): Entry -> Option<Op> {
    (e: Entry) => Some(RemoveMatch(e))
  }

  function Dropping(): State -> Option<Op> {
    (s: State) => Some(RemoveState(s.key))
  }

  predicate StateUnchanged(before: Option<Rule>, s: State) {
    before.Some?
    && var known := StateOf(before.value.states, s.key);
       known.Some? && known.value.rate == s.rate && known.value.burst == s.burst
  }

  predicate MatchUnchanged(before: Option<Rule>, r: Rule, e: Entry) {
    before.Some? && before.value.action == r.action && e in before.value.matches
  }

  function Storing(before: Option<Rule>): State -> Option<Op> {
    (s: State) => if StateUnchanged(before, s) then None else Some(UpsertState(s))
  }

  function Matching(before: Option<Rule>, r: Rule): Entry -> Option<Op> {
    (e: Entry) => if MatchUnchanged(before, r, e) then None else Some(UpsertMatch(e, RuleRef(r.id, r.action)))
  }

  function Staling(r: Rule): Entry -> Option<Op> {
    (e: Entry) => if e in r.matches then None else Some(RemoveMatch(e))
  }

  /** Operations for a rule that leaves the program. */
  function LeavingOps(r: Rule): seq<Op> {
    Mapped(r.matches, Removing()) + Mapped(r.states, Dropping())
  }

  /** Operations for a rule of the next program: states, then new matches, then stale matches. */
  function RuleOps(before: Option<Rule>, r: Rule): seq<Op> {
    Mapped(r.states, Storing(before)) + Mapped(r.matches, Matching(before, r))
    + (if before.Some? then Mapped(before.value.matches, Staling(r)) else [])
  }

  function RemovedOps(rules: seq<Rule>, next: seq<Rule>): seq<Op> {
    if rules == [] then []
    else
      var before, r := RemovedOps(rules[..|rules| - 1], next), rules[|rules| - 1];
      if RuleOf(next, r.id).None? then before + LeavingOps(r) else before
  }

  function KeptOps(previous: seq<Rule>, rules: seq<Rule>): seq<Op> {
    if rules == [] then []
    else KeptOps(previous, rules[..|rules| - 1]) + RuleOps(RuleOf(previous, rules[|rules| - 1].id), rules[|rules| - 1])
  }

  function FirstOps(previous: Policy, next: Policy): seq<Op> {
    if previous.enabled && !next.enabled then [SetEnabled(ConfigOf(next, false))] else []
  }

  function LastOps(previous: Policy, next: Policy): seq<Op> {
    if previous.enabled && !next.enabled then [] else [SetEnabled(ConfigOf(next, next.enabled))]
  }

  function DiffOps(previous: Policy, next: Policy): seq<Op> {
    FirstOps(previous, next) + RemovedOps(previous.rules, next.rules)
      + KeptOps(previous.rules, next.rules) + LastOps(previous, next)
  }

  method PushAll<A>(operations: seq<Op>, xs: seq<A>, f: A -> Option<Op>) returns (r: seq<Op>)
    ensures r == operations + Mapped(xs, f)
  {
    r := operations;
    for i := 0 to |xs|
      invariant r == operations + Mapped(xs[..i], f)
    {
      assert xs[..i + 1][..i] == xs[..i];
      var op := f(xs[i]);
      if op.Some? {
        r := r + [op.value];
      }
    }
    assert xs[..|xs|] == xs;
  }

  method PushLeaving(operations: seq<Op>, rule: Rule) returns (r: seq<Op>)
    ensures r == operations + LeavingOps(rule)
  {
    r := PushAll(operations, rule.matches, Removing());
    r := PushAll(r, rule.states, Dropping());
  }

  method PushRule(operations: seq<Op>, before: Option<Rule>, rule: Rule) returns (r: seq<Op>)
    ensures r == operations + RuleOps(before, rule)
  {
    r := PushAll(operations, rule.states, Storing(before));
    r := PushAll(r, rule.matches, Matching(before, rule));
    if before.Some? {
      r := PushAll(r, before.value.matches, Staling(rule));
    }
  }

  method PushRemoved(operations: seq<Op>, previous: seq<Rule>, next: seq<Rule>) returns (r: seq<Op>)
    ensures r == operations + RemovedOps(previous, next)
  {
    hide RuleOf, LeavingOps;
    r := operations;
    for i := 0 to |previous|
      invariant r == operations + RemovedOps(previous[..i], next)
    {
      assert previous[..i + 1][..i] == previous[..i];
      if RuleOf(next, previous[i].id).None? {
        r := PushLeaving(r, previous[i]);
      }
    }
    assert previous[..|previous|] == previous;
  }

  method PushKept(operations: seq<Op>, previous: seq<Rule>, next: seq<Rule>) returns (r: seq<Op>)
    ensures r == operations + KeptOps(previous, next)
  {
    hide RuleOf, RuleOps;
    r := operations;
    for i := 0 to |next|
      invariant r == operations + KeptOps(previous, next[..i])
    {
      assert next[..i + 1][..i] == next[..i];
      r := PushRule(r, RuleOf(previous, next[i].id), next[i]);
    }
    assert next[..|next|] == next;
  }

  method Diff(previous: Policy, next: Policy) returns (operations: seq<Op>)
    ensures operations == DiffOps(previous, next)
  {
    hide ConfigOf, RemovedOps, KeptOps;
    var disabling := previous.enabled && !next.enabled;
    operations := [];
    if disabling {
      operations := operations + [SetEnabled(ConfigOf(next, false))];
    }
    operations := PushRemoved(operations, previous.rules, next.rules);
    operations := PushKept(operations, previous.rules, next.rules);
    if next.enabled || !disabling {
      operations := operations + [SetEnabled(ConfigOf(next, next.enabled))];
    }
  }

  // ------------------------------------------------------------------ kernel

  /** The kernel maps; `failed` once an operation was refused, after which none is applied. */
  datatype Kernel = Kernel(
      states: map<BucketKey, State>, matches: map<MatchEntry, RuleRef>, config: Config, failed: bool)

  function Step(k: Kernel, op: Op): Kernel {
    if k.failed then k
    else
      match op
      case SetEnabled(config) => k.(config := config)
      case UpsertState(s) => k.(states := k.states[s.key := s])
      case RemoveState(key) => if key in k.states then k.(states := k.states - {key}) else k.(failed := true)
      case UpsertMatch(e, ref) => k.(matches := k.matches[e.key := ref])
      case RemoveMatch(e) =>
        if e.key in k.matches then k.(matches := k.matches - {e.key}) else k.(failed := true)
  }

  function RunOps(k: Kernel, ops: seq<Op>): Kernel {
    if ops == [] then k else Step(RunOps(k, ops[..|ops| - 1]), ops[|ops| - 1])
  }

  lemma {:induction false} RunConcat(k: Kernel, a: seq<Op>, b: seq<Op>)
    ensures RunOps(k, a + b) == RunOps(RunOps(k, a), b)
    decreases |b|
  {
    if b == [] {
      assert a + b == a;
    } else {
      RunConcat(k, a, b[..|b| - 1]);
      assert (a + b)[..|a + b| - 1] == a + b[..|b| - 1];
    }
  }

  lemma RunOne(k: Kernel, a: seq<Op>, op: Op)
    ensures RunOps(k, a + [op]) == Step(RunOps(k, a), op)
  {
    assert (a + [op])[..|a|] == a;
  }

  /** The rule state a matched packet is charged to exists. */
  ghost predicate RefsLive(k: Kernel) {
    forall e :: e in k.matches ==> BucketKey(k.matches[e].rule, e.direction) in k.states
  }

  /** Every prefix of the operations leaves live references. */
  ghost predicate SafeRun(k: Kernel, ops: seq<Op>) {
    forall n :: 0 <= n <= |ops| ==> RefsLive(RunOps(k, ops[..n]))
  }

  lemma SafeConcat(k: Kernel, a: seq<Op>, b: seq<Op>)
    requires SafeRun(k, a) && SafeRun(RunOps(k, a), b)
    ensures SafeRun(k, a + b) && RunOps(k, a + b) == RunOps(RunOps(k, a), b)
  {
    RunConcat(k, a, b);
    forall n | 0 <= n <= |a + b|
      ensures RefsLive(RunOps(k, (a + b)[..n]))
    {
      if n <= |a| {
        assert (a + b)[..n] == a[..n];
      } else {
        assert (a + b)[..n] == a + b[..n - |a|];
        RunConcat(k, a, b[..n - |a|]);
      }
    }
  }

  lemma SafeOne(k: Kernel, a: seq<Op>, op: Op)
    requires SafeRun(k, a) && RefsLive(Step(RunOps(k, a), op))
    ensures SafeRun(k, a + [op])
  {
    RunOne(k, a, op);
    forall n | 0 <= n <= |a| + 1
      ensures RefsLive(RunOps(k, (a + [op])[..n]))
    {
      if n <= |a| {
        assert (a + [op])[..n] == a[..n];
      } else {
        assert (a + [op])[..n] == a + [op];
      }
    }
  }

  lemma SafeNothing(k: Kernel)
    requires RefsLive(k)
    ensures SafeRun(k, []) && RunOps(k, []) == k
  {
  }

  // ------------------------------------------------------------------ programs

  ghost predicate ProperRule(r: Rule) {
    && (forall s :: s in r.states ==> s.key.rule == r.id)
    && (forall i, j :: 0 <= i < j < |r.states| ==> r.states[i].key != r.states[j].key)
    && (forall e :: e in r.matches ==> exists s :: s in r.states && s.key.direction == e.key.direction)
  }

  /** A compiled program: distinct ids, and a state for every direction that a rule matches in. */
  ghost predicate Proper(rules: seq<Rule>) {
    && (forall r :: r in rules ==> ProperRule(r))
    && (forall i, j :: 0 <= i < j < |rules| ==> rules[i].id != rules[j].id)
  }

  /** Every match in the kernel is one of its rule's, and the states of all rules are there. */
  ghost predicate Holds(k: Kernel, rules: seq<Rule>) {
    && (forall e :: e in k.matches ==> exists r :: r in rules && r.id == k.matches[e].rule && Names(r.matches, e))
    && (forall r, s :: r in rules && s in r.states ==> s.key in k.states)
  }

  // ------------------------------------------------- references stay live

  ghost predicate FewerMatches(k: Kernel, z: Kernel) {
    (forall e :: e in z.matches ==> e in k.matches && z.matches[e] == k.matches[e]) && z.states == k.states
  }

  lemma {:induction false} RemovalsAreSafe(k: Kernel, es: seq<Entry>, f: Entry -> Option<Op>)
    requires RefsLive(k) && forall e :: f(e) == None || f(e) == Some(RemoveMatch(e))
    ensures SafeRun(k, Mapped(es, f))
    ensures var z := RunOps(k, Mapped(es, f));
      FewerMatches(k, z) && (!z.failed ==> forall e :: e in es && f(e).Some? ==> e.key !in z.matches)
  {
    hide RunOps, SafeRun;
    if es == [] {
      SafeNothing(k);
    } else {
      var less, e := es[..|es| - 1], es[|es| - 1];
      RemovalsAreSafe(k, less, f);
      assert es == less + [e];
      if f(e).Some? {
        RemovalKeepsLive(RunOps(k, Mapped(less, f)), e) by {
          SafeEnd(k, Mapped(less, f));
        }
        SafeOne(k, Mapped(less, f), RemoveMatch(e));
        RunOne(k, Mapped(less, f), RemoveMatch(e));
      }
    }
  }

  lemma RemovalKeepsLive(k: Kernel, e: Entry)
    requires RefsLive(k)
    ensures RefsLive(Step(k, RemoveMatch(e)))
  {
  }

  ghost predicate OnlyStatesOf(k: Kernel, z: Kernel, id: u32) {
    z.matches == k.matches && (forall key :: key in k.states && key.rule != id ==> key in z.states)
  }

  lemma DropKeepsLive(k: Kernel, key: BucketKey)
    requires RefsLive(k) && forall e :: e in k.matches ==> k.matches[e].rule != key.rule
    ensures RefsLive(Step(k, RemoveState(key)))
  {
  }

  /** States may go once no match refers to their rule. */
  lemma {:induction false} DropsAreSafe(k: Kernel, ss: seq<State>, id: u32)
    requires RefsLive(k) && (forall e :: e in k.matches ==> k.matches[e].rule != id)
    requires forall s :: s in ss ==> s.key.rule == id
    ensures SafeRun(k, Mapped(ss, Dropping())) && OnlyStatesOf(k, RunOps(k, Mapped(ss, Dropping())), id)
  {
    hide RunOps, SafeRun;
    if ss == [] {
      SafeNothing(k);
    } else {
      var less, s := ss[..|ss| - 1], ss[|ss| - 1];
      assert ss == less + [s];
      DropsAreSafe(k, less, id);
      var ops := Mapped(less, Dropping());
      DropKeepsLive(RunOps(k, ops), s.key) by {
        SafeEnd(k, ops);
      }
      SafeOne(k, ops, RemoveState(s.key));
      RunOne(k, ops, RemoveState(s.key));
    }
  }

  lemma FailedStays(k: Kernel, ops: seq<Op>)
    requires k.failed
    ensures RunOps(k, ops) == k
    decreases |ops|
  {
    if ops != [] {
      FailedStays(k, ops[..|ops| - 1]);
    }
  }

  lemma FailedIsSafe(k: Kernel, ops: seq<Op>)
    requires k.failed && RefsLive(k)
    ensures SafeRun(k, ops) && RunOps(k, ops) == k
  {
    forall n | 0 <= n <= |ops|
      ensures RunOps(k, ops[..n]) == k
    {
      FailedStays(k, ops[..n]);
    }
    assert ops[..|ops|] == ops;
  }

  ghost predicate MatchesFrom(k: Kernel, rules: seq<Rule>) {
    forall e :: e in k.matches ==> exists r :: r in rules && r.id == k.matches[e].rule && Names(r.matches, e)
  }

  ghost predicate StatesAt(k: Kernel, rules: seq<Rule>) {
    forall r, s :: r in rules && s in r.states ==> s.key in k.states
  }

  lemma LeavingIsSafe(k: Kernel, previous: seq<Rule>, r: Rule)
    requires RefsLive(k) && MatchesFrom(k, previous) && Proper(previous) && r in previous
    ensures SafeRun(k, LeavingOps(r))
    ensures var z := RunOps(k, LeavingOps(r));
      MatchesFrom(z, previous) && forall key :: key in k.states && key.rule != r.id ==> key in z.states
  {
    var removals, drops := Mapped(r.matches, Removing()), Mapped(r.states, Dropping());
    RemovalsAreSafe(k, r.matches, Removing());
    var mid := RunOps(k, removals);
    assert RefsLive(mid) by { assert removals[..|removals|] == removals; }
    if mid.failed {
      FailedIsSafe(mid, drops);
    } else {
      forall e | e in mid.matches
        ensures mid.matches[e].rule != r.id
      {
        var x :| x in previous && x.id == k.matches[e].rule && Names(x.matches, e);
        if x.id == r.id {
          SameRule(previous, x, r);
        }
      }
      DropsAreSafe(mid, r.states, r.id);
    }
    SafeConcat(k, removals, drops);
  }

  lemma SameRule(rules: seq<Rule>, x: Rule, y: Rule)
    requires Proper(rules) && x in rules && y in rules && x.id == y.id
    ensures x == y
  {
    var i :| 0 <= i < |rules| && rules[i] == x;
    var j :| 0 <= j < |rules| && rules[j] == y;
  }

  lemma {:induction false} RemovedIsSafe(k: Kernel, previous: seq<Rule>, rules: seq<Rule>, next: seq<Rule>)
    requires RefsLive(k) && MatchesFrom(k, previous) && Proper(previous) && forall r :: r in rules ==> r in previous
    ensures SafeRun(k, RemovedOps(rules, next))
    ensures var z := RunOps(k, RemovedOps(rules, next));
      MatchesFrom(z, previous) && forall key :: key in k.states && RuleOf(next, key.rule).Some? ==> key in z.states
    decreases |rules|
  {
    hide RefsLive, MatchesFrom, Proper, RuleOf, LeavingOps;
    if rules == [] {
      SafeNothing(k);
    } else {
      var less, r := rules[..|rules| - 1], rules[|rules| - 1];
      assert rules == less + [r];
      RemovedIsSafe(k, previous, less, next);
      var ops := RemovedOps(less, next);
      if RuleOf(next, r.id).None? {
        SafeEnd(k, ops);
        LeavingIsSafe(RunOps(k, ops), previous, r);
        SafeConcat(k, ops, LeavingOps(r));
      }
    }
  }

  lemma SafeEnd(k: Kernel, ops: seq<Op>)
    requires SafeRun(k, ops)
    ensures RefsLive(RunOps(k, ops))
  {
    assert ops[..|ops|] == ops;
  }

  lemma {:induction false} StoresAreSafe(k: Kernel, ss: seq<State>, before: Option<Rule>)
    requires RefsLive(k)
    ensures SafeRun(k, Mapped(ss, Storing(before)))
    ensures var z := RunOps(k, Mapped(ss, Storing(before)));
      z.matches == k.matches && z.failed == k.failed && k.states.Keys <= z.states.Keys
      && (!k.failed ==> forall s :: s in ss && !StateUnchanged(before, s) ==> s.key in z.states)
  {
    hide StateUnchanged, RunOps, SafeRun;
    if ss == [] {
      SafeNothing(k);
    } else {
      var less, s := ss[..|ss| - 1], ss[|ss| - 1];
      assert ss == less + [s];
      StoresAreSafe(k, less, before);
      if !StateUnchanged(before, s) {
        SafeEnd(k, Mapped(less, Storing(before)));
        SafeOne(k, Mapped(less, Storing(before)), UpsertState(s));
        RunOne(k, Mapped(less, Storing(before)), UpsertState(s));
      }
    }
  }

  lemma {:induction false} MatchesAreSafe(k: Kernel, es: seq<Entry>, before: Option<Rule>, r: Rule)
    requires RefsLive(k) && forall e :: e in es ==> BucketKey(r.id, e.key.direction) in k.states
    ensures SafeRun(k, Mapped(es, Matching(before, r)))
    ensures var z := RunOps(k, Mapped(es, Matching(before, r))); z.states == k.states && z.failed == k.failed
  {
    hide MatchUnchanged, RunOps, SafeRun;
    if es == [] {
      SafeNothing(k);
    } else {
      var less, e := es[..|es| - 1], es[|es| - 1];
      assert es == less + [e];
      MatchesAreSafe(k, less, before, r);
      if !MatchUnchanged(before, r, e) {
        SafeEnd(k, Mapped(less, Matching(before, r)));
        SafeOne(k, Mapped(less, Matching(before, r)), UpsertMatch(e, RuleRef(r.id, r.action)));
        RunOne(k, Mapped(less, Matching(before, r)), UpsertMatch(e, RuleRef(r.id, r.action)));
      }
    }
  }

  lemma RuleIsSafe(k: Kernel, before: Option<Rule>, r: Rule)
    requires RefsLive(k) && ProperRule(r)
    requires before.Some? ==> forall s :: s in before.value.states ==> s.key in k.states
    ensures SafeRun(k, RuleOps(before, r)) && k.states.Keys <= RunOps(k, RuleOps(before, r)).states.Keys
  {
    hide RefsLive, Mapped, StateUnchanged;
    var stores, matches := Mapped(r.states, Storing(before)), Mapped(r.matches, Matching(before, r));
    var stale := if before.Some? then Mapped(before.value.matches, Staling(r)) else [];
    if k.failed {
      FailedIsSafe(k, stores + matches + stale);
      return;
    }
    StoresAreSafe(k, r.states, before);
    var z := RunOps(k, stores);
    SafeEnd(k, stores);
    StatesThere(k, before, r, z);
    MatchesAreSafe(z, r.matches, before, r);
    SafeConcat(k, stores, matches);
    SafeEnd(k, stores + matches);
    var y := RunOps(k, stores + matches);
    if before.Some? {
      RemovalsAreSafe(y, before.value.matches, Staling(r));
    } else {
      SafeNothing(y);
    }
    SafeConcat(k, stores + matches, stale);
  }

  lemma StatesThere(k: Kernel, before: Option<Rule>, r: Rule, z: Kernel)
    requires ProperRule(r) && k.states.Keys <= z.states.Keys
    requires before.Some? ==> forall s :: s in before.value.states ==> s.key in k.states
    requires forall s :: s in r.states && !StateUnchanged(before, s) ==> s.key in z.states
    ensures forall e :: e in r.matches ==> BucketKey(r.id, e.key.direction) in z.states
  {
    forall e | e in r.matches
      ensures BucketKey(r.id, e.key.direction) in z.states
    {
      var s :| s in r.states && s.key.direction == e.key.direction;
      assert s.key == BucketKey(r.id, e.key.direction);
    }
  }

  lemma {:induction false} KeptIsSafe(k: Kernel, previous: seq<Rule>, rules: seq<Rule>)
    requires RefsLive(k) && forall r :: r in rules ==> ProperRule(r)
    requires forall r, s :: r in rules && RuleOf(previous, r.id).Some? && s in RuleOf(previous, r.id).value.states ==>
      s.key in k.states
    ensures SafeRun(k, KeptOps(previous, rules)) && k.states.Keys <= RunOps(k, KeptOps(previous, rules)).states.Keys
    decreases |rules|
  {
    hide RefsLive, ProperRule, RuleOps, RuleOf;
    if rules == [] {
      SafeNothing(k);
    } else {
      var less, r := rules[..|rules| - 1], rules[|rules| - 1];
      assert rules == less + [r];
      KeptIsSafe(k, previous, less);
      var ops := KeptOps(previous, less);
      SafeEnd(k, ops);
      RuleIsSafe(RunOps(k, ops), RuleOf(previous, r.id), r);
      SafeConcat(k, ops, RuleOps(RuleOf(previous, r.id), r));
    }
  }

  lemma ConfigIsSafe(k: Kernel, ops: seq<Op>)
    requires RefsLive(k) && (ops == [] || (|ops| == 1 && ops[0].SetEnabled?))
    ensures SafeRun(k, ops)
    ensures var z := RunOps(k, ops); z.matches == k.matches && z.states == k.states && z.failed == k.failed
  {
    SafeNothing(k);
    if ops != [] {
      SafeOne(k, [], ops[0]);
      RunOne(k, [], ops[0]);
      assert ops == [] + [ops[0]];
    }
  }

  /**
   * After every operation of the list, even when one is refused and the rest is
   * dropped, each match entry in the kernel refers to a rule state that exists.
   * The states of a rule that stays are never removed, also for a direction that
   * it no longer matches.
   */
  lemma ReferencesStayLive(k: Kernel, previous: Policy, next: Policy)
    requires Proper(previous.rules) && Proper(next.rules) && Holds(k, previous.rules) && RefsLive(k)
    ensures SafeRun(k, DiffOps(previous, next))
    ensures forall r, s :: r in previous.rules && RuleOf(next.rules, r.id).Some? && s in r.states ==>
      s.key in RunOps(k, DiffOps(previous, next)).states
  {
    hide RefsLive, RemovedOps, KeptOps, ProperRule, SafeRun;
    var first, removed, kept, last := FirstOps(previous, next), RemovedOps(previous.rules, next.rules),
      KeptOps(previous.rules, next.rules), LastOps(previous, next);
    ConfigIsSafe(k, first);
    var a := RunOps(k, first);
    SafeEnd(k, first);
    RemovedIsSafe(a, previous.rules, previous.rules, next.rules);
    SafeConcat(k, first, removed);
    var b := RunOps(a, removed);
    SafeEnd(a, removed);
    KeptStatesThere(a, b, previous.rules, next.rules);
    KeptIsSafe(b, previous.rules, next.rules);
    SafeConcat(k, first + removed, kept);
    var c := RunOps(b, kept);
    SafeEnd(b, kept);
    ConfigIsSafe(c, last);
    SafeConcat(k, first + removed + kept, last);
    forall r, s | r in previous.rules && RuleOf(next.rules, r.id).Some? && s in r.states
      ensures s.key in RunOps(k, DiffOps(previous, next)).states
    {
      assert ProperRule(r);
      KeyIsOfRule(r, s);
      assert s.key in a.states && s.key in b.states;
    }
  }

  lemma KeyIsOfRule(r: Rule, s: State)
    requires ProperRule(r) && s in r.states
    ensures s.key.rule == r.id
  {
  }

  lemma KeptStatesThere(a: Kernel, b: Kernel, previous: seq<Rule>, next: seq<Rule>)
    requires Proper(previous) && StatesAt(a, previous)
    requires forall key :: key in a.states && RuleOf(next, key.rule).Some? ==> key in b.states
    ensures forall r, s :: r in next && RuleOf(previous, r.id).Some? && s in RuleOf(previous, r.id).value.states ==>
      s.key in b.states
  {
    forall r, s | r in next && RuleOf(previous, r.id).Some? && s in RuleOf(previous, r.id).value.states
      ensures s.key in b.states
    {
      var x := RuleOf(previous, r.id).value;
      assert x in previous && ProperRule(x) && s.key.rule == r.id;
      assert RuleOf(next, r.id).Some?;
    }
  }

  // -------------------------------------------------------------- config order

  lemma {:induction false} ConfigStays(k: Kernel, ops: seq<Op>)
    requires forall op :: op in ops ==> !op.SetEnabled?
    ensures RunOps(k, ops).config == k.config
  {
    if ops != [] {
      assert ops[|ops| - 1] in ops;
      ConfigStays(k, ops[..|ops| - 1]);
    }
  }

  lemma {:induction false} NoConfigMapped<A(!new)>(xs: seq<A>, f: A -> Option<Op>)
    requires forall x :: f(x).Some? ==> !f(x).value.SetEnabled?
    ensures forall op :: op in Mapped(xs, f) ==> !op.SetEnabled?
  {
    if xs != [] {
      NoConfigMapped(xs[..|xs| - 1], f);
    }
  }

  lemma NoConfigInRule(before: Option<Rule>, r: Rule)
    ensures forall op :: op in RuleOps(before, r) + LeavingOps(r) ==> !op.SetEnabled?
  {
    hide Mapped, StateUnchanged, MatchUnchanged;
    NoConfigMapped(r.states, Storing(before));
    NoConfigMapped(r.matches, Matching(before, r));
    NoConfigMapped(r.matches, Removing());
    NoConfigMapped(r.states, Dropping());
    if before.Some? {
      NoConfigMapped(before.value.matches, Staling(r));
    }
  }

  lemma {:induction false} NoConfigBetween(previous: seq<Rule>, rules: seq<Rule>, next: seq<Rule>)
    ensures forall op :: op in RemovedOps(rules, next) ==> !op.SetEnabled?
    ensures forall op :: op in KeptOps(previous, rules) ==> !op.SetEnabled?
    decreases |rules|
  {
    hide RuleOps, LeavingOps, RuleOf;
    if rules != [] {
      NoConfigBetween(previous, rules[..|rules| - 1], next);
      NoConfigInRule(RuleOf(previous, rules[|rules| - 1].id), rules[|rules| - 1]);
    }
  }

  /**
   * Inside the list, enforcement is on only if it was on before and stays on: a
   * program is switched off first and on last.
   */
  lemma SwitchedOffFirstOnLast(k: Kernel, previous: Policy, next: Policy, n: nat)
    requires !k.failed && k.config.enabled == previous.enabled && 0 < n < |DiffOps(previous, next)|
    ensures RunOps(k, DiffOps(previous, next)[..n]).config.enabled <==> previous.enabled && next.enabled
  {
    hide RemovedOps, KeptOps;
    var first := FirstOps(previous, next);
    var middle := RemovedOps(previous.rules, next.rules) + KeptOps(previous.rules, next.rules);
    NoConfigBetween(previous.rules, previous.rules, next.rules);
    NoConfigBetween(previous.rules, next.rules, next.rules);
    var ops := DiffOps(previous, next);
    assert ops == first + middle + LastOps(previous, next);
    var inner := ops[|first|..n];
    assert ops[..n] == first + inner;
    assert forall op :: op in inner ==> op in middle;
    RunConcat(k, first, inner);
    if first != [] {
      RunOne(k, [], first[0]);
      assert first == [] + [first[0]];
    }
    ConfigStays(RunOps(k, first), inner);
  }
}
