/**
 * The live-stream connection of the user interface: one event source shared by
 * every listener, closed a while after the last one leaves and while the page
 * is hidden.
 */
module LiveStream {
  import opened Common

  type ListenerId = nat
  type TimerId = nat

  /** An `EventSource` and the filter set of its URL. */
  datatype Source = Source(id: nat, query: string)

  datatype State = State(
    listeners: set<ListenerId>,
    eventSource: Option<Source>,
    tickerStarted: bool,
    streamQueryKey: string,
    openQueryKey: string,
    stopTimer: Option<TimerId>,
    visibilityPaused: bool,
    resyncs: nat,
    // What the browser holds: sources not closed yet, and timers still to fire.
    openSources: set<Source>,
    timers: set<TimerId>,
    nextId: nat)

  const LOADED := State({}, None, false, "", "", None, false, 0, {}, {}, 0)

  // ----------------------------------------------------------------- handlers

  function Closed(s: State): set<Source> {
    if s.eventSource.Some? then s.openSources - {s.eventSource.value} else s.openSources
  }

  function Opened(s: State): State {
    var source := Source(s.nextId, s.streamQueryKey);
    s.(eventSource := Some(source), openQueryKey := s.streamQueryKey,
       openSources := Closed(s) + {source}, nextId := s.nextId + 1)
  }

  function Stopped(s: State): State {
    s.(eventSource := None, openQueryKey := "", tickerStarted := false, openSources := Closed(s))
  }

  function Ensured(s: State): State {
    if s.visibilityPaused then s
    else if s.tickerStarted then
      if s.eventSource.None? || s.openQueryKey != s.streamQueryKey then Opened(s) else s
    else Opened(s.(tickerStarted := true))
  }

  function QuerySet(s: State, key: string): State {
    if key == s.streamQueryKey then s
    else
      var t := s.(streamQueryKey := key);
      if t.tickerStarted && t.listeners != {} && t.openQueryKey != key then Opened(t) else t
  }

  function Subscribed(s: State, l: ListenerId): State {
    var t := if s.stopTimer.Some? then s.(timers := s.timers - {s.stopTimer.value}, stopTimer := None) else s;
    Ensured(t.(listeners := t.listeners + {l}))
  }

  function Unsubscribed(s: State, l: ListenerId): State {
    var t := s.(listeners := s.listeners - {l});
    if t.listeners == {} then t.(stopTimer := Some(t.nextId), timers := t.timers + {t.nextId}, nextId := t.nextId + 1)
    else t
  }

  function TimerFired(s: State, timer: TimerId): State {
    if timer !in s.timers then s
    else
      var t := s.(timers := s.timers - {timer}, stopTimer := None);
      if t.listeners == {} then Stopped(t) else t
  }

  function VisibilityChanged(s: State, hidden: bool): State {
    if hidden then
      var t := if s.tickerStarted then Stopped(s) else s;
      t.(visibilityPaused := true)
    else if !s.visibilityPaused then s
    else
      var t := s.(visibilityPaused := false);
      if t.listeners != {} then Ensured(t).(resyncs := t.resyncs + 1) else t
  }

  /** The module variables of the store, updated by its event handlers. */
  class StreamStore {
    var listeners: set<ListenerId>
    var eventSource: Option<Source>
    var tickerStarted: bool
    var streamQueryKey: string
    var openQueryKey: string
    var stopTimer: Option<TimerId>
    var visibilityPaused: bool
    var resyncs: nat
    var openSources: set<Source>
    var timers: set<TimerId>
    var nextId: nat

    constructor ()
      ensures Value() == LOADED
    {
      listeners, eventSource, tickerStarted := {}, None, false;
      streamQueryKey, openQueryKey := "", "";
      stopTimer, visibilityPaused, resyncs := None, false, 0;
      openSources, timers, nextId := {}, {}, 0;
    }

    function Value(): State
      reads this
    {
      State(listeners, eventSource, tickerStarted, streamQueryKey, openQueryKey, stopTimer,
        visibilityPaused, resyncs, openSources, timers, nextId)
    }

    method OpenStream()
      modifies this
      ensures Value() == Opened(old(Value()))
    {
      if eventSource.Some? {
        openSources := openSources - {eventSource.value};
      }
      var source := Source(nextId, streamQueryKey);
      nextId := nextId + 1;
      openSources := openSources + {source};
      eventSource := Some(source);
      openQueryKey := streamQueryKey;
    }

    method StopTicker()
      modifies this
      ensures Value() == Stopped(old(Value()))
    {
      if eventSource.Some? {
        openSources := openSources - {eventSource.value};
      }
      eventSource := None;
      openQueryKey := "";
      tickerStarted := false;
    }

    method EnsureTicker()
      modifies this
      ensures Value() == Ensured(old(Value()))
    {
      if visibilityPaused {
        return;
      }
      if tickerStarted {
        if eventSource.None? || openQueryKey != streamQueryKey {
          OpenStream();
        }
        return;
      }
      tickerStarted := true;
      OpenStream();
    }

    method SetStreamQuery(key: string)
      modifies this
      ensures Value() == QuerySet(old(Value()), key)
    {
      if key == streamQueryKey {
        return;
      }
      streamQueryKey := key;
      if tickerStarted && listeners != {} && openQueryKey != key {
        OpenStream();
      }
    }

    method SubscribeTicks(l: ListenerId)
      modifies this
      ensures Value() == Subscribed(old(Value()), l)
    {
      if stopTimer.Some? {
        timers := timers - {stopTimer.value};
        stopTimer := None;
      }
      listeners := listeners + {l};
      EnsureTicker();
    }

    method Unsubscribe(l: ListenerId)
      modifies this
      ensures Value() == Unsubscribed(old(Value()), l)
    {
      listeners := listeners - {l};
      if listeners == {} {
        timers := timers + {nextId};
        stopTimer := Some(nextId);
        nextId := nextId + 1;
      }
    }

    method FireTimer(timer: TimerId)
      requires timer in timers
      modifies this
      ensures Value() == TimerFired(old(Value()), timer)
    {
      timers := timers - {timer};
      stopTimer := None;
      if listeners == {} {
        StopTicker();
      }
    }

    method HandleVisibilityChange(hidden: bool)
      modifies this
      ensures Value() == VisibilityChanged(old(Value()), hidden)
    {
      if hidden {
        if tickerStarted {
          StopTicker();
        }
        visibilityPaused := true;
        return;
      }
      if !visibilityPaused {
        return;
      }
      visibilityPaused := false;
      if listeners != {} {
        EnsureTicker();
        resyncs := resyncs + 1;
      }
    }

    /** A tick of `source` reaches the listeners only while that source is current. */
    method DeliverTick(source: Source) returns (reached: set<ListenerId>)
      ensures reached == Reached(Value(), source)
    {
      if eventSource != Some(source) {
        return {};
      }
      reached := listeners;
    }
  }

  function Reached(s: State, source: Source): set<ListenerId> {
    if s.eventSource == Some(source) then s.listeners else {}
  }

  // --------------------------------------------------------------- invariants

  /** At most the current source is open, and it carries the filter it was opened with. */
  ghost predicate OneSource(s: State) {
    && s.openSources == (if s.eventSource.Some? then {s.eventSource.value} else {})
    && (s.eventSource.Some? ==> s.eventSource.value.query == s.openQueryKey)
    && (s.tickerStarted <==> s.eventSource.Some?)
  }

  /** No stream while paused; with a listener otherwise one, with the current filter. */
  ghost predicate Serves(s: State) {
    && (s.visibilityPaused ==> s.eventSource.None?)
    && (!s.visibilityPaused && s.listeners != {} ==> s.eventSource.Some? && s.openQueryKey == s.streamQueryKey)
  }

  /** A stream without listeners is about to be closed. */
  ghost predicate Lingers(s: State) {
    s.eventSource.Some? && s.listeners == {} ==> s.timers != {}
  }

  ghost predicate Inv(s: State) {
    OneSource(s) && Serves(s) && Lingers(s)
  }

  datatype Event =
    | SetQuery(key: string)
    | Subscribe(listener: ListenerId)
    | Unsubscribe(listener: ListenerId)
    | Fire(timer: TimerId)
    | Visibility(hidden: bool)

  function Next(s: State, e: Event): State {
    match e
    case SetQuery(key) => QuerySet(s, key)
    case Subscribe(l) => Subscribed(s, l)
    case Unsubscribe(l) => Unsubscribed(s, l)
    case Fire(timer) => TimerFired(s, timer)
    case Visibility(hidden) => VisibilityChanged(s, hidden)
  }

  function RunAll(es: seq<Event>): State {
    if es == [] then LOADED else Next(RunAll(es[..|es| - 1]), es[|es| - 1])
  }

  lemma NextKeeps(s: State, e: Event)
    requires Inv(s)
    ensures Inv(Next(s, e))
  {
    match e
    case Unsubscribe(l) => assert s.nextId in Unsubscribed(s, l).timers || Unsubscribed(s, l).listeners != {};
    case _ =>
  }

  /**
   * In every reachable state at most one source is open, none while hidden, and
   * every listener of a visible page is served with the current filter.
   */
  lemma {:induction false} RunKeeps(es: seq<Event>)
    ensures Inv(RunAll(es))
  {
    hide Inv, Next;
    if es == [] {
      LoadedInv();
    } else {
      RunKeeps(es[..|es| - 1]);
      NextKeeps(RunAll(es[..|es| - 1]), es[|es| - 1]);
    }
  }

  lemma LoadedInv()
    ensures Inv(LOADED)
  {
  }

  /** A tick that reaches a listener comes from an open source with the filter currently asked for. */
  lemma DeliveredTicksAreCurrent(es: seq<Event>, source: Source, l: ListenerId)
    requires l in Reached(RunAll(es), source)
    ensures source in RunAll(es).openSources && source.query == RunAll(es).streamQueryKey
  {
    RunKeeps(es);
  }

  function FireAll(s: State, order: seq<TimerId>): State {
    if order == [] then s else TimerFired(FireAll(s, order[..|order| - 1]), order[|order| - 1])
  }

  /** Once every timer has fired, in any order, a stream is open only for a listener. */
  lemma TimersCloseIdleStream(es: seq<Event>, order: seq<TimerId>)
    requires forall t :: t in RunAll(es).timers ==> t in order
    ensures var s := FireAll(RunAll(es), order);
      s.timers == {} && s.listeners == RunAll(es).listeners && (s.eventSource.Some? ==> s.listeners != {})
  {
    RunKeeps(es);
    FiringKeeps(RunAll(es), order);
  }

  lemma {:induction false} FiringKeeps(s: State, order: seq<TimerId>)
    requires Inv(s)
    ensures var z := FireAll(s, order);
      Inv(z) && z.listeners == s.listeners && z.timers == s.timers - (set t | t in order)
  {
    hide Inv;
    if order != [] {
      var less, last := order[..|order| - 1], order[|order| - 1];
      FiringKeeps(s, less);
      NextKeeps(FireAll(s, less), Fire(last));
      assert order == less + [last];
    }
  }

  /** Coming back from a hidden page with a listener reopens the stream and asks for a reload. */
  lemma ReturnReloads(es: seq<Event>)
    requires RunAll(es).visibilityPaused && RunAll(es).listeners != {}
    ensures var s, z := RunAll(es), VisibilityChanged(RunAll(es), false);
      z.resyncs == s.resyncs + 1 && z.eventSource.Some? && z.eventSource.value !in s.openSources
        && z.eventSource.value.query == s.streamQueryKey
  {
    RunKeeps(es);
  }

  // ------------------------------------------------------- what was asked for

  /** The filter set last. */
  function Asked(es: seq<Event>): string {
    if es == [] then ""
    else
      match es[|es| - 1]
      case SetQuery(key) => key
      case _ => Asked(es[..|es| - 1])
  }

  /** `l` subscribed and has not left since. */
  ghost predicate Listening(es: seq<Event>, l: ListenerId) {
    exists i: nat :: i < |es| && es[i] == Subscribe(l) && Unsubscribe(l) !in es[i..]
  }

  /** The page was hidden and has not come back since. */
  ghost predicate Hidden(es: seq<Event>) {
    exists i: nat :: i < |es| && es[i] == Visibility(true) && Visibility(false) !in es[i..]
  }

  /** How often a hidden page came back to a listener. */
  ghost function Returns(es: seq<Event>): nat {
    if es == [] then 0
    else
      var less := es[..|es| - 1];
      var returned := es[|es| - 1] == Visibility(false) && Hidden(less) && exists l :: Listening(less, l);
      Returns(less) + if returned then 1 else 0
  }

  lemma FieldsNext(s: State, e: Event)
    ensures var z := Next(s, e);
      && z.streamQueryKey == (if e.SetQuery? then e.key else s.streamQueryKey)
      && z.listeners == (match e
                         case Subscribe(l) => s.listeners + {l}
                         case Unsubscribe(l) => s.listeners - {l}
                         case _ => s.listeners)
      && z.visibilityPaused == (if e.Visibility? then e.hidden else s.visibilityPaused)
      && z.resyncs == s.resyncs + if e == Visibility(false) && s.visibilityPaused && s.listeners != {} then 1 else 0
  {
  }

  lemma OneMore(es: seq<Event>, e: Event)
    ensures RunAll(es + [e]) == Next(RunAll(es), e)
  {
    assert (es + [e])[..|es|] == es;
  }

  /** Something that happened and was not undone since happened last, or before and the last event does not undo it. */
  lemma HappenedNext(es: seq<Event>, e: Event, does: Event, undoes: Event)
    requires does != undoes
    ensures (exists i: nat :: i < |es + [e]| && (es + [e])[i] == does && undoes !in (es + [e])[i..])
       <==> e == does || (e != undoes && exists i: nat :: i < |es| && es[i] == does && undoes !in es[i..])
  {
    var all := es + [e];
    forall i: nat | i < |es|
      ensures all[i..] == es[i..] + [e] && all[i] == es[i]
    {
    }
    assert all[|es|] == e && all[|es|..] == [e];
    if i: nat :| i < |all| && all[i] == does && undoes !in all[i..] {
      if i < |es| { assert all[i..] == es[i..] + [e]; }
    }
  }

  /** The variables of the store follow from the events alone. */
  lemma {:induction false} StateIsHistory(es: seq<Event>)
    ensures var s := RunAll(es);
      && s.streamQueryKey == Asked(es) && s.visibilityPaused == Hidden(es) && s.resyncs == Returns(es)
      && forall l :: l in s.listeners <==> Listening(es, l)
  {
    hide Next;
    if es != [] {
      var less, e := es[..|es| - 1], es[|es| - 1];
      assert es == less + [e];
      StateIsHistory(less);
      FieldsNext(RunAll(less), e);
      HappenedNext(less, e, Visibility(true), Visibility(false));
      forall l
        ensures Listening(es, l) <==> e == Subscribe(l) || (e != Unsubscribe(l) && Listening(less, l))
      {
        HappenedNext(less, e, Subscribe(l), Unsubscribe(l));
      }
      assert RunAll(less).listeners != {} ==> exists l :: l in RunAll(less).listeners;
    }
  }

  /** Whoever listens to a visible page is served by the one open source, with the filter set last. */
  lemma ServedAsAsked(es: seq<Event>, l: ListenerId)
    requires Listening(es, l) && !Hidden(es)
    ensures exists source ::
      RunAll(es).openSources == {source} && source.query == Asked(es) && l in Reached(RunAll(es), source)
  {
    StateIsHistory(es);
    RunKeeps(es);
    var source := RunAll(es).eventSource.value;
    assert RunAll(es).openSources == {source} && l in Reached(RunAll(es), source);
  }

  /** Identifiers in use are below the next one; nobody who is listening waits for a stop timer. */
  ghost predicate Named(s: State) {
    && (forall t :: t in s.timers ==> t < s.nextId) && (s.eventSource.Some? ==> s.eventSource.value.id < s.nextId)
    && (s.listeners != {} ==> s.stopTimer.None?)
  }

  lemma NextNames(s: State, e: Event)
    requires Named(s)
    ensures var z := Next(s, e);
      Named(z) && z.nextId >= s.nextId
      && (z.eventSource.Some? && z.eventSource.value.id < s.nextId ==> z.eventSource == s.eventSource)
  {
  }

  lemma {:induction false} RunNames(es: seq<Event>)
    ensures Named(RunAll(es))
  {
    hide Named, Next;
    if es == [] {
      LoadedNames();
    } else {
      RunNames(es[..|es| - 1]);
      NextNames(RunAll(es[..|es| - 1]), es[|es| - 1]);
    }
  }

  lemma LoadedNames()
    ensures Named(LOADED)
  {
  }

  /** A source that is opened is a new one: what a run has at its end with an old identifier, it had all along. */
  lemma {:induction false} SourcesAreNew(es: seq<Event>, more: seq<Event>)
    ensures var s, z := RunAll(es), RunAll(es + more);
      z.nextId >= s.nextId
      && (z.eventSource.Some? && z.eventSource.value.id < s.nextId ==> z.eventSource == s.eventSource)
    decreases |more|
  {
    hide Named, Next;
    if more == [] {
      assert es + more == es;
    } else {
      var less := more[..|more| - 1];
      assert es + more == (es + less) + [more[|more| - 1]];
      OneMore(es + less, more[|more| - 1]);
      RunNames(es + less);
      NextNames(RunAll(es + less), more[|more| - 1]);
      SourcesAreNew(es, less);
    }
  }

  /** A stream is not reopened without need: who joins a served page finds its source. */
  lemma JoiningKeepsSource(es: seq<Event>, l: ListenerId, k: ListenerId)
    requires Listening(es, k) && !Hidden(es)
    ensures var s, z := RunAll(es), RunAll(es + [Subscribe(l)]);
      z.eventSource == s.eventSource && z.openSources == s.openSources && z.timers == s.timers
  {
    hide RunAll;
    StateIsHistory(es);
    RunKeeps(es);
    RunNames(es);
    OneMore(es, Subscribe(l));
  }

  /** Leaving arms one new timer exactly when nobody is left, and joining again disarms it: the source stays open. */
  lemma RejoiningKeepsSource(es: seq<Event>, l: ListenerId, k: ListenerId)
    requires Listening(es, l) && !Hidden(es)
    ensures var s, y, z := RunAll(es), RunAll(es + [Unsubscribe(l)]), RunAll(es + [Unsubscribe(l), Subscribe(k)]);
      && y.timers == s.timers + (if exists x :: x != l && Listening(es, x) then {} else {s.nextId})
      && y.eventSource == z.eventSource == s.eventSource && z.openSources == s.openSources && z.timers == s.timers
  {
    hide RunAll, Next, Inv, Named;
    StateIsHistory(es);
    RunKeeps(es);
    RunNames(es);
    OneMore(es, Unsubscribe(l));
    assert es + [Unsubscribe(l), Subscribe(k)] == (es + [Unsubscribe(l)]) + [Subscribe(k)];
    OneMore(es + [Unsubscribe(l)], Subscribe(k));
    Rejoin(RunAll(es), l, k);
    OthersListen(es, l);
  }

  lemma OthersListen(es: seq<Event>, l: ListenerId)
    ensures RunAll(es).listeners - {l} != {} <==> exists x :: x != l && Listening(es, x)
  {
    hide RunAll;
    StateIsHistory(es);
    var left := RunAll(es).listeners - {l};
    if left != {} {
      var x :| x in left;
      assert Listening(es, x);
    }
    if x :| x != l && Listening(es, x) {
      assert x in left;
    }
  }

  lemma SomeoneListens(es: seq<Event>)
    ensures RunAll(es).listeners != {} <==> exists l :: Listening(es, l)
  {
    hide RunAll;
    StateIsHistory(es);
    if l :| l in RunAll(es).listeners {
      assert Listening(es, l);
    }
  }

  lemma Rejoin(s: State, l: ListenerId, k: ListenerId)
    requires Inv(s) && Named(s) && l in s.listeners && !s.visibilityPaused
    ensures var y, z := Next(s, Unsubscribe(l)), Next(Next(s, Unsubscribe(l)), Subscribe(k));
      && y.timers == s.timers + (if s.listeners - {l} != {} then {} else {s.nextId})
      && y.eventSource == z.eventSource == s.eventSource && z.openSources == s.openSources && z.timers == s.timers
  {
  }

  /** Another filter replaces the source of a served page, and leaves that of nobody alone. */
  lemma RetargetReplacesSource(es: seq<Event>, key: string)
    ensures var s, z := RunAll(es), RunAll(es + [SetQuery(key)]);
      z.eventSource != s.eventSource <==> s.eventSource.Some? && key != Asked(es) && exists l :: Listening(es, l)
  {
    hide RunAll, Next, Inv, Named;
    StateIsHistory(es);
    RunKeeps(es);
    RunNames(es);
    OneMore(es, SetQuery(key));
    Retarget(RunAll(es), key);
    SomeoneListens(es);
  }

  lemma Retarget(s: State, key: string)
    requires Inv(s) && Named(s)
    ensures Next(s, SetQuery(key)).eventSource != s.eventSource
       <==> s.eventSource.Some? && key != s.streamQueryKey && s.listeners != {}
  {
  }
}
