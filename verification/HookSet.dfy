/**
 * The traffic hooks of the Device Boundary: which kernel links exist, and which
 * of them the collector holds. Attaching may fail at any hook; detaching
 * succeeds.
 */
module HookSet {
  import opened Common

  type Link = nat

  datatype Attached = Attached(ifindex: u32, name: string, ingress: Option<Link>, egress: Option<Link>, failed: bool) {
    predicate Healthy() {
      ingress.Some? && egress.Some?
    }
  }

  /** An interface of the resolved boundary. */
  datatype Wanted = Wanted(ifindex: u32, name: string)

  /** What the kernel answers for one interface: the queueing discipline, the ingress hook, the egress hook. */
  datatype Answer = Answer(qdisc: bool, ingress: bool, egress: bool) {
    predicate Complete() {
      qdisc && ingress && egress
    }
  }

  type Entries = map<u32, Attached>

  function LinksOf(a: Attached): set<Link> {
    (if a.ingress.Some? then {a.ingress.value} else {}) + (if a.egress.Some? then {a.egress.value} else {})
  }

  /** Both hooks or neither. */
  predicate Paired(a: Attached) {
    if a.ingress.Some? then a.egress.Some? && a.ingress != a.egress else a.egress.None?
  }

  /** The entries hold exactly the links of `links`, each once. */
  ghost predicate Holds(es: Entries, links: set<Link>) {
    && (forall k :: k in es ==> es[k].ifindex == k && Paired(es[k]) && LinksOf(es[k]) <= links)
    && (forall j, k :: j in es && k in es && j != k ==> LinksOf(es[j]) !! LinksOf(es[k]))
    && (forall l :: l in links ==> exists k :: k in es && l in LinksOf(es[k]))
  }

  /** Every link ever made is either live, or was detached exactly once. */
  ghost predicate Accounted(live: set<Link>, detached: seq<Link>, made: nat) {
    && (forall l: Link :: l < made <==> l in live || l in detached)
    && (forall l :: l in live ==> l !in detached)
    && (forall i, j :: 0 <= i < j < |detached| ==> detached[i] != detached[j])
  }

  ghost predicate DistinctEntries(attached: seq<Attached>) {
    forall i, j :: 0 <= i < j < |attached| ==> attached[i].ifindex != attached[j].ifindex
  }

  ghost predicate DistinctWanted(ws: seq<Wanted>) {
    forall i, j :: 0 <= i < j < |ws| ==> ws[i].ifindex != ws[j].ifindex
  }

  ghost predicate Ascending(attached: seq<Attached>) {
    forall i, j :: 0 <= i < j < |attached| ==> attached[i].ifindex < attached[j].ifindex
  }

  function ByIfindex(attached: seq<Attached>): Entries {
    if attached == [] then map[]
    else ByIfindex(attached[..|attached| - 1])[attached[|attached| - 1].ifindex := attached[|attached| - 1]]
  }

  lemma {:induction false} ByIfindexAt(attached: seq<Attached>)
    requires DistinctEntries(attached)
    ensures forall k :: k in ByIfindex(attached) <==> exists i :: 0 <= i < |attached| && attached[i].ifindex == k
    ensures forall i :: 0 <= i < |attached| ==>
      attached[i].ifindex in ByIfindex(attached) && ByIfindex(attached)[attached[i].ifindex] == attached[i]
  {
    if attached != [] {
      var less := attached[..|attached| - 1];
      ByIfindexAt(less);
      assert forall i :: 0 <= i < |less| ==> less[i] == attached[i];
    }
  }

  /** What reconciling must leave for a wanted interface. */
  ghost predicate Reconciled(before: Entries, w: Wanted, a: Answer, after: Entries) {
    && w.ifindex in after
    && if w.ifindex in before && before[w.ifindex].ingress.Some? && before[w.ifindex].egress.Some?
       then after[w.ifindex] == before[w.ifindex]
       else
         && after[w.ifindex].name == w.name
         && (after[w.ifindex].ingress.Some? <==> a.qdisc && a.ingress && a.egress)
         && (after[w.ifindex].egress.Some? <==> a.qdisc && a.ingress && a.egress)
         && (after[w.ifindex].failed <==> !(a.qdisc && a.ingress && a.egress))
  }

  /** A fully attached entry of the interface. */
  predicate HooksOf(a: Attached, w: Wanted) {
    && a.ifindex == w.ifindex && a.name == w.name
    && !a.failed && a.ingress.Some? && a.egress.Some? && a.ingress != a.egress
  }

  function AnswerFor(answers: map<u32, Answer>, ifindex: u32): Answer {
    if ifindex in answers then answers[ifindex] else Answer(true, true, true)
  }

  class HookManager {
    var attached: seq<Attached>
    ghost var live: set<Link>
    ghost var detached: seq<Link>
    var made: nat

    constructor ()
      ensures Valid() && attached == [] && made == 0
    {
      attached, live, detached, made := [], {}, [], 0;
    }

    ghost predicate Valid()
      reads this
    {
      DistinctEntries(attached) && Holds(ByIfindex(attached), live) && Accounted(live, detached, made)
    }

    method AttachHook(answer: bool) returns (r: Option<Link>)
      requires Accounted(live, detached, made)
      modifies this`live, this`made
      ensures Accounted(live, detached, made)
      ensures !answer ==> r.None? && live == old(live)
      ensures answer ==> r.Some? && r.value !in old(live) && live == old(live) + {r.value}
    {
      if !answer {
        return None;
      }
      r := Some(made);
      live := live + {made};
      made := made + 1;
    }

    method DetachLink(l: Link)
      requires Accounted(live, detached, made) && l in live
      modifies this`live, this`detached
      ensures Accounted(live, detached, made) && live == old(live) - {l} && detached == old(detached) + [l]
    {
      live := live - {l};
      detached := detached + [l];
    }

    method DetachLinks(a: Attached)
      requires Accounted(live, detached, made) && Paired(a) && LinksOf(a) <= live
      modifies this`live, this`detached
      ensures Accounted(live, detached, made) && live == old(live) - LinksOf(a) && old(detached) <= detached
    {
      hide Accounted;
      if a.ingress.Some? {
        DetachLink(a.ingress.value);
      }
      if a.egress.Some? {
        DetachLink(a.egress.value);
      }
    }

    /** Attaches both hooks, or leaves neither. */
    method AttachOne(w: Wanted, a: Answer) returns (r: Option<Attached>)
      requires Accounted(live, detached, made)
      modifies this`live, this`detached, this`made
      ensures Accounted(live, detached, made) && old(detached) <= detached
      ensures r.Some? <==> a.qdisc && a.ingress && a.egress
      ensures r.None? ==> live == old(live)
      ensures r.Some? ==>
        HooksOf(r.value, w) && LinksOf(r.value) !! old(live) && live == old(live) + LinksOf(r.value)
    {
      hide Accounted;
      if !a.qdisc {
        return None;
      }
      var ingress := AttachHook(a.ingress);
      if ingress.None? {
        return None;
      }
      var egress := AttachHook(a.egress);
      if egress.None? {
        DetachLink(ingress.value);
        return None;
      }
      r := Some(Attached(w.ifindex, w.name, ingress, egress, false));
    }

    /** Attaches one more interface at start. */
    method AttachNext(w: Wanted, a: Answer) returns (ok: bool)
      requires Valid() && forall i :: 0 <= i < |attached| ==> attached[i].ifindex != w.ifindex
      modifies this
      ensures Valid() && old(detached) <= detached && ok == a.Complete()
      ensures !ok ==> attached == old(attached)
      ensures ok ==> |attached| == |old(attached)| + 1 && attached[..|old(attached)|] == old(attached)
      ensures ok ==> HooksOf(attached[|old(attached)|], w)
    {
      hide Accounted, Holds, LinksOf;
      ghost var before := live;
      var entry := AttachOne(w, a);
      if entry.None? {
        return false;
      }
      NotAmong(attached, w.ifindex);
      HoldsOneMore(ByIfindex(attached), before, entry.value);
      Appended(attached, entry.value);
      attached := attached + [entry.value];
      ok := true;
    }

    /** At start: every interface attaches, or everything attached so far is detached again. */
    method AttachInterfaces(wanted: seq<Wanted>, answers: map<u32, Answer>) returns (ok: bool)
      requires Valid() && attached == [] && DistinctWanted(wanted)
      modifies this
      ensures Valid() && old(detached) <= detached
      ensures ok <==> forall w :: w in wanted ==> AnswerFor(answers, w.ifindex).Complete()
      ensures !ok ==> attached == [] && live == {}
      ensures ok ==> |attached| == |wanted| && forall i :: 0 <= i < |wanted| ==> HooksOf(attached[i], wanted[i])
    {
      hide Accounted, Holds, HooksOf, AnswerFor;
      for i := 0 to |wanted|
        invariant Valid() && old(detached) <= detached && |attached| == i
        invariant forall k :: 0 <= k < i ==> attached[k].ifindex == wanted[k].ifindex && HooksOf(attached[k], wanted[k])
        invariant forall k :: 0 <= k < i ==> AnswerFor(answers, wanted[k].ifindex).Complete()
      {
        ghost var before := attached;
        var attempt := AttachNext(wanted[i], AnswerFor(answers, wanted[i].ifindex));
        if !attempt {
          assert wanted[i] in wanted;
          var _ := Detach({});
          return false;
        }
        forall k | 0 <= k < i
          ensures attached[k] == before[k]
        {
          assert attached[..i][k] == before[k];
        }
        HooksAreOf(attached[i], wanted[i]);
      }
      ok := true;
    }

    /**
     * Detaches every link, at shutdown or after a failed start. A link whose
     * detachment is refused is given up all the same, and reported.
     */
    method Detach(refused: set<Link>) returns (ok: bool)
      requires Valid()
      modifies this
      ensures Valid() && attached == [] && live == {} && made == old(made) && old(detached) <= detached
      ensures ok <==> old(live) !! refused
    {
      hide Accounted, Holds;
      ok := true;
      while attached != []
        invariant Valid() && made == old(made) && old(detached) <= detached
        invariant live <= old(live) && (ok <==> old(live) - live !! refused)
        decreases |attached|
      {
        var last, rest := attached[|attached| - 1], attached[..|attached| - 1];
        ByIfindexAt(attached);
        ByIfindexAt(rest);
        HeldLinks(ByIfindex(attached), live, last.ifindex);
        HoldsOneLess(ByIfindex(attached), live, last.ifindex);
        ghost var held := live;
        DetachLinks(last);
        assert old(live) - live == (old(live) - held) + LinksOf(last);
        ok := ok && LinksOf(last) !! refused;
        assert ByIfindex(rest) == ByIfindex(attached) - {last.ifindex} by {
          LastEntry(attached);
        }
        attached := rest;
      }
      NothingHeld(live);
      assert old(live) - live == old(live);
    }

    /** Drops unwanted interfaces, keeps healthy ones, retries the others. */
    method Reconcile(wanted: seq<Wanted>, answers: map<u32, Answer>)
      requires Valid() && DistinctWanted(wanted)
      modifies this
      ensures Valid() && old(detached) <= detached
      ensures Ascending(attached)
      ensures forall k :: k in ByIfindex(attached) <==> exists i :: 0 <= i < |wanted| && wanted[i].ifindex == k
      ensures forall i :: 0 <= i < |wanted| ==>
        Reconciled(ByIfindex(old(attached)), wanted[i], AnswerFor(answers, wanted[i].ifindex), ByIfindex(attached))
    {
      hide Accounted, Holds, Reconciled;
      ghost var before := ByIfindex(attached);
      var current := DropUnwanted(ByIfindex(attached), wanted);
      for i := 0 to |wanted|
        invariant Accounted(live, detached, made) && Holds(current, live) && old(detached) <= detached
        invariant forall k :: k in current ==> exists j :: 0 <= j < |wanted| && wanted[j].ifindex == k
        invariant forall j :: i <= j < |wanted| ==> SameEntry(before, current, wanted[j].ifindex)
        invariant forall j :: 0 <= j < i ==>
          Reconciled(before, wanted[j], AnswerFor(answers, wanted[j].ifindex), current)
      {
        ghost var was := current;
        current := Refresh(current, wanted[i], AnswerFor(answers, wanted[i].ifindex));
        SameReconciled(before, was, wanted[i], AnswerFor(answers, wanted[i].ifindex), current);
        forall j | 0 <= j < i
          ensures Reconciled(before, wanted[j], AnswerFor(answers, wanted[j].ifindex), current)
        {
          ReconciledElsewhere(before, was, wanted[j], AnswerFor(answers, wanted[j].ifindex), current);
        }
      }
      forall j | 0 <= j < |wanted|
        ensures wanted[j].ifindex in current
      {
        ReconciledIsThere(before, wanted[j], AnswerFor(answers, wanted[j].ifindex), current);
      }
      forall k | k in current
        ensures current[k].ifindex == k
      {
        HeldLinks(current, live, k);
      }
      attached := InOrder(current);
    }

    method DropUnwanted(current: Entries, wanted: seq<Wanted>) returns (kept: Entries)
      requires Accounted(live, detached, made) && Holds(current, live)
      modifies this`live, this`detached
      ensures Accounted(live, detached, made) && Holds(kept, live) && old(detached) <= detached
      ensures forall k :: k in kept <==> k in current && exists i :: 0 <= i < |wanted| && wanted[i].ifindex == k
      ensures forall k :: k in kept ==> kept[k] == current[k]
    {
      hide Accounted, Holds;
      kept := current;
      var pending := set k | k in current && forall i :: 0 <= i < |wanted| ==> wanted[i].ifindex != k;
      while pending != {}
        invariant Accounted(live, detached, made) && Holds(kept, live) && old(detached) <= detached
        invariant pending <= kept.Keys && kept.Keys <= current.Keys
        invariant forall k :: k in kept ==> kept[k] == current[k]
        invariant forall k :: k in current && (k !in kept || k in pending) ==>
          forall i :: 0 <= i < |wanted| ==> wanted[i].ifindex != k
        invariant forall k :: k in kept && k !in pending ==> exists i :: 0 <= i < |wanted| && wanted[i].ifindex == k
        decreases |pending|
      {
        var k :| k in pending;
        HeldLinks(kept, live, k);
        HoldsOneLess(kept, live, k);
        DetachLinks(kept[k]);
        kept := kept - {k};
        pending := pending - {k};
      }
    }

    /** Keeps a healthy entry; otherwise detaches what is there and attaches again. */
    method Refresh(current: Entries, w: Wanted, a: Answer) returns (next: Entries)
      requires Accounted(live, detached, made) && Holds(current, live)
      modifies this`live, this`detached, this`made
      ensures Accounted(live, detached, made) && Holds(next, live) && old(detached) <= detached
      ensures next.Keys == current.Keys + {w.ifindex}
      ensures forall k :: k in current && k != w.ifindex ==> next[k] == current[k]
      ensures Reconciled(current, w, a, next)
    {
      hide Accounted, Holds;
      if w.ifindex in current && current[w.ifindex].Healthy() {
        return current;
      }
      next := current;
      if w.ifindex in current {
        HeldLinks(current, live, w.ifindex);
        HoldsOneLess(current, live, w.ifindex);
        DetachLinks(current[w.ifindex]);
        next := current - {w.ifindex};
      }
      ghost var before := live;
      var attempt := AttachOne(w, a);
      var entry := if attempt.Some? then attempt.value else Attached(w.ifindex, w.name, None, None, true);
      assert live == before + LinksOf(entry);
      HoldsOneMore(next, before, entry);
      next := next[w.ifindex := entry];
    }

    /** The entries in ascending order of interface index. */
    method InOrder(current: Entries) returns (sorted: seq<Attached>)
      requires forall k :: k in current ==> current[k].ifindex == k
      ensures Ascending(sorted) && DistinctEntries(sorted) && ByIfindex(sorted) == current
    {
      hide Sorting;
      sorted := [];
      var pending := current;
      assert Sorting(current, sorted, pending) by { SortingStarts(current); }
      while pending != map[]
        invariant Sorting(current, sorted, pending) && pending.Keys <= current.Keys
        decreases |pending|
      {
        ghost var least := LeastKey(pending.Keys);
        var k :| k in pending && forall j :: j in pending ==> k <= j;
        SortingOneMore(current, sorted, pending, k);
        sorted := sorted + [pending[k]];
        pending := pending - {k};
      }
      SortingEnds(current, sorted);
    }
  }

  // ------------------------------------------------------------------- lemmas

  ghost predicate SameEntry(a: Entries, b: Entries, k: u32) {
    (k in a <==> k in b) && (k in a ==> a[k] == b[k])
  }

  lemma SameReconciled(before: Entries, current: Entries, w: Wanted, a: Answer, after: Entries)
    requires Reconciled(current, w, a, after) && SameEntry(before, current, w.ifindex)
    ensures Reconciled(before, w, a, after)
  {
  }

  lemma ReconciledElsewhere(before: Entries, current: Entries, w: Wanted, a: Answer, after: Entries)
    requires Reconciled(before, w, a, current) && SameEntry(current, after, w.ifindex)
    ensures Reconciled(before, w, a, after)
  {
  }

  lemma ReconciledIsThere(before: Entries, w: Wanted, a: Answer, after: Entries)
    requires Reconciled(before, w, a, after)
    ensures w.ifindex in after
  {
  }

  lemma {:induction false} LeastKey(ks: set<u32>) returns (least: u32)
    requires ks != {}
    ensures least in ks && forall k :: k in ks ==> least <= k
    decreases |ks|
  {
    var k :| k in ks;
    if ks == {k} {
      least := k;
    } else {
      var l := LeastKey(ks - {k});
      least := if l <= k then l else k;
      assert ks == ks - {k} + {k};
    }
  }

  lemma LastEntry(attached: seq<Attached>)
    requires attached != [] && DistinctEntries(attached)
    ensures var n := |attached| - 1; ByIfindex(attached[..n]) == ByIfindex(attached) - {attached[n].ifindex}
  {
    var n := |attached| - 1;
    var rest := attached[..n];
    assert ByIfindex(attached) == ByIfindex(rest)[attached[n].ifindex := attached[n]];
    NotAmong(rest, attached[n].ifindex);
    WithoutAdded(ByIfindex(rest), attached[n].ifindex, attached[n]);
  }

  lemma {:induction false} NotAmong(attached: seq<Attached>, k: u32)
    requires forall i :: 0 <= i < |attached| ==> attached[i].ifindex != k
    ensures k !in ByIfindex(attached)
  {
    if attached != [] {
      NotAmong(attached[..|attached| - 1], k);
    }
  }

  lemma WithoutAdded(es: Entries, k: u32, a: Attached)
    requires k !in es
    ensures es[k := a] - {k} == es
  {
  }

  lemma Appended(sorted: seq<Attached>, a: Attached)
    ensures ByIfindex(sorted + [a]) == ByIfindex(sorted)[a.ifindex := a]
  {
    assert (sorted + [a])[..|sorted|] == sorted;
  }

  /** Moving the least pending entry to the end of the sorted ones. */
  ghost predicate Sorting(current: Entries, sorted: seq<Attached>, pending: Entries) {
    && (forall k :: k in pending ==> k in current && pending[k] == current[k])
    && Ascending(sorted) && ByIfindex(sorted) == current - pending.Keys
    && forall i, k :: 0 <= i < |sorted| && k in pending ==> sorted[i].ifindex < k
  }

  lemma SortingStarts(current: Entries)
    ensures Sorting(current, [], current)
  {
  }

  lemma SortingEnds(current: Entries, sorted: seq<Attached>)
    requires Sorting(current, sorted, map[])
    ensures Ascending(sorted) && DistinctEntries(sorted) && ByIfindex(sorted) == current
  {
    var none: Entries := map[];
    assert current - none.Keys == current;
  }

  lemma SortingOneMore(current: Entries, sorted: seq<Attached>, pending: Entries, k: u32)
    requires Sorting(current, sorted, pending) && k in pending
    requires (forall j :: j in pending ==> k <= j) && current[k].ifindex == k
    ensures Sorting(current, sorted + [pending[k]], pending - {k})
  {
    hide ByIfindex;
    Appended(sorted, pending[k]);
    assert (current - pending.Keys)[k := pending[k]] == current - (pending - {k}).Keys;
  }

  lemma HooksAreOf(a: Attached, w: Wanted)
    requires HooksOf(a, w)
    ensures a.ifindex == w.ifindex
  {
  }

  lemma HeldLinks(es: Entries, links: set<Link>, k: u32)
    requires Holds(es, links) && k in es
    ensures Paired(es[k]) && LinksOf(es[k]) <= links && es[k].ifindex == k
  {
  }

  lemma HoldsOneLess(es: Entries, links: set<Link>, k: u32)
    requires Holds(es, links) && k in es
    ensures Holds(es - {k}, links - LinksOf(es[k]))
  {
    hide LinksOf, Paired;
    var less := es - {k};
    forall l | l in links - LinksOf(es[k])
      ensures exists j :: j in less && l in LinksOf(less[j])
    {
      var j :| j in es && l in LinksOf(es[j]);
      assert j in less;
    }
  }

  lemma HoldsOneMore(es: Entries, links: set<Link>, a: Attached)
    requires Holds(es, links) && a.ifindex !in es && Paired(a) && LinksOf(a) !! links
    ensures Holds(es[a.ifindex := a], links + LinksOf(a))
  {
    hide LinksOf, Paired;
    var more := es[a.ifindex := a];
    forall l | l in links + LinksOf(a)
      ensures exists j :: j in more && l in LinksOf(more[j])
    {
      if l in links {
        var j :| j in es && l in LinksOf(es[j]);
        assert j in more && more[j] == es[j];
      } else {
        assert a.ifindex in more;
      }
    }
    forall i, j | i in more && j in more && i != j
      ensures LinksOf(more[i]) !! LinksOf(more[j])
    {
      if i != a.ifindex {
        assert LinksOf(es[i]) <= links;
      }
      if j != a.ifindex {
        assert LinksOf(es[j]) <= links;
      }
    }
  }

  lemma NothingHeld(links: set<Link>)
    requires Holds(map[], links)
    ensures links == {}
  {
    if l :| l in links {
      assert false;
    }
  }

  /** Every link ever made is held by one entry, or was detached once; never both. */
  lemma EveryLinkOnce(es: Entries, live: set<Link>, detached: seq<Link>, made: nat, l: Link)
    requires Holds(es, live) && Accounted(live, detached, made) && l < made
    ensures (exists k :: k in es && (es[k].ingress == Some(l) || es[k].egress == Some(l))) <==> l !in detached
    ensures forall k :: k in es && es[k].ingress == Some(l) ==> es[k].egress.Some? && es[k].egress != Some(l)
    ensures forall j, k :: j in es && k in es && j != k ==>
      !(Some(l) in [es[j].ingress, es[j].egress] && Some(l) in [es[k].ingress, es[k].egress])
    ensures forall i, j :: 0 <= i < |detached| && 0 <= j < |detached| && detached[i] == l && detached[j] == l ==> i == j
  {
    forall k | k in es
      ensures l in LinksOf(es[k]) <==> es[k].ingress == Some(l) || es[k].egress == Some(l)
    {
    }
    if k :| k in es && l in LinksOf(es[k]) {
      assert l in live;
    }
  }
}
