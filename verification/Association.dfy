/** The Associated Domains of an address, chosen from the live observations. */
module Association {
  import opened Common
  import opened DomainOrder

  const MAX_DOMAIN_CANDIDATES := 8

  /** A row of the observation table; interface 0 stands for every interface. */
  datatype Observation = Observation(
    domain: Bytes, address: u32, evidence: Evidence, confidence: Confidence,
      ifindex: int, lastObserved: int, expiresAt: int)

  datatype Key = Key(rank: int, lastObserved: int, domain: Bytes)

  function EvidenceRank(e: Evidence): int {
    if e == Dns then 1 else 2
  }

  function KeyOf(o: Observation): Key {
    Key(EvidenceRank(o.evidence), o.lastObserved, o.domain)
  }

  /** Higher rank first, then the more recent, then the smaller name. */
  predicate KeyPrecedes(a: Key, b: Key) {
    a.rank > b.rank || (a.rank == b.rank &&
      (a.lastObserved > b.lastObserved || (a.lastObserved == b.lastObserved && !Below(b.domain, a.domain))))
  }

  predicate Live(o: Observation, address: u32, ifindex: int, now: int) {
    o.address == address && (o.ifindex == ifindex || o.ifindex == 0) && o.expiresAt > now
  }

  // ------------------------------------------------------------------ choice

  function DomainsOf(os: seq<Observation>): seq<Bytes> {
    if os == [] then [] else DomainsOf(os[..|os| - 1]) + [os[|os| - 1].domain]
  }

  /** The first row of each of the first domains. */
  function Picked(os: seq<Observation>): seq<Observation> {
    if os == [] then []
    else
      var p, o := Picked(os[..|os| - 1]), os[|os| - 1];
      if |p| >= MAX_DOMAIN_CANDIDATES || o.domain in DomainsOf(p) then p else p + [o]
  }

  method PickDomains(sorted: seq<Observation>) returns (domains: seq<Observation>)
    ensures domains == Picked(sorted)
  {
    domains := [];
    for i := 0 to |sorted|
      invariant domains == Picked(sorted[..i]) && |domains| < MAX_DOMAIN_CANDIDATES
    {
      assert sorted[..i + 1][..i] == sorted[..i];
      var known := false;
      for k := 0 to |domains|
        invariant known <==> exists j :: 0 <= j < k && domains[j].domain == sorted[i].domain
      {
        if domains[k].domain == sorted[i].domain {
          known := true;
        }
      }
      DomainsAt(domains, sorted[i].domain);
      if known {
        continue;
      }
      domains := domains + [sorted[i]];
      if |domains| >= MAX_DOMAIN_CANDIDATES {
        PickedIsFull(sorted, i + 1);
        return;
      }
    }
    assert sorted[..|sorted|] == sorted;
  }

  lemma {:induction false} DomainsAt(os: seq<Observation>, d: Bytes)
    ensures |DomainsOf(os)| == |os| && forall i :: 0 <= i < |os| ==> DomainsOf(os)[i] == os[i].domain
    ensures d in DomainsOf(os) <==> exists j :: 0 <= j < |os| && os[j].domain == d
  {
    if os != [] {
      DomainsAt(os[..|os| - 1], d);
    }
  }

  lemma {:induction false} PickedIsFull(os: seq<Observation>, n: nat)
    requires n <= |os| && |Picked(os[..n])| >= MAX_DOMAIN_CANDIDATES
    ensures Picked(os) == Picked(os[..n])
  {
    if n == |os| {
      assert os[..n] == os;
    } else {
      assert os[..|os| - 1][..n] == os[..n];
      PickedIsFull(os[..|os| - 1], n);
    }
  }

  // ------------------------------------------------------------ permutations

  /** Rows that `f` keeps, as it maps them. */
  function FilterMap<A, B>(xs: seq<A>, f: A -> Option<B>): seq<B> {
    if xs == [] then []
    else
      var rest := FilterMap(xs[..|xs| - 1], f);
      match f(xs[|xs| - 1])
      case None => rest
      case Some(y) => rest + [y]
  }

  lemma {:induction false} FilterMapConcat<A, B>(xs: seq<A>, ys: seq<A>, f: A -> Option<B>)
    ensures FilterMap(xs + ys, f) == FilterMap(xs, f) + FilterMap(ys, f)
    decreases |ys|
  {
    if ys == [] {
      assert xs + ys == xs;
    } else {
      FilterMapConcat(xs, ys[..|ys| - 1], f);
      assert (xs + ys)[..|xs + ys| - 1] == xs + ys[..|ys| - 1];
    }
  }

  /** Taking one element out of both leaves permutations. */
  lemma PermutedRest<A>(less: seq<A>, x: A, ys: seq<A>) returns (head: seq<A>, tail: seq<A>)
    requires multiset(less + [x]) == multiset(ys)
    ensures ys == head + [x] + tail && multiset(less) == multiset(head + tail)
  {
    assert x in multiset(ys);
    var i :| 0 <= i < |ys| && ys[i] == x;
    head, tail := ys[..i], ys[i + 1..];
    assert ys == head + [x] + tail;
    assert multiset(ys) == multiset(head + tail) + multiset{x};
    assert multiset(less) == multiset(less + [x]) - multiset{x};
  }

  lemma FilterMapAround<A, B>(head: seq<A>, x: A, tail: seq<A>, f: A -> Option<B>)
    ensures multiset(FilterMap(head + [x] + tail, f))
            == multiset(FilterMap(head + tail, f)) + multiset(FilterMap([x], f))
  {
    FilterMapConcat(head + [x], tail, f);
    FilterMapConcat(head, [x], f);
    FilterMapConcat(head, tail, f);
  }

  lemma {:induction false} FilterMapPermutes<A, B>(xs: seq<A>, ys: seq<A>, f: A -> Option<B>)
    requires multiset(xs) == multiset(ys)
    ensures multiset(FilterMap(xs, f)) == multiset(FilterMap(ys, f))
    decreases |xs|
  {
    hide FilterMap;
    if xs == [] {
      assert |multiset(ys)| == 0;
      assert ys == [];
    } else {
      var less, x := xs[..|xs| - 1], xs[|xs| - 1];
      assert xs == less + [x];
      var head, tail := PermutedRest(less, x, ys);
      FilterMapPermutes(less, head + tail, f);
      FilterMapConcat(less, [x], f);
      FilterMapAround(head, x, tail, f);
    }
  }

  ghost predicate SortedKeys(ks: seq<Key>) {
    forall i, j :: 0 <= i < j < |ks| ==> KeyPrecedes(ks[i], ks[j])
  }

  lemma KeysTotal(a: Key, b: Key)
    ensures KeyPrecedes(a, b) && KeyPrecedes(b, a) ==> a == b
    ensures KeyPrecedes(a, b) || KeyPrecedes(b, a)
  {
    BelowIsStrict(a.domain, b.domain);
  }

  lemma SameFirst(ks: seq<Key>, ls: seq<Key>)
    requires SortedKeys(ks) && SortedKeys(ls) && multiset(ks) == multiset(ls) && ks != [] && ls != []
    ensures ks[0] == ls[0] && multiset(ks[1..]) == multiset(ls[1..])
  {
    hide KeyPrecedes, SortedKeys;
    assert ks[0] in multiset(ls) && ls[0] in multiset(ks);
    NotAfter(ks, ls[0]);
    NotAfter(ls, ks[0]);
    KeysTotal(ks[0], ls[0]);
    assert ks == [ks[0]] + ks[1..] && ls == [ls[0]] + ls[1..];
    assert multiset(ks[1..]) == multiset(ks) - multiset{ks[0]};
    assert multiset(ls[1..]) == multiset(ls) - multiset{ls[0]};
  }

  /** There is only one sorted arrangement of some keys. */
  lemma {:induction false} SortedUnique(ks: seq<Key>, ls: seq<Key>)
    requires SortedKeys(ks) && SortedKeys(ls) && multiset(ks) == multiset(ls)
    ensures ks == ls
    decreases |ks|
  {
    hide KeyPrecedes;
    assert |ks| == |multiset(ks)| == |multiset(ls)| == |ls|;
    if ks != [] {
      SameFirst(ks, ls);
      SortedUnique(ks[1..], ls[1..]);
      assert ks == [ks[0]] + ks[1..] && ls == [ls[0]] + ls[1..];
    }
  }

  lemma NotAfter(ks: seq<Key>, k: Key)
    requires SortedKeys(ks) && k in ks
    ensures KeyPrecedes(ks[0], k)
  {
    KeysTotal(k, k);
  }

  function SomeKey(o: Observation): Option<Key> {
    Some(KeyOf(o))
  }

  function Keys(os: seq<Observation>): seq<Key> {
    FilterMap(os, SomeKey)
  }

  lemma {:induction false} KeysAt(os: seq<Observation>)
    ensures |Keys(os)| == |os| && forall i :: 0 <= i < |os| ==> Keys(os)[i] == KeyOf(os[i])
  {
    if os != [] {
      KeysAt(os[..|os| - 1]);
    }
  }

  ghost predicate Sorted(os: seq<Observation>) {
    forall i, j :: 0 <= i < j < |os| ==> KeyPrecedes(KeyOf(os[i]), KeyOf(os[j]))
  }

  lemma {:induction false} SameKeysSamePick(xs: seq<Observation>, ys: seq<Observation>)
    requires Keys(xs) == Keys(ys)
    ensures Keys(Picked(xs)) == Keys(Picked(ys))
  {
    KeysAt(xs);
    KeysAt(ys);
    if xs != [] {
      var n := |xs| - 1;
      KeysAt(xs[..n]);
      KeysAt(ys[..n]);
      assert Keys(xs[..n]) == Keys(xs)[..n] && Keys(ys[..n]) == Keys(ys)[..n];
      SameKeysSamePick(xs[..n], ys[..n]);
      var p, q := Picked(xs[..n]), Picked(ys[..n]);
      KeysAt(p);
      KeysAt(q);
      assert KeyOf(xs[n]) == KeyOf(ys[n]);
      SameDomains(p, q);
    }
  }

  lemma SameDomains(p: seq<Observation>, q: seq<Observation>)
    requires Keys(p) == Keys(q)
    ensures DomainsOf(p) == DomainsOf(q)
  {
    KeysAt(p);
    KeysAt(q);
    DomainsAt(p, []);
    DomainsAt(q, []);
    forall i | 0 <= i < |p|
      ensures DomainsOf(p)[i] == DomainsOf(q)[i]
    {
      assert Keys(p)[i].domain == Keys(q)[i].domain;
    }
  }

  // ------------------------------------------------------------ association

  function LiveRow(address: u32, ifindex: int, now: int): Observation -> Option<Observation> {
    (o: Observation) => if Live(o, address, ifindex, now) then Some(o) else None
  }

  /** What the query of one address returns. */
  function LiveRows(rows: seq<Observation>, address: u32, ifindex: int, now: int): seq<Observation> {
    FilterMap(rows, LiveRow(address, ifindex, now))
  }

  /** `sorted` is a sorted arrangement of the live rows. */
  ghost predicate SortedLive(sorted: seq<Observation>, rows: seq<Observation>, address: u32, ifindex: int, now: int) {
    Sorted(sorted) && multiset(sorted) == multiset(LiveRows(rows, address, ifindex, now))
  }

  lemma SameLiveRows(rows: seq<Observation>, others: seq<Observation>, address: u32, ifindex: int, now: int)
    requires multiset(rows) == multiset(others)
    ensures multiset(LiveRows(rows, address, ifindex, now)) == multiset(LiveRows(others, address, ifindex, now))
  {
    FilterMapPermutes(rows, others, LiveRow(address, ifindex, now));
  }

  /**
   * Whatever the order of the rows and of ties in the sort, the chosen domains
   * are the same, in the same order, with the same rank and time.
   */
  lemma OrderDoesNotMatter(
      rows: seq<Observation>, others: seq<Observation>, address: u32, ifindex: int, now: int,
      sorted: seq<Observation>, resorted: seq<Observation>)
    requires multiset(rows) == multiset(others)
    requires SortedLive(sorted, rows, address, ifindex, now) && SortedLive(resorted, others, address, ifindex, now)
    ensures DomainsOf(Picked(sorted)) == DomainsOf(Picked(resorted))
    ensures |Picked(sorted)| == |Picked(resorted)|
    ensures forall i :: 0 <= i < |Picked(sorted)| ==> KeyOf(Picked(sorted)[i]) == KeyOf(Picked(resorted)[i])
  {
    hide Picked, KeyOf, LiveRows, KeyPrecedes, Keys;
    SameLiveRows(rows, others, address, ifindex, now);
    SamePickedKeys(sorted, resorted);
    SameDomains(Picked(sorted), Picked(resorted));
  }

  /**
   * The chosen domains are distinct and few, each by its best row; every other
   * domain ranks no better than any of them.
   */
  ghost predicate BestChoice(os: seq<Observation>, p: seq<Observation>) {
    && |p| <= MAX_DOMAIN_CANDIDATES
    && (forall i, j :: 0 <= i < j < |p| ==> p[i].domain != p[j].domain && KeyPrecedes(KeyOf(p[i]), KeyOf(p[j])))
    && (forall o :: o in p ==> o in os)
    && (forall o, k :: o in os && k in p && k.domain == o.domain ==> KeyPrecedes(KeyOf(k), KeyOf(o)))
    && (forall o, k :: o in os && o.domain !in DomainsOf(p) && k in p ==> KeyPrecedes(KeyOf(k), KeyOf(o)))
    && (forall o :: o in os && o.domain !in DomainsOf(p) ==> |p| == MAX_DOMAIN_CANDIDATES)
  }

  lemma {:induction false} PickIsBest(os: seq<Observation>)
    requires Sorted(os)
    ensures BestChoice(os, Picked(os))
  {
    if os != [] {
      var n := |os| - 1;
      var less, p, o := os[..n], Picked(os[..n]), os[n];
      assert forall i :: 0 <= i < n ==> less[i] == os[i];
      assert os == less + [o];
      PickIsBest(less);
      DomainsAt(p, o.domain);
      forall k | k in p
        ensures KeyPrecedes(KeyOf(k), KeyOf(o))
      {
        assert k in less;
        var i :| 0 <= i < |less| && less[i] == k;
        assert os[i] == k;
      }
      KeysTotal(KeyOf(o), KeyOf(o));
      if |p| < MAX_DOMAIN_CANDIDATES && o.domain !in DomainsOf(p) {
        PickOneMore(less, p, o);
      }
    }
  }

  lemma PickOneMore(less: seq<Observation>, p: seq<Observation>, o: Observation)
    requires BestChoice(less, p) && |p| < MAX_DOMAIN_CANDIDATES && o.domain !in DomainsOf(p)
    requires forall k :: k in p ==> KeyPrecedes(KeyOf(k), KeyOf(o))
    ensures BestChoice(less + [o], p + [o])
  {
    hide KeyPrecedes, KeyOf, DomainsOf;
    var z := p + [o];
    KeysTotal(KeyOf(o), KeyOf(o));
    PickStaysDistinct(p, o);
    AllPicked(less, p, o);
    forall x, k | x in less + [o] && k in z && k.domain == x.domain
      ensures KeyPrecedes(KeyOf(k), KeyOf(x))
    {
      if x == o && k in p {
        DomainsAt(p, o.domain);
      }
    }
  }

  lemma PickStaysDistinct(p: seq<Observation>, o: Observation)
    requires forall i, j :: 0 <= i < j < |p| ==> p[i].domain != p[j].domain && KeyPrecedes(KeyOf(p[i]), KeyOf(p[j]))
    requires o.domain !in DomainsOf(p) && forall k :: k in p ==> KeyPrecedes(KeyOf(k), KeyOf(o))
    ensures var z := p + [o];
      forall i, j :: 0 <= i < j < |z| ==> z[i].domain != z[j].domain && KeyPrecedes(KeyOf(z[i]), KeyOf(z[j]))
  {
    hide KeyPrecedes, KeyOf, DomainsOf;
    DomainsAt(p, o.domain);
    var z := p + [o];
    forall i, j | 0 <= i < j < |z|
      ensures z[i].domain != z[j].domain && KeyPrecedes(KeyOf(z[i]), KeyOf(z[j]))
    {
      if j == |p| {
        assert z[i] in p;
      }
    }
  }

  /** While there is room, every domain has been picked. */
  lemma AllPicked(less: seq<Observation>, p: seq<Observation>, o: Observation)
    requires BestChoice(less, p) && |p| < MAX_DOMAIN_CANDIDATES
    ensures forall x :: x in less ==> x.domain in DomainsOf(p)
    ensures forall x :: x in less + [o] ==> x.domain in DomainsOf(p + [o])
  {
    hide KeyPrecedes, KeyOf;
    var z := p + [o];
    forall x | x in less + [o]
      ensures x.domain in DomainsOf(z)
    {
      assert z[..|p|] == p;
      assert DomainsOf(z) == DomainsOf(p) + [o.domain];
    }
  }

  // ---------------------------------------------------- what an address shows

  /** The row is evidence for the address now: on this interface or on all, and not expired. */
  predicate Current(o: Observation, address: u32, ifindex: int, now: int) {
    o.address == address && (o.ifindex == ifindex || o.ifindex == 0) && now < o.expiresAt
  }

  /** `a` is no worse evidence than `b`: seen on the wire rather than resolved, else more recent, else first by name. */
  predicate NoWorse(a: Observation, b: Observation) {
    var wireA, wireB := a.evidence != Dns, b.evidence != Dns;
    || (wireA && !wireB)
    || (wireA == wireB && a.lastObserved > b.lastObserved)
    || (wireA == wireB && a.lastObserved == b.lastObserved && !Below(b.domain, a.domain))
  }

  lemma NoWorseIff(a: Observation, b: Observation)
    ensures NoWorse(a, b) <==> KeyPrecedes(KeyOf(a), KeyOf(b))
  {
    hide Below;
  }

  lemma {:induction false} Filtered<A, B>(xs: seq<A>, f: A -> Option<B>)
    ensures forall y :: y in FilterMap(xs, f) <==> exists x :: x in xs && f(x) == Some(y)
  {
    if xs != [] {
      var less, x := xs[..|xs| - 1], xs[|xs| - 1];
      assert xs == less + [x];
      Filtered(less, f);
    }
  }

  lemma LiveRowsAre(rows: seq<Observation>, address: u32, ifindex: int, now: int)
    ensures forall o :: o in LiveRows(rows, address, ifindex, now) <==> o in rows && Current(o, address, ifindex, now)
  {
    Filtered(rows, LiveRow(address, ifindex, now));
    assert forall o :: LiveRow(address, ifindex, now)(o) == if Current(o, address, ifindex, now) then Some(o) else None;
  }

  lemma SortedRowsAre(rows: seq<Observation>, address: u32, ifindex: int, now: int, sorted: seq<Observation>)
    requires SortedLive(sorted, rows, address, ifindex, now)
    ensures forall o :: o in sorted <==> o in rows && Current(o, address, ifindex, now)
  {
    hide Sorted, Current, LiveRows;
    LiveRowsAre(rows, address, ifindex, now);
    forall o
      ensures o in sorted <==> o in rows && Current(o, address, ifindex, now)
    {
      assert o in multiset(sorted) <==> o in multiset(LiveRows(rows, address, ifindex, now));
    }
  }

  lemma ChoiceCovers(os: seq<Observation>, p: seq<Observation>, o: Observation)
    requires BestChoice(os, p) && o in os
    ensures
      || (exists k :: k in p && k.domain == o.domain && NoWorse(k, o))
      || (|p| == 8 && forall k :: k in p ==> NoWorse(k, o))
  {
    hide KeyPrecedes, KeyOf, NoWorse;
    DomainsAt(p, o.domain);
    forall k
      ensures NoWorse(k, o) <==> KeyPrecedes(KeyOf(k), KeyOf(o))
    {
      NoWorseIff(k, o);
    }
    if o.domain in DomainsOf(p) {
      var j :| 0 <= j < |p| && p[j].domain == o.domain;
      assert p[j] in p;
    }
  }

  /**
   * What is shown for an address: at most eight current rows of different
   * domains, best evidence first, each the best of its domain; and while fewer
   * than eight are shown, every domain with a current row.
   */
  lemma ShownIsBest(rows: seq<Observation>, address: u32, ifindex: int, now: int, sorted: seq<Observation>)
    requires SortedLive(sorted, rows, address, ifindex, now)
    ensures var p := Picked(sorted);
      && |p| <= 8
      && (forall o :: o in p ==> o in rows && Current(o, address, ifindex, now))
      && (forall i, j :: 0 <= i < j < |p| ==> p[i].domain != p[j].domain && NoWorse(p[i], p[j]))
      && forall o :: o in rows && Current(o, address, ifindex, now) ==>
           || (exists k :: k in p && k.domain == o.domain && NoWorse(k, o))
           || (|p| == 8 && forall k :: k in p ==> NoWorse(k, o))
  {
    hide KeyPrecedes, KeyOf, NoWorse, Current, LiveRows, Picked, Sorted, DomainsOf;
    var p := Picked(sorted);
    PickIsBest(sorted);
    SortedRowsAre(rows, address, ifindex, now, sorted);
    forall i, j | 0 <= i < j < |p|
      ensures p[i].domain != p[j].domain && NoWorse(p[i], p[j])
    {
      NoWorseIff(p[i], p[j]);
    }
    forall o | o in rows && Current(o, address, ifindex, now)
      ensures (exists k :: k in p && k.domain == o.domain && NoWorse(k, o))
        || (|p| == 8 && forall k :: k in p ==> NoWorse(k, o))
    {
      ChoiceCovers(sorted, p, o);
    }
  }

  // ------------------------------------------------------------------ labels

  /** What is shown of a chosen domain besides its name: how it was learned. */
  datatype Label = Label(evidence: Evidence, confidence: Confidence)

  function LabelOf(o: Observation): Label {
    Label(o.evidence, o.confidence)
  }

  ghost predicate SameLabels(p: seq<Observation>, q: seq<Observation>) {
    |p| == |q| && forall i :: 0 <= i < |p| ==> LabelOf(p[i]) == LabelOf(q[i])
  }

  /** A live row ties with a chosen one and was learned otherwise. */
  ghost predicate TiedOtherwise(os: seq<Observation>) {
    exists o, x :: o in Picked(os) && x in os && KeyOf(x) == KeyOf(o) && LabelOf(x) != LabelOf(o)
  }

  /** A chosen row is the first of its domain. */
  lemma {:induction false} PickedIsFirst(os: seq<Observation>, k: Observation) returns (j: nat)
    requires k in Picked(os)
    ensures j < |os| && os[j] == k && forall h :: 0 <= h < j ==> os[h].domain != k.domain
  {
    var less, o := os[..|os| - 1], os[|os| - 1];
    if k in Picked(less) {
      j := PickedIsFirst(less, k);
    } else {
      j := |less|;
      NoneYet(less, o);
    }
  }

  /** While there is room, a domain that is not chosen has no row. */
  lemma {:induction false} NoneYet(os: seq<Observation>, o: Observation)
    requires |Picked(os)| < MAX_DOMAIN_CANDIDATES && o.domain !in DomainsOf(Picked(os))
    ensures forall h :: 0 <= h < |os| ==> os[h].domain != o.domain
  {
    hide Picked, DomainsOf;
    if os != [] {
      OneMorePicked(os);
      NoneYet(os[..|os| - 1], o);
    }
  }

  /** While there is room, each row's domain is chosen, and none is given up. */
  lemma OneMorePicked(os: seq<Observation>)
    requires os != [] && |Picked(os)| < MAX_DOMAIN_CANDIDATES
    ensures var p := Picked(os[..|os| - 1]);
      && |p| < MAX_DOMAIN_CANDIDATES && os[|os| - 1].domain in DomainsOf(Picked(os))
      && forall d :: d in DomainsOf(p) ==> d in DomainsOf(Picked(os))
  {
    hide DomainsOf;
    DomainsOfMore(Picked(os[..|os| - 1]), os[|os| - 1]);
  }

  lemma DomainsOfMore(p: seq<Observation>, o: Observation)
    ensures DomainsOf(p + [o]) == DomainsOf(p) + [o.domain]
  {
    assert (p + [o])[..|p|] == p;
  }

  /** A row can be brought in front of all rows that tie with it. */
  lemma BringForward(os: seq<Observation>, x: Observation) returns (other: seq<Observation>, c: nat)
    requires Sorted(os) && x in os
    ensures Sorted(other) && multiset(other) == multiset(os)
    ensures c < |other| && other[c] == x && forall h :: 0 <= h < c ==> KeyOf(other[h]) != KeyOf(x)
  {
    hide KeyPrecedes, KeyOf;
    var b :| 0 <= b < |os| && os[b] == x;
    c := 0;
    while KeyOf(os[c]) != KeyOf(x)
      invariant 0 <= c <= b
      invariant forall h :: 0 <= h < c ==> KeyOf(os[h]) != KeyOf(x)
      decreases b - c
    {
      c := c + 1;
    }
    other := os[c := x][b := os[c]];
    assert forall h :: 0 <= h < |os| ==> KeyOf(other[h]) == KeyOf(os[h]);
  }

  /** With such a tie, some arrangement shows another label at the same place. */
  lemma TieShows(os: seq<Observation>, o: Observation, x: Observation) returns (other: seq<Observation>)
    requires Sorted(os) && o in Picked(os) && x in os && KeyOf(x) == KeyOf(o) && LabelOf(x) != LabelOf(o)
    ensures Sorted(other) && multiset(other) == multiset(os) && !SameLabels(Picked(os), Picked(other))
  {
    hide KeyPrecedes;
    var c;
    other, c := BringForward(os, x);
    SamePickedKeys(os, other);
    var i :| 0 <= i < |Picked(os)| && Picked(os)[i] == o;
    var y := Picked(other)[i];
    var j := PickedIsFirst(other, y);
    assert KeyOf(y) == KeyOf(x) && y.domain == x.domain;
  }

  /** Arrangements of the same rows choose rows of the same keys. */
  lemma SamePickedKeys(os: seq<Observation>, other: seq<Observation>)
    requires Sorted(os) && Sorted(other) && multiset(os) == multiset(other)
    ensures Keys(Picked(os)) == Keys(Picked(other)) && |Picked(os)| == |Picked(other)|
    ensures forall i :: 0 <= i < |Picked(os)| ==> KeyOf(Picked(os)[i]) == KeyOf(Picked(other)[i])
  {
    FilterMapPermutes(os, other, SomeKey);
    KeysAt(os);
    KeysAt(other);
    SortedUnique(Keys(os), Keys(other));
    SameKeysSamePick(os, other);
    KeysAt(Picked(os));
    KeysAt(Picked(other));
  }

  lemma NoTieNoDifference(os: seq<Observation>, other: seq<Observation>)
    requires Sorted(os) && Sorted(other) && multiset(os) == multiset(other) && !TiedOtherwise(os)
    ensures SameLabels(Picked(os), Picked(other))
  {
    hide KeyPrecedes, Picked, KeyOf, LabelOf;
    SamePickedKeys(os, other);
    PickIsBest(other);
    forall i | 0 <= i < |Picked(os)|
      ensures LabelOf(Picked(os)[i]) == LabelOf(Picked(other)[i])
    {
      var x := Picked(other)[i];
      assert x in Picked(other) && x in multiset(other);
      assert x in os && Picked(os)[i] in Picked(os);
    }
  }

  /**
   * The labels shown are independent of the order of the rows exactly when no
   * live row ties with a chosen one and was learned otherwise.
   */
  lemma LabelsFixedIff(rows: seq<Observation>, address: u32, ifindex: int, now: int, sorted: seq<Observation>)
    requires SortedLive(sorted, rows, address, ifindex, now)
    ensures
      (forall other :: SortedLive(other, rows, address, ifindex, now) ==> SameLabels(Picked(sorted), Picked(other)))
       <==> !TiedOtherwise(sorted)
  {
    hide LiveRows, Picked, KeyOf, LabelOf, Sorted, SameLabels;
    if TiedOtherwise(sorted) {
      var o, x :| o in Picked(sorted) && x in sorted && KeyOf(x) == KeyOf(o) && LabelOf(x) != LabelOf(o);
      var other := TieShows(sorted, o, x);
      assert SortedLive(other, rows, address, ifindex, now);
    } else {
      forall other | SortedLive(other, rows, address, ifindex, now)
        ensures SameLabels(Picked(sorted), Picked(other))
      {
        NoTieNoDifference(sorted, other);
      }
    }
  }

  const TLS := Observation([0x61], 1, TlsSni, Direct, 0, 5, 9)
  const HTTP := Observation([0x61], 1, HttpHost, Direct, 0, 5, 9)

  lemma PickFirstOfTwo(a: Observation, b: Observation)
    requires a.domain == b.domain
    ensures Picked([a, b]) == [a] && Picked([a]) == [a]
  {
    assert [a, b][..1] == [a] && [a][..0] == [];
    assert Picked([a]) == Picked([]) + [a];
    DomainsAt([a], b.domain);
  }

  lemma BothLive(a: Observation, b: Observation)
    requires Live(a, 1, 2, 3) && Live(b, 1, 2, 3)
    ensures LiveRows([a, b], 1, 2, 3) == [a, b]
  {
    assert [a, b][..1] == [a] && [a][..0] == [];
    assert LiveRows([a], 1, 2, 3) == LiveRows([], 1, 2, 3) + [a];
  }

  /** On a tie of rank and time, the evidence label follows the order of the rows. */
  lemma LabelsFollowTies()
    ensures SortedLive([TLS, HTTP], [TLS, HTTP], 1, 2, 3) && SortedLive([HTTP, TLS], [TLS, HTTP], 1, 2, 3)
    ensures Picked([TLS, HTTP]) == [TLS] && Picked([HTTP, TLS]) == [HTTP]
  {
    hide LiveRows, Picked, Below;
    BelowIsStrict([0x61], [0x61]);
    PickFirstOfTwo(TLS, HTTP);
    PickFirstOfTwo(HTTP, TLS);
    BothLive(TLS, HTTP);
  }
}
