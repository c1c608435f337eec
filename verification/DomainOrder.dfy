/** Canonical names and the order in which lists of domains are sorted. */
module DomainOrder {
  import opened Common

  type Bytes = seq<byte>

  const DOT: byte := 0x2e
  const DOMAIN_LABEL_MAX_LEN := 63

  // ------------------------------------------------------------- byte order

  /** Order of byte strings. */
  predicate Below(a: Bytes, b: Bytes) {
    b != [] && (a == [] || a[0] < b[0] || (a[0] == b[0] && Below(a[1..], b[1..])))
  }

  lemma {:induction false} NotBelowItself(a: Bytes)
    ensures !Below(a, a)
  {
    if a != [] {
      NotBelowItself(a[1..]);
    }
  }

  lemma {:induction false} BelowIsStrict(a: Bytes, b: Bytes)
    ensures !(Below(a, b) && Below(b, a)) && !Below(a, a)
    ensures Below(a, b) || Below(b, a) || a == b
    decreases |a| + |b|
  {
    NotBelowItself(a);
    if a != [] && b != [] {
      BelowIsStrict(a[1..], b[1..]);
      if a[0] == b[0] && a[1..] == b[1..] {
        assert a == [a[0]] + a[1..] && b == [b[0]] + b[1..];
      }
    }
  }

  // ------------------------------------------------------------ label order

  /** Order of label lists, first label first. */
  predicate LabelsBelow(a: seq<Bytes>, b: seq<Bytes>) {
    b != [] && (a == [] || Below(a[0], b[0]) || (a[0] == b[0] && LabelsBelow(a[1..], b[1..])))
  }

  function Join(labels: seq<Bytes>, separator: byte): Bytes {
    if labels == [] then []
    else if |labels| == 1 then labels[0]
    else labels[0] + ([separator] + Join(labels[1..], separator))
  }

  ghost predicate ProperLabels(labels: seq<Bytes>) {
    forall l :: l in labels ==> l != [] && 0 !in l
  }

  lemma {:induction false} BelowCommonPrefix(p: Bytes, a: Bytes, b: Bytes)
    ensures Below(p + a, p + b) <==> Below(a, b)
  {
    if p == [] {
      assert p + a == a && p + b == b;
    } else {
      assert (p + a)[1..] == p[1..] + a && (p + b)[1..] == p[1..] + b;
      BelowCommonPrefix(p[1..], a, b);
    }
  }

  /** Text after two different labels, when it is empty or starts with the separator, does not change their order. */
  lemma {:induction false} LabelsDecide(x: Bytes, s: Bytes, y: Bytes, t: Bytes)
    requires Below(x, y) && 0 !in x && 0 !in y
    requires s == [] || s[0] == 0
    ensures Below(x + s, y + t)
  {
    if x == [] {
      assert x + s == s && (y + t)[0] == y[0] && y[0] in y;
    } else {
      assert x[0] in x && y[0] in y;
      if x[0] == y[0] {
        assert 0 !in x[1..] && 0 !in y[1..];
        LabelsDecide(x[1..], s, y[1..], t);
        assert (x + s)[1..] == x[1..] + s && (y + t)[1..] == y[1..] + t;
      }
    }
  }

  function Rest(labels: seq<Bytes>): Bytes
    requires labels != []
  {
    if |labels| == 1 then [] else [0] + Join(labels[1..], 0)
  }

  lemma JoinSplit(labels: seq<Bytes>)
    requires labels != []
    ensures Join(labels, 0) == labels[0] + Rest(labels)
  {
  }

  /** Among proper labels, byte order of the joined keys is the order of the label lists. */
  lemma {:induction false} JoinEmbeds(a: seq<Bytes>, b: seq<Bytes>)
    requires ProperLabels(a) && ProperLabels(b)
    ensures Below(Join(a, 0), Join(b, 0)) <==> LabelsBelow(a, b)
    decreases |a| + |b|
  {
    if a == [] || b == [] {
      if b != [] {
        assert b[0] in b;
      }
    } else {
      assert a[0] in a && b[0] in b;
      JoinSplit(a);
      JoinSplit(b);
      BelowIsStrict(a[0], b[0]);
      if a[0] == b[0] {
        BelowCommonPrefix(a[0], Rest(a), Rest(b));
        RestEmbeds(a, b);
      } else if Below(a[0], b[0]) {
        LabelsDecide(a[0], Rest(a), b[0], Rest(b));
      } else {
        LabelsDecide(b[0], Rest(b), a[0], Rest(a));
        BelowIsStrict(Join(a, 0), Join(b, 0));
      }
    }
  }

  lemma ProperTail(a: seq<Bytes>)
    requires ProperLabels(a) && a != []
    ensures ProperLabels(a[1..])
  {
    forall l | l in a[1..]
      ensures l in a
    {
    }
  }

  lemma {:induction false} RestEmbeds(a: seq<Bytes>, b: seq<Bytes>)
    requires ProperLabels(a) && ProperLabels(b) && a != [] && b != []
    ensures Below(Rest(a), Rest(b)) <==> LabelsBelow(a[1..], b[1..])
    decreases |a| + |b| - 1
  {
    if |a| > 1 && |b| > 1 {
      ProperTail(a);
      ProperTail(b);
      JoinEmbeds(a[1..], b[1..]);
      BelowCommonPrefix([0], Join(a[1..], 0), Join(b[1..], 0));
    }
  }

  // --------------------------------------------------------------- sort key

  /** The parts of `s` between dots. */
  function Split(s: Bytes): (parts: seq<Bytes>)
    ensures parts != []
  {
    if s == [] then [[]]
    else
      var rest := Split(s[1..]);
      if s[0] == DOT then [[]] + rest else [[s[0]] + rest[0]] + rest[1..]
  }

  function NonEmpty(parts: seq<Bytes>): seq<Bytes> {
    if parts == [] then []
    else if parts[0] == [] then NonEmpty(parts[1..])
    else [parts[0]] + NonEmpty(parts[1..])
  }

  function Reverse(labels: seq<Bytes>): (r: seq<Bytes>)
    ensures |r| == |labels|
  {
    if labels == [] then [] else Reverse(labels[1..]) + [labels[0]]
  }

  /** Labels of a name from the root down; empty ones do not count. */
  function FromRoot(name: Bytes): seq<Bytes> {
    Reverse(NonEmpty(Split(name)))
  }

  function DomainSortKey(name: Bytes): Bytes {
    Join(FromRoot(name), 0)
  }

  lemma {:induction false} SplitBytes(s: Bytes, p: Bytes)
    requires p in Split(s)
    ensures forall c :: c in p ==> c in s && c != DOT
  {
    if s != [] {
      var rest := Split(s[1..]);
      if p == [] {
      } else if p in rest {
        SplitBytes(s[1..], p);
      } else {
        assert p == [s[0]] + rest[0];
        SplitBytes(s[1..], rest[0]);
      }
    }
  }

  lemma {:induction false} NonEmptyMembers(parts: seq<Bytes>, p: Bytes)
    ensures p in NonEmpty(parts) <==> p in parts && p != []
  {
    if parts != [] {
      NonEmptyMembers(parts[1..], p);
    }
  }

  lemma {:induction false} ReverseMembers(labels: seq<Bytes>, p: Bytes)
    ensures p in Reverse(labels) <==> p in labels
  {
    if labels != [] {
      ReverseMembers(labels[1..], p);
    }
  }

  lemma FromRootIsProper(name: Bytes)
    requires 0 !in name
    ensures ProperLabels(FromRoot(name))
  {
    forall l | l in FromRoot(name)
      ensures l != [] && 0 !in l
    {
      ReverseMembers(NonEmpty(Split(name)), l);
      NonEmptyMembers(Split(name), l);
      SplitBytes(name, l);
    }
  }

  /** For names without NUL, byte order of the sort keys is exactly root-first label order. */
  lemma KeyEmbedsOrder(a: Bytes, b: Bytes)
    requires 0 !in a && 0 !in b
    ensures Below(DomainSortKey(a), DomainSortKey(b)) <==> LabelsBelow(FromRoot(a), FromRoot(b))
  {
    FromRootIsProper(a);
    FromRootIsProper(b);
    JoinEmbeds(FromRoot(a), FromRoot(b));
  }

  /** Names with the same key have the same labels. */
  lemma KeyTellsLabels(a: Bytes, b: Bytes)
    requires 0 !in a && 0 !in b
    ensures DomainSortKey(a) == DomainSortKey(b) <==> FromRoot(a) == FromRoot(b)
  {
    if DomainSortKey(a) == DomainSortKey(b) {
      KeyEmbedsOrder(a, b);
      KeyEmbedsOrder(b, a);
      BelowIsStrict(DomainSortKey(a), DomainSortKey(b));
      LabelsTrichotomy(FromRoot(a), FromRoot(b));
    }
  }

  lemma {:induction false} LabelsNotBelowItself(a: seq<Bytes>)
    ensures !LabelsBelow(a, a)
  {
    if a != [] {
      NotBelowItself(a[0]);
      LabelsNotBelowItself(a[1..]);
    }
  }

  lemma {:induction false} LabelsTrichotomy(a: seq<Bytes>, b: seq<Bytes>)
    ensures LabelsBelow(a, b) || LabelsBelow(b, a) || a == b
    ensures !LabelsBelow(a, a) && !(LabelsBelow(a, b) && LabelsBelow(b, a))
    decreases |a| + |b|
  {
    LabelsNotBelowItself(a);
    if a != [] && b != [] {
      BelowIsStrict(a[0], b[0]);
      LabelsTrichotomy(a[1..], b[1..]);
      assert a == [a[0]] + a[1..] && b == [b[0]] + b[1..];
    }
  }

  lemma {:induction false} PrefixBelow(p: seq<Bytes>, more: seq<Bytes>)
    requires more != []
    ensures LabelsBelow(p, p + more)
  {
    if p != [] {
      PrefixBelow(p[1..], more);
      assert (p + more)[1..] == p[1..] + more;
    }
  }

  /** What lies between a list and an extension of it extends it as well. */
  lemma {:induction false} BetweenExtends(p: seq<Bytes>, x: seq<Bytes>, more: seq<Bytes>)
    requires LabelsBelow(p, x) && LabelsBelow(x, p + more)
    ensures p < x
  {
    if p != [] {
      assert (p + more)[1..] == p[1..] + more && (p + more)[0] == p[0];
      BelowIsStrict(p[0], x[0]);
      BetweenExtends(p[1..], x[1..], more);
      assert x == [x[0]] + x[1..] && p == [p[0]] + p[1..];
    }
  }

  /** `child` has more labels above `parent`'s. */
  predicate Subdomain(child: Bytes, parent: Bytes) {
    FromRoot(parent) < FromRoot(child)
  }

  /** A parent sorts before its subdomains, and nothing else comes between them. */
  lemma ParentHeadsItsSubtree(parent: Bytes, name: Bytes, child: Bytes)
    requires 0 !in parent && 0 !in name && 0 !in child && Subdomain(child, parent)
    ensures Below(DomainSortKey(parent), DomainSortKey(child))
    ensures Below(DomainSortKey(parent), DomainSortKey(name)) && Below(DomainSortKey(name), DomainSortKey(child)) ==>
      Subdomain(name, parent)
  {
    var p, c := FromRoot(parent), FromRoot(child);
    assert c == p + c[|p|..];
    KeyEmbedsOrder(parent, child);
    PrefixBelow(p, c[|p|..]);
    KeyEmbedsOrder(parent, name);
    KeyEmbedsOrder(name, child);
    if LabelsBelow(p, FromRoot(name)) && LabelsBelow(FromRoot(name), c) {
      BetweenExtends(p, FromRoot(name), c[|p|..]);
    }
  }

  // ------------------------------------------------------------ normal names

  function LowerByte(b: byte): byte {
    if 0x41 <= b <= 0x5a then b + 0x20 else b
  }

  function Lower(s: Bytes): (l: Bytes)
    ensures |l| == |s| && forall i :: 0 <= i < |s| ==> l[i] == LowerByte(s[i])
  {
    if s == [] then [] else [LowerByte(s[0])] + Lower(s[1..])
  }

  function Stripped(raw: Bytes): Bytes {
    if raw != [] && raw[|raw| - 1] == DOT then raw[..|raw| - 1] else raw
  }

  /** A control character at `i` of UTF-8 text: U+0000 to U+001F, U+007F, or U+0080 to U+009F as two bytes. */
  predicate ControlAt(s: Bytes, i: nat)
    requires i < |s|
  {
    s[i] < 0x20 || s[i] == 0x7f || (s[i] == 0xc2 && i + 1 < |s| && 0x80 <= s[i + 1] <= 0x9f)
  }

  /** Neither a control character, nor a space, nor a slash. */
  predicate CleanAt(s: Bytes, i: nat)
    requires i < |s|
  {
    !ControlAt(s, i) && s[i] != 0x20 && s[i] != 0x2f
  }

  ghost predicate Clean(s: Bytes) {
    forall i: nat :: i < |s| ==> CleanAt(s, i)
  }

  ghost predicate ProperName(s: Bytes) {
    1 <= |s| <= DOMAIN_MAX_LEN && (forall l :: l in Split(s) ==> 1 <= |l| <= DOMAIN_LABEL_MAX_LEN) && Clean(s)
  }

  ghost function NormalizeDomain(raw: Bytes): Option<Bytes> {
    var trimmed := Stripped(raw);
    if ProperName(trimmed) then Some(Lower(trimmed)) else None
  }

  /** The checks in the order the collector makes them. */
  method Normalize(raw: Bytes) returns (r: Option<Bytes>)
    ensures r == NormalizeDomain(raw)
  {
    var trimmed := Stripped(raw);
    if trimmed == [] || |trimmed| > DOMAIN_MAX_LEN {
      return None;
    }
    var labels := Split(trimmed);
    for i := 0 to |labels|
      invariant forall l :: l in labels[..i] ==> 1 <= |l| <= DOMAIN_LABEL_MAX_LEN
    {
      if labels[i] == [] || |labels[i]| > DOMAIN_LABEL_MAX_LEN {
        assert labels[i] in Split(trimmed);
        return None;
      }
    }
    assert labels[..|labels|] == labels;
    for i := 0 to |trimmed|
      invariant forall k: nat :: k < i ==> CleanAt(trimmed, k)
    {
      if !CleanAt(trimmed, i) {
        return None;
      }
    }
    r := Some(Lower(trimmed));
  }

  lemma LowerFirst(b: byte, s: Bytes)
    ensures Lower([b] + s) == [LowerByte(b)] + Lower(s)
  {
    assert ([b] + s)[1..] == s;
  }

  lemma {:induction false} LowerSplit(s: Bytes)
    ensures |Split(Lower(s))| == |Split(s)|
    ensures forall i :: 0 <= i < |Split(s)| ==> Split(Lower(s))[i] == Lower(Split(s)[i])
  {
    if s != [] {
      LowerSplit(s[1..]);
      assert s == [s[0]] + s[1..];
      LowerFirst(s[0], s[1..]);
      LowerSplitFirst(s[0], s[1..], Lower(s[1..]));
    }
  }

  lemma SplitFirst(b: byte, s: Bytes)
    ensures Split([b] + s) == if b == DOT then [[]] + Split(s) else [[b] + Split(s)[0]] + Split(s)[1..]
  {
    assert ([b] + s)[1..] == s;
  }

  lemma LowerSplitFirst(b: byte, s: Bytes, l: Bytes)
    requires |Split(l)| == |Split(s)| && forall i :: 0 <= i < |Split(s)| ==> Split(l)[i] == Lower(Split(s)[i])
    ensures |Split([LowerByte(b)] + l)| == |Split([b] + s)|
    ensures forall i :: 0 <= i < |Split([b] + s)| ==> Split([LowerByte(b)] + l)[i] == Lower(Split([b] + s)[i])
  {
    hide Split, Lower;
    SplitFirst(b, s);
    SplitFirst(LowerByte(b), l);
    LowerFirst(b, Split(s)[0]);
    LowerNothing();
  }

  lemma LowerNothing()
    ensures Lower([]) == []
  {
  }

  lemma LowerTwice(s: Bytes)
    ensures Lower(Lower(s)) == Lower(s)
  {
  }

  lemma LowerIsProper(s: Bytes)
    requires ProperName(s)
    ensures ProperName(Lower(s))
  {
    LowerSplit(s);
    forall l | l in Split(Lower(s))
      ensures 1 <= |l| <= DOMAIN_LABEL_MAX_LEN
    {
      var i :| 0 <= i < |Split(s)| && Split(Lower(s))[i] == l;
      assert Split(s)[i] in Split(s);
    }
    forall i: nat | i < |s|
      ensures CleanAt(Lower(s), i)
    {
      assert CleanAt(s, i);
    }
  }

  /** The last part after a final dot is empty. */
  lemma {:induction false} FinalDotLeavesEmpty(s: Bytes)
    requires s != [] && s[|s| - 1] == DOT
    ensures [] in Split(s)
  {
    if |s| == 1 {
      assert Split(s[1..]) == [[]];
      assert Split(s)[0] == [];
    } else {
      FinalDotLeavesEmpty(s[1..]);
      EmptyPartStays(s);
    }
  }

  /** A final empty part is not the one a byte in front joins. */
  lemma {:induction false} EmptyPartStays(s: Bytes)
    requires |s| >= 2 && s[|s| - 1] == DOT
    ensures [] in Split(s)
  {
    LastPart(s[1..]);
    var rest := Split(s[1..]);
    assert Split(s)[|Split(s)| - 1] == rest[|rest| - 1];
  }

  lemma SplitNothing()
    ensures Split([]) == [[]]
  {
  }

  lemma {:induction false} LastPart(s: Bytes)
    requires s != [] && s[|s| - 1] == DOT
    ensures |Split(s)| >= 2 && Split(s)[|Split(s)| - 1] == []
  {
    hide Split;
    assert s == [s[0]] + s[1..];
    SplitFirst(s[0], s[1..]);
    if |s| == 1 {
      SplitNothing();
    } else {
      LastPart(s[1..]);
    }
  }

  /** A normal name has no NUL, so the sort key orders it, and normalising it again changes nothing. */
  lemma NormalNames(raw: Bytes)
    requires NormalizeDomain(raw).Some?
    ensures var n := NormalizeDomain(raw).value;
      0 !in n && NormalizeDomain(n) == Some(n) && FromRoot(n) == Reverse(Split(n))
  {
    hide ProperName, FromRoot, Split, Lower;
    var n := Lower(Stripped(raw));
    LowerIsProper(Stripped(raw));
    LowerTwice(Stripped(raw));
    ProperNames(n);
  }

  lemma ProperNames(n: Bytes)
    requires ProperName(n)
    ensures 0 !in n && Stripped(n) == n && FromRoot(n) == Reverse(Split(n))
  {
    if n[|n| - 1] == DOT {
      FinalDotLeavesEmpty(n);
      assert false;
    }
    forall i: nat | i < |n|
      ensures n[i] != 0
    {
      assert CleanAt(n, i);
    }
    AllNonEmpty(Split(n));
  }

  lemma {:induction false} AllNonEmpty(parts: seq<Bytes>)
    requires [] !in parts
    ensures NonEmpty(parts) == parts
  {
    if parts != [] {
      AllNonEmpty(parts[1..]);
      assert parts[0] in parts;
    }
  }

  /** Names that differ in letter case, or in one final dot, normalise alike. */
  lemma NormalizeIgnoresCase(a: Bytes, b: Bytes)
    requires Lower(Stripped(a)) == Lower(Stripped(b))
    ensures NormalizeDomain(a) == NormalizeDomain(b)
  {
    var s, t := Stripped(a), Stripped(b);
    if ProperName(s) {
      LowerIsProper(s);
      RaiseIsProper(t);
    }
    if ProperName(t) {
      LowerIsProper(t);
      RaiseIsProper(s);
    }
  }

  lemma RaiseIsProper(s: Bytes)
    requires ProperName(Lower(s))
    ensures ProperName(s)
  {
    LowerSplit(s);
    forall l | l in Split(s)
      ensures 1 <= |l| <= DOMAIN_LABEL_MAX_LEN
    {
      var i :| 0 <= i < |Split(s)| && Split(s)[i] == l;
      assert Split(Lower(s))[i] in Split(Lower(s));
    }
    forall i: nat | i < |s|
      ensures CleanAt(s, i)
    {
      assert CleanAt(Lower(s), i);
    }
  }

  // -------------------------------------------------- names and labels as text

  /** Parts joined by dots, as they stand in a name. */
  function Dotted(parts: seq<Bytes>): Bytes
    requires parts != []
  {
    if |parts| == 1 then parts[0] else parts[0] + ([DOT] + Dotted(parts[1..]))
  }

  lemma {:induction false} DottedSplit(s: Bytes)
    ensures Dotted(Split(s)) == s
  {
    hide Split;
    if s == [] {
      SplitNothing();
    } else {
      var t := s[1..];
      assert s == [s[0]] + t;
      DottedSplit(t);
      SplitFirst(s[0], t);
      if s[0] == DOT {
        assert ([[]] + Split(t))[1..] == Split(t);
        assert s == [] + ([DOT] + t);
      } else {
        DottedGrows(s[0], Split(t));
      }
    }
  }

  lemma DottedGrows(b: byte, parts: seq<Bytes>)
    requires parts != []
    ensures Dotted([[b] + parts[0]] + parts[1..]) == [b] + Dotted(parts)
  {
    var more := [[b] + parts[0]] + parts[1..];
    assert more[1..] == parts[1..];
    if |parts| > 1 {
      assert ([b] + parts[0]) + ([DOT] + Dotted(parts[1..])) == [b] + (parts[0] + ([DOT] + Dotted(parts[1..])));
    }
  }

  lemma {:induction false} DottedConcat(a: seq<Bytes>, b: seq<Bytes>)
    requires a != [] && b != []
    ensures Dotted(a + b) == Dotted(a) + [DOT] + Dotted(b)
  {
    if |a| == 1 {
      assert (a + b)[1..] == b;
    } else {
      DottedConcat(a[1..], b);
      assert (a + b)[1..] == a[1..] + b;
      assert a[0] + ([DOT] + (Dotted(a[1..]) + [DOT] + Dotted(b)))
        == a[0] + ([DOT] + Dotted(a[1..])) + [DOT] + Dotted(b);
    }
  }

  lemma {:induction false} SplitConcat(x: Bytes, y: Bytes)
    ensures Split(x + [DOT] + y) == Split(x) + Split(y)
  {
    hide Split;
    if x == [] {
      SplitNothing();
      SplitFirst(DOT, y);
      assert x + [DOT] + y == [DOT] + y;
    } else {
      var t := x[1..];
      assert x == [x[0]] + t && x + [DOT] + y == [x[0]] + (t + [DOT] + y);
      SplitConcat(t, y);
      SplitFirst(x[0], t);
      SplitFirst(x[0], t + [DOT] + y);
    }
  }

  lemma {:induction false} ReverseConcat(a: seq<Bytes>, b: seq<Bytes>)
    ensures Reverse(a + b) == Reverse(b) + Reverse(a)
  {
    if a == [] {
      assert a + b == b;
    } else {
      assert (a + b)[1..] == a[1..] + b;
      ReverseConcat(a[1..], b);
    }
  }

  lemma {:induction false} ReverseTwice(a: seq<Bytes>)
    ensures Reverse(Reverse(a)) == a
  {
    if a != [] {
      ReverseTwice(a[1..]);
      ReverseConcat(Reverse(a[1..]), [a[0]]);
      var last: seq<Bytes> := [a[0]];
      assert last[1..] == [] && Reverse(last) == Reverse(last[1..]) + [a[0]];
      assert a == [a[0]] + a[1..];
    }
  }

  /**
   * The labels of a proper name from the root down, turned round and joined by dots,
   * are the name; no label holds a dot.
   */
  lemma LabelsAreTheName(n: Bytes)
    requires ProperName(n)
    ensures FromRoot(n) != [] && Dotted(Reverse(FromRoot(n))) == n
    ensures forall l :: l in FromRoot(n) ==> l != [] && DOT !in l
  {
    ProperNames(n);
    ReverseTwice(Split(n));
    DottedSplit(n);
    forall l | l in FromRoot(n)
      ensures l != [] && DOT !in l
    {
      ReverseMembers(Split(n), l);
      SplitBytes(n, l);
    }
  }

  /** Among proper names, a subdomain of a name is one that ends in a dot and that name. */
  lemma SubdomainIffSuffix(child: Bytes, parent: Bytes)
    requires ProperName(child) && ProperName(parent)
    ensures Subdomain(child, parent) <==> exists x: Bytes :: child == x + [DOT] + parent
  {
    hide ProperName, Split, Reverse, FromRoot, Dotted;
    ProperNames(child);
    ProperNames(parent);
    if Subdomain(child, parent) {
      var p, c := FromRoot(parent), FromRoot(child);
      var more := c[|p|..];
      assert c == p + more;
      ReverseConcat(p, more);
      ReverseTwice(Split(parent));
      ReverseTwice(Split(child));
      assert Split(child) == Reverse(more) + Split(parent);
      DottedConcat(Reverse(more), Split(parent));
      DottedSplit(child);
      DottedSplit(parent);
      assert child == Dotted(Reverse(more)) + [DOT] + parent;
    }
    if x: Bytes :| child == x + [DOT] + parent {
      SplitConcat(x, parent);
      ReverseConcat(Split(x), Split(parent));
      assert FromRoot(child) == FromRoot(parent) + Reverse(Split(x));
      assert |Reverse(Split(x))| > 0;
    }
  }

  // ---------------------------------------------- what normalising accepts

  lemma {:induction false} FirstPart(s: Bytes)
    ensures var f := |Split(s)[0]|;
      && f <= |s| && (f == |s| || s[f] == DOT) && forall j :: 0 <= j < f ==> s[j] != DOT
  {
    if s != [] && s[0] != DOT {
      FirstPart(s[1..]);
    }
  }

  /** Each dot is followed by a byte that is none. */
  ghost predicate DotsApart(s: Bytes) {
    forall i :: 0 <= i < |s| && s[i] == DOT ==> i + 1 < |s| && s[i + 1] != DOT
  }

  lemma {:induction false} LaterPartsFilled(s: Bytes)
    ensures (forall k :: 1 <= k < |Split(s)| ==> Split(s)[k] != []) <==> DotsApart(s)
  {
    if s == [] {
      SplitNothing();
    } else {
      var t := s[1..];
      assert s == [s[0]] + t;
      LaterPartsFilled(t);
      SplitFirst(s[0], t);
      FirstPart(t);
      DotsApartNext(s[0], t);
      PartsNext(s[0], t);
      if s[0] == DOT {
        assert forall k :: 0 <= k < |Split(t)| ==> Split(s)[k + 1] == Split(t)[k];
      }
    }
  }

  lemma DotsApartNext(b: byte, t: Bytes)
    ensures DotsApart([b] + t) <==> DotsApart(t) && (b == DOT ==> t != [] && t[0] != DOT)
  {
    var s := [b] + t;
    assert forall i :: 0 <= i < |t| ==> s[i + 1] == t[i];
    assert s[0] == b && (t != [] ==> s[1] == t[0]);
    if DotsApart(s) {
      forall i | 0 <= i < |t| && t[i] == DOT
        ensures i + 1 < |t| && t[i + 1] != DOT
      {
        assert s[i + 1] == DOT;
      }
    }
    if DotsApart(t) && (b == DOT ==> t != [] && t[0] != DOT) {
      forall i | 0 <= i < |s| && s[i] == DOT
        ensures i + 1 < |s| && s[i + 1] != DOT
      {
        if i > 0 {
          assert t[i - 1] == DOT;
          assert s[i + 1] == t[i];
        } else {
          assert s[1] == t[0];
        }
      }
    }
  }

  lemma PartsNext(b: byte, t: Bytes)
    ensures var parts := Split([b] + t);
      if b == DOT then forall k :: 1 <= k < |parts| ==> parts[k] == Split(t)[k - 1]
      else |parts| == |Split(t)| && forall k :: 1 <= k < |parts| ==> parts[k] == Split(t)[k]
    ensures b == DOT ==> |Split([b] + t)| == |Split(t)| + 1 && Split([b] + t)[0] == []
    ensures b != DOT ==> |Split([b] + t)[0]| == |Split(t)[0]| + 1
  {
    SplitFirst(b, t);
  }

  ghost predicate DotWithin(s: Bytes, i: nat) {
    exists j :: i <= j < i + 64 && j < |s| && s[j] == DOT
  }

  /** In any 64 bytes there is a dot. */
  ghost predicate DotsNear(s: Bytes) {
    forall i: nat :: i + 64 <= |s| ==> DotWithin(s, i)
  }

  lemma {:induction false} PartsShort(s: Bytes)
    ensures (forall k :: 0 <= k < |Split(s)| ==> |Split(s)[k]| <= 63) <==> DotsNear(s)
  {
    if s == [] {
      SplitNothing();
    } else {
      var t := s[1..];
      assert s == [s[0]] + t;
      PartsShort(t);
      PartsNext(s[0], t);
      FirstPart(t);
      DotsNearNext(s[0], t);
      if s[0] == DOT {
        assert forall k :: 0 <= k < |Split(t)| ==> Split(s)[k + 1] == Split(t)[k];
      }
    }
  }

  lemma DotsNearNext(b: byte, t: Bytes)
    ensures b == DOT ==> (DotsNear([b] + t) <==> DotsNear(t))
    ensures b != DOT ==> (DotsNear([b] + t) <==> DotsNear(t) && |Split(t)[0]| < 63)
  {
    var s, f := [b] + t, |Split(t)[0]|;
    FirstPart(t);
    forall i: nat
      ensures DotWithin(s, i + 1) <==> DotWithin(t, i)
    {
      if DotWithin(s, i + 1) {
        var j :| i + 1 <= j < i + 65 && j < |s| && s[j] == DOT;
        assert t[j - 1] == DOT;
      }
      if DotWithin(t, i) {
        var j :| i <= j < i + 64 && j < |t| && t[j] == DOT;
        assert s[j + 1] == DOT;
      }
    }
    if b == DOT {
      assert s[0] == DOT && DotWithin(s, 0);
    } else if f < |t| {
      assert s[f + 1] == DOT;
      assert forall j :: 0 <= j <= f ==> s[j] != DOT;
    } else {
      assert forall j :: 0 <= j < |s| ==> s[j] != DOT;
    }
    if DotsNear(s) {
      forall i: nat | i + 64 <= |t|
        ensures DotWithin(t, i)
      {
        assert DotWithin(s, i + 1);
      }
      if |s| >= 64 {
        assert DotWithin(s, 0);
      }
    }
    if DotsNear(t) && (b == DOT || f < 63) {
      forall i: nat | i + 64 <= |s|
        ensures DotWithin(s, i)
      {
        if i > 0 {
          assert DotWithin(t, i - 1);
        }
      }
    }
  }

  /** Bytes that no domain name holds: control characters of ASCII and of Unicode's first block, space and slash. */
  ghost predicate Forbidden(s: Bytes, i: nat)
    requires i < |s|
  {
    || s[i] <= 0x20 || s[i] == 0x2f || s[i] == 0x7f
    || (s[i] == 0xc2 && i + 1 < |s| && 0x80 <= s[i + 1] <= 0x9f)
  }

  /** 1 to 253 bytes, none forbidden, in labels of 1 to 63 bytes between single dots. */
  ghost predicate Acceptable(s: Bytes) {
    && 1 <= |s| <= 253 && (forall i: nat :: i < |s| ==> !Forbidden(s, i))
    && s[0] != 0x2e && DotsApart(s) && DotsNear(s)
  }

  /**
   * A name is accepted exactly when, without one final dot, it is acceptable; the
   * result is the same name in lower-case ASCII letters.
   */
  lemma NormalizeIff(raw: Bytes)
    ensures var s := if raw != [] && raw[|raw| - 1] == 0x2e then raw[..|raw| - 1] else raw;
      && (NormalizeDomain(raw).Some? <==> Acceptable(s))
      && (NormalizeDomain(raw).Some? ==>
            var n := NormalizeDomain(raw).value;
            |n| == |s| && forall i :: 0 <= i < |s| ==> n[i] == if 65 <= s[i] <= 90 then s[i] + 32 else s[i])
  {
    hide DotsApart, DotsNear, Split;
    var s := Stripped(raw);
    LaterPartsFilled(s);
    PartsShort(s);
    FirstPart(s);
    PartsAll(s);
    assert Clean(s) <==> forall i: nat :: i < |s| ==> !Forbidden(s, i) by { CleanIff(s); }
  }

  lemma CleanIff(s: Bytes)
    ensures Clean(s) <==> forall i: nat :: i < |s| ==> !Forbidden(s, i)
  {
    forall i: nat | i < |s|
      ensures CleanAt(s, i) <==> !Forbidden(s, i)
    {
    }
  }

  lemma PartsAll(s: Bytes)
    ensures (forall l :: l in Split(s) ==> 1 <= |l| <= DOMAIN_LABEL_MAX_LEN) <==>
      && (forall k :: 0 <= k < |Split(s)| ==> |Split(s)[k]| <= 63)
      && Split(s)[0] != [] && forall k :: 1 <= k < |Split(s)| ==> Split(s)[k] != []
  {
    hide Split;
    var parts := Split(s);
    if forall l :: l in parts ==> 1 <= |l| <= DOMAIN_LABEL_MAX_LEN {
      assert forall k :: 0 <= k < |parts| ==> parts[k] in parts;
    }
  }
}
