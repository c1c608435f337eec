/** Repeated domain evidence is passed on once per lifetime; purging expired entries changes nothing. */
module EvidenceCache {
  import opened Common

  /** Nanoseconds of the monotonic clock. */
  type Instant = int

  const MIN_DNS_TTL := 10
  const MAX_DNS_TTL := 3600
  const DIRECT_EVIDENCE_TTL := 300

  datatype Key = Key(domain: string, address: u32, evidence: Evidence, clientContext: u64)
  datatype Observation = Observation(key: Key, confidence: Confidence, observedAt: Instant, expiresAt: Instant)
  type Cache = map<Key, Instant>

  function ClampDnsTtl(seconds: u32): int {
    Max(MIN_DNS_TTL, Min(seconds, MAX_DNS_TTL))
  }

  /** When evidence expires: a DNS answer after its clamped TTL, a name seen on the wire after a fixed time. */
  function ExpiresAt(e: Evidence, observedAt: Instant, ttl: u32): Instant {
    observedAt + (if e == Dns then ClampDnsTtl(ttl) else DIRECT_EVIDENCE_TTL) * NS_PER_SECOND
  }

  function ConfidenceFor(e: Evidence): Confidence {
    if e == Dns then Inferred else Direct
  }

  // -------------------------------------------------------------------- cache

  predicate Fresh(c: Cache, k: Key, now: Instant) {
    k in c && c[k] > now
  }

  function Purged(c: Cache, now: Instant): Cache {
    map k | k in c && c[k] > now :: c[k]
  }

  class DomainDecoder {
    var dedupe: Cache

    constructor ()
      ensures dedupe == map[]
    {
      dedupe := map[];
    }

    method Push(k: Key, observedAt: Instant, expiresAt: Instant, now: Instant, observations: seq<Observation>)
        returns (r: seq<Observation>)
      modifies this
      ensures Fresh(old(dedupe), k, now) ==> dedupe == old(dedupe) && r == observations
      ensures !Fresh(old(dedupe), k, now) ==> dedupe == old(dedupe)[k := expiresAt]
      ensures !Fresh(old(dedupe), k, now) ==>
        r == observations + [Observation(k, ConfidenceFor(k.evidence), observedAt, expiresAt)]
    {
      if k in dedupe {
        if dedupe[k] > now {
          return observations;
        }
      }
      dedupe := dedupe[k := expiresAt];
      r := observations + [Observation(k, ConfidenceFor(k.evidence), observedAt, expiresAt)];
    }

    method PurgeExpired(now: Instant)
      modifies this
      ensures dedupe == Purged(old(dedupe), now)
    {
      dedupe := map k | k in dedupe && dedupe[k] > now :: dedupe[k];
    }
  }

  // --------------------------------------------------------------------- runs

  datatype Event = Push(key: Key, observedAt: Instant, expiresAt: Instant, now: Instant) | Purge(now: Instant)

  /** The cache before event `n`; `purging` tells whether purges take effect. */
  function CacheAt(es: seq<Event>, n: nat, purging: bool): Cache
    requires n <= |es|
  {
    if n == 0 then map[]
    else
      var c := CacheAt(es, n - 1, purging);
      match es[n - 1]
      case Push(k, _, expires, now) => if Fresh(c, k, now) then c else c[k := expires]
      case Purge(now) => if purging then Purged(c, now) else c
  }

  predicate Emits(es: seq<Event>, n: nat, purging: bool)
    requires n < |es|
  {
    es[n].Push? && !Fresh(CacheAt(es, n, purging), es[n].key, es[n].now)
  }

  /** The clock does not go back. */
  ghost predicate Nondecreasing(es: seq<Event>) {
    forall i, j :: 0 <= i < j < |es| ==> es[i].now <= es[j].now
  }

  lemma {:induction false} CachedWasEmitted(es: seq<Event>, n: nat, purging: bool, k: Key) returns (i: nat)
    requires n <= |es| && k in CacheAt(es, n, purging)
    ensures i < n && Emits(es, i, purging) && es[i].key == k && es[i].expiresAt == CacheAt(es, n, purging)[k]
  {
    var c, e := CacheAt(es, n - 1, purging), es[n - 1];
    if e.Push? && e.key == k && !Fresh(c, k, e.now) {
      i := n - 1;
    } else {
      i := CachedWasEmitted(es, n - 1, purging, k);
    }
  }

  /** An emission is remembered for as long as it has not expired, purges or not. */
  lemma {:induction false} EmittedIsCached(es: seq<Event>, i: nat, n: nat, purging: bool, now: Instant)
    requires i < n <= |es| && Emits(es, i, purging) && es[i].expiresAt > now
    requires forall j :: i < j < n ==> es[j].now <= now
    ensures var c := CacheAt(es, n, purging); es[i].key in c && c[es[i].key] == es[i].expiresAt
    decreases n
  {
    if n > i + 1 {
      EmittedIsCached(es, i, n - 1, purging, now);
    }
  }

  /** A push is passed on exactly when no earlier emission of its key is still unexpired. */
  lemma EmitsIff(es: seq<Event>, n: nat, purging: bool)
    requires Nondecreasing(es) && n < |es| && es[n].Push?
    ensures Emits(es, n, purging) <==>
      !exists i :: 0 <= i < n && Emits(es, i, purging) && es[i].key == es[n].key && es[i].expiresAt > es[n].now
  {
    var k := es[n].key;
    if i :| 0 <= i < n && Emits(es, i, purging) && es[i].key == k && es[i].expiresAt > es[n].now {
      EmittedIsCached(es, i, n, purging, es[n].now);
    }
    if Fresh(CacheAt(es, n, purging), k, es[n].now) {
      var i := CachedWasEmitted(es, n, purging, k);
    }
  }

  /** Purging changes no emission. */
  lemma {:induction false} PurgesAreTransparent(es: seq<Event>, n: nat)
    requires Nondecreasing(es) && n < |es|
    ensures Emits(es, n, true) == Emits(es, n, false)
    decreases n
  {
    if es[n].Push? {
      forall i | 0 <= i < n
        ensures Emits(es, i, true) == Emits(es, i, false)
      {
        PurgesAreTransparent(es, i);
      }
      EmitsIff(es, n, true);
      EmitsIff(es, n, false);
    }
  }

  /** Two emissions of one key are separated by the expiry of the first. */
  lemma RepeatsAreSpaced(es: seq<Event>, i: nat, j: nat, purging: bool)
    requires Nondecreasing(es) && i < j < |es| && Emits(es, i, purging)
    requires Emits(es, j, purging) && es[i].key == es[j].key
    ensures es[j].now >= es[i].expiresAt
  {
    EmitsIff(es, j, purging);
  }

  /**
   * A resolved name lives as long as its TTL says, but ten seconds at least and an
   * hour at most; one seen on the wire five minutes.
   */
  lemma LivesItsTtl(e: Evidence, observedAt: Instant, ttl: u32)
    ensures e == Dns && 10 <= ttl <= 3600 ==> ExpiresAt(e, observedAt, ttl) == observedAt + ttl * 1_000_000_000
    ensures e == Dns && ttl < 10 ==> ExpiresAt(e, observedAt, ttl) == observedAt + 10_000_000_000
    ensures e == Dns && ttl > 3600 ==> ExpiresAt(e, observedAt, ttl) == observedAt + 3_600_000_000_000
    ensures e != Dns ==> ExpiresAt(e, observedAt, ttl) == observedAt + 300_000_000_000
    ensures ConfidenceFor(e) == Direct <==> e == TlsSni || e == HttpHost
  {
  }

  /** Evidence is passed on again exactly from its expiry on, when nothing else of its key was passed on in between. */
  lemma RepeatsAtExpiry(es: seq<Event>, i: nat, n: nat, purging: bool)
    requires Nondecreasing(es) && i < n < |es| && Emits(es, i, purging) && es[n].Push? && es[n].key == es[i].key
    requires forall j :: i < j < n && Emits(es, j, purging) ==> es[j].key != es[i].key
    ensures Emits(es, n, purging) <==> es[n].now >= es[i].expiresAt
  {
    EmitsIff(es, n, purging);
    forall h | 0 <= h < i && Emits(es, h, purging) && es[h].key == es[i].key
      ensures es[h].expiresAt <= es[n].now
    {
      RepeatsAreSpaced(es, h, i, purging);
    }
  }

  /**
   * A key repeats at the earliest ten seconds after its emission was observed, and
   * five minutes for direct evidence.
   */
  lemma RepeatsWaitForTtl(es: seq<Event>, i: nat, j: nat, purging: bool, ttl: u32)
    requires Nondecreasing(es) && i < j < |es| && Emits(es, i, purging)
    requires Emits(es, j, purging) && es[i].key == es[j].key
    requires es[i].expiresAt == ExpiresAt(es[i].key.evidence, es[i].observedAt, ttl)
    ensures es[j].now - es[i].observedAt
            >= (if es[i].key.evidence == Dns then MIN_DNS_TTL else DIRECT_EVIDENCE_TTL) * NS_PER_SECOND
  {
    RepeatsAreSpaced(es, i, j, purging);
  }

  /**
   * Without a steady clock a purge can matter: the entry it dropped would have
   * suppressed an earlier-stamped repeat.
   */
  lemma PurgeMattersWhenClockGoesBack(k: Key)
    ensures var es := [Push(k, 0, 10, 0), Purge(10), Push(k, 0, 10, 5)];
      Emits(es, 2, true) && !Emits(es, 2, false)
  {
    var es := [Push(k, 0, 10, 0), Purge(10), Push(k, 0, 10, 5)];
    assert CacheAt(es, 1, true) == map[k := 10] && CacheAt(es, 1, false) == map[k := 10];
    assert CacheAt(es, 2, true) == map[] && CacheAt(es, 2, false) == map[k := 10];
  }
}
