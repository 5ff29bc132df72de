/**
 * The process-wide health cache and the cache-first probe
 * `checkInstanceHealth` (utils/health.ts:3-48).  The cache maps an instance's
 * URL string to its last verdict and the time it was measured; an entry is
 * used only while it is younger than five minutes, and every probe that is
 * not answered from the cache overwrites the entry for its own key.  The
 * clock reading `Date.now()` and the network's answer are parameters.
 */
module HealthCache {
  import BotDetection
  import opened Classification

  /** Time to live of a cache entry: 5 * 60 * 1000 milliseconds. */
  const HealthCheckTtl: int := 5 * 60 * 1000

  /** One cache entry: the verdict and the clock reading taken when the
      probe that produced it started. */
  datatype Entry = Entry(isHealthy: bool, lastChecked: int)

  /** The entry may still be used at time `now`. */
  predicate IsFresh(e: Entry, now: int) {
    now - e.lastChecked < HealthCheckTtl
  }

  /** `checkInstanceHealth` answers from the cache without probing. */
  predicate FreshHit(cache: map<string, Entry>, key: string, now: int) {
    key in cache && IsFresh(cache[key], now)
  }

  /** A cache entry is usable for exactly 300000 ms after it was taken: it is
      still fresh one millisecond before and stale at the boundary itself. */
  lemma TtlBoundary(healthy: bool, t: int)
    ensures IsFresh(Entry(healthy, t), t + 299999)
    ensures !IsFresh(Entry(healthy, t), t + 300000)
  {
  }

  /** One call of `checkInstanceHealth` for `key` at time `now`, with `o` the
      answer the network gives if it is asked: the verdict returned and the
      cache afterwards. */
  function Probe(cache: map<string, Entry>, key: string, now: int, o: Outcome): (r: (bool, map<string, Entry>))
    // fresh hit: the cached verdict, the cache untouched, the network ignored
    ensures FreshHit(cache, key, now) ==> r == (cache[key].isHealthy, cache)
    // the cache afterwards holds what was returned, fresh at `now`
    ensures key in r.1 && r.1[key].isHealthy == r.0 && IsFresh(r.1[key], now)
    // otherwise: the classified outcome, stamped with `now`, whatever was cached
    ensures !FreshHit(cache, key, now) ==> r.0 == Classify(o) && r.1[key] == Entry(r.0, now)
    // no other key is touched
    ensures r.1.Keys == cache.Keys + {key}
    ensures forall k :: k in cache && k != key ==> r.1[k] == cache[k]
  {
    if FreshHit(cache, key, now) then (cache[key].isHealthy, cache)
    else
      var healthy := Classify(o);
      (healthy, cache[key := Entry(healthy, now)])
  }

  /** Asking again at the same instant is answered from the cache, gives the
      same verdict and changes nothing, whatever the network would say. */
  lemma ProbeIdempotent(cache: map<string, Entry>, key: string, now: int, o1: Outcome, o2: Outcome)
    ensures Probe(Probe(cache, key, now, o1).1, key, now, o2) == Probe(cache, key, now, o1)
  {
  }

  /** The cache shared by all probes of the process. */
  class HealthCache {
    /** `healthCache`: URL string to last verdict. */
    var entries: map<string, Entry>
    /** The keys for which a network request was made, in order. */
    ghost var Probed: seq<string>

    constructor ()
      ensures entries == map[] && Probed == []
    {
      entries := map[];
      Probed := [];
    }

    /** `checkInstanceHealth(instance)` at clock reading `now`; `network` is
        the answer the request gets if one is made. */
    method CheckInstanceHealth(key: string, now: int, network: Outcome) returns (healthy: bool)
      modifies this
      ensures (healthy, entries) == Probe(old(entries), key, now, network)
      ensures Probed == if FreshHit(old(entries), key, now) then old(Probed) else old(Probed) + [key]
    {
      if key in entries {
        var cached := entries[key];
        if now - cached.lastChecked < HealthCheckTtl {
          return cached.isHealthy;
        }
      }
      Probed := Probed + [key];
      match network
      case Failed =>
        entries := entries[key := Entry(false, now)];
        healthy := false;
      case Response(status, body) =>
        if !IsOk(status) {
          entries := entries[key := Entry(false, now)];
          return false;
        }
        var sample := BotDetection.Sample(body);
        var looksRateLimited := BotDetection.ContainsAny(sample, BotDetection.BotPhrases);
        healthy := !looksRateLimited;
        entries := entries[key := Entry(healthy, now)];
    }
  }
}
