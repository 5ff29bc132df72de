/**
 * `pickHealthyInstance` (utils/health.ts:51-73): shuffle the candidates,
 * start one cache-first probe per candidate, and resolve a single promise with
 * the first candidate whose probe settles healthy, or with null once as many
 * probes as there are candidates have settled unhealthy.
 *
 * The race is modelled by the order in which the probes settle, which is an
 * input: the callbacks of utils/health.ts:61-70 run one at a time in that
 * order, and the promise keeps the first value it is resolved with.
 */
module Selector {
  import opened Wrappers
  import opened Classification
  import opened HealthCache

  /** A probe has settled: which instance, and its verdict. */
  datatype Settlement = Settlement(instance: string, healthy: bool)

  /** The state the callbacks share: the promise (`None` while pending, then
      `Some(Some(instance))` or `Some(None)` for null) and `settledCount`. */
  datatype RaceState = RaceState(resolved: Option<Option<string>>, settledCount: nat)

  /** Before any probe has settled. */
  const Pending := RaceState(None, 0)

  /** One callback run, with `total` the number of candidates. */
  function Settle(total: nat, s: RaceState, e: Settlement): (t: RaceState)
    // a resolved promise keeps its value
    ensures s.resolved.Some? ==> t.resolved == s.resolved
    // only unhealthy settlements are counted
    ensures t.settledCount == if e.healthy then s.settledCount else s.settledCount + 1
    // null only from the unhealthy settlement that brings the count to `total`
    ensures t.resolved == Some(None) ==> s.resolved == Some(None) || (!e.healthy && t.settledCount == total)
  {
    if e.healthy then
      RaceState(if s.resolved.None? then Some(Some(e.instance)) else s.resolved, s.settledCount)
    else
      var count := s.settledCount + 1;
      RaceState(if s.resolved.None? && count == total then Some(None) else s.resolved, count)
  }

  /** The callbacks for `events`, in that order, starting from `s`. */
  function Run(total: nat, s: RaceState, events: seq<Settlement>): (t: RaceState)
    // `settledCount` grows by exactly the number of unhealthy settlements
    ensures t.settledCount == s.settledCount + UnhealthyCount(events)
    // once the promise is resolved no later settlement changes its value
    ensures s.resolved.Some? ==> t.resolved == s.resolved
    decreases |events|
  {
    if |events| == 0 then s
    else Settle(total, Run(total, s, events[..|events| - 1]), events[|events| - 1])
  }

  /** One more callback after `events`. */
  lemma RunSnoc(total: nat, s: RaceState, events: seq<Settlement>, e: Settlement)
    ensures Run(total, s, events + [e]) == Settle(total, Run(total, s, events), e)
  {
  }

  /** The number of unhealthy settlements among `events`. */
  function UnhealthyCount(events: seq<Settlement>): (n: nat)
    ensures n <= |events|
    ensures n == |events| <==> forall j :: 0 <= j < |events| ==> !events[j].healthy
    decreases |events|
  {
    if |events| == 0 then 0
    else UnhealthyCount(events[..|events| - 1]) + (if events[|events| - 1].healthy then 0 else 1)
  }

  /** `k` is the position of the first healthy settlement. */
  ghost predicate FirstHealthyAt(events: seq<Settlement>, k: int) {
    0 <= k < |events| && events[k].healthy &&
    forall j :: 0 <= j < k ==> !events[j].healthy
  }

  /** Reference definition: the instance of the first healthy settlement,
      read from the front without any counter. */
  function FirstHealthy(events: seq<Settlement>): (r: Option<string>)
    ensures r.None? <==> forall j :: 0 <= j < |events| ==> !events[j].healthy
    ensures r.Some? ==> exists k :: FirstHealthyAt(events, k) && events[k].instance == r.value
    decreases |events|
  {
    if |events| == 0 then None
    else if events[0].healthy then
      assert FirstHealthyAt(events, 0);
      Some(events[0].instance)
    else
      var rest := FirstHealthy(events[1..]);
      assert forall j :: 1 <= j < |events| ==> events[j] == events[1..][j - 1];
      assert rest.Some? ==> exists k :: FirstHealthyAt(events, k) && events[k].instance == rest.value by {
        if rest.Some? {
          var k :| FirstHealthyAt(events[1..], k) && events[1..][k].instance == rest.value;
          assert FirstHealthyAt(events, k + 1);
        }
      }
      rest
  }

  /** At most one position is the first healthy one. */
  lemma FirstHealthyUnique(events: seq<Settlement>, k1: int, k2: int)
    requires FirstHealthyAt(events, k1) && FirstHealthyAt(events, k2)
    ensures k1 == k2
  {
  }

  /** What the promise holds after `events`: the first healthy instance; else
      null once every one of `total` > 0 candidates has settled; else still
      pending.  An empty candidate list leaves the promise pending forever. */
  function Expected(total: nat, events: seq<Settlement>): Option<Option<string>> {
    match FirstHealthy(events)
    case Some(x) => Some(Some(x))
    case None => if 0 < total == |events| then Some(None) else None
  }

  /** Running two batches of callbacks is running them one after the other. */
  lemma {:induction false} RunAppend(total: nat, s: RaceState, a: seq<Settlement>, b: seq<Settlement>)
    ensures Run(total, s, a + b) == Run(total, Run(total, s, a), b)
    decreases |b|
  {
    if |b| == 0 {
      assert a + b == a;
    } else {
      var n := |b| - 1;
      assert (a + b)[..|a + b| - 1] == a + b[..n];
      RunAppend(total, s, a, b[..n]);
    }
  }

  /** Settlements that arrive after the promise is resolved are ignored. */
  lemma LaterSettlementsIgnored(total: nat, a: seq<Settlement>, b: seq<Settlement>)
    requires Run(total, Pending, a).resolved.Some?
    ensures Run(total, Pending, a + b).resolved == Run(total, Pending, a).resolved
  {
    RunAppend(total, Pending, a, b);
  }

  /** The first healthy instance of a prefix stays the first one. */
  lemma FirstHealthySnoc(events: seq<Settlement>, e: Settlement)
    ensures FirstHealthy(events + [e]) ==
      if FirstHealthy(events).Some? then FirstHealthy(events)
      else if e.healthy then Some(e.instance) else None
  {
    var all := events + [e];
    assert forall j :: 0 <= j < |events| ==> all[j] == events[j];
    assert all[|events|] == e;
    match FirstHealthy(all)
    case None =>
    case Some(x) =>
      var k :| FirstHealthyAt(all, k) && all[k].instance == x;
      if FirstHealthy(events).Some? {
        var k' :| FirstHealthyAt(events, k') && events[k'].instance == FirstHealthy(events).value;
        assert FirstHealthyAt(all, k');
        FirstHealthyUnique(all, k, k');
      } else {
        assert k == |events|;
      }
  }

  /** The counter state machine decides what the reference definition says,
      as long as no more than `total` probes have settled. */
  lemma {:induction false} RunMatchesExpected(total: nat, events: seq<Settlement>)
    requires |events| <= total
    ensures Run(total, Pending, events).resolved == Expected(total, events)
    ensures Run(total, Pending, events).settledCount == UnhealthyCount(events)
    decreases |events|
  {
    if |events| > 0 {
      var n := |events| - 1;
      var prefix, e := events[..n], events[n];
      assert events == prefix + [e];
      RunMatchesExpected(total, prefix);
      FirstHealthySnoc(prefix, e);
      if FirstHealthy(prefix).None? {
        assert UnhealthyCount(prefix) == |prefix|;
      }
    }
  }

  /** First healthy wins: the promise resolves to `x` exactly when `x` is the
      instance of the first healthy settlement. */
  lemma FirstHealthyWins(total: nat, events: seq<Settlement>, x: string)
    requires |events| <= total
    ensures Run(total, Pending, events).resolved == Some(Some(x)) <==>
            exists k :: FirstHealthyAt(events, k) && events[k].instance == x
  {
    RunMatchesExpected(total, events);
    if k :| FirstHealthyAt(events, k) && events[k].instance == x {
      var y := FirstHealthy(events).value;
      var k' :| FirstHealthyAt(events, k') && events[k'].instance == y;
      FirstHealthyUnique(events, k, k');
    }
  }

  /** Three candidates: C settles healthy first, then A unhealthy, then B
      healthy; the promise holds C and keeps it. */
  lemma FirstToSettleHealthyChosen()
    ensures Run(3, Pending, [Settlement("C", true), Settlement("A", false), Settlement("B", true)]).resolved
            == Some(Some("C"))
  {
    var events := [Settlement("C", true), Settlement("A", false), Settlement("B", true)];
    FirstHealthyWins(3, events, "C");
    assert FirstHealthyAt(events, 0);
  }

  /** Null is produced only when every one of the `total` candidates has
      settled unhealthy, and then it is. */
  lemma NullOnlyWhenAllUnhealthy(total: nat, events: seq<Settlement>)
    requires |events| <= total
    ensures Run(total, Pending, events).resolved == Some(None) <==>
            0 < total == |events| && forall j :: 0 <= j < |events| ==> !events[j].healthy
  {
    RunMatchesExpected(total, events);
  }

  /** After the probes, each probed key holds the verdict of its last
      settlement. */
  lemma {:induction false} CacheHoldsLastVerdict(cache: map<string, Entry>, keys: seq<string>, clock: seq<int>,
                                                 outcomes: seq<Outcome>, i: nat)
    requires |clock| == |keys| && |outcomes| == |keys|
    requires i < |keys| && forall j :: i < j < |keys| ==> keys[j] != keys[i]
    ensures var r := ProbeInOrder(cache, keys, clock, outcomes);
            keys[i] in r.1 && r.1[keys[i]].isHealthy == r.0[i].healthy
    decreases |keys|
  {
    var n := |keys| - 1;
    var before := ProbeInOrder(cache, keys[..n], clock[..n], outcomes[..n]);
    var last := Probe(before.1, keys[n], clock[n], outcomes[n]);
    var r := ProbeInOrder(cache, keys, clock, outcomes);
    assert r.0 == before.0 + [Settlement(keys[n], last.0)] && r.1 == last.1;
    if i < n {
      CacheHoldsLastVerdict(cache, keys[..n], clock[..n], outcomes[..n], i);
      assert keys[..n][i] == keys[i] != keys[n];
      assert r.0[i] == before.0[i];
    } else {
      assert r.0[n].healthy == last.0;
    }
  }

  /** The callback each probe's promise runs when it settles
      (utils/health.ts:61-70), over the promise `resolved` and the counter
      `settledCount`. */
  method OnSettled(total: nat, resolved: Option<Option<string>>, settledCount: nat, instance: string, healthy: bool)
    returns (resolved': Option<Option<string>>, settledCount': nat)
    ensures RaceState(resolved', settledCount') == Settle(total, RaceState(resolved, settledCount), Settlement(instance, healthy))
  {
    resolved', settledCount' := resolved, settledCount;
    if healthy {
      // resolve(instance): ignored if the promise is already resolved
      if resolved'.None? {
        resolved' := Some(Some(instance));
      }
    } else {
      settledCount' := settledCount' + 1;
      if settledCount' == total && resolved'.None? {
        resolved' := Some(None);
      }
    }
  }

  /** The probes for `keys[i]` at clock readings `clock[i]` with network
      answers `outcomes[i]`, applied to the cache one after the other: the
      settlements in that order and the cache afterwards. */
  function ProbeInOrder(cache: map<string, Entry>, keys: seq<string>, clock: seq<int>, outcomes: seq<Outcome>)
    : (r: (seq<Settlement>, map<string, Entry>))
    requires |clock| == |keys| && |outcomes| == |keys|
    ensures |r.0| == |keys|
    ensures forall i :: 0 <= i < |keys| ==> r.0[i].instance == keys[i]
    ensures r.1.Keys == cache.Keys + set i | 0 <= i < |keys| :: keys[i]
    ensures forall k :: k in cache && k !in keys ==> r.1[k] == cache[k]
    decreases |keys|
  {
    if |keys| == 0 then ([], cache)
    else
      var n := |keys| - 1;
      var before := ProbeInOrder(cache, keys[..n], clock[..n], outcomes[..n]);
      var last := Probe(before.1, keys[n], clock[n], outcomes[n]);
      (before.0 + [Settlement(keys[n], last.0)], last.1)
  }

  /** `pickHealthyInstance(instances)`.  `shuffled` is the order the random
      sort produced, `completed` the probes that have settled so far, in the
      order they settled, and `clock[i]` and `network[i]` the clock reading
      and the network's answer for the `i`-th probe to settle.  A probe need
      never settle: the timer is cleared once the headers arrive
      (utils/health.ts:31), so reading the body of an ok response has no time
      limit.  Probes are applied to the cache one at a time, in the order
      they settle.  `result` is the promise: `None` while it is still
      pending. */
  method PickHealthyInstance(cache: HealthCache, instances: seq<string>, shuffled: seq<string>,
                             completed: seq<string>, clock: seq<int>, network: seq<Outcome>)
    returns (result: Option<Option<string>>, ghost settlements: seq<Settlement>)
    requires multiset(shuffled) == multiset(instances)
    requires multiset(completed) <= multiset(shuffled)
    requires |clock| == |completed| && |network| == |completed|
    modifies cache
    ensures |settlements| == |completed|
    ensures (settlements, cache.entries) == ProbeInOrder(old(cache.entries), completed, clock, network)
    ensures result == Expected(|instances|, settlements)
    ensures result.Some? && result.value.Some? ==> result.value.value in instances
    ensures instances == [] ==> result == None
  {
    var total := |shuffled|;
    var settledCount := 0;
    result := None;
    settlements := [];
    var i := 0;
    while i < |completed|
      invariant 0 <= i <= |completed|
      invariant (settlements, cache.entries) == ProbeInOrder(old(cache.entries), completed[..i], clock[..i], network[..i])
      invariant RaceState(result, settledCount) == Run(total, Pending, settlements)
    {
      var instance := completed[i];
      var healthy := cache.CheckInstanceHealth(instance, clock[i], network[i]);
      result, settledCount := OnSettled(total, result, settledCount, instance, healthy);
      ProbeInOrderStep(old(cache.entries), completed, clock, network, i);
      RunSnoc(total, Pending, settlements, Settlement(instance, healthy));
      settlements := settlements + [Settlement(instance, healthy)];
      i := i + 1;
    }
    assert completed[..i] == completed && clock[..i] == clock && network[..i] == network;
    SelectionResult(instances, shuffled, completed, settlements);
  }

  /** One more probe adds one settlement and updates the cache. */
  lemma ProbeInOrderStep(cache: map<string, Entry>, keys: seq<string>, clock: seq<int>, outcomes: seq<Outcome>, i: nat)
    requires i < |keys| && |clock| == |keys| && |outcomes| == |keys|
    ensures var before := ProbeInOrder(cache, keys[..i], clock[..i], outcomes[..i]);
            var step := Probe(before.1, keys[i], clock[i], outcomes[i]);
            ProbeInOrder(cache, keys[..i + 1], clock[..i + 1], outcomes[..i + 1]) ==
              (before.0 + [Settlement(keys[i], step.0)], step.1)
  {
    assert keys[..i + 1][..i] == keys[..i];
    assert clock[..i + 1][..i] == clock[..i];
    assert outcomes[..i + 1][..i] == outcomes[..i];
  }

  /** What the selector's promise holds once the probes in `completed` have
      settled, whether or not the others ever do. */
  lemma SelectionResult(instances: seq<string>, shuffled: seq<string>, completed: seq<string>, settlements: seq<Settlement>)
    requires multiset(shuffled) == multiset(instances)
    requires multiset(completed) <= multiset(shuffled)
    requires |settlements| == |completed|
    requires forall j :: 0 <= j < |completed| ==> settlements[j].instance == completed[j]
    ensures Run(|shuffled|, Pending, settlements).resolved == Expected(|instances|, settlements)
    ensures var r := Expected(|instances|, settlements); r.Some? && r.value.Some? ==> r.value.value in instances
    ensures instances == [] ==> Expected(|instances|, settlements) == None
  {
    assert |completed| <= |shuffled| == |instances| by {
      var settled, all := multiset(completed), multiset(shuffled);
      assert all == settled + (all - settled);
      assert |settled| == |completed| && |all| == |shuffled|;
      assert |multiset(instances)| == |instances|;
    }
    RunMatchesExpected(|shuffled|, settlements);
    var r := Expected(|instances|, settlements);
    if r.Some? && r.value.Some? {
      var k :| FirstHealthyAt(settlements, k) && settlements[k].instance == r.value.value;
      assert completed[k] in multiset(completed);
    }
  }
}
