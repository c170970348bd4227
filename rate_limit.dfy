/** The per-client rate limiter of the intake service (`rateLimit` and
    `rateLimitStore` in src/index.ts).

    The store maps a client key (the caller's network address) to the number
    of requests it made in its current run and the time of its previous
    request. The clock is passed in as `now`, an integer number of
    milliseconds. Each call does exactly one of three things to the caller's
    entry: creates it, resets it, or increments its count and stamps it. */
module RateLimit {

  /** Idle gap, in milliseconds, after which a client's count starts over (15 minutes). */
  const TimeLimit: int := 15 * 60 * 1000

  /** The number of requests admitted in one unbroken run. */
  const TryLimit: int := 16

  /** One stored entry: the request count and the time of the previous request. */
  datatype Entry = Entry(count: int, lastRequest: int)

  /** The store after a call together with the admission decision of that call. */
  datatype Decision = Decision(store: map<string, Entry>, admitted: bool)

  /** What one call to the rate limiter does to the store and what it answers.
      The gap is measured from the previous request, which every in-window
      request overwrites, so a run is reset only by an idle gap longer than
      TimeLimit. The count keeps growing past TryLimit. */
  function Step(store: map<string, Entry>, ip: string, now: int): (r: Decision)
    ensures r.store.Keys == store.Keys + {ip}
    ensures forall k :: k in store && k != ip ==> r.store[k] == store[k]
  {
    if ip !in store then
      Decision(store[ip := Entry(1, now)], true)
    else if now - store[ip].lastRequest > TimeLimit then
      Decision(store[ip := Entry(1, now)], true)
    else
      var e := Entry(store[ip].count + 1, now);
      Decision(store[ip := e], !(e.count > TryLimit))
  }

  /** A call that would take the increment branch and push the count past the limit. */
  predicate Throttles(store: map<string, Entry>, ip: string, now: int)
  {
    ip in store && now - store[ip].lastRequest <= TimeLimit && store[ip].count + 1 > TryLimit
  }

  /** The store invariant: every entry has count at least one and was last
      stamped no later than `clock`. */
  ghost predicate Invariant(store: map<string, Entry>, clock: int)
  {
    forall k :: k in store ==> store[k].count >= 1 && store[k].lastRequest <= clock
  }

  function Max(a: int, b: int): int { if a < b then b else a }

  /** The rate limiter's state. The map is reassigned entry by entry, as the
      source's `set` and in-place field updates change it. `latest` is the
      latest clock value seen, kept only for the invariant. */
  class RateLimiter {
    var store: map<string, Entry>
    ghost var latest: int

    ghost predicate Valid()
      reads this
    {
      Invariant(store, latest)
    }

    constructor ()
      ensures Valid() && store == map[]
    {
      store := map[];
      latest := 0;
    }

    /** Records a request from `ip` at time `now` and says whether to admit it. */
    method RateLimit(ip: string, now: int) returns (admitted: bool)
      requires Valid()
      modifies this
      ensures Valid() && latest == Max(old(latest), now)
      ensures store == Step(old(store), ip, now).store
      ensures admitted == Step(old(store), ip, now).admitted
      ensures admitted <==> !Throttles(old(store), ip, now)
    {
      StepPreservesInvariant(store, ip, latest, now);
      StepAdmitsUnlessThrottled(store, ip, now);
      latest := Max(latest, now);
      if ip !in store {
        store := store[ip := Entry(1, now)];
      } else {
        var data := store[ip];
        if now - data.lastRequest > TimeLimit {
          store := store[ip := Entry(1, now)];
        } else {
          data := data.(count := data.count + 1);
          data := data.(lastRequest := now);
          store := store[ip := data];
          if data.count > TryLimit {
            return false;
          }
        }
      }
      return true;
    }
  }

  /** A key not yet in the store is admitted and gets count 1 stamped now. */
  lemma StepNewKey(store: map<string, Entry>, ip: string, now: int)
    requires ip !in store
    ensures Step(store, ip, now).admitted
    ensures Step(store, ip, now).store == store[ip := Entry(1, now)]
  {
  }

  /** An idle gap longer than TimeLimit resets the entry and admits; a gap of
      exactly TimeLimit does not reset. */
  lemma StepReset(store: map<string, Entry>, ip: string, now: int)
    requires ip in store
    ensures now - store[ip].lastRequest > TimeLimit ==>
      Step(store, ip, now).admitted && Step(store, ip, now).store[ip] == Entry(1, now)
    ensures now - store[ip].lastRequest == TimeLimit ==>
      Step(store, ip, now).store[ip].count == store[ip].count + 1
  {
  }

  /** Within the gap the count grows by exactly one and the entry is stamped
      now, whether or not the request is then rejected. */
  lemma StepIncrement(store: map<string, Entry>, ip: string, now: int)
    requires ip in store && now - store[ip].lastRequest <= TimeLimit
    ensures Step(store, ip, now).store[ip] == Entry(store[ip].count + 1, now)
    ensures Step(store, ip, now).admitted <==> store[ip].count + 1 <= TryLimit
  {
  }

  /** A call rejects exactly when it takes the increment branch and the new
      count exceeds TryLimit. */
  lemma StepAdmitsUnlessThrottled(store: map<string, Entry>, ip: string, now: int)
    ensures Step(store, ip, now).admitted <==> !Throttles(store, ip, now)
  {
  }

  /** The caller's key is the only one touched; no entry is ever removed. */
  lemma StepTouchesOnlyCaller(store: map<string, Entry>, ip: string, other: string, now: int)
    requires other != ip
    ensures other in Step(store, ip, now).store <==> other in store
    ensures other in store ==> Step(store, ip, now).store[other] == store[other]
    ensures store.Keys <= Step(store, ip, now).store.Keys
  {
  }

  /** What a call does and answers depends only on the caller's own entry, so
      clients never affect each other's decisions. */
  lemma StepDependsOnlyOnOwnEntry(s1: map<string, Entry>, s2: map<string, Entry>, ip: string, now: int)
    requires ip in s1 <==> ip in s2
    requires ip in s1 ==> s1[ip] == s2[ip]
    ensures Step(s1, ip, now).admitted == Step(s2, ip, now).admitted
    ensures Step(s1, ip, now).store[ip] == Step(s2, ip, now).store[ip]
  {
  }

  /** Every call keeps the store invariant, with the clock advanced to the
      latest time seen. */
  lemma StepPreservesInvariant(store: map<string, Entry>, ip: string, clock: int, now: int)
    requires Invariant(store, clock)
    ensures Invariant(Step(store, ip, now).store, Max(clock, now))
  {
    var r := Step(store, ip, now);
    forall k | k in r.store
      ensures r.store[k].count >= 1 && r.store[k].lastRequest <= Max(clock, now)
    {
      if k != ip {
        assert r.store[k] == store[k];
      }
    }
  }

  /** The store after a sequence of requests from one client, with the decisions in order. */
  datatype Trace = Trace(store: map<string, Entry>, decisions: seq<bool>)

  /** Feeds the requests at `times`, in order, from client `ip`. */
  function Run(store: map<string, Entry>, ip: string, times: seq<int>): (r: Trace)
    ensures |r.decisions| == |times|
    ensures r.store.Keys == if times == [] then store.Keys else store.Keys + {ip}
    decreases |times|
  {
    if times == [] then Trace(store, [])
    else
      var d := Step(store, ip, times[0]);
      var rest := Run(d.store, ip, times[1..]);
      Trace(rest.store, [d.admitted] + rest.decisions)
  }

  /** Every gap between consecutive requests is at most TimeLimit. */
  predicate GapsWithin(times: seq<int>)
  {
    forall i :: 0 < i < |times| ==> times[i] - times[i - 1] <= TimeLimit
  }

  /** Continuing an unbroken run from a stored entry with count c: the i-th
      further request is admitted exactly when c + i + 1 <= TryLimit, and the
      count ends at c plus the number of requests. */
  lemma {:induction false} RunContinues(store: map<string, Entry>, ip: string, times: seq<int>)
    requires ip in store
    requires |times| > 0 ==> times[0] - store[ip].lastRequest <= TimeLimit
    requires GapsWithin(times)
    ensures ip in Run(store, ip, times).store
    ensures Run(store, ip, times).store[ip].count == store[ip].count + |times|
    ensures forall i :: 0 <= i < |times| ==>
      Run(store, ip, times).decisions[i] == (store[ip].count + i + 1 <= TryLimit)
    decreases |times|
  {
    if times != [] {
      var d := Step(store, ip, times[0]);
      StepIncrement(store, ip, times[0]);
      var tail := times[1..];
      assert |tail| > 0 ==> tail[0] - d.store[ip].lastRequest <= TimeLimit by {
        if |tail| > 0 {
          assert tail[0] == times[1];
        }
      }
      assert GapsWithin(tail) by {
        forall i | 0 < i < |tail| ensures tail[i] - tail[i - 1] <= TimeLimit {
          assert tail[i] == times[i + 1] && tail[i - 1] == times[i];
        }
      }
      RunContinues(d.store, ip, tail);
      var r := Run(store, ip, times);
      var rest := Run(d.store, ip, tail);
      assert r.decisions == [d.admitted] + rest.decisions;
      forall i | 0 <= i < |times|
        ensures r.decisions[i] == (store[ip].count + i + 1 <= TryLimit)
      {
        if i > 0 {
          assert r.decisions[i] == rest.decisions[i - 1];
        }
      }
    }
  }

  /** A run that starts fresh (a new key, or after an idle gap longer than
      TimeLimit) and whose later gaps are all at most TimeLimit admits its
      first 16 requests and rejects the 17th and every later one. */
  lemma {:induction false} FreshRun(store: map<string, Entry>, ip: string, times: seq<int>)
    requires |times| > 0
    requires ip !in store || times[0] - store[ip].lastRequest > TimeLimit
    requires GapsWithin(times)
    ensures ip in Run(store, ip, times).store
    ensures Run(store, ip, times).store[ip].count == |times|
    ensures forall i :: 0 <= i < |times| ==>
      Run(store, ip, times).decisions[i] == (i < TryLimit)
  {
    var d := Step(store, ip, times[0]);
    assert d.store[ip] == Entry(1, times[0]) && d.admitted;
    var tail := times[1..];
    assert GapsWithin(tail) by {
      forall i | 0 < i < |tail| ensures tail[i] - tail[i - 1] <= TimeLimit {
        assert tail[i] == times[i + 1] && tail[i - 1] == times[i];
      }
    }
    assert |tail| > 0 ==> tail[0] - d.store[ip].lastRequest <= TimeLimit by {
      if |tail| > 0 {
        assert tail[0] == times[1];
      }
    }
    RunContinues(d.store, ip, tail);
    var r := Run(store, ip, times);
    var rest := Run(d.store, ip, tail);
    assert r.decisions == [d.admitted] + rest.decisions;
    forall i | 0 <= i < |times|
      ensures r.decisions[i] == (i < TryLimit)
    {
      if i > 0 {
        assert r.decisions[i] == rest.decisions[i - 1];
      }
    }
  }
}
