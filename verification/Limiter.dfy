/** The login limiter: a pruned map against the full failure log, and its bound (internal/auth/auth.go). */
module Limiter {

  const PER_IP_LIMIT: nat := 5
  const GLOBAL_LIMIT: nat := 20
  const LIMIT_WINDOW: nat := 60_000_000_000

  /** One recorded failure. */
  datatype Failure = Failure(ip: string, at: int)

  /** Failures later than a time, of all addresses. */
  function Count(log: seq<Failure>, since: int): nat {
    if log == [] then 0 else Count(log[..|log| - 1], since) + if log[|log| - 1].at > since then 1 else 0
  }

  function CountOf(log: seq<Failure>, ip: string, since: int): nat {
    if log == [] then 0
    else CountOf(log[..|log| - 1], ip, since) + if log[|log| - 1].ip == ip && log[|log| - 1].at > since then 1 else 0
  }

  function CountIn(log: seq<Failure>, ips: set<string>, since: int): nat {
    if log == [] then 0
    else CountIn(log[..|log| - 1], ips, since) + if log[|log| - 1].ip in ips && log[|log| - 1].at > since then 1 else 0
  }

  /** The failure times of one address later than a time, in order. */
  function TimesOf(log: seq<Failure>, ip: string, since: int): seq<int> {
    if log == [] then []
    else
      TimesOf(log[..|log| - 1], ip, since) +
      if log[|log| - 1].ip == ip && log[|log| - 1].at > since then [log[|log| - 1].at] else []
  }

  function After(times: seq<int>, since: int): seq<int> {
    if times == [] then []
    else After(times[..|times| - 1], since) + if times[|times| - 1] > since then [times[|times| - 1]] else []
  }

  /** The limiter's answer, counted over the whole log. */
  predicate Allowed(log: seq<Failure>, ip: string, now: int) {
    Count(log, now - LIMIT_WINDOW) < GLOBAL_LIMIT && CountOf(log, ip, now - LIMIT_WINDOW) < PER_IP_LIMIT
  }

  lemma AfterAppend(times: seq<int>, t: int, since: int)
    ensures After(times + [t], since) == After(times, since) + if t > since then [t] else []
  {
    assert (times + [t])[..|times|] == times;
  }

  lemma {:induction false} AfterTimes(log: seq<Failure>, ip: string, c0: int, c1: int)
    requires c0 <= c1
    ensures After(TimesOf(log, ip, c0), c1) == TimesOf(log, ip, c1)
  {
    if log != [] {
      var init, f := log[..|log| - 1], log[|log| - 1];
      AfterTimes(init, ip, c0, c1);
      if f.ip == ip && f.at > c0 {
        AfterAppend(TimesOf(init, ip, c0), f.at, c1);
      } else {
        assert TimesOf(log, ip, c0) == TimesOf(init, ip, c0);
        assert TimesOf(log, ip, c1) == TimesOf(init, ip, c1);
      }
    }
  }

  lemma {:induction false} TimesCounted(log: seq<Failure>, ip: string, since: int)
    ensures |TimesOf(log, ip, since)| == CountOf(log, ip, since)
  {
    if log != [] { TimesCounted(log[..|log| - 1], ip, since); }
  }

  lemma {:induction false} CountInAdd(log: seq<Failure>, ips: set<string>, ip: string, since: int)
    requires ip !in ips
    ensures CountIn(log, ips + {ip}, since) == CountIn(log, ips, since) + CountOf(log, ip, since)
  {
    if log != [] { CountInAdd(log[..|log| - 1], ips, ip, since); }
  }

  lemma {:induction false} CountInNone(log: seq<Failure>, since: int)
    ensures CountIn(log, {}, since) == 0
  {
    if log != [] { CountInNone(log[..|log| - 1], since); }
  }

  lemma {:induction false} CountInAll(log: seq<Failure>, ips: set<string>, since: int)
    requires forall ip | ip !in ips :: CountOf(log, ip, since) == 0
    ensures CountIn(log, ips, since) == Count(log, since)
  {
    if log != [] {
      var init, f := log[..|log| - 1], log[|log| - 1];
      forall ip | ip !in ips ensures CountOf(init, ip, since) == 0 { assert CountOf(log, ip, since) == 0; }
      CountInAll(init, ips, since);
      if f.ip !in ips { assert CountOf(log, f.ip, since) == 0; }
    }
  }

  class Manager {
    var failures: map<string, seq<int>>
    ghost var log: seq<Failure>
    ghost var clock: int
    ghost var pruned: int

    /** The map holds exactly the failures later than the last cutoff it was pruned at. */
    ghost predicate Valid()
      reads this
    {
      && pruned <= clock - LIMIT_WINDOW
      && (forall f | f in log :: f.at <= clock)
      && Mapped(failures, log, pruned)
    }

    constructor (start: int)
      ensures Valid() && log == [] && clock == start
    {
      failures, log, clock, pruned := map[], [], start, start - LIMIT_WINDOW;
    }

    /** Prunes every address's times to the window, and answers as a count over the full log would. */
    method AllowAttempt(ip: string, now: int) returns (allowed: bool)
      requires Valid() && clock <= now
      modifies this
      ensures Valid() && log == old(log) && clock == now
      ensures allowed <==> Allowed(log, ip, now)
    {
      hide TimesOf, After, Count, CountOf, CountIn, Pruning, Mapped;
      var cutoff := now - LIMIT_WINDOW;
      var total := 0;
      var rest := failures.Keys;
      ghost var seen: set<string> := {};
      CountInNone(log, cutoff);
      PruningStarts(failures, log, pruned, cutoff);
      while rest != {}
        invariant log == old(log) && clock == old(clock) && pruned == old(pruned)
        invariant Pruning(failures, log, rest, seen, pruned, cutoff)
        invariant total == CountIn(log, seen, cutoff)
        decreases |rest|
      {
        var k :| k in rest;
        PruningHas(failures, log, rest, seen, pruned, cutoff, k);
        var kept := KeepAfter(failures[k], cutoff);
        PruneOne(failures, log, rest, seen, pruned, cutoff, k, kept);
        ghost var was := failures;
        if |kept| == 0 {
          failures := failures - {k};
        } else {
          failures := failures[k := kept];
          total := total + |kept|;
        }
        assert failures == if kept == [] then was - {k} else was[k := kept];
        rest, seen := rest - {k}, seen + {k};
      }
      PruningEnds(failures, log, seen, pruned, cutoff, ip);
      clock, pruned := now, cutoff;
      if total >= GLOBAL_LIMIT { return false; }
      allowed := (if ip in failures then |failures[ip]| else 0) < PER_IP_LIMIT;
    }

    /** Notes a failed attempt. */
    method RecordFailure(ip: string, now: int)
      requires Valid() && clock <= now
      modifies this
      ensures Valid() && log == old(log) + [Failure(ip, now)] && clock == now
    {
      hide TimesOf;
      forall k
        ensures TimesOf(log + [Failure(ip, now)], k, pruned) == TimesOf(log, k, pruned) + if k == ip then [now] else []
      {
        TimesAppend(log, Failure(ip, now), k, pruned);
      }
      failures := failures[ip := (if ip in failures then failures[ip] else []) + [now]];
      log := log + [Failure(ip, now)];
      clock := now;
    }
  }

  lemma TimesAppend(log: seq<Failure>, f: Failure, ip: string, since: int)
    ensures TimesOf(log + [f], ip, since) == TimesOf(log, ip, since) + if f.ip == ip && f.at > since then [f.at] else []
  {
    assert (log + [f])[..|log|] == log;
  }

  /** The map holds every address's failures later than the cutoff, and no address without any. */
  ghost predicate Mapped(failures: map<string, seq<int>>, log: seq<Failure>, cutoff: int) {
    && (forall ip | ip in failures :: failures[ip] == TimesOf(log, ip, cutoff))
    && (forall ip | ip !in failures :: TimesOf(log, ip, cutoff) == [])
  }

  /** Half-way through pruning from cutoff c0 to c1: `seen` addresses are done, `rest` are not. */
  ghost predicate Pruning(failures: map<string, seq<int>>, log: seq<Failure>, rest: set<string>, seen: set<string>,
                          c0: int, c1: int)
  {
    && c0 <= c1 && rest !! seen && rest <= failures.Keys <= rest + seen
    && (forall k | k in rest :: failures[k] == TimesOf(log, k, c0))
    && (forall k | k in seen :: (if k in failures then failures[k] else []) == TimesOf(log, k, c1))
    && (forall k | k !in rest && k !in seen :: TimesOf(log, k, c0) == [])
  }

  lemma PruningStarts(failures: map<string, seq<int>>, log: seq<Failure>, c0: int, c1: int)
    requires c0 <= c1 && Mapped(failures, log, c0)
    ensures Pruning(failures, log, failures.Keys, {}, c0, c1)
  {
  }

  lemma PruningHas(failures: map<string, seq<int>>, log: seq<Failure>, rest: set<string>, seen: set<string>, c0: int,
                   c1: int, k: string)
    requires Pruning(failures, log, rest, seen, c0, c1) && k in rest
    ensures k in failures && k !in seen
  {
  }

  lemma {:induction false} PruneOne(failures: map<string, seq<int>>, log: seq<Failure>, rest: set<string>,
                                    seen: set<string>, c0: int, c1: int,
                 k: string, kept: seq<int>)
    requires Pruning(failures, log, rest, seen, c0, c1) && k in rest && kept == After(failures[k], c1)
    ensures Pruning(if kept == [] then failures - {k} else failures[k := kept], log, rest - {k}, seen + {k}, c0, c1)
    ensures CountIn(log, seen + {k}, c1) == CountIn(log, seen, c1) + |kept|
  {
    hide TimesOf, After, CountIn;
    AfterTimes(log, k, c0, c1);
    TimesCounted(log, k, c1);
    CountInAdd(log, seen, k, c1);
  }

  lemma {:induction false} PruningEnds(failures: map<string, seq<int>>, log: seq<Failure>, seen: set<string>, c0: int,
                                       c1: int, ip: string)
    requires Pruning(failures, log, {}, seen, c0, c1)
    ensures Mapped(failures, log, c1)
    ensures CountIn(log, seen, c1) == Count(log, c1)
    ensures CountOf(log, ip, c1) == if ip in failures then |failures[ip]| else 0
  {
    hide TimesOf, CountIn, Count, CountOf;
    forall k | k !in seen ensures TimesOf(log, k, c1) == [] && CountOf(log, k, c1) == 0 {
      AfterTimes(log, k, c0, c1);
      AfterNothing(c1);
      TimesCounted(log, k, c1);
    }
    CountInAll(log, seen, c1);
    TimesCounted(log, ip, c1);
  }

  lemma AfterNothing(since: int)
    ensures After([], since) == []
  {
  }

  method KeepAfter(times: seq<int>, cutoff: int) returns (kept: seq<int>)
    ensures kept == After(times, cutoff)
  {
    kept := [];
    for i := 0 to |times|
      invariant kept == After(times[..i], cutoff)
    {
      assert times[..i + 1][..i] == times[..i];
      if times[i] > cutoff { kept := kept + [times[i]]; }
    }
    assert times[..|times|] == times;
  }

  // ---- interleaved attempts ----

  /** A login attempt passes the check, and later either fails (and is recorded) or ends without a record.
      `flying` holds the addresses of the attempts between check and record. */
  datatype State = State(log: seq<Failure>, flying: multiset<string>, clock: int)

  datatype Event =
    | Check(ip: string, at: int)
    | Record(ip: string, at: int)
    | Finish(ip: string, at: int)

  /** One step, with at most k attempts in flight at a time. */
  predicate Step(s: State, e: Event, s': State, k: nat) {
    && s.clock <= e.at && s'.clock == e.at
    && match e
       case Check(ip, at) =>
         if Allowed(s.log, ip, at)
         then |s.flying| < k && s'.flying == s.flying + multiset{ip} && s'.log == s.log
         else s'.flying == s.flying && s'.log == s.log
       case Record(ip, at) =>
         ip in s.flying && s'.flying == s.flying - multiset{ip} && s'.log == s.log + [Failure(ip, at)]
       case Finish(ip, at) =>
         ip in s.flying && s'.flying == s.flying - multiset{ip} && s'.log == s.log
  }

  /** A run of the limiter from its empty state. */
  predicate IsRun(states: seq<State>, events: seq<Event>, k: nat) {
    && |states| == |events| + 1
    && states[0].log == [] && states[0].flying == multiset{}
    && forall i | 0 <= i < |events| :: Step(states[i], events[i], states[i + 1], k)
  }

  /** Failures within the window that opens after a time. */
  function InWindow(log: seq<Failure>, open: int): nat {
    if log == [] then 0
    else InWindow(log[..|log| - 1], open) + if open < log[|log| - 1].at <= open + LIMIT_WINDOW then 1 else 0
  }

  function InWindowOf(log: seq<Failure>, ip: string, open: int): nat {
    if log == [] then 0
    else InWindowOf(log[..|log| - 1], ip, open) +
         if log[|log| - 1].ip == ip && open < log[|log| - 1].at <= open + LIMIT_WINDOW then 1 else 0
  }

  lemma {:induction false} CountShrinks(log: seq<Failure>, ip: string, c0: int, c1: int)
    requires c0 <= c1
    ensures Count(log, c1) <= Count(log, c0) && CountOf(log, ip, c1) <= CountOf(log, ip, c0)
  {
    if log != [] { CountShrinks(log[..|log| - 1], ip, c0, c1); }
  }

  lemma {:induction false} WindowWithinCount(log: seq<Failure>, ip: string, open: int)
    ensures InWindow(log, open) <= Count(log, open) && InWindowOf(log, ip, open) <= CountOf(log, ip, open)
  {
    if log != [] { WindowWithinCount(log[..|log| - 1], ip, open); }
  }

  /** For every window that has not closed yet, the failures in it and the attempts in flight stay within the
      limits; for every window at all, its failures do. */
  ghost predicate Bounded(s: State, k: nat) {
    && |s.flying| <= k
    && (forall c | s.clock <= c + LIMIT_WINDOW :: Count(s.log, c) + |s.flying| <= GLOBAL_LIMIT - 1 + k)
    && (forall c, ip | s.clock <= c + LIMIT_WINDOW :: CountOf(s.log, ip, c) + s.flying[ip] <= PER_IP_LIMIT - 1 + k)
    && (forall c :: InWindow(s.log, c) <= GLOBAL_LIMIT - 1 + k)
    && (forall c, ip :: InWindowOf(s.log, ip, c) <= PER_IP_LIMIT - 1 + k)
  }

  lemma FlyingOne(m: multiset<string>, ip: string)
    ensures m[ip] <= |m|
  {
    assert m[ip := 0] + multiset{}[ip := m[ip]] == m;
  }

  lemma StepKeepsBound(s: State, e: Event, s': State, k: nat)
    requires Bounded(s, k) && Step(s, e, s', k)
    ensures Bounded(s', k)
  {
    hide Count, CountOf, InWindow, InWindowOf;
    match e
    case Check(ip, at) =>
      if Allowed(s.log, ip, at) {
        forall c | at <= c + LIMIT_WINDOW ensures Count(s'.log, c) + |s'.flying| <= GLOBAL_LIMIT - 1 + k {
          CountShrinks(s.log, ip, at - LIMIT_WINDOW, c);
        }
        forall c, q | at <= c + LIMIT_WINDOW ensures CountOf(s'.log, q, c) + s'.flying[q] <= PER_IP_LIMIT - 1 + k {
          if q == ip {
            CountShrinks(s.log, ip, at - LIMIT_WINDOW, c);
            FlyingOne(s'.flying, ip);
          }
        }
      }
    case Record(ip, at) =>
      forall c ensures Count(s'.log, c) == Count(s.log, c) + if at > c then 1 else 0 {
        CountOne(s.log, Failure(ip, at), ip, c);
      }
      forall c, q ensures CountOf(s'.log, q, c) == CountOf(s.log, q, c) + if q == ip && at > c then 1 else 0 {
        CountOne(s.log, Failure(ip, at), q, c);
      }
      forall c ensures InWindow(s'.log, c) <= GLOBAL_LIMIT - 1 + k {
        WindowOne(s.log, Failure(ip, at), ip, c);
        WindowWithinCount(s.log, ip, c);
      }
      forall c, q ensures InWindowOf(s'.log, q, c) <= PER_IP_LIMIT - 1 + k {
        WindowOne(s.log, Failure(ip, at), q, c);
        WindowWithinCount(s.log, q, c);
      }
    case Finish(ip, at) =>
  }

  lemma CountOne(log: seq<Failure>, f: Failure, ip: string, c: int)
    ensures Count(log + [f], c) == Count(log, c) + if f.at > c then 1 else 0
    ensures CountOf(log + [f], ip, c) == CountOf(log, ip, c) + if f.ip == ip && f.at > c then 1 else 0
  {
    assert (log + [f])[..|log|] == log;
  }

  lemma WindowOne(log: seq<Failure>, f: Failure, ip: string, c: int)
    ensures InWindow(log + [f], c) == InWindow(log, c) + if c < f.at <= c + LIMIT_WINDOW then 1 else 0
    ensures InWindowOf(log + [f], ip, c) ==
            InWindowOf(log, ip, c) + if f.ip == ip && c < f.at <= c + LIMIT_WINDOW then 1 else 0
  {
    assert (log + [f])[..|log|] == log;
  }

  lemma {:induction false} RunBounded(states: seq<State>, events: seq<Event>, k: nat, i: nat)
    requires IsRun(states, events, k) && i < |states|
    ensures Bounded(states[i], k)
    decreases i
  {
    if i > 0 {
      RunBounded(states, events, k, i - 1);
      StepKeepsBound(states[i - 1], events[i - 1], states[i], k);
    }
  }

  /** In every run with at most k attempts in flight, no window of a minute ever holds more than 19 + k
      recorded failures, nor more than 4 + k from one address. */
  lemma FailuresStayBounded(states: seq<State>, events: seq<Event>, k: nat)
    requires IsRun(states, events, k)
    ensures forall i, c | 0 <= i < |states| :: InWindow(states[i].log, c) <= 19 + k
    ensures forall i, c, ip | 0 <= i < |states| :: InWindowOf(states[i].log, ip, c) <= 4 + k
  {
    forall i | 0 <= i < |states| ensures Bounded(states[i], k) { RunBounded(states, events, k, i); }
  }
}
