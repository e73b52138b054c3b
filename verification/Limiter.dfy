/**
 The sliding-window rate limiter of internal/apikeys/apikeys.go against a limiter that keeps its
 whole history. Instants are integers; the clock reading of a call is an input.
 */
module Limiter {
  import opened Seqs

  // ---- the reference: every grant is kept forever ---------------------------------------------

  function After(cutoff: int): int -> bool {
    (t: int) => t > cutoff
  }

  /** The grants later than the cutoff, in order. */
  function Window(times: seq<int>, cutoff: int): seq<int> {
    Filter(times, After(cutoff))
  }

  /** Every grant so far, by key. */
  type History = map<string, seq<int>>

  function GrantsOf(h: History, key: string): seq<int> {
    if key in h then h[key] else []
  }

  datatype Call = Call(key: string, limit: int, now: int)

  predicate Grants(h: History, window: nat, call: Call) {
    call.limit <= 0 || |Window(GrantsOf(h, call.key), call.now - window)| < call.limit
  }

  /** A granted call with a limit is recorded; nothing else is. */
  function Record(h: History, window: nat, call: Call): History {
    if call.limit > 0 && Grants(h, window, call) then h[call.key := GrantsOf(h, call.key) + [call.now]] else h
  }

  function Run(h: History, window: nat, calls: seq<Call>): History
    decreases |calls|
  {
    if calls == [] then h else Run(Record(h, window, calls[0]), window, calls[1..])
  }

  // ---- what the window promises ---------------------------------------------------------------

  function Within(from: int, to: int): int -> bool {
    (t: int) => from < t <= to
  }

  /** The grants in the half-open interval (end - window, end]. */
  function InWindow(times: seq<int>, window: nat, end: int): seq<int> {
    Filter(times, Within(end - window, end))
  }

  ghost predicate ClockMonotone(clock: int, calls: seq<Call>)
    decreases |calls|
  {
    calls == [] || (clock <= calls[0].now && ClockMonotone(calls[0].now, calls[1..]))
  }

  ghost predicate FixedLimit(key: string, limit: int, calls: seq<Call>) {
    forall i :: 0 <= i < |calls| && calls[i].key == key ==> calls[i].limit == limit
  }

  ghost predicate NeverMoreThan(times: seq<int>, window: nat, limit: int, clock: int) {
    && (forall i :: 0 <= i < |times| ==> times[i] <= clock)
    && (forall end :: |InWindow(times, window, end)| <= limit)
  }

  lemma {:induction false} FilterShorter<T(!new)>(s: seq<T>, p: T -> bool, q: T -> bool)
    requires forall x :: x in s && p(x) ==> q(x)
    ensures |Filter(s, p)| <= |Filter(s, q)|
  {
    if s != [] { FilterShorter(s[1..], p, q); }
  }

  lemma GrantKeepsLimit(times: seq<int>, window: nat, limit: int, clock: int, now: int)
    requires NeverMoreThan(times, window, limit, clock) && clock <= now
    requires |Window(times, now - window)| < limit
    ensures NeverMoreThan(times + [now], window, limit, now)
  {
    forall end ensures |InWindow(times + [now], window, end)| <= limit {
      var p := Within(end - window, end);
      FilterConcat(times, [now], p);
      if now <= end { FilterShorter(times, p, After(now - window)); }
      assert |InWindow(times, window, end)| <= limit;
    }
  }

  /**
   With a fixed limit, under a non-decreasing clock and whatever the other keys do, no interval of
   window length ever holds more grants of a key than its limit.
   */
  lemma {:induction false} WindowNeverOverfull(
    h: History, window: nat, calls: seq<Call>, key: string, limit: int, clock: int)
    requires limit > 0 && ClockMonotone(clock, calls) && FixedLimit(key, limit, calls)
    requires NeverMoreThan(GrantsOf(h, key), window, limit, clock)
    ensures forall end :: |InWindow(GrantsOf(Run(h, window, calls), key), window, end)| <= limit
    decreases |calls|
  {
    if calls != [] {
      var call := calls[0];
      var h' := Record(h, window, call);
      if call.key == key && Grants(h, window, call) {
        GrantKeepsLimit(GrantsOf(h, key), window, limit, clock, call.now);
      }
      assert NeverMoreThan(GrantsOf(h', key), window, limit, call.now);
      WindowNeverOverfull(h', window, calls[1..], key, limit, call.now);
    }
  }

  lemma FreshLimiterNeverOverfull(window: nat, calls: seq<Call>, key: string, limit: int, clock: int)
    requires limit > 0 && ClockMonotone(clock, calls) && FixedLimit(key, limit, calls)
    ensures forall end :: |InWindow(GrantsOf(Run(map[], window, calls), key), window, end)| <= limit
  {
    WindowNeverOverfull(map[], window, calls, key, limit, clock);
  }

  /** Without a limit every call is granted, and none is counted. */
  lemma UnlimitedIsGranted(h: History, window: nat, call: Call)
    requires call.limit <= 0
    ensures Grants(h, window, call) && Record(h, window, call) == h
  {
  }

  /** A call is denied only when exactly `limit` grants lie in the window that ends at it. */
  lemma DeniedOnlyWhenFull(h: History, window: nat, call: Call, clock: int)
    requires call.limit > 0 && clock <= call.now
    requires NeverMoreThan(GrantsOf(h, call.key), window, call.limit, clock)
    ensures !Grants(h, window, call) <==> |InWindow(GrantsOf(h, call.key), window, call.now)| == call.limit
  {
    var times := GrantsOf(h, call.key);
    FilterSame(times, After(call.now - window), Within(call.now - window, call.now));
    assert |InWindow(times, window, call.now)| <= call.limit;
  }

  // ---- closed intervals -----------------------------------------------------------------------

  function Between(from: int, to: int): int -> bool {
    (t: int) => from <= t <= to
  }

  /** The grants in the closed interval [end - window, end]. */
  function InClosedWindow(times: seq<int>, window: nat, end: int): seq<int> {
    Filter(times, Between(end - window, end))
  }

  lemma {:induction false} RunConcat(h: History, window: nat, a: seq<Call>, b: seq<Call>)
    ensures Run(h, window, a + b) == Run(Run(h, window, a), window, b)
    decreases |a|
  {
    if a == [] {
      assert a + b == b;
    } else {
      assert (a + b)[1..] == a[1..] + b;
      RunConcat(Record(h, window, a[0]), window, a[1..], b);
    }
  }

  lemma RunOne(h: History, window: nat, call: Call)
    ensures Run(h, window, [call]) == Record(h, window, call)
  {
    assert [call][1..] == [];
  }

  lemma {:induction false} FilterAll<T(!new)>(s: seq<T>, keep: T -> bool)
    requires forall x :: x in s ==> keep(x)
    ensures Filter(s, keep) == s
  {
    if s != [] { FilterAll(s[1..], keep); }
  }

  lemma {:induction false} FilterNone<T(!new)>(s: seq<T>, keep: T -> bool)
    requires forall x :: x in s ==> !keep(x)
    ensures Filter(s, keep) == []
  {
    if s != [] { FilterNone(s[1..], keep); }
  }

  function Copies<T>(x: T, n: nat): (s: seq<T>)
    ensures |s| == n && forall i :: 0 <= i < n ==> s[i] == x
  {
    seq(n, _ => x)
  }

  lemma {:induction false} CopiesMonotone(clock: int, call: Call, n: nat, later: Call)
    requires clock <= call.now <= later.now
    ensures ClockMonotone(clock, Copies(call, n) + [later])
    decreases n
  {
    var calls := Copies(call, n) + [later];
    if n == 0 {
      assert calls[1..] == [];
    } else {
      assert calls[1..] == Copies(call, n - 1) + [later];
      CopiesMonotone(call.now, call, n - 1, later);
    }
  }

  /** Up to `limit` calls at one instant are all granted. */
  lemma {:induction false} BurstIsGranted(window: nat, key: string, limit: nat, t: int, n: nat)
    requires n <= limit
    ensures GrantsOf(Run(map[], window, Copies(Call(key, limit, t), n)), key) == Copies(t, n)
  {
    if n > 0 {
      var call := Call(key, limit, t);
      BurstIsGranted(window, key, limit, t, n - 1);
      assert Copies(call, n) == Copies(call, n - 1) + [call];
      RunConcat(map[], window, Copies(call, n - 1), [call]);
      RunOne(Run(map[], window, Copies(call, n - 1)), window, call);
      assert Copies(t, n) == Copies(t, n - 1) + [t];
    }
  }

  /** `limit` calls at t and one at t + window. */
  function BothEnds(window: nat, key: string, limit: nat, t: int): seq<Call> {
    Copies(Call(key, limit, t), limit) + [Call(key, limit, t + window)]
  }

  /** Both ends of a closed interval can carry grants: one more than the limit, for every limit and window. */
  lemma ClosedIntervalCanHoldMore(window: nat, key: string, limit: nat, t: int)
    requires limit > 0
    ensures var times := GrantsOf(Run(map[], window, BothEnds(window, key, limit, t)), key);
            |InClosedWindow(times, window, t + window)| == limit + 1
  {
    var first, last := Copies(Call(key, limit, t), limit), Call(key, limit, t + window);
    var h := Run(map[], window, first);
    BurstIsGranted(window, key, limit, t, limit);
    RunConcat(map[], window, first, [last]);
    RunOne(h, window, last);
    FilterNone(Copies(t, limit), After(t));
    var times := Copies(t, limit) + [t + window];
    FilterAll(times, Between(t, t + window));
  }

  /** The calls of the key happen at instants of `instants`. */
  ghost predicate CallsWithin(key: string, calls: seq<Call>, instants: iset<int>) {
    forall i :: 0 <= i < |calls| && calls[i].key == key ==> calls[i].now in instants
  }

  ghost predicate ClosedBounded(window: nat, calls: seq<Call>, key: string, limit: int) {
    forall end :: |InClosedWindow(GrantsOf(Run(map[], window, calls), key), window, end)| <= limit
  }

  /** Every run whose calls of the key fall into `instants` meets the bound on closed intervals. */
  ghost predicate AlwaysClosedBounded(window: nat, key: string, limit: int, instants: iset<int>) {
    forall calls, clock ::
      ClockMonotone(clock, calls) && FixedLimit(key, limit, calls) && CallsWithin(key, calls, instants)
      ==> ClosedBounded(window, calls, key, limit)
  }

  lemma {:induction false} GrantsWithin(h: History, window: nat, calls: seq<Call>, key: string, instants: iset<int>)
    requires CallsWithin(key, calls, instants) && forall t :: t in GrantsOf(h, key) ==> t in instants
    ensures forall t :: t in GrantsOf(Run(h, window, calls), key) ==> t in instants
    decreases |calls|
  {
    if calls != [] { GrantsWithin(Record(h, window, calls[0]), window, calls[1..], key, instants); }
  }

  /** Without instants one window apart a closed interval holds what some half-open one holds. */
  lemma ClosedIsHalfOpen(times: seq<int>, window: nat, limit: int, instants: iset<int>, end: int)
    requires forall t :: t in times ==> t in instants
    requires forall t :: t in instants ==> t + window !in instants
    requires forall e :: |InWindow(times, window, e)| <= limit
    ensures |InClosedWindow(times, window, end)| <= limit
  {
    if end - window in times {
      assert end - window in instants && (end - window) + window !in instants;
      FilterSame(times, Between(end - window, end), Within(end - 1 - window, end - 1));
      assert |InWindow(times, window, end - 1)| <= limit;
    } else {
      FilterSame(times, Between(end - window, end), Within(end - window, end));
      assert |InWindow(times, window, end)| <= limit;
    }
  }

  /** The bound holds for closed intervals exactly when no two instants of the calls are one window apart. */
  lemma ClosedBoundExactlyWhenNoneOneWindowApart(window: nat, key: string, limit: nat, instants: iset<int>)
    requires limit > 0
    ensures AlwaysClosedBounded(window, key, limit, instants) <==> forall t :: t in instants ==> t + window !in instants
  {
    if forall t :: t in instants ==> t + window !in instants {
      forall calls, clock | ClockMonotone(clock, calls) && FixedLimit(key, limit, calls)
        && CallsWithin(key, calls, instants)
        ensures ClosedBounded(window, calls, key, limit)
      {
        FreshLimiterNeverOverfull(window, calls, key, limit, clock);
        GrantsWithin(map[], window, calls, key, instants);
        forall end ensures |InClosedWindow(GrantsOf(Run(map[], window, calls), key), window, end)| <= limit {
          ClosedIsHalfOpen(GrantsOf(Run(map[], window, calls), key), window, limit, instants, end);
        }
      }
    } else {
      var t :| t in instants && t + window in instants;
      var calls := BothEnds(window, key, limit, t);
      CopiesMonotone(t, Call(key, limit, t), limit, Call(key, limit, t + window));
      ClosedIntervalCanHoldMore(window, key, limit, t);
      assert !ClosedBounded(window, calls, key, limit);
    }
  }

  // ---- the limiter ----------------------------------------------------------------------------

  // Always true; the solver looks at a cutoff below only where a proof mentions this.
  predicate Asked(cutoff: int) { true }

  /** The lists agree on every window that can still be asked for. */
  ghost predicate SameFrom(a: seq<int>, b: seq<int>, cutoff: int) {
    forall c {:trigger Asked(c)} :: Asked(c) && c >= cutoff ==> Window(a, c) == Window(b, c)
  }

  ghost predicate Agrees(hits: map<string, seq<int>>, h: History, cutoff: int) {
    forall k :: SameFrom(GrantsOf(hits, k), GrantsOf(h, k), cutoff)
  }

  class Limiter {
    const window: nat
    var hits: map<string, seq<int>>
    ghost var history: History
    ghost var clock: int

    ghost predicate Valid()
      reads this
    {
      Agrees(hits, history, clock - window)
    }

    constructor (window: nat, ghost start: int)
      ensures Valid() && this.window == window && hits == map[] && history == map[] && clock == start
    {
      this.window := window;
      hits := map[];
      history := map[];
      clock := start;
    }

    /** Answers as the reference limiter, keeps only the last window, and leaves other keys alone. */
    method Allow(key: string, limit: int, now: int) returns (allowed: bool)
      requires Valid() && clock <= now
      modifies this
      ensures Valid() && clock == if limit <= 0 then old(clock) else now
      ensures allowed == Grants(old(history), window, Call(key, limit, now))
      ensures history == Record(old(history), window, Call(key, limit, now))
      ensures hits == NextHits(old(hits), window, Call(key, limit, now))
    {
      if limit <= 0 { return true; }
      var cutoff := now - window;
      var current := if key in hits then hits[key] else [];
      ghost var call := Call(key, limit, now);
      ghost var after, next := NextHits(hits, window, call), Record(history, window, call);
      StepAgrees(hits, history, window, call, clock);
      var kept := Prune(current, cutoff);
      if |kept| >= limit {
        assert after == hits[key := kept];
        hits, clock, history := hits[key := kept], now, next;
        return false;
      }
      kept := kept + [now];
      assert after == hits[key := kept];
      hits, clock, history := hits[key := kept], now, next;
      return true;
    }
  }

  /** The kept lists after a call: the key's list is pruned and, when the call is granted, extended. */
  function NextHits(hits: map<string, seq<int>>, window: nat, call: Call): map<string, seq<int>> {
    if call.limit <= 0 then hits
    else
      var pruned := Window(GrantsOf(hits, call.key), call.now - window);
      hits[call.key := if |pruned| < call.limit then pruned + [call.now] else pruned]
  }

  /** Kept lists that agree with the history decide as the history, and agree with it afterwards. */
  lemma StepAgrees(hits: map<string, seq<int>>, h: History, window: nat, call: Call, clock: int)
    requires call.limit > 0 && clock <= call.now && Agrees(hits, h, clock - window)
    ensures (|Window(GrantsOf(hits, call.key), call.now - window)| < call.limit) == Grants(h, window, call)
    ensures Agrees(NextHits(hits, window, call), Record(h, window, call), call.now - window)
  {
    var kept, all, cutoff := GrantsOf(hits, call.key), GrantsOf(h, call.key), call.now - window;
    assert SameFrom(kept, all, clock - window);
    WindowsSurvive(kept, all, cutoff, call.now);
    forall k ensures SameFrom(GrantsOf(NextHits(hits, window, call), k), GrantsOf(Record(h, window, call), k), cutoff) {
      assert SameFrom(GrantsOf(hits, k), GrantsOf(h, k), clock - window);
    }
  }

  /** `kept := current[:0]` and its loop: the hits to keep move to the front of the same array. */
  method Prune(current: seq<int>, cutoff: int) returns (kept: seq<int>)
    ensures kept == Window(current, cutoff)
  {
    var buf := new int[|current|](i requires 0 <= i < |current| => current[i]);
    var n := 0;
    for i := 0 to buf.Length
      invariant n <= i
      invariant buf[..n] == Window(current[..i], cutoff)
      invariant forall k :: i <= k < buf.Length ==> buf[k] == current[k]
    {
      FilterSnoc(current, i, After(cutoff));
      if buf[i] > cutoff {
        buf[n] := buf[i];
        n := n + 1;
        assert buf[..n] == buf[..n - 1] + [current[i]];
      }
    }
    assert current[..|current|] == current;
    return buf[..n];
  }

  lemma WindowsSurvive(kept: seq<int>, all: seq<int>, cutoff: int, now: int)
    requires SameFrom(kept, all, cutoff)
    ensures Window(kept, cutoff) == Window(all, cutoff)
    ensures SameFrom(Window(kept, cutoff), all, cutoff)
    ensures SameFrom(Window(kept, cutoff) + [now], all + [now], cutoff)
  {
    assert Asked(cutoff);
    PruneKeepsWindows(kept, all, cutoff);
    AppendKeepsWindows(Window(kept, cutoff), all, now, cutoff);
  }

  lemma PruneKeepsWindows(kept: seq<int>, all: seq<int>, cutoff: int)
    requires SameFrom(kept, all, cutoff)
    ensures SameFrom(Window(kept, cutoff), all, cutoff)
  {
    forall c | Asked(c) && c >= cutoff ensures Window(Window(kept, cutoff), c) == Window(all, c) {
      FilterRefine(kept, After(cutoff), After(c));
    }
  }

  lemma AppendKeepsWindows(kept: seq<int>, all: seq<int>, now: int, cutoff: int)
    requires SameFrom(kept, all, cutoff)
    ensures SameFrom(kept + [now], all + [now], cutoff)
  {
    forall c | Asked(c) && c >= cutoff ensures Window(kept + [now], c) == Window(all + [now], c) {
      assert Window(kept, c) == Window(all, c);
      FilterConcat(kept, [now], After(c));
      FilterConcat(all, [now], After(c));
    }
  }
}
