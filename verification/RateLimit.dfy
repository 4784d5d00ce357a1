/** The per-CPU fixed-window rate limiter. A table is one CPU's copy of the per-route state. */
module RateLimit {
  import opened Bytes

  const NS_PER_SEC := 1_000_000_000

  datatype RateState = RateState(window: u64, count: u32)

  const ZERO := RateState(0, 0)

  datatype Outcome = Outcome(allowed: bool, table: seq<RateState>)

  /** One call: a new second restarts the count, a full second refuses. */
  function Limit(table: seq<RateState>, route: nat, qps: u32, nowSec: u64): Outcome {
    if qps == 0 then Outcome(true, table)
    else if route >= |table| then Outcome(false, table)
    else
      var s := table[route];
      if s.window != nowSec then Outcome(true, table[route := RateState(nowSec, 1)])
      else if s.count >= qps then Outcome(false, table)
      else Outcome(true, table[route := s.(count := s.count + 1)])
  }

  class RateTable {
    const entries: array<RateState>

    constructor (n: nat)
      ensures fresh(entries) && entries.Length == n && forall i :: 0 <= i < n ==> entries[i] == ZERO
    {
      entries := new RateState[n](_ => ZERO);
    }

    method RateLimitAllow(route: nat, qps: u32, nowNs: u64) returns (ok: bool)
      modifies entries
      ensures Outcome(ok, entries[..]) == Limit(old(entries[..]), route, qps, nowNs / NS_PER_SEC)
      ensures forall r :: 0 <= r < entries.Length && r != route ==> entries[r] == old(entries[r])
    {
      if qps == 0 {
        return true;
      }
      if route >= entries.Length {
        return false;
      }
      var nowSec := nowNs / NS_PER_SEC;
      if entries[route].window != nowSec {
        entries[route] := RateState(nowSec, 1);
        return true;
      }
      if entries[route].count >= qps {
        return false;
      }
      entries[route] := entries[route].(count := entries[route].count + 1);
      ok := true;
    }
  }

  /** A query that reached the limiter. */
  datatype Call = Call(route: nat, ns: u64) {
    function Sec(): u64 {
      ns / NS_PER_SEC
    }
  }

  ghost predicate ClockMoves(calls: seq<Call>) {
    forall i, j :: 0 <= i < j < |calls| ==> calls[i].ns <= calls[j].ns
  }

  /** Each route has its own limit; the table starts zeroed. */
  function TableAfter(calls: seq<Call>, limits: seq<u32>, n: nat): (t: seq<RateState>)
    requires n <= |calls|
    requires forall i :: 0 <= i < |calls| ==> calls[i].route < |limits|
    ensures |t| == |limits|
  {
    if n == 0 then seq(|limits|, _ => ZERO)
    else
      var c := calls[n - 1];
      Limit(TableAfter(calls, limits, n - 1), c.route, limits[c.route], c.Sec()).table
  }

  predicate Admitted(calls: seq<Call>, limits: seq<u32>, i: nat)
    requires i < |calls|
    requires forall i :: 0 <= i < |calls| ==> calls[i].route < |limits|
  {
    Limit(TableAfter(calls, limits, i), calls[i].route, limits[calls[i].route], calls[i].Sec()).allowed
  }

  /** How many of the first n calls of a route reached the limiter in a second. */
  function Reached(calls: seq<Call>, route: nat, sec: nat, n: nat): nat
    requires n <= |calls|
  {
    if n == 0 then 0
    else Reached(calls, route, sec, n - 1) + if calls[n - 1].route == route && calls[n - 1].Sec() == sec then 1 else 0
  }

  /** ... and how many were admitted. */
  function AdmittedIn(calls: seq<Call>, limits: seq<u32>, route: nat, sec: nat, n: nat): nat
    requires n <= |calls|
    requires forall i :: 0 <= i < |calls| ==> calls[i].route < |limits|
  {
    if n == 0 then 0
    else
      AdmittedIn(calls, limits, route, sec, n - 1) +
      if calls[n - 1].route == route && calls[n - 1].Sec() == sec && Admitted(calls, limits, n - 1) then 1 else 0
  }

  function Min(a: nat, b: nat): nat {
    if a < b then a else b
  }

  /** The route's entry mirrors the latest second in which the route was called. */
  predicate Mirrors(calls: seq<Call>, limits: seq<u32>, route: nat, n: nat)
    requires n <= |calls| && route < |limits|
    requires forall i :: 0 <= i < |calls| ==> calls[i].route < |limits|
  {
    var s := TableAfter(calls, limits, n)[route];
    var seen := Reached(calls, route, s.window, n);
    && s.count == Min(limits[route], seen)
    && (seen == 0 ==> s == ZERO)
  }

  lemma {:induction false} LaterSecondsUnseen(calls: seq<Call>, route: nat, sec: nat, n: nat, ns: nat)
    requires n <= |calls| && ns / NS_PER_SEC < sec
    requires forall i :: 0 <= i < n ==> calls[i].ns <= ns
    ensures Reached(calls, route, sec, n) == 0
  {
    if n > 0 {
      assert calls[n - 1].ns <= ns;
      LaterSecondsUnseen(calls, route, sec, n - 1, ns);
    }
  }

  lemma WindowNotAhead(calls: seq<Call>, limits: seq<u32>, route: nat, n: nat)
    requires n < |calls| && route < |limits| && ClockMoves(calls)
    requires forall i :: 0 <= i < |calls| ==> calls[i].route < |limits|
    requires Mirrors(calls, limits, route, n)
    ensures TableAfter(calls, limits, n)[route].window <= calls[n].Sec()
  {
    var w := TableAfter(calls, limits, n)[route].window;
    if calls[n].Sec() < w {
      LaterSecondsUnseen(calls, route, w, n, calls[n].ns);
    }
  }

  /** A second ahead of the route's window has seen no call of the route. */
  lemma {:induction false} SecondUnseen(calls: seq<Call>, limits: seq<u32>, route: nat, n: nat, sec: nat)
    requires n <= |calls| && route < |limits| && ClockMoves(calls) && limits[route] > 0
    requires forall i :: 0 <= i < |calls| ==> calls[i].route < |limits|
    requires TableAfter(calls, limits, n)[route].window < sec
    ensures Reached(calls, route, sec, n) == 0
  {
    if n > 0 {
      if calls[n - 1].route == route {
        assert TableAfter(calls, limits, n)[route].window == calls[n - 1].Sec();
        LaterSecondsUnseen(calls, route, sec, n, calls[n - 1].ns);
      } else {
        SecondUnseen(calls, limits, route, n - 1, sec);
      }
    }
  }

  lemma {:induction false} MirrorsAlways(calls: seq<Call>, limits: seq<u32>, route: nat, n: nat)
    requires n <= |calls| && route < |limits| && ClockMoves(calls) && limits[route] > 0
    requires forall i :: 0 <= i < |calls| ==> calls[i].route < |limits|
    ensures Mirrors(calls, limits, route, n)
  {
    if n > 0 {
      MirrorsAlways(calls, limits, route, n - 1);
      WindowNotAhead(calls, limits, route, n - 1);
      var w := TableAfter(calls, limits, n - 1)[route].window;
      if calls[n - 1].route == route && w < calls[n - 1].Sec() {
        SecondUnseen(calls, limits, route, n - 1, calls[n - 1].Sec());
      }
    }
  }

  /** Over every run, each second admits exactly the smaller of the limit and the calls that reached it. */
  lemma {:induction false} Exact(calls: seq<Call>, limits: seq<u32>, route: nat, sec: nat, n: nat)
    requires n <= |calls| && route < |limits| && ClockMoves(calls) && limits[route] > 0
    requires forall i :: 0 <= i < |calls| ==> calls[i].route < |limits|
    ensures AdmittedIn(calls, limits, route, sec, n) == Min(limits[route], Reached(calls, route, sec, n))
  {
    if n > 0 {
      Exact(calls, limits, route, sec, n - 1);
      if calls[n - 1].route == route && calls[n - 1].Sec() == sec {
        MirrorsAlways(calls, limits, route, n - 1);
        WindowNotAhead(calls, limits, route, n - 1);
        if TableAfter(calls, limits, n - 1)[route].window < sec {
          SecondUnseen(calls, limits, route, n - 1, sec);
        }
      }
    }
  }

  /** How many of the first n calls of a route were admitted between two instants, both included. */
  function AdmittedBetween(calls: seq<Call>, limits: seq<u32>, route: nat, from: nat, to: nat, n: nat): nat
    requires n <= |calls|
    requires forall i :: 0 <= i < |calls| ==> calls[i].route < |limits|
  {
    if n == 0 then 0
    else
      AdmittedBetween(calls, limits, route, from, to, n - 1) +
      if calls[n - 1].route == route && from <= calls[n - 1].ns <= to && Admitted(calls, limits, n - 1) then 1 else 0
  }

  lemma {:induction false} BetweenTouchesTwoSeconds(
    calls: seq<Call>, limits: seq<u32>, route: nat, from: nat, to: nat, n: nat)
    requires n <= |calls| && from <= to <= from + NS_PER_SEC
    requires forall i :: 0 <= i < |calls| ==> calls[i].route < |limits|
    ensures var sec := from / NS_PER_SEC;
            AdmittedBetween(calls, limits, route, from, to, n) <=
            AdmittedIn(calls, limits, route, sec, n) + AdmittedIn(calls, limits, route, sec + 1, n)
  {
    if n > 0 {
      BetweenTouchesTwoSeconds(calls, limits, route, from, to, n - 1);
    }
  }

  /** No interval of one second or less admits more than twice the limit. */
  lemma BurstBound(calls: seq<Call>, limits: seq<u32>, route: nat, from: nat, to: nat)
    requires route < |limits| && ClockMoves(calls) && limits[route] > 0 && from <= to <= from + 1_000_000_000
    requires forall i :: 0 <= i < |calls| ==> calls[i].route < |limits|
    ensures AdmittedBetween(calls, limits, route, from, to, |calls|) <= limits[route] as int + limits[route] as int
  {
    var sec := from / NS_PER_SEC;
    BetweenTouchesTwoSeconds(calls, limits, route, from, to, |calls|);
    Exact(calls, limits, route, sec, |calls|);
    Exact(calls, limits, route, sec + 1, |calls|);
  }

  /** How many of the first n calls of a route came between two instants, both included. */
  function ReachedBetween(calls: seq<Call>, route: nat, from: nat, to: nat, n: nat): nat
    requires n <= |calls|
  {
    if n == 0 then 0
    else
      ReachedBetween(calls, route, from, to, n - 1) +
      if calls[n - 1].route == route && from <= calls[n - 1].ns <= to then 1 else 0
  }

  /** A second is a thousand million nanoseconds. */
  lemma SecondSpan(ns: nat, sec: nat)
    ensures ns / NS_PER_SEC == sec <==> sec * 1_000_000_000 <= ns <= sec * 1_000_000_000 + 999_999_999
  {
  }

  lemma {:induction false} SecondIsInterval(calls: seq<Call>, limits: seq<u32>, route: nat, sec: nat, n: nat)
    requires n <= |calls| && forall i :: 0 <= i < |calls| ==> calls[i].route < |limits|
    ensures var from, to := sec * 1_000_000_000, sec * 1_000_000_000 + 999_999_999;
            && Reached(calls, route, sec, n) == ReachedBetween(calls, route, from, to, n)
            && AdmittedIn(calls, limits, route, sec, n) == AdmittedBetween(calls, limits, route, from, to, n)
  {
    hide Admitted;
    if n > 0 {
      SecondIsInterval(calls, limits, route, sec, n - 1);
      SecondSpan(calls[n - 1].ns, sec);
    }
  }

  /** The exact count, in nanoseconds. */
  lemma ExactInNanoseconds(calls: seq<Call>, limits: seq<u32>, route: nat, sec: nat)
    requires route < |limits| && ClockMoves(calls) && limits[route] > 0
    requires forall i :: 0 <= i < |calls| ==> calls[i].route < |limits|
    ensures var from, to := sec * 1_000_000_000, sec * 1_000_000_000 + 999_999_999;
            AdmittedBetween(calls, limits, route, from, to, |calls|) ==
            Min(limits[route], ReachedBetween(calls, route, from, to, |calls|))
  {
    Exact(calls, limits, route, sec, |calls|);
    SecondIsInterval(calls, limits, route, sec, |calls|);
  }

  /** A route without a limit is never refused and never counted; an id outside the table always is refused. */
  lemma LimitEdges(table: seq<RateState>, route: nat, qps: u32, nowSec: u64)
    ensures qps == 0 ==> Limit(table, route, qps, nowSec) == Outcome(true, table)
    ensures qps > 0 && route >= |table| ==> Limit(table, route, qps, nowSec) == Outcome(false, table)
  {
  }

  /** So over every run, under any clock, every call of a route without a limit is admitted and leaves no trace. */
  lemma {:induction false} UnlimitedRun(calls: seq<Call>, limits: seq<u32>, route: nat, n: nat)
    requires n <= |calls| && route < |limits| && limits[route] == 0
    requires forall i :: 0 <= i < |calls| ==> calls[i].route < |limits|
    ensures TableAfter(calls, limits, n)[route] == ZERO
    ensures n < |calls| && calls[n].route == route ==> Admitted(calls, limits, n)
  {
    if n > 0 {
      UnlimitedRun(calls, limits, route, n - 1);
    }
  }

  /** A call of one route leaves every other route's entry as it was. */
  lemma OthersUntouched(table: seq<RateState>, route: nat, qps: u32, nowSec: u64, other: nat)
    requires other < |table| && other != route
    ensures Limit(table, route, qps, nowSec).table[other] == table[other]
  {
  }

  lemma {:induction false} TableAfterPrefix(calls: seq<Call>, more: seq<Call>, limits: seq<u32>, n: nat)
    requires n <= |calls|
    requires forall i :: 0 <= i < |calls + more| ==> (calls + more)[i].route < |limits|
    requires forall i :: 0 <= i < |calls| ==> calls[i].route < |limits|
    ensures TableAfter(calls + more, limits, n) == TableAfter(calls, limits, n)
  {
    if n > 0 {
      TableAfterPrefix(calls, more, limits, n - 1);
    }
  }

  /** One more call steps the table once. */
  lemma TableAfterAppend(calls: seq<Call>, limits: seq<u32>, c: Call)
    requires forall i :: 0 <= i < |calls| ==> calls[i].route < |limits|
    requires c.route < |limits|
    ensures TableAfter(calls + [c], limits, |calls| + 1) ==
            Limit(TableAfter(calls, limits, |calls|), c.route, limits[c.route], c.Sec()).table
  {
    TableAfterPrefix(calls, [c], limits, |calls|);
  }

  lemma {:induction false} ReachedPrefix(calls: seq<Call>, more: seq<Call>, route: nat, sec: nat, n: nat)
    requires n <= |calls|
    ensures Reached(calls + more, route, sec, n) == Reached(calls, route, sec, n)
  {
    if n > 0 {
      ReachedPrefix(calls, more, route, sec, n - 1);
    }
  }

  lemma ReachedAppend(calls: seq<Call>, c: Call, route: nat, sec: nat)
    ensures Reached(calls + [c], route, sec, |calls| + 1) ==
            Reached(calls, route, sec, |calls|) + if c.route == route && c.Sec() == sec then 1 else 0
  {
    ReachedPrefix(calls, [c], route, sec, |calls|);
  }

  /** A call is admitted exactly when fewer calls of its route than the limit came before it in its second. */
  lemma AllowedIff(calls: seq<Call>, limits: seq<u32>, c: Call)
    requires forall i :: 0 <= i < |calls| ==> calls[i].route < |limits|
    requires c.route < |limits| && limits[c.route] > 0 && ClockMoves(calls + [c])
    ensures Limit(TableAfter(calls, limits, |calls|), c.route, limits[c.route], c.Sec()).allowed <==>
            Reached(calls, c.route, c.Sec(), |calls|) < limits[c.route]
  {
    hide Limit, TableAfter, ClockMoves;
    var all, n := calls + [c], |calls|;
    assert all[n] == c;
    Exact(all, limits, c.route, c.Sec(), n);
    Exact(all, limits, c.route, c.Sec(), n + 1);
    ReachedPrefix(calls, [c], c.route, c.Sec(), n);
    TableAfterPrefix(calls, [c], limits, n);
  }
}
