/** The sliding-window rate limiter: a log of recent hits that forgets old ones,
    against a reference that remembers every admitted call. */
module RateLimit {
  datatype Limits = Limits(maxRequests: nat, window: real)

  datatype Call = Call(key: string, at: real)

  type Hits = map<string, seq<real>>

  function HitsOf(hits: Hits, key: string): seq<real> {
    if key in hits then hits[key] else []
  }

  /** The hits later than the cutoff, in order. */
  function Recent(hits: seq<real>, cutoff: real): seq<real> {
    if hits == [] then []
    else (if hits[0] > cutoff then [hits[0]] else []) + Recent(hits[1..], cutoff)
  }

  /** One call on the pruned log: the log it leaves and the answer it gets. */
  function Step(l: Limits, hits: Hits, c: Call): (Hits, bool) {
    var kept := Recent(HitsOf(hits, c.key), c.at - l.window);
    if |kept| >= l.maxRequests then (hits[c.key := kept], false)
    else (hits[c.key := kept + [c.at]], true)
  }

  class RateLimiter {
    const limits: Limits
    var hits: Hits

    constructor (limits: Limits)
      ensures this.limits == limits && hits == map[]
    {
      this.limits := limits;
      hits := map[];
    }

    method Allow(key: string, now: real) returns (ok: bool)
      modifies this
      ensures (hits, ok) == Step(limits, old(hits), Call(key, now))
    {
      var cutoff := now - limits.window;
      var kept := Recent(HitsOf(hits, key), cutoff);
      if |kept| >= limits.maxRequests {
        hits := hits[key := kept];
        return false;
      }
      kept := kept + [now];
      hits := hits[key := kept];
      ok := true;
    }
  }

  // ----- the pruned log and the full history over a list of calls -----

  function HitsAfter(l: Limits, calls: seq<Call>): Hits {
    if calls == [] then map[]
    else
      var n := |calls| - 1;
      Step(l, HitsAfter(l, calls[..n]), calls[n]).0
  }

  /** What the limiter answers to the last call. */
  function Answer(l: Limits, calls: seq<Call>): bool
    requires calls != []
  {
    var n := |calls| - 1;
    Step(l, HitsAfter(l, calls[..n]), calls[n]).1
  }

  /** The calls the limiter lets through. */
  function LetThrough(l: Limits, calls: seq<Call>): seq<Call> {
    if calls == [] then []
    else
      var n := |calls| - 1;
      LetThrough(l, calls[..n]) + if Answer(l, calls) then [calls[n]] else []
  }

  /** The admitted times of one key, oldest first. */
  function Times(calls: seq<Call>, key: string): seq<real> {
    if calls == [] then []
    else
      var n := |calls| - 1;
      Times(calls[..n], key) + if calls[n].key == key then [calls[n].at] else []
  }

  /** The reference: every call ever admitted, and a decision that counts them all. */
  function Admitted(l: Limits, calls: seq<Call>): seq<Call> {
    if calls == [] then []
    else
      var n := |calls| - 1;
      var before := Admitted(l, calls[..n]);
      if Fits(l, before, calls[n]) then before + [calls[n]] else before
  }

  predicate Fits(l: Limits, admitted: seq<Call>, c: Call) {
    |Recent(Times(admitted, c.key), c.at - l.window)| < l.maxRequests
  }

  lemma TimesGrow(before: seq<Call>, c: Call, key: string)
    ensures Times(before + [c], key) == Times(before, key) + if c.key == key then [c.at] else []
  {
    assert (before + [c])[..|before|] == before;
  }

  /** How one call moves the two logs of one key. */
  lemma OneCall(l: Limits, calls: seq<Call>, key: string)
    requires calls != []
    ensures var n := |calls| - 1;
            var c, hits := calls[n], HitsAfter(l, calls[..n]);
            && HitsOf(HitsAfter(l, calls), key) ==
                 (if c.key != key then HitsOf(hits, key)
                  else Recent(HitsOf(hits, key), c.at - l.window) + if Answer(l, calls) then [c.at] else [])
            && Times(Admitted(l, calls), key) ==
                 (if c.key == key && Fits(l, Admitted(l, calls[..n]), c)
                  then Times(Admitted(l, calls[..n]), key) + [c.at]
                  else Times(Admitted(l, calls[..n]), key))
  {
    var before, c := Admitted(l, calls[..|calls| - 1]), calls[|calls| - 1];
    TimesGrow(before, c, key);
    assert Times(before, key) + [] == Times(before, key);
  }

  /** The clock is read before the lock is taken; this says that callers reach the lock in
      the order of their readings. */
  ghost predicate ClockForward(calls: seq<Call>) {
    forall i, j | 0 <= i < j < |calls| :: calls[i].at <= calls[j].at
  }

  lemma {:induction false} RecentAppends(a: seq<real>, b: seq<real>, cutoff: real)
    ensures Recent(a + b, cutoff) == Recent(a, cutoff) + Recent(b, cutoff)
  {
    if a == [] {
      assert a + b == b;
    } else {
      assert (a + b)[1..] == a[1..] + b;
      RecentAppends(a[1..], b, cutoff);
    }
  }

  lemma {:induction false} RecentTwice(hits: seq<real>, early: real, late: real)
    requires early <= late
    ensures Recent(Recent(hits, early), late) == Recent(hits, late)
  {
    if hits != [] {
      RecentTwice(hits[1..], early, late);
      RecentAppends(if hits[0] > early then [hits[0]] else [], Recent(hits[1..], early), late);
      assert Recent([hits[0]], late) == (if hits[0] > late then [hits[0]] else []) + Recent([], late);
    }
  }

  lemma SameRecent(hits: seq<real>, times: seq<real>, added: seq<real>, early: real, late: real)
    requires early <= late && Recent(hits, late) == Recent(times, late)
    ensures Recent(Recent(hits, early) + added, late) == Recent(times + added, late)
    ensures Recent(Recent(hits, early) + added, late) == Recent(times, late) || added != []
  {
    RecentTwice(hits, early, late);
    RecentAppends(Recent(hits, early), added, late);
    RecentAppends(times, added, late);
    assert Recent(hits, early) + [] == Recent(hits, early);
  }

  lemma AnswerSeesOneKey(l: Limits, calls: seq<Call>)
    requires calls != []
    ensures var n := |calls| - 1;
            Answer(l, calls) <==>
              |Recent(HitsOf(HitsAfter(l, calls[..n]), calls[n].key), calls[n].at - l.window)| < l.maxRequests
  {
  }

  lemma NothingLoggedYet(l: Limits, key: string)
    ensures HitsOf(HitsAfter(l, []), key) == Times(Admitted(l, []), key)
  {
  }

  lemma {:induction false} PrunedLogAgrees(l: Limits, calls: seq<Call>, key: string, cutoff: real)
    requires ClockForward(calls)
    requires calls != [] ==> calls[|calls| - 1].at - l.window <= cutoff
    ensures Recent(HitsOf(HitsAfter(l, calls), key), cutoff) == Recent(Times(Admitted(l, calls), key), cutoff)
    decreases |calls|
  {
    hide HitsAfter, Admitted, Times, Recent, HitsOf, Answer;
    if calls == [] {
      NothingLoggedYet(l, key);
    } else {
      var n := |calls| - 1;
      var c, before := calls[n], calls[..n];
      OneCall(l, calls, key);
      AnswerSeesOneKey(l, calls);
      PrunedLogAgrees(l, before, key, cutoff);
      if c.key == key {
        PrunedLogAgrees(l, before, key, c.at - l.window);
        SameRecent(HitsOf(HitsAfter(l, before), key), Times(Admitted(l, before), key),
                   if Answer(l, calls) then [c.at] else [], c.at - l.window, cutoff);
      }
    }
  }

  /** Forgetting old hits never changes an answer. */
  lemma PruningNeverChangesAnAnswer(l: Limits, calls: seq<Call>)
    requires calls != [] && ClockForward(calls)
    ensures Answer(l, calls) <==> Fits(l, Admitted(l, calls[..|calls| - 1]), calls[|calls| - 1])
  {
    var n := |calls| - 1;
    PrunedLogAgrees(l, calls[..n], calls[n].key, calls[n].at - l.window);
  }

  /** In that order, what is let through is what the full history admits. */
  lemma {:induction false} LetThroughIsAdmitted(l: Limits, calls: seq<Call>)
    requires ClockForward(calls)
    ensures LetThrough(l, calls) == Admitted(l, calls)
    decreases |calls|
  {
    hide Answer, Fits;
    if calls != [] {
      var n := |calls| - 1;
      LetThroughIsAdmitted(l, calls[..n]);
      PruningNeverChangesAnAnswer(l, calls);
      assert Admitted(l, calls[..n]) + [] == Admitted(l, calls[..n]);
    }
  }

  // ----- what the limit means -----

  /** A stretch of time any two moments of which are less than the window apart: for
      one, every half-open interval of the window's length. */
  ghost predicate Narrow(inside: real -> bool, window: real) {
    forall x, y | inside(x) && inside(y) :: y - x < window
  }

  function Count(times: seq<real>, inside: real -> bool): nat {
    if times == [] then 0
    else
      var n := |times| - 1;
      Count(times[..n], inside) + if inside(times[n]) then 1 else 0
  }

  lemma {:induction false} CountedAreRecent(times: seq<real>, inside: real -> bool, cutoff: real)
    requires forall x | inside(x) :: x > cutoff
    ensures Count(times, inside) <= |Recent(times, cutoff)|
  {
    if times != [] {
      var n := |times| - 1;
      CountedAreRecent(times[..n], inside, cutoff);
      assert times == times[..n] + [times[n]];
      RecentAppends(times[..n], [times[n]], cutoff);
    }
  }

  lemma {:induction false} RecentAreCounted(times: seq<real>, inside: real -> bool, cutoff: real)
    requires forall x | x in times && x > cutoff :: inside(x)
    ensures |Recent(times, cutoff)| <= Count(times, inside)
  {
    if times != [] {
      var n := |times| - 1;
      RecentAreCounted(times[..n], inside, cutoff);
      assert times == times[..n] + [times[n]];
      RecentAppends(times[..n], [times[n]], cutoff);
    }
  }

  /** One more admission fits any stretch it lies in. */
  lemma OneMoreFits(times: seq<real>, at: real, window: real, limit: nat, inside: real -> bool)
    requires Narrow(inside, window) && |Recent(times, at - window)| < limit && Count(times, inside) <= limit
    ensures Count(times + [at], inside) <= limit
  {
    hide Recent;
    assert (times + [at])[..|times|] == times;
    if inside(at) {
      CountedAreRecent(times, inside, at - window);
    }
  }

  lemma NothingAdmittedYet(l: Limits, key: string, inside: real -> bool)
    ensures Count(Times(Admitted(l, []), key), inside) == 0
  {
  }

  /** The reference keeps the limit, in whatever order the calls come. */
  lemma {:induction false} HistoryKeepsTheLimit(l: Limits, calls: seq<Call>, key: string, inside: real -> bool)
    requires Narrow(inside, l.window)
    ensures Count(Times(Admitted(l, calls), key), inside) <= l.maxRequests
    decreases |calls|
  {
    hide HitsAfter, Admitted, Times, Answer, HitsOf, Recent, Count, Narrow;
    if calls == [] {
      NothingAdmittedYet(l, key, inside);
    } else {
      var n := |calls| - 1;
      var before, c := Admitted(l, calls[..n]), calls[n];
      HistoryKeepsTheLimit(l, calls[..n], key, inside);
      OneCall(l, calls, key);
      if Fits(l, before, c) && c.key == key {
        OneMoreFits(Times(before, key), c.at, l.window, l.maxRequests, inside);
      }
    }
  }

  /** In no stretch of time of the window's length are more than `maxRequests` calls of one
      key let through, wherever it lies. */
  lemma NeverMoreThanTheLimit(l: Limits, calls: seq<Call>, key: string, inside: real -> bool)
    requires ClockForward(calls) && Narrow(inside, l.window)
    ensures Count(Times(LetThrough(l, calls), key), inside) <= l.maxRequests
  {
    LetThroughIsAdmitted(l, calls);
    HistoryKeepsTheLimit(l, calls, key, inside);
  }

  ghost predicate WithinLimit(l: Limits, calls: seq<Call>) {
    forall key: string, inside: real -> bool | Narrow(inside, l.window) ::
      Count(Times(LetThrough(l, calls), key), inside) <= l.maxRequests
  }

  /** Calls in order, the last of them read at `latest`. */
  ghost predicate Until(calls: seq<Call>, latest: real) {
    ClockForward(calls) && calls != [] && calls[|calls| - 1].at == latest
  }

  /** The order the code does not enforce, exactly. A limiter keeps its limit when, after calls
      in order until `latest`, a call read at `now` comes in, if and only if `now` is not before
      `latest` or the limiter is one that no order can break: at most one request, or no window. */
  lemma LimitHoldsExactlyInOrder(l: Limits, latest: real, now: real)
    ensures (forall calls: seq<Call>, key: string | Until(calls, latest) :: WithinLimit(l, calls + [Call(key, now)]))
       <==> latest <= now || l.maxRequests <= 1 || l.window <= 0.0
  {
    hide LetThrough, Times, Count;
    if latest <= now || l.maxRequests <= 1 || l.window <= 0.0 {
      forall calls: seq<Call>, key: string | Until(calls, latest)
        ensures WithinLimit(l, calls + [Call(key, now)])
      {
        forall k: string, inside: real -> bool | Narrow(inside, l.window)
          ensures Count(Times(LetThrough(l, calls + [Call(key, now)]), k), inside) <= l.maxRequests
        {
          if latest <= now {
            NeverMoreThanTheLimit(l, calls + [Call(key, now)], k, inside);
          } else {
            SomeLimitersNeedNoOrder(l, calls + [Call(key, now)], k, inside);
          }
        }
      }
    } else {
      var calls := OutOfOrderBreaksTheLimit(l, latest, now);
      assert Until(calls, latest) && !WithinLimit(l, calls + [Call("", now)]);
    }
  }

  /** In whatever order the calls come. */
  lemma SomeLimitersNeedNoOrder(l: Limits, calls: seq<Call>, key: string, inside: real -> bool)
    requires Narrow(inside, l.window) && (l.maxRequests <= 1 || l.window <= 0.0)
    ensures Count(Times(LetThrough(l, calls), key), inside) <= l.maxRequests
  {
    if l.window <= 0.0 {
      assert forall x :: !inside(x);
      CountOfNone(Times(LetThrough(l, calls), key), inside);
    } else if l.maxRequests == 0 {
      NoneAllowed(l, calls, key);
    } else {
      OneAllowed(l, calls, key, inside);
    }
  }

  lemma {:induction false} CountOfNone(times: seq<real>, inside: real -> bool)
    requires forall x | x in times :: !inside(x)
    ensures Count(times, inside) == 0
  {
    if times != [] {
      var n := |times| - 1;
      CountOfNone(times[..n], inside);
      assert times == times[..n] + [times[n]];
      CountGrows(times[..n], times[n], inside);
    }
  }

  lemma LetThroughGrows(l: Limits, calls: seq<Call>, key: string)
    requires calls != []
    ensures var n := |calls| - 1;
            var times := Times(LetThrough(l, calls[..n]), key);
            Times(LetThrough(l, calls), key) ==
              if calls[n].key == key && Answer(l, calls) then times + [calls[n].at] else times
  {
    var n := |calls| - 1;
    TimesGrow(LetThrough(l, calls[..n]), calls[n], key);
    assert Times(LetThrough(l, calls[..n]), key) + [] == Times(LetThrough(l, calls[..n]), key);
    assert LetThrough(l, calls[..n]) + [] == LetThrough(l, calls[..n]);
  }

  lemma {:induction false} NoneAllowed(l: Limits, calls: seq<Call>, key: string)
    requires l.maxRequests == 0
    ensures Times(LetThrough(l, calls), key) == []
    decreases |calls|
  {
    if calls != [] {
      NoneAllowed(l, calls[..|calls| - 1], key);
      LetThroughGrows(l, calls, key);
    }
  }

  /** A limiter of one request remembers exactly the last call it let through, so the next one
      comes a window later, whatever was read in between. */
  lemma {:induction false} OneAllowed(l: Limits, calls: seq<Call>, key: string, inside: real -> bool)
    requires l.maxRequests == 1 && l.window > 0.0 && Narrow(inside, l.window)
    ensures var times := Times(LetThrough(l, calls), key);
            && Count(times, inside) <= 1
            && HitsOf(HitsAfter(l, calls), key) == (if times == [] then [] else [times[|times| - 1]])
            && forall x | x in times :: x <= times[|times| - 1]
    decreases |calls|
  {
    hide HitsAfter, LetThrough, Times, Answer, HitsOf, Recent, Count, Admitted;
    if calls == [] {
      NothingLetThroughYet(l, key);
      NoTimes(key, inside);
    } else {
      var n := |calls| - 1;
      var times, c := Times(LetThrough(l, calls[..n]), key), calls[n];
      OneAllowed(l, calls[..n], key, inside);
      OneCall(l, calls, key);
      LetThroughGrows(l, calls, key);
      if c.key == key {
        AnswerSeesOneKey(l, calls);
        RecentOfLast(times, c.at - l.window);
        if Answer(l, calls) {
          ApartCounts(times, c.at, l.window, inside);
        }
      }
    }
  }

  lemma RecentOfLast(times: seq<real>, cutoff: real)
    ensures var last := if times == [] then [] else [times[|times| - 1]];
            Recent(last, cutoff) == if times != [] && times[|times| - 1] > cutoff then last else []
  {
    if times != [] { RecentOfOne(times[|times| - 1], cutoff); }
  }

  lemma ApartCounts(times: seq<real>, at: real, window: real, inside: real -> bool)
    requires Narrow(inside, window) && Count(times, inside) <= 1
    requires forall x | x in times :: x <= at - window
    ensures Count(times + [at], inside) <= 1
  {
    CountGrows(times, at, inside);
    if inside(at) {
      forall x | x in times ensures !inside(x) {
        if inside(x) {
          assert false;
        }
      }
      CountOfNone(times, inside);
    }
  }

  lemma NoTimes(key: string, inside: real -> bool)
    ensures Times([], key) == [] && Count([], inside) == 0
  {
  }

  function Repeat<T>(x: T, n: nat): seq<T> {
    if n == 0 then [] else Repeat(x, n - 1) + [x]
  }

  /** As many calls as the limit allows, all at one moment, and one at `latest`, whose pruning
      forgets them; then a caller who read the clock at `now` reaches the lock, and is one too
      many within less than a window. */
  lemma OutOfOrderBreaksTheLimit(l: Limits, latest: real, now: real) returns (calls: seq<Call>)
    requires now < latest && l.maxRequests >= 2 && l.window > 0.0
    ensures Until(calls, latest) && !WithinLimit(l, calls + [Call("", now)])
  {
    hide LetThrough, Times, Count, HitsAfter, HitsOf, Recent;
    var m := l.maxRequests;
    var first := if now <= latest - l.window then now else latest - l.window;
    var a, b, c := Call("", first), Call("", latest), Call("", now);
    var early := Repeat(a, m);
    calls := early + [b];
    RepeatedAre(a, m);
    AllPass(l, a, m);
    RecentOfRepeated(first, m, latest - l.window);
    Passes(l, early, b, Repeat(first, m), []);
    RecentOfOne(latest, now - l.window);
    Passes(l, calls, c, [latest], [latest]);
    assert LetThrough(l, calls + [c]) == early + [b] + [c];

    var inside := (x: real) => first <= x <= now;
    assert Narrow(inside, l.window);
    CountOfRepeated(a, m, inside);
    TimesGrow(early, b, "");
    TimesGrow(early + [b], c, "");
    CountGrows(Times(early, ""), latest, inside);
    CountGrows(Times(early, "") + [latest], now, inside);
    assert Count(Times(LetThrough(l, calls + [c]), ""), inside) == m + 1;
  }

  lemma {:induction false} RepeatedAre<T>(x: T, n: nat)
    ensures |Repeat(x, n)| == n && forall i | 0 <= i < n :: Repeat(x, n)[i] == x
  {
    if n > 0 { RepeatedAre(x, n - 1); }
  }

  lemma {:induction false} RecentOfRepeated(x: real, n: nat, cutoff: real)
    ensures Recent(Repeat(x, n), cutoff) == if x > cutoff then Repeat(x, n) else []
  {
    if n > 0 {
      RecentOfRepeated(x, n - 1, cutoff);
      RecentAppends(Repeat(x, n - 1), [x], cutoff);
      RecentOfOne(x, cutoff);
    }
  }

  /** Calls at one moment all pass, up to the limit. */
  lemma {:induction false} AllPass(l: Limits, c: Call, n: nat)
    requires n <= l.maxRequests && l.window > 0.0
    ensures HitsOf(HitsAfter(l, Repeat(c, n)), c.key) == Repeat(c.at, n) && LetThrough(l, Repeat(c, n)) == Repeat(c, n)
  {
    hide HitsAfter, LetThrough, HitsOf, Recent;
    if n == 0 {
      NothingLetThroughYet(l, c.key);
    } else {
      AllPass(l, c, n - 1);
      RecentOfRepeated(c.at, n - 1, c.at - l.window);
      RepeatedAre(c.at, n - 1);
      Passes(l, Repeat(c, n - 1), c, Repeat(c.at, n - 1), Repeat(c.at, n - 1));
    }
  }

  lemma {:induction false} CountOfRepeated(c: Call, n: nat, inside: real -> bool)
    requires inside(c.at)
    ensures Count(Times(Repeat(c, n), c.key), inside) == n
  {
    hide Times, Count;
    if n == 0 {
      NoTimes(c.key, inside);
    } else {
      CountOfRepeated(c, n - 1, inside);
      TimesGrow(Repeat(c, n - 1), c, c.key);
      CountGrows(Times(Repeat(c, n - 1), c.key), c.at, inside);
    }
  }

  lemma NothingLetThroughYet(l: Limits, key: string)
    ensures HitsOf(HitsAfter(l, []), key) == [] && LetThrough(l, []) == []
  {
  }

  lemma RecentOfOne(x: real, cutoff: real)
    ensures Recent([], cutoff) == []
    ensures Recent([x], cutoff) == if x > cutoff then [x] else []
  {
  }

  /** A call whose recent log is `kept`, below the limit, passes and is logged. */
  lemma Passes(l: Limits, calls: seq<Call>, c: Call, log: seq<real>, kept: seq<real>)
    requires HitsOf(HitsAfter(l, calls), c.key) == log && Recent(log, c.at - l.window) == kept && |kept| < l.maxRequests
    ensures HitsOf(HitsAfter(l, calls + [c]), c.key) == kept + [c.at]
    ensures LetThrough(l, calls + [c]) == LetThrough(l, calls) + [c]
  {
    assert (calls + [c])[..|calls|] == calls;
  }

  lemma CountGrows(times: seq<real>, at: real, inside: real -> bool)
    ensures Count(times + [at], inside) == Count(times, inside) + if inside(at) then 1 else 0
  {
    assert (times + [at])[..|times|] == times;
  }

  lemma {:induction false} AdmittedAreCalls(l: Limits, calls: seq<Call>, key: string)
    ensures forall x | x in Times(Admitted(l, calls), key) :: exists i :: 0 <= i < |calls| && calls[i].at == x
    decreases |calls|
  {
    if calls != [] {
      var n := |calls| - 1;
      AdmittedAreCalls(l, calls[..n], key);
      var before := Admitted(l, calls[..n]);
      OneCall(l, calls, key);
      forall x | x in Times(Admitted(l, calls), key) ensures exists i :: 0 <= i < |calls| && calls[i].at == x {
        if x in Times(before, key) {
          var i :| 0 <= i < n && calls[..n][i].at == x;
          assert calls[i].at == x;
        } else {
          assert calls[n].at == x;
        }
      }
    }
  }

  /** A refusal means exactly `maxRequests` calls of the key were let through in
      the window that ends now; nothing less refuses, and nothing more can have happened. */
  lemma RefusedExactlyWhenFull(l: Limits, calls: seq<Call>)
    requires calls != [] && ClockForward(calls)
    ensures var n := |calls| - 1;
            var now := calls[n].at;
            !Answer(l, calls)
            <==> Count(Times(LetThrough(l, calls[..n]), calls[n].key), (x: real) => now - l.window < x <= now)
                 == l.maxRequests
  {
    hide HitsAfter, LetThrough, Admitted, Times, Answer, Recent, Count, HitsOf;
    var n := |calls| - 1;
    var now := calls[n].at;
    var inside := (x: real) => now - l.window < x <= now;
    var times := Times(Admitted(l, calls[..n]), calls[n].key);
    LetThroughIsAdmitted(l, calls[..n]);
    PruningNeverChangesAnAnswer(l, calls);
    assert Narrow(inside, l.window);
    HistoryKeepsTheLimit(l, calls[..n], calls[n].key, inside);
    CountedAreRecent(times, inside, now - l.window);
    AdmittedAreCalls(l, calls[..n], calls[n].key);
    forall x | x in times && x > now - l.window ensures inside(x) {
      var i :| 0 <= i < n && calls[..n][i].at == x;
      assert calls[i].at <= calls[n].at;
    }
    RecentAreCounted(times, inside, now - l.window);
  }

  /** The limiter holds at most `maxRequests` hits per key, however long it runs. */
  lemma {:induction false} MemoryIsBounded(l: Limits, calls: seq<Call>, key: string)
    ensures |HitsOf(HitsAfter(l, calls), key)| <= l.maxRequests
    decreases |calls|
  {
    if calls != [] {
      var n := |calls| - 1;
      MemoryIsBounded(l, calls[..n], key);
      RecentShrinks(HitsOf(HitsAfter(l, calls[..n]), key), calls[n].at - l.window);
    }
  }

  lemma {:induction false} RecentShrinks(hits: seq<real>, cutoff: real)
    ensures |Recent(hits, cutoff)| <= |hits|
  {
    if hits != [] { RecentShrinks(hits[1..], cutoff); }
  }

  function OnlyKey(calls: seq<Call>, key: string): seq<Call> {
    if calls == [] then []
    else
      var n := |calls| - 1;
      OnlyKey(calls[..n], key) + if calls[n].key == key then [calls[n]] else []
  }

  /** Calls under other keys have no influence. */
  lemma {:induction false} KeysAreIndependent(l: Limits, calls: seq<Call>, key: string)
    ensures HitsOf(HitsAfter(l, calls), key) == HitsOf(HitsAfter(l, OnlyKey(calls, key)), key)
    decreases |calls|
  {
    if calls != [] {
      hide HitsAfter, Admitted, Times, Recent, Fits, Answer, HitsOf;
      var n := |calls| - 1;
      KeysAreIndependent(l, calls[..n], key);
      OneCall(l, calls, key);
      var before, only := OnlyKey(calls[..n], key), OnlyKey(calls, key);
      if calls[n].key == key {
        assert only == before + [calls[n]] && only[..|only| - 1] == before && only[|only| - 1] == calls[n];
        OneCall(l, only, key);
        AnswerSeesOneKey(l, calls);
        AnswerSeesOneKey(l, only);
      } else {
        assert only == before;
      }
    }
  }
}
