/** The in-process fixed-window rate limiter, over every history of hits. */
module RateLimit {
  import opened Prelude

  datatype Rule = Rule(limit: int, windowSeconds: real)

  datatype Verdict = Verdict(allowed: bool, remaining: int, retryAfter: int)

  datatype Window = Window(start: real, count: int)

  type Windows = map<string, Window>

  function KeyFor(name: string, identity: string): string { name + ":" + identity }

  /** The window a hit at `now` is counted in, with the hit counted. */
  function Counted(rule: Rule, w: Option<Window>, now: real): Window {
    var prev := if w.Some? then w.value else Window(now, 0);
    var base := if now - prev.start >= rule.windowSeconds then Window(now, 0) else prev;
    base.(count := base.count + 1)
  }

  function Decide(rule: Rule, w: Window, now: real): Verdict {
    if w.count > rule.limit then
      var left := Truncate(rule.windowSeconds - (now - w.start));
      Verdict(false, 0, if left < 1 then 1 else left)
    else Verdict(true, rule.limit - w.count, 0)
  }

  function Lookup(ws: Windows, key: string): Option<Window> {
    if key in ws then Some(ws[key]) else None
  }

  datatype Request = Request(name: string, identity: string, at: real)

  function HitStep(rules: map<string, Rule>, ws: Windows, h: Request): (Windows, Verdict) {
    if h.name !in rules then (ws, Verdict(true, -1, 0))
    else
      var w := Counted(rules[h.name], Lookup(ws, KeyFor(h.name, h.identity)), h.at);
      (ws[KeyFor(h.name, h.identity) := w], Decide(rules[h.name], w, h.at))
  }

  function Replay(rules: map<string, Rule>, hs: seq<Request>): Windows {
    if hs == [] then map[]
    else HitStep(rules, Replay(rules, hs[..|hs| - 1]), hs[|hs| - 1]).0
  }

  // ----- identities do not interfere -----

  predicate NoColon(s: string) { forall i :: 0 <= i < |s| ==> s[i] != ':' }

  ghost predicate PlainNames(rules: map<string, Rule>) {
    forall n :: n in rules ==> NoColon(n)
  }

  lemma KeysDistinct(n1: string, i1: string, n2: string, i2: string)
    requires NoColon(n1) && NoColon(n2) && KeyFor(n1, i1) == KeyFor(n2, i2)
    ensures n1 == n2 && i1 == i2
  {
    var k := KeyFor(n1, i1);
    assert k[|n1|] == ':' == k[|n2|];
    assert !(|n1| < |n2|) && !(|n2| < |n1|);
    assert n1 == k[..|n1|] && n2 == k[..|n2|];
    assert i1 == k[|n1| + 1..] && i2 == k[|n2| + 1..];
  }

  /** The times of the hits on one rule by one identity. */
  function TimesOf(hs: seq<Request>, name: string, identity: string): seq<real> {
    if hs == [] then []
    else
      var last := hs[|hs| - 1];
      var before := TimesOf(hs[..|hs| - 1], name, identity);
      if last.name == name && last.identity == identity then before + [last.at] else before
  }

  function Alone(rule: Rule, times: seq<real>): Option<Window> {
    if times == [] then None
    else Some(Counted(rule, Alone(rule, times[..|times| - 1]), times[|times| - 1]))
  }

  /** What is stored for an identity depends on its own hits only. */
  lemma {:induction false} OthersDoNotMatter(rules: map<string, Rule>, hs: seq<Request>, name: string, identity: string)
    requires PlainNames(rules) && name in rules
    ensures Lookup(Replay(rules, hs), KeyFor(name, identity)) == Alone(rules[name], TimesOf(hs, name, identity))
    decreases |hs|
  {
    if hs != [] {
      var last := hs[|hs| - 1];
      var before := TimesOf(hs[..|hs| - 1], name, identity);
      OthersDoNotMatter(rules, hs[..|hs| - 1], name, identity);
      if last.name == name && last.identity == identity {
        assert (before + [last.at])[..|before|] == before;
      } else if last.name in rules && KeyFor(last.name, last.identity) == KeyFor(name, identity) {
        KeysDistinct(last.name, last.identity, name, identity);
      }
    }
  }

  // ----- one identity's hits -----

  predicate Sorted(times: seq<real>) {
    forall i, j :: 0 <= i < j < |times| ==> times[i] <= times[j]
  }

  /** The index of the first hit in the window that hit `i` is counted in. */
  function Base(rule: Rule, times: seq<real>, i: nat): (b: nat)
    requires i < |times|
    ensures b <= i
  {
    if i == 0 then 0
    else
      var b := Base(rule, times, i - 1);
      if times[i] - times[b] >= rule.windowSeconds then i else b
  }

  lemma {:induction false} BaseOfPrefix(rule: Rule, times: seq<real>, n: nat, i: nat)
    requires i < n <= |times|
    ensures Base(rule, times[..n], i) == Base(rule, times, i)
  {
    if i > 0 { BaseOfPrefix(rule, times, n, i - 1); }
  }

  /** The stored count is exact: the hits from the window's first hit to the last one. */
  lemma {:induction false} CountIsExact(rule: Rule, times: seq<real>)
    requires times != []
    ensures var b := Base(rule, times, |times| - 1);
            Alone(rule, times) == Some(Window(times[b], |times| - b))
    decreases |times|
  {
    var n := |times| - 1;
    if n > 0 {
      CountIsExact(rule, times[..n]);
      BaseOfPrefix(rule, times, n, n - 1);
    }
  }

  /** Was hit `i` allowed? */
  predicate Allowed(rule: Rule, times: seq<real>, i: nat)
    requires i < |times|
  {
    Decide(rule, Alone(rule, times[..i + 1]).value, times[i]).allowed
  }

  lemma StoredAfter(rule: Rule, times: seq<real>, i: nat)
    requires i < |times|
    ensures var b := Base(rule, times, i); Alone(rule, times[..i + 1]) == Some(Window(times[b], i + 1 - b))
  {
    CountIsExact(rule, times[..i + 1]);
    BaseOfPrefix(rule, times, i + 1, i);
  }

  lemma DecideByCount(rule: Rule, w: Window, now: real)
    ensures Decide(rule, w, now).allowed <==> w.count <= rule.limit
    ensures Decide(rule, w, now).remaining == if w.count <= rule.limit then rule.limit - w.count else 0
  {
  }

  /** Hits are allowed exactly while they are among the first `limit` of their window. */
  lemma AllowedIffEarly(rule: Rule, times: seq<real>, i: nat)
    requires i < |times|
    ensures Allowed(rule, times, i) <==> i < Base(rule, times, i) + rule.limit
    ensures Decide(rule, Alone(rule, times[..i + 1]).value, times[i]).remaining ==
            (if Allowed(rule, times, i) then Base(rule, times, i) + rule.limit - i - 1 else 0)
  {
    StoredAfter(rule, times, i);
    DecideByCount(rule, Alone(rule, times[..i + 1]).value, times[i]);
  }

  lemma {:induction false} BaseFacts(rule: Rule, times: seq<real>, i: nat)
    requires i < |times| && rule.windowSeconds > 0.0
    ensures var b := Base(rule, times, i);
            && times[i] - times[b] < rule.windowSeconds
            && Base(rule, times, b) == b
            && (b > 0 ==> times[b] - times[Base(rule, times, b - 1)] >= rule.windowSeconds)
  {
    if i > 0 { BaseFacts(rule, times, i - 1); }
  }

  lemma {:induction false} BaseMonotone(rule: Rule, times: seq<real>, i: nat, j: nat)
    requires i <= j < |times|
    ensures Base(rule, times, i) <= Base(rule, times, j)
    ensures Base(rule, times, j) <= i ==> Base(rule, times, j) == Base(rule, times, i)
  {
    if i < j { BaseMonotone(rule, times, i, j - 1); }
  }

  /** The window after one that starts at or after `bf` starts a window length later. */
  lemma NextWindowGap(rule: Rule, times: seq<real>, bf: nat, g: nat)
    requires rule.windowSeconds > 0.0 && Sorted(times) && g < |times| && 0 < Base(rule, times, g)
    requires bf <= Base(rule, times, Base(rule, times, g) - 1)
    ensures times[Base(rule, times, g)] >= times[bf] + rule.windowSeconds
  {
    BaseFacts(rule, times, g);
    var p := Base(rule, times, Base(rule, times, g) - 1);
    assert times[bf] <= times[p];
  }

  /** A later window starts at least one window length after an earlier one. */
  lemma WindowGap(rule: Rule, times: seq<real>, f: nat, g: nat)
    requires rule.windowSeconds > 0.0 && Sorted(times) && f <= g < |times|
    requires Base(rule, times, f) < Base(rule, times, g)
    ensures times[Base(rule, times, g)] >= times[Base(rule, times, f)] + rule.windowSeconds
  {
    LaterBase(rule, times, f, g);
    BaseMonotone(rule, times, f, Base(rule, times, g) - 1);
    NextWindowGap(rule, times, Base(rule, times, f), g);
  }

  lemma LaterBase(rule: Rule, times: seq<real>, f: nat, g: nat)
    requires f <= g < |times| && Base(rule, times, f) < Base(rule, times, g)
    ensures f < Base(rule, times, g)
  {
    BaseMonotone(rule, times, f, g);
  }

  /** So a hit two windows later is more than one window length away from `f`. */
  lemma ThreeWindowsApart(rule: Rule, times: seq<real>, f: nat, g: nat, h: nat)
    requires rule.windowSeconds > 0.0 && Sorted(times) && f <= g <= h < |times|
    requires Base(rule, times, f) < Base(rule, times, g) < Base(rule, times, h)
    ensures times[h] > times[f] + rule.windowSeconds
  {
    WindowGap(rule, times, f, g);
    WindowGap(rule, times, g, h);
    WithinItsWindow(rule, times, f);
    WithinItsWindow(rule, times, h);
  }

  lemma WithinItsWindow(rule: Rule, times: seq<real>, i: nat)
    requires rule.windowSeconds > 0.0 && Sorted(times) && i < |times|
    ensures times[Base(rule, times, i)] <= times[i] < times[Base(rule, times, i)] + rule.windowSeconds
  {
    BaseFacts(rule, times, i);
  }

  function AllowedIn(rule: Rule, times: seq<real>, from: real, to: real): set<nat> {
    set i: nat | i < |times| && from <= times[i] <= to && Allowed(rule, times, i)
  }

  function Range(lo: nat, len: int): (r: set<nat>)
    ensures |r| == if len < 0 then 0 else len
    ensures forall i: nat :: i in r <==> lo <= i < lo + len
    decreases if len < 0 then 0 else len
  {
    if len <= 0 then {} else Range(lo, len - 1) + {lo + len - 1}
  }

  /** What the limit allows at most. */
  function Quota(rule: Rule): nat { if rule.limit < 0 then 0 else rule.limit }

  /** Two windows together hold at most twice the limit of allowed hits. */
  lemma TwoWindowsHold(rule: Rule, times: seq<real>, all: set<nat>, b: nat, c: nat)
    requires forall i :: i in all ==> i < |times| && Allowed(rule, times, i)
    requires forall i :: i in all ==> Base(rule, times, i) == b || Base(rule, times, i) == c
    ensures |all| <= 2 * Quota(rule)
  {
    forall i | i in all ensures i in Range(b, rule.limit) + Range(c, rule.limit) {
      AllowedIffEarly(rule, times, i);
    }
    SubsetSize(all, Range(b, rule.limit) + Range(c, rule.limit));
  }

  /** Any interval as long as one window holds at most twice the limit of allowed hits. */
  lemma AtMostTwiceTheLimit(rule: Rule, times: seq<real>, from: real)
    requires rule.windowSeconds > 0.0 && Sorted(times)
    ensures |AllowedIn(rule, times, from, from + rule.windowSeconds)| <= 2 * Quota(rule)
  {
    var all := AllowedIn(rule, times, from, from + rule.windowSeconds);
    if f :| f in all && forall i :: i in all ==> f <= i {
      var b := Base(rule, times, f);
      if g :| g in all && Base(rule, times, g) > b {
        forall i | i in all ensures Base(rule, times, i) == b || Base(rule, times, i) == Base(rule, times, g) {
          TwoBases(rule, times, f, g, i);
        }
        TwoWindowsHold(rule, times, all, b, Base(rule, times, g));
      } else {
        forall i | i in all ensures Base(rule, times, i) == b {
          BaseMonotone(rule, times, f, i);
        }
        TwoWindowsHold(rule, times, all, b, b);
      }
    } else {
      NoLeast(all);
    }
  }

  lemma TwoBases(rule: Rule, times: seq<real>, f: nat, g: nat, i: nat)
    requires rule.windowSeconds > 0.0 && Sorted(times)
    requires f <= g < |times| && f <= i < |times|
    requires Base(rule, times, f) < Base(rule, times, g)
    requires times[g] <= times[f] + rule.windowSeconds && times[i] <= times[f] + rule.windowSeconds
    ensures Base(rule, times, i) == Base(rule, times, f) || Base(rule, times, i) == Base(rule, times, g)
  {
    var b, c, d := Base(rule, times, f), Base(rule, times, g), Base(rule, times, i);
    BaseMonotone(rule, times, f, i);
    if b < d < c {
      if g < i { BaseMonotone(rule, times, g, i); }
      ThreeWindowsApart(rule, times, f, i, g);
    } else if c < d {
      if i < g { BaseMonotone(rule, times, i, g); }
      ThreeWindowsApart(rule, times, f, g, i);
    }
  }

  lemma {:induction false} NoLeast(s: set<nat>)
    requires forall f :: f in s ==> exists i :: i in s && i < f
    ensures s == {}
  {
    if f :| f in s { Descend(s, f); }
  }

  lemma {:induction false} Descend(s: set<nat>, f: nat)
    requires forall f :: f in s ==> exists i :: i in s && i < f
    ensures f !in s
    decreases f
  {
    if f in s {
      var i :| i in s && i < f;
      Descend(s, i);
    }
  }

  ghost predicate BoundAt(rule: Rule, times: seq<real>, from: real) {
    |AllowedIn(rule, times, from, from + rule.windowSeconds)| <= 2 * Quota(rule)
  }

  /** Hits at one instant under a window of zero or less: each opens its own window, so all of
      them pass, or none if the limit is below one. */
  lemma NoWindowNoBound(rule: Rule, n: nat, at: real)
    requires rule.windowSeconds <= 0.0
    ensures var times := seq(n, _ => at);
            Sorted(times) && |AllowedIn(rule, times, at, at)| == if rule.limit >= 1 then n else 0
  {
    var times := seq(n, _ => at);
    forall i: nat | i < n ensures Allowed(rule, times, i) <==> rule.limit >= 1 {
      AllowedIffEarly(rule, times, i);
    }
    assert AllowedIn(rule, times, at, at) == if rule.limit >= 1 then Range(0, n) else {};
  }

  lemma NothingAllowed(rule: Rule, times: seq<real>, from: real)
    requires rule.limit <= 0 || rule.windowSeconds < 0.0
    ensures |AllowedIn(rule, times, from, from + rule.windowSeconds)| == 0
  {
    forall i: nat | i < |times| && from <= times[i] <= from + rule.windowSeconds ensures !Allowed(rule, times, i) {
      AllowedIffEarly(rule, times, i);
    }
    assert AllowedIn(rule, times, from, from + rule.windowSeconds) == {};
  }

  /** The bound of twice the limit per window length holds for every sorted history iff the
      window is not exactly zero or the limit lets nothing through. */
  lemma BoundIff(rule: Rule)
    ensures (forall times, from :: Sorted(times) ==> BoundAt(rule, times, from)) <==>
            rule.windowSeconds != 0.0 || rule.limit <= 0
  {
    if rule.windowSeconds != 0.0 || rule.limit <= 0 {
      forall times, from | Sorted(times) ensures BoundAt(rule, times, from) {
        if rule.windowSeconds > 0.0 {
          AtMostTwiceTheLimit(rule, times, from);
        } else {
          NothingAllowed(rule, times, from);
        }
      }
    } else {
      var n := 2 * rule.limit + 1;
      NoWindowNoBound(rule, n, 0.0);
      assert !BoundAt(rule, seq(n, _ => 0.0), 0.0);
    }
  }

  // ----- the verdicts of a mixed history -----

  /** The verdict `hit` returns for request `i`. */
  function VerdictAt(rules: map<string, Rule>, hs: seq<Request>, i: nat): Verdict
    requires i < |hs|
  {
    HitStep(rules, Replay(rules, hs[..i]), hs[i]).1
  }

  predicate IsFor(h: Request, name: string, identity: string) { h.name == name && h.identity == identity }

  /** The requests of one identity under one rule in a stretch of time that were allowed. */
  function AllowedRequests(rules: map<string, Rule>, hs: seq<Request>, name: string, identity: string,
                           from: real, to: real): set<nat>
  {
    set i: nat | i < |hs| && IsFor(hs[i], name, identity) && from <= hs[i].at <= to && VerdictAt(rules, hs, i).allowed
  }

  /** A request is decided as if its identity were alone. */
  lemma DecidedAlone(rules: map<string, Rule>, hs: seq<Request>)
    requires PlainNames(rules) && hs != [] && hs[|hs| - 1].name in rules
    ensures var h := hs[|hs| - 1];
            var times := TimesOf(hs, h.name, h.identity);
            && times != [] && times[|times| - 1] == h.at
            && VerdictAt(rules, hs, |hs| - 1).allowed == Allowed(rules[h.name], times, |times| - 1)
  {
    var n := |hs| - 1;
    var h := hs[n];
    var before := TimesOf(hs[..n], h.name, h.identity);
    OthersDoNotMatter(rules, hs[..n], h.name, h.identity);
    var times := before + [h.at];
    assert TimesOf(hs, h.name, h.identity) == times;
    assert times[..|before|] == before && times[..|times|] == times;
  }

  lemma AllowedInGrows(rule: Rule, times: seq<real>, x: real, from: real, to: real)
    ensures AllowedIn(rule, times + [x], from, to) ==
            AllowedIn(rule, times, from, to) +
            (if from <= x <= to && Allowed(rule, times + [x], |times|) then {|times|} else {})
  {
    forall i: nat | i < |times| ensures Allowed(rule, times + [x], i) == Allowed(rule, times, i) {
      assert (times + [x])[..i + 1] == times[..i + 1];
    }
  }

  lemma AllowedRequestsGrow(rules: map<string, Rule>, hs: seq<Request>, name: string, identity: string,
                            from: real, to: real)
    requires hs != []
    ensures var n := |hs| - 1;
            AllowedRequests(rules, hs, name, identity, from, to) ==
            AllowedRequests(rules, hs[..n], name, identity, from, to) +
            (if IsFor(hs[n], name, identity) && from <= hs[n].at <= to && VerdictAt(rules, hs, n).allowed
             then {n} else {})
  {
    var n := |hs| - 1;
    forall i: nat | i < n ensures VerdictAt(rules, hs, i) == VerdictAt(rules, hs[..n], i) {
      assert hs[..n][..i] == hs[..i];
    }
  }

  /** Counting an identity's allowed requests in the mixed history is counting its own hits. */
  lemma {:induction false} CountsAlone(rules: map<string, Rule>, hs: seq<Request>, name: string, identity: string,
                                       from: real, to: real)
    requires PlainNames(rules) && name in rules
    ensures |AllowedRequests(rules, hs, name, identity, from, to)| ==
            |AllowedIn(rules[name], TimesOf(hs, name, identity), from, to)|
    decreases |hs|
  {
    if hs != [] {
      var n := |hs| - 1;
      CountsAlone(rules, hs[..n], name, identity, from, to);
      AllowedRequestsGrow(rules, hs, name, identity, from, to);
      if IsFor(hs[n], name, identity) {
        DecidedAlone(rules, hs);
        AllowedInGrows(rules[name], TimesOf(hs[..n], name, identity), hs[n].at, from, to);
      }
    }
  }

  predicate InTimeOrder(hs: seq<Request>) {
    forall i, j :: 0 <= i < j < |hs| ==> hs[i].at <= hs[j].at
  }

  lemma {:induction false} TimesSorted(hs: seq<Request>, name: string, identity: string)
    requires InTimeOrder(hs)
    ensures Sorted(TimesOf(hs, name, identity))
    ensures forall i :: 0 <= i < |TimesOf(hs, name, identity)| ==> TimesOf(hs, name, identity)[i] <= hs[|hs| - 1].at
    decreases |hs|
  {
    if hs != [] { TimesSorted(hs[..|hs| - 1], name, identity); }
  }

  /** In any history of hits on any rules by any identities, under a clock that never goes
      back, every stretch as long as a rule's window holds at most twice its limit of requests
      by one identity that `hit` allowed. */
  lemma RateBound(rules: map<string, Rule>, hs: seq<Request>, name: string, identity: string, from: real)
    requires PlainNames(rules) && name in rules && InTimeOrder(hs)
    requires rules[name].windowSeconds != 0.0 || rules[name].limit <= 0
    ensures |AllowedRequests(rules, hs, name, identity, from, from + rules[name].windowSeconds)| <=
            2 * Quota(rules[name])
  {
    TimesSorted(hs, name, identity);
    CountsAlone(rules, hs, name, identity, from, from + rules[name].windowSeconds);
    BoundIff(rules[name]);
    assert BoundAt(rules[name], TimesOf(hs, name, identity), from);
  }

  // ----- Retry-After -----

  /** A denied caller that comes back exactly after `retryAfter` seconds is let in iff the
      limit lets anyone in and what was left of the window was at most one second, or whole
      seconds; one second later it is let in whenever the limit lets anyone in. */
  lemma RetryAfterHonest(rule: Rule, stored: Option<Window>, now: real)
    requires stored.Some? ==> stored.value.start <= now
    requires !Decide(rule, Counted(rule, stored, now), now).allowed
    ensures var w := Counted(rule, stored, now);
            var v := Decide(rule, w, now);
            var left := rule.windowSeconds - (now - w.start);
            var again := now + v.retryAfter as real;
            && v.retryAfter >= 1
            && (Decide(rule, Counted(rule, Some(w), again), again).allowed <==>
                  rule.limit >= 1 && (left <= 1.0 || left == left.Floor as real))
            && (Decide(rule, Counted(rule, Some(w), again + 1.0), again + 1.0).allowed <==> rule.limit >= 1)
  {
    var w := Counted(rule, stored, now);
    assert w.start <= now;
  }

  // ----- the limiter -----

  class RateLimiter {
    const rules: map<string, Rule>
    var windows: Windows

    constructor (rules: map<string, Rule>)
      ensures this.rules == rules && windows == map[]
    {
      this.rules, windows := rules, map[];
    }

    method Hit(name: string, identity: string, now: real) returns (r: Verdict)
      modifies this
      ensures (windows, r) == HitStep(rules, old(windows), Request(name, identity, now))
      ensures name !in rules ==> windows == old(windows) && r == Verdict(true, -1, 0)
    {
      if name !in rules {
        return Verdict(true, -1, 0);
      }
      var rule := rules[name];
      var key := name + ":" + identity;
      var start, count := now, 0;
      if key in windows {
        start, count := windows[key].start, windows[key].count;
      }
      if now - start >= rule.windowSeconds {
        start, count := now, 0;
      }
      count := count + 1;
      windows := windows[key := Window(start, count)];
      if count > rule.limit {
        var left := Truncate(rule.windowSeconds - (now - start));
        return Verdict(false, 0, if left < 1 then 1 else left);
      }
      r := Verdict(true, rule.limit - count, 0);
    }
  }
}
