/** The admission gate of the Claude bridge as a step system.

    Every thread is at one `Phase`; one step of a thread is one region of the source that
    runs without giving up the condition's lock (or one semaphore operation, or the end of
    the caller's `fn`).  A run is any interleaving of such steps.  `fn` and the clock are
    arbitrary: a step carries the clock reading and says whether `fn` raised. */
module BridgeGate {
  import opened Prelude

  /** Where a thread is inside `run`. `asleep` is membership in the condition's wait set. */
  datatype Phase =
    | Outside(raised: bool)        // not in run(); how its previous call ended
    | SerialQueued                 // concurrency 1: waiting for the one slot
    | SerialRunning                // concurrency 1: inside fn
    | Draining(asleep: bool)       // owns the warm-up, waits for the readers to leave
    | Warming                      // the warm-up call, inside fn
    | WarmDone(raised: bool)       // fn over, about to enter _release_writer
    | Held(asleep: bool)           // waits a warm-up out
    | Admitted                     // counted in _active, waiting for a slot
    | Reading                      // holds a slot, inside fn
    | SlotReturned(raised: bool)   // slot given back, about to enter _release_reader

  datatype Gate = Gate(
    concurrency: int,
    interval: real,
    slots: int,
    warming: bool,
    active: int,
    warmedOnce: bool,
    lastWarm: real,
    threads: seq<Phase>)

  datatype Tick = Tick(thread: nat, now: real, raised: bool)

  // ----- the steps -----

  function Start(concurrency: int, interval: real, threads: nat): Gate {
    var bound := if concurrency < 1 then 1 else concurrency;
    Gate(bound, interval, bound, false, 0, false, 0.0, seq(threads, _ => Outside(false)))
  }

  function Awake(p: Phase): Phase {
    match p
    case Draining(_) => Draining(false)
    case Held(_) => Held(false)
    case _ => p
  }

  function NotifyAll(threads: seq<Phase>): (r: seq<Phase>)
    ensures |r| == |threads|
    ensures forall i :: 0 <= i < |r| ==> r[i] == Awake(threads[i])
  {
    seq(|threads|, i requires 0 <= i < |threads| => Awake(threads[i]))
  }

  predicate Stale(g: Gate, now: real) {
    !g.warmedOnce || now - g.lastWarm >= g.interval
  }

  /** Can thread `t` take its next step?  The end of `fn` is always possible. */
  predicate Enabled(g: Gate, t: nat) {
    t < |g.threads| &&
    match g.threads[t]
    case SerialQueued => g.slots > 0
    case Admitted => g.slots > 0
    case Draining(asleep) => !asleep
    case Held(asleep) => !asleep
    case _ => true
  }

  function Moved(g: Gate, t: nat, p: Phase): Gate
    requires t < |g.threads|
  {
    g.(threads := g.threads[t := p])
  }

  function EnterWriter(g: Gate, t: nat): Gate
    requires t < |g.threads|
  {
    Moved(g, t, if g.active > 0 then Draining(true) else Warming)
  }

  function EnterReader(g: Gate, t: nat): Gate
    requires t < |g.threads|
  {
    if g.warming then Moved(g, t, Held(true))
    else Moved(g.(active := g.active + 1), t, Admitted)
  }

  function Claim(g: Gate, t: nat, now: real): Gate
    requires t < |g.threads|
  {
    if g.concurrency == 1 then Moved(g, t, SerialQueued)
    else if Stale(g, now) && !g.warming then EnterWriter(g.(warming := true), t)
    else EnterReader(g, t)
  }

  function ReleaseWriter(g: Gate, t: nat, now: real, raised: bool): Gate
    requires t < |g.threads|
  {
    var h := Moved(g, t, Outside(raised));
    h.(warming := false, warmedOnce := true, lastWarm := now, threads := NotifyAll(h.threads))
  }

  function ReleaseReader(g: Gate, t: nat, raised: bool): Gate
    requires t < |g.threads|
  {
    var h := Moved(g, t, Outside(raised));
    h.(active := g.active - 1, threads := NotifyAll(h.threads))
  }

  function Step(g: Gate, k: Tick): Gate
    requires Enabled(g, k.thread)
  {
    var t := k.thread;
    match g.threads[t]
    case Outside(_) => Claim(g, t, k.now)
    case SerialQueued => Moved(g.(slots := g.slots - 1), t, SerialRunning)
    case SerialRunning => Moved(g.(slots := g.slots + 1), t, Outside(k.raised))
    case Draining(_) => EnterWriter(g, t)
    case Held(_) => EnterReader(g, t)
    case Warming => Moved(g, t, WarmDone(k.raised))
    case WarmDone(raised) => ReleaseWriter(g, t, k.now, raised)
    case Admitted => Moved(g.(slots := g.slots - 1), t, Reading)
    case Reading => Moved(g.(slots := g.slots + 1), t, SlotReturned(k.raised))
    case SlotReturned(raised) => ReleaseReader(g, t, raised)
  }

  predicate Runs(g: Gate, ks: seq<Tick>)
    decreases |ks|
  {
    ks == [] || (Enabled(g, ks[0].thread) && Runs(Step(g, ks[0]), ks[1..]))
  }

  function After(g: Gate, ks: seq<Tick>): Gate
    requires Runs(g, ks)
    decreases |ks|
  {
    if ks == [] then g else After(Step(g, ks[0]), ks[1..])
  }

  // ----- who is where -----

  datatype Role = Reader | Runner | Writer | Serial

  predicate Plays(p: Phase, r: Role) {
    match r
    case Reader => p.Admitted? || p.Reading? || p.SlotReturned?
    case Runner => p.Reading? || p.SerialRunning?
    case Writer => p.Draining? || p.Warming? || p.WarmDone?
    case Serial => p.SerialQueued? || p.SerialRunning?
  }

  function Who(threads: seq<Phase>, r: Role): set<nat> {
    set t: nat | t < |threads| && Plays(threads[t], r)
  }

  lemma WhoUpdate(threads: seq<Phase>, t: nat, p: Phase, r: Role)
    requires t < |threads|
    ensures Who(threads[t := p], r) ==
            if Plays(p, r) then Who(threads, r) + {t} else Who(threads, r) - {t}
    ensures |Who(threads[t := p], r)| ==
            |Who(threads, r)| - (if Plays(threads[t], r) then 1 else 0) + (if Plays(p, r) then 1 else 0)
  {
    var before, after := Who(threads, r), Who(threads[t := p], r);
    assert after == if Plays(p, r) then before + {t} else before - {t};
    assert t in before <==> Plays(threads[t], r);
  }

  lemma WhoNotify(threads: seq<Phase>, r: Role)
    ensures Who(NotifyAll(threads), r) == Who(threads, r)
  {
    forall t: nat ensures t in Who(NotifyAll(threads), r) <==> t in Who(threads, r) {
      if t < |threads| {
        assert NotifyAll(threads)[t] == Awake(threads[t]);
      }
    }
  }

  // ----- the invariant -----

  predicate PhaseOk(g: Gate, p: Phase) {
    match p
    case Warming => g.active == 0
    case WarmDone(_) => g.active == 0
    case Draining(asleep) => asleep ==> g.active > 0
    case Held(asleep) => (asleep ==> g.warming) && (g.warming || g.warmedOnce)
    case _ => true
  }

  lemma StartInv(concurrency: int, interval: real, threads: nat)
    ensures Inv(Start(concurrency, interval, threads))
  {
    var g := Start(concurrency, interval, threads);
    assert Who(g.threads, Runner) == {};
    assert Who(g.threads, Reader) == {};
    assert Who(g.threads, Writer) == {};
  }

  /** Bookkeeping of one thread changing phase, for every role at once. */
  lemma Recount(g: Gate, t: nat, p: Phase)
    requires t < |g.threads|
    ensures forall r: Role ::
              |Who(g.threads[t := p], r)| ==
              |Who(g.threads, r)| - (if Plays(g.threads[t], r) then 1 else 0) + (if Plays(p, r) then 1 else 0)
  {
    forall r: Role
      ensures |Who(g.threads[t := p], r)| ==
              |Who(g.threads, r)| - (if Plays(g.threads[t], r) then 1 else 0) + (if Plays(p, r) then 1 else 0)
    {
      WhoUpdate(g.threads, t, p, r);
    }
  }

  lemma SoleWriter(g: Gate, t: nat, u: nat)
    requires |Who(g.threads, Writer)| <= 1
    requires t < |g.threads| && u < |g.threads|
    requires Plays(g.threads[t], Writer) && Plays(g.threads[u], Writer)
    ensures t == u
  {
    var ws := Who(g.threads, Writer);
    assert t in ws && u in ws;
    if t != u {
      assert {t, u} <= ws;
      SubsetSize({t, u}, ws);
    }
  }

  lemma NonEmpty(g: Gate, t: nat, r: Role)
    requires t < |g.threads| && Plays(g.threads[t], r)
    ensures |Who(g.threads, r)| >= 1
  {
    assert t in Who(g.threads, r);
  }

  /** The side conditions every thread meets, apart from the counts. */
  ghost predicate PhasesOk(g: Gate) {
    forall t :: 0 <= t < |g.threads| ==> PhaseOk(g, g.threads[t])
  }

  ghost predicate LanesOk(g: Gate) {
    && (g.concurrency == 1 ==>
          !g.warming && g.active == 0 &&
          forall t :: 0 <= t < |g.threads| ==> g.threads[t].Outside? || Plays(g.threads[t], Serial))
    && (g.concurrency > 1 ==> forall t :: 0 <= t < |g.threads| ==> !Plays(g.threads[t], Serial))
  }

  ghost predicate CountsOk(g: Gate) {
    && g.concurrency >= 1
    && g.slots >= 0
    && g.slots + |Who(g.threads, Runner)| == g.concurrency
    && g.active == |Who(g.threads, Reader)|
    && |Who(g.threads, Writer)| == (if g.warming then 1 else 0)
    && (!g.warmedOnce ==> g.active == 0)
  }

  ghost predicate Inv(g: Gate) {
    CountsOk(g) && LanesOk(g) && PhasesOk(g)
  }

  lemma StepLanes(g: Gate, k: Tick)
    requires Inv(g) && Enabled(g, k.thread)
    ensures LanesOk(Step(g, k))
  {
    var t := k.thread;
    var p := g.threads[t];
    if g.concurrency == 1 {
      assert p.Outside? || Plays(p, Serial);
    } else {
      assert !Plays(p, Serial);
    }
  }

  lemma ReleaseCounts(g: Gate, k: Tick)
    requires Inv(g) && Enabled(g, k.thread)
    requires g.threads[k.thread].WarmDone? || g.threads[k.thread].SlotReturned?
    ensures CountsOk(Step(g, k))
  {
    var t := k.thread;
    var p := g.threads[t];
    var out := Outside(p.raised);
    assert PhaseOk(g, p);
    Recount(g, t, out);
    WhoNotify(g.threads[t := out], Runner);
    WhoNotify(g.threads[t := out], Reader);
    WhoNotify(g.threads[t := out], Writer);
    NonEmpty(g, t, if p.WarmDone? then Writer else Reader);
  }

  lemma StepCounts(g: Gate, k: Tick)
    requires Inv(g) && Enabled(g, k.thread)
    ensures CountsOk(Step(g, k))
  {
    var t := k.thread;
    var p := g.threads[t];
    if p.WarmDone? || p.SlotReturned? {
      ReleaseCounts(g, k);
    } else {
      var h := Step(g, k);
      assert PhaseOk(g, p);
      assert h.threads == g.threads[t := h.threads[t]];
      Recount(g, t, h.threads[t]);
      if p.Draining? || p.Warming? { NonEmpty(g, t, Writer); }
    }
  }

  /** Every other thread keeps its side condition, whatever thread `t` did. */
  lemma StepPhases(g: Gate, k: Tick)
    requires Inv(g) && Enabled(g, k.thread)
    ensures PhasesOk(Step(g, k))
  {
    var t := k.thread;
    var h := Step(g, k);
    var p := g.threads[t];
    assert PhaseOk(g, p);
    forall u: nat | u < |h.threads| ensures PhaseOk(h, h.threads[u]) {
      var q := g.threads[u];
      assert PhaseOk(g, q);
      if u != t && Plays(q, Writer) {
        NonEmpty(g, u, Writer);
        if Plays(p, Writer) { SoleWriter(g, t, u); }
      }
      if p.SlotReturned? { NonEmpty(g, t, Reader); }
      if p.Draining? { NonEmpty(g, t, Writer); }
    }
  }

  lemma StepInv(g: Gate, k: Tick)
    requires Inv(g) && Enabled(g, k.thread)
    ensures Inv(Step(g, k))
  {
    StepCounts(g, k);
    StepLanes(g, k);
    StepPhases(g, k);
  }

  lemma {:induction false} RunInv(g: Gate, ks: seq<Tick>)
    requires Inv(g) && Runs(g, ks)
    ensures Inv(After(g, ks))
    decreases |ks|
  {
    if ks != [] {
      StepInv(g, ks[0]);
      RunInv(Step(g, ks[0]), ks[1..]);
    }
  }

  // ----- safety over whole runs -----

  /** Mutual exclusion of the warm-up call, for every interleaving of any number of threads. */
  lemma WarmUpIsExclusive(concurrency: int, interval: real, threads: nat, ks: seq<Tick>, t: nat, u: nat)
    requires Runs(Start(concurrency, interval, threads), ks)
    requires t < |After(Start(concurrency, interval, threads), ks).threads|
    requires u < |After(Start(concurrency, interval, threads), ks).threads|
    ensures var g := After(Start(concurrency, interval, threads), ks);
            && (g.threads[t].Warming? && u != t ==>
                  !Plays(g.threads[u], Reader) && !Plays(g.threads[u], Writer) && !Plays(g.threads[u], Runner))
            && (Plays(g.threads[t], Writer) && Plays(g.threads[u], Writer) ==> t == u)
            && (Plays(g.threads[t], Reader) ==> g.warmedOnce)
  {
    StartInv(concurrency, interval, threads);
    RunInv(Start(concurrency, interval, threads), ks);
    var g := After(Start(concurrency, interval, threads), ks);
    assert PhaseOk(g, g.threads[t]);
    if Plays(g.threads[u], Reader) { NonEmpty(g, u, Reader); }
    if Plays(g.threads[t], Reader) { NonEmpty(g, t, Reader); }
    if Plays(g.threads[t], Writer) && Plays(g.threads[u], Writer) { SoleWriter(g, t, u); }
    if g.threads[t].Warming? { assert !Plays(g.threads[t], Serial); }
  }

  /** `_active` and the semaphore are exact, and nobody sleeps on a false wait condition. */
  lemma GateBookkeeping(concurrency: int, interval: real, threads: nat, ks: seq<Tick>)
    requires Runs(Start(concurrency, interval, threads), ks)
    ensures var g := After(Start(concurrency, interval, threads), ks);
            && g.concurrency == (if concurrency < 1 then 1 else concurrency) && |g.threads| == threads
            && g.active == |Who(g.threads, Reader)|
            && |Who(g.threads, Runner)| == g.concurrency - g.slots <= g.concurrency
            && (forall t :: 0 <= t < |g.threads| && g.threads[t] == Draining(true) ==> g.active > 0)
            && (forall t :: 0 <= t < |g.threads| && g.threads[t] == Held(true) ==> g.warming)
  {
    StartInv(concurrency, interval, threads);
    RunInv(Start(concurrency, interval, threads), ks);
    SameBound(Start(concurrency, interval, threads), ks);
    var g := After(Start(concurrency, interval, threads), ks);
    forall t | 0 <= t < |g.threads|
      ensures (g.threads[t] == Draining(true) ==> g.active > 0) && (g.threads[t] == Held(true) ==> g.warming)
    {
      assert PhaseOk(g, g.threads[t]);
    }
  }

  /** A concurrency of one or less is fully serial: one caller in `fn`, no lanes at all. */
  lemma SerialByDefault(concurrency: int, interval: real, threads: nat, ks: seq<Tick>)
    requires concurrency <= 1 && Runs(Start(concurrency, interval, threads), ks)
    ensures var g := After(Start(concurrency, interval, threads), ks);
            && |Who(g.threads, Runner)| <= 1 && g.active == 0 && !g.warming
            && forall t :: 0 <= t < |g.threads| ==> g.threads[t].Outside? || Plays(g.threads[t], Serial)
  {
    StartInv(concurrency, interval, threads);
    RunInv(Start(concurrency, interval, threads), ks);
    SameBound(Start(concurrency, interval, threads), ks);
  }

  lemma {:induction false} SameBound(g: Gate, ks: seq<Tick>)
    requires Runs(g, ks)
    ensures After(g, ks).concurrency == g.concurrency && |After(g, ks).threads| == |g.threads|
    decreases |ks|
  {
    if ks != [] { SameBound(Step(g, ks[0]), ks[1..]); }
  }

  // ----- every call runs `fn` exactly once, and ends as `fn` ended -----

  /** Inside `fn`. */
  predicate InFn(p: Phase) { p.Warming? || p.Reading? || p.SerialRunning? }

  /** Between the call of `run` and `fn`. */
  predicate BeforeFn(p: Phase) { p.SerialQueued? || p.Draining? || p.Held? || p.Admitted? }

  /** Between `fn` and the return from `run`. */
  predicate AfterFn(p: Phase) { p.WarmDone? || p.SlotReturned? }

  function One(b: bool): nat { if b then 1 else 0 }

  /** How often thread `t` calls `run` in the run `ks`. */
  function Calls(g: Gate, ks: seq<Tick>, t: nat): nat
    requires Runs(g, ks)
    decreases |ks|
  {
    if ks == [] then 0
    else One(ks[0].thread == t && g.threads[t].Outside?) + Calls(Step(g, ks[0]), ks[1..], t)
  }

  /** How often it enters `fn`. */
  function Entries(g: Gate, ks: seq<Tick>, t: nat): nat
    requires Runs(g, ks)
    decreases |ks|
  {
    if ks == [] then 0
    else
      One(ks[0].thread == t && !InFn(g.threads[t]) && InFn(Step(g, ks[0]).threads[t])) +
      Entries(Step(g, ks[0]), ks[1..], t)
  }

  /** How often it returns from `run`. */
  function Returns(g: Gate, ks: seq<Tick>, t: nat): nat
    requires Runs(g, ks)
    decreases |ks|
  {
    if ks == [] then 0
    else
      One(ks[0].thread == t && !g.threads[t].Outside? && Step(g, ks[0]).threads[t].Outside?) +
      Returns(Step(g, ks[0]), ks[1..], t)
  }

  /** How `fn` last ended for thread `t`, or `last` if it did not end in `ks`. */
  function LastEnd(g: Gate, ks: seq<Tick>, t: nat, last: bool): bool
    requires Runs(g, ks)
    decreases |ks|
  {
    if ks == [] then last
    else
      LastEnd(Step(g, ks[0]), ks[1..], t, if ks[0].thread == t && InFn(g.threads[t]) then ks[0].raised else last)
  }

  /** A thread that has left `fn` carries the outcome `last`. */
  predicate Carries(p: Phase, last: bool) {
    match p
    case Outside(raised) => raised == last
    case WarmDone(raised) => raised == last
    case SlotReturned(raised) => raised == last
    case _ => true
  }

  lemma OtherStep(g: Gate, k: Tick, t: nat)
    requires Enabled(g, k.thread) && t < |g.threads| && k.thread != t
    ensures |Step(g, k).threads| == |g.threads|
    ensures Step(g, k).threads[t] == g.threads[t] || Step(g, k).threads[t] == Awake(g.threads[t])
  {
  }

  /** One own step of a thread, along the only way through `run`. */
  lemma OwnStep(g: Gate, k: Tick)
    requires Enabled(g, k.thread)
    ensures |Step(g, k).threads| == |g.threads|
    ensures var p, q := g.threads[k.thread], Step(g, k).threads[k.thread];
            && (p.Outside? ==> BeforeFn(q) || InFn(q))
            && (BeforeFn(p) ==> BeforeFn(q) || InFn(q))
            && (InFn(p) ==> (AfterFn(q) || q.Outside?) && Carries(q, k.raised))
            && (AfterFn(p) ==> q == Outside(p.raised))
  {
  }

  lemma CountStep(g: Gate, k: Tick, t: nat, last: bool)
    requires Enabled(g, k.thread) && t < |g.threads| && Carries(g.threads[t], last)
    ensures t < |Step(g, k).threads|
    ensures var p, q := g.threads[t], Step(g, k).threads[t];
            var own := k.thread == t;
            && One(BeforeFn(p)) + One(own && p.Outside?) == One(own && !InFn(p) && InFn(q)) + One(BeforeFn(q))
            && One(InFn(p) || AfterFn(p)) + One(own && !InFn(p) && InFn(q)) ==
               One(own && !p.Outside? && q.Outside?) + One(InFn(q) || AfterFn(q))
            && Carries(q, if own && InFn(p) then k.raised else last)
  {
    if k.thread == t { OwnStep(g, k); } else { OtherStep(g, k, t); }
  }

  /** In every run: calls made are the entries into `fn` plus the call still on its way there;
      entries are the returns plus the call inside or behind `fn`; and a call returns with the
      outcome of the step that ended its `fn`. */
  lemma {:induction false} EveryCallRunsOnce(g: Gate, ks: seq<Tick>, t: nat, last: bool)
    requires Runs(g, ks) && t < |g.threads| && Carries(g.threads[t], last)
    ensures t < |After(g, ks).threads|
    ensures var p, q := g.threads[t], After(g, ks).threads[t];
            && One(BeforeFn(p)) + Calls(g, ks, t) == Entries(g, ks, t) + One(BeforeFn(q))
            && One(InFn(p) || AfterFn(p)) + Entries(g, ks, t) == Returns(g, ks, t) + One(InFn(q) || AfterFn(q))
            && Carries(q, LastEnd(g, ks, t, last))
    decreases |ks|
  {
    if ks != [] {
      CountStep(g, ks[0], t, last);
      EveryCallRunsOnce(Step(g, ks[0]), ks[1..], t,
                        if ks[0].thread == t && InFn(g.threads[t]) then ks[0].raised else last);
    }
  }

  /** From a fresh gate: a thread outside has run `fn` once for every call it made, and holds
      the outcome of its last `fn`. */
  lemma CallsRunFn(concurrency: int, interval: real, threads: nat, ks: seq<Tick>, t: nat)
    requires Runs(Start(concurrency, interval, threads), ks) && t < threads
    ensures var g := Start(concurrency, interval, threads);
            && t < |After(g, ks).threads|
            && Calls(g, ks, t) == Entries(g, ks, t) + One(BeforeFn(After(g, ks).threads[t]))
            && Entries(g, ks, t) ==
               Returns(g, ks, t) + One(InFn(After(g, ks).threads[t]) || AfterFn(After(g, ks).threads[t]))
            && (After(g, ks).threads[t].Outside? ==>
                  Calls(g, ks, t) == Entries(g, ks, t) == Returns(g, ks, t) &&
                  After(g, ks).threads[t].raised == LastEnd(g, ks, t, false))
  {
    EveryCallRunsOnce(Start(concurrency, interval, threads), ks, t, false);
  }

  // ----- progress -----

  function AnyOf(threads: seq<Phase>, r: Role): (t: nat)
    requires Who(threads, r) != {}
    ensures t < |threads| && Plays(threads[t], r)
  {
    assert exists t: nat :: t < |threads| && Plays(threads[t], r) by {
      assert exists t :: t in Who(threads, r);
    }
    if Plays(threads[0], r) then 0
    else
      assert Who(threads[1..], r) != {} by {
        var t: nat :| t < |threads| && Plays(threads[t], r);
        assert threads[1..][t - 1] == threads[t];
        assert t - 1 in Who(threads[1..], r);
      }
      1 + AnyOf(threads[1..], r)
  }

  /** A thread inside run() that can move, found by following who waits for whom. */
  lemma SomeoneMoves(g: Gate, t: nat) returns (u: nat)
    requires Inv(g) && t < |g.threads| && !g.threads[t].Outside?
    ensures Enabled(g, u) && !g.threads[u].Outside?
  {
    assert PhaseOk(g, g.threads[t]);
    u := t;
    if Enabled(g, u) { return; }
    if g.threads[u].Held? {
      u := AnyOf(g.threads, Writer);
      assert PhaseOk(g, g.threads[u]);
      if Enabled(g, u) { return; }
    }
    if g.threads[u].Draining? {
      u := AnyOf(g.threads, Reader);
      if Enabled(g, u) { return; }
    }
    u := AnyOf(g.threads, Runner);
  }

  /** No deadlock: while a call is pending, some pending call can move. */
  lemma NeverStuck(concurrency: int, interval: real, threads: nat, ks: seq<Tick>)
    requires Runs(Start(concurrency, interval, threads), ks)
    ensures var g := After(Start(concurrency, interval, threads), ks);
            (exists t :: 0 <= t < |g.threads| && !g.threads[t].Outside?) ==>
              exists u :: 0 <= u < |g.threads| && !g.threads[u].Outside? && Enabled(g, u)
  {
    StartInv(concurrency, interval, threads);
    RunInv(Start(concurrency, interval, threads), ks);
    var g := After(Start(concurrency, interval, threads), ks);
    if t :| 0 <= t < |g.threads| && !g.threads[t].Outside? {
      var u := SomeoneMoves(g, t);
    }
  }

  /** Steps a phase still needs before its thread no longer counts as an admitted reader. */
  function Cost(p: Phase): nat {
    match p
    case Admitted => 3
    case Reading => 2
    case SlotReturned(_) => 1
    case _ => 0
  }

  function Work(threads: seq<Phase>): nat {
    if threads == [] then 0 else Cost(threads[0]) + Work(threads[1..])
  }

  lemma {:induction false} WorkUpdate(threads: seq<Phase>, t: nat, p: Phase)
    requires t < |threads|
    ensures Work(threads[t := p]) == Work(threads) - Cost(threads[t]) + Cost(p)
  {
    var after := threads[t := p];
    if t == 0 {
      assert after[1..] == threads[1..];
    } else {
      assert after[1..] == threads[1..][t - 1 := p];
      WorkUpdate(threads[1..], t - 1, p);
    }
  }

  lemma {:induction false} WorkNotify(threads: seq<Phase>)
    ensures Work(NotifyAll(threads)) == Work(threads)
  {
    if threads != [] {
      assert NotifyAll(threads)[1..] == NotifyAll(threads[1..]);
      WorkNotify(threads[1..]);
    }
  }

  lemma {:induction false} WorkAtMost(threads: seq<Phase>)
    ensures Work(threads) <= 3 * |Who(threads, Reader)|
    decreases |threads|
  {
    if threads != [] {
      var n := |threads| - 1;
      var init := threads[..n];
      WorkAtMost(init);
      WorkAppend(init, threads[n]);
      assert threads == init + [threads[n]];
      var before, after := Who(init, Reader), Who(threads, Reader);
      assert after == if Plays(threads[n], Reader) then before + {n} else before;
    }
  }

  lemma {:induction false} WorkAppend(threads: seq<Phase>, p: Phase)
    ensures Work(threads + [p]) == Work(threads) + Cost(p)
  {
    if threads == [] {
      assert threads + [p] == [p];
    } else {
      assert (threads + [p])[1..] == threads[1..] + [p];
      WorkAppend(threads[1..], p);
    }
  }

  /** While a writer holds the role, nobody is admitted and every reader step pays off one unit. */
  lemma DrainStep(g: Gate, k: Tick)
    requires Inv(g) && Enabled(g, k.thread) && g.warming
    ensures Work(Step(g, k).threads) ==
            Work(g.threads) - (if Plays(g.threads[k.thread], Reader) then 1 else 0)
  {
    var t := k.thread;
    var h := Step(g, k);
    var p := g.threads[t];
    if p.WarmDone? || p.SlotReturned? {
      WorkUpdate(g.threads, t, Outside(p.raised));
      WorkNotify(g.threads[t := Outside(p.raised)]);
    } else {
      assert h.threads == g.threads[t := h.threads[t]];
      WorkUpdate(g.threads, t, h.threads[t]);
    }
  }

  function ReaderSteps(g: Gate, ks: seq<Tick>): nat
    requires Runs(g, ks)
    decreases |ks|
  {
    if ks == [] then 0
    else (if Plays(g.threads[ks[0].thread], Reader) then 1 else 0) + ReaderSteps(Step(g, ks[0]), ks[1..])
  }

  /** The warm-up role is held in every state of the run but possibly the last. */
  predicate RoleHeld(g: Gate, ks: seq<Tick>)
    requires Runs(g, ks)
    decreases |ks|
  {
    ks == [] || (g.warming && RoleHeld(Step(g, ks[0]), ks[1..]))
  }

  lemma {:induction false} DrainPaysOff(g: Gate, ks: seq<Tick>)
    requires Inv(g) && Runs(g, ks) && RoleHeld(g, ks)
    ensures ReaderSteps(g, ks) + Work(After(g, ks).threads) == Work(g.threads)
    decreases |ks|
  {
    if ks != [] {
      DrainStep(g, ks[0]);
      StepInv(g, ks[0]);
      DrainPaysOff(Step(g, ks[0]), ks[1..]);
    }
  }

  /** The draining writer gets in: in all, the readers it waits for take at most three steps
      each; as long as one is left some reader can move; and with none left the writer can. */
  lemma DrainTerminates(g: Gate, ks: seq<Tick>, w: nat)
    requires Inv(g) && Runs(g, ks) && RoleHeld(g, ks)
    requires w < |After(g, ks).threads| && After(g, ks).threads[w].Draining?
    ensures ReaderSteps(g, ks) <= 3 * g.active
    ensures var h := After(g, ks);
            if h.active > 0 then
              exists u :: 0 <= u < |h.threads| && Plays(h.threads[u], Reader) && Enabled(h, u)
            else
              Enabled(h, w) && forall now, raised :: Step(h, Tick(w, now, raised)).threads[w] == Warming
  {
    DrainPaysOff(g, ks);
    WorkAtMost(g.threads);
    RunInv(g, ks);
    var h := After(g, ks);
    assert PhaseOk(h, h.threads[w]);
    assert !Plays(h.threads[w], Serial);
    if h.active > 0 {
      var u := AnyOf(h.threads, Reader);
      if !Enabled(h, u) {
        u := AnyOf(h.threads, Runner);
        assert Plays(h.threads[u], Reader);
      }
    }
  }

  // ----- refreshes are rare: consecutive warm-ups lie a whole interval apart -----

  predicate ClockFrom(clock: real, ks: seq<Tick>)
    decreases |ks|
  {
    ks == [] || (clock <= ks[0].now && ClockFrom(ks[0].now, ks[1..]))
  }

  function WarmUps(g: Gate, ks: seq<Tick>): nat
    requires Runs(g, ks)
    decreases |ks|
  {
    if ks == [] then 0
    else (if g.threads[ks[0].thread].WarmDone? then 1 else 0) + WarmUps(Step(g, ks[0]), ks[1..])
  }

  /** A claimed warm-up waits for the interval since the previous one. */
  predicate Spaced(g: Gate, clock: real) {
    g.warming && g.warmedOnce ==> clock - g.lastWarm >= g.interval
  }

  lemma SpacedStep(g: Gate, k: Tick, clock: real)
    requires Inv(g) && Enabled(g, k.thread) && Spaced(g, clock) && clock <= k.now
    ensures var h := Step(g, k);
            && Spaced(h, k.now) && h.interval == g.interval
            && (if g.threads[k.thread].WarmDone?
                then h.warmedOnce && h.lastWarm == k.now && (g.warmedOnce ==> k.now >= g.lastWarm + g.interval)
                else h.warmedOnce == g.warmedOnce && h.lastWarm == g.lastWarm)
  {
    if g.threads[k.thread].WarmDone? { NonEmpty(g, k.thread, Writer); }
  }

  /** Counting raised warm-ups too: `n` of them move `_last_warm` by at least `n` intervals,
      and by at least `n - 1` after the clock reading `clock` if none had been done. */
  lemma {:induction false} WarmUpsAreSpaced(g: Gate, ks: seq<Tick>, clock: real)
    requires Inv(g) && Runs(g, ks) && ClockFrom(clock, ks) && Spaced(g, clock)
    ensures var n := WarmUps(g, ks);
            && (g.warmedOnce ==> After(g, ks).lastWarm >= g.lastWarm + Sum(n, g.interval))
            && (!g.warmedOnce && n > 0 ==>
                  After(g, ks).lastWarm >= clock + Sum(n - 1, g.interval))
            && (After(g, ks).warmedOnce <==> g.warmedOnce || n > 0)
    decreases |ks|
  {
    if ks != [] {
      SpacedStep(g, ks[0], clock);
      StepInv(g, ks[0]);
      WarmUpsAreSpaced(Step(g, ks[0]), ks[1..], ks[0].now);
    }
  }

  // ----- does a reader call `fn` with a fresh token? -----

  predicate TakesNoStep(ks: seq<Tick>, t: nat) {
    forall i :: 0 <= i < |ks| ==> ks[i].thread != t
  }

  /** While a thread waits for its slot as an admitted reader the warm-up time cannot move. */
  lemma {:induction false} AdmittedFreezesWarmUp(g: Gate, ks: seq<Tick>, t: nat)
    requires Inv(g) && Runs(g, ks) && TakesNoStep(ks, t)
    requires t < |g.threads| && g.threads[t].Admitted?
    ensures var h := After(g, ks);
            && t < |h.threads| && h.threads[t].Admitted?
            && h.warmedOnce && h.lastWarm == g.lastWarm && h.interval == g.interval
    decreases |ks|
  {
    NonEmpty(g, t, Reader);
    if ks != [] {
      var k := ks[0];
      assert k.thread != t;
      assert PhaseOk(g, g.threads[k.thread]);
      StepInv(g, k);
      forall i | 0 <= i < |ks[1..]| ensures ks[1..][i].thread != t { assert ks[1..][i] == ks[i + 1]; }
      AdmittedFreezesWarmUp(Step(g, k), ks[1..], t);
    }
  }

  /** The step `admit` lets thread `t` into the reader lane, the others run `ks`, and the step
      `start` gives it its slot. */
  ghost predicate ReaderCall(g: Gate, admit: Tick, ks: seq<Tick>, start: Tick) {
    && Inv(g) && Enabled(g, admit.thread) && start.thread == admit.thread && TakesNoStep(ks, admit.thread)
    && !g.threads[admit.thread].Admitted? && Step(g, admit).threads[admit.thread].Admitted?
    && Runs(Step(g, admit), ks) && Enabled(After(Step(g, admit), ks), admit.thread)
  }

  /** The slot does not change what the warm-up time says. */
  lemma TakeSlotKeeps(h: Gate, start: Tick)
    requires start.thread < |h.threads| && h.threads[start.thread].Admitted? && Enabled(h, start.thread)
    ensures var r := Step(h, start);
            && start.thread < |r.threads| && r.threads[start.thread] == Reading
            && r.warmedOnce == h.warmedOnce && r.lastWarm == h.lastWarm && r.interval == h.interval
  {
  }

  lemma AdmitKeeps(g: Gate, admit: Tick)
    requires Inv(g) && Enabled(g, admit.thread) && !g.threads[admit.thread].Admitted?
    requires Step(g, admit).threads[admit.thread].Admitted?
    ensures var h := Step(g, admit);
            && Inv(h) && h.warmedOnce && g.warmedOnce && h.lastWarm == g.lastWarm && h.interval == g.interval
            && (g.threads[admit.thread].Outside? ==> !Stale(g, admit.now))
  {
    StepInv(g, admit);
    NonEmpty(Step(g, admit), admit.thread, Reader);
  }

  /** A call admitted as a reader starts `fn` in a fresh window iff it gets its slot less than
      an interval after the warm-up that was the last one when it was admitted; what the
      others do meanwhile does not matter. Only the claim that needs no wait is sure to have
      been admitted in time. */
  lemma ReaderFreshness(g: Gate, admit: Tick, ks: seq<Tick>, start: Tick)
    requires ReaderCall(g, admit, ks, start)
    ensures var h := Step(After(Step(g, admit), ks), start);
            && start.thread < |h.threads| && h.threads[start.thread] == Reading
            && (!Stale(h, start.now) <==> start.now < g.lastWarm + g.interval)
    ensures g.threads[admit.thread].Outside? ==> admit.now < g.lastWarm + g.interval
  {
    AdmitKeeps(g, admit);
    AdmittedFreezesWarmUp(Step(g, admit), ks, admit.thread);
    TakeSlotKeeps(After(Step(g, admit), ks), start);
  }

  lemma RunStep(g: Gate, k: Tick, ks: seq<Tick>)
    requires Enabled(g, k.thread) && Runs(Step(g, k), ks)
    ensures Runs(g, [k] + ks) && After(g, [k] + ks) == After(Step(g, k), ks)
  {
    assert ([k] + ks)[1..] == ks;
  }

  /** When the window that a warm-up at time 0 opens is over: at once if it is not positive. */
  function WindowEnd(interval: real): real { if interval < 0.0 then 0.0 else interval }

  /** Thread 0 claims the warm-up at time 0, threads 1 and 2 arrive and are held, the warm-up
      ends. */
  function WarmUpRun(): seq<Tick> {
    [Tick(0, 0.0, false)] + ([Tick(1, 0.0, false)] + ([Tick(2, 0.0, false)] +
    ([Tick(0, 0.0, false)] + [Tick(0, 0.0, false)])))
  }

  /** Both held threads are admitted, and get their slots when the window is over. */
  function ReadersRun(end: real): seq<Tick> {
    [Tick(1, 0.0, false)] + ([Tick(2, 0.0, false)] + ([Tick(1, end, false)] + [Tick(2, end, false)]))
  }

  function OverlapRun(interval: real): seq<Tick> { WarmUpRun() + ReadersRun(WindowEnd(interval)) }

  /** The gate after `WarmUpRun`: warmed at time 0, the two others awake again. */
  function Warmed(concurrency: int, interval: real): Gate {
    Gate(concurrency, interval, concurrency, false, 0, true, 0.0, [Outside(false), Held(false), Held(false)])
  }

  lemma WarmUpRuns(concurrency: int, interval: real)
    requires concurrency >= 2
    ensures var g := Start(concurrency, interval, 3);
            Runs(g, WarmUpRun()) && After(g, WarmUpRun()) == Warmed(concurrency, interval)
  {
    var a, b, c := Tick(0, 0.0, false), Tick(1, 0.0, false), Tick(2, 0.0, false);
    var g0 := Start(concurrency, interval, 3);
    var g1 := Step(g0, a);
    var g2 := Step(g1, b);
    var g3 := Step(g2, c);
    var g4 := Step(g3, a);
    assert Step(g4, a) == Warmed(concurrency, interval);
    RunStep(g4, a, []);
    RunStep(g3, a, [a]);
    RunStep(g2, c, [a] + [a]);
    RunStep(g1, b, [c] + ([a] + [a]));
    RunStep(g0, a, [b] + ([c] + ([a] + [a])));
  }

  lemma ReadersRuns(concurrency: int, interval: real, end: real)
    requires concurrency >= 2
    ensures var g := Warmed(concurrency, interval);
            && Runs(g, ReadersRun(end))
            && After(g, ReadersRun(end)) ==
               g.(active := 2, slots := concurrency - 2, threads := [Outside(false), Reading, Reading])
  {
    var b, c, d, e := Tick(1, 0.0, false), Tick(2, 0.0, false), Tick(1, end, false), Tick(2, end, false);
    var g0 := Warmed(concurrency, interval);
    var g1 := Step(g0, b);
    var g2 := Step(g1, c);
    var g3 := Step(g2, d);
    assert Step(g3, e).threads == [Outside(false), Reading, Reading];
    RunStep(g3, e, []);
    RunStep(g2, d, [e]);
    RunStep(g1, c, [d] + [e]);
    RunStep(g0, b, [c] + ([d] + [e]));
  }

  lemma {:induction false} RunAppend(g: Gate, ks: seq<Tick>, more: seq<Tick>)
    requires Runs(g, ks) && Runs(After(g, ks), more)
    ensures Runs(g, ks + more) && After(g, ks + more) == After(After(g, ks), more)
    decreases |ks|
  {
    if ks == [] {
      assert ks + more == more;
    } else {
      RunAppend(Step(g, ks[0]), ks[1..], more);
      assert (ks + more)[1..] == ks[1..] + more;
    }
  }

  /** What that costs, under every window and any concurrency of two or more: two readers
      admitted right after the warm-up both wait for their slots until the window is over, and
      are then inside `fn` at once with a stale token, with no warm-up under way. */
  lemma StaleReadersOverlap(concurrency: int, interval: real)
    requires concurrency >= 2
    ensures var g, ks := Start(concurrency, interval, 3), OverlapRun(interval);
            && Runs(g, ks) && ClockFrom(0.0, ks) && ks[|ks| - 1].now == WindowEnd(interval)
            && |After(g, ks).threads| == 3
            && After(g, ks).threads[1] == After(g, ks).threads[2] == Reading
            && Stale(After(g, ks), WindowEnd(interval)) && !After(g, ks).warming
  {
    WarmUpRuns(concurrency, interval);
    ReadersRuns(concurrency, interval, WindowEnd(interval));
    RunAppend(Start(concurrency, interval, 3), WarmUpRun(), ReadersRun(WindowEnd(interval)));
    OverlapInOrder(interval);
  }

  predicate InOrder(ks: seq<Tick>) {
    forall i :: 0 <= i < |ks| - 1 ==> ks[i].now <= ks[i + 1].now
  }

  lemma {:induction false} InOrderClock(clock: real, ks: seq<Tick>)
    requires InOrder(ks) && (ks != [] ==> clock <= ks[0].now)
    ensures ClockFrom(clock, ks)
    decreases |ks|
  {
    if ks != [] {
      assert forall i :: 0 <= i < |ks[1..]| ==> ks[1..][i] == ks[i + 1];
      InOrderClock(ks[0].now, ks[1..]);
    }
  }

  lemma OverlapInOrder(interval: real)
    ensures ClockFrom(0.0, OverlapRun(interval))
    ensures var ks := OverlapRun(interval); |ks| == 9 && ks[8].now == WindowEnd(interval)
  {
    var ks := OverlapRun(interval);
    assert forall i :: 0 <= i < 7 ==> ks[i].now == 0.0;
    assert ks[7].now == ks[8].now == WindowEnd(interval);
    InOrderClock(0.0, ks);
  }

  // ----- the class -----

  /** The gate object. Each method is one atomic region of the source; `threads` records
      where its callers are, and `View` is the state the theorems above speak about. */
  class ConcurrencyGate {
    const concurrency: int
    const interval: real
    var slots: int
    var warming: bool
    var active: int
    var warmedOnce: bool
    var lastWarm: real
    var threads: seq<Phase>

    function View(): Gate
      reads this
    {
      Gate(concurrency, interval, slots, warming, active, warmedOnce, lastWarm, threads)
    }

    constructor (concurrency: int, interval: real, threads: nat)
      ensures View() == Start(concurrency, interval, threads)
      ensures Inv(View())
    {
      this.concurrency := if concurrency < 1 then 1 else concurrency;
      this.interval := interval;
      slots := if concurrency < 1 then 1 else concurrency;
      warming, active, warmedOnce, lastWarm := false, 0, false, 0.0;
      this.threads := seq(threads, _ => Outside(false));
      new;
      StartInv(concurrency, interval, threads);
    }

    /** `run` up to the first wait, slot request or call of `fn`. */
    method ClaimWriter(t: nat, now: real)
      requires Inv(View()) && t < |threads| && threads[t].Outside?
      modifies this
      ensures forall raised :: View() == Step(old(View()), Tick(t, now, raised))
      ensures Inv(View()) && (BeforeFn(threads[t]) || InFn(threads[t]))
    {
      OwnStep(View(), Tick(t, now, false));
      StepInv(View(), Tick(t, now, false));
      if concurrency == 1 {
        threads := threads[t := SerialQueued];
        return;
      }
      var stale := !warmedOnce || now - lastWarm >= interval;
      if stale && !warming {
        warming := true;
        threads := threads[t := if active > 0 then Draining(true) else Warming];
      } else if warming {
        threads := threads[t := Held(true)];
      } else {
        active := active + 1;
        threads := threads[t := Admitted];
      }
    }

    /** A notified thread takes the lock again and tests its wait condition again. */
    method Recheck(t: nat)
      requires Inv(View()) && t < |threads|
      requires threads[t] == Draining(false) || threads[t] == Held(false)
      modifies this
      ensures forall now, raised :: View() == Step(old(View()), Tick(t, now, raised))
      ensures Inv(View())
    {
      StepInv(View(), Tick(t, 0.0, false));
      if threads[t].Draining? {
        threads := threads[t := if active > 0 then Draining(true) else Warming];
      } else if warming {
        threads := threads[t := Held(true)];
      } else {
        active := active + 1;
        threads := threads[t := Admitted];
      }
    }

    method TakeSlot(t: nat)
      requires Inv(View()) && t < |threads| && slots > 0
      requires threads[t].Admitted? || threads[t].SerialQueued?
      modifies this
      ensures forall now, raised :: View() == Step(old(View()), Tick(t, now, raised))
      ensures Inv(View())
    {
      StepInv(View(), Tick(t, 0.0, false));
      slots := slots - 1;
      threads := threads[t := if threads[t].Admitted? then Reading else SerialRunning];
    }

    /** `fn` returns or raises; the `with` block gives the slot back either way. */
    method FinishCall(t: nat, raised: bool)
      requires Inv(View()) && t < |threads|
      requires threads[t].Warming? || Plays(threads[t], Runner)
      modifies this
      ensures forall now :: View() == Step(old(View()), Tick(t, now, raised))
      ensures Inv(View())
    {
      StepInv(View(), Tick(t, 0.0, raised));
      if threads[t].Warming? {
        threads := threads[t := WarmDone(raised)];
      } else {
        slots := slots + 1;
        threads := threads[t := if threads[t].Reading? then SlotReturned(raised) else Outside(raised)];
      }
    }

    /** The two `finally` blocks. */
    method Release(t: nat, now: real)
      requires Inv(View()) && t < |threads|
      requires threads[t].WarmDone? || threads[t].SlotReturned?
      modifies this
      ensures forall raised :: View() == Step(old(View()), Tick(t, now, raised))
      ensures Inv(View())
      ensures old(threads[t].WarmDone?) ==> warmedOnce && !warming && lastWarm == now
    {
      StepInv(View(), Tick(t, now, false));
      if threads[t].WarmDone? {
        warming, warmedOnce, lastWarm := false, true, now;
      } else {
        active := active - 1;
      }
      threads := NotifyAll(threads[t := Outside(threads[t].raised)]);
    }
  }
}
