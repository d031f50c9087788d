/** One `generate`: the retry loop inside the per-minute wait loop inside the fallback chain,
    for any behaviour of the transport, the clock and the jitter. */
module GeminiChain {
  import opened Prelude
  import opened DayRegistry

  // ----- one transport call -----

  datatype Scope = MINUTE | DAY_QUOTA

  /** What the transport returns or raises; `text` is the parsed, stripped output, and the
      quota fields are the classification of the body. */
  datatype Wire =
    | WireTimeout
    | WireOsError
    | WireOther
    | Http(status: int, scope: Scope, retryDelay: Option<real>, text: string)

  datatype Reply =
    | Text(text: string)
    | Timeout
    | Transient
    | Permanent
    | Unexpected
    | DayLimit
    | MinuteLimit(delay: Option<real>)

  function Interpret(x: Wire): Reply {
    match x
    case WireTimeout => Timeout
    case WireOsError => Transient
    case WireOther => Unexpected
    case Http(status, scope, delay, text) =>
      if status == 401 || status == 403 then Permanent
      else if status == 429 then (if scope == DAY_QUOTA then DayLimit else MinuteLimit(delay))
      else if status != 200 then Transient
      else if text == "" then Transient
      else Text(text)
  }

  // ----- what came over the wire -----

  /** An answer with text `t`. */
  predicate IsText(x: Wire, t: string) { x.Http? && x.status == 200 && x.text == t && t != "" }

  predicate IsDayRefusal(x: Wire) { x.Http? && x.status == 429 && x.scope == DAY_QUOTA }

  predicate IsMinuteRefusal(x: Wire) { x.Http? && x.status == 429 && x.scope == MINUTE }

  predicate IsDenied(x: Wire) { x.Http? && (x.status == 401 || x.status == 403) }

  /** A connection failure, any other status, or an answer without text. */
  predicate IsTransient(x: Wire) {
    x.WireOsError? ||
    (x.Http? && x.status != 429 && x.status != 401 && x.status != 403 && (x.status != 200 || x.text == ""))
  }

  /** What is worth another attempt. */
  predicate IsRetried(x: Wire) { x.WireTimeout? || IsTransient(x) }

  lemma InterpretMeaning(x: Wire)
    ensures forall t :: Interpret(x) == Text(t) <==> IsText(x, t)
    ensures Interpret(x) == DayLimit <==> IsDayRefusal(x)
    ensures Interpret(x).MinuteLimit? <==> IsMinuteRefusal(x)
    ensures Interpret(x).MinuteLimit? ==> Interpret(x).delay == x.retryDelay
    ensures Interpret(x) == Permanent <==> IsDenied(x)
    ensures Interpret(x) == Transient <==> IsTransient(x)
    ensures Interpret(x) == Timeout <==> x.WireTimeout?
    ensures Interpret(x) == Unexpected <==> x.WireOther?
    ensures Retryable(Interpret(x)) <==> IsRetried(x)
  {
  }

  datatype World = World(wire: (nat, string) -> Wire, jitter: nat -> real, clock: nat -> real)

  datatype Settings = Settings(chain: seq<string>, maxAttempts: int, baseDelay: real, maxDelay: real,
                               maxMinuteRetries: int, minuteCap: real)

  function MinuteRetries(c: Settings): nat
    ensures MinuteRetries(c) >= 1
  {
    if c.maxMinuteRetries < 1 then 1 else c.maxMinuteRetries
  }

  function Answer(w: World, call: nat, model: string): Reply { Interpret(w.wire(call, model)) }

  predicate Retryable(r: Reply) { r.Timeout? || r.Transient? }

  // ----- the loops as functions -----

  /** Transport calls made so far and the sleeps taken. */
  datatype Trace = Trace(calls: nat, naps: seq<real>)

  /** `x * 2 ** n`. */
  function Doubled(x: real, n: nat): real { if n == 0 then x else 2.0 * Doubled(x, n - 1) }

  function Smaller(a: real, b: real): real { if a < b then a else b }

  function Backoff(c: Settings, attempt: nat, jitter: real): real
    requires attempt >= 1
  {
    Smaller(Doubled(c.baseDelay, attempt - 1), c.maxDelay) + jitter
  }

  function MinuteDelay(c: Settings, delay: Option<real>): real {
    if delay.None? then c.minuteCap else Smaller(delay.value, c.minuteCap)
  }

  /** `with_retries` from attempt number `attempt` on: its last reply and the trace after it. */
  function Attempts(w: World, c: Settings, model: string, t: Trace, attempt: nat): (Reply, Trace)
    requires 1 <= attempt <= c.maxAttempts
    decreases c.maxAttempts - attempt
  {
    var r := Answer(w, t.calls, model);
    if Retryable(r) && attempt < c.maxAttempts then
      Attempts(w, c, model, Trace(t.calls + 1, t.naps + [Backoff(c, attempt, w.jitter(|t.naps|))]), attempt + 1)
    else (r, Trace(t.calls + 1, t.naps))
  }

  /** What one model's turn comes to. */
  datatype Verdict =
    | Skipped
    | Answered(text: string)
    | GaveUp
    | TimedOut
    | DayExhausted
    | Failed(permanent: bool)
    | NoAttempts

  function Judge(r: Reply): Verdict {
    match r
    case Text(t) => Answered(t)
    case Timeout => TimedOut
    case Transient => GaveUp
    case Permanent => Failed(true)
    case Unexpected => Failed(false)
    case DayLimit => DayExhausted
    case MinuteLimit(_) => GaveUp
  }

  /** The per-minute wait loop from round number `round` on. */
  function Rounds(w: World, c: Settings, model: string, t: Trace, round: nat): (Verdict, Trace)
    requires 1 <= round <= MinuteRetries(c) && c.maxAttempts >= 1
    decreases MinuteRetries(c) - round
  {
    var (r, u) := Attempts(w, c, model, t, 1);
    if r.MinuteLimit? && round < MinuteRetries(c) then
      Rounds(w, c, model, u.(naps := u.naps + [MinuteDelay(c, r.delay)]), round + 1)
    else (Judge(r), u)
  }

  function Turn(w: World, c: Settings, model: string, t: Trace): (Verdict, Trace) {
    if c.maxAttempts < 1 then (NoAttempts, t) else Rounds(w, c, model, t, 1)
  }

  datatype Progress = Progress(trace: Trace, clockReads: nat, table: Table)

  predicate Continues(v: Verdict) { v.Skipped? || v.DayExhausted? || v.GaveUp? }

  /** One step of the chain loop. */
  function Visit(w: World, c: Settings, p: Progress, model: string): (Verdict, Progress) {
    var (table, exhausted) := Asked(p.table, model, w.clock(p.clockReads));
    var q := p.(clockReads := p.clockReads + 1, table := table);
    if exhausted then (Skipped, q)
    else
      var (v, next) := Turn(w, c, model, q.trace);
      if v.DayExhausted? then
        (v, Progress(next, q.clockReads + 1, Marked(table, model, w.clock(q.clockReads))))
      else (v, q.(trace := next))
  }

  /** The verdicts in chain order, up to and including the first that ends the walk. */
  function Walk(w: World, c: Settings, p: Progress, models: seq<string>): (seq<Verdict>, Progress)
    decreases |models|
  {
    if models == [] then ([], p)
    else
      var (v, q) := Visit(w, c, p, models[0]);
      if Continues(v) then
        var (vs, end) := Walk(w, c, q, models[1..]);
        ([v] + vs, end)
      else ([v], q)
  }

  datatype Outcome =
    | Returned(text: string)
    | RaisedTransient
    | RaisedTimeout
    | RaisedFailure(permanent: bool)
    | RaisedNoAttempts
    | AllModelsExhausted

  predicate AnyGaveUp(vs: seq<Verdict>) {
    exists i :: 0 <= i < |vs| && vs[i].GaveUp?
  }

  function Conclude(vs: seq<Verdict>): Outcome {
    if vs != [] && !Continues(vs[|vs| - 1]) then
      match vs[|vs| - 1]
      case Answered(t) => Returned(t)
      case TimedOut => RaisedTimeout
      case Failed(permanent) => RaisedFailure(permanent)
      case _ => RaisedNoAttempts
    else if AnyGaveUp(vs) then RaisedTransient
    else AllModelsExhausted
  }

  // ----- what the loops mean -----

  /** The retry loop: everything but the last reply was retryable, and a retryable last reply
      means the attempts ran out. */
  lemma {:induction false} AttemptsMeaning(w: World, c: Settings, model: string, t: Trace, attempt: nat)
    requires 1 <= attempt <= c.maxAttempts
    ensures var (r, u) := Attempts(w, c, model, t, attempt);
            && t.calls < u.calls <= t.calls + (c.maxAttempts - attempt + 1)
            && r == Answer(w, u.calls - 1, model)
            && (forall k :: t.calls <= k < u.calls - 1 ==> IsRetried(w.wire(k, model)))
            && (IsRetried(w.wire(u.calls - 1, model)) ==> u.calls == t.calls + (c.maxAttempts - attempt + 1))
    decreases c.maxAttempts - attempt
  {
    InterpretMeaning(w.wire(t.calls, model));
    if Retryable(Answer(w, t.calls, model)) && attempt < c.maxAttempts {
      AttemptsMeaning(w, c, model, Trace(t.calls + 1, t.naps + [Backoff(c, attempt, w.jitter(|t.naps|))]), attempt + 1);
    }
  }

  lemma OneMore(n: nat, x: nat)
    ensures (n + 1) * x == n * x + x
  {
  }

  /** The wait loop: its verdict is the last reply's, and a day verdict is a per-day 429
      received in this very turn. */
  lemma {:induction false} RoundsMeaning(w: World, c: Settings, model: string, t: Trace, round: nat)
    requires 1 <= round <= MinuteRetries(c) && c.maxAttempts >= 1
    ensures var (v, u) := Rounds(w, c, model, t, round);
            && t.calls < u.calls
            && v == Judge(Answer(w, u.calls - 1, model))
            && (forall k :: t.calls <= k < u.calls - 1 ==>
                  IsRetried(w.wire(k, model)) || IsMinuteRefusal(w.wire(k, model)))
    decreases MinuteRetries(c) - round
  {
    AttemptsMeaning(w, c, model, t, 1);
    var (r, u) := Attempts(w, c, model, t, 1);
    InterpretMeaning(w.wire(u.calls - 1, model));
    if r.MinuteLimit? && round < MinuteRetries(c) {
      RoundsMeaning(w, c, model, u.(naps := u.naps + [MinuteDelay(c, r.delay)]), round + 1);
    }
  }

  /** Per-minute refusals among the calls from number `lo` up to `hi`. */
  function Refusals(w: World, model: string, lo: nat, hi: nat): nat
    requires lo <= hi
    decreases hi - lo
  {
    if lo == hi then 0 else (if IsMinuteRefusal(w.wire(lo, model)) then 1 else 0) + Refusals(w, model, lo + 1, hi)
  }

  lemma {:induction false} RefusalsSplit(w: World, model: string, lo: nat, mid: nat, hi: nat)
    requires lo <= mid <= hi
    ensures Refusals(w, model, lo, hi) == Refusals(w, model, lo, mid) + Refusals(w, model, mid, hi)
    decreases mid - lo
  {
    if lo < mid { RefusalsSplit(w, model, lo + 1, mid, hi); }
  }

  lemma {:induction false} NoRefusals(w: World, model: string, lo: nat, hi: nat)
    requires lo <= hi && forall k :: lo <= k < hi ==> IsRetried(w.wire(k, model))
    ensures Refusals(w, model, lo, hi) == 0
    decreases hi - lo
  {
    if lo < hi {
      assert IsRetried(w.wire(lo, model));
      NoRefusals(w, model, lo + 1, hi);
    }
  }

  lemma AttemptsRefusals(w: World, c: Settings, model: string, t: Trace)
    requires c.maxAttempts >= 1
    ensures var (r, u) := Attempts(w, c, model, t, 1);
            t.calls < u.calls && Refusals(w, model, t.calls, u.calls) == if r.MinuteLimit? then 1 else 0
  {
    AttemptsMeaning(w, c, model, t, 1);
    var last := Attempts(w, c, model, t, 1).1.calls - 1;
    InterpretMeaning(w.wire(last, model));
    NoRefusals(w, model, t.calls, last);
    RefusalsSplit(w, model, t.calls, last, last + 1);
    assert Refusals(w, model, last + 1, last + 1) == 0;
  }

  /** A turn that ends in a per-minute refusal has met one in every round it was allowed. */
  lemma {:induction false} MinuteRoundsRunOut(w: World, c: Settings, model: string, t: Trace, round: nat)
    requires 1 <= round <= MinuteRetries(c) && c.maxAttempts >= 1
    ensures var u := Rounds(w, c, model, t, round).1;
            && t.calls < u.calls
            && Refusals(w, model, t.calls, u.calls) <= MinuteRetries(c) - round + 1
            && (IsMinuteRefusal(w.wire(u.calls - 1, model)) ==>
                  Refusals(w, model, t.calls, u.calls) == MinuteRetries(c) - round + 1)
    decreases MinuteRetries(c) - round
  {
    AttemptsMeaning(w, c, model, t, 1);
    AttemptsRefusals(w, c, model, t);
    var (r, u) := Attempts(w, c, model, t, 1);
    InterpretMeaning(w.wire(u.calls - 1, model));
    if r.MinuteLimit? && round < MinuteRetries(c) {
      var next := u.(naps := u.naps + [MinuteDelay(c, r.delay)]);
      MinuteRoundsRunOut(w, c, model, next, round + 1);
      RefusalsSplit(w, model, t.calls, u.calls, Rounds(w, c, model, next, round + 1).1.calls);
    }
  }

  lemma {:induction false} RoundsCalls(w: World, c: Settings, model: string, t: Trace, round: nat, left: nat)
    requires 1 <= round && round + left == MinuteRetries(c) && c.maxAttempts >= 1
    ensures t.calls < Rounds(w, c, model, t, round).1.calls <= t.calls + left * c.maxAttempts + c.maxAttempts
    decreases left
  {
    AttemptsMeaning(w, c, model, t, 1);
    var (r, u) := Attempts(w, c, model, t, 1);
    if left > 0 {
      OneMore(left - 1, c.maxAttempts);
      if r.MinuteLimit? {
        RoundsCalls(w, c, model, u.(naps := u.naps + [MinuteDelay(c, r.delay)]), round + 1, left - 1);
      }
    }
  }

  function CallsPerModel(c: Settings): nat {
    if c.maxAttempts < 1 then 0 else MinuteRetries(c) * c.maxAttempts
  }

  /** Chain length x minute retries x attempts bounds the transport calls. */
  lemma {:induction false} WalkBound(w: World, c: Settings, p: Progress, models: seq<string>)
    ensures var (vs, end) := Walk(w, c, p, models);
            p.trace.calls <= end.trace.calls <= p.trace.calls + |models| * CallsPerModel(c)
    decreases |models|
  {
    if models != [] {
      var (v, q) := Visit(w, c, p, models[0]);
      if c.maxAttempts >= 1 {
        RoundsCalls(w, c, models[0], p.trace, 1, MinuteRetries(c) - 1);
        OneMore(MinuteRetries(c) - 1, c.maxAttempts);
      }
      OneMore(|models| - 1, CallsPerModel(c));
      if Continues(v) { WalkBound(w, c, q, models[1..]); }
    }
  }

  lemma CallBound(w: World, c: Settings, p: Progress)
    ensures var made := Walk(w, c, p, c.chain).1.trace.calls - p.trace.calls;
            0 <= made <= |c.chain| * (MinuteRetries(c) * (if c.maxAttempts < 0 then 0 else c.maxAttempts))
  {
    WalkBound(w, c, p, c.chain);
  }

  // ----- exactly when and how long it sleeps -----

  function TwoToThe(n: nat): int { if n == 0 then 1 else 2 * TwoToThe(n - 1) }

  lemma {:induction false} DoubledIsProduct(x: real, n: nat)
    ensures Doubled(x, n) == x * TwoToThe(n) as real
  {
    if n > 0 { DoubledIsProduct(x, n - 1); }
  }

  /** The delay before attempt `attempt` + 1: base_delay x 2 ** (attempt - 1), capped, and jitter. */
  lemma BackoffMeaning(c: Settings, attempt: nat, jitter: real)
    requires attempt >= 1
    ensures var full := c.baseDelay * TwoToThe(attempt - 1) as real;
            Backoff(c, attempt, jitter) == jitter + if full < c.maxDelay then full else c.maxDelay
  {
    DoubledIsProduct(c.baseDelay, attempt - 1);
  }

  /** How many calls since number `lo`, and since the last per-minute refusal, were made in a
      row directly before call `call`. */
  function Streak(w: World, model: string, lo: nat, call: nat): nat
    requires lo <= call
    decreases call
  {
    if call == lo || IsMinuteRefusal(w.wire(call - 1, model)) then 0 else 1 + Streak(w, model, lo, call - 1)
  }

  /** The sleep after call `call` that is not the turn's last: the hinted wait after a per-minute
      refusal, capped, or the cap without a hint; else the backoff for its place in the streak. */
  function NapAfter(w: World, c: Settings, model: string, lo: nat, call: nat, n: nat): real
    requires lo <= call
  {
    var x := w.wire(call, model);
    if IsMinuteRefusal(x) then
      if x.retryDelay.Some? && x.retryDelay.value < c.minuteCap then x.retryDelay.value else c.minuteCap
    else Backoff(c, Streak(w, model, lo, call) + 1, w.jitter(n))
  }

  /** The naps from number `first` on are those after calls `lo`, `lo + 1` and so on. */
  ghost predicate NapsExact(w: World, c: Settings, model: string, lo: nat, first: nat, naps: seq<real>) {
    first <= |naps| &&
    forall n :: first <= n < |naps| ==> naps[n] == NapAfter(w, c, model, lo, lo + (n - first), n)
  }

  /** A retryable reply ends a turn only as the last of all the attempts in a row. */
  predicate RanOut(w: World, c: Settings, model: string, lo: nat, last: nat)
    requires lo <= last
  {
    IsRetried(w.wire(last, model)) ==> Streak(w, model, lo, last) == c.maxAttempts - 1
  }

  lemma {:induction false} AttemptsNaps(w: World, c: Settings, model: string, t: Trace, attempt: nat,
                                        lo: nat, first: nat)
    requires 1 <= attempt <= c.maxAttempts && lo <= t.calls && |t.naps| == first + (t.calls - lo)
    requires NapsExact(w, c, model, lo, first, t.naps) && Streak(w, model, lo, t.calls) == attempt - 1
    ensures var u := Attempts(w, c, model, t, attempt).1;
            t.calls < u.calls && |u.naps| == first + (u.calls - lo) - 1 && NapsExact(w, c, model, lo, first, u.naps)
    ensures t.naps <= Attempts(w, c, model, t, attempt).1.naps
    ensures RanOut(w, c, model, lo, Attempts(w, c, model, t, attempt).1.calls - 1)
    decreases c.maxAttempts - attempt
  {
    InterpretMeaning(w.wire(t.calls, model));
    if Retryable(Answer(w, t.calls, model)) && attempt < c.maxAttempts {
      var u := Trace(t.calls + 1, t.naps + [Backoff(c, attempt, w.jitter(|t.naps|))]);
      AttemptsNaps(w, c, model, u, attempt + 1, lo, first);
    }
  }

  lemma {:induction false} RoundsNaps(w: World, c: Settings, model: string, t: Trace, round: nat, lo: nat, first: nat)
    requires 1 <= round <= MinuteRetries(c) && c.maxAttempts >= 1
    requires lo <= t.calls && |t.naps| == first + (t.calls - lo)
    requires NapsExact(w, c, model, lo, first, t.naps) && Streak(w, model, lo, t.calls) == 0
    ensures var u := Rounds(w, c, model, t, round).1;
            t.calls < u.calls && |u.naps| == first + (u.calls - lo) - 1 && NapsExact(w, c, model, lo, first, u.naps)
    ensures t.naps <= Rounds(w, c, model, t, round).1.naps
    ensures RanOut(w, c, model, lo, Rounds(w, c, model, t, round).1.calls - 1)
    decreases MinuteRetries(c) - round
  {
    AttemptsNaps(w, c, model, t, 1, lo, first);
    AttemptsMeaning(w, c, model, t, 1);
    var (r, u) := Attempts(w, c, model, t, 1);
    if r.MinuteLimit? && round < MinuteRetries(c) {
      InterpretMeaning(w.wire(u.calls - 1, model));
      RoundsNaps(w, c, model, u.(naps := u.naps + [MinuteDelay(c, r.delay)]), round + 1, lo, first);
    }
  }

  /** A turn sleeps once between any two of its calls and at no other time, each time exactly
      as long as the call before asks for; a retryable last reply means the attempts ran out. */
  lemma TurnNaps(w: World, c: Settings, model: string, t: Trace)
    requires c.maxAttempts >= 1
    ensures var u := Turn(w, c, model, t).1;
            && t.naps <= u.naps && |u.naps| - |t.naps| == u.calls - t.calls - 1
            && NapsExact(w, c, model, t.calls, |t.naps|, u.naps) && t.calls < u.calls
            && RanOut(w, c, model, t.calls, u.calls - 1)
  {
    RoundsNaps(w, c, model, t, 1, t.calls, |t.naps|);
  }

  // ----- how long it sleeps in all -----

  function Total(naps: seq<real>): real {
    if naps == [] then 0.0 else Total(naps[..|naps| - 1]) + naps[|naps| - 1]
  }

  lemma TotalSnoc(naps: seq<real>, x: real)
    ensures Total(naps + [x]) == Total(naps) + x
  {
    assert (naps + [x])[..|naps|] == naps;
  }

  lemma {:induction false} SumSign(n: nat, x: real)
    requires x >= 0.0
    ensures Sum(n, x) >= 0.0
  {
    if n > 0 { SumSign(n - 1, x); }
  }

  /** Delays are not negative and jitter is what `uniform(0, base_delay)` can return. */
  ghost predicate Sane(w: World, c: Settings) {
    c.maxDelay >= 0.0 && c.minuteCap >= 0.0 && forall n: nat :: 0.0 <= w.jitter(n) <= c.baseDelay
  }

  function Pause(c: Settings): real { c.maxDelay + c.baseDelay }

  lemma {:induction false} AttemptsSleep(w: World, c: Settings, model: string, t: Trace, attempt: nat)
    requires 1 <= attempt <= c.maxAttempts && Sane(w, c)
    ensures Total(Attempts(w, c, model, t, attempt).1.naps) <= Total(t.naps) + Sum(c.maxAttempts - attempt, Pause(c))
    decreases c.maxAttempts - attempt
  {
    if Retryable(Answer(w, t.calls, model)) && attempt < c.maxAttempts {
      var nap := Backoff(c, attempt, w.jitter(|t.naps|));
      var u := Trace(t.calls + 1, t.naps + [nap]);
      NapBound(w, c, attempt, |t.naps|);
      TotalSnoc(t.naps, nap);
      AttemptsSleep(w, c, model, u, attempt + 1);
      assert Attempts(w, c, model, t, attempt) == Attempts(w, c, model, u, attempt + 1);
      assert Sum(c.maxAttempts - attempt, Pause(c)) == Pause(c) + Sum(c.maxAttempts - (attempt + 1), Pause(c));
    } else {
      PauseSign(w, c);
      SumSign(c.maxAttempts - attempt, Pause(c));
    }
  }

  lemma PauseSign(w: World, c: Settings)
    requires Sane(w, c)
    ensures Pause(c) >= 0.0
  {
    assert 0.0 <= w.jitter(0) <= c.baseDelay;
  }

  lemma NapBound(w: World, c: Settings, attempt: nat, n: nat)
    requires Sane(w, c) && attempt >= 1
    ensures Backoff(c, attempt, w.jitter(n)) <= Pause(c)
  {
    assert 0.0 <= w.jitter(n) <= c.baseDelay;
  }

  function RoundSleep(c: Settings): real
    requires c.maxAttempts >= 1
  {
    Sum(c.maxAttempts - 1, Pause(c))
  }

  lemma RoundSleepSign(w: World, c: Settings)
    requires Sane(w, c) && c.maxAttempts >= 1
    ensures RoundSleep(c) >= 0.0
  {
    PauseSign(w, c);
    SumSign(c.maxAttempts - 1, Pause(c));
  }

  lemma RoundSleeps(w: World, c: Settings, model: string, t: Trace, one: real)
    requires c.maxAttempts >= 1 && Sane(w, c) && one == RoundSleep(c)
    ensures Total(Attempts(w, c, model, t, 1).1.naps) <= Total(t.naps) + one
  {
    AttemptsSleep(w, c, model, t, 1);
  }

  lemma SumStep(n: nat, x: real)
    requires n > 0
    ensures Sum(n, x) == x + Sum(n - 1, x)
  {
  }

  /** What the waits of a turn add: `one` is a round's longest sleep, `left` the rounds left. */
  lemma {:induction false} RoundsSleep(w: World, c: Settings, model: string, t: Trace, round: nat, left: nat, one: real)
    requires 1 <= round && round + left == MinuteRetries(c) && c.maxAttempts >= 1 && Sane(w, c)
    requires one == RoundSleep(c) && one >= 0.0
    ensures Total(Rounds(w, c, model, t, round).1.naps) <= Total(t.naps) + one + Sum(left, c.minuteCap + one)
    decreases left
  {
    var (r, u) := Attempts(w, c, model, t, 1);
    RoundSleeps(w, c, model, t, one);
    if r.MinuteLimit? && left > 0 {
      var nap := MinuteDelay(c, r.delay);
      assert nap <= c.minuteCap;
      TotalSnoc(u.naps, nap);
      RoundsSleep(w, c, model, u.(naps := u.naps + [nap]), round + 1, left - 1, one);
      SumStep(left, c.minuteCap + one);
    } else {
      SumSign(left, c.minuteCap + one);
    }
  }

  function SleepPerModel(c: Settings): real {
    if c.maxAttempts < 1 then 0.0
    else RoundSleep(c) + Sum(MinuteRetries(c) - 1, c.minuteCap + RoundSleep(c))
  }

  lemma VisitSleep(w: World, c: Settings, p: Progress, model: string, longest: real)
    requires Sane(w, c) && longest == SleepPerModel(c)
    ensures longest >= 0.0
    ensures Total(Visit(w, c, p, model).1.trace.naps) <= Total(p.trace.naps) + longest
  {
    if c.maxAttempts >= 1 {
      var one := RoundSleep(c);
      RoundSleepSign(w, c);
      SumSign(MinuteRetries(c) - 1, c.minuteCap + one);
      RoundsSleep(w, c, model, p.trace, 1, MinuteRetries(c) - 1, one);
    }
  }

  lemma {:induction false} WalkSleepSum(w: World, c: Settings, p: Progress, models: seq<string>, longest: real)
    requires Sane(w, c) && longest == SleepPerModel(c)
    ensures Total(Walk(w, c, p, models).1.trace.naps) <= Total(p.trace.naps) + Sum(|models|, longest)
    decreases |models|
  {
    if models != [] {
      var (v, q) := Visit(w, c, p, models[0]);
      VisitSleep(w, c, p, models[0], longest);
      SumSign(|models| - 1, longest);
      SumStep(|models|, longest);
      if Continues(v) { WalkSleepSum(w, c, q, models[1..], longest); }
    }
  }

  /** One model's longest sleep: a backoff of at most max_delay + base_delay after each attempt
      but a round's last, and a capped wait after each round but the last. */
  function LongestSleep(c: Settings): real {
    if c.maxAttempts < 1 then 0.0
    else
      var backoffs := (c.maxAttempts - 1) as real * (c.maxDelay + c.baseDelay);
      backoffs + (MinuteRetries(c) - 1) as real * (c.minuteCap + backoffs)
  }

  lemma SleepPerModelIsProduct(c: Settings)
    ensures SleepPerModel(c) == LongestSleep(c)
  {
    if c.maxAttempts >= 1 {
      SumIsProduct(c.maxAttempts - 1, Pause(c));
      SumIsProduct(MinuteRetries(c) - 1, c.minuteCap + RoundSleep(c));
    }
  }

  /** Chain length x one model's longest sleep bounds the total sleep. */
  lemma WalkSleep(w: World, c: Settings, p: Progress)
    requires Sane(w, c)
    ensures Total(Walk(w, c, p, c.chain).1.trace.naps) - Total(p.trace.naps) <= |c.chain| as real * LongestSleep(c)
  {
    SleepPerModelIsProduct(c);
    SleepBelow(w, c, p, LongestSleep(c));
  }

  lemma SleepBelow(w: World, c: Settings, p: Progress, longest: real)
    requires Sane(w, c) && longest == SleepPerModel(c)
    ensures Total(Walk(w, c, p, c.chain).1.trace.naps) - Total(p.trace.naps) <= |c.chain| as real * longest
  {
    var slept := Total(Walk(w, c, p, c.chain).1.trace.naps) - Total(p.trace.naps);
    assert slept <= Sum(|c.chain|, longest) by { WalkSleepSum(w, c, p, c.chain, longest); }
    AtMostProduct(slept, |c.chain|, longest);
  }

  lemma AtMostProduct(total: real, n: nat, x: real)
    requires total <= Sum(n, x)
    ensures total <= n as real * x
  {
    SumIsProduct(n, x);
  }

  lemma {:induction false} WalkShape(w: World, c: Settings, p: Progress, models: seq<string>)
    ensures var vs := Walk(w, c, p, models).0;
            && |vs| <= |models|
            && (forall i :: 0 <= i < |vs| - 1 ==> Continues(vs[i]))
            && (vs == [] || Continues(vs[|vs| - 1]) ==> |vs| == |models|)
    decreases |models|
  {
    if models != [] {
      var (v, q) := Visit(w, c, p, models[0]);
      if Continues(v) { WalkShape(w, c, q, models[1..]); }
    }
  }

  /** How a walk that passes every model over ends, read off the verdicts. */
  lemma OutcomeByVerdicts(w: World, c: Settings, p: Progress)
    ensures var vs := Walk(w, c, p, c.chain).0;
            var out := Conclude(vs);
            && (out.AllModelsExhausted? <==>
                  |vs| == |c.chain| && forall i :: 0 <= i < |vs| ==> vs[i].Skipped? || vs[i].DayExhausted?)
            && (out.RaisedTransient? <==>
                  |vs| == |c.chain| && (forall i :: 0 <= i < |vs| ==> Continues(vs[i])) &&
                  exists i :: 0 <= i < |vs| && vs[i].GaveUp?)
  {
    WalkShape(w, c, p, c.chain);
  }

  // ----- the outcome in terms of the chain's models and the wire -----

  /** The progress before visit `i`, were every model up to it visited in chain order. */
  function Before(w: World, c: Settings, p: Progress, models: seq<string>, i: nat): Progress
    requires i <= |models|
    decreases i
  {
    if i == 0 then p else Visit(w, c, Before(w, c, p, models, i - 1), models[i - 1]).1
  }

  lemma {:induction false} BeforeTail(w: World, c: Settings, p: Progress, models: seq<string>, i: nat)
    requires i < |models|
    ensures Before(w, c, p, models, i + 1) == Before(w, c, Visit(w, c, p, models[0]).1, models[1..], i)
    decreases i
  {
    if i > 0 { BeforeTail(w, c, p, models, i - 1); }
  }

  /** Verdict `i` of a walk is what visiting model `i` of the chain comes to, at its turn. */
  lemma {:induction false} WalkVisits(w: World, c: Settings, p: Progress, models: seq<string>, i: nat)
    requires i < |Walk(w, c, p, models).0|
    ensures i < |models| && Walk(w, c, p, models).0[i] == Visit(w, c, Before(w, c, p, models, i), models[i]).0
    decreases |models|
  {
    if i > 0 {
      WalkVisits(w, c, Visit(w, c, p, models[0]).1, models[1..], i - 1);
      BeforeTail(w, c, p, models, i - 1);
    }
  }

  /** Is model `i`'s day used up when its turn comes? */
  predicate OutToday(w: World, c: Settings, p: Progress, i: nat)
    requires i < |c.chain|
  {
    var q := Before(w, c, p, c.chain, i);
    Asked(q.table, c.chain[i], w.clock(q.clockReads)).1
  }

  /** What came back last in model `i`'s own turn, if the transport was called at all. */
  function LastWire(w: World, c: Settings, p: Progress, i: nat): Option<Wire>
    requires i < |c.chain|
  {
    var from, to := Before(w, c, p, c.chain, i).trace.calls, Before(w, c, p, c.chain, i + 1).trace.calls;
    if from < to then Some(w.wire(to - 1, c.chain[i])) else None
  }

  function LastReply(w: World, c: Settings, p: Progress, i: nat): Option<Reply>
    requires i < |c.chain|
  {
    match LastWire(w, c, p, i) case None => None case Some(x) => Some(Interpret(x))
  }

  predicate DayRefused(w: World, c: Settings, p: Progress, i: nat)
    requires i < |c.chain|
  {
    LastWire(w, c, p, i).Some? && IsDayRefusal(LastWire(w, c, p, i).value)
  }

  /** What a visit's verdict says about the registry and about replies of that very visit. */
  lemma VisitMeaning(w: World, c: Settings, p: Progress, model: string)
    ensures var (v, q) := Visit(w, c, p, model);
            && (v.Skipped? <==> Asked(p.table, model, w.clock(p.clockReads)).1)
            && (v.Skipped? || v.NoAttempts? <==> q.trace.calls == p.trace.calls)
            && (v.NoAttempts? <==> !v.Skipped? && c.maxAttempts < 1)
            && q.trace.calls >= p.trace.calls
            && (q.trace.calls > p.trace.calls ==> v == Judge(Answer(w, q.trace.calls - 1, model)))
  {
    if c.maxAttempts >= 1 { RoundsMeaning(w, c, model, p.trace, 1); }
  }

  /** Model `i` is passed over: its day is used up, or its turn ended in a per-day refusal, a
      transient error or a per-minute refusal. */
  predicate PassedOver(w: World, c: Settings, p: Progress, i: nat)
    requires i < |c.chain|
  {
    OutToday(w, c, p, i) || DayRefused(w, c, p, i) || Gave(w, c, p, i)
  }

  predicate Gave(w: World, c: Settings, p: Progress, i: nat)
    requires i < |c.chain|
  {
    LastWire(w, c, p, i).Some? &&
    (IsTransient(LastWire(w, c, p, i).value) || IsMinuteRefusal(LastWire(w, c, p, i).value))
  }

  /** A reply that is not retried, waited out or passed over. */
  predicate Ends(r: Reply) { r.Text? || r.Timeout? || r.Permanent? || r.Unexpected? }

  /** Model `i` is reached, and its turn ends with reply `r`. */
  ghost predicate FirstToEnd(w: World, c: Settings, p: Progress, i: nat, r: Reply) {
    && i < |c.chain| && LastReply(w, c, p, i) == Some(r)
    && forall j :: 0 <= j < i ==> PassedOver(w, c, p, j)
  }

  /** How a verdict follows from a skip and from the last reply of the turn. */
  ghost predicate Follows(v: Verdict, out: bool, reply: Option<Reply>) {
    && (v.Skipped? <==> out)
    && (v.Skipped? || v.NoAttempts? <==> reply.None?)
    && (reply.Some? ==> v == Judge(reply.value))
  }

  lemma VerdictFollows(w: World, c: Settings, p: Progress, i: nat)
    requires i < |Walk(w, c, p, c.chain).0|
    ensures i < |c.chain| && Follows(Walk(w, c, p, c.chain).0[i], OutToday(w, c, p, i), LastReply(w, c, p, i))
  {
    WalkVisits(w, c, p, c.chain, i);
    VisitMeaning(w, c, Before(w, c, p, c.chain, i), c.chain[i]);
  }

  lemma ReadBack(v: Verdict, out: bool, reply: Option<Reply>)
    requires Follows(v, out, reply)
    ensures v.DayExhausted? <==> reply == Some(DayLimit)
    ensures v.GaveUp? <==> reply.Some? && (reply.value.Transient? || reply.value.MinuteLimit?)
    ensures forall r: Reply :: Ends(r) ==> (v == Judge(r) <==> reply == Some(r))
    ensures v.NoAttempts? <==> !out && reply.None?
  {
  }

  lemma VerdictMeaning(w: World, c: Settings, p: Progress, i: nat)
    requires i < |Walk(w, c, p, c.chain).0|
    ensures i < |c.chain|
    ensures var v := Walk(w, c, p, c.chain).0[i];
            && (v.Skipped? <==> OutToday(w, c, p, i))
            && (v.DayExhausted? <==> DayRefused(w, c, p, i))
            && (v.GaveUp? <==> Gave(w, c, p, i))
            && (Continues(v) <==> PassedOver(w, c, p, i))
            && (forall r: Reply :: Ends(r) ==> (v == Judge(r) <==> LastReply(w, c, p, i) == Some(r)))
            && (v.NoAttempts? <==> !OutToday(w, c, p, i) && LastReply(w, c, p, i).None?)
  {
    VerdictFollows(w, c, p, i);
    ReadBack(Walk(w, c, p, c.chain).0[i], OutToday(w, c, p, i), LastReply(w, c, p, i));
    if LastWire(w, c, p, i).Some? { InterpretMeaning(LastWire(w, c, p, i).value); }
  }

  /** The walk stops at the first model that is not passed over, and nowhere else. */
  lemma WalkLength(w: World, c: Settings, p: Progress)
    ensures var n := |Walk(w, c, p, c.chain).0|;
            && n <= |c.chain|
            && (forall i :: 0 <= i < n - 1 ==> PassedOver(w, c, p, i))
            && (n < |c.chain| ==> n > 0 && !PassedOver(w, c, p, n - 1))
  {
    WalkShape(w, c, p, c.chain);
    forall i | 0 <= i < |Walk(w, c, p, c.chain).0|
      ensures Continues(Walk(w, c, p, c.chain).0[i]) <==> PassedOver(w, c, p, i)
    {
      VerdictMeaning(w, c, p, i);
    }
  }

  function OutcomeOf(w: World, c: Settings, p: Progress): Outcome {
    Conclude(Walk(w, c, p, c.chain).0)
  }

  /** `AllModelsExhausted` iff every model of the chain was out for the day at its turn or was
      refused for the day in it; a transient error iff all were passed over and one gave way. */
  lemma AllPassedOver(w: World, c: Settings, p: Progress)
    ensures OutcomeOf(w, c, p).AllModelsExhausted? <==>
              forall i :: 0 <= i < |c.chain| ==> OutToday(w, c, p, i) || DayRefused(w, c, p, i)
    ensures OutcomeOf(w, c, p).RaisedTransient? <==>
              (forall i :: 0 <= i < |c.chain| ==> PassedOver(w, c, p, i)) &&
              exists i :: 0 <= i < |c.chain| && Gave(w, c, p, i)
  {
    var vs := Walk(w, c, p, c.chain).0;
    WalkLength(w, c, p);
    forall i | 0 <= i < |vs|
      ensures (vs[i].GaveUp? <==> Gave(w, c, p, i)) && (Continues(vs[i]) <==> PassedOver(w, c, p, i))
      ensures vs[i].GaveUp? ==> !OutToday(w, c, p, i) && !DayRefused(w, c, p, i)
    {
      VerdictMeaning(w, c, p, i);
    }
    OutcomeByVerdicts(w, c, p);
  }

  /** Every model before `i` is passed over, and model `i` is asked. */
  ghost predicate Reached(w: World, c: Settings, p: Progress, i: nat) {
    && i < |c.chain| && LastWire(w, c, p, i).Some?
    && forall j :: 0 <= j < i ==> PassedOver(w, c, p, j)
  }

  /** The first model that is not passed over decides: its text is returned, its timeout,
      denial or unexpected error is raised. A timeout ends the walk like a success does. */
  lemma ChainOutcome(w: World, c: Settings, p: Progress)
    ensures forall t :: OutcomeOf(w, c, p) == Returned(t) <==>
              exists i :: Reached(w, c, p, i) && IsText(LastWire(w, c, p, i).value, t)
    ensures OutcomeOf(w, c, p) == RaisedTimeout <==>
              exists i :: Reached(w, c, p, i) && LastWire(w, c, p, i).value.WireTimeout?
    ensures OutcomeOf(w, c, p) == RaisedFailure(true) <==>
              exists i :: Reached(w, c, p, i) && IsDenied(LastWire(w, c, p, i).value)
    ensures OutcomeOf(w, c, p) == RaisedFailure(false) <==>
              exists i :: Reached(w, c, p, i) && LastWire(w, c, p, i).value.WireOther?
  {
    forall i | Reached(w, c, p, i)
      ensures var x := LastWire(w, c, p, i).value;
              && (forall t :: FirstToEnd(w, c, p, i, Text(t)) <==> IsText(x, t))
              && (FirstToEnd(w, c, p, i, Timeout) <==> x.WireTimeout?)
              && (FirstToEnd(w, c, p, i, Permanent) <==> IsDenied(x))
              && (FirstToEnd(w, c, p, i, Unexpected) <==> x.WireOther?)
    {
      InterpretMeaning(LastWire(w, c, p, i).value);
    }
    forall t ensures OutcomeOf(w, c, p) == Returned(t) <==> exists i :: FirstToEnd(w, c, p, i, Text(t)) {
      EndsWith(w, c, p, Text(t));
    }
    EndsWith(w, c, p, Timeout);
    EndsWith(w, c, p, Permanent);
    EndsWith(w, c, p, Unexpected);
  }

  /** With no attempts allowed nothing is ever sent: the first model not out for the day raises. */
  lemma NoAttemptsAllowed(w: World, c: Settings, p: Progress)
    ensures OutcomeOf(w, c, p).RaisedNoAttempts? <==>
              c.maxAttempts < 1 && exists i :: 0 <= i < |c.chain| && !OutToday(w, c, p, i)
  {
    var vs := Walk(w, c, p, c.chain).0;
    var n := |vs|;
    WalkLength(w, c, p);
    forall i | 0 <= i < |c.chain| ensures LastReply(w, c, p, i).None? <==> OutToday(w, c, p, i) || c.maxAttempts < 1 {
      VisitMeaning(w, c, Before(w, c, p, c.chain, i), c.chain[i]);
    }
    if n > 0 { VerdictMeaning(w, c, p, n - 1); }
    if c.maxAttempts < 1 {
      if i :| 0 <= i < |c.chain| && !OutToday(w, c, p, i) {
        assert !PassedOver(w, c, p, i);
        assert n > 0 && vs[n - 1].NoAttempts?;
      }
    }
  }

  /** What the chain makes of a reply that ends it. */
  function Ending(r: Reply): Outcome
    requires Ends(r)
  {
    match r
    case Text(t) => Returned(t)
    case Timeout => RaisedTimeout
    case Permanent => RaisedFailure(true)
    case Unexpected => RaisedFailure(false)
  }

  lemma EndsWith(w: World, c: Settings, p: Progress, r: Reply)
    requires Ends(r)
    ensures OutcomeOf(w, c, p) == Ending(r) <==> exists i :: FirstToEnd(w, c, p, i, r)
  {
    LastVerdict(w, c, p, r);
    if i :| FirstToEnd(w, c, p, i, r) {
      EndsThere(w, c, p, i, r);
    } else if OutcomeOf(w, c, p) == Ending(r) {
      WalkLength(w, c, p);
      assert FirstToEnd(w, c, p, |Walk(w, c, p, c.chain).0| - 1, r);
    }
  }

  lemma EndsThere(w: World, c: Settings, p: Progress, i: nat, r: Reply)
    requires Ends(r)
    requires FirstToEnd(w, c, p, i, r)
    ensures |Walk(w, c, p, c.chain).0| == i + 1
  {
    NotPassedOver(w, c, p, i);
    WalkLength(w, c, p);
  }

  lemma LastVerdict(w: World, c: Settings, p: Progress, r: Reply)
    requires Ends(r)
    ensures var n := |Walk(w, c, p, c.chain).0|;
            OutcomeOf(w, c, p) == Ending(r) <==> 0 < n <= |c.chain| && LastReply(w, c, p, n - 1) == Some(r)
  {
    var vs := Walk(w, c, p, c.chain).0;
    ConcludeEnds(vs, r);
    if vs != [] { VerdictMeaning(w, c, p, |vs| - 1); }
  }

  lemma ConcludeEnds(vs: seq<Verdict>, r: Reply)
    requires Ends(r)
    ensures Conclude(vs) == Ending(r) <==> vs != [] && vs[|vs| - 1] == Judge(r)
  {
  }

  /** A turn that ends the walk is not one that passes a model over. */
  lemma NotPassedOver(w: World, c: Settings, p: Progress, i: nat)
    requires i < |c.chain| && LastReply(w, c, p, i).Some?
    requires Ends(LastReply(w, c, p, i).value)
    ensures !PassedOver(w, c, p, i)
  {
    InterpretMeaning(LastWire(w, c, p, i).value);
    VisitMeaning(w, c, Before(w, c, p, c.chain, i), c.chain[i]);
  }

  // ----- the registry a walk sees is the one its history of marks and questions makes -----

  /** The registry's history `es`, continued by what visiting a model asks it and the mark
      that leaves. */
  function Recorded(w: World, c: Settings, p: Progress, model: string, es: seq<Event>): seq<Event> {
    var asked := es + [Ask(model, w.clock(p.clockReads))];
    if Visit(w, c, p, model).0.DayExhausted? then asked + [Mark(model, w.clock(p.clockReads + 1))] else asked
  }

  /** The same for the first `i` models. */
  function History(w: World, c: Settings, p: Progress, models: seq<string>, i: nat, es: seq<Event>): seq<Event>
    requires i <= |models|
    decreases i
  {
    if i == 0 then es
    else Recorded(w, c, Before(w, c, p, models, i - 1), models[i - 1], History(w, c, p, models, i - 1, es))
  }

  /** The table is what the history makes of an empty one, and no event lies in the future. */
  ghost predicate Tracks(w: World, p: Progress, es: seq<Event>) {
    && p.table == Replay(es)
    && NonDecreasing(es) && (es != [] ==> es[|es| - 1].at <= w.clock(p.clockReads))
  }

  ghost predicate NeverBack(w: World) {
    forall m: nat, n: nat :: m <= n ==> w.clock(m) <= w.clock(n)
  }

  lemma OneEvent(w: World, p: Progress, q: Progress, es: seq<Event>, e: Event)
    requires Tracks(w, p, es) && NeverBack(w)
    requires q.clockReads == p.clockReads + 1 && e.at == w.clock(p.clockReads)
    requires q.table == if e.Mark? then Marked(p.table, e.model, e.at) else Asked(p.table, e.model, e.at).0
    ensures Tracks(w, q, es + [e])
  {
    OneLater(es, e);
    ReplayOneMore(es, e);
    assert w.clock(p.clockReads) <= w.clock(p.clockReads + 1);
  }

  lemma VisitTracks(w: World, c: Settings, p: Progress, model: string, es: seq<Event>)
    requires Tracks(w, p, es) && NeverBack(w)
    ensures Tracks(w, Visit(w, c, p, model).1, Recorded(w, c, p, model, es))
  {
    var ask := Ask(model, w.clock(p.clockReads));
    var asked := p.(clockReads := p.clockReads + 1, table := Asked(p.table, model, ask.at).0);
    OneEvent(w, p, asked, es, ask);
    var (v, q) := Visit(w, c, p, model);
    if v.DayExhausted? {
      OneEvent(w, asked, q, es + [ask], Mark(model, w.clock(p.clockReads + 1)));
    }
  }

  lemma NextTracks(w: World, c: Settings, p: Progress, models: seq<string>, i: nat, es: seq<Event>)
    requires i < |models| && NeverBack(w)
    requires Tracks(w, Before(w, c, p, models, i), History(w, c, p, models, i, es))
    ensures Tracks(w, Before(w, c, p, models, i + 1), History(w, c, p, models, i + 1, es))
  {
    VisitTracks(w, c, Before(w, c, p, models, i), models[i], History(w, c, p, models, i, es));
  }

  lemma BeforeTracks(w: World, c: Settings, p: Progress, models: seq<string>, i: nat, es: seq<Event>)
    requires i <= |models| && Tracks(w, p, es) && NeverBack(w)
    ensures Tracks(w, Before(w, c, p, models, i), History(w, c, p, models, i, es))
  {
    for j := 0 to i
      invariant Tracks(w, Before(w, c, p, models, j), History(w, c, p, models, j, es))
    {
      NextTracks(w, c, p, models, j, es);
    }
  }

  /** With the registry's whole history `es` and a clock that never goes back: a model is out
      for the day at its turn iff the midnight after its last mark is still ahead. */
  lemma OutTodayIsRule(w: World, c: Settings, p: Progress, i: nat, es: seq<Event>)
    requires i < |c.chain| && Tracks(w, p, es) && NeverBack(w)
    ensures OutToday(w, c, p, i) <==>
            Rule(History(w, c, p, c.chain, i, es), c.chain[i], w.clock(Before(w, c, p, c.chain, i).clockReads))
  {
    BeforeTracks(w, c, p, c.chain, i, es);
    AnswersAsRule(History(w, c, p, c.chain, i, es), c.chain[i], w.clock(Before(w, c, p, c.chain, i).clockReads));
  }

  lemma ExhaustedByRule(w: World, c: Settings, p: Progress, es: seq<Event>)
    requires Tracks(w, p, es) && NeverBack(w)
    ensures OutcomeOf(w, c, p).AllModelsExhausted? <==>
              forall i :: 0 <= i < |c.chain| ==>
                Rule(History(w, c, p, c.chain, i, es), c.chain[i], w.clock(Before(w, c, p, c.chain, i).clockReads)) ||
                DayRefused(w, c, p, i)
  {
    AllPassedOver(w, c, p);
    forall i | 0 <= i < |c.chain|
      ensures OutToday(w, c, p, i) <==>
                Rule(History(w, c, p, c.chain, i, es), c.chain[i], w.clock(Before(w, c, p, c.chain, i).clockReads))
    {
      OutTodayIsRule(w, c, p, i, es);
    }
  }

  /** Two models, one attempt each: the first times out, the second would have answered. */
  lemma TimeoutIsNotRemembered()
    ensures var w := World((n: nat, m: string) => if m == "a" then WireTimeout else Http(200, MINUTE, None, "ok"),
                           (n: nat) => 0.0, (n: nat) => 0.0);
            var c := Settings(["a", "b"], 1, 0.0, 0.0, 1, 0.0);
            && Conclude(Walk(w, c, Progress(Trace(0, []), 0, map[]), c.chain).0) == RaisedTimeout
            && Answer(w, 1, "b") == Text("ok")
  {
    var w := World((n: nat, m: string) => if m == "a" then WireTimeout else Http(200, MINUTE, None, "ok"),
                   (n: nat) => 0.0, (n: nat) => 0.0);
    var c := Settings(["a", "b"], 1, 0.0, 0.0, 1, 0.0);
    var p := Progress(Trace(0, []), 0, map[]);
    assert Attempts(w, c, "a", p.trace, 1).0 == Timeout;
    assert Rounds(w, c, "a", p.trace, 1).0 == TimedOut;
    assert Visit(w, c, p, "a").0 == TimedOut;
    assert Walk(w, c, p, c.chain).0 == [TimedOut];
  }

  // ----- the provider -----

  class GeminiProvider {
    const w: World
    const c: Settings
    const registry: DayExhaustionRegistry
    var calls: nat
    var naps: seq<real>
    var clockReads: nat

    function Now(): Trace
      reads this
    {
      Trace(calls, naps)
    }

    function View(): Progress
      reads this, registry
    {
      Progress(Now(), clockReads, registry.resetAt)
    }

    constructor (w: World, c: Settings, registry: DayExhaustionRegistry)
      ensures this.w == w && this.c == c && this.registry == registry
      ensures Now() == Trace(0, []) && clockReads == 0
    {
      this.w, this.c, this.registry := w, c, registry;
      calls, naps, clockReads := 0, [], 0;
    }

    method Invoke(model: string) returns (r: Reply)
      modifies this`calls
      ensures r == Answer(w, old(calls), model) && calls == old(calls) + 1
    {
      r := Interpret(w.wire(calls, model));
      calls := calls + 1;
    }

    method Sleep(seconds: real)
      modifies this`naps
      ensures naps == old(naps) + [seconds]
    {
      naps := naps + [seconds];
    }

    method WithRetries(model: string) returns (r: Reply)
      requires c.maxAttempts >= 1
      modifies this`calls, this`naps
      ensures (r, Now()) == Attempts(w, c, model, old(Now()), 1)
    {
      var attempt := 1;
      ghost var start := Now();
      while true
        invariant 1 <= attempt <= c.maxAttempts
        invariant Attempts(w, c, model, Now(), attempt) == Attempts(w, c, model, start, 1)
        decreases c.maxAttempts - attempt
      {
        ghost var before := Now();
        r := Invoke(model);
        if !Retryable(r) || attempt >= c.maxAttempts {
          return;
        }
        Sleep(Backoff(c, attempt, w.jitter(|naps|)));
        assert Now() == Trace(before.calls + 1, before.naps + [Backoff(c, attempt, w.jitter(|before.naps|))]);
        attempt := attempt + 1;
      }
    }

    method GenerateWithModel(model: string) returns (v: Verdict)
      modifies this`calls, this`naps
      ensures (v, Now()) == Turn(w, c, model, old(Now()))
      ensures !v.Skipped?
    {
      if c.maxAttempts < 1 {
        return NoAttempts;
      }
      var minuteAttempts := 0;
      ghost var start := Now();
      while true
        invariant 0 <= minuteAttempts < MinuteRetries(c)
        invariant Rounds(w, c, model, Now(), minuteAttempts + 1) == Rounds(w, c, model, start, 1)
        decreases MinuteRetries(c) - minuteAttempts
      {
        minuteAttempts := minuteAttempts + 1;
        var r := WithRetries(model);
        if !r.MinuteLimit? || minuteAttempts >= MinuteRetries(c) {
          return Judge(r);
        }
        Sleep(MinuteDelay(c, r.delay));
      }
    }

    method ReadClock() returns (now: real)
      modifies this`clockReads
      ensures now == w.clock(old(clockReads)) && clockReads == old(clockReads) + 1
    {
      now := w.clock(clockReads);
      clockReads := clockReads + 1;
    }

    /** One model of the chain: skip it if its day is used up, else let it try, and remember
        a per-day refusal. */
    method TryModel(model: string) returns (v: Verdict)
      modifies this, registry
      ensures (v, View()) == Visit(w, c, old(View()), model)
    {
      var now := ReadClock();
      var exhausted := registry.IsExhausted(model, now);
      if exhausted {
        return Skipped;
      }
      v := GenerateWithModel(model);
      if v.DayExhausted? {
        var at := ReadClock();
        registry.Mark(model, at);
      }
    }

    /** The chain loop. The verdicts met on the way are a ghost result. */
    method Generate() returns (out: Outcome, ghost vs: seq<Verdict>)
      modifies this, registry
      ensures (vs, View()) == Walk(w, c, old(View()), c.chain)
      ensures out == Conclude(vs)
    {
      var sawTransient := false;
      vs := [];
      ghost var start := View();
      assert c.chain[0..] == c.chain;
      JoinedNil(Walk(w, c, start, c.chain));
      for n := 0 to |c.chain|
        invariant Joined(vs, Walk(w, c, View(), c.chain[n..])) == Walk(w, c, start, c.chain)
        invariant forall i :: 0 <= i < |vs| ==> Continues(vs[i])
        invariant sawTransient <==> AnyGaveUp(vs)
      {
        ghost var before, met := View(), vs;
        var v := TryModel(c.chain[n]);
        vs := vs + [v];
        WalkUnfold(w, c, before, c.chain[n..]);
        assert c.chain[n..][1..] == c.chain[n + 1..];
        if !Continues(v) {
          out := Conclude([v]);
          ConcludeLast(met, v);
          return;
        }
        sawTransient := sawTransient || v.GaveUp?;
        JoinedStep(met, v, Walk(w, c, View(), c.chain[n + 1..]));
      }
      assert c.chain[|c.chain|..] == [] && vs + [] == vs;
      out := if sawTransient then RaisedTransient else AllModelsExhausted;
    }
  }

  lemma WalkUnfold(w: World, c: Settings, p: Progress, models: seq<string>)
    requires models != []
    ensures var (v, q) := Visit(w, c, p, models[0]);
            Walk(w, c, p, models) == if Continues(v) then Joined([v], Walk(w, c, q, models[1..])) else ([v], q)
  {
  }

  function Joined(vs: seq<Verdict>, rest: (seq<Verdict>, Progress)): (seq<Verdict>, Progress) {
    (vs + rest.0, rest.1)
  }

  lemma JoinedNil(rest: (seq<Verdict>, Progress))
    ensures Joined([], rest) == rest
  {
    assert [] + rest.0 == rest.0;
  }

  lemma ConcludeLast(vs: seq<Verdict>, v: Verdict)
    requires !Continues(v)
    ensures Conclude(vs + [v]) == Conclude([v])
  {
    assert (vs + [v])[|vs|] == v;
  }

  lemma JoinedStep(vs: seq<Verdict>, v: Verdict, rest: (seq<Verdict>, Progress))
    ensures Joined(vs + [v], rest) == Joined(vs, Joined([v], rest))
    ensures AnyGaveUp(vs + [v]) <==> AnyGaveUp(vs) || v.GaveUp?
  {
    if i :| 0 <= i < |vs| && vs[i].GaveUp? { assert (vs + [v])[i].GaveUp?; }
    if v.GaveUp? { assert (vs + [v])[|vs|].GaveUp?; }
    assert vs + [v] + rest.0 == vs + ([v] + rest.0);
  }
}
