/**
 The sliding-window rate gate of the LLM limiter.

 Each pass through the gate's critical section evicts expired entries, sums what
 is left and either records the request, lets it through unrecorded, or tells the
 caller how long to wait. Concurrent callers are serialised by the mutex, so every
 run of the gate is a sequence of passes with non-decreasing clock readings.
 */
module RateGate {
  import opened Widths

  const WINDOW: int := 60_000_000_000 // nanoseconds

  type Tokens = n: int | 0 <= n <= U64_MAX

  datatype Admission = Admission(at: int, tokens: Tokens)

  /** What one pass through the critical section decides. */
  datatype Verdict = Recorded | PassedUnrecorded | Blocked(wait: int)

  function SaturatingAdd(a: int, b: int): int {
    if a + b > U64_MAX then U64_MAX else a + b
  }

  function Sum(w: seq<Admission>): (n: nat) {
    if w == [] then 0 else w[0].tokens + Sum(w[1..])
  }

  function Expired(a: Admission, now: int): bool {
    now - a.at >= WINDOW
  }

  /** The deque once every expired entry at its front has been popped. */
  function Evict(w: seq<Admission>, now: int): (kept: seq<Admission>) {
    if w != [] && Expired(w[0], now) then Evict(w[1..], now) else w
  }

  lemma {:induction false} EvictDropsExpiredFront(w: seq<Admission>, now: int)
    ensures var kept := Evict(w, now);
            && |kept| <= |w| && kept == w[|w| - |kept|..]
            && (forall i :: 0 <= i < |w| - |kept| ==> Expired(w[i], now))
            && (kept != [] ==> !Expired(kept[0], now))
  {
    if w != [] && Expired(w[0], now) {
      EvictDropsExpiredFront(w[1..], now);
    }
  }

  function Decide(limit: int, kept: seq<Admission>, tokens: Tokens, now: int): Verdict {
    if SaturatingAdd(Sum(kept), tokens) <= limit then Recorded
    else if kept == [] then PassedUnrecorded
    else Blocked(kept[0].at + WINDOW - now)
  }

  class Gate {
    const limit: int
    var window: seq<Admission>

    constructor (limit: int)
      requires 0 < limit < 0x1_0000_0000
      ensures this.limit == limit && window == []
    {
      this.limit := limit;
      window := [];
    }

    /** One pass through the critical section of `acquire`. */
    method Pass(tokens: Tokens, now: int) returns (verdict: Verdict)
      modifies this
      ensures verdict == Decide(limit, Evict(old(window), now), tokens, now)
      ensures window == Next(limit, old(window), tokens, now)
    {
      while window != [] && Expired(window[0], now)
        invariant Evict(window, now) == Evict(old(window), now)
        decreases |window|
      {
        window := window[1..];
      }
      var used, i := 0, 0;
      while i < |window|
        invariant 0 <= i <= |window|
        invariant used + Sum(window[i..]) == Sum(window)
      {
        used := used + window[i].tokens;
        i := i + 1;
      }
      if SaturatingAdd(used, tokens) <= limit {
        window := window + [Admission(now, tokens)];
        verdict := Recorded;
      } else if window == [] {
        verdict := PassedUnrecorded;
      } else {
        verdict := Blocked(window[0].at + WINDOW - now);
      }
    }
  }

  // ---------------------------------------------------------------- the waiting loop

  /** What one round of `acquire` observes: three clock readings and the cancellation token. */
  datatype Round = Round(locked: int, checked: int, cancelled: bool, woken: int)

  datatype Outcome = Admitted | DeadlineExceeded | Cancelled | StillWaiting

  /** The deque after one pass. */
  function Next(limit: int, w: seq<Admission>, tokens: Tokens, now: int): seq<Admission> {
    var kept := Evict(w, now);
    kept + (if Decide(limit, kept, tokens, now) == Recorded then [Admission(now, tokens)] else [])
  }

  /** The deque after the first `i` rounds of one call. */
  function WindowAfter(limit: int, w: seq<Admission>, tokens: Tokens, rounds: seq<Round>, i: nat): seq<Admission>
    requires i <= |rounds|
  {
    if i == 0 then w else Next(limit, WindowAfter(limit, w, tokens, rounds, i - 1), tokens, rounds[i - 1].locked)
  }

  function VerdictAt(limit: int, w: seq<Admission>, tokens: Tokens, rounds: seq<Round>, i: nat): Verdict
    requires i < |rounds|
  {
    Decide(limit, Evict(WindowAfter(limit, w, tokens, rounds, i), rounds[i].locked), tokens, rounds[i].locked)
  }

  function AfterRound(verdict: Verdict, round: Round, deadline: int): Outcome {
    if !verdict.Blocked? then Admitted
    else if round.checked >= deadline then DeadlineExceeded
    else if round.cancelled then Cancelled
    else if round.woken >= deadline then DeadlineExceeded
    else StillWaiting
  }

  /** Neither the deadline nor a cancellation ends the call in this round. */
  predicate WaitedOn(round: Round, deadline: int) {
    round.checked < deadline && !round.cancelled && round.woken < deadline
  }

  /**
   `acquire` retries until admitted, cancelled or out of time; `StillWaiting` means the rounds ran out.
   A call that is not admitted has changed the gate by evictions only, and an admitted call
   passes the gate on its last round after being blocked on every earlier one.
   */
  method Acquire(gate: Gate, tokens: Tokens, deadline: int, rounds: seq<Round>)
    returns (outcome: Outcome, spent: nat)
    modifies gate
    ensures spent <= |rounds|
    ensures gate.window == WindowAfter(gate.limit, old(gate.window), tokens, rounds, spent)
    ensures outcome == Admitted <==>
            spent > 0 && !VerdictAt(gate.limit, old(gate.window), tokens, rounds, spent - 1).Blocked?
    ensures forall i :: 0 <= i < (if outcome == Admitted then spent - 1 else spent) ==>
              VerdictAt(gate.limit, old(gate.window), tokens, rounds, i).Blocked?
    ensures outcome == StillWaiting ==> spent == |rounds|
    ensures forall i :: 0 <= i < (if outcome == StillWaiting then spent else spent - 1) ==>
              WaitedOn(rounds[i], deadline)
    ensures outcome == Cancelled ==>
              spent > 0 && rounds[spent - 1].checked < deadline && rounds[spent - 1].cancelled
    ensures outcome == DeadlineExceeded ==>
              spent > 0 && (rounds[spent - 1].checked >= deadline ||
                            (!rounds[spent - 1].cancelled && rounds[spent - 1].woken >= deadline))
  {
    spent, outcome := 0, StillWaiting;
    while spent < |rounds| && outcome == StillWaiting
      invariant spent <= |rounds|
      invariant gate.window == WindowAfter(gate.limit, old(gate.window), tokens, rounds, spent)
      invariant outcome == Admitted <==>
                spent > 0 && !VerdictAt(gate.limit, old(gate.window), tokens, rounds, spent - 1).Blocked?
      invariant forall i :: 0 <= i < (if outcome == Admitted then spent - 1 else spent) ==>
                  VerdictAt(gate.limit, old(gate.window), tokens, rounds, i).Blocked?
      invariant forall i :: 0 <= i < (if outcome == StillWaiting then spent else spent - 1) ==>
                  WaitedOn(rounds[i], deadline)
      invariant outcome == Cancelled ==>
                  spent > 0 && rounds[spent - 1].checked < deadline && rounds[spent - 1].cancelled
      invariant outcome == DeadlineExceeded ==>
                  spent > 0 && (rounds[spent - 1].checked >= deadline ||
                                (!rounds[spent - 1].cancelled && rounds[spent - 1].woken >= deadline))
    {
      var round := rounds[spent];
      var verdict := gate.Pass(tokens, round.locked);
      assert verdict == VerdictAt(gate.limit, old(gate.window), tokens, rounds, spent);
      outcome := AfterRound(verdict, round, deadline);
      spent := spent + 1;
    }
  }

  // ---------------------------------------------------------------- runs

  datatype Request = Request(now: int, tokens: Tokens)

  /** The gate's deque, the admissions it ever recorded and all it ever let through. */
  datatype Run = Run(window: seq<Admission>, recorded: seq<Admission>, admitted: seq<Admission>)

  ghost predicate Monotone(rs: seq<Request>) {
    forall i, j :: 0 <= i <= j < |rs| ==> rs[i].now <= rs[j].now
  }

  function RunStep(limit: int, run: Run, r: Request): Run {
    var kept := Evict(run.window, r.now);
    var entry := [Admission(r.now, r.tokens)];
    var window := Next(limit, run.window, r.tokens, r.now);
    match Decide(limit, kept, r.tokens, r.now)
    case Recorded => Run(window, run.recorded + entry, run.admitted + entry)
    case PassedUnrecorded => Run(window, run.recorded, run.admitted + entry)
    case Blocked(_) => run.(window := window)
  }

  function RunOf(limit: int, rs: seq<Request>): Run {
    if rs == [] then Run([], [], []) else RunStep(limit, RunOf(limit, rs[..|rs| - 1]), rs[|rs| - 1])
  }

  /** The deque after further passes. */
  function PassAll(limit: int, w: seq<Admission>, rs: seq<Request>): seq<Admission> {
    if rs == [] then w else Next(limit, PassAll(limit, w, rs[..|rs| - 1]), rs[|rs| - 1].tokens, rs[|rs| - 1].now)
  }

  /** Tokens admitted at instants in the half-open minute (t - WINDOW, t]. */
  function UsedAt(h: seq<Admission>, t: int): nat {
    if h == [] then 0
    else UsedAt(h[..|h| - 1], t) + (if t - WINDOW < h[|h| - 1].at <= t then h[|h| - 1].tokens else 0)
  }

  ghost predicate Bounded(limit: int, h: seq<Admission>) {
    forall t: int :: UsedAt(h, t) <= limit
  }

  // ---------------------------------------------------------------- the invariant

  ghost predicate Ordered(h: seq<Admission>) {
    forall i, j :: 0 <= i <= j < |h| ==> h[i].at <= h[j].at
  }

  /** Every stretch of the history that fits in one window ending at an admission is within the limit. */
  ghost predicate StretchesFit(limit: int, h: seq<Admission>) {
    forall i, j :: 0 <= i <= j < |h| && h[j].at - h[i].at < WINDOW ==> Sum(h[i..j + 1]) <= limit
  }

  /** The deque is the tail of the history, and all that was evicted is expired at `now`. */
  ghost predicate Tracks(window: seq<Admission>, h: seq<Admission>, now: int) {
    && |window| <= |h|
    && window == h[|h| - |window|..]
    && (forall i :: 0 <= i < |h| - |window| ==> Expired(h[i], now))
    && (forall i :: 0 <= i < |h| ==> h[i].at <= now)
  }

  ghost predicate Inv(limit: int, run: Run, now: int) {
    && Tracks(run.window, run.recorded, now)
    && Ordered(run.recorded)
    && StretchesFit(limit, run.recorded)
  }

  lemma {:induction false} SumConcat(a: seq<Admission>, b: seq<Admission>)
    ensures Sum(a + b) == Sum(a) + Sum(b)
  {
    if a == [] {
      assert a + b == b;
    } else {
      assert (a + b)[1..] == a[1..] + b;
      SumConcat(a[1..], b);
    }
  }

  lemma EvictTracks(window: seq<Admission>, h: seq<Admission>, now: int, now': int)
    requires Tracks(window, h, now) && now <= now'
    ensures Tracks(Evict(window, now'), h, now')
  {
    EvictDropsExpiredFront(window, now');
    var kept := Evict(window, now');
    forall i | 0 <= i < |h| - |kept|
      ensures Expired(h[i], now')
    {
      var gone := |h| - |window|;
      if gone <= i {
        assert h[i] == window[i - gone];
      }
    }
  }

  /** The stretch that ends with the new entry lies inside the deque, whose sum was checked. */
  lemma NewStretchFits(limit: int, kept: seq<Admission>, h: seq<Admission>, e: Admission, i: nat)
    requires Tracks(kept, h, e.at) && i <= |h|
    requires Sum(kept) + e.tokens <= limit
    requires i < |h| ==> e.at - h[i].at < WINDOW
    ensures Sum(h[i..] + [e]) <= limit
  {
    var gone := |h| - |kept|;
    assert gone <= i;
    var k := i - gone;
    assert h[i..] == kept[k..];
    SumConcat(kept[k..], [e]);
    SumConcat(kept[..k], kept[k..]);
    assert kept == kept[..k] + kept[k..];
  }

  /** Recording a request that fits keeps every stretch within the limit. */
  lemma RecordKeepsStretches(limit: int, kept: seq<Admission>, h: seq<Admission>, e: Admission)
    requires Tracks(kept, h, e.at) && StretchesFit(limit, h)
    requires Sum(kept) + e.tokens <= limit
    ensures StretchesFit(limit, h + [e])
  {
    forall i, j | 0 <= i <= j < |h + [e]| && (h + [e])[j].at - (h + [e])[i].at < WINDOW
      ensures Sum((h + [e])[i..j + 1]) <= limit
    {
      StretchFits(limit, kept, h, e, i, j);
    }
  }

  lemma StretchFits(limit: int, kept: seq<Admission>, h: seq<Admission>, e: Admission, i: nat, j: nat)
    requires Tracks(kept, h, e.at) && StretchesFit(limit, h)
    requires Sum(kept) + e.tokens <= limit
    requires i <= j < |h + [e]| && (h + [e])[j].at - (h + [e])[i].at < WINDOW
    ensures Sum((h + [e])[i..j + 1]) <= limit
  {
    if j < |h| {
      assert (h + [e])[i..j + 1] == h[i..j + 1];
    } else {
      NewStretchFits(limit, kept, h, e, i);
      assert (h + [e])[i..j + 1] == h[i..] + [e];
    }
  }

  lemma RecordKeepsTracking(kept: seq<Admission>, h: seq<Admission>, e: Admission)
    requires Tracks(kept, h, e.at) && Ordered(h)
    ensures Tracks(kept + [e], h + [e], e.at) && Ordered(h + [e])
  {
    assert (h + [e])[|h| - |kept|..] == kept + [e];
  }

  lemma StepKeepsInv(limit: int, run: Run, now: int, r: Request)
    requires limit < U64_MAX
    requires Inv(limit, run, now) && now <= r.now
    ensures Inv(limit, RunStep(limit, run, r), r.now)
  {
    EvictTracks(run.window, run.recorded, now, r.now);
    var kept := Evict(run.window, r.now);
    if Decide(limit, kept, r.tokens, r.now) == Recorded {
      RecordKeepsStretches(limit, kept, run.recorded, Admission(r.now, r.tokens));
      RecordKeepsTracking(kept, run.recorded, Admission(r.now, r.tokens));
    }
  }

  lemma {:induction false} RunKeepsInv(limit: int, rs: seq<Request>, now: int)
    requires limit < U64_MAX
    requires Monotone(rs)
    requires forall i :: 0 <= i < |rs| ==> rs[i].now <= now
    ensures Inv(limit, RunOf(limit, rs), if rs == [] then now else rs[|rs| - 1].now)
  {
    if rs != [] {
      var init, last := rs[..|rs| - 1], rs[|rs| - 1];
      RunKeepsInv(limit, init, last.now);
      StepKeepsInv(limit, RunOf(limit, init), if init == [] then last.now else init[|init| - 1].now, last);
    }
  }

  // ---------------------------------------------------------------- the bound

  lemma {:induction false} UsedWithinTail(h: seq<Admission>, t: int, i: nat)
    requires i <= |h|
    requires forall k :: 0 <= k < i ==> h[k].at <= t - WINDOW
    ensures UsedAt(h, t) <= Sum(h[i..])
  {
    if h != [] {
      var init := h[..|h| - 1];
      if i == |h| {
        UsedWithinTail(init, t, i - 1);
      } else {
        UsedWithinTail(init, t, i);
        SumConcat(init[i..], [h[|h| - 1]]);
        assert init[i..] + [h[|h| - 1]] == h[i..];
      }
    }
  }

  function FirstAfter(h: seq<Admission>, lo: int): (i: nat)
    requires Ordered(h)
    ensures i <= |h|
    ensures forall k :: 0 <= k < i ==> h[k].at <= lo
    ensures i < |h| ==> h[i].at > lo
  {
    if h == [] || h[0].at > lo then 0 else 1 + FirstAfter(h[1..], lo)
  }

  lemma {:induction false} StretchesBoundEveryInstant(limit: int, h: seq<Admission>, t: int)
    requires 0 <= limit
    requires Ordered(h) && StretchesFit(limit, h)
    ensures UsedAt(h, t) <= limit
  {
    if h != [] {
      var init, last := h[..|h| - 1], h[|h| - 1];
      if last.at > t {
        forall i, j | 0 <= i <= j < |init| && init[j].at - init[i].at < WINDOW
          ensures Sum(init[i..j + 1]) <= limit
        {
          assert init[i..j + 1] == h[i..j + 1];
        }
        StretchesBoundEveryInstant(limit, init, t);
      } else {
        var i := FirstAfter(h, t - WINDOW);
        UsedWithinTail(h, t, i);
        if i < |h| {
          assert h[i..|h| - 1 + 1] == h[i..];
        }
      }
    }
  }

  /** In every run, at every instant, the recorded traffic of the last minute is within the limit. */
  lemma RecordedTrafficBounded(limit: int, rs: seq<Request>)
    requires 0 < limit < 0x1_0000_0000
    requires Monotone(rs)
    ensures Bounded(limit, RunOf(limit, rs).recorded)
  {
    RunKeepsInv(limit, rs, if rs == [] then 0 else rs[|rs| - 1].now);
    forall t: int
      ensures UsedAt(RunOf(limit, rs).recorded, t) <= limit
    {
      StretchesBoundEveryInstant(limit, RunOf(limit, rs).recorded, t);
    }
  }

  lemma {:induction false} UsedAtLeastOne(h: seq<Admission>, k: nat)
    requires k < |h|
    ensures UsedAt(h, h[k].at) >= h[k].tokens
  {
    if k < |h| - 1 {
      UsedAtLeastOne(h[..|h| - 1], k);
    }
  }

  lemma {:induction false} RecordedIsAdmittedWithinLimit(limit: int, rs: seq<Request>)
    requires limit < U64_MAX
    ensures var run := RunOf(limit, rs);
            (forall k :: 0 <= k < |run.admitted| ==> run.admitted[k].tokens <= limit) <==>
            run.recorded == run.admitted
    ensures |RunOf(limit, rs).recorded| <= |RunOf(limit, rs).admitted|
  {
    if rs != [] {
      RecordedIsAdmittedWithinLimit(limit, rs[..|rs| - 1]);
      var run, r := RunOf(limit, rs[..|rs| - 1]), rs[|rs| - 1];
      var run' := RunOf(limit, rs);
      var e := Admission(r.now, r.tokens);
      if run'.admitted == run.admitted + [e] {
        assert run'.admitted[..|run.admitted|] == run.admitted;
        assert forall k :: 0 <= k < |run.admitted| ==> run'.admitted[k] == run.admitted[k];
        assert run'.admitted[|run.admitted|] == e;
        if run'.recorded == run.recorded + [e] && run'.recorded == run'.admitted {
          assert run'.recorded[..|run'.recorded| - 1] == run.recorded;
        }
      }
    }
  }

  /** All traffic stays within the limit exactly when no admitted request is larger than the limit. */
  lemma BoundedWhenAdmittedFit(limit: int, rs: seq<Request>)
    requires 0 < limit < 0x1_0000_0000
    requires Monotone(rs)
    ensures var admitted := RunOf(limit, rs).admitted;
            Bounded(limit, admitted) <==>
            forall k :: 0 <= k < |admitted| ==> admitted[k].tokens <= limit
  {
    var run := RunOf(limit, rs);
    RecordedTrafficBounded(limit, rs);
    RecordedIsAdmittedWithinLimit(limit, rs);
    if k :| 0 <= k < |run.admitted| && run.admitted[k].tokens > limit {
      UsedAtLeastOne(run.admitted, k);
    }
  }

  /** Request `i` of a run is larger than the limit and meets an empty deque. */
  predicate SlipsThrough(limit: int, rs: seq<Request>, i: nat)
    requires i < |rs|
  {
    rs[i].tokens > limit && Evict(RunOf(limit, rs[..i]).window, rs[i].now) == []
  }

  lemma {:induction false} OversizedSlipThrough(limit: int, rs: seq<Request>)
    requires limit < U64_MAX
    ensures var admitted := RunOf(limit, rs).admitted;
            (forall k :: 0 <= k < |admitted| ==> admitted[k].tokens <= limit) <==>
            (forall i :: 0 <= i < |rs| ==> !SlipsThrough(limit, rs, i))
  {
    if rs != [] {
      var n := |rs| - 1;
      var init, last := rs[..n], rs[n];
      OversizedSlipThrough(limit, init);
      forall i | 0 <= i < n ensures SlipsThrough(limit, init, i) == SlipsThrough(limit, rs, i) {
        assert init[..i] == rs[..i];
      }
      LastAdmission(limit, rs);
      var before, after := RunOf(limit, init).admitted, RunOf(limit, rs).admitted;
      assert forall k :: 0 <= k < |before| ==> after[k] == before[k];
      if after != before {
        assert after[|before|] == Admission(last.now, last.tokens);
      }
      assert (forall i :: 0 <= i < |rs| ==> !SlipsThrough(limit, rs, i)) <==>
             (forall i :: 0 <= i < n ==> !SlipsThrough(limit, init, i)) && !SlipsThrough(limit, rs, n);
    }
  }

  /** The last pass lets an oversized request through exactly when it meets an empty deque. */
  lemma LastAdmission(limit: int, rs: seq<Request>)
    requires limit < U64_MAX && rs != []
    ensures var n := |rs| - 1;
            var before, after := RunOf(limit, rs[..n]).admitted, RunOf(limit, rs).admitted;
            && (after == before || after == before + [Admission(rs[n].now, rs[n].tokens)])
            && (rs[n].tokens > limit ==> (after != before <==> SlipsThrough(limit, rs, n)))
  {
  }

  /**
   All traffic stays within the limit at every instant if and only if no request larger than the
   limit ever meets an empty deque.
   */
  lemma AllTrafficBoundedIff(limit: int, rs: seq<Request>)
    requires 0 < limit < 0x1_0000_0000
    requires Monotone(rs)
    ensures Bounded(limit, RunOf(limit, rs).admitted) <==> forall i :: 0 <= i < |rs| ==> !SlipsThrough(limit, rs, i)
  {
    BoundedWhenAdmittedFit(limit, rs);
    OversizedSlipThrough(limit, rs);
  }

  lemma {:induction false} AdmittedWereRequested(limit: int, rs: seq<Request>, k: nat) returns (i: nat)
    requires k < |RunOf(limit, rs).admitted|
    ensures i < |rs| && RunOf(limit, rs).admitted[k] == Admission(rs[i].now, rs[i].tokens)
  {
    var init, last := rs[..|rs| - 1], rs[|rs| - 1];
    var before := RunOf(limit, init).admitted;
    var after := RunOf(limit, rs).admitted;
    assert after == before || after == before + [Admission(last.now, last.tokens)];
    if k < |before| {
      i := AdmittedWereRequested(limit, init, k);
    } else {
      i := |rs| - 1;
    }
  }

  /** Requests no larger than the limit - in particular one request at a time - keep all traffic bounded. */
  lemma FittingRequestsKeepAllTrafficBounded(limit: int, rs: seq<Request>)
    requires 0 < limit < 0x1_0000_0000
    requires Monotone(rs)
    requires forall i :: 0 <= i < |rs| ==> rs[i].tokens <= limit
    ensures Bounded(limit, RunOf(limit, rs).admitted)
    ensures RunOf(limit, rs).recorded == RunOf(limit, rs).admitted
  {
    var admitted := RunOf(limit, rs).admitted;
    forall k | 0 <= k < |admitted|
      ensures admitted[k].tokens <= limit
    {
      var i := AdmittedWereRequested(limit, rs, k);
    }
    BoundedWhenAdmittedFit(limit, rs);
    RecordedIsAdmittedWithinLimit(limit, rs);
  }

  /** A request larger than the limit breaks the bound as soon as it meets an empty window. */
  lemma OversizedRequestBreaksBound(limit: int, tokens: Tokens, now: int)
    requires 0 < limit < 0x1_0000_0000
    requires tokens > limit
    ensures var rs := [Request(now, tokens)];
            Monotone(rs) && !Bounded(limit, RunOf(limit, rs).admitted) && RunOf(limit, rs).recorded == []
  {
    var rs := [Request(now, tokens)];
    assert rs[..0] == [];
    assert Decide(limit, [], tokens, now) == PassedUnrecorded;
    assert RunOf(limit, rs).admitted == [Admission(now, tokens)];
    UsedAtLeastOne(RunOf(limit, rs).admitted, 0);
  }

  // ---------------------------------------------------------------- who is admitted

  /** A string of entries of which none is expired nor in the future counts in full. */
  lemma {:induction false} UsedInFull(h: seq<Admission>, t: int)
    requires forall i :: 0 <= i < |h| ==> t - WINDOW < h[i].at <= t
    ensures UsedAt(h, t) == Sum(h)
  {
    if h != [] {
      var n := |h| - 1;
      UsedInFull(h[..n], t);
      SumConcat(h[..n], [h[n]]);
      assert h[..n] + [h[n]] == h;
    }
  }

  lemma {:induction false} UsedBehindExpired(a: seq<Admission>, b: seq<Admission>, t: int)
    requires forall i :: 0 <= i < |a| ==> a[i].at <= t - WINDOW
    ensures UsedAt(a + b, t) == UsedAt(b, t)
    decreases |a| + |b|
  {
    if b != [] {
      var n := |b| - 1;
      assert (a + b)[..|a + b| - 1] == a + b[..n];
      UsedBehindExpired(a, b[..n], t);
    } else if a != [] {
      assert a + b == a && a[..|a| - 1] + [] == a[..|a| - 1];
      UsedBehindExpired(a[..|a| - 1], [], t);
    }
  }

  /** What the gate sums is what was recorded within the last minute. */
  lemma KeptIsUsed(limit: int, run: Run, now: int, t: int)
    requires Inv(limit, run, now) && now <= t
    ensures Sum(Evict(run.window, t)) == UsedAt(run.recorded, t)
    ensures Evict(run.window, t) == [] <==> Quiet(run.recorded, t)
  {
    EvictTracks(run.window, run.recorded, now, t);
    EvictDropsExpiredFront(run.window, t);
    var h, kept := run.recorded, Evict(run.window, t);
    var gone := |h| - |kept|;
    assert h == h[..gone] + kept;
    forall i | 0 <= i < |kept| ensures t - WINDOW < kept[i].at <= t {
      assert kept[i] == h[gone + i] && kept[0] == h[gone];
    }
    UsedBehindExpired(h[..gone], kept, t);
    UsedInFull(kept, t);
  }

  /** Nothing was recorded within the last minute. */
  ghost predicate Quiet(h: seq<Admission>, t: int) {
    forall i :: 0 <= i < |h| ==> h[i].at <= t - WINDOW
  }

  /** What the gate finds at the next pass of a run. */
  lemma NextFinds(limit: int, rs: seq<Request>, r: Request)
    requires limit < U64_MAX && Monotone(rs + [r])
    ensures var run := RunOf(limit, rs);
            && Sum(Evict(run.window, r.now)) == UsedAt(run.recorded, r.now)
            && (Evict(run.window, r.now) == [] <==> Quiet(run.recorded, r.now))
  {
    var all := rs + [r];
    assert all[|rs|] == r && forall i :: 0 <= i < |rs| ==> all[i] == rs[i];
    var last := if rs == [] then r.now else rs[|rs| - 1].now;
    assert rs != [] ==> all[|rs| - 1].now <= all[|rs|].now;
    assert Monotone(rs);
    RunKeepsInv(limit, rs, last);
    KeptIsUsed(limit, RunOf(limit, rs), last, r.now);
  }

  /**
   The verdict on the next request of a run: recorded if and only if it fits beside what was recorded within the
   last minute; otherwise blocked if anything was recorded in that minute, and let through unrecorded if not.
   */
  lemma NextIsRecordedIff(limit: int, rs: seq<Request>, r: Request)
    requires 0 < limit < 0x1_0000_0000 && Monotone(rs + [r])
    ensures var run := RunOf(limit, rs);
            var fits := UsedAt(run.recorded, r.now) + r.tokens <= limit;
            var verdict := Decide(limit, Evict(run.window, r.now), r.tokens, r.now);
            && (verdict == Recorded <==> fits)
            && (verdict.Blocked? <==> !fits && !Quiet(run.recorded, r.now))
  {
    NextFinds(limit, rs, r);
  }

  /** The run goes on accordingly. */
  lemma NextOfRun(limit: int, rs: seq<Request>, r: Request)
    requires 0 < limit < 0x1_0000_0000 && Monotone(rs + [r])
    ensures var run, next := RunOf(limit, rs), RunOf(limit, rs + [r]);
            var fits, entry := UsedAt(run.recorded, r.now) + r.tokens <= limit, Admission(r.now, r.tokens);
            && next.recorded == (if fits then run.recorded + [entry] else run.recorded)
            && next.admitted == (if fits || Quiet(run.recorded, r.now) then run.admitted + [entry] else run.admitted)
  {
    NextIsRecordedIff(limit, rs, r);
    assert (rs + [r])[..|rs|] == rs;
  }

  // ---------------------------------------------------------------- waiting

  /** The wait is exact: when it is over, and no sooner, the oldest entry of the window expires. */
  lemma WaitIsExact(limit: int, window: seq<Admission>, tokens: Tokens, now: int, t: int)
    requires Decide(limit, Evict(window, now), tokens, now).Blocked?
    ensures var kept, wait := Evict(window, now), Decide(limit, Evict(window, now), tokens, now).wait;
            && kept != [] && wait > 0
            && (Evict(kept, t) != kept <==> now + wait <= t)
  {
    EvictDropsExpiredFront(window, now);
    var kept := Evict(window, now);
    EvictDropsExpiredFront(kept, t);
  }

  lemma {:induction false} EvictNothing(w: seq<Admission>, now: int)
    requires w != [] ==> !Expired(w[0], now)
    ensures Evict(w, now) == w
  {
  }

  /**
   A blocked request is told a positive wait, and no retry before that wait is over can succeed,
   whatever else passes through the gate in between.
   */
  lemma {:induction false} BlockedUntilWaitIsOver(limit: int, run: Run, now: int, tokens: Tokens,
                                                  others: seq<Request>, t: int)
    requires limit < U64_MAX
    requires var kept := Evict(run.window, now); Decide(limit, kept, tokens, now).Blocked?
    requires t < now + Decide(limit, Evict(run.window, now), tokens, now).wait
    requires forall i :: 0 <= i < |others| ==> now <= others[i].now <= t
    requires now <= t
    ensures Decide(limit, Evict(run.window, now), tokens, now).wait > 0
    ensures var kept := Evict(run.window, now);
            var later := PassAll(limit, kept, others);
            kept <= later && Decide(limit, Evict(later, t), tokens, t).Blocked?
  {
    var kept := Evict(run.window, now);
    EvictDropsExpiredFront(run.window, now);
    WindowOnlyGrows(limit, kept, others, t);
    var later := PassAll(limit, kept, others);
    SumConcat(kept, later[|kept|..]);
    assert later == kept + later[|kept|..];
    EvictNothing(later, t);
  }

  lemma {:induction false} WindowOnlyGrows(limit: int, w: seq<Admission>, rs: seq<Request>, t: int)
    requires w != [] && !Expired(w[0], t)
    requires forall i :: 0 <= i < |rs| ==> rs[i].now <= t
    ensures w <= PassAll(limit, w, rs)
  {
    if rs != [] {
      WindowOnlyGrows(limit, w, rs[..|rs| - 1], t);
      EvictNothing(PassAll(limit, w, rs[..|rs| - 1]), rs[|rs| - 1].now);
    }
  }
}
