/** `moon.funclimit`: a decorator that allows at most `times` calls within a sliding window of
    `spanseconds` seconds. The clock reading `int(time.time())` is the parameter `now`. */
module FuncLimit {
  import opened Wrappers

  const OutOfLimitsMessage := "Out of call limits"

  /** What the decorated function does on one call. */
  datatype Response = Ran | Silenced | Raised(message: string)

  /** The history entries still inside the window: those later than `now - span`, in order. */
  function Prune(history: seq<int>, span: Option<int>, now: int): (r: seq<int>)
    ensures |r| <= |history|
    ensures forall x :: x in r <==> (x in history && (span.None? || x > now - span.value))
  {
    if history == [] then []
    else
      var rest := Prune(history[..|history| - 1], span, now);
      var h := history[|history| - 1];
      assert history == history[..|history| - 1] + [h];
      if span.None? || h > now - span.value then rest + [h] else rest
  }

  /** Pruning works entry by entry: every occurrence of a kept timestamp survives, in order. */
  lemma {:induction false} PruneConcat(a: seq<int>, b: seq<int>, span: Option<int>, now: int)
    ensures Prune(a + b, span, now) == Prune(a, span, now) + Prune(b, span, now)
    decreases |b|
  {
    if b == [] {
      assert a + b == a;
    } else {
      var init := b[..|b| - 1];
      assert (a + b)[..|a + b| - 1] == a + init;
      assert (a + b)[|a + b| - 1] == b[|b| - 1];
      PruneConcat(a, init, span, now);
    }
  }

  /** One entry is kept exactly when it is later than `now - span`. */
  lemma PruneSingle(h: int, span: Option<int>, now: int)
    ensures Prune([h], span, now) == if span.None? || h > now - span.value then [h] else []
  {
    assert [h][..0] == [];
  }

  /** Entries that are all still inside the window are all kept, in order. */
  lemma {:induction false} PruneKeepsRecent(history: seq<int>, span: Option<int>, now: int)
    requires forall k :: 0 <= k < |history| ==> span.None? || history[k] > now - span.value
    ensures Prune(history, span, now) == history
  {
    if history != [] {
      PruneKeepsRecent(history[..|history| - 1], span, now);
    }
  }

  /** Entries that have all left the window are all dropped. */
  lemma {:induction false} PruneDropsStale(history: seq<int>, span: Option<int>, now: int)
    requires span.Some?
    requires forall k :: 0 <= k < |history| ==> history[k] <= now - span.value
    ensures Prune(history, span, now) == []
  {
    if history != [] {
      PruneDropsStale(history[..|history| - 1], span, now);
    }
  }

  /** How many more calls the bound admits from an empty history: `times`, or none if negative. */
  function Capacity(times: int): nat {
    if times < 0 then 0 else times
  }

  /** What one `require_call` decides and the history it leaves behind. */
  datatype Decision = Decision(accepted: bool, history: seq<int>)

  /** `require_call` at time `now`: prune, then accept iff fewer than `times` entries remain. */
  function Step(times: int, span: Option<int>, history: seq<int>, now: int): (d: Decision)
    ensures d.accepted <==> |Prune(history, span, now)| < times
    ensures d.accepted ==> d.history == Prune(history, span, now) + [now]
    ensures !d.accepted ==> d.history == Prune(history, span, now)
  {
    var pruned := Prune(history, span, now);
    if |pruned| < times then Decision(true, pruned + [now]) else Decision(false, pruned)
  }

  /** The wrapper in `__call__`: run the function, or return `None` / raise when refused. */
  function Policy(accepted: bool, silence: bool): (r: Response)
    ensures r == Ran <==> accepted
    ensures !accepted ==> (r == Silenced <==> silence)
    ensures !accepted && !silence ==> r == Raised(OutOfLimitsMessage)
  {
    if accepted then Ran else if silence then Silenced else Raised(OutOfLimitsMessage)
  }

  /** One `require_call` never lets the history grow past the bound. */
  lemma StepKeepsBound(times: int, span: Option<int>, history: seq<int>, now: int)
    requires |history| <= Capacity(times)
    ensures |Step(times, span, history, now).history| <= Capacity(times)
  {
  }

  /** A refused call only prunes: the history grows only by accepted calls. */
  lemma RefusalRecordsNothing(times: int, span: Option<int>, history: seq<int>, now: int)
    requires !Step(times, span, history, now).accepted
    ensures Step(times, span, history, now).history == Prune(history, span, now)
    ensures |Step(times, span, history, now).history| <= |history|
  {
  }

  /** A sequence of calls at the clock readings `nows`: the responses and the final history. */
  datatype Trace = Trace(accepted: seq<bool>, history: seq<int>)

  function Run(times: int, span: Option<int>, history: seq<int>, nows: seq<int>): (t: Trace)
    ensures |t.accepted| == |nows|
  {
    if nows == [] then Trace([], history)
    else
      var before := Run(times, span, history, nows[..|nows| - 1]);
      var d := Step(times, span, before.history, nows[|nows| - 1]);
      Trace(before.accepted + [d.accepted], d.history)
  }

  /** Number of `true` entries. */
  function CountTrue(bs: seq<bool>): nat {
    if bs == [] then 0 else CountTrue(bs[..|bs| - 1]) + (if bs[|bs| - 1] then 1 else 0)
  }

  /** A run extended by one more call. */
  lemma RunSnoc(times: int, span: Option<int>, history: seq<int>, nows: seq<int>, now: int)
    ensures var before := Run(times, span, history, nows);
      var d := Step(times, span, before.history, now);
      Run(times, span, history, nows + [now]) == Trace(before.accepted + [d.accepted], d.history)
  {
    assert (nows + [now])[..|nows|] == nows;
  }

  /** Starting from an empty history, every history a run leaves behind is within the bound. */
  lemma {:induction false} RunKeepsBound(times: int, span: Option<int>, nows: seq<int>)
    ensures |Run(times, span, [], nows).history| <= Capacity(times)
  {
    if nows != [] {
      RunKeepsBound(times, span, nows[..|nows| - 1]);
      StepKeepsBound(times, span, Run(times, span, [], nows[..|nows| - 1]).history, nows[|nows| - 1]);
    }
  }

  function Min(a: nat, b: nat): nat {
    if a < b then a else b
  }

  /** Without a window nothing is ever pruned: the history holds the clock readings of the first
      `times` calls. */
  lemma {:induction false} NoWindowHistory(times: int, nows: seq<int>)
    ensures Run(times, None, [], nows).history == nows[..Min(|nows|, Capacity(times))]
  {
    if nows != [] {
      var init := nows[..|nows| - 1];
      var now := nows[|nows| - 1];
      assert nows == init + [now];
      NoWindowHistory(times, init);
      NoWindowStep(times, init, now);
    }
  }

  /** One more call without a window appends its clock reading while the bound is not reached. */
  lemma NoWindowStep(times: int, init: seq<int>, now: int)
    requires Run(times, None, [], init).history == init[..Min(|init|, Capacity(times))]
    ensures Run(times, None, [], init + [now]).history == (init + [now])[..Min(|init| + 1, Capacity(times))]
  {
    RunSnoc(times, None, [], init, now);
    var h := Run(times, None, [], init).history;
    PruneKeepsRecent(h, None, now);
    if |init| < Capacity(times) {
      NoWindowBelow(init, now, Capacity(times));
    } else {
      NoWindowFull(init, now, Capacity(times));
    }
  }

  lemma NoWindowBelow(init: seq<int>, now: int, cap: nat)
    requires |init| < cap
    ensures init[..Min(|init|, cap)] + [now] == (init + [now])[..Min(|init| + 1, cap)]
  {
    assert init[..|init|] == init;
  }

  lemma NoWindowFull(init: seq<int>, now: int, cap: nat)
    requires |init| >= cap
    ensures init[..Min(|init|, cap)] == (init + [now])[..Min(|init| + 1, cap)]
  {
  }

  /** Without a window exactly the first `times` calls are accepted. */
  lemma {:induction false} NoWindowAcceptsFirstCalls(times: int, nows: seq<int>)
    ensures forall k :: 0 <= k < |nows| ==> (Run(times, None, [], nows).accepted[k] <==> k < Capacity(times))
  {
    if nows != [] {
      var init := nows[..|nows| - 1];
      var now := nows[|nows| - 1];
      assert nows == init + [now];
      NoWindowAcceptsFirstCalls(times, init);
      NoWindowHistory(times, init);
      RunSnoc(times, None, [], init, now);
      var before := Run(times, None, [], init);
      PruneKeepsRecent(before.history, None, now);
      assert Run(times, None, [], nows).accepted == before.accepted + [|init| < Capacity(times)];
    }
  }

  /** A flag sequence that is true exactly below `c` holds `min(|bs|, c)` true entries. */
  lemma {:induction false} CountTrueOfPrefix(bs: seq<bool>, c: nat)
    requires forall k :: 0 <= k < |bs| ==> (bs[k] <==> k < c)
    ensures CountTrue(bs) == Min(|bs|, c)
  {
    if bs != [] {
      CountTrueOfPrefix(bs[..|bs| - 1], c);
    }
  }

  /** Without a window, at most `times` calls are ever accepted. */
  lemma NoWindowCount(times: int, nows: seq<int>)
    ensures CountTrue(Run(times, None, [], nows).accepted) == Min(|nows|, Capacity(times))
  {
    NoWindowAcceptsFirstCalls(times, nows);
    CountTrueOfPrefix(Run(times, None, [], nows).accepted, Capacity(times));
  }

  /** The sliding-window limiter: a fixed configuration and the accumulated call history. */
  class LimitTimes {
    const times: int
    const spanseconds: Option<int>
    const silence: bool
    var history: seq<int>

    /** The history never holds more entries than the bound admits. */
    predicate Valid()
      reads this
    {
      |history| <= Capacity(times)
    }

    constructor (times: int, spanseconds: Option<int>, silence: bool)
      ensures Valid()
      ensures this.times == times && this.spanseconds == spanseconds && this.silence == silence
      ensures history == []
    {
      this.times := times;
      this.spanseconds := spanseconds;
      this.silence := silence;
      history := [];
    }

    /** `require_call` at the clock reading `now`. */
    method RequireCall(now: int) returns (accepted: bool)
      requires Valid()
      modifies this
      ensures Valid()
      ensures Step(times, spanseconds, old(history), now) == Decision(accepted, history)
    {
      if spanseconds.Some? {
        history := Prune(history, spanseconds, now);
      } else {
        PruneKeepsRecent(history, spanseconds, now);
      }
      if |history| < times {
        history := history + [now];
        return true;
      } else {
        return false;
      }
    }

    /** One call of the decorated function at the clock reading `now`. */
    method Invoke(now: int) returns (r: Response)
      requires Valid()
      modifies this
      ensures Valid()
      ensures var d := Step(times, spanseconds, old(history), now);
        history == d.history && r == Policy(d.accepted, silence)
    {
      var accepted := RequireCall(now);
      if accepted {
        r := Ran;
      } else if silence {
        r := Silenced;
      } else {
        r := Raised(OutOfLimitsMessage);
      }
    }
  }

  /** The first three calls of the demo, all in the same second. */
  lemma DemoFirstThree(t: int)
    ensures Run(3, Some(1), [], [t, t, t]) == Trace([true, true, true], [t, t, t])
  {
    PruneKeepsRecent([], Some(1), t);
    RunSnoc(3, Some(1), [], [], t);
    assert [] + [t] == [t];
    PruneKeepsRecent([t], Some(1), t);
    RunSnoc(3, Some(1), [], [t], t);
    assert [t] + [t] == [t, t];
    PruneKeepsRecent([t, t], Some(1), t);
    RunSnoc(3, Some(1), [], [t, t], t);
    assert [t, t] + [t] == [t, t, t];
  }

  /** The fourth call in the same second is refused and leaves the history as it was. */
  lemma DemoFourth(t: int)
    ensures Run(3, Some(1), [], [t, t, t, t]) == Trace([true, true, true, false], [t, t, t])
  {
    DemoFirstThree(t);
    PruneKeepsRecent([t, t, t], Some(1), t);
    RunSnoc(3, Some(1), [], [t, t, t], t);
    assert [t, t, t] + [t] == [t, t, t, t];
    assert [true, true, true] + [false] == [true, true, true, false];
  }

  /** The module's own demo: three calls per second with `silence`; three calls in one second
      run, the fourth returns `None`, and a call two seconds later runs again. */
  lemma DemoTrace(t: int, later: int)
    requires later >= t + 2
    ensures Run(3, Some(1), [], [t, t, t, t, later]).accepted == [true, true, true, false, true]
  {
    DemoFourth(t);
    PruneDropsStale([t, t, t], Some(1), later);
    RunSnoc(3, Some(1), [], [t, t, t, t], later);
    assert [t, t, t, t] + [later] == [t, t, t, t, later];
  }
}
