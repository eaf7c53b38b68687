/** The two rate limiters: `throttle(func, limit)` runs `func` at once and
    then ignores calls until a `limit` timer clears its `inThrottle` flag;
    `debounce(func, wait)` cancels the pending call on every call and runs
    `func` only once `wait` has passed without another call. Time is an
    explicit clock; a timer due at instant t fires before a call made at t. */
module RateLimit {
  import opened Dom

  /** One call of a wrapper, or one run of the wrapped function: the instant
      and the arguments. */
  datatype Call<A> = Call(time: int, args: A)

  /** Calls arrive in the order of the clock. */
  predicate Chronological<A>(calls: seq<Call<A>>)
  {
    forall i, j :: 0 <= i < j < |calls| ==> calls[i].time <= calls[j].time
  }

  lemma ChronologicalAppend<A>(calls: seq<Call<A>>, c: Call<A>)
    requires Chronological(calls)
    requires |calls| > 0 ==> calls[|calls| - 1].time <= c.time
    ensures Chronological(calls + [c])
  {
    var s := calls + [c];
    forall i, j | 0 <= i < j < |s| ensures s[i].time <= s[j].time {
      if j == |calls| && i < |calls| - 1 {
        assert calls[i].time <= calls[|calls| - 1].time;
      }
    }
  }

  // ---- Throttle ----

  /** No cooldown is running at instant `t` after the runs `runs`. */
  predicate Open<A>(runs: seq<Call<A>>, t: int, limit: int)
  {
    |runs| == 0 || t >= runs[|runs| - 1].time + TimerDelay(limit)
  }

  /** The runs of the wrapped function caused by `calls`: a call runs when
      no cooldown started by an earlier run is still running. */
  function Throttled<A>(calls: seq<Call<A>>, limit: int): seq<Call<A>>
  {
    if |calls| == 0 then []
    else
      var runs := Throttled(calls[..|calls| - 1], limit);
      var c := calls[|calls| - 1];
      if Open(runs, c.time, limit) then runs + [c] else runs
  }

  /** The first call always runs. */
  lemma {:induction false} ThrottledFirst<A>(calls: seq<Call<A>>, limit: int)
    requires |calls| > 0
    ensures |Throttled(calls, limit)| > 0 && Throttled(calls, limit)[0] == calls[0]
  {
    if |calls| > 1 {
      assert calls[..|calls| - 1][0] == calls[0];
      ThrottledFirst(calls[..|calls| - 1], limit);
    }
  }

  /** Every run is one of the calls, made with its own arguments. */
  lemma {:induction false} ThrottledAreCalls<A>(calls: seq<Call<A>>, limit: int)
    ensures |Throttled(calls, limit)| <= |calls|
    ensures forall k :: 0 <= k < |Throttled(calls, limit)| ==> Throttled(calls, limit)[k] in calls
  {
    if |calls| > 0 {
      var init := calls[..|calls| - 1];
      ThrottledAreCalls(init, limit);
      assert forall c :: c in init ==> c in calls;
    }
  }

  /** Any two runs are at least `limit` apart (a negative limit acts as 0). */
  lemma {:induction false} ThrottledSpaced<A>(calls: seq<Call<A>>, limit: int)
    ensures forall j, k :: 0 <= j < k < |Throttled(calls, limit)| ==>
      Throttled(calls, limit)[k].time >= Throttled(calls, limit)[j].time + TimerDelay(limit)
  {
    if |calls| > 0 {
      ThrottledSpaced(calls[..|calls| - 1], limit);
    }
  }

  /** The last run is at least `limit` after the first. */
  lemma ThrottledSpan<A>(calls: seq<Call<A>>, limit: int)
    ensures var runs := Throttled(calls, limit);
      |runs| > 1 ==> runs[|runs| - 1].time >= runs[0].time + TimerDelay(limit)
  {
    ThrottledSpaced(calls, limit);
  }

  /** For any calls, the window `[start, start + limit)` holds at most one
      run: no two runs both fall inside it. */
  lemma ThrottledWindow<A>(calls: seq<Call<A>>, limit: int, start: int)
    ensures forall j, k :: 0 <= j < k < |Throttled(calls, limit)| ==>
      !(start <= Throttled(calls, limit)[j].time && Throttled(calls, limit)[k].time < start + TimerDelay(limit))
  {
    ThrottledSpaced(calls, limit);
  }

  lemma ThrottledStep<A>(calls: seq<Call<A>>, c: Call<A>, limit: int)
    ensures Throttled(calls + [c], limit) ==
      if Open(Throttled(calls, limit), c.time, limit) then Throttled(calls, limit) + [c] else Throttled(calls, limit)
  {
    assert (calls + [c])[..|calls|] == calls;
  }

  /** The invariant of a throttle wrapper, on values: calls come in clock
      order and none lies ahead of `now`, the runs are those `Throttled`
      prescribes, and `inThrottle` is set exactly while the cooldown timer of
      the last run is pending. */
  ghost predicate ThrottleState<A>(calls: seq<Call<A>>, runs: seq<Call<A>>, inThrottle: bool, reset: Option<int>, now: int, limit: int)
  {
    && Chronological(calls)
    && (|calls| > 0 ==> calls[|calls| - 1].time <= now)
    && runs == Throttled(calls, limit)
    && (inThrottle <==> reset.Some?)
    && (reset.Some? ==> |runs| > 0 && reset.value == runs[|runs| - 1].time + TimerDelay(limit) && now <= reset.value)
    && (!inThrottle ==> Open(runs, now, limit))
  }

  /** A call at the current instant, once every due cooldown timer has fired:
      it runs exactly when the flag is clear, and either way the invariant
      holds afterwards. */
  lemma ThrottleCall<A>(calls: seq<Call<A>>, inThrottle: bool, reset: Option<int>, c: Call<A>, limit: int)
    requires ThrottleState(calls, Throttled(calls, limit), inThrottle, reset, c.time, limit)
    requires reset.Some? ==> c.time < reset.value
    ensures !inThrottle <==> Open(Throttled(calls, limit), c.time, limit)
    ensures !inThrottle ==> ThrottleState(calls + [c], Throttled(calls, limit) + [c], true, Some(c.time + TimerDelay(limit)), c.time, limit)
    ensures inThrottle ==> ThrottleState(calls + [c], Throttled(calls, limit), true, reset, c.time, limit)
  {
    ChronologicalAppend(calls, c);
    ThrottledStep(calls, c, limit);
  }

  /** The state of one `throttle(func, limit)` wrapper. */
  class Throttle<A> {
    const limit: int
    /** The clock. */
    var now: int
    var inThrottle: bool
    /** When the pending `inThrottle = false` timer fires, if one is pending. */
    var reset: Option<int>
    /** The runs of `func`, in order. */
    var runs: seq<Call<A>>
    /** Every call of the wrapper so far. */
    ghost var calls: seq<Call<A>>

    /** The runs are those `Throttled` prescribes for the calls so far, and
        the flag is set exactly while the cooldown of the last run is pending. */
    ghost predicate Valid()
      reads this
    {
      ThrottleState(calls, runs, inThrottle, reset, now, limit)
    }

    constructor (limit: int, now: int)
      ensures Valid()
      ensures this.limit == limit && this.now == now
      ensures !inThrottle && reset == None && runs == [] && calls == []
    {
      this.limit := limit;
      this.now := now;
      inThrottle := false;
      reset := None;
      runs := [];
      calls := [];
    }

    /** The clock moves to `t`; the cooldown timer fires if it is due by then. */
    method Advance(t: int)
      requires Valid() && now <= t
      modifies this
      ensures Valid() && now == t
      ensures old(reset).Some? && old(reset).value <= t ==> !inThrottle && reset == None
      ensures !(old(reset).Some? && old(reset).value <= t) ==> inThrottle == old(inThrottle) && reset == old(reset)
      ensures runs == old(runs) && calls == old(calls)
    {
      if reset.Some? && reset.value <= t {
        inThrottle := false;
        reset := None;
      }
      now := t;
    }

    /** A call of the wrapper at instant `t` with arguments `args`; `ran`
        tells whether `func` was run. */
    method Invoke(t: int, args: A) returns (ran: bool)
      requires Valid() && now <= t
      modifies this
      ensures Valid() && now == t
      ensures calls == old(calls) + [Call(t, args)]
      ensures ran <==> Open(old(runs), t, limit)
      ensures ran ==> runs == old(runs) + [Call(t, args)] && inThrottle && reset == Some(t + TimerDelay(limit))
      ensures !ran ==> runs == old(runs) && inThrottle && reset == old(reset)
    {
      Advance(t);
      ThrottleCall(calls, inThrottle, reset, Call(t, args), limit);
      calls := calls + [Call(t, args)];
      if !inThrottle {
        runs := runs + [Call(t, args)];
        inThrottle := true;
        reset := Some(t + TimerDelay(limit));
        ran := true;
      } else {
        ran := false;
      }
    }
  }

  // ---- Debounce ----

  /** The delivery of a call: `wait` later, with that call's arguments. */
  function Delivery<A>(c: Call<A>, wait: int): Call<A>
  {
    Call(c.time + TimerDelay(wait), c.args)
  }

  /** The runs caused by every call but the last: a call is delivered when
      the next call comes no earlier than its delivery time, and cancelled
      otherwise. */
  function Settled<A>(calls: seq<Call<A>>, wait: int): seq<Call<A>>
  {
    if |calls| < 2 then []
    else
      var n := |calls|;
      Settled(calls[..n - 1], wait) +
        if calls[n - 1].time >= Delivery(calls[n - 2], wait).time then [Delivery(calls[n - 2], wait)] else []
  }

  /** All runs by instant `now`: the settled ones, and the last call's once its delivery time has come. */
  function Debounced<A>(calls: seq<Call<A>>, wait: int, now: int): seq<Call<A>>
  {
    Settled(calls, wait) +
      if |calls| > 0 && Delivery(calls[|calls| - 1], wait).time <= now then [Delivery(calls[|calls| - 1], wait)] else []
  }

  lemma SettledStep<A>(calls: seq<Call<A>>, c: Call<A>, wait: int)
    requires |calls| > 0
    ensures Settled(calls + [c], wait) ==
      Settled(calls, wait) + if c.time >= Delivery(calls[|calls| - 1], wait).time then [Delivery(calls[|calls| - 1], wait)] else []
  {
    assert (calls + [c])[..|calls|] == calls;
  }

  /** A burst of calls, each less than `wait` after the one before, settles
      nothing: only the last call of the burst can ever be delivered. */
  lemma {:induction false} BurstSettlesNothing<A>(calls: seq<Call<A>>, wait: int)
    requires forall i :: 0 < i < |calls| ==> calls[i].time < calls[i - 1].time + TimerDelay(wait)
    ensures Settled(calls, wait) == []
  {
    if |calls| >= 2 {
      BurstSettlesNothing(calls[..|calls| - 1], wait);
    }
  }

  /** Each settled run is the delivery of one call, made `wait` after it,
      which the next call did not cancel. */
  lemma {:induction false} SettledAreDeliveries<A>(calls: seq<Call<A>>, wait: int)
    ensures |Settled(calls, wait)| < |calls| || |calls| == 0
    ensures forall k :: 0 <= k < |Settled(calls, wait)| ==>
      exists j :: 0 <= j < |calls| - 1 && Settled(calls, wait)[k] == Delivery(calls[j], wait) && calls[j + 1].time >= Delivery(calls[j], wait).time
  {
    if |calls| >= 2 {
      var n := |calls|;
      var init := calls[..n - 1];
      SettledAreDeliveries(init, wait);
      var s := Settled(calls, wait);
      var tail := if calls[n - 1].time >= Delivery(calls[n - 2], wait).time then [Delivery(calls[n - 2], wait)] else [];
      assert s == Settled(init, wait) + tail;
      forall k | 0 <= k < |s|
        ensures exists j :: 0 <= j < n - 1 && s[k] == Delivery(calls[j], wait) && calls[j + 1].time >= Delivery(calls[j], wait).time
      {
        if k < |Settled(init, wait)| {
          var j :| 0 <= j < |init| - 1 && Settled(init, wait)[k] == Delivery(init[j], wait) && init[j + 1].time >= Delivery(init[j], wait).time;
          assert init[j] == calls[j] && init[j + 1] == calls[j + 1];
        } else {
          assert s[k] == tail[0] == Delivery(calls[n - 2], wait);
          assert calls[n - 1].time >= Delivery(calls[n - 2], wait).time;
        }
      }
    }
  }

  /** Runs of a debounced function are at least `wait` apart, and the last
      settled run happens no later than the last call. */
  lemma {:induction false} SettledSpaced<A>(calls: seq<Call<A>>, wait: int)
    requires Chronological(calls)
    ensures forall k :: 0 < k < |Settled(calls, wait)| ==>
      Settled(calls, wait)[k].time >= Settled(calls, wait)[k - 1].time + TimerDelay(wait)
    ensures |Settled(calls, wait)| > 0 ==> Settled(calls, wait)[|Settled(calls, wait)| - 1].time <= calls[|calls| - 1].time
  {
    if |calls| >= 2 {
      var n := |calls|;
      var init := calls[..n - 1];
      assert Chronological(init) by {
        forall i, j | 0 <= i < j < |init| ensures init[i].time <= init[j].time {
          assert init[i] == calls[i] && init[j] == calls[j];
        }
      }
      SettledSpaced(init, wait);
      assert calls[n - 2].time <= calls[n - 1].time;
      var before := Settled(init, wait);
      if |before| > 0 {
        assert init[|init| - 1] == calls[n - 2];
      }
    }
  }

  /** All runs by any instant, the last call's delivery included, are at
      least `wait` apart. */
  lemma DebouncedSpaced<A>(calls: seq<Call<A>>, wait: int, now: int)
    requires Chronological(calls)
    ensures forall k :: 0 < k < |Debounced(calls, wait, now)| ==>
      Debounced(calls, wait, now)[k].time >= Debounced(calls, wait, now)[k - 1].time + TimerDelay(wait)
  {
    SettledSpaced(calls, wait);
    var settled := Settled(calls, wait);
    var d := Debounced(calls, wait, now);
    forall k | 0 < k < |d|
      ensures d[k].time >= d[k - 1].time + TimerDelay(wait)
    {
      if k == |settled| {
        assert d[k] == Delivery(calls[|calls| - 1], wait);
        assert d[k - 1] == settled[|settled| - 1];
      } else {
        assert d[k] == settled[k] && d[k - 1] == settled[k - 1];
      }
    }
  }

  /** The state of one `debounce(func, wait)` wrapper. */
  class Debounce<A> {
    const wait: int
    /** The clock. */
    var now: int
    /** The pending `later` timer: when it fires and the arguments it runs `func` with. */
    var timeout: Option<Call<A>>
    /** The runs of `func`, in order. */
    var delivered: seq<Call<A>>
    /** Every call of the wrapper so far. */
    ghost var calls: seq<Call<A>>

    /** The runs so far are those `Debounced` prescribes; while a timer is
        pending, it is the last call's delivery. */
    ghost predicate Valid()
      reads this
    {
      && Chronological(calls)
      && (|calls| > 0 ==> calls[|calls| - 1].time <= now)
      && (timeout.Some? ==> |calls| > 0 && timeout.value == Delivery(calls[|calls| - 1], wait) && now <= timeout.value.time)
      && (timeout.Some? ==> delivered == Settled(calls, wait))
      && (timeout.None? ==> (|calls| > 0 ==> Delivery(calls[|calls| - 1], wait).time <= now) && delivered == Debounced(calls, wait, now))
    }

    constructor (wait: int, now: int)
      ensures Valid()
      ensures this.wait == wait && this.now == now
      ensures timeout == None && delivered == [] && calls == []
    {
      this.wait := wait;
      this.now := now;
      timeout := None;
      delivered := [];
      calls := [];
    }

    /** The clock moves to `t`; the pending timer fires if it is due by then. */
    method Advance(t: int)
      requires Valid() && now <= t
      modifies this
      ensures Valid() && now == t
      ensures old(timeout).Some? && old(timeout).value.time <= t ==> timeout == None && delivered == old(delivered) + [old(timeout).value]
      ensures !(old(timeout).Some? && old(timeout).value.time <= t) ==> timeout == old(timeout) && delivered == old(delivered)
      ensures calls == old(calls)
      ensures delivered == Debounced(calls, wait, t) || (timeout.Some? && delivered == Settled(calls, wait))
    {
      if timeout.Some? && timeout.value.time <= t {
        delivered := delivered + [timeout.value];
        timeout := None;
      }
      now := t;
    }

    /** A call of the wrapper at instant `t` with arguments `args`: the
        pending timer is cancelled and a new one set `wait` later. */
    method Invoke(t: int, args: A)
      requires Valid() && now <= t
      modifies this
      ensures Valid() && now == t
      ensures calls == old(calls) + [Call(t, args)]
      ensures timeout == Some(Delivery(Call(t, args), wait))
      ensures delivered == Settled(calls, wait)
      ensures old(timeout).Some? && old(timeout).value.time <= t ==> delivered == old(delivered) + [old(timeout).value]
      ensures !(old(timeout).Some? && old(timeout).value.time <= t) ==> delivered == old(delivered)
    {
      Advance(t);
      var c := Call(t, args);
      ChronologicalAppend(calls, c);
      if |calls| > 0 {
        SettledStep(calls, c, wait);
      }
      calls := calls + [c];
      timeout := Some(Delivery(c, wait));
    }
  }

  /** Five calls 100 ms apart through a 200 ms debounce: nothing runs until
      200 ms after the fifth call, and then only the fifth call's arguments. */
  lemma DebounceBurstExample<A>(a: A, b: A, c: A, d: A, e: A, now: int)
    ensures var calls := [Call(0, a), Call(100, b), Call(200, c), Call(300, d), Call(400, e)];
      && (now < 600 ==> Debounced(calls, 200, now) == [])
      && (now >= 600 ==> Debounced(calls, 200, now) == [Call(600, e)])
  {
    var calls := [Call(0, a), Call(100, b), Call(200, c), Call(300, d), Call(400, e)];
    BurstSettlesNothing(calls, 200);
  }
}
