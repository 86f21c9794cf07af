/**
 Per-table write statistics of the SQL row cache and the bypass they trigger.
 Times are nanoseconds since the zero time, which no clock reading precedes.
 */
module WriteRate {
  import opened Options
  import opened Sequences

  datatype Stats = Stats(windowStart: nat, writes: nat, bypassedUntil: nat)

  datatype Limits = Limits(threshold: nat, window: nat, cooldown: nat)

  /** The statistics after one more write, as updated at the head of invalidateTable. */
  function Record(found: Option<Stats>, now: nat, limits: Limits): Stats {
    var st := if found.Some? then found.value else Stats(now, 0, 0);
    var counted :=
      if now - st.windowStart > limits.window then st.(windowStart := now, writes := 1)
      else st.(writes := st.writes + 1);
    if counted.writes > limits.threshold && now >= counted.bypassedUntil
    then counted.(bypassedUntil := now + limits.cooldown)
    else counted
  }

  predicate Bypassed(stats: map<string, Stats>, table: string, now: nat) {
    table in stats && now < stats[table].bypassedUntil
  }

  predicate AnyBypassed(stats: map<string, Stats>, tables: seq<string>, now: nat) {
    exists i :: 0 <= i < |tables| && Bypassed(stats, tables[i], now)
  }

  function AfterWrite(stats: map<string, Stats>, table: string, now: nat, limits: Limits): map<string, Stats> {
    stats[table := Record(if table in stats then Some(stats[table]) else None, now, limits)]
  }

  /** The statistics of a table written at these times and at no other. */
  function AfterWrites(times: seq<nat>, limits: Limits): Option<Stats> {
    if times == [] then None
    else Some(Record(AfterWrites(times[..|times| - 1], limits), times[|times| - 1], limits))
  }

  /** Writes first..last are more than the threshold and lie inside one window. */
  predicate Burst(times: seq<nat>, first: nat, last: nat, limits: Limits) {
    && first <= last < |times|
    && last - first + 1 > limits.threshold
    && times[last] - times[first] <= limits.window
  }

  /**
   What the counters mean: they count the writes since the current window
   began, and a bypass in force was started by a burst.
   */
  lemma {:induction false} CountersMean(times: seq<nat>, limits: Limits) returns (w: nat, first: nat, last: nat)
    requires NonDecreasing(times) && times != []
    ensures var st := AfterWrites(times, limits).value;
            && w < |times| && st.windowStart == times[w] && st.writes == |times| - w
            && times[|times| - 1] - times[w] <= limits.window
            && (st.bypassedUntil != 0 ==>
                  Burst(times, first, last, limits) && st.bypassedUntil == times[last] + limits.cooldown)
  {
    var n := |times| - 1;
    var before := times[..n];
    var st := AfterWrites(times, limits).value;
    w, first, last := 0, 0, 0;
    if n > 0 {
      w, first, last := CountersMean(before, limits);
      assert before[w] == times[w];
      if times[n] - times[w] > limits.window {
        w := n;
      }
      if st.bypassedUntil != AfterWrites(before, limits).value.bypassedUntil {
        first, last := w, n;
      }
    }
  }

  /** Where the current window starts: at the first write, and again at each write too late for the window before. */
  function WindowAt(times: seq<nat>, n: nat, limits: Limits): (w: nat)
    requires n < |times|
    ensures w <= n
  {
    if n == 0 then 0
    else
      var before := WindowAt(times, n - 1, limits);
      if times[n] - times[before] > limits.window then n else before
  }

  /** The counters after each write, from the write times. */
  lemma {:induction false} WindowIs(times: seq<nat>, n: nat, limits: Limits)
    requires n < |times| && NonDecreasing(times)
    ensures var st, w := AfterWrites(times[..n + 1], limits).value, WindowAt(times, n, limits);
            st.windowStart == times[w] && st.writes == n - w + 1
    ensures var st, w := AfterWrites(times[..n + 1], limits).value, WindowAt(times, n, limits);
            var was := if n == 0 then 0 else AfterWrites(times[..n], limits).value.bypassedUntil;
            st.bypassedUntil == if n - w + 1 > limits.threshold && was <= times[n] then times[n] + limits.cooldown else was
  {
    hide AfterWrites;
    OneMoreWrite(times, n, limits);
    if n > 0 {
      WindowIs(times, n - 1, limits);
      OneMoreWrite(times, n - 1, limits);
    }
  }

  lemma {:induction false} OneMoreWrite(times: seq<nat>, n: nat, limits: Limits)
    requires n < |times|
    ensures AfterWrites(times[..n + 1], limits) == Some(Record(AfterWrites(times[..n], limits), times[n], limits))
    ensures AfterWrites(times[..0], limits) == None
  {
    assert times[..n + 1][..n] == times[..n];
  }

  /** Inside a span no longer than the window at most one new window begins. */
  lemma {:induction false} OneNewWindow(times: seq<nat>, first: nat, last: nat, limits: Limits)
    requires first <= last < |times| && NonDecreasing(times) && times[last] - times[first] <= limits.window
    ensures var w := WindowAt(times, last, limits);
            w <= first || WindowAt(times, w - 1, limits) < first
    decreases last
  {
    if first < last {
      OneNewWindow(times, first, last - 1, limits);
    }
  }

  /**
   Twice the threshold of writes inside a span no longer than the window start
   a bypass: after one of them the table is bypassed. One fewer need not do,
   since a new window may begin between them.
   */
  lemma {:induction false} BurstStartsBypass(times: seq<nat>, first: nat, last: nat, limits: Limits) returns (k: nat)
    requires first <= last < |times| && NonDecreasing(times) && times[last] - times[first] <= limits.window
    requires last - first + 1 >= 2 * limits.threshold && limits.cooldown > 0
    ensures first <= k <= last && times[k] < AfterWrites(times[..k + 1], limits).value.bypassedUntil
  {
    var w := WindowAt(times, last, limits);
    OneNewWindow(times, first, last, limits);
    k := if last - w + 1 > limits.threshold then last else w - 1;
    WindowIs(times, k, limits);
  }

  /** Three writes in four units of time, over a threshold of two in ten, and no bypass. */
  lemma {:induction false} StraddledBurst()
    ensures var limits, times := Limits(2, 10, 5), [0, 8, 11, 12];
            Burst(times, 1, 3, limits) && AfterWrites(times, limits).value.bypassedUntil == 0
  {
    var limits, times := Limits(2, 10, 5), [0, 8, 11, 12];
    assert times[..4] == times;
    WindowIs(times, 0, limits);
    WindowIs(times, 1, limits);
    WindowIs(times, 2, limits);
    WindowIs(times, 3, limits);
    assert WindowAt(times, 0, limits) == 0 && WindowAt(times, 1, limits) == 0;
    assert WindowAt(times, 2, limits) == 2 && WindowAt(times, 3, limits) == 2;
  }

  /**
   A table is bypassed only because more than the threshold of its writes fell
   inside one span of at most the window, the last of them less than the
   cool-down ago.
   */
  lemma {:induction false} BypassNeedsBurst(times: seq<nat>, now: nat, limits: Limits)
    requires NonDecreasing(times) && times != []
    requires now < AfterWrites(times, limits).value.bypassedUntil
    ensures exists first: nat, last: nat :: Burst(times, first, last, limits) && now < times[last] + limits.cooldown
  {
    var w, first, last := CountersMean(times, limits);
  }
}
