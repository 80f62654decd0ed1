// The fixed-window limiter: how many calls it can grant in any stretch of one window's length.
// The clock is a parameter of every operation.
module RateLimiters {
  datatype Window = Window(start: int, count: nat)

  datatype Settings = Settings(limit: int, windowMs: int) {
    function Cap(): (r: nat)
      ensures limit >= 0 ==> r == limit
      ensures limit < 0 ==> r == 0
    {
      if limit < 0 then 0 else limit
    }

    predicate Expired(w: Window, now: int) {
      now - w.start >= windowMs
    }

    // The window a call at `now` is counted in.
    function Current(w: Window, now: int): Window {
      if Expired(w, now) then Window(now, 0) else w
    }

    predicate Grants(w: Window, now: int) {
      Current(w, now).count < limit
    }

    function Next(w: Window, now: int): Window {
      var c := Current(w, now);
      if Grants(w, now) then c.(count := c.count + 1) else c
    }

    function Remaining(w: Window, now: int): int {
      if Expired(w, now) then limit else if limit - w.count > 0 then limit - w.count else 0
    }
  }

  // ---- runs of calls ----

  ghost predicate NonDecreasing(times: seq<int>) {
    forall i, j :: 0 <= i < j < |times| ==> times[i] <= times[j]
  }

  // A run continues a window opened no later than its first call, with no more grants than the cap.
  ghost predicate Ready(s: Settings, w: Window, times: seq<int>) {
    && w.count <= s.Cap()
    && NonDecreasing(times)
    && (times != [] ==> w.start <= times[0])
  }

  // The calls granted at times in [from, to).
  function Granted(s: Settings, w: Window, times: seq<int>, from: int, to: int): nat
    decreases |times|
  {
    if times == [] then 0
    else
      (if s.Grants(w, times[0]) && from <= times[0] < to then 1 else 0) +
      Granted(s, s.Next(w, times[0]), times[1..], from, to)
  }

  function After(s: Settings, w: Window, times: seq<int>): Window
    decreases |times|
  {
    if times == [] then w else After(s, s.Next(w, times[0]), times[1..])
  }

  lemma {:induction false} NothingLate(s: Settings, w: Window, times: seq<int>, from: int, to: int)
    requires Ready(s, w, times) && (times != [] ==> to <= times[0])
    ensures Granted(s, w, times, from, to) == 0
    decreases |times|
  {
    if times != [] {
      if |times| > 1 { assert times[0] <= times[1]; }
      NothingLate(s, s.Next(w, times[0]), times[1..], from, to);
    }
  }

  // Until one window length after a start the window is never replaced, so at most what is left of it is granted.
  lemma {:induction false} OneWindow(s: Settings, w: Window, times: seq<int>, from: int)
    requires Ready(s, w, times) && from <= w.start
    ensures Granted(s, w, times, from, from + s.windowMs) <= s.Cap() - w.count
    decreases |times|
  {
    if times != [] {
      var t := times[0];
      if t >= from + s.windowMs {
        NothingLate(s, w, times, from, from + s.windowMs);
      } else {
        OneWindow(s, s.Next(w, t), times[1..], from);
      }
    }
  }

  // Once the stretch has begun, the old window and at most one new one grant calls in it.
  lemma {:induction false} TwoWindows(s: Settings, w: Window, times: seq<int>, from: int)
    requires Ready(s, w, times) && w.start < from && (times != [] ==> from <= times[0])
    ensures Granted(s, w, times, from, from + s.windowMs) <= s.Cap() - w.count + s.Cap()
    ensures s.windowMs <= 1 ==> Granted(s, w, times, from, from + s.windowMs) <= s.Cap()
    decreases |times|
  {
    if times != [] {
      var t := times[0];
      if s.Expired(w, t) {
        OneWindow(s, Window(t, 0), times, from);
      } else {
        if |times| > 1 { assert times[0] <= times[1]; }
        TwoWindows(s, s.Next(w, t), times[1..], from);
      }
    }
  }

  // No stretch of one window's length sees more than twice the limit, wherever it lies; nor more than the
  // limit itself when a window is a single tick.
  lemma {:induction false} AnyStretch(s: Settings, w: Window, times: seq<int>, from: int)
    requires Ready(s, w, times)
    ensures Granted(s, w, times, from, from + s.windowMs) <= 2 * s.Cap()
    ensures s.windowMs <= 1 ==> Granted(s, w, times, from, from + s.windowMs) <= s.Cap()
    decreases |times|
  {
    if from <= w.start {
      OneWindow(s, w, times, from);
    } else if times != [] {
      if from <= times[0] {
        TwoWindows(s, w, times, from);
      } else {
        AnyStretch(s, s.Next(w, times[0]), times[1..], from);
      }
    }
  }

  // ---- bursts ----

  function Burst(n: nat, t: int): (r: seq<int>)
    ensures |r| == n && forall i :: 0 <= i < n ==> r[i] == t
  {
    if n == 0 then [] else [t] + Burst(n - 1, t)
  }

  function Least(a: int, b: int): int {
    if a < b then a else b
  }

  // A burst gets exactly what `remaining` promised, as long as windows have some length.
  lemma {:induction false} RemainingExact(s: Settings, w: Window, n: nat, now: int)
    requires s.windowMs > 0
    ensures var left := if s.Remaining(w, now) > 0 then s.Remaining(w, now) else 0;
      Granted(s, w, Burst(n, now), now, now + 1) == Least(n, left)
    decreases n
  {
    if n > 0 {
      assert Burst(n, now)[1..] == Burst(n - 1, now);
      RemainingExact(s, s.Next(w, now), n - 1, now);
    }
  }

  lemma {:induction false} BurstAll(s: Settings, w: Window, n: nat, t: int, from: int, to: int)
    requires !s.Expired(w, t) && from <= t < to && w.count + n <= s.limit
    ensures Granted(s, w, Burst(n, t), from, to) == n
    ensures After(s, w, Burst(n, t)) == Window(w.start, w.count + n)
    decreases n
  {
    if n > 0 {
      assert Burst(n, t)[1..] == Burst(n - 1, t);
      BurstAll(s, s.Next(w, t), n - 1, t, from, to);
    }
  }

  lemma {:induction false} GrantedConcat(s: Settings, w: Window, a: seq<int>, b: seq<int>, from: int, to: int)
    ensures Granted(s, w, a + b, from, to) == Granted(s, w, a, from, to) + Granted(s, After(s, w, a), b, from, to)
    decreases |a|
  {
    if a == [] {
      assert a + b == b;
    } else {
      assert (a + b)[1..] == a[1..] + b;
      GrantedConcat(s, s.Next(w, a[0]), a[1..], b, from, to);
    }
  }

  // Twice the limit is reached: a full burst in the last tick of a window and another in the next tick.
  lemma Attained(s: Settings, start: int)
    requires s.limit >= 0 && s.windowMs >= 2
    ensures var last := start + s.windowMs - 1;
      var times := Burst(s.limit, last) + Burst(s.limit, last + 1);
      && Ready(s, Window(start, 0), times)
      && Granted(s, Window(start, 0), times, last, last + s.windowMs) == 2 * s.limit
  {
    var last, n := start + s.windowMs - 1, s.limit;
    var to := last + s.windowMs;
    var w := Window(start, 0);
    BurstAll(s, w, n, last, last, to);
    GrantedConcat(s, w, Burst(n, last), Burst(n, last + 1), last, to);
    if n > 0 {
      FreshBurst(s, Window(start, n), n, last + 1, last, to);
    }
  }

  lemma FreshBurst(s: Settings, w: Window, n: nat, t: int, from: int, to: int)
    requires s.Expired(w, t) && s.windowMs > 0 && from <= t < to && 0 < n <= s.limit
    ensures Granted(s, w, Burst(n, t), from, to) == n
  {
    assert Burst(n, t)[1..] == Burst(n - 1, t);
    BurstAll(s, s.Next(w, t), n - 1, t, from, to);
  }

  // ---- the limiter ----

  class RateLimiter {
    const settings: Settings
    var windowStart: int
    var count: nat

    function State(): Window
      reads this
    {
      Window(windowStart, count)
    }

    constructor (now: int, limit: int := 5, windowMs: int := 1000)
      ensures settings == Settings(limit, windowMs) && State() == Window(now, 0)
    {
      settings := Settings(limit, windowMs);
      windowStart, count := now, 0;
    }

    method TryAcquire(now: int) returns (granted: bool)
      modifies this
      ensures granted == settings.Grants(old(State()), now)
      ensures State() == settings.Next(old(State()), now)
      ensures granted <==>
        settings.limit > 0 && (now - old(windowStart) >= settings.windowMs || old(count) < settings.limit)
    {
      if now - windowStart >= settings.windowMs {
        windowStart := now;
        count := 0;
      }
      if count >= settings.limit {
        return false;
      }
      count := count + 1;
      return true;
    }

    method Remaining(now: int) returns (r: int)
      ensures r == settings.Remaining(State(), now)
    {
      if now - windowStart >= settings.windowMs {
        return settings.limit;
      }
      r := if settings.limit - count > 0 then settings.limit - count else 0;
    }

    method Used(now: int) returns (r: nat)
      ensures r == settings.Current(State(), now).count
      ensures now - windowStart < settings.windowMs ==> r == count
      ensures now - windowStart >= settings.windowMs ==> r == 0
    {
      r := if now - windowStart >= settings.windowMs then 0 else count;
    }

    method Reset(now: int)
      modifies this
      ensures State() == Window(now, 0)
    {
      windowStart := now;
      count := 0;
    }
  }
}
