/**
  Fixed-window limiting (src/limiters.rs, `GlobalRateLimiter`, and the lookup tokens of
  src/ingestion.rs). Times are nanoseconds of a clock that never goes back.
*/
module RateLimiter {
  const SECOND := 1_000_000_000

  /** When the current window opened and how many grants it has given. */
  datatype Window = Window(start: int, used: nat)

  /** One call: when it is made and whether it asks for a grant or only lets time pass. */
  datatype Call = Call(time: int, takes: bool)

  function Refresh(w: Window, now: int): Window {
    if now - w.start >= SECOND then Window(now, 0) else w
  }

  predicate Grants(w: Window, c: Call, max: nat) {
    c.takes && Refresh(w, c.time).used < max
  }

  function After(w: Window, c: Call, max: nat): Window {
    var r := Refresh(w, c.time);
    if Grants(w, c, max) then r.(used := r.used + 1) else r
  }

  /** The number of grants given to `calls` at times from `a` to `b`, both included. */
  function Granted(w: Window, calls: seq<Call>, max: nat, a: int, b: int): nat
    decreases |calls|
  {
    if calls == [] then 0
    else
      var c := calls[0];
      (if Grants(w, c, max) && a <= c.time <= b then 1 else 0) + Granted(After(w, c, max), calls[1..], max, a, b)
  }

  /** Calls in the order of their times, none before the window opened. */
  ghost predicate InOrder(w: Window, calls: seq<Call>) {
    && (forall i :: 0 <= i < |calls| ==> w.start <= calls[i].time)
    && (forall i, j :: 0 <= i < j < |calls| ==> calls[i].time <= calls[j].time)
  }

  function CeilSeconds(d: nat): nat {
    (d + SECOND - 1) / SECOND
  }

  // ---------------------------------------------------------------- the code

  class GlobalRateLimiter {
    var window: Window
    const maxPerSecond: nat

    constructor (maxPerSecond: nat, now: int)
      ensures window == Window(now, 0) && this.maxPerSecond == maxPerSecond
    {
      this.window, this.maxPerSecond := Window(now, 0), maxPerSecond;
    }

    method Acquire(now: int) returns (granted: bool)
      requires window.start <= now && window.used <= maxPerSecond
      modifies this
      ensures window == After(old(window), Call(now, true), maxPerSecond)
      ensures granted == Grants(old(window), Call(now, true), maxPerSecond)
      ensures window.start <= now && window.used <= maxPerSecond
      ensures !granted ==> now - window.start < SECOND && window.used == maxPerSecond
      ensures window.start == if now - old(window.start) >= SECOND then now else old(window.start)
      ensures granted ==> window.used == 1 + if now - old(window.start) >= SECOND then 0 else old(window.used)
    {
      if now - window.start >= SECOND {
        window := window.(start := now);
        window := window.(used := 0);
      }
      if window.used < maxPerSecond {
        window := window.(used := window.used + 1);
        granted := true;
      } else {
        granted := false;
      }
    }
  }

  // ---------------------------------------------------------------- how many grants an interval sees

  lemma MulStep(max: nat, k: nat, n: nat)
    requires k + 1 <= n
    ensures max * k + max <= max * n
  {
    assert max * k + max == max * (k + 1);
    MulMonotone(max, k + 1, n);
  }

  lemma MulMonotone(max: nat, k: nat, n: nat)
    requires k <= n
    ensures max * k <= max * n
  {
  }

  lemma {:induction false} NoneAfter(w: Window, calls: seq<Call>, max: nat, a: int, b: int)
    requires forall i :: 0 <= i < |calls| ==> calls[i].time > b
    ensures Granted(w, calls, max, a, b) == 0
    decreases |calls|
  {
    if calls != [] {
      NoneAfter(After(w, calls[0], max), calls[1..], max, a, b);
    }
  }

  lemma GrantedNext(w: Window, c: Call, calls: seq<Call>, max: nat, a: int, b: int)
    ensures Granted(w, [c] + calls, max, a, b)
      == (if Grants(w, c, max) && a <= c.time <= b then 1 else 0) + Granted(After(w, c, max), calls, max, a, b)
  {
    assert ([c] + calls)[1..] == calls;
  }

  lemma InOrderRest(w: Window, calls: seq<Call>, max: nat)
    requires InOrder(w, calls) && calls != []
    ensures InOrder(After(w, calls[0], max), calls[1..])
  {
  }

  /** The first call is granted from what its window, or a new one, has left. */
  lemma {:induction false} GrantedFirst(w: Window, calls: seq<Call>, max: nat, a: int, b: int)
    requires calls != []
    ensures var c, next := calls[0], After(w, calls[0], max);
      && Granted(w, calls, max, a, b) <=
           next.used - Refresh(w, c.time).used + Granted(next, calls[1..], max, a, b)
      && next.start == Refresh(w, c.time).start
  {
  }

  /** From a window on: what it has left, and a full window for each second that follows. */
  lemma {:induction false} GrantedFrom(w: Window, calls: seq<Call>, max: nat, a: int, b: int)
    requires InOrder(w, calls) && w.used <= max && w.start <= b
    ensures Granted(w, calls, max, a, b) <= max - w.used + max * ((b - w.start) / SECOND)
    decreases |calls|
  {
    if calls != [] {
      var c := calls[0];
      InOrderRest(w, calls, max);
      if c.time > b {
        NoneAfter(w, calls, max, a, b);
      } else {
        var next := After(w, c, max);
        GrantedFrom(next, calls[1..], max, a, b);
        GrantedFirst(w, calls, max, a, b);
        if c.time - w.start >= SECOND {
          SecondsPass(b - c.time, b - w.start);
          MulStep(max, (b - c.time) / SECOND, (b - w.start) / SECOND);
        }
      }
    }
  }

  lemma SecondsPass(d: nat, e: nat)
    requires d + SECOND <= e
    ensures d / SECOND + 1 <= e / SECOND
  {
    assert (d + SECOND) / SECOND == d / SECOND + 1;
  }

  /**
    Any closed interval of length `b - a` sees at most `max` grants for each second it begins, and
    `max` more from a window that was open when it began.
  */
  lemma {:induction false} AtMost(w: Window, calls: seq<Call>, max: nat, a: int, b: int)
    requires InOrder(w, calls) && w.used <= max && a <= b
    ensures Granted(w, calls, max, a, b) <= max * (CeilSeconds(b - a) + 1)
    decreases |calls|
  {
    if calls == [] {
    } else if calls[0].time < a {
      InOrderRest(w, calls, max);
      AtMost(After(w, calls[0], max), calls[1..], max, a, b);
    } else if calls[0].time > b {
      NoneAfter(w, calls, max, a, b);
    } else {
      FirstInside(w, calls, max, a, b);
    }
  }

  lemma FirstInside(w: Window, calls: seq<Call>, max: nat, a: int, b: int)
    requires InOrder(w, calls) && w.used <= max && calls != [] && a <= calls[0].time <= b
    ensures Granted(w, calls, max, a, b) <= max * (CeilSeconds(b - a) + 1)
  {
    var v := Refresh(w, calls[0].time);
    assert InOrder(v, calls);
    assert Granted(v, calls, max, a, b) == Granted(w, calls, max, a, b);
    GrantedFrom(v, calls, max, a, b);
    WholeSeconds(b - v.start, b - a);
    MulMonotone(max, (b - v.start) / SECOND, CeilSeconds(b - a));
    assert max + max * CeilSeconds(b - a) == max * (CeilSeconds(b - a) + 1);
  }

  lemma WholeSeconds(d: nat, e: nat)
    requires d <= e + SECOND - 1
    ensures d / SECOND <= CeilSeconds(e)
  {
  }

  /** The bound as usually stated: `max` for each whole second, and two windows more. */
  lemma AtMostFloor(w: Window, calls: seq<Call>, max: nat, a: int, b: int)
    requires InOrder(w, calls) && w.used <= max && a <= b
    ensures Granted(w, calls, max, a, b) <= max * ((b - a) / SECOND + 2)
  {
    AtMost(w, calls, max, a, b);
    assert CeilSeconds(b - a) + 1 <= (b - a) / SECOND + 2;
    MulMonotone(max, CeilSeconds(b - a) + 1, (b - a) / SECOND + 2);
  }

  // ---------------------------------------------------------------- the bound is reached

  function Burst(time: int, n: nat): seq<Call> {
    seq(n, _ => Call(time, true))
  }

  /** A burst just before the first window closes, then one at the start of each of `k` more. */
  function Bursts(max: nat, from: nat, k: nat): seq<Call>
    decreases k
  {
    if k == 0 then [] else Burst(from * SECOND, max) + Bursts(max, from + 1, k - 1)
  }

  lemma {:induction false} BurstGranted(w: Window, t: int, n: nat, rest: seq<Call>, max: nat, a: int, b: int)
    requires w.used + n <= max && t - w.start < SECOND && a <= t <= b
    ensures Granted(w, Burst(t, n) + rest, max, a, b) == n + Granted(w.(used := w.used + n), rest, max, a, b)
    decreases n
  {
    if n == 0 {
      assert Burst(t, n) + rest == rest;
    } else {
      assert (Burst(t, n) + rest)[1..] == Burst(t, n - 1) + rest;
      BurstGranted(w.(used := w.used + 1), t, n - 1, rest, max, a, b);
    }
  }

  lemma {:induction false} BurstsGranted(w: Window, max: nat, from: nat, k: nat, a: int, b: int)
    requires max > 0 && w.used <= max && w.start <= (from - 1) * SECOND
    requires a <= from * SECOND && (from + k) * SECOND <= b + SECOND
    ensures Granted(w, Bursts(max, from, k), max, a, b) == max * k
    decreases k
  {
    if k > 0 {
      var t, rest := from * SECOND, Bursts(max, from + 1, k - 1);
      var calls := Burst(t, max) + rest;
      assert Granted(w, calls, max, a, b) == Granted(Window(t, 0), calls, max, a, b);
      BurstGranted(Window(t, 0), t, max, rest, max, a, b);
      BurstsGranted(Window(t, max), max, from + 1, k - 1, a, b);
      assert max + max * (k - 1) == max * k;
    }
  }

  /** For every length of interval some history reaches the bound. */
  lemma BoundReached(max: nat, length: nat)
    requires max > 0
    ensures exists calls ::
      && InOrder(Window(0, 0), calls)
      && Granted(Window(0, 0), calls, max, SECOND - 1, SECOND - 1 + length) == max * (CeilSeconds(length) + 1)
  {
    var k := CeilSeconds(length);
    var a, b := SECOND - 1, SECOND - 1 + length;
    var rest := Bursts(max, 1, k);
    var calls := Burst(a, max) + rest;
    assert k * SECOND <= b;
    BurstGranted(Window(0, 0), a, max, rest, max, a, b);
    BurstsGranted(Window(0, max), max, 1, k, a, b);
    BurstsInOrder(max, 1, k);
    assert InOrder(Window(0, 0), calls);
    assert max + max * k == max * (k + 1);
  }

  lemma {:induction false} BurstsInOrder(max: nat, from: nat, k: nat)
    ensures forall i :: 0 <= i < |Bursts(max, from, k)| ==> from * SECOND <= Bursts(max, from, k)[i].time
    ensures forall i, j :: 0 <= i < j < |Bursts(max, from, k)| ==>
      Bursts(max, from, k)[i].time <= Bursts(max, from, k)[j].time
    decreases k
  {
    if k > 0 {
      BurstsInOrder(max, from + 1, k - 1);
    }
  }
}
