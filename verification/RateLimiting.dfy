/** The fixed-window request limiter, and what it guarantees over intervals that are not its windows. */
module RateLimiting {

  /** One second, in nanoseconds. */
  const WINDOW: int := 1_000_000_000

  datatype Window = Window(start: int, count: nat)

  /** `RateLimiter::check` at a clock reading. */
  function Checked(w: Window, burst: nat, now: int): (Window, bool) {
    var w1 := if now - w.start >= WINDOW then Window(now, 0) else w;
    if w1.count < burst then (w1.(count := w1.count + 1), true) else (w1, false)
  }

  function CheckAll(w: Window, burst: nat, readings: seq<int>): Window
    decreases |readings|
  {
    if readings == [] then w else CheckAll(Checked(w, burst, readings[0]).0, burst, readings[1..])
  }

  /** How many requests of a run are accepted at a reading in `[from, from + one second)`. */
  function AcceptedWithin(w: Window, burst: nat, readings: seq<int>, from: int): nat
    decreases |readings|
  {
    if readings == [] then 0
    else
      var (w1, ok) := Checked(w, burst, readings[0]);
      (if ok && from <= readings[0] < from + WINDOW then 1 else 0) + AcceptedWithin(w1, burst, readings[1..], from)
  }

  /** Readings of a clock that never goes back, the first of them no earlier than the window's start. */
  ghost predicate Forward(start: int, readings: seq<int>)
    decreases |readings|
  {
    readings != [] ==> start <= readings[0] && Forward(readings[0], readings[1..])
  }

  lemma {:induction false} ForwardAfter(start: int, earlier: int, readings: seq<int>)
    requires Forward(start, readings) && earlier <= start
    ensures Forward(earlier, readings)
  {}

  /** A request resets the window only a full second after the last reset. */
  lemma {:induction false} WindowsAreApart(w: Window, burst: nat, readings: seq<int>)
    requires Forward(w.start, readings)
    ensures var end := CheckAll(w, burst, readings);
            end.start == w.start || end.start >= w.start + WINDOW
    decreases |readings|
  {
    if readings != [] {
      var w1 := Checked(w, burst, readings[0]).0;
      ForwardAfter(readings[0], w1.start, readings[1..]);
      WindowsAreApart(w1, burst, readings[1..]);
    }
  }

  lemma {:induction false} NothingAfter(w: Window, burst: nat, readings: seq<int>, from: int)
    requires Forward(from + WINDOW, readings)
    ensures AcceptedWithin(w, burst, readings, from) == 0
    decreases |readings|
  {
    if readings != [] {
      ForwardAfter(readings[0], from + WINDOW, readings[1..]);
      NothingAfter(Checked(w, burst, readings[0]).0, burst, readings[1..], from);
    }
  }

  /** A window that starts inside the interval lasts to its end. */
  lemma {:induction false} OneWindow(w: Window, burst: nat, readings: seq<int>, from: int)
    requires Forward(w.start, readings) && w.count <= burst && w.start >= from
    ensures AcceptedWithin(w, burst, readings, from) <= burst - w.count
    decreases |readings|
  {
    if readings != [] {
      var now, w1 := readings[0], Checked(w, burst, readings[0]).0;
      if now >= from + WINDOW {
        NothingAfter(w1, burst, readings[1..], from);
      } else {
        ForwardAfter(now, w1.start, readings[1..]);
        OneWindow(w1, burst, readings[1..], from);
      }
    }
  }

  /** Inside the interval, a window that started before it is followed by at most one more. */
  lemma {:induction false} TwoWindows(w: Window, burst: nat, readings: seq<int>, from: int)
    requires Forward(w.start, readings) && Forward(from, readings) && w.count <= burst
    ensures AcceptedWithin(w, burst, readings, from) <= burst - w.count + burst
    decreases |readings|
  {
    if w.start >= from {
      OneWindow(w, burst, readings, from);
    } else if readings != [] {
      var now, w1 := readings[0], Checked(w, burst, readings[0]).0;
      ForwardAfter(now, w1.start, readings[1..]);
      ForwardAfter(now, from, readings[1..]);
      if now - w.start >= WINDOW {
        OneWindow(w1, burst, readings[1..], from);
      } else {
        TwoWindows(w1, burst, readings[1..], from);
      }
    }
  }

  /**
   However requests arrive, no second of wall time - wherever it starts - sees more than twice
   the burst accepted.
   */
  lemma {:induction false} TwiceTheBurst(w: Window, burst: nat, readings: seq<int>, from: int)
    requires Forward(w.start, readings) && w.count <= burst
    ensures AcceptedWithin(w, burst, readings, from) <= 2 * burst
    decreases |readings|
  {
    if readings != [] {
      if readings[0] >= from {
        TwoWindows(w, burst, readings, from);
      } else {
        var w1 := Checked(w, burst, readings[0]).0;
        ForwardAfter(readings[0], w1.start, readings[1..]);
        TwiceTheBurst(w1, burst, readings[1..], from);
      }
    }
  }

  /* ---------- nothing is refused without need ---------- */

  lemma {:induction false} AcceptedMore(w: Window, burst: nat, readings: seq<int>, now: int, from: int)
    ensures AcceptedWithin(w, burst, readings + [now], from) ==
            AcceptedWithin(w, burst, readings, from)
            + if Checked(CheckAll(w, burst, readings), burst, now).1 && from <= now < from + 1_000_000_000 then 1 else 0
    ensures CheckAll(w, burst, readings + [now]) == Checked(CheckAll(w, burst, readings), burst, now).0
    decreases |readings|
  {
    if readings == [] {
      assert readings + [now] == [now] && [now][1..] == [];
    } else {
      assert (readings + [now])[1..] == readings[1..] + [now];
      AcceptedMore(Checked(w, burst, readings[0]).0, burst, readings[1..], now, from);
    }
  }

  lemma {:induction false} ForwardInit(start: int, readings: seq<int>, now: int)
    requires Forward(start, readings + [now])
    ensures Forward(start, readings)
    ensures readings != [] ==> start <= readings[|readings| - 1] <= now
    ensures start <= now
    decreases |readings|
  {
    if readings == [] {
      assert readings + [now] == [now];
    } else {
      assert (readings + [now])[1..] == readings[1..] + [now];
      ForwardInit(readings[0], readings[1..], now);
    }
  }

  /** The window's count is of requests accepted at or after its start, all of them within the last reading's second. */
  lemma {:induction false} WindowCounts(start: int, burst: nat, readings: seq<int>, from: int)
    requires Forward(start, readings)
    requires var w := CheckAll(Window(start, 0), burst, readings);
             from <= w.start && (readings != [] ==> readings[|readings| - 1] < from + 1_000_000_000)
    ensures AcceptedWithin(Window(start, 0), burst, readings, from) >= CheckAll(Window(start, 0), burst, readings).count
    decreases |readings|
  {
    if readings != [] {
      var init, now := readings[..|readings| - 1], readings[|readings| - 1];
      assert readings == init + [now];
      ForwardInit(start, init, now);
      AcceptedMore(Window(start, 0), burst, init, now, from);
      var before := CheckAll(Window(start, 0), burst, init);
      if now - before.start < 1_000_000_000 {
        WindowCounts(start, burst, init, from);
      }
      WindowStart(start, burst, init, now);
    }
  }

  lemma {:induction false} WindowStart(start: int, burst: nat, readings: seq<int>, now: int)
    requires Forward(start, readings + [now])
    ensures start <= CheckAll(Window(start, 0), burst, readings).start <= now
    decreases |readings|
  {
    if readings != [] {
      var init, last := readings[..|readings| - 1], readings[|readings| - 1];
      assert readings == init + [last];
      ForwardInit(start, readings, now);
      WindowStart(start, burst, init, last);
      AcceptedMore(Window(start, 0), burst, init, last, 0);
    }
  }

  /** A request is refused only when as many as the burst were accepted within the second up to it. */
  lemma RefusedMeansFull(start: int, burst: nat, readings: seq<int>, now: int)
    requires Forward(start, readings + [now])
    requires !Checked(CheckAll(Window(start, 0), burst, readings), burst, now).1
    ensures AcceptedWithin(Window(start, 0), burst, readings, now - 1_000_000_000 + 1) >= burst
  {
    var w := CheckAll(Window(start, 0), burst, readings);
    ForwardInit(start, readings, now);
    if burst > 0 {
      assert now - w.start < 1_000_000_000 && w.count >= burst;
      WindowCounts(start, burst, readings, now - 1_000_000_000 + 1);
    }
  }

  /* ---------- the bound is met ---------- */

  function Repeated(now: int, n: nat): seq<int>
    decreases n
  {
    if n == 0 then [] else [now] + Repeated(now, n - 1)
  }

  lemma {:induction false} RepeatedForward(start: int, now: int, n: nat, rest: seq<int>)
    requires start <= now && Forward(now, rest)
    ensures Forward(start, Repeated(now, n) + rest)
    decreases n
  {
    if n == 0 {
      assert Repeated(now, 0) + rest == rest;
      ForwardAfter(now, start, rest);
    } else {
      RepeatedForward(now, now, n - 1, rest);
      assert (Repeated(now, n) + rest)[1..] == Repeated(now, n - 1) + rest;
    }
  }

  lemma {:induction false} RepeatedAccepted(w: Window, burst: nat, now: int, n: nat, rest: seq<int>, from: int)
    requires now - w.start < WINDOW && w.count + n <= burst && from <= now < from + WINDOW
    ensures AcceptedWithin(w, burst, Repeated(now, n) + rest, from)
            == n + AcceptedWithin(Window(w.start, w.count + n), burst, rest, from)
    decreases n
  {
    if n == 0 {
      assert Repeated(now, 0) + rest == rest;
    } else {
      RepeatedAccepted(Window(w.start, w.count + 1), burst, now, n - 1, rest, from);
      assert (Repeated(now, n) + rest)[1..] == Repeated(now, n - 1) + rest;
    }
  }

  /** A burst just before a window ends and another just after fall into one second. */
  lemma BoundIsMet(burst: nat)
    requires burst > 0
    ensures exists readings, from :: Forward(0, readings) && AcceptedWithin(Window(0, 0), burst, readings, from) == 2 * burst
  {
    var late, next := Repeated(WINDOW - 1, burst), Repeated(WINDOW, burst);
    assert next + [] == next;
    RepeatedForward(WINDOW - 1, WINDOW, burst, []);
    RepeatedForward(0, WINDOW - 1, burst, next);
    RepeatedAccepted(Window(0, 0), burst, WINDOW - 1, burst, next, WINDOW - 1);
    assert next[1..] == Repeated(WINDOW, burst - 1) + [];
    RepeatedAccepted(Window(WINDOW, 1), burst, WINDOW, burst - 1, [], WINDOW - 1);
    assert AcceptedWithin(Window(0, burst), burst, next, WINDOW - 1) == burst;
    assert Forward(0, late + next) && AcceptedWithin(Window(0, 0), burst, late + next, WINDOW - 1) == 2 * burst;
  }

  /* ---------- the limiter ---------- */

  class RateLimiter {
    var start: int
    var count: nat
    const burst: nat

    function State(): Window
      reads this
    {
      Window(start, count)
    }

    constructor (burst: nat, now: int)
      ensures State() == Window(now, 0) && this.burst == burst
    {
      start, count, this.burst := now, 0, burst;
    }

    method Check(now: int) returns (ok: bool)
      modifies this
      ensures (State(), ok) == Checked(old(State()), burst, now)
    {
      if now - start >= WINDOW {
        start, count := now, 0;
      }
      if count < burst {
        count := count + 1;
        ok := true;
      } else {
        ok := false;
      }
    }
  }
}
