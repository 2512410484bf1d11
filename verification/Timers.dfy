/** When a timer of the epoll dispatcher fires next: exact, coarse or very coarse. */
module Timers {
  import opened Basics

  datatype TimerType = PreciseTimer | CoarseTimer | VeryCoarseTimer

  /** `struct timeval`. */
  datatype Time = Time(sec: int, usec: int) {
    predicate Valid() {
      0 <= usec < 1_000_000
    }

    function Micros(): int {
      1_000_000 * sec + usec
    }
  }

  /** `timeradd`, `timersub` and `timercmp`. */
  function Add(a: Time, b: Time): (r: Time)
    requires a.Valid() && b.Valid()
    ensures r.Valid() && r.Micros() == a.Micros() + b.Micros()
  {
    if a.usec + b.usec >= 1_000_000 then Time(a.sec + b.sec + 1, a.usec + b.usec - 1_000_000)
    else Time(a.sec + b.sec, a.usec + b.usec)
  }

  function Sub(a: Time, b: Time): (r: Time)
    requires a.Valid() && b.Valid()
    ensures r.Valid() && r.Micros() == a.Micros() - b.Micros()
  {
    if a.usec < b.usec then Time(a.sec - b.sec - 1, a.usec - b.usec + 1_000_000)
    else Time(a.sec - b.sec, a.usec - b.usec)
  }

  predicate Before(a: Time, b: Time) {
    if a.sec == b.sec then a.usec < b.usec else a.sec < b.sec
  }

  lemma BeforeIsLess(a: Time, b: Time)
    requires a.Valid() && b.Valid()
    ensures Before(a, b) <==> a.Micros() < b.Micros()
  {
  }

  /** How far a coarse timer may be moved, in milliseconds. */
  function Slack(interval: nat): nat {
    Max(interval / 20, 4)
  }

  /** What timers of an interval are rounded to: the largest listed number it is a multiple of, or 25. */
  function MeetingPoint(interval: nat): (b: nat)
    ensures Boundary(b)
  {
    var tmp := interval / 50;
    if interval % 500 == 0 then 500
    else if interval % 50 != 0 then 25
    else if tmp % 4 == 0 then 200
    else if tmp % 2 == 0 then 100
    else if tmp % 5 == 0 then 250
    else 50
  }

  /** The multiple of `b` that is the nearer one, or the limit on that side if it is out of reach. */
  function Nearest(start: int, min: int, max: int, b: nat): int
    requires b > 0
  {
    var lower := start - start % b;
    if start % b < b / 2 then Max(lower, min) else Min(lower + b, max)
  }

  /** No multiple within the limits is nearer by more than a millisecond, which only an odd number makes. */
  lemma NearestIsNearest(start: int, min: int, max: int, b: nat, m: int)
    requires b > 0 && min <= start <= max && min <= m <= max && m % b == 0
    ensures var n := Nearest(start, min, max, b);
            (if n >= start then n - start else start - n) <= (if m >= start then m - start else start - m) + b % 2
  {
    var r := start % b;
    Multiples(start, m, b);
    NearerSide(start, min, max, b, m, r);
  }

  lemma NearerSide(start: int, min: int, max: int, b: nat, m: int, r: int)
    requires b > 0 && min <= start <= max && min <= m <= max && 0 <= r < b && r == start % b
    requires if m > start then m >= start - r + b else m <= start - r
    ensures var n := Nearest(start, min, max, b);
            (if n >= start then n - start else start - n) <= (if m >= start then m - start else start - m) + b % 2
  {
  }

  /** Every multiple is at most the last one before, or at least the next. */
  lemma Multiples(start: int, m: int, b: nat)
    requires b > 0 && m % b == 0
    ensures if m > start then m >= start - start % b + b else m <= start - start % b
  {
    var k, n := start / b, m / b;
    assert start == b * k + start % b && m == b * n;
    if n <= k {
      Times(b, n, k);
    } else {
      Times(b, k + 1, n);
    }
  }

  lemma Times(b: nat, k: int, n: int)
    requires k <= n
    ensures b * k <= b * n && b * (k + 1) == b * k + b
  {
    assert b * (n - k) >= 0;
  }

  /** Where a coarse timer goes in its second. Short ones go to the multiple of 2 or 4 before, or on to the
      next from the second half of a stretch on, if that many are even; long ones to the whole second if it
      is within 5%, else as far as that allows towards what timers of their interval meet at. */
  function Rounded(interval: nat, start: int): int {
    var slack := interval / 20;
    if interval < 100 && interval % 25 != 0 then
      var n, stretch := if interval < 50 then 2 else 4, if interval < 50 then 50 else 100;
      n * (start / n + if start % stretch >= stretch / 2 && start / n % 2 == 0 then 1 else 0)
    else if start <= slack then 0
    else if start >= 1000 - slack then 1000
    else if interval % 500 == 0 && interval >= 5000 then if start >= 500 then start + slack else start - slack
    else Nearest(start, start - slack, start + slack, MeetingPoint(interval))
  }

  class TimerInfo {
    const interval: nat
    const kind: TimerType
    var when: Time

    /** A coarse timer that is very short is exact, one that is long is very coarse. */
    constructor (interval: nat, kind: TimerType, now: Time)
      requires interval > 0 && now.Valid()
      ensures this.interval == interval && when == now
      ensures this.kind == if kind == CoarseTimer && interval >= 20000 then VeryCoarseTimer
                           else if kind == CoarseTimer && interval <= 20 then PreciseTimer else kind
    {
      this.interval := interval;
      this.when := now;
      if kind == CoarseTimer && interval >= 20000 {
        this.kind := VeryCoarseTimer;
      } else if kind == CoarseTimer && interval <= 20 {
        this.kind := PreciseTimer;
      } else {
        this.kind := kind;
      }
    }

    /** The millisecond a coarse timer is moved to, within its second: near and on a round number. */
    method RoundMilliseconds(start: int) returns (msec: int)
      requires 20 < interval && 0 <= start < 1000
      ensures msec == Rounded(interval, start)
      ensures 0 <= msec <= 1000 && start - Slack(interval) <= msec <= start + Slack(interval)
      ensures interval < 100 && interval % 25 != 0 ==> start - 3 <= msec < 1000 && msec % 2 == 0
      ensures interval >= 100 || interval % 25 == 0 ==> start - interval / 20 <= msec <= start + interval / 20
      ensures interval >= 100 || interval % 25 == 0 ==>
                if start <= interval / 20 then msec == 0
                else if start >= 1000 - interval / 20 then msec == 1000
                else
                  msec % MeetingPoint(interval) == 0 || msec == start - interval / 20 || msec == start + interval / 20
    {
      if interval < 100 && interval % 25 != 0 {
        msec := RoundShort(start);
      } else {
        msec := RoundLong(start);
      }
    }

    /** Below 100 ms: to a multiple of 2 or 4. */
    method RoundShort(start: int) returns (msec: int)
      requires 20 < interval < 100 && interval % 25 != 0 && 0 <= start < 1000
      ensures msec == Rounded(interval, start)
      ensures 0 <= msec < 1000 && start - 3 <= msec <= start + 4 && msec % 2 == 0
    {
      msec := start;
      if interval < 50 {
        var roundUp := if msec % 50 >= 25 then 1 else 0;
        var half := Or(msec / 2, roundUp);
        assert msec / 2 <= half <= msec / 2 + 1;
        msec := half * 2;
      } else {
        var roundUp := if msec % 100 >= 50 then 1 else 0;
        var quarter := Or(msec / 4, roundUp);
        assert msec / 4 <= quarter <= msec / 4 + 1;
        msec := quarter * 4;
      }
    }

    /** Otherwise: to a whole second or a multiple of 25 ms, within 5%. */
    method RoundLong(start: int) returns (msec: int)
      requires 20 < interval && (interval >= 100 || interval % 25 == 0) && 0 <= start < 1000
      ensures msec == Rounded(interval, start)
      ensures 0 <= msec <= 1000 && start - interval / 20 <= msec <= start + interval / 20
      ensures if start <= interval / 20 then msec == 0
              else if start >= 1000 - interval / 20 then msec == 1000
              else msec % MeetingPoint(interval) == 0 || msec == start - interval / 20 || msec == start + interval / 20
    {
      msec := start;
      var maxRounding := interval / 20;
      var min := Max(0, msec - maxRounding);
      var max := Min(1000, msec + maxRounding);
      if min == 0 {
        return 0;
      } else if max == 1000 {
        return 1000;
      }
      var boundary := 25;
      if interval % 500 == 0 {
        if interval >= 5000 {
          return if msec >= 500 then max else min;
        } else {
          boundary := 500;
        }
      } else if interval % 50 == 0 {
        var tmp := interval / 50;
        if tmp % 4 == 0 {
          boundary := 200;
        } else if tmp % 2 == 0 {
          boundary := 100;
        } else if tmp % 5 == 0 {
          boundary := 250;
        } else {
          boundary := 50;
        }
      }
      msec := ToBoundary(msec, min, max, boundary);
    }

    /** `calculateCoarseTimerTimeout`: never before `now`, so the branch that catches up is not taken. */
    method CoarseTimeout(now: Time) returns (at: Time)
      requires now.Valid() && when.Valid() && interval > 20
      requires when.Micros() == now.Micros() + 1000 * interval
      ensures at.Valid() && now.Micros() < at.Micros()
      ensures at.Micros() == 1_000_000 * when.sec + 1000 * Rounded(interval, when.usec / 1000)
      ensures -1000 < at.Micros() - when.Micros() + 1000 * Slack(interval)
      ensures at.Micros() - when.Micros() <= 1000 * Slack(interval)
    {
      at := when;
      var msec := RoundMilliseconds(when.usec / 1000);
      if msec == 1000 {
        at := Time(at.sec + 1, 0);
      } else {
        at := at.(usec := msec * 1000);
      }
      BeforeIsLess(at, now);
      if Before(at, now) {
        // Catching up with the clock is never needed.
        assert false;
      }
    }

    /** `calculateNextTimeout`: the delay until the timer fires. A precise one waits its interval; a
        coarse one is at most 5% or 4 ms off, and a millisecond; a very coarse one goes by whole seconds,
        and its delay is positive if and only if the interval has one or the second is half over. */
    method CalculateNextTimeout(now: Time) returns (delta: Time)
      requires now.Valid() && interval > 0 && (kind == CoarseTimer ==> 20 < interval < 20000)
      modifies this`when
      ensures delta.Valid()
      ensures kind != VeryCoarseTimer ==> when.Micros() == now.Micros() + 1000 * interval
      ensures kind == PreciseTimer ==> delta.Micros() == 1000 * interval
      ensures kind == CoarseTimer ==>
                now.Micros() + delta.Micros() == 1_000_000 * when.sec + 1000 * Rounded(interval, when.usec / 1000)
      ensures kind == CoarseTimer ==>
                && delta.Micros() > 0
                && 1000 * interval - 1000 * Slack(interval) - 1000 < delta.Micros()
                && delta.Micros() <= 1000 * interval + 1000 * Slack(interval)
      ensures kind == VeryCoarseTimer ==>
                && (delta.Micros() > 0 <==> interval >= 1000 || now.usec >= 500_000)
                && -500_000 < delta.Micros() - 1_000_000 * (interval / 1000) <= 500_000
                && when.usec == 0 && when.Micros() == now.Micros() + delta.Micros()
    {
      var tvInterval := Time(interval / 1000, interval % 1000 * 1000);
      when := now;
      var tnow := now.sec * 1000 + now.usec / 1000;
      var twhen := when.sec * 1000 + when.usec / 1000;
      if (interval < 1000 && twhen - tnow > 1500) || (interval >= 1000 && 10 * (twhen - tnow) > 12 * interval) {
        // The clock cannot have gone back since `when` was set.
        assert false;
      }
      var at;
      if kind == VeryCoarseTimer {
        if when.usec >= 500_000 {
          when := when.(sec := when.sec + 1);
        }
        when := when.(usec := 0);
        when := when.(sec := when.sec + interval / 1000);
        if when.sec <= now.sec {
          when := when.(sec := now.sec + interval / 1000);
        }
        at := when;
      } else {
        when := Add(when, tvInterval);
        BeforeIsLess(when, now);
        if Before(when, now) {
          assert false;
        }
        if kind == PreciseTimer {
          at := when;
        } else {
          at := CoarseTimeout(now);
        }
      }
      delta := Sub(at, now);
    }
  }

  /** `a | b` for one bit. */
  function Or(a: nat, b: nat): (r: nat)
    requires b <= 1
    ensures r >= a && r <= a + b && (r % 2 == 1 || r == a)
  {
    if b == 1 && a % 2 == 0 then a + 1 else a
  }

  predicate Boundary(n: nat) {
    n == 25 || n == 50 || n == 100 || n == 200 || n == 250 || n == 500
  }

  /** The multiple of the boundary on the nearer side, as far as the limits allow. */
  method ToBoundary(start: int, min: int, max: int, boundary: nat) returns (msec: int)
    requires 0 < min <= start <= max < 1000 && Boundary(boundary)
    ensures msec == Nearest(start, min, max, boundary)
    ensures min <= msec <= max && (msec == min || msec == max || msec % boundary == 0)
  {
    var base := start / boundary * boundary;
    var middle := base + boundary / 2;
    msec := if start < middle then Max(base, min) else Min(base + boundary, max);
    assert start == start / boundary * boundary + start % boundary;
    assert (start / boundary + 1) * boundary == base + boundary;
    Multiple(start / boundary, boundary);
    Multiple(start / boundary + 1, boundary);
  }

  lemma Multiple(k: int, n: nat)
    requires Boundary(n)
    ensures k * n % n == 0
  {
    if n == 25 {
      assert k * n == 25 * k;
    } else if n == 50 {
      assert k * n == 50 * k;
    } else if n == 100 {
      assert k * n == 100 * k;
    } else if n == 200 {
      assert k * n == 200 * k;
    } else if n == 250 {
      assert k * n == 250 * k;
    } else if n == 500 {
      assert k * n == 500 * k;
    }
  }
}
