/** Two small helpers of the IP adapter: the flag arithmetic of
    oc_set_fd_flags and the integer part of to_timeval. */
module FdUtil {
  import opened Common

  /** What oc_set_fd_flags did: whether it returned the flags (`ok`) or -1,
      the flags it returned, and the flags it passed to fcntl(F_SETFL), if it
      made that call.  C `int` values are kept as their 32-bit patterns. */
  datatype FdFlagsOutcome = FdFlagsOutcome(ok: bool, flags: bv32, written: Option<bv32>)

  /** A C `int` below zero: its sign bit is set. */
  predicate Negative(x: bv32) {
    x & 0x8000_0000 != 0
  }

  /** The flags after removing `toRemove` and then adding `toAdd`. */
  function Updated(prior: bv32, toAdd: bv32, toRemove: bv32): bv32 {
    (prior & !toRemove) | toAdd
  }

  /** oc_set_fd_flags on a descriptor whose F_GETFL answered `current` and
      whose F_SETFL succeeds iff `setSucceeds`: -1 when F_GETFL failed (a
      negative answer), the old flags without a second call when nothing
      changes, else the new flags or -1 depending on F_SETFL. */
  function SetFdFlags(current: bv32, toAdd: bv32, toRemove: bv32, setSucceeds: bool): (r: FdFlagsOutcome)
    ensures !r.ok <==> Negative(current) || (Updated(current, toAdd, toRemove) != current && !setSucceeds)
    ensures r.ok ==> r.flags == Updated(current, toAdd, toRemove)
    ensures r.written.Some? <==> !Negative(current) && Updated(current, toAdd, toRemove) != current
    ensures r.written.Some? ==> r.written.value == Updated(current, toAdd, toRemove)
  {
    if Negative(current) then FdFlagsOutcome(false, 0, None)
    else
      var flags := Updated(current, toAdd, toRemove);
      if flags == current then FdFlagsOutcome(true, current, None)
      else if !setSucceeds then FdFlagsOutcome(false, 0, Some(flags))
      else FdFlagsOutcome(true, flags, Some(flags))
  }

  /** The flags returned carry every added bit, none of the removed bits that
      are not also added, and every other bit as it was. */
  lemma SetFdFlagsBits(current: bv32, toAdd: bv32, toRemove: bv32, setSucceeds: bool)
    ensures var r := SetFdFlags(current, toAdd, toRemove, setSucceeds);
      r.ok ==>
        r.flags & toAdd == toAdd
        && r.flags & (toRemove & !toAdd) == 0
        && r.flags & !(toAdd | toRemove) == current & !(toAdd | toRemove)
  {
  }

  /** Applying the same update to its own (non-negative) result changes
      nothing and makes no F_SETFL call. */
  lemma SetFdFlagsIdempotent(current: bv32, toAdd: bv32, toRemove: bv32, setSucceeds: bool, again: bool)
    requires SetFdFlags(current, toAdd, toRemove, setSucceeds).ok
    ensures var r := SetFdFlags(current, toAdd, toRemove, setSucceeds);
      !Negative(r.flags) ==> SetFdFlags(r.flags, toAdd, toRemove, again) == FdFlagsOutcome(true, r.flags, None)
  {
  }

  /** A select timeout: seconds and microseconds. */
  datatype Timeval = Timeval(sec: Uint32, usec: Uint32)

  /** to_timeval in integer form for a clock of `clockSecond` ticks per
      second: whole seconds (cast to a 32-bit unsigned), the remaining ticks
      in microseconds, and one microsecond when both are zero. */
  function ToTimeval(ticks: nat, clockSecond: nat): (r: Timeval)
    requires clockSecond > 0
    ensures r.sec != 0 || r.usec != 0
    ensures r.usec < 1000000
    ensures r.sec == (ticks / clockSecond) % 0x1_0000_0000
  {
    var sec := (ticks / clockSecond) % 0x1_0000_0000;
    var usec := (ticks % clockSecond) * 1000000 / clockSecond;
    assert usec < 1000000 by {
      assert (ticks % clockSecond) * 1000000 < clockSecond * 1000000;
    }
    if sec == 0 && usec == 0 then Timeval(0, 1) else Timeval(sec, usec)
  }

  /** When a second is a whole number of microsecond steps and no wrap
      occurs, the timeout is exactly the tick count in microseconds. */
  lemma ToTimevalExact(ticks: nat, clockSecond: nat)
    requires clockSecond > 0 && 1000000 % clockSecond == 0
    requires ticks > 0 && ticks / clockSecond < 0x1_0000_0000
    ensures var t := ToTimeval(ticks, clockSecond);
      t.sec * 1000000 + t.usec == ticks * (1000000 / clockSecond)
  {
    var q := ticks / clockSecond;
    var m := ticks % clockSecond;
    var step := 1000000 / clockSecond;
    assert 1000000 == step * clockSecond;
    assert ticks == q * clockSecond + m;
    ScaledRemainder(m, step, clockSecond);
    SplitTicks(q, m, step, clockSecond);
    if q == 0 {
      assert m > 0 && step > 0;
      PositiveProduct(m, step);
    }
    assert q % 0x1_0000_0000 == q;
    assert ToTimeval(ticks, clockSecond) == Timeval(q, m * step);
  }

  /** The remaining ticks in microseconds, when a second is `step * c` of them. */
  lemma ScaledRemainder(m: nat, step: nat, c: nat)
    requires c > 0 && step * c == 1000000
    ensures m * 1000000 / c == m * step
  {
    assert m * 1000000 == (m * step) * c by {
      assert m * (step * c) == (m * step) * c;
    }
  }

  /** Whole seconds plus the remainder, scaled by `step`. */
  lemma SplitTicks(q: nat, m: nat, step: nat, c: nat)
    requires step * c == 1000000
    ensures q * 1000000 + m * step == (q * c + m) * step
  {
    assert (q * c) * step == q * (step * c);
  }

  lemma PositiveProduct(a: nat, b: nat)
    requires a > 0 && b > 0
    ensures a * b > 0
  {
  }

}
