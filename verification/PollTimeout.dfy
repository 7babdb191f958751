/** How long the loop sleeps: uv__next_timeout (src/unix/timer.c), uv_backend_timeout
    (src/unix/core.c) and the timeout bookkeeping of uv__io_poll (src/unix/linux-core.c).
    The kernel's answers are a script of outcomes, each with the clock read after it. */
module PollTimeout {
  import opened Options

  const INT_MAX := 0x7FFF_FFFF
  const TWO31 := 0x8000_0000
  const TWO32 := 0x1_0000_0000
  const MAX_SAFE_TIMEOUT := 1789569

  /** uv__next_timeout, given the timeout of the first timer. */
  function NextTimeout(first: Option<nat>, time: nat): int {
    match first
    case None => -1
    case Some(due) => if due <= time then 0 else if due - time > INT_MAX then INT_MAX else due - time
  }

  /** uv_backend_timeout; `busy` stands for the five conditions that forbid sleeping. */
  function BackendTimeout(busy: bool, first: Option<nat>, time: nat): int {
    if busy then 0 else NextTimeout(first, time)
  }

  /** The conversion of the 64-bit difference back to `int`. */
  function Int32(x: int): int { (x + TWO31) % TWO32 - TWO31 }

  datatype Outcome =
    | Expired(now: nat)
    | Interrupted(now: nat)
    | NoSys(now: nat)
    | Ready(now: nat, nevents: nat, full: bool, signals: bool)

  datatype Wait = Wait(now: nat, timeout: int)

  /** The capping at lines 262-263. */
  function Capped(long32: bool, timeout: int): int {
    if long32 && timeout >= MAX_SAFE_TIMEOUT then MAX_SAFE_TIMEOUT else timeout
  }

  /** What the loop does after one kernel answer: stop, or poll again with a new timeout. */
  datatype Next = Return | Again(timeout: int, left: int, count: int)

  function Update(left: int, base: nat, now: nat, count: int): Next {
    var r := Int32(left - (now - base));
    if r <= 0 then Return else Again(r, r, count)
  }

  function After(o: Outcome, timeout: int, left: int, base: nat, count: int): Next {
    match o
    case Expired(now) =>
      // A wait without end does not expire; the source asserts so.
      if timeout == -1 || timeout == 0 then Return else Update(left, base, now, count)
    case NoSys(_) => Again(timeout, left, count)
    case Interrupted(now) =>
      if timeout == -1 then Again(timeout, left, count)
      else if timeout == 0 then Return else Update(left, base, now, count)
    case Ready(now, nevents, full, signals) =>
      if signals then Return
      else if nevents != 0 then (if full && count - 1 != 0 then Again(0, left, count - 1) else Return)
      else if timeout == 0 then Return
      else if timeout == -1 then Again(timeout, left, count)
      else Update(left, base, now, count)
  }

  /** The sleeps requested from the kernel, in order. */
  function Waits(script: seq<Outcome>, long32: bool, timeout: int, left: int, base: nat, now: nat, count: int): seq<Wait> {
    var t := Capped(long32, timeout);
    [Wait(now, t)] +
    if script == [] then []
    else match After(script[0], t, left, base, count)
         case Return => []
         case Again(t', r', c') => Waits(script[1..], long32, t', r', base, script[0].now, c')
  }

  lemma WaitsFirst(script: seq<Outcome>, i: nat, long32: bool, timeout: int, left: int, base: nat, now: nat, count: int)
    requires i <= |script|
    ensures var t := Capped(long32, timeout);
            var rest := if i == |script| then []
                        else match After(script[i], t, left, base, count)
                             case Return => []
                             case Again(t', r', c') => Waits(script[i + 1..], long32, t', r', base, script[i].now, c');
            var all := Waits(script[i..], long32, timeout, left, base, now, count);
            all == [Wait(now, t)] + rest && all[1..] == rest
  {
    if i < |script| { assert script[i..][0] == script[i] && script[i..][1..] == script[i + 1..]; }
  }

  /** The loop at lines 253-427. */
  method IoPoll(timeout0: int, time: nat, long32: bool, script: seq<Outcome>) returns (waits: seq<Wait>)
    requires timeout0 >= -1
    ensures waits == Waits(script, long32, timeout0, timeout0, time, time, 48)
  {
    hide Waits, Int32;
    var timeout, base, now, count, real_timeout := timeout0, time, time, 48, timeout0;
    waits := [];
    var i := 0;
    ghost var all := Waits(script, long32, timeout0, timeout0, time, time, 48);
    assert script[0..] == script;
    while true
      invariant 0 <= i <= |script|
      invariant all == waits + Waits(script[i..], long32, timeout, real_timeout, base, now, count)
      decreases |script| - i
    {
      WaitsFirst(script, i, long32, timeout, real_timeout, base, now, count);
      ghost var rest := Waits(script[i..], long32, timeout, real_timeout, base, now, count);
      if long32 && timeout >= MAX_SAFE_TIMEOUT {
        timeout := MAX_SAFE_TIMEOUT;
      }
      assert rest == [Wait(now, timeout)] + rest[1..];
      assert all == (waits + [Wait(now, timeout)]) + rest[1..];
      waits := waits + [Wait(now, timeout)];
      if i == |script| {
        return;
      }
      ghost var next := After(script[i], timeout, real_timeout, base, count);
      now := script[i].now;
      var update := true;
      match script[i] {
        case Expired(_) =>
          if timeout == -1 || timeout == 0 {
            return;
          }
        case NoSys(_) =>
          update := false;
        case Interrupted(_) =>
          if timeout == -1 {
            update := false;
          } else if timeout == 0 {
            return;
          }
        case Ready(_, nevents, full, signals) =>
          if signals {
            return;
          }
          if nevents != 0 {
            if !full {
              return;
            }
            if count - 1 == 0 {
              return;
            }
            count := count - 1;
            timeout := 0;
            update := false;
          } else if timeout == 0 {
            return;
          } else if timeout == -1 {
            update := false;
          }
      }
      if update {
        real_timeout := Int32(real_timeout - (now - base));
        if real_timeout <= 0 {
          return;
        }
        timeout := real_timeout;
      }
      assert next == Again(timeout, real_timeout, count);
      assert rest[1..] == Waits(script[i + 1..], long32, timeout, real_timeout, base, now, count);
      i := i + 1;
    }
  }

  // ---------------------------------------------------------------- when no wait outlasts the first timer

  ghost predicate InTime(waits: seq<Wait>, deadline: nat) {
    forall i :: 0 <= i < |waits| && waits[i].timeout > 0 ==> waits[i].now + waits[i].timeout <= deadline
  }

  /** The clock never goes back. */
  ghost predicate Monotone(script: seq<Outcome>, now: nat) {
    script == [] || (now <= script[0].now && Monotone(script[1..], script[0].now))
  }

  /** The answer leads to the recomputation at lines 422-426, given a positive timeout. */
  predicate Recomputes(o: Outcome) {
    o.Expired? || o.Interrupted? || (o.Ready? && !o.signals && o.nevents == 0)
  }

  /** What was left is negative after `elapsed`, and comes out as a positive `int`. */
  predicate Overflows(left: int, elapsed: int) { elapsed > left && (elapsed - left) % TWO32 > TWO31 }

  /** What the recomputation gives: what is left, or the wrapped difference, or 0 for the end of the poll. */
  function Remaining(left: int, elapsed: int): int {
    if elapsed < left then left - elapsed
    else if Overflows(left, elapsed) then TWO32 - (elapsed - left) % TWO32
    else 0
  }

  /** The two ways past a deadline: the clock moves while a missing system call is found out, after which
      the old timeout is used again, and a recomputation that wraps. */
  predicate Late(script: seq<Outcome>, long32: bool, timeout: int, left: int, base: nat, deadline: nat) {
    timeout > 0 && script != [] &&
    var t, o := Capped(long32, timeout), script[0];
    if o.NoSys? then
      o.now + t > deadline || Late(script[1..], long32, t, left, base, deadline)
    else
      Recomputes(o) &&
      var r := Remaining(left, o.now - base);
      || (Overflows(left, o.now - base) && o.now + Capped(long32, r) > deadline)
      || Late(script[1..], long32, r, r, base, deadline)
  }

  lemma Int32Exact(x: int)
    requires -TWO31 <= x < TWO31
    ensures Int32(x) == x
  {}

  lemma Int32Negative(d: int)
    requires d >= 0
    ensures Int32(-d) == if d % TWO32 <= TWO31 then -(d % TWO32) else TWO32 - d % TWO32
  {
    var m := d % TWO32;
    assert (-d + TWO31) % TWO32 == (-m + TWO31) % TWO32 by { ModShift(-m + TWO31, -(d / TWO32)); }
  }

  lemma {:induction false} ModShift(x: int, k: int)
    ensures (x + k * TWO32) % TWO32 == x % TWO32
    decreases if k < 0 then -k else k
  {
    if k > 0 { ModShift(x, k - 1); assert (x + (k - 1) * TWO32 + TWO32) % TWO32 == (x + (k - 1) * TWO32) % TWO32; }
    else if k < 0 { ModShift(x, k + 1); assert (x + (k + 1) * TWO32 - TWO32) % TWO32 == (x + (k + 1) * TWO32) % TWO32; }
  }

  /** The 32-bit recomputation in closed form. */
  lemma UpdateIs(left: int, base: nat, now: nat, count: int)
    requires 0 < left <= INT_MAX && base <= now
    ensures var r := Remaining(left, now - base);
            0 <= r <= INT_MAX && Update(left, base, now, count) == if r == 0 then Return else Again(r, r, count)
  {
    var e := now - base;
    if e <= left { Int32Exact(left - e); } else { Int32Negative(e - left); }
  }

  lemma InTimeFirst(w: Wait, rest: seq<Wait>, deadline: nat)
    ensures InTime([w] + rest, deadline) <==> (w.timeout > 0 ==> w.now + w.timeout <= deadline) && InTime(rest, deadline)
  {
    var all := [w] + rest;
    assert all[0] == w && forall i :: 0 <= i < |rest| ==> all[i + 1] == rest[i];
    if InTime(all, deadline) {
      forall i | 0 <= i < |rest| && rest[i].timeout > 0 ensures rest[i].now + rest[i].timeout <= deadline {
        assert all[i + 1] == rest[i];
      }
    }
  }

  lemma NoWaits(deadline: nat)
    ensures InTime([], deadline)
  {}

  /** A first wait that ends too late. */
  lemma LateWait(script: seq<Outcome>, long32: bool, timeout: int, left: int, base: nat, now: nat, count: int, deadline: nat)
    requires timeout > 0 && now + Capped(long32, timeout) > deadline
    ensures !InTime(Waits(script, long32, timeout, left, base, now, count), deadline)
  {
    var waits := Waits(script, long32, timeout, left, base, now, count);
    assert waits[0] == Wait(now, Capped(long32, timeout));
  }

  /** A wrapped remainder that is not too late leaves room for every later recomputation. */
  lemma WrappedRoom(long32: bool, left: int, base: nat, now: nat, deadline: nat)
    requires 0 < left && base <= now && Overflows(left, now - base)
    requires now + Capped(long32, Remaining(left, now - base)) <= deadline
    ensures base + Remaining(left, now - base) <= deadline
  {
    var d := now - base - left;
    assert d >= d % TWO32;
  }

  /** Exactly when every positive sleep of a poll ends by the deadline, from any point of the poll. */
  lemma {:induction false} InTimeIff(script: seq<Outcome>, long32: bool, timeout: int, left: int,
                                     base: nat, now: nat, count: int, deadline: nat)
    requires Monotone(script, now) && base <= now && timeout >= 0
    requires timeout > 0 ==> timeout <= left <= INT_MAX && base + left <= deadline
    requires timeout > 0 ==> now + Capped(long32, timeout) <= deadline
    ensures InTime(Waits(script, long32, timeout, left, base, now, count), deadline)
       <==> !Late(script, long32, timeout, left, base, deadline)
    decreases |script|
  {
    hide Int32, InTime, Update, Remaining, Overflows;
    var t := Capped(long32, timeout);
    var w := Wait(now, t);
    if script == [] {
      InTimeFirst(w, [], deadline);
      NoWaits(deadline);
    } else {
      var o := script[0];
      if Recomputes(o) && t > 0 {
        UpdateIs(left, base, o.now, count);
        RemainingCases(left, o.now - base);
      }
      match After(o, t, left, base, count) {
        case Return =>
          InTimeFirst(w, [], deadline);
          NoWaits(deadline);
          if script != [] && timeout > 0 && Recomputes(o) { LateZero(script[1..], long32, left, base, deadline); }
        case Again(t', r', c') =>
          InTimeFirst(w, Waits(script[1..], long32, t', r', base, o.now, c'), deadline);
          if t' > 0 && o.now + Capped(long32, t') > deadline {
            LateWait(script[1..], long32, t', r', base, o.now, c', deadline);
          } else {
            if t' > 0 && Recomputes(o) && Overflows(left, o.now - base) { WrappedRoom(long32, left, base, o.now, deadline); }
            InTimeIff(script[1..], long32, t', r', base, o.now, c', deadline);
          }
      }
    }
  }

  lemma RemainingCases(left: int, elapsed: int)
    requires left > 0
    ensures elapsed < left ==> Remaining(left, elapsed) == left - elapsed && !Overflows(left, elapsed)
    ensures elapsed >= left && !Overflows(left, elapsed) ==> Remaining(left, elapsed) == 0
    ensures Overflows(left, elapsed) ==> Remaining(left, elapsed) > 0
  {}

  lemma LateZero(script: seq<Outcome>, long32: bool, left: int, base: nat, deadline: nat)
    ensures !Late(script, long32, 0, left, base, deadline)
  {}

  /** The poll that starts from uv_backend_timeout: every positive sleep ends by the first timer's deadline
      iff neither of the two happens. */
  lemma PollInTimeIff(script: seq<Outcome>, long32: bool, busy: bool, due: nat, time: nat)
    requires Monotone(script, time)
    ensures var t := BackendTimeout(busy, Some(due), time);
            InTime(Waits(script, long32, t, t, time, time, 48), due) <==> !Late(script, long32, t, t, time, due)
  {
    var t := BackendTimeout(busy, Some(due), time);
    InTimeIff(script, long32, t, t, time, time, 48, due);
  }

  // ---------------------------------------------------------------- clocks that are never late

  /** The clock stays within 2^31 ms of the start of the poll, and still while a system call is missing. */
  ghost predicate ClockOk(script: seq<Outcome>, base: nat, now: nat) {
    script == [] || (
      && now <= script[0].now <= base + TWO31 + 1
      && (script[0].NoSys? ==> script[0].now == now)
      && ClockOk(script[1..], base, script[0].now))
  }

  lemma {:induction false} NeverLate(script: seq<Outcome>, long32: bool, timeout: int, left: int, base: nat, now: nat,
                                     deadline: nat)
    requires ClockOk(script, base, now) && base <= now
    requires timeout > 0 ==> timeout <= left && base + left <= deadline && now + Capped(long32, timeout) <= deadline
    ensures !Late(script, long32, timeout, left, base, deadline)
    decreases |script|
  {
    if timeout > 0 && script != [] {
      var o, t := script[0], Capped(long32, timeout);
      if o.NoSys? {
        NeverLate(script[1..], long32, t, left, base, o.now, deadline);
      } else if Recomputes(o) {
        var r := Remaining(left, o.now - base);
        NeverLate(script[1..], long32, r, r, base, o.now, deadline);
      }
    }
  }

  /** Clock steps that are each below 2^31 ms are not enough: elapsed time is subtracted again
      from what is already a remainder, and the second subtraction wraps. */
  lemma SmallStepsOverrun()
    ensures var due, script := INT_MAX, [Interrupted(INT_MAX - 1), Interrupted(2 * INT_MAX - 1)];
            var t := NextTimeout(Some(due), 0);
            Monotone(script, 0) && !InTime(Waits(script, false, t, t, 0, 0, 48), due)
  {
    var script := [Interrupted(INT_MAX - 1), Interrupted(2 * INT_MAX - 1)];
    assert script[1..] == [Interrupted(2 * INT_MAX - 1)] && script[1..][1..] == [];
    PollInTimeIff(script, false, false, INT_MAX, 0);
    assert Remaining(INT_MAX, INT_MAX - 1) == 1;
    assert Overflows(1, 2 * INT_MAX - 1);
    assert Late(script[1..], false, 1, 1, 0, INT_MAX);
  }

  /** Half of a sleep of 10 ms passes until the missing system call is found out, and the other call
      then sleeps for 10 ms again. */
  lemma RetryOverrun()
    ensures var due, script := 10, [NoSys(5)];
            var t := NextTimeout(Some(due), 0);
            Monotone(script, 0) && !InTime(Waits(script, false, t, t, 0, 0, 48), due)
  {
    var script := [NoSys(5)];
    assert script[1..] == [];
    PollInTimeIff(script, false, false, 10, 0);
  }

  // ---------------------------------------------------------------- how long, and how often

  /** A busy loop does not sleep; without timers it sleeps until something happens; otherwise until the first timer is
      due, as far as an int goes. */
  lemma BackendTimeoutIs(busy: bool, first: Option<nat>, time: nat)
    ensures var t := BackendTimeout(busy, first, time);
            && (busy ==> t == 0)
            && (!busy && first.None? ==> t == -1)
            && (!busy && first.Some? ==> 0 <= t <= INT_MAX && (t == 0 <==> first.value <= time)
                                         && (t > 0 ==> time + t <= first.value && (t < INT_MAX ==> time + t == first.value)))
  {}

  /** As many events as the buffer holds, and no signal among them. */
  ghost predicate FullBatch(o: Outcome) { o.Ready? && o.nevents != 0 && o.full && !o.signals }

  /** While the buffer comes back full the loop polls again, without sleeping, up to `count` times in all. */
  lemma {:induction false} FullBatches(script: seq<Outcome>, long32: bool, timeout: int, left: int, base: nat, now: nat, count: nat)
    requires count >= 1 && forall i :: 0 <= i < |script| ==> FullBatch(script[i])
    ensures var ws := Waits(script, long32, timeout, left, base, now, count);
            && |ws| == (if |script| + 1 < count then |script| + 1 else count)
            && ws[0] == Wait(now, Capped(long32, timeout))
            && forall i :: 1 <= i < |ws| ==> ws[i] == Wait(script[i - 1].now, 0)
    decreases |script|
  {
    if script != [] {
      assert FullBatch(script[0]);
      if count > 1 { FullBatches(script[1..], long32, 0, left, base, script[0].now, count - 1); }
    }
  }

  /** The kernel came back with nothing to report. */
  ghost predicate Nothing(o: Outcome) {
    o.Interrupted? || o.NoSys? || (o.Ready? && o.nevents == 0 && !o.signals)
  }

  /** A wait without end goes on after every interruption, still without end. */
  lemma {:induction false} WaitsOn(script: seq<Outcome>, long32: bool, left: int, base: nat, now: nat, count: int)
    requires forall i :: 0 <= i < |script| ==> Nothing(script[i])
    ensures var ws := Waits(script, long32, -1, left, base, now, count);
            |ws| == |script| + 1 && forall i :: 0 <= i < |ws| ==> ws[i].timeout == -1
    decreases |script|
  {
    if script != [] {
      assert Nothing(script[0]);
      WaitsOn(script[1..], long32, left, base, script[0].now, count);
    }
  }

  /** The loop comes back at once with any event from a buffer that was not full, with a signal, or, if it was not to
      sleep, with whatever the kernel answers. */
  lemma ComesBack(script: seq<Outcome>, long32: bool, timeout: int, left: int, base: nat, now: nat, count: int)
    requires script != []
    requires || (script[0].Ready? && (script[0].signals || (script[0].nevents != 0 && !script[0].full)))
             || (timeout == 0 && !script[0].NoSys? && !FullBatch(script[0]))
    ensures Waits(script, long32, timeout, left, base, now, count) == [Wait(now, Capped(long32, timeout))]
  {}

  /** A sleep that ends with nothing to report goes on for what is left of it, reckoned from the start of the poll, and
      ends the poll once nothing is left. */
  lemma SleepsTheRest(script: seq<Outcome>, long32: bool, timeout: int, left: int, base: nat, now: nat, count: int)
    requires script != [] && Recomputes(script[0]) && 0 < timeout && 0 < left <= INT_MAX && base <= script[0].now
    ensures var elapsed, ws := script[0].now - base, Waits(script, long32, timeout, left, base, now, count);
            && ws[0] == Wait(now, Capped(long32, timeout))
            && (elapsed < left ==> |ws| >= 2 && ws[1] == Wait(script[0].now, Capped(long32, left - elapsed)))
            && (left <= elapsed <= left + TWO31 ==> |ws| == 1)
  {
    UpdateIs(left, base, script[0].now, count);
  }
}
