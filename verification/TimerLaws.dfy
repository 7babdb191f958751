/** What the callbacks of uv__run_timers do to the pass that runs them (src/unix/timer.c), handle by handle and
    for every script of callbacks. */
module TimerLaws {
  import H = BinaryHeap
  import opened TimerSpec

  // ---------------------------------------------------------------- the calls of one callback

  ghost predicate Mentions(c: Call, h: Handle) { c.h == h }

  /** The call may make `h` active. */
  ghost predicate Starts(c: Call, h: Handle) { c == Again(h) || (c.Start? && c.cb && c.h == h) }

  ghost predicate NoneMentions(cs: seq<Call>, h: Handle) { forall i :: 0 <= i < |cs| ==> !Mentions(cs[i], h) }
  ghost predicate NoneStarts(cs: seq<Call>, h: Handle) { forall i :: 0 <= i < |cs| ==> !Starts(cs[i], h) }

  /** All fields of `h` are as they were. */
  ghost predicate Same(s: Spec, t: Spec, h: Handle) {
    && (h in s.active <==> h in t.active) && (h in s.active ==> s.active[h] == t.active[h])
    && (h in s.repeat <==> h in t.repeat) && (h in s.repeat ==> s.repeat[h] == t.repeat[h])
  }

  lemma {:induction false} OthersSame(s: Spec, cs: seq<Call>, h: Handle)
    requires NoneMentions(cs, h)
    ensures Same(s, AppliedAll(s, cs), h)
    decreases |cs|
  {
    hide Deadline;
    if cs != [] { OthersSame(s, cs[..|cs| - 1], h); }
  }

  lemma {:induction false} StaysStopped(s: Spec, cs: seq<Call>, h: Handle)
    requires h !in s.active && NoneStarts(cs, h)
    ensures h !in AppliedAll(s, cs).active
    decreases |cs|
  {
    hide Deadline;
    if cs != [] { StaysStopped(s, cs[..|cs| - 1], h); }
  }

  lemma {:induction false} AllSplit(s: Spec, a: seq<Call>, b: seq<Call>)
    ensures AppliedAll(s, a + b) == AppliedAll(AppliedAll(s, a), b)
    decreases |b|
  {
    hide Applied;
    if b == [] {
      assert a + b == a;
    } else {
      assert (a + b)[..|a + b| - 1] == a + b[..|b| - 1];
      AllSplit(s, a, b[..|b| - 1]);
    }
  }

  lemma AllAt(s: Spec, cs: seq<Call>, i: nat)
    requires i < |cs|
    ensures AppliedAll(s, cs) == AppliedAll(Applied(AppliedAll(s, cs[..i]), cs[i]), cs[i + 1..])
  {
    hide Applied;
    assert cs == cs[..i + 1] + cs[i + 1..] && cs[..i + 1][..i] == cs[..i];
    AllSplit(s, cs[..i + 1], cs[i + 1..]);
  }

  lemma SetRepeatIs(s: Spec, h: Handle, rep: Msec)
    ensures var t := Applied(s, SetRepeat(h, rep));
            && t.active == s.active && t.counter == s.counter && t.time == s.time
            && t.repeat == if h in s.repeat then s.repeat[h := rep] else s.repeat
  {}

  /** The last call of a callback for `h` that counts decides: a Stop with no start after it leaves `h` inactive. */
  lemma LastStop(s: Spec, cs: seq<Call>, i: nat, h: Handle)
    requires i < |cs| && cs[i] == Stop(h) && NoneStarts(cs[i + 1..], h)
    ensures h !in AppliedAll(s, cs).active
  {
    AllAt(s, cs, i);
    StaysStopped(Applied(AppliedAll(s, cs[..i]), cs[i]), cs[i + 1..], h);
  }

  /** A start with no call for `h` after it leaves it active with that deadline and that repeat. */
  lemma LastStart(s: Spec, cs: seq<Call>, i: nat, h: Handle, timeout: Msec, rep: Msec)
    requires SpecOk(s) && i < |cs| && cs[i] == Start(h, true, timeout, rep) && NoneMentions(cs[i + 1..], h)
    ensures var t := AppliedAll(s, cs);
            && h in t.active && t.active[h].timeout == Deadline(s.time, timeout)
            && h in t.repeat && t.repeat[h] == rep
  {
    hide Deadline;
    AllAt(s, cs, i);
    AppliedAllOk(s, cs[..i]);
    OthersSame(Applied(AppliedAll(s, cs[..i]), cs[i]), cs[i + 1..], h);
  }

  /** A new repeat value with no call for `h` after it is its repeat value, if it ever had a callback, and does not
      start or stop it. */
  lemma LastSetRepeat(s: Spec, cs: seq<Call>, i: nat, h: Handle, rep: Msec)
    requires i < |cs| && cs[i] == SetRepeat(h, rep) && NoneMentions(cs[i + 1..], h) && NoneMentions(cs[..i], h)
    ensures var t := AppliedAll(s, cs);
            && (h in t.active <==> h in s.active) && (h in s.active ==> t.active[h] == s.active[h])
            && (h in t.repeat <==> h in s.repeat) && (h in s.repeat ==> t.repeat[h] == rep)
  {
    hide Deadline;
    AllAt(s, cs, i);
    OthersSame(s, cs[..i], h);
    OthersSame(Applied(AppliedAll(s, cs[..i]), cs[i]), cs[i + 1..], h);
  }

  /** uv_timer_again, with no other call for `h`: a timer with a repeat value is started with it, from now, whether it
      was active or not; another is left alone. */
  lemma LastAgain(s: Spec, cs: seq<Call>, i: nat, h: Handle)
    requires SpecOk(s) && i < |cs| && cs[i] == Again(h) && NoneMentions(cs[i + 1..], h) && NoneMentions(cs[..i], h)
    ensures var t := AppliedAll(s, cs);
            if h in s.repeat && s.repeat[h] != 0
            then h in t.active && t.active[h].timeout == Deadline(s.time, s.repeat[h]) && h in t.repeat && t.repeat[h] == s.repeat[h]
            else Same(s, t, h)
  {
    hide Deadline;
    AllAt(s, cs, i);
    AppliedAllOk(s, cs[..i]);
    OthersSame(s, cs[..i], h);
    OthersSame(Applied(AppliedAll(s, cs[..i]), cs[i]), cs[i + 1..], h);
  }

  /** Timers started with the same deadline fall due in the order of the starts: a timer just started comes after all
      others with its timeout. */
  lemma StartedLast(s: Spec, h: Handle, timeout: Msec, rep: Msec, g: Handle)
    requires IdsOk(s) && g in s.active && g != h && s.active[g].timeout <= Deadline(s.time, timeout)
    ensures var m := Applied(s, Start(h, true, timeout, rep)).active; g in m && h in m && H.Less(m[g], m[h])
  {
    hide Deadline;
  }

  // ---------------------------------------------------------------- one round

  /** What a round does to the handle it fires, if its callback does not mention it. */
  ghost predicate Restarted(s: Spec, t: Spec, h: Handle) {
    && (h in s.repeat <==> h in t.repeat) && (h in s.repeat ==> t.repeat[h] == s.repeat[h])
    && (h in t.active <==> h in s.repeat && s.repeat[h] != 0)
    && (h in t.active ==> t.active[h].timeout == Deadline(s.time, s.repeat[h]))
  }

  lemma RoundOther(s: Spec, f: Handle, cs: seq<Call>, h: Handle)
    requires h != f && NoneMentions(cs, h)
    ensures Same(s, Round(s, f, cs), h)
  {
    hide Deadline;
    OthersSame(Applied(Applied(s, Stop(f)), Again(f)), cs, h);
  }

  lemma RoundSelf(s: Spec, h: Handle, cs: seq<Call>)
    requires NoneMentions(cs, h)
    ensures Restarted(s, Round(s, h, cs), h)
  {
    hide Deadline;
    OthersSame(Applied(Applied(s, Stop(h)), Again(h)), cs, h);
  }

  lemma RoundStopped(s: Spec, f: Handle, cs: seq<Call>, h: Handle)
    requires h !in s.active && f in s.active && NoneStarts(cs, h)
    ensures h !in Round(s, f, cs).active
  {
    hide Deadline;
    StaysStopped(Applied(Applied(s, Stop(f)), Again(f)), cs, h);
  }

  lemma RoundKeeps(s: Spec, f: Handle, cs: seq<Call>)
    requires SpecOk(s) && IdsOk(s)
    ensures SpecOk(Round(s, f, cs)) && IdsOk(Round(s, f, cs)) && Round(s, f, cs).time == s.time
  {
    hide IdsOk, AppliedAll;
    AppliedIds(s, Stop(f));
    AppliedIds(Applied(s, Stop(f)), Again(f));
    AppliedAllIds(Applied(Applied(s, Stop(f)), Again(f)), cs);
    AppliedAllOk(Applied(Applied(s, Stop(f)), Again(f)), cs);
  }

  // ---------------------------------------------------------------- a whole pass

  /** No callback from the a-th up to the b-th mentions `h`; none starts it. */
  ghost predicate Quiet(script: seq<seq<Call>>, a: nat, b: nat, h: Handle) {
    forall c, i :: a <= c < b && c < |script| && 0 <= i < |script[c]| ==> !Mentions(script[c][i], h)
  }
  ghost predicate Unstarted(script: seq<seq<Call>>, a: nat, b: nat, h: Handle) {
    forall c, i :: a <= c < b && c < |script| && 0 <= i < |script[c]| ==> !Starts(script[c][i], h)
  }

  ghost predicate IsDue(s: Spec, h: Handle) { h in s.active && s.active[h].timeout <= s.time }

  ghost predicate Ready(s: Spec) { SpecOk(s) && IdsOk(s) && s.time < U64 - 1 }

  lemma NoneFirst(s: Spec, h: Handle)
    requires Ready(s) && !exists f :: FirstIsDue(s, f)
    ensures !IsDue(s, h)
  {
    hide H.Less;
    if h in s.active {
      var f := SomeFirst(s.active);
      FirstDue(s.active, f, s.time);
      assert !FirstIsDue(s, f);
      assert h !in Due(s.active, s.time);
    }
  }

  lemma NthQuiet(script: seq<seq<Call>>, n: nat, b: nat, h: Handle)
    requires Quiet(script, n, b, h) && n < b
    ensures NoneMentions(Nth(script, n), h) && Quiet(script, n + 1, b, h)
  {}

  lemma NthUnstarted(script: seq<seq<Call>>, n: nat, b: nat, h: Handle)
    requires Unstarted(script, n, b, h) && n < b
    ensures NoneStarts(Nth(script, n), h) && Unstarted(script, n + 1, b, h)
  {}

  /** How a pass leaves a handle that it fires, and one that it does not. */
  ghost predicate Served(s: Spec, t: Spec, h: Handle, times: nat) {
    if IsDue(s, h) then times == 1 && Restarted(s, t, h) else times == 0 && Same(s, t, h)
  }

  lemma NotDueAgain(s: Spec, t: Spec, h: Handle)
    requires SpecOk(s) && h in s.active && Restarted(s, t, h) && t.time == s.time < U64 - 1
    ensures !IsDue(t, h)
  {
    if s.repeat[h] != 0 { DueAgain(s.time, s.repeat[h]); }
  }

  lemma CountHead(f: Handle, r: seq<Handle>, h: Handle)
    ensures multiset([f] + r)[h] == multiset(r)[h] + if f == h then 1 else 0
  {}

  /** A handle that no callback of the pass mentions fires once if it is due and else not at all; it is left
      stopped, or started again from now with its repeat value, if it fired, and else as it was. */
  lemma {:induction false} Unmentioned(s: Spec, script: seq<seq<Call>>, n: nat, h: Handle)
    requires Ready(s) && Quiet(script, n, n + |Fired(s, script, n).0|, h)
    ensures Served(s, Fired(s, script, n).1, h, multiset(Fired(s, script, n).0)[h])
    decreases |Fired(s, script, n).0|
  {
    hide Fired, FirstIsDue, Round, Quiet, NoneMentions, IdsOk, Nth, Same, Restarted;
    if f :| FirstIsDue(s, f) {
      FiredStep(s, script, n, f);
      var t := Round(s, f, Nth(script, n));
      var r := Fired(t, script, n + 1);
      NthQuiet(script, n, n + |Fired(s, script, n).0|, h);
      RoundKeeps(s, f, Nth(script, n));
      Unmentioned(t, script, n + 1, h);
      CountHead(f, r.0, h);
      FirstKnown(s, f);
      if f == h {
        RoundSelf(s, h, Nth(script, n));
        NotDueAgain(s, t, h);
        RestartedSame(s, t, r.1, h);
      } else {
        RoundOther(s, f, Nth(script, n), h);
        SameServed(s, t, r.1, h, multiset(r.0)[h]);
      }
    } else {
      NoFirst(s, script, n);
      NoneFirst(s, h);
      SameSelf(s, h);
    }
  }

  lemma FirstKnown(s: Spec, f: Handle)
    requires FirstIsDue(s, f)
    ensures IsDue(s, f)
  {}

  lemma NoFirst(s: Spec, script: seq<seq<Call>>, n: nat)
    requires SpecOk(s) && s.time < U64 - 1 && !exists f :: FirstIsDue(s, f)
    ensures Fired(s, script, n) == ([], s)
  {}

  lemma SameSelf(s: Spec, h: Handle)
    ensures Same(s, s, h)
  {}

  lemma RestartedSame(s: Spec, t: Spec, u: Spec, h: Handle)
    requires Restarted(s, t, h) && Same(t, u, h)
    ensures Restarted(s, u, h)
  {
    hide Deadline;
  }

  lemma SameServed(s: Spec, t: Spec, u: Spec, h: Handle, times: nat)
    requires Same(s, t, h) && Served(t, u, h, times) && t.time == s.time
    ensures Served(s, u, h, times)
  {
    hide Deadline;
  }

  /** A stopped handle that no callback starts does not fire and stays stopped. */
  lemma {:induction false} StoppedStays(s: Spec, script: seq<seq<Call>>, n: nat, j: nat, h: Handle)
    requires Ready(s) && h !in s.active && j <= |Fired(s, script, n).0| && Unstarted(script, n, n + j, h)
    ensures h !in StateAt(s, script, n, j).active && h !in Fired(s, script, n).0[..j]
    decreases j
  {
    hide Fired, FirstIsDue, Round, Unstarted, NoneStarts, IdsOk, Nth;
    if j > 0 {
      var f := HeadOf(s, script, n);
      var t := Round(s, f, Nth(script, n));
      NthUnstarted(script, n, n + j, h);
      FirstKnown(s, f);
      RoundStopped(s, f, Nth(script, n), h);
      StoppedStays(t, script, n + 1, j - 1, h);
      assert Fired(s, script, n).0[..j] == [f] + Fired(t, script, n + 1).0[..j - 1];
    }
  }

  // ---------------------------------------------------------------- in the middle of a pass

  /** The first round of a pass that fires some timer. */
  lemma HeadOf(s: Spec, script: seq<seq<Call>>, n: nat) returns (f: Handle)
    requires Ready(s) && Fired(s, script, n).0 != []
    ensures FirstIsDue(s, f) && Ready(Round(s, f, Nth(script, n))) && Round(s, f, Nth(script, n)).time == s.time
    ensures var r := Fired(Round(s, f, Nth(script, n)), script, n + 1); Fired(s, script, n) == ([f] + r.0, r.1)
    ensures forall j: nat :: j > 0 ==> StateAt(s, script, n, j) == StateAt(Round(s, f, Nth(script, n)), script, n + 1, j - 1)
  {
    hide Fired, FirstIsDue, Round, IdsOk, Nth;
    if !exists g :: FirstIsDue(s, g) { NoFirst(s, script, n); }
    f :| FirstIsDue(s, f);
    FiredStep(s, script, n, f);
    RoundKeeps(s, f, Nth(script, n));
    forall j: nat | j > 0
      ensures StateAt(s, script, n, j) == StateAt(Round(s, f, Nth(script, n)), script, n + 1, j - 1)
    {
      StateStep(s, script, n, j - 1, f);
    }
  }

  lemma StateStep(s: Spec, script: seq<seq<Call>>, n: nat, j: nat, f: Handle)
    requires FirstIsDue(s, f)
    ensures StateAt(s, script, n, j + 1) == StateAt(Round(s, f, Nth(script, n)), script, n + 1, j)
  {
    hide Round, Nth;
    forall g | FirstIsDue(s, g) ensures g == f { FirstUnique(s.active, g, f); }
  }

  /** The timers after j rounds. */
  ghost function StateAt(s: Spec, script: seq<seq<Call>>, n: nat, j: nat): Spec
    decreases j
  {
    if j == 0 || !exists f :: FirstIsDue(s, f) then s
    else
      var f :| FirstIsDue(s, f);
      StateAt(Round(s, f, Nth(script, n)), script, n + 1, j - 1)
  }

  /** The rest of a pass is the pass from there. */
  lemma {:induction false} Later(s: Spec, script: seq<seq<Call>>, n: nat, j: nat)
    requires Ready(s) && j <= |Fired(s, script, n).0|
    ensures var t := StateAt(s, script, n, j);
            && Ready(t) && t.time == s.time
            && Fired(t, script, n + j) == (Fired(s, script, n).0[j..], Fired(s, script, n).1)
    decreases j
  {
    hide Fired, FirstIsDue, Round, IdsOk, Nth;
    if j > 0 {
      var f := HeadOf(s, script, n);
      var t := Round(s, f, Nth(script, n));
      Later(t, script, n + 1, j - 1);
      assert n + 1 + (j - 1) == n + j && Fired(s, script, n).0[j..] == Fired(t, script, n + 1).0[j - 1..];
    }
  }

  /** Round c of a pass, counted from its start. */
  lemma RoundAt(s: Spec, script: seq<seq<Call>>, c: nat) returns (f: Handle)
    requires Ready(s) && c < |Fired(s, script, 0).0|
    ensures Ready(StateAt(s, script, 0, c)) && StateAt(s, script, 0, c).time == s.time
    ensures FirstIsDue(StateAt(s, script, 0, c), f) && f == Fired(s, script, 0).0[c]
    ensures StateAt(s, script, 0, c + 1) == Round(StateAt(s, script, 0, c), f, Nth(script, c))
  {
    hide Fired, FirstIsDue, Round, IdsOk, Nth;
    Later(s, script, 0, c);
    f := HeadOf(StateAt(s, script, 0, c), script, c);
    StateNext(s, script, 0, c, f);
  }

  lemma {:induction false} StateNext(s: Spec, script: seq<seq<Call>>, n: nat, c: nat, f: Handle)
    requires Ready(s) && c < |Fired(s, script, n).0| && FirstIsDue(StateAt(s, script, n, c), f)
    ensures StateAt(s, script, n, c + 1) == Round(StateAt(s, script, n, c), f, Nth(script, n + c))
    decreases c
  {
    hide Fired, FirstIsDue, Round, IdsOk, Nth;
    var g := HeadOf(s, script, n);
    var t := Round(s, g, Nth(script, n));
    if c == 0 {
      StateStep(s, script, n, 0, f);
    } else {
      StateNext(t, script, n + 1, c - 1, f);
    }
  }

  // ---------------------------------------------------------------- what callbacks do to the pass

  /** A timer that a callback stops, and that none starts again before, does not fire at a later turn; if none does
      to the end, it is left stopped. */
  lemma StoppedDoesNotFire(s: Spec, script: seq<seq<Call>>, c: nat, i: nat, j: nat, h: Handle)
    requires Ready(s) && c < j <= |Fired(s, script, 0).0| && c < |script| && i < |script[c]|
    requires script[c][i] == Stop(h) && NoneStarts(script[c][i + 1..], h) && Unstarted(script, c + 1, j, h)
    ensures h !in Fired(s, script, 0).0[c + 1..j]
    ensures if j < |Fired(s, script, 0).0| then Fired(s, script, 0).0[j] != h else h !in Fired(s, script, 0).1.active
  {
    hide Fired, Round, Unstarted, NoneStarts, IdsOk, IsFirst;
    var f := RoundAt(s, script, c);
    var a := StateAt(s, script, 0, c);
    RoundIsAll(a, f, script[c]);
    LastStop(Applied(Applied(a, Stop(f)), Again(f)), script[c], i, h);
    Later(s, script, 0, c + 1);
    var b := StateAt(s, script, 0, c + 1);
    StoppedStays(b, script, c + 1, j - c - 1, h);
    var F := Fired(s, script, 0).0;
    assert Fired(b, script, c + 1).0[..j - c - 1] == F[c + 1..j];
    Later(b, script, c + 1, j - c - 1);
    var d := StateAt(b, script, c + 1, j - c - 1);
    assert Fired(d, script, j) == (F[j..], Fired(s, script, 0).1);
    if j < |F| {
      var g := HeadOf(d, script, j);
      FirstKnown(d, g);
      assert g == F[j..][0];
    } else {
      assert F[j..] == [];
      EndsHere(d, script, j);
    }
  }

  lemma RoundIsAll(s: Spec, f: Handle, cs: seq<Call>)
    ensures Round(s, f, cs) == AppliedAll(Applied(Applied(s, Stop(f)), Again(f)), cs)
  {}

  lemma EndsHere(s: Spec, script: seq<seq<Call>>, n: nat)
    requires SpecOk(s) && s.time < U64 - 1 && Fired(s, script, n).0 == []
    ensures Fired(s, script, n).1 == s
  {}

  /** A timer that a callback starts, and that no call mentions after that, fires once in the rest of the pass if its
      timeout is 0, and not at all otherwise; it is left with the deadline of that start or, if it fired, of its repeat. */
  lemma StartedFires(s: Spec, script: seq<seq<Call>>, c: nat, i: nat, h: Handle, timeout: Msec, rep: Msec)
    requires Ready(s) && c < |Fired(s, script, 0).0| && c < |script| && i < |script[c]|
    requires script[c][i] == Start(h, true, timeout, rep) && NoneMentions(script[c][i + 1..], h)
    requires Quiet(script, c + 1, |Fired(s, script, 0).0|, h)
    ensures multiset(Fired(s, script, 0).0[c + 1..])[h] == if timeout == 0 then 1 else 0
    ensures var t := Fired(s, script, 0).1;
            && (h in t.active <==> timeout != 0 || rep != 0)
            && (h in t.active ==> t.active[h].timeout == Deadline(s.time, if timeout != 0 then timeout else rep))
            && h in t.repeat && t.repeat[h] == rep
  {
    hide Fired, Round, Quiet, NoneMentions, IdsOk, FirstIsDue, Deadline;
    var f := RoundAt(s, script, c);
    var a := StateAt(s, script, 0, c);
    RoundIsAll(a, f, script[c]);
    StepsOk(a, f);
    LastStart(Applied(Applied(a, Stop(f)), Again(f)), script[c], i, h, timeout, rep);
    Later(s, script, 0, c + 1);
    var b := StateAt(s, script, 0, c + 1);
    Unmentioned(b, script, c + 1, h);
    DueByTimeout(s.time, timeout);
  }

  lemma StepsOk(s: Spec, f: Handle)
    requires SpecOk(s)
    ensures SpecOk(Applied(Applied(s, Stop(f)), Again(f))) && Applied(Applied(s, Stop(f)), Again(f)).time == s.time
  {
    hide Deadline;
  }

  lemma DueByTimeout(time: Msec, timeout: Msec)
    requires time < U64 - 1
    ensures Deadline(time, timeout) <= time <==> timeout == 0
  {
    DeadlineSaturates(time, timeout);
  }

  /** No callback of a round before the turn of `h` mentions it. */
  ghost predicate SparedUntilTurn(script: seq<seq<Call>>, n: nat, fired: seq<Handle>, h: Handle) {
    forall c :: n <= c < n + |fired| && c < |script| && h !in fired[..c - n + 1] ==> NoneMentions(script[c], h)
  }

  /** A due timer that no callback mentions before its turn fires. */
  lemma {:induction false} DueFires(s: Spec, script: seq<seq<Call>>, n: nat, h: Handle)
    requires Ready(s) && IsDue(s, h) && SparedUntilTurn(script, n, Fired(s, script, n).0, h)
    ensures h in Fired(s, script, n).0
    decreases |Fired(s, script, n).0|
  {
    hide Fired, FirstIsDue, Round, NoneMentions, IdsOk;
    if Fired(s, script, n).0 == [] {
      FiredNone(s, script, n);
      NoneFirst(s, h);
    } else {
      var f := HeadOf(s, script, n);
      if f != h {
        var F := Fired(s, script, n).0;
        var t := Round(s, f, Nth(script, n));
        var r := Fired(t, script, n + 1).0;
        assert F[..1] == [f];
        NothingToDo(h);
        assert NoneMentions(Nth(script, n), h);
        RoundOther(s, f, Nth(script, n), h);
        forall c | n + 1 <= c < n + 1 + |r| && c < |script| && h !in r[..c - (n + 1) + 1] ensures NoneMentions(script[c], h) {
          assert F[..c - n + 1] == [f] + r[..c - (n + 1) + 1];
        }
        DueFires(t, script, n + 1, h);
      }
    }
  }

  lemma NothingToDo(h: Handle)
    ensures NoneMentions([], h)
  {}

  lemma FiredNone(s: Spec, script: seq<seq<Call>>, n: nat)
    requires SpecOk(s) && s.time < U64 - 1 && Fired(s, script, n).0 == []
    ensures !exists f :: FirstIsDue(s, f)
  {
    if f :| FirstIsDue(s, f) { FiredStep(s, script, n, f); }
  }

  /** Of two due timers that no callback mentions, the one with the earlier timeout, or with the earlier start, fires first. */
  lemma {:induction false} DueInOrder(s: Spec, script: seq<seq<Call>>, n: nat, g: Handle, h: Handle)
    requires Ready(s) && IsDue(s, g) && IsDue(s, h) && H.Less(s.active[g], s.active[h])
    requires Quiet(script, n, n + |Fired(s, script, n).0|, g) && Quiet(script, n, n + |Fired(s, script, n).0|, h)
    ensures exists i, j :: 0 <= i < j < |Fired(s, script, n).0| && Fired(s, script, n).0[i] == g && Fired(s, script, n).0[j] == h
    decreases |Fired(s, script, n).0|
  {
    hide Fired, Round, NoneMentions, Quiet, IdsOk, FirstIsDue, H.Less, Nth;
    var F := Fired(s, script, n).0;
    if F == [] { FiredNone(s, script, n); NoneFirst(s, h); }
    var f := HeadOf(s, script, n);
    var t := Round(s, f, Nth(script, n));
    var r := Fired(t, script, n + 1).0;
    NthQuiet(script, n, n + |F|, g);
    NthQuiet(script, n, n + |F|, h);
    Distinct(s, f, g, h);
    RoundOther(s, f, Nth(script, n), h);
    if f == g {
      Unmentioned(t, script, n + 1, h);
      assert h in r;
      var j :| 0 <= j < |r| && r[j] == h;
      assert F[0] == g && F[j + 1] == h;
    } else {
      RoundOther(s, f, Nth(script, n), g);
      DueInOrder(t, script, n + 1, g, h);
      var i, j :| 0 <= i < j < |r| && r[i] == g && r[j] == h;
      assert F[i + 1] == g && F[j + 1] == h;
    }
  }

  lemma Distinct(s: Spec, f: Handle, g: Handle, h: Handle)
    requires FirstIsDue(s, f) && g in s.active && h in s.active && H.Less(s.active[g], s.active[h])
    ensures f != h && g != h
  {}

  // ---------------------------------------------------------------- the program's own calls

  /** One more call, clock update or pass takes effect on what the calls before it left. */
  lemma AfterMore(ops: seq<Op>, op: Op)
    ensures Ready(After(ops)) || After(ops).time == U64 - 1
    ensures op.Do? ==> After(ops + [op]) == Applied(After(ops), op.call) && FiredBy(ops + [op]) == FiredBy(ops)
    ensures op.SetTime? ==> After(ops + [op]) == After(ops).(time := op.now) && FiredBy(ops + [op]) == FiredBy(ops)
    ensures op.RunTimers? && After(ops).time < U64 - 1 ==>
              var pass := Fired(After(ops), op.script, 0);
              After(ops + [op]) == pass.1 && FiredBy(ops + [op]) == FiredBy(ops) + [pass.0]
  {
    hide Applied, Fired, IdsOk;
    AfterIds(ops);
    assert (ops + [op])[..|ops|] == ops;
    assert FiredBy(ops) + [] == FiredBy(ops);
  }
}
