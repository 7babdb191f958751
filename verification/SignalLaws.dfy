/** What becomes of a caught signal (src/unix/signal.c), told by the steps of a run: every started handle is
    tried once for a catch, every message written to a steady handle begins one callback, in order, and
    the calls of the loop threads do what they are for. */
module SignalLaws {
  import opened SignalDelivery

  // ---------------------------------------------------------------- the handler

  /** Whoever is still to be written to is started for the signal being handled. */
  ghost predicate TodoOk(s: State) {
    !s.handler.Idle? ==> forall h :: h in s.handler.todo && h in s.handles ==> s.handles[h].signum == s.handler.signum
  }

  lemma TodoKept(s: State, s': State, step: Step)
    requires Inv(s) && TodoOk(s) && Next(s, s', step)
    ensures TodoOk(s')
  {
    hide LoopsOk, Of;
    if step.Clear? {
      var c := s.loops[step.l].call;
      CallLoop(s, step.l);
      assert c.h !in s.tree;
    }
    if step.Init? { assert step.h !in s.tree; }
  }

  lemma CallLoop(s: State, l: LoopId)
    requires Inv(s) && l in s.loops && !s.loops[l].call.NoCall?
    ensures var h := s.loops[l].call.h;
            && h in s.handles && s.handles[h].loop == l && CallOn(s.loops[l].call, h)
            && HandleOk(h, s.handles[h], s.loops[l], h in s.tree, Window(s.handler, h))
  {
    hide HandleOk;
    assert LoopOk(l, s.loops[l], s.handles);
  }

  lemma {:induction false} RunTodo(ss: seq<State>, steps: seq<Step>, k: nat)
    requires Run(ss, steps) && k < |ss|
    ensures TodoOk(ss[k])
  {
    hide Inv, Next;
    if k > 0 {
      RunTodo(ss, steps, k - 1);
      RunInv(ss, steps, k - 1);
      assert Next(ss[k - 1], ss[k - 1 + 1], steps[k - 1]);
      hide TodoOk;
      TodoKept(ss[k - 1], ss[k], steps[k - 1]);
    }
  }

  /** The handler comes to `h`: it writes a message for it, or finds its pipe full. */
  ghost predicate Tries(step: Step, h: Handle) { step == Write(h) || step == PipeFull(h) }

  ghost function Tried(steps: seq<Step>, i: nat, k: nat, h: Handle): nat
    requires i <= k <= |steps|
    decreases k
  {
    if k == i then 0 else Tried(steps, i, k - 1, h) + if Tries(steps[k - 1], h) then 1 else 0
  }

  ghost function One(b: bool): nat { if b then 1 else 0 }

  lemma StepTries(s: State, s': State, step: Step, h: Handle)
    requires !s.handler.Idle? && Next(s, s', step) && !step.Release?
    ensures !s'.handler.Idle? && One(h in s'.handler.todo) + One(Tries(step, h)) == One(h in s.handler.todo)
  {}

  lemma {:induction false} TriedSoFar(ss: seq<State>, steps: seq<Step>, i: nat, k: nat, g: int, h: Handle)
    requires Run(ss, steps) && i < k <= |steps| && steps[i] == Catch(g)
    requires forall j :: i < j < k ==> !steps[j].Release?
    ensures h in ss[i].tree ==> h in ss[i].handles
    ensures !ss[k].handler.Idle?
    ensures Tried(steps, i + 1, k, h) + One(h in ss[k].handler.todo) == One(h in ss[i].tree && ss[i].handles[h].signum == g)
    decreases k
  {
    hide Next, Start, Inv;
    RunInv(ss, steps, i);
    TreeKnown(ss[i]);
    assert Next(ss[k - 1], ss[k - 1 + 1], steps[k - 1]);
    if k == i + 1 {
      CatchTodo(ss[i], ss[k], g, h);
    } else {
      TriedSoFar(ss, steps, i, k - 1, g, h);
      StepTries(ss[k - 1], ss[k], steps[k - 1], h);
    }
  }

  lemma TreeKnown(s: State)
    requires Inv(s)
    ensures s.tree <= s.handles.Keys
  {}

  lemma CatchTodo(s: State, s': State, g: int, h: Handle)
    requires Next(s, s', Catch(g)) && s.tree <= s.handles.Keys
    ensures !s'.handler.Idle? && (h in s'.handler.todo <==> h in s.tree && s.handles[h].signum == g)
  {}

  /** The handle is started for `g`: it has the signal, and is not just being taken out. */
  ghost predicate StartedFor(s: State, h: Handle, g: int) {
    && h in s.handles && s.handles[h].signum == g && g != 0
    && (s.handles[h].loop in s.loops ==> !(s.loops[s.handles[h].loop].call.Clearing? && s.loops[s.handles[h].loop].call.h == h))
  }

  lemma StartedInTree(s: State, h: Handle, g: int)
    requires Inv(s) && g != 0
    ensures StartedFor(s, h, g) <==> h in s.tree && h in s.handles && s.handles[h].signum == g
  {
    hide LoopsOk, Of;
  }

  /** When a signal is caught, the handler comes exactly once to each handle started for it, and to no other. */
  lemma CatchTriesEach(ss: seq<State>, steps: seq<Step>, i: nat, k: nat, g: int, h: Handle)
    requires Run(ss, steps) && i < k < |steps| && steps[i] == Catch(g) && steps[k].Release?
    requires forall j :: i < j < k ==> !steps[j].Release?
    ensures |ss| == |steps| + 1 && Tried(steps, i + 1, k, h) == One(StartedFor(ss[i], h, g))
  {
    hide Next, Inv, StartedFor;
    RunInv(ss, steps, i);
    TriedSoFar(ss, steps, i, k, g, h);
    assert Next(ss[k], ss[k + 1], steps[k]) && Next(ss[i], ss[i + 1], steps[i]);
    ReleaseDone(ss[k], ss[k + 1]);
    CatchReal(ss[i], ss[i + 1], g);
    StartedInTree(ss[i], h, g);
  }

  lemma ReleaseDone(s: State, s': State)
    requires Next(s, s', Release)
    ensures !s.handler.Idle? && s.handler.todo == {}
  {}

  lemma CatchReal(s: State, s': State, g: int)
    requires Next(s, s', Catch(g))
    ensures g != 0
  {}

  // ---------------------------------------------------------------- from the pipe to the callback

  /** Messages of `g` for `h` that lie in the pipe or in the buffer of its loop. */
  ghost function Waiting(s: State, h: Handle, g: int): nat
    requires h in s.handles && s.handles[h].loop in s.loops
  {
    var l := s.loops[s.handles[h].loop];
    multiset(l.pipe)[Msg(h, g)] + multiset(l.rest)[Msg(h, g)]
  }

  /** The step begins the callback of `h` for `g`. */
  ghost predicate Begins(step: Step, s': State, h: Handle, g: int) {
    step.Dispatch? && step.l in s'.loops && s'.loops[step.l].stage == Calling(Msg(h, g))
  }

  ghost function Begun(ss: seq<State>, steps: seq<Step>, i: nat, k: nat, h: Handle, g: int): nat
    requires i <= k <= |steps| < |ss|
    decreases k
  {
    if k == i then 0 else Begun(ss, steps, i, k - 1, h, g) + One(Begins(steps[k - 1], ss[k], h, g))
  }

  ghost function Writes(steps: seq<Step>, i: nat, k: nat, h: Handle): nat
    requires i <= k <= |steps|
    decreases k
  {
    if k == i then 0 else Writes(steps, i, k - 1, h) + One(steps[k - 1] == Write(h))
  }

  ghost predicate Known(s: State, h: Handle) { h in s.handles && s.handles[h].loop in s.loops }

  lemma HandleKnown(s: State, h: Handle)
    requires Inv(s) && h in s.handles
    ensures Known(s, h)
  {}

  lemma OtherLoopSilent(s: State, l: LoopId, h: Handle, g: int)
    requires Inv(s) && h in s.handles && l in s.loops && s.handles[h].loop != l
    ensures Msg(h, g) !in s.loops[l].rest
  {
    hide HandlesOk;
    assert LoopOk(l, s.loops[l], s.handles);
  }

  lemma DispatchBegins(s: State, s': State, l: LoopId, h: Handle, g: int)
    requires Inv(s) && Next(s, s', Dispatch(l)) && Known(s, h) && Known(s', h) && s.handles[h].signum == g
    ensures Waiting(s', h, g) + One(Begins(Dispatch(l), s', h, g)) == Waiting(s, h, g)
  {
    hide Inv;
    var x := s.loops[l];
    assert [x.rest[0]] + x.rest[1..] == x.rest;
    assert multiset(x.rest) == multiset([x.rest[0]]) + multiset(x.rest[1..]);
    if s.handles[h].loop != l { OtherLoopSilent(s, l, h, g); assert x.rest[0] in x.rest; }
  }

  lemma ReadKeeps(s: State, s': State, l: LoopId, n: nat, h: Handle, g: int)
    requires Next(s, s', Read(l, n)) && Known(s, h) && Known(s', h)
    ensures Waiting(s', h, g) == Waiting(s, h, g)
  {
    var x := s.loops[l];
    assert x.pipe[..n] + x.pipe[n..] == x.pipe;
    assert multiset(x.pipe) == multiset(x.pipe[..n]) + multiset(x.pipe[n..]);
  }

  lemma WriteAdds(s: State, s': State, h0: Handle, h: Handle, g: int)
    requires TodoOk(s) && Next(s, s', Write(h0)) && Known(s, h) && Known(s', h) && s.handles[h].signum == g
    ensures Waiting(s', h, g) == Waiting(s, h, g) + One(h0 == h)
  {
    var x := s.loops[s.handles[h].loop];
    assert h0 == h ==> s.handler.signum == g;
    assert multiset(x.pipe + [Msg(h0, s.handler.signum)]) == multiset(x.pipe) + multiset([Msg(h0, s.handler.signum)]);
  }

  lemma OthersKeep(s: State, s': State, step: Step, h: Handle, g: int)
    requires Next(s, s', step) && !step.Write? && !step.Read? && !step.Dispatch? && Known(s, h) && Known(s', h)
    ensures Waiting(s', h, g) == Waiting(s, h, g)
  {
    hide MayCall, StopFrom, Continue;
    InfoKept(s, s', step);
  }

  lemma StepBalance(s: State, s': State, step: Step, h: Handle, g: int)
    requires Inv(s) && TodoOk(s) && Next(s, s', step) && Known(s, h) && Known(s', h) && s.handles[h].signum == g
    ensures Waiting(s', h, g) + One(Begins(step, s', h, g)) == Waiting(s, h, g) + One(step == Write(h))
  {
    hide Inv, TodoOk, Next, Waiting;
    match step
    case Write(h0) => WriteAdds(s, s', h0, h, g);
    case Read(l, n) => ReadKeeps(s, s', l, n, h, g);
    case Dispatch(l) => DispatchBegins(s, s', l, h, g);
    case _ => OthersKeep(s, s', step, h, g);
  }

  /** `h` has the signal `g` in all states from i to k. */
  ghost predicate Steady(ss: seq<State>, i: nat, k: nat, h: Handle, g: int) {
    forall j :: i <= j <= k && j < |ss| ==> h in ss[j].handles && ss[j].handles[h].signum == g
  }

  /** No message is lost and none is served twice: while a handle has the signal, the callbacks begun for it,
      with the messages still waiting, are the messages written for it, with those waiting at the start. */
  lemma {:induction false} EachCalledBack(ss: seq<State>, steps: seq<Step>, i: nat, k: nat, h: Handle, g: int)
    requires Run(ss, steps) && i <= k < |ss| && Steady(ss, i, k, h, g)
    ensures |ss| == |steps| + 1 && Known(ss[i], h) && Known(ss[k], h)
    ensures Begun(ss, steps, i, k, h, g) + Waiting(ss[k], h, g) == Writes(steps, i, k, h) + Waiting(ss[i], h, g)
    decreases k
  {
    hide Inv, Next, TodoOk, Waiting, Start;
    RunInv(ss, steps, i);
    HandleKnown(ss[i], h);
    if i < k {
      EachCalledBack(ss, steps, i, k - 1, h, g);
      RunInv(ss, steps, k - 1);
      RunInv(ss, steps, k);
      RunTodo(ss, steps, k - 1);
      HandleKnown(ss[k], h);
      assert Next(ss[k - 1], ss[k - 1 + 1], steps[k - 1]);
      StepBalance(ss[k - 1], ss[k], steps[k - 1], h, g);
    }
  }

  // ---------------------------------------------------------------- in order

  /** The message that the step writes to the pipe of loop `l`. */
  ghost function WrittenBy(s: State, step: Step, l: LoopId): seq<Msg> {
    if step.Write? && !s.handler.Idle? && Known(s, step.h) && s.handles[step.h].loop == l
    then [Msg(step.h, s.handler.signum)] else []
  }

  /** The message that the step makes loop `l` take up: to begin a callback for it, or to count it at once. */
  ghost function TakenBy(s': State, step: Step, l: LoopId): seq<Msg> {
    if step == Dispatch(l) && l in s'.loops && (s'.loops[l].stage.Calling? || s'.loops[l].stage.Counting?)
    then [s'.loops[l].stage.msg] else []
  }

  ghost function Written(ss: seq<State>, steps: seq<Step>, k: nat, l: LoopId): seq<Msg>
    requires k <= |steps| < |ss|
  {
    if k == 0 then [] else Written(ss, steps, k - 1, l) + WrittenBy(ss[k - 1], steps[k - 1], l)
  }

  ghost function Taken(ss: seq<State>, steps: seq<Step>, k: nat, l: LoopId): seq<Msg>
    requires k <= |steps| < |ss|
  {
    if k == 0 then [] else Taken(ss, steps, k - 1, l) + TakenBy(ss[k], steps[k - 1], l)
  }

  ghost function Held(s: State, l: LoopId): seq<Msg>
    requires l in s.loops
  {
    s.loops[l].rest + s.loops[l].pipe
  }

  lemma StepOrder(s: State, s': State, step: Step, l: LoopId)
    requires Next(s, s', step) && l in s.loops
    ensures l in s'.loops && TakenBy(s', step, l) + Held(s', l) == Held(s, l) + WrittenBy(s, step, l)
  {
    hide MayCall, StopFrom, Continue, IfDrained;
    var x := s.loops[l];
    if step == Dispatch(l) {
      assert x.rest == [x.rest[0]] + x.rest[1..];
    } else if step.Read? && step.l == l {
      assert x.rest + x.pipe == x.pipe[..step.n] + x.pipe[step.n..];
    }
  }

  /** What a loop takes up, and what waits for it, is what was written to its pipe, in order. */
  lemma {:induction false} InOrder(ss: seq<State>, steps: seq<Step>, k: nat, l: LoopId)
    requires Run(ss, steps) && k < |ss| && l in ss[0].loops
    ensures l in ss[k].loops && |ss| == |steps| + 1
    ensures Taken(ss, steps, k, l) + Held(ss[k], l) == Written(ss, steps, k, l)
    decreases k
  {
    hide Next;
    if k > 0 {
      InOrder(ss, steps, k - 1, l);
      assert Next(ss[k - 1], ss[k - 1 + 1], steps[k - 1]);
      var s, s', step := ss[k - 1], ss[k], steps[k - 1];
      StepOrder(s, s', step, l);
      Regroup(Taken(ss, steps, k - 1, l), TakenBy(s', step, l), Held(s', l), Held(s, l), WrittenBy(s, step, l));
    }
  }

  lemma Regroup(t: seq<Msg>, a: seq<Msg>, b: seq<Msg>, c: seq<Msg>, d: seq<Msg>)
    requires a + b == c + d
    ensures t + a + b == t + c + d
  {
    assert t + a + b == t + (a + b);
    assert t + c + d == t + (c + d);
  }

  /** A message taken up begins a callback iff its handle still has the signal. */
  lemma TakenCalls(ss: seq<State>, steps: seq<Step>, k: nat, l: LoopId)
    requires Run(ss, steps) && k < |steps| && steps[k] == Dispatch(l)
    ensures |ss| == |steps| + 1 && |TakenBy(ss[k + 1], steps[k], l)| == 1
    ensures var m := TakenBy(ss[k + 1], steps[k], l)[0];
            m.handle in ss[k].handles && (Begins(steps[k], ss[k + 1], m.handle, m.signum) <==> ss[k].handles[m.handle].signum == m.signum)
  {
    assert Next(ss[k], ss[k + 1], steps[k]);
  }

  lemma InitHas(s: State, s': State, h: Handle, l: LoopId)
    requires Next(s, s', Init(h, l))
    ensures h in s'.handles && s'.handles[h].loop == l
  {}

  lemma {:induction false} LoopOfHandle(ss: seq<State>, steps: seq<Step>, i: nat, k: nat, h: Handle, l: LoopId)
    requires Run(ss, steps) && i < k < |ss| && steps[i] == Init(h, l)
    ensures h in ss[k].handles && ss[k].handles[h].loop == l
    decreases k
  {
    hide Next, Start;
    assert Next(ss[k - 1], ss[k - 1 + 1], steps[k - 1]);
    if k == i + 1 {
      InitHas(ss[i], ss[k], h, l);
    } else {
      LoopOfHandle(ss, steps, i, k - 1, h, l);
      InfoKept(ss[k - 1], ss[k], steps[k - 1]);
    }
  }

  /** A callback runs on the thread of the loop that its handle was initialised for. */
  lemma CalledOnOwnLoop(ss: seq<State>, steps: seq<Step>, i: nat, k: nat, h: Handle, l: LoopId, g: int)
    requires Run(ss, steps) && i < k < |steps| && steps[i] == Init(h, l)
    requires |ss| > k + 1 && Begins(steps[k], ss[k + 1], h, g)
    ensures steps[k] == Dispatch(l)
  {
    hide HandlesOk, Start;
    LoopOfHandle(ss, steps, i, k, h, l);
    RunInv(ss, steps, k);
    assert Next(ss[k], ss[k + 1], steps[k]);
    var l' := steps[k].l;
    assert Msg(h, g) == ss[k].loops[l'].rest[0];
    if l' != l { OtherLoopSilent(ss[k], l', h, g); }
  }

  // ---------------------------------------------------------------- the calls of the loop threads

  /** The handle a call is about and what it is to leave behind. */
  ghost function Aim(c: Call): (Handle, Then)
    requires !c.NoCall?
  {
    match c
    case Removing(h, a) => (h, a)
    case Clearing(h, a) => (h, a)
    case Adding(h, g) => (h, Restart(g))
    case CloseTest(h) => (h, FinishClose)
  }

  /** What a call leaves when it returns; `ok` is what uv_signal_start's registration answered. */
  ghost predicate Achieved(x: Info, a: Then, ok: bool) {
    match a
    case Return => x.signum == 0 && !x.closing
    case Restart(g) => x.signum == (if ok then g else 0) && !x.closing
    case FinishClose => x.signum == 0 && x.closing
  }

  lemma CallGoesOn(s: State, s': State, step: Step, l: LoopId)
    requires Inv(s) && Next(s, s', step) && l in s.loops && !s.loops[l].call.NoCall?
    ensures l in s'.loops
    ensures !s'.loops[l].call.NoCall? ==> Aim(s'.loops[l].call) == Aim(s.loops[l].call)
    ensures var t := Aim(s.loops[l].call);
            s'.loops[l].call.NoCall? ==> t.0 in s'.handles && Achieved(s'.handles[t.0], t.1, step != Add(l, false))
  {
    hide Inv;
    CallLoop(s, l);
    hide Undispatched, Window;
  }

  lemma {:induction false} AimReached(ss: seq<State>, steps: seq<Step>, i: nat, k: nat, l: LoopId)
    requires Run(ss, steps) && i < k < |ss| && l in ss[0].loops && l in ss[i].loops && l in ss[k].loops
    requires forall j :: i <= j < k && l in ss[j].loops ==> !ss[j].loops[l].call.NoCall?
    ensures var t := Aim(ss[i].loops[l].call);
            if ss[k].loops[l].call.NoCall? then t.0 in ss[k].handles && Achieved(ss[k].handles[t.0], t.1, steps[k - 1] != Add(l, false))
            else Aim(ss[k].loops[l].call) == t
    decreases k
  {
    hide Next, Inv, Aim, Achieved, Start;
    InOrder(ss, steps, k - 1, l);
    if k > i + 1 { AimReached(ss, steps, i, k - 1, l); }
    RunInv(ss, steps, k - 1);
    assert Next(ss[k - 1], ss[k - 1 + 1], steps[k - 1]);
    CallGoesOn(ss[k - 1], ss[k], steps[k - 1], l);
  }

  /** The step calls uv_signal_start for a real signal, uv_signal_stop or uv_close for `h`. */
  ghost predicate Calls(step: Step, l: LoopId, h: Handle, a: Then) {
    match a
    case Return => step == CallStop(l, h)
    case Restart(g) => g != 0 && step == CallStart(l, h, g)
    case FinishClose => step == CallClose(l, h)
  }

  lemma CallBegins(s: State, s': State, step: Step, l: LoopId, h: Handle, a: Then)
    requires Next(s, s', step) && Calls(step, l, h, a)
    ensures l in s'.loops && h in s'.handles
    ensures if s'.loops[l].call.NoCall? then Achieved(s'.handles[h], a, true)
            else Aim(s'.loops[l].call) == (h, a)
  {}

  /** The calls do what they are for: when uv_signal_start returns, the handle has the signal, or none if the
      registration was refused; when uv_signal_stop returns it has none; and when uv_close returns it has
      none and is closing. */
  lemma CallsAchieve(ss: seq<State>, steps: seq<Step>, i: nat, k: nat, l: LoopId, h: Handle, a: Then)
    requires Run(ss, steps) && i < k < |ss| && l in ss[0].loops && Calls(steps[i], l, h, a)
    requires l in ss[k].loops && ss[k].loops[l].call.NoCall?
    requires forall j :: i < j < k && l in ss[j].loops ==> !ss[j].loops[l].call.NoCall?
    ensures h in ss[k].handles && Achieved(ss[k].handles[h], a, steps[k - 1] != Add(l, false))
  {
    hide Next, Aim, Achieved, Start;
    InOrder(ss, steps, i + 1, l);
    assert Next(ss[i], ss[i + 1], steps[i]);
    CallBegins(ss[i], ss[i + 1], steps[i], l, h, a);
    if k > i + 1 {
      AimReached(ss, steps, i + 1, k, l);
    }
  }

  /** Nothing but a call on the handle changes its signal. */
  ghost predicate Quiet(s: State, h: Handle, g: int) {
    && Known(s, h) && s.handles[h].signum == g && !CallOn(s.loops[s.handles[h].loop].call, h)
  }

  ghost predicate LeavesAlone(step: Step, h: Handle, g: int) {
    && (step.CallStart? ==> step.h != h || step.signum == g || step.signum == 0)
    && (step.CallStop? || step.CallClose? ==> step.h != h)
  }

  lemma StaysQuiet(s: State, s': State, step: Step, h: Handle, g: int)
    requires Inv(s) && Next(s, s', step) && Quiet(s, h, g) && LeavesAlone(step, h, g)
    ensures Quiet(s', h, g)
  {
    hide HandlesOk;
    InfoKept(s, s', step);
    if step.Clear? || step.Add? || step.TestClose? || step.Remove? {
      assert LoopOk(step.l, s.loops[step.l], s.handles);
      CallQuiet(s, s', step, h, g);
    } else {
      hide Inv;
      OtherQuiet(s, s', step, h, g);
    }
  }

  lemma CallQuiet(s: State, s': State, step: Step, h: Handle, g: int)
    requires Next(s, s', step) && Quiet(s, h, g) && (step.Clear? || step.Add? || step.TestClose? || step.Remove?)
    requires s.loops[step.l].call.h in s.handles && s.handles[s.loops[step.l].call.h].loop == step.l
    ensures Quiet(s', h, g)
  {}

  lemma OtherQuiet(s: State, s': State, step: Step, h: Handle, g: int)
    requires Next(s, s', step) && Quiet(s, h, g) && LeavesAlone(step, h, g)
    requires !step.Clear? && !step.Add? && !step.TestClose? && !step.Remove?
    ensures Quiet(s', h, g)
  {}

  /** A handle keeps its signal while no uv_signal_start for another one, no uv_signal_stop and no uv_close is
      called for it. */
  lemma {:induction false} StaysSteady(ss: seq<State>, steps: seq<Step>, i: nat, k: nat, h: Handle, g: int)
    requires Run(ss, steps) && i <= k < |ss| && Quiet(ss[i], h, g)
    requires forall j :: i <= j < k ==> LeavesAlone(steps[j], h, g)
    ensures Steady(ss, i, k, h, g) && Quiet(ss[k], h, g)
    decreases k
  {
    hide Next, Inv, Start;
    if i < k {
      StaysSteady(ss, steps, i, k - 1, h, g);
      RunInv(ss, steps, k - 1);
      assert Next(ss[k - 1], ss[k - 1 + 1], steps[k - 1]);
      StaysQuiet(ss[k - 1], ss[k], steps[k - 1], h, g);
    }
  }
}
