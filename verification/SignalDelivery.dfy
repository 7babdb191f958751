/** Delivery of caught signals to their handles (src/unix/signal.c): the signal handler, the loops'
    dispatch of messages and the API calls of the loop threads, as a step system with any number
    of loops, handles and signals. Sections under the signal lock without another shared access
    are one step; the handler, which writes to the pipes under the lock, is not. Which watchers it
    comes to is the subject of SignalRegistry. */
module SignalDelivery {

  type Handle = nat
  type LoopId = nat

  datatype Msg = Msg(handle: Handle, signum: int)

  /** `listed` counts the calls of uv__make_close_pending for the handle. */
  datatype Info = Info(loop: LoopId, signum: int, closing: bool, caught: nat, dispatched: nat, listed: nat)

  /** What follows once uv__signal_stop returns. */
  datatype Then = Return | Restart(signum: int) | FinishClose

  /** Where a loop thread is inside an API call. */
  datatype Call =
    | NoCall
    | Removing(h: Handle, after: Then)     // in uv__signal_stop, before the lock
    | Clearing(h: Handle, after: Then)     // the lock is released; before `signum = 0`
    | Adding(h: Handle, signum: int)       // in uv_signal_start, before the lock
    | CloseTest(h: Handle)                 // in uv__signal_close, before the counters are compared

  /** Where a loop thread is inside uv__signal_event. */
  datatype Stage =
    | AtLoop                               // before a read, or at the head of the for loop
    | Calling(msg: Msg)                    // inside signal_cb
    | Counting(msg: Msg)                   // before dispatched_signals++
    | Testing(h: Handle)                   // before the test for a deferred close

  /** `rest` is what remains of the messages read into the buffer. */
  datatype Loop = Loop(pipe: seq<Msg>, rest: seq<Msg>, stage: Stage, call: Call)

  /** The signal handler that holds the lock. */
  datatype Handler =
    | Idle
    | Sending(signum: int, todo: set<Handle>)
    | Wrote(signum: int, todo: set<Handle>, h: Handle)   // before caught_signals++

  datatype State = State(handles: map<Handle, Info>, loops: map<LoopId, Loop>, tree: set<Handle>, handler: Handler)

  datatype Step =
    | Init(h: Handle, l: LoopId)
    | CallStart(l: LoopId, h: Handle, signum: int)
    | CallStop(l: LoopId, h: Handle)
    | CallClose(l: LoopId, h: Handle)
    | Remove(l: LoopId)
    | Clear(l: LoopId)
    | Add(l: LoopId, registered: bool)
    | TestClose(l: LoopId)
    | Catch(signum: int)
    | Write(h: Handle)
    | PipeFull(h: Handle)
    | Increment
    | Release
    | Read(l: LoopId, n: nat)
    | Dispatch(l: LoopId)
    | CallbackReturns(l: LoopId)
    | Count(l: LoopId)
    | TestDeferred(l: LoopId)

  /** The buffer of uv__signal_event holds this many messages. */
  const BatchSize := 32

  ghost function SetLoop(s: State, l: LoopId, x: Loop): State { s.(loops := s.loops[l := x]) }
  ghost function SetInfo(s: State, h: Handle, x: Info): State { s.(handles := s.handles[h := x]) }
  ghost function SetCall(s: State, l: LoopId, c: Call): State
    requires l in s.loops
  {
    SetLoop(s, l, s.loops[l].(call := c))
  }
  ghost function SetStage(s: State, l: LoopId, g: Stage): State
    requires l in s.loops
  {
    SetLoop(s, l, s.loops[l].(stage := g))
  }

  /** A loop thread may make an API call on one of its handles outside uv__signal_event or from a callback. */
  ghost predicate MayCall(s: State, l: LoopId, h: Handle) {
    l in s.loops && h in s.handles && s.handles[h].loop == l && s.loops[l].call.NoCall?
    && ((s.loops[l].stage.AtLoop? && s.loops[l].rest == []) || s.loops[l].stage.Calling?)
  }

  /** uv__signal_stop returns: go on with the call it was made from. */
  ghost function Continue(h: Handle, after: Then): Call {
    match after
    case Return => NoCall
    case Restart(g) => Adding(h, g)
    case FinishClose => CloseTest(h)
  }

  /** uv__signal_stop: nothing to do unless the handle was started. */
  ghost function StopFrom(x: Info, h: Handle, after: Then): Call {
    if x.signum == 0 then Continue(h, after) else Removing(h, after)
  }

  ghost predicate Next(s: State, s': State, step: Step) {
    match step
    case Init(h, l) =>
      h !in s.handles && l in s.loops && s.loops[l].call.NoCall?
      && s' == SetInfo(s, h, Info(l, 0, false, 0, 0, 0))
    case CallStart(l, h, g) =>
      MayCall(s, l, h) && !s.handles[h].closing
      && (if g == 0 || g == s.handles[h].signum then s' == s
          else s' == SetCall(s, l, StopFrom(s.handles[h], h, Restart(g))))
    case CallStop(l, h) =>
      MayCall(s, l, h) && !s.handles[h].closing && s' == SetCall(s, l, StopFrom(s.handles[h], h, Return))
    case CallClose(l, h) =>
      MayCall(s, l, h) && !s.handles[h].closing
      && s' == SetCall(SetInfo(s, h, s.handles[h].(closing := true)), l, StopFrom(s.handles[h], h, FinishClose))
    case Remove(l) =>
      l in s.loops && s.loops[l].call.Removing? && s.handler.Idle? &&
      (var c := s.loops[l].call; s' == SetCall(s, l, Clearing(c.h, c.after)).(tree := s.tree - {c.h}))
    case Clear(l) =>
      l in s.loops && s.loops[l].call.Clearing? && s.loops[l].call.h in s.handles &&
      (var c := s.loops[l].call;
       s' == SetCall(SetInfo(s, c.h, s.handles[c.h].(signum := 0)), l, Continue(c.h, c.after)))
    case Add(l, registered) =>
      l in s.loops && s.loops[l].call.Adding? && s.loops[l].call.h in s.handles && s.handler.Idle? &&
      (var c := s.loops[l].call;
       if registered then
         s' == SetCall(SetInfo(s, c.h, s.handles[c.h].(signum := c.signum)), l, NoCall).(tree := s.tree + {c.h})
       else s' == SetCall(s, l, NoCall))
    case TestClose(l) =>
      l in s.loops && s.loops[l].call.CloseTest? && s.loops[l].call.h in s.handles &&
      (var h := s.loops[l].call.h;
       s' == SetCall(SetInfo(s, h, IfDrained(s.handles[h])), l, NoCall))
    case Catch(g) =>
      g != 0 && s.handler.Idle?
      && s' == s.(handler := Sending(g, set h | h in s.tree && h in s.handles && s.handles[h].signum == g))
    case Write(h) =>
      s.handler.Sending? && h in s.handler.todo && h in s.handles && s.handles[h].loop in s.loops &&
      (var l := s.handles[h].loop;
       s' == SetLoop(s, l, s.loops[l].(pipe := s.loops[l].pipe + [Msg(h, s.handler.signum)]))
             .(handler := Wrote(s.handler.signum, s.handler.todo - {h}, h)))
    case PipeFull(h) =>
      s.handler.Sending? && h in s.handler.todo && s' == s.(handler := Sending(s.handler.signum, s.handler.todo - {h}))
    case Increment =>
      s.handler.Wrote? && s.handler.h in s.handles &&
      (var x := s.handles[s.handler.h];
       s' == SetInfo(s, s.handler.h, x.(caught := x.caught + 1)).(handler := Sending(s.handler.signum, s.handler.todo)))
    case Release =>
      s.handler.Sending? && s.handler.todo == {} && s' == s.(handler := Idle)
    case Read(l, n) =>
      l in s.loops && s.loops[l].call.NoCall? && s.loops[l].stage.AtLoop? && s.loops[l].rest == []
      && 0 < n <= BatchSize && n <= |s.loops[l].pipe|
      && s' == SetLoop(s, l, s.loops[l].(pipe := s.loops[l].pipe[n..], rest := s.loops[l].pipe[..n]))
    case Dispatch(l) =>
      l in s.loops && s.loops[l].call.NoCall? && s.loops[l].stage.AtLoop? && s.loops[l].rest != [] &&
      (var m := s.loops[l].rest[0];
       m.handle in s.handles &&
       s' == SetLoop(s, l, s.loops[l].(rest := s.loops[l].rest[1..],
                     stage := if m.signum == s.handles[m.handle].signum then Calling(m) else Counting(m))))
    case CallbackReturns(l) =>
      l in s.loops && s.loops[l].call.NoCall? && s.loops[l].stage.Calling?
      && s' == SetStage(s, l, Counting(s.loops[l].stage.msg))
    case Count(l) =>
      l in s.loops && s.loops[l].stage.Counting? && s.loops[l].stage.msg.handle in s.handles &&
      (var h := s.loops[l].stage.msg.handle;
       s' == SetStage(SetInfo(s, h, s.handles[h].(dispatched := s.handles[h].dispatched + 1)), l, Testing(h)))
    case TestDeferred(l) =>
      l in s.loops && s.loops[l].stage.Testing? && s.loops[l].stage.h in s.handles &&
      (var h := s.loops[l].stage.h;
       var x := s.handles[h];
       s' == SetStage(SetInfo(s, h, if x.closing then IfDrained(x) else x), l, AtLoop))
  }

  /** uv__make_close_pending if every caught signal has been dispatched. */
  ghost function IfDrained(x: Info): Info {
    if x.caught == x.dispatched then x.(listed := x.listed + 1) else x
  }

  // ---------------------------------------------------------------- the invariant

  ghost function Of(ms: seq<Msg>, h: Handle): nat {
    if ms == [] then 0 else (if ms[0].handle == h then 1 else 0) + Of(ms[1..], h)
  }

  ghost function InHand(g: Stage, h: Handle): nat {
    if (g.Calling? || g.Counting?) && g.msg.handle == h then 1 else 0
  }

  /** Messages for `h` that have been written and not yet counted as dispatched. */
  ghost function Undispatched(l: Loop, h: Handle): nat {
    Of(l.pipe, h) + Of(l.rest, h) + InHand(l.stage, h)
  }

  ghost function Window(g: Handler, h: Handle): nat { if g.Wrote? && g.h == h then 1 else 0 }

  ghost predicate CallOn(c: Call, h: Handle) { !c.NoCall? && c.h == h }

  ghost predicate Closing(c: Call, h: Handle) {
    CallOn(c, h) && (c.CloseTest? || ((c.Removing? || c.Clearing?) && c.after.FinishClose?))
  }

  ghost predicate HandleOk(h: Handle, x: Info, l: Loop, inTree: bool, w: nat) {
    && Undispatched(l, h) + x.dispatched == x.caught + w
    && (inTree ==> x.signum != 0)
    && (x.signum != 0 && !inTree <==> l.call.Clearing? && l.call.h == h)
    && (w > 0 ==> inTree)
    && (CallOn(l.call, h) ==> (l.call.Removing? <==> inTree))
    && (CallOn(l.call, h) ==> x.listed == 0 && (x.closing <==> Closing(l.call, h)))
    && (CallOn(l.call, h) && l.call.Adding? ==> l.call.signum != 0)
    && (CallOn(l.call, h) && (l.call.Removing? || l.call.Clearing?) && l.call.after.Restart? ==> l.call.after.signum != 0)
    && (x.closing ==> x.signum == 0 || Closing(l.call, h))
    && (x.listed > 0 ==> x.closing && x.listed == 1 && Undispatched(l, h) == 0 && l.stage != Testing(h))
    && (x.closing && x.listed == 0 ==> Undispatched(l, h) > 0 || Closing(l.call, h) || l.stage == Testing(h))
  }

  ghost predicate MsgOk(m: Msg, l: LoopId, hs: map<Handle, Info>) {
    m.signum != 0 && m.handle in hs && hs[m.handle].loop == l
  }

  ghost predicate AllMsgsOk(pipe: seq<Msg>, rest: seq<Msg>, l: LoopId, hs: map<Handle, Info>) {
    forall m :: m in pipe || m in rest ==> MsgOk(m, l, hs)
  }

  ghost predicate LoopOk(l: LoopId, x: Loop, hs: map<Handle, Info>) {
    && AllMsgsOk(x.pipe, x.rest, l, hs)
    && (x.stage.Calling? || x.stage.Counting? ==> MsgOk(x.stage.msg, l, hs))
    && (x.stage.Testing? ==> x.stage.h in hs && hs[x.stage.h].loop == l)
    && (!x.call.NoCall? ==> (x.stage.AtLoop? || x.stage.Calling?) && x.call.h in hs && hs[x.call.h].loop == l)
  }

  ghost predicate HandlesOk(s: State) {
    forall h :: h in s.handles ==>
      s.handles[h].loop in s.loops
      && HandleOk(h, s.handles[h], s.loops[s.handles[h].loop], h in s.tree, Window(s.handler, h))
  }

  ghost predicate LoopsOk(s: State) {
    forall l :: l in s.loops ==> LoopOk(l, s.loops[l], s.handles)
  }

  ghost predicate HandlerOk(g: Handler, tree: set<Handle>) {
    g.Idle? || (g.signum != 0 && g.todo <= tree && (g.Wrote? ==> g.h in tree))
  }

  ghost predicate Inv(s: State) {
    HandlesOk(s) && LoopsOk(s) && HandlerOk(s.handler, s.tree) && s.tree <= s.handles.Keys
  }

  // ---------------------------------------------------------------- counting

  lemma {:induction false} OfAppend(a: seq<Msg>, b: seq<Msg>, h: Handle)
    ensures Of(a + b, h) == Of(a, h) + Of(b, h)
  {
    if a == [] { assert a + b == b; }
    else {
      OfAppend(a[1..], b, h);
      assert (a + b)[1..] == a[1..] + b;
    }
  }

  lemma {:induction false} OfNone(ms: seq<Msg>, h: Handle)
    requires forall m :: m in ms ==> m.handle != h
    ensures Of(ms, h) == 0
  {
    if ms != [] { OfNone(ms[1..], h); }
  }

  // ---------------------------------------------------------------- steps

  /** What a step leaves of one handle's invariant. */
  ghost predicate HandleKept(s: State, s': State, h: Handle) {
    h in s.handles ==>
      h in s'.handles && s'.handles[h].loop == s.handles[h].loop && s'.handles[h].loop in s'.loops
      && HandleOk(h, s'.handles[h], s'.loops[s'.handles[h].loop], h in s'.tree, Window(s'.handler, h))
  }

  ghost predicate Before(s: State, h: Handle) {
    h in s.handles && s.handles[h].loop in s.loops && LoopsOk(s) && HandlerOk(s.handler, s.tree)
    && HandleOk(h, s.handles[h], s.loops[s.handles[h].loop], h in s.tree, Window(s.handler, h))
  }

  lemma CallHandle(s: State, s': State, step: Step, h: Handle)
    requires Before(s, h) && Next(s, s', step)
    requires step.Init? || step.CallStart? || step.CallStop? || step.CallClose?
    ensures HandleKept(s, s', h)
  {
    hide Of;
  }

  lemma LockedHandle(s: State, s': State, step: Step, h: Handle)
    requires Before(s, h) && Next(s, s', step) && (step.Remove? || step.Clear?)
    ensures HandleKept(s, s', h)
  {
    hide Of, HandlerOk;
  }

  lemma AddHandle(s: State, s': State, step: Step, h: Handle)
    requires Before(s, h) && Next(s, s', step) && (step.Add? || step.TestClose?)
    ensures HandleKept(s, s', h)
  {
    hide Undispatched, HandlerOk;
    var k, l := s.handles[h].loop, step.l;
    UndispatchedCall(s.loops[k], NoCall, h);
    assert LoopOk(l, s.loops[l], s.handles);
    if l == k {
      assert s'.loops[k] == s.loops[k].(call := NoCall);
    } else {
      assert s'.loops[k] == s.loops[k] && s'.handles[h] == s.handles[h];
    }
  }

  lemma UndispatchedCall(l: Loop, c: Call, h: Handle)
    ensures Undispatched(l.(call := c), h) == Undispatched(l, h)
  {}

  lemma HandlerHandle(s: State, s': State, step: Step, h: Handle)
    requires Before(s, h) && Next(s, s', step)
    requires step.Catch? || step.Write? || step.PipeFull? || step.Increment? || step.Release?
    ensures HandleKept(s, s', h)
  {
    hide Of;
    if step.Write? {
      var m := Msg(step.h, s.handler.signum);
      OfAppend(s.loops[s.handles[h].loop].pipe, [m], h);
      OfOne(m, h);
    }
  }

  lemma LoopHandle(s: State, s': State, step: Step, h: Handle)
    requires Before(s, h) && Next(s, s', step)
    requires step.CallbackReturns? || step.Count? || step.TestDeferred?
    ensures HandleKept(s, s', h)
  {
    hide Of, HandlerOk;
  }

  lemma ReadHandle(s: State, s': State, step: Step, h: Handle)
    requires Before(s, h) && Next(s, s', step) && (step.Read? || step.Dispatch?)
    ensures HandleKept(s, s', h)
  {
    hide Of, HandlerOk;
    var k := s.handles[h].loop;
    var l := s.loops[k];
    if step.Read? && step.l == k {
      OfAppend(l.pipe[..step.n], l.pipe[step.n..], h);
      assert l.pipe[..step.n] + l.pipe[step.n..] == l.pipe;
      OfEmpty(h);
    }
    if step.Dispatch? && step.l == k {
      OfAppend([l.rest[0]], l.rest[1..], h);
      OfOne(l.rest[0], h);
      assert [l.rest[0]] + l.rest[1..] == l.rest;
    }
  }

  lemma OfOne(m: Msg, h: Handle)
    ensures Of([m], h) == if m.handle == h then 1 else 0
  {}

  lemma OfEmpty(h: Handle)
    ensures Of([], h) == 0
  {}

  lemma NewHandle(s: State, s': State, h: Handle, l: LoopId)
    requires Inv(s) && Next(s, s', Init(h, l))
    ensures HandleOk(h, s'.handles[h], s'.loops[l], h in s'.tree, Window(s'.handler, h))
  {
    var x := s.loops[l];
    assert LoopOk(l, x, s.handles);
    OfNone(x.pipe, h);
    OfNone(x.rest, h);
  }

  /** No step takes a handle away or moves it to another loop. */
  lemma InfoKept(s: State, s': State, step: Step)
    requires Next(s, s', step)
    ensures s.handles.Keys <= s'.handles.Keys && s.loops.Keys == s'.loops.Keys
    ensures forall h :: h in s.handles ==> s'.handles[h].loop == s.handles[h].loop
    ensures forall h :: h in s'.handles && h !in s.handles ==> step.Init? && step.h == h
  {}

  lemma StepLoop(s: State, s': State, step: Step, l: LoopId)
    requires Inv(s) && Next(s, s', step) && l in s'.loops
    ensures LoopOk(l, s'.loops[l], s'.handles)
  {
    InfoKept(s, s', step);
    var x, x' := s.loops[l], s'.loops[l];
    assert LoopOk(l, x, s.handles);
    LoopGrows(l, x, s.handles, s'.handles);
    if step.Write? || step.Read? || step.Dispatch? {
      MessagesOk(s, s', step, l);
    } else {
      ThreadOk(s, s', step, l);
    }
  }

  lemma MessagesOk(s: State, s': State, step: Step, l: LoopId)
    requires Next(s, s', step) && (step.Write? || step.Read? || step.Dispatch?)
    requires l in s.loops && l in s'.loops && LoopOk(l, s.loops[l], s'.handles)
    requires step.Write? ==> HandlerOk(s.handler, s.tree)
    ensures LoopOk(l, s'.loops[l], s'.handles)
  {
    var x, x' := s.loops[l], s'.loops[l];
    if x' != x && step.Write? {
      assert MsgOk(x'.pipe[|x.pipe|], l, s'.handles);
      assert forall m :: m in x'.pipe ==> m in x.pipe || m == x'.pipe[|x.pipe|];
    } else if x' != x && step.Read? {
      assert forall m :: m in x'.pipe || m in x'.rest ==> m in x.pipe;
    } else if x' != x {
      assert x.rest[0] in x.rest && forall m :: m in x'.rest ==> m in x.rest;
    }
  }

  lemma ThreadOk(s: State, s': State, step: Step, l: LoopId)
    requires Next(s, s', step) && !step.Write? && !step.Read? && !step.Dispatch?
    requires l in s.loops && l in s'.loops && LoopOk(l, s.loops[l], s'.handles)
    ensures LoopOk(l, s'.loops[l], s'.handles)
  {
    hide AllMsgsOk;
    assert s'.loops[l].pipe == s.loops[l].pipe && s'.loops[l].rest == s.loops[l].rest;
  }

  lemma LoopGrows(l: LoopId, x: Loop, hs: map<Handle, Info>, hs': map<Handle, Info>)
    requires LoopOk(l, x, hs) && forall h :: h in hs ==> h in hs' && hs'[h].loop == hs[h].loop
    ensures LoopOk(l, x, hs')
  {}

  lemma StepHandler(s: State, s': State, step: Step)
    requires Inv(s) && Next(s, s', step)
    ensures HandlerOk(s'.handler, s'.tree) && s'.tree <= s'.handles.Keys
  {
    hide HandleOk, LoopsOk, HandlesOk;
  }

  lemma NextInv(s: State, s': State, step: Step)
    requires Inv(s) && Next(s, s', step)
    ensures Inv(s')
  {
    hide HandleOk, LoopOk, Next, HandlerOk;
    InfoKept(s, s', step);
    StepHandler(s, s', step);
    forall l | l in s'.loops ensures LoopOk(l, s'.loops[l], s'.handles) { StepLoop(s, s', step, l); }
    forall h | h in s.handles ensures HandleKept(s, s', h) {
      match step {
        case Init(_, _) => CallHandle(s, s', step, h);
        case CallStart(_, _, _) => CallHandle(s, s', step, h);
        case CallStop(_, _) => CallHandle(s, s', step, h);
        case CallClose(_, _) => CallHandle(s, s', step, h);
        case Remove(_) => LockedHandle(s, s', step, h);
        case Clear(_) => LockedHandle(s, s', step, h);
        case Add(_, _) => AddHandle(s, s', step, h);
        case TestClose(_) => AddHandle(s, s', step, h);
        case Read(_, _) => ReadHandle(s, s', step, h);
        case Dispatch(_) => ReadHandle(s, s', step, h);
        case CallbackReturns(_) => LoopHandle(s, s', step, h);
        case Count(_) => LoopHandle(s, s', step, h);
        case TestDeferred(_) => LoopHandle(s, s', step, h);
        case _ => HandlerHandle(s, s', step, h);
      }
    }
    if step.Init? {
      NewHandle(s, s', step.h, step.l);
      InitLoop(s, s', step.h, step.l);
    }
  }

  lemma InitLoop(s: State, s': State, h: Handle, l: LoopId)
    requires Next(s, s', Init(h, l))
    ensures s'.handles[h].loop == l && l in s'.loops
  {}

  // ---------------------------------------------------------------- whole runs

  ghost predicate Start(s: State) {
    s.handles == map[] && s.tree == {} && s.handler.Idle?
    && forall l :: l in s.loops ==> s.loops[l] == Loop([], [], AtLoop, NoCall)
  }

  ghost predicate Run(ss: seq<State>, steps: seq<Step>) {
    |ss| == |steps| + 1 && Start(ss[0]) && forall i :: 0 <= i < |steps| ==> Next(ss[i], ss[i + 1], steps[i])
  }

  lemma {:induction false} RunInv(ss: seq<State>, steps: seq<Step>, k: nat)
    requires Run(ss, steps) && k < |ss|
    ensures Inv(ss[k])
  {
    hide Inv, Next;
    if k == 0 {
      StartInv(ss[0]);
    } else {
      RunInv(ss, steps, k - 1);
      assert Next(ss[k - 1], ss[k - 1 + 1], steps[k - 1]);
      NextInv(ss[k - 1], ss[k], steps[k - 1]);
    }
  }

  lemma StartInv(s: State)
    requires Start(s)
    ensures Inv(s)
  {}

  /** Everything written is accounted for, and the handler's window adds at most one. */
  lemma Accounted(ss: seq<State>, steps: seq<Step>, k: nat, h: Handle)
    requires Run(ss, steps) && k < |ss| && h in ss[k].handles
    ensures var s, x := ss[k], ss[k].handles[h];
            x.loop in s.loops
            && Undispatched(s.loops[x.loop], h) + x.dispatched
               == x.caught + (if s.handler.Wrote? && s.handler.h == h then 1 else 0)
  {
    RunInv(ss, steps, k);
  }

  /** No message in any pipe, buffer or callback refers to a handle that is on the closing list, and
      neither the tree nor the signal handler nor a deferred test can still come to it. */
  lemma ListedIsUnreachable(ss: seq<State>, steps: seq<Step>, k: nat, h: Handle)
    requires Run(ss, steps) && k < |ss| && h in ss[k].handles && ss[k].handles[h].listed > 0
    ensures var s := ss[k];
            && s.handles[h].listed == 1 && s.handles[h].closing && h !in s.tree
            && (!s.handler.Idle? ==> h !in s.handler.todo) && (s.handler.Wrote? ==> s.handler.h != h)
            && (forall l :: l in s.loops ==>
                  (forall m :: m in s.loops[l].pipe || m in s.loops[l].rest ==> m.handle != h)
                  && InHand(s.loops[l].stage, h) == 0 && s.loops[l].stage != Testing(h) && !CallOn(s.loops[l].call, h))
  {
    RunInv(ss, steps, k);
    var s := ss[k];
    var x := s.handles[h];
    assert HandleOk(h, x, s.loops[x.loop], h in s.tree, Window(s.handler, h));
    assert !CallOn(s.loops[x.loop].call, h);
    forall l | l in s.loops
      ensures (forall m :: m in s.loops[l].pipe || m in s.loops[l].rest ==> m.handle != h)
              && InHand(s.loops[l].stage, h) == 0 && s.loops[l].stage != Testing(h) && !CallOn(s.loops[l].call, h)
    {
      assert LoopOk(l, s.loops[l], s.handles);
      if l == x.loop {
        forall m | m in s.loops[l].pipe ensures m.handle != h { OfZero(s.loops[l].pipe, h, m); }
        forall m | m in s.loops[l].rest ensures m.handle != h { OfZero(s.loops[l].rest, h, m); }
      }
    }
  }

  lemma {:induction false} OfZero(ms: seq<Msg>, h: Handle, m: Msg)
    requires Of(ms, h) == 0 && m in ms
    ensures m.handle != h
  {
    if m != ms[0] { OfZero(ms[1..], h, m); }
  }

  /** Once a closing handle's loop thread is between events and no message for the handle is left,
      the handle is on the closing list, exactly once. */
  lemma DrainedIsListed(ss: seq<State>, steps: seq<Step>, k: nat, h: Handle)
    requires Run(ss, steps) && k < |ss| && h in ss[k].handles && ss[k].handles[h].closing
    requires ss[k].handles[h].loop in ss[k].loops
    ensures var l := ss[k].loops[ss[k].handles[h].loop];
            l.call.NoCall? && !l.stage.Testing? ==> (ss[k].handles[h].listed == 1 <==> Undispatched(l, h) == 0)
  {
    RunInv(ss, steps, k);
  }

  /** The assertion before signal_cb holds: a callback never starts on a closing handle, and it starts
      only on a handle that is started for the signal of the message. */
  lemma CallbackOnOpenHandle(ss: seq<State>, steps: seq<Step>, k: nat, l: LoopId)
    requires Run(ss, steps) && k < |steps| && steps[k] == Dispatch(l) && l in ss[k + 1].loops
    requires ss[k + 1].loops[l].stage.Calling?
    ensures var m := ss[k + 1].loops[l].stage.msg;
            m.handle in ss[k + 1].handles && !ss[k + 1].handles[m.handle].closing && m.handle in ss[k + 1].tree
            && ss[k + 1].handles[m.handle].signum == m.signum
  {
    RunInv(ss, steps, k);
    var s := ss[k];
    assert Next(s, ss[k + 1], steps[k]);
    var m := s.loops[l].rest[0];
    assert m in s.loops[l].rest;
    assert LoopOk(l, s.loops[l], s.handles);
    assert MsgOk(m, l, s.handles);
    assert HandleOk(m.handle, s.handles[m.handle], s.loops[l], m.handle in s.tree, Window(s.handler, m.handle));
  }

  /** The loop thread and the handler always find the handles their messages and calls name. */
  lemma NothingDangles(ss: seq<State>, steps: seq<Step>, k: nat, l: LoopId)
    requires Run(ss, steps) && k < |ss| && l in ss[k].loops
    ensures var s, x := ss[k], ss[k].loops[l];
            && (x.rest != [] ==> x.rest[0].handle in s.handles && s.handles[x.rest[0].handle].listed == 0)
            && (x.stage.Counting? ==> x.stage.msg.handle in s.handles && s.handles[x.stage.msg.handle].listed == 0)
            && (!x.call.NoCall? ==> x.call.h in s.handles && s.handles[x.call.h].listed == 0)
            && (s.handler.Wrote? ==> s.handler.h in s.handles && s.handles[s.handler.h].listed == 0)
  {
    RunInv(ss, steps, k);
    var s, x := ss[k], ss[k].loops[l];
    assert LoopOk(l, x, s.handles);
    if x.rest != [] { assert x.rest[0] in x.rest; }
  }
}
