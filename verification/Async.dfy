/** Cross-thread wakeups (src/unix/async.c): the flag, the event counter and the walk over
    the handles, as a step system for one loop with any number of handles and sending threads. */
module Async {
  import opened Seqs

  type Handle = nat

  datatype Tid = Worker(id: nat) | LoopThread(id: nat)

  /** Where a thread is inside uv_async_send. */
  datatype Sender =
    | Checking(h: Handle)   // before the cheap read of `pending`
    | Trying(h: Handle)     // the read saw 0; before the compare-and-swap
    | Claimed(h: Handle)    // the swap set `pending`; before the write to the event fd

  /** Where the loop thread is: outside, or inside uv__async_io and uv__async_event. */
  datatype Pass =
    | Polling
    | Draining              // the event fd has been read; before QUEUE_MOVE
    | Walking               // at the head of the while loop
    | Visiting(h: Handle)   // `h` is back on the loop's list; before the compare-and-swap
    | Calling(h: Handle)    // inside the callback of `h`

  /** `due` is the set of handles sent to since their callback last started. */
  datatype State = State(
    pending: set<Handle>,
    counter: nat,
    senders: map<Tid, Sender>,
    pass: Pass,
    handles: seq<Handle>,
    queue: seq<Handle>,
    due: set<Handle>)

  datatype Step =
    | SendStart(t: Tid, h: Handle)
    | SendSeen(t: Tid)
    | SendMiss(t: Tid)
    | SendSwap(t: Tid)
    | SendWrite(t: Tid, full: bool)
    | LoopRead
    | LoopMove
    | LoopNext
    | LoopVisit
    | LoopReturn
    | LoopEnd
    | Init(h: Handle)
    | Close(h: Handle)

  ghost predicate Open(s: State, h: Handle) { h in s.handles || h in s.queue }

  ghost predicate Next(s: State, s': State, step: Step) {
    match step
    case SendStart(t, h) =>
      t !in s.senders && Open(s, h) && s' == s.(senders := s.senders[t := Checking(h)], due := s.due + {h})
    case SendSeen(t) =>
      t in s.senders && s.senders[t].Checking? && s.senders[t].h in s.pending && s' == s.(senders := s.senders - {t})
    case SendMiss(t) =>
      t in s.senders && s.senders[t].Checking? && s.senders[t].h !in s.pending
      && s' == s.(senders := s.senders[t := Trying(s.senders[t].h)])
    case SendSwap(t) =>
      t in s.senders && s.senders[t].Trying? &&
      (var h := s.senders[t].h;
       if h in s.pending then s' == s.(senders := s.senders - {t})
       else s' == s.(pending := s.pending + {h}, senders := s.senders[t := Claimed(h)]))
    case SendWrite(t, full) =>
      // A full counter refuses the write with EAGAIN; it is readable then.
      t in s.senders && s.senders[t].Claimed? && (full ==> s.counter > 0)
      && s' == s.(counter := if full then s.counter else s.counter + 1, senders := s.senders - {t})
    case LoopRead =>
      s.pass.Polling? && s.counter > 0 && s' == s.(counter := 0, pass := Draining)
    case LoopMove =>
      s.pass.Draining? && s' == s.(queue := s.handles, handles := [], pass := Walking)
    case LoopNext =>
      s.pass.Walking? && s.queue != []
      && s' == s.(queue := s.queue[1..], handles := s.handles + [s.queue[0]], pass := Visiting(s.queue[0]))
    case LoopVisit =>
      s.pass.Visiting? &&
      (var h := s.pass.h;
       if h in s.pending then s' == s.(pending := s.pending - {h}, pass := Calling(h), due := s.due - {h})
       else s' == s.(pass := Walking))
    case LoopReturn => s.pass.Calling? && s' == s.(pass := Walking)
    case LoopEnd => s.pass.Walking? && s.queue == [] && s' == s.(pass := Polling)
    case Init(h) =>
      (s.pass.Polling? || s.pass.Calling?) && !Open(s, h)
      && s' == s.(handles := s.handles + [h], pending := s.pending - {h}, due := s.due - {h})
    case Close(h) =>
      // The caller guarantees that no thread is still sending to the handle.
      (s.pass.Polling? || s.pass.Calling?) && Open(s, h) && (forall t :: t in s.senders ==> s.senders[t].h != h)
      && s' == s.(handles := Drop(s.handles, h), queue := Drop(s.queue, h),
                  pending := s.pending - {h}, due := s.due - {h})
  }

  ghost predicate Start(s: State) {
    s.pending == {} && s.counter == 0 && s.senders == map[] && s.pass.Polling? && s.handles == [] && s.queue == []
    && s.due == {}
  }

  /** The loop is bound to look at `h`: the event fd is readable, a thread is about to make it
      so, or the pass in progress has still to come to `h`. */
  ghost predicate Woken(s: State, h: Handle) {
    || s.counter > 0
    || (exists t :: t in s.senders && s.senders[t].Claimed?)
    || s.pass.Draining?
    || (h in s.queue && !s.pass.Polling?)
    || s.pass == Visiting(h)
  }

  ghost predicate Sending(s: State, h: Handle) {
    exists t :: t in s.senders && !s.senders[t].Claimed? && s.senders[t].h == h
  }

  ghost predicate Inv(s: State) {
    && NoDup(s.handles) && NoDup(s.queue) && (forall h :: h in s.handles ==> h !in s.queue)
    && (s.pass.Polling? || s.pass.Draining? ==> s.queue == [])
    && (s.pass.Visiting? ==> s.pass.h in s.handles)
    && (forall t :: t in s.senders ==> Open(s, s.senders[t].h))
    && (forall h :: h in s.pending ==> Open(s, h) && Woken(s, h))
    && (forall h :: h in s.due ==> h in s.pending || Sending(s, h))
  }

  lemma StartInv(s: State)
    requires Start(s)
    ensures Inv(s)
  {}

  /** Sending steps only add to what keeps the loop awake. */
  lemma SendKeepsInv(s: State, s': State, step: Step)
    requires Inv(s) && Next(s, s', step)
    requires step.SendStart? || step.SendSeen? || step.SendMiss? || step.SendSwap? || step.SendWrite?
    ensures Inv(s')
  {
    forall h | h in s'.pending ensures Woken(s', h) {
      if step.SendSwap? && h !in s.pending {
        assert s'.senders[step.t].Claimed?;
      } else if exists t :: t in s.senders && s.senders[t].Claimed? {
        var t :| t in s.senders && s.senders[t].Claimed?;
        assert t == step.t || (t in s'.senders && s'.senders[t].Claimed?);
      }
    }
    forall h | h in s'.due && h !in s'.pending ensures Sending(s', h) {
      if step.SendStart? && h == step.h {
        assert s'.senders[step.t] == Checking(h);
      } else {
        var t :| t in s.senders && !s.senders[t].Claimed? && s.senders[t].h == h;
        assert t in s'.senders && !s'.senders[t].Claimed? && s'.senders[t].h == h;
      }
    }
  }

  lemma LoopKeepsInv(s: State, s': State, step: Step)
    requires Inv(s) && Next(s, s', step)
    requires step.LoopRead? || step.LoopMove? || step.LoopNext? || step.LoopVisit? || step.LoopReturn? || step.LoopEnd?
    ensures Inv(s')
  {
    assert s'.senders == s.senders;
    if step.LoopNext? { assert s.queue[0] in s.queue; }
    assert forall h :: Open(s, h) <==> Open(s', h) by { LoopKeepsOpen(s, s', step); }
    forall h | h in s'.pending ensures Woken(s', h) {
      assert Woken(s, h) && Open(s, h);
      if step.LoopNext? && h in s.queue && h != s.queue[0] {
        assert h in s'.queue;
      }
    }
    forall h | h in s'.due && h !in s'.pending ensures Sending(s', h) {
      assert Sending(s, h);
    }
  }

  lemma LoopKeepsOpen(s: State, s': State, step: Step)
    requires Inv(s) && Next(s, s', step)
    requires step.LoopRead? || step.LoopMove? || step.LoopNext? || step.LoopVisit? || step.LoopReturn? || step.LoopEnd?
    ensures forall h :: Open(s, h) <==> Open(s', h)
  {
    if step.LoopNext? {
      assert s.queue == [s.queue[0]] + s.queue[1..];
    }
  }

  lemma HandleKeepsInv(s: State, s': State, step: Step)
    requires Inv(s) && Next(s, s', step) && (step.Init? || step.Close?)
    ensures Inv(s')
  {
    assert s'.senders == s.senders;
    if step.Close? {
      DropIn(s.handles, step.h);
      DropIn(s.queue, step.h);
    }
    forall h | h in s'.due && h !in s'.pending ensures Sending(s', h) {
      assert Sending(s, h);
    }
    forall h | h in s'.pending ensures Woken(s', h) {
      assert Woken(s, h);
    }
  }

  lemma NextInv(s: State, s': State, step: Step)
    requires Inv(s) && Next(s, s', step)
    ensures Inv(s')
  {
    hide Inv, Next;
    if step.Init? || step.Close? {
      HandleKeepsInv(s, s', step);
    } else if step.SendStart? || step.SendSeen? || step.SendMiss? || step.SendSwap? || step.SendWrite? {
      SendKeepsInv(s, s', step);
    } else {
      LoopKeepsInv(s, s', step);
    }
  }

  ghost predicate Run(states: seq<State>, steps: seq<Step>) {
    && |states| == |steps| + 1 && Start(states[0])
    && forall i :: 0 <= i < |steps| ==> Next(states[i], states[i + 1], steps[i])
  }

  lemma {:induction false} RunInv(states: seq<State>, steps: seq<Step>, n: nat)
    requires Run(states, steps) && n < |states|
    ensures Inv(states[n])
    decreases n
  {
    hide Inv, Next, Start;
    if n == 0 {
      StartInv(states[0]);
    } else {
      RunInv(states, steps, n - 1);
      assert Next(states[n - 1], states[n - 1 + 1], steps[n - 1]);
      NextInv(states[n - 1], states[n], steps[n - 1]);
    }
  }

  /** No uv_async_send is lost: in every state of every run, a handle that was sent to and whose
      callback has not started since either has a send in progress, or the loop is bound to look at it. */
  lemma NoLostSend(states: seq<State>, steps: seq<Step>, n: nat, h: Handle)
    requires Run(states, steps) && n < |states| && h in states[n].due
    ensures Sending(states[n], h) || (h in states[n].pending && Woken(states[n], h))
  {
    RunInv(states, steps, n);
  }

  // ---------------------------------------------------------------- sends and callbacks, told by the steps

  /** The step starts the callback of `h`. */
  ghost predicate Calls(step: Step, s': State, h: Handle) { step.LoopVisit? && s'.pass == Calling(h) }

  lemma StaysDue(s: State, s': State, step: Step, h: Handle)
    requires Next(s, s', step) && h in s.due && !Calls(step, s', h) && step != Init(h) && step != Close(h)
    ensures h in s'.due
  {}

  lemma {:induction false} SentIsDue(states: seq<State>, steps: seq<Step>, i: nat, n: nat, t: Tid, h: Handle)
    requires Run(states, steps) && i < n < |states| && steps[i] == SendStart(t, h)
    requires forall j :: i < j < n ==> !Calls(steps[j], states[j + 1], h) && steps[j] != Init(h) && steps[j] != Close(h)
    ensures h in states[n].due
    decreases n
  {
    hide Start, Next;
    assert Next(states[n - 1], states[n - 1 + 1], steps[n - 1]);
    if n == i + 1 {
      SendIsDue(states[i], states[n], t, h);
    } else {
      SentIsDue(states, steps, i, n - 1, t, h);
      StaysDue(states[n - 1], states[n], steps[n - 1], h);
    }
  }

  lemma SendIsDue(s: State, s': State, t: Tid, h: Handle)
    requires Next(s, s', SendStart(t, h))
    ensures h in s'.due
  {}

  /** No uv_async_send is lost: from the send on, until the callback of the handle starts or the handle is closed,
      a send is in progress, or the handle is pending and the loop is bound to look at it. */
  lemma SendIsServed(states: seq<State>, steps: seq<Step>, i: nat, n: nat, t: Tid, h: Handle)
    requires Run(states, steps) && i < n < |states| && steps[i] == SendStart(t, h)
    requires forall j :: i < j < n ==> !Calls(steps[j], states[j + 1], h) && steps[j] != Init(h) && steps[j] != Close(h)
    ensures Sending(states[n], h) || (h in states[n].pending && Woken(states[n], h))
  {
    hide Run, Next;
    SentIsDue(states, steps, i, n, t, h);
    NoLostSend(states, steps, n, h);
  }

  ghost function One(b: bool): nat { if b then 1 else 0 }

  ghost function Sends(steps: seq<Step>, n: nat, h: Handle): nat
    requires n <= |steps|
  {
    if n == 0 then 0 else Sends(steps, n - 1, h) + One(steps[n - 1].SendStart? && steps[n - 1].h == h)
  }

  ghost function Callbacks(states: seq<State>, steps: seq<Step>, n: nat, h: Handle): nat
    requires n <= |steps| < |states|
  {
    if n == 0 then 0 else Callbacks(states, steps, n - 1, h) + One(Calls(steps[n - 1], states[n], h))
  }

  ghost function Senders(s: State, h: Handle): set<Tid> {
    set t | t in s.senders && !s.senders[t].Claimed? && s.senders[t].h == h
  }

  lemma StepSends(s: State, s': State, step: Step, h: Handle)
    requires Next(s, s', step)
    ensures One(Calls(step, s', h)) + One(h in s'.pending) + |Senders(s', h)|
         <= One(h in s.pending) + |Senders(s, h)| + One(step.SendStart? && step.h == h)
  {
    if step.SendStart? || step.SendSeen? || step.SendMiss? || step.SendSwap? || step.SendWrite? {
      SenderSends(s, s', step, h);
    } else {
      assert Senders(s', h) == Senders(s, h);
    }
  }

  lemma SenderSends(s: State, s': State, step: Step, h: Handle)
    requires Next(s, s', step) && (step.SendStart? || step.SendSeen? || step.SendMiss? || step.SendSwap? || step.SendWrite?)
    ensures One(h in s'.pending) + |Senders(s', h)|
         <= One(h in s.pending) + |Senders(s, h)| + One(step.SendStart? && step.h == h)
  {
    var a, b := Senders(s, h), Senders(s', h);
    if step.SendStart? {
      assert b == if step.h == h then a + {step.t} else a;
    } else if step.t in a && step.t !in b {
      assert b == a - {step.t};
    } else {
      assert b == a;
    }
  }

  /** No callback without a send of its own: the callbacks of a handle are at most as many as the calls of
      uv_async_send for it, and those under way or pending are not used up yet. */
  lemma {:induction false} CallbacksAreSent(states: seq<State>, steps: seq<Step>, n: nat, h: Handle)
    requires Run(states, steps) && n < |states|
    ensures |states| == |steps| + 1
    ensures Callbacks(states, steps, n, h) + One(h in states[n].pending) + |Senders(states[n], h)| <= Sends(steps, n, h)
    decreases n
  {
    hide Next;
    if n == 0 {
      assert Senders(states[0], h) == {};
    } else {
      CallbacksAreSent(states, steps, n - 1, h);
      assert Next(states[n - 1], states[n - 1 + 1], steps[n - 1]);
      StepSends(states[n - 1], states[n], steps[n - 1], h);
    }
  }

  /** Writes to the event fd that it could take. */
  ghost function Writes(steps: seq<Step>, i: nat, n: nat): nat
    requires i <= n <= |steps|
    decreases n
  {
    if n == i then 0 else Writes(steps, i, n - 1) + One(steps[n - 1].SendWrite? && !steps[n - 1].full)
  }

  lemma StepCounter(s: State, s': State, step: Step)
    requires Next(s, s', step)
    ensures s'.counter == if step.LoopRead? then 0 else s.counter + One(step.SendWrite? && !step.full)
    ensures step.LoopRead? ==> s.counter > 0
  {}

  /** The loop is woken by writes alone: what the event fd holds is the number of writes since it was last read, and it is
      read only when there are some. */
  lemma {:induction false} CounterIsWrites(states: seq<State>, steps: seq<Step>, i: nat, n: nat)
    requires Run(states, steps) && i <= n < |states| && (i == 0 || steps[i - 1].LoopRead?)
    requires forall j :: i <= j < n ==> !steps[j].LoopRead?
    ensures |states| == |steps| + 1 && states[n].counter == Writes(steps, i, n)
    ensures n < |steps| && steps[n].LoopRead? ==> Writes(steps, i, n) > 0
    decreases n
  {
    hide Next;
    if n < |steps| {
      assert Next(states[n], states[n + 1], steps[n]);
      StepCounter(states[n], states[n + 1], steps[n]);
    }
    if n > 0 {
      assert Next(states[n - 1], states[n - 1 + 1], steps[n - 1]);
      StepCounter(states[n - 1], states[n], steps[n - 1]);
      if i < n { CounterIsWrites(states, steps, i, n - 1); }
    }
  }

  /** The step comes to `h` in the walk over the handles. */
  ghost predicate Visits(s': State, step: Step, h: Handle) { step.LoopNext? && s'.pass == Visiting(h) }

  ghost function Visited(states: seq<State>, steps: seq<Step>, i: nat, n: nat, h: Handle): nat
    requires i <= n <= |steps| < |states|
    decreases n
  {
    if n == i then 0 else Visited(states, steps, i, n - 1, h) + One(Visits(states[n], steps[n - 1], h))
  }

  lemma StepVisits(s: State, s': State, step: Step, h: Handle)
    requires Inv(s) && Next(s, s', step) && !step.LoopMove? && step != Close(h)
    ensures One(h in s'.queue) + One(Visits(s', step, h)) == One(h in s.queue)
  {
    hide Open, Woken, Sending;
    if step.LoopNext? {
      NoDupTail(s.queue);
    } else if step.Close? {
      DropIn(s.queue, step.h);
    }
  }

  lemma {:induction false} VisitedSoFar(states: seq<State>, steps: seq<Step>, i: nat, n: nat, h: Handle)
    requires Run(states, steps) && i < n < |states| && steps[i].LoopMove?
    requires forall j :: i < j < n ==> !steps[j].LoopMove? && steps[j] != Close(h)
    ensures |states| == |steps| + 1
    ensures Visited(states, steps, i + 1, n, h) + One(h in states[n].queue) == One(h in states[i].handles)
    decreases n
  {
    hide Next, Inv, Start;
    assert Next(states[n - 1], states[n - 1 + 1], steps[n - 1]);
    if n == i + 1 {
      MoveTakesAll(states[i], states[n]);
    } else {
      VisitedSoFar(states, steps, i, n - 1, h);
      RunInv(states, steps, n - 1);
      StepVisits(states[n - 1], states[n], steps[n - 1], h);
    }
  }

  lemma MoveTakesAll(s: State, s': State)
    requires Next(s, s', LoopMove)
    ensures s'.queue == s.handles
  {}

  lemma EndHasNone(s: State, s': State)
    requires Next(s, s', LoopEnd)
    ensures s.queue == []
  {}

  /** A pass over the handles comes exactly once to each handle it finds and that is not closed meanwhile, and to no other. */
  lemma PassVisitsEach(states: seq<State>, steps: seq<Step>, i: nat, n: nat, h: Handle)
    requires Run(states, steps) && i < n < |steps| && steps[i].LoopMove? && steps[n].LoopEnd?
    requires forall j :: i < j < n ==> !steps[j].LoopMove? && steps[j] != Close(h)
    ensures |states| == |steps| + 1 && Visited(states, steps, i + 1, n, h) == One(h in states[i].handles)
  {
    hide Next, Start;
    VisitedSoFar(states, steps, i, n, h);
    assert Next(states[n], states[n + 1], steps[n]);
    EndHasNone(states[n], states[n + 1]);
  }
}
