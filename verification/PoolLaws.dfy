/** What uv_cancel answers and what becomes of the items (src/threadpool.c), told by the steps of a run. */
module PoolLaws {
  import opened Options
  import opened Seqs
  import opened ThreadPool
  import A = Async

  // ---------------------------------------------------------------- the answer of uv_cancel

  /** Where an item can be that is neither done nor cancelled: it has not run and no worker holds it, iff the
      flags that uv__work_cancel looks at say so. */
  lemma FlagsTell(s: State, w: Item)
    requires Inv(s) && w in s.items && !s.items[w].place.Finished?
    ensures !s.items[w].self && !s.items[w].work.Null? <==> s.items[w].ran == 0 && !InHand(s, w)
  {
    hide QueueInv, WorkerInv, LoopOk;
    assert ItemOk(s.items[w], s.workers);
  }

  lemma CallQueues(s: State, l: LoopId)
    requires Inv(s) && l in s.loops
    ensures NoDup(s.wq) && NoDup(s.loops[l].wq) && NoDup(s.loops[l].local)
  {
    hide HoldInv, ItemInv, WorkerInv;
    assert LoopOk(s, l);
  }

  lemma DecideTells(s: State, s': State, l: LoopId)
    requires Inv(s) && Decide(s, s', l)
    ensures l in s.loops && s.loops[l].call.Cancel1?
    ensures var w := s.loops[l].call.w;
            && w in s.items && w in s'.items
            && (Carried(s', l, w) <==> s.items[w].ran == 0 && !InHand(s, w))
            && (Carried(s', l, w) ==> !InQueue(s', w) && !InLoopQueue(s', l, w) && s'.items[w].cancelOk)
            && (!Carried(s', l, w) ==> s'.items == s.items && s'.wq == s.wq && s'.workers == s.workers)
  {
    hide Inv, InHand;
    var w := s.loops[l].call.w;
    CallItem(s, l);
    FlagsTell(s, w);
    CallQueues(s, l);
    DropIn(s.wq, Job(w));
    DropIn(s.loops[l].wq, w);
    DropIn(s.loops[l].local, w);
  }

  lemma DecideHappens(states: seq<State>, steps: seq<Step>, k: nat, l: LoopId)
    requires Run(states, steps) && k < |steps| && steps[k] == CancelDecide(l)
    ensures |states| == |steps| + 1 && Decide(states[k], states[k + 1], l)
  {
    assert Next(states[k], states[k + 1], steps[k]);
  }

  /** uv_cancel returns 0 iff the work has not run and is not in the hands of a worker, and takes the item
      along then; otherwise it returns UV_EBUSY and leaves all items, the queue and the workers alone. */
  lemma CancelIff(states: seq<State>, steps: seq<Step>, k: nat, l: LoopId)
    requires Run(states, steps) && k < |steps| && steps[k] == CancelDecide(l)
    ensures |states| == |steps| + 1 && l in states[k].loops && states[k].loops[l].call.Cancel1?
    ensures var s, s', w := states[k], states[k + 1], states[k].loops[l].call.w;
            && w in s.items && w in s'.items
            && (Carried(s', l, w) <==> s.items[w].ran == 0 && !InHand(s, w))
            && (Carried(s', l, w) ==> !InQueue(s', w) && !InLoopQueue(s', l, w) && s'.items[w].cancelOk)
            && (!Carried(s', l, w) ==> s'.items == s.items && s'.wq == s.wq && s'.workers == s.workers)
  {
    hide Run, Inv, Decide;
    DecideHappens(states, steps, k, l);
    RunInv(states, steps, k);
    DecideTells(states[k], states[k + 1], l);
  }

  // ---------------------------------------------------------------- what is cancelled stays so

  lemma StepKeepsCancelled(s: State, s': State, step: Step, w: Item)
    requires Next(s, s', step) && w in s.items && s.items[w].cancelOk
    ensures w in s'.items && s'.items[w].cancelOk
  {
    hide Signal, AsyncOk, A.Next, Drop;
  }

  lemma {:induction false} RunKeepsCancelled(states: seq<State>, steps: seq<Step>, k: nat, n: nat, w: Item)
    requires Run(states, steps) && k <= n < |states| && w in states[k].items && states[k].items[w].cancelOk
    ensures w in states[n].items && states[n].items[w].cancelOk
    decreases n
  {
    hide Start, Next;
    if k < n {
      RunKeepsCancelled(states, steps, k, n - 1, w);
      assert Next(states[n - 1], states[n - 1 + 1], steps[n - 1]);
      StepKeepsCancelled(states[n - 1], states[n], steps[n - 1], w);
    }
  }

  lemma QueuedNotRun(s: State, w: Item)
    requires Inv(s) && InQueue(s, w)
    ensures w in s.items && s.items[w].ran == 0 && !InHand(s, w)
  {
    hide WorkerInv, LoopOk;
    assert ItemOk(s.items[w], s.workers);
  }

  lemma CancelledState(s: State, w: Item)
    requires Inv(s) && w in s.items && s.items[w].cancelOk
    ensures s.items[w].ran == 0 && !InHand(s, w) && !InQueue(s, w)
  {
    hide WorkerInv, LoopOk;
    assert ItemOk(s.items[w], s.workers);
  }

  /** A cancel of an item that is still queued, or that was cancelled before, holds for good: no worker ever
      takes the item, and when it is in no place any more `done` has been called once, with UV_ECANCELED. */
  lemma CancelledForGood(states: seq<State>, steps: seq<Step>, k: nat, n: nat, l: LoopId, w: Item)
    requires Run(states, steps) && k < n < |states| && steps[k] == CancelDecide(l)
    requires l in states[k].loops && states[k].loops[l].call == Cancel1(w)
    requires InQueue(states[k], w) || (w in states[k].items && states[k].items[w].ran == 0 && !InHand(states[k], w))
    ensures w in states[n].items
    ensures var s, i := states[n], states[n].items[w];
            && i.ran == 0 && !InQueue(s, w) && !InHand(s, w)
            && (i.dones == [] || i.dones == [Canceled])
            && (!InLoopQueue(s, i.loop, w) && !Carried(s, i.loop, w) <==> i.dones == [Canceled])
  {
    hide Run, Inv, InQueue, InHand, InLoopQueue, Carried;
    RunLength(states, steps);
    DecideHappens(states, steps, k, l);
    RunInv(states, steps, k);
    if InQueue(states[k], w) { QueuedNotRun(states[k], w); }
    CancelIff(states, steps, k, l);
    RunKeepsCancelled(states, steps, k + 1, n, w);
    RunInv(states, steps, n);
    CancelledState(states[n], w);
    OnePlace(states, steps, n, w);
    assert |states[n].items[w].dones| == 1 ==> states[n].items[w].dones == [Canceled];
  }

  lemma RunLength(states: seq<State>, steps: seq<Step>)
    requires Run(states, steps)
    ensures |states| == |steps| + 1
  {}

  /** Step k is a cancel of `w` that finds it neither run nor in a worker's hands. */
  ghost predicate CancelsAt(states: seq<State>, steps: seq<Step>, k: nat, w: Item)
    requires k < |states| && k < |steps|
  {
    && steps[k].CancelDecide? && steps[k].l in states[k].loops && states[k].loops[steps[k].l].call == Cancel1(w)
    && w in states[k].items && states[k].items[w].ran == 0 && !InHand(states[k], w)
  }

  lemma OnlyDecideCancels(s: State, s': State, step: Step, w: Item)
    requires Next(s, s', step) && w in s'.items && s'.items[w].cancelOk
    requires !(w in s.items && s.items[w].cancelOk)
    ensures step.CancelDecide? && Decide(s, s', step.l) && w in s.items
            && s.loops[step.l].call == Cancel1(w) && Carried(s', step.l, w)
  {
    hide Signal, AsyncOk, A.Next, Drop;
  }

  /** `cancelOk` is that of the steps too: with OnePlace, `done` is called with UV_ECANCELED iff some uv_cancel
      found the item neither run nor in a worker's hands. */
  lemma {:induction false} CancelledIff(states: seq<State>, steps: seq<Step>, n: nat, w: Item)
    requires Run(states, steps) && n < |states| && w in states[n].items
    ensures |states| == |steps| + 1
    ensures states[n].items[w].cancelOk <==> exists k: nat :: k < n && CancelsAt(states, steps, k, w)
    decreases n
  {
    hide Next, Inv, Decide, CancelsAt, InHand;
    if k: nat :| k < n && CancelsAt(states, steps, k, w) {
      CancelsNow(states, steps, k, w);
      RunKeepsCancelled(states, steps, k + 1, n, w);
    }
    if n > 0 && states[n].items[w].cancelOk {
      assert Next(states[n - 1], states[n - 1 + 1], steps[n - 1]);
      if w in states[n - 1].items && states[n - 1].items[w].cancelOk {
        CancelledIff(states, steps, n - 1, w);
      } else {
        OnlyDecideCancels(states[n - 1], states[n], steps[n - 1], w);
        CancelIff(states, steps, n - 1, steps[n - 1].l);
        CancelsUnfold(states, steps, n - 1, w);
      }
    }
  }

  lemma CancelsUnfold(states: seq<State>, steps: seq<Step>, k: nat, w: Item)
    requires k < |states| && k < |steps| && steps[k].CancelDecide? && steps[k].l in states[k].loops
    requires states[k].loops[steps[k].l].call == Cancel1(w)
    requires w in states[k].items && states[k].items[w].ran == 0 && !InHand(states[k], w)
    ensures CancelsAt(states, steps, k, w)
  {}

  lemma CancelsNow(states: seq<State>, steps: seq<Step>, k: nat, w: Item)
    requires Run(states, steps) && k < |steps| < |states| && CancelsAt(states, steps, k, w)
    ensures w in states[k + 1].items && states[k + 1].items[w].cancelOk
  {
    hide Run;
    CancelIff(states, steps, k, steps[k].l);
  }

  // ---------------------------------------------------------------- the record of an item

  /** The step runs the work of `w` to its end. */
  ghost predicate RunsWork(s: State, step: Step, w: Item) {
    step.Finish? && step.t in s.workers && s.workers[step.t] == Running(w)
  }

  /** The step calls `done` for `w`. */
  ghost predicate CallsDone(s: State, step: Step, w: Item) {
    step.Done? && step.l in s.loops && s.loops[step.l].local != [] && s.loops[step.l].local[0] == w
  }

  ghost function Works(states: seq<State>, steps: seq<Step>, n: nat, w: Item): nat
    requires n <= |steps| < |states|
  {
    if n == 0 then 0 else Works(states, steps, n - 1, w) + if RunsWork(states[n - 1], steps[n - 1], w) then 1 else 0
  }

  ghost function Dones(states: seq<State>, steps: seq<Step>, n: nat, w: Item): nat
    requires n <= |steps| < |states|
  {
    if n == 0 then 0 else Dones(states, steps, n - 1, w) + if CallsDone(states[n - 1], steps[n - 1], w) then 1 else 0
  }

  ghost function Ran(s: State, w: Item): nat { if w in s.items then s.items[w].ran else 0 }
  ghost function Called(s: State, w: Item): nat { if w in s.items then |s.items[w].dones| else 0 }

  lemma StepCounts(s: State, s': State, step: Step, w: Item)
    requires Next(s, s', step)
    ensures Ran(s', w) == Ran(s, w) + if RunsWork(s, step, w) then 1 else 0
    ensures Called(s', w) == Called(s, w) + if CallsDone(s, step, w) then 1 else 0
  {
    hide Signal, AsyncOk, A.Next, Drop;
  }

  /** The record is that of the steps: the work of an item ends in as many steps, and `done` is called in as
      many, as its fields say. With OnePlace, at most one of each in the whole run. */
  lemma {:induction false} RecordIsOfSteps(states: seq<State>, steps: seq<Step>, n: nat, w: Item)
    requires Run(states, steps) && n < |states|
    ensures Works(states, steps, n, w) == Ran(states[n], w) && Dones(states, steps, n, w) == Called(states[n], w)
  {
    hide Next;
    if n > 0 {
      RecordIsOfSteps(states, steps, n - 1, w);
      assert Next(states[n - 1], states[n - 1 + 1], steps[n - 1]);
      StepCounts(states[n - 1], states[n], steps[n - 1], w);
    }
  }

  // ---------------------------------------------------------------- first in, first out

  ghost predicate Ahead<T>(q: seq<T>, a: T, b: T) { exists i, j :: 0 <= i < j < |q| && q[i] == a && q[j] == b }

  lemma {:induction false} DropKeepsAhead<T(!new)>(q: seq<T>, x: T, a: T, b: T)
    requires Ahead(q, a, b) && x != a && x != b
    ensures Ahead(Drop(q, x), a, b)
  {
    var i, j :| 0 <= i < j < |q| && q[i] == a && q[j] == b;
    var r := Drop(q, x);
    if q[0] == x {
      assert r[i - 1] == a && r[j - 1] == b;
    } else {
      var t := Drop(q[1..], x);
      assert r == [q[0]] + t;
      if i == 0 {
        assert q[1..][j - 1] == b;
        DropIn(q[1..], x);
        assert b in t;
        var m :| 0 <= m < |t| && t[m] == b;
        assert r[0] == a && r[m + 1] == b;
      } else {
        assert q[1..][i - 1] == a && q[1..][j - 1] == b;
        DropKeepsAhead(q[1..], x, a, b);
        var i', j' :| 0 <= i' < j' < |t| && t[i'] == a && t[j'] == b;
        assert r[i' + 1] == a && r[j' + 1] == b;
      }
    }
  }

  /** How a step changes the queue: a worker takes its first entry, a cancel takes an item out, or one is added. */
  ghost predicate Moved1(s: State, s': State) {
    || s'.wq == s.wq
    || (s.wq != [] && s'.wq == s.wq[1..])
    || (exists x :: s'.wq == Drop(s.wq, Job(x)) && x in s'.items && s'.items[x].cancelOk)
    || (exists e :: s'.wq == s.wq + [e] && (e.Job? ==> e.w !in s.items))
  }

  lemma StepMoves(s: State, s': State, step: Step)
    requires Next(s, s', step)
    ensures Moved1(s, s') && forall w :: w in s.items ==> w in s'.items
  {
    hide Signal, AsyncOk, A.Next, Drop;
    match step
    case Submit(l, w, wake) => assert s'.wq == s.wq + [Job(w)];
    case PostExit(wake) => assert s'.wq == s.wq + [Exit];
    case CancelDecide(l) =>
      var w := s.loops[l].call.w;
      assert s'.wq == s.wq || (s'.wq == Drop(s.wq, Job(w)) && s'.items[w].cancelOk);
    case _ =>
  }

  lemma GoneStaysGone(s: State, s': State, a: Item)
    requires Moved1(s, s') && a in s.items && Job(a) !in s.wq
    ensures Job(a) !in s'.wq
  {
    if x :| s'.wq == Drop(s.wq, Job(x)) { DropIn(s.wq, Job(x)); }
  }

  lemma AheadStep(s: State, s': State, a: Item, b: Item)
    requires NoDup(s.wq) && Moved1(s, s') && Ahead(s.wq, Job(a), Job(b))
    ensures Job(a) !in s'.wq || Ahead(s'.wq, Job(a), Job(b)) || (b in s'.items && s'.items[b].cancelOk)
  {
    var i, j :| 0 <= i < j < |s.wq| && s.wq[i] == Job(a) && s.wq[j] == Job(b);
    if s'.wq == s.wq {
    } else if s.wq != [] && s'.wq == s.wq[1..] {
      if i > 0 { assert s'.wq[i - 1] == Job(a) && s'.wq[j - 1] == Job(b); }
    } else if x :| s'.wq == Drop(s.wq, Job(x)) && x in s'.items && s'.items[x].cancelOk {
      if x == a { DropIn(s.wq, Job(a)); } else if x != b { DropKeepsAhead(s.wq, Job(x), Job(a), Job(b)); }
    } else {
      assert s'.wq[i] == Job(a) && s'.wq[j] == Job(b);
    }
  }

  /** Items are taken in the order they were submitted: while `a`, queued ahead of `b`, is still queued, `b` is
      queued behind it, unless `b` was cancelled. */
  lemma {:induction false} FirstInFirstOut(states: seq<State>, steps: seq<Step>, k: nat, n: nat, a: Item, b: Item)
    requires Run(states, steps) && k <= n < |states| && Ahead(states[k].wq, Job(a), Job(b))
    ensures a in states[n].items && b in states[n].items
    ensures Job(a) in states[n].wq ==> Ahead(states[n].wq, Job(a), Job(b)) || states[n].items[b].cancelOk
    decreases n
  {
    hide Next, Inv, Ahead, Moved1;
    RunInv(states, steps, k);
    AheadKnown(states[k], a, b);
    if k < n {
      FirstInFirstOut(states, steps, k, n - 1, a, b);
      RunInv(states, steps, n - 1);
      var s, s' := states[n - 1], states[n];
      assert Next(s, states[n - 1 + 1], steps[n - 1]);
      StepMoves(s, s', steps[n - 1]);
      if Job(a) !in s.wq {
        GoneStaysGone(s, s', a);
      } else if s.items[b].cancelOk {
        StepKeepsCancelled(s, s', steps[n - 1], b);
      } else {
        QueueNoDup(s);
        AheadStep(s, s', a, b);
      }
    }
  }

  lemma QueueNoDup(s: State)
    requires Inv(s)
    ensures NoDup(s.wq)
  {}

  lemma AheadKnown(s: State, a: Item, b: Item)
    requires Inv(s) && Ahead(s.wq, Job(a), Job(b))
    ensures a in s.items && b in s.items
  {
    assert Job(a) in s.wq && Job(b) in s.wq;
  }

  // ---------------------------------------------------------------- completed items are done in order

  /** The items of loop `l` that wait for their `done` call, in that order. */
  ghost function Line(s: State, l: LoopId): seq<Item>
    requires l in s.loops
  {
    s.loops[l].local + s.loops[l].wq
  }

  lemma AheadSplit<T>(p: seq<T>, q: seq<T>, a: T, b: T)
    ensures Ahead(p + q, a, b) <==> Ahead(p, a, b) || Ahead(q, a, b) || (a in p && b in q)
  {
    var r := p + q;
    if i, j :| 0 <= i < j < |p| && p[i] == a && p[j] == b { assert r[i] == a && r[j] == b; }
    if i, j :| 0 <= i < j < |q| && q[i] == a && q[j] == b { assert r[|p| + i] == a && r[|p| + j] == b; }
    if a in p && b in q {
      var i, j :| 0 <= i < |p| && p[i] == a && 0 <= j < |q| && q[j] == b;
      assert r[i] == a && r[|p| + j] == b;
    }
    if i, j :| 0 <= i < j < |r| && r[i] == a && r[j] == b {
      if j < |p| { assert p[i] == a && p[j] == b; }
      else if i >= |p| { assert q[i - |p|] == a && q[j - |p|] == b; }
      else { assert p[i] in p && q[j - |p|] in q; }
    }
  }

  lemma DropsKeepAhead(p: seq<Item>, q: seq<Item>, x: Item, a: Item, b: Item)
    requires Ahead(p + q, a, b) && x != a && x != b
    ensures Ahead(Drop(p, x) + Drop(q, x), a, b)
  {
    hide Ahead;
    AheadSplit(p, q, a, b);
    AheadSplit(Drop(p, x), Drop(q, x), a, b);
    DropIn(p, x);
    DropIn(q, x);
    if Ahead(p, a, b) { DropKeepsAhead(p, x, a, b); }
    if Ahead(q, a, b) { DropKeepsAhead(q, x, a, b); }
  }

  /** The step takes `w` out of the queues of its loop, to cancel it. */
  ghost predicate TakesBack(s: State, step: Step, l: LoopId, w: Item) {
    step == CancelDecide(l) && l in s.loops && s.loops[l].call == Cancel1(w)
  }

  ghost predicate LineMoved(s: State, s': State, l: LoopId)
    requires l in s.loops && l in s'.loops
  {
    || Line(s', l) == Line(s, l)
    || (Line(s, l) != [] && Line(s', l) == Line(s, l)[1..] && Called(s', Line(s, l)[0]) > 0)
    || (exists x :: Line(s', l) == Line(s, l) + [x])
  }

  lemma StepLine(s: State, s': State, step: Step, l: LoopId)
    requires Next(s, s', step) && l in s.loops && step != CancelDecide(l)
    requires s.loops[l].drain.AboutToMove? ==> s.loops[l].local == []
    ensures l in s'.loops && LineMoved(s, s', l)
  {
    hide PutStep, CancelPutStep, MoveStep, DoneStep, LineMoved;
    match step
    case Put(t) => PutLine(s, s', t, l);
    case CancelPut(l0) => CancelPutLine(s, s', l0, l);
    case Move(l0) => MoveLine(s, s', l0, l);
    case Done(l0) => DoneLine(s, s', l0, l);
    case _ => OtherLine(s, s', step, l);
  }

  lemma OtherLine(s: State, s': State, step: Step, l: LoopId)
    requires Next(s, s', step) && l in s.loops && step != CancelDecide(l)
    requires !step.Put? && !step.CancelPut? && !step.Move? && !step.Done?
    ensures l in s'.loops && LineMoved(s, s', l)
  {
    hide Signal, AsyncOk, A.Next, Drop;
    assert s'.loops[l].local == s.loops[l].local && s'.loops[l].wq == s.loops[l].wq;
  }

  lemma PutLine(s: State, s': State, t: nat, l: LoopId)
    requires PutStep(s, s', t) && l in s.loops
    ensures l in s'.loops && LineMoved(s, s', l)
  {
    hide A.Next;
    assert Line(s', l) == Line(s, l) || Line(s', l) == Line(s, l) + [s.workers[t].w];
  }

  lemma CancelPutLine(s: State, s': State, l0: LoopId, l: LoopId)
    requires CancelPutStep(s, s', l0) && l in s.loops
    ensures l in s'.loops && LineMoved(s, s', l)
  {
    hide A.Next;
    assert Line(s', l) == Line(s, l) || Line(s', l) == Line(s, l) + [s.loops[l0].call.w];
  }

  lemma MoveLine(s: State, s': State, l0: LoopId, l: LoopId)
    requires MoveStep(s, s', l0) && l in s.loops && (s.loops[l].drain.AboutToMove? ==> s.loops[l].local == [])
    ensures l in s'.loops && LineMoved(s, s', l)
  {
    assert Line(s', l) == Line(s, l);
  }

  lemma DoneLine(s: State, s': State, l0: LoopId, l: LoopId)
    requires DoneStep(s, s', l0) && l in s.loops
    ensures l in s'.loops && LineMoved(s, s', l)
  {
    if l == l0 { assert Line(s', l) == Line(s, l)[1..]; }
  }

  lemma LineAhead(s: State, s': State, l: LoopId, a: Item, b: Item)
    requires l in s.loops && l in s'.loops && LineMoved(s, s', l) && Ahead(Line(s, l), a, b)
    ensures Called(s', a) > 0 || Ahead(Line(s', l), a, b)
  {
    hide Line, Called;
    var q, r := Line(s, l), Line(s', l);
    var i, j :| 0 <= i < j < |q| && q[i] == a && q[j] == b;
    if r == q {
    } else if q != [] && r == q[1..] && Called(s', q[0]) > 0 {
      if i > 0 { assert r[i - 1] == a && r[j - 1] == b; }
    } else {
      assert r[i] == a && r[j] == b;
    }
  }

  lemma DecideLine(s: State, s': State, l: LoopId, a: Item, b: Item)
    requires Inv(s) && Decide(s, s', l) && l in s.loops && s.loops[l].call != Cancel1(a) && s.loops[l].call != Cancel1(b)
    requires Ahead(Line(s, l), a, b)
    ensures l in s'.loops && Ahead(Line(s', l), a, b)
  {
    hide Inv, Ahead, Drop;
    var lp := s.loops[l];
    DropsKeepAhead(lp.local, lp.wq, lp.call.w, a, b);
  }

  lemma Resting(s: State, l: LoopId)
    requires Inv(s) && l in s.loops
    ensures s.loops[l].drain.AboutToMove? ==> s.loops[l].local == []
  {
    assert LoopOk(s, l);
  }

  /** `done` is called in the order in which items were completed: of two items that wait for it, neither of which is taken
      back by uv_cancel, the second waits behind the first until the first has been called. */
  lemma {:induction false} DoneInOrder(states: seq<State>, steps: seq<Step>, k: nat, n: nat, l: LoopId, a: Item, b: Item)
    requires Run(states, steps) && k <= n < |states| && l in states[k].loops && Ahead(Line(states[k], l), a, b)
    requires forall j :: k <= j < n ==> !TakesBack(states[j], steps[j], l, a) && !TakesBack(states[j], steps[j], l, b)
    ensures l in states[n].loops && (Called(states[n], a) > 0 || Ahead(Line(states[n], l), a, b))
    decreases n
  {
    hide Next, Inv, Ahead, LineMoved, Line, Called, Start;
    if k < n {
      DoneInOrder(states, steps, k, n - 1, l, a, b);
      var s, s', step := states[n - 1], states[n], steps[n - 1];
      assert Next(s, states[n - 1 + 1], step);
      RunInv(states, steps, n - 1);
      Resting(s, l);
      StepCounts(s, s', step, a);
      if step == CancelDecide(l) {
        DecideNext(s, s', l);
        if Called(s, a) == 0 { DecideLine(s, s', l, a, b); }
      } else {
        StepLine(s, s', step, l);
        if Called(s, a) == 0 { LineAhead(s, s', l, a, b); }
      }
    }
  }

  lemma DecideNext(s: State, s': State, l: LoopId)
    requires Next(s, s', CancelDecide(l))
    ensures Decide(s, s', l) && l in s'.loops && s.loops[l].call.Cancel1?
  {}

  lemma StepKeepsLoop(s: State, s': State, step: Step, w: Item)
    requires Next(s, s', step) && w in s.items
    ensures w in s'.items && s'.items[w].loop == s.items[w].loop
  {
    hide Signal, AsyncOk, A.Next, Drop;
  }

  lemma SubmitHas(s: State, s': State, l: LoopId, w: Item, wake: Option<nat>)
    requires Next(s, s', Submit(l, w, wake))
    ensures w in s'.items && s'.items[w].loop == l
  {}

  lemma {:induction false} LoopOfItem(states: seq<State>, steps: seq<Step>, k: nat, n: nat, l: LoopId, w: Item)
    requires Run(states, steps) && k < n < |states| && steps[k].Submit? && steps[k].l == l && steps[k].w == w
    ensures w in states[n].items && states[n].items[w].loop == l
    decreases n
  {
    hide Next, Start;
    assert Next(states[n - 1], states[n - 1 + 1], steps[n - 1]);
    if n == k + 1 {
      SubmitHas(states[k], states[n], l, w, steps[k].wake);
    } else {
      LoopOfItem(states, steps, k, n - 1, l, w);
      StepKeepsLoop(states[n - 1], states[n], steps[n - 1], w);
    }
  }

  /** `done` is called on the thread of the loop that submitted the item. */
  lemma DoneOnOwnLoop(states: seq<State>, steps: seq<Step>, k: nat, n: nat, l: LoopId, w: Item)
    requires Run(states, steps) && k < n < |steps| && steps[k].Submit? && steps[k].l == l && steps[k].w == w
    requires |states| > n && CallsDone(states[n], steps[n], w)
    ensures steps[n] == Done(l)
  {
    hide Run, QueueInv, HoldInv, ItemInv, WorkerInv, WakeInv, LockInv;
    RunLength(states, steps);
    LoopOfItem(states, steps, k, n, l, w);
    RunInv(states, steps, n);
    assert LoopOk(states[n], steps[n].l);
    assert w in states[n].loops[steps[n].l].local;
  }

  // ---------------------------------------------------------------- mutual exclusion

  /** The thread holds the mutex of loop `l`. */
  ghost predicate InSection(s: State, l: LoopId, t: A.Tid) {
    match t
    case Worker(id) => id in s.workers && s.workers[id] == Sending(l)
    case LoopThread(id) => id == l && l in s.loops && s.loops[l].call.CancelSend?
  }

  /** At most one thread is between lock and unlock of a loop's mutex, and at most one of the global mutex. */
  lemma MutualExclusion(states: seq<State>, steps: seq<Step>, n: nat)
    requires Run(states, steps) && n < |states|
    ensures var s := states[n];
            && (forall l, t, u :: InSection(s, l, t) && InSection(s, l, u) ==> t == u)
            && (forall l, m :: l in s.loops && m in s.loops && s.loops[l].call.Cancel1? && s.loops[m].call.Cancel1? ==> l == m)
  {
    hide Run, LoopInv, WakeInv, QueueInv, HoldInv, ItemInv, WorkerInv;
    RunInv(states, steps, n);
    var s := states[n];
    forall l, t, u | InSection(s, l, t) && InSection(s, l, u) ensures t == u { assert LoopOk(s, l); }
    forall l, m | l in s.loops && m in s.loops && s.loops[l].call.Cancel1? && s.loops[m].call.Cancel1? ensures l == m {
      assert LoopOk(s, l) && LoopOk(s, m);
    }
  }
}
