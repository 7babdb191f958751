/** The thread pool (src/threadpool.c) as a step system: any number of workers, loops and work
    items, two kinds of mutex, one condition variable. A critical section without a nested lock
    is one step; the only places that hold a lock across steps are uv__work_cancel, which takes
    the loop's mutex while it holds the global one, and the two calls of uv_async_send. */
module ThreadPool {
  import opened Options
  import opened Seqs
  import A = Async

  type Item = nat
  type LoopId = nat

  /** w->work: the user's function, uv__cancelled, or NULL. */
  datatype Work = User | Cancelled | Null
  datatype Status = Success | Canceled

  datatype Place = Queued | Held(t: nat) | Completed | Moved | Withdrawn | Finished

  /** `self`: w->wq links to itself, as QUEUE_INIT leaves it. `ran`, `dones` and `cancelOk` record
      how often the work ran, with what statuses `done` was called, and whether a cancel decided to
      return 0. */
  datatype ItemSt = ItemSt(loop: LoopId, place: Place, work: Work, self: bool,
                           ran: nat, dones: seq<Status>, cancelOk: bool)

  datatype Entry = Exit | Job(w: Item)

  datatype Pc =
    | Top               // about to lock the global mutex
    | Wait              // in uv_cond_wait
    | Wake              // signalled, about to re-lock
    | Running(w: Item)
    | Putting(w: Item)  // the work is done; about to lock the loop's mutex
    | Sending(l: LoopId)// inside uv_async_send, holding the loop's mutex
    | Exited

  /** Where the loop thread is in uv__work_cancel and in uv__work_done. */
  datatype Call = NoCall | Cancel1(w: Item) | Cancel2(w: Item) | CancelSend(w: Item)
  datatype Drain = NotDraining | AboutToMove | Draining

  datatype LoopSt = LoopSt(wq: seq<Item>, local: seq<Item>, mutex: Option<A.Tid>,
                           drain: Drain, call: Call, async: A.State)

  datatype State = State(wq: seq<Entry>, idle: nat, workers: map<nat, Pc>, mutex: Option<LoopId>,
                         items: map<Item, ItemSt>, loops: map<LoopId, LoopSt>)

  /** The loop's wq_async handle. */
  const WQ: A.Handle := 0

  datatype Step =
    | Take(t: nat, wake: Option<nat>)
    | Spurious(t: nat)
    | Finish(t: nat)
    | Put(t: nat)
    | PutDone(t: nat)
    | Submit(l: LoopId, w: Item, wake: Option<nat>)
    | PostExit(wake: Option<nat>)
    | CancelLock(l: LoopId, w: Item)
    | CancelDecide(l: LoopId)
    | CancelPut(l: LoopId)
    | CancelDone(l: LoopId)
    | Move(l: LoopId)
    | Done(l: LoopId)
    | DrainEnd(l: LoopId)
    | AsyncStep(l: LoopId, step: A.Step)

  // ---------------------------------------------------------------- steps

  ghost predicate Waiting(ws: map<nat, Pc>, t: nat) { t in ws && ws[t].Wait? }

  /** uv_cond_signal wakes a waiting worker if there is one. */
  ghost predicate Signal(ws: map<nat, Pc>, ws': map<nat, Pc>, wake: Option<nat>) {
    if wake.Some? then Waiting(ws, wake.value) && ws' == ws[wake.value := Wake]
    else (forall t :: !Waiting(ws, t)) && ws' == ws
  }

  /** post(): the entry is appended, and a worker signalled if any is counted idle. */
  ghost predicate Post(s: State, s': State, e: Entry, wake: Option<nat>) {
    && s.mutex.None? && s'.wq == s.wq + [e] && s'.idle == s.idle && s'.mutex == s.mutex && s'.loops == s.loops
    && if s.idle > 0 then Signal(s.workers, s'.workers, wake) else s'.workers == s.workers
  }

  ghost predicate TakeStep(s: State, s': State, t: nat, wake: Option<nat>) {
    && s.mutex.None? && t in s.workers && (s.workers[t].Top? || s.workers[t].Wake?)
    && (s.workers[t].Wake? ==> s.idle > 0)
    && var idle := if s.workers[t].Wake? then s.idle - 1 else s.idle;
       if s.wq == [] then
         s' == s.(idle := idle + 1, workers := s.workers[t := Wait])
       else if s.wq[0].Exit? then
         && Signal(s.workers[t := Exited], s'.workers, wake)
         && s' == s.(idle := idle, workers := s'.workers)
       else
         var w := s.wq[0].w;
         && w in s.items
         && s' == s.(idle := idle, workers := s.workers[t := Running(w)], wq := s.wq[1..],
                     items := s.items[w := s.items[w].(place := Held(t), self := true)])
  }

  /** QUEUE_REMOVE of w->wq, from whichever queue it is on. */
  ghost function Unqueue(s: State, w: Item): State
    requires w in s.items && s.items[w].loop in s.loops
  {
    var l := s.items[w].loop;
    var lp := s.loops[l];
    s.(wq := Drop(s.wq, Job(w)), loops := s.loops[l := lp.(wq := Drop(lp.wq, w), local := Drop(lp.local, w))])
  }

  ghost predicate Decide(s: State, s': State, l: LoopId) {
    && l in s.loops && s.loops[l].call.Cancel1? && s.loops[l].mutex.None?
    && var w := s.loops[l].call.w;
       && w in s.items && s.items[w].loop == l
       && var cancelled := !s.items[w].self && !s.items[w].work.Null?;
          if cancelled then
            var u := Unqueue(s, w);
            s' == u.(mutex := None, items := s.items[w := s.items[w].(place := Withdrawn, cancelOk := true)],
                     loops := u.loops[l := u.loops[l].(call := Cancel2(w))])
          else
            s' == s.(mutex := None, loops := s.loops[l := s.loops[l].(call := NoCall)])
  }

  ghost predicate AsyncOk(s: State, l: LoopId, step: A.Step)
    requires l in s.loops
  {
    match step
    case SendStart(t, h) =>
      h != WQ && (t.Worker? && t.id in s.workers ==> !s.workers[t.id].Sending?)
      && (t.LoopThread? && t.id in s.loops ==> !s.loops[t.id].call.CancelSend?)
    case SendSeen(_) => true
    case SendMiss(_) => true
    case SendSwap(_) => true
    case SendWrite(_, _) => true
    case Init(h) => h != WQ && s.loops[l].call.NoCall?
    case Close(h) => h != WQ && s.loops[l].call.NoCall?
    case _ => s.loops[l].call.NoCall? && s.loops[l].drain.NotDraining?
  }

  ghost predicate FinishStep(s: State, s': State, t: nat) {
    && t in s.workers && s.workers[t].Running? && s.workers[t].w in s.items
    && var w := s.workers[t].w;
       s' == s.(workers := s.workers[t := Putting(w)], items := s.items[w := s.items[w].(ran := s.items[w].ran + 1)])
  }

  ghost predicate PutStep(s: State, s': State, t: nat) {
    && t in s.workers && s.workers[t].Putting? && s.workers[t].w in s.items
    && var w := s.workers[t].w;
       var l := s.items[w].loop;
       && l in s.loops && s.loops[l].mutex.None? && l in s'.loops
       && A.Next(s.loops[l].async, s'.loops[l].async, A.SendStart(A.Worker(t), WQ))
       && s' == s.(workers := s.workers[t := Sending(l)],
                   items := s.items[w := s.items[w].(place := Completed, work := Null, self := false)],
                   loops := s.loops[l := s.loops[l].(wq := s.loops[l].wq + [w], mutex := Some(A.Worker(t)),
                                                      async := s'.loops[l].async)])
  }

  ghost predicate PutDoneStep(s: State, s': State, t: nat) {
    && t in s.workers && s.workers[t].Sending? && s.workers[t].l in s.loops
    && var l := s.workers[t].l;
       && A.Worker(t) !in s.loops[l].async.senders
       && s' == s.(workers := s.workers[t := Top], loops := s.loops[l := s.loops[l].(mutex := None)])
  }

  ghost predicate SubmitStep(s: State, s': State, l: LoopId, w: Item, wake: Option<nat>) {
    && l in s.loops && s.loops[l].call.NoCall? && w !in s.items && Post(s, s', Job(w), wake)
    && s'.items == s.items[w := ItemSt(l, Queued, User, false, 0, [], false)]
  }

  ghost predicate LockStep(s: State, s': State, l: LoopId, w: Item) {
    && l in s.loops && s.loops[l].call.NoCall? && s.mutex.None?
    && w in s.items && s.items[w].loop == l && !s.items[w].place.Finished?
    && s' == s.(mutex := Some(l), loops := s.loops[l := s.loops[l].(call := Cancel1(w))])
  }

  ghost predicate CancelPutStep(s: State, s': State, l: LoopId) {
    && l in s.loops && s.loops[l].call.Cancel2? && s.loops[l].call.w in s.items && l in s'.loops
    && var w := s.loops[l].call.w;
       && s.loops[l].mutex.None?
       && A.Next(s.loops[l].async, s'.loops[l].async, A.SendStart(A.LoopThread(l), WQ))
       && s' == s.(items := s.items[w := s.items[w].(place := Completed, work := Cancelled)],
                   loops := s.loops[l := s.loops[l].(wq := s.loops[l].wq + [w], mutex := Some(A.LoopThread(l)),
                                                      call := CancelSend(w), async := s'.loops[l].async)])
  }

  ghost predicate CancelDoneStep(s: State, s': State, l: LoopId) {
    && l in s.loops && s.loops[l].call.CancelSend? && s.loops[l].call.w in s.items
    && var w := s.loops[l].call.w;
       && A.LoopThread(l) !in s.loops[l].async.senders
       && s' == s.(loops := s.loops[l := s.loops[l].(mutex := None, call := NoCall)])
  }

  ghost function AllMoved(items: map<Item, ItemSt>, q: seq<Item>): map<Item, ItemSt> {
    map w | w in items :: if w in q then items[w].(place := Moved) else items[w]
  }

  ghost predicate MoveStep(s: State, s': State, l: LoopId) {
    && l in s.loops && s.loops[l].drain.AboutToMove? && s.loops[l].call.NoCall? && s.loops[l].mutex.None?
    && s' == s.(items := AllMoved(s.items, s.loops[l].wq),
                loops := s.loops[l := s.loops[l].(local := s.loops[l].wq, wq := [], drain := Draining)])
  }

  ghost predicate DoneStep(s: State, s': State, l: LoopId) {
    && l in s.loops && s.loops[l].drain.Draining? && s.loops[l].call.NoCall? && s.loops[l].local != []
    && var w := s.loops[l].local[0];
       && w in s.items
       && var err := if s.items[w].work.Cancelled? then Canceled else Success;
          s' == s.(items := s.items[w := s.items[w].(place := Finished, dones := s.items[w].dones + [err])],
                   loops := s.loops[l := s.loops[l].(local := s.loops[l].local[1..])])
  }

  ghost predicate DrainEndStep(s: State, s': State, l: LoopId) {
    && l in s.loops && s.loops[l].drain.Draining? && s.loops[l].call.NoCall? && s.loops[l].local == []
    && l in s'.loops && A.Next(s.loops[l].async, s'.loops[l].async, A.LoopReturn)
    && s' == s.(loops := s.loops[l := s.loops[l].(drain := NotDraining, async := s'.loops[l].async)])
  }

  ghost predicate AsyncStepOk(s: State, s': State, l: LoopId, step: A.Step) {
    && l in s.loops && l in s'.loops && AsyncOk(s, l, step)
    && A.Next(s.loops[l].async, s'.loops[l].async, step)
    && (step.LoopReturn? ==> s.loops[l].async.pass != A.Calling(WQ))
    && var called := s'.loops[l].async.pass == A.Calling(WQ) && step.LoopVisit?;
       s' == s.(loops := s.loops[l := s.loops[l].(async := s'.loops[l].async,
                                                   drain := if called then AboutToMove else s.loops[l].drain)])
  }

  ghost predicate Next(s: State, s': State, step: Step) {
    match step
    case Take(t, wake) => TakeStep(s, s', t, wake)
    case Spurious(t) => Waiting(s.workers, t) && s' == s.(workers := s.workers[t := Wake])
    case Finish(t) => FinishStep(s, s', t)
    case Put(t) => PutStep(s, s', t)
    case PutDone(t) => PutDoneStep(s, s', t)
    case Submit(l, w, wake) => SubmitStep(s, s', l, w, wake)
    case PostExit(wake) => Exit !in s.wq && Post(s, s', Exit, wake) && s'.items == s.items
    case CancelLock(l, w) => LockStep(s, s', l, w)
    case CancelDecide(l) => Decide(s, s', l)
    case CancelPut(l) => CancelPutStep(s, s', l)
    case CancelDone(l) => CancelDoneStep(s, s', l)
    case Move(l) => MoveStep(s, s', l)
    case Done(l) => DoneStep(s, s', l)
    case DrainEnd(l) => DrainEndStep(s, s', l)
    case AsyncStep(l, step) => AsyncStepOk(s, s', l, step)
  }

  // ---------------------------------------------------------------- invariants

  ghost predicate QueueInv(wq: seq<Entry>, items: map<Item, ItemSt>) {
    && NoDup(wq)
    && (forall w :: Job(w) in wq <==> w in items && items[w].place.Queued?)
  }

  ghost predicate HoldInv(ws: map<nat, Pc>, items: map<Item, ItemSt>) {
    && (forall t :: t in ws && (ws[t].Running? || ws[t].Putting?) ==>
          ws[t].w in items && items[ws[t].w].place == Held(t))
    && (forall w :: w in items && items[w].place.Held? ==>
          var t := items[w].place.t;
          t in ws && (ws[t] == Running(w) || ws[t] == Putting(w)))
  }

  /** What an item has been through, by place. */
  ghost predicate ItemOk(i: ItemSt, ws: map<nat, Pc>) {
    match i.place
    case Queued => i.work.User? && !i.self && i.ran == 0 && i.dones == [] && !i.cancelOk
    case Held(t) => i.work.User? && i.self && i.dones == [] && !i.cancelOk
                    && t in ws && i.ran == (if ws[t].Putting? then 1 else 0)
    case Withdrawn => !i.work.Null? && !i.self && i.ran == 0 && i.dones == [] && i.cancelOk
    case Finished => (i.dones == [Success] && i.ran == 1 && !i.cancelOk)
                     || (i.dones == [Canceled] && i.ran == 0 && i.cancelOk)
    case _ => !i.self && i.dones == []
              && ((i.work.Null? && i.ran == 1 && !i.cancelOk) || (i.work.Cancelled? && i.ran == 0 && i.cancelOk))
  }

  ghost predicate ItemInv(items: map<Item, ItemSt>, ws: map<nat, Pc>) {
    forall w :: w in items ==> ItemOk(items[w], ws)
  }

  ghost function Idlers(ws: map<nat, Pc>): set<nat> { set t | t in ws && (ws[t].Wait? || ws[t].Wake?) }
  ghost predicate Live(ws: map<nat, Pc>, t: nat) { t in ws && !ws[t].Exited? }
  ghost predicate Awake(ws: map<nat, Pc>, t: nat) { t in ws && !ws[t].Wait? && !ws[t].Exited? }

  /** A queued entry always finds a worker that is not asleep; workers leave only past the exit message. */
  ghost predicate WorkerInv(wq: seq<Entry>, idle: nat, ws: map<nat, Pc>) {
    && idle == |Idlers(ws)|
    && (wq != [] && (exists t :: Live(ws, t)) ==> exists t :: Awake(ws, t))
    && (forall t :: t in ws && ws[t].Exited? ==> wq != [] && wq[0].Exit?)
  }

  ghost predicate LockInv(l: LoopId, m: Option<A.Tid>, call: Call, mutex: Option<LoopId>, ws: map<nat, Pc>) {
    && (mutex == Some(l) <==> call.Cancel1?)
    && (forall t :: t in ws && ws[t] == Sending(l) ==> m == Some(A.Worker(t)))
    && (m.Some? && m.value.Worker? ==> m.value.id in ws && ws[m.value.id] == Sending(l))
    && (m.Some? && m.value.LoopThread? ==> m.value.id == l)
    && (m == Some(A.LoopThread(l)) <==> call.CancelSend?)
  }

  ghost predicate LoopInv(items: map<Item, ItemSt>, l: LoopId, wq: seq<Item>, local: seq<Item>, call: Call, drain: Drain) {
    && NoDup(wq) && NoDup(local)
    && (forall w :: w in wq <==> w in items && items[w].loop == l && items[w].place.Completed?)
    && (forall w :: w in local <==> w in items && items[w].loop == l && items[w].place.Moved?)
    && (forall w :: w in items && items[w].loop == l && items[w].place.Withdrawn? ==> call == Cancel2(w))
    && (!call.NoCall? ==> call.w in items && items[call.w].loop == l && !items[call.w].place.Finished?)
    && (call.Cancel2? ==> items[call.w].place.Withdrawn?)
    && (drain.Draining? || local == [])
  }

  ghost predicate WakeInv(wq: seq<Item>, drain: Drain, async: A.State) {
    && A.Inv(async) && A.Open(async, WQ)
    && (wq != [] ==> WQ in async.due || drain.AboutToMove?)
    && (drain.NotDraining? <==> async.pass != A.Calling(WQ))
  }

  ghost predicate LoopOk(s: State, l: LoopId)
    requires l in s.loops
  {
    var lp := s.loops[l];
    && LoopInv(s.items, l, lp.wq, lp.local, lp.call, lp.drain)
    && WakeInv(lp.wq, lp.drain, lp.async)
    && LockInv(l, lp.mutex, lp.call, s.mutex, s.workers)
  }

  ghost predicate Inv(s: State) {
    && QueueInv(s.wq, s.items) && HoldInv(s.workers, s.items) && ItemInv(s.items, s.workers)
    && WorkerInv(s.wq, s.idle, s.workers)
    && (forall w :: w in s.items ==> s.items[w].loop in s.loops)
    && (s.mutex.Some? ==> s.mutex.value in s.loops)
    && (forall t :: t in s.workers && s.workers[t].Sending? ==> s.workers[t].l in s.loops)
    && (forall l :: l in s.loops ==> LoopOk(s, l))
  }

  // ---------------------------------------------------------------- every step keeps them

  ghost predicate Holding(ws: map<nat, Pc>, t: nat) { t in ws && (ws[t].Running? || ws[t].Putting?) }

  /** The workers' program counters change, but not what they hold. */
  ghost predicate SameHolders(ws: map<nat, Pc>, ws': map<nat, Pc>) {
    forall t :: Holding(ws, t) || Holding(ws', t) ==> t in ws && t in ws' && ws[t] == ws'[t]
  }

  ghost predicate SameSenders(ws: map<nat, Pc>, ws': map<nat, Pc>) {
    forall t :: (t in ws && ws[t].Sending?) || (t in ws' && ws'[t].Sending?) ==> t in ws && t in ws' && ws[t] == ws'[t]
  }

  lemma HoldersKept(ws: map<nat, Pc>, ws': map<nat, Pc>, items: map<Item, ItemSt>)
    requires HoldInv(ws, items) && ItemInv(items, ws) && SameHolders(ws, ws')
    ensures HoldInv(ws', items) && ItemInv(items, ws')
  {
    forall t | Holding(ws', t) ensures ws'[t].w in items && items[ws'[t].w].place == Held(t) {
      assert Holding(ws, t) ==> ws[t] == ws'[t];
    }
    forall w | w in items ensures ItemOk(items[w], ws') {
      assert ItemOk(items[w], ws);
      if items[w].place.Held? { assert Holding(ws, items[w].place.t); }
    }
    forall w | w in items && items[w].place.Held?
      ensures var t := items[w].place.t; t in ws' && (ws'[t] == Running(w) || ws'[t] == Putting(w))
    {
      assert Holding(ws, items[w].place.t);
    }
  }

  lemma SendersKept(l: LoopId, m: Option<A.Tid>, call: Call, mutex: Option<LoopId>, ws: map<nat, Pc>, ws': map<nat, Pc>)
    requires LockInv(l, m, call, mutex, ws) && SameSenders(ws, ws')
    ensures LockInv(l, m, call, mutex, ws')
  {}

  /** An item that no worker holds changes its state. */
  lemma ItemChanged(wq: seq<Entry>, ws: map<nat, Pc>, items: map<Item, ItemSt>, w: Item, i: ItemSt)
    requires QueueInv(wq, items) && HoldInv(ws, items) && ItemInv(items, ws) && w in items
    requires !items[w].place.Queued? && !i.place.Queued? && !items[w].place.Held? && !i.place.Held? && ItemOk(i, ws)
    ensures QueueInv(wq, items[w := i]) && HoldInv(ws, items[w := i]) && ItemInv(items[w := i], ws)
  {}

  /** Changing one item leaves the other loops as they are. */
  lemma OtherLoop(items: map<Item, ItemSt>, w: Item, i: ItemSt, l: LoopId, wq: seq<Item>, local: seq<Item>,
                  call: Call, drain: Drain)
    requires LoopInv(items, l, wq, local, call, drain) && i.loop != l && (w in items ==> items[w].loop != l)
    ensures LoopInv(items[w := i], l, wq, local, call, drain)
  {}

  /** Nor does it matter to a loop what happens to an item before it completes. */
  lemma EarlyItem(items: map<Item, ItemSt>, w: Item, i: ItemSt, l: LoopId, wq: seq<Item>, local: seq<Item>,
                  call: Call, drain: Drain)
    requires LoopInv(items, l, wq, local, call, drain)
    requires i.place.Queued? || i.place.Held?
    requires w in items ==> items[w].loop == i.loop && (items[w].place.Queued? || items[w].place.Held?)
    ensures LoopInv(items[w := i], l, wq, local, call, drain)
  {}

  // A worker's steps.

  lemma SpuriousInv(s: State, s': State, t: nat)
    requires Inv(s) && Next(s, s', Spurious(t))
    ensures Inv(s')
  {
    hide QueueInv, HoldInv, ItemInv, LoopInv, WakeInv, LockInv;
    HoldersKept(s.workers, s'.workers, s.items);
    assert Idlers(s'.workers) == Idlers(s.workers);
    assert Awake(s'.workers, t);
    forall l | l in s'.loops ensures LoopOk(s', l) {
      assert LoopOk(s, l);
      SendersKept(l, s.loops[l].mutex, s.loops[l].call, s.mutex, s.workers, s'.workers);
    }
  }

  lemma WorkFinished(wq: seq<Entry>, ws: map<nat, Pc>, items: map<Item, ItemSt>, t: nat)
    requires QueueInv(wq, items) && HoldInv(ws, items) && ItemInv(items, ws) && t in ws && ws[t].Running? && ws[t].w in items
    ensures var w := ws[t].w;
            var items', ws' := items[w := items[w].(ran := items[w].ran + 1)], ws[t := Putting(w)];
            && QueueInv(wq, items') && HoldInv(ws', items') && ItemInv(items', ws')
            && items[w].place == Held(t) && items[w].loop == items'[w].loop
  {
    assert ItemOk(items[ws[t].w], ws);
  }

  lemma FinishInv(s: State, s': State, t: nat)
    requires Inv(s) && FinishStep(s, s', t)
    ensures Inv(s')
  {
    hide LoopInv, WakeInv, LockInv, QueueInv, HoldInv, ItemInv;
    var w := s.workers[t].w;
    WorkFinished(s.wq, s.workers, s.items, t);
    assert Idlers(s'.workers) == Idlers(s.workers);
    assert Awake(s'.workers, t);
    forall l | l in s'.loops ensures LoopOk(s', l) {
      assert LoopOk(s, l);
      var lp := s.loops[l];
      EarlyItem(s.items, w, s'.items[w], l, lp.wq, lp.local, lp.call, lp.drain);
      SendersKept(l, lp.mutex, lp.call, s.mutex, s.workers, s'.workers);
    }
  }

  lemma PutDoneLoop(s: State, s': State, t: nat, l: LoopId)
    requires Inv(s) && PutDoneStep(s, s', t) && l in s.loops
    ensures LoopOk(s', l)
  {
    hide QueueInv, HoldInv, ItemInv, WorkerInv, LoopInv, WakeInv;
    assert LoopOk(s, l);
  }

  lemma PutDoneInv(s: State, s': State, t: nat)
    requires Inv(s) && PutDoneStep(s, s', t)
    ensures Inv(s')
  {
    hide QueueInv, HoldInv, ItemInv, LoopOk;
    HoldersKept(s.workers, s'.workers, s.items);
    assert Idlers(s'.workers) == Idlers(s.workers);
    assert Awake(s'.workers, t);
    forall l | l in s'.loops ensures LoopOk(s', l) { PutDoneLoop(s, s', t, l); }
  }

  lemma IdlersWithout(ws: map<nat, Pc>, t: nat, pc: Pc)
    requires t in ws && !pc.Wait? && !pc.Wake?
    ensures |Idlers(ws[t := pc])| == |Idlers(ws)| - if ws[t].Wait? || ws[t].Wake? then 1 else 0
  {
    assert Idlers(ws[t := pc]) == Idlers(ws) - {t};
  }

  lemma IdlersWith(ws: map<nat, Pc>, t: nat)
    requires t in ws
    ensures |Idlers(ws[t := Wait])| == |Idlers(ws)| + if ws[t].Wait? || ws[t].Wake? then 0 else 1
  {
    assert Idlers(ws[t := Wait]) == Idlers(ws) + {t};
  }

  /** A signal neither changes who is idle nor leaves everybody asleep. */
  lemma Signalled(ws: map<nat, Pc>, ws': map<nat, Pc>, wake: Option<nat>)
    requires Signal(ws, ws', wake)
    ensures Idlers(ws') == Idlers(ws) && SameHolders(ws, ws') && SameSenders(ws, ws')
    ensures forall t :: t in ws' && ws'[t].Exited? ==> t in ws && ws[t].Exited?
    ensures (exists t :: Live(ws', t)) ==> exists t :: Awake(ws', t)
  {
    if wake.Some? {
      assert Awake(ws', wake.value);
    } else if exists t :: Live(ws', t) {
      var t :| Live(ws', t);
      assert !Waiting(ws, t);
      assert Awake(ws', t);
    }
  }

  lemma LoopsKept(s: State, s': State)
    requires forall l :: l in s.loops ==> LoopOk(s, l)
    requires s'.loops == s.loops && s'.items == s.items && s'.mutex == s.mutex && SameSenders(s.workers, s'.workers)
    ensures forall l :: l in s'.loops ==> LoopOk(s', l)
  {
    hide LoopInv, WakeInv, LockInv;
    forall l | l in s'.loops ensures LoopOk(s', l) {
      assert LoopOk(s, l);
      SendersKept(l, s.loops[l].mutex, s.loops[l].call, s.mutex, s.workers, s'.workers);
    }
  }

  lemma TakeInv(s: State, s': State, t: nat, wake: Option<nat>)
    requires Inv(s) && TakeStep(s, s', t, wake)
    ensures Inv(s')
  {
    hide Inv, TakeStep;
    TakeCases(s, s', t, wake);
    if s.wq == [] {
      TakeSleepInv(s, s', t, wake);
    } else if s.wq[0].Exit? {
      TakeExitInv(s, s', t, wake);
    } else {
      TakeJobInv(s, s', t, wake);
    }
  }

  lemma TakeCases(s: State, s': State, t: nat, wake: Option<nat>)
    requires TakeStep(s, s', t, wake)
    ensures s.mutex.None? && t in s.workers && (s.workers[t].Top? || s.workers[t].Wake?)
  {}

  lemma TakeSleepInv(s: State, s': State, t: nat, wake: Option<nat>)
    requires Inv(s) && TakeStep(s, s', t, wake) && s.wq == []
    ensures Inv(s')
  {
    hide QueueInv, HoldInv, ItemInv, LoopOk;
    IdlersWith(s.workers, t);
    HoldersKept(s.workers, s'.workers, s.items);
    LoopsKept(s, s');
  }

  lemma TakeExitInv(s: State, s': State, t: nat, wake: Option<nat>)
    requires Inv(s) && TakeStep(s, s', t, wake) && s.wq != [] && s.wq[0].Exit?
    ensures Inv(s')
  {
    hide QueueInv, HoldInv, ItemInv, LoopOk;
    var ws := s.workers[t := Exited];
    IdlersWithout(s.workers, t, Exited);
    Signalled(ws, s'.workers, wake);
    HoldersKept(s.workers, s'.workers, s.items);
    LoopsKept(s, s');
  }

  lemma TakeJobLoop(s: State, s': State, t: nat, wake: Option<nat>, l: LoopId)
    requires Inv(s) && TakeStep(s, s', t, wake) && s.wq != [] && s.wq[0].Job? && l in s.loops
    ensures LoopOk(s', l)
  {
    hide HoldInv, ItemInv, WorkerInv, LoopInv, WakeInv, LockInv;
    var w, lp := s.wq[0].w, s.loops[l];
    assert s.wq[0] in s.wq;
    assert LoopOk(s, l);
    EarlyItem(s.items, w, s'.items[w], l, lp.wq, lp.local, lp.call, lp.drain);
    SendersKept(l, lp.mutex, lp.call, s.mutex, s.workers, s'.workers);
  }

  lemma TakeJobInv(s: State, s': State, t: nat, wake: Option<nat>)
    requires Inv(s) && TakeStep(s, s', t, wake) && s.wq != [] && s.wq[0].Job?
    ensures Inv(s')
  {
    hide LoopOk, QueueInv, HoldInv, ItemInv;
    var w := s.wq[0].w;
    JobTaken(s.wq, s.workers, s.items, t);
    IdlersWithout(s.workers, t, Running(w));
    assert Awake(s'.workers, t);
    forall l | l in s'.loops ensures LoopOk(s', l) { TakeJobLoop(s, s', t, wake, l); }
  }

  /** The first job goes from the queue into the hands of a worker. */
  lemma JobTaken(wq: seq<Entry>, ws: map<nat, Pc>, items: map<Item, ItemSt>, t: nat)
    requires QueueInv(wq, items) && HoldInv(ws, items) && ItemInv(items, ws) && wq != [] && wq[0].Job?
    requires t in ws && (ws[t].Top? || ws[t].Wake?) && wq[0].w in items
    ensures var w := wq[0].w;
            var items', ws' := items[w := items[w].(place := Held(t), self := true)], ws[t := Running(w)];
            QueueInv(wq[1..], items') && HoldInv(ws', items') && ItemInv(items', ws')
  {
    assert wq[0] in wq;
    NoDupTail(wq);
  }

  lemma SendStarted(a: A.State, a': A.State, t: A.Tid)
    requires A.Inv(a) && A.Open(a, WQ) && A.Next(a, a', A.SendStart(t, WQ))
    ensures A.Inv(a') && A.Open(a', WQ) && WQ in a'.due && a'.pass == a.pass
  {
    A.NextInv(a, a', A.SendStart(t, WQ));
  }

  /** An item joins the queue of its loop. */
  lemma Completing(items: map<Item, ItemSt>, w: Item, i: ItemSt, wq: seq<Item>, local: seq<Item>,
                   call: Call, call': Call, drain: Drain)
    requires LoopInv(items, i.loop, wq, local, call, drain) && w in items && items[w].loop == i.loop
    requires i.place.Completed? && !items[w].place.Completed? && !items[w].place.Moved? && !items[w].place.Finished?
    requires (call' == call && !items[w].place.Withdrawn?) || (call == Cancel2(w) && call' == CancelSend(w))
    ensures LoopInv(items[w := i], i.loop, wq + [w], local, call', drain)
  {
    NoDupAppend(wq, w);
  }

  lemma LockTaken(l0: LoopId, l: LoopId, m: Option<A.Tid>, call: Call, mutex: Option<LoopId>, ws: map<nat, Pc>, t: nat)
    requires LockInv(l, m, call, mutex, ws) && t in ws && ws[t].Putting? && (l == l0 ==> m.None?)
    ensures LockInv(l, if l == l0 then Some(A.Worker(t)) else m, call, mutex, ws[t := Sending(l0)])
  {}

  lemma HeldItem(ws: map<nat, Pc>, items: map<Item, ItemSt>, t: nat)
    requires HoldInv(ws, items) && t in ws && ws[t].Putting?
    ensures ws[t].w in items && items[ws[t].w].place == Held(t)
  {}

  lemma PutLoop(s: State, s': State, t: nat, l: LoopId)
    requires Inv(s) && PutStep(s, s', t) && l in s.loops
    ensures LoopOk(s', l)
  {
    hide LoopInv, A.Next, A.Inv, A.Open, QueueInv, ItemInv, WorkerInv, HoldInv, LockInv;
    var w, lp := s.workers[t].w, s.loops[l];
    HeldItem(s.workers, s.items, t);
    assert LoopOk(s, l);
    LockTaken(s.items[w].loop, l, lp.mutex, lp.call, s.mutex, s.workers, t);
    if l == s.items[w].loop {
      SendStarted(lp.async, s'.loops[l].async, A.Worker(t));
      Completing(s.items, w, s'.items[w], lp.wq, lp.local, lp.call, lp.call, lp.drain);
    } else {
      OtherLoop(s.items, w, s'.items[w], l, lp.wq, lp.local, lp.call, lp.drain);
    }
  }

  lemma PutInv(s: State, s': State, t: nat)
    requires Inv(s) && PutStep(s, s', t)
    ensures Inv(s')
  {
    hide LoopOk, A.Next;
    assert Idlers(s'.workers) == Idlers(s.workers);
    assert Awake(s'.workers, t);
    forall l | l in s'.loops ensures LoopOk(s', l) { PutLoop(s, s', t, l); }
  }

  // Posting.

  lemma PostWorkers(s: State, s': State, e: Entry, wake: Option<nat>)
    requires Inv(s) && Post(s, s', e, wake)
    ensures WorkerInv(s'.wq, s'.idle, s'.workers)
    ensures SameHolders(s.workers, s'.workers) && SameSenders(s.workers, s'.workers)
  {
    hide QueueInv, HoldInv, ItemInv, LoopOk;
    if s.idle > 0 {
      Signalled(s.workers, s'.workers, wake);
    } else if exists t :: Live(s'.workers, t) {
      var t :| Live(s'.workers, t);
      assert t !in Idlers(s.workers);
      assert Awake(s'.workers, t);
    }
  }

  lemma PostExitInv(s: State, s': State, wake: Option<nat>)
    requires Inv(s) && Next(s, s', PostExit(wake))
    ensures Inv(s')
  {
    hide HoldInv, ItemInv, LoopOk, WorkerInv;
    PostWorkers(s, s', Exit, wake);
    NoDupAppend(s.wq, Exit);
    HoldersKept(s.workers, s'.workers, s.items);
    LoopsKept(s, s');
  }

  lemma SubmitInv(s: State, s': State, l0: LoopId, w: Item, wake: Option<nat>)
    requires Inv(s) && SubmitStep(s, s', l0, w, wake)
    ensures Inv(s')
  {
    hide LoopInv, WakeInv, LockInv, WorkerInv;
    PostWorkers(s, s', Job(w), wake);
    NoDupAppend(s.wq, Job(w));
    HoldersKept(s.workers, s'.workers, s.items);
    forall l | l in s'.loops ensures LoopOk(s', l) {
      assert LoopOk(s, l);
      var lp := s.loops[l];
      EarlyItem(s.items, w, s'.items[w], l, lp.wq, lp.local, lp.call, lp.drain);
      SendersKept(l, lp.mutex, lp.call, s.mutex, s.workers, s'.workers);
    }
  }

  // Cancelling.

  lemma CallBegins(items: map<Item, ItemSt>, l: LoopId, wq: seq<Item>, local: seq<Item>, drain: Drain, w: Item)
    requires LoopInv(items, l, wq, local, NoCall, drain) && w in items && items[w].loop == l
    requires !items[w].place.Finished?
    ensures LoopInv(items, l, wq, local, Cancel1(w), drain)
  {}

  lemma CancelLockInv(s: State, s': State, l0: LoopId, w: Item)
    requires Inv(s) && LockStep(s, s', l0, w)
    ensures Inv(s')
  {
    hide QueueInv, HoldInv, ItemInv, WorkerInv, WakeInv, LoopInv;
    forall l | l in s'.loops ensures LoopOk(s', l) {
      assert LoopOk(s, l);
      var lp := s.loops[l];
      if l == l0 { CallBegins(s.items, l, lp.wq, lp.local, lp.drain, w); }
    }
  }

  /** An item leaves the queues of its loop. */
  lemma Withdrawing(items: map<Item, ItemSt>, w: Item, i: ItemSt, wq: seq<Item>, local: seq<Item>, call: Call, drain: Drain)
    requires LoopInv(items, i.loop, wq, local, call, drain) && w in items && items[w].loop == i.loop
    requires i.place.Withdrawn? && call == Cancel1(w)
    ensures LoopInv(items[w := i], i.loop, Drop(wq, w), Drop(local, w), Cancel2(w), drain)
  {
    DropIn(wq, w);
    DropIn(local, w);
  }

  lemma DroppedJob(wq: seq<Entry>, idle: nat, ws: map<nat, Pc>, w: Item)
    requires WorkerInv(wq, idle, ws)
    ensures WorkerInv(Drop(wq, Job(w)), idle, ws)
  {
    var q := Drop(wq, Job(w));
    if q != [] { DropIn(wq, Job(w)); assert q[0] in wq; }
    if wq != [] && wq[0].Exit? {
      assert q[0] == wq[0];
    }
  }

  lemma DecideLoop(s: State, s': State, l0: LoopId, l: LoopId)
    requires Inv(s) && Decide(s, s', l0) && l in s.loops
    ensures LoopOk(s', l)
  {
    hide LoopInv, A.Inv, A.Open, QueueInv, ItemInv, WorkerInv, HoldInv;
    var w, lp := s.loops[l0].call.w, s.loops[l];
    assert LoopOk(s, l) && LoopOk(s, l0);
    if !s.items[w].self && !s.items[w].work.Null? {
      if l == l0 {
        Withdrawing(s.items, w, s'.items[w], lp.wq, lp.local, lp.call, lp.drain);
      } else {
        OtherLoop(s.items, w, s'.items[w], l, lp.wq, lp.local, lp.call, lp.drain);
      }
    } else if l == l0 {
      CallEnds(s.items, l, lp.wq, lp.local, lp.call, lp.drain);
    }
  }

  lemma CallEnds(items: map<Item, ItemSt>, l: LoopId, wq: seq<Item>, local: seq<Item>, call: Call, drain: Drain)
    requires LoopInv(items, l, wq, local, call, drain) && !call.Cancel2?
    ensures LoopInv(items, l, wq, local, NoCall, drain)
  {}

  lemma ItemWithdrawn(wq: seq<Entry>, ws: map<nat, Pc>, items: map<Item, ItemSt>, w: Item)
    requires QueueInv(wq, items) && HoldInv(ws, items) && ItemInv(items, ws) && w in items
    requires !items[w].place.Finished? && !items[w].self && !items[w].work.Null?
    ensures var items' := items[w := items[w].(place := Withdrawn, cancelOk := true)];
            QueueInv(Drop(wq, Job(w)), items') && HoldInv(ws, items') && ItemInv(items', ws)
  {
    assert ItemOk(items[w], ws);
    DropIn(wq, Job(w));
  }

  lemma DecideInv(s: State, s': State, l0: LoopId)
    requires Inv(s) && Decide(s, s', l0)
    ensures Inv(s')
  {
    hide LoopOk, WorkerInv, QueueInv, HoldInv, ItemInv;
    var w := s.loops[l0].call.w;
    CallItem(s, l0);
    if !s.items[w].self && !s.items[w].work.Null? {
      ItemWithdrawn(s.wq, s.workers, s.items, w);
    }
    DroppedJob(s.wq, s.idle, s.workers, w);
    forall l | l in s'.loops ensures LoopOk(s', l) { DecideLoop(s, s', l0, l); }
  }

  lemma CancelPutLoop(s: State, s': State, l0: LoopId, l: LoopId)
    requires Inv(s) && CancelPutStep(s, s', l0) && l in s.loops
    ensures LoopOk(s', l)
  {
    hide LoopInv, A.Next, A.Inv, A.Open, QueueInv, ItemInv, WorkerInv, HoldInv;
    var w, lp := s.loops[l0].call.w, s.loops[l];
    assert LoopOk(s, l) && LoopOk(s, l0);
    CallItem(s, l0);
    if l == l0 {
      SendStarted(lp.async, s'.loops[l].async, A.LoopThread(l));
      Completing(s.items, w, s'.items[w], lp.wq, lp.local, lp.call, CancelSend(w), lp.drain);
    } else {
      OtherLoop(s.items, w, s'.items[w], l, lp.wq, lp.local, lp.call, lp.drain);
    }
  }

  lemma CallItem(s: State, l: LoopId)
    requires Inv(s) && l in s.loops && !s.loops[l].call.NoCall?
    ensures var w := s.loops[l].call.w;
            w in s.items && s.items[w].loop == l && !s.items[w].place.Finished?
            && (s.loops[l].call.Cancel2? ==> s.items[w].place.Withdrawn?)
  {
    assert LoopOk(s, l);
  }

  lemma CancelPutInv(s: State, s': State, l0: LoopId)
    requires Inv(s) && CancelPutStep(s, s', l0)
    ensures Inv(s')
  {
    hide LoopOk, A.Next, QueueInv, HoldInv, WorkerInv;
    var w := s.loops[l0].call.w;
    CallItem(s, l0);
    assert ItemOk(s.items[w], s.workers);
    ItemChanged(s.wq, s.workers, s.items, w, s'.items[w]);
    forall l | l in s'.loops ensures LoopOk(s', l) { CancelPutLoop(s, s', l0, l); }
  }

  lemma CancelDoneInv(s: State, s': State, l0: LoopId)
    requires Inv(s) && CancelDoneStep(s, s', l0)
    ensures Inv(s')
  {
    hide QueueInv, HoldInv, ItemInv, WorkerInv, WakeInv, LoopInv;
    forall l | l in s'.loops ensures LoopOk(s', l) {
      assert LoopOk(s, l);
      var lp := s.loops[l];
      if l == l0 { CallEnds(s.items, l, lp.wq, lp.local, lp.call, lp.drain); }
    }
  }

  // The loop thread in uv__work_done.

  lemma MoveOwn(items: map<Item, ItemSt>, l: LoopId, wq: seq<Item>)
    requires LoopInv(items, l, wq, [], NoCall, AboutToMove)
    ensures LoopInv(AllMoved(items, wq), l, [], wq, NoCall, Draining)
  {}

  lemma MoveOther(items: map<Item, ItemSt>, q: seq<Item>, l: LoopId, wq: seq<Item>, local: seq<Item>,
                  call: Call, drain: Drain)
    requires LoopInv(items, l, wq, local, call, drain)
    requires forall w :: w in q ==> w in items && items[w].loop != l
    ensures LoopInv(AllMoved(items, q), l, wq, local, call, drain)
  {}

  lemma MoveLoop(s: State, s': State, l0: LoopId, l: LoopId)
    requires Inv(s) && MoveStep(s, s', l0) && l in s.loops
    ensures LoopOk(s', l)
  {
    hide QueueInv, HoldInv, ItemInv, WorkerInv, WakeInv, LockInv, LoopInv, AllMoved;
    assert LoopOk(s, l) && LoopOk(s, l0);
    var lp := s.loops[l];
    if l == l0 {
      assert lp.local == [] by { NotDraining0(s.items, l, lp.wq, lp.local, lp.call, lp.drain); }
      MoveOwn(s.items, l, lp.wq);
      MoveWake(lp.wq, lp.async);
    } else {
      forall w | w in s.loops[l0].wq ensures w in s.items && s.items[w].loop != l { QueuedItem(s, l0, w); }
      MoveOther(s.items, s.loops[l0].wq, l, lp.wq, lp.local, lp.call, lp.drain);
    }
  }

  lemma NotDraining0(items: map<Item, ItemSt>, l: LoopId, wq: seq<Item>, local: seq<Item>, call: Call, drain: Drain)
    requires LoopInv(items, l, wq, local, call, drain) && !drain.Draining?
    ensures local == []
  {}

  lemma MoveInv(s: State, s': State, l0: LoopId)
    requires Inv(s) && MoveStep(s, s', l0)
    ensures Inv(s')
  {
    hide WorkerInv, LoopOk, QueueInv, HoldInv, ItemInv;
    MoveItems(s, s', l0);
    forall l | l in s'.loops ensures LoopOk(s', l) { MoveLoop(s, s', l0, l); }
  }

  lemma MoveWake(wq: seq<Item>, async: A.State)
    requires WakeInv(wq, AboutToMove, async)
    ensures WakeInv([], Draining, async)
  {}

  lemma MoveItems(s: State, s': State, l0: LoopId)
    requires Inv(s) && MoveStep(s, s', l0)
    ensures QueueInv(s'.wq, s'.items) && HoldInv(s'.workers, s'.items) && ItemInv(s'.items, s'.workers)
  {
    hide WorkerInv, WakeInv, LockInv, LoopInv;
    assert LoopOk(s, l0);
    forall w | w in s.items && w in s.loops[l0].wq ensures s.items[w].place.Completed? {
      QueuedItem(s, l0, w);
    }
    forall w | w in s'.items ensures ItemOk(s'.items[w], s'.workers) {
      assert ItemOk(s.items[w], s.workers);
    }
  }

  lemma QueuedItem(s: State, l: LoopId, w: Item)
    requires l in s.loops && LoopOk(s, l)
    ensures w in s.loops[l].wq ==> w in s.items && s.items[w].place.Completed? && s.items[w].loop == l
    ensures w in s.loops[l].local ==> w in s.items && s.items[w].place.Moved? && s.items[w].loop == l
  {}

  lemma DoneInv(s: State, s': State, l0: LoopId)
    requires Inv(s) && DoneStep(s, s', l0)
    ensures Inv(s')
  {
    hide QueueInv, HoldInv, WorkerInv, WakeInv, LockInv, LoopInv;
    var lp0 := s.loops[l0];
    var w := lp0.local[0];
    assert LoopOk(s, l0);
    QueuedItem(s, l0, w);
    assert ItemOk(s.items[w], s.workers);
    ItemChanged(s.wq, s.workers, s.items, w, s'.items[w]);
    forall l | l in s'.loops ensures LoopOk(s', l) {
      assert LoopOk(s, l);
      var lp := s.loops[l];
      if l == l0 {
        Finishing(s.items, w, s'.items[w], lp.wq, lp.local, lp.drain);
      } else {
        OtherLoop(s.items, w, s'.items[w], l, lp.wq, lp.local, lp.call, lp.drain);
      }
    }
  }

  lemma Finishing(items: map<Item, ItemSt>, w: Item, i: ItemSt, wq: seq<Item>, local: seq<Item>, drain: Drain)
    requires LoopInv(items, i.loop, wq, local, NoCall, drain) && local != [] && w == local[0]
    requires w in items && items[w].loop == i.loop && i.place.Finished?
    ensures LoopInv(items[w := i], i.loop, wq, local[1..], NoCall, drain)
  {
    NoDupTail(local);
  }

  lemma DrainEndInv(s: State, s': State, l0: LoopId)
    requires Inv(s) && DrainEndStep(s, s', l0)
    ensures Inv(s')
  {
    hide QueueInv, HoldInv, ItemInv, WorkerInv, LockInv, A.Inv;
    forall l | l in s'.loops ensures LoopOk(s', l) {
      assert LoopOk(s, l);
      if l == l0 { A.NextInv(s.loops[l].async, s'.loops[l].async, A.LoopReturn); }
    }
  }

  /** What a step of the async layer can do to the pool's own handle. */
  lemma AsyncMoves(a: A.State, a': A.State, step: A.Step, drain: Drain, wq: seq<Item>)
    requires WakeInv(wq, drain, a) && A.Next(a, a', step)
    requires match step case Init(h) => h != WQ case Close(h) => h != WQ case _ => true
    requires step.LoopRead? || step.LoopMove? || step.LoopNext? || step.LoopVisit? || step.LoopReturn? || step.LoopEnd?
             ==> drain.NotDraining?
    ensures WakeInv(wq, if a'.pass == A.Calling(WQ) && step.LoopVisit? then AboutToMove else drain, a')
  {
    hide A.Inv;
    A.NextInv(a, a', step);
    AsyncKeepsOpen(a, a', step);
  }

  lemma AsyncKeepsOpen(a: A.State, a': A.State, step: A.Step)
    requires A.Inv(a) && A.Open(a, WQ) && A.Next(a, a', step)
    requires match step case Init(h) => h != WQ case Close(h) => h != WQ case _ => true
    ensures A.Open(a', WQ)
  {
    if step.Close? { DropIn(a.handles, step.h); DropIn(a.queue, step.h); }
    if step.LoopRead? || step.LoopMove? || step.LoopNext? || step.LoopVisit? || step.LoopReturn? || step.LoopEnd? {
      A.LoopKeepsOpen(a, a', step);
    }
  }

  lemma AsyncStepInv(s: State, s': State, l0: LoopId, step: A.Step)
    requires Inv(s) && AsyncStepOk(s, s', l0, step)
    ensures Inv(s')
  {
    hide QueueInv, HoldInv, ItemInv, WorkerInv, LockInv, WakeInv, A.Next;
    forall l | l in s'.loops ensures LoopOk(s', l) {
      assert LoopOk(s, l);
      var lp := s.loops[l];
      if l == l0 { AsyncMoves(lp.async, s'.loops[l].async, step, lp.drain, lp.wq); }
    }
  }

  lemma NextInv(s: State, s': State, step: Step)
    requires Inv(s) && Next(s, s', step)
    ensures Inv(s')
  {
    hide Inv, TakeStep, FinishStep, PutStep, PutDoneStep, SubmitStep, LockStep, Decide, CancelPutStep,
         CancelDoneStep, MoveStep, DoneStep, DrainEndStep, AsyncStepOk;
    match step
    case Take(t, wake) => TakeInv(s, s', t, wake);
    case Spurious(t) => SpuriousInv(s, s', t);
    case Finish(t) => FinishInv(s, s', t);
    case Put(t) => PutInv(s, s', t);
    case PutDone(t) => PutDoneInv(s, s', t);
    case Submit(l, w, wake) => SubmitInv(s, s', l, w, wake);
    case PostExit(wake) => PostExitInv(s, s', wake);
    case CancelLock(l, w) => CancelLockInv(s, s', l, w);
    case CancelDecide(l) => DecideInv(s, s', l);
    case CancelPut(l) => CancelPutInv(s, s', l);
    case CancelDone(l) => CancelDoneInv(s, s', l);
    case Move(l) => MoveInv(s, s', l);
    case Done(l) => DoneInv(s, s', l);
    case DrainEnd(l) => DrainEndInv(s, s', l);
    case AsyncStep(l, step) => AsyncStepInv(s, s', l, step);
  }

  // ---------------------------------------------------------------- whole runs

  ghost predicate Start(s: State) {
    && s.wq == [] && s.idle == 0 && s.mutex.None? && s.items == map[]
    && (forall t :: t in s.workers ==> s.workers[t].Top?)
    && (forall l :: l in s.loops ==>
          var lp := s.loops[l];
          && lp.wq == [] && lp.local == [] && lp.mutex.None? && lp.drain.NotDraining? && lp.call.NoCall?
          && lp.async == A.State({}, 0, map[], A.Polling, [WQ], [], {}))
  }

  lemma StartInv(s: State)
    requires Start(s)
    ensures Inv(s)
  {
    assert Idlers(s.workers) == {};
    forall t | Live(s.workers, t) ensures Awake(s.workers, t) {}
  }

  ghost predicate Run(states: seq<State>, steps: seq<Step>) {
    && |states| == |steps| + 1 && Start(states[0])
    && forall i :: 0 <= i < |steps| ==> Next(states[i], states[i + 1], steps[i])
  }

  lemma {:induction false} RunInv(states: seq<State>, steps: seq<Step>, n: nat)
    requires Run(states, steps) && n < |states|
    ensures Inv(states[n])
    decreases n
  {
    hide Inv, Next, Start;
    if n == 0 {
      StartInv(states[0]);
    } else {
      RunInv(states, steps, n - 1);
      assert Next(states[n - 1], states[n - 1 + 1], steps[n - 1]);
      NextInv(states[n - 1], states[n], steps[n - 1]);
    }
  }

  /** How often an item stands in a queue, is held, or is being carried by its loop thread. */
  ghost predicate InQueue(s: State, w: Item) { Job(w) in s.wq }
  ghost predicate InHand(s: State, w: Item) {
    exists t :: t in s.workers && (s.workers[t] == Running(w) || s.workers[t] == Putting(w))
  }
  ghost predicate InLoopQueue(s: State, l: LoopId, w: Item) { l in s.loops && (w in s.loops[l].wq || w in s.loops[l].local) }
  ghost predicate Carried(s: State, l: LoopId, w: Item) { l in s.loops && s.loops[l].call == Cancel2(w) }

  /** In every interleaving a submitted item is in exactly one place, and never twice there;
      `done` is called at most once, and exactly when the item is in none of them any more. Then the status
      is 0 iff the work ran, exactly once, and UV_ECANCELED iff it never ran and a cancel returned 0. */
  lemma OnePlace(states: seq<State>, steps: seq<Step>, n: nat, w: Item)
    requires Run(states, steps) && n < |states| && w in states[n].items
    ensures var s, i := states[n], states[n].items[w];
            && i.loop in s.loops && |i.dones| <= 1
            && (i.dones == [] <==> InQueue(s, w) || InHand(s, w) || InLoopQueue(s, i.loop, w) || Carried(s, i.loop, w))
            && !(InQueue(s, w) && InHand(s, w)) && !(InQueue(s, w) && InLoopQueue(s, i.loop, w))
            && !(InQueue(s, w) && Carried(s, i.loop, w)) && !(InHand(s, w) && InLoopQueue(s, i.loop, w))
            && !(InHand(s, w) && Carried(s, i.loop, w)) && !(InLoopQueue(s, i.loop, w) && Carried(s, i.loop, w))
            && (forall l :: l != i.loop ==> !InLoopQueue(s, l, w) && !Carried(s, l, w))
            && NoDup(s.wq) && NoDup(s.loops[i.loop].wq) && NoDup(s.loops[i.loop].local)
            && !(w in s.loops[i.loop].wq && w in s.loops[i.loop].local)
            && (i.dones == [Success] <==> |i.dones| == 1 && i.ran == 1)
            && (i.dones == [Canceled] <==> |i.dones| == 1 && i.ran == 0 && i.cancelOk)
            && i.ran <= 1 && (i.cancelOk ==> i.ran == 0)
  {
    hide Run, Next, WorkerInv, WakeInv, LockInv;
    RunInv(states, steps, n);
    var s, i := states[n], states[n].items[w];
    assert LoopOk(s, i.loop);
    forall l | l in s.loops && l != i.loop ensures !InLoopQueue(s, l, w) && !Carried(s, l, w) {
      assert LoopOk(s, l);
    }
  }

  /** A queued entry is never stranded: while any worker lives, one of them is not asleep. */
  lemma NoStrandedEntry(states: seq<State>, steps: seq<Step>, n: nat)
    requires Run(states, steps) && n < |states| && states[n].wq != []
    requires exists t :: Live(states[n].workers, t)
    ensures exists t :: Awake(states[n].workers, t)
  {
    hide Run, Next;
    RunInv(states, steps, n);
  }

  /** A completed item on a loop's queue is never forgotten: the loop is about to take the queue,
      a wakeup is being sent, or the loop is bound to look at its handle. */
  lemma CompletionsNotLost(states: seq<State>, steps: seq<Step>, n: nat, l: LoopId)
    requires Run(states, steps) && n < |states| && l in states[n].loops && states[n].loops[l].wq != []
    ensures var lp := states[n].loops[l];
            lp.drain.AboutToMove? || A.Sending(lp.async, WQ) || (WQ in lp.async.pending && A.Woken(lp.async, WQ))
  {
    hide Run, Next;
    RunInv(states, steps, n);
    assert LoopOk(states[n], l);
  }

  // ---------------------------------------------------------------- the exit message

  /** `e` stands before the exit message, or not in the queue at all. */
  ghost predicate BeforeExit(wq: seq<Entry>, e: Entry) {
    exists k :: 0 <= k < |wq| && wq[k].Exit? && forall i :: k <= i < |wq| ==> wq[i] != e
  }

  lemma {:induction false} DropKeepsBefore(wq: seq<Entry>, x: Entry, e: Entry)
    requires x.Job? && BeforeExit(wq, e)
    ensures BeforeExit(Drop(wq, x), e)
    decreases |wq|
  {
    var k :| 0 <= k < |wq| && wq[k].Exit? && forall i :: k <= i < |wq| ==> wq[i] != e;
    var t := Drop(wq[1..], x);
    var r := Drop(wq, x);
    if k == 0 {
      assert r == [wq[0]] + t && e !in wq && r[0].Exit?;
      DropIn(wq, x);
      forall i | 0 <= i < |r| ensures r[i] != e { assert r[i] in r; }
    } else if wq[0] == x {
      assert r[k - 1].Exit?;
    } else {
      assert wq[1..][k - 1].Exit?;
      DropKeepsBefore(wq[1..], x, e);
      var j :| 0 <= j < |t| && t[j].Exit? && forall i :: j <= i < |t| ==> t[i] != e;
      assert r == [wq[0]] + t && r[j + 1] == t[j];
    }
  }

  /** What a step can do to the queue: nothing, take its first job, take out one job, or append. */
  ghost predicate QueueMove(wq: seq<Entry>, wq': seq<Entry>, items: map<Item, ItemSt>) {
    || wq' == wq
    || (wq != [] && wq[0].Job? && wq' == wq[1..])
    || (exists x :: wq' == Drop(wq, Job(x)))
    || (exists e :: wq' == wq + [e] && (e.Job? ==> e.w !in items))
  }

  lemma NextMoves(s: State, s': State, step: Step)
    requires Next(s, s', step)
    ensures QueueMove(s.wq, s'.wq, s.items) && forall w :: w in s.items ==> w in s'.items
  {
    match step
    case Submit(l, w, wake) => assert s'.wq == s.wq + [Job(w)];
    case PostExit(wake) => assert s'.wq == s.wq + [Exit];
    case CancelDecide(l) => assert s'.wq == s.wq || s'.wq == Drop(s.wq, Job(s.loops[l].call.w));
    case _ =>
  }

  lemma MoveKeepsBefore(wq: seq<Entry>, wq': seq<Entry>, items: map<Item, ItemSt>, w: Item)
    requires QueueMove(wq, wq', items) && w in items && BeforeExit(wq, Job(w))
    ensures BeforeExit(wq', Job(w))
  {
    var e := Job(w);
    var k :| 0 <= k < |wq| && wq[k].Exit? && forall i :: k <= i < |wq| ==> wq[i] != e;
    if wq' == wq {
    } else if wq != [] && wq[0].Job? && wq' == wq[1..] {
      assert k > 0 && wq'[k - 1] == wq[k];
    } else if exists x :: wq' == Drop(wq, Job(x)) {
      var x :| wq' == Drop(wq, Job(x));
      DropKeepsBefore(wq, Job(x), e);
    } else {
      assert wq'[k] == wq[k];
    }
  }

  lemma {:induction false} RunKeepsBefore(states: seq<State>, steps: seq<Step>, k: nat, n: nat, w: Item)
    requires Run(states, steps) && k < n < |states| && steps[k].PostExit? && Job(w) in states[k].wq
    ensures BeforeExit(states[n].wq, Job(w)) && w in states[n].items
    decreases n
  {
    hide Inv, Start, Next;
    RunInv(states, steps, n - 1);
    assert Next(states[n - 1], states[n - 1 + 1], steps[n - 1]);
    NextMoves(states[n - 1], states[n], steps[n - 1]);
    if n - 1 == k {
      ExitPosted(states[k], states[n], steps[k]);
      QueuedKnown(states[k], w);
      assert states[n].wq[|states[k].wq|].Exit?;
    } else {
      RunKeepsBefore(states, steps, k, n - 1, w);
      MoveKeepsBefore(states[n - 1].wq, states[n].wq, states[n - 1].items, w);
    }
  }

  lemma ExitPosted(s: State, s': State, step: Step)
    requires Next(s, s', step) && step.PostExit?
    ensures s'.wq == s.wq + [Exit]
  {}

  lemma QueuedKnown(s: State, w: Item)
    requires Inv(s) && Job(w) in s.wq
    ensures w in s.items
  {}

  /** No worker leaves before everything queued ahead of the exit message was taken. */
  lemma ExitComesLast(states: seq<State>, steps: seq<Step>, k: nat, n: nat, w: Item, t: nat)
    requires Run(states, steps) && k < n < |states| && steps[k].PostExit? && Job(w) in states[k].wq
    requires t in states[n].workers && states[n].workers[t].Exited?
    ensures Job(w) !in states[n].wq
  {
    hide Run, Next;
    RunInv(states, steps, n);
    RunKeepsBefore(states, steps, k, n, w);
    var q := states[n].wq;
    assert q[0].Exit?;
    var j :| 0 <= j < |q| && q[j].Exit? && forall i :: j <= i < |q| ==> q[i] != Job(w);
    assert j == 0 by { assert q[0] == q[j]; }
  }

  // ---------------------------------------------------------------- the locks never block for good

  /** Steps by which the pool gets on with work it already has. */
  ghost predicate Productive(step: Step) {
    match step
    case Take(_, _) => true
    case Finish(_) => true
    case Put(_) => true
    case PutDone(_) => true
    case CancelDecide(_) => true
    case CancelPut(_) => true
    case CancelDone(_) => true
    case AsyncStep(_, a) => a.SendSeen? || a.SendMiss? || a.SendSwap? || a.SendWrite?
    case _ => false
  }

  ghost predicate CanMove(s: State) { exists step, s' :: Next(s, s', step) && Productive(step) }

  /** Nothing inside uv_async_send ever waits. */
  lemma SenderMoves(s: State, l: LoopId, t: A.Tid)
    requires l in s.loops && t in s.loops[l].async.senders
    ensures CanMove(s)
  {
    var a := s.loops[l].async;
    var move :=
      match a.senders[t]
      case Checking(h) =>
        if h in a.pending then (A.SendSeen(t), a.(senders := a.senders - {t}))
        else (A.SendMiss(t), a.(senders := a.senders[t := A.Trying(h)]))
      case Trying(h) =>
        if h in a.pending then (A.SendSwap(t), a.(senders := a.senders - {t}))
        else (A.SendSwap(t), a.(pending := a.pending + {h}, senders := a.senders[t := A.Claimed(h)]))
      case Claimed(h) => (A.SendWrite(t, false), a.(counter := a.counter + 1, senders := a.senders - {t}));
    var step, a' := move.0, move.1;
    assert A.Next(a, a', step);
    var s' := s.(loops := s.loops[l := s.loops[l].(async := a')]);
    assert Next(s, s', AsyncStep(l, step));
  }

  lemma LoopLockMoves(s: State, l: LoopId)
    requires Inv(s) && l in s.loops && s.loops[l].mutex.Some?
    ensures CanMove(s)
  {
    hide QueueInv, HoldInv, ItemInv, WorkerInv, WakeInv, LoopInv, CanMove;
    assert LoopOk(s, l);
    var m := s.loops[l].mutex.value;
    if m in s.loops[l].async.senders {
      SenderMoves(s, l, m);
    } else if m.Worker? {
      var s' := s.(workers := s.workers[m.id := Top], loops := s.loops[l := s.loops[l].(mutex := None)]);
      Moves(s, s', PutDone(m.id));
    } else {
      CallItem(s, l);
      var s' := s.(loops := s.loops[l := s.loops[l].(mutex := None, call := NoCall)]);
      Moves(s, s', CancelDone(l));
    }
  }

  lemma Moves(s: State, s': State, step: Step)
    requires Next(s, s', step) && Productive(step)
    ensures CanMove(s)
  {}

  /** Whoever holds the global mutex waits for a loop's mutex at most, and nobody who holds
      that one ever waits for the global mutex. */
  lemma GlobalLockMoves(s: State)
    requires Inv(s) && s.mutex.Some?
    ensures CanMove(s)
  {
    hide QueueInv, HoldInv, ItemInv, WorkerInv, WakeInv, LoopInv, CanMove;
    var l := s.mutex.value;
    assert LoopOk(s, l);
    if s.loops[l].mutex.Some? {
      LoopLockMoves(s, l);
    } else {
      CallItem(s, l);
      var w := s.loops[l].call.w;
      var u := Unqueue(s, w);
      var s' := if !s.items[w].self && !s.items[w].work.Null?
                then u.(mutex := None, items := s.items[w := s.items[w].(place := Withdrawn, cancelOk := true)],
                        loops := u.loops[l := u.loops[l].(call := Cancel2(w))])
                else s.(mutex := None, loops := s.loops[l := s.loops[l].(call := NoCall)]);
      Moves(s, s', CancelDecide(l));
    }
  }

  lemma TakeMoves(s: State, t: nat)
    requires Inv(s) && s.mutex.None? && s.wq != [] && t in s.workers && (s.workers[t].Top? || s.workers[t].Wake?)
    ensures CanMove(s)
  {
    hide HoldInv, ItemInv, LoopOk, CanMove;
    assert s.workers[t].Wake? ==> t in Idlers(s.workers);
    var idle := if s.workers[t].Wake? then s.idle - 1 else s.idle;
    if s.wq[0].Exit? {
      var ws := s.workers[t := Exited];
      if u :| Waiting(ws, u) {
        Moves(s, s.(idle := idle, workers := ws[u := Wake]), Take(t, Some(u)));
      } else {
        Moves(s, s.(idle := idle, workers := ws), Take(t, None));
      }
    } else {
      var w := s.wq[0].w;
      assert Job(w) in s.wq;
      var s' := s.(idle := idle, workers := s.workers[t := Running(w)], wq := s.wq[1..],
                   items := s.items[w := s.items[w].(place := Held(t), self := true)]);
      Moves(s, s', Take(t, None));
    }
  }

  lemma PutMoves(s: State, t: nat)
    requires Inv(s) && t in s.workers && s.workers[t].Putting?
    ensures CanMove(s)
  {
    hide ItemInv, LoopInv, LockInv, CanMove;
    var w := s.workers[t].w;
    var l := s.items[w].loop;
    var lp := s.loops[l];
    assert LoopOk(s, l);
    if lp.mutex.Some? {
      LoopLockMoves(s, l);
    } else if A.Worker(t) in lp.async.senders {
      SenderMoves(s, l, A.Worker(t));
    } else {
      var a := lp.async;
      var a' := a.(senders := a.senders[A.Worker(t) := A.Checking(WQ)], due := a.due + {WQ});
      var s' := s.(workers := s.workers[t := Sending(l)],
                   items := s.items[w := s.items[w].(place := Completed, work := Null, self := false)],
                   loops := s.loops[l := lp.(wq := lp.wq + [w], mutex := Some(A.Worker(t)), async := a')]);
      Moves(s, s', Put(t));
    }
  }

  /** No deadlock: while the queue holds an entry and a worker lives, some thread can take a step
      that serves the queue or releases a lock. */
  lemma NoDeadlock(states: seq<State>, steps: seq<Step>, n: nat)
    requires Run(states, steps) && n < |states| && states[n].wq != []
    requires exists t :: Live(states[n].workers, t)
    ensures CanMove(states[n])
  {
    hide Run, Next, CanMove, Inv;
    NoStrandedEntry(states, steps, n);
    RunInv(states, steps, n);
    var s := states[n];
    var t :| Awake(s.workers, t);
    if s.mutex.Some? {
      GlobalLockMoves(s);
    } else {
      match s.workers[t]
      case Top => TakeMoves(s, t);
      case Wake => TakeMoves(s, t);
      case Running(w) => FinishMoves(s, t);
      case Putting(w) => PutMoves(s, t);
      case Sending(l) => SendingMoves(s, t);
      case _ =>
    }
  }

  lemma FinishMoves(s: State, t: nat)
    requires Inv(s) && t in s.workers && s.workers[t].Running?
    ensures CanMove(s)
  {
    hide ItemInv, LoopOk, CanMove;
    var w := s.workers[t].w;
    Moves(s, s.(workers := s.workers[t := Putting(w)], items := s.items[w := s.items[w].(ran := s.items[w].ran + 1)]),
          Finish(t));
  }

  lemma SendingMoves(s: State, t: nat)
    requires Inv(s) && t in s.workers && s.workers[t].Sending?
    ensures CanMove(s)
  {
    hide QueueInv, HoldInv, ItemInv, WorkerInv, WakeInv, LoopInv, CanMove;
    assert LoopOk(s, s.workers[t].l);
    LoopLockMoves(s, s.workers[t].l);
  }
}
