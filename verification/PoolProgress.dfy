/** The thread pool (src/threadpool.c) comes to the end of its work: a rank that every step of getting
    on with work lowers bounds how long that takes. */
module PoolProgress {
  import opened Options
  import opened Sums
  import opened Seqs
  import opened ThreadPool
  import A = Async

  // ---------------------------------------------------------------- ranks

  /** How many steps a worker has before it at most, until it is asleep or gone. */
  function PcRank(pc: Pc): nat {
    match pc
    case Exited => 0
    case Wait => 1
    case Top => 2
    case Wake => 2
    case Sending(_) => 3
    case Putting(_) => 7
    case Running(_) => 8
  }

  function SenderRank(x: A.Sender): nat {
    match x
    case Checking(_) => 3
    case Trying(_) => 2
    case Claimed(_) => 1
  }

  function CallRank(c: Call): nat {
    match c
    case NoCall => 0
    case CancelSend(_) => 1
    case Cancel2(_) => 5
    case Cancel1(_) => 6
  }

  ghost function Workers(ws: map<nat, Pc>): map<nat, nat> { map t | t in ws :: PcRank(ws[t]) }
  ghost function Senders(ss: map<A.Tid, A.Sender>): map<A.Tid, nat> { map t | t in ss :: SenderRank(ss[t]) }
  ghost function LoopRank(lp: LoopSt): nat { CallRank(lp.call) + Sum(Senders(lp.async.senders)) }
  ghost function Loops(ls: map<LoopId, LoopSt>): map<LoopId, nat> { map l | l in ls :: LoopRank(ls[l]) }

  ghost function Rank(s: State): nat { 7 * |s.wq| + Sum(Workers(s.workers)) + Sum(Loops(s.loops)) }

  lemma WorkerMoves(ws: map<nat, Pc>, t: nat, pc: Pc)
    requires t in ws
    ensures Sum(Workers(ws[t := pc])) + PcRank(ws[t]) == Sum(Workers(ws)) + PcRank(pc)
  {
    assert Workers(ws[t := pc]) == Workers(ws)[t := PcRank(pc)];
    SumPut(Workers(ws), t, PcRank(pc));
  }

  lemma LoopMoves(ls: map<LoopId, LoopSt>, l: LoopId, lp: LoopSt)
    requires l in ls
    ensures Sum(Loops(ls[l := lp])) + LoopRank(ls[l]) == Sum(Loops(ls)) + LoopRank(lp)
  {
    assert Loops(ls[l := lp]) == Loops(ls)[l := LoopRank(lp)];
    SumPut(Loops(ls), l, LoopRank(lp));
  }

  lemma SenderSet(ss: map<A.Tid, A.Sender>, t: A.Tid, x: A.Sender)
    ensures Sum(Senders(ss[t := x])) + (if t in ss then SenderRank(ss[t]) else 0) == Sum(Senders(ss)) + SenderRank(x)
  {
    assert Senders(ss[t := x]) == Senders(ss)[t := SenderRank(x)];
    SumPut(Senders(ss), t, SenderRank(x));
  }

  lemma SenderGone(ss: map<A.Tid, A.Sender>, t: A.Tid)
    requires t in ss
    ensures Sum(Senders(ss - {t})) + SenderRank(ss[t]) == Sum(Senders(ss))
  {
    assert Senders(ss - {t}) == Senders(ss) - {t};
    SumTake(Senders(ss), t);
  }

  // ---------------------------------------------------------------- every productive step lowers the rank

  lemma TakeLowers(s: State, s': State, t: nat, wake: Option<nat>)
    requires TakeStep(s, s', t, wake)
    ensures Rank(s') < Rank(s)
  {
    hide Rank, Workers, Loops, Sum;
    RankIs(s); RankIs(s');
    if s.wq == [] {
      WorkerMoves(s.workers, t, Wait);
    } else if s.wq[0].Exit? {
      WorkerMoves(s.workers, t, Exited);
      if wake.Some? { WorkerMoves(s.workers[t := Exited], wake.value, Wake); }
    } else {
      WorkerMoves(s.workers, t, Running(s.wq[0].w));
    }
  }

  lemma RankIs(s: State)
    ensures Rank(s) == 7 * |s.wq| + Sum(Workers(s.workers)) + Sum(Loops(s.loops))
  {}

  lemma LoopRankIs(lp: LoopSt)
    ensures LoopRank(lp) == CallRank(lp.call) + Sum(Senders(lp.async.senders))
  {}

  lemma WorkLowers(s: State, s': State, step: Step)
    requires Next(s, s', step) && (step.Finish? || step.Put? || step.PutDone?)
    ensures Rank(s') < Rank(s)
  {
    hide Rank, Workers, Loops, Sum, LoopRank, Senders;
    RankIs(s); RankIs(s');
    var t := step.t;
    WorkerMoves(s.workers, t, s'.workers[t]);
    assert s'.workers == s.workers[t := s'.workers[t]];
    if step.Put? {
      var l := s.items[s.workers[t].w].loop;
      LoopMoves(s.loops, l, s'.loops[l]);
      LoopRankIs(s.loops[l]); LoopRankIs(s'.loops[l]);
      SenderSet(s.loops[l].async.senders, A.Worker(t), A.Checking(WQ));
    } else if step.PutDone? {
      var l := s.workers[t].l;
      LoopMoves(s.loops, l, s'.loops[l]);
      LoopRankIs(s.loops[l]); LoopRankIs(s'.loops[l]);
    }
  }

  lemma CancelLowers(s: State, s': State, step: Step)
    requires Next(s, s', step) && (step.CancelDecide? || step.CancelPut? || step.CancelDone?)
    ensures Rank(s') < Rank(s)
  {
    hide Rank, Workers, Loops, Sum, LoopRank, Senders;
    RankIs(s); RankIs(s');
    var l := step.l;
    assert s'.loops == s.loops[l := s'.loops[l]];
    LoopMoves(s.loops, l, s'.loops[l]);
    LoopRankIs(s.loops[l]); LoopRankIs(s'.loops[l]);
    if step.CancelPut? {
      SenderSet(s.loops[l].async.senders, A.LoopThread(l), A.Checking(WQ));
    }
  }

  lemma SendLowers(s: State, s': State, step: Step)
    requires Next(s, s', step) && step.AsyncStep? && Productive(step)
    ensures Rank(s') < Rank(s)
  {
    hide Rank, Workers, Loops, Sum, LoopRank, Senders;
    RankIs(s); RankIs(s');
    var l, a := step.l, step.step;
    var ss := s.loops[l].async.senders;
    assert s'.loops == s.loops[l := s'.loops[l]];
    LoopMoves(s.loops, l, s'.loops[l]);
    LoopRankIs(s.loops[l]); LoopRankIs(s'.loops[l]);
    SenderGone(ss, a.t);
    SenderSet(ss, a.t, A.Trying(ss[a.t].h));
    SenderSet(ss, a.t, A.Claimed(ss[a.t].h));
  }

  lemma ProductiveLowers(s: State, s': State, step: Step)
    requires Next(s, s', step) && Productive(step)
    ensures Rank(s') < Rank(s)
  {
    hide Rank, Next;
    match step {
      case Take(t, wake) => TakeNext(s, s', t, wake); TakeLowers(s, s', t, wake);
      case Finish(_) => WorkLowers(s, s', step);
      case Put(_) => WorkLowers(s, s', step);
      case PutDone(_) => WorkLowers(s, s', step);
      case CancelDecide(_) => CancelLowers(s, s', step);
      case CancelPut(_) => CancelLowers(s, s', step);
      case CancelDone(_) => CancelLowers(s, s', step);
      case AsyncStep(_, _) => SendLowers(s, s', step);
    }
  }

  lemma TakeNext(s: State, s': State, t: nat, wake: Option<nat>)
    requires Next(s, s', Take(t, wake))
    ensures TakeStep(s, s', t, wake)
  {}

  // ---------------------------------------------------------------- the work comes to an end

  /** A stretch of a run in which the pool only gets on with work it has is at most as long as the rank
      at its start, whatever the interleaving. */
  lemma {:induction false} StretchIsBounded(states: seq<State>, steps: seq<Step>, n: nat, m: nat)
    requires Run(states, steps) && n <= m < |states| && forall i :: n <= i < m ==> Productive(steps[i])
    ensures m - n <= Rank(states[n]) - Rank(states[m])
    decreases m - n
  {
    hide Rank, Next;
    if n < m {
      StretchIsBounded(states, steps, n, m - 1);
      assert Next(states[m - 1], states[m - 1 + 1], steps[m - 1]);
      ProductiveLowers(states[m - 1], states[m], steps[m - 1]);
    }
  }

  /** Where it cannot get on any more, the queue is empty or every worker has left. */
  lemma EndOfWork(states: seq<State>, steps: seq<Step>, n: nat)
    requires Run(states, steps) && n < |states| && !CanMove(states[n])
    ensures states[n].wq == [] || forall t :: t in states[n].workers ==> states[n].workers[t].Exited?
  {
    hide Run, CanMove;
    var s := states[n];
    if s.wq != [] && exists t :: Live(s.workers, t) {
      NoDeadlock(states, steps, n);
    }
    forall t | s.wq != [] && t in s.workers ensures s.workers[t].Exited? {
      assert !Live(s.workers, t);
    }
  }

  lemma ExitStays(s: State, s': State, step: Step)
    requires Next(s, s', step) && Exit in s.wq
    ensures Exit in s'.wq
  {
    if step.Take? && s.wq != [] && s.wq[0].Job? { assert s.wq == [s.wq[0]] + s.wq[1..]; }
    if step.CancelDecide? { DropIn(s.wq, Job(s.loops[step.l].call.w)); }
  }

  lemma {:induction false} ExitStaysQueued(states: seq<State>, steps: seq<Step>, k: nat, n: nat)
    requires Run(states, steps) && k <= n < |states| && Exit in states[k].wq
    ensures Exit in states[n].wq
    decreases n - k
  {
    hide Next;
    if k < n {
      ExitStaysQueued(states, steps, k, n - 1);
      assert Next(states[n - 1], states[n - 1 + 1], steps[n - 1]);
      ExitStays(states[n - 1], states[n], steps[n - 1]);
    }
  }

  /** One exit message releases every worker: once it is posted, the pool can always get on until all
      have left. */
  lemma ExitReleasesAll(states: seq<State>, steps: seq<Step>, k: nat, n: nat)
    requires Run(states, steps) && k <= n < |states| && Exit in states[k].wq && !CanMove(states[n])
    ensures forall t :: t in states[n].workers ==> states[n].workers[t].Exited?
  {
    hide Run, CanMove;
    ExitStaysQueued(states, steps, k, n);
    EndOfWork(states, steps, n);
  }
}
