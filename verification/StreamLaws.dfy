/** What the kernel's answers make of the requests of a stream (src/unix/stream.c), for whole runs. */
module StreamLaws {
  import opened Options
  import opened StreamWrites

  // ---------------------------------------------------------------- the writes attempted

  /** One write, writev or sendmsg: the request it is for, as it stands then, and the answer. */
  datatype Ask = Ask(req: Req, k: Kernel)

  /** The write that a call makes, if any: for the first request, when the stream is open and connected; with
      uv_write and uv_try_write only if no byte waits. */
  ghost function Attempt(s: State, op: Op): Option<Ask> {
    if !s.open || s.connecting then None
    else
      match op
      case WriteOp(bufs, k) => if s.size == 0 then Some(Ask(First(s, bufs), k)) else None
      case TryOp(bufs, k) => if s.size == 0 then Some(Ask(First(s, bufs), k)) else None
      case IoOp(k, _) => if s.queue != [] then Some(Ask(s.queue[0], k)) else None
      case _ => None
  }

  /** The first request once one for `bufs` is queued. */
  ghost function First(s: State, bufs: Bufs): Req {
    if s.queue != [] then s.queue[0] else Req(|s.h.data|, bufs, 0, true, 0)
  }

  ghost function Min(a: nat, b: nat): nat { if a < b then a else b }

  /** The bytes of the first iovmax buffers that the request still has to write. */
  ghost function Offer(r: Req, iovmax: nat): Bytes {
    if r.index >= |r.bufs| then [] else Flat(r.bufs[r.index..][..Min(iovmax, |r.bufs| - r.index)])
  }

  /** How many bytes an answer stands for. */
  ghost function Credit(a: Ask, iovmax: nat): nat {
    match a.k
    case Takes(n) => Min(n, |Offer(a.req, iovmax)|)
    case _ => 0
  }

  lemma TakenIsCredit(s: State, n: nat, iovmax: nat)
    requires InvS(s) && s.queue != []
    ensures var q := s.queue[0];
            q.index <= |q.bufs| && Taken(q, n, iovmax) == Credit(Ask(q, Takes(n)), iovmax) <= |Rest(q)|
  {
    hide Inv, Rest, Flat, CountBufs;
    HeadShape(s);
    TakenOk(s, n, iovmax);
    var q := s.queue[0];
    var m := Min(iovmax, |q.bufs| - q.index);
    assert q.bufs[q.index..][..m] == q.bufs[q.index..q.index + m];
    FlatCount(q.bufs[q.index..q.index + m]);
  }

  /** What one attempt puts on the wire. */
  ghost predicate Puts(h: History, h': History, a: Ask, iovmax: nat) {
    var x := Rest(a.req);
    var m := Credit(a, iovmax);
    && m <= |x| && h'.wire == h.wire + x[..m] && |h'.sent| >= |h.sent|
    && forall t :: 0 <= t < |h'.sent| ==>
         h'.sent[t] == (if t < |h.sent| then h.sent[t] else []) + (if t == a.req.ticket then x[..m] else [])
  }

  lemma WrittenPuts(s: State, k: Kernel, iovmax: nat)
    requires InvS(s) && s.queue != []
    ensures Puts(s.h, Written(s, k, iovmax).h, Ask(s.queue[0], k), iovmax)
  {
    hide Inv, Rest, Flat, CountBufs, Eat, Offer;
    HeadShape(s);
    if k.Takes? { TakenIsCredit(s, k.n, iovmax); }
  }

  lemma EnqueuedFirst(s: State, bufs: Bufs)
    requires InvS(s)
    ensures var e := Enqueued(s, bufs);
            e.queue != [] && e.queue[0] == First(s, bufs) && e.h.wire == s.h.wire && e.h.sent == s.h.sent + [[]]
  {
    hide Inv, CountBufs, Flat;
  }

  lemma EnqueuedPuts(h: History, h1: History, h2: History, a: Ask, iovmax: nat)
    requires Puts(h1, h2, a, iovmax) && h1.wire == h.wire && h1.sent == h.sent + [[]]
    ensures Puts(h, h2, a, iovmax)
  {}

  lemma SentPuts(s: State, bufs: Bufs, k: Kernel, iovmax: nat)
    requires InvS(s) && s.open && !s.connecting && s.size == 0
    ensures Puts(s.h, Sent(s, bufs, k, iovmax).h, Ask(First(s, bufs), k), iovmax)
  {
    hide Inv, Rest, Flat, CountBufs, Written, Puts, Enqueued, First;
    EnqueuedFirst(s, bufs);
    var e := Enqueued(s, bufs);
    WrittenPuts(e, k, iovmax);
    EnqueuedPuts(s.h, e.h, Sent(s, bufs, k, iovmax).h, Ask(First(s, bufs), k), iovmax);
  }

  lemma TriedPuts(s: State, bufs: Bufs, k: Kernel, iovmax: nat)
    requires InvS(s) && s.open && !s.connecting && s.size == 0
    ensures Puts(s.h, Tried(s, bufs, k, iovmax).h, Ask(First(s, bufs), k), iovmax)
  {
    hide Inv, Rest, Flat, CountBufs, First, Sent, Offer;
    SentPuts(s, bufs, k, iovmax);
    assert Tried(s, bufs, k, iovmax).h.sent == Sent(s, bufs, k, iovmax).h.sent;
  }

  /** Every call: what goes on the wire is the part of the first request that the kernel's answer stands for:
      the lesser of the count and the bytes of its first iovmax buffers; nothing for EAGAIN, for an error and
      for a call that makes no write. */
  lemma WireGrows(s: State, op: Op, iovmax: nat)
    requires InvS(s)
    ensures var h', a := Apply(s, op, iovmax).h, Attempt(s, op);
            if a.Some? then Puts(s.h, h', a.value, iovmax)
            else h'.wire == s.h.wire && |h'.sent| >= |s.h.sent|
                 && forall t :: 0 <= t < |h'.sent| ==> h'.sent[t] == if t < |s.h.sent| then s.h.sent[t] else []
  {
    hide Inv, Rest, Flat, CountBufs, Puts, First;
    if Attempt(s, op).Some? {
      match op
      case WriteOp(bufs, k) => hide Sent; SentPuts(s, bufs, k, iovmax);
      case TryOp(bufs, k) => hide Tried; TriedPuts(s, bufs, k, iovmax);
      case IoOp(k, _) => hide Written; WrittenPuts(s, k, iovmax);
      case _ =>
    } else if op.WriteOp? {
      EnqueuedFirst(s, op.bufs);
    }
  }

  // ---------------------------------------------------------------- whole runs

  /** The writes of a run, in order. */
  ghost function Asked(ops: seq<Op>, iovmax: nat, connecting: bool): seq<Ask> {
    if ops == [] then []
    else
      var init, last := ops[..|ops| - 1], ops[|ops| - 1];
      var a := Attempt(After(init, iovmax, connecting), last);
      Asked(init, iovmax, connecting) + if a.Some? then [a.value] else []
  }

  ghost function Credits(asks: seq<Ask>, t: nat, iovmax: nat): nat {
    if asks == [] then 0
    else
      var a := asks[|asks| - 1];
      Credits(asks[..|asks| - 1], t, iovmax) + if a.req.ticket == t then Credit(a, iovmax) else 0
  }

  /** The sum of the counts that the kernel answered. */
  ghost function Counts(asks: seq<Ask>, t: nat): nat {
    if asks == [] then 0
    else
      var a := asks[|asks| - 1];
      Counts(asks[..|asks| - 1], t) + if a.req.ticket == t && a.k.Takes? then a.k.n else 0
  }

  lemma {:induction false} CreditsWithinCounts(asks: seq<Ask>, t: nat, iovmax: nat)
    ensures Credits(asks, t, iovmax) <= Counts(asks, t)
  {
    if asks != [] { CreditsWithinCounts(asks[..|asks| - 1], t, iovmax); }
  }

  lemma {:induction false} NoCredit(asks: seq<Ask>, t: nat, iovmax: nat)
    requires forall i :: 0 <= i < |asks| ==> asks[i].req.ticket < t
    ensures Credits(asks, t, iovmax) == 0
  {
    if asks != [] { NoCredit(asks[..|asks| - 1], t, iovmax); }
  }

  lemma AttemptKnown(s: State, op: Op, iovmax: nat)
    requires InvS(s) && Attempt(s, op).Some?
    ensures Attempt(s, op).value.req.ticket < |Apply(s, op, iovmax).h.data|
  {
    hide Inv, Rest, Flat, CountBufs, Eat;
    HeadOk(s);
    ApplyData(s, op, iovmax);
  }

  lemma {:induction false} AskedKnown(ops: seq<Op>, iovmax: nat, connecting: bool)
    ensures forall i :: 0 <= i < |Asked(ops, iovmax, connecting)| ==>
              Asked(ops, iovmax, connecting)[i].req.ticket < |After(ops, iovmax, connecting).h.data|
    decreases |ops|
  {
    hide InvS, Apply, Attempt;
    if ops != [] {
      var init, last := ops[..|ops| - 1], ops[|ops| - 1];
      AskedKnown(init, iovmax, connecting);
      var s := After(init, iovmax, connecting);
      ApplyData(s, last, iovmax);
      if Attempt(s, last).Some? { AttemptKnown(s, last, iovmax); }
    }
  }

  lemma CreditsAppend(asks: seq<Ask>, a: Ask, t: nat, iovmax: nat)
    ensures Credits(asks + [a], t, iovmax) == Credits(asks, t, iovmax) + if a.req.ticket == t then Credit(a, iovmax) else 0
  {
    assert (asks + [a])[..|asks|] == asks;
  }

  lemma PutsSize(h: History, h': History, a: Ask, iovmax: nat, t: nat)
    requires Puts(h, h', a, iovmax) && t < |h'.sent|
    ensures |h'.sent[t]| == (if t < |h.sent| then |h.sent[t]| else 0) + if a.req.ticket == t then Credit(a, iovmax) else 0
  {
    hide Credit;
  }

  /** The bytes taken of each request are those its answers stand for. */
  lemma {:induction false} SentIsCredit(ops: seq<Op>, iovmax: nat, connecting: bool, t: nat)
    requires t < |After(ops, iovmax, connecting).h.sent|
    ensures |After(ops, iovmax, connecting).h.sent[t]| == Credits(Asked(ops, iovmax, connecting), t, iovmax)
    decreases |ops|
  {
    hide InvS, Apply, Attempt, Puts, Credit;
    if ops != [] {
      var init, last := ops[..|ops| - 1], ops[|ops| - 1];
      var s, asks := After(init, iovmax, connecting), Asked(init, iovmax, connecting);
      WireGrows(s, last, iovmax);
      if t < |s.h.sent| {
        SentIsCredit(init, iovmax, connecting, t);
      } else {
        AskedKnown(init, iovmax, connecting);
        SameLengths(s);
        NoCredit(asks, t, iovmax);
      }
      var a := Attempt(s, last);
      if a.Some? {
        PutsSize(s.h, After(ops, iovmax, connecting).h, a.value, iovmax, t);
        CreditsAppend(asks, a.value, t, iovmax);
      } else {
        assert asks + [] == asks;
      }
    }
  }

  lemma SameLengths(s: State)
    requires InvS(s)
    ensures |s.h.sent| == |s.h.data|
  {
    HeadOk(s);
  }

  // ---------------------------------------------------------------- the result of a request

  /** The error that the kernel answered for request `t`, or 0. */
  ghost function FailedWith(asks: seq<Ask>, t: nat): int {
    if asks == [] then 0
    else
      var a := asks[|asks| - 1];
      if a.req.ticket == t && a.k.Fails? then 0 - a.k.errno else FailedWith(asks[..|asks| - 1], t)
  }

  ghost predicate Verdict(error: int, t: nat, asks: seq<Ask>) {
    var f := FailedWith(asks, t);
    error == f || (f == 0 && error == -ECANCELED)
  }

  ghost predicate Verdicts(s: State, asks: seq<Ask>) {
    && (forall i :: 0 <= i < |s.queue| ==> FailedWith(asks, s.queue[i].ticket) == 0)
    && (forall i :: 0 <= i < |s.completed| ==> Verdict(s.completed[i].error, s.completed[i].ticket, asks))
    && (forall i :: 0 <= i < |s.h.status| && i < |s.h.line| ==> Verdict(s.h.status[i], s.h.line[i], asks))
  }

  lemma FailedAppend(asks: seq<Ask>, a: Ask)
    ensures forall t :: t != a.req.ticket || !a.k.Fails? ==> FailedWith(asks + [a], t) == FailedWith(asks, t)
    ensures a.k.Fails? ==> FailedWith(asks + [a], a.req.ticket) == 0 - a.k.errno
  {
    assert (asks + [a])[..|asks|] == asks;
  }

  lemma {:induction false} NotFailed(asks: seq<Ask>, t: nat)
    requires forall i :: 0 <= i < |asks| ==> asks[i].req.ticket < t
    ensures FailedWith(asks, t) == 0
  {
    if asks != [] { NotFailed(asks[..|asks| - 1], t); }
  }

  /** The first request is in no other place. */
  lemma HeadAlone(s: State)
    requires InvS(s) && s.queue != []
    ensures forall i :: 1 <= i < |s.queue| ==> s.queue[i].ticket != s.queue[0].ticket
    ensures forall i :: 0 <= i < |s.completed| ==> s.completed[i].ticket != s.queue[0].ticket
    ensures |s.h.status| <= |s.h.line| && forall i :: 0 <= i < |s.h.status| ==> s.h.line[i] != s.queue[0].ticket
  {
    hide HistoryOk, QueuesOk, Total;
    HistorySizes(s.h);
  }

  lemma RefusedVerdicts(s: State, e: Errno, asks: seq<Ask>)
    requires InvS(s) && Verdicts(s, asks) && s.queue != []
    ensures Verdicts(Refused(s, 0 - e), asks + [Ask(s.queue[0], Fails(e))])
  {
    hide Inv, FailedWith;
    HeadAlone(s);
    FailedAppend(asks, Ask(s.queue[0], Fails(e)));
  }

  lemma TransferredVerdicts(s: State, n: nat, asks: seq<Ask>)
    requires InvS(s) && Verdicts(s, asks) && s.queue != [] && n <= |Rest(s.queue[0])|
    ensures s.queue[0].ticket < |s.h.sent| && Verdicts(Transferred(s, n), asks)
  {
    hide Inv, FailedWith, Rest, Eat;
    HeadShape(s);
    EatRest(s.queue[0], n);
  }

  lemma SameVerdicts(s: State, asks: seq<Ask>, a: Ask)
    requires Verdicts(s, asks) && !a.k.Fails?
    ensures Verdicts(s, asks + [a])
  {
    hide FailedWith;
    FailedAppend(asks, a);
  }

  lemma WrittenVerdicts(s: State, k: Kernel, iovmax: nat, asks: seq<Ask>)
    requires InvS(s) && Verdicts(s, asks) && s.queue != []
    ensures Verdicts(Written(s, k, iovmax), asks + [Ask(s.queue[0], k)])
  {
    hide InvS, Verdicts, Rest, Eat, Taken, Refused, Transferred;
    match k
    case Fails(e) => RefusedVerdicts(s, e, asks);
    case Again => SameVerdicts(s, asks, Ask(s.queue[0], k));
    case Takes(n) =>
      TakenOk(s, n, iovmax);
      TransferredVerdicts(s, Taken(s.queue[0], n, iovmax), asks);
      SameVerdicts(Written(s, k, iovmax), asks, Ask(s.queue[0], k));
  }

  ghost predicate Older(asks: seq<Ask>, n: nat) { forall i :: 0 <= i < |asks| ==> asks[i].req.ticket < n }

  lemma EnqueuedVerdicts(s: State, bufs: Bufs, asks: seq<Ask>)
    requires InvS(s) && Verdicts(s, asks) && Older(asks, |s.h.data|)
    ensures Verdicts(Enqueued(s, bufs), asks)
  {
    hide FailedWith, CountBufs, Flat, QueuesOk, HistoryOk, Lined, Total;
    HistorySizes(s.h);
    NotFailed(asks, |s.h.data|);
  }

  lemma SentVerdicts(s: State, bufs: Bufs, k: Kernel, iovmax: nat, asks: seq<Ask>)
    requires InvS(s) && Verdicts(s, asks) && Older(asks, |s.h.data|) && s.open && !s.connecting && s.size == 0
    ensures Verdicts(Sent(s, bufs, k, iovmax), asks + [Ask(First(s, bufs), k)])
  {
    hide InvS, Verdicts, Written, Enqueued, First, Older;
    EnqueuedFirst(s, bufs);
    EnqueuedVerdicts(s, bufs, asks);
    WrittenVerdicts(Enqueued(s, bufs), k, iovmax, asks);
  }

  lemma LastOutVerdicts(s: State, asks: seq<Ask>)
    requires InvS(s) && Verdicts(s, asks) && (s.queue != [] || s.completed != [])
    ensures Verdicts(LastOut(s), asks)
  {
    hide FailedWith, Rest, QueuesOk, Total, HistoryOk;
    HistorySizes(s.h);
  }

  lemma TriedVerdicts(s: State, bufs: Bufs, k: Kernel, iovmax: nat, asks: seq<Ask>)
    requires InvS(s) && Verdicts(s, asks) && Older(asks, |s.h.data|) && s.open && !s.connecting && s.size == 0
    ensures Verdicts(Tried(s, bufs, k, iovmax), asks + [Ask(First(s, bufs), k)])
  {
    hide InvS, Verdicts, Sent, LastOut, First, Older, Flat;
    SentVerdicts(s, bufs, k, iovmax, asks);
    HeadOk(s);
    LastFirst(Sent(s, bufs, k, iovmax));
    LastOutVerdicts(Sent(s, bufs, k, iovmax), asks + [Ask(First(s, bufs), k)]);
  }

  lemma CalledBackVerdicts(s: State, asks: seq<Ask>)
    requires InvS(s) && Verdicts(s, asks)
    ensures Verdicts(CalledBack(s), asks)
  {
    hide FailedWith, Rest, QueuesOk, Total, HistoryOk;
    HistorySizes(s.h);
  }

  lemma {:induction false} FlushedVerdicts(s: State, asks: seq<Ask>)
    requires InvS(s) && Verdicts(s, asks)
    ensures Verdicts(Flushed(s, -ECANCELED), asks)
    decreases |s.queue|
  {
    hide Inv, FailedWith;
    if s.queue != [] {
      FailOk(s.queue, s.completed, s.size, s.h, -ECANCELED);
      FlushedVerdicts(s.(queue := s.queue[1..], completed := s.completed + [s.queue[0].(error := -ECANCELED)]), asks);
    }
  }

  lemma {:induction false} AllCalledBackVerdicts(s: State, asks: seq<Ask>)
    requires InvS(s) && Verdicts(s, asks)
    ensures Verdicts(AllCalledBack(s), asks)
    decreases |s.completed|
  {
    hide Inv, Verdicts, CalledBack;
    if s.completed != [] {
      CalledBackVerdicts(s, asks);
      AllCalledBackVerdicts(CalledBack(s), asks);
    }
  }

  lemma ApplyVerdicts(s: State, op: Op, iovmax: nat, asks: seq<Ask>)
    requires InvS(s) && Verdicts(s, asks) && Older(asks, |s.h.data|)
    ensures var a := Attempt(s, op); Verdicts(Apply(s, op, iovmax), asks + if a.Some? then [a.value] else [])
  {
    hide InvS, FailedWith, First, Older;
    assert asks + [] == asks;
    if op.WriteOp? {
      hide Verdicts;
      if s.open && !s.connecting && s.size == 0 { SentVerdicts(s, op.bufs, op.k, iovmax, asks); }
      else if s.open { EnqueuedVerdicts(s, op.bufs, asks); }
    } else if op.TryOp? {
      hide Verdicts, Sent;
      if s.open && !s.connecting && s.size == 0 { TriedVerdicts(s, op.bufs, op.k, iovmax, asks); }
    } else if op.IoOp? {
      hide Verdicts;
      if s.open && !s.connecting && s.queue != [] { hide Written; WrittenVerdicts(s, op.k, iovmax, asks); }
    } else {
      hide CalledBack, Flushed;
      CalledBackVerdicts(s, asks);
      FlushedVerdicts(s, asks);
    }
  }

  lemma {:induction false} AfterVerdicts(ops: seq<Op>, iovmax: nat, connecting: bool)
    ensures Verdicts(After(ops, iovmax, connecting), Asked(ops, iovmax, connecting))
    decreases |ops|
  {
    hide InvS, Apply, Attempt;
    if ops != [] {
      hide Verdicts;
      var init, last := ops[..|ops| - 1], ops[|ops| - 1];
      AfterVerdicts(init, iovmax, connecting);
      AskedKnown(init, iovmax, connecting);
      ApplyVerdicts(After(init, iovmax, connecting), last, iovmax, Asked(init, iovmax, connecting));
    }
  }

  lemma DestroyedVerdicts(s: State, asks: seq<Ask>)
    requires InvS(s) && Verdicts(s, asks)
    ensures Verdicts(Destroyed(s), asks)
  {
    hide InvS, Verdicts, Flushed, AllCalledBack;
    FlushedVerdicts(s, asks);
    AllCalledBackVerdicts(Flushed(s, -ECANCELED), asks);
  }

  /** The result of every request of every run, from the answers of the kernel alone: 0 iff the answers for it
      stand for all of its bytes, else the error that the kernel answered, else UV_ECANCELED. Status 0 implies
      counts that add up to its length at least. (A request without bytes is 0 or one of the errors.) */
  lemma ResultFromAnswers(ops: seq<Op>, iovmax: nat, connecting: bool, t: nat)
    requires t < |Accepted(ops, iovmax, connecting)|
    ensures var h, asks := Destroyed(After(ops, iovmax, connecting).(open := false)).h, Asked(ops, iovmax, connecting);
            var data := Accepted(ops, iovmax, connecting)[t];
            && |h.sent| > t && |h.status| == |h.line| && h.sent[t] <= data && |h.sent[t]| == Credits(asks, t, iovmax)
            && (t !in h.tried ==>
                  exists i :: 0 <= i < |h.line| && h.line[i] == t && Verdict(h.status[i], t, asks)
                    && (h.status[i] == 0 ==> |data| <= Counts(asks, t))
                    && (data != [] ==> h.status[i] == if Credits(asks, t, iovmax) == |data| then 0
                                                       else if FailedWith(asks, t) != 0 then FailedWith(asks, t)
                                                       else -ECANCELED))
  {
    hide Inv, Destroyed, Verdict, Apply, Flat, Asked;
    var s, asks := After(ops, iovmax, connecting), Asked(ops, iovmax, connecting);
    EveryRequest(ops, iovmax, connecting, t);
    DataIsAccepted(ops, iovmax, connecting);
    var d := Destroyed(s.(open := false));
    SentIsCredit(ops, iovmax, connecting, t);
    CreditsWithinCounts(asks, t, iovmax);
    AfterVerdicts(ops, iovmax, connecting);
    DestroyedVerdicts(s.(open := false), asks);
    var h := d.h;
    if t !in h.tried {
      InvHistory(d);
      var i :| 0 <= i < |h.line| && h.line[i] == t
               && (h.data[t] != [] ==> (h.status[i] == 0 <==> h.sent[t] == h.data[t]));
      assert Verdict(h.status[i], h.line[i], asks);
      StatusOf(h, i);
      VerdictCases(h.status[i], t, asks);
      assert h.sent[t] == h.data[t] <==> |h.sent[t]| == |h.data[t]|;
    }
  }

  lemma StatusOf(h: History, i: nat)
    requires HistoryOk(h) && i < |h.status|
    ensures i < |h.line| && h.line[i] < |h.data| && h.line[i] < |h.sent|
    ensures h.status[i] == 0 ==> h.sent[h.line[i]] == h.data[h.line[i]]
  {}

  lemma VerdictCases(e: int, t: nat, asks: seq<Ask>)
    requires Verdict(e, t, asks)
    ensures e != 0 ==> e == if FailedWith(asks, t) != 0 then FailedWith(asks, t) else -ECANCELED
  {}

  /** Callbacks are made by the callback loop alone, one a round, while a request is neither called back nor queued. */
  lemma CallbackRounds(s: State, op: Op, iovmax: nat)
    requires InvS(s)
    ensures var h := Apply(s, op, iovmax).h;
            |h.status| == |s.h.status| + if op.CallbackOp? && |s.h.line| > |s.h.status| + |s.queue| then 1 else 0
  {
    hide Rest, Eat, Flat, CountBufs, QueuesOk, HistoryOk, Total;
    if op.IoOp? { WrittenOk(s, op.k, iovmax); }
  }

  /** A failed connect: all that was queued is completed with UV_ECANCELED, in order. */
  lemma FailedConnect(ops: seq<Op>, iovmax: nat, connecting: bool, e: int)
    requires e < 0 && After(ops, iovmax, connecting).open && After(ops, iovmax, connecting).connecting
    ensures var s, r := After(ops, iovmax, connecting), After(ops + [ConnectedOp(e)] + [FlushFailedOp], iovmax, connecting);
            && r.queue == [] && |r.completed| == |s.completed| + |s.queue| && !r.connecting && r.h == s.h
            && (forall i :: 0 <= i < |s.completed| ==> r.completed[i] == s.completed[i])
            && (forall i :: 0 <= i < |s.queue| ==>
                  r.completed[|s.completed| + i].ticket == s.queue[i].ticket && r.completed[|s.completed| + i].error == -ECANCELED)
  {
    hide Inv;
    var one := ops + [ConnectedOp(e)];
    var two := one + [FlushFailedOp];
    assert one[..|ops|] == ops && two[..|one|] == one;
    var s, m := After(ops, iovmax, connecting), After(one, iovmax, connecting);
    assert m == s.(connecting := false, flushing := true);
    FlushedCompleted(m, -ECANCELED);
    FailedEach(s.queue, -ECANCELED);
  }

  lemma {:induction false} FailedEach(q: seq<Req>, e: int)
    ensures |Failed(q, e)| == |q| && forall i :: 0 <= i < |q| ==> Failed(q, e)[i] == q[i].(error := e)
  {
    if q != [] { FailedEach(q[1..], e); }
  }
}
