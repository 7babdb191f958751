/** What the calls on io watchers amount to (src/unix/core.c, src/unix/linux-core.c), told by the calls of a run. */
module IoLaws {
  import opened IoWatchers

  // ---------------------------------------------------------------- which events are wanted

  ghost predicate Wants(op: Op, w: Io, e: Event) { op.StartOp? && op.w == w && e in op.events }

  ghost predicate Drops(op: Op, w: Io, e: Event) { (op.StopOp? && op.w == w && e in op.events) || op == CloseOp(w) }

  ghost predicate WantedSince(ops: seq<Op>, i: nat, w: Io, e: Event)
    requires i < |ops|
  {
    Wants(ops[i], w, e) && forall j :: i < j < |ops| ==> !Drops(ops[j], w, e)
  }

  lemma StepWants(s: Spec, op: Op, w: Io, e: Event)
    requires Known(s.m.Keys, op) && w in s.m
    ensures w in Apply(s, op).m
    ensures e in Apply(s, op).m[w].pevents <==> Wants(op, w, e) || (e in s.m[w].pevents && !Drops(op, w, e))
  {
    match e case In => case Out => case RdHup =>
  }

  /** After any run an event is wanted iff some uv__io_start asked for it and since then neither a uv__io_stop of that
      event nor a uv__io_close was called for the watcher. */
  lemma {:induction false} WantedIff(ios: set<Io>, ops: seq<Op>, w: Io, e: Event)
    requires AllKnown(ios, ops) && w in ios
    ensures e in After(ios, ops).m[w].pevents <==> exists i: nat :: i < |ops| && WantedSince(ops, i, w, e)
    decreases |ops|
  {
    hide Apply;
    if ops != [] {
      var init, last := ops[..|ops| - 1], ops[|ops| - 1];
      WantedIff(ios, init, w, e);
      var s := After(ios, init);
      StepWants(s, last, w, e);
      if i: nat :| i < |ops| && WantedSince(ops, i, w, e) {
        if i < |init| {
          assert forall j :: i < j < |init| ==> init[j] == ops[j];
          assert WantedSince(init, i, w, e);
          assert !Drops(ops[|ops| - 1], w, e);
        }
      }
      if Wants(last, w, e) {
        assert WantedSince(ops, |ops| - 1, w, e);
      } else if e in s.m[w].pevents && !Drops(last, w, e) {
        var i: nat :| i < |init| && WantedSince(init, i, w, e);
        assert WantedSince(ops, i, w, e);
      }
    }
  }

  // ---------------------------------------------------------------- what the kernel watches

  /** Poll i tells the kernel about `w`. */
  ghost predicate Tells(ios: set<Io>, ops: seq<Op>, i: nat, w: Io)
    requires AllKnown(ios, ops) && i < |ops| && w in ios
  {
    ops[i].PollOp? && After(ios, ops[..i]).m[w].pevents != {}
  }

  /** Call i takes the descriptor of `w` off the kernel's set: the watcher is closed, or an event comes for a
      descriptor of which nothing is wanted. */
  ghost predicate Forgets(ios: set<Io>, ops: seq<Op>, i: nat, w: Io)
    requires AllKnown(ios, ops) && i < |ops| && w in ios
  {
    ops[i] == CloseOp(w) || (ops[i].StrayOp? && ops[i].fd == w.fd && After(ios, ops[..i]).m[w].pevents == {})
  }

  ghost predicate ToldSince(ios: set<Io>, ops: seq<Op>, i: nat, w: Io)
    requires AllKnown(ios, ops) && i < |ops| && w in ios
  {
    Tells(ios, ops, i, w) && forall j: nat :: i < j < |ops| ==> !Forgets(ios, ops, j, w) && !Tells(ios, ops, j, w)
  }

  lemma FdWanted(ios: set<Io>, m: Views, w: Io)
    requires OnePerFd(ios) && m.Keys == ios && (forall x :: x in ios ==> m[x].fd == x.fd) && w in ios
    ensures w.fd in Fds(m) <==> m[w].pevents != {}
    ensures WantedOf(m, w.fd) == m[w].pevents
  {
    forall x | x in m && m[x].fd == w.fd ensures x == w {}
  }

  /** What a call does to the kernel's entry for `w`. */
  lemma StepKernel(ios: set<Io>, s: Spec, op: Op, w: Io)
    requires OnePerFd(ios) && s.m.Keys == ios && (forall x :: x in ios ==> s.m[x].fd == x.fd) && w in ios && Known(ios, op)
    ensures var e, forgets := Apply(s, op).epoll, op == CloseOp(w) || (op.StrayOp? && op.fd == w.fd && s.m[w].pevents == {});
            if op.PollOp? && s.m[w].pevents != {} then w.fd in e && e[w.fd] == s.m[w].pevents
            else (w.fd in e <==> w.fd in s.epoll && !forgets) && (w.fd in e ==> e[w.fd] == s.epoll[w.fd])
  {
    FdWanted(ios, s.m, w);
    hide WantedOf, Fds;
  }

  lemma PrefixSame(ios: set<Io>, ops: seq<Op>, n: nat, i: nat, w: Io)
    requires AllKnown(ios, ops) && i < n <= |ops| && w in ios
    ensures Tells(ios, ops[..n], i, w) == Tells(ios, ops, i, w) && Forgets(ios, ops[..n], i, w) == Forgets(ios, ops, i, w)
  {
    assert ops[..n][..i] == ops[..i];
  }

  lemma ToldMore(ios: set<Io>, ops: seq<Op>, i: nat, w: Io)
    requires AllKnown(ios, ops) && i < |ops| - 1 && w in ios
    ensures ToldSince(ios, ops, i, w)
        <==> ToldSince(ios, ops[..|ops| - 1], i, w) && !Forgets(ios, ops, |ops| - 1, w) && !Tells(ios, ops, |ops| - 1, w)
  {
    hide Tells, Forgets;
    var n := |ops| - 1;
    PrefixSame(ios, ops, n, i, w);
    forall j: nat | i < j < n
      ensures Tells(ios, ops[..n], j, w) == Tells(ios, ops, j, w) && Forgets(ios, ops[..n], j, w) == Forgets(ios, ops, j, w)
    {
      PrefixSame(ios, ops, n, j, w);
    }
  }

  /** After any run the kernel watches the descriptor of `w` iff some poll told it so and nothing took it off since; and
      then for the events that were wanted at the last such poll. */
  lemma {:induction false} KernelIff(ios: set<Io>, ops: seq<Op>, w: Io)
    requires AllKnown(ios, ops) && OnePerFd(ios) && w in ios
    ensures w.fd in After(ios, ops).epoll <==> exists i: nat :: i < |ops| && ToldSince(ios, ops, i, w)
    ensures forall i: nat :: i < |ops| && ToldSince(ios, ops, i, w) ==>
              w.fd in After(ios, ops).epoll && After(ios, ops).epoll[w.fd] == After(ios, ops[..i]).m[w].pevents
    decreases |ops|
  {
    hide Apply, ToldSince, Tells, Forgets, OnePerFd, After, AllKnown;
    if ops == [] {
      NoneTold(ios);
    } else {
      var n := |ops| - 1;
      InitKnown(ios, ops);
      KernelIff(ios, ops[..n], w);
      LastTells(ios, ops, w);
      ToldNow(ios, ops, w);
      forall i: nat | i < n
        ensures ToldSince(ios, ops, i, w) <==> ToldSince(ios, ops[..n], i, w) && !Forgets(ios, ops, n, w) && !Tells(ios, ops, n, w)
        ensures ops[..n][..i] == ops[..i]
      {
        ToldMore(ios, ops, i, w);
      }
    }
  }

  lemma NoneTold(ios: set<Io>)
    ensures AllKnown(ios, []) && After(ios, []).epoll == map[]
  {}

  lemma InitKnown(ios: set<Io>, ops: seq<Op>)
    requires AllKnown(ios, ops)
    ensures forall n :: 0 <= n <= |ops| ==> AllKnown(ios, ops[..n])
  {}

  lemma LastTells(ios: set<Io>, ops: seq<Op>, w: Io)
    requires AllKnown(ios, ops) && OnePerFd(ios) && w in ios && ops != []
    ensures var n := |ops| - 1;
            var s, t := After(ios, ops[..n]), After(ios, ops);
            if Tells(ios, ops, n, w) then w.fd in t.epoll && t.epoll[w.fd] == s.m[w].pevents
            else (w.fd in t.epoll <==> w.fd in s.epoll && !Forgets(ios, ops, n, w)) && (w.fd in t.epoll ==> t.epoll[w.fd] == s.epoll[w.fd])
  {
    hide Apply, OnePerFd;
    var n := |ops| - 1;
    StepKernel(ios, After(ios, ops[..n]), ops[n], w);
  }

  lemma ToldNow(ios: set<Io>, ops: seq<Op>, w: Io)
    requires AllKnown(ios, ops) && ops != [] && w in ios
    ensures ToldSince(ios, ops, |ops| - 1, w) <==> Tells(ios, ops, |ops| - 1, w)
  {}
}
