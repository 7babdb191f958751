/** Idle handles (src/unix/loop-watcher.c): starting, stopping and the walk that calls them while
    their callbacks start and stop any of them. */
module LoopWatcher {
  import opened Seqs
  import opened Rings
  import opened Walks

  /** A handle is the link embedded in it. */
  type Handle = Link

  /** The argument of a start is false for a NULL callback. */
  type Op = Walks.Op<Handle, bool>

  // ---------------------------------------------------------------- specification

  /** `line` is the loop's list, `walk` the part of a walk in progress that is still to be called. */
  datatype State = State(line: seq<Handle>, walk: seq<Handle>)

  ghost function Apply(s: State, op: Op): (r: State)
    ensures |r.walk| <= |s.walk|
  {
    match op
    case Start(h, cb) => if h in s.line || h in s.walk || !cb then s else s.(line := [h] + s.line)
    case Stop(h) => State(Drop(s.line, h), Drop(s.walk, h))
  }

  ghost function ApplyAll(s: State, ops: seq<Op>): (r: State)
    ensures |r.walk| <= |s.walk|
    decreases |ops|
  {
    if ops == [] then s else Apply(ApplyAll(s, ops[..|ops| - 1]), ops[|ops| - 1])
  }

  ghost function Turn(s: State, ops: seq<Op>): (r: State)
    requires s.walk != []
    ensures |r.walk| < |s.walk|
  {
    ApplyAll(State(s.line + [s.walk[0]], s.walk[1..]), ops)
  }

  ghost function LineAfter(s: State, script: seq<seq<Op>>, n: nat): seq<Handle>
    decreases |s.walk|
  {
    if s.walk == [] then s.line else LineAfter(Turn(s, Nth(script, n)), script, n + 1)
  }

  ghost predicate StateOk(s: State) {
    NoDup(s.line) && NoDup(s.walk) && Set(s.line) !! Set(s.walk)
  }

  lemma ApplyOk(s: State, op: Op)
    requires StateOk(s)
    ensures StateOk(Apply(s, op))
  {
    if op.Stop? {
      DropElems(s.line, op.h);
      DropElems(s.walk, op.h);
    } else {
      SetHead([op.h] + s.line);
    }
  }

  lemma DropBoth(s: State, h: Handle)
    requires StateOk(s)
    ensures Set(Drop(s.line, h)) == Set(s.line) - {h} && Set(Drop(s.walk, h)) == Set(s.walk) - {h}
  {
    DropElems(s.line, h);
    DropElems(s.walk, h);
  }

  /** Of the handles still to be called, a callback's steps take away exactly those they stop. */
  lemma {:induction false} ApplyAllWalk(s: State, ops: seq<Op>)
    ensures ApplyAll(s, ops).walk == Minus(s.walk, StopsOf(ops))
    decreases |ops|
  {
    if ops != [] {
      var init, last := ops[..|ops| - 1], ops[|ops| - 1];
      ApplyAllWalk(s, init);
      StopsOfInit(ops);
    }
  }

  // ---------------------------------------------------------------- the loop

  /** `all` are the idle handles of the loop, started or not. */
  class Watchers {
    const head: Link
    const all: set<Handle>
    var active: set<Handle>
    ghost var s: State
    ghost var local: Link?        // the list head on the stack of a walk in progress

    ghost function Locals(): set<Link>
      reads this`local
    {
      if local == null then {} else {local}
    }

    ghost predicate Valid()
      reads this, head, all, local
    {
      && StateOk(s) && active == Set(s.line) + Set(s.walk) && active <= all && head !in all && local !in all
      && Ring(head, s.line) && local != head
      && if local == null then s.walk == [] else Ring(local, s.walk)
    }

    constructor (all: set<Handle>)
      ensures Valid() && s == State([], []) && local == null && this.all == all && fresh(head)
    {
      head := new Link();
      this.all := all;
      active, s, local := {}, State([], []), null;
    }

    /** uv_idle_start. */
    method StartHandle(h: Handle, cb: bool) returns (ok: bool)
      requires Valid() && h in all
      modifies this`active, this`s, {head} + all + Locals()
      ensures Valid() && s == Apply(old(s), Start(h, cb))
      ensures ok <==> h in old(active) || cb
      ensures active == (if cb then old(active) + {h} else old(active)) && s.walk == old(s).walk
      ensures s.line == (if h !in old(active) && cb then [h] + old(s).line else old(s).line)
    {
      hide Ring, NoDup;
      assert h in active <==> h in s.line || h in s.walk;
      ApplyOk(s, Start(h, cb));
      if h in active { return true; }
      if !cb { return false; }
      InsertHead(head, h, s.line);
      SetHead([h] + s.line);
      s := s.(line := [h] + s.line);
      active := active + {h};
      ok := true;
    }

    /** uv_idle_stop. */
    method StopHandle(h: Handle)
      requires Valid() && h in all
      modifies this`active, this`s, {head} + all + Locals()
      ensures Valid() && s == Apply(old(s), Stop(h)) && active == old(active) - {h}
    {
      hide Ring, NoDup, Drop, Pos;
      ApplyOk(s, Stop(h));
      DropBoth(s, h);
      if h !in active {
        DropNone(s.line, h);
        DropNone(s.walk, h);
        return;
      }
      ghost var ring: seq<Handle>, first: Link := s.line, head;
      if h in s.line {
        DropNone(s.walk, h);
      } else {
        DropNone(s.line, h);
        ring, first := s.walk, local;
      }
      ghost var k :| 0 <= k < |ring| && ring[k] == h;
      DropAt(ring, k);
      Remove(h, first, ring, k);
      s := Apply(s, Stop(h));
      active := active - {h};
    }

    /** A callback of a walk makes its calls. */
    method Perform(ops: seq<Op>)
      requires Valid() && forall i :: 0 <= i < |ops| ==> ops[i].h in all
      modifies this`active, this`s, {head} + all + Locals()
      ensures Valid() && s == ApplyAll(old(s), ops)
    {
      hide Valid, Apply;
      for i := 0 to |ops|
        invariant Valid() && s == ApplyAll(old(s), ops[..i])
      {
        assert ops[..i + 1][..i] == ops[..i];
        match ops[i] {
          case Start(h, cb) => var ok := StartHandle(h, cb);
          case Stop(h) => StopHandle(h);
        }
      }
      assert ops[..|ops|] == ops;
    }

    /** One round of the walk up to the callback: the first handle goes back to the loop's list. */
    method Advance(queue: Link) returns (q: Handle)
      requires Valid() && local == queue && s.walk != []
      modifies this`active, this`s, {head} + all + Locals()
      ensures Valid() && q == old(s).walk[0] && s == State(old(s).line + [q], old(s).walk[1..])
    {
      hide Ring, NoDup;
      assert NoDup(s.walk) && NoDup(s.line);
      NoDupTail(s.walk);
      SetHead(s.walk);
      q := Head(queue, s.walk);
      Remove(q, queue, s.walk, 0);
      assert s.walk[..0] + s.walk[0 + 1..] == s.walk[1..];
      InsertTail(head, q, s.line);
      NoDupAppend(s.line, q);
      assert Set(s.line + [q]) == Set(s.line) + {q};
      s := State(s.line + [q], s.walk[1..]);
    }

    /** QUEUE_MOVE at the start of the walk. */
    method Begin(queue: Link)
      requires Valid() && local == null && queue != head && queue !in all
      modifies this`local, this`s, {head} + all, queue
      ensures Valid() && local == queue && s == State([], old(s).line)
    {
      hide Ring, NoDup;
      assert queue !in s.line by { assert queue !in Set(s.line); }
      NoDupEmpty();
      Move(head, queue, s.line);
      s, local := State([], s.line), queue;
    }

    /** uv__run_idle. */
    method RunIdle(script: seq<seq<Op>>) returns (calls: seq<Handle>)
      requires Valid() && local == null
      requires forall n :: 0 <= n < |script| ==> forall i :: 0 <= i < |script[n]| ==> script[n][i].h in all
      modifies this, {head} + all
      ensures Valid() && local == null
      ensures calls == Calls(old(s).line, Stops(script), 0)
      ensures s == State(LineAfter(State([], old(s).line), script, 0), [])
    {
      hide Valid, StateOk, Ring, Calls, LineAfter, ApplyAll, Stops;
      var queue := new Link();
      assert queue != head && queue !in all;
      Begin(queue);
      ghost var s0 := s;
      calls := [];
      var empty := WalkEmpty(queue);
      while !empty
        invariant Valid() && local == queue && fresh(queue) && (empty <==> s.walk == [])
        invariant calls + Calls(s.walk, Stops(script), |calls|) == Calls(s0.walk, Stops(script), 0)
        invariant LineAfter(s, script, |calls|) == LineAfter(s0, script, 0)
        decreases |s.walk|
      {
        ghost var t := s;
        CallsStep(t, script, |calls|);
        var q := Advance(queue);
        var ops := Nth(script, |calls|);
        Perform(ops);
        assert s == Turn(t, ops);
        calls := calls + [q];
        empty := WalkEmpty(queue);
      }
      CallsStep(s, script, |calls|);
      End();
    }

    method WalkEmpty(queue: Link) returns (r: bool)
      requires Valid() && local == queue
      ensures r <==> s.walk == []
    {
      r := Empty(queue, s.walk);
    }

    method End()
      requires Valid() && s.walk == []
      modifies this`local
      ensures Valid() && local == null
    {
      local := null;
    }
  }

  lemma CallsStep(s: State, script: seq<seq<Op>>, n: nat)
    ensures s.walk == [] ==> Calls(s.walk, Stops(script), n) == [] && LineAfter(s, script, n) == s.line
    ensures s.walk != [] ==>
              var t := Turn(s, Nth(script, n));
              Calls(s.walk, Stops(script), n) == [s.walk[0]] + Calls(t.walk, Stops(script), n + 1)
              && LineAfter(s, script, n) == LineAfter(t, script, n + 1)
  {
    if s.walk != [] {
      NthStops(script, n);
      ApplyAllWalk(State(s.line + [s.walk[0]], s.walk[1..]), Nth(script, n));
    }
  }

  lemma NoDupEmpty()
    ensures NoDup<Handle>([]) && Set<Handle>([]) == {}
  {}

  // ---------------------------------------------------------------- told by the calls

  ghost predicate IsActive(s: State, h: Handle) { h in s.line || h in s.walk }

  /** The start of a handle whose callback is not NULL. */
  predicate HasCallback(cb: bool) { cb }

  /** Which handles a callback leaves active: those that it starts and does not stop after that, and those that were
      active and that it does not stop. */
  lemma {:induction false} ActiveByCalls(s: State, ops: seq<Op>, h: Handle)
    requires StateOk(s)
    ensures StateOk(ApplyAll(s, ops))
    ensures IsActive(ApplyAll(s, ops), h) <==> ActiveBy(ops, h, IsActive(s, h), HasCallback)
    decreases |ops|
  {
    hide StateOk, ActiveBy, IsActive, Apply;
    if ops == [] {
      ActiveByNone<Handle, bool>(h, IsActive(s, h), HasCallback);
    } else {
      var init, last := ops[..|ops| - 1], ops[|ops| - 1];
      ActiveByCalls(s, init, h);
      ActiveByLast(ops, h, IsActive(s, h), HasCallback);
      ApplyOk(ApplyAll(s, init), last);
      OneCall(ApplyAll(s, init), last, h);
    }
  }

  lemma OneCall(s: State, op: Op, h: Handle)
    requires StateOk(s)
    ensures IsActive(Apply(s, op), h) <==> Begins(op, h, HasCallback) || (!(op.Stop? && op.h == h) && IsActive(s, h))
  {
    if op.Stop? {
      DropBoth(s, op.h);
      assert forall x :: x in Drop(s.line, op.h) <==> x in Set(Drop(s.line, op.h));
      assert forall x :: x in Drop(s.walk, op.h) <==> x in Set(Drop(s.walk, op.h));
      assert h in s.line <==> h in Set(s.line);
      assert h in s.walk <==> h in Set(s.walk);
    }
  }

  /** Which handles a whole walk leaves on the list: told by all calls that its callbacks make. */
  lemma {:induction false} ActiveByWalk(s: State, script: seq<seq<Op>>, n: nat, h: Handle)
    requires StateOk(s)
    ensures h in LineAfter(s, script, n)
        <==> ActiveBy(Made(script, n, |Calls(s.walk, Stops(script), n)|), h, IsActive(s, h), HasCallback)
    decreases |s.walk|
  {
    hide StateOk, ActiveBy, Calls, ApplyAll, Stops;
    CallsStep(s, script, n);
    if s.walk == [] {
      ActiveByNone<Handle, bool>(h, IsActive(s, h), HasCallback);
    } else {
      var t := State(s.line + [s.walk[0]], s.walk[1..]);
      var ops := Nth(script, n);
      MovedOn(s, h);
      ActiveByCalls(t, ops, h);
      var u := Turn(s, ops);
      ActiveByWalk(u, script, n + 1, h);
      ActiveByConcat(ops, Made(script, n + 1, |Calls(u.walk, Stops(script), n + 1)|), h, IsActive(s, h), HasCallback);
    }
  }

  lemma MovedOn(s: State, h: Handle)
    requires StateOk(s) && s.walk != []
    ensures var t := State(s.line + [s.walk[0]], s.walk[1..]); StateOk(t) && (IsActive(t, h) <==> IsActive(s, h))
  {
    NoDupTail(s.walk);
    SetHead(s.walk);
    assert s.walk[0] in Set(s.walk) && s.walk[0] !in Set(s.line);
    NoDupAppend(s.line, s.walk[0]);
    assert Set(s.line + [s.walk[0]]) == Set(s.line) + {s.walk[0]};
  }

  /** A walk whose callbacks make no calls leaves the list as it was, in order, and calls all of it. */
  lemma {:induction false} QuietWalk(s: State, n: nat)
    ensures LineAfter(s, [], n) == s.line + s.walk && Calls(s.walk, Stops<Handle, bool>([]), n) == s.walk
    decreases |s.walk|
  {
    hide Calls, LineAfter, Stops, ApplyAll;
    CallsStep(s, [], n);
    if s.walk != [] {
      var t := State(s.line + [s.walk[0]], s.walk[1..]);
      NoCalls(t);
      assert Nth<Op>([], n) == [] && Turn(s, []) == t;
      QuietWalk(t, n + 1);
    }
  }

  lemma NoCalls(s: State)
    ensures ApplyAll(s, []) == s
  {}
}
