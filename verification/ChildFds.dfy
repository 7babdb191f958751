/** The descriptor loops of a child process between fork and exec (src/unix/process.c). */
module ChildFds {

  datatype File = Opened(id: nat) | DevNull(readOnly: bool)
  datatype Fd = Fd(file: File, cloexec: bool)
  type Table = map<int, Fd>

  /** An entry of `pipes`: the parent's end, or -1, and the descriptor the child is to have. */
  datatype Entry = Entry(parent: int, source: int)

  /** The least descriptor from `low` up that is not in use, as open(2) and F_DUPFD choose it. */
  function Least(t: set<int>, low: int): (r: int)
    ensures r >= low && r !in t && forall x :: low <= x < r ==> x in t
    decreases |t|
  {
    if low !in t then low
    else
      var r := Least(t - {low}, low + 1);
      assert forall x :: low <= x < r ==> x in t by {
        forall x | low <= x < r ensures x in t { assert x == low || x in t - {low}; }
      }
      r
  }

  lemma LeastIs(t: set<int>, low: int, r: int)
    requires r >= low && r !in t && forall x :: low <= x < r ==> x in t
    ensures Least(t, low) == r
  {
    var l := Least(t, low);
    assert l < r ==> l in t;
    assert r < l ==> r in t;
  }

  // ---------------------------------------------------------------- what the loops are for

  /** Sources are open, and no parent end that will be closed is itself a source. */
  ghost predicate Ready(es: seq<Entry>, t: Table) {
    && |es| >= 3
    && (forall i :: 0 <= i < |es| && es[i].source >= 0 ==> es[i].source in t)
    && (forall i :: 0 <= i < |es| && es[i].parent >= |es| ==> es[i].parent in t)
    && (forall i, j :: 0 <= i < |es| && 0 <= j < |es| && es[i].parent >= |es| ==> es[j].source != es[i].parent)
  }

  /** What descriptor i of the child is, given the table before. */
  ghost predicate Placed(e: Entry, i: int, before: Table, t: Table) {
    if e.source >= 0 then e.source in before && i in t && t[i] == Fd(before[e.source].file, false)
    else if i < 3 then i in t && t[i] == Fd(DevNull(i == 0), false)
    else if i in before then i in t && t[i] == before[i]
    else i in t ==> t[i].file.DevNull? && !t[i].cloexec
  }

  /** Descriptors that the loops close. */
  ghost predicate Closes(es: seq<Entry>, k: int, f: int) {
    exists i :: 0 <= i < k <= |es| && es[i].source >= 0 && (es[i].source == f || es[i].parent == f)
  }

  // ---------------------------------------------------------------- after the first loop

  /** Entry e became d: a source below its own place was duplicated out of the way. */
  ghost predicate Raised(e: Entry, d: Entry, i: int, n: int, before: Table, t: Table) {
    && d.parent == e.parent
    && (e.source < 0 || e.source >= i ==> d.source == e.source)
    && (0 <= e.source < i ==> d.source >= n && d.source !in before && e.source in before
                              && d.source in t && t[d.source] == Fd(before[e.source].file, false))
  }

  /** The table after some duplications: the old one plus descriptors from n up. */
  ghost predicate Extends(before: Table, t: Table, n: int) {
    && (forall f :: f in before ==> f in t && t[f] == before[f])
    && (forall f :: f in t && f !in before ==> f >= n)
  }

  ghost predicate AllRaised(es: seq<Entry>, ds: seq<Entry>, k: int, before: Table, t: Table) {
    && |ds| == |es| && 0 <= k <= |es|
    && (forall i :: 0 <= i < k ==> Raised(es[i], ds[i], i, |es|, before, t))
    && (forall i :: k <= i < |es| ==> ds[i] == es[i])
  }

  ghost predicate OnlyRaised(es: seq<Entry>, ds: seq<Entry>, before: Table, t: Table) {
    |ds| == |es| &&
    forall f :: f in t && f !in before ==> exists i :: 0 <= i < |es| && es[i].source >= 0 && ds[i].source == f
  }

  /** The descriptors in use below n. */
  ghost function Low(t: Table, n: int): set<int> { set f | f in t && 0 <= f < n }

  /** Those in use once the first k places, at most three, are taken: a place without a source opens /dev/null
      on the least unused descriptor and leaves it open if that is below the number of entries. */
  ghost function LowAfter(es: seq<Entry>, low: set<int>, k: nat): set<int>
    requires k <= |es|
    decreases k
  {
    if k == 0 then low
    else
      var l := LowAfter(es, low, k - 1);
      if es[k - 1].source >= 0 then l + {k - 1}
      else l + {k - 1} + (if Least(l, 0) < |es| then {Least(l, 0)} else {})
  }

  predicate NoFaults(faults: seq<bool>) { forall i :: 0 <= i < |faults| ==> !faults[i] }

  /** `faults` says of each coming system call that makes a descriptor whether the kernel refuses it. */
  class Process {
    var fds: Table
    var faults: seq<bool>

    constructor (fds: Table, faults: seq<bool>)
      ensures this.fds == fds && this.faults == faults
    {
      this.fds, this.faults := fds, faults;
    }

    method Refused() returns (r: bool)
      modifies this`faults
      ensures NoFaults(old(faults)) ==> !r && NoFaults(faults)
    {
      if faults == [] { return false; }
      r := faults[0];
      faults := faults[1..];
    }

    /** fcntl(use, F_DUPFD, low): the least unused descriptor from `low` up, or -1. */
    method DupFrom(use: int, low: int) returns (r: int)
      requires low >= 0
      modifies this
      ensures r == -1 ==> fds == old(fds)
      ensures r != -1 ==> use in old(fds) && r == Least(old(fds).Keys, low)
                          && fds == old(fds)[r := Fd(old(fds)[use].file, false)]
      ensures NoFaults(old(faults)) ==> NoFaults(faults) && (use in old(fds) ==> r != -1)
    {
      var refused := Refused();
      if use !in fds || refused { return -1; }
      r := Least(fds.Keys, low);
      fds := fds[r := Fd(fds[use].file, false)];
    }

    /** open("/dev/null"): the least unused descriptor, or -1. */
    method OpenNull(readOnly: bool) returns (r: int)
      modifies this
      ensures r == -1 ==> fds == old(fds)
      ensures r != -1 ==> r == Least(old(fds).Keys, 0) && fds == old(fds)[r := Fd(DevNull(readOnly), false)]
      ensures NoFaults(old(faults)) ==> NoFaults(faults) && r != -1
    {
      var refused := Refused();
      if refused { return -1; }
      r := Least(fds.Keys, 0);
      fds := fds[r := Fd(DevNull(readOnly), false)];
    }

    method Dup2(use: int, fd: int) returns (r: int)
      requires use != fd && fd >= 0
      modifies this
      ensures r == -1 || r == fd
      ensures r == -1 ==> fds == old(fds)
      ensures r != -1 ==> use in old(fds) && fds == old(fds)[fd := Fd(old(fds)[use].file, false)]
      ensures NoFaults(old(faults)) ==> NoFaults(faults) && (use in old(fds) ==> r != -1)
    {
      var refused := Refused();
      if use !in fds || refused { return -1; }
      fds := fds[fd := Fd(fds[use].file, false)];
      r := fd;
    }

    method Close(fd: int)
      modifies this`fds
      ensures fds == old(fds) - {fd}
    {
      fds := fds - {fd};
    }

    /** First loop: low sources move up, where no later step replaces them. */
    method Raise(pipes: array<Entry>) returns (ok: bool)
      requires Ready(pipes[..], fds)
      modifies this, pipes
      ensures ok ==> AllRaised(old(pipes[..]), pipes[..], pipes.Length, old(fds), fds)
      ensures ok ==> Extends(old(fds), fds, pipes.Length) && OnlyRaised(old(pipes[..]), pipes[..], old(fds), fds)
      ensures NoFaults(old(faults)) ==> ok && NoFaults(faults)
    {
      ghost var es := pipes[..];
      var n := pipes.Length;
      for fd := 0 to n
        invariant AllRaised(es, pipes[..], fd, old(fds), fds) && Extends(old(fds), fds, n)
        invariant OnlyRaised(es, pipes[..], old(fds), fds)
        invariant NoFaults(old(faults)) ==> NoFaults(faults)
      {
        var use := pipes[fd].source;
        if use < 0 || use >= fd { continue; }
        ghost var was, ds := fds, pipes[..];
        assert use in fds;
        var r := DupFrom(use, n);
        pipes[fd] := pipes[fd].(source := r);
        if r == -1 { return false; }
        OneRaised(es, ds, pipes[..], fd, old(fds), was, fds, r);
      }
      ok := true;
    }

    /** Second loop: every descriptor of the child is put in its place. */
    method Place(pipes: array<Entry>) returns (ok: bool)
      requires Movable(pipes[..], fds)
      modifies this
      ensures ok ==> MovedTo(pipes[..], pipes.Length, old(fds), fds)
      ensures ok ==> LowIs(pipes[..], pipes.Length, old(fds), fds)
      ensures NoFaults(old(faults)) ==> ok && NoFaults(faults)
    {
      hide MovedTo, Movable, LowIs, NoFaults;
      var n := pipes.Length;
      ghost var ds, t0 := pipes[..], fds;
      MoveStart(ds, t0);
      LowStart(ds, t0);
      for k := 0 to n
        invariant MovedTo(ds, k, t0, fds) && LowIs(ds, k, t0, fds)
        invariant NoFaults(old(faults)) ==> NoFaults(faults)
      {
        var fd := k;
        var close, use := pipes[fd].parent, pipes[fd].source;
        ghost var t := fds;
        if use < 0 {
          if fd >= 3 {
            MoveNothing(ds, k, t0, t);
            LowNothing(ds, k, t0, t);
            continue;
          }
          use := OpenNull(fd == 0);
          close := use;
          if use == -1 { return false; }
        } else {
          SourceOpen(ds, k, t0, t);
        }
        if fd == use {
          fds := fds[use := fds[use].(cloexec := false)];
        } else {
          fd := Dup2(use, fd);
        }
        if fd == -1 { return false; }
        if close >= n {
          Close(close);
        }
        if pipes[k].source < 0 {
          MoveNull(ds, k, t0, t, use, fds);
          LowNull(ds, k, t0, t, fds);
        } else {
          MoveSource(ds, k, t0, t, fds);
          LowSource(ds, k, t0, t, fds);
        }
      }
      ok := true;
    }

    /** Third loop: the sources above the child's descriptors are closed. */
    method CloseSources(pipes: array<Entry>)
      requires pipes.Length >= 3
      modifies this`fds
      ensures forall f :: f in fds <==> f in old(fds) && !High(pipes[..], pipes.Length, f)
      ensures forall f :: f in fds ==> fds[f] == old(fds)[f]
    {
      for fd := 0 to pipes.Length
        invariant forall f :: f in fds <==> f in old(fds) && !High(pipes[..], fd, f)
        invariant forall f :: f in fds ==> fds[f] == old(fds)[f]
      {
        var use := pipes[fd].source;
        if use >= pipes.Length {
          Close(use);
        }
        HighNext(pipes[..], fd);
      }
    }

    /** The descriptor loops of uv__process_child_init. On success descriptor i is the file that its
        source named at entry and survives exec; above the child's descriptors nothing new stays open,
        and the sources and parent ends found there are closed. */
    method ChildInit(pipes: array<Entry>) returns (ok: bool)
      requires Ready(pipes[..], fds)
      modifies this, pipes
      ensures ok ==> forall i :: 0 <= i < pipes.Length ==> Placed(old(pipes[..])[i], i, old(fds), fds)
      ensures ok ==> forall f :: f >= pipes.Length ==>
                (f in fds <==> f in old(fds) && !Closes(old(pipes[..]), pipes.Length, f))
                && (f in fds ==> fds[f] == old(fds)[f])
      ensures ok ==> forall i :: 3 <= i < pipes.Length && old(pipes[..])[i].source < 0 ==>
                (i in fds <==> i in LowAfter(old(pipes[..]), Low(old(fds), pipes.Length), 3))
      ensures NoFaults(old(faults)) ==> ok
    {
      hide Ready, AllRaised, Extends, OnlyRaised, Movable, MovedTo, Placed, Closes, High, LowIs, LowAfter, Low, NoFaults;
      ghost var es, before := pipes[..], fds;
      ReadySize(es, before);
      ok := Raise(pipes);
      if !ok { return; }
      ghost var ds, t0 := pipes[..], fds;
      RaisedMovable(es, ds, before, t0);
      ok := Place(pipes);
      if !ok { return; }
      ghost var t := fds;
      CloseSources(pipes);
      forall i | 0 <= i < pipes.Length ensures Placed(es[i], i, before, fds) {
        LowPlaced(es, ds, before, t0, t, fds, i);
      }
      forall f | f >= pipes.Length
        ensures (f in fds <==> f in before && !Closes(es, pipes.Length, f)) && (f in fds ==> fds[f] == before[f])
      {
        HighLeft(es, ds, before, t0, t, fds, f);
      }
      forall i | 3 <= i < pipes.Length && es[i].source < 0
        ensures i in fds <==> i in LowAfter(es, Low(before, pipes.Length), 3)
      {
        LowLeft(es, ds, before, t0, t, fds, i);
      }
    }
  }

  // ---------------------------------------------------------------- the second loop

  /** No source is below its own place, and no parent end to be closed is a source. */
  ghost predicate Movable(ds: seq<Entry>, t0: Table) {
    && |ds| >= 3
    && (forall i :: 0 <= i < |ds| && ds[i].source >= 0 ==> ds[i].source >= i && ds[i].source in t0)
    && (forall i, j :: 0 <= i < |ds| && 0 <= j < |ds| && ds[i].parent >= |ds| ==> ds[j].source != ds[i].parent)
  }

  ghost predicate ParentClosed(ds: seq<Entry>, k: int, f: int) {
    f >= |ds| && exists i :: 0 <= i < k <= |ds| && ds[i].source >= 0 && ds[i].parent == f
  }

  ghost predicate MovedTo(ds: seq<Entry>, k: int, t0: Table, t: Table) {
    && Movable(ds, t0) && 0 <= k <= |ds|
    && (forall i :: 0 <= i < k ==> Placed(ds[i], i, t0, t))
    && (forall f :: f in t0 && f >= k && !ParentClosed(ds, k, f) ==> f in t && t[f] == t0[f])
    && (forall f :: f in t && f >= k ==> if f in t0 then t[f] == t0[f] else f < |ds| && t[f].file.DevNull? && !t[f].cloexec)
    && (forall f :: ParentClosed(ds, k, f) ==> f !in t)
  }

  lemma MoveStart(ds: seq<Entry>, t0: Table)
    requires Movable(ds, t0)
    ensures MovedTo(ds, 0, t0, t0)
  {}

  lemma ParentNext(ds: seq<Entry>, k: int)
    requires 0 <= k < |ds|
    ensures forall f :: ParentClosed(ds, k + 1, f) <==>
              ParentClosed(ds, k, f) || (f >= |ds| && ds[k].source >= 0 && ds[k].parent == f)
  {
    assert ds[k].parent >= |ds| && ds[k].source >= 0 ==> ParentClosed(ds, k + 1, ds[k].parent);
  }

  lemma MoveNothing(ds: seq<Entry>, k: int, t0: Table, t: Table)
    requires MovedTo(ds, k, t0, t) && 3 <= k < |ds| && ds[k].source < 0
    ensures MovedTo(ds, k + 1, t0, t)
  {
    assert !ParentClosed(ds, k, k);
    hide ParentClosed;
    ParentNext(ds, k);
  }

  lemma SourceOpen(ds: seq<Entry>, k: int, t0: Table, t: Table)
    requires MovedTo(ds, k, t0, t) && 0 <= k < |ds| && ds[k].source >= 0
    ensures ds[k].source in t && ds[k].source in t0 && t[ds[k].source] == t0[ds[k].source]
    ensures ds[k].source >= k && (ds[k].parent >= |ds| ==> ds[k].parent != ds[k].source)
  {}

  lemma MoveSource(ds: seq<Entry>, k: int, t0: Table, t: Table, t': Table)
    requires MovedTo(ds, k, t0, t) && 0 <= k < |ds| && ds[k].source >= 0 && ds[k].source in t
    requires t' == t[k := Fd(t[ds[k].source].file, false)] - (if ds[k].parent >= |ds| then {ds[k].parent} else {})
    ensures MovedTo(ds, k + 1, t0, t')
  {
    SourceOpen(ds, k, t0, t);
    hide ParentClosed;
    ParentNext(ds, k);
  }

  lemma LowTaken(ds: seq<Entry>, k: int, t0: Table, t: Table)
    requires MovedTo(ds, k, t0, t) && k <= 3
    ensures forall i :: 0 <= i < k ==> i in t
  {
    forall i | 0 <= i < k ensures i in t { assert Placed(ds[i], i, t0, t); }
  }

  lemma MoveNull(ds: seq<Entry>, k: int, t0: Table, t: Table, use: int, t': Table)
    requires MovedTo(ds, k, t0, t) && 0 <= k < 3 && ds[k].source < 0 && use >= 0 && use !in t
    requires t' == t[use := Fd(DevNull(k == 0), false)][k := Fd(DevNull(k == 0), false)]
                   - (if use >= |ds| then {use} else {})
    ensures MovedTo(ds, k + 1, t0, t')
  {
    LowTaken(ds, k, t0, t);
    assert !ParentClosed(ds, k, k) && (use < |ds| ==> !ParentClosed(ds, k, use));
    hide ParentClosed;
    ParentNext(ds, k);
    forall i | 0 <= i < k + 1 ensures Placed(ds[i], i, t0, t') {
      assert i < k ==> Placed(ds[i], i, t0, t);
    }
    hide Placed;
  }

  /** Which low descriptors are in use after k places. */
  ghost predicate LowIs(ds: seq<Entry>, k: int, t0: Table, t: Table) {
    && |ds| >= 3 && 0 <= k <= |ds|
    && forall f :: 0 <= f < |ds| ==>
         (f in t <==> f in LowAfter(ds, Low(t0, |ds|), if k < 3 then k else 3) || (3 <= f < k && ds[f].source >= 0))
  }

  lemma LowStart(ds: seq<Entry>, t0: Table)
    requires Movable(ds, t0)
    ensures LowIs(ds, 0, t0, t0)
  {}

  lemma LowNothing(ds: seq<Entry>, k: int, t0: Table, t: Table)
    requires LowIs(ds, k, t0, t) && 3 <= k < |ds| && ds[k].source < 0
    ensures LowIs(ds, k + 1, t0, t)
  {}

  lemma LowSource(ds: seq<Entry>, k: int, t0: Table, t: Table, t': Table)
    requires LowIs(ds, k, t0, t) && 0 <= k < |ds| && ds[k].source >= 0
    requires forall f :: 0 <= f < |ds| ==> (f in t' <==> f == k || f in t)
    ensures LowIs(ds, k + 1, t0, t')
  {}

  lemma LeastLow(t: Table, l: set<int>, n: int)
    requires forall f :: 0 <= f < n ==> (f in t <==> f in l)
    ensures Least(t.Keys, 0) < n || Least(l, 0) < n ==> Least(t.Keys, 0) == Least(l, 0)
  {
    var a, b := Least(t.Keys, 0), Least(l, 0);
    if a < n { LeastIs(l, 0, a); } else if b < n { LeastIs(t.Keys, 0, b); }
  }

  lemma LowNull(ds: seq<Entry>, k: int, t0: Table, t: Table, t': Table)
    requires LowIs(ds, k, t0, t) && 0 <= k < 3 && ds[k].source < 0
    requires forall f :: 0 <= f < |ds| ==> (f in t' <==> f == k || f == Least(t.Keys, 0) || f in t)
    ensures LowIs(ds, k + 1, t0, t')
  {
    LeastLow(t, LowAfter(ds, Low(t0, |ds|), k), |ds|);
  }

  // ---------------------------------------------------------------- the third loop

  ghost predicate High(ds: seq<Entry>, k: int, f: int) {
    f >= |ds| && exists i :: 0 <= i < k <= |ds| && ds[i].source == f
  }

  lemma HighNext(ds: seq<Entry>, k: int)
    requires 0 <= k < |ds|
    ensures forall f :: High(ds, k + 1, f) <==> High(ds, k, f) || (f >= |ds| && ds[k].source == f)
  {
    assert ds[k].source >= |ds| ==> High(ds, k + 1, ds[k].source);
  }

  // ---------------------------------------------------------------- all three

  lemma RaisedMovable(es: seq<Entry>, ds: seq<Entry>, before: Table, t0: Table)
    requires Ready(es, before) && AllRaised(es, ds, |es|, before, t0) && Extends(before, t0, |es|)
    ensures Movable(ds, t0)
  {
    forall i, j | 0 <= i < |ds| && 0 <= j < |ds| && ds[i].parent >= |ds| ensures ds[j].source != ds[i].parent {
      assert Raised(es[i], ds[i], i, |es|, before, t0) && Raised(es[j], ds[j], j, |es|, before, t0);
    }
  }

  lemma LowPlaced(es: seq<Entry>, ds: seq<Entry>, before: Table, t0: Table, t: Table, t': Table, i: int)
    requires Ready(es, before) && AllRaised(es, ds, |es|, before, t0) && Extends(before, t0, |es|)
    requires MovedTo(ds, |ds|, t0, t) && 0 <= i < |es|
    requires forall f :: f in t' <==> f in t && !High(ds, |ds|, f)
    requires forall f :: f in t' ==> t'[f] == t[f]
    ensures Placed(es[i], i, before, t')
  {
    assert Raised(es[i], ds[i], i, |es|, before, t0);
    assert Placed(ds[i], i, t0, t);
  }

  lemma ReadySize(es: seq<Entry>, t: Table)
    requires Ready(es, t)
    ensures |es| >= 3
  {}

  lemma {:induction false} LowAfterSame(es: seq<Entry>, ds: seq<Entry>, low: set<int>, k: nat)
    requires |es| == |ds| && k <= |es| && forall i :: 0 <= i < |es| ==> (es[i].source >= 0 <==> ds[i].source >= 0)
    ensures LowAfter(es, low, k) == LowAfter(ds, low, k)
    decreases k
  {
    if k > 0 { LowAfterSame(es, ds, low, k - 1); }
  }

  lemma LowLeft(es: seq<Entry>, ds: seq<Entry>, before: Table, t0: Table, t: Table, t': Table, i: int)
    requires Ready(es, before) && AllRaised(es, ds, |es|, before, t0) && Extends(before, t0, |es|)
    requires LowIs(ds, |ds|, t0, t) && 3 <= i < |es| && es[i].source < 0
    requires forall f :: f in t' <==> f in t && !High(ds, |ds|, f)
    ensures i in t' <==> i in LowAfter(es, Low(before, |es|), 3)
  {
    assert forall j :: 0 <= j < |es| ==> Raised(es[j], ds[j], j, |es|, before, t0);
    assert Low(t0, |es|) == Low(before, |es|);
    LowAfterSame(es, ds, Low(before, |es|), 3);
  }

  lemma HighLeft(es: seq<Entry>, ds: seq<Entry>, before: Table, t0: Table, t: Table, t': Table, f: int)
    requires Ready(es, before) && AllRaised(es, ds, |es|, before, t0) && Extends(before, t0, |es|)
    requires OnlyRaised(es, ds, before, t0)
    requires MovedTo(ds, |ds|, t0, t) && f >= |es|
    requires forall f :: f in t' <==> f in t && !High(ds, |ds|, f)
    requires forall f :: f in t' ==> t'[f] == t[f]
    ensures f in t' <==> f in before && !Closes(es, |es|, f)
    ensures f in t' ==> t'[f] == before[f]
  {
    assert forall i :: 0 <= i < |es| ==> Raised(es[i], ds[i], i, |es|, before, t0);
    assert f in before ==> (Closes(es, |es|, f) <==> High(ds, |ds|, f) || ParentClosed(ds, |ds|, f));
  }

  lemma OneRaised(es: seq<Entry>, ds: seq<Entry>, ds': seq<Entry>, k: int, before: Table, was: Table, now: Table, r: int)
    requires Ready(es, before) && AllRaised(es, ds, k, before, was) && Extends(before, was, |es|)
    requires OnlyRaised(es, ds, before, was)
    requires k < |es| && 0 <= ds[k].source < k && r >= |es| && r !in was
    requires now == was[r := Fd(was[ds[k].source].file, false)] && ds' == ds[k := ds[k].(source := r)]
    ensures AllRaised(es, ds', k + 1, before, now) && Extends(before, now, |es|) && OnlyRaised(es, ds', before, now)
  {
    assert ds[k] == es[k] && es[k].source in before;
    assert OnlyRaised(es, ds', before, now) by { RaisedOnly(es, ds, ds', k, before, was, now, r); }
    hide OnlyRaised;
    assert Raised(es[k], ds'[k], k, |es|, before, now);
    forall i | 0 <= i < k ensures Raised(es[i], ds'[i], i, |es|, before, now) {
      assert Raised(es[i], ds[i], i, |es|, before, was);
    }
  }

  lemma RaisedOnly(es: seq<Entry>, ds: seq<Entry>, ds': seq<Entry>, k: int, before: Table, was: Table, now: Table, r: int)
    requires OnlyRaised(es, ds, before, was) && 0 <= k < |es| && es[k].source >= 0
    requires ds[k].source in before && now.Keys == was.Keys + {r} && ds' == ds[k := ds[k].(source := r)]
    ensures OnlyRaised(es, ds', before, now)
  {
    forall f | f in now && f !in before ensures exists i :: 0 <= i < |es| && es[i].source >= 0 && ds'[i].source == f {
      if f == r {
        assert ds'[k].source == f;
      } else {
        var i :| 0 <= i < |es| && es[i].source >= 0 && ds[i].source == f;
        assert i != k && ds'[i].source == f;
      }
    }
  }

  // ---------------------------------------------------------------- a stray descriptor

  /** Five entries without sources and three descriptors open: the first two places open /dev/null on 3 and 4. */
  lemma StrayLow()
    ensures LowAfter(seq(5, i => Entry(-1, -1)), {0, 1, 2}, 3) == {0, 1, 2, 3, 4}
  {
    var es := seq(5, i => Entry(-1, -1));
    assert LowAfter(es, {0, 1, 2}, 0) == {0, 1, 2};
    LeastIs({0, 1, 2}, 0, 3);
    assert LowAfter(es, {0, 1, 2}, 1) == {0, 1, 2, 3};
    LeastIs({0, 1, 2, 3}, 0, 4);
    assert LowAfter(es, {0, 1, 2}, 2) == {0, 1, 2, 3, 4};
    LeastIs({0, 1, 2, 3, 4}, 0, 5);
  }

  /** Such a child should have nothing on 3 and 4, and gets /dev/null there. */
  method StrayRun(p: Process, pipes: array<Entry>) returns (ok: bool)
    requires p.fds.Keys == {0, 1, 2} && NoFaults(p.faults) && pipes[..] == seq(5, i => Entry(-1, -1))
    modifies p, pipes
    ensures ok && 3 in p.fds && 4 in p.fds && p.fds[3].file.DevNull? && p.fds[4].file.DevNull?
    ensures !p.fds[3].cloexec && !p.fds[4].cloexec
  {
    hide LowAfter, Low, Closes, NoFaults;
    ghost var t := p.fds;
    ok := p.ChildInit(pipes);
    StrayLow();
    LowThree(t);
    assert Placed(Entry(-1, -1), 3, t, p.fds) && Placed(Entry(-1, -1), 4, t, p.fds);
  }

  lemma LowThree(t: Table)
    requires t.Keys == {0, 1, 2}
    ensures Low(t, 5) == {0, 1, 2}
  {}
}
