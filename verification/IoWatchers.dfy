/** The loop's table of io watchers, its queue of changed watchers and the kernel's interest set
    (src/unix/core.c, src/unix/linux-core.c). */
module IoWatchers {
  import opened Seqs
  import opened Bits

  datatype Event = In | Out | RdHup

  /** uv__io_t. Whether it is on the watcher queue is kept by the loop. */
  class Io {
    const fd: int
    var events: set<Event>
    var pevents: set<Event>

    constructor (fd: int)
      ensures this.fd == fd && events == {} && pevents == {}
    {
      this.fd, events, pevents := fd, {}, {};
    }
  }

  /** The first `nwatchers` slots hold watchers; the two behind them the events of a poll in
      progress (descriptors, -1 once invalid) and their number. */
  datatype Slot = Null | W(w: Io) | Events(list: array<int>) | Count(n: nat)

  /** The largest descriptor that the table can be resized for. */
  const MaxFd := 0x7FFF_FFFD
  const INT_MAX := 0x7FFF_FFFF

  /** The fields of the watchers, as values. */
  datatype View = View(fd: int, events: set<Event>, pevents: set<Event>)
  type Views = map<Io, View>

  ghost predicate SlotOk(x: Slot, i: int, m: Views) {
    x.Null? || (x.W? && x.w in m && m[x.w].fd == i && m[x.w].pevents != {})
  }

  /** A slot is in use iff a watcher wants events of its descriptor, and then holds that watcher. */
  ghost predicate TableOk(slots: seq<Slot>, m: Views) {
    && (forall i :: 0 <= i < |slots| ==> SlotOk(slots[i], i, m))
    && (forall w :: w in m && m[w].pevents != {} ==> 0 <= m[w].fd < |slots| && slots[m[w].fd] == W(w))
  }

  ghost predicate WatcherOk(v: View, queued: bool, epoll: map<int, set<Event>>) {
    && (v.pevents == {} ==> v.events == {} && !queued)
    && (v.events != v.pevents ==> queued)
    && (v.events != {} ==> v.fd in epoll && epoll[v.fd] == v.events)
  }

  ghost predicate QueueOk(queue: seq<Io>, epoll: map<int, set<Event>>, m: Views) {
    && NoDup(queue) && (forall i :: 0 <= i < |queue| ==> queue[i] in m)
    && (forall w :: w in m ==> WatcherOk(m[w], w in queue, epoll))
  }

  /** No other watcher wants events of the same descriptor. */
  ghost predicate Alone(w: Io, m: Views) {
    w in m && forall x :: x in m && x != w && m[x].fd == m[w].fd ==> m[x].pevents == {}
  }

  ghost function Used(slots: seq<Slot>): nat {
    if slots == [] then 0 else Used(slots[..|slots| - 1]) + if slots[|slots| - 1].Null? then 0 else 1
  }

  lemma {:induction false} UsedUpdate(slots: seq<Slot>, i: nat, x: Slot)
    requires i < |slots|
    ensures Used(slots[i := x]) - (if x.Null? then 0 else 1) == Used(slots) - (if slots[i].Null? then 0 else 1)
  {
    var n := |slots| - 1;
    if i == n {
      assert slots[i := x][..n] == slots[..n];
    } else {
      UsedUpdate(slots[..n], i, x);
      assert slots[i := x][..n] == slots[..n][i := x];
    }
  }

  lemma {:induction false} UsedExtended(slots: seq<Slot>, more: seq<Slot>)
    requires forall i :: 0 <= i < |more| ==> more[i].Null?
    ensures Used(slots + more) == Used(slots)
  {
    if more == [] {
      assert slots + more == slots;
    } else {
      var n := |more| - 1;
      UsedExtended(slots, more[..n]);
      assert (slots + more)[..|slots| + n] == slots + more[..n];
    }
  }

  lemma {:induction false} UsedZero(slots: seq<Slot>, i: nat)
    requires Used(slots) == 0 && i < |slots|
    ensures slots[i].Null?
  {
    var n := |slots| - 1;
    if i < n { UsedZero(slots[..n], i); }
  }

  /** uv__realloc of the table to more room. */
  method Realloc(a: array?<Slot>, size: nat) returns (r: array<Slot>)
    requires a != null ==> a.Length <= size
    ensures fresh(r) && r.Length == size && (a != null ==> r[..a.Length] == a[..])
  {
    r := new Slot[size](_ => Null);
    if a != null {
      for i := 0 to a.Length
        invariant r[..i] == a[..i]
      {
        r[i] := a[i];
      }
      assert a[..a.Length] == a[..];
    }
  }

  datatype Ctl = AddFd | ModFd | DelFd
  const EEXIST := 17
  const ENOENT := 2

  class Loop {
    const ios: set<Io>
    var watchers: array?<Slot>
    var nwatchers: nat
    var nfds: nat
    var queue: seq<Io>
    var epoll: map<int, set<Event>>

    ghost function Slots(): seq<Slot>
      requires Sized()
      reads this`watchers, this`nwatchers, watchers
    {
      if watchers == null then [] else watchers[..nwatchers]
    }

    ghost function Tail(): (Slot, Slot)
      requires Sized()
      reads this`watchers, this`nwatchers, watchers
    {
      if watchers == null then (Null, Null) else (watchers[nwatchers], watchers[nwatchers + 1])
    }

    ghost predicate Sized()
      reads this`watchers, this`nwatchers, watchers
    {
      && (watchers == null ==> nwatchers == 0) && (watchers != null ==> watchers.Length == nwatchers + 2)
      && nwatchers <= MaxFd + 1
    }

    ghost function Views(): Views
      reads ios
    {
      map w | w in ios :: View(w.fd, w.events, w.pevents)
    }

    ghost predicate Valid()
      reads this, watchers, ios
    {
      Sized() && TableOk(Slots(), Views()) && QueueOk(queue, epoll, Views()) && nfds == Used(Slots())
    }

    constructor (ios: set<Io>)
      requires forall w :: w in ios ==> w.events == {} && w.pevents == {}
      ensures Valid() && this.ios == ios && watchers == null && epoll == map[]
    {
      this.ios := ios;
      watchers, nwatchers, nfds, queue, epoll := null, 0, 0, [], map[];
    }

    /** maybe_resize: all entries and the two tail slots are kept, and the table with its tail is the
        least power of two that has room for `len` watchers. It fails only where that power is not an
        unsigned int: then 0 bytes are asked for, and the source aborts or has no table. */
    method MaybeResize(len: nat) returns (ok: bool)
      requires Sized() && len <= INT_MAX
      modifies this`watchers, this`nwatchers
      ensures Sized() && Tail() == old(Tail()) && (ok <==> len <= MaxFd + 1) && (ok ==> |Slots()| >= len)
      ensures !ok || len <= old(nwatchers) ==> watchers == old(watchers) && nwatchers == old(nwatchers)
      ensures ok && len > old(nwatchers) ==> LeastPow(nwatchers + 2, len + 2) && fresh(watchers)
      ensures |old(Slots())| <= |Slots()| && Slots()[..|old(Slots())|] == old(Slots())
      ensures forall i :: |old(Slots())| <= i < |Slots()| ==> Slots()[i].Null?
    {
      hide LeastPow;
      if len <= nwatchers { return true; }
      var fakeList, fakeCount := Null, Null;
      if watchers != null {
        fakeList, fakeCount := watchers[nwatchers], watchers[nwatchers + 1];
      }
      var n := NextPowerOfTwo(len + 2);
      if len + 2 <= 0x8000_0000 { ResizeFits(n, len); }
      n := (n - 2) % UINT_MAX_1;
      var size := (n + 2) % UINT_MAX_1;
      if size == 0 {
        return false;
      }
      Refill(n, fakeList, fakeCount);
      ok := true;
    }

    /** The new table, with nothing between the old entries and the tail. */
    method Refill(n: nat, fakeList: Slot, fakeCount: Slot)
      requires Sized() && nwatchers < n <= MaxFd + 1
      modifies this`watchers, this`nwatchers
      ensures Sized() && nwatchers == n && fresh(watchers) && Tail() == (fakeList, fakeCount)
      ensures |old(Slots())| <= |Slots()| && Slots()[..|old(Slots())|] == old(Slots())
      ensures forall i :: |old(Slots())| <= i < |Slots()| ==> Slots()[i].Null?
    {
      var w := Realloc(watchers, n + 2);
      ghost var slots := Slots();
      var n0 := nwatchers;
      for i := n0 to n
        invariant w[..n0] == slots
        invariant forall j :: n0 <= j < i ==> w[j] == Null
        modifies w
      {
        w[i] := Null;
      }
      w[n] := fakeList;
      w[n + 1] := fakeCount;
      watchers, nwatchers := w, n;
    }

    /** uv__io_start. Its assertion admits one descriptor more than the table can be resized for. */
    method IoStart(w: Io, events: set<Event>) returns (ok: bool)
      requires Valid() && w in ios && Alone(w, Views()) && events != {} && 0 <= w.fd < INT_MAX
      modifies this`watchers, this`nwatchers, this`nfds, this`queue, watchers, w`pevents
      ensures ok <==> w.fd <= MaxFd
      ensures ok ==> Valid() && Tail() == old(Tail()) && (watchers == old(watchers) || fresh(watchers))
      ensures ok ==> watchers != null && old(nwatchers) <= nwatchers
      ensures w.pevents == old(w.pevents) + events && (ok && w.events != w.pevents ==> w in queue)
      ensures Views() == Wanting(old(Views()), w, old(w.pevents) + events)
      ensures queue == old(queue) || queue == old(queue) + [w]
    {
      hide Used, TableOk, QueueOk, LeastPow, Alone, Views, Tail, Slots, NoDup;
      SameView(w);
      ghost var m0, s0 := Views(), Slots();
      SetWanted(w, w.pevents + events);
      ghost var m := Views();
      ok := MaybeResize(w.fd + 1);
      if !ok { return; }
      ghost var s1 := Slots();
      SlotAt();
      assert s0 + s1[|s0|..] == s1;
      UsedExtended(s0, s1[|s0|..]);
      StartedTable(s0, s1, m0, w, w.pevents);
      StartedQueue(queue, epoll, m0, w, w.pevents);
      if w.events == w.pevents {
        // The source takes w off the queue here if its events are 0, which they never are.
        assert w.events != {};
        return true;
      }
      if w !in queue {
        queue := queue + [w];
      }
      if watchers[w.fd].Null? {
        UsedUpdate(s1, w.fd, W(w));
        Put(w.fd, W(w));
        nfds := nfds + 1;
      }
      assert Views() == m;
    }

    /** uv__io_stop. */
    method IoStop(w: Io, events: set<Event>)
      requires Valid() && w in ios && w.fd >= -1 && Alone(w, Views())
      modifies this`nfds, this`queue, watchers, w`pevents, w`events
      ensures Valid() && Tail() == old(Tail())
      ensures w.pevents == old(w.pevents) - events && w.events == if w.pevents == {} then {} else old(w.events)
      ensures Views() == Stopped(old(Views()), w, events)
    {
      hide Used, TableOk, QueueOk, Alone, Views, Tail, Slots, NoDup;
      SameView(w);
      ghost var m0, s0 := Views(), Slots();
      SlotAt();
      NeverStarted(s0, queue, epoll, m0, w);
      if w.fd == -1 || w.fd >= nwatchers {
        assert m0 == Stopped(m0, w, events);
        return;
      }
      StoppedQueue(queue, epoll, m0, w, events);
      StoppedTable(s0, m0, w, events);
      SetWanted(w, w.pevents - events);
      if w.pevents == {} {
        queue := Drop(queue, w);
        if !watchers[w.fd].Null? {
          Forget(w);
          assert Views() == Stopped(m0, w, events);
        }
      } else if w !in queue {
        queue := queue + [w];
      }
    }

    /** The tail holds nothing, or the events of the poll in progress. */
    ghost predicate TailOk()
      requires Sized()
      reads this`watchers, this`nwatchers, watchers
    {
      Tail().0.Null? || (Tail().0.Events? && Tail().1.Count? && Tail().1.n <= Tail().0.list.Length)
    }

    ghost function Polled(): set<array<int>>
      requires Sized()
      reads this`watchers, this`nwatchers, watchers
    {
      if Tail().0.Events? then {Tail().0.list} else {}
    }

    /** epoll_ctl. */
    method EpollCtl(op: Ctl, fd: int, events: set<Event>) returns (err: int)
      modifies this`epoll
      ensures op == AddFd ==> err == (if fd in old(epoll) then EEXIST else 0)
      ensures op != AddFd ==> err == (if fd in old(epoll) then 0 else ENOENT)
      ensures epoll == if err != 0 then old(epoll) else if op == DelFd then old(epoll) - {fd} else old(epoll)[fd := events]
    {
      match op
      case AddFd =>
        if fd in epoll { return EEXIST; }
        epoll := epoll[fd := events];
        err := 0;
      case ModFd =>
        if fd !in epoll { return ENOENT; }
        epoll := epoll[fd := events];
        err := 0;
      case DelFd =>
        if fd !in epoll { return ENOENT; }
        epoll := epoll - {fd};
        err := 0;
    }

    /** uv__platform_invalidate_fd: no event of the poll in progress is for the descriptor any more,
        and the kernel does not watch it. */
    method InvalidateFd(fd: int)
      requires Sized() && watchers != null && TailOk()
      modifies this`epoll, Polled()
      ensures epoll == old(epoll) - {fd}
      ensures Tail().0.Events? ==>
                forall i :: 0 <= i < Tail().1.n ==>
                  Tail().0.list[i] == if old(Tail().0.list[i]) == fd then -1 else old(Tail().0.list[i])
    {
      if watchers[nwatchers].Events? {
        var list, n := watchers[nwatchers].list, watchers[nwatchers + 1].n;
        for i := 0 to n
          invariant forall j :: 0 <= j < n ==>
                      list[j] == if j < i && old(list[j]) == fd then -1 else old(list[j])
          modifies list
        {
          if list[i] == fd { list[i] := -1; }
        }
      }
      var err := EpollCtl(DelFd, fd, {});
      assert fd !in old(epoll) ==> old(epoll) == old(epoll) - {fd};
    }

    /** uv__io_close. */
    method IoClose(w: Io)
      requires Valid() && w in ios && w.fd >= -1 && Alone(w, Views()) && watchers != null && TailOk()
      modifies this`nfds, this`queue, this`epoll, watchers, w`pevents, w`events, Polled()
      ensures Valid() && Tail() == old(Tail()) && epoll == old(epoll) - {w.fd}
      ensures w.pevents == {} && w.events == {} && w !in queue
      ensures Views() == Stopped(old(Views()), w, {In, Out, RdHup})
      ensures Tail().0.Events? ==> forall i :: 0 <= i < Tail().1.n ==> w.fd >= 0 ==> Tail().0.list[i] != w.fd
    {
      hide TableOk, QueueOk, Views, Slots, Used;
      SameView(w);
      ghost var m0 := Views();
      AllEvents(w.pevents);
      IoStop(w, {In, Out, RdHup});
      ClosedQueue(queue, epoll, m0, w);
      InvalidateFd(w.fd);
    }

    /** An event for a descriptor that is not watched any more: uv__io_poll takes it off the kernel's set. */
    method Disarm(fd: nat)
      requires Valid() && fd < nwatchers && Slots()[fd].Null?
      modifies this`epoll
      ensures Valid() && epoll == old(epoll) - {fd}
    {
      UnwatchedQueue(Slots(), queue, epoll, Views(), fd);
      var err := EpollCtl(DelFd, fd, {});
      assert fd !in old(epoll) ==> old(epoll) == old(epoll) - {fd};
    }

    /** The first part of uv__io_poll. No step aborts, and afterwards the kernel watches every
        registered descriptor for exactly the events that are wanted. */
    method Drain() returns (aborted: bool)
      requires Valid()
      modifies this`queue, this`epoll, ios
      ensures Valid() && !aborted && queue == []
      ensures Views() == Informed(old(Views())) && epoll == Told(old(Views()), old(epoll))
      ensures forall w :: w in ios ==> w.events == w.pevents && w.pevents == old(w.pevents)
      ensures forall w :: w in ios && w.pevents != {} ==> w.fd in epoll && epoll[w.fd] == w.pevents
    {
      hide TableOk, QueueOk, Views, Slots, Used, Told;
      ViewAll();
      SlotAt();
      ghost var m0, e0 := Views(), epoll;
      if nfds == 0 {
        NothingQueued(Slots(), queue, epoll, Views());
      }
      while queue != []
        invariant Valid() && Informed(Views()) == Informed(m0) && Told(Views(), epoll) == Told(m0, e0)
        decreases |queue|
      {
        var failed := DrainOne();
        if failed { return true; }
      }
      Drained(epoll, Views());
      AllTold(Slots(), epoll, Views());
      ViewAll();
      aborted := false;
    }

    /** One round of it: the kernel is told what the first queued watcher wants. */
    method DrainOne() returns (aborted: bool)
      requires Valid() && queue != []
      modifies this`queue, this`epoll, ios
      ensures Valid() && !aborted && queue == old(queue)[1..] && Informed(old(Views())) == Informed(Views())
      ensures Told(Views(), epoll) == Told(old(Views()), old(epoll))
    {
      hide TableOk, QueueOk, Views, Slots, Used, Told;
      var w := queue[0];
      SlotAt();
      QueuedWatcher(Slots(), queue, epoll, Views());
      SameView(w);
      DrainStep(Slots(), queue, epoll, Views());
      ToldOne(Slots(), epoll, Views(), w);
      queue := queue[1..];
      assert w.pevents != {} && 0 <= w.fd < nwatchers;
      var op := if w.events == {} then AddFd else ModFd;
      var err := EpollCtl(op, w.fd, w.pevents);
      if err != 0 {
        if err != EEXIST { return true; }
        assert op == AddFd;
        err := EpollCtl(ModFd, w.fd, w.pevents);
        if err != 0 { return true; }
      }
      SetKnown(w, w.pevents);
      aborted := false;
    }

    /** The kernel only watches descriptors that are in the table. */
    ghost predicate Covered()
      reads this`epoll, this`nwatchers
    {
      forall fd :: fd in epoll ==> 0 <= fd < nwatchers
    }

    /** Any one call. */
    method Do(op: Op)
      requires Valid() && Covered() && Tail() == (Null, Null) && Known(ios, op) && OnePerFd(ios)
      requires forall w :: w in ios ==> 0 <= w.fd <= MaxFd
      modifies this, watchers, ios
      ensures Valid() && Covered() && Tail() == (Null, Null) && (watchers == old(watchers) || fresh(watchers))
      ensures old(Views()).Keys == ios && Spec(Views(), epoll) == Apply(Spec(old(Views()), old(epoll)), op)
    {
      hide TableOk, QueueOk, Used, Told, Views, Slots;
      ViewAll();
      SlotAt();
      OthersAlone(op);
      match op {
        case StartOp(w, e) => var ok := IoStart(w, e);
        case StopOp(w, e) => IoStop(w, e);
        case CloseOp(w) =>
          if watchers != null {
            IoClose(w);
          } else {
            NeverStarted(Slots(), queue, epoll, Views(), w);
            assert Stopped(Views(), w, AllEvs) == Views() && epoll - {w.fd} == epoll;
          }
        case PollOp =>
          ToldKeys(Slots(), epoll, Views());
          var aborted := Drain();
        case StrayOp(fd) =>
          SlotWanted(Slots(), Views(), fd);
          if watchers != null && fd < nwatchers && watchers[fd].Null? {
            Disarm(fd);
          } else {
            assert fd !in Fds(Views()) ==> epoll - {fd} == epoll;
          }
      }
    }

    lemma OthersAlone(op: Op)
      requires Known(ios, op) && OnePerFd(ios)
      ensures op.StartOp? || op.StopOp? || op.CloseOp? ==> Alone(op.w, Views())
    {}

    lemma CountAll()
      requires Valid() && forall w :: w in ios ==> w.fd < INT_MAX
      ensures nfds == |Wanters(Views(), INT_MAX)|
    {
      var slots, m := Slots(), Views();
      UsedCount(slots, m, |slots|);
      assert slots[..|slots|] == slots;
      assert Wanters(m, |slots|) == Wanters(m, INT_MAX);
    }

    lemma ViewAll()
      ensures Views().Keys == ios && forall w :: w in ios ==> Views()[w] == View(w.fd, w.events, w.pevents)
    {}

    lemma SlotAt()
      requires Sized()
      ensures |Slots()| == nwatchers && forall i :: 0 <= i < nwatchers ==> watchers != null && watchers[i] == Slots()[i]
    {}

    lemma SameView(w: Io)
      ensures w in Views() <==> w in ios
      ensures w in ios ==> Views()[w] == View(w.fd, w.events, w.pevents)
    {}

    method SetWanted(w: Io, pevents: set<Event>)
      requires w in ios && w in Views()
      modifies w`pevents
      ensures w.pevents == pevents && Views() == Wanting(old(Views()), w, pevents)
    {
      w.pevents := pevents;
    }

    method SetKnown(w: Io, events: set<Event>)
      requires w in ios && w in Views()
      modifies w`events
      ensures w.events == events && Views() == Knowing(old(Views()), w, events)
    {
      w.events := events;
    }

    /** The slot of a watcher is cleared. */
    method Forget(w: Io)
      requires Sized() && w in ios && w in Views() && 0 <= w.fd < nwatchers && !Slots()[w.fd].Null? && nfds == Used(Slots())
      modifies this`nfds, watchers, w`events
      ensures Sized() && Tail() == old(Tail()) && Slots() == old(Slots())[w.fd := Null] && nfds == Used(Slots())
      ensures w.events == {} && Views() == Knowing(old(Views()), w, {})
    {
      hide Used, Views, Tail, Slots;
      SlotAt();
      UsedUpdate(Slots(), w.fd, Null);
      Put(w.fd, Null);
      nfds := nfds - 1;
      SetKnown(w, {});
    }

    /** An assignment to a slot of the table. */
    method Put(fd: nat, x: Slot)
      requires Sized() && fd < nwatchers
      modifies watchers
      ensures Sized() && Slots() == old(Slots())[fd := x] && Tail() == old(Tail())
    {
      watchers[fd] := x;
    }
  }

  /** The views after a watcher's wanted events were set. */
  ghost function Wanting(m: Views, w: Io, pevents: set<Event>): Views
    requires w in m
  {
    m[w := m[w].(pevents := pevents)]
  }

  lemma StartedTable(s0: seq<Slot>, s1: seq<Slot>, m: Views, w: Io, pevents: set<Event>)
    requires TableOk(s0, m) && Alone(w, m) && pevents != {} && 0 <= m[w].fd < |s1|
    requires |s0| <= |s1| && s1[..|s0|] == s0 && forall i :: |s0| <= i < |s1| ==> s1[i].Null?
    ensures s1[m[w].fd].Null? ==> TableOk(s1[m[w].fd := W(w)], Wanting(m, w, pevents))
    ensures s1[m[w].fd].Null? <==> m[w].pevents == {}
    ensures !s1[m[w].fd].Null? ==> TableOk(s1, Wanting(m, w, pevents))
  {
    var fd := m[w].fd;
    assert forall i :: 0 <= i < |s0| ==> s1[i] == s0[i];
    assert fd < |s0| ==> SlotOk(s0[fd], fd, m);
    var m' := Wanting(m, w, pevents);
    forall i | 0 <= i < |s1| ensures SlotOk(s1[i], i, m') { assert i < |s0| ==> SlotOk(s0[i], i, m); }
  }

  lemma StartedQueue(queue: seq<Io>, epoll: map<int, set<Event>>, m: Views, w: Io, pevents: set<Event>)
    requires QueueOk(queue, epoll, m) && w in m && pevents != {} && m[w].pevents <= pevents
    ensures m[w].events == pevents ==> QueueOk(queue, epoll, Wanting(m, w, pevents))
    ensures QueueOk(if w in queue then queue else queue + [w], epoll, Wanting(m, w, pevents))
    ensures m[w].events == {} || m[w].pevents != {}
  {
    assert WatcherOk(m[w], w in queue, epoll);
    var q := if w in queue then queue else queue + [w];
    var m' := Wanting(m, w, pevents);
    if w !in queue { NoDupAppend(queue, w); }
    forall x | x in m' ensures WatcherOk(m'[x], x in q, epoll) {
      assert WatcherOk(m[x], x in queue, epoll);
      assert x != w ==> (x in q <==> x in queue);
    }
    if m[w].events == pevents {
      forall x | x in m' ensures WatcherOk(m'[x], x in queue, epoll) { assert WatcherOk(m[x], x in queue, epoll); }
    }
  }

  /** The views after the kernel was told a watcher's events. */
  ghost function Knowing(m: Views, w: Io, events: set<Event>): Views
    requires w in m
  {
    m[w := m[w].(events := events)]
  }

  /** The views after uv__io_stop: a watcher that wants nothing any more is forgotten. */
  ghost function Stopped(m: Views, w: Io, events: set<Event>): Views
    requires w in m
  {
    var rest := m[w].pevents - events;
    m[w := m[w].(pevents := rest, events := if rest == {} then {} else m[w].events)]
  }

  lemma NeverStarted(slots: seq<Slot>, queue: seq<Io>, epoll: map<int, set<Event>>, m: Views, w: Io)
    requires TableOk(slots, m) && QueueOk(queue, epoll, m) && w in m
    ensures m[w].fd < 0 || m[w].fd >= |slots| ==> m[w].pevents == {} && m[w].events == {} && w !in queue
    ensures m[w].pevents == {} ==> m[w].events == {}
  {
    assert WatcherOk(m[w], w in queue, epoll);
  }

  lemma StoppedTable(slots: seq<Slot>, m: Views, w: Io, events: set<Event>)
    requires TableOk(slots, m) && Alone(w, m) && 0 <= m[w].fd < |slots|
    ensures var fd, m' := m[w].fd, Stopped(m, w, events);
            && (!slots[fd].Null? <==> m[w].pevents != {})
            && (m'[w].pevents == {} ==> TableOk(slots[fd := Null], m'))
            && (m'[w].pevents != {} || slots[fd].Null? ==> TableOk(slots, m'))
  {
    var fd, m' := m[w].fd, Stopped(m, w, events);
    assert SlotOk(slots[fd], fd, m);
    forall i | 0 <= i < |slots| ensures i != fd || m'[w].pevents != {} || slots[fd].Null? ==> SlotOk(slots[i], i, m') {
      assert SlotOk(slots[i], i, m);
    }
  }

  lemma StoppedQueue(queue: seq<Io>, epoll: map<int, set<Event>>, m: Views, w: Io, events: set<Event>)
    requires QueueOk(queue, epoll, m) && w in m
    ensures var m' := Stopped(m, w, events);
            && (m'[w].pevents == {} ==> QueueOk(Drop(queue, w), epoll, m'))
            && (m'[w].pevents != {} ==> QueueOk(if w in queue then queue else queue + [w], epoll, m'))
    ensures NoDup(queue) && Set(Drop(queue, w)) == Set(queue) - {w}
  {
    DropElems(queue, w);
    assert WatcherOk(m[w], w in queue, epoll);
    var m' := Stopped(m, w, events);
    if m'[w].pevents == {} {
      var q := Drop(queue, w);
      forall i | 0 <= i < |q| ensures q[i] in m' { assert q[i] in Set(q); }
      forall x | x in m' ensures WatcherOk(m'[x], x in q, epoll) {
        assert WatcherOk(m[x], x in queue, epoll);
        assert x in q <==> x in Set(q);
        assert x in queue <==> x in Set(queue);
      }
    } else {
      var q := if w in queue then queue else queue + [w];
      if w !in queue { NoDupAppend(queue, w); }
      forall x | x in m' ensures WatcherOk(m'[x], x in q, epoll) {
        assert WatcherOk(m[x], x in queue, epoll);
        assert x != w ==> (x in q <==> x in queue);
      }
    }
  }

  lemma AllEvents(s: set<Event>)
    ensures s - {In, Out, RdHup} == {}
  {
    forall e | e in s ensures e in {In, Out, RdHup} { match e case In => case Out => case RdHup => }
  }

  lemma DeletedQueue(queue: seq<Io>, epoll: map<int, set<Event>>, m: Views, fd: int)
    requires QueueOk(queue, epoll, m) && forall x :: x in m && m[x].fd == fd ==> m[x].events == {}
    ensures QueueOk(queue, epoll - {fd}, m)
  {
    forall x | x in m ensures WatcherOk(m[x], x in queue, epoll - {fd}) { assert WatcherOk(m[x], x in queue, epoll); }
  }

  lemma ClosedQueue(queue: seq<Io>, epoll: map<int, set<Event>>, m0: Views, w: Io)
    requires Alone(w, m0) && m0[w].pevents - {In, Out, RdHup} == {}
    requires var m := Stopped(m0, w, {In, Out, RdHup}); QueueOk(queue, epoll, m)
    ensures QueueOk(queue, epoll - {m0[w].fd}, Stopped(m0, w, {In, Out, RdHup})) && w !in queue
  {
    var m := Stopped(m0, w, {In, Out, RdHup});
    assert WatcherOk(m[w], w in queue, epoll);
    forall x | x in m && m[x].fd == m0[w].fd ensures m[x].events == {} {
      assert WatcherOk(m[x], x in queue, epoll);
    }
    DeletedQueue(queue, epoll, m, m0[w].fd);
  }

  lemma UnwatchedQueue(slots: seq<Slot>, queue: seq<Io>, epoll: map<int, set<Event>>, m: Views, fd: nat)
    requires TableOk(slots, m) && QueueOk(queue, epoll, m) && fd < |slots| && slots[fd].Null?
    ensures QueueOk(queue, epoll - {fd}, m)
  {
    forall x | x in m && m[x].fd == fd ensures m[x].events == {} {
      assert WatcherOk(m[x], x in queue, epoll);
    }
    DeletedQueue(queue, epoll, m, fd);
  }

  /** The views once the kernel was told everything. */
  ghost function Informed(m: Views): Views {
    map w | w in m :: m[w].(events := m[w].pevents)
  }

  ghost function Fds(m: Views): set<int> { set w | w in m && m[w].pevents != {} :: m[w].fd }

  /** The events that are wanted of a descriptor. */
  ghost function WantedOf(m: Views, fd: int): set<Event> {
    set w, e | w in m && m[w].fd == fd && e in m[w].pevents :: e
  }

  /** The kernel's set once it was told everything: what is wanted, and stale entries besides. */
  ghost function Told(m: Views, epoll: map<int, set<Event>>): map<int, set<Event>> {
    map fd | fd in epoll.Keys + Fds(m) :: if fd in Fds(m) then WantedOf(m, fd) else epoll[fd]
  }

  lemma WantedOfOne(slots: seq<Slot>, m: Views, w: Io)
    requires TableOk(slots, m) && w in m && m[w].pevents != {}
    ensures m[w].fd in Fds(m) && WantedOf(m, m[w].fd) == m[w].pevents
  {
    forall x | x in m && m[x].fd == m[w].fd && m[x].pevents != {} ensures x == w {
      assert slots[m[x].fd] == W(x);
    }
  }

  lemma SameWanted(m: Views, m': Views)
    requires m.Keys == m'.Keys && forall w :: w in m ==> m[w].fd == m'[w].fd && m[w].pevents == m'[w].pevents
    ensures Fds(m) <= Fds(m') && forall fd :: WantedOf(m, fd) <= WantedOf(m', fd)
  {
    forall fd | fd in Fds(m) ensures fd in Fds(m') {
      var w :| w in m && m[w].pevents != {} && m[w].fd == fd;
      assert m'[w].pevents != {} && m'[w].fd == fd;
    }
    forall fd, e | e in WantedOf(m, fd) ensures e in WantedOf(m', fd) {
      var w :| w in m && m[w].fd == fd && e in m[w].pevents;
      assert m'[w].fd == fd && e in m'[w].pevents;
    }
  }

  lemma ToldOne(slots: seq<Slot>, epoll: map<int, set<Event>>, m: Views, w: Io)
    requires TableOk(slots, m) && w in m && m[w].pevents != {}
    ensures Told(Knowing(m, w, m[w].pevents), epoll[m[w].fd := m[w].pevents]) == Told(m, epoll)
    ensures Informed(Knowing(m, w, m[w].pevents)) == Informed(m)
  {
    hide TableOk, Told, WantedOf;
    WantedOfOne(slots, m, w);
    var m' := Knowing(m, w, m[w].pevents);
    SameWanted(m, m');
    SameWanted(m', m);
    ToldSame(m, m', epoll, m[w].fd, m[w].pevents);
    assert Informed(m') == Informed(m);
  }

  lemma ToldSame(m: Views, m': Views, epoll: map<int, set<Event>>, fd: int, x: set<Event>)
    requires Fds(m') == Fds(m) && fd in Fds(m) && forall f :: WantedOf(m', f) == WantedOf(m, f)
    ensures Told(m', epoll[fd := x]) == Told(m, epoll)
  {
    hide WantedOf, Fds;
  }

  lemma AllTold(slots: seq<Slot>, epoll: map<int, set<Event>>, m: Views)
    requires TableOk(slots, m)
    requires forall w :: w in m ==> m[w].events == m[w].pevents
    requires forall w :: w in m && m[w].pevents != {} ==> m[w].fd in epoll && epoll[m[w].fd] == m[w].pevents
    ensures Told(m, epoll) == epoll && Informed(m) == m
  {
    forall fd | fd in Fds(m) ensures fd in epoll && WantedOf(m, fd) == epoll[fd] {
      var w :| w in m && m[w].pevents != {} && m[w].fd == fd;
      WantedOfOne(slots, m, w);
    }
  }

  lemma ToldKeys(slots: seq<Slot>, epoll: map<int, set<Event>>, m: Views)
    requires TableOk(slots, m)
    ensures forall fd :: fd in Told(m, epoll) ==> fd in epoll || 0 <= fd < |slots|
  {}

  lemma SlotWanted(slots: seq<Slot>, m: Views, fd: nat)
    requires TableOk(slots, m)
    ensures fd < |slots| ==> (slots[fd].Null? <==> fd !in Fds(m))
    ensures fd >= |slots| ==> fd !in Fds(m)
  {
    if fd < |slots| { assert SlotOk(slots[fd], fd, m); }
  }

  lemma NothingQueued(slots: seq<Slot>, queue: seq<Io>, epoll: map<int, set<Event>>, m: Views)
    requires TableOk(slots, m) && QueueOk(queue, epoll, m) && Used(slots) == 0
    ensures queue == []
  {
    if queue != [] {
      var w := queue[0];
      assert WatcherOk(m[w], w in queue, epoll);
      UsedZero(slots, m[w].fd);
      assert false;
    }
  }

  lemma QueuedWatcher(slots: seq<Slot>, queue: seq<Io>, epoll: map<int, set<Event>>, m: Views)
    requires TableOk(slots, m) && QueueOk(queue, epoll, m) && queue != []
    ensures var w := queue[0];
            w in m && m[w].pevents != {} && 0 <= m[w].fd < |slots| && (m[w].events != {} ==> m[w].fd in epoll)
  {
    var w := queue[0];
    assert WatcherOk(m[w], w in queue, epoll);
  }

  lemma DrainStep(slots: seq<Slot>, queue: seq<Io>, epoll: map<int, set<Event>>, m: Views)
    requires TableOk(slots, m) && QueueOk(queue, epoll, m) && queue != []
    ensures queue[0] in m
    ensures var w := queue[0];
            var m' := Knowing(m, w, m[w].pevents);
            QueueOk(queue[1..], epoll[m[w].fd := m[w].pevents], m') && TableOk(slots, m')
  {
    var w := queue[0];
    var m' := Knowing(m, w, m[w].pevents);
    var epoll' := epoll[m[w].fd := m[w].pevents];
    QueuedWatcher(slots, queue, epoll, m);
    NoDupTail(queue);
    forall x | x in m' ensures WatcherOk(m'[x], x in queue[1..], epoll') {
      assert WatcherOk(m[x], x in queue, epoll);
      assert x != w && m[x].events != {} ==> m[x].pevents != {} && m[x].fd != m[w].fd;
    }
    forall i | 0 <= i < |slots| ensures SlotOk(slots[i], i, m') { assert SlotOk(slots[i], i, m); }
  }

  lemma Drained(epoll: map<int, set<Event>>, m: Views)
    requires QueueOk([], epoll, m)
    ensures forall w :: w in m ==> m[w].events == m[w].pevents
    ensures forall w :: w in m && m[w].pevents != {} ==> m[w].fd in epoll && epoll[m[w].fd] == m[w].pevents
  {
    assert forall w :: w in m ==> WatcherOk(m[w], false, epoll);
  }

  // ---------------------------------------------------------------- whole runs

  datatype Op =
    | StartOp(w: Io, events: set<Event>)
    | StopOp(w: Io, events: set<Event>)
    | CloseOp(w: Io)
    | PollOp
    | StrayOp(fd: nat)

  const AllEvs: set<Event> := {In, Out, RdHup}

  /** What the calls amount to, without table, queue or count. */
  datatype Spec = Spec(m: Views, epoll: map<int, set<Event>>)

  ghost predicate Known(ios: set<Io>, op: Op) {
    (op.StartOp? || op.StopOp? || op.CloseOp? ==> op.w in ios) && (op.StartOp? ==> op.events != {})
  }

  ghost function Apply(s: Spec, op: Op): Spec
    requires Known(s.m.Keys, op)
  {
    match op
    case StartOp(w, e) => s.(m := Wanting(s.m, w, s.m[w].pevents + e))
    case StopOp(w, e) => s.(m := Stopped(s.m, w, e))
    case CloseOp(w) => Spec(Stopped(s.m, w, AllEvs), s.epoll - {s.m[w].fd})
    case PollOp => Spec(Informed(s.m), Told(s.m, s.epoll))
    case StrayOp(fd) => if fd in Fds(s.m) then s else s.(epoll := s.epoll - {fd})
  }

  ghost predicate AllKnown(ios: set<Io>, ops: seq<Op>) { forall i :: 0 <= i < |ops| ==> Known(ios, ops[i]) }

  ghost function After(ios: set<Io>, ops: seq<Op>): (s: Spec)
    requires AllKnown(ios, ops)
    ensures s.m.Keys == ios && forall w :: w in ios ==> s.m[w].fd == w.fd
    decreases |ops|
  {
    if ops == [] then Spec(map w | w in ios :: View(w.fd, {}, {}), map[])
    else Apply(After(ios, ops[..|ops| - 1]), ops[|ops| - 1])
  }

  ghost predicate OnePerFd(ios: set<Io>) {
    forall w, x :: w in ios && x in ios && w.fd == x.fd ==> w == x
  }

  /** Right after a poll the kernel watches every registered descriptor for exactly the wanted events. */
  lemma PollAgrees(ios: set<Io>, ops: seq<Op>, w: Io)
    requires AllKnown(ios, ops + [PollOp]) && OnePerFd(ios) && w in ios
    ensures var s := After(ios, ops + [PollOp]);
            s.m[w].events == s.m[w].pevents
            && (s.m[w].pevents != {} ==> w.fd in s.epoll && s.epoll[w.fd] == s.m[w].pevents)
  {
    var all := ops + [PollOp];
    assert all[..|all| - 1] == ops;
    assert forall i :: 0 <= i < |ops| ==> all[i] == ops[i];
    var m := After(ios, ops).m;
    if m[w].pevents != {} {
      assert w.fd in Fds(m);
      forall x | x in m && m[x].fd == w.fd ensures x == w {}
      assert WantedOf(m, w.fd) == m[w].pevents;
    }
  }

  ghost function Wanters(m: Views, n: int): set<Io> { set w | w in m && m[w].pevents != {} && m[w].fd < n }

  /** The used slots are as many as the watchers that want events. */
  lemma {:induction false} UsedCount(slots: seq<Slot>, m: Views, n: nat)
    requires TableOk(slots, m) && n <= |slots|
    ensures Used(slots[..n]) == |Wanters(m, n)|
    decreases n
  {
    if n == 0 {
      assert Wanters(m, 0) == {};
    } else {
      UsedCount(slots, m, n - 1);
      var s := slots[..n];
      assert s[..n - 1] == slots[..n - 1] && s[n - 1] == slots[n - 1];
      assert SlotOk(slots[n - 1], n - 1, m);
      if slots[n - 1].Null? {
        assert Wanters(m, n) == Wanters(m, n - 1);
      } else {
        var w := slots[n - 1].w;
        assert Wanters(m, n) == Wanters(m, n - 1) + {w};
        assert w !in Wanters(m, n - 1);
      }
    }
  }

  /** Any run of starts, stops, closes, polls and stray events with one watcher per descriptor: the
      fields of the watchers and the kernel's set are those of the specification, and nfds counts the
      watchers that want events. */
  method Run(ios: set<Io>, ops: seq<Op>) returns (l: Loop)
    requires forall w :: w in ios ==> 0 <= w.fd <= MaxFd && w.events == {} && w.pevents == {}
    requires OnePerFd(ios) && AllKnown(ios, ops)
    modifies ios
    ensures l.ios == ios && l.Valid() && Spec(l.Views(), l.epoll) == After(ios, ops)
    ensures l.nfds == |Wanters(After(ios, ops).m, INT_MAX)|
  {
    hide TableOk, QueueOk, Used, Apply;
    l := new Loop(ios);
    l.ViewAll();
    assert l.Views() == After(ios, []).m;
    assert ops[..0] == [];
    for i := 0 to |ops|
      invariant fresh(l) && l.ios == ios && l.Valid() && l.Tail() == (Null, Null) && l.Covered()
      invariant l.watchers == null || fresh(l.watchers)
      invariant Spec(l.Views(), l.epoll) == After(ios, ops[..i])
    {
      assert ops[..i + 1][..i] == ops[..i];
      assert Known(ios, ops[i]);
      l.Do(ops[i]);
    }
    assert ops[..|ops|] == ops;
    l.CountAll();
  }
}
