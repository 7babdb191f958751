/** Timer handles (src/unix/timer.c) over the two queues of src/heap-inl.h. */
module Timers {
  import H = BinaryHeap
  import L = SortedList
  import opened TimerSpec

  // ---------------------------------------------------------------- the build with the heap

  ghost function KeysOf(node: map<Handle, H.Node>): Active {
    map h | h in node :: node[h].key
  }

  /** The nodes `ns` are those of the active handles, one each, with start ids handed out below `c`. */
  ghost predicate Owned(node: map<Handle, H.Node>, ns: set<H.Node>, c: nat) {
    && node.Values == ns
    && (forall g, h :: g in node && h in node && g != h ==> node[g] != node[h])
    && (forall h :: h in node ==> node[h].key.startId < c)
    && DistinctIds(KeysOf(node))
  }

  lemma OwnedRemove(node: map<Handle, H.Node>, ns: set<H.Node>, c: nat, h: Handle)
    requires Owned(node, ns, c) && h in node
    ensures node[h] in ns && Owned(node - {h}, ns - {node[h]}, c) && KeysOf(node - {h}) == KeysOf(node) - {h}
  {
    var m := node - {h};
    assert KeysOf(m) == KeysOf(node) - {h};
    forall n | n in ns - {node[h]} ensures n in m.Values {
      var g :| g in node && node[g] == n;
      assert g in m && m[g] == n;
    }
    forall n | n in m.Values ensures n in ns - {node[h]} {
      var g :| g in m && m[g] == n;
      assert node[g] == n;
    }
    forall f, g | f in KeysOf(m) && g in KeysOf(m) && f != g ensures KeysOf(m)[f].startId != KeysOf(m)[g].startId {
      assert f in KeysOf(node) && g in KeysOf(node);
    }
  }

  lemma OwnedAdd(node: map<Handle, H.Node>, ns: set<H.Node>, c: nat, h: Handle, n: H.Node)
    requires Owned(node, ns, c) && h !in node && n !in ns && n.key.startId == c
    ensures Owned(node[h := n], ns + {n}, c + 1) && KeysOf(node[h := n]) == KeysOf(node)[h := n.key]
  {
    var m := node[h := n];
    assert KeysOf(m) == KeysOf(node)[h := n.key];
    assert m[h] == n;
    forall x | x in ns + {n} ensures x in m.Values {
      if x != n {
        var g :| g in node && node[g] == x;
        assert m[g] == x;
      }
    }
  }

  lemma NodeGone(node: map<Handle, H.Node>, h: Handle)
    requires h in node
    ensures |node - {h}| == |node| - 1 && (node - {h}).Keys <= node.Keys
  {
    assert (node - {h}).Keys == node.Keys - {h};
  }

  lemma NoNode(node: map<Handle, H.Node>, h: Handle)
    requires h !in node
    ensures KeysOf(node) - {h} == KeysOf(node)
  {}

  lemma HeapHas(heap: H.Heap, n: H.Node)
    requires n in H.NodeSet(heap.a)
    ensures n in heap.a
  {}

  lemma NotIn(heap: H.Heap, n: H.Node)
    requires n !in heap.a
    ensures n !in H.NodeSet(heap.a)
  {}

  /** Lines 105-107 of uv_timer_start. */
  method Clamp(time: Msec, timeout: Msec) returns (clamped: Msec)
    ensures clamped == Deadline(time, timeout)
  {
    clamped := (time + timeout) % U64;
    if clamped < timeout {
      clamped := U64 - 1;
    }
  }

  /** As many distinct handles as there can be. */
  lemma {:induction false} Few(hs: set<Handle>, n: nat)
    requires forall h :: h in hs ==> h < n
    ensures |hs| <= n
    decreases n
  {
    if n > 0 {
      var rest := set h | h in hs && h < n - 1;
      Few(rest, n - 1);
      if exists h :: h in hs && h == n - 1 {
        var h :| h in hs && h == n - 1;
        assert hs == rest + {h};
      } else {
        assert hs == rest;
      }
    } else {
      assert hs == {};
    }
  }

  /** There is room for one more in a queue that lacks a handle. */
  lemma RoomFor(hs: set<Handle>, h: Handle)
    requires h !in hs
    ensures |hs| < H.UINT_MAX
  {
    Few(hs + {h}, H.UINT_MAX);
  }

  class HeapTimers {
    var time: Msec
    var counter: nat
    var heap: H.Heap
    /** The heap node embedded in each active handle. */
    var node: map<Handle, H.Node>
    var repeat: map<Handle, Msec>

    ghost predicate Valid()
      reads this, heap, H.NodeSet(heap.a)
    {
      && heap.Valid() && heap.nelts == |node| <= H.UINT_MAX && Owned(node, H.NodeSet(heap.a), counter)
      && node.Keys <= repeat.Keys
    }

    ghost function View(): Active
      reads this`node
    {
      KeysOf(node)
    }

    ghost function S(): Spec
      reads this`time, this`counter, this`node, this`repeat
    {
      Spec(time, counter, View(), repeat)
    }

    constructor ()
      ensures Valid() && S() == Spec(0, 0, map[], map[])
      ensures fresh(heap) && fresh(H.NodeSet(heap.a))
    {
      time, counter, node, repeat := 0, 0, map[], map[];
      heap := new H.Heap();
    }

    static method TakeOut(heap: H.Heap, n: H.Node)
      requires heap.Valid() && heap.nelts <= H.UINT_MAX && n in H.NodeSet(heap.a)
      modifies heap, H.NodeSet(heap.a)
      ensures heap.Valid() && H.NodeSet(heap.a) == old(H.NodeSet(heap.a)) - {n} && heap.nelts == old(heap.nelts) - 1
    {
      hide H.Heap.Valid, H.NodeSet;
      HeapHas(heap, n);
      heap.NotEmpty(n);
      heap.Remove(n);
    }

    /** uv_timer_stop. */
    method StopTimer(h: Handle)
      requires Valid()
      modifies this`node, heap, H.NodeSet(heap.a)
      ensures Valid() && S() == Applied(old(S()), Stop(h))
      ensures H.NodeSet(heap.a) <= old(H.NodeSet(heap.a))
    {
      hide H.Heap.Valid, Owned, H.NodeSet, KeysOf, Valid, Applied;
      StopIs(S(), h);
      if h !in node {
        NoNode(node, h);
        return;
      }
      ValidParts();
      OwnedRemove(node, H.NodeSet(heap.a), counter, h);
      NodeGone(node, h);
      TakeOut(heap, node[h]);
      node := node - {h};
      ValidParts();
    }

    lemma ValidParts()
      ensures Valid() <==> heap.Valid() && heap.nelts == |node| <= H.UINT_MAX && Owned(node, H.NodeSet(heap.a), counter)
                           && node.Keys <= repeat.Keys
    {}

    /** Lines 109-120 of uv_timer_start, for a handle that is not active. */
    method Enqueue(h: Handle, clamped: Msec, rep: Msec)
      requires Valid() && h !in View()
      modifies this`node, this`repeat, this`counter, heap, H.NodeSet(heap.a)
      ensures Valid() && fresh(H.NodeSet(heap.a) - old(H.NodeSet(heap.a)))
      ensures counter == old(counter) + 1 && repeat == old(repeat)[h := rep]
      ensures View() == old(View())[h := H.Key(clamped, old(counter))]
    {
      hide H.Heap.Valid, Owned, H.NodeSet;
      RoomFor(node.Keys, h);
      var n := new H.Node(H.Key(clamped, counter));
      NotIn(heap, n);
      OwnedAdd(node, H.NodeSet(heap.a), counter, h, n);
      heap.Insert(n);
      assert forall x: object :: x in H.NodeSet(heap.a) ==> x != this;
      repeat := repeat[h := rep];
      counter := counter + 1;
      node := node[h := n];
    }

    /** uv_timer_start. */
    method StartTimer(h: Handle, cb: bool, timeout: Msec, rep: Msec) returns (ok: bool)
      requires Valid()
      modifies this`node, this`repeat, this`counter, heap, H.NodeSet(heap.a)
      ensures ok == cb && Valid() && fresh(H.NodeSet(heap.a) - old(H.NodeSet(heap.a)))
      ensures S() == Applied(old(S()), Start(h, cb, timeout, rep))
    {
      hide Valid, KeysOf, Applied, Deadline;
      StartIs(S(), h, cb, timeout, rep);
      if !cb {
        return false;
      }
      if h in node {
        StopIs(S(), h);
        StopTimer(h);
      }
      NodeView(h);
      var clamped := Clamp(time, timeout);
      assert old(View())[h := H.Key(clamped, counter)] == View()[h := H.Key(clamped, counter)];
      Enqueue(h, clamped, rep);
      return true;
    }

    /** uv_timer_again. */
    method AgainTimer(h: Handle) returns (ok: bool)
      requires Valid()
      modifies this`node, this`repeat, this`counter, heap, H.NodeSet(heap.a)
      ensures ok == (h in old(repeat)) && Valid() && fresh(H.NodeSet(heap.a) - old(H.NodeSet(heap.a)))
      ensures S() == Applied(old(S()), Again(h))
    {
      hide Valid, Deadline, KeysOf, Applied;
      AgainIs(S(), h);
      if h !in repeat {
        return false;
      }
      if repeat[h] != 0 {
        ghost var v := View();
        StopIs(S(), h);
        StopTimer(h);
        StartIs(S(), h, true, repeat[h], repeat[h]);
        var r := StartTimer(h, true, repeat[h], repeat[h]);
        assert (v - {h})[h := H.Key(Deadline(time, repeat[h]), old(counter))]
            == v[h := H.Key(Deadline(time, repeat[h]), old(counter))];
        assert repeat == old(repeat);
      }
      return true;
    }

    /** uv_timer_set_repeat, for a handle that has had a callback. */
    method PutRepeat(h: Handle, rep: Msec)
      requires Valid()
      modifies this`repeat
      ensures Valid() && S() == Applied(old(S()), SetRepeat(h, rep))
    {
      if h in repeat { repeat := repeat[h := rep]; }
    }

    method Call(c: Call)
      requires Valid()
      modifies this`node, this`repeat, this`counter, heap, H.NodeSet(heap.a)
      ensures Valid() && S() == Applied(old(S()), c) && fresh(H.NodeSet(heap.a) - old(H.NodeSet(heap.a)))
    {
      hide Valid, Applied;
      match c {
        case Start(h, cb, timeout, rep) => var r := StartTimer(h, cb, timeout, rep);
        case Stop(h) => StopTimer(h);
        case Again(h) => var r := AgainTimer(h);
        case SetRepeat(h, rep) => PutRepeat(h, rep);
      }
    }

    /** The calls that a callback makes. */
    method Calls(cs: seq<Call>)
      requires Valid()
      modifies this`node, this`repeat, this`counter, heap, H.NodeSet(heap.a)
      ensures Valid() && S() == AppliedAll(old(S()), cs) && fresh(H.NodeSet(heap.a) - old(H.NodeSet(heap.a)))
    {
      hide Valid, Applied;
      for i := 0 to |cs|
        invariant Valid() && S() == AppliedAll(old(S()), cs[..i]) && fresh(H.NodeSet(heap.a) - old(H.NodeSet(heap.a)))
      {
        assert cs[..i + 1][..i] == cs[..i];
        Call(cs[i]);
      }
      assert cs[..|cs|] == cs;
    }

    /** uv__run_timers, with callbacks that start, stop and restart any timers. */
    method Run(script: seq<seq<Call>>) returns (fired: seq<Handle>)
      requires Valid() && time < U64 - 1
      modifies this`node, this`repeat, this`counter, heap, H.NodeSet(heap.a)
      ensures Valid() && SpecOk(old(S())) && (fired, S()) == Fired(old(S()), script, 0)
      ensures fresh(H.NodeSet(heap.a) - old(H.NodeSet(heap.a)))
    {
      hide Valid, Applied, Fired, IsFirst, Round, Due, View, FirstIsDue;
      SpecIsOk();
      ghost var s0 := S();
      fired := [];
      while true
        invariant Valid() && time == old(time) && fresh(H.NodeSet(heap.a) - old(H.NodeSet(heap.a))) && SpecOk(S())
        invariant fired + Fired(S(), script, |fired|).0 == Fired(s0, script, 0).0
        invariant Fired(S(), script, |fired|).1 == Fired(s0, script, 0).1
        decreases if |fired| < |script| then |script| - |fired| else 0, |Due(S().active, S().time)|
      {
        var found, h := First();
        TimeoutAt(h);
        if !found || TimeoutOf(h) > time {
          NotDue(S(), h, found);
          FiredEnd(S(), script, |fired|);
          assert fired + [] == fired;
          return;
        }
        ghost var s := S();
        DueFirst(s, h);
        FiredStep(s, script, |fired|, h);
        StopTimer(h);
        var r := AgainTimer(h);
        Calls(Nth(script, |fired|));
        RoundIs(s, h, Nth(script, |fired|));
        fired := fired + [h];
      }
    }

    lemma NodeView(h: Handle)
      ensures h in node <==> h in View()
    {}

    lemma SpecIsOk()
      requires Valid()
      ensures SpecOk(S())
    {}

    lemma TimeoutAt(h: Handle)
      ensures h in View() ==> TimeoutOf(h) == View()[h].timeout
    {}

    function TimeoutOf(h: Handle): nat
      reads this`node
    {
      if h in node then node[h].key.timeout else 0
    }

    method PutTime(now: Msec)
      requires Valid()
      modifies this`time
      ensures Valid() && S() == old(S()).(time := now)
    {
      time := now;
    }

    /** The handle around heap_min, or none. */
    method First() returns (found: bool, h: Handle)
      requires Valid()
      ensures found <==> View() != map[]
      ensures found ==> h in View() && IsFirst(View(), h)
    {
      hide H.Heap.Valid;
      var m := heap.Min();
      if m == null {
        assert node.Values == {};
        return false, 0;
      }
      assert m in H.NodeSet(heap.a);
      h :| h in node && node[h] == m;
      assert h in View();
      forall g | g in View() && g != h ensures H.Less(View()[h], View()[g]) {
        assert node[g] in H.NodeSet(heap.a);
        assert View()[g].startId != View()[h].startId;
      }
      return true, h;
    }

    /** The order in which repeated heap_min and heap_remove hand the timers out. */
    method Drain() returns (q: seq<Handle>)
      requires Valid()
      modifies this`node, heap, H.NodeSet(heap.a)
      ensures IsOrder(q, old(View()))
    {
      hide Valid, H.Less, View, Applied;
      q := [];
      ghost var all := View();
      var found, h := First();
      while found
        invariant Valid() && H.NodeSet(heap.a) <= old(H.NodeSet(heap.a))
        invariant Drained(q, all, View())
        invariant found <==> View() != map[]
        invariant found ==> IsFirst(View(), h)
        decreases |View()|
      {
        DrainStep(q, all, View(), h);
        assert |View() - {h}| < |View()| by { Smaller(View(), h); }
        StopIs(S(), h);
        StopTimer(h);
        q := q + [h];
        found, h := First();
      }
      DrainEnd(q, all, View());
    }
  }

  lemma NotDue(s: Spec, h: Handle, found: bool)
    requires found <==> s.active != map[]
    requires found ==> IsFirst(s.active, h) && s.active[h].timeout > s.time
    ensures forall g :: IsFirst(s.active, g) ==> s.active[g].timeout > s.time
  {
    forall g | IsFirst(s.active, g) ensures s.active[g].timeout > s.time {
      FirstUnique(s.active, g, h);
    }
  }

  lemma DueFirst(s: Spec, h: Handle)
    requires IsFirst(s.active, h) && s.active[h].timeout <= s.time
    ensures FirstIsDue(s, h)
  {}

  lemma RoundIs(s: Spec, h: Handle, cs: seq<Call>)
    ensures Round(s, h, cs) == AppliedAll(Applied(Applied(s, Stop(h)), Again(h)), cs)
  {}

  // ---------------------------------------------------------------- the build with the sorted list

  ghost function Keyed(node: map<Handle, L.Node>, ids: map<Handle, nat>): Active {
    map h | h in node && h in ids :: H.Key(node[h].timeout, ids[h])
  }

  lemma KeyedRemove(node: map<Handle, L.Node>, ids: map<Handle, nat>, h: Handle)
    ensures Keyed(node - {h}, ids - {h}) == Keyed(node, ids) - {h}
  {}

  lemma KeyedAdd(node: map<Handle, L.Node>, ids: map<Handle, nat>, h: Handle, n: L.Node, id: nat)
    ensures Keyed(node[h := n], ids[h := id]) == Keyed(node, ids)[h := H.Key(n.timeout, id)]
  {}

  class ListTimers {
    var time: Msec
    var list: L.List
    var node: map<Handle, L.Node>
    var repeat: map<Handle, Msec>
    /** The start ids this build does not keep, and the handles in list order. */
    ghost var ids: map<Handle, nat>
    ghost var counter: nat
    ghost var order: seq<Handle>

    ghost predicate Valid()
      reads this, list, L.NodeSet(list.s)
    {
      && list.Valid() && Listed(node, list.s, order)
      && ids.Keys == node.Keys && (forall h :: h in ids ==> ids[h] < counter)
      && IsOrder(order, Keyed(node, ids)) && node.Keys <= repeat.Keys
    }

    ghost function View(): Active
      reads this`node, this`ids
    {
      Keyed(node, ids)
    }

    ghost function S(): Spec
      reads this`time, this`counter, this`node, this`ids, this`repeat
    {
      Spec(time, counter, View(), repeat)
    }

    constructor ()
      ensures Valid() && S() == Spec(0, 0, map[], map[])
      ensures fresh(list) && fresh(L.NodeSet(list.s))
    {
      time, node, ids, counter, order, repeat := 0, map[], map[], 0, [], map[];
      list := new L.List();
    }

    /** uv_timer_stop. */
    method StopTimer(h: Handle)
      requires Valid()
      modifies this`node, this`ids, this`order, list, L.NodeSet(list.s)
      ensures Valid() && S() == Applied(old(S()), Stop(h))
      ensures L.NodeSet(list.s) <= old(L.NodeSet(list.s))
    {
      hide L.List.Valid, IsOrder, Listed, L.Without, L.NodeSet, Applied;
      StopIs(S(), h);
      KeyedRemove(node, ids, h);
      if h !in node {
        assert node - {h} == node && ids - {h} == ids;
        return;
      }
      ghost var k := PlaceOf(node, list.s, order, View(), h);
      ghost var s := list.s;
      ListedRemove(node, s, order, View(), k);
      RemoveOrder(order, View(), k);
      list.Remove(node[h]);
      assert list.s == L.Without(s, k);
      assert forall x: object :: x in L.NodeSet(list.s) ==> x != this;
      node := node - {h};
      ids := ids - {h};
      order := order[..k] + order[k + 1..];
    }

    /** uv_timer_start. */
    method StartTimer(h: Handle, cb: bool, timeout: Msec, rep: Msec) returns (ok: bool)
      requires Valid()
      modifies this`node, this`ids, this`order, this`counter, this`repeat, list, L.NodeSet(list.s)
      ensures ok == cb && Valid() && fresh(L.NodeSet(list.s) - old(L.NodeSet(list.s)))
      ensures S() == Applied(old(S()), Start(h, cb, timeout, rep))
    {
      hide Valid, Applied, Keyed, Deadline;
      StartIs(S(), h, cb, timeout, rep);
      if !cb {
        return false;
      }
      ViewKeys();
      if h in node {
        StopIs(S(), h);
        StopTimer(h);
      }
      var clamped := Clamp(time, timeout);
      assert old(View())[h := H.Key(clamped, counter)] == View()[h := H.Key(clamped, counter)];
      assert h !in node by { assert h !in View(); ViewKeys(); }
      Enqueue(h, clamped, rep);
      return true;
    }

    lemma ViewKeys()
      requires Valid()
      ensures View().Keys == node.Keys
    {}

    method Enqueue(h: Handle, clamped: Msec, rep: Msec)
      requires Valid() && h !in node
      modifies this`node, this`ids, this`order, this`counter, this`repeat, list, L.NodeSet(list.s)
      ensures Valid() && fresh(L.NodeSet(list.s) - old(L.NodeSet(list.s)))
      ensures counter == old(counter) + 1 && repeat == old(repeat)[h := rep]
      ensures View() == old(View())[h := H.Key(clamped, old(counter))]
    {
      hide L.List.Valid, IsOrder, Listed, L.Spliced, L.Slot, Keyed;
      ghost var s, v := list.s, View();
      var n := new L.Node(clamped);
      ghost var i := list.Insert(n);
      assert forall x: object :: x in L.NodeSet(list.s) ==> x != this;
      KeyedAdd(node, ids, h, n, counter);
      PlaceNew(node, ids, s, order, h, n, counter, i);
      order := order[..i] + [h] + order[i..];
      node := node[h := n];
      repeat := repeat[h := rep];
      ids := ids[h := counter];
      counter := counter + 1;
    }

    /** uv_timer_again. */
    method AgainTimer(h: Handle) returns (ok: bool)
      requires Valid()
      modifies this`node, this`ids, this`order, this`counter, this`repeat, list, L.NodeSet(list.s)
      ensures ok == (h in old(repeat)) && Valid() && fresh(L.NodeSet(list.s) - old(L.NodeSet(list.s)))
      ensures S() == Applied(old(S()), Again(h))
    {
      hide Valid, Deadline, Applied;
      AgainIs(S(), h);
      if h !in repeat {
        return false;
      }
      if repeat[h] != 0 {
        ghost var v := View();
        StopIs(S(), h);
        StopTimer(h);
        StartIs(S(), h, true, repeat[h], repeat[h]);
        var r := StartTimer(h, true, repeat[h], repeat[h]);
        assert (v - {h})[h := H.Key(Deadline(time, repeat[h]), old(counter))]
            == v[h := H.Key(Deadline(time, repeat[h]), old(counter))];
        assert repeat == old(repeat);
      }
      return true;
    }

    /** uv_timer_set_repeat, for a handle that has had a callback. */
    method PutRepeat(h: Handle, rep: Msec)
      requires Valid()
      modifies this`repeat
      ensures Valid() && S() == Applied(old(S()), SetRepeat(h, rep))
    {
      if h in repeat { repeat := repeat[h := rep]; }
    }

    method Call(c: Call)
      requires Valid()
      modifies this`node, this`ids, this`order, this`counter, this`repeat, list, L.NodeSet(list.s)
      ensures Valid() && S() == Applied(old(S()), c) && fresh(L.NodeSet(list.s) - old(L.NodeSet(list.s)))
    {
      hide Valid, Applied;
      match c {
        case Start(h, cb, timeout, rep) => var r := StartTimer(h, cb, timeout, rep);
        case Stop(h) => StopTimer(h);
        case Again(h) => var r := AgainTimer(h);
        case SetRepeat(h, rep) => PutRepeat(h, rep);
      }
    }

    /** The calls that a callback makes. */
    method Calls(cs: seq<Call>)
      requires Valid()
      modifies this`node, this`ids, this`order, this`counter, this`repeat, list, L.NodeSet(list.s)
      ensures Valid() && S() == AppliedAll(old(S()), cs) && fresh(L.NodeSet(list.s) - old(L.NodeSet(list.s)))
    {
      hide Valid, Applied;
      for i := 0 to |cs|
        invariant Valid() && S() == AppliedAll(old(S()), cs[..i]) && fresh(L.NodeSet(list.s) - old(L.NodeSet(list.s)))
      {
        assert cs[..i + 1][..i] == cs[..i];
        Call(cs[i]);
      }
      assert cs[..|cs|] == cs;
    }

    /** uv__run_timers, with callbacks that start, stop and restart any timers. */
    method Run(script: seq<seq<Call>>) returns (fired: seq<Handle>)
      requires Valid() && time < U64 - 1
      modifies this`node, this`ids, this`order, this`counter, this`repeat, list, L.NodeSet(list.s)
      ensures Valid() && SpecOk(old(S())) && (fired, S()) == Fired(old(S()), script, 0)
      ensures fresh(L.NodeSet(list.s) - old(L.NodeSet(list.s)))
    {
      hide Valid, Applied, Fired, IsFirst, Round, Due, View, FirstIsDue;
      SpecIsOk();
      ghost var s0 := S();
      fired := [];
      while true
        invariant Valid() && time == old(time) && fresh(L.NodeSet(list.s) - old(L.NodeSet(list.s))) && SpecOk(S())
        invariant fired + Fired(S(), script, |fired|).0 == Fired(s0, script, 0).0
        invariant Fired(S(), script, |fired|).1 == Fired(s0, script, 0).1
        decreases if |fired| < |script| then |script| - |fired| else 0, |Due(S().active, S().time)|
      {
        var found, h := First();
        TimeoutAt(h);
        if !found || TimeoutOf(h) > time {
          NotDue(S(), h, found);
          FiredEnd(S(), script, |fired|);
          assert fired + [] == fired;
          return;
        }
        ghost var s := S();
        DueFirst(s, h);
        FiredStep(s, script, |fired|, h);
        StopTimer(h);
        var r := AgainTimer(h);
        Calls(Nth(script, |fired|));
        RoundIs(s, h, Nth(script, |fired|));
        fired := fired + [h];
      }
    }

    lemma SpecIsOk()
      requires Valid()
      ensures SpecOk(S())
    {}

    lemma TimeoutAt(h: Handle)
      ensures h in View() ==> TimeoutOf(h) == View()[h].timeout
    {}

    function TimeoutOf(h: Handle): nat
      reads this`node
    {
      if h in node then node[h].timeout else 0
    }

    method PutTime(now: Msec)
      requires Valid()
      modifies this`time
      ensures Valid() && S() == old(S()).(time := now)
    {
      time := now;
    }

    /** The order in which heap_min and heap_remove hand the timers out. */
    method Drain() returns (q: seq<Handle>)
      requires Valid()
      modifies this`node, this`ids, this`order, list, L.NodeSet(list.s)
      ensures IsOrder(q, old(View()))
    {
      hide Valid, H.Less, IsOrder, View, Applied;
      q := [];
      ghost var all := View();
      DrainStart(all);
      var found, h := First();
      while found
        invariant Valid() && Drained(q, all, View())
        invariant L.NodeSet(list.s) <= old(L.NodeSet(list.s))
        invariant found <==> View() != map[]
        invariant found ==> IsFirst(View(), h)
        decreases |View()|
      {
        DrainStep(q, all, View(), h);
        assert |View() - {h}| < |View()| by { Smaller(View(), h); }
        StopIs(S(), h);
        StopTimer(h);
        q := q + [h];
        found, h := First();
      }
      DrainEnd(q, all, View());
    }

    lemma ListEmpty()
      requires Valid() && list.min == null
      ensures View() == map[]
    {
      assert list.s == [] && order == [];
      assert forall h :: h in View() ==> h in order;
    }

    /** The handle around heap_min, or none. */
    method First() returns (found: bool, h: Handle)
      requires Valid()
      ensures found <==> View() != map[]
      ensures found ==> h in View() && IsFirst(View(), h)
    {
      hide H.Less;
      if list.min == null {
        ListEmpty();
        return false, 0;
      }
      assert list.min == list.s[0] == node[order[0]];
      assert order[0] in node;
      h :| h in node && node[h] == list.min;
      assert h in View();
      ghost var k :| 0 <= k < |order| && order[k] == h;
      assert list.s[k] == list.s[0];
      assert k == 0;
      forall g | g in View() && g != h ensures H.Less(View()[h], View()[g]) {
        assert g in order;
      }
      found := true;
    }
  }

  lemma PlaceNew(node: map<Handle, L.Node>, ids: map<Handle, nat>, s: seq<L.Node>, order: seq<Handle>,
                 h: Handle, n: L.Node, c: nat, i: nat)
    requires Listed(node, s, order) && h !in node && L.Slot(s, n, i) && ids.Keys == node.Keys
    requires IsOrder(order, Keyed(node, ids)) && forall g :: g in ids ==> ids[g] < c
    ensures i <= |order| && Listed(node[h := n], L.Spliced(s, n, i), order[..i] + [h] + order[i..])
    ensures IsOrder(order[..i] + [h] + order[i..], Keyed(node[h := n], ids[h := c]))
    ensures L.NodeSet(L.Spliced(s, n, i)) <= L.NodeSet(s) + {n}
  {
    hide IsOrder, Listed, L.Slot, L.Spliced, L.NodeSet;
    var v := Keyed(node, ids);
    ListedInsert(node, s, order, v, h, n, i);
    InsertOrder(order, v, h, H.Key(n.timeout, c), i);
    KeyedAdd(node, ids, h, n, c);
  }

  lemma ListedInsert(node: map<Handle, L.Node>, s: seq<L.Node>, order: seq<Handle>, m: Active,
                     h: Handle, n: L.Node, i: nat)
    requires Listed(node, s, order) && h !in node && L.Slot(s, n, i)
    requires IsOrder(order, m) && forall g :: g in m ==> g in node && m[g].timeout == node[g].timeout
    ensures i <= |order| && Listed(node[h := n], L.Spliced(s, n, i), order[..i] + [h] + order[i..])
    ensures forall j :: 0 <= j < i ==> m[order[j]].timeout <= n.timeout
    ensures forall j :: i <= j < |order| ==> n.timeout < m[order[j]].timeout
    ensures L.NodeSet(L.Spliced(s, n, i)) <= L.NodeSet(s) + {n}
  {
    hide H.Less;
    var t, o := L.Spliced(s, n, i), order[..i] + [h] + order[i..];
    forall j | 0 <= j < |t| ensures o[j] in node[h := n] && node[h := n][o[j]] == t[j] {
      if j < i { assert o[j] == order[j]; }
      else if j > i { assert o[j] == order[j - 1]; }
    }
    forall j | 0 <= j < |order| ensures order[j] in m { assert order[j] in order; }
  }

  lemma PlaceOf(node: map<Handle, L.Node>, s: seq<L.Node>, order: seq<Handle>, m: Active, h: Handle) returns (k: nat)
    requires Listed(node, s, order) && IsOrder(order, m) && h in m
    ensures k < |order| && order[k] == h && k < |s| && s[k] == node[h]
  {
    assert h in order;
    k :| 0 <= k < |order| && order[k] == h;
  }

  lemma ListedRemove(node: map<Handle, L.Node>, s: seq<L.Node>, order: seq<Handle>, m: Active, k: nat)
    requires Listed(node, s, order) && IsOrder(order, m) && k < |s|
    ensures Listed(node - {order[k]}, L.Without(s, k), order[..k] + order[k + 1..])
    ensures L.NodeSet(L.Without(s, k)) <= L.NodeSet(s)
  {
    var t, o := L.Without(s, k), order[..k] + order[k + 1..];
    RemoveOrder(order, m, k);
    forall i | 0 <= i < |t| ensures o[i] in node - {order[k]} && node[o[i]] == t[i] {
      assert o[i] in o;
      assert o[i] == order[if i < k then i else i + 1];
    }
  }

  /** Position by position, the list holds the nodes of the handles in `order`. */
  ghost predicate Listed(node: map<Handle, L.Node>, s: seq<L.Node>, order: seq<Handle>) {
    |order| == |s| && forall i :: 0 <= i < |s| ==> order[i] in node && node[order[i]] == s[i]
  }

  // ---------------------------------------------------------------- the two builds agree

  method RunHeap(ops: seq<Op>) returns (fired: seq<seq<Handle>>, q: seq<Handle>)
    ensures fired == FiredBy(ops) && IsOrder(q, After(ops).active)
  {
    hide HeapTimers.Valid, IsOrder, HeapTimers.View, Applied, Fired;
    var t := new HeapTimers();
    fired := [];
    for i := 0 to |ops|
      invariant t.Valid() && fresh(t) && fresh(t.heap) && fresh(H.NodeSet(t.heap.a))
      invariant t.S() == After(ops[..i]) && fired == FiredBy(ops[..i])
    {
      assert ops[..i + 1][..i] == ops[..i];
      match ops[i] {
        case Do(c) => t.Call(c);
        case SetTime(now) => t.PutTime(now);
        case RunTimers(script) =>
          if t.time < U64 - 1 {
            var f := t.Run(script);
            fired := fired + [f];
          }
      }
    }
    assert ops[..|ops|] == ops;
    q := t.Drain();
  }

  method RunList(ops: seq<Op>) returns (fired: seq<seq<Handle>>, q: seq<Handle>)
    ensures fired == FiredBy(ops) && IsOrder(q, After(ops).active)
  {
    hide ListTimers.Valid, IsOrder, ListTimers.View, Applied, Fired;
    var t := new ListTimers();
    fired := [];
    for i := 0 to |ops|
      invariant t.Valid() && fresh(t) && fresh(t.list) && fresh(L.NodeSet(t.list.s))
      invariant t.S() == After(ops[..i]) && fired == FiredBy(ops[..i])
    {
      assert ops[..i + 1][..i] == ops[..i];
      match ops[i] {
        case Do(c) => t.Call(c);
        case SetTime(now) => t.PutTime(now);
        case RunTimers(script) =>
          if t.time < U64 - 1 {
            var f := t.Run(script);
            fired := fired + [f];
          }
      }
    }
    assert ops[..|ops|] == ops;
    q := t.Drain();
  }

  /** Any sequence of timer calls and passes of the loop, with any callbacks, made in both builds: the list
      that compares timeouts alone fires the same timers in the same order, and would hand out the rest in
      the same order, as the heap that also compares start ids. */
  method SameOrder(ops: seq<Op>)
    returns (heapFired: seq<seq<Handle>>, listFired: seq<seq<Handle>>, heapOrder: seq<Handle>, listOrder: seq<Handle>)
    ensures heapFired == listFired == FiredBy(ops)
    ensures heapOrder == listOrder && IsOrder(heapOrder, After(ops).active)
  {
    heapFired, heapOrder := RunHeap(ops);
    listFired, listOrder := RunList(ops);
    OrderUnique(heapOrder, listOrder, After(ops).active);
  }
}
