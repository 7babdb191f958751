/** File system watchers (src/unix/linux-inotify.c): the tree of watcher lists, which is a map here,
    and the walk over a list whose callbacks stop and restart any handles. */
module Inotify {
  import opened Seqs
  import opened Walks

  type Handle = nat

  /** struct watcher_list. */
  datatype List = List(watchers: seq<Handle>, iterating: bool)

  datatype Current = Nothing | At(wd: int)

  /** `wd` holds that field of every active handle; `local` is the list on the stack of
      uv__inotify_read while it walks the list of descriptor `current.wd`; `watches` are the
      kernel's watch descriptors. */
  datatype State = State(lists: map<int, List>, wd: map<Handle, int>, current: Current, local: seq<Handle>,
                         watches: set<int>)

  /** What a start meets with: the result of inotify_add_watch, -1 for an error, and whether malloc succeeds. */
  datatype Luck = Luck(wd: int, memory: bool)

  // ---------------------------------------------------------------- the invariant

  ghost predicate ListOk(s: State, k: int)
    requires k in s.lists
  {
    var l := s.lists[k];
    && NoDup(l.watchers)
    && (forall i :: 0 <= i < |l.watchers| ==> l.watchers[i] in s.wd && s.wd[l.watchers[i]] == k && l.watchers[i] !in s.local)
    && (l.iterating <==> s.current == At(k))
    && (!l.iterating ==> l.watchers != [])
  }

  ghost predicate HandleOk(s: State, h: Handle)
    requires h in s.wd
  {
    var k := s.wd[h];
    k in s.lists && (h in s.lists[k].watchers || (s.current == At(k) && h in s.local))
  }

  ghost predicate WalkOk(s: State) {
    && NoDup(s.local) && (s.current.Nothing? ==> s.local == [])
    && (s.current.At? ==> s.current.wd in s.lists)
    && (forall i :: 0 <= i < |s.local| ==> s.current.At? && s.local[i] in s.wd && s.wd[s.local[i]] == s.current.wd)
  }

  ghost predicate Inv(s: State) {
    && WalkOk(s) && (forall k :: k in s.lists ==> ListOk(s, k)) && (forall h :: h in s.wd ==> HandleOk(s, h))
    && s.lists.Keys <= s.watches
  }

  /** Outside a walk the tree holds a list for a watch descriptor iff an active handle uses it; the list
      being walked is there in any case. */
  lemma TreeIffActive(s: State, k: int)
    requires Inv(s)
    ensures k in s.lists <==> s.current == At(k) || exists h :: h in s.wd && s.wd[h] == k
  {
    if k in s.lists && s.current != At(k) {
      assert ListOk(s, k);
      assert s.lists[k].watchers[0] in s.wd;
    }
    if h :| h in s.wd && s.wd[h] == k {
      assert HandleOk(s, h);
    }
  }

  // ---------------------------------------------------------------- steps

  /** maybe_free_watcher_list. */
  function MaybeFree(s: State, k: int): State
    requires k in s.lists
  {
    if !s.lists[k].iterating && s.lists[k].watchers == [] then
      s.(lists := s.lists - {k}, watches := s.watches - {k})
    else s
  }

  /** uv_fs_event_start. Without memory for a new list the kernel's watch stays behind. */
  function Started(s: State, h: Handle, luck: Luck): State {
    var k := luck.wd;
    if h in s.wd || k == -1 then s
    else if k !in s.lists && !luck.memory then s.(watches := s.watches + {k})
    else
      var l := if k in s.lists then s.lists[k] else List([], false);
      s.(lists := s.lists[k := l.(watchers := l.watchers + [h])], wd := s.wd[h := k], watches := s.watches + {k})
  }

  /** uv_fs_event_stop; the handle leaves whichever list it is linked into. */
  function Stopped(s: State, h: Handle): State {
    if h !in s.wd || s.wd[h] !in s.lists then s
    else
      var k := s.wd[h];
      var l := s.lists[k];
      var lists := s.lists[k := l.(watchers := Drop(l.watchers, h))];
      MaybeFree(State(lists, s.wd - {h}, s.current, Drop(s.local, h), s.watches), k)
  }

  lemma StartedOk(s: State, h: Handle, luck: Luck)
    requires Inv(s)
    ensures Inv(Started(s, h, luck))
  {
    var k := luck.wd;
    var t := Started(s, h, luck);
    if t == s {
    } else if t.lists == s.lists {
      forall j | j in t.lists ensures ListOk(t, j) { assert ListOk(s, j); }
      forall g | g in t.wd ensures HandleOk(t, g) { assert HandleOk(s, g); }
    } else {
      assert h !in s.local;
      if k in s.lists {
        assert ListOk(s, k);
        assert h !in s.lists[k].watchers;
        NoDupAppend(s.lists[k].watchers, h);
      }
      forall j | j in t.lists ensures ListOk(t, j) {
        if j in s.lists { assert ListOk(s, j); }
      }
      forall g | g in t.wd ensures HandleOk(t, g) {
        if g in s.wd { assert HandleOk(s, g); }
      }
    }
  }

  lemma StoppedOk(s: State, h: Handle)
    requires Inv(s)
    ensures Inv(Stopped(s, h)) && (h in s.wd ==> s.wd[h] in s.lists)
  {
    if h in s.wd {
      assert HandleOk(s, h);
      var k := s.wd[h];
      var l := s.lists[k];
      assert ListOk(s, k);
      DropIn(l.watchers, h);
      DropIn(s.local, h);
      var t := State(s.lists[k := l.(watchers := Drop(l.watchers, h))], s.wd - {h}, s.current, Drop(s.local, h), s.watches);
      FreeOk(s, t, h, k);
    }
  }

  /** The state in uv_fs_event_stop before the list is looked at. */
  ghost predicate Unlinked(s: State, t: State, h: Handle, k: int) {
    && k in s.lists && k in t.lists && h in s.wd && s.wd[h] == k
    && t.wd == s.wd - {h} && t.current == s.current && t.watches == s.watches
    && t.lists == s.lists[k := s.lists[k].(watchers := t.lists[k].watchers)]
    && NoDup(t.lists[k].watchers) && (forall x :: x in t.lists[k].watchers <==> x in s.lists[k].watchers && x != h)
    && NoDup(t.local) && (forall x :: x in t.local <==> x in s.local && x != h)
  }

  lemma FreeOk(s: State, t: State, h: Handle, k: int)
    requires Inv(s) && Unlinked(s, t, h, k)
    ensures Inv(MaybeFree(t, k))
  {
    var u := MaybeFree(t, k);
    assert ListOk(s, k);
    UnlinkedWalk(s, t, h, k);
    assert WalkOk(u);
    forall j | j in u.lists ensures ListOk(u, j) {
      assert ListOk(s, j);
      UnlinkedList(s, t, h, k, j);
    }
    forall g | g in u.wd ensures HandleOk(u, g) {
      assert HandleOk(s, g);
    }
  }

  lemma UnlinkedWalk(s: State, t: State, h: Handle, k: int)
    requires WalkOk(s) && Unlinked(s, t, h, k)
    ensures WalkOk(t)
  {
    assert t.local != [] ==> t.local[0] in s.local;
    forall i | 0 <= i < |t.local| ensures t.current.At? && t.local[i] in t.wd && t.wd[t.local[i]] == t.current.wd {
      assert t.local[i] in t.local;
      assert t.local[i] in s.local;
    }
  }

  lemma UnlinkedList(s: State, t: State, h: Handle, k: int, j: int)
    requires Unlinked(s, t, h, k) && j in s.lists && ListOk(s, j)
    ensures var l := t.lists[j];
            && NoDup(l.watchers) && (l.iterating <==> t.current == At(j)) && (j != k && !l.iterating ==> l.watchers != [])
            && forall i :: 0 <= i < |l.watchers| ==>
                 l.watchers[i] in t.wd && t.wd[l.watchers[i]] == j && l.watchers[i] !in t.local
  {
    var l := t.lists[j].watchers;
    forall i | 0 <= i < |l| ensures l[i] in t.wd && t.wd[l[i]] == j && l[i] !in t.local {
      assert l[i] in l;
      assert l[i] in s.lists[j].watchers;
    }
  }

  // ---------------------------------------------------------------- the loop

  type Op = Walks.Op<Handle, Luck>

  ghost function Apply(s: State, op: Op): (r: State)
    ensures |r.local| <= |s.local|
  {
    match op
    case Start(h, luck) => Started(s, h, luck)
    case Stop(h) => Stopped(s, h)
  }

  ghost function ApplyAll(s: State, ops: seq<Op>): (r: State)
    ensures |r.local| <= |s.local|
    decreases |ops|
  {
    if ops == [] then s else Apply(ApplyAll(s, ops[..|ops| - 1]), ops[|ops| - 1])
  }

  /** A callback's steps keep the walk at its list and take from it exactly the handles they stop. */
  lemma {:induction false} ApplyAllLocal(s: State, ops: seq<Op>)
    requires Inv(s)
    ensures var t := ApplyAll(s, ops);
            Inv(t) && t.current == s.current && t.local == Minus(s.local, StopsOf(ops))
    decreases |ops|
  {
    hide Inv;
    if ops != [] {
      var init, last := ops[..|ops| - 1], ops[|ops| - 1];
      ApplyAllLocal(s, init);
      StopsOfInit(ops);
      var t := ApplyAll(s, init);
      LocalActive(t);
      if last.Start? {
        StartedOk(t, last.h, last.arg);
      } else {
        StoppedOk(t, last.h);
        if last.h !in t.wd { DropNone(t.local, last.h); }
      }
    }
  }

  /** The walk begins: the handles are moved to the local list. */
  ghost function Begun(s: State, k: int): State
    requires k in s.lists
  {
    State(s.lists[k := List([], true)], s.wd, At(k), s.lists[k].watchers, s.watches)
  }

  /** The first handle of the local list goes back before its callback runs. */
  ghost function Advanced(s: State, k: int): State
    requires k in s.lists && s.local != []
  {
    s.(lists := s.lists[k := s.lists[k].(watchers := s.lists[k].watchers + [s.local[0]])], local := s.local[1..])
  }

  /** The walk ends. */
  ghost function Ended(s: State, k: int): State
    requires k in s.lists
  {
    MaybeFree(s.(lists := s.lists[k := s.lists[k].(iterating := false)], current := Nothing), k)
  }

  /** The state at the end of the walk over list k, from its n-th call on. */
  ghost function Walked(s: State, k: int, script: seq<seq<Op>>, n: nat): State
    decreases |s.local|
  {
    if k !in s.lists then s
    else if s.local == [] then Ended(s, k)
    else Walked(ApplyAll(Advanced(s, k), Nth(script, n)), k, script, n + 1)
  }

  class Watchers {
    var lists: map<int, List>
    var wd: map<Handle, int>
    var local: seq<Handle>
    var watches: set<int>
    ghost var current: Current

    ghost function S(): State
      reads this
    {
      State(lists, wd, current, local, watches)
    }

    ghost predicate Valid()
      reads this
    {
      Inv(S())
    }

    constructor ()
      ensures Valid() && S() == State(map[], map[], Nothing, [], {})
    {
      lists, wd, local, watches, current := map[], map[], [], {}, Nothing;
    }

    method MaybeFreeList(k: int)
      requires k in lists
      modifies this`lists, this`watches
      ensures S() == MaybeFree(old(S()), k)
    {
      if !lists[k].iterating && lists[k].watchers == [] {
        lists := lists - {k};
        watches := watches - {k};
      }
    }

    /** uv_fs_event_start. */
    method StartHandle(h: Handle, luck: Luck) returns (ok: bool)
      requires Valid()
      modifies this
      ensures Valid() && S() == Started(old(S()), h, luck)
      ensures ok <==> h !in old(wd) && luck.wd != -1 && (luck.memory || luck.wd in old(lists))
      ensures ok ==> wd == old(wd)[h := luck.wd] && luck.wd in lists
                     && lists[luck.wd].watchers == (if luck.wd in old(lists) then old(lists)[luck.wd].watchers else []) + [h]
      ensures !ok ==> wd == old(wd) && lists == old(lists)
    {
      hide Inv;
      StartedOk(S(), h, luck);
      if h in wd { return false; }
      var k := luck.wd;
      if k == -1 { return false; }
      watches := watches + {k};
      if k !in lists {
        if !luck.memory { return false; }
        lists := lists[k := List([], false)];
      }
      lists := lists[k := lists[k].(watchers := lists[k].watchers + [h])];
      wd := wd[h := k];
      assert S().lists == Started(old(S()), h, luck).lists;
      ok := true;
    }

    /** uv_fs_event_stop. */
    method StopHandle(h: Handle)
      requires Valid()
      modifies this
      ensures Valid() && S() == Stopped(old(S()), h) && wd == old(wd) - {h}
    {
      hide Inv;
      StoppedOk(S(), h);
      if h !in wd { return; }
      var k := wd[h];
      assert k in lists;                // the source asserts that the list is found
      wd := wd - {h};
      lists := lists[k := lists[k].(watchers := Drop(lists[k].watchers, h))];
      local := Drop(local, h);
      MaybeFreeList(k);
    }

    /** A callback of a walk makes its calls. */
    method Perform(ops: seq<Op>)
      requires Valid()
      modifies this
      ensures Valid() && current == old(current) && local == Minus(old(local), StopsOf(ops))
      ensures S() == ApplyAll(old(S()), ops)
    {
      hide Inv, Started, Stopped, Minus, StopsOf;
      ApplyAllLocal(S(), ops);
      for i := 0 to |ops|
        invariant Valid() && S() == ApplyAll(old(S()), ops[..i])
      {
        assert ops[..i + 1][..i] == ops[..i];
        Do(ops[i]);
      }
      assert ops[..|ops|] == ops;
    }

    method Do(op: Op)
      requires Valid()
      modifies this
      ensures Valid() && S() == Apply(old(S()), op) && current == old(current)
    {
      hide Inv, Started, Stopped;
      ApplyOneOk(S(), op);
      match op {
        case Start(h, luck) => var ok := StartHandle(h, luck);
        case Stop(h) => StopHandle(h);
      }
    }

    /** One round of the walk up to the callback. */
    method Advance(k: int) returns (h: Handle)
      requires Valid() && current == At(k) && local != []
      modifies this
      ensures Valid() && h == old(local)[0] && k in old(lists) && S() == Advanced(old(S()), k)
    {
      hide Inv;
      AdvanceOk(S());
      h := local[0];
      local := local[1..];
      lists := lists[k := lists[k].(watchers := lists[k].watchers + [h])];
    }

    /** uv__inotify_read for one event: each handle of the list that is not stopped before its turn is
        called once, and the list is freed only after the walk and only if no handle is left on it. */
    method Event(k: int, script: seq<seq<Op>>) returns (calls: seq<Handle>)
      requires Valid() && current.Nothing?
      modifies this
      ensures Valid() && current.Nothing?
      ensures k in old(lists) ==> calls == Calls(old(lists)[k].watchers, Stops(script), 0)
                                  && S() == Walked(Begun(old(S()), k), k, script, 0)
      ensures k !in old(lists) ==> calls == [] && S() == old(S())
    {
      hide Inv, Calls, Stops, Walked, ApplyAll;
      calls := [];
      if k !in lists { return; }
      BeginOk(S(), k);
      current := At(k);
      local := lists[k].watchers;
      lists := lists[k := List([], true)];
      ghost var all, s0 := local, S();
      while local != []
        invariant Valid() && current == At(k)
        invariant calls + Calls(local, Stops(script), |calls|) == Calls(all, Stops(script), 0)
        invariant Walked(S(), k, script, |calls|) == Walked(s0, k, script, 0)
        decreases |local|
      {
        CallsStep(local, Stops(script), |calls|);
        WalkedStep(S(), k, script, |calls|);
        NthStops(script, |calls|);
        var h := Advance(k);
        Perform(Nth(script, |calls|));
        calls := calls + [h];
      }
      CallsStep(local, Stops(script), |calls|);
      WalkedStep(S(), k, script, |calls|);
      EndOk(S(), k);
      lists := lists[k := lists[k].(iterating := false)];
      current := Nothing;
      MaybeFreeList(k);
    }
  }

  lemma CallsStep(walk: seq<Handle>, script: seq<seq<Handle>>, n: nat)
    ensures walk == [] ==> Calls(walk, script, n) == []
    ensures walk != [] ==> Calls(walk, script, n) == [walk[0]] + Calls(Minus(walk[1..], Nth(script, n)), script, n + 1)
  {}

  lemma WalkedStep(s: State, k: int, script: seq<seq<Op>>, n: nat)
    requires Inv(s) && s.current == At(k)
    ensures k in s.lists
    ensures s.local == [] ==> Walked(s, k, script, n) == Ended(s, k)
    ensures s.local != [] ==> Walked(s, k, script, n) == Walked(ApplyAll(Advanced(s, k), Nth(script, n)), k, script, n + 1)
  {}

  lemma LocalActive(s: State)
    requires Inv(s)
    ensures forall h :: h in s.local ==> h in s.wd
    ensures forall h :: h in s.wd ==> s.wd[h] in s.lists
  {
    forall h | h in s.wd ensures s.wd[h] in s.lists { assert HandleOk(s, h); }
  }

  lemma BeginOk(s: State, k: int)
    requires Inv(s) && s.current.Nothing? && k in s.lists
    ensures Inv(Begun(s, k))
  {
    var t := Begun(s, k);
    assert ListOk(s, k);
    forall j | j in t.lists ensures ListOk(t, j) {
      assert ListOk(s, j);
    }
    forall h | h in t.wd ensures HandleOk(t, h) { assert HandleOk(s, h); }
  }

  lemma AdvanceOk(s: State)
    requires Inv(s) && s.current.At? && s.local != []
    ensures s.current.wd in s.lists && Inv(Advanced(s, s.current.wd))
  {
    var k, h := s.current.wd, s.local[0];
    var t := Advanced(s, k);
    NoDupTail(s.local);
    assert ListOk(s, k);
    assert h !in s.lists[k].watchers;
    NoDupAppend(s.lists[k].watchers, h);
    forall j | j in t.lists ensures ListOk(t, j) {
      assert ListOk(s, j);
    }
    forall g | g in t.wd ensures HandleOk(t, g) { assert HandleOk(s, g); }
  }

  lemma EndOk(s: State, k: int)
    requires Inv(s) && s.current == At(k) && s.local == []
    ensures k in s.lists && Inv(Ended(s, k))
  {
    var t := Ended(s, k);
    forall j | j in t.lists ensures ListOk(t, j) { assert ListOk(s, j); }
    forall g | g in t.wd ensures HandleOk(t, g) { assert HandleOk(s, g); }
  }

  // ---------------------------------------------------------------- kernel watches without a list

  function Orphans(s: State): set<int> { s.watches - s.lists.Keys }

  /** Exactly what makes and ends an orphan: a start that finds no memory for a new list leaves its
      watch behind, and a start that gets through to the same descriptor adopts it. */
  lemma OrphansApply(s: State, op: Op)
    requires Inv(s)
    ensures Orphans(Apply(s, op)) ==
              if op.Stop? || op.h in s.wd || op.arg.wd == -1 then Orphans(s)
              else if op.arg.wd !in s.lists && !op.arg.memory then Orphans(s) + {op.arg.wd}
              else Orphans(s) - {op.arg.wd}
  {
    if op.Stop? && op.h in s.wd { assert HandleOk(s, op.h); }
  }

  predicate HasMemory(ops: seq<Op>) { forall i :: 0 <= i < |ops| && ops[i].Start? ==> ops[i].arg.memory }

  lemma {:induction false} OrphansApplyAll(s: State, ops: seq<Op>)
    requires Inv(s) && Orphans(s) == {} && HasMemory(ops)
    ensures Orphans(ApplyAll(s, ops)) == {}
    decreases |ops|
  {
    hide Inv, Apply, Orphans;
    if ops != [] {
      var init, last := ops[..|ops| - 1], ops[|ops| - 1];
      OrphansApplyAll(s, init);
      ApplyAllLocal(s, init);
      OrphansApply(ApplyAll(s, init), last);
    }
  }

  lemma {:induction false} OrphansWalked(s: State, k: int, script: seq<seq<Op>>, n: nat)
    requires Inv(s) && s.current == At(k) && Orphans(s) == {}
    requires forall i :: 0 <= i < |script| ==> HasMemory(script[i])
    ensures Orphans(Walked(s, k, script, n)) == {}
    decreases |s.local|
  {
    hide Inv, ApplyAll;
    WalkedStep(s, k, script, n);
    if s.local != [] {
      AdvanceOk(s);
      var t := Advanced(s, k);
      assert t.lists.Keys == s.lists.Keys;
      ApplyAllLocal(t, Nth(script, n));
      OrphansApplyAll(t, Nth(script, n));
      OrphansWalked(ApplyAll(t, Nth(script, n)), k, script, n + 1);
    } else {
      assert Ended(s, k).lists.Keys == s.lists.Keys - (if k in Ended(s, k).lists then {} else {k});
    }
  }

  // ---------------------------------------------------------------- whole runs

  datatype Act = Call(op: Op) | Deliver(wd: int, script: seq<seq<Op>>)

  ghost function Delivered(s: State, k: int, script: seq<seq<Op>>): State {
    if k in s.lists then Walked(Begun(s, k), k, script, 0) else s
  }

  ghost function CallsFor(s: State, k: int, script: seq<seq<Op>>): seq<Handle> {
    if k in s.lists then Calls(s.lists[k].watchers, Stops(script), 0) else []
  }

  /** The state after a run, and the calls that each delivery in it made. */
  ghost function After(acts: seq<Act>): State {
    if acts == [] then State(map[], map[], Nothing, [], {})
    else
      var s := After(acts[..|acts| - 1]);
      match acts[|acts| - 1]
      case Call(op) => Apply(s, op)
      case Deliver(k, script) => Delivered(s, k, script)
  }

  ghost function CallsMade(acts: seq<Act>): seq<seq<Handle>> {
    if acts == [] then []
    else
      var init, last := acts[..|acts| - 1], acts[|acts| - 1];
      CallsMade(init) + if last.Deliver? then [CallsFor(After(init), last.wd, last.script)] else []
  }

  /** Any run: the lists, the active handles and the calls made are those of the specification, and there
      is a list for exactly the watch descriptors that active handles use. */
  method Run(acts: seq<Act>) returns (w: Watchers, log: seq<seq<Handle>>)
    ensures w.Valid() && w.S() == After(acts) && w.current.Nothing? && log == CallsMade(acts)
    ensures forall k :: k in w.lists <==> exists h :: h in w.wd && w.wd[h] == k
  {
    hide Inv, Apply, Walked, Calls;
    w := new Watchers();
    log := [];
    for i := 0 to |acts|
      invariant fresh(w) && w.Valid() && w.current.Nothing? && w.S() == After(acts[..i]) && log == CallsMade(acts[..i])
    {
      assert acts[..i + 1][..i] == acts[..i];
      match acts[i] {
        case Call(op) => w.Do(op);
        case Deliver(k, script) =>
          var calls := w.Event(k, script);
          log := log + [calls];
      }
    }
    assert acts[..|acts|] == acts;
    forall k ensures k in w.lists <==> exists h :: h in w.wd && w.wd[h] == k { TreeIffActive(w.S(), k); }
  }

  ghost predicate ActHasMemory(a: Act) {
    if a.Call? then HasMemory([a.op]) else forall i :: 0 <= i < |a.script| ==> HasMemory(a.script[i])
  }

  /** Every state between the acts of a run is sound. */
  lemma {:induction false} AfterOk(acts: seq<Act>)
    ensures Inv(After(acts)) && After(acts).current.Nothing?
    decreases |acts|
  {
    hide Inv, Apply, Walked;
    if acts == [] {
      StartOk();
    } else {
      var init, last := acts[..|acts| - 1], acts[|acts| - 1];
      AfterOk(init);
      var s := After(init);
      match last {
        case Call(op) => ApplyOneOk(s, op);
        case Deliver(k, script) =>
          if k in s.lists {
            BeginOk(s, k);
            WalkedOk(Begun(s, k), k, script, 0);
          }
      }
    }
  }

  /** While no start runs out of memory, the kernel watches exactly the descriptors that have a list. */
  lemma {:induction false} NoOrphans(acts: seq<Act>)
    requires forall i :: 0 <= i < |acts| ==> ActHasMemory(acts[i])
    ensures After(acts).watches == After(acts).lists.Keys
    decreases |acts|
  {
    hide Inv, Apply, Walked;
    AfterOk(acts);
    InvWatches(After(acts));
    if acts != [] {
      var init, last := acts[..|acts| - 1], acts[|acts| - 1];
      assert ActHasMemory(last) && forall i :: 0 <= i < |init| ==> init[i] == acts[i];
      NoOrphans(init);
      AfterOk(init);
      var s := After(init);
      if last.Call? {
        assert HasMemory([last.op]) && [last.op][0] == last.op;
        OrphansApply(s, last.op);
        NoneLeft(After(acts));
      } else if last.wd in s.lists {
        BeginOk(s, last.wd);
        assert Orphans(Begun(s, last.wd)) == {};
        OrphansWalked(Begun(s, last.wd), last.wd, last.script, 0);
        NoneLeft(After(acts));
      }
    }
  }

  lemma NoneLeft(s: State)
    requires s.lists.Keys <= s.watches && Orphans(s) == {}
    ensures s.watches == s.lists.Keys
  {
    forall k | k in s.watches ensures k in s.lists.Keys { assert k !in Orphans(s); }
  }

  lemma StartOk()
    ensures Inv(State(map[], map[], Nothing, [], {}))
  {}

  lemma InvWatches(s: State)
    requires Inv(s)
    ensures s.lists.Keys <= s.watches
  {}

  lemma ApplyOneOk(s: State, op: Op)
    requires Inv(s)
    ensures Inv(Apply(s, op)) && Apply(s, op).current == s.current
  {
    hide Inv;
    match op
    case Start(h, luck) => StartedOk(s, h, luck);
    case Stop(h) => StoppedOk(s, h);
  }

  lemma {:induction false} WalkedOk(s: State, k: int, script: seq<seq<Op>>, n: nat)
    requires Inv(s) && s.current == At(k)
    ensures Inv(Walked(s, k, script, n)) && Walked(s, k, script, n).current.Nothing?
    decreases |s.local|
  {
    hide Inv, ApplyAll;
    WalkedStep(s, k, script, n);
    if s.local == [] {
      EndOk(s, k);
    } else {
      AdvanceOk(s);
      ApplyAllLocal(Advanced(s, k), Nth(script, n));
      WalkedOk(ApplyAll(Advanced(s, k), Nth(script, n)), k, script, n + 1);
    }
  }

  /** A start that runs out of memory leaves a kernel watch without a list. */
  lemma OutOfMemoryOrphan()
    ensures var s := After([Call(Start(0, Luck(7, false)))]); s.watches == {7} && s.lists == map[]
  {
    var acts := [Call(Start(0, Luck(7, false)))];
    assert acts[..0] == [];
  }

  // ---------------------------------------------------------------- told by the calls

  /** A start that the kernel gives a watch descriptor. */
  predicate GotThrough(luck: Luck) { luck.wd != -1 }

  lemma OneCall(s: State, op: Op, h: Handle)
    requires Inv(s) && HasMemory([op])
    ensures h in Apply(s, op).wd <==> Begins(op, h, GotThrough) || (!(op.Stop? && op.h == h) && h in s.wd)
  {
    hide Inv, HandleOk, ListOk;
    assert [op][0] == op;
    if op.Stop? { StoppedOk(s, op.h); }
  }

  /** Which handles a callback leaves active, while no start runs out of memory: those that it starts and does not stop
      after that, and those that were active and that it does not stop. */
  lemma {:induction false} ActiveByCalls(s: State, ops: seq<Op>, h: Handle)
    requires Inv(s) && HasMemory(ops)
    ensures h in ApplyAll(s, ops).wd <==> ActiveBy(ops, h, h in s.wd, GotThrough)
    decreases |ops|
  {
    hide Inv, ActiveBy, Apply;
    if ops == [] {
      ActiveByNone<Handle, Luck>(h, h in s.wd, GotThrough);
    } else {
      var init, last := ops[..|ops| - 1], ops[|ops| - 1];
      ActiveByCalls(s, init, h);
      ActiveByLast(ops, h, h in s.wd, GotThrough);
      ApplyAllLocal(s, init);
      assert HasMemory([last]) by { assert ops[|ops| - 1] == last; }
      OneCall(ApplyAll(s, init), last, h);
    }
  }

  lemma {:induction false} ActiveByWalk(s: State, k: int, script: seq<seq<Op>>, n: nat, h: Handle)
    requires Inv(s) && s.current == At(k) && forall i :: 0 <= i < |script| ==> HasMemory(script[i])
    ensures h in Walked(s, k, script, n).wd
        <==> ActiveBy(Made(script, n, |Calls(s.local, Stops(script), n)|), h, h in s.wd, GotThrough)
    decreases |s.local|
  {
    hide Inv, ActiveBy, Calls, ApplyAll, Stops, Walked, HasMemory;
    WalkedStep(s, k, script, n);
    CallsStep(s.local, Stops(script), n);
    NthStops(script, n);
    if s.local == [] {
      ActiveByNone<Handle, Luck>(h, h in s.wd, GotThrough);
    } else {
      var ops := Nth(script, n);
      AdvanceOk(s);
      var t := Advanced(s, k);
      NothingToDo();
      ApplyAllLocal(t, ops);
      ActiveByCalls(t, ops, h);
      var u := ApplyAll(t, ops);
      ActiveByWalk(u, k, script, n + 1, h);
      ActiveByConcat(ops, Made(script, n + 1, |Calls(u.local, Stops(script), n + 1)|), h, h in s.wd, GotThrough);
    }
  }

  lemma NothingToDo()
    ensures HasMemory([])
  {}

  /** All calls of a run, those of the callbacks that ran included, in order. */
  ghost function Executed(acts: seq<Act>): seq<Op> {
    if acts == [] then []
    else
      var init, last := acts[..|acts| - 1], acts[|acts| - 1];
      Executed(init) + match last
                       case Call(op) => [op]
                       case Deliver(k, script) => Made(script, 0, |CallsFor(After(init), k, script)|)
  }

  /** After every run in which no start runs out of memory, a handle is active iff some start of it that got through has no
      stop after it. */
  lemma {:induction false} ActiveIff(acts: seq<Act>, h: Handle)
    requires forall i :: 0 <= i < |acts| ==> ActHasMemory(acts[i])
    ensures h in After(acts).wd <==> ActiveBy(Executed(acts), h, false, GotThrough)
    decreases |acts|
  {
    hide Inv, Apply, ActiveBy, Walked, Calls, Stops;
    if acts == [] {
      ActiveByNone<Handle, Luck>(h, false, GotThrough);
    } else {
      var init, last := acts[..|acts| - 1], acts[|acts| - 1];
      assert ActHasMemory(last) && forall i :: 0 <= i < |init| ==> init[i] == acts[i];
      ActiveIff(init, h);
      AfterOk(init);
      var s := After(init);
      match last {
        case Call(op) =>
          OneCall(s, op, h);
          assert [op][..0] == [];
          ActiveByLast([op], h, h in s.wd, GotThrough);
          ActiveByNone<Handle, Luck>(h, h in s.wd, GotThrough);
          ActiveByConcat(Executed(init), [op], h, false, GotThrough);
        case Deliver(k, script) =>
          ActiveByConcat(Executed(init), Made(script, 0, |CallsFor(s, k, script)|), h, false, GotThrough);
          if k in s.lists {
            BeginOk(s, k);
            ActiveByWalk(Begun(s, k), k, script, 0, h);
          } else {
            ActiveByNone<Handle, Luck>(h, h in s.wd, GotThrough);
          }
      }
    }
  }

  /** An event whose callbacks make no calls is told to all handles of the list, and leaves everything as it was. */
  lemma QuietEvent(s: State, k: int)
    requires Inv(s) && s.current.Nothing? && k in s.lists
    ensures CallsFor(s, k, []) == s.lists[k].watchers && Delivered(s, k, []) == s
  {
    hide Inv, Calls, Stops, Walked, Ended;
    BeginOk(s, k);
    QuietWalk(Begun(s, k), k, 0);
    ListShape(s, k);
    var b, w := Begun(s, k), s.lists[k].watchers;
    assert [] + w == w;
    assert b.lists[k := List(w, true)] == s.lists[k := List(w, true)];
    assert b.(lists := b.lists[k := List(w, true)], local := [])
        == s.(lists := s.lists[k := List(w, true)], current := At(k));
    EndedIs(s, k);
  }

  lemma ListShape(s: State, k: int)
    requires Inv(s) && s.current.Nothing? && k in s.lists
    ensures !s.lists[k].iterating && s.lists[k].watchers != [] && s.local == []
  {
    assert ListOk(s, k);
  }

  lemma EndedIs(s: State, k: int)
    requires k in s.lists && !s.lists[k].iterating && s.lists[k].watchers != [] && s.local == [] && s.current.Nothing?
    ensures Ended(s.(lists := s.lists[k := List(s.lists[k].watchers, true)], current := At(k)), k) == s
  {
    assert s.lists[k := List(s.lists[k].watchers, true)][k := s.lists[k]] == s.lists;
  }

  lemma {:induction false} QuietWalk(s: State, k: int, n: nat)
    requires Inv(s) && s.current == At(k)
    ensures k in s.lists && Calls(s.local, Stops<Handle, Luck>([]), n) == s.local
    ensures var l := s.lists[k];
            Walked(s, k, [], n) == Ended(s.(lists := s.lists[k := l.(watchers := l.watchers + s.local)], local := []), k)
    decreases |s.local|
  {
    hide Inv, Calls, Walked, Stops, Ended, ApplyAll;
    WalkedStep(s, k, [], n);
    CallsStep(s.local, Stops<Handle, Luck>([]), n);
    NthStops<Handle, Luck>([], n);
    var l := s.lists[k];
    if s.local == [] {
      assert l.watchers + s.local == l.watchers;
      assert s.lists[k := l] == s.lists;
    } else {
      AdvanceOk(s);
      var t := Advanced(s, k);
      NoCalls(t);
      QuietWalk(t, k, n + 1);
      assert l.watchers + [s.local[0]] + s.local[1..] == l.watchers + s.local;
      assert t.lists[k := t.lists[k].(watchers := l.watchers + s.local)] == s.lists[k := l.(watchers := l.watchers + s.local)];
    }
  }

  lemma NoCalls(s: State)
    ensures ApplyAll(s, []) == s
  {}
}
