/** What timers do (src/unix/timer.c), without regard to the queue that holds them. */
module TimerSpec {
  import H = BinaryHeap

  /** There are fewer than 2^32 timers. */
  type Handle = h: nat | h < H.UINT_MAX

  const U64 := 0x1_0000_0000_0000_0000

  type Msec = t: nat | t < U64

  /** `loop->time + timeout` in 64 bits, clamped as in uv_timer_start. */
  function Deadline(time: Msec, timeout: Msec): Msec {
    var clamped := (time + timeout) % U64;
    if clamped < timeout then U64 - 1 else clamped
  }

  lemma DeadlineSaturates(time: Msec, timeout: Msec)
    ensures Deadline(time, timeout) == if time + timeout < U64 then time + timeout else U64 - 1
  {
    if time + timeout >= U64 {
      assert (time + timeout) % U64 == time + timeout - U64;
    }
  }

  // ---------------------------------------------------------------- the order timers fall due

  /** The active handles with their (timeout, start id) keys. */
  type Active = map<Handle, H.Key>

  ghost predicate DistinctIds(m: Active) {
    forall g, h :: g in m && h in m && g != h ==> m[g].startId != m[h].startId
  }

  /** `q` lists the active handles, each once, by timeout and then by start order. */
  ghost predicate IsOrder(q: seq<Handle>, m: Active) {
    && (forall h :: h in q <==> h in m)
    && (forall i, j :: 0 <= i < j < |q| ==> H.Less(m[q[i]], m[q[j]]))
  }

  lemma {:induction false} OrderUnique(p: seq<Handle>, q: seq<Handle>, m: Active)
    requires IsOrder(p, m) && IsOrder(q, m)
    ensures p == q
    decreases |p| + |q|, |q|
  {
    if p == [] {
      if q != [] { OrderUnique(q, p, m); }
    } else {
      assert p[0] in m;
      assert q != [] && q[0] in p && p[0] in q;
      assert p[0] == q[0];
      var m' := m - {p[0]};
      TailOrder(p, m);
      TailOrder(q, m);
      OrderUnique(p[1..], q[1..], m');
    }
  }

  lemma TailOrder(q: seq<Handle>, m: Active)
    requires IsOrder(q, m) && q != []
    ensures IsOrder(q[1..], m - {q[0]})
  {
    var t, m' := q[1..], m - {q[0]};
    forall h ensures h in t <==> h in m' {
      if h in m' {
        var i :| 0 <= i < |q| && q[i] == h;
        assert t[i - 1] == h;
      }
      if h in t {
        var i :| 0 <= i < |t| && t[i] == h;
        assert H.Less(m[q[0]], m[q[i + 1]]);
      }
    }
  }

  /** Removing a handle anywhere. */
  lemma RemoveOrder(q: seq<Handle>, m: Active, k: nat)
    requires IsOrder(q, m) && k < |q|
    ensures IsOrder(q[..k] + q[k + 1..], m - {q[k]})
  {
    hide H.Less;
    var t, m' := q[..k] + q[k + 1..], m - {q[k]};
    forall i | 0 <= i < |q| && i != k ensures q[i] != q[k] {
      assert if i < k then H.Less(m[q[i]], m[q[k]]) else H.Less(m[q[k]], m[q[i]]);
      LessIrreflexive(m[q[k]]);
    }
    forall h ensures h in t <==> h in m' {
      if h in m' {
        var i :| 0 <= i < |q| && q[i] == h;
        assert t[if i < k then i else i - 1] == h;
      }
      if h in t {
        var i :| 0 <= i < |t| && t[i] == h;
        assert h == q[if i < k then i else i + 1];
      }
    }
    forall i, j | 0 <= i < j < |t| ensures H.Less(m'[t[i]], m'[t[j]]) {
      assert t[i] == q[if i < k then i else i + 1] && t[j] == q[if j < k then j else j + 1];
    }
  }

  lemma LessIrreflexive(k: H.Key)
    ensures !H.Less(k, k)
  {}

  lemma LessByTimeout(a: H.Key, b: H.Key)
    ensures a.timeout < b.timeout || (a.timeout <= b.timeout && a.startId < b.startId) ==> H.Less(a, b)
  {}

  /** Stable insertion by timeout alone puts the latest start id in its place. */
  lemma InsertOrder(q: seq<Handle>, m: Active, h: Handle, k: H.Key, i: nat)
    requires IsOrder(q, m) && h !in m && i <= |q|
    requires forall g :: g in m ==> m[g].startId < k.startId
    requires forall j :: 0 <= j < i ==> m[q[j]].timeout <= k.timeout
    requires forall j :: i <= j < |q| ==> k.timeout < m[q[j]].timeout
    ensures IsOrder(q[..i] + [h] + q[i..], m[h := k])
  {
    hide H.Less;
    var t, m' := q[..i] + [h] + q[i..], m[h := k];
    InsertedIn(q, h, i);
    forall x, y | 0 <= x < y < |t| ensures H.Less(m'[t[x]], m'[t[y]]) { InsertedPair(q, m, h, k, i, x, y); }
  }

  lemma InsertedPair(q: seq<Handle>, m: Active, h: Handle, k: H.Key, i: nat, x: nat, y: nat)
    requires IsOrder(q, m) && h !in m && i <= |q| && x < y <= |q|
    requires forall g :: g in m ==> m[g].startId < k.startId
    requires forall j :: 0 <= j < i ==> m[q[j]].timeout <= k.timeout
    requires forall j :: i <= j < |q| ==> k.timeout < m[q[j]].timeout
    ensures var t, m' := q[..i] + [h] + q[i..], m[h := k];
            t[x] in m' && t[y] in m' && H.Less(m'[t[x]], m'[t[y]])
  {
    hide H.Less;
    var t := q[..i] + [h] + q[i..];
    if x < i { assert t[x] == q[x] && q[x] in m; } else if x > i { assert t[x] == q[x - 1] && q[x - 1] in m; }
    if y < i { assert t[y] == q[y] && q[y] in m; } else if y > i { assert t[y] == q[y - 1] && q[y - 1] in m; }
    if x == i {
      LessByTimeout(k, m[q[y - 1]]);
    } else if y == i {
      LessByTimeout(m[q[x]], k);
    }
  }

  lemma InsertedIn(q: seq<Handle>, h: Handle, i: nat)
    requires i <= |q|
    ensures forall g :: g in q[..i] + [h] + q[i..] <==> g == h || g in q
  {
    assert q == q[..i] + q[i..];
  }

  // ---------------------------------------------------------------- taking timers out in order

  lemma Smaller(m: Active, h: Handle)
    requires h in m
    ensures |m - {h}| < |m|
  {
    assert (m - {h}).Keys == m.Keys - {h};
  }

  /** `q` has been taken out of `all` in order, and `rest` remains. */
  ghost predicate Drained(q: seq<Handle>, all: Active, rest: Active) {
    && (forall h :: h in all <==> h in q || h in rest)
    && (forall h :: h in q ==> h !in rest)
    && (forall h :: h in rest ==> all[h] == rest[h])
    && (forall i, j :: 0 <= i < j < |q| ==> H.Less(all[q[i]], all[q[j]]))
    && (forall i, h :: 0 <= i < |q| && h in rest ==> H.Less(all[q[i]], all[h]))
  }

  lemma DrainStep(q: seq<Handle>, all: Active, rest: Active, h: Handle)
    requires Drained(q, all, rest) && h in rest
    requires forall g :: g in rest && g != h ==> H.Less(rest[h], rest[g])
    ensures Drained(q + [h], all, rest - {h})
  {
    hide H.Less;
    var p := q + [h];
    forall i, j | 0 <= i < j < |p| ensures H.Less(all[p[i]], all[p[j]]) {
      assert p[i] == q[i];
      if j < |q| { assert p[j] == q[j]; }
    }
    forall i, g | 0 <= i < |p| && g in rest - {h} ensures H.Less(all[p[i]], all[g]) {
      if i < |q| { assert p[i] == q[i]; }
    }
  }

  ghost function Due(m: Active, time: Msec): Active { map h | h in m && m[h].timeout <= time :: m[h] }

  /** The first timer tells whether any is due. */
  lemma FirstDue(m: Active, h: Handle, time: Msec)
    requires h in m && forall g :: g in m && g != h ==> H.Less(m[h], m[g])
    ensures m[h].timeout > time ==> Due(m, time) == map[]
    ensures m[h].timeout <= time ==> h in Due(m, time)
    ensures forall g :: g in Due(m, time) && g != h ==> H.Less(m[h], Due(m, time)[g])
  {}

  /** A timer that fired is no longer due, whether or not it repeats. */
  lemma Refired(w: Active, w': Active, h: Handle, time: Msec, rep: Msec)
    requires h in w && w[h].timeout <= time < U64 - 1 && rep < U64
    requires if rep == 0 then w' == w - {h}
             else h in w' && w' - {h} == w - {h} && w'[h].timeout == Deadline(time, rep)
    ensures Due(w', time) == Due(w, time) - {h} && |Due(w', time)| < |Due(w, time)|
    ensures forall g :: g in w && g != h ==> g in w' && w'[g] == w[g]
    ensures forall g :: g in w' && g != h ==> g in w
  {
    if rep != 0 { DeadlineSaturates(time, rep); }
    forall g | g in w && g != h ensures g in w' && w'[g] == w[g] {
      assert g in w - {h} && (w - {h})[g] == w[g];
      if rep != 0 { assert (w' - {h})[g] == w'[g]; }
    }
    forall g | g in w' && g != h ensures g in w {
      if rep != 0 { assert g in w' - {h}; }
    }
    assert Due(w', time) == Due(w, time) - {h};
    Smaller(Due(w, time), h);
  }

  lemma DrainFresh(q: seq<Handle>, all: Active, rest: Active, h: Handle)
    requires Drained(q, all, rest) && h in rest
    ensures h !in q && h in all && all[h] == rest[h]
  {}

  /** What uv__run_timers has done so far to the timers `v` it found, leaving `w`. */
  ghost predicate RunSoFar(fired: seq<Handle>, v: Active, w: Active, time: Msec, rep: map<Handle, Msec>) {
    Drained(fired, Due(v, time), Due(w, time)) && Kept(fired, v, w, time, rep)
  }

  ghost predicate Kept(fired: seq<Handle>, v: Active, w: Active, time: Msec, rep: map<Handle, Msec>) {
    && (forall h :: h in v ==> h in rep)
    && (forall h :: h in v && h !in fired ==> h in w && w[h] == v[h])
    && (forall h :: h in w && h !in fired ==> h in v)
    && (forall h :: h in fired ==> h in v && if rep[h] == 0 then h !in w
                                             else h in w && w[h].timeout == Deadline(time, rep[h]))
  }

  lemma RunStart(v: Active, time: Msec, rep: map<Handle, Msec>)
    requires forall h :: h in v ==> h in rep && rep[h] < U64
    ensures RunSoFar([], v, v, time, rep)
  {
    DrainStart(Due(v, time));
  }

  lemma NoneDue(m: Active, time: Msec)
    requires m == map[]
    ensures Due(m, time) == map[]
  {}

  lemma RunStep(fired: seq<Handle>, v: Active, w: Active, w': Active, time: Msec, rep: map<Handle, Msec>, h: Handle)
    requires RunSoFar(fired, v, w, time, rep) && h in Due(w, time) && time < U64 - 1
    requires h in rep && forall g :: g in w && g != h ==> H.Less(w[h], w[g])
    requires if rep[h] == 0 then w' == w - {h}
             else h in w' && w' - {h} == w - {h} && w'[h].timeout == Deadline(time, rep[h])
    ensures RunSoFar(fired + [h], v, w', time, rep) && |Due(w', time)| < |Due(w, time)|
  {
    hide Drained, Deadline, H.Less, Kept;
    DrainFresh(fired, Due(v, time), Due(w, time), h);
    DrainStep(fired, Due(v, time), Due(w, time), h);
    Refired(w, w', h, time, rep[h]);
    KeptStep(fired, v, w, w', time, rep, h);
  }

  lemma KeptStep(fired: seq<Handle>, v: Active, w: Active, w': Active, time: Msec, rep: map<Handle, Msec>, h: Handle)
    requires Kept(fired, v, w, time, rep) && h in v && h in rep
    requires if rep[h] == 0 then h !in w' else h in w' && w'[h].timeout == Deadline(time, rep[h])
    requires forall g :: g in w && g != h ==> g in w' && w'[g] == w[g]
    requires forall g :: g in w' && g != h ==> g in w
    ensures Kept(fired + [h], v, w', time, rep)
  {
    hide Deadline;
  }

  lemma RunEnd(fired: seq<Handle>, v: Active, w: Active, time: Msec, rep: map<Handle, Msec>)
    requires RunSoFar(fired, v, w, time, rep) && Due(w, time) == map[]
    ensures IsOrder(fired, Due(v, time))
    ensures forall h :: h in v && h !in fired ==> h in w && w[h] == v[h]
    ensures forall h :: h in w && h !in fired ==> h in v
    ensures forall h :: h in fired ==> h in rep && if rep[h] == 0 then h !in w
                                       else h in w && w[h].timeout == Deadline(time, rep[h])
  {
    DrainEnd(fired, Due(v, time), Due(w, time));
  }

  lemma DrainStart(all: Active)
    ensures Drained([], all, all)
  {}

  lemma DrainEnd(q: seq<Handle>, all: Active, rest: Active)
    requires Drained(q, all, rest) && rest == map[]
    ensures IsOrder(q, all)
  {}

  // ---------------------------------------------------------------- the calls

  /** `repeat` holds that field of every handle that has been given a callback. */
  datatype Spec = Spec(time: Msec, counter: nat, active: Active, repeat: map<Handle, Msec>)

  /** A start with a NULL callback is an error, as is again before any start. */
  datatype Call =
    | Start(h: Handle, cb: bool, timeout: Msec, rep: Msec)
    | Stop(h: Handle)
    | Again(h: Handle)
    | SetRepeat(h: Handle, rep: Msec)

  function Applied(s: Spec, c: Call): Spec {
    match c
    case Start(h, cb, timeout, rep) =>
      if cb then
        Spec(s.time, s.counter + 1, s.active[h := H.Key(Deadline(s.time, timeout), s.counter)], s.repeat[h := rep])
      else s
    case Stop(h) => s.(active := s.active - {h})
    case Again(h) =>
      if h in s.repeat && s.repeat[h] != 0 then
        s.(counter := s.counter + 1, active := s.active[h := H.Key(Deadline(s.time, s.repeat[h]), s.counter)])
      else s
    case SetRepeat(h, rep) => if h in s.repeat then s.(repeat := s.repeat[h := rep]) else s
  }

  lemma StopIs(s: Spec, h: Handle)
    ensures Applied(s, Stop(h)) == s.(active := s.active - {h})
  {}

  lemma StartIs(s: Spec, h: Handle, cb: bool, timeout: Msec, rep: Msec)
    ensures Applied(s, Start(h, cb, timeout, rep)) ==
              if cb then s.(counter := s.counter + 1, repeat := s.repeat[h := rep],
                            active := s.active[h := H.Key(Deadline(s.time, timeout), s.counter)])
              else s
  {}

  lemma AgainIs(s: Spec, h: Handle)
    ensures Applied(s, Again(h)) ==
              if h in s.repeat && s.repeat[h] != 0
              then s.(counter := s.counter + 1,
                      active := s.active[h := H.Key(Deadline(s.time, s.repeat[h]), s.counter)])
              else s
  {}

  function AppliedAll(s: Spec, cs: seq<Call>): (r: Spec)
    decreases |cs|
  {
    if cs == [] then s else Applied(AppliedAll(s, cs[..|cs| - 1]), cs[|cs| - 1])
  }

  /** Active timers have had a callback. */
  ghost predicate SpecOk(s: Spec) { s.active.Keys <= s.repeat.Keys }

  lemma {:induction false} AppliedAllOk(s: Spec, cs: seq<Call>)
    requires SpecOk(s)
    ensures SpecOk(AppliedAll(s, cs)) && AppliedAll(s, cs).time == s.time
    decreases |cs|
  {
    if cs != [] { AppliedAllOk(s, cs[..|cs| - 1]); }
  }

  // ---------------------------------------------------------------- uv__run_timers

  ghost predicate IsFirst(m: Active, h: Handle) {
    h in m && forall g :: g in m && g != h ==> H.Less(m[h], m[g])
  }

  lemma FirstUnique(m: Active, g: Handle, h: Handle)
    requires IsFirst(m, g) && IsFirst(m, h)
    ensures g == h
  {}

  ghost predicate FirstIsDue(s: Spec, h: Handle) { IsFirst(s.active, h) && s.active[h].timeout <= s.time }

  /** What the n-th callback does; callbacks beyond the script leave the timers alone. */
  function Nth(script: seq<seq<Call>>, n: nat): seq<Call> { if n < |script| then script[n] else [] }

  /** One round: the first timer is stopped and, if it repeats, started again; then its callback runs. */
  ghost function Round(s: Spec, h: Handle, cs: seq<Call>): Spec {
    AppliedAll(Applied(Applied(s, Stop(h)), Again(h)), cs)
  }

  lemma RoundOk(s: Spec, h: Handle, cs: seq<Call>)
    requires SpecOk(s) && FirstIsDue(s, h) && s.time < U64 - 1
    ensures SpecOk(Round(s, h, cs)) && Round(s, h, cs).time == s.time
    ensures cs == [] ==> |Due(Round(s, h, cs).active, s.time)| < |Due(s.active, s.time)|
  {
    hide H.Less, Deadline;
    var w, w' := s.active, Applied(Applied(s, Stop(h)), Again(h)).active;
    assert h in s.repeat;
    if s.repeat[h] != 0 { assert w' - {h} == w - {h}; }
    Refired(w, w', h, s.time, s.repeat[h]);
    AppliedAllOk(Applied(Applied(s, Stop(h)), Again(h)), cs);
  }

  /** The timers that uv__run_timers fires from its n-th call on, and what it leaves. */
  ghost function Fired(s: Spec, script: seq<seq<Call>>, n: nat): (r: (seq<Handle>, Spec))
    requires SpecOk(s) && s.time < U64 - 1
    decreases if n < |script| then |script| - n else 0, |Due(s.active, s.time)|
  {
    if exists h :: FirstIsDue(s, h) then
      var h :| FirstIsDue(s, h);
      RoundOk(s, h, Nth(script, n));
      var r := Fired(Round(s, h, Nth(script, n)), script, n + 1);
      ([h] + r.0, r.1)
    else ([], s)
  }

  lemma FiredStep(s: Spec, script: seq<seq<Call>>, n: nat, h: Handle)
    requires SpecOk(s) && s.time < U64 - 1 && FirstIsDue(s, h)
    ensures SpecOk(Round(s, h, Nth(script, n))) && Round(s, h, Nth(script, n)).time == s.time
    ensures var r := Fired(Round(s, h, Nth(script, n)), script, n + 1);
            Fired(s, script, n) == ([h] + r.0, r.1)
    ensures n >= |script| ==> |Due(Round(s, h, Nth(script, n)).active, s.time)| < |Due(s.active, s.time)|
  {
    hide Round, Due;
    RoundOk(s, h, Nth(script, n));
    forall g | FirstIsDue(s, g) ensures g == h { FirstUnique(s.active, g, h); }
  }

  lemma FiredEnd(s: Spec, script: seq<seq<Call>>, n: nat)
    requires SpecOk(s) && s.time < U64 - 1 && forall h :: IsFirst(s.active, h) ==> s.active[h].timeout > s.time
    ensures Fired(s, script, n) == ([], s)
  {
    assert !exists h :: FirstIsDue(s, h);
  }

  /** A repeating timer is due again at once only when the clock cannot advance any more; this is why the
      loop needs a time below 2^64 - 1 to come to an end. */
  lemma DueAgain(time: Msec, rep: Msec)
    requires rep != 0
    ensures Deadline(time, rep) <= time <==> time == U64 - 1
  {
    DeadlineSaturates(time, rep);
  }

  /** Some timer comes first, unless there is none. */
  lemma {:induction false} SomeFirst(m: Active) returns (h: Handle)
    requires m != map[] && DistinctIds(m)
    ensures IsFirst(m, h)
    decreases |m|
  {
    var g :| g in m;
    assert forall f :: f in m && f != g ==> f in m - {g};
    if m - {g} == map[] {
      h := g;
    } else {
      Smaller(m, g);
      var f := SomeFirst(m - {g});
      h := if H.Less(m[f], m[g]) then f else g;
      assert m[f].startId != m[g].startId;
      forall x | x in m && x != h ensures H.Less(m[h], m[x]) {
        if x != f && x != g { assert x in m - {g} && H.Less((m - {g})[f], (m - {g})[x]); }
      }
    }
  }

  /** If callbacks leave the timers alone, exactly the due timers fire, once each, by timeout and then by
      start order, and none is due afterwards; repeating ones are started again and others gone. */
  lemma QuietRun(s: Spec)
    requires SpecOk(s) && s.time < U64 - 1 && DistinctIds(s.active) && StartIdsBelow(s)
    ensures var fired, t := Fired(s, [], 0).0, Fired(s, [], 0).1;
            && IsOrder(fired, Due(s.active, s.time)) && Due(t.active, s.time) == map[]
            && t.time == s.time && t.repeat == s.repeat
            && (forall h :: h in s.active && h !in fired ==> h in t.active && t.active[h] == s.active[h])
            && (forall h :: h in t.active && h !in fired ==> h in s.active)
            && (forall h :: h in fired ==> if s.repeat[h] == 0 then h !in t.active
                                           else h in t.active && t.active[h].timeout == Deadline(s.time, s.repeat[h]))
  {
    hide H.Less, RunSoFar, Deadline, IsOrder, Fired, Due;
    RunStart(s.active, s.time, s.repeat);
    QuietFrom([], s.active, s, 0);
    assert [] + Fired(s, [], 0).0 == Fired(s, [], 0).0;
  }

  ghost predicate StartIdsBelow(s: Spec) { forall h :: h in s.active ==> s.active[h].startId < s.counter }

  lemma {:induction false} QuietFrom(done: seq<Handle>, v: Active, s: Spec, n: nat)
    requires SpecOk(s) && s.time < U64 - 1 && DistinctIds(s.active) && StartIdsBelow(s)
    requires RunSoFar(done, v, s.active, s.time, s.repeat)
    ensures var r := Fired(s, [], n);
            var fired, t := done + r.0, r.1;
            && IsOrder(fired, Due(v, s.time)) && Due(t.active, s.time) == map[]
            && t.time == s.time && t.repeat == s.repeat
            && (forall h :: h in v && h !in fired ==> h in t.active && t.active[h] == v[h])
            && (forall h :: h in t.active && h !in fired ==> h in v)
            && (forall h :: h in fired ==> h in s.repeat && if s.repeat[h] == 0 then h !in t.active
                                           else h in t.active && t.active[h].timeout == Deadline(s.time, s.repeat[h]))
    decreases |Due(s.active, s.time)|
  {
    hide H.Less, RunSoFar, Deadline, IsOrder, Fired;
    if s.active == map[] {
      NoneDue(s.active, s.time);
      FiredEnd(s, [], n);
      RunEnd(done, v, s.active, s.time, s.repeat);
      assert done + [] == done;
    } else {
      var h := SomeFirst(s.active);
      FirstDue(s.active, h, s.time);
      if s.active[h].timeout > s.time {
        forall g | IsFirst(s.active, g) ensures g == h { FirstUnique(s.active, g, h); }
        FiredEnd(s, [], n);
        RunEnd(done, v, s.active, s.time, s.repeat);
        assert done + [] == done;
      } else {
        FiredStep(s, [], n, h);
        QuietRound(done, v, s, h);
        var t := Round(s, h, []);
        QuietFrom(done + [h], v, t, n + 1);
        assert done + ([h] + Fired(t, [], n + 1).0) == (done + [h]) + Fired(t, [], n + 1).0;
      }
    }
  }

  lemma QuietRound(done: seq<Handle>, v: Active, s: Spec, h: Handle)
    requires SpecOk(s) && s.time < U64 - 1 && DistinctIds(s.active) && StartIdsBelow(s)
    requires RunSoFar(done, v, s.active, s.time, s.repeat) && FirstIsDue(s, h)
    ensures var t := Round(s, h, []);
            && DistinctIds(t.active) && StartIdsBelow(t) && t.repeat == s.repeat
            && RunSoFar(done + [h], v, t.active, s.time, s.repeat)
  {
    hide H.Less, RunSoFar, Deadline;
    var w, w' := s.active, Round(s, h, []).active;
    assert h in s.repeat;
    assert h in Due(w, s.time);
    if s.repeat[h] != 0 { assert w' - {h} == w - {h}; }
    RunStep(done, v, w, w', s.time, s.repeat, h);
  }

  // ---------------------------------------------------------------- whole runs

  datatype Op = Do(call: Call) | SetTime(now: Msec) | RunTimers(script: seq<seq<Call>>)

  /** The state after some calls of the program and some passes of the loop, and the timers that each pass fired. A pass
      at the last instant of the clock, which need not end, is left out. */
  ghost function After(ops: seq<Op>): (s: Spec)
    ensures SpecOk(s)
    decreases |ops|
  {
    if ops == [] then Spec(0, 0, map[], map[])
    else
      var s := After(ops[..|ops| - 1]);
      match ops[|ops| - 1]
      case Do(c) => Applied(s, c)
      case SetTime(now) => s.(time := now)
      case RunTimers(script) => if s.time < U64 - 1 then FiredOk(s, script, 0); Fired(s, script, 0).1 else s
  }

  ghost function FiredBy(ops: seq<Op>): seq<seq<Handle>>
    decreases |ops|
  {
    if ops == [] then []
    else
      var init, last := ops[..|ops| - 1], ops[|ops| - 1];
      var s := After(init);
      FiredBy(init) + if last.RunTimers? && s.time < U64 - 1 then [Fired(s, last.script, 0).0] else []
  }

  lemma {:induction false} FiredOk(s: Spec, script: seq<seq<Call>>, n: nat)
    requires SpecOk(s) && s.time < U64 - 1
    ensures SpecOk(Fired(s, script, n).1) && Fired(s, script, n).1.time == s.time
    decreases if n < |script| then |script| - n else 0, |Due(s.active, s.time)|
  {
    if exists h :: FirstIsDue(s, h) {
      var h :| FirstIsDue(s, h);
      FiredStep(s, script, n, h);
      FiredOk(Round(s, h, Nth(script, n)), script, n + 1);
    }
  }

  ghost predicate IdsOk(s: Spec) { DistinctIds(s.active) && StartIdsBelow(s) }

  lemma AppliedIds(s: Spec, c: Call)
    requires IdsOk(s)
    ensures IdsOk(Applied(s, c))
  {
    hide Deadline;
  }

  lemma {:induction false} AppliedAllIds(s: Spec, cs: seq<Call>)
    requires IdsOk(s)
    ensures IdsOk(AppliedAll(s, cs))
    decreases |cs|
  {
    hide Applied, IdsOk;
    if cs != [] {
      AppliedAllIds(s, cs[..|cs| - 1]);
      AppliedIds(AppliedAll(s, cs[..|cs| - 1]), cs[|cs| - 1]);
    }
  }

  lemma {:induction false} FiredIds(s: Spec, script: seq<seq<Call>>, n: nat)
    requires SpecOk(s) && s.time < U64 - 1 && IdsOk(s)
    ensures IdsOk(Fired(s, script, n).1)
    decreases if n < |script| then |script| - n else 0, |Due(s.active, s.time)|
  {
    hide Applied, IdsOk, IsFirst, SpecOk;
    if exists h :: FirstIsDue(s, h) {
      var h :| FirstIsDue(s, h);
      FiredStep(s, script, n, h);
      AppliedIds(s, Stop(h));
      AppliedIds(Applied(s, Stop(h)), Again(h));
      AppliedAllIds(Applied(Applied(s, Stop(h)), Again(h)), Nth(script, n));
      FiredIds(Round(s, h, Nth(script, n)), script, n + 1);
    }
  }

  lemma {:induction false} AfterIds(ops: seq<Op>)
    ensures IdsOk(After(ops))
    decreases |ops|
  {
    hide Applied, IdsOk, Fired, SpecOk;
    if ops == [] {
      NoIds();
    } else {
      var s := After(ops[..|ops| - 1]);
      AfterIds(ops[..|ops| - 1]);
      match ops[|ops| - 1]
      case Do(c) => AppliedIds(s, c);
      case SetTime(now) => SameIds(s, s.(time := now));
      case RunTimers(script) => if s.time < U64 - 1 { FiredIds(s, script, 0); }
    }
  }

  lemma NoIds()
    ensures IdsOk(Spec(0, 0, map[], map[]))
  {}

  lemma SameIds(s: Spec, t: Spec)
    requires IdsOk(s) && t.active == s.active && t.counter == s.counter
    ensures IdsOk(t)
  {}

  /** After any run, a pass with callbacks that leave the timers alone fires exactly the due timers, once each,
      by timeout and then by start order, and leaves none due. */
  lemma QuietPass(ops: seq<Op>)
    requires After(ops).time < U64 - 1
    ensures var s := After(ops);
            IsOrder(Fired(s, [], 0).0, Due(s.active, s.time)) && Due(Fired(s, [], 0).1.active, s.time) == map[]
  {
    AfterIds(ops);
    QuietRun(After(ops));
  }
}
