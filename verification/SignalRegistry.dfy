/** The tree of started signal watchers and the installed OS handlers (src/unix/signal.c). */
module SignalRegistry {
  import opened RbShapes
  import opened RbTree
  import opened Seqs

  /** Loop pointers are not NULL. */
  type LoopPtr = p: int | p > 0 witness 1

  /** A uv_signal_t: its loop and its own address. */
  datatype Handle = Handle(loop: LoopPtr, id: int)

  function KeyOf(h: Handle, g: int): Key { Key(g, h.loop, h.id) }

  ghost predicate Watches(signum: map<Handle, int>, h: Handle, g: int) { h in signum && signum[h] == g }

  ghost predicate Watched(signum: map<Handle, int>, g: int) { exists h :: Watches(signum, h, g) }

  /** One tree node per started watcher, keyed by its signal, its loop and itself. */
  ghost predicate Entries(signum: map<Handle, int>, entry: map<Handle, Node>, nodes: set<Node>) {
    && (forall h :: h in entry <==> h in signum && signum[h] != 0)
    && (forall h :: h in entry ==> entry[h] in nodes && entry[h].key == KeyOf(h, signum[h]))
    && (forall n :: n in nodes ==> n.key.loop > 0 && Handle(n.key.loop, n.key.id) in entry
                                   && entry[Handle(n.key.loop, n.key.id)] == n)
  }

  /** `signum` holds that field of every initialised handle; a started handle's tree entry is a new
      node for each start. `valid` are the signals that sigaction accepts. */
  class Registry {
    const valid: iset<int>
    const tree: Tree
    var signum: map<Handle, int>
    var entry: map<Handle, Node>
    var installed: iset<int>

    ghost predicate Indexed()
      reads this`signum, this`entry, tree, tree.nodes
    {
      tree.Valid() && Entries(signum, entry, tree.nodes)
    }

    ghost predicate Valid()
      reads this, tree, tree.nodes
    {
      && Indexed()
      && (forall g :: g in installed <==> g != 0 && Watched(signum, g))
      && installed <= valid
    }

    constructor (accepted: iset<int>)
      ensures Valid() && signum == map[] && valid == accepted && fresh(tree) && tree.nodes == {}
    {
      valid := accepted;
      tree := new Tree();
      signum, entry, installed := map[], map[], iset{};
    }

    /** uv_signal_init. */
    method Init(h: Handle)
      requires Valid() && h !in signum
      modifies this
      ensures Valid() && signum == old(signum)[h := 0] && tree.nodes == old(tree.nodes)
    {
      hide Tree.Valid;
      WatchedKept(signum, h, 0);
      signum := signum[h := 0];
    }

    /** Nodes of one signal are adjacent in the tree; they start where the key (g, NULL) cuts it. */
    lemma Adjacent(g: int, k: Key, i: nat)
      requires Indexed() && k.major == g && k.loop == 0 && tree.CutAt(k, i)
      ensures i <= |tree.order| && forall j :: 0 <= j < i ==> tree.order[j].key.major < g
      ensures forall j :: i <= j < |tree.order| ==> tree.order[j].key.major >= g
      ensures forall a, b :: i <= a < b < |tree.order| ==> tree.order[a].key.major <= tree.order[b].key.major
    {
      tree.NodesInOrder(Top, tree.shape);
      forall j | 0 <= j < i ensures tree.order[j].key.major < g {
        assert tree.order[j] in tree.nodes;
        assert Less(tree.order[j].key, k);
      }
    }

    /** Position of a node whose handle watches g. */
    lemma NodeOf(h: Handle, g: int) returns (j: nat)
      requires Indexed() && g != 0 && Watches(signum, h, g)
      ensures j < |tree.order| && tree.order[j] == entry[h] && tree.order[j].key == KeyOf(h, g)
    {
      tree.NodesInOrder(Top, tree.shape);
      assert entry[h] in tree.order;
      j :| 0 <= j < |tree.order| && tree.order[j] == entry[h];
    }

    lemma HandleOf(j: nat)
      requires Indexed() && j < |tree.order|
      ensures var k := tree.order[j].key;
              tree.order[j] in tree.nodes && k.loop > 0 && k.major != 0 && Watches(signum, Handle(k.loop, k.id), k.major)
    {
      tree.NodesInOrder(Top, tree.shape);
      assert tree.order[j] in tree.nodes;
    }

    /** A walk over the nodes of one signal is at `n`, which is position `i` of the tree, or past the last. */
    ghost predicate Reached(n: Node?, g: int, i: nat)
      reads tree`order
    {
      i <= |tree.order|
      && if n != null then i < |tree.order| && tree.order[i] == n
         else i < |tree.order| ==> tree.order[i].key.major != g
    }

    /** uv__signal_first_handle; `self` is the address of its local lookup handle. */
    method FirstNode(g: int, self: int) returns (r: Node?, ghost i: nat)
      requires Indexed() && g != 0
      ensures tree.CutAt(Key(g, 0, self), i)
      ensures r == null <==> !Watched(signum, g)
      ensures r != null ==> r.key.major == g
      ensures Reached(r, g, i)
    {
      hide Tree.Valid, Entries, Tree.CutAt, Less;
      r, i := tree.NFind(Key(g, 0, self));
      Adjacent(g, Key(g, 0, self), i);
      if r != null && r.key.major != g { r := null; }
      if r != null {
        HandleOf(i);
      } else if Watched(signum, g) {
        var h :| Watches(signum, h, g);
        var j := NodeOf(h, g);
        assert false;
      }
    }

    ghost predicate Tried(tried: seq<Handle>, g: int, i: nat)
      reads this, tree, tree.nodes
    {
      && i + |tried| <= |tree.order|
      && forall j :: 0 <= j < |tried| ==> tree.order[i + j].key == KeyOf(tried[j], g)
    }

    lemma AllTried(tried: seq<Handle>, g: int, i: nat, self: int)
      requires Indexed() && g != 0 && tree.CutAt(Key(g, 0, self), i) && Tried(tried, g, i)
      requires i + |tried| < |tree.order| ==> tree.order[i + |tried|].key.major != g
      ensures NoDup(tried) && forall h :: h in tried <==> Watches(signum, h, g)
    {
      hide Tree.CutAt;
      Adjacent(g, Key(g, 0, self), i);
      forall a, b | 0 <= a < b < |tried| ensures tried[a] != tried[b] {
        assert Less(tree.order[i + a].key, tree.order[i + b].key);
      }
      forall h | h in tried ensures Watches(signum, h, g) {
        var j :| 0 <= j < |tried| && tried[j] == h;
        HandleOf(i + j);
      }
      forall h | Watches(signum, h, g) ensures h in tried {
        var j := NodeOf(h, g);
        assert i <= j < i + |tried|;
        assert tried[j - i] == h;
      }
    }

    lemma SamePlace(i: nat, j: nat)
      requires Indexed() && i < |tree.order| && j < |tree.order| && tree.order[i] == tree.order[j]
      ensures i == j
    {}

    /** uv__signal_handler: one message is tried for each started watcher of the signal and for no other. */
    method Handler(g: int, self: int) returns (tried: seq<Handle>)
      requires Valid() && g != 0
      ensures NoDup(tried) && forall h :: h in tried <==> Watches(signum, h, g)
    {
      hide Tree.Valid, Entries, Tree.CutAt, Less;
      var n: Node?;
      ghost var i;
      n, i := FirstNode(g, self);
      tried := [];
      while n != null && n.key.major == g
        invariant Tried(tried, g, i) && Reached(n, g, i + |tried|)
        decreases |tree.order| - |tried|
      {
        ghost var at := i + |tried|;
        HandleOf(at);
        tried := tried + [Handle(n.key.loop, n.key.id)];
        ghost var j;
        n, j := tree.Next(n);
        SamePlace(j, at);
      }
      AllTried(tried, g, i, self);
    }

    /** uv__signal_stop. */
    method Stop(h: Handle, self: int)
      requires Valid() && h in signum
      modifies this, tree, tree.nodes
      ensures Valid() && signum == old(signum)[h := 0] && tree.nodes <= old(tree.nodes)
    {
      hide Tree.Valid;
      var g := signum[h];
      if g == 0 { return; }
      ghost var before := signum;
      var removed := tree.Remove(entry[h]);
      entry := entry - {h};
      signum := signum[h := 0];
      WatchedKept(before, h, 0);
      assert Entries(signum, entry, tree.nodes);
      var first;
      ghost var i;
      first, i := FirstNode(g, self);
      if first == null {
        installed := installed - iset{g};
      }
    }

    /** uv_signal_start: refuses signal 0, does nothing if the watcher has the signal already, and
        leaves the watcher stopped if the signal turns out to be invalid. */
    method Start(h: Handle, g: int, self: int) returns (ok: bool)
      requires Valid() && h in signum
      modifies this, tree, tree.nodes
      ensures Valid() && fresh(tree.nodes - old(tree.nodes))
      ensures ok <==> g != 0 && g in valid
      ensures signum.Keys == old(signum).Keys && (forall x :: x in signum && x != h ==> signum[x] == old(signum)[x])
      ensures signum[h] == if ok then g else if g == 0 then old(signum)[h] else 0
      ensures signum == Started(old(signum), valid, h, g)
    {
      hide Tree.Valid, Entries, Less, Compare, Indexed;
      if g == 0 { return false; }
      if g == signum[h] { WatchingIsValid(h); return true; }
      if signum[h] != 0 { Stop(h, self); }
      ghost var before := signum;
      WatchedKept(before, h, g);
      var n: Node?;
      ghost var i;
      n, i := FirstNode(g, self);
      if n == null {
        if g !in valid { return false; }
        installed := installed + iset{g};
      }
      assert g in installed && g in valid;
      Enter(h, g);
      assert Watches(signum, h, g);
      ok := true;
    }

    /** Lines 331-332. */
    method Enter(h: Handle, g: int)
      requires Indexed() && h in signum && signum[h] == 0 && g != 0
      modifies this`signum, this`entry, tree, tree.nodes
      ensures Indexed() && signum == old(signum)[h := g] && fresh(tree.nodes - old(tree.nodes))
    {
      hide Tree.Valid, Entries, Less, Compare;
      var e := new Node(KeyOf(h, g));
      EntriesAdded(signum, entry, tree.nodes, h, g, e);
      signum := signum[h := g];
      var r := tree.Insert(e);
      entry := entry[h := e];
    }

    lemma WatchingIsValid(h: Handle)
      requires Valid() && h in signum && signum[h] != 0
      ensures signum[h] in valid
    {
      assert Watches(signum, h, signum[h]);
    }
  }

  lemma EntriesAdded(signum: map<Handle, int>, entry: map<Handle, Node>, nodes: set<Node>, h: Handle, g: int, e: Node)
    requires Entries(signum, entry, nodes) && h in signum && signum[h] == 0 && g != 0
    requires e !in nodes && e.key == KeyOf(h, g)
    ensures Entries(signum[h := g], entry[h := e], nodes + {e})
    ensures forall x :: x in nodes ==> x.key != e.key
  {}

  lemma WatchedKept(signum: map<Handle, int>, h: Handle, g: int)
    ensures forall k :: k != g && !Watches(signum, h, k) ==>
              (Watched(signum[h := g], k) <==> Watched(signum, k))
  {
    forall k | k != g && !Watches(signum, h, k) ensures Watched(signum[h := g], k) <==> Watched(signum, k) {
      if Watched(signum, k) { var x :| Watches(signum, x, k); assert Watches(signum[h := g], x, k); }
      if Watched(signum[h := g], k) { var x :| Watches(signum[h := g], x, k); assert Watches(signum, x, k); }
    }
  }

  // ---------------------------------------------------------------- whole runs

  /** uv_signal_start, as far as the watchers are concerned. */
  ghost function Started(signum: map<Handle, int>, valid: iset<int>, h: Handle, g: int): map<Handle, int> {
    if g == 0 then signum else signum[h := if g in valid then g else 0]
  }

  datatype Op = Open(h: Handle) | Watch(h: Handle, signum: int) | Unwatch(h: Handle)

  /** A handle is initialised once, before its other calls. */
  ghost predicate Allowed(signum: map<Handle, int>, op: Op) { op.Open? <==> op.h !in signum }

  ghost function After(valid: iset<int>, ops: seq<Op>): map<Handle, int> {
    if ops == [] then map[]
    else
      var m := After(valid, ops[..|ops| - 1]);
      match ops[|ops| - 1]
      case Open(h) => m[h := 0]
      case Watch(h, g) => Started(m, valid, h, g)
      case Unwatch(h) => m[h := 0]
  }

  /** Over every run, a handler is installed for exactly the signals that some watcher is started for. */
  method Run(valid: iset<int>, ops: seq<Op>, self: int) returns (r: Registry)
    requires forall i :: 0 <= i < |ops| ==> Allowed(After(valid, ops[..i]), ops[i])
    ensures r.Valid() && r.signum == After(valid, ops)
    ensures forall g :: g in r.installed <==> g != 0 && Watched(After(valid, ops), g)
  {
    hide Registry.Indexed, Watched;
    r := new Registry(valid);
    for i := 0 to |ops|
      invariant fresh(r) && fresh(r.tree) && fresh(r.tree.nodes) && r.Valid() && r.valid == valid
      invariant r.signum == After(valid, ops[..i])
    {
      assert ops[..i + 1][..i] == ops[..i];
      match ops[i] {
        case Open(h) => r.Init(h);
        case Watch(h, g) => var ok := r.Start(h, g, self);
        case Unwatch(h) => r.Stop(h, self);
      }
    }
    assert ops[..|ops|] == ops;
  }

  /** The call decides what `h` watches; a start for signal 0 is refused and decides nothing. */
  ghost predicate Decides(op: Op, h: Handle) { op.h == h && (op.Watch? ==> op.signum != 0) }

  /** After every run a watcher has the signal of the last call that decides: that of a start, if the signal is valid, and
      none after a stop or a refused start. */
  lemma {:induction false} LastCallDecides(valid: iset<int>, ops: seq<Op>, i: nat, h: Handle)
    requires i < |ops| && Decides(ops[i], h) && forall j :: i < j < |ops| ==> !Decides(ops[j], h)
    ensures h in After(valid, ops)
    ensures After(valid, ops)[h] == if ops[i].Watch? && ops[i].signum in valid then ops[i].signum else 0
    decreases |ops|
  {
    var init, last := ops[..|ops| - 1], ops[|ops| - 1];
    if i < |init| {
      LastCallDecides(valid, init, i, h);
      assert !Decides(last, h);
    }
  }
}
