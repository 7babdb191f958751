/** The write queue of a non-blocking stream (src/unix/stream.c). */
module StreamWrites {

  type Bytes = seq<bv8>

  const EAGAIN := 11
  const EBADF := 9
  const ECANCELED := 125

  // ---------------------------------------------------------------- requests

  /** A uv_write_t. `ticket` is its number in order of submission. A buffer holds what is still to
      be written of it; `held` says that `bufs` is not NULL. */
  datatype Req = Req(ticket: nat, bufs: seq<Bytes>, index: nat, held: bool, error: int)

  function Flat(bs: seq<Bytes>): Bytes {
    if bs == [] then [] else bs[0] + Flat(bs[1..])
  }

  function CountBufs(bs: seq<Bytes>): nat {
    if bs == [] then 0 else |bs[0]| + CountBufs(bs[1..])
  }

  ghost function Rest(r: Req): Bytes {
    if r.held && r.index <= |r.bufs| then Flat(r.bufs[r.index..]) else []
  }

  lemma {:induction false} FlatCount(bs: seq<Bytes>)
    ensures |Flat(bs)| == CountBufs(bs)
  {
    if bs != [] { FlatCount(bs[1..]); }
  }

  lemma {:induction false} FlatAppend(a: seq<Bytes>, b: seq<Bytes>)
    ensures Flat(a + b) == Flat(a) + Flat(b)
  {
    if a == [] { assert a + b == b; }
    else {
      FlatAppend(a[1..], b);
      assert (a + b)[1..] == a[1..] + b && (a + b)[0] == a[0];
      assert a[0] + (Flat(a[1..]) + Flat(b)) == (a[0] + Flat(a[1..])) + Flat(b);
    }
  }

  lemma {:induction false} FlatEmpty(bs: seq<Bytes>)
    requires forall i :: 0 <= i < |bs| ==> bs[i] == []
    ensures Flat(bs) == []
  {
    if bs != [] { FlatEmpty(bs[1..]); }
  }

  /** Writing on to the last part that is not empty extends the whole. */
  lemma FlatExtend(bs: seq<Bytes>, t: nat, x: Bytes)
    requires t < |bs| && forall i :: t < i < |bs| ==> bs[i] == []
    ensures Flat(bs[t := bs[t] + x]) == Flat(bs) + x
  {
    var a, b := bs[..t], bs[t + 1..];
    assert bs == a + ([bs[t]] + b) && bs[t := bs[t] + x] == a + ([bs[t] + x] + b);
    FlatAppend(a, [bs[t]] + b);
    FlatAppend(a, [bs[t] + x] + b);
    FlatEmpty(b);
  }

  // ---------------------------------------------------------------- the specification state

  /** `data` and `sent` are, per ticket, the bytes submitted and the bytes the kernel took; `wire` is
      all the kernel took. `line` holds the tickets that callbacks are or were made for, in that order, of
      which the first |status| have been made, with those results. `tried` are the uv_try_write requests. */
  datatype History = History(data: seq<Bytes>, sent: seq<Bytes>, wire: Bytes,
                             line: seq<nat>, status: seq<int>, tried: set<nat>)

  /** A request's result against its bytes: 0 means that all were taken, and an error that some were
      not, unless there were none. */
  ghost predicate StatusOk(status: int, data: Bytes, sent: Bytes) {
    && (status == 0 ==> sent == data)
    && (status != 0 && sent == data ==> data == [])
  }

  ghost predicate BytesOk(data: seq<Bytes>, sent: seq<Bytes>, wire: Bytes) {
    |sent| == |data| && wire == Flat(sent) && forall t :: 0 <= t < |data| ==> sent[t] <= data[t]
  }

  /** Callbacks go to every request in order of submission, except those of uv_try_write. */
  ghost predicate LineOk(line: seq<nat>, tried: set<nat>, n: nat) {
    && (forall i, j :: 0 <= i < j < |line| ==> line[i] < line[j])
    && (forall i :: 0 <= i < |line| ==> line[i] < n)
    && (forall t :: t in tried ==> t < n)
    && (forall t :: 0 <= t < n ==> (t in tried <==> t !in line))
  }

  ghost predicate StatusesOk(h: History) {
    && |h.status| <= |h.line|
    && forall i :: 0 <= i < |h.status| ==> h.line[i] < |h.data| && h.line[i] < |h.sent|
                                           && StatusOk(h.status[i], h.data[h.line[i]], h.sent[h.line[i]])
  }

  ghost predicate HistoryOk(h: History) {
    BytesOk(h.data, h.sent, h.wire) && LineOk(h.line, h.tried, |h.data|) && StatusesOk(h)
  }

  ghost predicate QueuedOk(r: Req, h: History) {
    && r.held && r.error == 0 && r.index < |r.bufs| && r.ticket < |h.data| && r.ticket < |h.sent|
    && h.data[r.ticket] == h.sent[r.ticket] + Rest(r)
    && (Rest(r) == [] ==> h.data[r.ticket] == [])
  }

  ghost predicate CompletedOk(r: Req, h: History) {
    && (r.held <==> r.error != 0) && (r.held ==> r.index <= |r.bufs|)
    && r.ticket < |h.data| && r.ticket < |h.sent|
    && h.data[r.ticket] == h.sent[r.ticket] + Rest(r)
    && (r.error != 0 && Rest(r) == [] ==> h.data[r.ticket] == [])
  }

  ghost function Total(q: seq<Req>): nat {
    if q == [] then 0 else |Rest(q[0])| + Total(q[1..])
  }

  lemma {:induction false} TotalAppend(a: seq<Req>, b: seq<Req>)
    ensures Total(a + b) == Total(a) + Total(b)
  {
    if a == [] { assert a + b == b; }
    else {
      TotalAppend(a[1..], b);
      assert (a + b)[1..] == a[1..] + b;
    }
  }

  /** The two queues are the part of the line that still waits for its callbacks. */
  ghost predicate Lined(q: seq<Req>, c: seq<Req>, h: History) {
    && |h.line| == |h.status| + |c| + |q|
    && (forall i :: 0 <= i < |c| ==> c[i].ticket == h.line[|h.status| + i])
    && (forall i :: 0 <= i < |q| ==> q[i].ticket == h.line[|h.status| + |c| + i])
  }

  ghost predicate QueuesOk(q: seq<Req>, c: seq<Req>, h: History) {
    && (forall i :: 0 <= i < |q| ==> QueuedOk(q[i], h))
    && (forall i :: 0 <= i < |c| ==> CompletedOk(c[i], h))
    && (q != [] ==> forall t :: q[0].ticket < t < |h.sent| ==> h.sent[t] == [])
  }

  /** `size` is write_queue_size. */
  ghost predicate Inv(q: seq<Req>, c: seq<Req>, size: int, h: History) {
    HistoryOk(h) && Lined(q, c, h) && QueuesOk(q, c, h) && size == Total(q) + Total(c)
  }

  // ---------------------------------------------------------------- what each step does to it

  /** uv_write2 appends a request. */
  ghost function Submitted(h: History, data: Bytes): History {
    h.(data := h.data + [data], sent := h.sent + [[]], line := h.line + [|h.data|])
  }

  lemma LineGrows(line: seq<nat>, tried: set<nat>, n: nat)
    requires LineOk(line, tried, n)
    ensures LineOk(line + [n], tried, n + 1)
  {
    forall t | 0 <= t < n + 1 ensures t in tried <==> t !in line + [n] {
      if t == n { assert (line + [n])[|line|] == t; }
    }
  }

  lemma SubmittedHistory(h: History, data: Bytes)
    requires HistoryOk(h)
    ensures HistoryOk(Submitted(h, data))
  {
    var h' := Submitted(h, data);
    LineGrows(h.line, h.tried, |h.data|);
    assert BytesOk(h'.data, h'.sent, h'.wire) by {
      FlatAppend(h.sent, [[]]);
      FlatEmpty([[]]);
    }
    hide LineOk, BytesOk, Flat;
    forall i | 0 <= i < |h'.status|
      ensures h'.line[i] < |h'.data| && StatusOk(h'.status[i], h'.data[h'.line[i]], h'.sent[h'.line[i]])
    {
      assert h'.line[i] == h.line[i];
    }
  }

  lemma SubmittedOk(q: seq<Req>, c: seq<Req>, size: int, h: History, bufs: seq<Bytes>)
    requires Inv(q, c, size, h) && bufs != []
    ensures Inv(q + [Req(|h.data|, bufs, 0, true, 0)], c, size + CountBufs(bufs), Submitted(h, Flat(bufs)))
  {
    hide HistoryOk, Total, Flat, Rest;
    var r := Req(|h.data|, bufs, 0, true, 0);
    var h' := Submitted(h, Flat(bufs));
    var q' := q + [r];
    SubmittedHistory(h, Flat(bufs));
    HistorySizes(h);
    NewRest(r);
    TotalAppend(q, [r]);
    TotalOne(r);
    assert h'.data[|h.data|] == Flat(bufs) && h'.sent[|h.data|] == [];
    assert [] + Flat(bufs) == Flat(bufs);
    assert QueuedOk(r, h');
    forall i | 0 <= i < |q'| ensures QueuedOk(q'[i], h') { if i < |q| { assert QueuedOk(q[i], h); } }
    forall i | 0 <= i < |c| ensures CompletedOk(c[i], h') { assert CompletedOk(c[i], h); }
    assert QueuesOk(q', c, h');
    hide QueuesOk;
    assert Lined(q', c, h');
  }

  lemma NewRest(r: Req)
    requires r.held && r.index == 0
    ensures Rest(r) == Flat(r.bufs) && |Rest(r)| == CountBufs(r.bufs)
  {
    assert r.bufs[0..] == r.bufs;
    FlatCount(r.bufs);
  }

  lemma HistorySizes(h: History)
    requires HistoryOk(h)
    ensures |h.sent| == |h.data| && |h.status| <= |h.line| && forall i :: 0 <= i < |h.line| ==> h.line[i] < |h.data|
    ensures forall i, j :: 0 <= i < j < |h.line| ==> h.line[i] < h.line[j]
  {}

  lemma TotalOne(r: Req)
    ensures Total([r]) == |Rest(r)| && Total([]) == 0
  {}

  lemma TotalHead(q: seq<Req>)
    requires q != []
    ensures Total(q) == |Rest(q[0])| + Total(q[1..])
  {}

  /** The kernel takes `x` of request `t`. */
  ghost function Took(h: History, t: nat, x: Bytes): History
    requires t < |h.sent|
  {
    h.(sent := h.sent[t := h.sent[t] + x], wire := h.wire + x)
  }

  lemma TookHistory(h: History, t: nat, x: Bytes)
    requires HistoryOk(h) && t < |h.sent| && h.sent[t] + x <= h.data[t]
    requires forall i :: t < i < |h.sent| ==> h.sent[i] == []
    requires forall i :: 0 <= i < |h.status| ==> h.line[i] != t
    ensures HistoryOk(Took(h, t, x))
  {
    FlatExtend(h.sent, t, x);
  }

  /** The head of the queue after some of its bytes were taken. */
  lemma TookOk(q: seq<Req>, c: seq<Req>, size: int, h: History, r': Req, x: Bytes)
    requires Inv(q, c, size, h) && q != [] && q[0].ticket < |h.sent|
    requires r'.ticket == q[0].ticket && r'.held && r'.error == 0 && r'.index < |r'.bufs|
    requires Rest(q[0]) == x + Rest(r') && (x == [] || Rest(r') != [])
    ensures Inv([r'] + q[1..], c, size - |x|, Took(h, r'.ticket, x))
  {
    hide HistoryOk, Total, Rest;
    var t := r'.ticket;
    var h' := Took(h, t, x);
    TookPrefix(q, c, h, x, Rest(r'));
    TookHistory(h, t, x);
    HistorySizes(h);
    var q' := [r'] + q[1..];
    TotalHead(q);
    TotalHead(q');
    assert q'[1..] == q[1..];
    assert QueuedOk(q[0], h);
    forall i | 0 <= i < |q'| ensures QueuedOk(q'[i], h') {
      if i > 0 { assert QueuedOk(q[i], h); assert q'[i] == q[i] && q[i].ticket != t; }
    }
    forall i | 0 <= i < |c| ensures CompletedOk(c[i], h') { assert CompletedOk(c[i], h); assert c[i].ticket != t; }
  }

  lemma TookPrefix(q: seq<Req>, c: seq<Req>, h: History, x: Bytes, rest: Bytes)
    requires HistoryOk(h) && Lined(q, c, h) && QueuesOk(q, c, h) && q != [] && Rest(q[0]) == x + rest
    ensures q[0].ticket < |h.sent| && h.sent[q[0].ticket] + x <= h.data[q[0].ticket]
    ensures h.data[q[0].ticket] == h.sent[q[0].ticket] + x + rest
    ensures forall i :: 0 <= i < |h.status| + |c| ==> h.line[i] != q[0].ticket
  {
    assert QueuedOk(q[0], h);
    assert h.sent[q[0].ticket] + (x + rest) == h.sent[q[0].ticket] + x + rest;
  }

  /** The head leaves the queue: with error 0 once all its bytes are taken, or with an error. */
  lemma LeftOk(q: seq<Req>, c: seq<Req>, size: int, h: History, r': Req)
    requires Inv(q, c, size, h) && q != []
    requires r'.ticket == q[0].ticket && Rest(r') == Rest(q[0])
    requires CompletedOk(r', h)
    ensures Inv(q[1..], c + [r'], size, h)
  {
    hide HistoryOk, Rest, Total, CompletedOk;
    TotalHead(q);
    TotalAppend(c, [r']);
    TotalOne(r');
    HistorySizes(h);
    forall i | 0 <= i < |q[1..]| ensures QueuedOk(q[1..][i], h) { assert QueuedOk(q[i + 1], h); }
    var c' := c + [r'];
    forall i | 0 <= i < |c'| ensures CompletedOk(c'[i], h) { assert i < |c| ==> CompletedOk(c[i], h); }
  }

  /** The callback of the first completed request is made. */
  ghost function Called(h: History, status: int): History { h.(status := h.status + [status]) }

  lemma CalledOk(q: seq<Req>, c: seq<Req>, size: int, h: History)
    requires Inv(q, c, size, h) && c != []
    ensures Inv(q, c[1..], size - |Rest(c[0])|, Called(h, c[0].error))
  {
    hide Total, Rest;
    TotalHead(c);
    var h' := Called(h, c[0].error);
    assert CompletedOk(c[0], h);
    CompletedStatus(c[0], h);
    forall i | 0 <= i < |h'.status| ensures h'.line[i] < |h'.data| && h'.line[i] < |h'.sent|
                                     && StatusOk(h'.status[i], h'.data[h'.line[i]], h'.sent[h'.line[i]])
    {
      if i < |h.status| { assert h'.status[i] == h.status[i]; }
      else { assert h'.status[i] == c[0].error && h'.line[i] == c[0].ticket; }
    }
    hide HistoryOk;
    assert HistoryOk(h') by { SameBytes(h, h'); }
    forall i | 0 <= i < |q| ensures QueuedOk(q[i], h') { assert QueuedOk(q[i], h); }
    forall i | 0 <= i < |c[1..]| ensures CompletedOk(c[1..][i], h') { assert CompletedOk(c[i + 1], h); }
  }

  lemma SameBytes(h: History, h': History)
    requires HistoryOk(h) && h' == h.(status := h'.status) && StatusesOk(h')
    ensures HistoryOk(h')
  {}

  lemma CompletedStatus(r: Req, h: History)
    requires CompletedOk(r, h)
    ensures StatusOk(r.error, h.data[r.ticket], h.sent[r.ticket])
  {
    if h.sent[r.ticket] == h.data[r.ticket] { assert |Rest(r)| == 0; }
  }

  /** uv_try_write takes its request, the last one, out of whichever queue it is in. */
  ghost function Withdrawn(h: History): History
    requires h.line != []
  {
    h.(line := h.line[..|h.line| - 1], tried := h.tried + {h.line[|h.line| - 1]})
  }

  lemma WithdrawnHistory(h: History)
    requires HistoryOk(h) && |h.status| < |h.line|
    ensures HistoryOk(Withdrawn(h))
  {
    var h' := Withdrawn(h);
    var last := h.line[|h.line| - 1];
    assert h.line == h'.line + [last];
    forall t | 0 <= t < |h.data| ensures t in h'.tried <==> t !in h'.line {
      assert t in h.line <==> t in h'.line || t == last;
      assert last !in h'.line;
    }
  }

  lemma WithdrawnOk(q: seq<Req>, c: seq<Req>, size: int, h: History)
    requires Inv(q, c, size, h) && (q != [] || c != [])
    ensures q != [] ==> Inv(q[..|q| - 1], c, size - |Rest(q[|q| - 1])|, Withdrawn(h))
    ensures q == [] ==> Inv(q, c[..|c| - 1], size - |Rest(c[|c| - 1])|, Withdrawn(h))
  {
    hide Total, Rest, HistoryOk;
    HistorySizes(h);
    WithdrawnHistory(h);
    var h' := Withdrawn(h);
    forall i | 0 <= i < |q| ensures QueuedOk(q[i], h') { assert QueuedOk(q[i], h); }
    forall i | 0 <= i < |c| ensures CompletedOk(c[i], h') { assert CompletedOk(c[i], h); }
    if q != [] {
      TotalLast(q);
    } else {
      TotalLast(c);
    }
  }

  lemma TotalLast(q: seq<Req>)
    requires q != []
    ensures Total(q) == Total(q[..|q| - 1]) + |Rest(q[|q| - 1])|
  {
    TotalAppend(q[..|q| - 1], [q[|q| - 1]]);
    assert q == q[..|q| - 1] + [q[|q| - 1]];
  }

  /** The kernel took the whole rest of the head, which completes with status 0. */
  lemma FinishedOk(q: seq<Req>, c: seq<Req>, size: int, h: History, r': Req, x: Bytes)
    requires Inv(q, c, size, h) && q != [] && q[0].ticket < |h.sent|
    requires r'.ticket == q[0].ticket && !r'.held && r'.error == 0 && x == Rest(q[0])
    ensures Inv(q[1..], c + [r'], size - |x|, Took(h, r'.ticket, x))
  {
    hide HistoryOk, Total;
    var t := r'.ticket;
    var h' := Took(h, t, x);
    assert Rest(r') == [];
    hide Rest;
    assert x == x + [];
    TookPrefix(q, c, h, x, []);
    TookHistory(h, t, x);
    HistorySizes(h);
    TotalHead(q);
    TotalAppend(c, [r']);
    TotalOne(r');
    forall i | 0 <= i < |q[1..]| ensures QueuedOk(q[1..][i], h') { assert QueuedOk(q[i + 1], h); }
    var c' := c + [r'];
    assert CompletedOk(r', h');
    forall i | 0 <= i < |c'| ensures CompletedOk(c'[i], h') {
      if i < |c| { assert CompletedOk(c[i], h); assert c[i].ticket != t; }
    }
  }

  // ---------------------------------------------------------------- one buffer of a request

  /** `buf->base += n; buf->len -= n`. */
  function Cut(r: Req, n: nat): Req
    requires r.index < |r.bufs| && n <= |r.bufs[r.index]|
  {
    r.(bufs := r.bufs[r.index := r.bufs[r.index][n..]])
  }

  lemma CutRest(r: Req, n: nat)
    requires r.held && r.index < |r.bufs| && n < |r.bufs[r.index]|
    ensures n < |Rest(r)| && Rest(Cut(r, n)) == Rest(r)[n..] && Rest(Cut(r, n)) != []
  {
    var bs := r.bufs[r.index..];
    var bs' := Cut(r, n).bufs[r.index..];
    assert bs'[1..] == bs[1..] && bs'[0] == bs[0][n..];
  }

  lemma SkipRest(r: Req)
    requires r.held && r.index < |r.bufs|
    ensures var len := |r.bufs[r.index]|;
            len <= |Rest(r)| && Rest(r.(index := r.index + 1)) == Rest(r)[len..]
  {
    assert r.bufs[r.index..][1..] == r.bufs[r.index + 1..];
  }

  lemma OfferedRest(r: Req, m: nat)
    requires r.held && r.index + m <= |r.bufs|
    ensures CountBufs(r.bufs[r.index..r.index + m]) <= |Rest(r)|
  {
    assert r.bufs[r.index..] == r.bufs[r.index..r.index + m] + r.bufs[r.index + m..];
    FlatAppend(r.bufs[r.index..r.index + m], r.bufs[r.index + m..]);
    FlatCount(r.bufs[r.index..r.index + m]);
  }

  /** Taking n bytes off the buffers: whole buffers are passed, also empty ones behind the last
      byte, and the next one is cut. */
  function Eat(r: Req, n: nat): Req
    decreases |r.bufs| - r.index
  {
    if r.index >= |r.bufs| then r
    else if n < |r.bufs[r.index]| then Cut(r, n)
    else Eat(r.(index := r.index + 1), n - |r.bufs[r.index]|)
  }

  lemma {:induction false} EatRest(r: Req, n: nat)
    requires r.held && r.index <= |r.bufs| && n <= |Rest(r)|
    ensures var e := Eat(r, n);
            && e.ticket == r.ticket && e.held && e.error == r.error && e.index <= |e.bufs|
            && Rest(e) == Rest(r)[n..]
            && (n < |Rest(r)| ==> e.index < |e.bufs|) && (n == |Rest(r)| ==> e.index == |e.bufs|)
    decreases |r.bufs| - r.index
  {
    hide Rest;
    if r.index == |r.bufs| {
      NoneLeft(r);
    } else if n < |r.bufs[r.index]| {
      CutRest(r, n);
    } else {
      SkipRest(r);
      EatRest(r.(index := r.index + 1), n - |r.bufs[r.index]|);
    }
  }

  lemma NoneLeft(r: Req)
    requires r.index == |r.bufs|
    ensures Rest(r) == []
  {}

  // ---------------------------------------------------------------- the calls, as functions on the state

  type Errno = e: int | e > 0 witness 1
  type Bufs = b: seq<Bytes> | b != [] witness [[]]

  /** What one write, writev or sendmsg does: it takes up to n of the bytes offered, or fails. */
  datatype Kernel = Takes(n: nat) | Again | Fails(errno: Errno)

  /** Everything but the wakeups. `flushing` says that the connection failed and that its flush is still to come. */
  datatype State = State(queue: seq<Req>, completed: seq<Req>, size: int,
                         open: bool, connecting: bool, flushing: bool, h: History)

  ghost predicate InvS(s: State) { Inv(s.queue, s.completed, s.size, s.h) }

  lemma HeadOk(s: State)
    requires InvS(s)
    ensures s.queue != [] ==> QueuedOk(s.queue[0], s.h)
    ensures s.completed != [] ==> CompletedOk(s.completed[0], s.h)
    ensures s.completed != [] ==> |s.h.status| < |s.h.line| && s.h.line[|s.h.status|] == s.completed[0].ticket
    ensures |s.h.status| <= |s.h.line| && |s.h.sent| == |s.h.data|
  {}

  /** How many bytes the kernel takes of a request, of which at most `iovmax` buffers are offered. */
  function Taken(r: Req, n: nat, iovmax: nat): nat
    requires r.index <= |r.bufs|
  {
    var offered := CountBufs(r.bufs[r.index..if r.index + iovmax < |r.bufs| then r.index + iovmax else |r.bufs|]);
    if n < offered then n else offered
  }

  /** The kernel takes n bytes of the first request, which is completed by its last byte. */
  ghost function Transferred(s: State, n: nat): (r: State)
    requires s.queue != [] && n <= |Rest(s.queue[0])| && s.queue[0].ticket < |s.h.sent|
  {
    var q := s.queue[0];
    var h := Took(s.h, q.ticket, Rest(q)[..n]);
    if n == |Rest(q)| then
      s.(queue := s.queue[1..], completed := s.completed + [Eat(q, n).(held := false)], size := s.size - n, h := h)
    else
      s.(queue := [Eat(q, n)] + s.queue[1..], size := s.size - n, h := h)
  }

  lemma HeadShape(s: State)
    requires InvS(s) && s.queue != []
    ensures var q := s.queue[0]; q.held && q.error == 0 && q.index < |q.bufs| && q.ticket < |s.h.sent|
  {
    HeadOk(s);
  }

  lemma TransferredOk(s: State, n: nat)
    requires InvS(s) && s.queue != [] && n <= |Rest(s.queue[0])|
    ensures s.queue[0].ticket < |s.h.sent| && InvS(Transferred(s, n))
  {
    hide Inv, Rest, Eat;
    HeadShape(s);
    var q := s.queue[0];
    var x := Rest(q)[..n];
    assert Rest(q) == x + Rest(q)[n..];
    EatRest(q, n);
    if n == |Rest(q)| {
      assert x == Rest(q);
      FinishedOk(s.queue, s.completed, s.size, s.h, Eat(q, n).(held := false), x);
    } else {
      TookOk(s.queue, s.completed, s.size, s.h, Eat(q, n), x);
    }
  }

  /** The first request ends with an error. */
  ghost function Refused(s: State, error: int): (r: State)
    requires s.queue != []
  {
    s.(queue := s.queue[1..], completed := s.completed + [s.queue[0].(error := error)])
  }

  /** uv__write attempts the first request only; a kernel error ends that request, and taking all of
      its bytes completes it with status 0. */
  ghost function Written(s: State, k: Kernel, iovmax: nat): State
    requires InvS(s)
  {
    if s.queue == [] || k.Again? then s
    else if k.Fails? then Refused(s, 0 - k.errno)
    else
      TakenOk(s, k.n, iovmax);
      Transferred(s, Taken(s.queue[0], k.n, iovmax))
  }

  lemma TakenOk(s: State, n: nat, iovmax: nat)
    requires InvS(s) && s.queue != []
    ensures var q := s.queue[0];
            q.index <= |q.bufs| && Taken(q, n, iovmax) <= |Rest(q)| && q.ticket < |s.h.sent|
  {
    hide Inv;
    HeadShape(s);
    var q := s.queue[0];
    OfferedRest(q, if q.index + iovmax < |q.bufs| then iovmax else |q.bufs| - q.index);
  }

  /** The invariant is kept, and only bytes and queues change. */
  lemma WrittenOk(s: State, k: Kernel, iovmax: nat)
    requires InvS(s)
    ensures var r := Written(s, k, iovmax);
            && InvS(r) && r.h == s.h.(sent := r.h.sent, wire := r.h.wire) && |r.queue| <= |s.queue|
            && r.open == s.open && r.connecting == s.connecting && r.flushing == s.flushing
  {
    hide Inv, Rest, Eat;
    if s.queue != [] && k.Fails? {
      FailOk(s.queue, s.completed, s.size, s.h, 0 - k.errno);
    } else if s.queue != [] && k.Takes? {
      TakenOk(s, k.n, iovmax);
      TransferredOk(s, Taken(s.queue[0], k.n, iovmax));
    }
  }

  lemma FailOk(q: seq<Req>, c: seq<Req>, size: int, h: History, error: int)
    requires Inv(q, c, size, h) && q != [] && error != 0
    ensures Inv(q[1..], c + [q[0].(error := error)], size, h)
  {
    var r' := q[0].(error := error);
    assert QueuedOk(q[0], h);
    assert Rest(r') == Rest(q[0]);
    LeftOk(q, c, size, h, r');
  }

  ghost function Enqueued(s: State, bufs: Bufs): (r: State)
    requires InvS(s)
    ensures InvS(r)
  {
    SubmittedOk(s.queue, s.completed, s.size, s.h, bufs);
    s.(queue := s.queue + [Req(|s.h.data|, bufs, 0, true, 0)], size := s.size + CountBufs(bufs),
       h := Submitted(s.h, Flat(bufs)))
  }

  /** uv_write2: refused on a closed stream; written at once iff no byte waits and no connect is pending. */
  ghost function Sent(s: State, bufs: Bufs, k: Kernel, iovmax: nat): (r: State)
    requires InvS(s)
    ensures InvS(r) && r.h.status == s.h.status && r.h.tried == s.h.tried
    ensures if s.open then r.h.data == s.h.data + [Flat(bufs)] && r.h.line == s.h.line + [|s.h.data|] else r == s
  {
    if !s.open then s
    else if s.connecting || s.size != 0 then Enqueued(s, bufs)
    else WrittenOk(Enqueued(s, bufs), k, iovmax); Written(Enqueued(s, bufs), k, iovmax)
  }

  /** uv_try_write, of which the rest is withdrawn at once. */
  ghost function Tried(s: State, bufs: Bufs, k: Kernel, iovmax: nat): (r: State)
    requires InvS(s)
    ensures InvS(r)
  {
    if s.connecting || s.size != 0 || !s.open then s
    else
      HeadOk(s);
      LastFirst(Sent(s, bufs, k, iovmax));
      LastOut(Sent(s, bufs, k, iovmax))
  }

  /** The last request leaves whichever queue it is in. */
  ghost function LastOut(s: State): (r: State)
    requires InvS(s) && (s.queue != [] || s.completed != [])
    ensures InvS(r)
  {
    WithdrawnOk(s.queue, s.completed, s.size, s.h);
    if s.queue != [] then
      s.(queue := s.queue[..|s.queue| - 1], size := s.size - |Rest(s.queue[|s.queue| - 1])|, h := Withdrawn(s.h))
    else
      s.(completed := s.completed[..|s.completed| - 1], size := s.size - |Rest(s.completed[|s.completed| - 1])|,
         h := Withdrawn(s.h))
  }

  /** The request submitted last is at the end of the queue or, if that is empty, of the completed ones. */
  lemma LastFirst(s: State)
    requires InvS(s) && s.h.line != [] && s.h.line[|s.h.line| - 1] == |s.h.data| - 1 && |s.h.status| < |s.h.line|
    ensures s.queue != [] || s.completed != []
    ensures var r := if s.queue != [] then s.queue[|s.queue| - 1] else s.completed[|s.completed| - 1];
            |s.h.sent| == |s.h.data| && r.ticket == |s.h.data| - 1 && (r.held ==> r.index <= |r.bufs|)
            && r.ticket < |s.h.sent| && |s.h.data[r.ticket]| == |s.h.sent[r.ticket]| + |Rest(r)|
  {
    hide Rest, HistoryOk;
    HistorySizes(s.h);
    if s.queue != [] {
      assert QueuedOk(s.queue[|s.queue| - 1], s.h);
    } else {
      assert CompletedOk(s.completed[|s.completed| - 1], s.h);
    }
  }

  /** One round of uv__write_callbacks. */
  ghost function CalledBack(s: State): (r: State)
    requires InvS(s)
    ensures InvS(r) && r.completed == if s.completed == [] then [] else s.completed[1..]
  {
    if s.completed == [] then s
    else
      CalledOk(s.queue, s.completed, s.size, s.h);
      s.(completed := s.completed[1..], size := s.size - |Rest(s.completed[0])|, h := Called(s.h, s.completed[0].error))
  }

  /** uv__stream_flush_write_queue. */
  ghost function Flushed(s: State, error: int): (r: State)
    requires InvS(s) && error != 0
    ensures InvS(r) && r.queue == [] && |r.completed| == |s.completed| + |s.queue|
    ensures r == s.(queue := r.queue, completed := r.completed)
    decreases |s.queue|
  {
    if s.queue == [] then s
    else
      FailOk(s.queue, s.completed, s.size, s.h, error);
      Flushed(s.(queue := s.queue[1..], completed := s.completed + [s.queue[0].(error := error)]), error)
  }

  /** uv__write_callbacks, when the callbacks do not write. */
  ghost function AllCalledBack(s: State): (r: State)
    requires InvS(s)
    ensures InvS(r) && r.completed == [] && r.queue == s.queue && r.h == s.h.(status := r.h.status)
    decreases |s.completed|
  {
    if s.completed == [] then s else AllCalledBack(CalledBack(s))
  }

  /** uv__stream_destroy: every request has been called back, and no byte is left in the count. */
  ghost function Destroyed(s: State): (r: State)
    requires InvS(s)
    ensures InvS(r) && r.queue == [] && r.completed == [] && r.size == 0 && |r.h.status| == |r.h.line|
    ensures r.h == s.h.(status := r.h.status)
  {
    AllCalledBack(Flushed(s, -ECANCELED))
  }

  // ---------------------------------------------------------------- the stream

  class Stream {
    const iovmax: nat
    var next: nat           // the next ticket: it stands for the identity of a request
    var queue: seq<Req>
    var completed: seq<Req>
    var queueSize: int
    var open: bool
    var connecting: bool
    var flushing: bool
    var pollout: bool       // the io watcher asks for POLLOUT
    var fed: bool           // the io watcher is on the loop's pending queue
    ghost var h: History

    ghost function S(): State
      reads this
    {
      State(queue, completed, queueSize, open, connecting, flushing, h)
    }

    /** A request in the queue has a wakeup coming. */
    ghost predicate Awake()
      reads this
    {
      && (queue != [] && open && !connecting && !flushing ==> pollout || fed)
      && (open && connecting ==> pollout)
    }

    ghost predicate Valid()
      reads this
    {
      iovmax >= 1 && next == |h.data| && InvS(S())
    }

    constructor (iovmax: nat, connecting: bool)
      requires iovmax >= 1
      ensures Valid() && Awake() && S() == Opened(connecting) && this.iovmax == iovmax
    {
      this.iovmax, this.connecting := iovmax, connecting;
      next, queue, completed, queueSize := 0, [], [], 0;
      open, flushing, pollout, fed := true, false, connecting, false;
      h := History([], [], [], [], [], {});
    }

    /** uv__write_req_finish, for the head of the queue. */
    method ReqFinish()
      requires queue != []
      modifies this`queue, this`completed, this`fed
      ensures queue == old(queue)[1..] && fed
      ensures completed == old(completed) + [old(queue)[0].(held := old(queue)[0].error != 0)]
    {
      var r := queue[0];
      queue := queue[1..];
      if r.error == 0 {
        r := r.(held := false);
      } else {
        r := r.(held := true);
      }
      completed := completed + [r];
      fed := true;
    }

    /** The loop over the buffers after a successful write of n bytes; tells whether all are written. */
    method Consume(n0: nat) returns (done: bool)
      requires queue != [] && queue[0].held && queue[0].index < |queue[0].bufs| && n0 <= |Rest(queue[0])|
      modifies this`queue, this`queueSize
      ensures queue == [Eat(old(queue)[0], n0)] + old(queue)[1..] && queueSize == old(queueSize) - n0
      ensures done <==> n0 == |Rest(old(queue)[0])|
    {
      hide Rest, Eat;
      ghost var rest := Rest(queue[0]);
      var n := n0;
      while true
        invariant queue != [] && queue[1..] == old(queue)[1..]
        invariant queue[0].held && queue[0].index < |queue[0].bufs|
        invariant 0 <= n <= n0 && Rest(queue[0]) == rest[n0 - n..]
        invariant Eat(queue[0], n) == Eat(old(queue)[0], n0)
        invariant queueSize == old(queueSize) - (n0 - n)
        decreases |queue[0].bufs| - queue[0].index
      {
        var r := queue[0];
        var len := |r.bufs[r.index]|;
        EatStep(r, n);
        if n < len {
          CutRest(r, n);
          queue := queue[0 := Cut(r, n)];
          queueSize := queueSize - n;
          n := 0;
          return false;
        }
        SkipRest(r);
        queue := queue[0 := r.(index := r.index + 1)];
        n := n - len;
        queueSize := queueSize - len;
        if r.index + 1 == |r.bufs| {
          NoneLeft(queue[0]);
          EatStep(queue[0], n);
          return true;
        }
      }
    }

    /** uv__write. */
    method Write(k: Kernel)
      requires Valid() && open && !connecting
      modifies this`queue, this`completed, this`queueSize, this`pollout, this`fed, this`h
      ensures Valid() && Awake() && S() == Written(old(S()), k, iovmax)
      ensures (old(pollout) ==> pollout || fed) && (fed <==> old(fed) || |completed| > |old(completed)|)
      ensures pollout == if old(queue) == [] then old(pollout) else if k.Fails? then false
                         else old(pollout) || |completed| == |old(completed)|
    {
      hide Inv, Rest, Eat;
      ghost var s0 := S();
      assert s0 == old(S());
      WrittenOk(s0, k, iovmax);
      if queue == [] { return; }
      var req := queue[0];
      HeadShape(s0);
      var iovcnt := |req.bufs| - req.index;
      if iovcnt > iovmax { iovcnt := iovmax; }
      if k.Fails? {
        queue := queue[0 := req.(error := 0 - k.errno)];
        ReqFinish();
        assert queue == s0.queue[1..];
        pollout := false;
        return;
      } else if k.Takes? {
        TakenOk(s0, k.n, iovmax);
        var offered := CountBufs(req.bufs[req.index..req.index + iovcnt]);
        var n := if k.n < offered then k.n else offered;
        var done := Transfer(n);
        if done { return; }
      }
      pollout := true;
    }

    /** The part of it after a successful write. */
    method Transfer(n: nat) returns (done: bool)
      requires Valid() && queue != [] && queue[0].ticket < |h.sent| && n <= |Rest(queue[0])|
      modifies this`queue, this`completed, this`queueSize, this`fed, this`h
      ensures S() == Transferred(old(S()), n) && (fed <==> old(fed) || done) && (done <==> |completed| > |old(completed)|)
    {
      hide Inv, Rest, Eat;
      HeadShape(S());
      var req := queue[0];
      EatRest(req, n);
      done := Consume(n);
      h := Took(h, req.ticket, Rest(req)[..n]);
      if done {
        ReqFinish();
        assert queue == old(queue)[1..];
      }
    }

    /** uv_write2. */
    method Submit(bufs: Bufs, k: Kernel) returns (r: int)
      requires Valid() && Awake()
      modifies this`next, this`queue, this`completed, this`queueSize, this`pollout, this`fed, this`h
      ensures Valid() && Awake() && S() == Sent(old(S()), bufs, k, iovmax)
      ensures r == (if open then 0 else -EBADF) && |queue| <= |old(queue)| + 1
      ensures !open ==> pollout == old(pollout) && fed == old(fed)
      ensures (old(pollout) ==> pollout || fed) && (old(fed) ==> fed)
    {
      hide Inv, Rest, Eat, Written;
      if !open { return -EBADF; }
      var emptyQueue := queueSize == 0;
      ghost var s1 := Enqueued(S(), bufs);
      queueSize := queueSize + CountBufs(bufs);
      queue := queue + [Req(next, bufs, 0, true, 0)];
      h := Submitted(h, Flat(bufs));
      next := next + 1;
      assert S() == s1;
      if connecting {
      } else if emptyQueue {
        WrittenOk(S(), k, iovmax);
        Write(k);
      } else {
        pollout := true;
      }
      r := 0;
    }

    /** uv_try_write: what is not taken at once is withdrawn again. */
    method TryWrite(bufs: Bufs, k: Kernel) returns (r: int)
      requires Valid() && Awake()
      modifies this
      ensures Valid() && Awake() && S() == Tried(old(S()), bufs, k, iovmax)
      ensures (pollout ==> old(pollout)) && (connecting || old(queueSize) != 0 ==> r == -EAGAIN)
      ensures !connecting && old(queueSize) == 0 && !open ==> r == -EBADF
      ensures open && !connecting && old(queueSize) == 0 ==>
                |h.sent| == |old(h.data)| + 1 && h.tried == old(h.tried) + {|old(h.data)|} && h.line == old(h.line)
                && r == (if h.sent[|old(h.data)|] == [] && Flat(bufs) != [] then -EAGAIN else |h.sent[|old(h.data)|]|)
    {
      hide Inv, Rest, Sent, LastOut, Flat, CountBufs;
      if connecting || queueSize != 0 { return -EAGAIN; }
      var hasPollout := pollout;
      HeadOk(S());
      var err := Submit(bufs, k);
      if err != 0 { return err; }
      var written := CountBufs(bufs);
      FlatCount(bufs);
      HeadOk(S());
      var size := Withdraw();
      written := written - size;
      if !hasPollout {
        pollout := false;
      }
      r := if written == 0 && size != 0 then -EAGAIN else written;
    }

    /** The end of uv_try_write: the request, which is the last one, leaves whichever queue it is in. */
    method Withdraw() returns (size: nat)
      requires Valid() && h.line != [] && h.line[|h.line| - 1] == |h.data| - 1 && |h.status| < |h.line|
      modifies this`queue, this`completed, this`queueSize, this`h
      ensures old(queue) != [] || old(completed) != []
      ensures Valid() && S() == LastOut(old(S())) && h == Withdrawn(old(h)) && |h.sent| == |h.data|
      ensures |h.data[|h.data| - 1]| == |h.sent[|h.data| - 1]| + size
      ensures |queue| == if old(queue) == [] then 0 else |old(queue)| - 1
    {
      hide Inv, Rest;
      LastFirst(S());
      var req := if queue != [] then queue[|queue| - 1] else completed[|completed| - 1];
      RestSize(req);
      size := if req.held then CountBufs(req.bufs[req.index..]) else 0;
      queueSize := queueSize - size;
      if queue != [] {
        queue := queue[..|queue| - 1];
      } else {
        completed := completed[..|completed| - 1];
      }
      h := Withdrawn(h);
      assert S() == LastOut(old(S()));
    }

    /** uv__stream_flush_write_queue. */
    method Flush(error: int)
      requires Valid() && error != 0
      modifies this`queue, this`completed
      ensures Valid() && S() == Flushed(old(S()), error)
    {
      hide Inv;
      while queue != []
        invariant Valid() && Flushed(S(), error) == Flushed(old(S()), error)
        decreases |queue|
      {
        FailOk(queue, completed, queueSize, h, error);
        var req := queue[0];
        queue := queue[1..];
        completed := completed + [req.(error := error)];
      }
    }

    /** One round of uv__write_callbacks: the first completed request is called back. */
    method Callback() returns (ticket: nat, status: int)
      requires Valid() && completed != []
      modifies this`completed, this`queueSize, this`h
      ensures Valid() && S() == CalledBack(old(S()))
      ensures |old(h.status)| < |h.line| && h.line[|old(h.status)|] == ticket && status == old(completed)[0].error
    {
      hide Inv, Rest;
      HeadOk(S());
      var req := completed[0];
      completed := completed[1..];
      RestSize(req);
      if req.held {
        queueSize := queueSize - CountBufs(req.bufs[req.index..]);
      }
      h := Called(h, req.error);
      assert S() == CalledBack(old(S()));
      return req.ticket, req.error;
    }

    /** uv__write_callbacks, when the callbacks do not write. */
    method Callbacks()
      requires Valid()
      modifies this`completed, this`queueSize, this`h
      ensures Valid() && S() == AllCalledBack(old(S()))
    {
      hide Inv, CalledBack;
      while completed != []
        invariant Valid() && AllCalledBack(S()) == AllCalledBack(old(S()))
        decreases |completed|
      {
        ghost var s := S();
        var t, e := Callback();
        assert AllCalledBack(s) == AllCalledBack(CalledBack(s));
      }
    }

    /** uv__stream_destroy: the write queue is accounted for to the last byte, and every request has been
        called back. */
    method Destroy()
      requires Valid() && !open
      modifies this`queue, this`completed, this`queueSize, this`h
      ensures Valid() && S() == Destroyed(old(S())) && queueSize == 0 && queue == [] && completed == []
    {
      hide Inv;
      Flush(-ECANCELED);
      Callbacks();
    }

    /** The write half of uv__stream_io; `pending` tells that it was run from the pending queue. */
    method Io(k: Kernel, pending: bool)
      requires Valid() && Awake() && open && !connecting
      modifies this`queue, this`completed, this`queueSize, this`pollout, this`fed, this`h
      ensures Valid() && Awake() && S() == Written(old(S()), k, iovmax)
      ensures fed <==> (old(fed) && !pending) || |completed| > |old(completed)|
    {
      hide Inv;
      if pending { fed := false; }
      Write(k);
    }

    /** uv__drain, as far as writing is concerned. */
    method Drain()
      requires Valid() && Awake() && open && !connecting
      modifies this`pollout
      ensures Valid() && Awake() && pollout == (old(pollout) && queue != [])
    {
      if queue == [] { pollout := false; }
    }

    /** uv__stream_connect, up to the user's callback. */
    method Connected(error: int)
      requires Valid() && Awake() && open && connecting
      modifies this`connecting, this`flushing, this`pollout
      ensures Valid() && Awake() && S() == old(S()).(connecting := false, flushing := error < 0)
      ensures pollout == (old(pollout) && error >= 0 && queue != [])
    {
      connecting := false;
      if error < 0 || queue == [] { pollout := false; }
      flushing := error < 0;
    }

    /** uv__stream_connect, after the user's callback. */
    method FlushFailed()
      requires Valid() && Awake() && open && flushing
      modifies this`queue, this`completed, this`flushing
      ensures Valid() && Awake() && S() == Flushed(old(S()), -ECANCELED).(flushing := false)
    {
      hide Inv;
      Flush(-ECANCELED);
      flushing := false;
    }

    /** uv__stream_close, as far as writing is concerned. */
    method Close()
      requires Valid() && open
      modifies this`open, this`pollout, this`fed
      ensures Valid() && Awake() && S() == old(S()).(open := false) && !pollout && !fed
    {
      open, pollout, fed := false, false, false;
    }

    /** Any one call, if it is possible now. */
    method Do(op: Op)
      requires Valid() && Awake()
      modifies this
      ensures Valid() && Awake() && S() == Apply(old(S()), op, iovmax)
    {
      hide Inv, Written, Sent, Tried, CalledBack, Flushed;
      match op {
        case WriteOp(bufs, k) => var r := Submit(bufs, k);
        case TryOp(bufs, k) => var r := TryWrite(bufs, k);
        case IoOp(k, pending) => if open && !connecting { Io(k, pending); }
        case CallbackOp => NoCallback(S()); if completed != [] { var t, e := Callback(); }
        case DrainOp => if open && !connecting { Drain(); }
        case ConnectedOp(e) => if open && connecting { Connected(e); }
        case FlushFailedOp => if open && flushing { FlushFailed(); }
        case CloseOp => if open { Close(); }
      }
    }
  }

  lemma EatStep(r: Req, n: nat)
    ensures r.index >= |r.bufs| ==> Eat(r, n) == r
    ensures r.index < |r.bufs| && n < |r.bufs[r.index]| ==> Eat(r, n) == Cut(r, n)
    ensures r.index < |r.bufs| && n >= |r.bufs[r.index]| ==>
              Eat(r, n) == Eat(r.(index := r.index + 1), n - |r.bufs[r.index]|)
  {}

  lemma RestSize(r: Req)
    requires r.held ==> r.index <= |r.bufs|
    ensures |Rest(r)| == if r.held then CountBufs(r.bufs[r.index..]) else 0
  {
    if r.held { FlatCount(r.bufs[r.index..]); }
  }

  // ---------------------------------------------------------------- whole runs

  datatype Op =
    | WriteOp(bufs: Bufs, k: Kernel)
    | TryOp(bufs: Bufs, k: Kernel)
    | IoOp(k: Kernel, pending: bool)
    | CallbackOp
    | DrainOp
    | ConnectedOp(error: int)
    | FlushFailedOp
    | CloseOp

  ghost function Opened(connecting: bool): (s: State)
    ensures InvS(s)
  {
    State([], [], 0, true, connecting, false, History([], [], [], [], [], {}))
  }

  ghost function Apply(s: State, op: Op, iovmax: nat): (r: State)
    requires InvS(s)
    ensures InvS(r)
  {
    match op
    case WriteOp(bufs, k) => Sent(s, bufs, k, iovmax)
    case TryOp(bufs, k) => Tried(s, bufs, k, iovmax)
    case IoOp(k, _) => if s.open && !s.connecting then WrittenOk(s, k, iovmax); Written(s, k, iovmax) else s
    case CallbackOp => CalledBack(s)
    case DrainOp => s
    case ConnectedOp(e) => if s.open && s.connecting then s.(connecting := false, flushing := e < 0) else s
    case FlushFailedOp => if s.open && s.flushing then Flushed(s, -ECANCELED).(flushing := false) else s
    case CloseOp => s.(open := false)
  }

  /** The stream after some calls. */
  ghost function After(ops: seq<Op>, iovmax: nat, connecting: bool): (r: State)
    ensures InvS(r)
    decreases |ops|
  {
    if ops == [] then Opened(connecting)
    else Apply(After(ops[..|ops| - 1], iovmax, connecting), ops[|ops| - 1], iovmax)
  }

  /** Any run, callbacks free to make further calls between two rounds of the callback loop, and then
      destruction: the history is that of these calls, and nothing of it is missing. */
  method Run(ops: seq<Op>, iovmax: nat, connecting: bool) returns (s: Stream)
    requires iovmax >= 1
    ensures s.S() == Destroyed(After(ops, iovmax, connecting).(open := false))
    ensures HistoryOk(s.h) && |s.h.status| == |s.h.line| && s.queueSize == 0
  {
    hide Inv, Apply, Destroyed, Opened;
    s := new Stream(iovmax, connecting);
    for i := 0 to |ops|
      invariant fresh(s) && s.Valid() && s.Awake() && s.iovmax == iovmax && s.S() == After(ops[..i], iovmax, connecting)
    {
      assert ops[..i + 1][..i] == ops[..i];
      s.Do(ops[i]);
    }
    assert ops[..|ops|] == ops;
    if s.open { s.Close(); }
    s.Destroy();
    InvHistory(s.S());
  }

  lemma NoCallback(s: State)
    requires InvS(s)
    ensures s.completed == [] ==> CalledBack(s) == s
  {}

  lemma InvHistory(s: State)
    requires InvS(s)
    ensures HistoryOk(s.h)
  {}

  /** The bytes of the writes that the stream accepted: those before it was closed and, of uv_try_write,
      those that found it connected and without a byte waiting. */
  ghost function Accepted(ops: seq<Op>, iovmax: nat, connecting: bool): seq<Bytes> {
    if ops == [] then []
    else
      var init, last := ops[..|ops| - 1], ops[|ops| - 1];
      var s := After(init, iovmax, connecting);
      Accepted(init, iovmax, connecting) +
      match last
      case WriteOp(bufs, _) => if CloseOp in init then [] else [Flat(bufs)]
      case TryOp(bufs, _) => if CloseOp in init || s.connecting || s.size != 0 then [] else [Flat(bufs)]
      case _ => []
  }

  /** Tickets number the accepted writes, in the order of the calls. */
  lemma {:induction false} DataIsAccepted(ops: seq<Op>, iovmax: nat, connecting: bool)
    ensures After(ops, iovmax, connecting).h.data == Accepted(ops, iovmax, connecting)
    ensures After(ops, iovmax, connecting).open <==> CloseOp !in ops
    decreases |ops|
  {
    hide Inv, Apply;
    if ops != [] {
      var init, last := ops[..|ops| - 1], ops[|ops| - 1];
      DataIsAccepted(init, iovmax, connecting);
      assert ops == init + [last];
      ApplyData(After(init, iovmax, connecting), last, iovmax);
    }
  }

  lemma ApplyData(s: State, op: Op, iovmax: nat)
    requires InvS(s)
    ensures var r := Apply(s, op, iovmax);
            && (r.open <==> s.open && op != CloseOp)
            && r.h.data == s.h.data +
                 match op
                 case WriteOp(bufs, _) => if s.open then [Flat(bufs)] else []
                 case TryOp(bufs, _) => if !s.open || s.connecting || s.size != 0 then [] else [Flat(bufs)]
                 case _ => []
  {
    hide Inv, Rest, Eat;
  }

  ghost function Failed(q: seq<Req>, e: int): seq<Req> {
    if q == [] then [] else [q[0].(error := e)] + Failed(q[1..], e)
  }

  /** What destruction makes of the requests still queued: cancelled, behind those already completed. */
  lemma {:induction false} FlushedCompleted(s: State, e: int)
    requires InvS(s) && e != 0
    ensures Flushed(s, e).completed == s.completed + Failed(s.queue, e)
    decreases |s.queue|
  {
    hide Inv;
    if s.queue != [] {
      FailOk(s.queue, s.completed, s.size, s.h, e);
      FlushedCompleted(s.(queue := s.queue[1..], completed := s.completed + [s.queue[0].(error := e)]), e);
    }
  }

  /** Every run: the kernel got, request after request in the order of the calls, a prefix of each
      accepted write; each but those of uv_try_write is called back once, in that order, and with
      status 0 iff all its bytes were taken, if it has any. */
  lemma EveryRequest(ops: seq<Op>, iovmax: nat, connecting: bool, t: nat)
    requires t < |Accepted(ops, iovmax, connecting)|
    ensures var h := Destroyed(After(ops, iovmax, connecting).(open := false)).h;
            && h.data == Accepted(ops, iovmax, connecting) && |h.sent| == |h.data|
            && h.wire == Flat(h.sent) && h.sent[t] <= h.data[t]
            && |h.status| == |h.line| && (forall i, j :: 0 <= i < j < |h.line| ==> h.line[i] < h.line[j])
            && (t !in h.tried ==> exists i :: 0 <= i < |h.line| && h.line[i] == t
                                              && (h.data[t] != [] ==> (h.status[i] == 0 <==> h.sent[t] == h.data[t])))
  {
    hide Inv, Flat, Rest;
    DataIsAccepted(ops, iovmax, connecting);
    var s := Destroyed(After(ops, iovmax, connecting).(open := false));
    InvHistory(s);
    var h := s.h;
    if t !in h.tried {
      var i :| 0 <= i < |h.line| && h.line[i] == t;
      assert StatusOk(h.status[i], h.data[h.line[i]], h.sent[h.line[i]]);
    }
  }

  /** Why an error means missing bytes only for a request that has some: an empty write that the kernel
      put off is cancelled when the stream is destroyed, although nothing of it is missing. */
  lemma EmptyWriteCancelled()
    ensures var s := Destroyed(After([WriteOp([[]], Again)], 1, false).(open := false));
            s.h.status == [-ECANCELED] && s.h.data == [[]] && s.h.sent == [[]]
  {
    hide Inv, Rest;
    var ops := [WriteOp([[]], Again)];
    assert ops[..0] == [];
    var a := After(ops, 1, false);
    assert a == Apply(Opened(false), ops[0], 1);
    FlatEmpty([[]]);
    var r := Req(0, [[]], 0, true, 0);
    assert a.queue == [r] && a.completed == [];
    var s := a.(open := false);
    FlushedCompleted(s, -ECANCELED);
    var f := Flushed(s, -ECANCELED);
    assert [r][1..] == [] && Failed([r], -ECANCELED) == [r.(error := -ECANCELED)];
    assert f.completed == [r.(error := -ECANCELED)];
    assert AllCalledBack(f) == AllCalledBack(CalledBack(f)) == CalledBack(f);
  }
}
