/** The two ends of a queue, each together with its request in the kernel and a record of what it has handled. */
module QueueEnds {
  import C = QueueConsumer
  import P = QueueProducer

  /** A write request: none, in the kernel, or completed and waiting for its handler. */
  datatype WriteOp = NoWrite | Writing | Wrote(result: int)

  datatype ReadOp<T> = NoRead | Reading | Got(batch: seq<T>) | Cut

  /**
   * `pushed` is what was pushed so far, `synced` what was pushed synchronously, past the buffers, and `dropped`
   * what was thrown away when the producer was closed.
   */
  datatype Sender<T> = Sender(box: P.Outbox<T>, op: WriteOp, pushed: seq<T>, synced: seq<T>, dropped: seq<T>)

  /** `called` is what the callback was given so far, `lost` what was thrown away when the consumer was closed. */
  datatype Receiver<T> = Receiver(box: C.Inbox<T>, op: ReadOp<T>, called: seq<T>, lost: seq<T>)

  function NewSender<T>(): Sender<T> {
    Sender(P.Outbox(true, [], 0, [], 0, []), NoWrite, [], [], [])
  }

  function NewReceiver<T>(): Receiver<T> {
    Receiver(C.Inbox(true, false, false, []), NoRead, [], [])
  }

  /** The memory a pending write may still read. */
  function Lent<T>(l: Sender<T>): seq<T> {
    if l.box.open && l.box.offset + l.box.write > |l.box.output| then [] else P.Loan(l.box)
  }

  function Accepted<T>(l: Sender<T>): nat {
    if l.op.Wrote? then P.Taken(l.op.result) else 0
  }

  ghost predicate Sound<T>(l: Sender<T>) {
    && P.Settled(l.box)
    && (l.op.NoWrite? <==> Lent(l) == [])
    && (l.op.Wrote? ==> l.op.result == P.INTERRUPTED || 0 < l.op.result <= |Lent(l)|)
    && (l.box.open ==> l.dropped == [])
  }

  /** What has been pushed and the pipe has not got yet. */
  ghost function Held<T>(l: Sender<T>): seq<T>
    requires Sound(l)
  {
    P.Unsent(l.box)[Accepted(l)..]
  }

  /** `past` is what the pipe has got through this producer's buffers, `direct` what it has got past them. */
  ghost predicate SenderInv<T>(l: Sender<T>, past: seq<T>, direct: seq<T>) {
    Sound(l) && l.pushed == past + Held(l) + l.dropped && l.synced == direct
  }

  /** What a consumer has read and not yet passed on. */
  function Pending<T>(l: Receiver<T>): seq<T> {
    (if l.op.Got? then l.op.batch else []) + l.box.rest
  }

  /** `past` is what this consumer has read from the pipe. */
  ghost predicate ReceiverInv<T>(l: Receiver<T>, past: seq<T>) {
    && (l.box.open || l.box == C.Closed(l.box))
    && (l.box.open ==> (l.box.reading <==> !l.op.NoRead?))
    && (l.box.delivering ==> l.op.NoRead?)
    && (l.box.open && !l.box.delivering && !l.box.reading ==> past == [])
    && (l.box.rest != [] ==> l.box.delivering)
    && (l.box.open || !l.op.NoRead? ==> l.lost == [])
    && past == l.called + Pending(l) + l.lost
  }

  function Writes<T>(p: P.Outbox<T>): WriteOp {
    if p.write > 0 then Writing else NoWrite
  }

  ghost function AfterPush<T>(l: Sender<T>, x: T): Sender<T>
    requires Sound(l) && l.box.open
  {
    var p := P.Pushed(l.box, x);
    l.(box := p, op := if l.op.NoWrite? then Writes(p) else l.op, pushed := l.pushed + [x])
  }

  function AfterPushSync<T>(l: Sender<T>, x: T): Sender<T> {
    l.(synced := l.synced + [x])
  }

  ghost function AfterWrite<T>(l: Sender<T>): Sender<T>
    requires Sound(l) && l.op.Wrote?
  {
    if l.box.open then
      var p := P.Written(l.box, l.op.result);
      l.(box := p, op := Writes(p))
    else
      l.(box := l.box.(orphan := []), op := NoWrite, dropped := Held(l) + l.dropped)
  }

  ghost function SenderClosed<T>(l: Sender<T>): Sender<T>
    requires Sound(l) && l.box.open
  {
    l.(box := P.Closed(l.box), dropped := P.Unsent(l.box)[|Lent(l)|..])
  }

  function AfterPop<T>(l: Receiver<T>): Receiver<T> {
    l.(box := C.Read(l.box), op := if l.op.NoRead? then Reading else l.op)
  }

  function AfterRead<T>(l: Receiver<T>): Receiver<T>
    requires l.op.Got? || l.op.Cut?
  {
    if !l.box.open then l.(op := NoRead, lost := Pending(l) + l.lost)
    else if l.op.Cut? then l.(op := Reading)
    else l.(box := C.Begun(l.box, l.op.batch), op := NoRead)
  }

  function AfterCall<T>(l: Receiver<T>): Receiver<T>
    requires l.box.rest != []
  {
    l.(box := C.Passed(l.box), called := l.called + [l.box.rest[0]])
  }

  function AfterBatch<T>(l: Receiver<T>): Receiver<T> {
    l.(box := C.Finished(l.box), op := Reading)
  }

  function ReceiverClosed<T>(l: Receiver<T>): Receiver<T> {
    l.(box := C.Closed(l.box), lost := l.box.rest)
  }

  lemma LoanIsFirst<T>(l: Sender<T>)
    requires Sound(l)
    ensures Lent(l) <= P.Unsent(l.box)
  {
  }

  lemma PushKeeps<T>(l: Sender<T>, past: seq<T>, direct: seq<T>, x: T)
    requires SenderInv(l, past, direct) && l.box.open
    ensures SenderInv(AfterPush(l, x), past, direct)
  {
    LoanIsFirst(l);
    var m := AfterPush(l, x);
    assert l.op.NoWrite? ==> P.Unsent(l.box) == [];
    assert Held(m) == Held(l) + [x];
  }

  lemma PushSyncKeeps<T>(l: Sender<T>, past: seq<T>, direct: seq<T>, x: T)
    requires SenderInv(l, past, direct) && l.box.open
    ensures SenderInv(AfterPushSync(l, x), past, direct + [x])
  {
  }

  lemma AcceptKeeps<T>(l: Sender<T>, past: seq<T>, direct: seq<T>, n: nat)
    requires SenderInv(l, past, direct) && l.op.Writing? && 0 < n <= |Lent(l)|
    ensures SenderInv(l.(op := Wrote(n)), past + Lent(l)[..n], direct)
  {
    LoanIsFirst(l);
    assert Held(l) == Lent(l)[..n] + P.Unsent(l.box)[n..];
  }

  lemma WriteKeeps<T>(l: Sender<T>, past: seq<T>, direct: seq<T>)
    requires SenderInv(l, past, direct) && l.op.Wrote?
    ensures SenderInv(AfterWrite(l), past, direct)
  {
    LoanIsFirst(l);
    if l.box.open {
      assert Held(AfterWrite(l)) == Held(l);
    } else {
      assert Held(AfterWrite(l)) == [];
      assert past + [] + (Held(l) + l.dropped) == past + Held(l) + l.dropped;
    }
  }

  lemma SenderCloseKeeps<T>(l: Sender<T>, past: seq<T>, direct: seq<T>)
    requires SenderInv(l, past, direct) && l.box.open
    ensures SenderInv(SenderClosed(l), past, direct)
  {
    LoanIsFirst(l);
    var m := SenderClosed(l);
    assert P.Unsent(m.box) == Lent(l) == P.Unsent(l.box)[..|Lent(l)|];
    CutInTwo(past, P.Unsent(l.box), Accepted(l), |Lent(l)|);
    hide P.Unsent, P.Loan, P.Closed;
  }

  lemma CutInTwo<T>(past: seq<T>, u: seq<T>, n: nat, m: nat)
    requires n <= m <= |u|
    ensures past + u[n..] + [] == past + u[..m][n..] + u[m..]
  {
    assert u[n..] == u[..m][n..] + u[m..];
  }

  lemma CutWriteKeeps<T>(l: Sender<T>, past: seq<T>, direct: seq<T>)
    requires SenderInv(l, past, direct) && l.op.Writing?
    ensures SenderInv(l.(op := Wrote(P.INTERRUPTED)), past, direct)
  {
  }

  lemma PopKeeps<T>(l: Receiver<T>, past: seq<T>)
    requires ReceiverInv(l, past) && l.box.open && !l.box.delivering
    ensures ReceiverInv(AfterPop(l), past)
  {
  }

  lemma CutReadKeeps<T>(l: Receiver<T>, past: seq<T>)
    requires ReceiverInv(l, past) && l.op.Reading?
    ensures ReceiverInv(l.(op := Cut), past)
  {
  }

  lemma BatchKeeps<T>(l: Receiver<T>, past: seq<T>)
    requires ReceiverInv(l, past) && l.box.delivering && l.box.rest == []
    ensures ReceiverInv(AfterBatch(l), past)
  {
  }


  lemma FillKeeps<T>(l: Receiver<T>, past: seq<T>, batch: seq<T>)
    requires ReceiverInv(l, past) && l.op.Reading?
    ensures ReceiverInv(l.(op := Got(batch)), past + batch)
  {
    assert l.box.rest == [] && Pending(l) == [] && Pending(l.(op := Got(batch))) == batch;
  }

  lemma ReadKeeps<T>(l: Receiver<T>, past: seq<T>)
    requires ReceiverInv(l, past) && (l.op.Got? || l.op.Cut?)
    ensures ReceiverInv(AfterRead(l), past)
  {
    assert Pending(AfterRead(l)) == if l.box.open then Pending(l) else [];
  }

  lemma FirstMoves<T>(a: seq<T>, r: seq<T>, b: seq<T>)
    requires r != []
    ensures a + r + b == (a + [r[0]]) + r[1..] + b
  {
    assert r == [r[0]] + r[1..];
  }

  lemma CallKeeps<T>(l: Receiver<T>, past: seq<T>)
    requires ReceiverInv(l, past) && l.box.rest != []
    ensures ReceiverInv(AfterCall(l), past)
  {
    assert Pending(l) == l.box.rest;
    assert Pending(AfterCall(l)) == l.box.rest[1..];
    FirstMoves(l.called, l.box.rest, l.lost);
  }

  lemma ReceiverCloseKeeps<T>(l: Receiver<T>, past: seq<T>)
    requires ReceiverInv(l, past) && l.box.open
    ensures ReceiverInv(ReceiverClosed(l), past)
  {
    assert Pending(l) == Pending(ReceiverClosed(l)) + l.box.rest;
  }
}
