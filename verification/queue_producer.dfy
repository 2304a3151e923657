/** The sending half of a queue (queue.c): two buffers, one of them lent to the kernel while a write is pending. */
module QueueProducer {
  // At most this many elements are handed over in one write.
  const BATCH := 128

  // The result of a system call that was interrupted before it did anything (-EINTR).
  const INTERRUPTED := -4

  /**
   * A producer's fields. `write` is the number of elements in the write that is pending, 0 when there is none.
   * `orphan` is the memory of a write that was still pending when the producer was closed: it now belongs to
   * that write alone.
   */
  datatype Outbox<T> = Outbox(
    open: bool, output: seq<T>, offset: nat, queued: seq<T>, write: nat, orphan: seq<T>)

  /** What the fields satisfy between two events. */
  ghost predicate Settled<T>(p: Outbox<T>) {
    if p.open then
      && p.orphan == []
      && p.offset + p.write <= |p.output|
      && p.write <= BATCH
      && (p.write == 0 ==> p.output == [] && p.queued == [])
    else
      p.write == 0 && p.output == [] && p.queued == []
  }

  /** The part of a buffer that the kernel may still read. */
  function Loan<T>(p: Outbox<T>): seq<T>
    requires p.offset + p.write <= |p.output| || !p.open
  {
    if p.open then p.output[p.offset..p.offset + p.write] else p.orphan
  }

  /** All elements that were pushed and whose write has not been reported as done, oldest first. */
  function Unsent<T>(p: Outbox<T>): seq<T>
    requires p.offset <= |p.output| || !p.open
  {
    if p.open then p.output[p.offset..] + p.queued else p.orphan
  }

  /** A buffer that is sent completely changes places with the one that was filled meanwhile. */
  function Swapped<T>(p: Outbox<T>): (q: Outbox<T>)
    requires p.open && p.orphan == [] && p.offset <= |p.output| && p.write == 0
    ensures q.open && q.orphan == [] && q.offset <= |q.output| && q.write == 0 && Unsent(q) == Unsent(p)
    ensures q.offset == |q.output| ==> q.output == [] && q.queued == []
  {
    if p.offset == |p.output| then p.(output := p.queued, offset := 0, queued := []) else p
  }

  /** The next write takes what is left of the buffer, up to a limit. */
  function Issued<T>(p: Outbox<T>): (q: Outbox<T>)
    requires p.open && p.orphan == [] && p.offset <= |p.output| && p.write == 0
    requires p.offset == |p.output| ==> p.output == [] && p.queued == []
    ensures Settled(q) && q.open && q == p.(write := q.write)
    ensures q.write == 0 <==> Unsent(q) == []
  {
    if p.output == [] then p
    else if |p.output| - p.offset > BATCH then p.(write := BATCH)
    else p.(write := |p.output| - p.offset)
  }

  function Updated<T>(p: Outbox<T>): (q: Outbox<T>)
    requires p.open && p.orphan == [] && p.offset + p.write <= |p.output| && p.write <= BATCH
    ensures Settled(q) && q.open && Unsent(q) == Unsent(p)
    ensures p.write > 0 ==> Loan(q) == Loan(p)
    ensures q.write == 0 <==> Unsent(q) == []
  {
    if p.write > 0 then p else Issued(Swapped(p))
  }

  /** A write takes all that is left of the buffer, or 128 elements if there are more. */
  lemma LargestWrite<T>(p: Outbox<T>)
    requires p.open && p.orphan == [] && p.offset <= |p.output| && p.write == 0
    ensures var q := Updated(p); q.write <= 128 && (q.write < 128 ==> q.offset + q.write == |q.output|)
  {
  }

  /** A push adds one element at the end, and leaves a pending write's memory as it is. */
  function Pushed<T>(p: Outbox<T>, x: T): (q: Outbox<T>)
    requires Settled(p) && p.open
    ensures Settled(q) && q.open && q.write > 0
    ensures Unsent(q) == Unsent(p) + [x]
    ensures p.write > 0 ==> Loan(q) == Loan(p)
  {
    var q := Updated(p.(queued := p.queued + [x]));
    assert p.write == 0 ==> Unsent(p) == [];
    q
  }

  /** A result the kernel may give for the pending write: whole elements, at least one, or an interruption. */
  predicate Possible<T>(p: Outbox<T>, result: int) {
    result == INTERRUPTED || 0 < result <= p.write
  }

  /** The number of elements that a result says went into the pipe. */
  function Taken(result: int): (n: nat)
  {
    if result > 0 then result else 0
  }

  /** A completed write removes from the front exactly what the kernel took, and starts the next write if anything is
      left. */
  function Written<T>(p: Outbox<T>, result: int): (q: Outbox<T>)
    requires Settled(p) && p.open && Possible(p, result)
    ensures Settled(q) && q.open
    ensures Unsent(q) == Unsent(p)[Taken(result)..]
    ensures q.write > 0 <==> Unsent(q) != []
  {
    if result == INTERRUPTED then Updated(p.(write := 0))
    else Updated(p.(write := 0, offset := p.offset + result))
  }

  /** Closing keeps only the memory that a pending write may still read. */
  function Closed<T>(p: Outbox<T>): (q: Outbox<T>)
    requires Settled(p)
    ensures Settled(q) && !q.open
    ensures Unsent(q) == Loan(p)
    ensures Loan(q) == Loan(p)
  {
    if !p.open then p
    else p.(open := false, output := [], queued := [], write := 0, orphan := Loan(p))
  }

  class Producer<T> {
    var open: bool
    var output: seq<T>
    var offset: nat
    var queued: seq<T>
    var write: nat
    var orphan: seq<T>

    function View(): Outbox<T>
      reads this
    {
      Outbox(open, output, offset, queued, write, orphan)
    }

    constructor ()
      ensures Settled(View()) && !open && orphan == []
    {
      open, output, offset, queued, write, orphan := false, [], 0, [], 0, [];
    }

    method Open()
      requires !open && offset == 0 && write == 0 && output == [] && queued == [] && orphan == []
      modifies this`open
      ensures Settled(View()) && open && Unsent(View()) == []
    {
      open := true;
    }

    method Update()
      requires open && orphan == [] && offset + write <= |output| && write <= BATCH
      modifies this
      ensures View() == Updated(old(View()))
    {
      if write > 0 {
        return;
      }
      if offset == |output| {
        output := [];
        offset := 0;
        output, queued := queued, output;
      }
      if |output| == 0 {
        return;
      }
      var size := |output| - offset;
      if size > BATCH {
        size := BATCH;
      }
      write := size;
    }

    method Push(x: T)
      requires Settled(View()) && open
      modifies this
      ensures View() == Pushed(old(View()), x)
    {
      queued := queued + [x];
      Update();
    }

    /** The handler of the pending write. */
    method Write(result: int)
      requires Settled(View()) && open && Possible(View(), result)
      modifies this
      ensures View() == Written(old(View()), result)
    {
      write := 0;
      if result == INTERRUPTED {
        Update();
        return;
      }
      offset := offset + result;
      Update();
    }

    method Close()
      requires Settled(View())
      modifies this
      ensures View() == Closed(old(View()))
    {
      if !open {
        return;
      }
      open := false;
      if write > 0 {
        orphan := output[offset..offset + write];
        output := [];
        write := 0;
      }
      output := [];
      queued := [];
    }
  }
}
