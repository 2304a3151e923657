/** The receiving half of a queue (queue.c): one read at a time, its elements passed to a callback one by one. */
module QueueConsumer {
  import P = QueueProducer

  /**
   * A consumer between two callbacks. While its read handler is at work, `rest` holds the elements of the batch
   * that the callback has not been given yet.
   */
  datatype Inbox<T> = Inbox(open: bool, reading: bool, delivering: bool, rest: seq<T>)

  function Read<T>(c: Inbox<T>): Inbox<T> {
    c.(reading := true)
  }

  function Begun<T>(c: Inbox<T>, batch: seq<T>): Inbox<T> {
    c.(reading := false, delivering := true, rest := batch)
  }

  function Passed<T>(c: Inbox<T>): Inbox<T>
    requires c.rest != []
  {
    c.(rest := c.rest[1..])
  }

  function Finished<T>(c: Inbox<T>): Inbox<T> {
    Read(c.(delivering := false))
  }

  function Closed<T>(c: Inbox<T>): Inbox<T> {
    Inbox(false, false, false, [])
  }

  /** The number of elements the callback sees when its k-th call closes the consumer exactly if closes[k]. */
  function Calls(closes: seq<bool>): (n: nat)
    ensures n <= |closes|
    ensures n < |closes| ==> n > 0 && closes[n - 1]
    ensures forall k :: 0 <= k < n - 1 ==> !closes[k]
  {
    if closes == [] then 0 else if closes[0] then 1 else 1 + Calls(closes[1..])
  }

  /** What a read handler does from its loop on: one call after the other until one closes the consumer, then the
      next read. */
  function Handled<T>(c: Inbox<T>, closes: seq<bool>): Inbox<T>
    requires |closes| == |c.rest|
    decreases |closes|
  {
    if closes == [] then Finished(c)
    else if closes[0] then Closed(Passed(c))
    else Handled(Passed(c), closes[1..])
  }

  class Consumer<T> {
    var open: bool
    var reading: bool
    // consumer->abort is set, and the flag it points to.
    var watched: bool
    var aborted: bool

    /** The consumer as it is outside its read handler. */
    function View(): Inbox<T>
      reads this
    {
      Inbox(open, reading, false, [])
    }

    constructor ()
      ensures !open && !reading && !watched
    {
      open, reading, watched, aborted := false, false, false, false;
    }

    method Open()
      modifies this`open
      ensures open
    {
      open := true;
    }

    method Update()
      modifies this`reading
      ensures View() == Read(old(View()))
    {
      if reading {
        return;
      }
      reading := true;
    }

    method Close()
      modifies this
      ensures old(open) ==> View() == Closed(old(View())) && aborted == (old(aborted) || old(watched))
      ensures !old(open) ==> View() == old(View()) && aborted == old(aborted)
      ensures watched == old(watched)
    {
      if !open {
        return;
      }
      if watched {
        aborted := true;
      }
      open := false;
      if reading {
        reading := false;
      }
    }

    /**
     * The handler of the pending read. Either the read was interrupted and is issued again, or the callback is
     * given the batch in order, all of it unless one of its calls closes the consumer; that call is the last,
     * and the next read is issued only when there was none.
     */
    method Handle(result: int, batch: seq<T>, closes: seq<bool>) returns (called: seq<T>)
      requires open && reading && |closes| == |batch|
      requires result == P.INTERRUPTED || (result > 0 && result == |batch|)
      modifies this
      ensures result == P.INTERRUPTED ==> called == [] && open && reading
      ensures result != P.INTERRUPTED ==>
                && called == batch[..Calls(closes)]
                && open == reading == (true !in closes)
                && View() == Handled(Begun(old(View()), batch), closes)
    {
      called := [];
      aborted := false;
      reading := false;
      if result == P.INTERRUPTED {
        Update();
        return;
      }
      var offset := 0;
      while offset < result
        invariant 0 <= offset <= result
        invariant open && !reading && !aborted
        invariant called == batch[..offset]
        invariant forall k :: 0 <= k < offset ==> !closes[k]
        invariant Handled(Begun(old(View()), batch), closes)
               == Handled(Begun(old(View()), batch[offset..]), closes[offset..])
      {
        watched := true;
        called := called + [batch[offset]];
        if closes[offset] {
          Close();
        }
        if aborted {
          FirstClose(closes, offset);
          return;
        }
        watched := false;
        offset := offset + 1;
      }
      NoClose(closes);
      Update();
    }
  }

  lemma {:induction false} FirstClose(closes: seq<bool>, k: nat)
    requires k < |closes| && closes[k] && forall m :: 0 <= m < k ==> !closes[m]
    ensures Calls(closes) == k + 1
  {
    if k > 0 {
      FirstClose(closes[1..], k - 1);
    }
  }

  lemma {:induction false} NoClose(closes: seq<bool>)
    requires true !in closes
    ensures Calls(closes) == |closes|
  {
    if closes != [] {
      NoClose(closes[1..]);
    }
  }
}
