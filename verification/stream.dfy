/** A stream (stream.c): output in two buffers, one of them lent to the kernel; input read block by block. */
module Streams {
  import opened Utf8

  /** What a user of the stream may do, at any time and inside the callback for received bytes. */
  datatype UserOp = Write(data: Bytes) | Flush | Consume(size: nat) | Close

  /** A call from outside, or the completion of the pending send or receive. */
  datatype Event = User(op: UserOp) | Sent(result: nat) | Received(data: Bytes, ops: seq<UserOp>)

  /** Bytes that are sent move from the front of the unsent ones behind those sent before. */
  lemma SendPart(sent: Bytes, writing: Bytes, waiting: Bytes, from: nat, n: nat)
    requires 0 < n && from + n <= |writing|
    ensures var more, next := sent + writing[from..from + n], from + n;
      && |more| == |sent| + n
      && sent + writing[from..] + waiting == more + (if next == |writing| then [] else writing[next..]) + waiting
  {
    assert writing[from..] == writing[from..from + n] + writing[from + n..];
  }

  /** What these operations write. */
  function Written(ops: seq<UserOp>): Bytes {
    if ops == [] then []
    else
      var op := ops[|ops| - 1];
      Written(ops[..|ops| - 1]) + (if op.Write? then op.data else [])
  }

  lemma WrittenNothing(ops: seq<UserOp>)
    ensures Written(ops[..0]) == []
  {
  }

  lemma WrittenMore(ops: seq<UserOp>, k: nat)
    requires k < |ops|
    ensures Written(ops[..k + 1]) == Written(ops[..k]) + (if ops[k].Write? then ops[k].data else [])
  {
    assert ops[..k + 1][..k] == ops[..k];
  }

  /** What the events outside of callbacks write. */
  function WrittenOutside(events: seq<Event>): Bytes {
    if events == [] then []
    else
      var e := events[|events| - 1];
      WrittenOutside(events[..|events| - 1]) + (if e.User? && e.op.Write? then e.op.data else [])
  }

  lemma NothingOutside(events: seq<Event>)
    ensures WrittenOutside(events[..0]) == []
  {
  }

  lemma WrittenOutsideMore(events: seq<Event>, k: nat)
    requires k < |events|
    ensures WrittenOutside(events[..k + 1])
         == WrittenOutside(events[..k]) + (if events[k].User? && events[k].op.Write? then events[k].op.data else [])
  {
    assert events[..k + 1][..k] == events[..k];
  }

  class Stream {
    var open: bool
    var flags: int

    var reading: bool
    var input: Bytes
    var consumed: nat

    // The number of bytes in the pending send, 0 when there is none.
    var sending: nat
    var offset: nat
    var partial: nat
    var writing: Bytes
    var waiting: Bytes
    var flushed: nat

    // What has been written, reported as sent, and thrown away by closing; what came in and what was consumed.
    ghost var written: Bytes
    ghost var sent: Bytes
    ghost var dropped: Bytes
    ghost var received: Bytes
    ghost var taken: Bytes
    // The peer has closed, or a receive has failed.
    ghost var ended: bool

    /** The part of output_writing that has not been reported as sent; closing throws it away. */
    ghost function Unsent(): Bytes
      reads this`open, this`sending, this`partial, this`writing, this`dropped
      requires partial <= |writing| || !open
    {
      if !open then dropped else if sending > 0 || partial > 0 then writing[partial..] else []
    }

    /** What came in and was not consumed. Closing may leave a count of consumed bytes without the bytes. */
    ghost function Unread(): Bytes
      reads this`input, this`consumed
    {
      if consumed <= |input| then input[consumed..] else []
    }

    /** No byte is lost, repeated or moved, at any point of any method. */
    ghost predicate Counted()
      reads this
    {
      && (open ==> partial <= |writing| && partial + sending <= |writing|)
      && (sending > 0 ==> open && partial + sending == |writing|)
      && (open && partial > 0 ==> partial < |writing|)
      && flushed <= |waiting|
      && written == sent + Unsent() + waiting
      && offset == |sent|
      && (open ==> consumed <= |input|)
      && received == taken + Unread()
      && (!open ==> !reading && sending == 0)
      // Only a stream without flags receives.
      && (flags != 0 ==> !reading)
    }

    /** What holds outside the handlers: an open stream that is not sending has nothing to send, and receives. */
    ghost predicate Settled()
      reads this
    {
      && Counted()
      && (open && sending == 0 ==> flushed == 0 && partial == 0 && (reading || flags != 0 || ended))
    }

    /** The memory of a pending send is not touched, unless the stream was closed and the memory given away. */
    twostate predicate LoanKept()
      reads this
    {
      && (!old(open) ==> !open)
      && (old(sending) > 0 ==>
            if open then sending == old(sending) && writing == old(writing) && partial == old(partial)
              else sending == 0)
    }

    constructor ()
      ensures Settled() && !open && written == sent == dropped == received == taken == [] && !ended
      ensures waiting == [] && partial == consumed == 0 && !reading
    {
      open, flags, reading, input, consumed := false, 0, false, [], 0;
      sending, offset, partial, writing, waiting, flushed := 0, 0, 0, [], [], 0;
      written, sent, dropped, received, taken, ended := [], [], [], [], [], false;
    }

    /** stream_input: drop what was consumed, and ask for more. */
    method Input()
      requires Counted() && open && !reading && flags == 0
      modifies this`input, this`consumed, this`reading
      ensures Counted() && reading && consumed == 0
      ensures input == old(input[consumed..])
    {
      if consumed > 0 {
        input := input[consumed..];
        consumed := 0;
      }
      reading := true;
    }

    /** stream_output: hand over all of output_writing that is left. */
    method Output()
      requires open && sending == 0 && partial < |writing|
      modifies this`sending
      ensures sending == |writing| - partial
    {
      sending := |writing| - partial;
    }

    /** The two output buffers change places; what was written after the last flush stays in output_waiting. */
    method Switch()
      requires sending == 0 && partial == 0 && 0 < flushed <= |waiting|
      modifies this`partial, this`writing, this`waiting, this`flushed
      ensures partial == flushed == 0 && writing == old(waiting[..flushed]) && waiting == old(waiting[flushed..])
      ensures old(waiting) == writing + waiting
    {
      partial := 0;
      writing := [];
      writing := writing + waiting[flushed..];
      waiting := waiting[..flushed];
      waiting, writing := writing, waiting;
      flushed := 0;
    }

    /** stream_update: start what can be started; a pending send is not touched. */
    method Update()
      requires Counted()
      modifies this`input, this`consumed, this`reading, this`sending, this`partial, this`writing, this`waiting
      modifies this`flushed
      ensures Settled()
      ensures !open || old(sending) > 0 ==>
                && sending == old(sending) && writing == old(writing) && partial == old(partial)
                && waiting == old(waiting) && flushed == old(flushed)
      ensures open && old(sending) == 0 && old(partial) == 0 ==> waiting == old(waiting[flushed..]) && flushed == 0
      ensures open && old(sending) == 0 && old(partial) > 0 ==> waiting == old(waiting) && flushed == old(flushed)
      ensures Unread() == old(Unread())
      ensures old(reading) ==> input == old(input) && consumed == old(consumed) && reading
      ensures flags != 0 ==> reading == old(reading) && input == old(input)
    {
      if !open || sending > 0 {
        return;
      }
      if partial > 0 {
        Output();
      } else if flushed > 0 {
        Switch();
        Output();
      } else if !reading && flags == 0 {
        Input();
      }
    }

    method Open(flags: int)
      requires Settled() && !open && !reading && dropped == [] && !ended && partial == consumed == 0
      modifies this`open, this`flags
      modifies this`input, this`consumed, this`reading, this`sending, this`partial, this`writing, this`waiting
      modifies this`flushed
      ensures Settled() && open && this.flags == flags
    {
      open := true;
      this.flags := flags;
      Update();
    }

    /** stream_allocate and stream_write. */
    method Write(data: Bytes)
      requires Counted()
      modifies this`waiting, this`written
      ensures Counted() && (old(Settled()) ==> Settled())
      ensures written == old(written) + data && waiting == old(waiting) + data
    {
      hide Unsent, Unread;
      assert sent + Unsent() + (waiting + data) == sent + Unsent() + waiting + data;
      waiting := waiting + data;
      written := written + data;
    }

    /** After a flush, everything written before it is either with the kernel or marked to follow. */
    method Flush()
      requires Counted()
      modifies this`input, this`consumed, this`reading, this`sending, this`partial, this`writing, this`waiting
      modifies this`flushed
      ensures Settled()
      ensures old(sending) > 0 ==> sending == old(sending) && writing == old(writing) && partial == old(partial)
      ensures open && old(sending) == 0 && old(partial) == 0 ==> waiting == [] && sent + Unsent() == written
      ensures flushed == |waiting|
      ensures Unread() == old(Unread())
      ensures old(reading) ==> input == old(input) && reading
    {
      flushed := |waiting|;
      Update();
    }

    method Consume(size: nat)
      requires Counted() && size <= |Unread()|
      modifies this`consumed, this`taken
      ensures Counted() && (old(Settled()) ==> Settled())
      ensures taken == old(taken) + old(Unread()[..size]) && consumed == old(consumed) + size
    {
      taken := taken + Unread()[..size];
      consumed := consumed + size;
    }

    /** Closing hands the memory of pending requests to their cancelled operations. */
    method Close()
      requires Counted()
      modifies this`open, this`reading, this`input, this`sending, this`writing, this`dropped, this`taken
      ensures Settled() && !open
      ensures old(!open) ==> dropped == old(dropped) && taken == old(taken)
      ensures old(open) ==> dropped == old(Unsent()) && old(taken) <= taken
      ensures input == if old(reading) then [] else old(input)
    {
      if open {
        dropped := Unsent();
      }
      if reading {
        taken := received;
        input := [];
        reading := false;
      }
      if sending > 0 {
        writing := [];
        sending := 0;
      }
      open := false;
    }

    /** The handler of the pending send, for a result that is not an error. */
    method Complete(result: nat)
      requires Settled() && sending > 0 && 0 < result <= sending
      modifies this`sent, this`offset
      modifies this`input, this`consumed, this`reading, this`sending, this`partial, this`writing, this`waiting
      modifies this`flushed
      ensures Settled()
      ensures sent == old(sent) + old(writing[partial..partial + result])
    {
      Advance(result);
      Update();
    }

    /** The same handler for an error: the user is told, and nothing is started. */
    method Fail()
      requires Settled() && sending > 0
      modifies this`sending
      ensures sending == 0
    {
      sending := 0;
    }

    method Advance(result: nat)
      requires Counted() && sending > 0 && 0 < result <= sending
      modifies this`sent, this`offset, this`sending, this`partial
      ensures Counted() && sending == 0
      ensures sent == old(sent) + writing[old(partial)..old(partial) + result]
    {
      hide *;
      WhileSending();
      SendPart(sent, writing, waiting, partial, result);
      sent := sent + writing[partial..partial + result];
      sending := 0;
      offset := offset + result;
      partial := partial + result;
      if partial == |writing| {
        partial := 0;
      }
      Recounted();
    }

    lemma WhileSending()
      requires Counted() && sending > 0
      ensures open && partial + sending == |writing| && flushed <= |waiting| && offset == |sent| && consumed <= |input|
      ensures written == sent + writing[partial..] + waiting && received == taken + Unread()
      ensures flags != 0 ==> !reading
    {
    }

    lemma Recounted()
      requires open && sending == 0 && (partial == 0 || partial < |writing|) && flushed <= |waiting|
      requires written == sent + (if partial == 0 then [] else writing[partial..]) + waiting
      requires offset == |sent| && consumed <= |input| && received == taken + Unread()
      requires flags != 0 ==> !reading
      ensures Counted()
    {
      hide Unread;
    }

    /** What the user does, where it is allowed: consuming no more than there is, and nothing after closing. */
    method Do(op: UserOp)
      requires Counted()
      modifies this`open, this`dropped, this`written, this`taken
      modifies this`input, this`consumed, this`reading, this`sending, this`partial, this`writing, this`waiting
      modifies this`flushed
      ensures Counted() && (old(Settled()) ==> Settled())
      ensures written == old(written) + (if op.Write? then op.data else []) && LoanKept()
      ensures op.Flush? ==> flushed == |waiting|
      ensures op.Consume? && op.size <= old(|Unread()|) ==> taken == old(taken) + old(Unread())[..op.size]
      ensures op.Close? ==> !open
      ensures old(reading) && reading ==> input == old(input)
    {
      match op {
        case Write(data) => Write(data);
        case Flush => Flush();
        case Consume(size) =>
          if size <= |input| - consumed || size == 0 {
            Consume(size);
          }
        case Close => Close();
      }
    }

    lemma ClosedIsQuiet()
      requires Counted()
      ensures !open ==> sending == 0
    {
    }

    /** The account of a stream between two events. */
    lemma Account()
      requires Settled()
      ensures sent <= written && taken <= received && (open ==> written == sent + Unsent() + waiting)
      ensures (open && sending == 0 ==> flushed == 0 && partial == 0) && (flags != 0 ==> !reading)
    {
    }

    /** What the user's callback does, one thing after the other. */
    method Callback(ops: seq<UserOp>)
      requires Counted()
      modifies this`open, this`dropped, this`written, this`taken
      modifies this`input, this`consumed, this`reading, this`sending, this`partial, this`writing, this`waiting
      modifies this`flushed
      ensures Counted() && (old(Settled()) ==> Settled())
      ensures written == old(written) + Written(ops) && LoanKept()
      ensures UserOp.Close in ops ==> !open
    {
      ClosedIsQuiet();
      hide Counted, Settled, Written, Unsent, Unread;
      WrittenNothing(ops);
      var k := 0;
      while k < |ops|
        invariant k <= |ops| && Counted() && (old(Settled()) ==> Settled())
        invariant written == old(written) + Written(ops[..k]) && LoanKept()
        invariant UserOp.Close in ops[..k] ==> !open
      {
        WrittenMore(ops, k);
        assert ops[..k + 1] == ops[..k] + [ops[k]];
        Regroup(old(written), Written(ops[..k]), if ops[k].Write? then ops[k].data else []);
        Do(ops[k]);
        k := k + 1;
      }
      assert ops[..k] == ops;
    }

    method Append(data: Bytes)
      requires Counted() && consumed <= |input|
      modifies this`input, this`received
      ensures Counted() && received == old(received) + data && input == old(input) + data
    {
      assert (input + data)[consumed..] == input[consumed..] + data;
      input := input + data;
      received := received + data;
    }

    /** Bytes have come in: they are appended, the callback runs, and what can be started is started. */
    method Feed(data: Bytes, ops: seq<UserOp>)
      requires Counted() && open
      modifies this`open, this`dropped, this`written, this`taken, this`received
      modifies this`input, this`consumed, this`reading, this`sending, this`partial, this`writing, this`waiting
      modifies this`flushed
      ensures Settled() && received == old(received) + data && written == old(written) + Written(ops) && LoanKept()
    {
      hide Unsent, Unread;
      Append(data);
      Callback(ops);
      Update();
    }

    /** The handler of the pending receive: 0 bytes mean that the peer is done; `ops` is what the callback does. */
    method Receive(data: Bytes, ops: seq<UserOp>)
      requires Settled() && reading
      modifies this`open, this`dropped, this`written, this`taken, this`received, this`ended
      modifies this`input, this`consumed, this`reading, this`sending, this`partial, this`writing, this`waiting
      modifies this`flushed
      ensures Settled()
      ensures received == old(received) + data && written == old(written) + Written(ops) && LoanKept()
      ensures data == [] ==> ended
    {
      reading := false;
      if data == [] {
        ended := true;
        Callback(ops);
      } else {
        Feed(data, ops);
      }
    }
  }

  /** One event, if it can happen: a completion needs its request. */
  method Handle(stream: Stream, e: Event)
    requires stream.Settled()
    modifies stream
    ensures stream.Settled() && stream.flags == old(stream.flags)
    ensures e.User? ==> stream.received == old(stream.received)
    ensures e.User? ==> stream.written == old(stream.written) + (if e.op.Write? then e.op.data else [])
    ensures e.Sent? && old(stream.sending) > 0 ==>
              |stream.sent| > |old(stream.sent)| && stream.written == old(stream.written)
    ensures e.Received? && old(stream.reading) ==>
              stream.received == old(stream.received) + e.data && stream.written == old(stream.written) + Written(e.ops)
    ensures (e.Sent? && old(stream.sending) == 0) || (e.Received? && !old(stream.reading)) ==>
              stream.received == old(stream.received) && stream.written == old(stream.written)
    ensures e.Sent? ==> stream.received == old(stream.received)
  {
    hide Written;
    match e {
      case User(op) => stream.Do(op);
      case Sent(n) =>
        if stream.sending > 0 {
          stream.Complete(1 + n % stream.sending);
        }
      case Received(data, ops) =>
        if stream.reading {
          stream.Receive(data, ops);
        }
    }
  }

  /** Any run of a stream, from opening it on; requests complete in any order, with any number of bytes. */
  method Run(flags: int, events: seq<Event>) returns (stream: Stream)
    ensures stream.Settled() && fresh(stream)
    ensures stream.sent <= stream.written && stream.taken <= stream.received
    ensures stream.open ==> stream.written == stream.sent + stream.Unsent() + stream.waiting
    ensures stream.open && stream.sending == 0 ==> stream.flushed == 0 && stream.partial == 0
    // With flags nothing is ever received, and what is written is then what the user writes.
    ensures flags != 0 ==> !stream.reading && stream.received == [] && stream.written == WrittenOutside(events)
  {
    hide Written, WrittenOutside, Stream.Counted;
    stream := new Stream();
    stream.Open(flags);
    NothingOutside(events);
    var k := 0;
    while k < |events|
      invariant 0 <= k <= |events|
      invariant stream.Settled() && fresh(stream) && stream.flags == flags
      invariant flags != 0 ==> stream.received == [] && stream.written == WrittenOutside(events[..k])
    {
      WrittenOutsideMore(events, k);
      stream.Account();
      Handle(stream, events[k]);
      k := k + 1;
    }
    assert events[..k] == events;
    stream.Account();
  }
}
