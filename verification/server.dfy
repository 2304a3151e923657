/** A session of the HTTP server (server.c): pipelined requests, handed to the user one at a time. */
module Sessions {
  /** What a read of the input finds next; an incomplete request is found later, when the rest has come. */
  datatype Found<Q> = Request(q: Q) | Malformed

  /** What the user does in the callback for a request: answer at once, answer later, or hang up. */
  datatype Reaction<A> = Answer(a: A) | Later | HangUp

  /** A request with its answer. */
  datatype Exchange<Q, A> = Exchange(request: Q, answer: A)

  datatype Event<Q, A> =
    | Received(found: seq<Found<Q>>, reactions: seq<Reaction<A>>)
    | PeerClosed
    | NextRound(reactions: seq<Reaction<A>>)
    | Answered(a: A)
    | Disconnected

  /** What the user does with the k-th request that is handed over; nothing yet if nothing is said. */
  function ReactionTo<A>(reactions: seq<Reaction<A>>, k: nat): Reaction<A> {
    if k < |reactions| then reactions[k] else Later
  }

  /** Whether the k-th item is a request that is answered at once, so that the reading goes on. */
  predicate Passes<Q, A>(input: seq<Found<Q>>, reactions: seq<Reaction<A>>, k: nat)
    requires k < |input|
  {
    input[k].Request? && ReactionTo(reactions, k).Answer?
  }

  /** The first item at which the reading does not go on, or the end of the input. */
  function Stop<Q, A>(input: seq<Found<Q>>, reactions: seq<Reaction<A>>): (k: nat)
    ensures k <= |input| && forall j :: 0 <= j < k ==> Passes(input, reactions, j)
    ensures k < |input| ==> !Passes(input, reactions, k)
  {
    StopFrom(input, reactions, 0)
  }

  function StopFrom<Q, A>(input: seq<Found<Q>>, reactions: seq<Reaction<A>>, i: nat): (k: nat)
    requires i <= |input|
    ensures i <= k <= |input| && forall j :: i <= j < k ==> Passes(input, reactions, j)
    ensures k < |input| ==> !Passes(input, reactions, k)
    decreases |input| - i
  {
    if i < |input| && Passes(input, reactions, i) then StopFrom(input, reactions, i + 1) else i
  }

  /** The requests handed over so far, the answers given, and the responses written. */
  datatype Record<Q, A> = Record(handed: seq<Q>, answered: seq<Exchange<Q, A>>, output: seq<A>)

  /** From r on, n items were handed over, and the first k of them answered as the reactions say. */
  ghost predicate Did<Q, A>(r: Record<Q, A>, s: Record<Q, A>, found: seq<Found<Q>>, reactions: seq<Reaction<A>>,
                            n: nat, k: nat)
  {
    && k <= n <= |found|
    && |s.handed| == |r.handed| + n && r.handed <= s.handed
    && |s.answered| == |r.answered| + k && r.answered <= s.answered
    && |s.output| == |r.output| + k && r.output <= s.output
    && (forall j :: 0 <= j < n ==> found[j] == Request(s.handed[|r.handed| + j]))
    && (forall j :: 0 <= j < k ==> found[j] == Request(s.answered[|r.answered| + j].request))
    && (forall j :: 0 <= j < k ==> ReactionTo(reactions, j) == Answer(s.answered[|r.answered| + j].answer))
    && (forall j :: 0 <= j < k ==> ReactionTo(reactions, j) == Answer(s.output[|r.output| + j]))
  }

  lemma DidNothing<Q, A>(r: Record<Q, A>, found: seq<Found<Q>>, reactions: seq<Reaction<A>>)
    ensures Did(r, r, found, reactions, 0, 0)
  {
  }

  /** The record after one more request. */
  function OneMore<Q, A>(s: Record<Q, A>, q: Q, reaction: Reaction<A>): Record<Q, A> {
    if reaction.Answer? then
      Record(s.handed + [q], s.answered + [Exchange(q, reaction.a)], s.output + [reaction.a])
    else s.(handed := s.handed + [q])
  }

  lemma DidOne<Q, A>(r: Record<Q, A>, s: Record<Q, A>, found: seq<Found<Q>>, reactions: seq<Reaction<A>>, i: nat, q: Q)
    requires Did(r, s, found, reactions, i, i) && i < |found| && found[i] == Request(q)
    ensures var reaction := ReactionTo(reactions, i);
      Did(r, OneMore(s, q, reaction), found, reactions, i + 1, if reaction.Answer? then i + 1 else i)
  {
    hide ReactionTo;
  }

  lemma PassesOn<Q, A>(input: seq<Found<Q>>, reactions: seq<Reaction<A>>, i: nat)
    requires i < |input| && input[i].Request? && ReactionTo(reactions, i).Answer?
    ensures Passes(input, reactions, i)
  {
  }

  lemma StopsAt<Q, A>(input: seq<Found<Q>>, reactions: seq<Reaction<A>>, i: nat)
    requires i <= |input| && forall j :: 0 <= j < i ==> Passes(input, reactions, j)
    requires i < |input| ==> input[i].Malformed? || !ReactionTo(reactions, i).Answer?
    ensures Stop(input, reactions) == i
  {
    var k := Stop(input, reactions);
    assert !(i < |input| && Passes(input, reactions, i));
  }

  class Session<Q, A> {
    var ready: bool
    var processing: bool
    // session->abort is set, and the flag it points to.
    var watched: bool
    var aborted: bool
    // A call of server_session_next is due.
    var next: bool
    var erased: bool

    // The stream: open, the requests that have arrived and were not read, the responses, and how many are flushed.
    var open: bool
    var input: seq<Found<Q>>
    var output: seq<A>
    var flushed: nat

    // What has arrived on the stream, what was handed to the user of it, and the answers given.
    ghost var arrived: seq<Found<Q>>
    ghost var handed: seq<Q>
    ghost var answered: seq<Exchange<Q, A>>

    ghost function Now(): Record<Q, A>
      reads `handed, `answered, `output
    {
      Record(handed, answered, output)
    }

    /** At most one request is with the user, none exactly if READY is set, and answers follow the requests. */
    ghost predicate InTurn()
      reads `ready, `handed, `answered
    {
      && |handed| == |answered| + (if ready then 0 else 1)
      && (forall k :: 0 <= k < |answered| ==> answered[k].request == handed[k])
    }

    /** Requests are handed over in the order they arrive, and none is left out. */
    ghost predicate InFull()
      reads `arrived, `input, `handed
    {
      && |handed| <= |arrived| && input == arrived[|handed|..]
      && (forall k :: 0 <= k < |handed| ==> arrived[k] == Request(handed[k]))
    }

    /** While the stream is open, the k-th response in the output is the answer to the k-th request. */
    ghost predicate InOrder()
      reads `output, `answered
    {
      |output| == |answered| && forall k :: 0 <= k < |output| ==> output[k] == answered[k].answer
    }

    /** What holds outside the handlers, until the session is erased. */
    ghost predicate Valid()
      reads this
    {
      && InTurn()
      && !processing && !watched
      && (!open ==> !ready)
      && (open ==> InFull() && InOrder() && flushed == |output|)
      // Nobody waits in vain: a request that could be read now will be.
      && (open && ready && input != [] ==> next)
    }

    constructor ()
      ensures Valid() && open && !erased && handed == [] && answered == [] && output == []
      ensures arrived == []
    {
      ready, processing, watched, aborted, next, erased := true, false, false, false, false, false;
      open, input, output, flushed := true, [], [], 0;
      arrived, handed, answered := [], [], [];
    }

    /** server_session_close */
    method Close()
      modifies this`open, this`aborted, this`next, this`erased
      ensures !open && !next && erased == (old(erased) || ready)
      ensures aborted == (old(aborted) || watched)
    {
      open := false;
      if watched {
        aborted := true;
      }
      if next {
        next := false;
      }
      if ready {
        erased := true;
      }
    }

    /** server_disconnect */
    method Disconnect()
      modifies this`ready, this`open, this`aborted, this`next, this`erased
      ensures ready && !open && !next && erased && aborted == (old(aborted) || watched)
    {
      ready := true;
      Close();
    }

    /** server_respond, for the request that is with the user. */
    method Respond(a: A)
      requires InTurn() && !ready && !erased
      requires open ==> InOrder()
      modifies this`ready, this`output, this`flushed, this`next, this`open, this`aborted, this`erased, this`answered
      ensures ready && InTurn()
      ensures answered == old(answered) + [Exchange(handed[|handed| - 1], a)]
      ensures old(open) ==> open && !erased && aborted == old(aborted) && InOrder() && output == old(output) + [a]
      ensures old(open) && processing ==> next == old(next) && flushed == old(flushed)
      ensures old(open) && !processing ==> next && flushed == |output|
      ensures !old(open) ==> erased && !open
    {
      answered := answered + [Exchange(handed[|handed| - 1], a)];
      ready := true;
      if open {
        output := output + [a];
        if !processing {
          flushed := |output|;
          next := true;
        }
      } else {
        Close();
      }
    }

    /** Nothing handed over, answered or written is taken back. */
    twostate predicate Grew()
      reads this
    {
      old(handed) <= handed && old(answered) <= answered && old(output) <= output
    }

    method Take(q: Q)
      requires input != [] && input[0] == Request(q) && InFull()
      modifies this`input, this`handed
      ensures handed == old(handed) + [q] && input == old(input[1..]) && InFull()
    {
      input := input[1..];
      handed := handed + [q];
    }

    /** The callback for a request, with the flags set around it. */
    method HandOver(q: Q, reaction: Reaction<A>)
      requires input != [] && input[0] == Request(q)
      requires InTurn() && InFull() && InOrder() && ready && !processing && !watched && !aborted && open && !erased
      modifies this`ready, this`processing, this`watched, this`output, this`flushed, this`next, this`open, this`aborted,
               this`erased, this`answered, this`handed, this`input
      ensures handed == old(handed) + [q] && input == old(input[1..]) && InFull() && Grew()
      ensures aborted <==> reaction.HangUp?
      ensures ready <==> !reaction.Later?
      ensures answered == old(answered) + (if reaction.Answer? then [Exchange(q, reaction.a)] else [])
      ensures output == old(output) + (if reaction.Answer? then [reaction.a] else [])
      ensures aborted ==> erased && !open
      ensures !aborted ==> InTurn() && InOrder() && open && !erased && next == old(next) && flushed == old(flushed)
      ensures !aborted ==> !processing && !watched
    {
      hide InOrder;
      Take(q);
      ready := false;
      processing := true;
      watched := true;
      match reaction {
        case Answer(a) => Respond(a);
        case Later =>
        case HangUp => Disconnect();
      }
      if aborted {
        return;
      }
      watched := false;
      processing := false;
    }

    /**
     * What a read of the items comes to, from the items and the reactions alone. The requests up to the first one
     * that is not answered at once are handed over, that one included. The session is erased exactly if that
     * request is answered by hanging up, or if a malformed item comes first.
     */
    twostate predicate Went(found: seq<Found<Q>>, reactions: seq<Reaction<A>>)
      reads this
    {
      if !old(ready) then
        Did(old(Now()), Now(), found, reactions, 0, 0) && !erased && open && !ready && input == found
      else
        var k := Stop(found, reactions);
        var n := if k < |found| && found[k].Request? then k + 1 else k;
        && Did(old(Now()), Now(), found, reactions, n, k)
        && (erased <==> k < |found| && (found[k].Malformed? || ReactionTo(reactions, k).HangUp?))
        && (erased ==> !open)
        && (!erased ==> open && input == found[n..] && (ready <==> k == |found|))
    }

    /**
     * server_session_read: requests are handed over one at a time, the next one only if the last is answered.
     * Afterwards either none is left, or one is with the user, or the session was closed.
     */
    method Read(reactions: seq<Reaction<A>>)
      requires InTurn() && InFull() && !processing && !watched && open && !erased && InOrder()
      modifies this
      ensures erased || (Valid() && open && next == old(next) && (ready ==> input == []))
      ensures Went(old(input), reactions) && arrived == old(arrived)
    {
      hide InTurn, InFull, InOrder, Stop, Did, Passes;
      var rest := reactions;
      ghost var found, i := input, 0;
      DidNothing(Now(), found, reactions);
      aborted := false;
      while ready
        invariant InTurn() && InFull() && !processing && !watched && !aborted && open && !erased && InOrder()
        invariant next == old(next) && arrived == old(arrived)
        invariant i <= |found| && (forall j :: 0 <= j < i ==> Passes(found, reactions, j))
        invariant ready ==> rest == if i <= |reactions| then reactions[i..] else []
        invariant old(ready) && ready ==>
                    input == found[i..] && Did(old(Now()), Now(), found, reactions, i, i)
        invariant !old(ready) ==>
                    !ready && input == found && Did(old(Now()), Now(), found, reactions, 0, 0)
        invariant old(ready) && !ready ==>
                    && i < |found| && found[i].Request? && ReactionTo(reactions, i).Later? && input == found[i + 1..]
                    && Did(old(Now()), Now(), found, reactions, i + 1, i)
        decreases |input|, ready
      {
        if input == [] {
          break;
        }
        var item := input[0];
        assert item == found[i];
        if item.Malformed? {
          StopsAt(found, reactions, i);
          Close();
          return;
        }
        ghost var reaction := ReactionTo(reactions, i);
        DidOne(old(Now()), Now(), found, reactions, i, item.q);
        ghost var after := OneMore(Now(), item.q, reaction);
        HandOver(item.q, if rest == [] then Later else rest[0]);
        rest := if rest == [] then [] else rest[1..];
        assert Now() == after;
        if aborted {
          StopsAt(found, reactions, i);
          return;
        }
        if ready {
          PassesOn(found, reactions, i);
          i := i + 1;
        }
      }
      if old(ready) {
        StopsAt(found, reactions, i);
      }
      flushed := |output|;
      AllFlushed();
    }

    lemma AllFlushed()
      requires InTurn() && InFull() && InOrder() && !processing && !watched && open && flushed == |output|
      requires ready ==> input == []
      ensures Valid()
    {
    }

    /** server_session_next */
    method Next(reactions: seq<Reaction<A>>)
      requires Valid() && next && open && !erased
      modifies this
      ensures erased || (Valid() && !next)
      ensures Went(old(input), reactions) && arrived == old(arrived)
    {
      next := false;
      Read(reactions);
    }

    /** server_session_stream */
    method Stream(found: seq<Found<Q>>, reactions: seq<Reaction<A>>, closed: bool)
      requires Valid() && open && !erased
      modifies this
      ensures erased || (Valid() && next == (old(next) && !closed))
      ensures !closed ==> Went(old(input) + found, reactions) && arrived == old(arrived) + found
      ensures closed ==> !open && erased == old(ready) && arrived == old(arrived)
      ensures closed ==> handed == old(handed) && answered == old(answered) && output == old(output)
    {
      if !closed {
        input := input + found;
        arrived := arrived + found;
        Read(reactions);
      } else {
        Close();
      }
    }
  }

  /** Nothing in an event gives a reason to end the session. */
  predicate Peaceful<Q, A>(e: Event<Q, A>) {
    match e
    case Received(found, reactions) =>
      && AllRequests(found)
      && (forall k :: 0 <= k < |reactions| ==> !reactions[k].HangUp?)
    case NextRound(reactions) => forall k :: 0 <= k < |reactions| ==> !reactions[k].HangUp?
    case Answered(_) => true
    case PeerClosed => false
    case Disconnected => false
  }

  predicate AllPeaceful<Q, A>(events: seq<Event<Q, A>>) {
    forall k :: 0 <= k < |events| ==> Peaceful(events[k])
  }

  predicate AllRequests<Q>(found: seq<Found<Q>>) {
    forall k :: 0 <= k < |found| ==> found[k].Request?
  }

  /** Everything that the events bring. */
  function Arrivals<Q, A>(events: seq<Event<Q, A>>): seq<Found<Q>> {
    if events == [] then []
    else
      var e := events[|events| - 1];
      Arrivals(events[..|events| - 1]) + (if e.Received? then e.found else [])
  }

  lemma ArrivalsStep<Q, A>(events: seq<Event<Q, A>>, k: nat)
    requires k < |events|
    ensures Arrivals(events[..k + 1]) == Arrivals(events[..k]) + (if events[k].Received? then events[k].found else [])
  {
    assert events[..k + 1][..k] == events[..k];
  }

  lemma {:induction false} ArrivalsRequests<Q, A>(events: seq<Event<Q, A>>)
    requires AllPeaceful(events)
    ensures AllRequests(Arrivals(events))
  {
    if events != [] {
      assert Peaceful(events[|events| - 1]);
      ArrivalsRequests(events[..|events| - 1]);
    }
  }

  /** A read without a malformed item or a reaction that hangs up does not stop at such a thing. */
  lemma StopsInPeace<Q, A>(found: seq<Found<Q>>, reactions: seq<Reaction<A>>)
    requires AllRequests(found)
    requires forall k :: 0 <= k < |reactions| ==> !reactions[k].HangUp?
    ensures var k := Stop(found, reactions);
      k < |found| ==> found[k].Request? && ReactionTo(reactions, k).Later?
  {
    hide StopFrom;
  }

  lemma PeaceSoFar<Q, A>(events: seq<Event<Q, A>>, k: nat)
    requires k < |events| && AllPeaceful(events[..k + 1])
    ensures AllPeaceful(events[..k]) && Peaceful(events[k])
    ensures AllRequests(Arrivals(events[..k]))
  {
    hide Peaceful;
    assert events[..k + 1][k] == events[k];
    assert forall j :: 0 <= j < k ==> events[..k][j] == events[..k + 1][j];
    ArrivalsRequests(events[..k]);
  }

  /** No event of this kind makes a read stop for good. */
  lemma InPeace<Q, A>(arrived: seq<Found<Q>>, handed: seq<Q>, input: seq<Found<Q>>, e: Event<Q, A>)
    requires |handed| <= |arrived| && input == arrived[|handed|..] && Peaceful(e)
    requires AllRequests(arrived)
    ensures e.Received? ==> StopsOnlyLate(input + e.found, e.reactions)
    ensures e.NextRound? ==> StopsOnlyLate(input, e.reactions)
  {
    hide Stop, ReactionTo;
    if e.Received? {
      StopsInPeace(input + e.found, e.reactions);
    } else if e.NextRound? {
      StopsInPeace(input, e.reactions);
    }
  }

  predicate StopsOnlyLate<Q, A>(found: seq<Found<Q>>, reactions: seq<Reaction<A>>) {
    var k := Stop(found, reactions);
    k < |found| ==> found[k].Request? && ReactionTo(reactions, k).Later?
  }

  /** One event, as far as the session can have it. */
  method Handle<Q, A>(session: Session<Q, A>, e: Event<Q, A>)
    requires session.Valid() && !session.erased
    modifies session
    ensures session.erased || session.Valid()
    ensures old(session.open) && Peaceful(e) && AllRequests(old(session.arrived)) ==>
              && !session.erased && session.open
              && session.arrived == old(session.arrived) + (if e.Received? then e.found else [])
              && (e.NextRound? ==> !session.next) && (e.Answered? ==> session.ready)
  {
    hide Stop, ReactionTo, Did;
    if session.open && Peaceful(e) && AllRequests(session.arrived) {
      InPeace(session.arrived, session.handed, session.input, e);
    }
    match e {
      case Received(found, reactions) =>
        if session.open {
          session.Stream(found, reactions, false);
        }
      case PeerClosed =>
        if session.open {
          session.Stream([], [], true);
        }
      case NextRound(reactions) =>
        if session.open && session.next {
          session.Next(reactions);
        }
      case Answered(a) =>
        if !session.ready {
          session.Respond(a);
        }
      case Disconnected => session.Disconnect();
    }
  }

  /**
   * Any run of a session with a user who answers each request once, in the callback or later. Requests with the
   * user are 0 or 1 in number at any time, and responses leave in the order of the requests.
   */
  method Run<Q, A>(events: seq<Event<Q, A>>) returns (session: Session<Q, A>)
    ensures fresh(session) && (session.erased || session.Valid())
    ensures !session.erased ==> |session.answered| <= |session.handed| <= |session.answered| + 1
    ensures !session.erased ==> (|session.handed| == |session.answered| <==> session.ready)
    ensures !session.erased && session.open && session.ready && !session.next ==>
              |session.handed| == |session.arrived|
    ensures !session.erased && session.open ==>
              && (forall k :: 0 <= k < |session.handed| <= |session.arrived| ==>
                    session.arrived[k] == Request(session.handed[k]))
              && |session.output| == |session.answered| == session.flushed
              && forall k :: 0 <= k < |session.output| ==>
                   session.answered[k] == Exchange(session.handed[k], session.output[k])
    // Without a reason to end it, the session goes on, has got all there was, and does what is due.
    ensures AllPeaceful(events) ==> !session.erased && session.open && session.arrived == Arrivals(events)
    ensures AllPeaceful(events) && events != [] ==>
              && (events[|events| - 1].NextRound? ==> !session.next)
              && (events[|events| - 1].Answered? ==> session.ready)
  {
    hide Peaceful;
    session := new Session();
    var k := 0;
    while k < |events| && !session.erased
      invariant 0 <= k <= |events| && fresh(session)
      invariant session.erased || session.Valid()
      invariant AllPeaceful(events[..k]) ==>
                  !session.erased && session.open && session.arrived == Arrivals(events[..k])
      invariant AllPeaceful(events[..k]) && k > 0 ==>
                  && (events[k - 1].NextRound? ==> !session.next) && (events[k - 1].Answered? ==> session.ready)
    {
      ArrivalsStep(events, k);
      if AllPeaceful(events[..k + 1]) {
        PeaceSoFar(events, k);
      }
      Handle(session, events[k]);
      k := k + 1;
    }
    assert k == |events| ==> events[..k] == events;
    assert AllPeaceful(events) ==> AllPeaceful(events[..k]);
  }
}
