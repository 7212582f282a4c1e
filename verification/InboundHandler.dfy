/** Inbound substreams of the P2P protocol handler: responses are queued behind the one
    being sent, a timeout asks the stream to end, and polling drives every stream as far as
    its transport allows. */
module InboundHandler {
  import opened Basics

  datatype Body = Status(message: int) | BlocksByRange(bytes: seq<int>) | BlocksByRoot(bytes: seq<int>)

  datatype Response =
    | Success(body: Body)
    | InvalidRequest(text: string)
    | ServerError(text: string)
    | Unknown(text: string)
    | StreamTermination(byRange: bool)
  {
    /** Response code on the wire; a stream termination has none. */
    function AsU8(): (code: int) {
      match this
      case Success(_) => 0
      case InvalidRequest(_) => 1
      case ServerError(_) => 2
      case Unknown(_) => 255
      case StreamTermination(_) => -1
    }

    predicate MultipleResponses() {
      match this
      case Success(Status(_)) => false
      case _ => true
    }

    predicate IsError() {
      !Success?
    }
  }

  /** Builds an error from a response code and its text. */
  function FromError(code: int, text: string): (r: Response) {
    match code
    case 1 => InvalidRequest(text)
    case 2 => ServerError(text)
    case _ => Unknown(text)
  }

  /** Zero means success, a termination has no code, and every error is rebuilt from its code. */
  lemma {:induction false} CodesReadBack(r: Response)
    ensures r.AsU8() == 0 <==> r.Success?
    ensures 0 <= r.AsU8() < 256 <==> !r.StreamTermination?
    ensures r.Unknown? <==> r.AsU8() == 255
    ensures r.InvalidRequest? || r.ServerError? || r.Unknown? ==> FromError(r.AsU8(), r.text) == r
  {}

  /** A framed substream, known by the frames that were handed to its encoder. */
  datatype Framed = Framed(frames: seq<Response>) {
    /** The encoder refuses anything without a response code. */
    function Send(item: Response): (r: Framed)
      requires item.AsU8() >= 0
    {
      Framed(frames + [item])
    }
  }

  datatype StreamState =
    | ResponsePendingSend(sub: Framed, closing: bool)
    | ResponseIdle(sub: Framed)
    | Closing(sub: Framed)
    | Poisoned

  datatype Slot = Slot(state: StreamState, hasTimer: bool)

  datatype Poll = PollReady | PollNotReady | PollErr

  /** What the transport answers the next time it is asked. */
  datatype Transport = Transport(poll: Poll, remoteClosed: bool)

  type RequestId = nat

  const TIMED_OUT := ServerError("Request timed out")

  ghost predicate NoTermination(s: seq<Response>) {
    forall i :: 0 <= i < |s| ==> !s[i].StreamTermination?
  }

  /** What should reach the wire: everything before the first stream termination. */
  function BeforeTermination(s: seq<Response>): (r: seq<Response>)
    ensures r <= s
  {
    if |s| == 0 || s[0].StreamTermination? then [] else [s[0]] + BeforeTermination(s[1..])
  }

  lemma {:induction false} BeforeTerminationSplit(a: seq<Response>, b: seq<Response>)
    requires NoTermination(a)
    ensures BeforeTermination(a + b) == a + BeforeTermination(b)
  {
    hide BeforeTermination;
    if |a| == 0 {
      assert a + b == b;
    } else {
      var rest := a[1..];
      assert NoTermination(rest);
      BeforeTerminationSplit(rest, b);
      assert (a + b)[1..] == rest + b;
      BeforeTerminationStep(a + b);
      assert a == [a[0]] + rest;
    }
  }

  lemma {:induction false} BeforeTerminationStep(s: seq<Response>)
    requires |s| > 0 && !s[0].StreamTermination?
    ensures BeforeTermination(s) == [s[0]] + BeforeTermination(s[1..])
  {}

  /** A termination-free prefix is a prefix of what precedes the first termination. */
  lemma {:induction false} PrefixStopsBeforeTermination(a: seq<Response>, h: seq<Response>)
    requires a <= h && NoTermination(a)
    ensures a <= BeforeTermination(h)
  {
    assert h == a + h[|a|..];
    BeforeTerminationSplit(a, h[|a|..]);
  }

  /** One stream: `queue` waits behind the current send and `handed` is everything the
      application and the timeout gave it. */
  ghost predicate StreamOk(state: StreamState, queue: seq<Response>, handed: seq<Response>) {
    && !state.Poisoned? && NoTermination(state.sub.frames)
    && match state
       case ResponseIdle(sub) => queue == [] && sub.frames == handed
       case ResponsePendingSend(sub, closing) => if closing then sub.frames <= handed else sub.frames + queue == handed
       case Closing(sub) => sub.frames <= handed
  }

  /** A stream that has not been told to close. */
  predicate Flowing(state: StreamState) {
    state.ResponseIdle? || (state.ResponsePendingSend? && !state.closing)
  }

  /** Where a response takes a stream. */
  function StateAfter(state: StreamState, response: Response): (r: StreamState) {
    match state
    case ResponseIdle(sub) =>
      if response.StreamTermination? then Closing(sub)
      else ResponsePendingSend(sub.Send(response), !response.MultipleResponses() || response.IsError())
    case ResponsePendingSend(sub, closing) => ResponsePendingSend(sub, closing || !response.MultipleResponses())
    case _ => state
  }

  /** Whether the response has to wait behind the one being sent. */
  predicate Queues(state: StreamState, response: Response) {
    state.ResponsePendingSend? && response.MultipleResponses()
  }

  /** The handler's tables beside what every stream was handed and sent since it was opened. */
  datatype Table = Table(
    inbound: map<RequestId, Slot>,
    timers: set<RequestId>,
    queued: map<RequestId, seq<Response>>,
    nextId: RequestId,
    handed: map<RequestId, seq<Response>>,
    wire: map<RequestId, seq<Response>>)

  function At(m: map<RequestId, seq<Response>>, id: RequestId): (q: seq<Response>) {
    if id in m then m[id] else []
  }

  /** The tables agree about one request id. */
  ghost predicate EntryOk(t: Table, id: RequestId) {
    && (id in t.wire <==> id in t.handed) && (id in t.inbound ==> id in t.wire)
    && (id in t.wire || id in t.queued ==> id < t.nextId)
    && (id in t.timers <==> id in t.inbound && t.inbound[id].hasTimer)
    && (id in t.wire ==> NoTermination(t.wire[id]) && t.wire[id] <= t.handed[id])
    && (id in t.inbound ==>
          && StreamOk(t.inbound[id].state, At(t.queued, id), t.handed[id])
          && t.wire[id] == t.inbound[id].state.sub.frames)
  }

  ghost predicate TableOk(t: Table) {
    forall id :: EntryOk(t, id)
  }

  /** Nothing but the entries of `id` differs. */
  ghost predicate OnlyTouches(id: RequestId, t: Table, t': Table) {
    && t'.nextId == t.nextId && t'.timers - {id} == t.timers - {id}
    && t'.inbound - {id} == t.inbound - {id} && t'.queued - {id} == t.queued - {id}
    && t'.handed - {id} == t.handed - {id} && t'.wire - {id} == t.wire - {id}
  }

  lemma {:induction false} SameAt<V>(m: map<RequestId, V>, m': map<RequestId, V>, id: RequestId, k: RequestId)
    requires m - {id} == m' - {id} && k != id
    ensures k in m <==> k in m'
    ensures k in m ==> m[k] == m'[k]
  {
    assert k in m <==> k in m - {id};
    assert k in m' <==> k in m' - {id};
    if k in m { assert (m - {id})[k] == m[k] && (m' - {id})[k] == m'[k]; }
  }

  /** All entries but one are in order. */
  ghost predicate OthersOk(t: Table, id: RequestId) {
    forall k :: k != id ==> EntryOk(t, k)
  }

  /** The state of one stream has been taken out and a poisoned one left in its place. */
  ghost predicate TakenOut(t: Table, id: RequestId) {
    && OthersOk(t, id)
    && id in t.inbound && t.inbound[id].state.Poisoned? && id in t.wire && id in t.handed && id < t.nextId
    && (id in t.timers <==> t.inbound[id].hasTimer)
    && NoTermination(t.wire[id]) && t.wire[id] <= t.handed[id]
  }

  /** A step that touches one stream and leaves its entry in order leaves the tables in order,
      even if that stream was poisoned before. */
  lemma {:induction false} TouchOne(id: RequestId, t: Table, t': Table)
    requires OthersOk(t, id) && OnlyTouches(id, t, t') && EntryOk(t', id)
    ensures TableOk(t')
  {
    forall k ensures EntryOk(t', k) {
      if k != id {
        assert EntryOk(t, k);
        SameAt(t.inbound, t'.inbound, id, k);
        SameAt(t.queued, t'.queued, id, k);
        SameAt(t.handed, t'.handed, id, k);
        SameAt(t.wire, t'.wire, id, k);
        assert k in t.timers <==> k in t.timers - {id};
        assert k in t'.timers <==> k in t'.timers - {id};
      }
    }
  }

  /** A stream that was told to close, or is gone. */
  ghost predicate Ended(t: Table, id: RequestId) {
    id in t.wire && (id in t.inbound ==> !Flowing(t.inbound[id].state))
  }

  /** Streams that have ended stay so and send nothing more. */
  ghost predicate StaysEnded(t: Table, t': Table) {
    forall id :: Ended(t, id) ==> Ended(t', id) && t'.wire[id] == t.wire[id]
  }

  /** The entries of one stream are the same in both. */
  ghost predicate Untouched(t: Table, t': Table, id: RequestId) {
    && (id in t.inbound <==> id in t'.inbound) && (id in t.inbound ==> t.inbound[id] == t'.inbound[id])
    && At(t'.queued, id) == At(t.queued, id) && At(t'.handed, id) == At(t.handed, id) && At(t'.wire, id) == At(t.wire, id)
  }

  /** What a fired timer does to a stream: one that is sending is handed an error and the end of
      the stream, an idle one stops flowing. */
  ghost predicate TimedOut(t: Table, t': Table, id: RequestId) {
    id in t.inbound ==>
      && id in t'.inbound
      && match t.inbound[id].state
         case ResponsePendingSend(_, closing) =>
           && t'.inbound[id].state == t.inbound[id].state
           && At(t'.handed, id) == At(t.handed, id) + if closing then [] else [ServerError("Request timed out"), StreamTermination(true)]
         case _ => !Flowing(t'.inbound[id].state)
  }

  /** All that is due has been sent, and the stream is open exactly if it was not told to end. */
  ghost predicate Served(t: Table, id: RequestId) {
    At(t.wire, id) == BeforeTermination(At(t.handed, id)) && (id in t.inbound <==> NoTermination(At(t.handed, id)))
  }

  /** Where a round takes a stream whose transport does not make it wait. */
  ghost predicate Advanced(state: StreamState, t: Table, id: RequestId, more: bool) {
    if Flowing(state) then
      && id in t.inbound
      && (if more then Flowing(t.inbound[id].state) || (t.inbound[id].state.Closing? && !NoTermination(At(t.handed, id))
                                                         && At(t.wire, id) == BeforeTermination(At(t.handed, id)))
          else t.inbound[id].state.ResponseIdle?)
    else if state.Closing? then id !in t.inbound
    else id in t.inbound && state.ResponsePendingSend? && t.inbound[id].state == Closing(state.sub)
  }

  /** One round on a stream in `state` turns `t` into `t'`; `polled` is the transport's answer
      unless it was not asked. */
  ghost predicate Round(id: RequestId, state: StreamState, t: Table, t': Table, polled: Option<Poll>, failed: bool, more: bool) {
    && TableOk(t') && OnlyTouches(id, t, t') && t'.handed == t.handed && At(t.wire, id) <= At(t'.wire, id)
    && (failed <==> state.ResponsePendingSend? && polled == Some(PollErr)) && (failed ==> !more && id !in t'.inbound)
    && (more ==> Flowing(state) && id in t'.inbound && |At(t'.queued, id)| == |At(t.queued, id)| - 1)
    && (!more ==> |At(t'.queued, id)| <= |At(t.queued, id)|)
    && (polled == Some(PollNotReady) ==> !more && id in t'.inbound && t'.inbound[id].state == state && At(t'.queued, id) == At(t.queued, id))
    && (failed ==> At(t'.queued, id) == At(t.queued, id))
    && (state.Closing? && polled != Some(PollNotReady) ==> id !in t'.inbound && At(t'.queued, id) == [])
    && (id in t.inbound && id in t'.inbound ==> t'.inbound[id].hasTimer == t.inbound[id].hasTimer)
    && (!Flowing(state) ==> Ended(t', id) && At(t'.wire, id) == At(t.wire, id))
    && (polled.None? || polled.value.PollReady? ==> Advanced(state, t', id, more))
  }

  class Handler {
    const io: nat -> Transport
    var ticks: nat
    var inbound: map<RequestId, Slot>
    var timers: set<RequestId>
    var queued: map<RequestId, seq<Response>>
    var nextId: RequestId
    /** Per stream ever opened: what was handed to it and what its encoder got. */
    ghost var handed: map<RequestId, seq<Response>>
    ghost var wire: map<RequestId, seq<Response>>

    ghost function Tables(): (t: Table)
      reads this
    {
      Table(inbound, timers, queued, nextId, handed, wire)
    }

    ghost predicate Valid()
      reads this
    {
      TableOk(Tables())
    }

    constructor (io: nat -> Transport)
      ensures Valid() && inbound == map[] && handed == map[] && this.io == io
    {
      this.io, ticks, nextId := io, 0, 1;
      inbound, queued, timers := map[], map[], {};
      handed, wire := map[], map[];
    }

    /** A negotiated inbound request gets the next id and an idle stream. */
    method InjectFullyNegotiatedInbound(goodbye: bool) returns (id: RequestId)
      requires Valid()
      modifies this
      ensures Valid()
      ensures goodbye ==> id == 0 && Tables() == old(Tables())
      ensures !goodbye ==> id == old(nextId) && id !in old(wire) && OnlyTouches(id, old(Tables()).(nextId := id + 1), Tables())
      ensures !goodbye ==> id in inbound && inbound[id] == Slot(ResponseIdle(Framed([])), true) && At(handed, id) == []
    {
      if goodbye { return 0; }
      id := nextId;
      ghost var t := Tables();
      assert EntryOk(t, id);
      assert TableOk(t.(nextId := id + 1)) by { LaterIds(t, id + 1); }
      timers := timers + {id};
      inbound := inbound[id := Slot(ResponseIdle(Framed([])), true)];
      handed, wire := handed[id := []], wire[id := []];
      nextId := nextId + 1;
      TouchOne(id, t.(nextId := id + 1), Tables());
    }

    /** Swaps a stream's state for a poisoned one, which no table in order holds. */
    method TakeOut(id: RequestId) returns (state: StreamState)
      requires Valid() && id in inbound
      modifies this`inbound
      ensures state == old(inbound)[id].state && !state.Poisoned?
      ensures inbound == old(inbound)[id := old(inbound)[id].(state := Poisoned)]
      ensures TakenOut(Tables(), id) && !Valid() && OnlyTouches(id, old(Tables()), Tables())
    {
      ghost var t := Tables();
      assert EntryOk(t, id);
      state := inbound[id].state;
      inbound := inbound[id := inbound[id].(state := Poisoned)];
      Poisoning(t, Tables(), id);
    }

    /** Puts a stream's state back after it was taken out, appends to its queue and notes
        what it was handed: all tables are in order again. */
    method PutBack(id: RequestId, slot: Slot, pushed: seq<Response>, ghost given: seq<Response>)
      requires TakenOut(Tables(), id)
      requires StreamOk(slot.state, At(queued, id) + pushed, At(handed, id) + given) && At(wire, id) <= slot.state.sub.frames
      modifies this`inbound, this`queued, this`handed, this`wire, this`timers
      ensures Valid() && OnlyTouches(id, old(Tables()), Tables()) && At(old(wire), id) <= At(wire, id)
      ensures id in inbound && inbound[id] == slot && At(queued, id) == At(old(queued), id) + pushed
      ensures id in wire && wire[id] == slot.state.sub.frames
      ensures At(handed, id) == At(old(handed), id) + given && (given == [] ==> handed == old(handed))
    {
      hide TakenOut, TableOk, StreamOk, OnlyTouches;
      ghost var t := Tables();
      Restored(t, id, slot, pushed, given);
      inbound := inbound[id := slot];
      timers := if slot.hasTimer then timers + {id} else timers - {id};
      queued := queued[id := At(queued, id) + pushed];
      handed := handed[id := handed[id] + given];
      wire := wire[id := slot.state.sub.frames];
      assert given == [] ==> old(handed)[id] + given == old(handed)[id] && handed == old(handed);
    }

    /** The application hands a response to a stream. */
    method InjectResponse(id: RequestId, response: Response)
      requires Valid()
      modifies this`inbound, this`timers, this`queued, this`handed, this`wire
      ensures Valid() && OnlyTouches(id, old(Tables()), Tables()) && At(old(wire), id) <= At(wire, id)
      ensures id !in old(inbound) ==> Tables() == old(Tables())
      ensures id in old(inbound) ==> id in inbound && At(handed, id) == At(old(handed), id) + [response]
      ensures id in old(inbound) ==>
                && inbound[id] == old(inbound)[id].(state := StateAfter(old(inbound)[id].state, response))
                && At(queued, id) == At(old(queued), id) + if Queues(old(inbound)[id].state, response) then [response] else []
    {
      hide TableOk;
      EntryAt(Tables(), id);
      hide OnlyTouches;
      if id !in inbound {
        TouchNothing(id, Tables());
        return;
      }
      var hasTimer, pushed := inbound[id].hasTimer, [];
      var state := TakeOut(id);
      ghost var t := Tables();
      match state {
        case ResponseIdle(sub) =>
          if response.StreamTermination? {
            state := Closing(sub);
          } else {
            state := ResponsePendingSend(sub.Send(response), !response.MultipleResponses() || response.IsError());
          }
        case ResponsePendingSend(sub, closing) =>
          if response.MultipleResponses() {
            pushed := [response];
          } else {
            state := ResponsePendingSend(sub, true);
          }
        case Closing(_) =>
        case Poisoned =>
          assert false;
      }
      PutBack(id, Slot(state, hasTimer), pushed, [response]);
      TouchesCompose(id, old(Tables()), t, Tables());
    }

    /** A stream's response timer fired: report the timeout and end the stream. */
    method CloseExpired(id: RequestId)
      requires Valid() && id in timers && id in inbound
      modifies this
      ensures Valid() && OnlyTouches(id, old(Tables()), Tables()) && At(old(wire), id) <= At(wire, id)
      ensures id in inbound && !inbound[id].hasTimer && id !in timers && old(ticks) <= ticks
      ensures var state := old(inbound)[id].state;
              match state
              case ResponsePendingSend(_, closing) =>
                && inbound[id].state == state
                && At(handed, id) == At(old(handed), id) + if closing then [] else [ServerError("Request timed out"), StreamTermination(true)]
              case ResponseIdle(sub) =>
                if io(old(ticks)).poll.PollReady? && io(old(ticks)).remoteClosed then
                  inbound[id].state == Closing(sub) && At(handed, id) == At(old(handed), id)
                else
                  && inbound[id].state == ResponsePendingSend(sub.Send(ServerError("Request timed out")), true)
                  && At(handed, id) == At(old(handed), id) + [ServerError("Request timed out")]
              case _ => inbound[id].state == state && At(handed, id) == At(old(handed), id)
    {
      hide TableOk;
      EntryAt(Tables(), id);
      hide OnlyTouches;
      var state := TakeOut(id);
      var pushed := [];
      ghost var t, given := Tables(), [];
      match state {
        case ResponsePendingSend(sub, closing) =>
          if !closing {
            pushed := [TIMED_OUT] + [StreamTermination(true)];
            given := pushed;
          }
        case ResponseIdle(sub) =>
          var answer := io(ticks);
          ticks := ticks + 1;
          if answer.poll.PollReady? && answer.remoteClosed {
            state := Closing(sub);
          } else {
            state := ResponsePendingSend(sub.Send(TIMED_OUT), true);
            given := [TIMED_OUT];
          }
        case Closing(sub) =>
        case Poisoned =>
          assert false;
      }
      PutBack(id, Slot(state, false), pushed, given);
      TouchesCompose(id, old(Tables()), t, Tables());
      EntryAt(Tables(), id);
    }

    /** All timers that fired, in the order the delay queue reports them. */
    method PurgeExpired(expired: seq<RequestId>)
      requires Valid() && Distinct(expired) && (forall i :: 0 <= i < |expired| ==> expired[i] in timers)
      modifies this
      ensures Valid() && inbound.Keys == old(inbound.Keys) && wire.Keys == old(wire.Keys)
      ensures forall id :: id in timers <==> id in old(timers) && id !in expired
      ensures (forall id :: At(old(wire), id) <= At(wire, id)) && StaysEnded(old(Tables()), Tables())
      ensures Purged(old(Tables()), Tables(), expired) && old(ticks) <= ticks
    {
      hide TableOk, StaysEnded, OnlyTouches, TimedOut, Purged;
      EndedSame(Tables());
      NothingPurged(Tables());
      var i := 0;
      while i < |expired|
        invariant 0 <= i <= |expired| && Valid()
        invariant inbound.Keys == old(inbound.Keys) && wire.Keys == old(wire.Keys)
        invariant forall id :: id in timers <==> id in old(timers) && id !in expired[..i]
        invariant (forall id :: At(old(wire), id) <= At(wire, id)) && StaysEnded(old(Tables()), Tables())
        invariant Purged(old(Tables()), Tables(), expired[..i]) && old(ticks) <= ticks
      {
        var id := expired[i];
        assert expired[..i + 1] == expired[..i] + [id] && id !in expired[..i];
        ghost var t := Tables();
        EntryAt(t, id);
        CloseExpired(id);
        EntryAt(Tables(), id);
        KeysKept(id, t, Tables());
        EndedOthers(id, t, Tables());
        EndedCompose(old(Tables()), t, Tables());
        assert TimedOut(t, Tables(), id) by { ExpiredEntry(t, Tables(), id); }
        PurgedNext(old(Tables()), t, Tables(), expired[..i], id);
        i := i + 1;
      }
      assert expired[..i] == expired;
    }

    /** Takes the next queued response, if there is one, once the previous one is out. */
    method ApplyQueuedResponses(id: RequestId, sub: Framed) returns (more: bool)
      requires TakenOut(Tables(), id) && wire[id] == sub.frames && sub.frames + At(queued, id) == handed[id]
      modifies this`inbound, this`queued, this`wire
      ensures Valid() && OnlyTouches(id, old(Tables()), Tables()) && id in inbound && At(old(wire), id) <= At(wire, id)
      ensures !inbound[id].state.Poisoned? && At(wire, id) == inbound[id].state.sub.frames
      ensures more <==> At(old(queued), id) != []
      ensures !more ==> inbound[id].state.ResponseIdle? && At(queued, id) == []
      ensures more ==>
                && At(queued, id) == At(old(queued), id)[1..]
                && var next := At(old(queued), id)[0];
                   if next.StreamTermination? then inbound[id].state == Closing(sub)
                   else inbound[id].state == ResponsePendingSend(sub.Send(next), false)
      ensures inbound[id].hasTimer == old(inbound)[id].hasTimer
    {
      hide OthersOk;
      ghost var t := Tables();
      var slot := inbound[id];
      if At(queued, id) != [] {
        more := true;
        var next := queued[id][0];
        queued := queued[id := queued[id][1..]];
        if next.StreamTermination? {
          inbound := inbound[id := slot.(state := Closing(sub))];
        } else {
          var sending := sub.Send(next);
          inbound := inbound[id := slot.(state := ResponsePendingSend(sending, false))];
          wire := wire[id := sending.frames];
        }
      } else {
        more := false;
        inbound := inbound[id := slot.(state := ResponseIdle(sub))];
      }
      TouchOne(id, t, Tables());
    }

    /** Drops a stream whose state was taken out, its timer if it still has one, and on
        request its queue. */
    method DropStream(id: RequestId, withQueue: bool)
      requires TakenOut(Tables(), id)
      modifies this`inbound, this`timers, this`queued
      ensures Valid() && OnlyTouches(id, old(Tables()), Tables())
      ensures id !in inbound && id !in timers && wire == old(wire)
      ensures At(queued, id) == if withQueue then [] else At(old(queued), id)
    {
      hide OthersOk;
      ghost var t := Tables();
      if inbound[id].hasTimer { timers := timers - {id}; }
      if withQueue { queued := queued - {id}; }
      inbound := inbound - {id};
      TouchOne(id, t, Tables());
    }

    /** Takes the next queued response of an open stream whose state was taken out, or leaves
        the stream idle. */
    method TakeNext(id: RequestId, state: StreamState, ghost polled: Option<Poll>) returns (more: bool)
      requires TakenOut(Tables(), id) && Flowing(state) && polled == if state.ResponseIdle? then None else Some(PollReady)
      requires StreamOk(state, At(queued, id), At(handed, id)) && At(wire, id) == state.sub.frames
      modifies this`inbound, this`queued, this`wire
      ensures Round(id, state, old(Tables()), Tables(), polled, false, more)
    {
      hide OthersOk, NoTermination, BeforeTermination, OnlyTouches, TableOk;
      ClosesAtTermination(state, At(queued, id), At(handed, id));
      more := ApplyQueuedResponses(id, state.sub);
    }

    /** Polls the send of a stream whose state was taken out. */
    method PollSend(id: RequestId, state: StreamState) returns (failed: bool, more: bool)
      requires TakenOut(Tables(), id) && state.ResponsePendingSend?
      requires StreamOk(state, At(queued, id), At(handed, id)) && At(wire, id) == state.sub.frames
      modifies this
      ensures ticks == old(ticks) + 1
      ensures Round(id, state, old(Tables()), Tables(), Some(io(old(ticks)).poll), failed, more)
    {
      hide TakenOut, NoTermination, OnlyTouches, TableOk, Advanced;
      failed, more := false, false;
      TakenIsThere(Tables(), id);
      var hasTimer := inbound[id].hasTimer;
      var answer := io(ticks);
      ticks := ticks + 1;
      match answer.poll {
        case PollReady =>
          if state.closing {
            PutBack(id, Slot(Closing(state.sub), hasTimer), [], []);
            assert Advanced(state, Tables(), id, more) by { StartsClosing(state, Tables(), id); }
          } else {
            more := TakeNext(id, state, Some(PollReady));
          }
        case PollNotReady =>
          PutBack(id, Slot(state, hasTimer), [], []);
        case PollErr =>
          DropStream(id, false);
          failed := true;
      }
    }

    /** Closes a stream whose state was taken out, as far as the transport allows. */
    method PollClose(id: RequestId, state: StreamState)
      requires TakenOut(Tables(), id) && state.Closing?
      requires StreamOk(state, At(queued, id), At(handed, id)) && At(wire, id) == state.sub.frames
      modifies this
      ensures ticks == old(ticks) + 1
      ensures Round(id, state, old(Tables()), Tables(), Some(io(old(ticks)).poll), false, false)
    {
      hide OthersOk, NoTermination, OnlyTouches, TableOk;
      var hasTimer := inbound[id].hasTimer;
      var answer := io(ticks);
      ticks := ticks + 1;
      match answer.poll {
        case PollNotReady =>
          PutBack(id, Slot(state, hasTimer), [], []);
        case _ =>
          DropStream(id, true);
      }
    }

    /** One round on one stream: polls the send, or takes the next queued response, or closes. */
    method DriveOnce(id: RequestId) returns (failed: bool, more: bool)
      requires Valid() && id in inbound
      modifies this
      ensures ticks == old(ticks) + if old(inbound)[id].state.ResponseIdle? then 0 else 1
      ensures Round(id, old(inbound)[id].state, old(Tables()), Tables(),
                    if old(inbound)[id].state.ResponseIdle? then None else Some(io(old(ticks)).poll), failed, more)
    {
      hide TableOk, TakenOut, NoTermination, Round;
      EntryAt(Tables(), id);
      hide OnlyTouches, StreamOk;
      failed, more := false, false;
      var state := TakeOut(id);
      ghost var t := Tables();
      match state {
        case ResponsePendingSend(_, _) =>
          failed, more := PollSend(id, state);
        case ResponseIdle(_) =>
          more := TakeNext(id, state, None);
        case Closing(_) =>
          PollClose(id, state);
        case Poisoned =>
          assert false;
      }
      RoundFromOpen(id, state, old(Tables()), t, Tables(), if state.ResponseIdle? then None else Some(io(old(ticks)).poll), failed, more);
    }

    /** The transport made nobody wait in that time. */
    ghost predicate Smooth(from: nat, to: nat) {
      forall k :: from <= k < to ==> io(k).poll.PollReady?
    }

    lemma {:induction false} SmoothBefore(from: nat, mid: nat, to: nat)
      requires from <= mid <= to
      ensures Smooth(from, to) <==> Smooth(from, mid) && Smooth(mid, to)
    {}

    lemma {:induction false} SmoothOnce(from: nat, to: nat)
      ensures from == to ==> Smooth(from, to)
      ensures to == from + 1 ==> (Smooth(from, to) <==> io(from).poll.PollReady?)
    {}

    /** Drives one stream until it waits, ends or fails.  If the transport never makes it
        wait, an open stream sends everything handed to it before the first termination,
        and it stays open exactly when there is no termination. */
    method DriveStream(id: RequestId) returns (failed: bool)
      requires Valid() && id in inbound
      modifies this
      ensures handed == old(handed) && Valid() && OnlyTouches(id, old(Tables()), Tables()) && At(old(wire), id) <= At(wire, id)
      ensures failed ==> id !in inbound && !Smooth(old(ticks), ticks)
      ensures old(ticks) <= ticks && StaysEnded(old(Tables()), Tables())
      ensures Smooth(old(ticks), ticks) && Flowing(old(inbound)[id].state) ==>
                && At(wire, id) == BeforeTermination(At(handed, id))
                && (id in inbound <==> NoTermination(At(handed, id)))
                && (id in inbound ==> inbound[id].state.ResponseIdle?)
      ensures Smooth(old(ticks), ticks) && !Flowing(old(inbound)[id].state) ==>
                if old(inbound)[id].state.Closing? then id !in inbound else id in inbound && inbound[id].state.Closing?
    {
      hide TableOk, OnlyTouches, NoTermination, BeforeTermination, StaysEnded, Smooth;
      SmoothOnce(ticks, ticks);
      ghost var flowing := Flowing(inbound[id].state);
      TouchNothing(id, Tables());
      EndedSame(Tables());
      var more := true;
      failed := false;
      while more
        invariant handed == old(handed) && Valid() && OnlyTouches(id, old(Tables()), Tables()) && At(old(wire), id) <= At(wire, id)
        invariant StaysEnded(old(Tables()), Tables())
        invariant failed ==> !Smooth(old(ticks), ticks)
        invariant old(ticks) <= ticks && (failed ==> !more && id !in inbound) && (more ==> id in inbound)
        invariant flowing && Smooth(old(ticks), ticks) ==>
                    Draining(inbound, At(wire, id), At(handed, id), id, more)
        invariant !flowing && more ==> inbound == old(inbound) && ticks == old(ticks)
        invariant !flowing && !more && Smooth(old(ticks), ticks) ==>
                    if old(inbound)[id].state.Closing? then id !in inbound else id in inbound && inbound[id].state.Closing?
        decreases |At(queued, id)| + if more then 1 else 0
      {
        ghost var t, from := Tables(), ticks;
        EntryAt(t, id);
        failed, more := DriveOnce(id);
        TouchesCompose(id, old(Tables()), t, Tables());
        EndedOthers(id, t, Tables());
        EndedCompose(old(Tables()), t, Tables());
        SmoothBefore(old(ticks), from, ticks);
        SmoothOnce(from, ticks);
      }
      if flowing && id in inbound && inbound[id].state.ResponseIdle? {
        EntryAt(Tables(), id);
        WholeWithoutTermination(At(handed, id));
      }
    }

    /** Drives one stream, seen from all. */
    method DriveOne(id: RequestId) returns (failed: bool)
      requires Valid() && id in inbound
      modifies this
      ensures Valid() && OnlyTouches(id, old(Tables()), Tables()) && handed == old(handed)
      ensures inbound.Keys <= old(inbound.Keys) && wire.Keys == old(wire.Keys) && StaysEnded(old(Tables()), Tables())
      ensures forall k :: k != id ==> (k in inbound <==> k in old(inbound))
      ensures forall k :: At(old(wire), k) <= At(wire, k)
      ensures old(ticks) <= ticks && (Smooth(old(ticks), ticks) ==> !failed && (FlowsAt(old(Tables()), id) ==> Served(Tables(), id)))
    {
      hide TableOk, OnlyTouches, StaysEnded, BeforeTermination, NoTermination;
      ghost var t := Tables();
      EntryAt(t, id);
      failed := DriveStream(id);
      EntryAt(Tables(), id);
      TouchesKeys(id, t, Tables());
    }

    /** Drives every stream in turn until one fails.  If the transport makes none of them wait,
        none fails, and every open stream sends all that is due. */
    method DriveAll(order: seq<RequestId>) returns (failed: bool)
      requires Valid() && Lists(order, inbound.Keys)
      modifies this
      ensures Valid() && inbound.Keys <= old(inbound.Keys) && wire.Keys == old(wire.Keys) && handed == old(handed)
      ensures (forall id :: At(old(wire), id) <= At(wire, id)) && StaysEnded(old(Tables()), Tables())
      ensures old(ticks) <= ticks
      ensures Smooth(old(ticks), ticks) ==> !failed && forall id :: FlowsAt(old(Tables()), id) ==> Served(Tables(), id)
    {
      hide TableOk, OnlyTouches, StaysEnded, Served, ServedUpTo, FlowsAt, Smooth;
      failed := false;
      ghost var t0 := Tables();
      NothingServed(t0, order);
      EndedSame(t0);
      var i := 0;
      while i < |order| && !failed
        invariant 0 <= i <= |order| && Valid() && wire.Keys == old(wire.Keys) && handed == old(handed)
        invariant inbound.Keys <= old(inbound.Keys)
        invariant forall j :: i <= j < |order| && !failed ==> order[j] in inbound
        invariant (forall id :: At(old(wire), id) <= At(wire, id)) && StaysEnded(t0, Tables())
        invariant old(ticks) <= ticks && (Smooth(old(ticks), ticks) ==> !failed && ServedUpTo(t0, Tables(), order, i))
      {
        ghost var t, from := Tables(), ticks;
        failed := DriveOne(order[i]);
        EndedCompose(t0, t, Tables());
        SmoothBefore(old(ticks), from, ticks);
        if Smooth(old(ticks), ticks) { ServedNext(t0, t, Tables(), order, i); }
        i := i + 1;
      }
      if Smooth(old(ticks), ticks) { AllServed(t0, Tables(), order); }
    }

    /** One call of the handler's poll, up to and including the inbound streams: expired timers
        first, then every stream in turn until one fails.  If the transport makes none of them
        wait, every stream that was open sends all that was due, after a timeout the error too,
        except that an idle stream that timed out is closing. */
    method PollInbound(expired: seq<RequestId>, outboundTimedOut: bool, order: seq<RequestId>) returns (failed: bool)
      requires Valid() && Distinct(expired) && (forall i :: 0 <= i < |expired| ==> expired[i] in timers)
      requires Lists(order, inbound.Keys)
      modifies this
      ensures Valid() && inbound.Keys <= old(inbound.Keys) && wire.Keys == old(wire.Keys)
      ensures (forall id :: At(old(wire), id) <= At(wire, id)) && StaysEnded(old(Tables()), Tables())
      ensures old(ticks) <= ticks
      ensures !outboundTimedOut && Smooth(old(ticks), ticks) ==>
                forall id :: FlowsAt(old(Tables()), id) && (old(inbound)[id].state.ResponseIdle? ==> id !in expired) ==>
                  && Served(Tables(), id)
                  && At(handed, id) == At(old(handed), id) + if id in expired then [ServerError("Request timed out"), StreamTermination(true)] else []
    {
      hide TableOk, OnlyTouches, StaysEnded, Served, Purged, BeforeTermination, NoTermination, Flowing, Smooth;
      failed := false;
      PurgeExpired(expired);
      if outboundTimedOut { return; }
      ghost var purged, from := Tables(), ticks;
      forall id | FlowsAt(old(Tables()), id) && (old(inbound)[id].state.ResponseIdle? ==> id !in expired)
        ensures FlowsAt(purged, id)
        ensures At(purged.handed, id) == At(old(handed), id) + if id in expired then [ServerError("Request timed out"), StreamTermination(true)] else []
      {
        StillFlows(old(Tables()), purged, expired, id);
      }
      failed := DriveAll(order);
      EndedCompose(old(Tables()), purged, Tables());
      SmoothBefore(old(ticks), from, ticks);
    }
  }

  ghost predicate FlowsAt(t: Table, id: RequestId) {
    id in t.inbound && Flowing(t.inbound[id].state)
  }

  lemma {:induction false} ServedMeans(t: Table, id: RequestId)
    ensures Served(t, id) <==> At(t.wire, id) == BeforeTermination(At(t.handed, id)) && (id in t.inbound <==> NoTermination(At(t.handed, id)))
  {}

  /** The timers of `done` have fired and nothing else happened. */
  ghost predicate Purged(t: Table, t': Table, done: seq<RequestId>) {
    forall id :: if id in done then TimedOut(t, t', id) else Untouched(t, t', id)
  }

  lemma {:induction false} NothingPurged(t: Table)
    ensures Purged(t, t, [])
  {}

  lemma {:induction false} PurgedNext(t0: Table, t: Table, t': Table, done: seq<RequestId>, id: RequestId)
    requires Purged(t0, t, done) && id !in done && OnlyTouches(id, t, t') && TimedOut(t, t', id)
    ensures Purged(t0, t', done + [id])
  {
    hide TimedOut, Untouched, OnlyTouches;
    forall k ensures if k in done + [id] then TimedOut(t0, t', k) else Untouched(t0, t', k) { OthersKept(id, t0, t, t', k); }
  }

  lemma {:induction false} StillFlows(t: Table, t': Table, expired: seq<RequestId>, id: RequestId)
    requires Purged(t, t', expired) && FlowsAt(t, id) && (t.inbound[id].state.ResponseIdle? ==> id !in expired)
    ensures FlowsAt(t', id)
    ensures At(t'.handed, id) == At(t.handed, id) + if id in expired then [ServerError("Request timed out"), StreamTermination(true)] else []
  {
    if id in expired { assert TimedOut(t, t', id); } else { assert Untouched(t, t', id); }
  }

  /** The first `i` streams have been driven and the others have not been touched. */
  ghost predicate ServedUpTo(t: Table, t': Table, order: seq<RequestId>, i: nat)
    requires i <= |order|
  {
    && (forall j :: 0 <= j < i ==> FlowsAt(t, order[j]) ==> Served(t', order[j]))
    && (forall j :: i <= j < |order| ==> Untouched(t, t', order[j]))
  }

  lemma {:induction false} NothingServed(t: Table, order: seq<RequestId>)
    ensures ServedUpTo(t, t, order, 0)
  {}

  lemma {:induction false} ServedNext(t0: Table, t: Table, t': Table, order: seq<RequestId>, i: nat)
    requires Distinct(order) && i < |order| && ServedUpTo(t0, t, order, i) && OnlyTouches(order[i], t, t')
    requires FlowsAt(t, order[i]) ==> Served(t', order[i])
    ensures ServedUpTo(t0, t', order, i + 1)
  {
    hide Served, OnlyTouches;
    assert Untouched(t0, t, order[i]);
    forall j | 0 <= j < |order| && j != i { OthersServed(order[i], t0, t, t', order[j]); }
  }

  lemma {:induction false} AllServed(t: Table, t': Table, order: seq<RequestId>)
    requires Lists(order, t.inbound.Keys) && ServedUpTo(t, t', order, |order|)
    ensures forall id :: FlowsAt(t, id) ==> Served(t', id)
  {
    hide Served;
    forall id | FlowsAt(t, id) ensures Served(t', id) {
      assert id in order;
      var j :| 0 <= j < |order| && order[j] == id;
    }
  }

  lemma {:induction false} ExpiredEntry(t: Table, t': Table, id: RequestId)
    requires id in t.inbound && id in t'.inbound
    requires match t.inbound[id].state
             case ResponsePendingSend(_, closing) =>
               && t'.inbound[id].state == t.inbound[id].state
               && At(t'.handed, id) == At(t.handed, id) + if closing then [] else [ServerError("Request timed out"), StreamTermination(true)]
             case _ => !Flowing(t'.inbound[id].state)
    ensures TimedOut(t, t', id)
  {}

  lemma {:induction false} TouchesUntouched(id: RequestId, t: Table, t': Table, k: RequestId)
    requires OnlyTouches(id, t, t') && k != id
    ensures Untouched(t, t', k)
  {
    SameAt(t.inbound, t'.inbound, id, k);
    SameAt(t.queued, t'.queued, id, k);
    SameAt(t.handed, t'.handed, id, k);
    SameAt(t.wire, t'.wire, id, k);
  }

  /** A step on one stream leaves what happened to the others before. */
  lemma {:induction false} OthersKept(id: RequestId, t0: Table, t: Table, t': Table, k: RequestId)
    requires OnlyTouches(id, t, t')
    ensures k != id && Untouched(t0, t, k) ==> Untouched(t0, t', k)
    ensures k != id && TimedOut(t0, t, k) ==> TimedOut(t0, t', k)
    ensures k == id && Untouched(t0, t, k) && TimedOut(t, t', k) ==> TimedOut(t0, t', k)
  {
    hide OnlyTouches;
    if k != id { TouchesUntouched(id, t, t', k); }
  }

  lemma {:induction false} OthersServed(id: RequestId, t0: Table, t: Table, t': Table, k: RequestId)
    requires OnlyTouches(id, t, t') && k != id
    ensures Untouched(t0, t, k) ==> Untouched(t0, t', k)
    ensures Served(t, k) ==> Served(t', k)
  {
    hide OnlyTouches, BeforeTermination, NoTermination;
    TouchesUntouched(id, t, t', k);
  }

  lemma {:induction false} TakenIsThere(t: Table, id: RequestId)
    requires TakenOut(t, id)
    ensures id in t.inbound && id in t.wire && id in t.handed
  {}

  lemma {:induction false} StartsClosing(state: StreamState, t: Table, id: RequestId)
    requires state.ResponsePendingSend? && state.closing && id in t.inbound && t.inbound[id].state == Closing(state.sub)
    ensures Advanced(state, t, id, false)
  {}

  /** A round that starts once the state is taken out is one of the whole call. */
  lemma {:induction false} RoundFromOpen(id: RequestId, state: StreamState, open: Table, t: Table, t': Table, polled: Option<Poll>,
                                         failed: bool, more: bool)
    requires Round(id, state, t, t', polled, failed, more) && OnlyTouches(id, open, t)
    requires t.handed == open.handed && t.queued == open.queued && t.wire == open.wire
    requires id in open.inbound && id in t.inbound && t.inbound[id].hasTimer == open.inbound[id].hasTimer
    ensures Round(id, state, open, t', polled, failed, more)
  {
    hide TableOk, OnlyTouches, Advanced;
    TouchesCompose(id, open, t, t');
  }

  lemma {:induction false} EndedSame(t: Table)
    ensures StaysEnded(t, t)
  {}

  lemma {:induction false} EndedCompose(a: Table, b: Table, c: Table)
    requires StaysEnded(a, b) && StaysEnded(b, c)
    ensures StaysEnded(a, c)
  {
    forall id | Ended(a, id) ensures Ended(c, id) && c.wire[id] == a.wire[id] { assert Ended(b, id); }
  }

  lemma {:induction false} EndedOthers(id: RequestId, t: Table, t': Table)
    requires OnlyTouches(id, t, t') && (Ended(t, id) ==> Ended(t', id) && t'.wire[id] == t.wire[id])
    ensures StaysEnded(t, t')
  {
    forall k | Ended(t, k) ensures Ended(t', k) && t'.wire[k] == t.wire[k] {
      if k != id {
        SameAt(t.inbound, t'.inbound, id, k);
        SameAt(t.wire, t'.wire, id, k);
      }
    }
  }

  /** The tables with a stream's state put back. */
  ghost function WithState(t: Table, id: RequestId, slot: Slot, pushed: seq<Response>, given: seq<Response>): (r: Table)
    requires id in t.handed && !slot.state.Poisoned?
  {
    Table(t.inbound[id := slot], if slot.hasTimer then t.timers + {id} else t.timers - {id}, t.queued[id := At(t.queued, id) + pushed],
          t.nextId, t.handed[id := t.handed[id] + given], t.wire[id := slot.state.sub.frames])
  }

  lemma {:induction false} Restored(t: Table, id: RequestId, slot: Slot, pushed: seq<Response>, given: seq<Response>)
    requires TakenOut(t, id) && StreamOk(slot.state, At(t.queued, id) + pushed, At(t.handed, id) + given)
    requires At(t.wire, id) <= slot.state.sub.frames
    ensures id in t.handed && id in t.wire && !slot.state.Poisoned?
    ensures TableOk(WithState(t, id, slot, pushed, given)) && OnlyTouches(id, t, WithState(t, id, slot, pushed, given))
  {
    hide OthersOk, StreamOk;
    StreamOkWire(slot.state, At(t.queued, id) + pushed, At(t.handed, id) + given);
    TouchOne(id, t, WithState(t, id, slot, pushed, given));
  }

  lemma {:induction false} Poisoning(t: Table, t': Table, id: RequestId)
    requires TableOk(t) && id in t.inbound && t' == t.(inbound := t.inbound[id := t.inbound[id].(state := Poisoned)])
    ensures TakenOut(t', id) && !TableOk(t') && OnlyTouches(id, t, t')
  {
    forall k | k != id ensures EntryOk(t', k) { assert EntryOk(t, k); }
    assert EntryOk(t, id) && !EntryOk(t', id);
  }

  lemma {:induction false} EntryAt(t: Table, id: RequestId)
    requires TableOk(t)
    ensures EntryOk(t, id)
  {}

  /** When the next queued response is a termination, everything due has been sent. */
  lemma {:induction false} ClosesAtTermination(state: StreamState, queue: seq<Response>, handed: seq<Response>)
    requires StreamOk(state, queue, handed) && Flowing(state)
    ensures |queue| > 0 && queue[0].StreamTermination? ==>
              !NoTermination(handed) && state.sub.frames == BeforeTermination(handed)
  {
    if |queue| > 0 && queue[0].StreamTermination? {
      BeforeTerminationSplit(state.sub.frames, queue);
      assert handed[|state.sub.frames|] == queue[0];
    }
  }

  /** Where an open stream can be while it is driven without waiting. */
  ghost predicate Draining(inbound: map<RequestId, Slot>, wire: seq<Response>, handed: seq<Response>, id: RequestId, more: bool) {
    if id !in inbound then !more && !NoTermination(handed) && wire == BeforeTermination(handed)
    else
      || (Flowing(inbound[id].state) && (more || inbound[id].state.ResponseIdle?))
      || (more && inbound[id].state.Closing? && !NoTermination(handed) && wire == BeforeTermination(handed))
  }

  lemma {:induction false} WholeWithoutTermination(s: seq<Response>)
    requires NoTermination(s)
    ensures BeforeTermination(s) == s
  {
    BeforeTerminationSplit(s, []);
    assert s + [] == s && BeforeTermination([]) == [];
  }

  lemma {:induction false} TouchesCompose(id: RequestId, a: Table, b: Table, c: Table)
    requires OnlyTouches(id, a, b) && OnlyTouches(id, b, c)
    ensures OnlyTouches(id, a, c)
  {}

  lemma {:induction false} TouchesKeys(id: RequestId, t: Table, t': Table)
    requires OnlyTouches(id, t, t') && (id in t.wire <==> id in t'.wire) && id in t.inbound
    ensures t'.inbound.Keys <= t.inbound.Keys && t'.wire.Keys == t.wire.Keys
    ensures forall k :: k != id ==> (k in t'.inbound <==> k in t.inbound) && At(t'.wire, k) == At(t.wire, k)
  {
    forall k | k != id
      ensures k in t.inbound <==> k in t'.inbound
      ensures k in t.wire <==> k in t'.wire
      ensures At(t'.wire, k) == At(t.wire, k)
    {
      SameAt(t.inbound, t'.inbound, id, k);
      SameAt(t.wire, t'.wire, id, k);
    }
  }

  lemma {:induction false} TouchNothing(id: RequestId, t: Table)
    ensures OnlyTouches(id, t, t)
  {}

  lemma {:induction false} StreamOkWire(state: StreamState, queue: seq<Response>, handed: seq<Response>)
    requires StreamOk(state, queue, handed)
    ensures !state.Poisoned? && NoTermination(state.sub.frames) && state.sub.frames <= handed
  {}

  lemma {:induction false} LaterIds(t: Table, n: RequestId)
    requires TableOk(t) && t.nextId <= n
    ensures TableOk(t.(nextId := n))
  {
    forall id ensures EntryOk(t.(nextId := n), id) { assert EntryOk(t, id); }
  }

  lemma {:induction false} KeysKept(id: RequestId, t: Table, t': Table)
    requires OnlyTouches(id, t, t') && (id in t.inbound <==> id in t'.inbound) && (id in t.wire <==> id in t'.wire)
    ensures t'.inbound.Keys == t.inbound.Keys && t'.wire.Keys == t.wire.Keys
    ensures forall k :: k != id ==> (k in t'.timers <==> k in t.timers) && At(t'.wire, k) == At(t.wire, k)
  {
    forall k | k != id
      ensures At(t'.wire, k) == At(t.wire, k)
      ensures k in t.inbound <==> k in t'.inbound
      ensures k in t.wire <==> k in t'.wire
      ensures k in t'.timers <==> k in t.timers
    {
      SameAt(t.inbound, t'.inbound, id, k);
      SameAt(t.wire, t'.wire, id, k);
      assert k in t.timers <==> k in t.timers - {id};
      assert k in t'.timers <==> k in t'.timers - {id};
    }
  }

  /** In every reachable state, what the encoder of a stream got is a prefix of what was
      handed to the stream before its first termination, and every frame has a code. */
  lemma {:induction false} WireIsPrefix(t: Table, id: RequestId)
    requires TableOk(t) && id in t.wire
    ensures t.wire[id] <= BeforeTermination(At(t.handed, id))
    ensures forall i :: 0 <= i < |t.wire[id]| ==> t.wire[id][i].AsU8() >= 0
    ensures id in t.inbound ==> !t.inbound[id].state.Poisoned? && (t.inbound[id].state.ResponseIdle? ==> At(t.queued, id) == [])
  {
    EntryAt(t, id);
    PrefixStopsBeforeTermination(t.wire[id], t.handed[id]);
  }

  datatype Event =
    | Negotiated(goodbye: bool)
    | Respond(id: RequestId, response: Response)
    | PollOnce(expired: seq<RequestId>, outboundTimedOut: bool, order: seq<RequestId>)

  /** Any interleaving of negotiations, responses and polls, whatever the transport answers:
      the tables stay in order, no frame is taken back, a stream that has ended sends nothing
      more, and every stream ever opened sent a prefix of what it was handed before its first
      termination. */
  method Run(h: Handler, events: seq<Event>)
    requires h.Valid()
    modifies h
    ensures h.Valid()
    ensures (forall id :: At(old(h.wire), id) <= At(h.wire, id)) && StaysEnded(old(h.Tables()), h.Tables())
    ensures forall id :: id in h.wire ==> h.wire[id] <= BeforeTermination(At(h.handed, id))
  {
    hide TableOk, OnlyTouches, BeforeTermination, StaysEnded;
    EndedSame(h.Tables());
    var i := 0;
    while i < |events|
      invariant 0 <= i <= |events| && h.Valid()
      invariant (forall id :: At(old(h.wire), id) <= At(h.wire, id)) && StaysEnded(old(h.Tables()), h.Tables())
    {
      ghost var t := h.Tables();
      EndedSame(t);
      match events[i] {
        case Negotiated(goodbye) =>
          var id := h.InjectFullyNegotiatedInbound(goodbye);
          if !goodbye {
            TouchesWire(id, t.(nextId := id + 1), h.Tables());
            EndedElsewhere(id, t, h.Tables());
          }
        case Respond(id, response) =>
          h.InjectResponse(id, response);
          TouchesWire(id, t, h.Tables());
          EntryAt(t, id);
          EntryAt(h.Tables(), id);
          EndedOthers(id, t, h.Tables());
        case PollOnce(expired, timedOut, order) =>
          // The delay queue reports distinct live timers and the keys are collected once.
          if (forall k :: 0 <= k < |expired| ==> expired[k] in h.timers)
            && (forall k, l :: 0 <= k < l < |expired| ==> expired[k] != expired[l])
            && (forall k :: 0 <= k < |order| ==> order[k] in h.inbound) && (forall id :: id in h.inbound ==> id in order)
            && (forall k, l :: 0 <= k < l < |order| ==> order[k] != order[l])
          {
            var _ := h.PollInbound(expired, timedOut, order);
          }
      }
      EndedCompose(old(h.Tables()), t, h.Tables());
      i := i + 1;
    }
    forall id | id in h.wire ensures h.wire[id] <= BeforeTermination(At(h.handed, id)) { WireIsPrefix(h.Tables(), id); }
  }

  lemma {:induction false} TouchesWire(id: RequestId, t: Table, t': Table)
    requires OnlyTouches(id, t, t')
    ensures forall k :: k != id ==> At(t'.wire, k) == At(t.wire, k)
  {
    forall k | k != id ensures At(t'.wire, k) == At(t.wire, k) { SameAt(t.wire, t'.wire, id, k); }
  }

  lemma {:induction false} EndedElsewhere(id: RequestId, t: Table, t': Table)
    requires OnlyTouches(id, t.(nextId := id + 1), t') && id !in t.wire
    ensures StaysEnded(t, t')
  {
    EndedOthers(id, t.(nextId := id + 1), t');
    forall k | Ended(t, k) ensures Ended(t', k) && t'.wire[k] == t.wire[k] { assert Ended(t.(nextId := id + 1), k); }
  }

  /** An answer after which its stream takes no other: the one answer to a status request, or
      an error. */
  predicate Final(response: Response) {
    (response.Success? && response.body.Status?) || response.InvalidRequest? || response.ServerError? || response.Unknown?
  }

  /** A final answer handed to an idle stream is its last frame, whatever happens afterwards.
      One handed to a stream that has ended is not sent at all.  The single answer to a status
      request is dropped by a stream that is sending, which then ends with the frame it is
      sending, whatever is queued. */
  method FinalEnds(h: Handler, id: RequestId, response: Response, events: seq<Event>)
    requires h.Valid() && id in h.inbound && Final(response)
    modifies h
    ensures h.Valid()
    ensures old(h.inbound)[id].state.ResponseIdle? ==> At(h.wire, id) == At(old(h.wire), id) + [response]
    ensures !Flowing(old(h.inbound)[id].state) || (response.Success? && !old(h.inbound)[id].state.ResponseIdle?) ==>
              At(h.wire, id) == At(old(h.wire), id)
  {
    hide TableOk, OnlyTouches, BeforeTermination;
    EntryAt(h.Tables(), id);
    h.InjectResponse(id, response);
    EntryAt(h.Tables(), id);
    assert !old(h.inbound)[id].state.ResponsePendingSend? || old(h.inbound)[id].state.closing || response.Success? ==> Ended(h.Tables(), id);
    Run(h, events);
  }

  /** If the transport does not make it wait, an idle stream that got a final answer is closing
      after the next drive and gone after the one after that. */
  method FinalCloses(h: Handler, id: RequestId, response: Response)
    requires h.Valid() && id in h.inbound && h.inbound[id].state.ResponseIdle? && Final(response)
    modifies h
    ensures h.Valid() && old(h.ticks) <= h.ticks
    ensures h.Smooth(old(h.ticks), h.ticks) ==>
              id !in h.inbound && At(h.wire, id) == At(old(h.wire), id) + [response]
  {
    hide TableOk, OnlyTouches, BeforeTermination, NoTermination;
    EntryAt(h.Tables(), id);
    h.InjectResponse(id, response);
    EntryAt(h.Tables(), id);
    ghost var t, from := h.Tables(), h.ticks;
    var _ := h.DriveStream(id);
    assert Ended(t, id);
    EntryAt(h.Tables(), id);
    ghost var first := h.ticks;
    if id in h.inbound {
      assert h.Smooth(from, first) ==> h.inbound[id].state.Closing?;
      var _ := h.DriveStream(id);
    }
  }

  /** An error handed to an open stream that is sending does not end it: if the transport does
      not make the stream wait, a chunk handed later follows the error. */
  method ErrorThenChunk(h: Handler, id: RequestId, error: Response, chunk: Response)
    requires h.Valid() && id in h.inbound && h.inbound[id].state.ResponsePendingSend? && !h.inbound[id].state.closing
    requires Final(error) && !error.Success? && !chunk.StreamTermination? && (chunk.Success? ==> !chunk.body.Status?)
    requires NoTermination(At(h.handed, id))
    modifies h
    ensures h.Valid() && old(h.ticks) <= h.ticks
    ensures h.Smooth(old(h.ticks), h.ticks) ==>
              At(h.wire, id) == At(old(h.handed), id) + [error, chunk] && id in h.inbound && h.inbound[id].state.ResponseIdle?
  {
    hide TableOk, OnlyTouches, BeforeTermination, NoTermination, StaysEnded, Queues;
    ghost var given := At(h.handed, id);
    h.InjectResponse(id, error);
    assert h.inbound[id].state.ResponsePendingSend? && !h.inbound[id].state.closing;
    h.InjectResponse(id, chunk);
    assert Flowing(h.inbound[id].state);
    TwoMore(given, error, chunk);
    var _ := h.DriveStream(id);
  }

  lemma {:induction false} TwoMore(given: seq<Response>, a: Response, b: Response)
    requires NoTermination(given) && !a.StreamTermination? && !b.StreamTermination?
    ensures given + [a] + [b] == given + [a, b] && NoTermination(given + [a, b])
    ensures BeforeTermination(given + [a, b]) == given + [a, b]
  {
    hide BeforeTermination;
    WholeWithoutTermination(given + [a, b]);
  }

  /** A stream that sends a chunk, then an error, then another chunk. */
  method ErrorIsNotLast(first: Body, second: Body) returns (h: Handler, id: RequestId)
    requires !first.Status? && !second.Status?
    ensures h.Valid() && At(h.wire, id) == [Success(first), ServerError("busy"), Success(second)]
  {
    hide TableOk, OnlyTouches, BeforeTermination;
    h := new Handler(_ => Transport(PollReady, false));
    id := h.InjectFullyNegotiatedInbound(false);
    h.InjectResponse(id, Success(first));
    assert At(h.handed, id) == [Success(first)];
    ErrorThenChunk(h, id, ServerError("busy"), Success(second));
    assert [Success(first)] + [ServerError("busy"), Success(second)] == [Success(first), ServerError("busy"), Success(second)];
  }
}
