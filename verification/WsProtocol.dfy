/**
 One connection end to end: the client actor, the two FIFO wires, the server's
 read loop, and one server goroutine per stream, interleaved in any order and
 without transport failure.

 A handler puts responses into its stream's channel and at some point ends it;
 the goroutine of the stream takes them out one by one and writes them, and
 after the last one it deregisters the stream and writes `complete`.
 */
module WsProtocol {
  import opened WsClient

  /** Where the goroutine of a stream is. */
  datatype Position = Reading | Holding(response: Response) | Ending | Deregistered | Finished

  /** A server stream: everything its handler produced, the part not yet taken out, and its goroutine. */
  datatype Stream = Stream(
    produced: seq<Response>, queue: seq<Response>, ended: bool, cancelled: bool, at: Position)

  /** `taken[id]` counts the responses the application has taken out of the client's channel `id`. */
  datatype System = System(
    client: ClientState, taken: seq<nat>,
    toServer: seq<ClientMessage>, toClient: seq<ServerMessage>,
    streams: map<int, Stream>, registry: set<int>)

  datatype Event =
    | Open
    | Close(id: int)
    | ClientReads
    | Take(id: int)
    | ServerReads
    | Produce(id: int, response: Response)
    | End(id: int)
    | Advance(id: int)

  const INITIAL := System(ClientState([], {}), [], [], [], map[], {})

  /** A response channel buffers one response: the actor waits until the application has made room. */
  predicate HasRoom(s: System, m: ServerMessage) {
    m.Data? && m.id in s.client.live && 0 <= m.id < |s.taken| && m.id < |s.client.sent| ==>
      |s.client.sent[m.id]| == s.taken[m.id]
  }

  predicate Enabled(s: System, e: Event) {
    match e
    case Open => true
    case Close(id) => true
    case ClientReads => s.toClient != [] && HasRoom(s, s.toClient[0])
    case Take(id) => 0 <= id < |s.taken| && id < |s.client.sent| && s.taken[id] < |s.client.sent[id]|
    case ServerReads => s.toServer != []
    case Produce(id, _) => id in s.streams && !s.streams[id].ended
    case End(id) => id in s.streams && !s.streams[id].ended
    case Advance(id) =>
      && id in s.streams
      && !s.streams[id].at.Finished?
      && (s.streams[id].at.Reading? ==> s.streams[id].queue != [] || s.streams[id].ended)
  }

  /** The goroutine of stream `id` makes its next move. */
  function Advanced(s: System, id: int): System
    requires Enabled(s, Advance(id))
  {
    var st := s.streams[id];
    match st.at
    case Reading =>
      s.(streams := s.streams[id :=
           if st.queue == [] then st.(at := Ending) else st.(queue := st.queue[1..], at := Holding(st.queue[0]))])
    case Holding(r) =>
      s.(toClient := s.toClient + [Data(id, r)], streams := s.streams[id := st.(at := Reading)])
    case Ending =>
      s.(registry := s.registry - {id}, streams := s.streams[id := st.(at := Deregistered)])
    case Deregistered =>
      s.(toClient := s.toClient + [Complete(id)], streams := s.streams[id := st.(at := Finished, cancelled := true)])
    case Finished => s
  }

  function Next(s: System, e: Event): System
    requires Enabled(s, e) && WellFormed(s.client)
  {
    match e
    case Open =>
      s.(client := Opened(s.client, true, true), taken := s.taken + [0],
         toServer := s.toServer + [Start(|s.client.sent|)])
    case Close(id) =>
      if id in s.client.live then s.(toServer := s.toServer + [Stop(id)]) else s
    case ClientReads =>
      s.(client := Received(s.client, s.toClient[0]), toClient := s.toClient[1..])
    case Take(id) =>
      s.(taken := s.taken[id := s.taken[id] + 1])
    case ServerReads =>
      var rest := s.(toServer := s.toServer[1..]);
      (match s.toServer[0]
       case Start(id) =>
         rest.(streams := s.streams[id := Stream([], [], false, false, Reading)], registry := s.registry + {id})
       case Stop(id) =>
         if id in s.registry && id in s.streams
         then rest.(streams := s.streams[id := s.streams[id].(cancelled := true)]) else rest)
    case Produce(id, r) =>
      s.(streams := s.streams[id :=
           s.streams[id].(produced := s.streams[id].produced + [r], queue := s.streams[id].queue + [r])])
    case End(id) =>
      s.(streams := s.streams[id := s.streams[id].(ended := true)])
    case Advance(id) => Advanced(s, id)
  }

  // ----- what is on the wires for one stream -----

  /** The messages of stream `id` in a wire, in order. */
  function Inbox(wire: seq<ServerMessage>, id: int): seq<ServerMessage> {
    if wire == [] then []
    else (if IsFor(wire[0], id) then [wire[0]] else []) + Inbox(wire[1..], id)
  }

  predicate IsFor(m: ServerMessage, id: int) {
    (m.Data? || m.Complete?) && m.id == id
  }

  function Payloads(messages: seq<ServerMessage>): seq<Response> {
    if messages == [] then []
    else Payload(messages[0]) + Payloads(messages[1..])
  }

  function Payload(m: ServerMessage): seq<Response> {
    if m.Data? then [m.response] else []
  }

  function Starts(wire: seq<ClientMessage>, id: int): nat {
    if wire == [] then 0 else (if wire[0] == Start(id) then 1 else 0) + Starts(wire[1..], id)
  }

  lemma {:induction false} InboxAppend(wire: seq<ServerMessage>, m: ServerMessage, id: int)
    ensures Inbox(wire + [m], id) == if IsFor(m, id) then Inbox(wire, id) + [m] else Inbox(wire, id)
  {
    if wire == [] {
      assert (wire + [m])[1..] == [];
    } else {
      InboxAppend(wire[1..], m, id);
      assert (wire + [m])[1..] == wire[1..] + [m];
    }
  }

  lemma {:induction false} PayloadsAppend(messages: seq<ServerMessage>, m: ServerMessage)
    ensures Payloads(messages + [m]) == Payloads(messages) + Payload(m)
    ensures Payload(m) == if m.Data? then [m.response] else []
  {
    if messages == [] {
      assert (messages + [m])[1..] == [];
    } else {
      hide Payload;
      PayloadsAppend(messages[1..], m);
      assert (messages + [m])[1..] == messages[1..] + [m];
      Regrouped(Payload(messages[0]), Payloads(messages[1..]), Payload(m));
    }
  }

  lemma Regrouped(a: seq<Response>, b: seq<Response>, c: seq<Response>)
    ensures a + (b + c) == a + b + c
  {
  }

  lemma {:induction false} StartsAppend(wire: seq<ClientMessage>, m: ClientMessage, id: int)
    ensures Starts(wire + [m], id) == Starts(wire, id) + (if m == Start(id) then 1 else 0)
  {
    if wire == [] {
      assert (wire + [m])[1..] == [];
    } else {
      StartsAppend(wire[1..], m, id);
      assert (wire + [m])[1..] == wire[1..] + [m];
    }
  }

  // ----- the invariant -----

  /** What the goroutine has taken from the handler but not yet written. */
  function Held(st: Stream): seq<Response> {
    if st.at.Holding? then [st.at.response] else []
  }

  /** A stream's messages are data, followed by `complete` once its goroutine has finished and by nothing more. */
  ghost predicate WireShape(messages: seq<ServerMessage>, finished: bool, id: int) {
    if finished then
      && |messages| > 0
      && messages[|messages| - 1] == Complete(id)
      && forall k :: 0 <= k < |messages| - 1 ==> messages[k].Data?
    else forall k :: 0 <= k < |messages| ==> messages[k].Data?
  }

  ghost predicate GoroutineOk(st: Stream, registered: bool) {
    && (registered <==> st.at.Reading? || st.at.Holding? || st.at.Ending?)
    && (st.at.Ending? || st.at.Deregistered? || st.at.Finished? ==> st.queue == [] && st.ended)
  }

  ghost predicate StreamOk(s: System, id: int) {
    if !(0 <= id < |s.client.sent|) then
      id !in s.streams && id !in s.registry && Inbox(s.toClient, id) == [] && Starts(s.toServer, id) == 0
    else if id !in s.streams then
      && id in s.client.live && id !in s.registry
      && s.client.sent[id] == [] && Inbox(s.toClient, id) == [] && Starts(s.toServer, id) == 1
    else
      var st := s.streams[id];
      && Starts(s.toServer, id) == 0
      && GoroutineOk(st, id in s.registry)
      && (if id in s.client.live then
            && WireShape(Inbox(s.toClient, id), st.at.Finished?, id)
            && s.client.sent[id] + Payloads(Inbox(s.toClient, id)) + Held(st) + st.queue == st.produced
          else
            && st.at.Finished? && Inbox(s.toClient, id) == [] && s.client.sent[id] == st.produced)
  }

  ghost predicate Inv(s: System) {
    && WellFormed(s.client)
    && |s.taken| == |s.client.sent|
    && (forall id :: 0 <= id < |s.taken| ==> s.taken[id] <= |s.client.sent[id]| <= s.taken[id] + 1)
    && (forall k :: 0 <= k < |s.toClient| ==> s.toClient[k].Data? || s.toClient[k].Complete?)
    && (forall id :: StreamOk(s, id))
  }

  lemma OpenKeeps(s: System, id: int)
    requires Inv(s)
    ensures StreamOk(Next(s, Open), id)
  {
    assert StreamOk(s, id);
    StartsAppend(s.toServer, Start(|s.client.sent|), id);
  }

  lemma CloseKeeps(s: System, closed: int, id: int)
    requires Inv(s)
    ensures StreamOk(Next(s, Close(closed)), id)
  {
    assert StreamOk(s, id);
    StartsAppend(s.toServer, Stop(closed), id);
  }

  /** The message the client is about to read belongs to a live stream. */
  lemma HeadIsLive(s: System)
    requires Inv(s) && s.toClient != []
    ensures (s.toClient[0].Data? || s.toClient[0].Complete?) && s.toClient[0].id in s.client.live
  {
    var m := s.toClient[0];
    assert StreamOk(s, m.id);
    assert Inbox(s.toClient, m.id)[0] == m;
  }

  lemma ClientReadsKeeps(s: System, id: int)
    requires Inv(s) && Enabled(s, ClientReads)
    ensures StreamOk(Next(s, ClientReads), id)
  {
    hide Next, StreamOk, Inbox;
    HeadIsLive(s);
    assert StreamOk(s, id);
    InboxOfRest(s.toClient, id);
    var m := s.toClient[0];
    if m.id != id {
      OtherIsRead(s, id);
    } else if m.Complete? {
      CompleteIsRead(s, id);
    } else {
      DataIsRead(s, id);
    }
  }

  lemma InboxOfRest(wire: seq<ServerMessage>, id: int)
    requires wire != []
    ensures Inbox(wire, id) == (if IsFor(wire[0], id) then [wire[0]] else []) + Inbox(wire[1..], id)
  {
  }

  lemma OtherIsRead(s: System, id: int)
    requires WellFormed(s.client) && StreamOk(s, id) && Enabled(s, ClientReads)
    requires (s.toClient[0].Data? || s.toClient[0].Complete?) && s.toClient[0].id in s.client.live
    requires s.toClient[0].id != id && Inbox(s.toClient, id) == [] + Inbox(s.toClient[1..], id)
    ensures StreamOk(Next(s, ClientReads), id)
  {
    hide Inbox, Payloads, Starts;
    assert [] + Inbox(s.toClient[1..], id) == Inbox(s.toClient[1..], id);
  }

  lemma CompleteIsRead(s: System, id: int)
    requires WellFormed(s.client) && StreamOk(s, id) && Enabled(s, ClientReads)
    requires s.toClient[0] == Complete(id) && id in s.client.live
    requires Inbox(s.toClient, id) == [Complete(id)] + Inbox(s.toClient[1..], id)
    ensures StreamOk(Next(s, ClientReads), id)
  {
    hide Inbox, Starts;
    var box := Inbox(s.toClient, id);
    assert box[0] == Complete(id);
    assert |box| == 1;
    assert box == [Complete(id)] && Inbox(s.toClient[1..], id) == [];
    assert Payloads(box) == [] by { assert box[1..] == []; }
    assert s.client.sent[id] + [] + [] + [] == s.client.sent[id];
  }

  lemma DataIsRead(s: System, id: int)
    requires WellFormed(s.client) && StreamOk(s, id) && Enabled(s, ClientReads)
    requires s.toClient[0].Data? && s.toClient[0].id == id && id in s.client.live
    requires Inbox(s.toClient, id) == [s.toClient[0]] + Inbox(s.toClient[1..], id)
    ensures StreamOk(Next(s, ClientReads), id)
  {
    hide Inbox, Starts, Payloads;
    var m, box, rest := s.toClient[0], Inbox(s.toClient, id), Inbox(s.toClient[1..], id);
    assert box[0] == m && box[1..] == rest;
    assert forall k :: 0 <= k < |rest| ==> rest[k] == box[k + 1];
    FirstPayload(box);
    Regrouped(s.client.sent[id], [m.response], Payloads(rest));
  }

  lemma FirstPayload(messages: seq<ServerMessage>)
    requires messages != [] && messages[0].Data?
    ensures Payloads(messages) == [messages[0].response] + Payloads(messages[1..])
  {
  }

  lemma ServerReadsKeeps(s: System, id: int)
    requires WellFormed(s.client) && StreamOk(s, id) && Enabled(s, ServerReads)
    ensures StreamOk(Next(s, ServerReads), id)
  {
    hide Inbox;
  }

  lemma AdvanceKeepsOthers(s: System, moved: int, id: int)
    requires Inv(s) && Enabled(s, Advance(moved)) && id != moved
    ensures StreamOk(Next(s, Advance(moved)), id)
  {
    assert StreamOk(s, id);
    var t, at := Next(s, Advance(moved)), s.streams[moved].at;
    if at.Holding? {
      InboxAppend(s.toClient, Data(moved, at.response), id);
    } else if at.Deregistered? {
      InboxAppend(s.toClient, Complete(moved), id);
    }
    assert Inbox(t.toClient, id) == Inbox(s.toClient, id);
  }

  lemma AdvanceKeepsOwn(s: System, id: int)
    requires Inv(s) && Enabled(s, Advance(id))
    ensures StreamOk(Next(s, Advance(id)), id)
  {
    assert StreamOk(s, id);
    match s.streams[id].at {
      case Holding(_) => HeldIsSent(s, id);
      case Deregistered => EndIsSent(s, id);
      case Reading => NextIsHeld(s, id);
      case _ =>
    }
  }

  lemma HeldIsSent(s: System, id: int)
    requires WellFormed(s.client) && StreamOk(s, id) && Enabled(s, Advance(id)) && s.streams[id].at.Holding?
    ensures StreamOk(Next(s, Advance(id)), id)
  {
    hide Inbox, Payloads, Starts;
    var st, box := s.streams[id], Inbox(s.toClient, id);
    var r := st.at.response;
    InboxAppend(s.toClient, Data(id, r), id);
    PayloadsAppend(box, Data(id, r));
    assert s.client.sent[id] + (Payloads(box) + [r]) + [] + st.queue ==
           s.client.sent[id] + Payloads(box) + [r] + st.queue;
  }

  lemma EndIsSent(s: System, id: int)
    requires WellFormed(s.client) && StreamOk(s, id) && Enabled(s, Advance(id)) && s.streams[id].at.Deregistered?
    ensures StreamOk(Next(s, Advance(id)), id)
  {
    hide Inbox, Payloads, Starts;
    InboxAppend(s.toClient, Complete(id), id);
    PayloadsAppend(Inbox(s.toClient, id), Complete(id));
  }

  lemma NextIsHeld(s: System, id: int)
    requires WellFormed(s.client) && StreamOk(s, id) && Enabled(s, Advance(id)) && s.streams[id].at.Reading?
    ensures StreamOk(Next(s, Advance(id)), id)
  {
    hide Inbox, Payloads, Starts;
    var st := s.streams[id];
    if st.queue != [] {
      assert st.queue == [st.queue[0]] + st.queue[1..];
    }
  }

  lemma ProduceKeeps(s: System, e: Event, id: int)
    requires Inv(s) && (e.Produce? || e.End?) && Enabled(s, e)
    ensures StreamOk(Next(s, e), id)
  {
    assert StreamOk(s, id) && StreamOk(s, e.id);
    if e.Produce? && id == e.id && id in s.client.live {
      var st := s.streams[id];
      var before := s.client.sent[id] + Payloads(Inbox(s.toClient, id)) + Held(st);
      assert before + (st.queue + [e.response]) == (before + st.queue) + [e.response];
    }
  }

  lemma NextKeepsInv(s: System, e: Event)
    requires Inv(s) && Enabled(s, e)
    ensures Inv(Next(s, e))
  {
    hide StreamOk;
    if e.ClientReads? {
      HeadIsLive(s);
    }
    ChannelsKept(s, e);
    forall id
      ensures StreamOk(Next(s, e), id)
    {
      StreamIsKept(s, e, id);
    }
  }

  /** What the invariant says of the client and the wire. */
  lemma ChannelsKept(s: System, e: Event)
    requires Inv(s) && Enabled(s, e)
    requires e.ClientReads? ==> s.toClient[0].id in s.client.live
    ensures (var t := Next(s, e);
             && WellFormed(t.client) && |t.taken| == |t.client.sent|
             && (forall id :: 0 <= id < |t.taken| ==> t.taken[id] <= |t.client.sent[id]| <= t.taken[id] + 1)
             && (forall k :: 0 <= k < |t.toClient| ==> t.toClient[k].Data? || t.toClient[k].Complete?))
  {
    hide StreamOk;
  }

  lemma StreamIsKept(s: System, e: Event, id: int)
    requires Inv(s) && Enabled(s, e)
    ensures StreamOk(Next(s, e), id)
  {
    hide Next;
    match e
    case Open => OpenKeeps(s, id);
    case Close(closed) => CloseKeeps(s, closed, id);
    case ClientReads => ClientReadsKeeps(s, id);
    case Take(taken) => TakeKeeps(s, taken, id);
    case ServerReads =>
      assert StreamOk(s, id);
      ServerReadsKeeps(s, id);
    case Produce(_, _) => ProduceKeeps(s, e, id);
    case End(_) => ProduceKeeps(s, e, id);
    case Advance(moved) =>
      if id == moved {
        AdvanceKeepsOwn(s, id);
      } else {
        AdvanceKeepsOthers(s, moved, id);
      }
  }

  lemma TakeKeeps(s: System, taken: int, id: int)
    requires Inv(s) && Enabled(s, Take(taken))
    ensures StreamOk(Next(s, Take(taken)), id)
  {
    assert StreamOk(s, id);
  }

  // ----- whole runs -----

  /** `t` is reached from `s` through the given events. */
  ghost predicate Run(s: System, events: seq<Event>, t: System)
    decreases |events|
  {
    if events == [] then s == t
    else WellFormed(s.client) && Enabled(s, events[0]) && Run(Next(s, events[0]), events[1..], t)
  }

  lemma {:induction false} RunKeepsInv(s: System, events: seq<Event>, t: System)
    requires Inv(s) && Run(s, events, t)
    ensures Inv(t)
    decreases |events|
  {
    if events != [] {
      NextKeepsInv(s, events[0]);
      RunKeepsInv(Next(s, events[0]), events[1..], t);
    }
  }

  lemma InitialInv()
    ensures Inv(INITIAL)
  {
    assert forall id :: StreamOk(INITIAL, id);
  }

  /** In every reachable state, for every stream the server knows: what the client's channel got, what is
      in flight, what the goroutine holds and what is still queued make up the handler's output; and a
      closed channel got all of it, after the handler had ended. */
  lemma Delivery(events: seq<Event>, s: System, id: int)
    requires Run(INITIAL, events, s) && 0 <= id < |s.client.sent|
    ensures id in s.streams ==>
              var st := s.streams[id];
              s.client.sent[id] + Payloads(Inbox(s.toClient, id)) + Held(st) + st.queue == st.produced
    ensures id !in s.streams ==> s.client.sent[id] == [] && id in s.client.live
    ensures id !in s.client.live ==>
              id in s.streams && s.streams[id].ended && s.client.sent[id] == s.streams[id].produced
  {
    InitialInv();
    RunKeepsInv(INITIAL, events, s);
    assert StreamOk(s, id);
  }

  /** The client never takes the branch for an id it does not know. */
  lemma NoInvalidOperationId(events: seq<Event>, s: System)
    requires Run(INITIAL, events, s) && s.toClient != []
    ensures (s.toClient[0].Data? || s.toClient[0].Complete?) && s.toClient[0].id in s.client.live
  {
    InitialInv();
    RunKeepsInv(INITIAL, events, s);
    HeadIsLive(s);
  }

  /** Nothing is left to do for any stream, short of handlers producing more or ending. */
  ghost predicate Quiet(s: System) {
    && s.toServer == [] && s.toClient == [] && |s.taken| == |s.client.sent|
    && forall id :: 0 <= id < |s.client.sent| ==>
         && id in s.streams
         && s.taken[id] == |s.client.sent[id]|
         && s.client.sent[id] == s.streams[id].produced
         && (s.streams[id].ended <==> id !in s.client.live)
  }

  /** A move of the two wires, a goroutine, or the application taking a response: no new request, no new response. */
  predicate Internal(e: Event) {
    e.ClientReads? || e.ServerReads? || e.Advance? || e.Take?
  }

  /** No deadlock: unless everything produced has been delivered and every ended stream closed, the
      system can make an internal move. */
  lemma NoDeadlock(s: System) returns (e: Event)
    requires Inv(s) && !Quiet(s)
    ensures Internal(e) && Enabled(s, e)
  {
    e := ClientReads;
    if s.toServer != [] {
      e := ServerReads;
    } else if s.toClient != [] {
      HeadIsLive(s);
      if !HasRoom(s, s.toClient[0]) {
        e := Take(s.toClient[0].id);
      }
    } else {
      var id :| 0 <= id < |s.client.sent| && !(
        && id in s.streams
        && s.taken[id] == |s.client.sent[id]|
        && s.client.sent[id] == s.streams[id].produced
        && (s.streams[id].ended <==> id !in s.client.live));
      assert StreamOk(s, id);
      e := if s.taken[id] < |s.client.sent[id]| then Take(id) else Advance(id);
    }
  }

  // ----- everything is delivered in the end -----

  function Weight(at: Position): nat {
    match at
    case Reading => 5
    case Holding(_) => 8
    case Ending => 4
    case Deregistered => 3
    case Finished => 0
  }

  /** The internal moves stream `id` can still cause, other than by messages on the wires. */
  function StreamWork(s: System, id: nat): nat
    requires id < |s.client.sent| && id < |s.taken|
  {
    (if s.taken[id] <= |s.client.sent[id]| then |s.client.sent[id]| - s.taken[id] else 0)
    + (if id in s.streams then 4 * |s.streams[id].queue| + Weight(s.streams[id].at) else 0)
  }

  function StreamsWork(s: System, n: nat): nat
    requires n <= |s.client.sent| && n <= |s.taken|
  {
    if n == 0 then 0 else StreamsWork(s, n - 1) + StreamWork(s, n - 1)
  }

  function Work(s: System): nat
    requires |s.taken| == |s.client.sent|
  {
    8 * |s.toServer| + 2 * |s.toClient| + StreamsWork(s, |s.taken|)
  }

  /** If only stream `id` changes its work, the total changes by as much. */
  lemma {:induction false} OneStreamChanges(s: System, t: System, id: int, n: nat)
    requires n <= |s.client.sent| == |s.taken| && |t.client.sent| == |t.taken| == |s.taken|
    requires forall k: nat :: k < n && k != id ==> StreamWork(t, k) == StreamWork(s, k)
    ensures StreamsWork(t, n) - StreamsWork(s, n) ==
            if 0 <= id < n then StreamWork(t, id) - StreamWork(s, id) else 0
  {
    if n != 0 {
      OneStreamChanges(s, t, id, n - 1);
    }
  }

  lemma InternalMovesUseWork(s: System, e: Event)
    requires Inv(s) && Enabled(s, e) && Internal(e)
    ensures Inv(Next(s, e)) && Work(Next(s, e)) < Work(s)
  {
    hide Inv, Next, Work;
    NextKeepsInv(s, e);
    match e
    case ClientReads => ClientReadsUsesWork(s);
    case ServerReads => ServerReadsUsesWork(s);
    case Take(id) => TakeUsesWork(s, id);
    case Advance(id) => AdvanceUsesWork(s, id);
  }

  lemma ClientReadsUsesWork(s: System)
    requires Inv(s) && Enabled(s, ClientReads)
    ensures Inv(Next(s, ClientReads)) && Work(Next(s, ClientReads)) < Work(s)
  {
    NextKeepsInv(s, ClientReads);
    HeadIsLive(s);
    OneStreamChanges(s, Next(s, ClientReads), s.toClient[0].id, |s.taken|);
  }

  lemma ServerReadsUsesWork(s: System)
    requires Inv(s) && Enabled(s, ServerReads)
    ensures Inv(Next(s, ServerReads)) && Work(Next(s, ServerReads)) < Work(s)
  {
    NextKeepsInv(s, ServerReads);
    var id := s.toServer[0].id;
    assert StreamOk(s, id);
    OneStreamChanges(s, Next(s, ServerReads), id, |s.taken|);
  }

  lemma TakeUsesWork(s: System, id: int)
    requires Inv(s) && Enabled(s, Take(id))
    ensures Inv(Next(s, Take(id))) && Work(Next(s, Take(id))) < Work(s)
  {
    NextKeepsInv(s, Take(id));
    OneStreamChanges(s, Next(s, Take(id)), id, |s.taken|);
  }

  lemma AdvanceUsesWork(s: System, id: int)
    requires Inv(s) && Enabled(s, Advance(id))
    ensures Inv(Next(s, Advance(id))) && Work(Next(s, Advance(id))) < Work(s)
  {
    NextKeepsInv(s, Advance(id));
    assert StreamOk(s, id);
    OneStreamChanges(s, Next(s, Advance(id)), id, |s.taken|);
  }

  /** From every reachable state the internal moves alone, in whatever order, run out after at most
      Work(s) of them, and where they run out everything produced has been delivered. */
  lemma {:induction false} InternalMovesRunOut(s: System, events: seq<Event>, t: System)
    requires Inv(s) && Run(s, events, t) && forall k :: 0 <= k < |events| ==> Internal(events[k])
    ensures Inv(t) && |events| + Work(t) <= Work(s)
    ensures (forall e :: Internal(e) ==> !Enabled(t, e)) ==> Quiet(t)
    decreases |events|
  {
    if events == [] {
      if !Quiet(t) {
        var e := NoDeadlock(t);
      }
    } else {
      InternalMovesUseWork(s, events[0]);
      InternalMovesRunOut(Next(s, events[0]), events[1..], t);
    }
  }

  /** So from every state the system can reach it can always deliver everything produced so far. */
  lemma {:induction false} CanDrain(s: System) returns (events: seq<Event>, t: System)
    requires Inv(s)
    ensures Run(s, events, t) && Quiet(t)
    ensures forall k :: 0 <= k < |events| ==> Internal(events[k])
    decreases Work(s)
  {
    if Quiet(s) {
      events, t := [], s;
    } else {
      var e := NoDeadlock(s);
      InternalMovesUseWork(s, e);
      var rest, u := CanDrain(Next(s, e));
      events, t := [e] + rest, u;
      assert events[1..] == rest;
    }
  }

  // ----- asking a stream to end -----

  /** The live streams that the application asks to end in a run. */
  ghost function Asked(s: System, events: seq<Event>): set<int>
    decreases |events|
  {
    if events == [] || !WellFormed(s.client) || !Enabled(s, events[0]) then {}
    else
      (if events[0].Close? && events[0].id in s.client.live then {events[0].id} else {}) +
      Asked(Next(s, events[0]), events[1..])
  }

  /** The request to end the stream is on its way, behind that to start it, or has been served: the handler's context
      is cancelled, or the handler had ended by itself. */
  ghost predicate Stopping(s: System, id: int) {
    || (exists i :: 0 <= i < |s.toServer| && StopsAt(s, id, i))
    || (id in s.streams && (s.streams[id].cancelled || id !in s.registry))
  }

  ghost predicate StopsAt(s: System, id: int, i: nat)
    requires i < |s.toServer|
  {
    s.toServer[i] == Stop(id) && (id in s.streams || exists j :: 0 <= j < i && s.toServer[j] == Start(id))
  }

  lemma {:induction false} StartIsThere(wire: seq<ClientMessage>, id: int)
    ensures Starts(wire, id) > 0 <==> exists j :: 0 <= j < |wire| && wire[j] == Start(id)
  {
    if wire != [] {
      StartIsThere(wire[1..], id);
      if j :| 0 <= j < |wire| && wire[j] == Start(id) && j > 0 {
        assert wire[1..][j - 1] == Start(id);
      }
      if j :| 0 <= j < |wire[1..]| && wire[1..][j] == Start(id) {
        assert wire[j + 1] == Start(id);
      }
    }
  }

  lemma AskedIsStopping(s: System, id: int)
    requires Inv(s) && id in s.client.live
    ensures Stopping(Next(s, Close(id)), id)
  {
    assert StreamOk(s, id);
    var t := Next(s, Close(id));
    var i := |s.toServer|;
    if id !in s.streams {
      StartIsThere(s.toServer, id);
      var j :| 0 <= j < |s.toServer| && s.toServer[j] == Start(id);
      assert t.toServer[j] == Start(id);
    }
    assert StopsAt(t, id, i);
  }

  lemma WireOnlyGrows(s: System, e: Event, id: int)
    requires Inv(s) && Enabled(s, e) && Stopping(s, id) && !e.ServerReads? && !e.Advance?
    ensures Stopping(Next(s, e), id)
  {
    var t := Next(s, e);
    if i :| 0 <= i < |s.toServer| && StopsAt(s, id, i) {
      assert t.toServer[i] == s.toServer[i];
      if id !in s.streams {
        var j :| 0 <= j < i && s.toServer[j] == Start(id);
        assert t.toServer[j] == Start(id);
      }
      assert StopsAt(t, id, i);
    }
  }

  lemma AdvanceKeepsStopping(s: System, moved: int, id: int)
    requires Inv(s) && Enabled(s, Advance(moved)) && Stopping(s, id)
    ensures Stopping(Next(s, Advance(moved)), id)
  {
    var t := Next(s, Advance(moved));
    assert t.toServer == s.toServer && t.streams.Keys == s.streams.Keys;
    if i :| 0 <= i < |s.toServer| && StopsAt(s, id, i) {
      assert StopsAt(t, id, i);
    }
  }

  lemma ServerKeepsStopping(s: System, id: int)
    requires Inv(s) && Enabled(s, ServerReads) && Stopping(s, id)
    ensures Stopping(Next(s, ServerReads), id)
  {
    var t, head := Next(s, ServerReads), s.toServer[0];
    assert StreamOk(s, id);
    if id in s.streams && (s.streams[id].cancelled || id !in s.registry) {
      assert head != Start(id);
    } else {
      var i :| 0 <= i < |s.toServer| && StopsAt(s, id, i);
      if i > 0 {
        assert t.toServer[i - 1] == Stop(id);
        if id !in s.streams && head != Start(id) {
          var j :| 0 <= j < i && s.toServer[j] == Start(id);
          assert t.toServer[j - 1] == Start(id);
        }
        assert StopsAt(t, id, i - 1);
      }
    }
  }

  lemma NextKeepsStopping(s: System, e: Event, id: int)
    requires Inv(s) && Enabled(s, e) && Stopping(s, id)
    ensures Stopping(Next(s, e), id)
  {
    hide Stopping, Inv;
    match e
    case ServerReads => ServerKeepsStopping(s, id);
    case Advance(moved) => AdvanceKeepsStopping(s, moved, id);
    case _ => WireOnlyGrows(s, e, id);
  }

  lemma {:induction false} StoppingStays(s: System, events: seq<Event>, t: System, id: int)
    requires Inv(s) && Run(s, events, t) && (Stopping(s, id) || id in Asked(s, events))
    ensures Stopping(t, id)
    decreases |events|
  {
    hide Stopping, Next;
    if events != [] {
      var e, next := events[0], Next(s, events[0]);
      NextKeepsInv(s, e);
      if Stopping(s, id) {
        NextKeepsStopping(s, e, id);
      } else if e.Close? && e.id == id && id in s.client.live {
        AskedIsStopping(s, id);
      }
      StoppingStays(next, events[1..], t, id);
    }
  }

  /** Whoever is cancelled was asked to end, or has finished. */
  ghost predicate OnlyAsked(s: System, asked: set<int>) {
    && (forall i :: 0 <= i < |s.toServer| && s.toServer[i].Stop? ==> s.toServer[i].id in asked)
    && (forall id :: id in s.streams && s.streams[id].cancelled ==> id in asked || s.streams[id].at.Finished?)
  }

  lemma NextOnlyAsked(s: System, e: Event, asked: set<int>)
    requires Inv(s) && Enabled(s, e) && OnlyAsked(s, asked)
    ensures OnlyAsked(Next(s, e), asked + if e.Close? && e.id in s.client.live then {e.id} else {})
  {
    hide Inbox, StreamOk;
    if e.ServerReads? {
      assert forall i :: 0 < i < |s.toServer| ==> s.toServer[1..][i - 1] == s.toServer[i];
    }
  }

  lemma {:induction false} RunOnlyAsked(s: System, events: seq<Event>, t: System, asked: set<int>)
    requires Inv(s) && Run(s, events, t) && OnlyAsked(s, asked)
    ensures OnlyAsked(t, asked + Asked(s, events))
    decreases |events|
  {
    hide OnlyAsked, Next;
    if events == [] {
      assert asked + {} == asked;
    } else {
      var now := if events[0].Close? && events[0].id in s.client.live then {events[0].id} else {};
      NextKeepsInv(s, events[0]);
      NextOnlyAsked(s, events[0], asked);
      RunOnlyAsked(Next(s, events[0]), events[1..], t, asked + now);
      assert asked + Asked(s, events) == asked + now + Asked(Next(s, events[0]), events[1..]);
    }
  }

  /** In every run: once the server has read all that was sent to it, the streams it has cancelled before they finished
      are exactly those that the application asked to end while their handlers ran. */
  lemma StopIsServed(events: seq<Event>, s: System, id: int)
    requires Run(INITIAL, events, s)
    ensures id in Asked(INITIAL, events) && s.toServer == [] && id in s.registry ==>
              id in s.streams && s.streams[id].cancelled
    ensures id in Asked(INITIAL, events) ==> Stopping(s, id)
    ensures id in s.streams && s.streams[id].cancelled && !s.streams[id].at.Finished? ==> id in Asked(INITIAL, events)
  {
    InitialInv();
    RunKeepsInv(INITIAL, events, s);
    RunOnlyAsked(INITIAL, events, s, {});
    if id in Asked(INITIAL, events) {
      StoppingStays(INITIAL, events, s, id);
    }
  }
}
