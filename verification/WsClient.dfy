/**
 The client side of the GraphQL-over-WebSocket transport: the actor that owns a
 connection and serves, one command at a time, the requests of the application
 and the messages of the server.

 ClientState and the functions over it say what each command does to the set of
 streams; WsConnection is the actor itself, updating its fields and the
 channels of its streams in place.  A response channel demands that it is open
 whenever it is sent to or closed, so the actor verifying at all means that it
 never sends on a closed channel and never closes one twice.
 */
module WsClient {
  import opened Wrappers

  /** What the client itself tells an application, instead of an answer. */
  datatype StreamError =
    | NotEncoded
    | NotWritten
    | NotDecoded
    | InvalidOperationId(id: int)
    | ServerError(reason: string)
    | ReadError(reason: string)

  datatype Response = Response(body: string) | Failure(error: StreamError)

  /** What the server sends after the handshake; a response that cannot be decoded is a failure, NotDecoded. */
  datatype ServerMessage =
    | Data(id: int, response: Response)
    | Complete(id: int)
    | KeepAlive
    | ConnectionAck
    | ConnectionError(reason: string)

  /** What the client sends after the handshake. */
  datatype ClientMessage = Start(id: int) | Stop(id: int)

  /** The client's streams: `sent[id]` is what was put into the channel of stream `id`; the channels
      of the streams in `live` are open, all others are closed. */
  datatype ClientState = ClientState(sent: seq<seq<Response>>, live: set<int>)

  ghost predicate WellFormed(c: ClientState) {
    forall id :: id in c.live ==> 0 <= id < |c.sent|
  }

  /** A new stream is asked for: it takes the next id once its request is encoded, and lives once it is written. */
  function Opened(c: ClientState, marshalled: bool, written: bool): ClientState {
    if !marshalled then c
    else if !written then c.(sent := c.sent + [[Failure(NotWritten)]])
    else ClientState(c.sent + [[]], c.live + {|c.sent|})
  }

  function Failed(c: ClientState, error: StreamError): ClientState {
    ClientState(
      seq(|c.sent|, id requires 0 <= id < |c.sent| =>
        if id in c.live then c.sent[id] + [Failure(error)] else c.sent[id]),
      {})
  }

  function Received(c: ClientState, m: ServerMessage): ClientState
    requires WellFormed(c)
  {
    match m
    case Data(id, r) =>
      if id in c.live then c.(sent := c.sent[id := c.sent[id] + [r]]) else Failed(c, InvalidOperationId(id))
    case Complete(id) =>
      if id in c.live then c.(live := c.live - {id}) else Failed(c, InvalidOperationId(id))
    case KeepAlive => c
    case ConnectionAck => c
    case ConnectionError(reason) => Failed(c, ServerError(reason))
  }

  /** One command taken by the actor's loop; `marshalled` and `written` are how encoding and the socket behaved. */
  datatype Command =
    | OpenStream(marshalled: bool, written: bool)
    | CloseStream
    | Receive(message: ServerMessage)
    | Disconnect(reason: string)

  function Served(c: ClientState, command: Command): (r: ClientState)
    requires WellFormed(c)
    ensures WellFormed(r)
  {
    match command
    case OpenStream(marshalled, written) => Opened(c, marshalled, written)
    case CloseStream => c
    case Receive(m) => Received(c, m)
    case Disconnect(reason) => Failed(c, ReadError(reason))
  }

  function ServedAll(c: ClientState, commands: seq<Command>): (r: ClientState)
    requires WellFormed(c)
    ensures WellFormed(r)
    decreases |commands|
  {
    if commands == [] then c
    else ServedAll(Served(c, commands[0]), commands[1..])
  }

  // ----- what becomes of each stream, told from the commands -----

  /** The connection breaks: the server reports an error, a message names a stream that is not live, or the socket
      cannot be read. */
  predicate Breaks(live: set<int>, command: Command) {
    match command
    case Receive(Data(id, _)) => id !in live
    case Receive(Complete(id)) => id !in live
    case Receive(ConnectionError(_)) => true
    case Disconnect(_) => true
    case _ => false
  }

  /** `e` tells why. */
  predicate TellsWhy(command: Command, e: StreamError) {
    match command
    case Receive(Data(id, _)) => e == InvalidOperationId(id)
    case Receive(Complete(id)) => e == InvalidOperationId(id)
    case Receive(ConnectionError(reason)) => e == ServerError(reason)
    case Disconnect(reason) => e == ReadError(reason)
    case _ => false
  }

  function After(c: ClientState, commands: seq<Command>, k: nat): (d: ClientState)
    requires WellFormed(c) && k <= |commands|
    ensures WellFormed(d)
  {
    ServedAll(c, commands[..k])
  }

  /** Command `k` ends stream `id`, if it is live. */
  predicate Ends(c: ClientState, commands: seq<Command>, k: nat, id: int)
    requires WellFormed(c) && k < |commands|
  {
    commands[k] == Receive(Complete(id)) || Breaks(After(c, commands, k).live, commands[k])
  }

  /** The responses the server sends for stream `id`. */
  function Payloads(commands: seq<Command>, id: int): seq<Response> {
    if commands == [] then []
    else (match commands[0]
          case Receive(Data(other, r)) => if other == id then [r] else []
          case _ => []) + Payloads(commands[1..], id)
  }

  /** Nothing ends the stream: it is open, and got all its responses. */
  ghost predicate GoesOn(c: ClientState, commands: seq<Command>, id: int, before: seq<Response>, got: seq<Response>,
                         open: bool)
    requires WellFormed(c)
  {
    && open && got == before + Payloads(commands, id)
    && forall k :: 0 <= k < |commands| ==> !Ends(c, commands, k, id)
  }

  /** Command `k` is the first to end the stream: it is closed, and got the responses up to there, and if the
      connection broke one failure that tells why. */
  ghost predicate EndedBy(c: ClientState, commands: seq<Command>, id: int, before: seq<Response>, got: seq<Response>,
                          open: bool, k: nat)
    requires WellFormed(c)
  {
    && k < |commands| && Ends(c, commands, k, id) && !open
    && (forall j :: 0 <= j < k ==> !Ends(c, commands, j, id))
    && before + Payloads(commands[..k], id) <= got
    && var rest := got[|before + Payloads(commands[..k], id)|..];
       if Breaks(After(c, commands, k).live, commands[k])
       then |rest| == 1 && rest[0].Failure? && TellsWhy(commands[k], rest[0].error)
       else rest == []
  }

  /** What becomes of a stream that is live. */
  ghost predicate Told(c: ClientState, commands: seq<Command>, id: int, before: seq<Response>, got: seq<Response>,
                       open: bool)
    requires WellFormed(c)
  {
    GoesOn(c, commands, id, before, got, open) || exists k: nat :: EndedBy(c, commands, id, before, got, open, k)
  }

  /** Command `k` takes up a new stream; its start message is written or not. */
  predicate TakesUp(commands: seq<Command>, k: nat, written: bool) {
    k < |commands| && commands[k] == OpenStream(true, written)
  }

  function Opening(commands: seq<Command>): nat {
    if commands == [] then 0
    else Opening(commands[1..]) + if commands[0].OpenStream? && commands[0].marshalled then 1 else 0
  }

  /** Command `k` takes up stream `id`: if its start could be written, the stream lives from there on, and otherwise
      it is closed with that failure. */
  ghost predicate Begun(c: ClientState, commands: seq<Command>, id: int, got: seq<Response>, open: bool, k: nat)
    requires WellFormed(c)
  {
    && k < |commands| && id == |c.sent| + Opening(commands[..k])
    && commands[k].OpenStream? && commands[k].marshalled
    && if commands[k].written then Told(After(c, commands, k + 1), commands[k + 1..], id, [], got, open)
       else !open && got == [Failure(NotWritten)]
  }

  /** What becomes of any stream, from its opening on. */
  ghost predicate History(c: ClientState, commands: seq<Command>, id: int, got: seq<Response>, open: bool)
    requires WellFormed(c) && 0 <= id
  {
    if id in c.live then Told(c, commands, id, c.sent[id], got, open)
    else if id < |c.sent| then !open && got == c.sent[id]
    else exists k: nat :: Begun(c, commands, id, got, open, k)
  }

  /** Whatever happens on the connection, ids are never reused, what a channel was sent is never
      rewritten, and a channel that is closed stays closed and receives nothing more. */
  lemma {:induction false} ChannelsOnlyGrow(c: ClientState, commands: seq<Command>, id: int)
    requires WellFormed(c) && 0 <= id < |c.sent|
    ensures var d := ServedAll(c, commands);
            && |c.sent| <= |d.sent|
            && c.sent[id] <= d.sent[id]
            && (id !in c.live ==> id !in d.live && d.sent[id] == c.sent[id])
    decreases |commands|
  {
    if commands != [] {
      ChannelsOnlyGrow(Served(c, commands[0]), commands[1..], id);
    }
  }

  /** A break leaves no stream live; each live channel gets one failure that tells why, every other channel nothing. */
  lemma BreakEndsAll(c: ClientState, command: Command)
    requires WellFormed(c) && Breaks(c.live, command)
    ensures var d := Served(c, command);
            && d.live == {} && |d.sent| == |c.sent|
            && forall id :: 0 <= id < |c.sent| ==>
                 if id in c.live
                 then |d.sent[id]| == |c.sent[id]| + 1 && c.sent[id] <= d.sent[id] &&
                      d.sent[id][|c.sent[id]|].Failure? && TellsWhy(command, d.sent[id][|c.sent[id]|].error)
                 else d.sent[id] == c.sent[id]
  {
  }

  /** Nothing else closes a channel, except complete for its id, and nothing else puts anything into one, except data
      for its id; a new channel is empty and open, or holds the failure of its own opening. */
  lemma NothingElse(c: ClientState, command: Command)
    requires WellFormed(c) && !Breaks(c.live, command)
    ensures var d := Served(c, command);
            && |d.sent| == |c.sent| + Opening([command])
            && (forall id :: 0 <= id < |c.sent| ==>
                  && (id in d.live <==> id in c.live && command != Receive(Complete(id)))
                  && d.sent[id] == c.sent[id] + Payloads([command], id))
            && (command.OpenStream? && command.marshalled ==>
                  if command.written then |c.sent| in d.live && d.sent[|c.sent|] == []
                  else |c.sent| !in d.live && d.sent[|c.sent|] == [Failure(NotWritten)])
  {
    hide Failed;
  }

  lemma {:induction false} ServedTogether(c: ClientState, a: seq<Command>, b: seq<Command>)
    requires WellFormed(c)
    ensures ServedAll(c, a + b) == ServedAll(ServedAll(c, a), b)
    decreases |a|
  {
    hide Served;
    if a == [] {
      assert a + b == b;
    } else {
      assert (a + b)[1..] == a[1..] + b;
      ServedTogether(Served(c, a[0]), a[1..], b);
    }
  }

  lemma AfterOne(c: ClientState, commands: seq<Command>, k: nat)
    requires WellFormed(c) && 0 < k <= |commands|
    ensures After(c, commands, k) == After(Served(c, commands[0]), commands[1..], k - 1)
  {
    hide Served;
    assert commands[..k][0] == commands[0] && commands[..k][1..] == commands[1..][..k - 1];
  }

  lemma EndsOneOn(c: ClientState, commands: seq<Command>, k: nat, id: int)
    requires WellFormed(c) && 0 < k < |commands|
    ensures Ends(c, commands, k, id) <==> Ends(Served(c, commands[0]), commands[1..], k - 1, id)
  {
    hide Served, Breaks, After;
    AfterOne(c, commands, k);
  }

  lemma PayloadsOneOn(commands: seq<Command>, id: int, k: nat)
    requires 0 < k <= |commands|
    ensures Payloads(commands[..k], id) == Payloads([commands[0]], id) + Payloads(commands[1..][..k - 1], id)
  {
    assert commands[..k][1..] == commands[1..][..k - 1];
    assert [commands[0]][1..] == [];
  }

  lemma NoPayloads(id: int)
    ensures Payloads([], id) == []
  {
  }

  /** The first command ends the stream: nothing more happens to it. */
  lemma EndedAtOnce(c: ClientState, commands: seq<Command>, id: int)
    requires WellFormed(c) && id in c.live && commands != [] && Ends(c, commands, 0, id)
    ensures (var d := ServedAll(c, commands);
             id < |d.sent| && Told(c, commands, id, c.sent[id], d.sent[id], id in d.live))
  {
    hide Served, Payloads, TellsWhy, ServedAll;
    ServedFirst(c, commands);
    assert commands[..0] == [];
    NoPayloads(id);
    ServedFirst(c, []);
    var d := Served(c, commands[0]);
    if Breaks(c.live, commands[0]) {
      BreakEndsAll(c, commands[0]);
    } else {
      NothingElse(c, commands[0]);
      assert Payloads([commands[0]], id) == [] by { CompleteHasNoPayload(id); }
    }
    ChannelsOnlyGrow(d, commands[1..], id);
    assert EndedBy(c, commands, id, c.sent[id], d.sent[id], false, 0);
  }

  lemma CompleteHasNoPayload(id: int)
    ensures Payloads([Receive(Complete(id))], id) == []
  {
  }

  lemma ServedFirst(c: ClientState, commands: seq<Command>)
    requires WellFormed(c)
    ensures ServedAll(c, commands) ==
            if commands == [] then c
            else ServedAll(Served(c, commands[0]), commands[1..])
  {
  }

  lemma GoesOnBefore(c: ClientState, commands: seq<Command>, id: int, before: seq<Response>, got: seq<Response>,
                     open: bool)
    requires WellFormed(c) && commands != [] && !Ends(c, commands, 0, id)
    requires GoesOn(Served(c, commands[0]), commands[1..], id, before + Payloads([commands[0]], id), got, open)
    ensures GoesOn(c, commands, id, before, got, open)
  {
    hide Served, Ends, Payloads;
    PayloadsOneOn(commands, id, |commands|);
    assert commands[..|commands|] == commands && commands[1..][..|commands| - 1] == commands[1..];
    assert before + Payloads(commands, id) == before + Payloads([commands[0]], id) + Payloads(commands[1..], id);
    forall k | 0 <= k < |commands|
      ensures !Ends(c, commands, k, id)
    {
      if k > 0 {
        EndsOneOn(c, commands, k, id);
      }
    }
  }

  lemma EndedBefore(c: ClientState, commands: seq<Command>, id: int, before: seq<Response>, got: seq<Response>,
                    open: bool, k: nat)
    requires WellFormed(c) && commands != [] && !Ends(c, commands, 0, id)
    requires EndedBy(Served(c, commands[0]), commands[1..], id, before + Payloads([commands[0]], id), got, open, k)
    ensures EndedBy(c, commands, id, before, got, open, k + 1)
  {
    hide Served, Payloads, Ends, After, Breaks, TellsWhy;
    PayloadsOneOn(commands, id, k + 1);
    assert commands[1..][..k + 1 - 1] == commands[1..][..k];
    assert before + Payloads(commands[..k + 1], id) ==
           before + Payloads([commands[0]], id) + Payloads(commands[1..][..k], id);
    AfterOne(c, commands, k + 1);
    forall j | 0 <= j <= k + 1
      ensures Ends(c, commands, j, id) <==> j == k + 1
    {
      if j > 0 {
        EndsOneOn(c, commands, j, id);
      }
    }
  }

  /** Over any run, a live stream gets the responses sent for it until something ends it, and then what it is due. */
  lemma {:induction false} StreamIsTold(c: ClientState, commands: seq<Command>, id: int)
    requires WellFormed(c) && id in c.live
    ensures (var d := ServedAll(c, commands);
             id < |d.sent| && Told(c, commands, id, c.sent[id], d.sent[id], id in d.live))
    decreases |commands|
  {
    hide Served, Breaks, TellsWhy, Payloads, ServedAll, Ends, GoesOn, EndedBy;
    ServedFirst(c, commands);
    if commands == [] {
      NothingYet(c, id);
    } else if Ends(c, commands, 0, id) {
      EndedAtOnce(c, commands, id);
    } else {
      var next, d := Served(c, commands[0]), ServedAll(c, commands);
      StaysLive(c, commands, id);
      StreamIsTold(next, commands[1..], id);
      if GoesOn(next, commands[1..], id, next.sent[id], d.sent[id], id in d.live) {
        GoesOnBefore(c, commands, id, c.sent[id], d.sent[id], id in d.live);
      } else {
        var k: nat :| EndedBy(next, commands[1..], id, next.sent[id], d.sent[id], id in d.live, k);
        EndedBefore(c, commands, id, c.sent[id], d.sent[id], id in d.live, k);
      }
    }
  }

  lemma NothingYet(c: ClientState, id: int)
    requires WellFormed(c) && id in c.live
    ensures GoesOn(c, [], id, c.sent[id], c.sent[id], true)
  {
  }

  lemma StaysLive(c: ClientState, commands: seq<Command>, id: int)
    requires WellFormed(c) && id in c.live && commands != [] && !Ends(c, commands, 0, id)
    ensures var d := Served(c, commands[0]);
            id in d.live && d.sent[id] == c.sent[id] + Payloads([commands[0]], id)
  {
    hide Served, Breaks, Payloads;
    assert commands[..0] == [];
    NothingElse(c, commands[0]);
    ServedFirst(c, commands);
  }

  lemma {:induction false} OpenedSoFar(c: ClientState, commands: seq<Command>)
    requires WellFormed(c)
    ensures |ServedAll(c, commands).sent| == |c.sent| + Opening(commands)
    decreases |commands|
  {
    hide Served, ServedAll;
    ServedFirst(c, commands);
    if commands != [] {
      OneOpened(c, commands[0]);
      OpenedSoFar(Served(c, commands[0]), commands[1..]);
    }
  }

  lemma OneOpened(c: ClientState, command: Command)
    requires WellFormed(c)
    ensures |Served(c, command).sent| ==
            |c.sent| + if command.OpenStream? && command.marshalled then 1 else 0
  {
    hide Payloads;
    if Breaks(c.live, command) {
      BreakEndsAll(c, command);
    } else {
      NothingElse(c, command);
    }
  }

  lemma AfterMore(c: ClientState, commands: seq<Command>, k: nat)
    requires WellFormed(c) && k < |commands|
    ensures After(c, commands, k + 1) == Served(After(c, commands, k), commands[k])
    ensures ServedAll(c, commands) == ServedAll(After(c, commands, k + 1), commands[k + 1..])
    ensures |After(c, commands, k).sent| == |c.sent| + Opening(commands[..k])
  {
    hide Served, ServedAll;
    assert commands[..k + 1] == commands[..k] + [commands[k]];
    ServedTogether(c, commands[..k], [commands[k]]);
    ServedFirst(After(c, commands, k), [commands[k]]);
    ServedFirst(Served(After(c, commands, k), commands[k]), []);
    assert [commands[k]][1..] == [];
    assert commands == commands[..k + 1] + commands[k + 1..];
    ServedTogether(c, commands[..k + 1], commands[k + 1..]);
    OpenedSoFar(c, commands[..k]);
  }

  /** The command that takes up stream `id`. */
  lemma {:induction false} TakenUpBy(commands: seq<Command>, n: nat) returns (k: nat)
    requires n < Opening(commands)
    ensures k < |commands| && Opening(commands[..k]) == n && commands[k].OpenStream? && commands[k].marshalled
    decreases |commands|
  {
    var first := if commands[0].OpenStream? && commands[0].marshalled then 1 else 0;
    if n < first {
      k := 0;
    } else {
      var j := TakenUpBy(commands[1..], n - first);
      k := j + 1;
      assert commands[..k][1..] == commands[1..][..j];
    }
  }

  lemma BegunStory(c: ClientState, commands: seq<Command>, k: nat)
    requires WellFormed(c) && k < |commands| && commands[k].OpenStream? && commands[k].marshalled
    ensures (var id := |c.sent| + Opening(commands[..k]); var d := ServedAll(c, commands);
             id < |d.sent| && Begun(c, commands, id, d.sent[id], id in d.live, k))
  {
    hide Served, ServedAll, After, Opening, Told;
    var before := After(c, commands, k);
    var next := After(c, commands, k + 1);
    AfterMore(c, commands, k);
    NothingElse(before, commands[k]);
    OneOpened(before, commands[k]);
    var id := |before.sent|;
    if commands[k].written {
      StreamIsTold(next, commands[k + 1..], id);
    } else {
      ChannelsOnlyGrow(next, commands[k + 1..], id);
    }
  }

  /** What becomes of every stream in every run. */
  lemma RunIsTold(c: ClientState, commands: seq<Command>, id: nat)
    requires WellFormed(c)
    ensures (var d := ServedAll(c, commands);
             && |d.sent| == |c.sent| + Opening(commands)
             && (id < |d.sent| ==> History(c, commands, id, d.sent[id], id in d.live)))
  {
    hide ServedAll, Opening, Told, Begun;
    OpenedSoFar(c, commands);
    if id in c.live {
      StreamIsTold(c, commands, id);
    } else if id < |c.sent| {
      ChannelsOnlyGrow(c, commands, id);
    } else if id < |c.sent| + Opening(commands) {
      var k := TakenUpBy(commands, id - |c.sent|);
      BegunStory(c, commands, k);
    }
  }

  lemma Pick<T>(ids: set<T>) returns (id: T)
    requires ids != {}
    ensures id in ids
  {
    id :| id in ids;
  }

  class ResponseChannel {
    var sent: seq<Response>
    var closed: bool
    // the stream it belongs to, once that stream is started
    ghost var owner: int

    constructor ()
      ensures sent == [] && !closed
    {
      sent, closed := [], false;
    }

    method Send(r: Response)
      requires !closed
      modifies this`sent
      ensures sent == old(sent) + [r]
    {
      sent := sent + [r];
    }

    method Close()
      requires !closed
      modifies this`closed
      ensures closed
    {
      closed := true;
    }
  }

  class WsOperation {
    var id: int
    const responseChannel: ResponseChannel

    constructor (channel: ResponseChannel)
      ensures responseChannel == channel
    {
      responseChannel := channel;
      id := 0;
    }
  }

  class WsConnection {
    var nextStreamId: int
    var streams: map<int, WsOperation>
    var idleFlag: bool
    var err: Option<StreamError>
    // the outgoing half of the socket
    var written: seq<ClientMessage>
    // the channel of every stream that was ever given an id
    ghost var channels: seq<ResponseChannel>
    // what the fields amount to
    ghost var view: ClientState
    // the objects Valid() depends on
    ghost var operationRepr: set<WsOperation>
    ghost var channelRepr: set<ResponseChannel>

    ghost predicate Holds(id: int)
      requires 0 <= id < |channels| && id < |view.sent|
      reads this, channels[id]
    {
      && channels[id].owner == id
      && channels[id].sent == view.sent[id]
      && (channels[id].closed <==> id !in streams)
    }

    ghost predicate Valid()
      reads this, operationRepr, channelRepr
    {
      && nextStreamId == |channels| == |view.sent|
      && view.live == streams.Keys
      && WellFormed(view)
      && (forall id :: 0 <= id < |channels| ==> channels[id] in channelRepr && Holds(id))
      && (forall id :: id in streams ==>
            streams[id] in operationRepr && streams[id].id == id && streams[id].responseChannel == channels[id])
    }

    constructor ()
      ensures Valid() && view == ClientState([], {}) && written == []
    {
      nextStreamId, streams, idleFlag, err, written := 0, map[], false, None, [];
      channels, view, operationRepr, channelRepr := [], ClientState([], {}), {}, {};
    }

    /** Distinct streams have distinct channels, all of them open while the stream is. */
    lemma OwnChannels()
      requires Valid()
      ensures forall id, other :: id in streams && other in streams && id != other ==>
                streams[id].responseChannel != streams[other].responseChannel
      ensures forall id :: id in streams ==>
                && 0 <= id < nextStreamId
                && streams[id].id == id
                && !streams[id].responseChannel.closed
    {
      forall id | id in streams
        ensures channels[id].owner == id && !streams[id].responseChannel.closed
      {
        assert Holds(id);
      }
    }

    method ServiceError(error: StreamError)
      requires Valid()
      modifies this`streams, this`err, this`view, channelRepr`sent, channelRepr`closed
      ensures Valid() && view == Failed(old(view), error) && streams == map[] && err == Some(error)
    {
      var ids: set<int> := streams.Keys;
      while ids != {}
        invariant ids <= streams.Keys && unchanged(this)
        invariant forall id :: 0 <= id < |channels| && (id in ids || id !in streams) ==> Holds(id)
        invariant forall id :: id in streams && id !in ids ==>
          && channels[id].owner == id
          && channels[id].sent == view.sent[id] + [Failure(error)]
          && channels[id].closed
        decreases ids
      {
        ghost var some := Pick(ids);
        var id :| id in ids;
        var s := streams[id];
        assert Holds(id);
        s.responseChannel.Send(Failure(error));
        s.responseChannel.Close();
        ids := ids - {id};
      }
      view := Failed(view, error);
      streams := map[];
      err := Some(error);
    }

    /** Takes a new operation; the flags say whether its request could be encoded and written. */
    method ServiceOpenOperation(stream: WsOperation, marshalled: bool, sent: bool)
      requires Valid()
      requires stream !in operationRepr && stream.responseChannel !in channelRepr
      requires stream.responseChannel.sent == [] && !stream.responseChannel.closed
      modifies this`nextStreamId, this`streams, this`channels, this`operationRepr, this`channelRepr, this`view,
               this`written, stream, stream.responseChannel
      ensures Valid() && view == Opened(old(view), marshalled, sent)
      ensures marshalled && sent ==>
                && stream.id == old(nextStreamId) && stream.id in streams && streams[stream.id] == stream
                && written == old(written) + [Start(stream.id)]
      ensures channelRepr <= old(channelRepr) + {stream.responseChannel}
      ensures operationRepr <= old(operationRepr) + {stream}
      ensures !(marshalled && sent) ==>
                && stream.responseChannel.closed
                && stream.responseChannel.sent == [Failure(if marshalled then NotWritten else NotEncoded)]
                && unchanged(this`written) && unchanged(this`streams) && stream.id == old(stream.id)
      ensures !marshalled ==> channelRepr == old(channelRepr)
    {
      if !marshalled {
        stream.responseChannel.Send(Failure(NotEncoded));
        stream.responseChannel.Close();
        return;
      }
      var streamId := nextStreamId;
      nextStreamId := nextStreamId + 1;
      channels, channelRepr := channels + [stream.responseChannel], channelRepr + {stream.responseChannel};
      stream.responseChannel.owner := streamId;
      if !sent {
        view := Opened(view, true, false);
        stream.responseChannel.Send(Failure(NotWritten));
        stream.responseChannel.Close();
        return;
      }
      AddStream(stream, streamId);
    }

    /** The start message is written and the stream registered. */
    method AddStream(stream: WsOperation, streamId: nat)
      requires nextStreamId == |channels| == |view.sent| + 1 && streamId == |view.sent| && view.live == streams.Keys &&
               WellFormed(view)
      requires forall id :: 0 <= id < streamId ==> channels[id] in channelRepr && Holds(id)
      requires forall id :: id in streams ==>
                 streams[id] in operationRepr && streams[id].id == id && streams[id].responseChannel == channels[id]
      requires stream !in operationRepr && channels[streamId] == stream.responseChannel &&
               stream.responseChannel in channelRepr
      requires stream.responseChannel.owner == streamId && stream.responseChannel.sent == [] &&
               !stream.responseChannel.closed
      modifies this`streams, this`operationRepr, this`view, this`written, stream
      ensures Valid() && view == Opened(old(view), true, true) && operationRepr == old(operationRepr) + {stream}
      ensures stream.id == streamId && stream.id in streams && streams[stream.id] == stream
      ensures written == old(written) + [Start(streamId)]
    {
      written := written + [Start(streamId)];
      view := Opened(view, true, true);
      stream.id := streamId;
      streams := streams[streamId := stream];
      operationRepr := operationRepr + {stream};
    }

    /** Asks the server to end a stream; the stream itself stays until the server says it is complete. */
    method ServiceCloseOperation(stream: WsOperation)
      requires Valid()
      modifies this`written
      ensures Valid() && view == old(view)
      ensures written == if stream.id in streams then old(written) + [Stop(stream.id)] else old(written)
    {
      if stream.id !in streams {
        return;
      }
      written := written + [Stop(stream.id)];
    }

    /** Finds a live stream; an id that is not live fails the whole connection. */
    method ServiceOperation(id: int) returns (found: bool)
      requires Valid()
      modifies this`streams, this`err, this`view, channelRepr`sent, channelRepr`closed
      ensures Valid()
      ensures found <==> id in old(streams)
      ensures found ==> unchanged(this) && unchanged(channelRepr)
      ensures !found ==> view == Failed(old(view), InvalidOperationId(id))
    {
      found := id in streams;
      if !found {
        ServiceError(InvalidOperationId(id));
      }
    }

    method ServiceData(id: int, response: Response)
      requires Valid()
      modifies this`streams, this`err, this`view, channelRepr`sent, channelRepr`closed
      ensures Valid() && view == Received(old(view), Data(id, response))
    {
      var found := ServiceOperation(id);
      if found {
        streams[id].responseChannel.Send(response);
        view := Received(view, Data(id, response));
      }
    }

    method ServiceComplete(id: int)
      requires Valid()
      modifies this`streams, this`err, this`view, channelRepr`sent, channelRepr`closed
      ensures Valid() && view == Received(old(view), Complete(id))
    {
      var found := ServiceOperation(id);
      if found {
        var stream := streams[id];
        streams := streams - {stream.id};
        stream.responseChannel.Close();
        view := Received(view, Complete(id));
      }
    }

    method ServiceRead(m: ServerMessage)
      requires Valid()
      modifies this`streams, this`err, this`view, channelRepr`sent, channelRepr`closed
      ensures Valid() && view == Received(old(view), m)
    {
      match m
      case Data(id, response) => ServiceData(id, response);
      case Complete(id) => ServiceComplete(id);
      case KeepAlive =>
      case ConnectionAck =>
      case ConnectionError(reason) => ServiceError(ServerError(reason));
    }

    // ----- the loop -----

    /** The streams still to be opened are new, with channels of their own that are empty and open. */
    ghost predicate Fresh(requests: seq<Request>)
      reads this, Channels(requests)
    {
      && (forall i :: 0 <= i < |requests| && requests[i].OpenOf? ==>
            && requests[i].stream !in operationRepr && requests[i].stream.responseChannel !in channelRepr
            && requests[i].stream.responseChannel.sent == [] && !requests[i].stream.responseChannel.closed)
      && Distinct(requests)
    }

    lemma ChannelsAreTold(c: ClientState, commands: seq<Command>)
      requires Valid() && WellFormed(c) && view == ServedAll(c, commands)
      ensures |channels| == |c.sent| + Opening(commands)
      ensures forall id :: 0 <= id < |channels| ==> History(c, commands, id, channels[id].sent, !channels[id].closed)
    {
      hide ServedAll, Opening, History;
      RunIsTold(c, commands, 0);
      forall id | 0 <= id < |channels|
        ensures History(c, commands, id, channels[id].sent, !channels[id].closed)
      {
        RunIsTold(c, commands, id);
        assert Holds(id);
      }
    }

    lemma ViewIsWellFormed()
      requires Valid()
      ensures WellFormed(view)
    {
    }

    lemma FreshIsDistinct(requests: seq<Request>)
      requires Fresh(requests)
      ensures Distinct(requests)
    {
    }

    /** Serves requests one after another, until reading from the socket fails.  `ids` are the ids that the streams to
        be closed had when they were. */
    method Service(requests: seq<Request>) returns (ghost ids: seq<int>)
      requires Valid() && Fresh(requests)
      modifies this, channelRepr, Channels(requests), Streams(requests)
      ensures Valid() && view == ServedAll(old(view), Commands(requests))
      ensures |channels| == |old(view).sent| + Opening(Commands(requests))
      ensures forall id :: 0 <= id < |channels| ==>
                History(old(view), Commands(requests), id, channels[id].sent, !channels[id].closed)
      ensures |ids| <= |requests| && (|ids| == |requests| || (ids != [] && requests[|ids| - 1].ReadFailed?))
      ensures written == old(written) + AllOutgoing(old(view), requests[..|ids|], ids)
      ensures forall i :: 0 <= i < |ids| && requests[i].CloseOf? ==>
                KnownAs(old(view), requests[..i], requests[i].stream, ids[i], old(requests[i].stream.id))
      ensures forall i :: 0 <= i < |ids| && IsUnencoded(requests[i]) ==> Refused(requests[i].stream.responseChannel)
    {
      hide Served, Commands, ServedAll, Opening, KnownAs, AllOutgoing, Outgoing, History, Valid, NoneFailed, Fresh,
           Distinct;
      ghost var reprs := channelRepr;
      assert requests[0..] == requests;
      ViewIsWellFormed();
      NothingServed(view, requests);
      assert Distinct(requests) by { FreshIsDistinct(requests); }
      ids := [];
      for i := 0 to |requests|
        invariant Valid() && Fresh(requests[i..]) && Distinct(requests)
        invariant channelRepr <= reprs + Channels(requests)
        invariant view == ServedAll(old(view), Commands(requests[..i])) && NoneFailed(requests[..i])
        invariant forall k :: 0 <= k < i && IsUnencoded(requests[k]) ==> Refused(requests[k].stream.responseChannel)
        invariant |ids| == i && written == old(written) + AllOutgoing(old(view), requests[..i], ids)
        invariant forall s :: s in Closers(requests) ==> KnownAs(old(view), requests[..i], s, s.id, old(s.id))
        invariant forall k :: 0 <= k < i && requests[k].CloseOf? ==>
          KnownAs(old(view), requests[..k], requests[k].stream, ids[k], old(requests[k].stream.id))
      {
        assert requests[i..][0] == requests[i] && requests[i..][1..] == requests[i + 1..];
        assert requests[i] in requests;
        ghost var id := StreamId(requests[i]);
        assert requests[i].CloseOf? ==> requests[i].stream in Closers(requests);
        RequestsSoFar(old(view), requests, i, ids, id);
        OneMoreCommand(old(view), requests, i);
        NoneFailedYet(requests, i);
        label turn:
        ServeOne(requests[i], requests[i..]);
        ids := ids + [id];
        forall k | 0 <= k < i && IsUnencoded(requests[k])
          ensures Refused(requests[k].stream.responseChannel)
        {
          OtherChannel(requests, k, i);
          assert old@turn(Refused(requests[k].stream.responseChannel));
          assert requests[k].stream.responseChannel !in Channels([requests[i]]);
        }
        forall s | s in Closers(requests)
          ensures KnownAs(old(view), requests[..i + 1], s, s.id, old(s.id))
        {
          OneMoreKnown(old(view), requests, i, s, old@turn(s.id), s.id, old(s.id));
        }
        if requests[i].ReadFailed? {
          ChannelsAreTold(old(view), Commands(requests));
          return;
        }
      }
      assert requests[..|requests|] == requests;
      ChannelsAreTold(old(view), Commands(requests));
    }

    /** The channel of a request that could not be encoded: it never belongs to a stream. */
    ghost predicate Refused(channel: ResponseChannel)
      reads this, channel
    {
      channel !in channelRepr && channel.closed && channel.sent == [Failure(NotEncoded)]
    }

    /** One turn of the loop. */
    method ServeOne(request: Request, ghost requests: seq<Request>)
      requires Valid() && requests != [] && request == requests[0] && Fresh(requests)
      modifies this, channelRepr, Channels([request]), Streams([request])
      ensures Valid() && Fresh(requests[1..])
      ensures channelRepr <= old(channelRepr) + Channels([request])
      ensures view == if request.Tick? then old(view) else Served(old(view), AsCommand(request))
      ensures request.OpenOf? ==>
                request.stream.id == (if TakenUp(request) then |old(view).sent| else old(request.stream.id))
      ensures written == old(written) + Outgoing(old(view), request, StreamId(request))
      ensures IsUnencoded(request) ==> Refused(request.stream.responseChannel) && channelRepr == old(channelRepr)
    {
      assert request == requests[0] && request in [request];
      match request
      case OpenOf(stream, marshalled, sent) =>
        idleFlag := false;
        ServiceOpenOperation(stream, marshalled, sent);
      case CloseOf(stream) =>
        idleFlag := false;
        ServiceCloseOperation(stream);
      case Message(m) =>
        idleFlag := false;
        ServiceRead(m);
      case ReadFailed(reason) =>
        ServiceError(ReadError(reason));
      case Tick =>
        idleFlag := true;
    }
  }

  /** What arrives at the loop: requests of the application, with how encoding and writing will go, messages from the
      socket, a failure to read from it, and the ticks of a timer. */
  datatype Request =
    | OpenOf(stream: WsOperation, marshalled: bool, sent: bool)
    | CloseOf(stream: WsOperation)
    | Message(m: ServerMessage)
    | ReadFailed(reason: string)
    | Tick

  /** No stream is opened twice. */
  ghost predicate Distinct(requests: seq<Request>) {
    forall i, j :: 0 <= i < j < |requests| && requests[i].OpenOf? && requests[j].OpenOf? ==>
      && requests[i].stream != requests[j].stream
      && requests[i].stream.responseChannel != requests[j].stream.responseChannel
  }

  lemma OtherChannel(requests: seq<Request>, i: nat, j: nat)
    requires Distinct(requests) && i < j < |requests| && requests[i].OpenOf?
    ensures requests[i].stream.responseChannel !in Channels([requests[j]])
  {
  }

  lemma NothingServed(c: ClientState, requests: seq<Request>)
    requires WellFormed(c)
    ensures requests[..0] == [] && ServedAll(c, Commands([])) == c && NoneFailed([])
    ensures AllOutgoing(c, [], []) == []
    ensures forall s, id :: KnownAs(c, [], s, id, id)
  {
  }

  /** The stream gets an id. */
  predicate TakenUp(r: Request) {
    r.OpenOf? && r.marshalled && r.sent
  }

  predicate IsUnencoded(r: Request) {
    r.OpenOf? && !r.marshalled
  }

  ghost function StreamId(r: Request): int
    reads if r.CloseOf? then {r.stream} else {}
  {
    if r.CloseOf? then r.stream.id else 0
  }

  /** What a request makes the client write, `id` being that of the stream it is to close. */
  function Outgoing(c: ClientState, r: Request, id: int): seq<ClientMessage> {
    if TakenUp(r) then [Start(|c.sent|)]
    else if r.CloseOf? && id in c.live then [Stop(id)] else []
  }

  ghost function AllOutgoing(c: ClientState, requests: seq<Request>, ids: seq<int>): seq<ClientMessage>
    requires WellFormed(c) && |ids| == |requests|
  {
    if requests == [] then []
    else
      var n := |requests| - 1;
      AllOutgoing(c, requests[..n], ids[..n]) +
      Outgoing(ServedAll(c, Commands(requests[..n])), requests[n], ids[n])
  }

  /** A stream's id is the one it got when it was taken up, or else the one it had. */
  ghost predicate KnownAs(c: ClientState, requests: seq<Request>, s: WsOperation, id: int, before: int)
  {
    && (forall k | 0 <= k < |requests| :: TakenUp(requests[k]) && requests[k].stream == s ==>
          id == |c.sent| + Opening(Commands(requests[..k])))
    && ((forall k | 0 <= k < |requests| :: TakenUp(requests[k]) ==> requests[k].stream != s) ==> id == before)
  }

  ghost function Closers(requests: seq<Request>): set<WsOperation> {
    set r | r in requests && r.CloseOf? :: r.stream
  }

  lemma RequestsSoFar(c: ClientState, requests: seq<Request>, i: nat, ids: seq<int>, id: int)
    requires WellFormed(c) && i < |requests| && |ids| == i
    ensures AllOutgoing(c, requests[..i + 1], ids + [id]) ==
            AllOutgoing(c, requests[..i], ids) + Outgoing(ServedAll(c, Commands(requests[..i])), requests[i], id)
  {
    assert requests[..i + 1][..i] == requests[..i] && (ids + [id])[..i] == ids;
  }

  lemma NoneFailedYet(requests: seq<Request>, i: nat)
    requires i < |requests| && NoneFailed(requests[..i])
    ensures !requests[i].ReadFailed? ==> NoneFailed(requests[..i + 1])
  {
    assert requests[..i + 1] == requests[..i] + [requests[i]];
  }

  lemma {:induction false} CommandsAppend(requests: seq<Request>, i: nat)
    requires i < |requests| && NoneFailed(requests[..i])
    ensures Commands(requests[..i + 1]) ==
            Commands(requests[..i]) + if requests[i].Tick? then [] else [AsCommand(requests[i])]
    ensures requests[i].ReadFailed? ==> Commands(requests) == Commands(requests[..i + 1])
  {
    if i == 0 {
      assert requests[..1][1..] == [];
    } else {
      var rest := requests[1..];
      assert requests[..i][1..] == rest[..i - 1] && requests[..i + 1][1..] == rest[..i];
      assert requests[0] in requests[..i];
      assert forall r :: r in rest[..i - 1] ==> r in requests[..i];
      CommandsAppend(rest, i - 1);
    }
  }

  lemma OneMoreCommand(c: ClientState, requests: seq<Request>, i: nat)
    requires WellFormed(c) && i < |requests| && NoneFailed(requests[..i])
    ensures (var before := ServedAll(c, Commands(requests[..i]));
             ServedAll(c, Commands(requests[..i + 1])) ==
             if requests[i].Tick? then before else Served(before, AsCommand(requests[i])))
    ensures requests[i].ReadFailed? ==> Commands(requests) == Commands(requests[..i + 1])
    ensures |ServedAll(c, Commands(requests[..i])).sent| == |c.sent| + Opening(Commands(requests[..i]))
  {
    hide Served, Commands;
    CommandsAppend(requests, i);
    OpenedSoFar(c, Commands(requests[..i]));
    if !requests[i].Tick? {
      var one := [AsCommand(requests[i])];
      ServedTogether(c, Commands(requests[..i]), one);
      ServedFirst(ServedAll(c, Commands(requests[..i])), one);
      assert one[1..] == [];
    } else {
      assert Commands(requests[..i]) + [] == Commands(requests[..i]);
    }
  }

  lemma OneMoreKnown(c: ClientState, requests: seq<Request>, i: nat, s: WsOperation, known: int, id: int, before: int)
    requires i < |requests| && KnownAs(c, requests[..i], s, known, before)
    requires TakenUp(requests[i]) && requests[i].stream == s ==> id == |c.sent| + Opening(Commands(requests[..i]))
    requires !(TakenUp(requests[i]) && requests[i].stream == s) ==> id == known
    requires Distinct(requests)
    ensures KnownAs(c, requests[..i + 1], s, id, before)
  {
    var more := requests[..i + 1];
    assert forall k :: 0 <= k <= i ==> more[k] == requests[k] && more[..k] == requests[..k];
    assert forall k :: 0 <= k < i ==> requests[..i][k] == requests[k] && requests[..i][..k] == requests[..k];
  }

  ghost predicate NoneFailed(requests: seq<Request>) {
    forall r :: r in requests ==> !r.ReadFailed?
  }

  ghost function Channels(requests: seq<Request>): set<ResponseChannel> {
    set r | r in requests && r.OpenOf? :: r.stream.responseChannel
  }

  ghost function Streams(requests: seq<Request>): set<WsOperation> {
    set r | r in requests && r.OpenOf? :: r.stream
  }

  ghost function AsCommand(r: Request): Command
    requires !r.Tick?
  {
    match r
    case OpenOf(_, marshalled, sent) => OpenStream(marshalled, sent)
    case CloseOf(_) => CloseStream
    case Message(m) => Receive(m)
    case ReadFailed(reason) => Disconnect(reason)
  }

  /** The commands the loop takes: nothing after a failure to read. */
  ghost function Commands(requests: seq<Request>): seq<Command> {
    if requests == [] then []
    else if requests[0].Tick? then Commands(requests[1..])
    else if requests[0].ReadFailed? then [AsCommand(requests[0])]
    else [AsCommand(requests[0])] + Commands(requests[1..])
  }

  lemma CommandsOfRest(c: ClientState, requests: seq<Request>)
    requires requests != [] && WellFormed(c)
    ensures ServedAll(c, Commands(requests)) ==
            if requests[0].Tick? then ServedAll(c, Commands(requests[1..]))
            else if requests[0].ReadFailed? then Served(c, AsCommand(requests[0]))
            else ServedAll(Served(c, AsCommand(requests[0])), Commands(requests[1..]))
  {
    if !requests[0].Tick? {
      var commands := Commands(requests);
      assert requests[0].ReadFailed? ==> commands[1..] == [];
      assert !requests[0].ReadFailed? ==> commands[1..] == Commands(requests[1..]);
    }
  }
}
